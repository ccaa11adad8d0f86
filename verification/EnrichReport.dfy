/** Enriching an index report from a catalog: every environment of a package gains a synthetic repository for each
    match whose own repository it does not list. Go walks the packages in any order; the outcome is the same. */
module EnrichReport {
  import opened Text
  import Nevra
  import CatalogIndex

  type Match = CatalogIndex.Match

  const REPOSITORY_KEY := "rhel-cpe-repository"

  datatype Repo = Repo(id: string, key: string, uri: string, cpe: string)

  /** The environments of one package; nil entries are possible. */
  type Slots = seq<Option<seq<string>>>

  datatype Report = Report(packages: map<string, Option<Nevra.Package>>, environments: map<string, Slots>,
                           repositories: map<string, Repo>)

  datatype Diagnostics = Diagnostics(inspected: nat, matches: nat, unmapped: nat, added: nat)

  /** What the catalog says of a package. */
  datatype Found = NotParsed | LookupFailed | Matches(ms: seq<Match>)

  /** Parsing and looking up, CPE unbinding (None when invalid), and the synthetic repository ID of a match. */
  datatype Tools = Tools(find: Option<Nevra.Package> -> Found, unbind: string -> Option<string>,
                         syn: Match -> string)

  /** ParsePackage and Lookup, as one query of the catalog; `lookup` is None when the reader fails. */
  function FindIn(lookup: Nevra.Nevra -> Option<seq<Match>>, pkg: Option<Nevra.Package>): Found {
    match Nevra.ParsePackage(pkg)
    case Err(_) => NotParsed
    case Ok(n) => if lookup(n).None? then LookupFailed else Matches(lookup(n).value)
  }

  predicate Valid(t: Tools, ms: seq<Match>) { forall i :: 0 <= i < |ms| ==> t.unbind(ms[i].cpe).Some? }

  /** A package the enrichment stops at. */
  predicate Bad(t: Tools, f: Found) { f.LookupFailed? || (f.Matches? && !Valid(t, f.ms)) }

  /** When the enrichment passes a package: it does not parse, or its lookup succeeds and every CPE found unbinds. */
  lemma GoodIff(t: Tools, lookup: Nevra.Nevra -> Option<seq<Match>>, pkg: Option<Nevra.Package>)
    requires t.find(pkg) == FindIn(lookup, pkg)
    ensures !Bad(t, t.find(pkg)) <==>
              var n := Nevra.ParsePackage(pkg);
              n.Ok? ==> lookup(n.value).Some? && forall m :: m in lookup(n.value).value ==> t.unbind(m.cpe).Some?
    ensures var n := Nevra.ParsePackage(pkg);
            MatchesOf(t.find(pkg)) == if n.Ok? && lookup(n.value).Some? then lookup(n.value).value else []
  {
    var n := Nevra.ParsePackage(pkg);
    if n.Ok? && lookup(n.value).Some? {
      var ms := lookup(n.value).value;
      assert (forall m :: m in ms ==> t.unbind(m.cpe).Some?) <==>
             forall i :: 0 <= i < |ms| ==> t.unbind(ms[i].cpe).Some?;
    }
  }

  function MatchesOf(f: Found): seq<Match> { if f.Matches? then f.ms else [] }

  function RepoOf(t: Tools, m: Match): Repo {
    Repo(t.syn(m), REPOSITORY_KEY, m.repositoryID,
         if t.unbind(m.cpe).Some? then t.unbind(m.cpe).value else "")
  }

  // ---- One environment ----

  function EnvAfter(t: Tools, env: seq<string>, ms: seq<Match>): seq<string> {
    if ms == [] then env
    else
      var before, m := EnvAfter(t, env, ms[..|ms| - 1]), ms[|ms| - 1];
      if m.repositoryID in before || t.syn(m) in before then before else before + [t.syn(m)]
  }

  lemma EnvSnoc(t: Tools, env: seq<string>, ms: seq<Match>, i: nat)
    requires i < |ms|
    ensures var before, m := EnvAfter(t, env, ms[..i]), ms[i];
            EnvAfter(t, env, ms[..i + 1])
            == if m.repositoryID in before || t.syn(m) in before then before else before + [t.syn(m)]
  {
    assert ms[..i + 1][..i] == ms[..i];
  }

  lemma {:induction false} EnvGrows(t: Tools, env: seq<string>, ms: seq<Match>, i: nat, j: nat)
    requires i <= j <= |ms|
    ensures EnvAfter(t, env, ms[..i]) <= EnvAfter(t, env, ms[..j])
  {
    if i < j {
      EnvGrows(t, env, ms, i, j - 1);
      EnvStep(t, env, ms, j - 1);
      PrefixTrans(EnvAfter(t, env, ms[..i]), EnvAfter(t, env, ms[..j - 1]), EnvAfter(t, env, ms[..j]));
    }
  }

  lemma EnvStep(t: Tools, env: seq<string>, ms: seq<Match>, i: nat)
    requires i < |ms|
    ensures EnvAfter(t, env, ms[..i]) <= EnvAfter(t, env, ms[..i + 1])
  {
    EnvSnoc(t, env, ms, i);
  }

  lemma PrefixTrans(a: seq<string>, b: seq<string>, c: seq<string>)
    requires a <= b <= c
    ensures a <= c
  {
  }

  /** The repository a match asks for when its turn comes: it is not listed by the environment. */
  ghost predicate UsesAt(t: Tools, env: seq<string>, ms: seq<Match>, i: int, id: string) {
    0 <= i < |ms| && t.syn(ms[i]) == id && ms[i].repositoryID !in EnvAfter(t, env, ms[..i])
  }

  ghost predicate Uses(t: Tools, env: seq<string>, ms: seq<Match>, id: string) {
    exists i :: UsesAt(t, env, ms, i, id)
  }

  ghost predicate Covers(t: Tools, env: seq<string>, m: Match) { m.repositoryID in env || t.syn(m) in env }

  /** Afterwards the environment covers every match, by its repository or by its synthetic one. */
  lemma EnvCovers(t: Tools, env: seq<string>, ms: seq<Match>)
    ensures forall m :: m in ms ==> Covers(t, EnvAfter(t, env, ms), m)
  {
    assert ms[..|ms|] == ms;
    forall i | 0 <= i < |ms| ensures Covers(t, EnvAfter(t, env, ms), ms[i]) {
      EnvSnoc(t, env, ms, i);
      EnvGrows(t, env, ms, i + 1, |ms|);
      PrefixMembers(EnvAfter(t, env, ms[..i + 1]), EnvAfter(t, env, ms));
    }
  }

  lemma PrefixMembers(a: seq<string>, b: seq<string>)
    requires a <= b
    ensures forall x :: x in a ==> x in b
  {
    assert forall k :: 0 <= k < |a| ==> a[k] == b[k];
  }

  /** And it has gained nothing but what some match asked for. */
  lemma {:induction false} EnvGainsOnlyUsed(t: Tools, env: seq<string>, ms: seq<Match>, n: nat, id: string)
    requires n <= |ms| && id in EnvAfter(t, env, ms[..n])
    ensures id in env || Uses(t, env, ms, id)
  {
    if n > 0 {
      EnvSnoc(t, env, ms, n - 1);
      if id in EnvAfter(t, env, ms[..n - 1]) {
        EnvGainsOnlyUsed(t, env, ms, n - 1, id);
      } else {
        assert UsesAt(t, env, ms, n - 1, id);
      }
    }
  }

  lemma {:induction false} EnvCovered(t: Tools, env: seq<string>, ms: seq<Match>)
    requires forall m :: m in ms ==> Covers(t, env, m)
    ensures EnvAfter(t, env, ms) == env
  {
    if ms != [] {
      var init := ms[..|ms| - 1];
      EnvCovered(t, env, init);
      assert ms[|ms| - 1] in ms;
    }
  }

  /** A second pass leaves the environment alone, and asks for no repository the first did not ask for. */
  lemma EnvIdempotent(t: Tools, env: seq<string>, ms: seq<Match>)
    ensures EnvAfter(t, EnvAfter(t, env, ms), ms) == EnvAfter(t, env, ms)
    ensures forall id :: Uses(t, EnvAfter(t, env, ms), ms, id) ==> Uses(t, env, ms, id)
  {
    var after := EnvAfter(t, env, ms);
    EnvCovers(t, env, ms);
    EnvCovered(t, after, ms);
    assert ms[..|ms|] == ms;
    forall id | Uses(t, after, ms, id) ensures Uses(t, env, ms, id) {
      var i :| UsesAt(t, after, ms, i, id);
      EnvCovered(t, after, ms[..i]);
      EnvGrows(t, env, ms, i, |ms|);
      assert UsesAt(t, env, ms, i, id);
    }
  }

  // ---- All environments of a package ----

  function SlotAfter(t: Tools, slot: Option<seq<string>>, ms: seq<Match>): Option<seq<string>> {
    if slot.None? then None else Some(EnvAfter(t, slot.value, ms))
  }

  function SlotsAfter(t: Tools, slots: Slots, ms: seq<Match>): (r: Slots)
    ensures |r| == |slots| && forall i :: 0 <= i < |slots| ==> r[i] == SlotAfter(t, slots[i], ms)
  {
    if slots == [] then [] else [SlotAfter(t, slots[0], ms)] + SlotsAfter(t, slots[1..], ms)
  }

  ghost predicate Wanted(t: Tools, slots: Slots, ms: seq<Match>, id: string) {
    exists i :: 0 <= i < |slots| && slots[i].Some? && Uses(t, slots[i].value, ms, id)
  }

  // ---- The whole report ----

  function SlotsOf(environments: map<string, Slots>, p: string): Slots {
    if p in environments then environments[p] else []
  }

  function MatchesFor(t: Tools, r: Report, p: string): seq<Match> {
    if p in r.packages then MatchesOf(t.find(r.packages[p])) else []
  }

  ghost predicate WantedFor(t: Tools, r: Report, p: string, id: string) {
    Wanted(t, SlotsOf(r.environments, p), MatchesFor(t, r, p), id)
  }

  ghost predicate WantedBy(t: Tools, r: Report, done: set<string>, id: string) {
    exists p :: p in done && WantedFor(t, r, p, id)
  }

  /** A repository made for a match of one of these packages. */
  ghost predicate Made(t: Tools, r: Report, done: set<string>, id: string, repo: Repo) {
    exists p, m :: p in done && p in r.packages && m in MatchesFor(t, r, p) && t.syn(m) == id && repo == RepoOf(t, m)
  }

  ghost predicate RepositoriesEnriched(t: Tools, r: Report, repositories: map<string, Repo>, done: set<string>) {
    && (forall id :: id in repositories <==> id in r.repositories || WantedBy(t, r, done, id))
    && (forall id :: id in r.repositories ==> repositories[id] == r.repositories[id])
    && (forall id :: id in repositories && id !in r.repositories ==> Made(t, r, done, id, repositories[id]))
  }

  ghost predicate EnvironmentsEnriched(t: Tools, r: Report, environments: map<string, Slots>, done: set<string>) {
    && environments.Keys == r.environments.Keys
    && forall p :: p in r.environments ==>
         environments[p] == if p in done then SlotsAfter(t, r.environments[p], MatchesFor(t, r, p))
                            else r.environments[p]
  }

  /** The report after the packages in `done` have been dealt with. */
  ghost predicate Enriched(t: Tools, before: Report, after: Report, done: set<string>) {
    && after.packages == before.packages
    && EnvironmentsEnriched(t, before, after.environments, done)
    && RepositoriesEnriched(t, before, after.repositories, done)
  }

  ghost predicate Injective(t: Tools, r: Report) {
    forall p, m, q, n ::
      p in r.packages && m in MatchesFor(t, r, p) && q in r.packages && n in MatchesFor(t, r, q) ==>
        t.syn(m) == t.syn(n) ==> m == n
  }

  /** The report reached does not depend on the order in which the packages were visited. */
  lemma OrderDoesNotMatter(t: Tools, before: Report, a: Report, b: Report, done: set<string>)
    requires Enriched(t, before, a, done) && Enriched(t, before, b, done) && Injective(t, before)
    ensures a == b
  {
    assert a.environments == b.environments;
    forall id | id in a.repositories ensures id in b.repositories && a.repositories[id] == b.repositories[id] {
      if id !in before.repositories {
        assert Made(t, before, done, id, a.repositories[id]) && Made(t, before, done, id, b.repositories[id]);
        var p, m :| p in before.packages && m in MatchesFor(t, before, p) && t.syn(m) == id
                    && a.repositories[id] == RepoOf(t, m);
        var q, n :| q in before.packages && n in MatchesFor(t, before, q) && t.syn(n) == id
                    && b.repositories[id] == RepoOf(t, n);
        assert m == n;
      }
    }
    assert a.repositories.Keys == b.repositories.Keys;
    assert a.repositories == b.repositories;
  }

  /** Enriching only adds: every package, environment entry, repository ID and repository stays as it was. */
  lemma OnlyAdds(t: Tools, before: Report, after: Report, done: set<string>)
    requires Enriched(t, before, after, done)
    ensures after.packages == before.packages && after.environments.Keys == before.environments.Keys
    ensures forall p :: p in before.environments ==>
              && |after.environments[p]| == |before.environments[p]|
              && forall i :: 0 <= i < |before.environments[p]| ==>
                   if before.environments[p][i].None? then after.environments[p][i].None?
                   else after.environments[p][i].Some?
                        && before.environments[p][i].value <= after.environments[p][i].value
    ensures forall id :: id in before.repositories ==>
              id in after.repositories && after.repositories[id] == before.repositories[id]
  {
    forall p, i | p in before.environments && 0 <= i < |before.environments[p]| && before.environments[p][i].Some?
      ensures after.environments[p][i].Some? && before.environments[p][i].value <= after.environments[p][i].value
    {
      var env, ms := before.environments[p][i].value, MatchesFor(t, before, p);
      EnvGrows(t, env, ms, 0, |ms|);
      assert ms[..|ms|] == ms && ms[..0] == [];
    }
  }

  /** No synthetic ID is left dangling: an ID an environment gained names a repository of the report. */
  lemma GainedIdsResolve(t: Tools, before: Report, after: Report, done: set<string>, p: string, i: nat, id: string)
    requires Enriched(t, before, after, done)
    requires p in before.environments && i < |before.environments[p]| && before.environments[p][i].Some?
    requires id in SlotsAfter(t, before.environments[p], MatchesFor(t, before, p))[i].value
    requires p in done && id !in before.environments[p][i].value
    ensures after.environments[p][i].Some? && id in after.environments[p][i].value && id in after.repositories
  {
    var env, ms := before.environments[p][i].value, MatchesFor(t, before, p);
    assert ms[..|ms|] == ms;
    EnvGainsOnlyUsed(t, env, ms, |ms|, id);
    assert Wanted(t, SlotsOf(before.environments, p), ms, id);
    assert WantedFor(t, before, p, id);
  }

  /** Enriching again changes nothing. */
  lemma Idempotent(t: Tools, before: Report, once: Report, twice: Report, done: set<string>)
    requires Enriched(t, before, once, done) && Enriched(t, once, twice, done)
    ensures twice == once
  {
    forall p | p in once.environments ensures twice.environments[p] == once.environments[p] {
      SlotsIdempotent(t, before, once, done, p);
    }
    assert twice.environments == once.environments;
    forall id | id in twice.repositories ensures id in once.repositories {
      if id !in once.repositories {
        var p :| p in done && WantedFor(t, once, p, id);
        WantedOnlyOnce(t, before, once, done, p, id);
      }
    }
    assert twice.repositories.Keys == once.repositories.Keys;
    assert twice.repositories == once.repositories;
  }

  lemma SlotsIdempotent(t: Tools, before: Report, once: Report, done: set<string>, p: string)
    requires EnvironmentsEnriched(t, before, once.environments, done) && once.packages == before.packages
    requires p in once.environments
    ensures p in done ==> SlotsAfter(t, once.environments[p], MatchesFor(t, once, p)) == once.environments[p]
  {
    var ms := MatchesFor(t, before, p);
    assert MatchesFor(t, once, p) == ms;
    if p in done {
      var slots := once.environments[p];
      forall i | 0 <= i < |slots| ensures SlotAfter(t, slots[i], ms) == slots[i] {
        if slots[i].Some? {
          EnvIdempotent(t, before.environments[p][i].value, ms);
        }
      }
    }
  }

  lemma WantedOnlyOnce(t: Tools, before: Report, once: Report, done: set<string>, p: string, id: string)
    requires EnvironmentsEnriched(t, before, once.environments, done) && once.packages == before.packages
    requires p in done && WantedFor(t, once, p, id)
    ensures WantedFor(t, before, p, id)
  {
    var ms := MatchesFor(t, before, p);
    assert MatchesFor(t, once, p) == ms;
    var slots := SlotsOf(once.environments, p);
    var i :| 0 <= i < |slots| && slots[i].Some? && Uses(t, slots[i].value, ms, id);
    EnvIdempotent(t, before.environments[p][i].value, ms);
    assert Uses(t, SlotsOf(before.environments, p)[i].value, ms, id);
  }

  // ---- Synthetic IDs ----

  function SyntheticInput(m: Match): string { m.repositoryID + ['\0'] + m.cpe }

  /** `digest` is hexadecimal SHA-256. */
  function Synthetic(digest: string -> string, m: Match): string {
    REPOSITORY_KEY + "-" + digest(SyntheticInput(m))
  }

  /** The ID's fixed prefix, and what is hashed: up to its first NUL byte it is the repository. */
  lemma SyntheticParts(digest: string -> string, m: Match)
    requires '\0' !in m.repositoryID
    ensures Synthetic(digest, m) == "rhel-cpe-repository-" + digest(SyntheticInput(m))
    ensures var s := SyntheticInput(m); var i := IndexByte(s, '\0');
            i >= 0 && s[..i] == m.repositoryID && s[i + 1..] == m.cpe
  {
    var s := SyntheticInput(m);
    assert s[|m.repositoryID|] == '\0';
    Nevra.FirstByteAt(m.repositoryID, '\0', m.cpe);
    assert REPOSITORY_KEY + "-" == "rhel-cpe-repository-";
  }

  lemma OnlyNul(a: Match, b: Match)
    requires '\0' !in a.repositoryID && '\0' !in a.cpe && SyntheticInput(a) == SyntheticInput(b)
    ensures a == b
  {
    var s, n, k := SyntheticInput(a), |a.repositoryID|, |b.repositoryID|;
    assert forall j :: 0 <= j < |s| && j != n ==> s[j] != '\0';
    assert s[k] == '\0';
    assert s[..n] == a.repositoryID && s[..k] == b.repositoryID && s[n + 1..] == a.cpe && s[k + 1..] == b.cpe;
  }

  /** A synthetic ID names one (repository, CPE) pair among all if and only if neither part contains a NUL byte,
      provided the digest is injective. */
  lemma SyntheticIdentifiesIff(digest: string -> string, a: Match)
    requires forall x, y :: digest(x) == digest(y) ==> x == y
    ensures (forall b: Match :: Synthetic(digest, b) == Synthetic(digest, a) ==> b == a) <==>
            '\0' !in a.repositoryID && '\0' !in a.cpe
  {
    if '\0' !in a.repositoryID && '\0' !in a.cpe {
      forall b: Match | Synthetic(digest, b) == Synthetic(digest, a) ensures b == a {
        assert digest(SyntheticInput(a)) == Synthetic(digest, a)[|REPOSITORY_KEY| + 1..];
        assert digest(SyntheticInput(b)) == Synthetic(digest, b)[|REPOSITORY_KEY| + 1..];
        OnlyNul(a, b);
      }
    } else {
      var b;
      if '\0' in a.repositoryID {
        var i :| 0 <= i < |a.repositoryID| && a.repositoryID[i] == '\0';
        CutAt(a.repositoryID, i);
        b := CatalogIndex.Match(a.repositoryID[..i], a.repositoryID[i + 1..] + ['\0'] + a.cpe);
      } else {
        var i :| 0 <= i < |a.cpe| && a.cpe[i] == '\0';
        CutAt(a.cpe, i);
        b := CatalogIndex.Match(a.repositoryID + ['\0'] + a.cpe[..i], a.cpe[i + 1..]);
      }
      assert SyntheticInput(b) == SyntheticInput(a);
      assert Synthetic(digest, b) == Synthetic(digest, a) && |b.repositoryID| != |a.repositoryID|;
    }
  }

  // ---- Walking the report ----

  /** The repositories gained in one step: those in `used`, each made for one of the matches. */
  ghost predicate Grown(t: Tools, before: map<string, Repo>, after: map<string, Repo>, ms: seq<Match>,
                        used: set<string>) {
    && (forall id :: id in after <==> id in before || id in used)
    && (forall id :: id in before ==> after[id] == before[id])
    && (forall id :: id in after && id !in before ==> MadeFrom(t, ms, id, after[id]))
  }

  ghost predicate MadeFrom(t: Tools, ms: seq<Match>, id: string, repo: Repo) {
    exists m :: m in ms && t.syn(m) == id && repo == RepoOf(t, m)
  }

  lemma GrownTwice(t: Tools, a: map<string, Repo>, b: map<string, Repo>, c: map<string, Repo>, ms: seq<Match>,
                   u: set<string>, v: set<string>)
    requires Grown(t, a, b, ms, u) && Grown(t, b, c, ms, v)
    ensures Grown(t, a, c, ms, u + v)
  {
  }

  lemma GrownOne(t: Tools, a: map<string, Repo>, b: map<string, Repo>, ms: seq<Match>, m: Match)
    requires m in ms && b == if t.syn(m) in a then a else a[t.syn(m) := RepoOf(t, m)]
    ensures Grown(t, a, b, ms, {t.syn(m)})
    ensures |b| == |a| + if t.syn(m) in a then 0 else 1
  {
    assert MadeFrom(t, ms, t.syn(m), RepoOf(t, m));
    assert t.syn(m) !in a ==> b.Keys == a.Keys + {t.syn(m)};
  }

  /** The IDs asked for by the first n matches. */
  ghost predicate UsedUpTo(t: Tools, env: seq<string>, ms: seq<Match>, n: nat, used: set<string>) {
    forall id :: id in used <==> exists i :: i < n && UsesAt(t, env, ms, i, id)
  }

  lemma UsedOneMore(t: Tools, env: seq<string>, ms: seq<Match>, n: nat, used: set<string>)
    requires n < |ms| && UsedUpTo(t, env, ms, n, used)
    ensures UsedUpTo(t, env, ms, n + 1,
                     if ms[n].repositoryID in EnvAfter(t, env, ms[..n]) then used else used + {t.syn(ms[n])})
  {
    forall id
      ensures (exists i :: i < n + 1 && UsesAt(t, env, ms, i, id)) <==> id in used || UsesAt(t, env, ms, n, id)
    {
      if i :| i < n + 1 && UsesAt(t, env, ms, i, id) {
        assert i < n ==> id in used;
      }
    }
  }

  /** The IDs asked for by the first n environments. */
  ghost predicate WantedUpTo(t: Tools, slots: Slots, ms: seq<Match>, n: nat, used: set<string>) {
    forall id :: id in used <==>
                 exists i :: 0 <= i < n && i < |slots| && slots[i].Some? && Uses(t, slots[i].value, ms, id)
  }

  lemma WantedOneMore(t: Tools, slots: Slots, ms: seq<Match>, n: nat, used: set<string>, more: set<string>)
    requires n < |slots| && WantedUpTo(t, slots, ms, n, used)
    requires slots[n].None? ==> more == {}
    requires slots[n].Some? ==> forall id :: id in more <==> Uses(t, slots[n].value, ms, id)
    ensures WantedUpTo(t, slots, ms, n + 1, used + more)
  {
    forall id
      ensures (exists i :: 0 <= i < n + 1 && i < |slots| && slots[i].Some? && Uses(t, slots[i].value, ms, id)) <==>
              (exists i :: 0 <= i < n && i < |slots| && slots[i].Some? && Uses(t, slots[i].value, ms, id))
              || (slots[n].Some? && Uses(t, slots[n].value, ms, id))
    {}
  }

  lemma EnvironmentsStep(t: Tools, before: Report, mid: map<string, Slots>, after: map<string, Slots>,
                         done: set<string>, p: string)
    requires EnvironmentsEnriched(t, before, mid, done) && p !in done
    requires after == if p in mid then mid[p := SlotsAfter(t, mid[p], MatchesFor(t, before, p))] else mid
    ensures EnvironmentsEnriched(t, before, after, done + {p})
  {
  }

  lemma RepositoriesStep(t: Tools, before: Report, mid: map<string, Repo>, after: map<string, Repo>,
                         done: set<string>, p: string, used: set<string>)
    requires RepositoriesEnriched(t, before, mid, done) && p in before.packages
    requires Grown(t, mid, after, MatchesFor(t, before, p), used)
    requires forall id :: id in used <==> WantedFor(t, before, p, id)
    ensures RepositoriesEnriched(t, before, after, done + {p})
  {
    forall id ensures WantedBy(t, before, done + {p}, id) <==> WantedBy(t, before, done, id) || id in used {
      if WantedBy(t, before, done, id) {
        var q :| q in done && WantedFor(t, before, q, id);
        assert q in done + {p};
      }
      if id in used {
        assert p in done + {p};
      }
    }
    forall id | id in after && id !in before.repositories ensures Made(t, before, done + {p}, id, after[id]) {
      if id !in mid {
        var m :| m in MatchesFor(t, before, p) && t.syn(m) == id && after[id] == RepoOf(t, m);
        assert p in done + {p};
      } else {
        var q, m :| q in done && q in before.packages && m in MatchesFor(t, before, q) && t.syn(m) == id
                    && mid[id] == RepoOf(t, m);
        assert q in done + {p};
      }
    }
  }

  // ---- Counting ----

  ghost predicate Unmapped(t: Tools, r: Report, p: string) { MatchesFor(t, r, p) == [] }

  ghost function UnmappedOf(t: Tools, r: Report, done: set<string>): set<string> {
    set p | p in done && Unmapped(t, r, p)
  }

  function Numbered(p: string, n: nat): set<(string, int)> { set i | 0 <= i < n :: (p, i) }

  /** The matches of some packages, package by package. */
  ghost function MatchedOf(t: Tools, r: Report, done: set<string>): set<(string, int)> {
    set p, i | p in done && 0 <= i < |MatchesFor(t, r, p)| :: (p, i)
  }

  lemma {:induction false} NumberedSize(p: string, n: nat)
    ensures |Numbered(p, n)| == n
  {
    if n > 0 {
      NumberedSize(p, n - 1);
      assert Numbered(p, n) == Numbered(p, n - 1) + {(p, n - 1)};
    }
  }

  ghost predicate Counted(t: Tools, r: Report, done: set<string>, d: Diagnostics) {
    && d.inspected == |done|
    && d.unmapped == |UnmappedOf(t, r, done)|
    && d.matches == |MatchedOf(t, r, done)|
  }

  lemma MatchedOneMore(t: Tools, r: Report, done: set<string>, p: string)
    requires p !in done
    ensures |MatchedOf(t, r, done + {p})| == |MatchedOf(t, r, done)| + |MatchesFor(t, r, p)|
  {
    var n := |MatchesFor(t, r, p)|;
    NumberedSize(p, n);
    assert MatchedOf(t, r, done + {p}) == MatchedOf(t, r, done) + Numbered(p, n);
    assert MatchedOf(t, r, done) !! Numbered(p, n);
  }

  lemma UnmappedOneMore(t: Tools, r: Report, done: set<string>, p: string)
    requires p !in done
    ensures |UnmappedOf(t, r, done + {p})| == |UnmappedOf(t, r, done)| + if Unmapped(t, r, p) then 1 else 0
  {
    if Unmapped(t, r, p) {
      assert UnmappedOf(t, r, done + {p}) == UnmappedOf(t, r, done) + {p};
    } else {
      assert UnmappedOf(t, r, done + {p}) == UnmappedOf(t, r, done);
    }
  }

  lemma CountOneMore(t: Tools, r: Report, done: set<string>, p: string, d: Diagnostics, e: Diagnostics)
    requires Counted(t, r, done, d) && p !in done
    requires e.inspected == d.inspected + 1 && e.matches == d.matches + |MatchesFor(t, r, p)|
    requires e.unmapped == d.unmapped + if Unmapped(t, r, p) then 1 else 0
    ensures Counted(t, r, done + {p}, e)
  {
    MatchedOneMore(t, r, done, p);
    UnmappedOneMore(t, r, done, p);
  }

  // ---- The enrichment itself ----

  function WithSlot(environments: map<string, Slots>, p: string, k: nat, ids: seq<string>): map<string, Slots>
    requires p in environments && k < |environments[p]|
  {
    environments[p := environments[p][k := Some(ids)]]
  }

  lemma SameSlot(environments: map<string, Slots>, p: string, k: nat)
    requires p in environments && k < |environments[p]| && environments[p][k].Some?
    ensures WithSlot(environments, p, k, environments[p][k].value) == environments
    ensures forall ids, more ::
              WithSlot(WithSlot(environments, p, k, ids), p, k, more) == WithSlot(environments, p, k, more)
  {
    var slots := environments[p];
    assert slots[k := slots[k]] == slots;
    forall ids: seq<string>, more: seq<string>
      ensures WithSlot(WithSlot(environments, p, k, ids), p, k, more) == WithSlot(environments, p, k, more)
    {
      assert slots[k := Some(ids)][k := Some(more)] == slots[k := Some(more)];
    }
  }

  /** The environments when the first k of a package are done. */
  ghost function Partly(t: Tools, environments: map<string, Slots>, p: string, ms: seq<Match>, k: nat):
    map<string, Slots>
    requires p in environments && k <= |environments[p]|
  {
    environments[p := SlotsAfter(t, environments[p], ms)[..k] + environments[p][k..]]
  }

  lemma PartlyEnds(t: Tools, environments: map<string, Slots>, p: string, ms: seq<Match>)
    requires p in environments
    ensures environments == Partly(t, environments, p, ms, 0)
    ensures environments[p := SlotsAfter(t, environments[p], ms)]
         == Partly(t, environments, p, ms, |environments[p]|)
  {
    var slots, all := environments[p], SlotsAfter(t, environments[p], ms);
    assert all[..0] + slots[0..] == slots && all[..|slots|] + slots[|slots|..] == all;
  }

  lemma PartlyNext(t: Tools, environments: map<string, Slots>, p: string, ms: seq<Match>, k: nat)
    requires p in environments && k < |environments[p]|
    ensures var now, next := Partly(t, environments, p, ms, k), Partly(t, environments, p, ms, k + 1);
            && p in now && |now[p]| == |environments[p]| && now[p][k] == environments[p][k]
            && next == if now[p][k].None? then now else WithSlot(now, p, k, EnvAfter(t, now[p][k].value, ms))
  {
    var slots, all := environments[p], SlotsAfter(t, environments[p], ms);
    assert (all[..k] + slots[k..])[k := all[k]] == all[..k + 1] + slots[k + 1..];
    assert slots[k].None? ==> (all[..k] + slots[k..])[k := all[k]] == all[..k] + slots[k..];
  }

  /** What attaching one package's matches does to a report. */
  ghost predicate Attached(t: Tools, mid: Report, after: Report, p: string, ms: seq<Match>, used: set<string>) {
    && after.packages == mid.packages
    && after.environments == (if p in mid.environments
                              then mid.environments[p := SlotsAfter(t, mid.environments[p], ms)]
                              else mid.environments)
    && (forall id :: id in used <==> Wanted(t, SlotsOf(mid.environments, p), ms, id))
    && Grown(t, mid.repositories, after.repositories, ms, used)
  }

  lemma NothingAttached(t: Tools, r: Report, p: string)
    ensures Attached(t, r, r, p, [], {})
  {
    if p in r.environments {
      assert SlotsAfter(t, r.environments[p], []) == r.environments[p];
      assert r.environments == r.environments[p := r.environments[p]];
    }
  }

  lemma SameSlots(t: Tools, before: Report, mid: map<string, Slots>, done: set<string>, p: string)
    requires EnvironmentsEnriched(t, before, mid, done) && p !in done
    ensures SlotsOf(mid, p) == SlotsOf(before.environments, p)
  {
  }

  lemma EnrichedOneMore(t: Tools, before: Report, mid: Report, after: Report, done: set<string>, p: string,
                        used: set<string>)
    requires Enriched(t, before, mid, done) && p in before.packages && p !in done
    requires Attached(t, mid, after, p, MatchesFor(t, before, p), used)
    ensures Enriched(t, before, after, done + {p})
  {
    SameSlots(t, before, mid.environments, done, p);
    EnvironmentsStep(t, before, mid.environments, after.environments, done, p);
    RepositoriesStep(t, before, mid.repositories, after.repositories, done, p, used);
  }

  ghost predicate AllGood(t: Tools, r: Report, done: set<string>) {
    forall p :: p in done && p in r.packages ==> !Bad(t, t.find(r.packages[p]))
  }

  lemma GoodOneMore(t: Tools, r: Report, done: set<string>, p: string)
    requires AllGood(t, r, done) && (p in r.packages ==> !Bad(t, t.find(r.packages[p])))
    ensures AllGood(t, r, done + {p})
  {
  }

  /** The enrichment gave up at p, having dealt with the packages in `done` and no other. */
  ghost predicate StoppedAt(t: Tools, before: Report, after: Report, done: set<string>, p: string) {
    && done <= before.packages.Keys && p in before.packages && p !in done
    && Bad(t, t.find(before.packages[p])) && AllGood(t, before, done)
    && Enriched(t, before, after, done)
  }

  lemma StopsHere(t: Tools, before: Report, after: Report, done: set<string>, p: string)
    requires done <= before.packages.Keys && p in before.packages && p !in done
    requires Bad(t, t.find(before.packages[p])) && AllGood(t, before, done) && Enriched(t, before, after, done)
    ensures StoppedAt(t, before, after, done, p) && !AllGood(t, before, before.packages.Keys)
  {
    assert p in before.packages.Keys;
  }

  /** What a repository made for a match contains. */
  ghost predicate TellsMatch(t: Tools, m: Match, id: string, repo: Repo) {
    && repo.id == id == t.syn(m) && repo.key == "rhel-cpe-repository"
    && repo.uri == m.repositoryID && Some(repo.cpe) == t.unbind(m.cpe)
  }

  ghost predicate TellsAMatch(t: Tools, r: Report, done: set<string>, id: string, repo: Repo) {
    exists p, m :: p in done && p in r.packages && m in MatchesFor(t, r, p) && TellsMatch(t, m, id, repo)
  }

  /** Every repository added names the match of some package that was dealt with: under the synthetic ID, its
      repository is the URI and its CPE, unbound, the CPE. */
  lemma AddedTellsAMatch(t: Tools, before: Report, after: Report, done: set<string>, id: string)
    requires RepositoriesEnriched(t, before, after.repositories, done) && AllGood(t, before, done)
    requires id in after.repositories && id !in before.repositories
    ensures TellsAMatch(t, before, done, id, after.repositories[id])
  {
    var p, m :| p in done && p in before.packages && m in MatchesFor(t, before, p) && t.syn(m) == id
                && after.repositories[id] == RepoOf(t, m);
    assert TellsMatch(t, m, id, after.repositories[id]);
  }

  lemma AllAddedTell(t: Tools, before: Report, after: Report, done: set<string>)
    requires Enriched(t, before, after, done) && AllGood(t, before, done) && done <= before.packages.Keys
    ensures forall id :: id in after.repositories && id !in before.repositories ==>
              TellsAMatch(t, before, before.packages.Keys, id, after.repositories[id])
  {
    forall id | id in after.repositories && id !in before.repositories
      ensures TellsAMatch(t, before, before.packages.Keys, id, after.repositories[id])
    {
      AddedTellsAMatch(t, before, after, done, id);
      var p, m :| p in done && p in before.packages && m in MatchesFor(t, before, p)
                  && TellsMatch(t, m, id, after.repositories[id]);
      assert p in before.packages.Keys;
    }
  }

  lemma OneLess(done: set<string>, left: set<string>, p: string)
    requires done !! left && p in left
    ensures (done + {p}) !! (left - {p}) && (done + {p}) + (left - {p}) == done + left
  {
  }

  lemma NothingDone(t: Tools, before: Report)
    ensures Enriched(t, before, before, {}) && Counted(t, before, {}, Diagnostics(0, 0, 0, 0))
  {
    assert UnmappedOf(t, before, {}) == {} && MatchedOf(t, before, {}) == {};
  }

  datatype Failure = LookupError(p: string) | InvalidCpe(cpe: string)

  ghost predicate FirstInvalid(t: Tools, ms: seq<Match>, i: int) {
    0 <= i < |ms| && t.unbind(ms[i].cpe).None? && Valid(t, ms[..i])
  }

  /** What the enrichment reports of a package it stops at. */
  ghost predicate Reports(t: Tools, found: Found, p: string, f: Failure) {
    match found
    case NotParsed => false
    case LookupFailed => f == LookupError(p)
    case Matches(ms) => exists i :: FirstInvalid(t, ms, i) && f == InvalidCpe(ms[i].cpe)
  }

  /** Unbinds the CPE of every match. */
  method CheckMatches(t: Tools, ms: seq<Match>) returns (failure: Option<Failure>)
    ensures failure.None? <==> Valid(t, ms)
    ensures failure.Some? ==> exists i :: FirstInvalid(t, ms, i) && failure == Some(InvalidCpe(ms[i].cpe))
  {
    var i := 0;
    while i < |ms|
      invariant 0 <= i <= |ms| && forall j :: 0 <= j < i ==> t.unbind(ms[j].cpe).Some?
    {
      if t.unbind(ms[i].cpe).None? {
        assert FirstInvalid(t, ms, i);
        return Some(InvalidCpe(ms[i].cpe));
      }
      i := i + 1;
    }
    failure := None;
  }

  class IndexReport {
    var packages: map<string, Option<Nevra.Package>>
    var environments: map<string, Slots>
    var repositories: map<string, Repo>

    ghost function R(): Report
      reads this
    {
      Report(packages, environments, repositories)
    }

    constructor (r: Report)
      ensures R() == r
    {
      packages, environments, repositories := r.packages, r.environments, r.repositories;
    }

    /** One match against one environment: nothing if its repository is listed; otherwise its synthetic repository
        is made unless it exists, and listed unless it is. */
    method EnrichMatch(t: Tools, p: string, k: nat, m: Match, ghost ms: seq<Match>) returns (added: nat)
      requires p in environments && k < |environments[p]| && environments[p][k].Some? && m in ms
      modifies `environments, `repositories
      ensures var ids := old(environments[p])[k].value;
              && environments == WithSlot(old(environments), p, k,
                                          if m.repositoryID in ids || t.syn(m) in ids then ids else ids + [t.syn(m)])
              && Grown(t, old(repositories), repositories, ms, if m.repositoryID in ids then {} else {t.syn(m)})
      ensures added == |repositories| - |old(repositories)|
    {
      added := 0;
      var ids := environments[p][k].value;
      SameSlot(environments, p, k);
      if m.repositoryID in ids {
        return;
      }
      GrownOne(t, repositories, if t.syn(m) in repositories then repositories
                                else repositories[t.syn(m) := RepoOf(t, m)], ms, m);
      if t.syn(m) !in repositories {
        repositories := repositories[t.syn(m) := RepoOf(t, m)];
        added := 1;
      }
      if t.syn(m) !in ids {
        environments := WithSlot(environments, p, k, ids + [t.syn(m)]);
      }
    }

    /** All matches of a package against one of its environments. */
    method EnrichEnvironment(t: Tools, p: string, k: nat, ms: seq<Match>) returns (added: nat, ghost used: set<string>)
      requires p in environments && k < |environments[p]| && environments[p][k].Some?
      modifies `environments, `repositories
      ensures environments ==
              WithSlot(old(environments), p, k, EnvAfter(t, old(environments[p])[k].value, ms))
      ensures forall id :: id in used <==> Uses(t, old(environments[p])[k].value, ms, id)
      ensures Grown(t, old(repositories), repositories, ms, used)
      ensures added == |repositories| - |old(repositories)|
    {
      added, used := 0, {};
      ghost var env := environments[p][k].value;
      SameSlot(environments, p, k);
      var i := 0;
      while i < |ms|
        invariant 0 <= i <= |ms|
        invariant environments == WithSlot(old(environments), p, k, EnvAfter(t, env, ms[..i]))
        invariant UsedUpTo(t, env, ms, i, used)
        invariant Grown(t, old(repositories), repositories, ms, used)
        invariant added == |repositories| - |old(repositories)|
      {
        EnvSnoc(t, env, ms, i);
        UsedOneMore(t, env, ms, i, used);
        ghost var before, listed := repositories, ms[i].repositoryID in EnvAfter(t, env, ms[..i]);
        var more := EnrichMatch(t, p, k, ms[i], ms);
        GrownTwice(t, old(repositories), before, repositories, ms, used, if listed then {} else {t.syn(ms[i])});
        used := used + if listed then {} else {t.syn(ms[i])};
        added := added + more;
        i := i + 1;
      }
      assert ms[..i] == ms;
    }

    /** One entry of a package's environments, which may be nil. */
    method EnrichSlot(t: Tools, p: string, k: nat, ms: seq<Match>, ghost slots0: map<string, Slots>,
                      ghost used0: set<string>)
      returns (added: nat, ghost used: set<string>)
      requires p in slots0 && k < |slots0[p]| && environments == Partly(t, slots0, p, ms, k)
      requires p in environments && k < |environments[p]|
      requires WantedUpTo(t, slots0[p], ms, k, used0)
      modifies `environments, `repositories
      ensures environments == Partly(t, slots0, p, ms, k + 1)
      ensures p in environments && |environments[p]| == |slots0[p]|
      ensures WantedUpTo(t, slots0[p], ms, k + 1, used0 + used)
      ensures Grown(t, old(repositories), repositories, ms, used)
      ensures added == |repositories| - |old(repositories)|
    {
      added, used := 0, {};
      PartlyNext(t, slots0, p, ms, k);
      if environments[p][k].Some? {
        added, used := EnrichEnvironment(t, p, k, ms);
      }
      WantedOneMore(t, slots0[p], ms, k, used0, used);
    }

    /** All environments of a package. */
    method EnrichPackage(t: Tools, p: string, ms: seq<Match>) returns (added: nat, ghost used: set<string>)
      modifies `environments, `repositories
      ensures environments == if p in old(environments)
                              then old(environments)[p := SlotsAfter(t, old(environments)[p], ms)]
                              else old(environments)
      ensures forall id :: id in used <==> Wanted(t, SlotsOf(old(environments), p), ms, id)
      ensures Grown(t, old(repositories), repositories, ms, used)
      ensures added == |repositories| - |old(repositories)|
    {
      added, used := 0, {};
      if p !in environments {
        return;
      }
      ghost var slots := environments[p];
      PartlyEnds(t, environments, p, ms);
      var k := 0;
      while k < |environments[p]|
        invariant p in environments && |environments[p]| == |slots| && 0 <= k <= |slots|
        invariant environments == Partly(t, old(environments), p, ms, k)
        invariant WantedUpTo(t, slots, ms, k, used)
        invariant Grown(t, old(repositories), repositories, ms, used)
        invariant added == |repositories| - |old(repositories)|
        decreases |slots| - k
      {
        ghost var before := repositories;
        var n;
        ghost var more;
        n, more := EnrichSlot(t, p, k, ms, old(environments), used);
        GrownTwice(t, old(repositories), before, repositories, ms, used, more);
        added, used := added + n, used + more;
        k := k + 1;
      }
      assert forall id :: id in used <==> Wanted(t, slots, ms, id);
    }

    /** One package: parsed, looked up, its matches checked before anything is changed, then attached. */
    method EnrichOne(t: Tools, p: string, d: Diagnostics, ghost before: Report, ghost done: set<string>)
      returns (e: Diagnostics, failure: Option<Failure>)
      requires p in packages && p !in done
      requires Enriched(t, before, R(), done) && Counted(t, before, done, d)
      modifies `environments, `repositories
      ensures failure.None? <==> !Bad(t, t.find(before.packages[p]))
      ensures failure.None? ==> Enriched(t, before, R(), done + {p}) && Counted(t, before, done + {p}, e)
      ensures failure.Some? ==> Reports(t, t.find(before.packages[p]), p, failure.value)
      ensures failure.Some? ==> R() == old(R()) && e.inspected == d.inspected + 1 && e.unmapped == d.unmapped
      ensures e.added - d.added == |repositories| - |old(repositories)|
    {
      e := d.(inspected := d.inspected + 1);
      failure := None;
      var found := t.find(packages[p]);
      var ms := MatchesOf(found);
      if found.LookupFailed? {
        failure := Some(LookupError(p));
        return;
      }
      ghost var used := {};
      if ms == [] {
        e := e.(unmapped := e.unmapped + 1);
        NothingAttached(t, R(), p);
      } else {
        e := e.(matches := e.matches + |ms|);
        failure := CheckMatches(t, ms);
        if failure.Some? {
          return;
        }
        var added;
        added, used := EnrichPackage(t, p, ms);
        e := e.(added := e.added + added);
      }
      CountOneMore(t, before, done, p, d, e);
      EnrichedOneMore(t, before, old(R()), R(), done, p, used);
    }

    /** EnrichIndexReport. It fails exactly when some package's lookup fails or gives an invalid CPE, whatever the
        order; then the packages before that one are enriched and that one is not. */
    method Enrich(t: Tools) returns (d: Diagnostics, failure: Option<Failure>)
      modifies `environments, `repositories
      ensures failure.None? <==> AllGood(t, old(R()), packages.Keys)
      ensures failure.None? ==> Enriched(t, old(R()), R(), packages.Keys) && Counted(t, old(R()), packages.Keys, d)
      ensures failure.Some? ==>
                exists done, p :: StoppedAt(t, old(R()), R(), done, p) && d.inspected == |done| + 1
                                  && Reports(t, t.find(packages[p]), p, failure.value)
      ensures forall id :: id in repositories && id !in old(repositories) ==>
                TellsAMatch(t, old(R()), packages.Keys, id, repositories[id])
      ensures d.added == |repositories| - |old(repositories)|
    {
      d, failure := Diagnostics(0, 0, 0, 0), None;
      ghost var before, done := R(), {};
      NothingDone(t, before);
      var left := packages.Keys;
      while left != {}
        invariant failure.None? && done !! left && done + left == packages.Keys
        invariant Enriched(t, before, R(), done) && Counted(t, before, done, d)
        invariant AllGood(t, before, done)
        invariant d.added == |repositories| - |old(repositories)|
        decreases |left|
      {
        var p :| p in left;
        d, failure := EnrichOne(t, p, d, before, done);
        if failure.Some? {
          StopsHere(t, before, R(), done, p);
          AllAddedTell(t, before, R(), done);
          return;
        }
        GoodOneMore(t, before, done, p);
        OneLess(done, left, p);
        done, left := done + {p}, left - {p};
      }
      assert done == packages.Keys;
      AllAddedTell(t, before, R(), done);
    }
  }
}

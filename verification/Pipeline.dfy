/** From repository rows to an enriched report: what the environments of a package gain is what the rows and the
    mapping relate to it, no more and no less. */
module Pipeline {
  import opened Text
  import opened Nevra
  import opened CatalogIndex
  import opened Generate
  import E = EnrichReport

  /** The pair the rows and the mapping relate to a package. */
  ghost predicate Related(ids: seq<string>, mapping: Mapping, query: Query, n: Nevra, m: Match) {
    m.repositoryID in ids && HasRow(query, m.repositoryID, n.Key()) && m.cpe in CpesOf(mapping, m.repositoryID)
  }

  /** The tools of an enrichment that reads the catalog c. */
  ghost predicate Reads(t: E.Tools, c: Catalog) {
    forall pkg :: t.find(pkg) == E.FindIn(n => Some(Lookup(c.packages, n)), pkg)
  }

  lemma MatchesAreRelated(c: Catalog, ids: seq<string>, mapping: Mapping, query: Query, t: E.Tools, r: E.Report,
                          p: string)
    requires Generates(c, ids, mapping, query) && Reads(t, c) && p in r.packages
    requires ParsePackage(r.packages[p]).Ok?
    ensures E.MatchesFor(t, r, p) == Lookup(c.packages, ParsePackage(r.packages[p]).value)
    ensures forall m :: m in E.MatchesFor(t, r, p) <==>
                        Related(ids, mapping, query, ParsePackage(r.packages[p]).value, m)
  {
    LookupIsExact(c, ids, mapping, query, ParsePackage(r.packages[p]).value);
    assert t.find(r.packages[p]) == E.FindIn(n => Some(Lookup(c.packages, n)), r.packages[p]);
  }

  /** After generating a catalog and enriching a report from it, every environment of a package that parses lists,
      for each pair related to the package, the repository itself or its synthetic ID; and every ID it gained is
      the synthetic ID of a related pair and resolves in the report. */
  lemma EnrichmentIsExact(c: Catalog, ids: seq<string>, mapping: Mapping, query: Query, t: E.Tools,
                          before: E.Report, after: E.Report, p: string, i: nat)
    requires Generates(c, ids, mapping, query) && Reads(t, c)
    requires E.Enriched(t, before, after, before.packages.Keys)
    requires p in before.packages && ParsePackage(before.packages[p]).Ok? && p in before.environments
    requires i < |before.environments[p]| && before.environments[p][i].Some?
    ensures after.environments[p][i].Some?
    ensures var n, was, now := ParsePackage(before.packages[p]).value, before.environments[p][i].value,
                               after.environments[p][i].value;
            && (forall m :: Related(ids, mapping, query, n, m) ==> m.repositoryID in now || t.syn(m) in now)
            && (forall id :: id in now && id !in was ==>
                  id in after.repositories && exists m :: Related(ids, mapping, query, n, m) && t.syn(m) == id)
  {
    var n, was := ParsePackage(before.packages[p]).value, before.environments[p][i].value;
    var ms := E.MatchesFor(t, before, p);
    MatchesAreRelated(c, ids, mapping, query, t, before, p);
    assert after.environments[p][i] == Some(E.EnvAfter(t, was, ms));
    E.EnvCovers(t, was, ms);
    forall m | Related(ids, mapping, query, n, m)
      ensures m.repositoryID in E.EnvAfter(t, was, ms) || t.syn(m) in E.EnvAfter(t, was, ms)
    {
      assert m in ms && E.Covers(t, E.EnvAfter(t, was, ms), m);
    }
    forall id | id in E.EnvAfter(t, was, ms) && id !in was
      ensures id in after.repositories && exists m :: Related(ids, mapping, query, n, m) && t.syn(m) == id
    {
      GainedIsRelated(t, before, after, p, i, id);
      var m :| m in ms && t.syn(m) == id;
      assert Related(ids, mapping, query, n, m);
    }
  }

  lemma GainedIsRelated(t: E.Tools, before: E.Report, after: E.Report, p: string, i: nat, id: string)
    requires E.Enriched(t, before, after, before.packages.Keys) && p in before.packages && p in before.environments
    requires i < |before.environments[p]| && before.environments[p][i].Some?
    requires id !in before.environments[p][i].value
    requires id in E.EnvAfter(t, before.environments[p][i].value, E.MatchesFor(t, before, p))
    ensures id in after.repositories
    ensures exists m :: m in E.MatchesFor(t, before, p) && t.syn(m) == id
  {
    var was, ms := before.environments[p][i].value, E.MatchesFor(t, before, p);
    E.GainedIdsResolve(t, before, after, before.packages.Keys, p, i, id);
    assert ms[..|ms|] == ms;
    E.EnvGainsOnlyUsed(t, was, ms, |ms|, id);
    var k :| E.UsesAt(t, was, ms, k, id);
    assert ms[k] in ms;
  }

  /** The repository a gained ID resolves to, unless the report had one under that ID before: its URI is a repository
      with a row for the package, and its CPE the unbound form of a CPE that the mapping gives that repository, when
      synthetic IDs are not shared. */
  lemma GainedRepository(c: Catalog, ids: seq<string>, mapping: Mapping, query: Query, t: E.Tools, before: E.Report,
                         after: E.Report, p: string, i: nat, id: string)
    returns (cpe: string)
    requires Generates(c, ids, mapping, query) && Reads(t, c)
    requires E.Enriched(t, before, after, before.packages.Keys) && E.AllGood(t, before, before.packages.Keys)
    requires E.Injective(t, before)
    requires p in before.packages && ParsePackage(before.packages[p]).Ok? && p in before.environments
    requires i < |before.environments[p]| && before.environments[p][i].Some? && after.environments[p][i].Some?
    requires id in after.environments[p][i].value && id !in before.environments[p][i].value
    requires id !in before.repositories
    ensures id in after.repositories
    ensures var n, repo := ParsePackage(before.packages[p]).value, after.repositories[id];
            && repo.id == id && repo.key == "rhel-cpe-repository"
            && repo.uri in ids && HasRow(query, repo.uri, n.Key())
            && cpe in CpesOf(mapping, repo.uri) && t.unbind(cpe) == Some(repo.cpe)
  {
    GainedIsRelated(t, before, after, p, i, id);
    var m :| m in E.MatchesFor(t, before, p) && t.syn(m) == id;
    E.AddedTellsAMatch(t, before, after, before.packages.Keys, id);
    var q, m' :| q in before.packages && m' in E.MatchesFor(t, before, q)
                 && E.TellsMatch(t, m', id, after.repositories[id]);
    assert m' == m;
    MatchesAreRelated(c, ids, mapping, query, t, before, p);
    cpe := m.cpe;
  }
}

/** Listing an updater's operations by date and cutting the list, one updater after another. */
module CutProgress {
  import opened Tables

  /** A listing of a set of operations by descending date; equal dates come in any order. */
  ghost predicate IsListing(ops: map<nat, Op>, s: set<nat>, listing: seq<nat>) {
    && (forall k :: 0 <= k < |listing| ==> listing[k] in ops)
    && (forall o :: o in listing <==> o in s)
    && (forall j, k :: 0 <= j < k < |listing| ==> listing[j] != listing[k])
    && (forall j, k :: 0 <= j < k < |listing| ==> ops[listing[k]].date <= ops[listing[j]].date)
  }

  function Members(listing: seq<nat>): set<nat> { set o | o in listing }

  lemma {:induction false} DistinctSize(listing: seq<nat>)
    requires forall j, k :: 0 <= j < k < |listing| ==> listing[j] != listing[k]
    ensures |Members(listing)| == |listing|
  {
    if listing != [] {
      var n := |listing| - 1;
      DistinctSize(listing[..n]);
      assert listing == listing[..n] + [listing[n]];
      assert Members(listing) == Members(listing[..n]) + {listing[n]};
    }
  }

  lemma {:induction false} NewestExists(ops: map<nat, Op>, s: set<nat>) returns (x: nat)
    requires s <= ops.Keys && s != {}
    ensures x in s && forall o :: o in s ==> ops[o].date <= ops[x].date
    decreases s
  {
    x :| x in s;
    if s != {x} {
      var y := NewestExists(ops, s - {x});
      if ops[x].date < ops[y].date {
        x := y;
      }
    }
  }

  function OpsOfAll(ops: map<nat, Op>, us: set<string>): set<nat> {
    set o | o in ops && ops[o].updater in us
  }

  /** The cut restricted to the updaters already seen, and the references collected for deletion. */
  ghost predicate CutSoFar(ops: map<nat, Op>, keep: nat, us: set<string>, kept: set<nat>, refs: seq<string>) {
    && kept <= OpsOfAll(ops, us)
    && (forall u :: u in us ==> |OpsOf(ops, u) * kept| == Min(|OpsOf(ops, u)|, keep))
    && (forall a, b :: a in kept && b in ops && b !in kept && ops[a].updater == ops[b].updater
          ==> ops[b].date <= ops[a].date)
    && RefsOf(ops, OpsOfAll(ops, us) - kept, refs)
  }

  /** The list holds the reference of every operation of the set, once each, and no other operation's. */
  ghost predicate RefsOf(ops: map<nat, Op>, s: set<nat>, refs: seq<string>) {
    && |refs| == |s|
    && (forall o :: o in ops && ops[o].ref in refs <==> o in ops && o in s)
  }

  ghost predicate UniqueRefs(ops: map<nat, Op>) {
    forall o, p :: o in ops && p in ops && ops[o].ref == ops[p].ref ==> o == p
  }

  lemma RefsAdd(ops: map<nat, Op>, s: set<nat>, refs: seq<string>, o: nat)
    requires UniqueRefs(ops) && RefsOf(ops, s, refs) && o in ops && o !in s
    ensures RefsOf(ops, s + {o}, refs + [ops[o].ref])
  {
    var refs' := refs + [ops[o].ref];
    forall p | p in ops ensures ops[p].ref in refs' <==> p in s + {o} {
      assert ops[p].ref in refs' <==> ops[p].ref in refs || ops[p].ref == ops[o].ref;
    }
  }

  lemma CutListing(ops: map<nat, Op>, keep: nat, us: set<string>, kept: set<nat>, u: string, listing: seq<nat>)
    requires kept <= OpsOfAll(ops, us) && u !in us && IsListing(ops, OpsOf(ops, u), listing)
    ensures var first := Members(listing[..Min(|listing|, keep)]);
            && OpsOf(ops, u) * (kept + first) == first
            && |first| == Min(|OpsOf(ops, u)|, keep)
            && (forall a, b :: a in first && b in OpsOf(ops, u) - first ==> ops[b].date <= ops[a].date)
  {
    var cut := Min(|listing|, keep);
    var first := Members(listing[..cut]);
    DistinctSize(listing);
    DistinctSize(listing[..cut]);
    assert Members(listing) == OpsOf(ops, u);
    assert forall j :: 0 <= j < cut ==> listing[j] in listing[..cut];
    forall a, b | a in first && b in OpsOf(ops, u) - first ensures ops[b].date <= ops[a].date {
      var j :| 0 <= j < cut && listing[j] == a;
      var k :| 0 <= k < |listing| && listing[k] == b;
    }
  }

  lemma CutNext(ops: map<nat, Op>, keep: nat, us: set<string>, kept: set<nat>, refs: seq<string>, u: string,
                listing: seq<nat>, refs': seq<string>)
    requires CutSoFar(ops, keep, us, kept, refs) && u !in us && IsListing(ops, OpsOf(ops, u), listing)
    requires RefsOf(ops, OpsOfAll(ops, us) - kept + (OpsOf(ops, u) - Members(listing[..Min(|listing|, keep)])), refs')
    ensures CutSoFar(ops, keep, us + {u}, kept + Members(listing[..Min(|listing|, keep)]), refs')
  {
    var first := Members(listing[..Min(|listing|, keep)]);
    assert first <= OpsOf(ops, u) && |first| == Min(|OpsOf(ops, u)|, keep) by {
      CutListing(ops, keep, us, kept, u, listing);
    }
    CutSizes(ops, keep, us, kept, u, first);
    assert forall a, b :: a in first && b in OpsOf(ops, u) - first ==> ops[b].date <= ops[a].date by {
      CutListing(ops, keep, us, kept, u, listing);
    }
    CutDates(ops, us, kept, u, first);
    DroppedNext(ops, us, kept, u, first);
  }

  lemma DroppedNext(ops: map<nat, Op>, us: set<string>, kept: set<nat>, u: string, first: set<nat>)
    requires kept <= OpsOfAll(ops, us) && u !in us && first <= OpsOf(ops, u)
    ensures OpsOfAll(ops, us + {u}) - (kept + first) == OpsOfAll(ops, us) - kept + (OpsOf(ops, u) - first)
  {
  }

  lemma CutSizes(ops: map<nat, Op>, keep: nat, us: set<string>, kept: set<nat>, u: string, first: set<nat>)
    requires kept <= OpsOfAll(ops, us) && u !in us && first <= OpsOf(ops, u)
    requires forall w :: w in us ==> |OpsOf(ops, w) * kept| == Min(|OpsOf(ops, w)|, keep)
    requires |first| == Min(|OpsOf(ops, u)|, keep)
    ensures forall w :: w in us + {u} ==> |OpsOf(ops, w) * (kept + first)| == Min(|OpsOf(ops, w)|, keep)
    ensures kept + first <= OpsOfAll(ops, us + {u})
  {
    forall w | w in us + {u} ensures |OpsOf(ops, w) * (kept + first)| == Min(|OpsOf(ops, w)|, keep) {
      CutOfOne(ops, us, kept, u, first, w);
    }
  }

  lemma CutOfOne(ops: map<nat, Op>, us: set<string>, kept: set<nat>, u: string, first: set<nat>, w: string)
    requires kept <= OpsOfAll(ops, us) && u !in us && first <= OpsOf(ops, u)
    ensures OpsOf(ops, w) * (kept + first) == if w == u then first else OpsOf(ops, w) * kept
  {
  }

  lemma CutDates(ops: map<nat, Op>, us: set<string>, kept: set<nat>, u: string, first: set<nat>)
    requires kept <= OpsOfAll(ops, us) && u !in us && first <= OpsOf(ops, u)
    requires forall a, b :: a in kept && b in ops && b !in kept && ops[a].updater == ops[b].updater
               ==> ops[b].date <= ops[a].date
    requires forall a, b :: a in first && b in OpsOf(ops, u) - first ==> ops[b].date <= ops[a].date
    ensures forall a, b :: a in kept + first && b in ops && b !in kept + first && ops[a].updater == ops[b].updater
              ==> ops[b].date <= ops[a].date
  {
    forall a, b | a in kept + first && b in ops && b !in kept + first && ops[a].updater == ops[b].updater
      ensures ops[b].date <= ops[a].date
    {
      if a in first {
        assert b in OpsOf(ops, u) - first;
      }
    }
  }

  function Updaters(ops: map<nat, Op>): set<string> { set o | o in ops :: ops[o].updater }

  lemma CutFinished(ops: map<nat, Op>, keep: nat, kept: set<nat>, refs: seq<string>)
    requires CutSoFar(ops, keep, Updaters(ops), kept, refs)
    ensures ValidCut(ops, keep, kept) && RefsOf(ops, ops.Keys - kept, refs)
  {
    assert OpsOfAll(ops, Updaters(ops)) == ops.Keys;
    forall u ensures |OpsOf(ops, u) * kept| == Min(|OpsOf(ops, u)|, keep) {
      if u !in Updaters(ops) {
        assert OpsOf(ops, u) == {};
      }
    }
  }

  lemma TailMembers(listing: seq<nat>, cutOff: nat)
    requires cutOff <= |listing| && forall j, k :: 0 <= j < k < |listing| ==> listing[j] != listing[k]
    ensures Members(listing[cutOff..]) == Members(listing) - Members(listing[..cutOff])
  {
    assert listing == listing[..cutOff] + listing[cutOff..];
  }

  lemma TailIsNew(ops: map<nat, Op>, seen: set<string>, kept: set<nat>, u: string, listing: seq<nat>, cutOff: nat)
    requires u !in seen && cutOff <= |listing| && IsListing(ops, OpsOf(ops, u), listing)
    ensures forall k :: cutOff <= k < |listing| ==> listing[k] in ops && listing[k] !in OpsOfAll(ops, seen) - kept
    ensures Members(listing[cutOff..]) == OpsOf(ops, u) - Members(listing[..cutOff])
  {
    TailMembers(listing, cutOff);
    assert Members(listing) == OpsOf(ops, u);
    forall k | cutOff <= k < |listing| ensures listing[k] in OpsOf(ops, u) {
      assert listing[k] in Members(listing);
    }
  }

  lemma ListingAdd(ops: map<nat, Op>, s: set<nat>, listing: seq<nat>, o: nat)
    requires IsListing(ops, s, listing) && o in ops && o !in s
    requires forall p :: p in s && p in ops ==> ops[o].date <= ops[p].date
    ensures IsListing(ops, s + {o}, listing + [o])
  {
    assert forall p :: p in listing + [o] <==> p in listing || p == o;
  }

  /** json_group_array(ref ORDER BY date desc): equal dates come in any order. */
  method ListByDate(ops: map<nat, Op>, updater: string) returns (listing: seq<nat>)
    ensures IsListing(ops, OpsOf(ops, updater), listing)
  {
    listing := [];
    var left := OpsOf(ops, updater);
    ghost var listed := {};
    while left != {}
      invariant left + listed == OpsOf(ops, updater) && left !! listed
      invariant IsListing(ops, listed, listing)
      invariant forall o, p :: o in left && p in listed ==> ops[o].date <= ops[p].date
      decreases left
    {
      ghost var newest := NewestExists(ops, left);
      var o :| o in left && forall p :: p in left ==> ops[p].date <= ops[o].date;
      ListingAdd(ops, listed, listing, o);
      listing := listing + [o];
      left := left - {o};
      listed := listed + {o};
    }
  }

  /** The references of a listing from the cut-off on. */
  method RefsFrom(ops: map<nat, Op>, listing: seq<nat>, refs0: seq<string>, ghost dropped: set<nat>)
    returns (refs: seq<string>)
    requires UniqueRefs(ops) && RefsOf(ops, dropped, refs0)
    requires forall k :: 0 <= k < |listing| ==> listing[k] in ops && listing[k] !in dropped
    requires forall j, k :: 0 <= j < k < |listing| ==> listing[j] != listing[k]
    ensures RefsOf(ops, dropped + Members(listing), refs)
  {
    refs := refs0;
    ghost var added := dropped;
    assert Members(listing[..0]) == {};
    for k := 0 to |listing|
      invariant added == dropped + Members(listing[..k])
      invariant RefsOf(ops, added, refs)
    {
      PrefixGrows(listing, k);
      RefsAdd(ops, added, refs, listing[k]);
      refs := refs + [ops[listing[k]].ref];
      added := added + {listing[k]};
    }
    assert listing[..|listing|] == listing;
  }

  lemma PrefixGrows(listing: seq<nat>, k: nat)
    requires k < |listing| && forall i, j :: 0 <= i < j < |listing| ==> listing[i] != listing[j]
    ensures listing[k] !in Members(listing[..k])
    ensures Members(listing[..k + 1]) == Members(listing[..k]) + {listing[k]}
  {
    assert listing[..k + 1] == listing[..k] + [listing[k]];
  }

  lemma MoveOne<X>(from: set<X>, to: set<X>, x: X)
    requires x in from && from !! to
    ensures (from - {x}) !! (to + {x}) && from - {x} + (to + {x}) == from + to
  {
  }

  lemma KeptByRefs(ops: map<nat, Op>, kept: set<nat>, refs: seq<string>)
    requires kept <= ops.Keys && RefsOf(ops, ops.Keys - kept, refs)
    ensures NotReferenced(ops, refs) == kept
    ensures |refs| == |ops.Keys - kept|
  {
  }

  /** eligibleUpdateOpts: the references past the first `keep` of each updater. */
  method EligibleUpdateOps(ops: map<nat, Op>, keep: nat) returns (refs: seq<string>)
    requires UniqueRefs(ops)
    ensures ValidCut(ops, keep, NotReferenced(ops, refs))
    ensures RefsOf(ops, ops.Keys - NotReferenced(ops, refs), refs)
  {
    refs := [];
    ghost var kept := {};
    var left := Updaters(ops);
    ghost var seen := {};
    assert RefsOf(ops, OpsOfAll(ops, {}) - {}, []) by { assert OpsOfAll(ops, {}) == {}; }
    while left != {}
      invariant left !! seen && left + seen == Updaters(ops)
      invariant CutSoFar(ops, keep, seen, kept, refs)
      decreases left
    {
      var u :| u in left;
      refs, kept := EligibleOf(ops, keep, u, refs, seen, kept);
      MoveOne(left, seen, u);
      seen := seen + {u};
      left := left - {u};
    }
    assert seen == Updaters(ops);
    CutFinished(ops, keep, kept, refs);
    KeptByRefs(ops, kept, refs);
  }

  /** One row of that query's result. */
  method EligibleOf(ops: map<nat, Op>, keep: nat, u: string, refs0: seq<string>, ghost seen: set<string>,
                    ghost kept0: set<nat>)
    returns (refs: seq<string>, ghost kept: set<nat>)
    requires UniqueRefs(ops) && u !in seen && CutSoFar(ops, keep, seen, kept0, refs0)
    ensures CutSoFar(ops, keep, seen + {u}, kept, refs)
  {
    var listing := ListByDate(ops, u);
    var cutOff := Min(|listing|, keep);
    TailIsNew(ops, seen, kept0, u, listing, cutOff);
    refs := RefsFrom(ops, listing[cutOff..], refs0, OpsOfAll(ops, seen) - kept0);
    CutNext(ops, keep, seen, kept0, refs0, u, listing, refs);
    kept := kept0 + Members(listing[..cutOff]);
  }

  // ---- Cuts and listings ----

  lemma {:induction false} SomeListing(ops: map<nat, Op>, s: set<nat>) returns (listing: seq<nat>)
    requires s <= ops.Keys
    ensures IsListing(ops, s, listing) && |listing| == |s|
    decreases s
  {
    listing := [];
    if s != {} {
      var x := NewestExists(ops, s);
      var rest := SomeListing(ops, s - {x});
      listing := [x] + rest;
      assert forall o :: o in listing <==> o == x || o in rest;
      assert forall k :: 0 < k < |listing| ==> listing[k] in rest;
    }
  }

  lemma ConcatListing(ops: map<nat, Op>, s: set<nat>, a: seq<nat>, r: set<nat>, b: seq<nat>)
    requires IsListing(ops, s, a) && IsListing(ops, r, b) && s !! r
    requires forall o, p :: o in s && p in r && o in ops && p in ops ==> ops[p].date <= ops[o].date
    ensures IsListing(ops, s + r, a + b)
  {
    assert forall o :: o in a + b <==> o in a || o in b;
    assert forall k :: 0 <= k < |a| ==> a[k] in s;
    assert forall k :: 0 <= k < |b| ==> b[k] in r;
  }

  lemma FrontMembers(a: seq<nat>, b: seq<nat>)
    ensures Members((a + b)[..|a|]) == Members(a)
  {
    assert (a + b)[..|a|] == a;
  }

  lemma JoinListings(ops: map<nat, Op>, all: set<nat>, kept: set<nat>, k: nat, a: seq<nat>, b: seq<nat>)
    requires IsListing(ops, all * kept, a) && IsListing(ops, all - kept, b)
    requires |a| == Min(|all|, k) && |a| + |b| == |all|
    requires forall o, p :: o in all * kept && p in all - kept && o in ops && p in ops ==> ops[p].date <= ops[o].date
    ensures IsListing(ops, all, a + b) && all * kept == Members((a + b)[..Min(|a + b|, k)])
  {
    ConcatListing(ops, all * kept, a, all - kept, b);
    assert all * kept + (all - kept) == all;
    FrontMembers(a, b);
  }

  lemma SplitSize(all: set<nat>, kept: set<nat>)
    ensures |all * kept| + |all - kept| == |all|
  {
    assert all * kept + (all - kept) == all;
  }

  /** The cut takes the first `keep` of this listing. */
  ghost predicate CutAt(ops: map<nat, Op>, keep: nat, kept: set<nat>, u: string, listing: seq<nat>) {
    IsListing(ops, OpsOf(ops, u), listing) && OpsOf(ops, u) * kept == Members(listing[..Min(|listing|, keep)])
  }

  ghost predicate CutsListing(ops: map<nat, Op>, keep: nat, kept: set<nat>, u: string) {
    exists listing :: CutAt(ops, keep, kept, u, listing)
  }

  /** One updater's share of a possible cut. */
  ghost predicate CutFor(ops: map<nat, Op>, keep: nat, kept: set<nat>, u: string) {
    && |OpsOf(ops, u) * kept| == Min(|OpsOf(ops, u)|, keep)
    && forall a, b :: a in OpsOf(ops, u) * kept && b in OpsOf(ops, u) - kept ==> ops[b].date <= ops[a].date
  }

  lemma ValidCutIffEach(ops: map<nat, Op>, keep: nat, kept: set<nat>)
    ensures ValidCut(ops, keep, kept) <==> kept <= ops.Keys && forall u :: CutFor(ops, keep, kept, u)
  {
    if kept <= ops.Keys && forall u :: CutFor(ops, keep, kept, u) {
      forall a, b | a in kept && b in ops && b !in kept && ops[a].updater == ops[b].updater
        ensures ops[b].date <= ops[a].date
      {
        var u := ops[a].updater;
        assert CutFor(ops, keep, kept, u);
        assert a in OpsOf(ops, u) * kept && b in OpsOf(ops, u) - kept;
      }
      forall u ensures |OpsOf(ops, u) * kept| == Min(|OpsOf(ops, u)|, keep) {
        assert CutFor(ops, keep, kept, u);
      }
    }
  }

  lemma ListingOfCut(ops: map<nat, Op>, keep: nat, kept: set<nat>, u: string)
    ensures CutFor(ops, keep, kept, u) <==> CutsListing(ops, keep, kept, u)
  {
    var all := OpsOf(ops, u);
    if CutFor(ops, keep, kept, u) {
      var a := SomeListing(ops, all * kept);
      var b := SomeListing(ops, all - kept);
      SplitSize(all, kept);
      JoinListings(ops, all, kept, keep, a, b);
      assert CutAt(ops, keep, kept, u, a + b);
    }
    if CutsListing(ops, keep, kept, u) {
      var listing :| CutAt(ops, keep, kept, u, listing);
      CutListing(ops, keep, {}, {}, u, listing);
      assert all * ({} + Members(listing[..Min(|listing|, keep)])) == all * kept;
    }
  }

  /** The possible cuts are exactly those that take, for each updater, the first `keep` of some listing by
      descending date, equal dates in any order. */
  lemma CutIffListings(ops: map<nat, Op>, keep: nat, kept: set<nat>)
    ensures ValidCut(ops, keep, kept) <==> kept <= ops.Keys && forall u :: CutsListing(ops, keep, kept, u)
  {
    ValidCutIffEach(ops, keep, kept);
    forall u ensures CutFor(ops, keep, kept, u) <==> CutsListing(ops, keep, kept, u) {
      ListingOfCut(ops, keep, kept, u);
    }
  }

  // ---- The cleanup loop ----

  function RegisteredUpdaters(ops: map<nat, Op>): set<(Kind, string)> {
    set o | o in ops :: (ops[o].kind, ops[o].updater)
  }

  /** Rows that may still be unreferenced belong to an updater that is left to clean up. */
  ghost predicate CleanupProgress(t0: Tables, left: set<(Kind, string)>, t: Tables) {
    && Swept(t0, t) && OnlyRegistered(t0, t)
    && (forall i :: i in t.vuln && Unreferenced(t.uoVuln, i)
          ==> (VulnerabilityKind, t.vuln[i].updater) in left
              || !Registered(t.ops, t.vuln[i].updater, VulnerabilityKind))
    && (forall i :: i in t.enrich && Unreferenced(t.uoEnrich, i)
          ==> (EnrichmentKind, t.enrich[i].updater) in left
              || !Registered(t.ops, t.enrich[i].updater, EnrichmentKind))
  }

  lemma RegisteredIff(ops: map<nat, Op>, kind: Kind, updater: string)
    ensures (kind, updater) in RegisteredUpdaters(ops) <==> Registered(ops, updater, kind)
  {
  }

  lemma CleanupStarts(t: Tables)
    ensures CleanupProgress(t, RegisteredUpdaters(t.ops), t)
  {
    forall i | i in t.vuln ensures (VulnerabilityKind, t.vuln[i].updater) in RegisteredUpdaters(t.ops)
                                   || !Registered(t.ops, t.vuln[i].updater, VulnerabilityKind) {
      RegisteredIff(t.ops, VulnerabilityKind, t.vuln[i].updater);
    }
    forall i | i in t.enrich ensures (EnrichmentKind, t.enrich[i].updater) in RegisteredUpdaters(t.ops)
                                     || !Registered(t.ops, t.enrich[i].updater, EnrichmentKind) {
      RegisteredIff(t.ops, EnrichmentKind, t.enrich[i].updater);
    }
  }

  /** The unreferenced rows of one updater and kind are gone, and nothing else. */
  ghost predicate CleanedOne(t: Tables, p: (Kind, string), t': Tables) {
    && t' == t.(vuln := t'.vuln, enrich := t'.enrich)
    && t'.vuln == (map i | i in t.vuln && !(p.0.VulnerabilityKind? && Unreferenced(t.uoVuln, i)
                                             && t.vuln[i].updater == p.1) :: t.vuln[i])
    && t'.enrich == (map i | i in t.enrich && !(p.0.EnrichmentKind? && Unreferenced(t.uoEnrich, i)
                                                 && t.enrich[i].updater == p.1) :: t.enrich[i])
  }

  lemma CleanupNext(t0: Tables, left: set<(Kind, string)>, t: Tables, p: (Kind, string), t': Tables)
    requires CleanupProgress(t0, left, t) && p in RegisteredUpdaters(t.ops) && CleanedOne(t, p, t')
    ensures CleanupProgress(t0, left - {p}, t')
  {
    RegisteredIff(t.ops, p.0, p.1);
    assert Swept(t0, t') && OnlyRegistered(t0, t') by { CleanedSwept(t0, t, p, t'); }
  }

  lemma CleanedSwept(t0: Tables, t: Tables, p: (Kind, string), t': Tables)
    requires Swept(t0, t) && OnlyRegistered(t0, t) && Registered(t.ops, p.1, p.0) && CleanedOne(t, p, t')
    ensures Swept(t0, t') && OnlyRegistered(t0, t')
  {
  }

  lemma CleanupEnds(t0: Tables, t: Tables)
    requires CleanupProgress(t0, {}, t)
    ensures Clean(t)
  {
  }
}

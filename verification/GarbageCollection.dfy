/** What a finished garbage collection leaves, that a second one does nothing, and exactly when equal dates let it
    drop an updater's newest operation. */
module GarbageCollection {
  import opened Tables

  /** Each updater is left with its previous count or `keep`, whichever is smaller. */
  lemma CountsAfterGc(t: Tables, keep: nat, done: bool, kept: set<nat>, t': Tables, u: string)
    requires GcStep(t, keep, done, kept, t') && done
    ensures |OpsOf(t'.ops, u)| == Min(|OpsOf(t.ops, u)|, keep)
  {
    assert OpsOf(t'.ops, u) == OpsOf(t.ops, u) * kept;
  }

  lemma CutOfFew(ops: map<nat, Op>, keep: nat, kept: set<nat>)
    requires ValidCut(ops, keep, kept) && forall u :: |OpsOf(ops, u)| <= keep
    ensures kept == ops.Keys
  {
    forall o | o in ops ensures o in kept {
      var u := ops[o].updater;
      assert |OpsOf(ops, u) * kept| == |OpsOf(ops, u)|;
      SubsetOfSameSize(OpsOf(ops, u) * kept, OpsOf(ops, u));
      assert o in OpsOf(ops, u);
    }
  }

  lemma SubsetOfSameSize(a: set<nat>, b: set<nat>)
    requires a <= b && |a| == |b|
    ensures a == b
  {
    assert |b - a| == |b| - |a|;
  }

  lemma SweepOfClean(t: Tables, t': Tables)
    requires Clean(t) && Swept(t, t') && OnlyRegistered(t, t')
    ensures t' == t
  {
    assert t'.vuln == t.vuln;
    assert t'.enrich == t.enrich;
  }

  lemma KeepAll(t: Tables)
    requires AssocOk(t)
    ensures KeepOps(t, t.ops.Keys) == t
  {
  }

  /** After a finished collection there is nothing left for the next one with the same count. */
  lemma SecondGcChangesNothing(t: Tables, keep: nat, kept: set<nat>, t': Tables, done: bool, kept': set<nat>,
                               t'': Tables)
    requires AssocOk(t') && GcStep(t, keep, true, kept, t')
    requires GcStep(t', keep, done, kept', t'')
    ensures t'' == t'
  {
    forall u ensures |OpsOf(t'.ops, u)| <= keep {
      CountsAfterGc(t, keep, true, kept, t', u);
    }
    if ValidCut(t'.ops, keep, kept') {
      CutOfFew(t'.ops, keep, kept');
    }
    KeepAll(t');
    SweepOfClean(t', t'');
  }

  // ---- Ties ----

  /** How one tie-breaking lists the operations of an updater: by descending date, `last` after its equals. */
  predicate Before(ops: map<nat, Op>, last: nat, a: nat, b: nat)
    requires a in ops && b in ops
  {
    || ops[a].date > ops[b].date
    || (ops[a].date == ops[b].date && a != last && (b == last || a < b))
  }

  function Ahead(ops: map<nat, Op>, last: nat, s: set<nat>, p: nat): set<nat>
    requires p in ops && s <= ops.Keys
  {
    set q | q in s && Before(ops, last, q, p)
  }

  function FirstOf(ops: map<nat, Op>, last: nat, s: set<nat>, k: nat): set<nat>
    requires s <= ops.Keys
  {
    set p | p in s && |Ahead(ops, last, s, p)| < k
  }

  lemma {:induction false} LastInListing(ops: map<nat, Op>, last: nat, s: set<nat>) returns (x: nat)
    requires s <= ops.Keys && s != {}
    ensures x in s && forall q :: q in s && q != x ==> Before(ops, last, q, x)
    decreases s
  {
    x :| x in s;
    if s != {x} {
      var rest := s - {x};
      var x0 := x;
      var y := LastInListing(ops, last, rest);
      if Before(ops, last, x0, y) {
        x := y;
      }
      forall q | q in s && q != x ensures Before(ops, last, q, x) {
        assert q == x0 || q == y || Before(ops, last, q, y);
      }
    }
  }

  /** A listing of s has exactly min(|s|, k) operations among its first k. */
  lemma {:induction false} FirstOfSize(ops: map<nat, Op>, last: nat, s: set<nat>, k: nat)
    requires s <= ops.Keys
    ensures |FirstOf(ops, last, s, k)| == Min(|s|, k)
    decreases s
  {
    if s != {} {
      var x := LastInListing(ops, last, s);
      var rest := s - {x};
      FirstOfSize(ops, last, rest, k);
      assert Ahead(ops, last, s, x) == rest;
      forall p | p in rest ensures Ahead(ops, last, s, p) == Ahead(ops, last, rest, p) {
        assert !Before(ops, last, x, p);
      }
      assert FirstOf(ops, last, s, k)
          == FirstOf(ops, last, rest, k) + if |rest| < k then {x} else {};
    }
  }

  /** The operations that may be listed ahead of o. */
  function Rivals(ops: map<nat, Op>, o: nat): set<nat>
    requires o in ops
  {
    set p | p in ops && p != o && ops[p].updater == ops[o].updater && ops[p].date >= ops[o].date
  }

  function CutBy(ops: map<nat, Op>, last: nat, k: nat): set<nat> {
    set p | p in ops && |Ahead(ops, last, OpsOf(ops, ops[p].updater), p)| < k
  }

  lemma AheadMonotone(ops: map<nat, Op>, last: nat, s: set<nat>, a: nat, b: nat)
    requires s <= ops.Keys && a in s && b in s && Before(ops, last, a, b)
    ensures |Ahead(ops, last, s, a)| < |Ahead(ops, last, s, b)|
  {
    var x, y := Ahead(ops, last, s, a), Ahead(ops, last, s, b);
    assert x < y by {
      assert a in y && a !in x;
      assert forall q :: q in x ==> q in y;
    }
    ProperSubset(x, y);
  }

  lemma ProperSubset(a: set<nat>, b: set<nat>)
    requires a < b
    ensures |a| < |b|
  {
    assert |b - a| == |b| - |a|;
    assert b - a != {};
  }

  /** Every tie-breaking makes a possible cut. */
  lemma CutByIsValid(ops: map<nat, Op>, last: nat, k: nat)
    ensures ValidCut(ops, k, CutBy(ops, last, k))
  {
    var kept := CutBy(ops, last, k);
    forall u ensures |OpsOf(ops, u) * kept| == Min(|OpsOf(ops, u)|, k) {
      assert OpsOf(ops, u) * kept == FirstOf(ops, last, OpsOf(ops, u), k);
      FirstOfSize(ops, last, OpsOf(ops, u), k);
    }
    forall a, b | a in kept && b in ops && b !in kept && ops[a].updater == ops[b].updater
      ensures ops[b].date <= ops[a].date
    {
      if ops[b].date > ops[a].date {
        AheadMonotone(ops, last, OpsOf(ops, ops[a].updater), b, a);
      }
    }
  }

  /** An operation survives every possible cut if and only if fewer than `keep` other operations of its updater
      are dated no earlier. For an updater's newest operation that count is the number of ties (or of clock
      steps backwards), so one tie is enough to lose it under GC(1). */
  lemma SurvivesEveryCutIff(ops: map<nat, Op>, keep: nat, o: nat)
    requires o in ops
    ensures (forall kept :: ValidCut(ops, keep, kept) ==> o in kept) <==> |Rivals(ops, o)| < keep
  {
    if |Rivals(ops, o)| < keep {
      forall kept | ValidCut(ops, keep, kept) ensures o in kept {
        SurvivesCut(ops, keep, kept, o);
      }
    } else {
      CutByIsValid(ops, o, keep);
      assert Ahead(ops, o, OpsOf(ops, ops[o].updater), o) == Rivals(ops, o);
      assert o !in CutBy(ops, o, keep);
    }
  }

  lemma SurvivesCut(ops: map<nat, Op>, keep: nat, kept: set<nat>, o: nat)
    requires o in ops && ValidCut(ops, keep, kept) && |Rivals(ops, o)| < keep
    ensures o in kept
  {
    if o !in kept {
      var mine := OpsOf(ops, ops[o].updater);
      var k := mine * kept;
      assert k <= Rivals(ops, o);
      SubsetSize(k, Rivals(ops, o));
      assert k <= mine - {o};
      SubsetSize(k, mine - {o});
    }
  }

  lemma SubsetSize(a: set<nat>, b: set<nat>)
    requires a <= b
    ensures |a| <= |b|
  {
    assert |b - a| == |b| - |a|;
  }

  /** With dates that follow ids nothing rivals the newest operation, so any keep >= 1 is enough. */
  lemma NoRivals(ops: map<nat, Op>, o: nat)
    requires DatesFollowIds(ops) && IsLatest(ops, o)
    ensures Rivals(ops, o) == {}
  {
  }

  /** Two updates in the same second: a cut to one operation may keep the older and drop the newer. */
  lemma TieDropsNewest()
    ensures var ops := map[1 := Op("a", "u", "", VulnerabilityKind, 7), 2 := Op("b", "u", "", VulnerabilityKind, 7)];
            IsLatest(ops, 2) && exists kept :: ValidCut(ops, 1, kept) && 2 !in kept
  {
    var ops := map[1 := Op("a", "u", "", VulnerabilityKind, 7), 2 := Op("b", "u", "", VulnerabilityKind, 7)];
    CutByIsValid(ops, 2, 1);
    assert Ahead(ops, 2, OpsOf(ops, "u"), 2) == {1};
    assert 2 !in CutBy(ops, 2, 1);
  }
}

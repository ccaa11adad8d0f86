/** A collection selects the references past the cut in one statement and deletes them in another: which commits in
    between keep every updater's latest operation. */
module SplitCollection {
  import opened Tables
  import opened LatestOps
  import opened StoreLog
  import opened SplitUpdate

  /** A reference that a cut selects for deletion. */
  predicate Past(ops: map<nat, Op>, kept: set<nat>, ref: string) {
    exists o :: o in ops && o !in kept && ops[o].ref == ref
  }

  function Spared(ops: map<nat, Op>, kept: set<nat>, later: map<nat, Op>): set<nat> {
    set o | o in later && !Past(ops, kept, later[o].ref)
  }

  /** The deletion of what a cut on `seen` selected, on the tables as they are by then. */
  ghost predicate SplitDeletion(seen: Tables, keep: nat, kept: set<nat>, t: Tables, t': Tables) {
    ValidCut(seen.ops, keep, kept) && t' == KeepOps(t, Spared(seen.ops, kept, t.ops))
  }

  lemma LatestIsNotPast(t: Tables, kept: set<nat>, o: nat)
    requires OpsOk(t) && o in t.ops && o in kept
    ensures !Past(t.ops, kept, t.ops[o].ref)
  {
  }

  /** A transaction that deletes no latest operation, and gives no new operation a reference that was selected. */
  ghost predicate Spares(ops: map<nat, Op>, kept: set<nat>, t: Tables, c: Command) {
    match c
    case UpdateVulns(op, _, _) => !Past(ops, kept, op.ref)
    case UpdateEnrichs(op, _) => !Past(ops, kept, op.ref)
    case _ => forall u :: LeavesLatest(t, c, u)
  }

  lemma NextLatestWas(t: Tables, c: Command, t': Tables, ops: map<nat, Op>, kept: set<nat>, o: nat)
    requires Inv(t) && Next(t, c, t') && Spares(ops, kept, t, c) && o in t.ops && IsLatest(t'.ops, o)
    ensures IsLatest(t.ops, o) && t'.ops[o] == t.ops[o]
  {
    if c.UpdateVulns? || c.UpdateEnrichs? {
      assert o != t.opSeq + 1;
      forall p | p in t.ops && t.ops[p].updater == t.ops[o].updater ensures p <= o {
        assert t'.ops[p] == t.ops[p];
      }
    } else {
      var left := NextDeletion(t, c, t');
      var u := t.ops[o].updater;
      KeepsLatestOf(t, c, left, t', u);
      RestrictedLatest(t.ops, left, u, o);
    }
  }

  lemma NextAdds(t: Tables, c: Command, t': Tables, ops: map<nat, Op>, kept: set<nat>, o: nat)
    requires Next(t, c, t') && Spares(ops, kept, t, c) && o in t'.ops && o !in t.ops
    ensures !Past(ops, kept, t'.ops[o].ref)
  {
    if c.Collect? || c.Delete? || c.FailedUpdate? {
      var left := NextDeletion(t, c, t');
    }
  }

  /** No latest operation has a reference that was selected. */
  ghost predicate LatestSpared(ops: map<nat, Op>, kept: set<nat>, t: Tables) {
    forall o :: o in t.ops && IsLatest(t.ops, o) ==> !Past(ops, kept, t.ops[o].ref)
  }

  lemma NextLatestSpared(t: Tables, c: Command, t': Tables, ops: map<nat, Op>, kept: set<nat>)
    requires Inv(t) && Next(t, c, t') && Spares(ops, kept, t, c) && LatestSpared(ops, kept, t)
    ensures LatestSpared(ops, kept, t')
  {
    forall o | o in t'.ops && IsLatest(t'.ops, o) ensures !Past(ops, kept, t'.ops[o].ref) {
      if o in t.ops {
        NextLatestWas(t, c, t', ops, kept, o);
      } else {
        NextAdds(t, c, t', ops, kept, o);
      }
    }
  }

  ghost predicate AllSpare(ts: seq<Tables>, cs: seq<Command>, ops: map<nat, Op>, kept: set<nat>, i: nat, j: nat)
    requires |ts| == |cs| + 1 && j <= |cs|
  {
    forall k {:trigger cs[k]} :: i <= k < j ==> Spares(ops, kept, ts[k], cs[k])
  }

  lemma {:induction false} RunLatestSpared(ts: seq<Tables>, cs: seq<Command>, i: nat, j: nat, ops: map<nat, Op>,
                                           kept: set<nat>)
    requires Run(ts, cs) && i <= j <= |cs| && AllSpare(ts, cs, ops, kept, i, j) && LatestSpared(ops, kept, ts[i])
    ensures LatestSpared(ops, kept, ts[j])
    decreases j - i
  {
    if i < j {
      RunLatestSpared(ts, cs, i, j - 1, ops, kept);
      RunKeepsIntegrity(ts, cs, j - 1);
      NextLatestSpared(ts[j - 1], cs[j - 1], ts[j], ops, kept);
    }
  }

  /** In any run: if the cut spared every latest operation, and what commits in between deletes no latest operation,
      the deletion spares every operation that is latest by then. */
  lemma SplitDeletionSparesLatest(ts: seq<Tables>, cs: seq<Command>, i: nat, j: nat, kept: set<nat>, o: nat)
    requires Run(ts, cs) && i <= j <= |cs| && AllSpare(ts, cs, ts[i].ops, kept, i, j) && IsLatest(ts[j].ops, o)
    requires forall p :: IsLatest(ts[i].ops, p) ==> p in kept
    ensures o in Spared(ts[i].ops, kept, ts[j].ops)
  {
    RunKeepsIntegrity(ts, cs, i);
    forall p | p in ts[i].ops && IsLatest(ts[i].ops, p) ensures !Past(ts[i].ops, kept, ts[i].ops[p].ref) {
      LatestIsNotPast(ts[i], kept, p);
    }
    RunLatestSpared(ts, cs, i, j, ts[i].ops, kept);
  }

  /** But if the operations that an updater was to keep are deleted in between, it is left with none. */
  lemma NothingSpared(seen: Tables, keep: nat, kept: set<nat>, t: Tables, t': Tables, u: string)
    requires SplitDeletion(seen, keep, kept, t, t')
    requires forall o :: o in t.ops && t.ops[o].updater == u ==> o in seen.ops && o !in kept && seen.ops[o] == t.ops[o]
    ensures forall o :: o in t'.ops ==> t'.ops[o].updater != u
  {
  }

  // ---- A collection statement by statement, as a run ----

  lemma SparedIsNotReferenced(ops: map<nat, Op>, kept: set<nat>, later: map<nat, Op>, refs: seq<string>)
    requires forall ref :: ref in refs <==> Past(ops, kept, ref)
    ensures Spared(ops, kept, later) == NotReferenced(later, refs)
  {
  }

  /** The deletion is a deletion by references, and any part of the cleanup is a collection that stopped early: a
      collection whose statements others interleave with is part of a run like any other. */
  lemma CollectionInterleaves(seen: Tables, keep: nat, kept: set<nat>, refs: seq<string>, t: Tables, t': Tables,
                              u: Tables, u': Tables)
    requires SplitDeletion(seen, keep, kept, t, t') && forall ref :: ref in refs <==> Past(seen.ops, kept, ref)
    requires AssocOk(u) && Swept(u, u') && OnlyRegistered(u, u')
    ensures Next(t, Delete(refs), t') && Next(u, Collect(keep, false), u')
  {
    SparedIsNotReferenced(seen.ops, kept, t.ops, refs);
    assert KeepOps(u, u.ops.Keys) == u;
    assert GcStep(u, keep, false, u.ops.Keys, u');
  }
}

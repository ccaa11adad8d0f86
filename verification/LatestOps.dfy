/** The latest operation of an updater, while operations come and go. */
module LatestOps {
  import opened Tables

  predicate LatestOf(ops: map<nat, Op>, u: string, o: nat) { IsLatest(ops, o) && ops[o].updater == u }

  /** Another updater's operation leaves this one's latest alone. */
  lemma AddedLatest(ops: map<nat, Op>, n: nat, op: Op, u: string, o: nat)
    requires op.updater != u && forall p :: p in ops ==> p < n
    ensures LatestOf(ops, u, o) <==> LatestOf(ops[n := op], u, o)
  {
    var ops' := ops[n := op];
    if LatestOf(ops, u, o) {
      assert forall p :: p in ops' && ops'[p].updater == u ==> p in ops;
    }
    if LatestOf(ops', u, o) {
      forall p | p in ops && ops[p].updater == u ensures p <= o {
        assert p in ops' && ops'[p].updater == u;
      }
    }
  }

  /** Every updater with an operation has a latest one. */
  lemma {:induction false} SomeLatest(ops: map<nat, Op>, o: nat) returns (p: nat)
    requires o in ops
    ensures LatestOf(ops, ops[o].updater, p)
    decreases |OpsOf(ops, ops[o].updater)|
  {
    var u := ops[o].updater;
    if q: nat :| q in ops && ops[q].updater == u && q > o {
      var fewer := ops - {o};
      assert OpsOf(fewer, u) == OpsOf(ops, u) - {o} && o in OpsOf(ops, u);
      p := SomeLatest(fewer, q);
      assert q in fewer && q <= p;
      forall r | r in ops && ops[r].updater == u ensures r <= p {
        assert r != o ==> r in fewer;
      }
    } else {
      p := o;
    }
  }

  /** So does a deletion that spares it. */
  lemma RestrictedLatest(ops: map<nat, Op>, kept: set<nat>, u: string, o: nat)
    requires forall p :: p in ops && LatestOf(ops, u, p) ==> p in kept
    ensures LatestOf(ops, u, o) <==> LatestOf(map p | p in ops && p in kept :: ops[p], u, o)
  {
    var ops' := map p | p in ops && p in kept :: ops[p];
    if LatestOf(ops', u, o) {
      var p := SomeLatest(ops, o);
      assert p in ops';
    }
  }
}

/** What every transaction keeps, whatever the records: referential integrity, and the contents of every
    operation that was already there. */
module StoreIntegrity {
  import opened Text
  import opened Advisory
  import opened Tables

  // ---- Every transaction keeps integrity ----

  lemma RowOfGrows(meta: map<nat, Meta>, meta': map<nat, Meta>, row: VulnRow, v: Vuln)
    requires MetaGrows(meta, meta') && RowOf(meta, row, v)
    ensures RowOf(meta', row, v)
  {
  }

  lemma VulnOkGrows(t: Tables, batch: seq<Vuln>, meta': map<nat, Meta>, vuln': map<nat, VulnRow>)
    requires VulnOk(t.meta, t.vuln) && MetaGrows(t.meta, meta') && VulnGrows(t.vuln, batch, meta', vuln')
    ensures VulnOk(meta', vuln')
  {
    forall i | i in vuln' ensures exists v :: RowOf(meta', vuln'[i], v) {
      if i in t.vuln {
        var v :| RowOf(t.meta, t.vuln[i], v);
        RowOfGrows(t.meta, meta', t.vuln[i], v);
      } else {
        var v :| v in batch && RowOf(meta', vuln'[i], v);
      }
    }
  }

  lemma VulnStepKeepsInv(t: Tables, op: Op, batch: seq<Vuln>, deleted: Option<seq<string>>, t': Tables)
    requires Inv(t) && VulnStep(t, op, batch, deleted, t')
    ensures Inv(t')
  {
    assert VulnOk(t'.meta, t'.vuln) by { VulnOkGrows(t, batch, t'.meta, t'.vuln); }
    assert AssocOk(t') by { VulnStepKeepsAssoc(t, op, batch, deleted, t'); }
    assert EnrichUnique(t'.enrich);
  }

  lemma VulnStepKeepsAssoc(t: Tables, op: Op, batch: seq<Vuln>, deleted: Option<seq<string>>, t': Tables)
    requires OpsOk(t) && AssocOk(t) && VulnStep(t, op, batch, deleted, t')
    ensures AssocOk(t') && OpsOk(t')
  {
    var n := t.opSeq + 1;
    assert OpsOk(t');
    var carried := if deleted.Some? then Carried(t, op.updater, batch, deleted.value) else {};
    assert carried <= t.vuln.Keys;
    PairsWithin(n, carried, t'.vuln.Keys);
    PairsWithin(n, BatchIds(t'.vuln, batch), t'.vuln.Keys);
  }

  lemma PairsWithin(n: nat, ids: set<nat>, all: set<nat>)
    requires ids <= all
    ensures forall a :: a in Pairs(n, ids) ==> a.0 == n && a.1 in all
  {
  }

  lemma EnrichStepKeepsInv(t: Tables, op: Op, records: seq<Enrichment>, t': Tables)
    requires Inv(t) && EnrichStep(t, op, records, t')
    ensures Inv(t')
  {
  }

  lemma KeepOpsKeepsInv(t: Tables, kept: set<nat>)
    requires Inv(t)
    ensures Inv(KeepOps(t, kept))
  {
  }

  lemma SweepKeepsInv(t: Tables, t': Tables)
    requires Inv(t) && Swept(t, t')
    ensures Inv(t')
  {
    forall i | i in t'.vuln ensures exists v :: RowOf(t'.meta, t'.vuln[i], v) {
      assert i in t.vuln;
    }
  }

  // ---- No transaction changes what an existing operation publishes ----

  /** Contents survive when the operation keeps its associations and the rows and names they lead to. */
  lemma ContentFrame(t: Tables, t': Tables, o: nat)
    requires VulnOk(t.meta, t.vuln) && AssocOk(t) && o in t.ops && o in t'.ops && t'.ops[o] == t.ops[o]
    requires IdsOf(t'.uoVuln, o) == IdsOf(t.uoVuln, o) && IdsOf(t'.uoEnrich, o) == IdsOf(t.uoEnrich, o)
    requires forall i :: i in t.meta ==> i in t'.meta && t'.meta[i] == t.meta[i]
    requires forall i :: i in IdsOf(t.uoVuln, o) ==> i in t'.vuln && t'.vuln[i] == t.vuln[i]
    requires forall i :: i in IdsOf(t.uoEnrich, o) ==> i in t'.enrich && t'.enrich[i] == t.enrich[i]
    ensures ContentOf(t', o) == ContentOf(t, o)
  {
    forall i | i in IdsOf(t.uoVuln, o)
      ensures i in t.vuln && Resolve(t'.meta, t.vuln[i]) == Resolve(t.meta, t.vuln[i])
    {
      assert (o, i) in t.uoVuln;
      var v :| RowOf(t.meta, t.vuln[i], v);
    }
  }

  lemma VulnStepFrame(t: Tables, op: Op, batch: seq<Vuln>, deleted: Option<seq<string>>, t': Tables, o: nat)
    requires Inv(t) && VulnStep(t, op, batch, deleted, t') && o in t.ops
    ensures ContentOf(t', o) == ContentOf(t, o)
  {
    assert o != t.opSeq + 1;
    assert IdsOf(t'.uoVuln, o) == IdsOf(t.uoVuln, o);
    forall i | i in IdsOf(t.uoVuln, o) ensures i in t'.vuln && t'.vuln[i] == t.vuln[i] {
      assert (o, i) in t.uoVuln;
    }
    ContentFrame(t, t', o);
  }

  lemma EnrichStepFrame(t: Tables, op: Op, records: seq<Enrichment>, t': Tables, o: nat)
    requires Inv(t) && EnrichStep(t, op, records, t') && o in t.ops
    ensures ContentOf(t', o) == ContentOf(t, o)
  {
    assert o != t.opSeq + 1;
    assert IdsOf(t'.uoEnrich, o) == IdsOf(t.uoEnrich, o);
    forall i | i in IdsOf(t.uoVuln, o) ensures i in t.vuln {
      assert (o, i) in t.uoVuln;
    }
    forall i | i in IdsOf(t.uoEnrich, o) ensures i in t'.enrich && t'.enrich[i] == t.enrich[i] {
      assert (o, i) in t.uoEnrich;
    }
    ContentFrame(t, t', o);
  }

  lemma KeepOpsFrame(t: Tables, kept: set<nat>, o: nat)
    requires o in t.ops && o in kept
    ensures ContentOf(KeepOps(t, kept), o) == ContentOf(t, o)
  {
    var t' := KeepOps(t, kept);
    assert IdsOf(t'.uoVuln, o) == IdsOf(t.uoVuln, o);
    assert IdsOf(t'.uoEnrich, o) == IdsOf(t.uoEnrich, o);
  }

  lemma SweepFrame(t: Tables, t': Tables, o: nat)
    requires VulnOk(t.meta, t.vuln) && AssocOk(t) && Swept(t, t') && o in t.ops
    ensures ContentOf(t', o) == ContentOf(t, o)
  {
    forall i | i in IdsOf(t.uoVuln, o) ensures i in t'.vuln && t'.vuln[i] == t.vuln[i] {
      assert (o, i) in t.uoVuln;
    }
    forall i | i in IdsOf(t.uoEnrich, o) ensures i in t'.enrich && t'.enrich[i] == t.enrich[i] {
      assert (o, i) in t.uoEnrich;
    }
    ContentFrame(t, t', o);
  }

  lemma DeletionKeepsInv(t: Tables, kept: set<nat>, t': Tables)
    requires Inv(t) && Swept(KeepOps(t, kept), t')
    ensures Inv(t')
  {
    KeepOpsKeepsInv(t, kept);
    SweepKeepsInv(KeepOps(t, kept), t');
  }

  /** GC and deletion: an operation that is left publishes what it did before. */
  lemma DeletionFrame(t: Tables, kept: set<nat>, t': Tables, o: nat)
    requires Inv(t) && Swept(KeepOps(t, kept), t') && o in t.ops && o in kept
    ensures ContentOf(t', o) == ContentOf(t, o)
  {
    KeepOpsKeepsInv(t, kept);
    KeepOpsFrame(t, kept, o);
    SweepFrame(KeepOps(t, kept), t', o);
  }

  /** ... and so the log afterwards is the log before, restricted to the operations that are left. */
  lemma DeletionOnLog(t: Tables, kept: set<nat>, t': Tables)
    requires Inv(t) && Swept(KeepOps(t, kept), t')
    ensures Log(t') == map o | o in Log(t) && o in kept :: Log(t)[o]
  {
    forall o | o in t.ops && o in kept ensures ContentOf(t', o) == ContentOf(t, o) {
      DeletionFrame(t, kept, t', o);
    }
  }
}

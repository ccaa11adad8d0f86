/** A delta reads its selection on one connection and writes in a transaction on another: other transactions may
    commit in between. Which of them do no harm, and what the others do. */
module SplitUpdate {
  import opened Text
  import opened Advisory
  import opened Tables
  import opened LatestOps
  import opened StoreIntegrity
  import opened StoreRefinement
  import opened StoreLog
  import opened StoreProgress
  import opened GarbageCollection

  /** A delta whose selection saw the tables `seen` and whose transaction committed on `t`. The foreign key of
      uo_vuln lets it commit only if every row it carries is still there. */
  ghost predicate SplitStep(seen: Tables, t: Tables, op: Op, batch: seq<Vuln>, deleted: seq<string>, t': Tables) {
    && op.kind == VulnerabilityKind && FreshRef(t.ops, op.ref)
    && Carried(seen, op.updater, batch, deleted) <= t.vuln.Keys
    && VulnProgress(t, op, Carried(seen, op.updater, batch, deleted), batch, t')
  }

  /** It never breaks integrity. */
  lemma SplitKeepsInv(seen: Tables, t: Tables, op: Op, batch: seq<Vuln>, deleted: seq<string>, t': Tables)
    requires Inv(t) && SplitStep(seen, t, op, batch, deleted, t')
    ensures Inv(t')
  {
    assert VulnOk(t'.meta, t'.vuln) by { VulnOkGrows(t, batch, t'.meta, t'.vuln); }
    assert OpsOk(t') by { OneOperationMore(t, op, t'); }
    assert AssocOk(t') by { CarriedAssoc(t, op, Carried(seen, op.updater, batch, deleted), batch, t'); }
  }

  lemma OneOperationMore(t: Tables, op: Op, t': Tables)
    requires OpsOk(t) && FreshRef(t.ops, op.ref) && t'.opSeq == t.opSeq + 1 && t'.ops == t.ops[t'.opSeq := op]
    ensures OpsOk(t')
  {
  }

  lemma CarriedAssoc(t: Tables, op: Op, carried: set<nat>, batch: seq<Vuln>, t': Tables)
    requires OpsOk(t) && AssocOk(t) && op.kind == VulnerabilityKind && carried <= t.vuln.Keys
    requires VulnProgress(t, op, carried, batch, t')
    ensures AssocOk(t')
  {
    var n := t.opSeq + 1;
    PairsWithin(n, carried, t'.vuln.Keys);
    PairsWithin(n, BatchIds(t'.vuln, batch), t'.vuln.Keys);
  }

  lemma SamePairs(n: nat, a: set<nat>, b: set<nat>, c: set<nat>, assoc: set<(nat, nat)>)
    requires forall x :: x in assoc ==> x.0 != n
    ensures assoc + Pairs(n, a) + Pairs(n, c) == assoc + Pairs(n, b) + Pairs(n, c) <==> a + c == b + c
  {
    var left, right := assoc + Pairs(n, a) + Pairs(n, c), assoc + Pairs(n, b) + Pairs(n, c);
    forall i ensures (i in a + c <==> (n, i) in left) && (i in b + c <==> (n, i) in right) {
    }
    if a + c == b + c {
      forall x ensures x in left <==> x in right {
        assert x in left ==> x in assoc || (x.0 == n && x.1 in a + c);
        assert x in right ==> x in assoc || (x.0 == n && x.1 in b + c);
      }
    }
  }

  lemma SplitIsStepIds(seen: Tables, t: Tables, op: Op, batch: seq<Vuln>, deleted: seq<string>, t': Tables)
    requires Inv(t) && SplitStep(seen, t, op, batch, deleted, t')
    ensures VulnStep(t, op, batch, Some(deleted), t') <==>
              Carried(seen, op.updater, batch, deleted) + BatchIds(t'.vuln, batch)
              == Carried(t, op.updater, batch, deleted) + BatchIds(t'.vuln, batch)
  {
    var a, b := Carried(seen, op.updater, batch, deleted), Carried(t, op.updater, batch, deleted);
    StepIsProgress(t, op, batch, deleted, t');
    SamePairs(t.opSeq + 1, a, b, BatchIds(t'.vuln, batch), t.uoVuln);
    SameProgress(t, op, a, b, batch, t');
  }

  /** The batch has the digest of this row. */
  ghost predicate LedTo(t: Tables, batch: seq<Vuln>, i: nat) { i in t.vuln && BatchHash(batch, t.vuln[i].hash) }

  lemma LedToIds(t: Tables, batch: seq<Vuln>, vuln': map<nat, VulnRow>)
    requires VulnKept(t.vuln, vuln')
    ensures forall i :: i in t.vuln ==> (i in BatchIds(vuln', batch) <==> LedTo(t, batch, i))
  {
    forall i | i in t.vuln ensures i in BatchIds(vuln', batch) <==> LedTo(t, batch, i) {
      assert vuln'[i] == t.vuln[i];
    }
  }

  lemma SameUnionIff(a: set<nat>, b: set<nat>, c: set<nat>)
    ensures a + c == b + c <==> forall i :: (i in a <==> i in b) || i in c
  {
    if forall i :: (i in a <==> i in b) || i in c {
      forall i ensures i in a + c <==> i in b + c {
        assert (i in a <==> i in b) || i in c;
      }
    } else {
      var i :| !((i in a <==> i in b) || i in c);
      assert i in a + c <==> i !in b + c;
    }
  }

  /** It is the delta run in one piece if and only if every row that one of the two selections carries and the other
      does not is there, and the batch has its digest. This looks only at the tables before the call. */
  lemma SplitIsStepIff(seen: Tables, t: Tables, op: Op, batch: seq<Vuln>, deleted: seq<string>, t': Tables)
    requires Inv(t) && SplitStep(seen, t, op, batch, deleted, t')
    ensures VulnStep(t, op, batch, Some(deleted), t') <==>
              forall i ::
                || (i in Carried(seen, op.updater, batch, deleted) <==> i in Carried(t, op.updater, batch, deleted))
                || LedTo(t, batch, i)
  {
    var a, b := Carried(seen, op.updater, batch, deleted), Carried(t, op.updater, batch, deleted);
    SplitIsStepIds(seen, t, op, batch, deleted, t');
    LedToIds(t, batch, t'.vuln);
    SameUnionIff(a, b, BatchIds(t'.vuln, batch));
    assert b <= t.vuln.Keys;
    forall i
      ensures (i in a <==> i in b) || i in BatchIds(t'.vuln, batch) <==> (i in a <==> i in b) || LedTo(t, batch, i)
    {
      assert i in a || i in b ==> i in t.vuln;
    }
  }

  lemma IdsAddedBoth(assoc: set<(nat, nat)>, n: nat, a: set<nat>, b: set<nat>)
    requires forall x :: x in assoc ==> x.0 != n
    ensures IdsOf(assoc + Pairs(n, a) + Pairs(n, b), n) == a + b
  {
    forall i | i in a + b ensures i in IdsOf(assoc + Pairs(n, a) + Pairs(n, b), n) {
      assert (n, i) in assoc + Pairs(n, a) + Pairs(n, b);
    }
  }

  lemma SplitIds(seen: Tables, t: Tables, op: Op, batch: seq<Vuln>, deleted: seq<string>, t': Tables)
    requires Inv(t) && SplitStep(seen, t, op, batch, deleted, t')
    ensures IdsOf(t'.uoVuln, t.opSeq + 1)
            == Carried(seen, op.updater, batch, deleted) + BatchIds(t'.vuln, batch)
  {
    assert forall a :: a in t.uoVuln ==> a.0 in t.ops;
    IdsAddedBoth(t.uoVuln, t.opSeq + 1, Carried(seen, op.updater, batch, deleted), BatchIds(t'.vuln, batch));
  }

  /** What it publishes, in every case: the rows that the carried ids name by then, whatever they named when they were
      selected, and the rows its batch leads to. */
  lemma SplitContent(seen: Tables, t: Tables, op: Op, batch: seq<Vuln>, deleted: seq<string>, t': Tables)
    requires Inv(t) && SplitStep(seen, t, op, batch, deleted, t')
    ensures ContentOf(t', t.opSeq + 1)
            == Vulns(Entries(t.meta, t.vuln, Carried(seen, op.updater, batch, deleted))
                     + Entries(t'.meta, t'.vuln, BatchIds(t'.vuln, batch)))
  {
    var carried := Carried(seen, op.updater, batch, deleted);
    SplitIds(seen, t, op, batch, deleted, t');
    EntriesUnion(t'.meta, t'.vuln, carried, BatchIds(t'.vuln, batch));
    EntriesGrow(t, batch, t'.meta, t'.vuln, carried);
  }

  lemma StepIsProgress(t: Tables, op: Op, batch: seq<Vuln>, deleted: seq<string>, t': Tables)
    requires op.kind == VulnerabilityKind && FreshRef(t.ops, op.ref)
    ensures VulnStep(t, op, batch, Some(deleted), t')
            <==> VulnProgress(t, op, Carried(t, op.updater, batch, deleted), batch, t')
  {
  }

  lemma SameProgress(t: Tables, op: Op, a: set<nat>, b: set<nat>, batch: seq<Vuln>, t': Tables)
    requires VulnProgress(t, op, a, batch, t')
    ensures VulnProgress(t, op, b, batch, t') <==>
              t.uoVuln + Pairs(t.opSeq + 1, a) + Pairs(t.opSeq + 1, BatchIds(t'.vuln, batch))
              == t.uoVuln + Pairs(t.opSeq + 1, b) + Pairs(t.opSeq + 1, BatchIds(t'.vuln, batch))
  {
  }

  // ---- What stays as it was while other transactions commit ----

  /** An id names the same row, with the same texts. */
  ghost predicate SameRow(t: Tables, t': Tables, i: nat) {
    && i in t.vuln && i in t'.vuln && t'.vuln[i] == t.vuln[i]
    && Resolve(t'.meta, t.vuln[i]) == Resolve(t.meta, t.vuln[i])
  }

  /** An operation is associated with the same rows, and these have not changed. */
  ghost predicate SameRows(t: Tables, t': Tables, o: nat) {
    && o in t.ops && o in t'.ops && t'.ops[o] == t.ops[o] && IdsOf(t'.uoVuln, o) == IdsOf(t.uoVuln, o)
    && forall i :: i in IdsOf(t.uoVuln, o) ==> SameRow(t, t', i)
  }

  lemma TextsOfRow(t: Tables, i: nat)
    requires VulnOk(t.meta, t.vuln) && i in t.vuln
    ensures t.vuln[i].nameId in t.meta && t.vuln[i].descId in t.meta
  {
    var v :| RowOf(t.meta, t.vuln[i], v);
  }

  lemma NextIds(t: Tables, c: Command, t': Tables, o: nat)
    requires Inv(t) && Next(t, c, t') && o <= t.opSeq && o in t'.ops
    ensures IdsOf(t'.uoVuln, o) == IdsOf(t.uoVuln, o)
  {
    if c.Collect? || c.Delete? || c.FailedUpdate? {
      var kept := NextDeletion(t, c, t');
      SameAssoc(t.uoVuln, t'.uoVuln, o);
    } else {
      assert o != t.opSeq + 1;
      SameAssoc(t.uoVuln, t'.uoVuln, o);
    }
  }

  lemma SameAssoc(assoc: set<(nat, nat)>, assoc': set<(nat, nat)>, o: nat)
    requires forall a: (nat, nat) :: a.0 == o ==> (a in assoc <==> a in assoc')
    ensures IdsOf(assoc', o) == IdsOf(assoc, o)
  {
    forall i: nat ensures i in IdsOf(assoc, o) <==> i in IdsOf(assoc', o) {
      assert i in IdsOf(assoc, o) ==> (o, i) in assoc;
      assert i in IdsOf(assoc', o) ==> (o, i) in assoc';
    }
  }

  lemma KeptRow(t: Tables, t': Tables, i: nat)
    requires VulnOk(t.meta, t.vuln) && i in t.vuln && i in t'.vuln && t'.vuln[i] == t.vuln[i]
    requires forall m :: m in t.meta ==> m in t'.meta && t'.meta[m] == t.meta[m]
    ensures SameRow(t, t', i)
  {
    TextsOfRow(t, i);
  }

  lemma NextKeepsRow(t: Tables, c: Command, t': Tables, o: nat, i: nat)
    requires Inv(t) && Next(t, c, t') && o in t'.ops && (o, i) in t.uoVuln
    ensures i in t.vuln && i in t'.vuln && t'.vuln[i] == t.vuln[i]
  {
    if c.Collect? || c.Delete? || c.FailedUpdate? {
      var kept := NextDeletion(t, c, t');
      assert (o, i) in KeepOps(t, kept).uoVuln;
    }
  }

  lemma NextKeepsMeta(t: Tables, c: Command, t': Tables)
    requires Next(t, c, t')
    ensures forall m :: m in t.meta ==> m in t'.meta && t'.meta[m] == t.meta[m]
  {
    if c.Collect? || c.Delete? || c.FailedUpdate? {
      var kept := NextDeletion(t, c, t');
    }
  }

  lemma NextRow(t: Tables, c: Command, t': Tables, o: nat, i: nat)
    requires Inv(t) && Next(t, c, t') && o in t'.ops && (o, i) in t.uoVuln
    ensures SameRow(t, t', i)
  {
    NextKeepsRow(t, c, t', o, i);
    NextKeepsMeta(t, c, t');
    KeptRow(t, t', i);
  }

  lemma NextSameRows(t: Tables, c: Command, t': Tables, o: nat)
    requires Inv(t) && Next(t, c, t') && o <= t.opSeq && o in t'.ops
    ensures SameRows(t, t', o)
  {
    NextFrame(t, c, t', o);
    NextIds(t, c, t', o);
    forall i | i in IdsOf(t.uoVuln, o) ensures SameRow(t, t', i) {
      NextRow(t, c, t', o, i);
    }
  }

  lemma SameRowsTrans(a: Tables, b: Tables, c: Tables, o: nat)
    requires SameRows(a, b, o) && SameRows(b, c, o)
    ensures SameRows(a, c, o)
  {
    forall i | i in IdsOf(a.uoVuln, o) ensures SameRow(a, c, i) {
      assert SameRow(a, b, i) && SameRow(b, c, i);
    }
  }

  lemma SameRowsRefl(t: Tables, o: nat)
    requires AssocOk(t) && o in t.ops
    ensures SameRows(t, t, o)
  {
    forall i | i in IdsOf(t.uoVuln, o) ensures SameRow(t, t, i) {
      assert (o, i) in t.uoVuln;
    }
  }

  lemma {:induction false} RunSameRows(ts: seq<Tables>, cs: seq<Command>, i: nat, j: nat, o: nat)
    requires Run(ts, cs) && i <= j <= |cs| && o <= ts[i].opSeq && o in ts[j].ops
    ensures SameRows(ts[i], ts[j], o)
    decreases j - i
  {
    if i < j {
      SeqGrows(ts, cs, i, j - 1);
      RunKeepsIntegrity(ts, cs, j - 1);
      NextSameRows(ts[j - 1], cs[j - 1], ts[j], o);
      RunSameRows(ts, cs, i, j - 1, o);
      SameRowsTrans(ts[i], ts[j - 1], ts[j], o);
    } else {
      RunKeepsIntegrity(ts, cs, i);
      SameRowsRefl(ts[i], o);
    }
  }

  /** The latest operations that a selection for this updater finds rows of. */
  ghost function Sources(t: Tables, updater: string): set<nat> {
    set o | o in t.ops && Source(t, updater, o)
  }

  ghost predicate Source(t: Tables, updater: string, o: nat) {
    && IsLatest(t.ops, o) && t.ops[o].kind == VulnerabilityKind
    && exists i :: i in IdsOf(t.uoVuln, o) && i in t.vuln && t.vuln[i].updater == updater
  }

  lemma ExistingFrom(t: Tables, t': Tables, u: string)
    requires Sources(t, u) <= Sources(t', u) && forall o :: o in Sources(t, u) ==> SameRows(t, t', o)
    ensures Existing(t, u) <= Existing(t', u)
    ensures forall i :: i in Existing(t, u) ==> SameRow(t, t', i)
  {
    forall i | i in Existing(t, u) ensures i in Existing(t', u) && SameRow(t, t', i) {
      var a :| a in t.uoVuln && a.1 == i && IsLatest(t.ops, a.0) && t.ops[a.0].kind == VulnerabilityKind;
      assert i in IdsOf(t.uoVuln, a.0);
      assert a.0 in Sources(t, u);
      assert SameRow(t, t', i) && i in IdsOf(t'.uoVuln, a.0);
      assert a in t'.uoVuln;
    }
  }

  lemma SameSelection(t: Tables, t': Tables, u: string, batch: seq<Vuln>, deleted: seq<string>)
    requires Sources(t, u) == Sources(t', u) && forall o :: o in Sources(t, u) ==> SameRows(t, t', o)
    ensures Carried(t, u, batch, deleted) == Carried(t', u, batch, deleted)
  {
    ExistingFrom(t, t', u);
    assert forall o :: o in Sources(t', u) ==> SameRows(t', t, o);
    ExistingFrom(t', t, u);
  }

  /** In any run: if the operations that the selection draws on are the same when it reads and when the transaction
      commits, the delta is the delta run in one piece, whatever was committed in between and whatever rows were
      collected. */
  lemma SplitIsAtomic(ts: seq<Tables>, cs: seq<Command>, i: nat, j: nat, op: Op, batch: seq<Vuln>,
                      deleted: seq<string>, t': Tables)
    requires Run(ts, cs) && i <= j <= |cs| && Sources(ts[i], op.updater) == Sources(ts[j], op.updater)
    requires SplitStep(ts[i], ts[j], op, batch, deleted, t')
    ensures Next(ts[j], UpdateVulns(op, batch, Some(deleted)), t')
  {
    RunKeepsIntegrity(ts, cs, i);
    RunKeepsIntegrity(ts, cs, j);
    forall o | o in Sources(ts[i], op.updater) ensures SameRows(ts[i], ts[j], o) {
      RunSameRows(ts, cs, i, j, o);
    }
    SameSelection(ts[i], ts[j], op.updater, batch, deleted);
    SplitIsStepIff(ts[i], ts[j], op, batch, deleted, t');
  }

  // ---- What the carried ids name ----

  lemma CarriedSource(t: Tables, u: string, i: nat) returns (o: nat)
    requires i in Existing(t, u)
    ensures o in Sources(t, u) && (o, i) in t.uoVuln
  {
    var a :| a in t.uoVuln && a.1 == i && a.1 in t.vuln && IsLatest(t.ops, a.0) && t.ops[a.0].kind == VulnerabilityKind
             && t.vuln[a.1].updater == u;
    assert i in IdsOf(t.uoVuln, a.0);
    o := a.0;
  }

  /** In any run: a row that an operation holds, as long as that operation exists. */
  lemma HeldRowStays(ts: seq<Tables>, cs: seq<Command>, i: nat, j: nat, o: nat, x: nat)
    requires Run(ts, cs) && i <= j <= |cs| && (o, x) in ts[i].uoVuln && o in ts[j].ops
    ensures SameRow(ts[i], ts[j], x)
  {
    RunKeepsIntegrity(ts, cs, i);
    RunSameRows(ts, cs, i, j, o);
    assert x in IdsOf(ts[i].uoVuln, o);
  }

  /** If every operation that the selection draws on still exists, each carried id names the row that was selected, and
      the delta publishes what survives of what it saw. */
  lemma SplitPublishesSeen(ts: seq<Tables>, cs: seq<Command>, i: nat, j: nat, op: Op, batch: seq<Vuln>,
                           deleted: seq<string>, t': Tables)
    requires Run(ts, cs) && i <= j <= |cs| && Sources(ts[i], op.updater) <= ts[j].ops.Keys
    requires SplitStep(ts[i], ts[j], op, batch, deleted, t')
    ensures forall x :: x in Carried(ts[i], op.updater, batch, deleted) ==> SameRow(ts[i], ts[j], x)
    ensures ContentOf(t', ts[j].opSeq + 1)
            == Vulns(Survivors(Vulns(OwnLatest(Log(ts[i]), op.updater)), batch, deleted)
                     + Entries(t'.meta, t'.vuln, BatchIds(t'.vuln, batch)))
  {
    var s, t, carried := ts[i], ts[j], Carried(ts[i], op.updater, batch, deleted);
    RunKeepsIntegrity(ts, cs, i);
    RunKeepsIntegrity(ts, cs, j);
    forall x | x in carried ensures SameRow(s, t, x) {
      var o := CarriedSource(s, op.updater, x);
      HeldRowStays(ts, cs, i, j, o, x);
    }
    SplitContent(s, t, op, batch, deleted, t');
    CarriedSurvives(s, op.updater, batch, deleted);
    SameEntries(s, t, carried);
  }

  lemma SameEntries(s: Tables, t: Tables, ids: set<nat>)
    requires forall x :: x in ids ==> SameRow(s, t, x)
    ensures Entries(t.meta, t.vuln, ids) == Entries(s.meta, s.vuln, ids)
  {
  }

  // ---- Which transactions leave the selection alone ----

  /** Every operation holds only rows written for its own updater. */
  predicate OwnRows(t: Tables) {
    forall a :: a in t.uoVuln && a.0 in t.ops && a.1 in t.vuln ==> t.vuln[a.1].updater == t.ops[a.0].updater
  }

  /** A transaction that neither adds an operation of this updater nor deletes its latest one. */
  predicate LeavesLatest(t: Tables, c: Command, u: string) {
    match c
    case UpdateVulns(op, _, _) => op.updater != u
    case UpdateEnrichs(op, _) => op.updater != u
    case Delete(refs) => forall o :: o in t.ops && LatestOf(t.ops, u, o) ==> t.ops[o].ref !in refs
    case Collect(keep, _) => forall o :: o in t.ops && LatestOf(t.ops, u, o) ==> |Rivals(t.ops, o)| < keep
    case FailedUpdate => true
  }

  lemma NextLatest(t: Tables, c: Command, t': Tables, u: string, o: nat)
    requires Inv(t) && Next(t, c, t') && LeavesLatest(t, c, u)
    ensures LatestOf(t.ops, u, o) <==> LatestOf(t'.ops, u, o)
  {
    if c.UpdateVulns? || c.UpdateEnrichs? {
      AddedLatest(t.ops, t.opSeq + 1, c.op, u, o);
    } else {
      var kept := NextDeletion(t, c, t');
      KeepsLatestOf(t, c, kept, t', u);
      RestrictedLatest(t.ops, kept, u, o);
    }
  }

  lemma KeepsLatestOf(t: Tables, c: Command, kept: set<nat>, t': Tables, u: string)
    requires (c.Collect? || c.Delete? || c.FailedUpdate?) && LeavesLatest(t, c, u) && Swept(KeepOps(t, kept), t')
    requires c.Collect? ==> ValidCut(t.ops, c.keep, kept) || kept == t.ops.Keys
    requires c.Delete? ==> kept == NotReferenced(t.ops, c.refs)
    requires c.FailedUpdate? ==> t' == t
    ensures forall p :: p in t.ops && LatestOf(t.ops, u, p) ==> p in kept
  {
    forall p | p in t.ops && LatestOf(t.ops, u, p) ensures p in kept {
      if c.Collect? && kept != t.ops.Keys {
        SurvivesEveryCutIff(t.ops, c.keep, p);
      } else if c.FailedUpdate? {
        assert p in t'.ops;
      }
    }
  }

  /** Between two moments of a run, only such transactions. */
  ghost predicate AllLeaveLatest(ts: seq<Tables>, cs: seq<Command>, i: nat, j: nat, u: string)
    requires |ts| == |cs| + 1 && j <= |cs|
  {
    forall k {:trigger cs[k]} :: i <= k < j ==> LeavesLatest(ts[k], cs[k], u)
  }

  lemma RunNextLatest(ts: seq<Tables>, cs: seq<Command>, i: nat, j: nat, k: nat, u: string, o: nat)
    requires Run(ts, cs) && i <= k < j <= |cs| && AllLeaveLatest(ts, cs, i, j, u)
    ensures LatestOf(ts[k].ops, u, o) <==> LatestOf(ts[k + 1].ops, u, o)
  {
    RunKeepsIntegrity(ts, cs, k);
    NextLatest(ts[k], cs[k], ts[k + 1], u, o);
  }

  /** What no step changes is the same at the end. */
  lemma {:induction false} LatestChain(ts: seq<Tables>, i: nat, j: nat, u: string, o: nat)
    requires i <= j < |ts|
    requires forall k :: i < k <= j ==> (LatestOf(ts[k].ops, u, o) <==> LatestOf(ts[k - 1].ops, u, o))
    ensures LatestOf(ts[i].ops, u, o) <==> LatestOf(ts[j].ops, u, o)
    decreases j - i
  {
    if i < j {
      LatestChain(ts, i, j - 1, u, o);
    }
  }

  lemma RunLatest(ts: seq<Tables>, cs: seq<Command>, i: nat, j: nat, u: string, o: nat)
    requires Run(ts, cs) && i <= j <= |cs| && AllLeaveLatest(ts, cs, i, j, u)
    ensures LatestOf(ts[i].ops, u, o) <==> LatestOf(ts[j].ops, u, o)
  {
    forall k | i < k <= j ensures LatestOf(ts[k].ops, u, o) <==> LatestOf(ts[k - 1].ops, u, o) {
      RunNextLatest(ts, cs, i, j, k - 1, u, o);
    }
    LatestChain(ts, i, j, u, o);
  }

  lemma OwnSources(t: Tables, t': Tables, u: string)
    requires OwnRows(t) && OwnRows(t') && OpsOk(t)
    requires forall o :: LatestOf(t.ops, u, o) <==> LatestOf(t'.ops, u, o)
    requires forall o :: LatestOf(t.ops, u, o) ==> SameRows(t, t', o)
    ensures Sources(t, u) == Sources(t', u)
  {
    forall o: nat | Source(t, u, o) ensures Source(t', u, o) {
      var i :| i in IdsOf(t.uoVuln, o) && i in t.vuln && t.vuln[i].updater == u;
      assert (o, i) in t.uoVuln;
      assert LatestOf(t.ops, u, o);
      assert i in IdsOf(t'.uoVuln, o) && SameRow(t, t', i);
    }
    forall o: nat | Source(t', u, o) ensures Source(t, u, o) {
      var i :| i in IdsOf(t'.uoVuln, o) && i in t'.vuln && t'.vuln[i].updater == u;
      assert (o, i) in t'.uoVuln;
      assert LatestOf(t'.ops, u, o);
      assert SameRows(t, t', o) && SameRow(t, t', i);
    }
  }

  /** Updates of other updaters, deletions of other operations and collections that keep this updater's latest
      operation may all commit in between, when no row is shared between updaters. */
  lemma SplitAmongOthers(ts: seq<Tables>, cs: seq<Command>, i: nat, j: nat, op: Op, batch: seq<Vuln>,
                         deleted: seq<string>, t': Tables)
    requires Run(ts, cs) && i <= j <= |cs| && OwnRows(ts[i]) && OwnRows(ts[j])
    requires AllLeaveLatest(ts, cs, i, j, op.updater)
    requires SplitStep(ts[i], ts[j], op, batch, deleted, t')
    ensures Next(ts[j], UpdateVulns(op, batch, Some(deleted)), t')
  {
    var u := op.updater;
    RunKeepsIntegrity(ts, cs, i);
    forall o ensures LatestOf(ts[i].ops, u, o) <==> LatestOf(ts[j].ops, u, o) {
      RunLatest(ts, cs, i, j, u, o);
    }
    forall o | LatestOf(ts[i].ops, u, o) ensures SameRows(ts[i], ts[j], o) {
      RunSameRows(ts, cs, i, j, o);
    }
    OwnSources(ts[i], ts[j], u);
    SplitIsAtomic(ts, cs, i, j, op, batch, deleted, t');
  }

  // ---- An update of the same updater in between ----

  ghost predicate FullUpdate(t: Tables, full: Op, ids: set<nat>, t1: Tables) {
    && t1.opSeq == t.opSeq + 1 && t1.ops == t.ops[t1.opSeq := full] && t1.uoVuln == t.uoVuln + Pairs(t1.opSeq, ids)
    && VulnKept(t.vuln, t1.vuln)
  }

  /** After a full update an updater's selection holds only rows that its batch led to. */
  lemma Withdrawn(t: Tables, full: Op, ids: set<nat>, t1: Tables, i: nat)
    requires OpsOk(t) && AssocOk(t) && OwnRows(t) && FullUpdate(t, full, ids, t1) && i in t.vuln && i !in ids
    ensures i !in IdsOf(t1.uoVuln, t1.opSeq) && i !in Existing(t1, full.updater)
  {
    forall a | a in t1.uoVuln && a.1 == i && LatestOf(t1.ops, full.updater, a.0) ensures false {
      OldAssoc(t, full, ids, t1, a);
    }
    forall a | a in t1.uoVuln && a.1 == i
      ensures a.0 != t1.opSeq && t1.ops[a.0].updater == t1.vuln[i].updater
    {
      OldAssoc(t, full, ids, t1, a);
    }
  }

  lemma OldAssoc(t: Tables, full: Op, ids: set<nat>, t1: Tables, a: (nat, nat))
    requires OpsOk(t) && AssocOk(t) && OwnRows(t) && FullUpdate(t, full, ids, t1)
    requires a in t1.uoVuln && a.1 !in ids
    ensures a in t.uoVuln && a.0 < t1.opSeq && t1.ops[a.0].updater == t1.vuln[a.1].updater
    ensures !LatestOf(t1.ops, full.updater, a.0)
  {
    assert a !in Pairs(t1.opSeq, ids);
    assert t1.vuln[a.1] == t.vuln[a.1] && t1.ops[a.0] == t.ops[a.0];
    assert t1.ops[t1.opSeq].updater == full.updater;
  }

  lemma IsFullUpdate(t: Tables, full: Op, all: seq<Vuln>, t1: Tables)
    requires VulnStep(t, full, all, None, t1)
    ensures FullUpdate(t, full, BatchIds(t1.vuln, all), t1)
  {
    assert Pairs(t1.opSeq, {}) == {};
  }

  /** What does go wrong: a full update of this updater commits in between and withdraws a row that a delta has
      selected. The delta publishes it again if and only if the row's name is neither in its batch nor deleted, or
      the batch has its digest; run in one piece it would do so only in the second case. */
  lemma StaleSelectionRevives(t: Tables, full: Op, all: seq<Vuln>, t1: Tables, op: Op, batch: seq<Vuln>,
                              deleted: seq<string>, t': Tables, i: nat)
    requires Inv(t) && OwnRows(t) && VulnStep(t, full, all, None, t1) && op.updater == full.updater
    requires SplitStep(t, t1, op, batch, deleted, t')
    requires i in Existing(t, op.updater) && i !in BatchIds(t1.vuln, all)
    ensures i !in IdsOf(t1.uoVuln, t1.opSeq) && i !in Carried(t1, op.updater, batch, deleted)
    ensures var name := Value(t.meta, t.vuln[i].nameId);
            i in IdsOf(t'.uoVuln, t'.opSeq) <==>
              (!Named(batch, name) && name !in deleted) || BatchHash(batch, t.vuln[i].hash)
  {
    VulnStepKeepsInv(t, full, all, None, t1);
    IsFullUpdate(t, full, all, t1);
    Withdrawn(t, full, BatchIds(t1.vuln, all), t1, i);
    RevivedIff(t, t1, op, batch, deleted, t', i);
  }

  lemma RevivedIff(seen: Tables, t: Tables, op: Op, batch: seq<Vuln>, deleted: seq<string>, t': Tables, i: nat)
    requires Inv(t) && SplitStep(seen, t, op, batch, deleted, t')
    requires i in Existing(seen, op.updater) && i in t.vuln && t.vuln[i] == seen.vuln[i]
    ensures var name := Value(seen.meta, seen.vuln[i].nameId);
            i in IdsOf(t'.uoVuln, t'.opSeq) <==>
              (!Named(batch, name) && name !in deleted) || BatchHash(batch, seen.vuln[i].hash)
  {
    SplitIds(seen, t, op, batch, deleted, t');
    SplitLed(seen, t, op, batch, deleted, t', i);
    InCarried(seen, op.updater, batch, deleted, i);
    assert t'.opSeq == t.opSeq + 1;
  }

  lemma SplitLed(seen: Tables, t: Tables, op: Op, batch: seq<Vuln>, deleted: seq<string>, t': Tables, i: nat)
    requires SplitStep(seen, t, op, batch, deleted, t') && i in t.vuln
    ensures i in BatchIds(t'.vuln, batch) <==> BatchHash(batch, t.vuln[i].hash)
  {
    LedToIds(t, batch, t'.vuln);
  }

  lemma InCarried(t: Tables, u: string, batch: seq<Vuln>, deleted: seq<string>, i: nat)
    requires i in Existing(t, u)
    ensures var name := Value(t.meta, t.vuln[i].nameId);
            i in Carried(t, u, batch, deleted) <==> !Named(batch, name) && name !in deleted
  {
  }
}

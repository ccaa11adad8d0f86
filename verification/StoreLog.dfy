/** Whole runs of the store, and the plain log they refine: after any interleaving of committed and failed updates
    of any updaters, deletions and garbage collections, each operation publishes what the log machine says. */
module StoreLog {
  import opened Text
  import opened Advisory
  import opened Tables
  import opened StoreIntegrity
  import opened StoreRefinement

  /** A transaction of a run. A garbage collection that stopped early is `Collect(_, false)`. */
  datatype Command =
    | UpdateVulns(op: Op, batch: seq<Vuln>, deleted: Option<seq<string>>)
    | UpdateEnrichs(op: Op, records: seq<Enrichment>)
    | Collect(keep: nat, done: bool)
    | Delete(refs: seq<string>)
    | FailedUpdate

  ghost predicate Next(t: Tables, c: Command, t': Tables) {
    match c
    case UpdateVulns(op, batch, deleted) => VulnStep(t, op, batch, deleted, t')
    case UpdateEnrichs(op, records) => EnrichStep(t, op, records, t')
    case Collect(keep, done) => exists kept :: GcStep(t, keep, done, kept, t')
    case Delete(refs) => t' == KeepOps(t, NotReferenced(t.ops, refs))
    case FailedUpdate => t' == t
  }

  /** A run: `ts` are the tables before and after each command. */
  ghost predicate Run(ts: seq<Tables>, cs: seq<Command>) {
    |ts| == |cs| + 1 && ts[0] == EMPTY && forall i {:trigger cs[i]} :: 0 <= i < |cs| ==> Next(ts[i], cs[i], ts[i + 1])
  }

  // ---- Integrity and content over every run ----

  lemma NextDeletion(t: Tables, c: Command, t': Tables) returns (kept: set<nat>)
    requires Next(t, c, t') && (c.Collect? || c.Delete? || c.FailedUpdate?)
    ensures Swept(KeepOps(t, kept), t')
    ensures c.Collect? ==> ValidCut(t.ops, c.keep, kept) || kept == t.ops.Keys
    ensures c.Delete? ==> kept == NotReferenced(t.ops, c.refs)
    ensures c.FailedUpdate? ==> t' == t
  {
    match c
    case Collect(keep, done) =>
      kept :| GcStep(t, keep, done, kept, t');
    case Delete(refs) =>
      kept := NotReferenced(t.ops, refs);
    case FailedUpdate =>
      kept := t.ops.Keys + (set a | a in t.uoVuln :: a.0) + (set a | a in t.uoEnrich :: a.0);
      assert KeepOps(t, kept) == t;
  }

  lemma NextKeepsInv(t: Tables, c: Command, t': Tables)
    requires Inv(t) && Next(t, c, t')
    ensures Inv(t')
  {
    match c
    case UpdateVulns(op, batch, deleted) => VulnStepKeepsInv(t, op, batch, deleted, t');
    case UpdateEnrichs(op, records) => EnrichStepKeepsInv(t, op, records, t');
    case _ =>
      var kept := NextDeletion(t, c, t');
      DeletionKeepsInv(t, kept, t');
  }

  lemma NextFrame(t: Tables, c: Command, t': Tables, o: nat)
    requires Inv(t) && Next(t, c, t') && o <= t.opSeq && o in t'.ops
    ensures o in t.ops && t'.ops[o] == t.ops[o] && ContentOf(t', o) == ContentOf(t, o)
  {
    match c
    case UpdateVulns(op, batch, deleted) => VulnStepFrame(t, op, batch, deleted, t', o);
    case UpdateEnrichs(op, records) => EnrichStepFrame(t, op, records, t', o);
    case _ =>
      var kept := NextDeletion(t, c, t');
      if c.FailedUpdate? {
      } else {
        DeletionFrame(t, kept, t', o);
      }
  }

  /** Every table of every run keeps its keys and references, with no assumption on records or clocks. */
  lemma {:induction false} RunKeepsIntegrity(ts: seq<Tables>, cs: seq<Command>, i: nat)
    requires Run(ts, cs) && i <= |cs|
    ensures Inv(ts[i])
  {
    if i > 0 {
      RunKeepsIntegrity(ts, cs, i - 1);
      NextKeepsInv(ts[i - 1], cs[i - 1], ts[i]);
    }
  }

  lemma RunStepFrame(ts: seq<Tables>, cs: seq<Command>, j: nat, o: nat)
    requires Run(ts, cs) && j < |cs| && o <= ts[j].opSeq && o in ts[j + 1].ops
    ensures Same(ts[j], ts[j + 1], o)
  {
    RunKeepsIntegrity(ts, cs, j);
    NextFrame(ts[j], cs[j], ts[j + 1], o);
  }

  /** What holds of an operation at two moments of a run. */
  ghost predicate Same(t: Tables, t': Tables, o: nat) {
    o in t.ops && o in t'.ops && t'.ops[o] == t.ops[o] && ContentOf(t', o) == ContentOf(t, o)
  }

  lemma SameTrans(a: Tables, b: Tables, c: Tables, o: nat)
    requires Same(a, b, o) && Same(b, c, o)
    ensures Same(a, c, o)
  {
  }

  /** An operation publishes the same thing for as long as it exists, although the ids of the rows behind other
      operations come and go, and its own id is never given to another operation. */
  lemma {:induction false} OperationNeverChanges(ts: seq<Tables>, cs: seq<Command>, i: nat, j: nat, o: nat)
    requires Run(ts, cs) && i <= j <= |cs| && o <= ts[i].opSeq && o in ts[j].ops
    ensures Same(ts[i], ts[j], o)
    decreases j - i
  {
    if i < j {
      SeqGrows(ts, cs, i, j - 1);
      RunStepFrame(ts, cs, j - 1, o);
      OperationNeverChanges(ts, cs, i, j - 1, o);
      SameTrans(ts[i], ts[j - 1], ts[j], o);
    }
  }

  lemma NextSeq(t: Tables, c: Command, t': Tables)
    requires Next(t, c, t')
    ensures t.opSeq <= t'.opSeq
  {
    if c.Collect? || c.Delete? || c.FailedUpdate? {
      var kept := NextDeletion(t, c, t');
    }
  }

  lemma {:induction false} SeqGrows(ts: seq<Tables>, cs: seq<Command>, i: nat, j: nat)
    requires Run(ts, cs) && i <= j <= |cs|
    ensures ts[i].opSeq <= ts[j].opSeq
    decreases j - i
  {
    if i < j {
      NextSeq(ts[i], cs[i], ts[i + 1]);
      SeqGrows(ts, cs, i + 1, j);
    }
  }

  // ---- The plain log ----

  /** The number of operations ever created, and what each one that is left publishes. No rows, ids, digest
      look-ups, interned texts or garbage. */
  datatype Plain = Plain(last: nat, log: map<nat, Snapshot>)

  function Abstract(t: Tables): Plain { Plain(t.opSeq, Log(t)) }

  function OpsIn(log: map<nat, Snapshot>): map<nat, Op> { map o | o in log :: log[o].op }

  function Restrict(log: map<nat, Snapshot>, kept: set<nat>): map<nat, Snapshot> {
    map o | o in log && o in kept :: log[o]
  }

  function Added(s: Plain, op: Op, c: Content): Plain {
    Plain(s.last + 1, s.log[s.last + 1 := Snapshot(op, c)])
  }

  /** One command on the log. Only a collection leaves a choice: which of several operations with equal dates to
      keep, and, when it fails, whether it deleted anything. */
  ghost predicate PlainNext(s: Plain, c: Command, s': Plain) {
    match c
    case UpdateVulns(op, batch, deleted) => s' == Added(s, op, AfterUpdate(s.log, op.updater, batch, deleted))
    case UpdateEnrichs(op, records) => s' == Added(s, op, Enrichments(RecordEntries(records)))
    case Collect(keep, done) =>
      exists kept :: && (ValidCut(OpsIn(s.log), keep, kept) || (!done && kept == s.log.Keys))
                     && s' == Plain(s.last, Restrict(s.log, kept))
    case Delete(refs) => s' == Plain(s.last, Restrict(s.log, NotReferenced(OpsIn(s.log), refs)))
    case FailedUpdate => s' == s
  }

  // ---- What the refinement relies on: the digest identifies a record ----

  ghost predicate Identified(vulns: iset<Vuln>, enrichments: iset<Enrichment>) {
    NoCollision(vulns) && forall d, e :: d in enrichments && e in enrichments && d.hash == e.hash ==> d == e
  }

  ghost predicate Handles(vulns: iset<Vuln>, enrichments: iset<Enrichment>, c: Command) {
    match c
    case UpdateVulns(_, batch, _) => forall v :: v in batch && Storable(v) ==> v in vulns
    case UpdateEnrichs(_, records) => forall e :: e in records ==> e in enrichments
    case _ => true
  }

  ghost predicate VulnsFrom(vulns: iset<Vuln>, meta: map<nat, Meta>, vuln: map<nat, VulnRow>) {
    forall i :: i in vuln ==> exists v :: v in vulns && RowOf(meta, vuln[i], v)
  }

  ghost predicate EnrichmentsFrom(enrichments: iset<Enrichment>, enrich: map<nat, EnrichRow>) {
    forall i :: i in enrich ==> EnrichmentOf(enrich[i]) in enrichments
  }

  ghost predicate Sourced(vulns: iset<Vuln>, enrichments: iset<Enrichment>, t: Tables) {
    VulnsFrom(vulns, t.meta, t.vuln) && EnrichmentsFrom(enrichments, t.enrich)
  }

  lemma SourcedNoClash(vulns: iset<Vuln>, t: Tables, batch: seq<Vuln>)
    requires NoCollision(vulns) && VulnsFrom(vulns, t.meta, t.vuln)
    requires forall v :: v in batch && Storable(v) ==> v in vulns
    ensures NoClash(t, batch)
  {
    forall v, i | v in batch && Storable(v) && i in t.vuln && t.vuln[i].hash == v.hash
      ensures Resolve(t.meta, t.vuln[i]) == EntryOf(v)
    {
      var w :| w in vulns && RowOf(t.meta, t.vuln[i], w);
      RowResolves(t.meta, t.vuln[i], w);
    }
  }

  lemma VulnStepSourced(vulns: iset<Vuln>, t: Tables, op: Op, batch: seq<Vuln>, deleted: Option<seq<string>>,
                        t': Tables)
    requires VulnsFrom(vulns, t.meta, t.vuln) && VulnStep(t, op, batch, deleted, t')
    requires forall v :: v in batch && Storable(v) ==> v in vulns
    ensures VulnsFrom(vulns, t'.meta, t'.vuln)
  {
    forall i | i in t'.vuln ensures exists v :: v in vulns && RowOf(t'.meta, t'.vuln[i], v) {
      if i in t.vuln {
        var v :| v in vulns && RowOf(t.meta, t.vuln[i], v);
        RowOfGrows(t.meta, t'.meta, t.vuln[i], v);
      } else {
        var v :| v in batch && RowOf(t'.meta, t'.vuln[i], v);
      }
    }
  }

  lemma SweptSourced(vulns: iset<Vuln>, enrichments: iset<Enrichment>, t: Tables, kept: set<nat>, t': Tables)
    requires Sourced(vulns, enrichments, t) && Swept(KeepOps(t, kept), t')
    ensures Sourced(vulns, enrichments, t')
  {
    forall i | i in t'.vuln ensures exists v :: v in vulns && RowOf(t'.meta, t'.vuln[i], v) {
      assert i in t.vuln;
    }
    assert forall i :: i in t'.enrich ==> i in t.enrich;
  }

  // ---- The refinement ----

  /** A step that adds one operation and keeps the contents of the others adds one snapshot. */
  lemma LogGrows(t: Tables, op: Op, t': Tables, c: Content)
    requires OpsOk(t) && t'.ops == t.ops[t.opSeq + 1 := op] && t'.opSeq == t.opSeq + 1
    requires ContentOf(t', t.opSeq + 1) == c
    requires forall o :: o in t.ops ==> ContentOf(t', o) == ContentOf(t, o)
    ensures Abstract(t') == Added(Abstract(t), op, c)
  {
    var grown := Log(t)[t.opSeq + 1 := Snapshot(op, c)];
    assert Log(t').Keys == grown.Keys;
    forall o | o in grown ensures Log(t')[o] == grown[o] {
      assert o != t.opSeq + 1 ==> o in t.ops && t'.ops[o] == t.ops[o];
    }
  }

  lemma VulnStepRefines(vulns: iset<Vuln>, t: Tables, op: Op, batch: seq<Vuln>, deleted: Option<seq<string>>,
                        t': Tables)
    requires Inv(t) && NoCollision(vulns) && VulnsFrom(vulns, t.meta, t.vuln)
    requires forall v :: v in batch && Storable(v) ==> v in vulns
    requires VulnStep(t, op, batch, deleted, t')
    ensures Abstract(t') == Added(Abstract(t), op, AfterUpdate(Log(t), op.updater, batch, deleted))
  {
    SourcedNoClash(vulns, t, batch);
    VulnStepContent(t, op, batch, deleted, t');
    forall o | o in t.ops ensures ContentOf(t', o) == ContentOf(t, o) {
      VulnStepFrame(t, op, batch, deleted, t', o);
    }
    LogGrows(t, op, t', AfterUpdate(Log(t), op.updater, batch, deleted));
  }

  lemma EnrichStepRefines(enrichments: iset<Enrichment>, t: Tables, op: Op, records: seq<Enrichment>, t': Tables)
    requires Inv(t) && EnrichmentsFrom(enrichments, t.enrich) && EnrichStep(t, op, records, t')
    requires forall d, e :: d in enrichments && e in enrichments && d.hash == e.hash ==> d == e
    requires forall e :: e in records ==> e in enrichments
    ensures Abstract(t') == Added(Abstract(t), op, Enrichments(RecordEntries(records)))
    ensures EnrichmentsFrom(enrichments, t'.enrich)
  {
    EnrichStepContent(t, op, records, t');
    forall o | o in t.ops ensures ContentOf(t', o) == ContentOf(t, o) {
      EnrichStepFrame(t, op, records, t', o);
    }
    LogGrows(t, op, t', Enrichments(RecordEntries(records)));
    forall i | i in t'.enrich ensures EnrichmentOf(t'.enrich[i]) in enrichments {
      assert i in t.enrich ==> t'.enrich[i] == t.enrich[i];
    }
  }

  lemma DeletionRefines(t: Tables, kept: set<nat>, t': Tables)
    requires Inv(t) && Swept(KeepOps(t, kept), t')
    ensures Abstract(t') == Plain(t.opSeq, Restrict(Log(t), kept))
  {
    DeletionOnLog(t, kept, t');
  }

  lemma NextRefines(vulns: iset<Vuln>, enrichments: iset<Enrichment>, t: Tables, c: Command, t': Tables)
    requires Identified(vulns, enrichments) && Handles(vulns, enrichments, c)
    requires Inv(t) && Sourced(vulns, enrichments, t) && Next(t, c, t')
    ensures PlainNext(Abstract(t), c, Abstract(t')) && Sourced(vulns, enrichments, t')
  {
    assert OpsIn(Log(t)) == t.ops;
    match c
    case UpdateVulns(op, batch, deleted) =>
      VulnStepRefines(vulns, t, op, batch, deleted, t');
      VulnStepSourced(vulns, t, op, batch, deleted, t');
    case UpdateEnrichs(op, records) =>
      EnrichStepRefines(enrichments, t, op, records, t');
    case FailedUpdate =>
    case _ =>
      var kept := NextDeletion(t, c, t');
      DeletionRefines(t, kept, t');
      SweptSourced(vulns, enrichments, t, kept, t');
  }

  lemma {:induction false} RunSourced(vulns: iset<Vuln>, enrichments: iset<Enrichment>, ts: seq<Tables>,
                                      cs: seq<Command>, i: nat)
    requires Identified(vulns, enrichments) && Run(ts, cs) && i <= |cs|
    requires forall k :: 0 <= k < |cs| ==> Handles(vulns, enrichments, cs[k])
    ensures Inv(ts[i]) && Sourced(vulns, enrichments, ts[i])
  {
    RunKeepsIntegrity(ts, cs, i);
    if i > 0 {
      RunSourced(vulns, enrichments, ts, cs, i - 1);
      NextRefines(vulns, enrichments, ts[i - 1], cs[i - 1], ts[i]);
    }
  }

  ghost predicate PlainRun(ss: seq<Plain>, cs: seq<Command>) {
    |ss| == |cs| + 1 && ss[0] == Plain(0, map[]) && forall i :: 0 <= i < |cs| ==> PlainNext(ss[i], cs[i], ss[i + 1])
  }

  function AbstractAll(ts: seq<Tables>): (ss: seq<Plain>)
    ensures |ss| == |ts| && forall i :: 0 <= i < |ts| ==> ss[i] == Abstract(ts[i])
  {
    if ts == [] then [] else [Abstract(ts[0])] + AbstractAll(ts[1..])
  }

  /** The main theorem: every run of the store is a run of the plain log. Updates of any updaters, sharing rows or
      not, at any dates; collections with any count; deletions of any operations; failures of all of these. The
      digests are all that is relied on. */
  lemma RunRefinesLog(vulns: iset<Vuln>, enrichments: iset<Enrichment>, ts: seq<Tables>, cs: seq<Command>)
    requires Identified(vulns, enrichments) && Run(ts, cs)
    requires forall k :: 0 <= k < |cs| ==> Handles(vulns, enrichments, cs[k])
    ensures PlainRun(AbstractAll(ts), cs)
  {
    assert Log(EMPTY) == map[];
    forall i | 0 <= i < |cs| ensures PlainNext(Abstract(ts[i]), cs[i], Abstract(ts[i + 1])) {
      RunSourced(vulns, enrichments, ts, cs, i);
      NextRefines(vulns, enrichments, ts[i], cs[i], ts[i + 1]);
    }
  }

  /** No assumption on enrichments is left when their records hold no zero byte. */
  lemma NulFreeRunRefinesLog(vulns: iset<Vuln>, ts: seq<Tables>, cs: seq<Command>)
    requires NoCollision(vulns) && Run(ts, cs)
    requires forall k, v :: 0 <= k < |cs| && cs[k].UpdateVulns? && v in cs[k].batch && Storable(v) ==> v in vulns
    requires forall k, e :: 0 <= k < |cs| && cs[k].UpdateEnrichs? && e in cs[k].records ==> NulFreeDigest(e)
    ensures PlainRun(AbstractAll(ts), cs)
  {
    var enrichments := iset e | NulFreeDigest(e);
    forall d, e | d in enrichments && e in enrichments && d.hash == e.hash ensures d == e {
      NulFreeIdentified(d, e);
    }
    RunRefinesLog(vulns, enrichments, ts, cs);
  }
}

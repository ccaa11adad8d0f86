/** What each updater publishes after a run, as a fold over its own updates: the log machine seen through the
    latest-operation view. */
module StoreRuns {
  import opened Text
  import opened Advisory
  import opened Tables
  import opened StoreRefinement
  import opened StoreLog
  import opened LatestOps

  /** The content of the updater's latest operation in the log. */
  ghost function Latest(log: map<nat, Snapshot>, updater: string): Option<Content> {
    if o :| IsLatestIn(log, o) && log[o].op.updater == updater then Some(log[o].content) else None
  }

  lemma LatestIs(log: map<nat, Snapshot>, o: nat)
    requires IsLatestIn(log, o)
    ensures Latest(log, log[o].op.updater) == Some(log[o].content)
  {
  }

  lemma SameLatest(log: map<nat, Snapshot>, u: string, o: nat)
    ensures LatestOf(OpsIn(log), u, o) <==> IsLatestIn(log, o) && log[o].op.updater == u
  {
    assert OpsIn(log).Keys == log.Keys;
  }

  lemma LatestNone(log: map<nat, Snapshot>, u: string)
    ensures Latest(log, u).None? <==> forall o :: o in log ==> log[o].op.updater != u
  {
    if o :| o in log && log[o].op.updater == u {
      var p := SomeLatest(OpsIn(log), o);
      SameLatest(log, u, p);
    }
  }

  /** What an updater publishes is the latest content in the log. */
  lemma PublishesLatest(t: Tables, u: string, c: Option<Content>)
    ensures Publishes(t, u, c) <==> c == Latest(Log(t), u)
  {
    LatestNone(Log(t), u);
    assert forall o :: o in t.ops <==> o in Log(t);
    if c.Some? && Publishes(t, u, c) {
      var o :| IsLatest(t.ops, o) && t.ops[o].updater == u && ContentOf(t, o) == c.value;
      LatestInLog(t, o);
      LatestIs(Log(t), o);
    }
    if Latest(Log(t), u).Some? {
      var o :| IsLatestIn(Log(t), o) && Log(t)[o].op.updater == u && Latest(Log(t), u) == Some(Log(t)[o].content);
      LatestInLog(t, o);
      assert Publishes(t, u, Some(ContentOf(t, o)));
    }
  }

  // ---- The plain map ----

  function Lookup(plain: map<string, Content>, updater: string): Option<Content> {
    if updater in plain then Some(plain[updater]) else None
  }

  function Apply(plain: map<string, Content>, c: Command): map<string, Content> {
    match c
    case UpdateVulns(op, batch, deleted) => plain[op.updater := AfterVulns(Lookup(plain, op.updater), batch, deleted)]
    case UpdateEnrichs(op, records) => plain[op.updater := Enrichments(RecordEntries(records))]
    case Collect(_, _) => plain
    case Delete(_) => plain
    case FailedUpdate => plain
  }

  function Fold(cs: seq<Command>): map<string, Content> {
    if cs == [] then map[] else Apply(Fold(cs[..|cs| - 1]), cs[|cs| - 1])
  }

  // ---- When the log is the plain map ----

  ghost predicate LaterThanAll(ops: map<nat, Op>, op: Op) {
    forall o :: o in ops && ops[o].updater == op.updater ==> ops[o].date < op.date
  }

  /** Records carry their updater's name, an updater's clock advances between its updates, collections keep at least
      one operation, and explicit deletions name no updater's latest operation. */
  ghost predicate Lawful(s: Plain, c: Command) {
    match c
    case UpdateVulns(op, batch, _) =>
      LaterThanAll(OpsIn(s.log), op) && forall v :: v in batch && Storable(v) ==> v.updater == op.updater
    case UpdateEnrichs(op, records) => LaterThanAll(OpsIn(s.log), op)
    case Collect(keep, _) => keep >= 1
    case Delete(refs) => forall o :: IsLatestIn(s.log, o) ==> s.log[o].op.ref !in refs
    case FailedUpdate => true
  }

  /** Every entry is published by its own updater only, and dates follow ids. */
  ghost predicate Orderly(s: Plain) {
    && (forall o :: o in s.log ==> o <= s.last)
    && (forall o, e :: o in s.log && s.log[o].content.Vulns? && e in s.log[o].content.entries
          ==> e.updater == s.log[o].op.updater)
    && DatesFollowIds(OpsIn(s.log))
  }

  ghost predicate Agrees(s: Plain, plain: map<string, Content>) {
    forall u :: Latest(s.log, u) == Lookup(plain, u)
  }

  /** Then a delta carries forward from its own updater's latest operation and from nothing else. */
  lemma OwnLatestIsLatest(s: Plain, u: string)
    requires Orderly(s)
    ensures OwnLatest(s.log, u) == match Latest(s.log, u)
                                   case Some(Vulns(entries)) => entries
                                   case _ => {}
  {
    forall o, e | o in s.log && IsLatestIn(s.log, o) && s.log[o].content.Vulns? && e in s.log[o].content.entries
                  && e.updater == u
      ensures Latest(s.log, u) == Some(s.log[o].content)
    {
      LatestIs(s.log, o);
    }
    if Latest(s.log, u).Some? {
      var o :| IsLatestIn(s.log, o) && s.log[o].op.updater == u && Latest(s.log, u) == Some(s.log[o].content);
      if s.log[o].content.Vulns? {
        forall e | e in s.log[o].content.entries ensures e in OwnLatest(s.log, u) {
          assert e.updater == u;
        }
      }
    }
  }

  lemma UpdateIsFold(s: Plain, u: string, batch: seq<Vuln>, deleted: Option<seq<string>>)
    requires Orderly(s)
    ensures AfterUpdate(s.log, u, batch, deleted) == AfterVulns(Latest(s.log, u), batch, deleted)
  {
    OwnLatestIsLatest(s, u);
  }

  lemma OpsAdded(s: Plain, op: Op, c: Content)
    ensures OpsIn(Added(s, op, c).log) == OpsIn(s.log)[s.last + 1 := op]
  {
  }

  /** Adding an operation makes it its updater's latest and leaves every other updater's latest alone. */
  lemma LatestAfterAdding(s: Plain, op: Op, c: Content, u: string)
    requires forall o :: o in s.log ==> o <= s.last
    ensures Latest(Added(s, op, c).log, u) == if u == op.updater then Some(c) else Latest(s.log, u)
  {
    var n, log := s.last + 1, Added(s, op, c).log;
    if u == op.updater {
      assert IsLatestIn(log, n);
      LatestIs(log, n);
    } else {
      LatestNone(s.log, u);
      LatestNone(log, u);
      if Latest(s.log, u).Some? {
        var o :| IsLatestIn(s.log, o) && s.log[o].op.updater == u && Latest(s.log, u) == Some(s.log[o].content);
        OpsAdded(s, op, c);
        AddedLatest(OpsIn(s.log), n, op, u, o);
        SameLatest(s.log, u, o);
        SameLatest(log, u, o);
        LatestIs(log, o);
      } else {
        assert forall o :: o in log ==> log[o].op.updater != u;
      }
    }
  }

  /** No updater loses its latest operation. */
  ghost predicate KeepsLatest(log: map<nat, Snapshot>, kept: set<nat>) {
    forall o :: IsLatestIn(log, o) ==> o in kept
  }

  lemma LatestAfterRestricting(log: map<nat, Snapshot>, kept: set<nat>, u: string)
    requires KeepsLatest(log, kept)
    ensures Latest(Restrict(log, kept), u) == Latest(log, u)
  {
    var after := Restrict(log, kept);
    LatestNone(log, u);
    LatestNone(after, u);
    if Latest(log, u).Some? {
      var o :| IsLatestIn(log, o) && log[o].op.updater == u && Latest(log, u) == Some(log[o].content);
      assert OpsIn(after) == map p | p in OpsIn(log) && p in kept :: OpsIn(log)[p];
      SameLatest(log, u, o);
      forall p | p in OpsIn(log) && LatestOf(OpsIn(log), u, p) ensures p in kept {
        SameLatest(log, u, p);
      }
      RestrictedLatest(OpsIn(log), kept, u, o);
      SameLatest(after, u, o);
      LatestIs(after, o);
    }
  }

  /** A cut keeps every updater's latest operation when dates follow ids and something is kept. */
  lemma CutKeepsLatest(log: map<nat, Snapshot>, keep: nat, kept: set<nat>)
    requires ValidCut(OpsIn(log), keep, kept) && keep >= 1 && DatesFollowIds(OpsIn(log))
    ensures KeepsLatest(log, kept)
  {
    var ops := OpsIn(log);
    forall o | IsLatestIn(log, o) ensures o in kept {
      var u := ops[o].updater;
      assert o in OpsOf(ops, u);
      assert |OpsOf(ops, u)| >= 1;
      assert |OpsOf(ops, u) * kept| >= 1;
      var a :| a in OpsOf(ops, u) * kept;
      assert a < o ==> ops[a].date < ops[o].date;
    }
  }

  lemma AddedOrderly(s: Plain, op: Op, c: Content)
    requires Orderly(s) && LaterThanAll(OpsIn(s.log), op)
    requires c.Vulns? ==> forall e :: e in c.entries ==> e.updater == op.updater
    ensures Orderly(Added(s, op, c))
  {
    OpsAdded(s, op, c);
  }

  lemma RestrictedOrderly(s: Plain, kept: set<nat>)
    requires Orderly(s)
    ensures Orderly(Plain(s.last, Restrict(s.log, kept)))
  {
    var before, after := OpsIn(s.log), OpsIn(Restrict(s.log, kept));
    assert forall o :: o in after ==> o in before && after[o] == before[o];
  }

  lemma UpdateOrderly(s: Plain, op: Op, batch: seq<Vuln>, deleted: Option<seq<string>>)
    requires Orderly(s) && Lawful(s, UpdateVulns(op, batch, deleted))
    ensures Orderly(Added(s, op, AfterUpdate(s.log, op.updater, batch, deleted)))
  {
    AddedOrderly(s, op, AfterUpdate(s.log, op.updater, batch, deleted));
  }

  lemma StepOrderly(s: Plain, c: Command, s': Plain)
    requires Orderly(s) && Lawful(s, c) && PlainNext(s, c, s')
    ensures Orderly(s')
  {
    match c
    case UpdateVulns(op, batch, deleted) => UpdateOrderly(s, op, batch, deleted);
    case UpdateEnrichs(op, records) => AddedOrderly(s, op, Enrichments(RecordEntries(records)));
    case Collect(_, _) =>
      var kept :| s' == Plain(s.last, Restrict(s.log, kept));
      RestrictedOrderly(s, kept);
    case Delete(refs) => RestrictedOrderly(s, NotReferenced(OpsIn(s.log), refs));
    case FailedUpdate =>
  }

  lemma StepAgrees(s: Plain, c: Command, s': Plain, plain: map<string, Content>)
    requires Orderly(s) && Lawful(s, c) && PlainNext(s, c, s') && Agrees(s, plain)
    ensures Agrees(s', Apply(plain, c))
  {
    forall u ensures Latest(s'.log, u) == Lookup(Apply(plain, c), u) {
      assert Latest(s.log, u) == Lookup(plain, u);
      match c
      case UpdateVulns(op, batch, deleted) =>
        assert Latest(s.log, op.updater) == Lookup(plain, op.updater);
        UpdateIsFold(s, op.updater, batch, deleted);
        LatestAfterAdding(s, op, AfterUpdate(s.log, op.updater, batch, deleted), u);
      case UpdateEnrichs(op, records) =>
        LatestAfterAdding(s, op, Enrichments(RecordEntries(records)), u);
      case Collect(keep, done) =>
        CollectAgrees(s, keep, done, s', u);
      case Delete(refs) =>
        DeleteAgrees(s, refs, u);
      case FailedUpdate =>
    }
  }

  lemma CollectAgrees(s: Plain, keep: nat, done: bool, s': Plain, u: string)
    requires Orderly(s) && keep >= 1 && PlainNext(s, Collect(keep, done), s')
    ensures Latest(s'.log, u) == Latest(s.log, u)
  {
    var kept :| (ValidCut(OpsIn(s.log), keep, kept) || (!done && kept == s.log.Keys))
                && s' == Plain(s.last, Restrict(s.log, kept));
    if ValidCut(OpsIn(s.log), keep, kept) {
      CutKeepsLatest(s.log, keep, kept);
    }
    LatestAfterRestricting(s.log, kept, u);
  }

  lemma DeleteAgrees(s: Plain, refs: seq<string>, u: string)
    requires Lawful(s, Delete(refs))
    ensures Latest(Restrict(s.log, NotReferenced(OpsIn(s.log), refs)), u) == Latest(s.log, u)
  {
    LatestAfterRestricting(s.log, NotReferenced(OpsIn(s.log), refs), u);
  }

  ghost predicate LawfulRun(ss: seq<Plain>, cs: seq<Command>) {
    |ss| == |cs| + 1 && forall i :: 0 <= i < |cs| ==> Lawful(ss[i], cs[i])
  }

  lemma {:induction false} PlainRunAgrees(ss: seq<Plain>, cs: seq<Command>)
    requires PlainRun(ss, cs) && LawfulRun(ss, cs)
    ensures Orderly(ss[|cs|]) && Agrees(ss[|cs|], Fold(cs))
  {
    if cs == [] {
      forall u ensures Latest(ss[0].log, u) == None { LatestNone(ss[0].log, u); }
    } else {
      var k := |cs| - 1;
      PlainRunAgrees(ss[..k + 1], cs[..k]);
      StepOrderly(ss[k], cs[k], ss[k + 1]);
      StepAgrees(ss[k], cs[k], ss[k + 1], Fold(cs[..k]));
    }
  }

  /** What any updater publishes after a lawful run is what the fold of the run says, and nothing else: failed
      updates, collections and lawful deletions do not appear in it, nor do other updaters. */
  lemma RunRefinesFold(vulns: iset<Vuln>, enrichments: iset<Enrichment>, ts: seq<Tables>, cs: seq<Command>, u: string,
                       c: Option<Content>)
    requires Identified(vulns, enrichments) && Run(ts, cs)
    requires forall k :: 0 <= k < |cs| ==> Handles(vulns, enrichments, cs[k])
    requires LawfulRun(AbstractAll(ts), cs)
    ensures Publishes(ts[|cs|], u, c) <==> c == Lookup(Fold(cs), u)
  {
    RunRefinesLog(vulns, enrichments, ts, cs);
    PlainRunAgrees(AbstractAll(ts), cs);
    PublishesLatest(ts[|cs|], u, c);
    assert Latest(Log(ts[|cs|]), u) == Lookup(Fold(cs), u);
  }
}

/** When Get's answer is complete, what it depends on and what it does not. */
module Answers {
  import opened Advisory
  import opened Tables
  import opened RowScan
  import opened Query

  // ---- When the answer is complete ----

  lemma VisibleRow(t: Tables, e: Entry) returns (a: Row)
    requires Visible(t, e)
    ensures a in Rows(t) && a.1 in t.vuln && Resolve(t.meta, t.vuln[a.1]) == e && t.vuln[a.1].cols == e.cols
  {
    a :| a in Rows(t) && Resolve(t.meta, t.vuln[a.1]) == e;
  }

  /** What is answered is visible and selected by one of the package's records, whatever fails. */
  lemma AnswerIsSound(t: Tables, records: seq<IndexRecord>, ms: seq<Constraint>, vf: bool, g: Engine,
                      results: map<string, seq<Entry>>)
    requires Answers(t, records, ms, vf, g, results)
    ensures Sound(t, records, ms, vf, results)
  {
    forall id, e | e in At(results, id) ensures Visible(t, e) && Selected(records, ms, vf, id, e.cols) {
      GivenSelected(t, records, ms, vf, g, id, e);
    }
  }

  lemma TestedRow(t: Tables, r: IndexRecord, ms: seq<Constraint>, vf: bool, early: Row -> bool, a: Row)
    ensures Visit(t, r, ms, vf, early, a) == Yes <==> a in Rows(t) && TestRow(t, r, ms, vf, a) == Yes
    ensures Visit(t, r, ms, vf, early, a) == Fails ==> a.1 in t.vuln && FailsOn(r, ms, vf, false, t.vuln[a.1].cols)
    ensures !early(a) ==> (Visit(t, r, ms, vf, early, a) == Fails <==> TestRow(t, r, ms, vf, a) == Fails)
    ensures early(a) && a.1 in t.vuln && FailsOn(r, ms, vf, false, t.vuln[a.1].cols)
            ==> Visit(t, r, ms, vf, early, a) == Fails
  {
  }

  lemma TesterScannable(t: Tables, r: IndexRecord, ms: seq<Constraint>, vf: bool, early: Row -> bool)
    ensures Scannable(Tester(t, r, ms, vf, early), Rows(t), MayVisit(t))
  {
  }

  /** A delivered row, and the record that selects it. */
  lemma GivenRow(t: Tables, records: seq<IndexRecord>, ms: seq<Constraint>, vf: bool, g: Engine, id: string, e: Entry)
    returns (k: int, a: Row)
    requires Given(t, records, ms, vf, g, id, e)
    ensures 0 <= k < |records| && records[k].pkg.id == id && a in RowsFor(t, records, ms, vf, g, k)
    ensures a in Rows(t) && a.1 in t.vuln && Resolve(t.meta, t.vuln[a.1]) == e
    ensures Buildable(records[k], ms) && TestRow(t, records[k], ms, vf, a) == Yes
  {
    k :| 0 <= k < |records| && records[k].pkg.id == id && ResolvesIn(t, RowsFor(t, records, ms, vf, g, k), e);
    a :| a in RowsFor(t, records, ms, vf, g, k) && a.1 in t.vuln && Resolve(t.meta, t.vuln[a.1]) == e;
    DeliveredPass(TesterFor(t, records[k], ms, vf, g, k), g.plan(k).order);
    TestedRow(t, records[k], ms, vf, g.plan(k).early, a);
  }

  lemma GivenSelected(t: Tables, records: seq<IndexRecord>, ms: seq<Constraint>, vf: bool, g: Engine, id: string,
                      e: Entry)
    requires Given(t, records, ms, vf, g, id, e)
    ensures Visible(t, e) && Selected(records, ms, vf, id, e.cols)
  {
    var k, a := GivenRow(t, records, ms, vf, g, id, e);
    assert SelectedBy(records[k], ms, vf, e.cols);
  }

  /** Whether the version test can fail on these columns: when it comes last, if it is reached; otherwise always when
      the range or a version does not parse. */
  predicate FailsOn(r: IndexRecord, ms: seq<Constraint>, vf: bool, last: bool, c: Columns) {
    if last then Test(r, ms, vf, c) == Fails else vf && Errs(r.pkg.normalized, c)
  }

  ghost predicate CanFail(t: Tables, r: IndexRecord, ms: seq<Constraint>, vf: bool, last: bool) {
    exists i :: i in t.vuln && FailsOn(r, ms, vf, last, t.vuln[i].cols)
  }

  ghost predicate Passes(t: Tables, r: IndexRecord, ms: seq<Constraint>, vf: bool, a: Row) {
    a in Rows(t) && TestRow(t, r, ms, vf, a) == Yes
  }

  /** A record that selects an entry may silently not be handed it: some row of vuln, current or not, fails its version
      test, and, when the driver steps, another row passes. */
  ghost predicate CanMiss(t: Tables, r: IndexRecord, ms: seq<Constraint>, vf: bool, last: bool, steps: bool,
                          hash: Digest) {
    && CanFail(t, r, ms, vf, last)
    && (steps ==> exists a :: Passes(t, r, ms, vf, a) && t.vuln[a.1].hash != hash)
  }

  /** A record that makes every call fail. */
  ghost predicate Stuck(t: Tables, r: IndexRecord, ms: seq<Constraint>, vf: bool, steps: bool) {
    && steps && Buildable(r, ms) && (exists a :: a in Rows(t) && TestRow(t, r, ms, vf, a) == Fails)
    && forall a :: !Passes(t, r, ms, vf, a)
  }

  /** A record that selects an entry and cannot miss it. */
  ghost predicate SureOf(t: Tables, r: IndexRecord, ms: seq<Constraint>, vf: bool, last: bool, steps: bool, e: Entry) {
    SelectedBy(r, ms, vf, e.cols) && !CanMiss(t, r, ms, vf, last, steps, e.hash)
  }

  ghost predicate SelectedSurely(t: Tables, records: seq<IndexRecord>, ms: seq<Constraint>, vf: bool, last: bool,
                                 steps: bool, id: string, e: Entry) {
    exists r :: r in records && r.pkg.id == id && SureOf(t, r, ms, vf, last, steps, e)
  }

  ghost predicate AllSelectedSurely(t: Tables, records: seq<IndexRecord>, ms: seq<Constraint>, vf: bool, last: bool,
                                    steps: bool) {
    forall id, e :: Visible(t, e) && Selected(records, ms, vf, id, e.cols) ==>
                      SelectedSurely(t, records, ms, vf, last, steps, id, e)
  }

  ghost predicate AnyStuck(t: Tables, records: seq<IndexRecord>, ms: seq<Constraint>, vf: bool, steps: bool) {
    exists r :: r in records && Stuck(t, r, ms, vf, steps)
  }

  /** The calls that a kind of engine completes. */
  ghost predicate Runs(t: Tables, records: seq<IndexRecord>, ms: seq<Constraint>, vf: bool, last: bool, steps: bool,
                       g: Engine) {
    Plans(t, last, g) && g.steps == steps && Succeeds(t, records, ms, vf, g)
  }

  ghost predicate AllGiven(t: Tables, records: seq<IndexRecord>, ms: seq<Constraint>, vf: bool, g: Engine) {
    forall id, e :: Visible(t, e) && Selected(records, ms, vf, id, e.cols) ==> Given(t, records, ms, vf, g, id, e)
  }

  /** For each kind of engine: every call that succeeds is handed everything its records select if and only if no call
      can succeed, or each selected entry is selected for its package by a record that cannot miss it. */
  lemma GetCompleteIff(t: Tables, records: seq<IndexRecord>, ms: seq<Constraint>, vf: bool, last: bool, steps: bool)
    requires VulnUnique(t.vuln)
    ensures (forall g :: Runs(t, records, ms, vf, last, steps, g) ==> AllGiven(t, records, ms, vf, g)) <==>
            AnyStuck(t, records, ms, vf, steps) || AllSelectedSurely(t, records, ms, vf, last, steps)
  {
    forall g | && Runs(t, records, ms, vf, last, steps, g)
               && (AnyStuck(t, records, ms, vf, steps) || AllSelectedSurely(t, records, ms, vf, last, steps))
      ensures AllGiven(t, records, ms, vf, g)
    {
      AllSurelyGiven(t, records, ms, vf, last, g);
    }
    if !AnyStuck(t, records, ms, vf, steps) {
      forall id, e | && Visible(t, e) && Selected(records, ms, vf, id, e.cols)
                     && !SelectedSurely(t, records, ms, vf, last, steps, id, e)
        ensures exists g :: Runs(t, records, ms, vf, last, steps, g) && !AllGiven(t, records, ms, vf, g)
      {
        var g := WorstEngine(t, records, ms, vf, last, steps, id, e);
      }
    }
  }

  lemma AllSurelyGiven(t: Tables, records: seq<IndexRecord>, ms: seq<Constraint>, vf: bool, last: bool, g: Engine)
    requires VulnUnique(t.vuln) && Plans(t, last, g) && Succeeds(t, records, ms, vf, g)
    requires AnyStuck(t, records, ms, vf, g.steps) || AllSelectedSurely(t, records, ms, vf, last, g.steps)
    ensures AllGiven(t, records, ms, vf, g)
  {
    StuckFails(t, records, ms, vf, g);
    forall id, e | Visible(t, e) && Selected(records, ms, vf, id, e.cols) ensures Given(t, records, ms, vf, g, id, e) {
      SurelyGiven(t, records, ms, vf, last, g, id, e);
    }
  }

  lemma StuckFails(t: Tables, records: seq<IndexRecord>, ms: seq<Constraint>, vf: bool, g: Engine)
    requires Plans(t, false, g) && Succeeds(t, records, ms, vf, g)
    ensures !AnyStuck(t, records, ms, vf, g.steps)
  {
    forall k | 0 <= k < |records| ensures !Stuck(t, records[k], ms, vf, g.steps) {
      var test := TesterFor(t, records[k], ms, vf, g, k);
      TesterScannable(t, records[k], ms, vf, g.plan(k).early);
      assert IsPlan(t, false, g.plan(k)) && Goes(t, records, ms, vf, g, k);
      UnreportedIff(g.steps, test, Rows(t), MayVisit(t));
      forall a ensures test(a) == Yes <==> Passes(t, records[k], ms, vf, a) {
        TestedRow(t, records[k], ms, vf, g.plan(k).early, a);
      }
      forall a | a in Rows(t) && TestRow(t, records[k], ms, vf, a) == Fails ensures test(a) == Fails {
      }
    }
  }

  lemma SurelyGiven(t: Tables, records: seq<IndexRecord>, ms: seq<Constraint>, vf: bool, last: bool, g: Engine,
                    id: string, e: Entry)
    requires VulnUnique(t.vuln) && Plans(t, last, g) && Succeeds(t, records, ms, vf, g) && Visible(t, e)
    requires SelectedSurely(t, records, ms, vf, last, g.steps, id, e)
    ensures Given(t, records, ms, vf, g, id, e)
  {
    var r :| r in records && r.pkg.id == id && SureOf(t, r, ms, vf, last, g.steps, e);
    var k :| 0 <= k < |records| && records[k] == r;
    var a := VisibleRow(t, e);
    var test, p := TesterFor(t, r, ms, vf, g, k), g.plan(k);
    assert IsPlan(t, last, p) && Goes(t, records, ms, vf, g, k);
    TestedRow(t, r, ms, vf, p.early, a);
    if Misses(g.steps, test, p.order, a.1) {
      MissedMayMiss(t, r, ms, vf, last, g.steps, p, a);
    }
    var b :| b in Delivered(test, p.order) && b.1 == a.1;
    assert b in RowsFor(t, records, ms, vf, g, k);
    assert ResolvesIn(t, RowsFor(t, records, ms, vf, g, k), e);
  }

  lemma MissedMayMiss(t: Tables, r: IndexRecord, ms: seq<Constraint>, vf: bool, last: bool, steps: bool, p: Plan,
                      a: Row)
    requires VulnUnique(t.vuln) && IsPlan(t, last, p) && Passes(t, r, ms, vf, a)
    requires Misses(steps, Tester(t, r, ms, vf, p.early), p.order, a.1)
    ensures CanMiss(t, r, ms, vf, last, steps, t.vuln[a.1].hash)
  {
    var test := Tester(t, r, ms, vf, p.early);
    TesterScannable(t, r, ms, vf, p.early);
    TestedRow(t, r, ms, vf, p.early, a);
    MissesIff(steps, test, Rows(t), MayVisit(t), a);
    var f :| MayVisit(t)(f) && test(f) == Fails;
    TestedRow(t, r, ms, vf, p.early, f);
    assert FailsOn(r, ms, vf, last, t.vuln[f.1].cols);
    if steps {
      var z :| test(z) == Yes && z.1 != a.1;
      TestedRow(t, r, ms, vf, p.early, z);
    }
  }

  /** How a record's query is run so as not to be reported and to miss a row if that is possible. */
  ghost predicate Worst(t: Tables, r: IndexRecord, ms: seq<Constraint>, vf: bool, last: bool, steps: bool, y: Row,
                        p: Plan) {
    && IsPlan(t, last, p)
    && (Buildable(r, ms) && !Stuck(t, r, ms, vf, steps) ==> !Reported(steps, Tester(t, r, ms, vf, p.early), p.order))
    && (Passes(t, r, ms, vf, y) && CanMiss(t, r, ms, vf, last, steps, t.vuln[y.1].hash) ==>
          Misses(steps, Tester(t, r, ms, vf, p.early), p.order, y.1))
  }

  ghost function WorstPlan(t: Tables, r: IndexRecord, ms: seq<Constraint>, vf: bool, last: bool, steps: bool, y: Row):
    (p: Plan)
    requires VulnUnique(t.vuln)
    ensures Worst(t, r, ms, vf, last, steps, y, p)
  {
    WorstPlanExists(t, r, ms, vf, last, steps, y);
    var p :| Worst(t, r, ms, vf, last, steps, y, p);
    p
  }

  lemma WorstPlanExists(t: Tables, r: IndexRecord, ms: seq<Constraint>, vf: bool, last: bool, steps: bool, y: Row)
    requires VulnUnique(t.vuln)
    ensures exists p :: Worst(t, r, ms, vf, last, steps, y, p)
  {
    if Passes(t, r, ms, vf, y) && CanMiss(t, r, ms, vf, last, steps, t.vuln[y.1].hash) {
      var p := MissPlan(t, r, ms, vf, last, steps, y);
      assert Worst(t, r, ms, vf, last, steps, y, p);
    } else {
      var p := GoPlan(t, r, ms, vf, last, steps);
      assert Worst(t, r, ms, vf, last, steps, y, p);
    }
  }

  lemma MissPlan(t: Tables, r: IndexRecord, ms: seq<Constraint>, vf: bool, last: bool, steps: bool, y: Row)
    returns (p: Plan)
    requires VulnUnique(t.vuln) && Passes(t, r, ms, vf, y) && CanMiss(t, r, ms, vf, last, steps, t.vuln[y.1].hash)
    ensures IsPlan(t, last, p) && Misses(steps, Tester(t, r, ms, vf, p.early), p.order, y.1)
  {
    var early: Row -> bool := _ => !last;
    var test := Tester(t, r, ms, vf, early);
    TesterScannable(t, r, ms, vf, early);
    var i :| i in t.vuln && FailsOn(r, ms, vf, last, t.vuln[i].cols);
    TestedRow(t, r, ms, vf, early, (0, i));
    TestedRow(t, r, ms, vf, early, y);
    assert MayVisit(t)((0, i)) && test((0, i)) == Fails;
    if steps {
      var z :| Passes(t, r, ms, vf, z) && t.vuln[z.1].hash != t.vuln[y.1].hash;
      TestedRow(t, r, ms, vf, early, z);
      assert test(z) == Yes && z.1 != y.1;
    }
    MissesIff(steps, test, Rows(t), MayVisit(t), y);
    var order :| IsVisit(order, Rows(t), MayVisit(t)) && Misses(steps, test, order, y.1);
    p := Plan(order, early);
  }

  lemma GoPlan(t: Tables, r: IndexRecord, ms: seq<Constraint>, vf: bool, last: bool, steps: bool) returns (p: Plan)
    ensures IsPlan(t, last, p)
    ensures Buildable(r, ms) && !Stuck(t, r, ms, vf, steps) ==>
              !Reported(steps, Tester(t, r, ms, vf, p.early), p.order)
  {
    var never: Row -> bool := _ => false;
    var test := Tester(t, r, ms, vf, never);
    TesterScannable(t, r, ms, vf, never);
    UnreportedIff(steps, test, Rows(t), MayVisit(t));
    forall a ensures test(a) == Yes <==> Passes(t, r, ms, vf, a) {
      TestedRow(t, r, ms, vf, never, a);
    }
    var order;
    if order' :| IsVisit(order', Rows(t), MayVisit(t)) && !Reported(steps, test, order') {
      order := order';
    } else {
      order := SomeVisit(Rows(t), MayVisit(t));
    }
    p := Plan(order, never);
  }

  /** An engine that completes the call without handing out an entry that no record is sure of. */
  lemma WorstEngine(t: Tables, records: seq<IndexRecord>, ms: seq<Constraint>, vf: bool, last: bool, steps: bool,
                    id: string, e: Entry)
    returns (g: Engine)
    requires VulnUnique(t.vuln) && !AnyStuck(t, records, ms, vf, steps) && Visible(t, e)
    requires !SelectedSurely(t, records, ms, vf, last, steps, id, e)
    ensures Runs(t, records, ms, vf, last, steps, g) && !Given(t, records, ms, vf, g, id, e)
  {
    var y := VisibleRow(t, e);
    var any := GoPlan(t, NO_RECORD, ms, vf, last, steps);
    g := Engine(true, true, _ => true, _ => true, steps,
                k => if 0 <= k < |records| then WorstPlan(t, records[k], ms, vf, last, steps, y) else any);
    if Given(t, records, ms, vf, g, id, e) {
      GivenIsSure(t, records, ms, vf, last, steps, id, e, y, g);
    }
    forall k | 0 <= k < |records| ensures Goes(t, records, ms, vf, g, k) {
      WorstGoes(t, records, ms, vf, last, y, g, k);
    }
  }

  lemma WorstGoes(t: Tables, records: seq<IndexRecord>, ms: seq<Constraint>, vf: bool, last: bool, y: Row, g: Engine,
                  k: int)
    requires 0 <= k < |records| && g.runs(k) && (forall a :: g.readable(a)) && !Stuck(t, records[k], ms, vf, g.steps)
    requires || Worst(t, records[k], ms, vf, last, g.steps, y, g.plan(k))
             || Kind(t, records[k], ms, vf, last, g.steps, y, g.plan(k))
    ensures Goes(t, records, ms, vf, g, k)
  {
  }

  /** What even the worst engine hands out is sure. */
  lemma GivenIsSure(t: Tables, records: seq<IndexRecord>, ms: seq<Constraint>, vf: bool, last: bool, steps: bool,
                    id: string, e: Entry, y: Row, g: Engine)
    requires VulnUnique(t.vuln) && y in Rows(t) && y.1 in t.vuln && Resolve(t.meta, t.vuln[y.1]) == e
    requires forall k :: 0 <= k < |records| ==> Worst(t, records[k], ms, vf, last, steps, y, g.plan(k))
    requires Given(t, records, ms, vf, g, id, e)
    ensures SelectedSurely(t, records, ms, vf, last, steps, id, e)
  {
    var k, a := GivenRow(t, records, ms, vf, g, id, e);
    assert a.1 == y.1 && Passes(t, records[k], ms, vf, y);
    assert SelectedBy(records[k], ms, vf, e.cols);
    assert Worst(t, records[k], ms, vf, last, steps, y, g.plan(k));
    assert !CanMiss(t, records[k], ms, vf, last, steps, e.hash);
    assert SureOf(t, records[k], ms, vf, last, steps, e);
  }

  const NO_RECORD :=
    IndexRecord(IndexedPackage("", "", "", "", "", "", VR.Version("", VR.ZERO)), NO_DISTRIBUTION, NO_REPOSITORY)

  /** Two calls, to questions that may be put differently, hand out the same. */
  ghost predicate SameGiven(t: Tables, rs: seq<IndexRecord>, ms: seq<Constraint>, rs': seq<IndexRecord>,
                            ms': seq<Constraint>, vf: bool, g: Engine, h: Engine) {
    forall id, e :: Given(t, rs, ms, vf, g, id, e) <==> Given(t, rs', ms', vf, h, id, e)
  }

  /** The same question, with records and matchers permuted or repeated: exactly under the same condition do any two
      successful calls hand out the same. */
  lemma EnginesAgreeIff(t: Tables, rs: seq<IndexRecord>, ms: seq<Constraint>, rs': seq<IndexRecord>,
                        ms': seq<Constraint>, vf: bool, last: bool, steps: bool)
    requires VulnUnique(t.vuln) && (forall r :: r in rs <==> r in rs') && (forall m :: m in ms <==> m in ms')
    ensures (forall g, h :: Runs(t, rs, ms, vf, last, steps, g) && Runs(t, rs', ms', vf, last, steps, h) ==>
                              SameGiven(t, rs, ms, rs', ms', vf, g, h)) <==>
            AnyStuck(t, rs, ms, vf, steps) || AllSelectedSurely(t, rs, ms, vf, last, steps)
  {
    SurelyAsSets(t, rs, ms, rs', ms', vf, last, steps);
    if AnyStuck(t, rs, ms, vf, steps) || AllSelectedSurely(t, rs, ms, vf, last, steps) {
      forall g, h | Runs(t, rs, ms, vf, last, steps, g) && Runs(t, rs', ms', vf, last, steps, h)
        ensures SameGiven(t, rs, ms, rs', ms', vf, g, h)
      {
        SurelyAgree(t, rs, ms, rs', ms', vf, last, g, h);
      }
    } else {
      var id, e :| && Visible(t, e) && Selected(rs, ms, vf, id, e.cols)
                   && !SelectedSurely(t, rs, ms, vf, last, steps, id, e);
      var g, h := Disagree(t, rs, ms, rs', ms', vf, last, steps, id, e);
    }
  }

  lemma SurelyAgree(t: Tables, rs: seq<IndexRecord>, ms: seq<Constraint>, rs': seq<IndexRecord>,
                    ms': seq<Constraint>, vf: bool, last: bool, g: Engine, h: Engine)
    requires VulnUnique(t.vuln) && (forall r :: r in rs <==> r in rs') && (forall m :: m in ms <==> m in ms')
    requires Plans(t, last, g) && Succeeds(t, rs, ms, vf, g) && Plans(t, last, h) && Succeeds(t, rs', ms', vf, h)
    requires AnyStuck(t, rs, ms, vf, g.steps) || AllSelectedSurely(t, rs, ms, vf, last, g.steps)
    requires AnyStuck(t, rs', ms', vf, h.steps) || AllSelectedSurely(t, rs', ms', vf, last, h.steps)
    ensures SameGiven(t, rs, ms, rs', ms', vf, g, h)
  {
    AllSurelyGiven(t, rs, ms, vf, last, g);
    AllSurelyGiven(t, rs', ms', vf, last, h);
    GivenIsSelected(t, rs, ms, vf, g);
    GivenIsSelected(t, rs', ms', vf, h);
    forall id, e: Entry ensures Selected(rs, ms, vf, id, e.cols) <==> Selected(rs', ms', vf, id, e.cols) {
      SelectedAsSets(rs, rs', ms, ms', vf, id, e.cols);
    }
  }

  lemma Disagree(t: Tables, rs: seq<IndexRecord>, ms: seq<Constraint>, rs': seq<IndexRecord>,
                 ms': seq<Constraint>, vf: bool, last: bool, steps: bool, id: string, e: Entry)
    returns (g: Engine, h: Engine)
    requires VulnUnique(t.vuln) && !AnyStuck(t, rs, ms, vf, steps) && !AnyStuck(t, rs', ms', vf, steps)
    requires Visible(t, e) && Selected(rs, ms, vf, id, e.cols)
    requires !SelectedSurely(t, rs', ms', vf, last, steps, id, e)
    ensures Runs(t, rs, ms, vf, last, steps, g) && Runs(t, rs', ms', vf, last, steps, h)
    ensures !SameGiven(t, rs, ms, rs', ms', vf, g, h)
  {
    var y := VisibleRow(t, e);
    g := KindEngine(t, rs, ms, vf, last, steps, y);
    KindGives(t, rs, ms, vf, last, steps, id, e, y, g);
    h := WorstEngine(t, rs', ms', vf, last, steps, id, e);
  }

  lemma SureAsSets(t: Tables, r: IndexRecord, ms: seq<Constraint>, ms': seq<Constraint>, vf: bool, last: bool,
                   steps: bool, e: Entry)
    requires forall m :: m in ms <==> m in ms'
    ensures SureOf(t, r, ms, vf, last, steps, e) <==> SureOf(t, r, ms', vf, last, steps, e)
  {
    forall c ensures Test(r, ms, vf, c) == Test(r, ms', vf, c) {
      TestAsSets(r, ms, ms', vf, c);
    }
    forall a ensures Passes(t, r, ms, vf, a) <==> Passes(t, r, ms', vf, a) {
    }
  }

  lemma TestRowAsSets(t: Tables, r: IndexRecord, ms: seq<Constraint>, ms': seq<Constraint>, vf: bool, a: Row)
    requires forall m :: m in ms <==> m in ms'
    ensures TestRow(t, r, ms, vf, a) == TestRow(t, r, ms', vf, a)
    ensures Passes(t, r, ms, vf, a) <==> Passes(t, r, ms', vf, a)
  {
    if a.1 in t.vuln {
      TestAsSets(r, ms, ms', vf, t.vuln[a.1].cols);
    }
  }

  lemma OneStuckAsSets(t: Tables, r: IndexRecord, ms: seq<Constraint>, ms': seq<Constraint>, vf: bool, steps: bool)
    requires forall m :: m in ms <==> m in ms'
    requires Stuck(t, r, ms, vf, steps)
    ensures Stuck(t, r, ms', vf, steps)
  {
    var f :| f in Rows(t) && TestRow(t, r, ms, vf, f) == Fails;
    TestRowAsSets(t, r, ms, ms', vf, f);
    forall a ensures !Passes(t, r, ms', vf, a) {
      TestRowAsSets(t, r, ms, ms', vf, a);
    }
  }

  lemma StuckAsSets(t: Tables, rs: seq<IndexRecord>, ms: seq<Constraint>, rs': seq<IndexRecord>,
                    ms': seq<Constraint>, vf: bool, steps: bool)
    requires (forall r :: r in rs ==> r in rs') && (forall m :: m in ms <==> m in ms')
    ensures AnyStuck(t, rs, ms, vf, steps) ==> AnyStuck(t, rs', ms', vf, steps)
  {
    if AnyStuck(t, rs, ms, vf, steps) {
      var r :| r in rs && Stuck(t, r, ms, vf, steps);
      OneStuckAsSets(t, r, ms, ms', vf, steps);
    }
  }

  lemma OneSurelyAsSets(t: Tables, rs: seq<IndexRecord>, ms: seq<Constraint>, rs': seq<IndexRecord>,
                        ms': seq<Constraint>, vf: bool, last: bool, steps: bool, id: string, e: Entry)
    requires (forall r :: r in rs ==> r in rs') && (forall m :: m in ms <==> m in ms')
    ensures SelectedSurely(t, rs, ms, vf, last, steps, id, e) ==> SelectedSurely(t, rs', ms', vf, last, steps, id, e)
  {
    if SelectedSurely(t, rs, ms, vf, last, steps, id, e) {
      var r :| r in rs && r.pkg.id == id && SureOf(t, r, ms, vf, last, steps, e);
      SureAsSets(t, r, ms, ms', vf, last, steps, e);
    }
  }

  lemma SurelyAsSets(t: Tables, rs: seq<IndexRecord>, ms: seq<Constraint>, rs': seq<IndexRecord>,
                     ms': seq<Constraint>, vf: bool, last: bool, steps: bool)
    requires (forall r :: r in rs <==> r in rs') && (forall m :: m in ms <==> m in ms')
    ensures AnyStuck(t, rs, ms, vf, steps) <==> AnyStuck(t, rs', ms', vf, steps)
    ensures forall id, e :: SelectedSurely(t, rs, ms, vf, last, steps, id, e) <==>
                            SelectedSurely(t, rs', ms', vf, last, steps, id, e)
    ensures AllSelectedSurely(t, rs, ms, vf, last, steps) <==> AllSelectedSurely(t, rs', ms', vf, last, steps)
  {
    StuckAsSets(t, rs, ms, rs', ms', vf, steps);
    StuckAsSets(t, rs', ms', rs, ms, vf, steps);
    forall id, e
      ensures SelectedSurely(t, rs, ms, vf, last, steps, id, e) <==> SelectedSurely(t, rs', ms', vf, last, steps, id, e)
      ensures Selected(rs, ms, vf, id, e.cols) <==> Selected(rs', ms', vf, id, e.cols)
    {
      OneSurelyAsSets(t, rs, ms, rs', ms', vf, last, steps, id, e);
      OneSurelyAsSets(t, rs', ms', rs, ms, vf, last, steps, id, e);
      SelectedAsSets(rs, rs', ms, ms', vf, id, e.cols);
    }
  }

  lemma GivenIsSelected(t: Tables, records: seq<IndexRecord>, ms: seq<Constraint>, vf: bool, g: Engine)
    ensures forall id, e :: Given(t, records, ms, vf, g, id, e) ==>
                              Visible(t, e) && Selected(records, ms, vf, id, e.cols)
  {
    forall id, e | Given(t, records, ms, vf, g, id, e) ensures Visible(t, e) && Selected(records, ms, vf, id, e.cols) {
      GivenSelected(t, records, ms, vf, g, id, e);
    }
  }

  /** How a record's query is run so as not to be reported and to hand out a row that it selects. */
  ghost predicate Kind(t: Tables, r: IndexRecord, ms: seq<Constraint>, vf: bool, last: bool, steps: bool, y: Row,
                       p: Plan) {
    && IsPlan(t, last, p)
    && (Buildable(r, ms) && !Stuck(t, r, ms, vf, steps) ==> !Reported(steps, Tester(t, r, ms, vf, p.early), p.order))
    && (Passes(t, r, ms, vf, y) ==> y in Delivered(Tester(t, r, ms, vf, p.early), p.order))
  }

  ghost function KindPlan(t: Tables, r: IndexRecord, ms: seq<Constraint>, vf: bool, last: bool, steps: bool, y: Row):
    (p: Plan)
    ensures Kind(t, r, ms, vf, last, steps, y, p)
  {
    KindPlanExists(t, r, ms, vf, last, steps, y);
    var p :| Kind(t, r, ms, vf, last, steps, y, p);
    p
  }

  lemma KindPlanExists(t: Tables, r: IndexRecord, ms: seq<Constraint>, vf: bool, last: bool, steps: bool, y: Row)
    ensures exists p :: Kind(t, r, ms, vf, last, steps, y, p)
  {
    if Passes(t, r, ms, vf, y) {
      var never: Row -> bool := _ => false;
      TestedRow(t, r, ms, vf, never, y);
      var order := VisitFirst(Rows(t), MayVisit(t), y);
      PassFirst(Tester(t, r, ms, vf, never), order);
      assert Kind(t, r, ms, vf, last, steps, y, Plan(order, never));
    } else {
      var p := GoPlan(t, r, ms, vf, last, steps);
      assert Kind(t, r, ms, vf, last, steps, y, p);
    }
  }

  /** An engine that completes the call and visits this row first where it passes. */
  lemma KindEngine(t: Tables, records: seq<IndexRecord>, ms: seq<Constraint>, vf: bool, last: bool, steps: bool,
                   y: Row)
    returns (g: Engine)
    requires !AnyStuck(t, records, ms, vf, steps)
    ensures Runs(t, records, ms, vf, last, steps, g)
    ensures forall k :: 0 <= k < |records| ==> Kind(t, records[k], ms, vf, last, steps, y, g.plan(k))
  {
    var any := GoPlan(t, NO_RECORD, ms, vf, last, steps);
    g := Engine(true, true, _ => true, _ => true, steps,
                k => if 0 <= k < |records| then KindPlan(t, records[k], ms, vf, last, steps, y) else any);
    forall k | 0 <= k < |records| ensures Goes(t, records, ms, vf, g, k) {
      WorstGoes(t, records, ms, vf, last, y, g, k);
    }
  }

  lemma KindGives(t: Tables, records: seq<IndexRecord>, ms: seq<Constraint>, vf: bool, last: bool, steps: bool,
                  id: string, e: Entry, y: Row, g: Engine)
    requires y in Rows(t) && y.1 in t.vuln && Resolve(t.meta, t.vuln[y.1]) == e
    requires forall k :: 0 <= k < |records| ==> Kind(t, records[k], ms, vf, last, steps, y, g.plan(k))
    requires Selected(records, ms, vf, id, e.cols)
    ensures Given(t, records, ms, vf, g, id, e)
  {
    var r :| r in records && r.pkg.id == id && SelectedBy(r, ms, vf, e.cols);
    var k :| 0 <= k < |records| && records[k] == r;
    assert Kind(t, r, ms, vf, last, steps, y, g.plan(k));
    assert y in RowsFor(t, records, ms, vf, g, k);
    assert ResolvesIn(t, RowsFor(t, records, ms, vf, g, k), e);
  }

  // ---- What the result does not depend on ----

  /** The selection depends only on which records and which matchers there are. */
  lemma SelectedAsSets(rs: seq<IndexRecord>, rs': seq<IndexRecord>, ms: seq<Constraint>, ms': seq<Constraint>,
                       vf: bool, id: string, c: Columns)
    requires (forall r :: r in rs <==> r in rs') && (forall m :: m in ms <==> m in ms')
    ensures Selected(rs, ms, vf, id, c) <==> Selected(rs', ms', vf, id, c)
  {
  }

  /** Two complete answers to the same question up to order and repetition list the same entries. */
  lemma SameQuestionSameAnswer(t: Tables, rs: seq<IndexRecord>, rs': seq<IndexRecord>, ms: seq<Constraint>,
                               ms': seq<Constraint>, vf: bool, x: map<string, seq<Entry>>, y: map<string, seq<Entry>>,
                               id: string)
    requires (forall r :: r in rs <==> r in rs') && (forall m :: m in ms <==> m in ms')
    requires Sound(t, rs, ms, vf, x) && Complete(t, rs, ms, vf, x)
    requires Sound(t, rs', ms', vf, y) && Complete(t, rs', ms', vf, y)
    ensures multiset(At(x, id)) == multiset(At(y, id))
  {
    forall e ensures e in At(x, id) <==> e in At(y, id) {
      SelectedAsSets(rs, rs', ms, ms', vf, id, e.cols);
    }
    forall e ensures multiset(At(x, id))[e] == multiset(At(y, id))[e] {
      OnceAtMost(At(x, id), e);
      OnceAtMost(At(y, id), e);
    }
  }

  lemma {:induction false} OnceAtMost(s: seq<Entry>, e: Entry)
    requires NoDuplicates(s)
    ensures multiset(s)[e] == if e in s then 1 else 0
  {
    if s != [] {
      assert s == [s[0]] + s[1..];
      OnceAtMost(s[1..], e);
    }
  }

  // ---- Adding a matcher ----

  lemma TestMore(r: IndexRecord, ms: seq<Constraint>, m: Constraint, vf: bool, c: Columns)
    ensures Test(r, ms + [m], vf, c) == if Holds(m, r, c) then Test(r, ms, vf, c) else No
  {
    assert forall x :: x in ms + [m] <==> x in ms || x == m;
  }

  /** Between a complete answer and any answer to the question with one more matcher: nothing is added. */
  lemma MoreMatchersFewerEntries(t: Tables, rs: seq<IndexRecord>, ms: seq<Constraint>, m: Constraint, vf: bool,
                                 more: map<string, seq<Entry>>, all: map<string, seq<Entry>>, id: string, e: Entry)
    requires Sound(t, rs, ms + [m], vf, more) && Complete(t, rs, ms, vf, all)
    requires e in At(more, id)
    ensures e in At(all, id)
  {
    var r :| r in rs && r.pkg.id == id && SelectedBy(r, ms + [m], vf, e.cols);
    TestMore(r, ms, m, vf, e.cols);
    assert forall x :: x in ms ==> x in ms + [m];
    assert SelectedBy(r, ms, vf, e.cols);
  }

  lemma MatcherNarrows(t: Tables, r: IndexRecord, ms: seq<Constraint>, m: Constraint, vf: bool, early: Row -> bool)
    ensures Narrows(Tester(t, r, ms + [m], vf, early), Tester(t, r, ms, vf, early))
    ensures forall a: Row :: a.1 in t.vuln ==>
              TestRow(t, r, ms + [m], vf, a)
              == if Holds(m, r, t.vuln[a.1].cols) then TestRow(t, r, ms, vf, a) else No
  {
    forall a: Row | a.1 in t.vuln
      ensures TestRow(t, r, ms + [m], vf, a)
           == if Holds(m, r, t.vuln[a.1].cols) then TestRow(t, r, ms, vf, a) else No
    {
      TestMore(r, ms, m, vf, t.vuln[a.1].cols);
    }
  }

  /** A record's query run in the same way: adding a matcher never hands out a row more if and only if the matcher
      rejects no row of vuln whose version test failed, or nothing passes with it. */
  lemma MatcherShrinksScanIff(t: Tables, r: IndexRecord, ms: seq<Constraint>, m: Constraint, vf: bool, last: bool)
    ensures (forall p :: IsPlan(t, last, p) ==>
                           Shrinks(Tester(t, r, ms + [m], vf, p.early), Tester(t, r, ms, vf, p.early), p.order)) <==>
            || (forall i :: i in t.vuln && Test(r, ms, vf, t.vuln[i].cols) == Fails ==> Holds(m, r, t.vuln[i].cols))
            || (forall a :: !Passes(t, r, ms + [m], vf, a))
  {
    if i :| i in t.vuln && Test(r, ms, vf, t.vuln[i].cols) == Fails && !Holds(m, r, t.vuln[i].cols) {
      if y :| Passes(t, r, ms + [m], vf, y) {
        var p := RejectedAdds(t, r, ms, m, vf, last, i, y);
      } else {
        forall p | IsPlan(t, last, p)
          ensures Shrinks(Tester(t, r, ms + [m], vf, p.early), Tester(t, r, ms, vf, p.early), p.order)
        {
          DeliveredPasses(t, r, ms + [m], vf, p);
        }
      }
    } else {
      forall p | IsPlan(t, last, p)
        ensures Shrinks(Tester(t, r, ms + [m], vf, p.early), Tester(t, r, ms, vf, p.early), p.order)
      {
        MatcherShrinks(t, r, ms, m, vf, p);
      }
    }
  }

  lemma MatcherShrinks(t: Tables, r: IndexRecord, ms: seq<Constraint>, m: Constraint, vf: bool, p: Plan)
    requires forall i :: i in t.vuln && Test(r, ms, vf, t.vuln[i].cols) == Fails ==> Holds(m, r, t.vuln[i].cols)
    ensures Shrinks(Tester(t, r, ms + [m], vf, p.early), Tester(t, r, ms, vf, p.early), p.order)
  {
    var more, test := Tester(t, r, ms + [m], vf, p.early), Tester(t, r, ms, vf, p.early);
    MatcherNarrows(t, r, ms, m, vf, p.early);
    forall a | a in p.order && test(a) == Fails ensures more(a) == Fails {
      TestMore(r, ms, m, vf, t.vuln[a.1].cols);
    }
    ShrinksInOrder(more, test, p.order);
  }

  /** A row that fails its version test and that the matcher rejects hides another, once it is visited first. */
  lemma RejectedAdds(t: Tables, r: IndexRecord, ms: seq<Constraint>, m: Constraint, vf: bool, last: bool, i: nat,
                     y: Row)
    returns (p: Plan)
    requires i in t.vuln && Test(r, ms, vf, t.vuln[i].cols) == Fails && !Holds(m, r, t.vuln[i].cols)
    requires Passes(t, r, ms + [m], vf, y)
    ensures IsPlan(t, last, p)
    ensures !Shrinks(Tester(t, r, ms + [m], vf, p.early), Tester(t, r, ms, vf, p.early), p.order)
  {
    var never: Row -> bool := _ => false;
    var more, test := Tester(t, r, ms + [m], vf, never), Tester(t, r, ms, vf, never);
    MatcherNarrows(t, r, ms, m, vf, never);
    TesterScannable(t, r, ms, vf, never);
    ShrinksIff(more, test, Rows(t), MayVisit(t));
    TestedRow(t, r, ms + [m], vf, never, y);
    TestMore(r, ms, m, vf, t.vuln[i].cols);
    assert more(y) == Yes && MayVisit(t)((0, i)) && test((0, i)) == Fails && more((0, i)) == No;
    var order :| IsVisit(order, Rows(t), MayVisit(t)) && !Shrinks(more, test, order);
    p := Plan(order, never);
  }

  lemma DeliveredPasses(t: Tables, r: IndexRecord, ms: seq<Constraint>, vf: bool, p: Plan)
    ensures forall a :: a in Delivered(Tester(t, r, ms, vf, p.early), p.order) ==> Passes(t, r, ms, vf, a)
  {
    DeliveredPass(Tester(t, r, ms, vf, p.early), p.order);
    forall a | a in Delivered(Tester(t, r, ms, vf, p.early), p.order) ensures Passes(t, r, ms, vf, a) {
      TestedRow(t, r, ms, vf, p.early, a);
    }
  }
}

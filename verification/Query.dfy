/** Get: the query built for each index record, the rows it selects from the current operations, and the result
    map with its per-package deduplication. */
module Query {
  import opened Text
  import opened Advisory
  import opened Tables
  import opened StoreRefinement
  import opened RowScan

  datatype Constraint =
    | PackageModule | DistributionDID | DistributionName | DistributionVersionID | DistributionVersion
    | DistributionVersionCodeName | DistributionPrettyName | DistributionCPE | DistributionArch
    | RepositoryName | RepositoryKey | HasFixedInVersion
    | Other(code: int)

  datatype IndexedPackage = IndexedPackage(
    id: string, name: string, kind: string, mod: string, sourceName: string, sourceKind: string,
    normalized: VR.Version)

  datatype IndexRecord = IndexRecord(pkg: IndexedPackage, dist: Distribution, repo: Repository)

  /** The condition a matcher adds to the query. */
  predicate Holds(m: Constraint, r: IndexRecord, c: Columns) {
    match m
    case PackageModule => c.pkg.mod == r.pkg.mod
    case DistributionDID => c.dist.did == r.dist.did
    case DistributionName => c.dist.name == r.dist.name
    case DistributionVersionID => c.dist.versionId == r.dist.versionId
    case DistributionVersion => c.dist.version == r.dist.version
    case DistributionVersionCodeName => c.dist.versionCodeName == r.dist.versionCodeName
    case DistributionPrettyName => c.dist.prettyName == r.dist.prettyName
    case DistributionCPE => c.dist.cpe == r.dist.cpe
    case DistributionArch => c.dist.arch == r.dist.arch
    case RepositoryName => c.repo.name == r.repo.name
    case RepositoryKey => c.repo.key == r.repo.key
    case HasFixedInVersion => c.fixedIn != ""
    case Other(_) => false
  }

  predicate NameTest(p: IndexedPackage, c: Columns) {
    || (c.pkg.name == p.name && c.pkg.kind == p.kind)
    || (p.sourceName != "" && c.pkg.name == p.sourceName && c.pkg.kind == p.sourceKind)
  }

  datatype Built = Built(record: IndexRecord, exps: seq<Constraint>, versionFiltering: bool)

  predicate Buildable(r: IndexRecord, matchers: seq<Constraint>) {
    r.pkg.name != "" && forall m :: m in matchers ==> !m.Other?
  }

  /** buildGetQuery: one condition per distinct matcher, in order of first occurrence; no query for an empty
      package name or an unknown matcher. */
  method BuildGetQuery(r: IndexRecord, matchers: seq<Constraint>, versionFiltering: bool)
    returns (q: Option<Built>)
    ensures q.Some? <==> Buildable(r, matchers)
    ensures q.Some? ==> q.value.record == r && q.value.versionFiltering == versionFiltering
    ensures q.Some? ==> forall m :: m in q.value.exps <==> m in matchers
    ensures q.Some? ==> forall i, j :: 0 <= i < j < |q.value.exps| ==> q.value.exps[i] != q.value.exps[j]
  {
    if r.pkg.name == "" { return None; }
    var exps: seq<Constraint> := [];
    var seen: set<Constraint> := {};
    for k := 0 to |matchers|
      invariant forall m :: m in seen <==> m in matchers[..k]
      invariant forall m :: m in exps <==> m in seen
      invariant forall m :: m in seen ==> !m.Other?
      invariant forall i, j :: 0 <= i < j < |exps| ==> exps[i] != exps[j]
    {
      var m := matchers[k];
      assert matchers[..k + 1] == matchers[..k] + [m];
      if m in seen { continue; }
      if m.Other? { return None; }
      exps := exps + [m];
      seen := seen + {m};
    }
    assert matchers[..|matchers|] == matchers;
    q := Some(Built(r, exps, versionFiltering));
  }

  /** The WHERE clause on the columns of one row, conditions in the order in which they are written: version_in
      comes last. A version kind that is NULL equals nothing. */
  function Test(r: IndexRecord, ms: seq<Constraint>, versionFiltering: bool, c: Columns): Truth {
    if !NameTest(r.pkg, c) || exists m :: m in ms && !Holds(m, r, c) then No
    else VersionTest(r.pkg.normalized, versionFiltering, c)
  }

  lemma TestAsSets(r: IndexRecord, ms: seq<Constraint>, ms': seq<Constraint>, vf: bool, c: Columns)
    requires forall m :: m in ms <==> m in ms'
    ensures Test(r, ms, vf, c) == Test(r, ms', vf, c)
  {
  }

  function VersionTest(v: VR.Version, versionFiltering: bool, c: Columns): Truth {
    if !versionFiltering then Yes
    else if c.versionKind != Some(v.kind) then No
    else
      match VR.VersionIn(VR.Dotted(v.v), c.range)
      case Verdict(b) => if b then Yes else No
      case _ => Fails
  }

  /** The version test on the columns of a stored record, in terms of its range: it fails exactly when some
      component involved is negative. */
  lemma VersionTestMeaning(p: VR.Version, v: Vulnerability)
    requires v.pkg.Some?
    ensures var t := VersionTest(p, true, ColumnsOf(v));
            match v.range {
              case Some(Range(lower, upper)) =>
                t == if lower.kind != p.kind || upper.kind != p.kind then No
                     else if !VR.NonNegative(p.v) || !VR.NonNegative(lower.v) || !VR.NonNegative(upper.v) then Fails
                     else if !VR.LexLess(p.v, lower.v) && VR.LexLess(p.v, upper.v) then Yes else No
              case None => t == No
            }
  {
    if v.range.Some? && v.range.value.lower.kind == v.range.value.upper.kind {
      VR.RangeRoundTrip(v.range.value);
      VR.VersionInMeaning(p.v, v.range.value);
    }
  }

  // ---- The rows a query sees ----

  predicate Joined(t: Tables, a: (nat, nat)) {
    && a.1 in t.vuln && t.vuln[a.1].nameId in t.meta && t.vuln[a.1].descId in t.meta
    && IsLatest(t.ops, a.0) && t.ops[a.0].kind == VulnerabilityKind
  }

  /** One joined row per latest vulnerability operation and row it is associated with. */
  function Rows(t: Tables): set<(nat, nat)> { set a | a in t.uoVuln && Joined(t, a) }

  ghost predicate Visible(t: Tables, e: Entry) {
    exists a :: a in Rows(t) && Resolve(t.meta, t.vuln[a.1]) == e
  }

  // ---- Get ----

  /** Some buildable record with this package id selects the columns. */
  predicate Selected(records: seq<IndexRecord>, matchers: seq<Constraint>, versionFiltering: bool, id: string,
                     c: Columns) {
    exists r :: r in records && r.pkg.id == id && SelectedBy(r, matchers, versionFiltering, c)
  }

  predicate SelectedBy(r: IndexRecord, matchers: seq<Constraint>, versionFiltering: bool, c: Columns) {
    Buildable(r, matchers) && Test(r, matchers, versionFiltering, c) == Yes
  }

  function At(results: map<string, seq<Entry>>, id: string): seq<Entry> {
    if id in results then results[id] else []
  }

  predicate NoDuplicates(s: seq<Entry>) { forall i, j :: 0 <= i < j < |s| ==> s[i].hash != s[j].hash }

  ghost predicate WellListed(results: map<string, seq<Entry>>) {
    (forall id :: id in results ==> results[id] != []) && forall id :: NoDuplicates(At(results, id))
  }

  /** Every package id lists, once each, only visible entries that some of its records select. */
  ghost predicate Sound(t: Tables, records: seq<IndexRecord>, matchers: seq<Constraint>, versionFiltering: bool,
                        results: map<string, seq<Entry>>) {
    && (forall id :: id in results ==> results[id] != [])
    && (forall id :: NoDuplicates(At(results, id)))
    && (forall id, e :: e in At(results, id) ==>
                        Visible(t, e) && Selected(records, matchers, versionFiltering, id, e.cols))
  }

  /** ... and all of them. */
  ghost predicate Complete(t: Tables, records: seq<IndexRecord>, matchers: seq<Constraint>, versionFiltering: bool,
                           results: map<string, seq<Entry>>) {
    forall id, e :: Visible(t, e) && Selected(records, matchers, versionFiltering, id, e.cols) ==> e in At(results, id)
  }

  /** Appending a selected entry unless its digest is already listed under the package. */
  method AddResult(results: map<string, seq<Entry>>, id: string, e: Entry) returns (r: map<string, seq<Entry>>)
    requires forall i :: i in results ==> results[i] != []
    requires forall i :: NoDuplicates(At(results, i))
    ensures forall i :: i in r ==> r[i] != []
    ensures forall i :: NoDuplicates(At(r, i))
    ensures forall i :: i != id ==> At(r, i) == At(results, i)
    ensures At(r, id) == At(results, id) + if exists d :: d in At(results, id) && d.hash == e.hash then [] else [e]
  {
    var vulnSet := set d | d in At(results, id) :: d.hash;
    r := results;
    if e.hash !in vulnSet {
      forall d | d in At(results, id) ensures d.hash != e.hash {
        assert d.hash in vulnSet;
      }
      r := results[id := At(results, id) + [e]];
      assert NoDuplicates(At(r, id));
    }
    forall i ensures NoDuplicates(At(r, i)) {
      assert i != id ==> At(r, i) == At(results, i);
    }
  }

  lemma VisibleByHash(t: Tables, d: Entry, e: Entry)
    requires VulnUnique(t.vuln) && Visible(t, d) && Visible(t, e) && d.hash == e.hash
    ensures d == e
  {
    var a :| a in Rows(t) && Resolve(t.meta, t.vuln[a.1]) == d;
    var b :| b in Rows(t) && Resolve(t.meta, t.vuln[b.1]) == e;
    assert a.1 == b.1;
  }

  /** Adding a visible entry: afterwards it is listed, and nothing else is new. */
  method AddOnce(t: Tables, results: map<string, seq<Entry>>, id: string, e: Entry)
    returns (r: map<string, seq<Entry>>)
    requires VulnUnique(t.vuln) && WellListed(results) && Visible(t, e)
    requires forall d :: d in At(results, id) ==> Visible(t, d)
    ensures WellListed(r)
    ensures forall i :: i != id ==> At(r, i) == At(results, i)
    ensures forall d :: d in At(r, id) <==> d in At(results, id) || d == e
  {
    r := AddResult(results, id, e);
    if d :| d in At(results, id) && d.hash == e.hash {
      VisibleByHash(t, d, e);
    }
  }

  // ---- The rows of one query ----

  predicate Errs(v: VR.Version, c: Columns) { !VR.VersionIn(VR.Dotted(v.v), c.range).Verdict? }

  /** The WHERE clause when the engine may call version_in although another condition does not hold. */
  function Evaluate(r: IndexRecord, ms: seq<Constraint>, vf: bool, early: bool, c: Columns): Truth {
    if Test(r, ms, vf, c) == No && vf && early && Errs(r.pkg.normalized, c) then Fails else Test(r, ms, vf, c)
  }

  function TestRow(t: Tables, r: IndexRecord, ms: seq<Constraint>, vf: bool, a: Row): Truth {
    if a.1 in t.vuln then Test(r, ms, vf, t.vuln[a.1].cols) else No
  }

  /** What becomes of a visited row: only a joined row is handed out, but a test may fail on any. */
  function Visit(t: Tables, r: IndexRecord, ms: seq<Constraint>, vf: bool, early: Row -> bool, a: Row): Truth {
    if a.1 !in t.vuln then No
    else
      var w := Evaluate(r, ms, vf, early(a), t.vuln[a.1].cols);
      if w == Yes && a !in Rows(t) then No else w
  }

  function Tester(t: Tables, r: IndexRecord, ms: seq<Constraint>, vf: bool, early: Row -> bool): Row -> Truth {
    a => Visit(t, r, ms, vf, early, a)
  }

  /** What one record's rows have added so far. */
  ghost predicate Scanned(t: Tables, results0: map<string, seq<Entry>>, id: string, rows: seq<Row>,
                          results: map<string, seq<Entry>>) {
    && WellListed(results)
    && (forall i :: i != id ==> At(results, i) == At(results0, i))
    && (forall e :: e in At(results, id) ==> Visible(t, e))
    && (forall e :: e in At(results, id) <==> e in At(results0, id) || ResolvesIn(t, rows, e))
  }

  /** A row that is handed out and read. */
  method AddRow(t: Tables, ghost results0: map<string, seq<Entry>>, id: string, ghost rows: seq<Row>, a: Row,
                results: map<string, seq<Entry>>)
    returns (after: map<string, seq<Entry>>)
    requires VulnUnique(t.vuln) && Scanned(t, results0, id, rows, results) && a in Rows(t)
    ensures Scanned(t, results0, id, rows + [a], after)
  {
    var e := Resolve(t.meta, t.vuln[a.1]);
    assert Visible(t, e);
    after := AddOnce(t, results, id, e);
    ResolvesSnoc(t, rows, a);
  }

  ghost predicate AllReadable(rows: seq<Row>, readable: Row -> bool) { forall a :: a in rows ==> readable(a) }

  /** What is still to come when the rows in `rest` have not been visited. */
  ghost predicate Ahead(test: Row -> Truth, order: seq<Row>, rows: seq<Row>, rest: seq<Row>) {
    rows + Delivered(test, rest) == Delivered(test, order)
  }

  lemma AheadNext(test: Row -> Truth, order: seq<Row>, rows: seq<Row>, rest: seq<Row>, readable: Row -> bool)
    requires rest != [] && Ahead(test, order, rows, rest)
    ensures test(rest[0]) == No ==> Ahead(test, order, rows, rest[1..])
    ensures test(rest[0]) == Yes ==> Ahead(test, order, rows + [rest[0]], rest[1..])
    ensures test(rest[0]) == Fails ==> rows == Delivered(test, order)
    ensures test(rest[0]) == Yes && !readable(rest[0]) ==> !AllReadable(Delivered(test, order), readable)
  {
    if test(rest[0]) == Yes {
      assert rows + Delivered(test, rest) == rows + [rest[0]] + Delivered(test, rest[1..]);
      assert rest[0] in rows + Delivered(test, rest);
    }
  }

  /** The rows of one query, in the order the engine visits them. `readable` says which rows can be scanned and their
      date parsed; the first that cannot ends the call with an error, and so does a failing test that the driver
      reports. Otherwise exactly the delivered rows are added, and nothing is taken away. */
  method ScanRows(t: Tables, id: string, steps: bool, test: Row -> Truth, order: seq<Row>, readable: Row -> bool,
                  results0: map<string, seq<Entry>>)
    returns (results: map<string, seq<Entry>>, ok: bool)
    requires VulnUnique(t.vuln) && Scanned(t, results0, id, [], results0)
    requires forall a :: test(a) == Yes ==> a in Rows(t)
    ensures ok <==> !Reported(steps, test, order) && AllReadable(Delivered(test, order), readable)
    ensures ok ==> Scanned(t, results0, id, Delivered(test, order), results)
  {
    results, ok := results0, true;
    ghost var rows := [];
    var i, handed := 0, false;
    while i < |order|
      invariant 0 <= i <= |order| && Ahead(test, order, rows, order[i..]) && (handed <==> rows != [])
      invariant forall a :: a in order[..i] ==> test(a) != Fails
      invariant AllReadable(rows, readable)
      invariant Scanned(t, results0, id, rows, results)
    {
      var a := order[i];
      assert a in order && order[i..][1..] == order[i + 1..];
      AheadNext(test, order, rows, order[i..], readable);
      var truth := test(a);
      if truth == Fails {
        return results, !steps || handed;
      }
      if truth == Yes {
        if !readable(a) {
          return results, false;
        }
        results := AddRow(t, results0, id, rows, a, results);
        rows, handed := rows + [a], true;
      }
      i := i + 1;
    }
  }

  ghost predicate ResolvesIn(t: Tables, rows: seq<Row>, e: Entry) {
    exists a :: a in rows && a.1 in t.vuln && Resolve(t.meta, t.vuln[a.1]) == e
  }

  lemma ResolvesSnoc(t: Tables, rows: seq<Row>, a: Row)
    requires a.1 in t.vuln
    ensures forall e :: ResolvesIn(t, rows + [a], e) <==> ResolvesIn(t, rows, e) || e == Resolve(t.meta, t.vuln[a.1])
  {
    forall e ensures ResolvesIn(t, rows + [a], e) <==> ResolvesIn(t, rows, e) || e == Resolve(t.meta, t.vuln[a.1]) {
      assert forall b :: b in rows + [a] <==> b in rows || b == a;
    }
  }

  // ---- The whole call ----

  /** How the database runs one query: the rows it visits, in order, and those on which it calls version_in although
      another condition does not hold. */
  datatype Plan = Plan(order: seq<Row>, early: Row -> bool)

  /** How the database behaves: whether the transaction begins and commits, which queries run, which rows can be
      read, whether the driver steps once when it runs a query, and how each query is run. */
  datatype Engine = Engine(begins: bool, commits: bool, runs: int -> bool, readable: Row -> bool, steps: bool,
                           plan: int -> Plan)

  function MayVisit(t: Tables): Row -> bool { (a: Row) => a.1 in t.vuln }

  /** A plan visits every joined row and any others; with `last` it calls version_in on no row on which another
      condition does not hold. */
  ghost predicate IsPlan(t: Tables, last: bool, p: Plan) {
    IsVisit(p.order, Rows(t), MayVisit(t)) && (last ==> forall a :: !p.early(a))
  }

  ghost predicate Plans(t: Tables, last: bool, g: Engine) { forall k :: IsPlan(t, last, g.plan(k)) }

  function TesterFor(t: Tables, r: IndexRecord, ms: seq<Constraint>, vf: bool, g: Engine, k: int): Row -> Truth {
    Tester(t, r, ms, vf, g.plan(k).early)
  }

  function RowsFor(t: Tables, records: seq<IndexRecord>, ms: seq<Constraint>, vf: bool, g: Engine, k: int): seq<Row>
    requires 0 <= k < |records|
  {
    if Buildable(records[k], ms) then Delivered(TesterFor(t, records[k], ms, vf, g, k), g.plan(k).order) else []
  }

  /** Some record with this package id is handed the entry. */
  ghost predicate Given(t: Tables, records: seq<IndexRecord>, ms: seq<Constraint>, vf: bool, g: Engine, id: string,
                        e: Entry) {
    exists k :: 0 <= k < |records| && records[k].pkg.id == id && ResolvesIn(t, RowsFor(t, records, ms, vf, g, k), e)
  }

  /** Record k raises no error: nothing to do, or its query runs, no failing test is reported and every row it is
      handed can be read. */
  ghost predicate Goes(t: Tables, records: seq<IndexRecord>, ms: seq<Constraint>, vf: bool, g: Engine, k: int) {
    && 0 <= k < |records|
    && (Buildable(records[k], ms) ==>
          g.runs(k) && !Reported(g.steps, TesterFor(t, records[k], ms, vf, g, k), g.plan(k).order))
    && AllReadable(RowsFor(t, records, ms, vf, g, k), g.readable)
  }

  ghost predicate Answers(t: Tables, records: seq<IndexRecord>, ms: seq<Constraint>, vf: bool, g: Engine,
                          results: map<string, seq<Entry>>) {
    WellListed(results) && forall id, e :: e in At(results, id) <==> Given(t, records, ms, vf, g, id, e)
  }

  lemma GivenSnoc(t: Tables, records: seq<IndexRecord>, r: IndexRecord, ms: seq<Constraint>, vf: bool, g: Engine,
                  id: string, e: Entry)
    ensures Given(t, records + [r], ms, vf, g, id, e) <==>
              || Given(t, records, ms, vf, g, id, e)
              || (r.pkg.id == id && ResolvesIn(t, RowsFor(t, records + [r], ms, vf, g, |records|), e))
  {
    var all, n := records + [r], |records|;
    forall k | 0 <= k < n ensures RowsFor(t, all, ms, vf, g, k) == RowsFor(t, records, ms, vf, g, k) {
      assert all[k] == records[k];
    }
    if Given(t, records, ms, vf, g, id, e) {
      var k :| 0 <= k < n && records[k].pkg.id == id && ResolvesIn(t, RowsFor(t, records, ms, vf, g, k), e);
      assert ResolvesIn(t, RowsFor(t, all, ms, vf, g, k), e);
    }
    if Given(t, all, ms, vf, g, id, e) {
      var k :| 0 <= k < |all| && all[k].pkg.id == id && ResolvesIn(t, RowsFor(t, all, ms, vf, g, k), e);
      assert k < n ==> ResolvesIn(t, RowsFor(t, records, ms, vf, g, k), e);
    }
  }

  lemma DeliveredAsSets(t: Tables, r: IndexRecord, ms: seq<Constraint>, ms': seq<Constraint>, vf: bool, p: Plan)
    requires forall m :: m in ms <==> m in ms'
    ensures var test, test' := Tester(t, r, ms, vf, p.early), Tester(t, r, ms', vf, p.early);
            && Delivered(test, p.order) == Delivered(test', p.order)
            && forall steps :: Reported(steps, test, p.order) <==> Reported(steps, test', p.order)
  {
    var test, test' := Tester(t, r, ms, vf, p.early), Tester(t, r, ms', vf, p.early);
    forall a: Row ensures test(a) == test'(a) {
      if a.1 in t.vuln {
        TestAsSets(r, ms, ms', vf, t.vuln[a.1].cols);
      }
    }
    DeliveredSame(test, test', p.order);
  }

  /** One record of the call. */
  method GetOne(t: Tables, records: seq<IndexRecord>, ms: seq<Constraint>, vf: bool, g: Engine, k: nat,
                before: map<string, seq<Entry>>)
    returns (results: map<string, seq<Entry>>, ok: bool)
    requires VulnUnique(t.vuln) && Plans(t, false, g) && k < |records|
    requires Answers(t, records[..k], ms, vf, g, before)
    requires forall id, e :: e in At(before, id) ==> Visible(t, e)
    ensures ok <==> Goes(t, records, ms, vf, g, k)
    ensures ok ==> Answers(t, records[..k + 1], ms, vf, g, results)
    ensures ok ==> forall id, e :: e in At(results, id) ==> Visible(t, e)
  {
    results, ok := before, true;
    var q := BuildGetQuery(records[k], ms, vf);
    if q.Some? {
      if !g.runs(k) {
        return before, false;
      }
      var plan := g.plan(k);
      var test := Tester(t, q.value.record, q.value.exps, q.value.versionFiltering, plan.early);
      results, ok := ScanRows(t, records[k].pkg.id, g.steps, test, plan.order, g.readable, before);
      DeliveredAsSets(t, records[k], ms, q.value.exps, vf, plan);
    }
    if ok {
      assert records[..k + 1] == records[..k] + [records[k]];
      AnswersSnoc(t, records[..k], records[k], ms, vf, g, before, results);
    }
  }

  lemma AnswersSnoc(t: Tables, records: seq<IndexRecord>, r: IndexRecord, ms: seq<Constraint>, vf: bool, g: Engine,
                    before: map<string, seq<Entry>>, results: map<string, seq<Entry>>)
    requires Answers(t, records, ms, vf, g, before) && WellListed(results)
    requires forall id :: id != r.pkg.id ==> At(results, id) == At(before, id)
    requires forall e :: e in At(results, r.pkg.id) <==>
               e in At(before, r.pkg.id)
               || ResolvesIn(t, if Buildable(r, ms)
                                then Delivered(TesterFor(t, r, ms, vf, g, |records|), g.plan(|records|).order)
                                else [], e)
    ensures Answers(t, records + [r], ms, vf, g, results)
  {
    forall id, e ensures e in At(results, id) <==> Given(t, records + [r], ms, vf, g, id, e) {
      GivenSnoc(t, records, r, ms, vf, g, id, e);
      assert e in At(before, id) <==> Given(t, records, ms, vf, g, id, e);
    }
  }

  ghost predicate Succeeds(t: Tables, records: seq<IndexRecord>, ms: seq<Constraint>, vf: bool, g: Engine) {
    g.begins && g.commits && forall k :: 0 <= k < |records| ==> Goes(t, records, ms, vf, g, k)
  }

  /** Get over the current tables. It fails exactly when a statement fails, a failing version test is reported or a row
      that is handed out cannot be read; otherwise each package id lists, once each, exactly the entries its records
      are handed. */
  method Get(t: Tables, records: seq<IndexRecord>, matchers: seq<Constraint>, versionFiltering: bool, g: Engine)
    returns (results: map<string, seq<Entry>>, ok: bool)
    requires VulnUnique(t.vuln) && Plans(t, false, g)
    ensures ok <==> Succeeds(t, records, matchers, versionFiltering, g)
    ensures ok ==> Answers(t, records, matchers, versionFiltering, g, results)
  {
    results, ok := map[], g.begins;
    if !ok {
      return;
    }
    var k := 0;
    while k < |records|
      invariant 0 <= k <= |records|
      invariant forall j :: 0 <= j < k ==> Goes(t, records, matchers, versionFiltering, g, j)
      invariant Answers(t, records[..k], matchers, versionFiltering, g, results)
      invariant forall id, e :: e in At(results, id) ==> Visible(t, e)
    {
      results, ok := GetOne(t, records, matchers, versionFiltering, g, k, results);
      if !ok {
        return;
      }
      k := k + 1;
    }
    assert records[..k] == records;
    ok := g.commits;
  }

  // ---- What there is to see ----

  /** The rows Get looks at are exactly what the updaters publish. */
  lemma VisibleIsPublished(t: Tables, e: Entry)
    requires Inv(t)
    ensures Visible(t, e)
            <==> exists u, c :: Publishes(t, u, Some(c)) && c.Vulns? && e in c.entries
  {
    if Visible(t, e) {
      var a :| a in Rows(t) && Resolve(t.meta, t.vuln[a.1]) == e;
      assert a.1 in IdsOf(t.uoVuln, a.0);
      assert Publishes(t, t.ops[a.0].updater, Some(ContentOf(t, a.0)));
    }
    forall u, c | Publishes(t, u, Some(c)) && c.Vulns? && e in c.entries ensures Visible(t, e) {
      PublishedIsVisible(t, u, c, e);
    }
  }

  lemma PublishedIsVisible(t: Tables, u: string, c: Content, e: Entry)
    requires Inv(t) && Publishes(t, u, Some(c)) && c.Vulns? && e in c.entries
    ensures Visible(t, e)
  {
    var o :| IsLatest(t.ops, o) && t.ops[o].updater == u && ContentOf(t, o) == c;
    var i :| i in IdsOf(t.uoVuln, o) && i in t.vuln && Resolve(t.meta, t.vuln[i]) == e;
    RowJoins(t, o, i);
    assert (o, i) in Rows(t);
  }

  lemma RowJoins(t: Tables, o: nat, i: nat)
    requires VulnOk(t.meta, t.vuln) && i in t.vuln && IsLatest(t.ops, o) && t.ops[o].kind == VulnerabilityKind
    ensures Joined(t, (o, i))
  {
    var v :| RowOf(t.meta, t.vuln[i], v);
  }
}

/** What Get selects, told on the rows that readers see and the fields of the index records that callers hand in. */
module Selection {
  import opened Advisory
  import opened Tables
  import opened RowScan
  import opened Query
  import opened Answers

  /** The field of an index record that a matcher looks at. */
  function Field(m: Constraint, r: IndexRecord): string {
    match m
    case PackageModule => r.pkg.mod
    case DistributionDID => r.dist.did
    case DistributionName => r.dist.name
    case DistributionVersionID => r.dist.versionId
    case DistributionVersion => r.dist.version
    case DistributionVersionCodeName => r.dist.versionCodeName
    case DistributionPrettyName => r.dist.prettyName
    case DistributionCPE => r.dist.cpe
    case DistributionArch => r.dist.arch
    case RepositoryName => r.repo.name
    case RepositoryKey => r.repo.key
    case HasFixedInVersion | Other(_) => ""
  }

  /** The record with the row's module, distribution and repository for its own. */
  function Copying(r: IndexRecord, c: Columns): IndexRecord {
    r.(pkg := r.pkg.(mod := c.pkg.mod), dist := c.dist, repo := c.repo)
  }

  predicate Agrees(m: Constraint, r: IndexRecord, c: Columns) {
    if m.HasFixedInVersion? then c.fixedIn != "" else !m.Other? && Field(m, r) == Field(m, Copying(r, c))
  }

  /** The row's package is the record's own or its source package. */
  predicate Concerns(r: IndexRecord, c: Columns) {
    || (c.pkg.name, c.pkg.kind) == (r.pkg.name, r.pkg.kind)
    || (r.pkg.sourceName != "" && (c.pkg.name, c.pkg.kind) == (r.pkg.sourceName, r.pkg.sourceKind))
  }

  /** The columns are those of a record whose range holds the version: lower bound included, upper bound not. */
  ghost predicate InRange(p: VR.Version, c: Columns) {
    exists v: Vulnerability :: v.pkg.Some? && c == ColumnsOf(v) && v.range.Some? && Holding(v.range.value, p)
  }

  ghost predicate Holding(range: VR.Range, p: VR.Version) {
    && range.lower.kind == p.kind == range.upper.kind
    && !VR.LexLess(p.v, range.lower.v) && VR.LexLess(p.v, range.upper.v)
  }

  ghost predicate Wanted(r: IndexRecord, ms: seq<Constraint>, vf: bool, c: Columns) {
    && r.pkg.name != "" && Concerns(r, c)
    && (forall m :: m in ms ==> Agrees(m, r, c))
    && (vf ==> InRange(r.pkg.normalized, c))
  }

  ghost predicate PlainColumns(c: Columns) {
    exists v: Vulnerability :: v.pkg.Some? && c == ColumnsOf(v) && PlainRange(v)
  }

  predicate PlainRange(v: Vulnerability) {
    v.range.Some? ==> VR.NonNegative(v.range.value.lower.v) && VR.NonNegative(v.range.value.upper.v)
  }

  /** With version filtering: no stored or asked version has a negative component. */
  ghost predicate PlainVersions(t: Tables, records: seq<IndexRecord>) {
    && (forall i :: i in t.vuln ==> PlainColumns(t.vuln[i].cols))
    && forall r :: r in records ==> VR.NonNegative(r.pkg.normalized.v)
  }

  lemma HoldsIffAgrees(m: Constraint, r: IndexRecord, c: Columns)
    ensures Holds(m, r, c) <==> Agrees(m, r, c)
  {
  }

  lemma VersionTestOnPlain(p: VR.Version, c: Columns)
    requires VR.NonNegative(p.v) && PlainColumns(c)
    ensures VersionTest(p, true, c) == if InRange(p, c) then Yes else No
  {
    var w: Vulnerability :| w.pkg.Some? && c == ColumnsOf(w) && PlainRange(w);
    VersionTestMeaning(p, w);
    if InRange(p, c) {
      var v: Vulnerability :| v.pkg.Some? && c == ColumnsOf(v) && v.range.Some? && Holding(v.range.value, p);
      VersionTestMeaning(p, v);
    }
  }

  lemma SelectedIffWanted(r: IndexRecord, ms: seq<Constraint>, vf: bool, c: Columns)
    requires vf ==> VR.NonNegative(r.pkg.normalized.v) && PlainColumns(c)
    ensures SelectedBy(r, ms, vf, c) <==> Wanted(r, ms, vf, c)
    ensures Test(r, ms, vf, c) != Fails
  {
    forall m ensures Holds(m, r, c) <==> Agrees(m, r, c) {
      HoldsIffAgrees(m, r, c);
    }
    if vf {
      VersionTestOnPlain(r.pkg.normalized, c);
    }
  }

  lemma NoneCanMiss(t: Tables, records: seq<IndexRecord>, ms: seq<Constraint>, vf: bool, steps: bool)
    requires vf ==> PlainVersions(t, records)
    ensures AllSelectedSurely(t, records, ms, vf, vf, steps)
  {
    forall id, e | Visible(t, e) && Selected(records, ms, vf, id, e.cols)
      ensures SelectedSurely(t, records, ms, vf, vf, steps, id, e)
    {
      var r :| r in records && r.pkg.id == id && SelectedBy(r, ms, vf, e.cols);
      forall i | i in t.vuln ensures !FailsOn(r, ms, vf, vf, t.vuln[i].cols) {
        SelectedIffWanted(r, ms, vf, t.vuln[i].cols);
      }
      assert SureOf(t, r, ms, vf, vf, steps, e);
    }
  }

  /** What a successful Get lists, on fields, for a database that calls version_in only on rows that meet the other
      conditions: the visible entries that some record with the package id wants. */
  lemma ListedIff(t: Tables, records: seq<IndexRecord>, ms: seq<Constraint>, vf: bool, g: Engine,
                  results: map<string, seq<Entry>>, id: string, e: Entry)
    requires VulnUnique(t.vuln) && Plans(t, vf, g) && (vf ==> PlainVersions(t, records))
    requires Succeeds(t, records, ms, vf, g) && Query.Answers(t, records, ms, vf, g, results)
    ensures e in At(results, id) <==>
            Visible(t, e) && exists r :: r in records && r.pkg.id == id && Wanted(r, ms, vf, e.cols)
  {
    NoneCanMiss(t, records, ms, vf, g.steps);
    AllSurelyGiven(t, records, ms, vf, vf, g);
    AnswerIsSound(t, records, ms, vf, g, results);
    if Visible(t, e) {
      var a := VisibleRow(t, e);
      forall r | r in records ensures SelectedBy(r, ms, vf, e.cols) <==> Wanted(r, ms, vf, e.cols) {
        SelectedIffWanted(r, ms, vf, e.cols);
      }
    }
  }

  /** A record whose source package is the row's, and which copies the row's module, distribution and repository, is
      listed the row, whatever its own name and kind. */
  lemma ListedBySource(t: Tables, records: seq<IndexRecord>, ms: seq<Constraint>, g: Engine,
                       results: map<string, seq<Entry>>, r: IndexRecord, e: Entry)
    requires VulnUnique(t.vuln) && Plans(t, false, g)
    requires Succeeds(t, records, ms, false, g) && Query.Answers(t, records, ms, false, g, results)
    requires r in records && Visible(t, e) && r == Copying(r, e.cols) && r.pkg.name != ""
    requires r.pkg.sourceName == e.cols.pkg.name != "" && r.pkg.sourceKind == e.cols.pkg.kind
    requires forall m :: m in ms ==> !m.Other? && (m.HasFixedInVersion? ==> e.cols.fixedIn != "")
    ensures e in At(results, r.pkg.id)
  {
    ListedIff(t, records, ms, false, g, results, r.pkg.id, e);
    assert Wanted(r, ms, false, e.cols);
  }

  /** The record has the row's fields, but for the one that the matcher looks at. */
  ghost predicate DiffersAt(m: Constraint, r: IndexRecord, c: Columns) {
    forall k :: Field(k, r) == Field(k, Copying(r, c)) <==> k != m
  }

  lemma OneFieldWanted(ms: seq<Constraint>, r: IndexRecord, m: Constraint, c: Columns)
    requires DiffersAt(m, r, c) && r.pkg.name == c.pkg.name != "" && r.pkg.kind == c.pkg.kind
    requires forall k :: k in ms ==> !k.Other? && (k.HasFixedInVersion? ==> c.fixedIn != "")
    ensures Wanted(r, ms, false, c) <==> m !in ms
  {
    assert m.HasFixedInVersion? ==> Field(m, r) == Field(m, Copying(r, c));
    forall k | k in ms ensures Agrees(k, r, c) <==> k != m {
    }
  }

  /** A record that copies the row but for the field of one matcher is listed the row exactly when it is not asked to
      match by that field. */
  lemma OneFieldDecides(t: Tables, ms: seq<Constraint>, g: Engine, results: map<string, seq<Entry>>, r: IndexRecord,
                        m: Constraint, e: Entry)
    requires VulnUnique(t.vuln) && Plans(t, false, g)
    requires Succeeds(t, [r], ms, false, g) && Query.Answers(t, [r], ms, false, g, results)
    requires Visible(t, e) && DiffersAt(m, r, e.cols)
    requires r.pkg.name == e.cols.pkg.name != "" && r.pkg.kind == e.cols.pkg.kind
    requires forall k :: k in ms ==> !k.Other? && (k.HasFixedInVersion? ==> e.cols.fixedIn != "")
    ensures e in At(results, r.pkg.id) <==> m !in ms
  {
    ListedIff(t, [r], ms, false, g, results, r.pkg.id, e);
    OneFieldWanted(ms, r, m, e.cols);
  }
}

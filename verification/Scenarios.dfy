/** Runs of the store, from the empty tables, at which the shortfalls show. */
module Scenarios {
  import opened Text
  import opened Advisory
  import opened Tables
  import opened StoreIntegrity
  import opened StoreRefinement
  import opened StoreLog
  import opened StoreProgress
  import opened SplitUpdate
  import opened MatcherStore
  import opened RowScan
  import opened Query
  import opened Answers

  // ---- Single transactions ----

  function Update(ref: string, updater: string, date: int): Op { Op(ref, updater, "", VulnerabilityKind, date) }

  lemma Intern(meta: map<nat, Meta>, kind: MetaKind, value: string) returns (meta': map<nat, Meta>, id: nat)
    requires MetaOk(meta)
    ensures MetaGrows(meta, meta') && IsMeta(meta', id, kind, value)
  {
    if i :| i in meta && meta[i].kind == kind && meta[i].hash == Md5(value) {
      meta', id := meta, i;
    } else {
      FreshId(meta);
      id :| id !in meta;
      meta' := meta[id := Meta(kind, Md5(value), value)];
    }
  }

  lemma InternTexts(meta: map<nat, Meta>, v: Vuln) returns (meta': map<nat, Meta>, row: VulnRow)
    requires MetaOk(meta) && Storable(v)
    ensures MetaGrows(meta, meta') && RowOf(meta', row, v)
  {
    var mid, descId := Intern(meta, DescriptionMeta, v.description);
    var nameId;
    meta', nameId := Intern(mid, NameMeta, v.name);
    row := VulnRow(v.hash, v.updater, nameId, descId, v.cols.value);
  }

  /** A full update with one record whose digest is new; the row takes any unused id. */
  lemma FullUpdateOf(t: Tables, op: Op, v: Vuln, i: nat) returns (t': Tables)
    requires Inv(t) && op.kind == VulnerabilityKind && FreshRef(t.ops, op.ref)
    requires Storable(v) && i !in t.vuln && !HasHash(t.vuln, v.hash)
    ensures VulnStep(t, op, [v], None, t') && Inv(t')
    ensures t'.uoVuln == t.uoVuln + {(t'.opSeq, i)} && t'.vuln == t.vuln[i := t'.vuln[i]] && i in t'.vuln
    ensures RowOf(t'.meta, t'.vuln[i], v)
  {
    var meta', row := InternTexts(t.meta, v);
    var n := t.opSeq + 1;
    t' := t.(ops := t.ops[n := op], opSeq := n, meta := meta', vuln := t.vuln[i := row],
             uoVuln := t.uoVuln + {(n, i)});
    OneGrows(t, meta', v, i, row);
    OneId(t.vuln, v, i, row);
    assert Pairs(n, {i}) == {(n, i)};
    assert Pairs(n, {}) == {};
    VulnStepKeepsInv(t, op, [v], None, t');
  }

  lemma OneGrows(t: Tables, meta': map<nat, Meta>, v: Vuln, i: nat, row: VulnRow)
    requires VulnUnique(t.vuln) && RowOf(meta', row, v) && i !in t.vuln && !HasHash(t.vuln, v.hash)
    ensures VulnGrows(t.vuln, [v], meta', t.vuln[i := row])
  {
    var vuln' := t.vuln[i := row];
    assert vuln'[i].hash == v.hash;
    forall j | j in vuln' && j !in t.vuln ensures exists w :: w in [v] && RowOf(meta', vuln'[j], w) {
      assert v in [v];
    }
  }

  lemma OneId(vuln: map<nat, VulnRow>, v: Vuln, i: nat, row: VulnRow)
    requires Storable(v) && row.hash == v.hash && i !in vuln && !HasHash(vuln, v.hash)
    ensures BatchIds(vuln[i := row], [v]) == {i}
  {
    var vuln' := vuln[i := row];
    assert v in [v];
    forall j | j in vuln' ensures BatchHash([v], vuln'[j].hash) <==> j == i {
      assert j != i ==> vuln[j].hash != v.hash;
    }
  }

  /** A full update with one record whose digest is there already. */
  lemma FullUpdateShared(t: Tables, op: Op, v: Vuln, i: nat) returns (t': Tables)
    requires Inv(t) && op.kind == VulnerabilityKind && FreshRef(t.ops, op.ref)
    requires Storable(v) && i in t.vuln && t.vuln[i].hash == v.hash
    ensures VulnStep(t, op, [v], None, t') && Inv(t')
    ensures t'.uoVuln == t.uoVuln + {(t'.opSeq, i)} && t'.vuln == t.vuln
    ensures Resolve(t'.meta, t'.vuln[i]) == Resolve(t.meta, t.vuln[i])
  {
    var meta', row := InternTexts(t.meta, v);
    var n := t.opSeq + 1;
    t' := t.(ops := t.ops[n := op], opSeq := n, meta := meta', uoVuln := t.uoVuln + {(n, i)});
    ResolveGrows(t, meta', i);
    assert v in [v] && BatchIds(t.vuln, [v]) == {i};
    assert Pairs(n, {i}) == {(n, i)};
    assert Pairs(n, {}) == {};
    VulnStepKeepsInv(t, op, [v], None, t');
  }

  /** A full update without records. */
  function Withdraw(t: Tables, op: Op): Tables { t.(ops := t.ops[t.opSeq + 1 := op], opSeq := t.opSeq + 1) }

  lemma WithdrawStep(t: Tables, op: Op)
    requires Inv(t) && op.kind == VulnerabilityKind && FreshRef(t.ops, op.ref)
    ensures VulnStep(t, op, [], None, Withdraw(t, op)) && Inv(Withdraw(t, op))
  {
    assert BatchIds(t.vuln, []) == {} && Pairs(t.opSeq + 1, {}) == {};
    VulnStepKeepsInv(t, op, [], None, Withdraw(t, op));
  }

  /** A delta that names nothing, and carries these rows. */
  function Carry(t: Tables, op: Op, ids: set<nat>): Tables {
    Withdraw(t, op).(uoVuln := t.uoVuln + Pairs(t.opSeq + 1, ids))
  }

  lemma CarryProgress(t: Tables, op: Op, ids: set<nat>)
    requires Inv(t)
    ensures VulnProgress(t, op, ids, [], Carry(t, op, ids))
  {
    ProgressBegins(t, op, ids, Carry(t, op, ids));
  }

  lemma AllCarried(t: Tables, u: string)
    ensures Carried(t, u, [], []) == Existing(t, u)
  {
  }

  // ---- Runs, one transaction longer ----

  ghost predicate Longer(ts: seq<Tables>, cs: seq<Command>, ts': seq<Tables>, cs': seq<Command>) {
    Run(ts', cs') && |cs'| == |cs| + 1 && |ts'| == |ts| + 1 && ts'[..|ts|] == ts
  }

  lemma RunSnoc(ts: seq<Tables>, cs: seq<Command>, c: Command, t: Tables)
    returns (ts': seq<Tables>, cs': seq<Command>)
    requires Run(ts, cs) && Next(ts[|cs|], c, t)
    ensures Longer(ts, cs, ts', cs') && ts'[|cs'|] == t
  {
    ts', cs' := ts + [t], cs + [c];
  }

  lemma Start() returns (ts: seq<Tables>, cs: seq<Command>)
    ensures Run(ts, cs) && |cs| == 0 && ts[0] == EMPTY
  {
    ts, cs := [EMPTY], [];
  }

  lemma RunFullUpdateOf(ts: seq<Tables>, cs: seq<Command>, op: Op, v: Vuln, i: nat)
    returns (ts': seq<Tables>, cs': seq<Command>)
    requires Run(ts, cs) && op.kind == VulnerabilityKind && FreshRef(ts[|cs|].ops, op.ref)
    requires Storable(v) && i !in ts[|cs|].vuln && !HasHash(ts[|cs|].vuln, v.hash)
    ensures Longer(ts, cs, ts', cs')
    ensures var t, t' := ts[|cs|], ts'[|cs'|];
            && t'.opSeq == t.opSeq + 1 && t'.ops == t.ops[t'.opSeq := op] && t'.uoVuln == t.uoVuln + {(t'.opSeq, i)}
            && i in t'.vuln && t'.vuln == t.vuln[i := t'.vuln[i]] && t'.vuln[i].updater == v.updater
            && t'.vuln[i].hash == v.hash && Resolve(t'.meta, t'.vuln[i]) == EntryOf(v)
            && t'.enrich == t.enrich && t'.uoEnrich == t.uoEnrich
  {
    RunKeepsIntegrity(ts, cs, |cs|);
    var t' := FullUpdateOf(ts[|cs|], op, v, i);
    RowResolves(t'.meta, t'.vuln[i], v);
    ts', cs' := RunSnoc(ts, cs, UpdateVulns(op, [v], None), t');
  }

  lemma RunFullUpdateShared(ts: seq<Tables>, cs: seq<Command>, op: Op, v: Vuln, i: nat)
    returns (ts': seq<Tables>, cs': seq<Command>)
    requires Run(ts, cs) && op.kind == VulnerabilityKind && FreshRef(ts[|cs|].ops, op.ref)
    requires Storable(v) && i in ts[|cs|].vuln && ts[|cs|].vuln[i].hash == v.hash
    ensures Longer(ts, cs, ts', cs')
    ensures var t, t' := ts[|cs|], ts'[|cs'|];
            && t'.opSeq == t.opSeq + 1 && t'.ops == t.ops[t'.opSeq := op] && t'.uoVuln == t.uoVuln + {(t'.opSeq, i)}
            && t'.vuln == t.vuln && Resolve(t'.meta, t'.vuln[i]) == Resolve(t.meta, t.vuln[i])
  {
    RunKeepsIntegrity(ts, cs, |cs|);
    var t' := FullUpdateShared(ts[|cs|], op, v, i);
    ts', cs' := RunSnoc(ts, cs, UpdateVulns(op, [v], None), t');
  }

  lemma RunWithdraw(ts: seq<Tables>, cs: seq<Command>, op: Op) returns (ts': seq<Tables>, cs': seq<Command>)
    requires Run(ts, cs) && op.kind == VulnerabilityKind && FreshRef(ts[|cs|].ops, op.ref)
    ensures Longer(ts, cs, ts', cs') && ts'[|cs'|] == Withdraw(ts[|cs|], op)
  {
    RunKeepsIntegrity(ts, cs, |cs|);
    WithdrawStep(ts[|cs|], op);
    ts', cs' := RunSnoc(ts, cs, UpdateVulns(op, [], None), Withdraw(ts[|cs|], op));
  }

  /** A delta that names nothing: what its selection sees is carried. */
  lemma RunEmptyDelta(ts: seq<Tables>, cs: seq<Command>, op: Op, ids: set<nat>)
    returns (ts': seq<Tables>, cs': seq<Command>)
    requires Run(ts, cs) && op.kind == VulnerabilityKind && FreshRef(ts[|cs|].ops, op.ref)
    requires Existing(ts[|cs|], op.updater) == ids
    ensures Longer(ts, cs, ts', cs')
    ensures var t, t' := ts[|cs|], ts'[|cs'|];
            && t'.opSeq == t.opSeq + 1 && t'.ops == t.ops[t'.opSeq := op]
            && ContentOf(t', t'.opSeq) == Vulns(Entries(t.meta, t.vuln, ids))
  {
    var t := ts[|cs|];
    RunKeepsIntegrity(ts, cs, |cs|);
    AllCarried(t, op.updater);
    var t' := Carry(t, op, ids);
    CarryProgress(t, op, ids);
    NewContent(t, op, [], Some([]), t');
    assert BatchIds(t'.vuln, []) == {};
    assert Entries(t'.meta, t'.vuln, {}) == {};
    ts', cs' := RunSnoc(ts, cs, UpdateVulns(op, [], Some([])), t');
  }

  // ---- A stale selection whose id names another row ----

  /** An updater publishes one record and withdraws it. */
  lemma PublishAndWithdraw(a: Vuln) returns (ts: seq<Tables>, cs: seq<Command>)
    requires Storable(a)
    ensures Run(ts, cs) && |cs| == 2
    ensures ts[1].ops == map[1 := Update("1", a.updater, 1)] && ts[1].uoVuln == {(1, 1)} && ts[1].vuln.Keys == {1}
    ensures ts[1].vuln[1].updater == a.updater && Resolve(ts[1].meta, ts[1].vuln[1]) == EntryOf(a)
    ensures ts[1].enrich == map[] && ts[1].uoEnrich == {}
    ensures ts[2] == ts[1].(ops := ts[2].ops, opSeq := 2)
    ensures ts[2].ops == map[1 := Update("1", a.updater, 1), 2 := Update("2", a.updater, 2)]
  {
    ts, cs := Start();
    ts, cs := RunFullUpdateOf(ts, cs, Update("1", a.updater, 1), a, 1);
    ts, cs := RunWithdraw(ts, cs, Update("2", a.updater, 2));
  }

  /** The row is collected, and another updater's record takes its id. */
  lemma ReuseRun(a: Vuln, b: Vuln) returns (ts: seq<Tables>, cs: seq<Command>)
    requires Storable(a) && Storable(b) && a.updater != b.updater
    ensures Run(ts, cs) && |cs| == 4
    ensures ts[1].ops == map[1 := Update("1", a.updater, 1)] && ts[1].uoVuln == {(1, 1)} && 1 in ts[1].vuln
    ensures ts[1].vuln[1].updater == a.updater && Resolve(ts[1].meta, ts[1].vuln[1]) == EntryOf(a)
    ensures ts[4].opSeq == 3 && 1 in ts[4].vuln && Resolve(ts[4].meta, ts[4].vuln[1]) == EntryOf(b)
    ensures ts[4].ops == map[2 := Update("2", a.updater, 2), 3 := Update("3", b.updater, 3)]
  {
    ts, cs := PublishAndWithdraw(a);
    var t := ts[2].(ops := map[2 := Update("2", a.updater, 2)], uoVuln := {}, vuln := map[]);
    RunKeepsIntegrity(ts, cs, 2);
    Collected(ts[2], a.updater, t);
    ts, cs := RunSnoc(ts, cs, Collect(1, true), t);
    ts, cs := RunFullUpdateOf(ts, cs, Update("3", b.updater, 3), b, 1);
  }

  lemma Collected(t: Tables, u: string, t': Tables)
    requires Inv(t) && t.ops == map[1 := Update("1", u, 1), 2 := Update("2", u, 2)] && t.uoVuln == {(1, 1)}
    requires t.vuln.Keys == {1} && t.enrich == map[] && t.uoEnrich == {} && t.vuln[1].updater == u
    requires t' == t.(ops := map[2 := Update("2", u, 2)], uoVuln := {}, vuln := map[])
    ensures Next(t, Collect(1, true), t') && Inv(t')
  {
    KeepsSecond(t.ops, u);
    assert KeepOps(t, {2}) == t.(ops := t'.ops, uoVuln := {});
    assert Registered(t'.ops, u, VulnerabilityKind) by { assert 2 in t'.ops; }
    assert GcStep(t, 1, true, {2}, t');
    NextKeepsInv(t, Collect(1, true), t');
  }

  lemma KeepsSecond(ops: map<nat, Op>, u: string)
    requires ops == map[1 := Update("1", u, 1), 2 := Update("2", u, 2)]
    ensures ValidCut(ops, 1, {2})
  {
    forall w ensures |OpsOf(ops, w) * {2}| == Min(|OpsOf(ops, w)|, 1) {
      if w == u {
        assert OpsOf(ops, w) == {1, 2} && OpsOf(ops, w) * {2} == {2};
      } else {
        assert OpsOf(ops, w) == {};
      }
    }
  }

  /** A delta that selected before all that publishes, under its own updater, the other updater's record. */
  lemma ReusedIdNamesAnotherRow(a: Vuln, b: Vuln) returns (ts: seq<Tables>, cs: seq<Command>, op: Op, t': Tables)
    requires Storable(a) && Storable(b) && a.updater != b.updater
    ensures Run(ts, cs) && |cs| == 4 && op.updater == a.updater && Existing(ts[1], a.updater) == {1}
    ensures Resolve(ts[1].meta, ts[1].vuln[1]) == EntryOf(a)
    ensures SplitStep(ts[1], ts[4], op, [], [], t') && ContentOf(t', t'.opSeq) == Vulns({EntryOf(b)})
  {
    ts, cs := ReuseRun(a, b);
    op := Update("4", a.updater, 4);
    OnlyRow(ts[1], a.updater);
    RunKeepsIntegrity(ts, cs, 4);
    t' := CarryOnly(ts[1], ts[4], op, b);
  }

  lemma CarryOnly(seen: Tables, t: Tables, op: Op, b: Vuln) returns (t': Tables)
    requires Inv(t) && op.kind == VulnerabilityKind && FreshRef(t.ops, op.ref) && Existing(seen, op.updater) == {1}
    requires Storable(b) && 1 in t.vuln && Resolve(t.meta, t.vuln[1]) == EntryOf(b)
    ensures SplitStep(seen, t, op, [], [], t') && t'.opSeq == t.opSeq + 1
    ensures ContentOf(t', t'.opSeq) == Vulns({EntryOf(b)})
  {
    AllCarried(seen, op.updater);
    t' := Carry(t, op, {1});
    CarryProgress(t, op, {1});
    SplitContent(seen, t, op, [], [], t');
    assert BatchIds(t'.vuln, []) == {};
    assert Entries(t.meta, t.vuln, {1}) == {EntryOf(b)};
    assert Entries(t'.meta, t'.vuln, {}) == {};
  }

  lemma OnlyRow(t: Tables, u: string)
    requires t.ops == map[1 := Update("1", u, 1)] && t.uoVuln == {(1, 1)} && 1 in t.vuln && t.vuln[1].updater == u
    ensures Existing(t, u) == {1}
  {
    assert IsLatest(t.ops, 1);
    assert (1, 1) in t.uoVuln;
  }

  // ---- A row that two updaters share ----

  /** One updater publishes a record, another one publishes it under its own name, the first withdraws it. */
  lemma ShareAndWithdraw(v: Vulnerability, w: string) returns (ts: seq<Tables>, cs: seq<Command>)
    requires Storable(Digested(v)) && w != v.updater
    ensures Run(ts, cs) && |cs| == 3 && ts[3].opSeq == 3
    ensures ts[3].ops == map[1 := Update("1", v.updater, 1), 2 := Update("2", w, 2), 3 := Update("3", v.updater, 3)]
    ensures ts[3].uoVuln == {(1, 1), (2, 1)} && 1 in ts[3].vuln && ts[3].vuln[1].updater == v.updater
    ensures Resolve(ts[3].meta, ts[3].vuln[1]) == EntryOf(Digested(v))
  {
    ts, cs := Start();
    ts, cs := RunFullUpdateOf(ts, cs, Update("1", v.updater, 1), Digested(v), 1);
    ts, cs := RunFullUpdateShared(ts, cs, Update("2", w, 2), Digested(v.(updater := w)), 1);
    ts, cs := RunWithdraw(ts, cs, Update("3", v.updater, 3));
  }

  lemma SharedSelections(t: Tables, u: string, w: string)
    requires t.ops == map[1 := Update("1", u, 1), 2 := Update("2", w, 2), 3 := Update("3", u, 3)] && u != w
    requires t.uoVuln == {(1, 1), (2, 1)} && 1 in t.vuln && t.vuln[1].updater == u
    ensures Existing(t, u) == {1} && Existing(t, w) == {}
    ensures ContentOf(t, 2) == Vulns({Resolve(t.meta, t.vuln[1])}) && ContentOf(t, 3) == Vulns({})
  {
    assert IsLatest(t.ops, 2) && (2, 1) in t.uoVuln;
    assert IdsOf(t.uoVuln, 2) == {1} && IdsOf(t.uoVuln, 3) == {};
  }

  /** Then an empty delta of the first updater publishes the record that it withdrew. */
  lemma SharedRowRevivedRun(v: Vulnerability, w: string) returns (ts: seq<Tables>, cs: seq<Command>)
    requires Storable(Digested(v)) && w != v.updater
    ensures Run(ts, cs) && |cs| == 4 && ts[3].opSeq == 3 && ts[4].opSeq == 4
    ensures 3 in ts[3].ops && ts[3].ops[3].updater == v.updater && ContentOf(ts[3], 3) == Vulns({})
    ensures 4 in ts[4].ops && ts[4].ops[4] == Update("4", v.updater, 4)
    ensures ContentOf(ts[4], 4) == Vulns({EntryOf(Digested(v))})
  {
    ts, cs := ShareAndWithdraw(v, w);
    SharedSelections(ts[3], v.updater, w);
    assert Entries(ts[3].meta, ts[3].vuln, {1}) == {EntryOf(Digested(v))};
    ts, cs := RunEmptyDelta(ts, cs, Update("4", v.updater, 4), {1});
  }

  /** And an empty delta of the second updater drops the record that it publishes. */
  lemma SharedRowDroppedRun(v: Vulnerability, w: string) returns (ts: seq<Tables>, cs: seq<Command>)
    requires Storable(Digested(v)) && w != v.updater
    ensures Run(ts, cs) && |cs| == 4 && ts[3].opSeq == 3 && ts[4].opSeq == 4
    ensures 2 in ts[3].ops && ts[3].ops[2].updater == w && ContentOf(ts[3], 2) == Vulns({EntryOf(Digested(v))})
    ensures 4 in ts[4].ops && ts[4].ops[4] == Update("4", w, 4) && ContentOf(ts[4], 4) == Vulns({})
  {
    ts, cs := ShareAndWithdraw(v, w);
    SharedSelections(ts[3], v.updater, w);
    assert Entries(ts[3].meta, ts[3].vuln, {}) == {};
    ts, cs := RunEmptyDelta(ts, cs, Update("4", w, 4), {});
  }

  // ---- A failing version test that hides a row ----

  /** A record of package p, module b. */
  function SampleRecord(v: VR.Version): IndexRecord {
    IndexRecord(IndexedPackage("id", "p", "", "b", "", "", v), NO_DISTRIBUTION, NO_REPOSITORY)
  }

  /** An advisory for package p and a range of versions. */
  function SampleVuln(name: string, mod: string, lower: VR.Version, upper: VR.Version): Vulnerability {
    Vulnerability(name, name, "", Time("", ""), "", "", "", Some(Advisory.Package("p", "", mod, "", "")), None, None,
                  "", "", Some(VR.Range(lower, upper)), false)
  }

  lemma SampleHashes(a: Vulnerability, b: Vulnerability)
    requires |a.name| == |b.name| == 1 && a.name != b.name
    ensures Digested(a).hash != Digested(b).hash
  {
    assert VulnBytes(a)[0] == a.name[0] && VulnBytes(b)[0] == b.name[0];
  }

  /** Columns of package p on which the version test gives this answer. */
  ghost predicate Sample(c: Columns, v: VR.Version, mod: string, answer: Truth) {
    c.pkg.name == "p" && c.pkg.kind == "" && c.pkg.mod == mod && VersionTest(v, true, c) == answer
  }

  lemma SampleColumns(name: string, mod: string, v: VR.Version, lower: VR.Version, upper: VR.Version)
    requires v.kind == lower.kind == upper.kind && VR.NonNegative(v.v) && VR.NonNegative(upper.v)
    requires VR.LexLess(v.v, upper.v) && (lower == v || !VR.NonNegative(lower.v))
    ensures Sample(ColumnsOf(SampleVuln(name, mod, lower, upper)), v, mod, if lower == v then Yes else Fails)
  {
    VersionTestMeaning(v, SampleVuln(name, mod, lower, upper));
  }

  lemma Versions() returns (below: VR.Version, zero: VR.Version, one: VR.Version)
    ensures !VR.NonNegative(below.v) && VR.NonNegative(zero.v) && VR.NonNegative(one.v) && VR.LexLess(zero.v, one.v)
    ensures below.kind == zero.kind == one.kind
  {
    below := VR.Version("k", [-1, 0, 0, 0, 0, 0, 0, 0, 0, 0]);
    zero := VR.Version("k", [0, 0, 0, 0, 0, 0, 0, 0, 0, 0]);
    one := VR.Version("k", [1, 0, 0, 0, 0, 0, 0, 0, 0, 0]);
    assert below.v[0] < 0;
    assert zero.v[..0] == one.v[..0] && zero.v[0] < one.v[0];
  }

  lemma SampleTested(t: Tables, v: VR.Version, a: Row, mod: string, answer: Truth)
    requires a.1 in t.vuln && Sample(t.vuln[a.1].cols, v, mod, answer)
    ensures TestRow(t, SampleRecord(v), [], true, a) == answer
    ensures TestRow(t, SampleRecord(v), [PackageModule], true, a) == if mod == "b" then answer else No
  {
    assert PackageModule in [PackageModule];
  }

  /** One updater publishes a record and withdraws it, another one publishes one. */
  lemma TwoRows(f: Vulnerability, p: Vulnerability) returns (ts: seq<Tables>, cs: seq<Command>)
    requires Storable(Digested(f)) && Storable(Digested(p)) && Digested(f).hash != Digested(p).hash
    ensures Run(ts, cs) && |cs| == 3 && ts[3].opSeq == 3
    ensures ts[3].ops == map[1 := Update("1", f.updater, 1), 2 := Update("2", f.updater, 2),
                             3 := Update("3", p.updater, 3)]
    ensures ts[3].uoVuln == {(1, 1), (3, 2)} && ts[3].vuln.Keys == {1, 2}
    ensures ts[3].vuln[1].cols == ColumnsOf(f) && ts[3].vuln[2].cols == ColumnsOf(p)
    ensures ts[3].vuln[1].hash == Digested(f).hash && ts[3].vuln[2].hash == Digested(p).hash
  {
    ts, cs := PublishAndWithdraw(Digested(f));
    ts, cs := RunFullUpdateOf(ts, cs, Update("3", p.updater, 3), Digested(p), 2);
  }

  /** And a third one publishes another. */
  lemma ThreeRows(f: Vulnerability, p: Vulnerability, q: Vulnerability) returns (ts: seq<Tables>, cs: seq<Command>)
    requires Storable(Digested(f)) && Storable(Digested(p)) && Storable(Digested(q))
    requires Digested(f).hash != Digested(p).hash && Digested(p).hash != Digested(q).hash
    requires Digested(f).hash != Digested(q).hash
    ensures Run(ts, cs) && |cs| == 4
    ensures ts[4].ops == map[1 := Update("1", f.updater, 1), 2 := Update("2", f.updater, 2),
                             3 := Update("3", p.updater, 3), 4 := Update("4", q.updater, 4)]
    ensures ts[4].uoVuln == {(1, 1), (3, 2), (4, 3)} && ts[4].vuln.Keys == {1, 2, 3}
    ensures ts[4].vuln[1].cols == ColumnsOf(f) && ts[4].vuln[2].cols == ColumnsOf(p)
    ensures ts[4].vuln[3].cols == ColumnsOf(q)
  {
    ts, cs := TwoRows(f, p);
    ts, cs := RunFullUpdateOf(ts, cs, Update("4", q.updater, 4), Digested(q), 3);
  }

  lemma LatestOfFour(ops: map<nat, Op>, u: string, v: string, w: string)
    requires u != v && v != w && u != w
    requires ops == map[1 := Update("1", u, 1), 2 := Update("2", u, 2), 3 := Update("3", v, 3),
                        4 := Update("4", w, 4)]
    ensures !IsLatest(ops, 1) && IsLatest(ops, 3) && IsLatest(ops, 4)
  {
    assert 2 in ops && ops[2].updater == ops[1].updater;
  }

  lemma ThreeRowsSeen(t: Tables)
    requires VulnOk(t.meta, t.vuln) && t.vuln.Keys == {1, 2, 3} && t.uoVuln == {(1, 1), (3, 2), (4, 3)}
    requires !IsLatest(t.ops, 1) && IsLatest(t.ops, 3) && IsLatest(t.ops, 4)
    requires t.ops[3].kind == t.ops[4].kind == VulnerabilityKind
    ensures Rows(t) == {(3, 2), (4, 3)}
  {
    RowJoins(t, 3, 2);
    RowJoins(t, 4, 3);
    assert !Joined(t, (1, 1));
    forall a ensures a in Rows(t) <==> a in {(3, 2), (4, 3)} {
      assert a in t.uoVuln <==> a == (1, 1) || a == (3, 2) || a == (4, 3);
    }
  }

  lemma PassFailPass(test: Row -> Truth, more: Row -> Truth)
    requires test((3, 2)) == Yes && test((1, 1)) == Fails
    requires more((3, 2)) == Yes && more((1, 1)) == No && more((4, 3)) == Yes
    ensures Delivered(test, [(3, 2), (1, 1), (4, 3)]) == [(3, 2)]
    ensures Delivered(more, [(3, 2), (1, 1), (4, 3)]) == [(3, 2), (4, 3)]
  {
    var order: seq<Row> := [(3, 2), (1, 1), (4, 3)];
    PassThenFail(test, order);
    assert order[1..] == [(1, 1), (4, 3)] && order[1..][1..] == [(4, 3)];
    assert Delivered(more, [(4, 3)]) == [(4, 3)];
  }

  /** Three rows, of which only the second fails its version test, and that one is not current: it still hides the
      third, whether or not the driver steps once, and a matcher that rejects it brings the third back. */
  lemma FailingTestHidesRow() returns (ts: seq<Tables>, cs: seq<Command>, r: IndexRecord, p: Plan)
    ensures Run(ts, cs) && |cs| == 4 && IsPlan(ts[4], true, p) && p.order == [(3, 2), (1, 1), (4, 3)]
    ensures Rows(ts[4]) == {(3, 2), (4, 3)} && Passes(ts[4], r, [], true, (3, 2)) && Passes(ts[4], r, [], true, (4, 3))
    ensures Delivered(Tester(ts[4], r, [], true, p.early), p.order) == [(3, 2)]
    ensures !Reported(true, Tester(ts[4], r, [], true, p.early), p.order)
    ensures Delivered(Tester(ts[4], r, [PackageModule], true, p.early), p.order) == [(3, 2), (4, 3)]
  {
    var below, zero, one := Versions();
    var a, b, c := SampleVuln("f", "a", below, one), SampleVuln("p", "b", zero, one), SampleVuln("q", "b", zero, one);
    SampleHashes(a, b);
    SampleHashes(b, c);
    SampleHashes(a, c);
    SampleColumns("f", "a", zero, below, one);
    SampleColumns("p", "b", zero, zero, one);
    SampleColumns("q", "b", zero, zero, one);
    ts, cs := ThreeRows(a, b, c);
    r := SampleRecord(zero);
    RunKeepsIntegrity(ts, cs, 4);
    LatestOfFour(ts[4].ops, "f", "p", "q");
    ThreeRowsSeen(ts[4]);
    p := HiddenPlan(ts[4], zero);
  }

  lemma HiddenPlan(t: Tables, v: VR.Version) returns (p: Plan)
    requires t.vuln.Keys == {1, 2, 3} && Rows(t) == {(3, 2), (4, 3)}
    requires Sample(t.vuln[1].cols, v, "a", Fails) && Sample(t.vuln[2].cols, v, "b", Yes)
    requires Sample(t.vuln[3].cols, v, "b", Yes)
    ensures IsPlan(t, true, p) && p.order == [(3, 2), (1, 1), (4, 3)]
    ensures Passes(t, SampleRecord(v), [], true, (3, 2)) && Passes(t, SampleRecord(v), [], true, (4, 3))
    ensures Delivered(Tester(t, SampleRecord(v), [], true, p.early), p.order) == [(3, 2)]
    ensures !Reported(true, Tester(t, SampleRecord(v), [], true, p.early), p.order)
    ensures Delivered(Tester(t, SampleRecord(v), [PackageModule], true, p.early), p.order) == [(3, 2), (4, 3)]
  {
    var r := SampleRecord(v);
    p := Plan([(3, 2), (1, 1), (4, 3)], _ => false);
    SampleTested(t, v, (1, 1), "a", Fails);
    SampleTested(t, v, (3, 2), "b", Yes);
    SampleTested(t, v, (4, 3), "b", Yes);
    var test, more := Tester(t, r, [], true, p.early), Tester(t, r, [PackageModule], true, p.early);
    TestedRow(t, r, [], true, p.early, (1, 1));
    TestedRow(t, r, [], true, p.early, (3, 2));
    TestedRow(t, r, [PackageModule], true, p.early, (1, 1));
    TestedRow(t, r, [PackageModule], true, p.early, (3, 2));
    TestedRow(t, r, [PackageModule], true, p.early, (4, 3));
    PassFailPass(test, more);
  }
}

/** The SQLite matcher store: the statements each operation issues, in order, on tables that are updated in place.
    Every method is proved against the relations of module Tables. */
module MatcherStore {
  import opened Text
  import opened Advisory
  import opened Tables
  import opened StoreProgress
  import opened CutProgress

  /** One call of an iterator's callback: a record, with whether the statements run for it succeed, or an
      iteration error. */
  datatype Yield<+R> = Record(record: R, execOk: bool) | IterError

  /** Whether the callback stops the update at this record. Nothing is executed for an inverted record. */
  predicate Stops(y: Yield<Vulnerability>) { y.IterError? || (!y.record.invert && !y.execOk) }

  predicate EnrichStops(y: Yield<EnrichmentRecord>) { y.IterError? || !y.execOk }

  predicate NoneStops(ys: seq<Yield<Vulnerability>>) {
    forall i :: 0 <= i < |ys| ==> !Stops(ys[i])
  }

  predicate NoEnrichStops(ys: seq<Yield<EnrichmentRecord>>) {
    forall i :: 0 <= i < |ys| ==> !EnrichStops(ys[i])
  }

  predicate AllRecords<R>(ys: seq<Yield<R>>) { forall i :: 0 <= i < |ys| ==> ys[i].Record? }

  /** The digested records of an iteration. */
  function Batch(ys: seq<Yield<Vulnerability>>): seq<Vuln>
    requires AllRecords(ys)
  {
    if ys == [] then [] else Batch(ys[..|ys| - 1]) + [Digested(ys[|ys| - 1].record)]
  }

  function EnrichBatch(ys: seq<Yield<EnrichmentRecord>>): seq<Enrichment>
    requires AllRecords(ys)
  {
    if ys == [] then [] else EnrichBatch(ys[..|ys| - 1]) + [DigestedEnrichment(ys[|ys| - 1].record)]
  }

  lemma BatchSnoc(ys: seq<Yield<Vulnerability>>, k: nat)
    requires k < |ys| && NoneStops(ys[..k]) && !Stops(ys[k])
    ensures NoneStops(ys[..k + 1]) && AllRecords(ys[..k]) && AllRecords(ys[..k + 1])
    ensures Batch(ys[..k + 1]) == Batch(ys[..k]) + [Digested(ys[k].record)]
  {
    assert ys[..k + 1] == ys[..k] + [ys[k]];
    SnocMembers(ys[..k], ys[k]);
  }

  lemma EnrichBatchSnoc(ys: seq<Yield<EnrichmentRecord>>, k: nat)
    requires k < |ys| && NoEnrichStops(ys[..k]) && !EnrichStops(ys[k])
    ensures NoEnrichStops(ys[..k + 1]) && AllRecords(ys[..k]) && AllRecords(ys[..k + 1])
    ensures EnrichBatch(ys[..k + 1]) == EnrichBatch(ys[..k]) + [DigestedEnrichment(ys[k].record)]
  {
    assert ys[..k + 1] == ys[..k] + [ys[k]];
    SnocMembers(ys[..k], ys[k]);
  }

  /** Which statements of an update succeed, apart from those run for its records. An insert that carries a row
      forward fails when `carries` is false, and ANALYZE runs for enrichments only. */
  datatype Engine = Engine(begins: bool, selects: bool, creates: bool, carries: bool, commits: bool, analyzes: bool)

  /** Where a garbage collection fails, if it does. */
  datatype GcFault = NoFault | SelectFails | DeleteFails | DistinctFails | CleanupFails(after: nat)

  lemma FreshId<T>(m: map<nat, T>)
    ensures exists i: nat :: i !in m
  {
    var bound := UpperBound(m.Keys);
    assert bound !in m;
  }

  lemma {:induction false} UpperBound(s: set<nat>) returns (b: nat)
    ensures forall i :: i in s ==> i < b
    decreases s
  {
    if s == {} {
      b := 0;
    } else {
      var x :| x in s;
      var c := UpperBound(s - {x});
      b := if x < c then c else x + 1;
      forall i | i in s ensures i < b {
        assert i == x || i in s - {x};
      }
    }
  }

  /** The ids of a selection, listed by the names of their rows. */
  ghost predicate ListsByName(t: Tables, ids: set<nat>, m: map<string, seq<nat>>) {
    && (forall name :: name in m ==> forall i :: i in m[name] <==> i in ids && NameOf(t, i) == name)
    && (forall i :: i in ids ==> NameOf(t, i) in m)
  }

  function NameOf(t: Tables, i: nat): string { if i in t.vuln then Value(t.meta, t.vuln[i].nameId) else "" }

  lemma ListOne(t: Tables, ids: set<nat>, m: map<string, seq<nat>>, id: nat)
    requires ListsByName(t, ids, m)
    ensures var name := NameOf(t, id);
            ListsByName(t, ids + {id}, m[name := (if name in m then m[name] else []) + [id]])
  {
    var name := NameOf(t, id);
    var others := if name in m then m[name] else [];
    SnocMembers(others, id);
  }

  ghost predicate Interned(meta: map<nat, Meta>, v: Vuln) {
    && (exists i :: IsMeta(meta, i, DescriptionMeta, v.description))
    && (exists i :: IsMeta(meta, i, NameMeta, v.name))
  }

  /** Operation n is associated with the row that has the record's digest. */
  ghost predicate Linked(t: Tables, n: nat, v: Vuln) {
    exists i :: i in t.vuln && t.vuln[i].hash == v.hash && (n, i) in t.uoVuln
  }

  /** Operation n with each of the ids listed. */
  function Listed(n: nat, oldVulns: map<string, seq<nat>>): set<(nat, nat)> {
    set name, i | name in oldVulns && i in oldVulns[name] :: (n, i)
  }

  function ListedFor(n: nat, oldVulns: map<string, seq<nat>>, names: set<string>): set<(nat, nat)>
    requires names <= oldVulns.Keys
  {
    set name, i | name in names && i in oldVulns[name] :: (n, i)
  }

  function ListedUpTo(n: nat, ids: seq<nat>, k: nat): set<(nat, nat)>
    requires k <= |ids|
  {
    set i | i in ids[..k] :: (n, i)
  }

  lemma ListedOneMore(n: nat, oldVulns: map<string, seq<nat>>, names: set<string>, name: string)
    requires names <= oldVulns.Keys && name in oldVulns
    ensures ListedFor(n, oldVulns, names + {name})
            == ListedFor(n, oldVulns, names) + ListedUpTo(n, oldVulns[name], |oldVulns[name]|)
  {
    assert oldVulns[name][..|oldVulns[name]|] == oldVulns[name];
  }

  class Store {
    var ops: map<nat, Op>
    var opSeq: nat
    var meta: map<nat, Meta>
    var vuln: map<nat, VulnRow>
    var uoVuln: set<(nat, nat)>
    var enrich: map<nat, EnrichRow>
    var uoEnrich: set<(nat, nat)>

    function T(): Tables
      reads this
    {
      Tables(ops, opSeq, meta, vuln, uoVuln, enrich, uoEnrich)
    }

    constructor ()
      ensures T() == EMPTY
    {
      ops, opSeq, meta, vuln, uoVuln, enrich, uoEnrich := map[], 0, map[], map[], {}, map[], {};
    }

    method Rollback(t: Tables)
      modifies this
      ensures T() == t
    {
      ops, opSeq, meta, vuln := t.ops, t.opSeq, t.meta, t.vuln;
      uoVuln, enrich, uoEnrich := t.uoVuln, t.enrich, t.uoEnrich;
    }

    // ---- Statements of an update ----

    /** INSERT INTO update_operation ... RETURNING id; `ref` is UNIQUE and the id is AUTOINCREMENT. */
    method InsertOperation(op: Op) returns (id: Option<nat>)
      modifies this
      ensures id.Some? <==> FreshRef(old(ops), op.ref)
      ensures id.None? ==> T() == old(T())
      ensures id.Some? ==> id.value == old(opSeq) + 1
                           && T() == old(T()).(ops := old(ops)[id.value := op], opSeq := id.value)
    {
      if exists o :: o in ops && ops[o].ref == op.ref { return None; }
      opSeq := opSeq + 1;
      ops := ops[opSeq := op];
      return Some(opSeq);
    }

    /** getMetadata: the id interned for a text, inserting it under any unused id when it is not there. */
    method GetMetadata(kind: MetaKind, value: string) returns (id: nat)
      requires MetaOk(meta)
      modifies this`meta
      ensures MetaGrows(old(meta), meta)
      ensures IsMeta(meta, id, kind, value)
      ensures (exists i :: i in old(meta) && old(meta)[i].kind == kind && old(meta)[i].value == value)
              ==> meta == old(meta)
      ensures |meta| <= |old(meta)| + 1
    {
      if i :| i in meta && meta[i].kind == kind && meta[i].hash == Md5(value) {
        id := i;
      } else {
        FreshId(meta);
        id :| id !in meta;
        meta := meta[id := Meta(kind, Md5(value), value)];
      }
    }

    /** The description first, then the name. */
    method InternTexts(v: Vuln) returns (descId: nat, nameId: nat)
      requires MetaOk(meta)
      modifies this`meta
      ensures MetaGrows(old(meta), meta)
      ensures IsMeta(meta, descId, DescriptionMeta, v.description) && IsMeta(meta, nameId, NameMeta, v.name)
    {
      descId := GetMetadata(DescriptionMeta, v.description);
      nameId := GetMetadata(NameMeta, v.name);
    }

    /** INSERT INTO vuln ... ON CONFLICT (hash_kind, hash) DO NOTHING, and the id a look-up by that hash then
        finds. A new row may take any id that no row has, one that a deleted row had included. */
    method InsertVuln(row: VulnRow) returns (id: nat)
      requires VulnUnique(vuln)
      modifies this`vuln
      ensures HasHash(old(vuln), row.hash) ==> vuln == old(vuln) && id in vuln && vuln[id].hash == row.hash
      ensures !HasHash(old(vuln), row.hash) ==> id !in old(vuln) && vuln == old(vuln)[id := row]
    {
      if i :| i in vuln && vuln[i].hash == row.hash {
        id := i;
      } else {
        FreshId(vuln);
        id :| id !in vuln;
        vuln := vuln[id := row];
      }
    }

    method InsertEnrichment(row: EnrichRow) returns (id: nat)
      modifies this`enrich
      ensures EnrichHasHash(old(enrich), row.hash)
              ==> enrich == old(enrich) && id in enrich && enrich[id].hash == row.hash
      ensures !EnrichHasHash(old(enrich), row.hash) ==> id !in old(enrich) && enrich == old(enrich)[id := row]
    {
      if i :| i in enrich && enrich[i].hash == row.hash {
        id := i;
      } else {
        FreshId(enrich);
        id :| id !in enrich;
        enrich := enrich[id := row];
      }
    }

    // ---- updateVulnerabilities ----

    /** The selection before a delta: the ids of the rows this updater has, listed by name. Rows arrive in any
        order. */
    method SelectExisting(updater: string) returns (oldVulns: map<string, seq<nat>>)
      ensures ListsByName(T(), Existing(T(), updater), oldVulns)
    {
      oldVulns := map[];
      var rows := Existing(T(), updater);
      ghost var all := rows;
      while rows != {}
        invariant rows <= all == Existing(T(), updater)
        invariant ListsByName(T(), all - rows, oldVulns)
        decreases rows
      {
        var id :| id in rows;
        var name := Value(meta, vuln[id].nameId);
        ListOne(T(), all - rows, oldVulns, id);
        oldVulns := oldVulns[name := (if name in oldVulns then oldVulns[name] else []) + [id]];
        rows := rows - {id};
        assert all - rows == all - (rows + {id}) + {id};
      }
      assert all - rows == all;
    }

    /** Both callback passes that take names out of the selection. */
    method DropNames(selected: map<string, seq<nat>>, batch: seq<Vuln>, deleted: seq<string>)
      returns (oldVulns: map<string, seq<nat>>)
      ensures oldVulns == map name | name in selected && !Named(batch, name) && name !in deleted :: selected[name]
    {
      oldVulns := selected;
      if |oldVulns| > 0 {
        for k := 0 to |batch|
          invariant oldVulns == map name | name in selected && !Named(batch[..k], name) :: selected[name]
        {
          NamedSnoc(batch, k);
          oldVulns := oldVulns - {batch[k].name};
        }
        assert batch[..|batch|] == batch;
        ghost var left := oldVulns;
        for k := 0 to |deleted|
          invariant oldVulns == map name | name in left && name !in deleted[..k] :: left[name]
        {
          assert deleted[..k + 1] == deleted[..k] + [deleted[k]];
          oldVulns := oldVulns - {deleted[k]};
        }
        assert deleted[..|deleted|] == deleted;
      }
    }

    /** Associates every id left in the selection with operation n, in any order of the names. */
    method AssocExisting(n: nat, oldVulns: map<string, seq<nat>>, carries: bool) returns (ok: bool)
      modifies this`uoVuln
      ensures ok <==> carries || Listed(n, oldVulns) == {}
      ensures ok ==> uoVuln == old(uoVuln) + Listed(n, oldVulns)
    {
      ok := true;
      var names := oldVulns.Keys;
      while names != {}
        invariant ok && names <= oldVulns.Keys
        invariant uoVuln == old(uoVuln) + ListedFor(n, oldVulns, oldVulns.Keys - names)
        invariant !carries ==> ListedFor(n, oldVulns, oldVulns.Keys - names) == {}
        decreases names
      {
        var name :| name in names;
        ghost var before := uoVuln;
        for k := 0 to |oldVulns[name]|
          invariant ok && uoVuln == before + ListedUpTo(n, oldVulns[name], k)
          invariant !carries ==> k == 0
        {
          if !carries {
            assert (n, oldVulns[name][k]) in Listed(n, oldVulns);
            return false;
          }
          assert oldVulns[name][..k + 1] == oldVulns[name][..k] + [oldVulns[name][k]];
          uoVuln := uoVuln + {(n, oldVulns[name][k])};
        }
        ListedOneMore(n, oldVulns, oldVulns.Keys - names, name);
        assert oldVulns.Keys - names + {name} == oldVulns.Keys - (names - {name});
        names := names - {name};
      }
      assert oldVulns.Keys - names == oldVulns.Keys;
    }

    /** The callback for one record: nothing for an inverted one, only its texts for one without a package
        name, otherwise its texts, its row unless a row has its digest, and the association. */
    method WriteRecord(n: nat, v: Vuln, ghost t0: Tables, ghost op: Op, ghost carried: set<nat>, ghost read: seq<Vuln>)
      requires VulnProgress(t0, op, carried, read, T()) && n == t0.opSeq + 1
      modifies this`meta, this`vuln, this`uoVuln
      ensures VulnProgress(t0, op, carried, read + [v], T())
      ensures v.invert ==> T() == old(T())
      ensures !v.invert ==> Interned(meta, v)
      ensures !v.invert && v.cols.None? ==> vuln == old(vuln) && uoVuln == old(uoVuln)
      ensures Storable(v) ==> Linked(T(), n, v)
    {
      ghost var t := T();
      if v.invert {
        ProgressSkip(t0, op, carried, read, t, v);
        return;
      }
      var descId, nameId := InternTexts(v);
      ProgressMeta(t0, op, carried, read, t, meta);
      t := T();
      if v.cols.None? {
        ProgressSkip(t0, op, carried, read, t, v);
        return;
      }
      var row := VulnRow(v.hash, v.updater, nameId, descId, v.cols.value);
      var id := InsertVuln(row);
      uoVuln := uoVuln + {(n, id)};
      if HasHash(t.vuln, row.hash) {
        ProgressConflict(t0, op, carried, read, t, v, id);
      } else {
        ProgressInsert(t0, op, carried, read, t, v, id, row);
      }
    }

    /** The ids that a delta carries forward, by name; none for a full update. */
    method SelectCarried(updater: string, batch: seq<Vuln>, deleted: Option<seq<string>>)
      returns (oldVulns: map<string, seq<nat>>)
      ensures forall n :: Listed(n, oldVulns) == Pairs(n, CarriedBy(T(), updater, batch, deleted))
    {
      oldVulns := map[];
      if deleted.Some? {
        var selected := SelectExisting(updater);
        oldVulns := DropNames(selected, batch, deleted.value);
        forall n: nat ensures Listed(n, oldVulns) == Pairs(n, CarriedBy(T(), updater, batch, deleted)) {
          SelectedIsCarried(T(), updater, batch, deleted.value, selected, oldVulns, n);
        }
      }
    }

    /** The new operation, associated with what the selection has left. */
    method CreateOperation(op: Op, oldVulns: map<string, seq<nat>>, e: Engine, ghost carried: set<nat>)
      returns (n: Option<nat>)
      requires Listed(opSeq + 1, oldVulns) == Pairs(opSeq + 1, carried)
      modifies this
      ensures n.Some? <==> e.creates && FreshRef(old(ops), op.ref) && (e.carries || carried == {})
      ensures n.Some? ==> n.value == old(opSeq) + 1
      ensures n.Some? ==> T() == old(T()).(ops := old(ops)[n.value := op], opSeq := n.value,
                                           uoVuln := old(uoVuln) + Pairs(n.value, carried))
    {
      if !e.creates { return None; }
      NoPairs(opSeq + 1, carried);
      n := InsertOperation(op);
      if n.Some? {
        var ok := AssocExisting(n.value, oldVulns, e.carries);
        if !ok { return None; }
      }
    }

    /** What a delta does to begin with, or a full update (no deletion list): the selection, the new operation
        and the associations that carry forward. When it fails the caller rolls back. */
    method Begin(op: Op, batch: seq<Vuln>, deleted: Option<seq<string>>, e: Engine) returns (n: Option<nat>)
      requires Inv(T()) && op.kind == VulnerabilityKind
      modifies this
      ensures n.Some? <==> Begins(e, old(T()), op, batch, deleted)
      ensures n.Some? ==> n.value == old(opSeq) + 1
      ensures n.Some? ==> VulnProgress(old(T()), op, CarriedBy(old(T()), op.updater, batch, deleted), [], T())
    {
      if !e.begins || (deleted.Some? && !e.selects) { return None; }
      var oldVulns := SelectCarried(op.updater, batch, deleted);
      ghost var carried := CarriedBy(T(), op.updater, batch, deleted);
      n := CreateOperation(op, oldVulns, e, carried);
      if n.Some? { ProgressBegins(old(T()), op, carried, T()); }
    }

    /** The callback over the records that were read, up to the first that stops it. */
    method WriteRecords(n: nat, items: seq<Yield<Vulnerability>>, ghost t0: Tables, ghost op: Op,
                        ghost carried: set<nat>)
      returns (ok: bool)
      requires VulnProgress(t0, op, carried, [], T()) && n == t0.opSeq + 1
      modifies this`meta, this`vuln, this`uoVuln
      ensures ok <==> NoneStops(items)
      ensures ok ==> VulnProgress(t0, op, carried, Batch(items), T())
    {
      ghost var read: seq<Vuln> := [];
      for k := 0 to |items|
        invariant NoneStops(items[..k]) && AllRecords(items[..k]) && read == Batch(items[..k])
        invariant VulnProgress(t0, op, carried, read, T())
      {
        if Stops(items[k]) { return false; }
        BatchSnoc(items, k);
        WriteRecord(n, Digested(items[k].record), t0, op, carried, read);
        read := read + [Digested(items[k].record)];
      }
      assert items[..|items|] == items;
      ok := true;
    }

    /** updateVulnerabilities: one transaction, committed whole or not at all. Only DeltaUpdateVulnerabilities
        passes a deletion list, and it iterates over a slice. */
    method UpdateVulnerabilities(updater: string, fingerprint: string, ref: string, date: int,
                                 items: seq<Yield<Vulnerability>>, deleted: Option<seq<string>>, e: Engine)
      returns (ok: bool)
      requires Inv(T())
      requires deleted.Some? ==> AllRecords(items)
      modifies this
      ensures var op := Op(ref, updater, fingerprint, VulnerabilityKind, date);
              var batch := if deleted.Some? then Batch(items) else [];
              ok <==> && Begins(e, old(T()), op, batch, deleted) && e.commits
                      && forall k :: 0 <= k < |items| ==>
                           items[k].Record? && (items[k].record.invert || items[k].execOk)
      ensures !ok ==> T() == old(T())
      ensures ok ==> VulnStep(old(T()), Op(ref, updater, fingerprint, VulnerabilityKind, date), Batch(items),
                              deleted, T())
    {
      var t0 := T();
      var op := Op(ref, updater, fingerprint, VulnerabilityKind, date);
      var batch := if deleted.Some? then Batch(items) else [];
      var n := Begin(op, batch, deleted, e);
      if n.None? {
        Rollback(t0);
        return false;
      }
      ok := WriteRecords(n.value, items, t0, op, CarriedBy(t0, updater, batch, deleted));
      if !ok || !e.commits {
        Rollback(t0);
        ok := false;
      }
    }

    // ---- UpdateEnrichmentsIter ----

    /** The callback over the records that were read, up to the first that stops it. */
    method WriteEnrichments(n: nat, updater: string, items: seq<Yield<EnrichmentRecord>>, ghost t0: Tables,
                            ghost op: Op)
      returns (ok: bool)
      requires EnrichProgress(t0, op, [], T()) && n == t0.opSeq + 1 && updater == op.updater
      modifies this`enrich, this`uoEnrich
      ensures ok <==> NoEnrichStops(items)
      ensures ok ==> EnrichProgress(t0, op, EnrichBatch(items), T())
    {
      ghost var read: seq<Enrichment> := [];
      for k := 0 to |items|
        invariant NoEnrichStops(items[..k]) && AllRecords(items[..k]) && read == EnrichBatch(items[..k])
        invariant EnrichProgress(t0, op, read, T())
      {
        if EnrichStops(items[k]) { return false; }
        EnrichBatchSnoc(items, k);
        var e := DigestedEnrichment(items[k].record);
        WriteEnrichment(n, updater, e, t0, op, read);
        read := read + [e];
      }
      assert items[..|items|] == items;
      ok := true;
    }

    method WriteEnrichment(n: nat, updater: string, e: Enrichment, ghost t0: Tables, ghost op: Op,
                           ghost read: seq<Enrichment>)
      requires EnrichProgress(t0, op, read, T()) && n == t0.opSeq + 1 && updater == op.updater
      modifies this`enrich, this`uoEnrich
      ensures EnrichProgress(t0, op, read + [e], T())
    {
      ghost var t := T();
      var row := EnrichRow(e.hash, updater, e.tags, e.data);
      var id := InsertEnrichment(row);
      uoEnrich := uoEnrich + {(n, id)};
      if EnrichHasHash(t.enrich, row.hash) {
        EnrichConflict(t0, op, read, t, e, id);
      } else {
        EnrichInsert(t0, op, read, t, e, id, row);
      }
    }

    /** UpdateEnrichmentsIter. The ANALYZE statement runs after the commit: when it fails the caller gets an error
        for an update that has taken effect. */
    method UpdateEnrichments(updater: string, fingerprint: string, ref: string, date: int,
                             items: seq<Yield<EnrichmentRecord>>, e: Engine)
      returns (ok: bool)
      requires Inv(T())
      modifies this
      ensures var committed := && e.begins && e.creates && FreshRef(old(ops), ref) && e.commits
                               && forall k :: 0 <= k < |items| ==> items[k].Record? && items[k].execOk;
              && (ok <==> committed && e.analyzes)
              && (committed ==> EnrichStep(old(T()), Op(ref, updater, fingerprint, EnrichmentKind, date),
                                           EnrichBatch(items), T()))
              && (!committed ==> T() == old(T()))
    {
      if !e.begins || !e.creates { return false; }
      var t0 := T();
      var op := Op(ref, updater, fingerprint, EnrichmentKind, date);
      var n := InsertOperation(op);
      if n.None? { return false; }
      assert RecordIds(enrich, []) == {};
      ok := WriteEnrichments(n.value, updater, items, t0, op);
      if !ok || !e.commits {
        Rollback(t0);
        return false;
      }
      ok := e.analyzes;
    }

    // ---- DeleteUpdateOperations ----

    /** Deletes the operations with the given references, cascading, and counts the rows deleted. */
    method DeleteUpdateOperations(refs: seq<string>, execOk: bool) returns (n: nat, ok: bool)
      modifies this
      ensures ok <==> refs == [] || execOk
      ensures refs != [] && !execOk ==> T() == old(T()) && n == 0
      ensures ok && refs == [] ==> T() == old(T()) && n == 0
      ensures ok && refs != [] ==> T() == KeepOps(old(T()), NotReferenced(old(ops), refs))
      ensures ok && refs != [] ==> n == |old(ops).Keys - NotReferenced(old(ops), refs)|
    {
      if |refs| == 0 { return 0, true; }
      if !execOk { return 0, false; }
      var kept := NotReferenced(ops, refs);
      var gone := ops.Keys - kept;
      uoVuln := set a | a in uoVuln && a.0 in kept;
      uoEnrich := set a | a in uoEnrich && a.0 in kept;
      ops := map o | o in ops && o in kept :: ops[o];
      return |gone|, true;
    }

    // ---- GC ----

    /** vulnCleanup and enrichmentCleanup: the unreferenced rows of one updater. */
    method Cleanup(kind: Kind, updater: string)
      modifies this`vuln, this`enrich
      ensures CleanedOne(old(T()), (kind, updater), T())
    {
      match kind
      case VulnerabilityKind =>
        vuln := map i | i in vuln && !(Unreferenced(uoVuln, i) && vuln[i].updater == updater) :: vuln[i];
      case EnrichmentKind =>
        enrich := map i | i in enrich && !(Unreferenced(uoEnrich, i) && enrich[i].updater == updater) :: enrich[i];
    }

    /** The cleanup loop over the updaters that have operations left, by kind; it stops when a cleanup fails. */
    method CleanupAll(failAfter: Option<nat>) returns (ok: bool)
      modifies this`vuln, this`enrich
      ensures Swept(old(T()), T()) && OnlyRegistered(old(T()), T())
      ensures ok ==> Clean(T())
      ensures failAfter.None? ==> ok
    {
      var left := RegisteredUpdaters(ops);
      ghost var t := T();
      CleanupStarts(t);
      var n := 0;
      while left != {}
        invariant left <= RegisteredUpdaters(ops)
        invariant CleanupProgress(t, left, T())
        decreases left
      {
        if failAfter == Some(n) { return false; }
        var p :| p in left;
        ghost var before := T();
        Cleanup(p.0, p.1);
        CleanupNext(t, left, before, p, T());
        left := left - {p};
        n := n + 1;
      }
      CleanupEnds(t, T());
      ok := true;
    }

    /** The operations past the cut, deleted by one statement. */
    method DeleteEligible(keep: nat, execOk: bool) returns (remaining: int, ok: bool, ghost kept: set<nat>)
      requires Inv(T())
      modifies this
      ensures ValidCut(old(ops), keep, kept)
      ensures ok ==> T() == KeepOps(old(T()), kept) && remaining == 0
      ensures !ok ==> T() == old(T()) && remaining == |ops.Keys - kept|
      ensures execOk ==> ok
    {
      var refs := EligibleUpdateOps(ops, keep);
      kept := NotReferenced(ops, refs);
      KeptByRefs(ops, kept, refs);
      if refs == [] {
        KeepAllOps(T(), kept);
      }
      var deleted;
      deleted, ok := DeleteUpdateOperations(refs, execOk);
      remaining := |refs| - deleted;
    }

    /** GC: delete what exceeds `keep`, then clean up. Each statement commits by itself, so a failure leaves what
        was done before it. */
    method GC(keep: nat, fault: GcFault) returns (remaining: int, ok: bool)
      requires Inv(T())
      modifies this
      ensures exists kept :: GcStep(old(T()), keep, ok, kept, T())
      ensures ok || fault != DeleteFails ==> remaining == 0
      ensures !ok && fault == DeleteFails ==>
                T() == old(T()) && exists kept :: ValidCut(ops, keep, kept) && remaining == |ops.Keys - kept|
      ensures fault == NoFault ==> ok
    {
      ghost var t := T();
      if fault == SelectFails {
        NothingCollected(t, keep);
        return 0, false;
      }
      ghost var kept;
      remaining, ok, kept := DeleteEligible(keep, fault != DeleteFails);
      if !ok {
        NothingCollected(t, keep);
        return;
      }
      if fault == DistinctFails {
        assert GcStep(t, keep, false, kept, T());
        return 0, false;
      }
      ok := CleanupAll(if fault.CleanupFails? then Some(fault.after) else None);
      assert GcStep(t, keep, ok, kept, T());
    }
  }

  function CarriedBy(t: Tables, updater: string, batch: seq<Vuln>, deleted: Option<seq<string>>): set<nat> {
    if deleted.Some? then Carried(t, updater, batch, deleted.value) else {}
  }

  /** An update gets as far as its records: every statement before them succeeds, those that carry rows forward
      included if there are any. */
  ghost predicate Begins(e: Engine, t: Tables, op: Op, batch: seq<Vuln>, deleted: Option<seq<string>>) {
    && e.begins && (deleted.Some? ==> e.selects) && e.creates && FreshRef(t.ops, op.ref)
    && (e.carries || CarriedBy(t, op.updater, batch, deleted) == {})
  }

  lemma NoPairs(n: nat, ids: set<nat>)
    ensures Pairs(n, ids) == {} <==> ids == {}
  {
    if i: nat :| i in ids {
      assert (n, i) in Pairs(n, ids);
    }
  }

  lemma SelectedIsCarried(t: Tables, updater: string, batch: seq<Vuln>, deleted: seq<string>,
                          selected: map<string, seq<nat>>, oldVulns: map<string, seq<nat>>, n: nat)
    requires ListsByName(t, Existing(t, updater), selected)
    requires oldVulns == map name | name in selected && !Named(batch, name) && name !in deleted :: selected[name]
    ensures Listed(n, oldVulns) == Pairs(n, Carried(t, updater, batch, deleted))
  {
    forall i | i in Carried(t, updater, batch, deleted)
      ensures exists name :: name in oldVulns && i in oldVulns[name]
    {
      assert NameOf(t, i) in oldVulns;
    }
  }

  lemma NamedSnoc(batch: seq<Vuln>, k: nat)
    requires k < |batch|
    ensures forall name :: Named(batch[..k + 1], name) <==> Named(batch[..k], name) || name == batch[k].name
  {
    assert batch[..k + 1] == batch[..k] + [batch[k]];
    SnocMembers(batch[..k], batch[k]);
    forall name ensures Named(batch[..k + 1], name) <==> Named(batch[..k], name) || name == batch[k].name {
      if name == batch[k].name {
        assert batch[k] in batch[..k + 1];
      }
    }
  }

  lemma NothingCollected(t: Tables, keep: nat)
    requires AssocOk(t)
    ensures GcStep(t, keep, false, t.ops.Keys, t)
  {
    assert KeepOps(t, t.ops.Keys) == t;
  }

  lemma KeepAllOps(t: Tables, kept: set<nat>)
    requires AssocOk(t) && kept <= t.ops.Keys && |t.ops.Keys - kept| == 0
    ensures KeepOps(t, kept) == t
  {
    assert t.ops.Keys - kept == {};
    assert kept == t.ops.Keys;
  }
}

/** How far an update transaction has come: the relation its record loop maintains, one lemma per statement. */
module StoreProgress {
  import opened Advisory
  import opened Tables
  import opened StoreIntegrity

  ghost predicate VulnProgress(t0: Tables, op: Op, carried: set<nat>, read: seq<Vuln>, t: Tables) {
    var n := t0.opSeq + 1;
    && t.ops == t0.ops[n := op] && t.opSeq == n
    && MetaGrows(t0.meta, t.meta)
    && VulnGrows(t0.vuln, read, t.meta, t.vuln)
    && t.uoVuln == t0.uoVuln + Pairs(n, carried) + Pairs(n, BatchIds(t.vuln, read))
    && t.enrich == t0.enrich && t.uoEnrich == t0.uoEnrich
  }

  lemma ProgressBegins(t0: Tables, op: Op, carried: set<nat>, t: Tables)
    requires MetaOk(t0.meta) && VulnUnique(t0.vuln)
    requires var n := t0.opSeq + 1;
             t == t0.(ops := t0.ops[n := op], opSeq := n, uoVuln := t0.uoVuln + Pairs(n, carried))
    ensures VulnProgress(t0, op, carried, [], t)
  {
    assert BatchIds(t.vuln, []) == {};
    assert Pairs(t.opSeq, BatchIds(t.vuln, [])) == {};
  }

  lemma ProgressMeta(t0: Tables, op: Op, carried: set<nat>, read: seq<Vuln>, t: Tables, meta': map<nat, Meta>)
    requires VulnProgress(t0, op, carried, read, t) && MetaGrows(t.meta, meta')
    ensures VulnProgress(t0, op, carried, read, t.(meta := meta'))
  {
    forall i | i in t.vuln && i !in t0.vuln ensures exists v :: v in read && RowOf(meta', t.vuln[i], v) {
      var v :| v in read && RowOf(t.meta, t.vuln[i], v);
      RowOfGrows(t.meta, meta', t.vuln[i], v);
    }
  }

  lemma BatchHashSnoc(read: seq<Vuln>, v: Vuln, h: Digest)
    ensures BatchHash(read + [v], h) <==> BatchHash(read, h) || (Storable(v) && v.hash == h)
  {
    assert forall w :: w in read + [v] <==> w in read || w == v;
  }

  lemma BatchIdsSnoc(vuln: map<nat, VulnRow>, read: seq<Vuln>, v: Vuln)
    ensures BatchIds(vuln, read + [v])
            == BatchIds(vuln, read) + if Storable(v) then (set i | i in vuln && vuln[i].hash == v.hash) else {}
  {
    forall i | i in vuln
      ensures BatchHash(read + [v], vuln[i].hash)
              <==> BatchHash(read, vuln[i].hash) || (Storable(v) && v.hash == vuln[i].hash)
    {
      BatchHashSnoc(read, v, vuln[i].hash);
    }
  }

  lemma SnocMembers<T>(read: seq<T>, v: T)
    ensures forall w :: w in read + [v] <==> w in read || w == v
  {
  }

  lemma CoversSnoc(read: seq<Vuln>, v: Vuln, vuln: map<nat, VulnRow>, vuln': map<nat, VulnRow>)
    requires Covers(vuln, read) && VulnKept(vuln, vuln')
    requires Storable(v) ==> HasHash(vuln', v.hash)
    ensures Covers(vuln', read + [v])
  {
    SnocMembers(read, v);
    forall w | w in read + [v] && Storable(w) ensures HasHash(vuln', w.hash) {
      if w in read {
        var i :| i in vuln && vuln[i].hash == w.hash;
        assert vuln'[i].hash == w.hash;
      }
    }
  }

  lemma FromBatchSnoc(vuln0: map<nat, VulnRow>, read: seq<Vuln>, v: Vuln, meta: map<nat, Meta>,
                      vuln: map<nat, VulnRow>, vuln': map<nat, VulnRow>)
    requires FromBatch(vuln0, read, meta, vuln)
    requires forall i :: i in vuln' ==> (i in vuln && vuln'[i] == vuln[i]) || RowOf(meta, vuln'[i], v)
    ensures FromBatch(vuln0, read + [v], meta, vuln')
  {
    SnocMembers(read, v);
    forall i | i in vuln' && i !in vuln0 ensures exists w :: w in read + [v] && RowOf(meta, vuln'[i], w) {
      if i in vuln && vuln'[i] == vuln[i] {
        var w :| w in read && RowOf(meta, vuln[i], w);
      }
    }
  }

  lemma GrowsSnoc(vuln0: map<nat, VulnRow>, read: seq<Vuln>, v: Vuln, meta: map<nat, Meta>, vuln: map<nat, VulnRow>)
    requires VulnGrows(vuln0, read, meta, vuln)
    requires Storable(v) ==> HasHash(vuln, v.hash)
    ensures VulnGrows(vuln0, read + [v], meta, vuln)
  {
    CoversSnoc(read, v, vuln, vuln);
    FromBatchSnoc(vuln0, read, v, meta, vuln, vuln);
  }

  /** The record is inverted or has no package name: nothing is written for it. */
  lemma ProgressSkip(t0: Tables, op: Op, carried: set<nat>, read: seq<Vuln>, t: Tables, v: Vuln)
    requires VulnProgress(t0, op, carried, read, t) && !Storable(v)
    ensures VulnProgress(t0, op, carried, read + [v], t)
  {
    GrowsSnoc(t0.vuln, read, v, t.meta, t.vuln);
    BatchIdsSnoc(t.vuln, read, v);
  }

  /** A row with the digest was there: the insert does nothing and the association names that row. */
  lemma ProgressConflict(t0: Tables, op: Op, carried: set<nat>, read: seq<Vuln>, t: Tables, v: Vuln, i: nat)
    requires VulnProgress(t0, op, carried, read, t) && Storable(v)
    requires i in t.vuln && t.vuln[i].hash == v.hash
    ensures VulnProgress(t0, op, carried, read + [v], t.(uoVuln := t.uoVuln + {(t0.opSeq + 1, i)}))
  {
    GrowsSnoc(t0.vuln, read, v, t.meta, t.vuln);
    ConflictIds(t.vuln, read, v, i);
    PairsAdd(t0.opSeq + 1, BatchIds(t.vuln, read), i);
  }

  lemma ConflictIds(vuln: map<nat, VulnRow>, read: seq<Vuln>, v: Vuln, i: nat)
    requires VulnUnique(vuln) && Storable(v) && i in vuln && vuln[i].hash == v.hash
    ensures BatchIds(vuln, read + [v]) == BatchIds(vuln, read) + {i}
  {
    BatchIdsSnoc(vuln, read, v);
    assert (set j | j in vuln && vuln[j].hash == v.hash) == {i};
  }

  lemma PairsAdd(n: nat, ids: set<nat>, i: nat)
    ensures Pairs(n, ids + {i}) == Pairs(n, ids) + {(n, i)}
  {
  }

  lemma InsertGrows(vuln0: map<nat, VulnRow>, read: seq<Vuln>, v: Vuln, meta: map<nat, Meta>,
                    vuln: map<nat, VulnRow>, i: nat, row: VulnRow)
    requires VulnGrows(vuln0, read, meta, vuln) && RowOf(meta, row, v) && i !in vuln
    requires forall j :: j in vuln ==> vuln[j].hash != v.hash
    ensures VulnGrows(vuln0, read + [v], meta, vuln[i := row])
  {
    var vuln' := vuln[i := row];
    assert VulnKept(vuln, vuln') && VulnKept(vuln0, vuln');
    assert VulnUnique(vuln');
    assert HasHash(vuln', v.hash) by { assert vuln'[i].hash == v.hash; }
    CoversSnoc(read, v, vuln, vuln');
    FromBatchSnoc(vuln0, read, v, meta, vuln, vuln');
  }

  /** No row had the digest: a new row under an unused id, which no old association mentions. */
  lemma ProgressInsert(t0: Tables, op: Op, carried: set<nat>, read: seq<Vuln>, t: Tables, v: Vuln, i: nat,
                       row: VulnRow)
    requires VulnProgress(t0, op, carried, read, t) && RowOf(t.meta, row, v) && i !in t.vuln
    requires forall j :: j in t.vuln ==> t.vuln[j].hash != v.hash
    ensures VulnProgress(t0, op, carried, read + [v],
                         t.(vuln := t.vuln[i := row], uoVuln := t.uoVuln + {(t0.opSeq + 1, i)}))
  {
    InsertGrows(t0.vuln, read, v, t.meta, t.vuln, i, row);
    InsertedIds(t.vuln, read, v, i, row);
    PairsAdd(t0.opSeq + 1, BatchIds(t.vuln, read), i);
  }

  lemma InsertedIds(vuln: map<nat, VulnRow>, read: seq<Vuln>, v: Vuln, i: nat, row: VulnRow)
    requires Storable(v) && row.hash == v.hash && i !in vuln
    requires forall j :: j in vuln ==> vuln[j].hash != v.hash
    ensures BatchIds(vuln[i := row], read + [v]) == BatchIds(vuln, read) + {i}
  {
    var vuln' := vuln[i := row];
    forall j | j in vuln' ensures BatchHash(read + [v], vuln'[j].hash) <==> j == i || BatchHash(read, vuln'[j].hash) {
      BatchHashSnoc(read, v, vuln'[j].hash);
    }
  }

  // ---- Enrichment updates ----

  ghost predicate EnrichProgress(t0: Tables, op: Op, read: seq<Enrichment>, t: Tables) {
    var n := t0.opSeq + 1;
    && t.ops == t0.ops[n := op] && t.opSeq == n
    && EnrichGrows(t0.enrich, read, t.enrich) && WrittenBy(t0.enrich, op.updater, t.enrich)
    && t.uoEnrich == t0.uoEnrich + Pairs(n, RecordIds(t.enrich, read))
    && t.meta == t0.meta && t.vuln == t0.vuln && t.uoVuln == t0.uoVuln
  }

  lemma RecordHashSnoc(read: seq<Enrichment>, e: Enrichment, h: Digest)
    ensures RecordHash(read + [e], h) <==> RecordHash(read, h) || e.hash == h
  {
    assert forall d :: d in read + [e] <==> d in read || d == e;
  }

  lemma EnrichSnoc(enrich0: map<nat, EnrichRow>, read: seq<Enrichment>, e: Enrichment,
                   enrich: map<nat, EnrichRow>, enrich': map<nat, EnrichRow>)
    requires FromRecords(enrich0, read, enrich) && EnrichCovers(enrich, read) && EnrichKept(enrich, enrich')
    requires forall i :: i in enrich' ==> i in enrich || EnrichmentOf(enrich'[i]) == e
    requires EnrichHasHash(enrich', e.hash)
    ensures FromRecords(enrich0, read + [e], enrich') && EnrichCovers(enrich', read + [e])
  {
    SnocMembers(read, e);
    assert forall i :: i in enrich && i in enrich' ==> enrich'[i] == enrich[i];
    forall d | d in read + [e] ensures EnrichHasHash(enrich', d.hash) {
      if d in read {
        var i :| i in enrich && enrich[i].hash == d.hash;
        assert enrich'[i].hash == d.hash;
      }
    }
  }

  lemma RecordIdsSnoc(enrich: map<nat, EnrichRow>, enrich': map<nat, EnrichRow>, read: seq<Enrichment>, e: Enrichment,
                      i: nat)
    requires EnrichUnique(enrich') && i in enrich' && enrich'[i].hash == e.hash
    requires EnrichKept(enrich, enrich') && enrich'.Keys == enrich.Keys + {i}
    ensures RecordIds(enrich', read + [e]) == RecordIds(enrich, read) + {i}
  {
    forall j | j in enrich'
      ensures RecordHash(read + [e], enrich'[j].hash) <==> j == i || RecordHash(read, enrich'[j].hash)
    {
      RecordHashSnoc(read, e, enrich'[j].hash);
    }
  }

  lemma EnrichConflict(t0: Tables, op: Op, read: seq<Enrichment>, t: Tables, e: Enrichment, i: nat)
    requires EnrichProgress(t0, op, read, t) && i in t.enrich && t.enrich[i].hash == e.hash
    ensures EnrichProgress(t0, op, read + [e], t.(uoEnrich := t.uoEnrich + {(t0.opSeq + 1, i)}))
  {
    assert EnrichGrows(t0.enrich, read + [e], t.enrich) by { EnrichSnoc(t0.enrich, read, e, t.enrich, t.enrich); }
    assert RecordIds(t.enrich, read + [e]) == RecordIds(t.enrich, read) + {i} by {
      RecordIdsSnoc(t.enrich, t.enrich, read, e, i);
    }
    PairsAdd(t0.opSeq + 1, RecordIds(t.enrich, read), i);
  }

  lemma AddRow(enrich0: map<nat, EnrichRow>, enrich: map<nat, EnrichRow>, i: nat, row: EnrichRow)
    requires EnrichUnique(enrich) && EnrichKept(enrich0, enrich) && i !in enrich
    requires forall j :: j in enrich ==> enrich[j].hash != row.hash
    ensures EnrichUnique(enrich[i := row]) && EnrichKept(enrich0, enrich[i := row])
    ensures EnrichKept(enrich, enrich[i := row]) && EnrichHasHash(enrich[i := row], row.hash)
  {
    assert enrich[i := row][i].hash == row.hash;
  }

  lemma EnrichInsertGrows(enrich0: map<nat, EnrichRow>, read: seq<Enrichment>, e: Enrichment,
                          enrich: map<nat, EnrichRow>, i: nat, row: EnrichRow)
    requires EnrichGrows(enrich0, read, enrich) && EnrichmentOf(row) == e && i !in enrich
    requires forall j :: j in enrich ==> enrich[j].hash != e.hash
    ensures EnrichGrows(enrich0, read + [e], enrich[i := row])
    ensures RecordIds(enrich[i := row], read + [e]) == RecordIds(enrich, read) + {i}
  {
    var enrich' := enrich[i := row];
    AddRow(enrich0, enrich, i, row);
    EnrichSnoc(enrich0, read, e, enrich, enrich');
    RecordIdsSnoc(enrich, enrich', read, e, i);
  }

  lemma EnrichInsert(t0: Tables, op: Op, read: seq<Enrichment>, t: Tables, e: Enrichment, i: nat, row: EnrichRow)
    requires EnrichProgress(t0, op, read, t) && EnrichmentOf(row) == e && row.updater == op.updater && i !in t.enrich
    requires forall j :: j in t.enrich ==> t.enrich[j].hash != e.hash
    ensures EnrichProgress(t0, op, read + [e],
                           t.(enrich := t.enrich[i := row], uoEnrich := t.uoEnrich + {(t0.opSeq + 1, i)}))
  {
    var enrich' := t.enrich[i := row];
    EnrichInsertGrows(t0.enrich, read, e, t.enrich, i, row);
    PairsAdd(t0.opSeq + 1, RecordIds(t.enrich, read), i);
  }
}

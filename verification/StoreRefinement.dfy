/** The store refines a log of what each operation publishes. */
module StoreRefinement {
  import opened Text
  import opened Advisory
  import opened Tables

  // ---- What a new operation publishes ----

  function BatchEntries(batch: seq<Vuln>): set<Entry> {
    set v | v in batch && Storable(v) :: EntryOf(v)
  }

  function RecordEntries(records: seq<Enrichment>): set<Enrichment> {
    set e | e in records :: e
  }

  /** No record of the batch shares its digest with a differently stored row or record of the batch. */
  ghost predicate NoClash(t: Tables, batch: seq<Vuln>) {
    && (forall v, w :: v in batch && w in batch && Storable(v) && Storable(w) && v.hash == w.hash
          ==> EntryOf(v) == EntryOf(w))
    && (forall v, i :: v in batch && Storable(v) && i in t.vuln && t.vuln[i].hash == v.hash
          ==> Resolve(t.meta, t.vuln[i]) == EntryOf(v))
  }

  lemma RowResolves(meta: map<nat, Meta>, row: VulnRow, v: Vuln)
    requires RowOf(meta, row, v)
    ensures Resolve(meta, row) == EntryOf(v)
  {
  }

  lemma ResolveGrows(t: Tables, meta': map<nat, Meta>, i: nat)
    requires VulnOk(t.meta, t.vuln) && MetaGrows(t.meta, meta') && i in t.vuln
    ensures Resolve(meta', t.vuln[i]) == Resolve(t.meta, t.vuln[i])
  {
    var v :| RowOf(t.meta, t.vuln[i], v);
  }

  /** The row a record of the batch ends up associated with. */
  lemma BatchRow(t: Tables, batch: seq<Vuln>, meta': map<nat, Meta>, vuln': map<nat, VulnRow>, v: Vuln)
    returns (i: nat)
    requires VulnOk(t.meta, t.vuln) && MetaGrows(t.meta, meta') && VulnGrows(t.vuln, batch, meta', vuln')
    requires v in batch && Storable(v)
    ensures i in vuln' && vuln'[i].hash == v.hash && i in BatchIds(vuln', batch)
    ensures NoClash(t, batch) ==> Resolve(meta', vuln'[i]) == EntryOf(v)
  {
    i :| i in vuln' && vuln'[i].hash == v.hash;
    if i in t.vuln {
      ResolveGrows(t, meta', i);
    } else {
      var w :| w in batch && RowOf(meta', vuln'[i], w);
      RowResolves(meta', vuln'[i], w);
    }
  }

  /** The batch is published exactly as handed in if and only if none of its digests clashes. */
  lemma PublishedIffNoClash(t: Tables, batch: seq<Vuln>, meta': map<nat, Meta>, vuln': map<nat, VulnRow>)
    requires VulnOk(t.meta, t.vuln) && MetaGrows(t.meta, meta') && VulnGrows(t.vuln, batch, meta', vuln')
    ensures Entries(meta', vuln', BatchIds(vuln', batch)) == BatchEntries(batch) <==> NoClash(t, batch)
  {
    if NoClash(t, batch) {
      PublishedAll(t, batch, meta', vuln');
    }
    if Entries(meta', vuln', BatchIds(vuln', batch)) == BatchEntries(batch) {
      PublishedClashFree(t, batch, meta', vuln');
    }
  }

  lemma PublishedAll(t: Tables, batch: seq<Vuln>, meta': map<nat, Meta>, vuln': map<nat, VulnRow>)
    requires VulnOk(t.meta, t.vuln) && MetaGrows(t.meta, meta') && VulnGrows(t.vuln, batch, meta', vuln')
    requires NoClash(t, batch)
    ensures Entries(meta', vuln', BatchIds(vuln', batch)) == BatchEntries(batch)
  {
    var got := Entries(meta', vuln', BatchIds(vuln', batch));
    forall e | e in got ensures e in BatchEntries(batch) {
      var i :| i in BatchIds(vuln', batch) && Resolve(meta', vuln'[i]) == e;
      var v :| v in batch && Storable(v) && v.hash == vuln'[i].hash;
      var j := BatchRow(t, batch, meta', vuln', v);
      assert i == j;
    }
    forall e | e in BatchEntries(batch) ensures e in got {
      var v :| v in batch && Storable(v) && EntryOf(v) == e;
      var i := BatchRow(t, batch, meta', vuln', v);
    }
  }

  lemma PublishedClashFree(t: Tables, batch: seq<Vuln>, meta': map<nat, Meta>, vuln': map<nat, VulnRow>)
    requires VulnOk(t.meta, t.vuln) && MetaGrows(t.meta, meta') && VulnGrows(t.vuln, batch, meta', vuln')
    requires BatchEntries(batch) <= Entries(meta', vuln', BatchIds(vuln', batch))
    ensures NoClash(t, batch)
  {
    forall v, i | v in batch && Storable(v) && i in vuln' && vuln'[i].hash == v.hash
      ensures Resolve(meta', vuln'[i]) == EntryOf(v)
    {
      assert EntryOf(v) in BatchEntries(batch);
      var j :| j in BatchIds(vuln', batch) && Resolve(meta', vuln'[j]) == EntryOf(v);
      assert vuln'[j].hash == v.hash;
      assert i == j;
    }
    forall v, w | v in batch && w in batch && Storable(v) && Storable(w) && v.hash == w.hash
      ensures EntryOf(v) == EntryOf(w)
    {
      var i :| i in vuln' && vuln'[i].hash == v.hash;
      assert Resolve(meta', vuln'[i]) == EntryOf(v);
    }
    forall v, i | v in batch && Storable(v) && i in t.vuln && t.vuln[i].hash == v.hash
      ensures Resolve(t.meta, t.vuln[i]) == EntryOf(v)
    {
      ResolveGrows(t, meta', i);
    }
  }

  // ---- What a delta carries forward ----

  predicate IsLatestIn(log: map<nat, Snapshot>, o: nat) {
    o in log && forall p :: p in log && log[p].op.updater == log[o].op.updater ==> p <= o
  }

  /** The entries written for an updater that some updater's latest operation publishes. */
  ghost function OwnLatest(log: map<nat, Snapshot>, updater: string): set<Entry> {
    set o, e | o in log && IsLatestIn(log, o) && log[o].content.Vulns? && e in log[o].content.entries
               && e.updater == updater :: e
  }

  function Survivors(c: Content, batch: seq<Vuln>, deleted: seq<string>): set<Entry> {
    if c.Vulns? then set e | e in c.entries && !Named(batch, e.name) && e.name !in deleted else {}
  }

  /** What a vulnerability update publishes, from what the log says is published. */
  ghost function AfterUpdate(log: map<nat, Snapshot>, updater: string, batch: seq<Vuln>,
                             deleted: Option<seq<string>>): Content {
    Vulns((if deleted.Some? then Survivors(Vulns(OwnLatest(log, updater)), batch, deleted.value) else {})
          + BatchEntries(batch))
  }

  /** What an updater publishes after a vulnerability update, from what it published before. */
  function AfterVulns(prev: Option<Content>, batch: seq<Vuln>, deleted: Option<seq<string>>): Content {
    Vulns((if prev.Some? && deleted.Some? then Survivors(prev.value, batch, deleted.value) else {})
          + BatchEntries(batch))
  }

  lemma LatestInLog(t: Tables, o: nat)
    ensures IsLatestIn(Log(t), o) <==> IsLatest(t.ops, o)
  {
    if IsLatestIn(Log(t), o) {
      forall p | p in t.ops && t.ops[p].updater == t.ops[o].updater ensures p <= o {
        assert p in Log(t);
      }
    }
  }

  lemma ExistingIsOwn(t: Tables, u: string, i: nat)
    requires AssocOk(t) && i in Existing(t, u)
    ensures Resolve(t.meta, t.vuln[i]) in OwnLatest(Log(t), u)
  {
    var a :| a in t.uoVuln && a.1 == i && IsLatest(t.ops, a.0);
    LatestInLog(t, a.0);
    assert i in IdsOf(t.uoVuln, a.0);
    assert Resolve(t.meta, t.vuln[i]) in Log(t)[a.0].content.entries;
  }

  lemma OwnIsExisting(t: Tables, u: string, e: Entry) returns (i: nat)
    requires AssocOk(t) && e in OwnLatest(Log(t), u)
    ensures i in Existing(t, u) && Resolve(t.meta, t.vuln[i]) == e
  {
    var o :| o in Log(t) && IsLatestIn(Log(t), o) && Log(t)[o].content.Vulns? && e in Log(t)[o].content.entries;
    LatestInLog(t, o);
    i :| i in IdsOf(t.uoVuln, o) && i in t.vuln && Resolve(t.meta, t.vuln[i]) == e;
    assert (o, i) in t.uoVuln;
  }

  /** The rows selected before a delta hold exactly the entries this updater wrote that any latest operation
      publishes. */
  lemma ExistingEntries(t: Tables, u: string)
    requires AssocOk(t)
    ensures Entries(t.meta, t.vuln, Existing(t, u)) == OwnLatest(Log(t), u)
  {
    forall e | e in Entries(t.meta, t.vuln, Existing(t, u)) ensures e in OwnLatest(Log(t), u) {
      var i :| i in Existing(t, u) && Resolve(t.meta, t.vuln[i]) == e;
      ExistingIsOwn(t, u, i);
    }
    forall e | e in OwnLatest(Log(t), u) ensures e in Entries(t.meta, t.vuln, Existing(t, u)) {
      var i := OwnIsExisting(t, u, e);
    }
  }

  /** What a delta carries forward, in every store: those entries, except where the name occurs in the batch or in
      the deletion list. */
  lemma CarriedSurvives(t: Tables, u: string, batch: seq<Vuln>, deleted: seq<string>)
    requires AssocOk(t)
    ensures Entries(t.meta, t.vuln, Carried(t, u, batch, deleted))
            == Survivors(Vulns(OwnLatest(Log(t), u)), batch, deleted)
  {
    ExistingEntries(t, u);
    SelectByName(t.meta, t.vuln, Existing(t, u), Carried(t, u, batch, deleted), batch, deleted);
  }

  /** The rows selected are those of the updater's latest operation if and only if that operation holds no other
      updater's rows, and no other latest operation holds a row of this updater that it does not hold. */
  lemma ExistingIsLatestIff(t: Tables, o: nat)
    requires AssocOk(t) && IsLatest(t.ops, o) && t.ops[o].kind == VulnerabilityKind
    ensures Existing(t, t.ops[o].updater) == IdsOf(t.uoVuln, o) <==>
              && (forall i :: i in IdsOf(t.uoVuln, o) ==> t.vuln[i].updater == t.ops[o].updater)
              && (forall a :: a in t.uoVuln && IsLatest(t.ops, a.0) && t.vuln[a.1].updater == t.ops[o].updater
                    ==> a.1 in IdsOf(t.uoVuln, o))
  {
    var u, got, own := t.ops[o].updater, Existing(t, t.ops[o].updater), IdsOf(t.uoVuln, o);
    forall a | a in t.uoVuln && IsLatest(t.ops, a.0) && t.vuln[a.1].updater == u ensures a.1 in got {}
    forall i | i in own && t.vuln[i].updater == u ensures i in got {
      assert (o, i) in t.uoVuln;
    }
  }

  lemma SelectByName(meta: map<nat, Meta>, vuln: map<nat, VulnRow>, all: set<nat>, some: set<nat>,
                     batch: seq<Vuln>, deleted: seq<string>)
    requires some == set i | i in all && i in vuln
                             && !Named(batch, Value(meta, vuln[i].nameId)) && Value(meta, vuln[i].nameId) !in deleted
    ensures Entries(meta, vuln, some) == Survivors(Vulns(Entries(meta, vuln, all)), batch, deleted)
  {
    forall e | e in Survivors(Vulns(Entries(meta, vuln, all)), batch, deleted) ensures e in Entries(meta, vuln, some) {
      var i :| i in all && i in vuln && Resolve(meta, vuln[i]) == e;
      assert i in some;
    }
  }

  lemma EntriesUnion(meta: map<nat, Meta>, vuln: map<nat, VulnRow>, a: set<nat>, b: set<nat>)
    ensures Entries(meta, vuln, a + b) == Entries(meta, vuln, a) + Entries(meta, vuln, b)
  {
  }

  lemma EntriesGrow(t: Tables, batch: seq<Vuln>, meta': map<nat, Meta>, vuln': map<nat, VulnRow>, ids: set<nat>)
    requires VulnOk(t.meta, t.vuln) && MetaGrows(t.meta, meta') && VulnGrows(t.vuln, batch, meta', vuln')
    requires ids <= t.vuln.Keys
    ensures Entries(meta', vuln', ids) == Entries(t.meta, t.vuln, ids)
  {
    forall i | i in ids ensures Resolve(meta', vuln'[i]) == Resolve(t.meta, t.vuln[i]) {
      ResolveGrows(t, meta', i);
    }
  }

  // ---- The effect of each update on the log ----

  lemma NewIds(t: Tables, op: Op, batch: seq<Vuln>, deleted: Option<seq<string>>, t': Tables)
    requires OpsOk(t) && AssocOk(t) && VulnStep(t, op, batch, deleted, t')
    ensures IdsOf(t'.uoVuln, t.opSeq + 1)
            == (if deleted.Some? then Carried(t, op.updater, batch, deleted.value) else {})
               + BatchIds(t'.vuln, batch)
  {
    var n := t.opSeq + 1;
    var ids := (if deleted.Some? then Carried(t, op.updater, batch, deleted.value) else {})
               + BatchIds(t'.vuln, batch);
    forall i | i in ids ensures i in IdsOf(t'.uoVuln, n) {
      assert (n, i) in t'.uoVuln;
    }
  }

  lemma NewContent(t: Tables, op: Op, batch: seq<Vuln>, deleted: Option<seq<string>>, t': Tables)
    requires Inv(t) && VulnStep(t, op, batch, deleted, t')
    ensures ContentOf(t', t.opSeq + 1) ==
            Vulns(Entries(t.meta, t.vuln, if deleted.Some? then Carried(t, op.updater, batch, deleted.value) else {})
                  + Entries(t'.meta, t'.vuln, BatchIds(t'.vuln, batch)))
  {
    var carried := if deleted.Some? then Carried(t, op.updater, batch, deleted.value) else {};
    NewIds(t, op, batch, deleted, t');
    EntriesUnion(t'.meta, t'.vuln, carried, BatchIds(t'.vuln, batch));
    EntriesGrow(t, batch, t'.meta, t'.vuln, carried);
  }

  /** What a committed update publishes, in every store: what carries forward, and the rows its batch leads to; and
      these are the batch itself if and only if no digest clashes. */
  lemma VulnStepContent(t: Tables, op: Op, batch: seq<Vuln>, deleted: Option<seq<string>>, t': Tables)
    requires Inv(t) && VulnStep(t, op, batch, deleted, t')
    ensures ContentOf(t', t.opSeq + 1) ==
            Vulns((if deleted.Some? then Survivors(Vulns(OwnLatest(Log(t), op.updater)), batch, deleted.value) else {})
                  + Entries(t'.meta, t'.vuln, BatchIds(t'.vuln, batch)))
    ensures Entries(t'.meta, t'.vuln, BatchIds(t'.vuln, batch)) == BatchEntries(batch) <==> NoClash(t, batch)
  {
    NewContent(t, op, batch, deleted, t');
    if deleted.Some? {
      CarriedSurvives(t, op.updater, batch, deleted.value);
    }
    PublishedIffNoClash(t, batch, t'.meta, t'.vuln);
  }

  // ---- Enrichments ----

  /** No record shares its digest with a differently stored row or record of the batch. */
  ghost predicate NoEnrichClash(enrich: map<nat, EnrichRow>, records: seq<Enrichment>) {
    && (forall d, e :: d in records && e in records && d.hash == e.hash ==> d == e)
    && (forall e, i :: e in records && i in enrich && enrich[i].hash == e.hash ==> EnrichmentOf(enrich[i]) == e)
  }

  /** A committed enrichment update publishes its records, exactly when none of their digests clashes. */
  lemma EnrichStepContent(t: Tables, op: Op, records: seq<Enrichment>, t': Tables)
    requires Inv(t) && EnrichStep(t, op, records, t')
    ensures ContentOf(t', t.opSeq + 1) == Enrichments(EnrichEntries(t'.enrich, RecordIds(t'.enrich, records)))
    ensures ContentOf(t', t.opSeq + 1) == Enrichments(RecordEntries(records)) <==> NoEnrichClash(t.enrich, records)
  {
    var ids := RecordIds(t'.enrich, records);
    assert IdsOf(t'.uoEnrich, t.opSeq + 1) == ids by {
      forall i | i in ids ensures i in IdsOf(t'.uoEnrich, t.opSeq + 1) {
        assert (t.opSeq + 1, i) in t'.uoEnrich;
      }
    }
    if NoEnrichClash(t.enrich, records) {
      RecordsPublished(t.enrich, records, t'.enrich);
    }
    if EnrichEntries(t'.enrich, ids) == RecordEntries(records) {
      RecordsClashFree(t.enrich, records, t'.enrich);
    }
  }

  lemma RecordRow(enrich: map<nat, EnrichRow>, records: seq<Enrichment>, enrich': map<nat, EnrichRow>, e: Enrichment)
    returns (i: nat)
    requires EnrichGrows(enrich, records, enrich') && e in records
    ensures i in enrich' && enrich'[i].hash == e.hash && i in RecordIds(enrich', records)
    ensures NoEnrichClash(enrich, records) ==> EnrichmentOf(enrich'[i]) == e
  {
    assert EnrichHasHash(enrich', e.hash);
    i :| i in enrich' && enrich'[i].hash == e.hash;
    assert i !in enrich ==> EnrichmentOf(enrich'[i]) in records;
  }

  lemma RecordsPublished(enrich: map<nat, EnrichRow>, records: seq<Enrichment>, enrich': map<nat, EnrichRow>)
    requires EnrichGrows(enrich, records, enrich') && NoEnrichClash(enrich, records)
    ensures EnrichEntries(enrich', RecordIds(enrich', records)) == RecordEntries(records)
  {
    forall x | x in EnrichEntries(enrich', RecordIds(enrich', records)) ensures x in RecordEntries(records) {
      var i :| i in RecordIds(enrich', records) && x == EnrichmentOf(enrich'[i]);
      var e :| e in records && e.hash == enrich'[i].hash;
      var j := RecordRow(enrich, records, enrich', e);
      assert i == j;
    }
    forall x | x in RecordEntries(records) ensures x in EnrichEntries(enrich', RecordIds(enrich', records)) {
      var j := RecordRow(enrich, records, enrich', x);
    }
  }

  lemma RecordsClashFree(enrich: map<nat, EnrichRow>, records: seq<Enrichment>, enrich': map<nat, EnrichRow>)
    requires EnrichGrows(enrich, records, enrich')
    requires RecordEntries(records) <= EnrichEntries(enrich', RecordIds(enrich', records))
    ensures NoEnrichClash(enrich, records)
  {
    forall e, i | e in records && i in enrich' && enrich'[i].hash == e.hash ensures EnrichmentOf(enrich'[i]) == e {
      assert e in RecordEntries(records);
      var j :| j in RecordIds(enrich', records) && EnrichmentOf(enrich'[j]) == e;
      assert i == j;
    }
    forall d, e | d in records && e in records && d.hash == e.hash ensures d == e {
      var i := RecordRow(enrich, records, enrich', d);
    }
    forall e, i | e in records && i in enrich && enrich[i].hash == e.hash ensures EnrichmentOf(enrich[i]) == e {
      assert i in enrich' && enrich'[i] == enrich[i];
    }
  }

  // ---- What an updater publishes ----

  /** What an updater publishes: the content of its latest operation. */
  ghost predicate Publishes(t: Tables, updater: string, c: Option<Content>) {
    match c
    case None => forall o :: o in t.ops ==> t.ops[o].updater != updater
    case Some(content) =>
      exists o :: IsLatest(t.ops, o) && t.ops[o].updater == updater && ContentOf(t, o) == content
  }
}

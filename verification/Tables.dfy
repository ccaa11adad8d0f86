/** The matcher store's tables, what each transaction does to them, and what every transaction keeps. */
module Tables {
  import opened Text
  import opened Advisory

  datatype Kind = VulnerabilityKind | EnrichmentKind

  datatype Op = Op(ref: string, updater: string, fingerprint: string, kind: Kind, date: int)

  datatype MetaKind = NameMeta | DescriptionMeta

  datatype Meta = Meta(kind: MetaKind, hash: Digest, value: string)

  datatype VulnRow = VulnRow(hash: Digest, updater: string, nameId: nat, descId: nat, cols: Columns)

  datatype EnrichRow = EnrichRow(hash: Digest, updater: string, tags: string, data: string)

  /** One value per table. `opSeq` is the AUTOINCREMENT counter of update_operation; the other row ids are
      plain INTEGER PRIMARY KEYs, so an id may come back after its row is deleted. */
  datatype Tables = Tables(
    ops: map<nat, Op>, opSeq: nat, meta: map<nat, Meta>, vuln: map<nat, VulnRow>, uoVuln: set<(nat, nat)>,
    enrich: map<nat, EnrichRow>, uoEnrich: set<(nat, nat)>)

  const EMPTY := Tables(map[], 0, map[], map[], {}, map[], {})

  // ---- Integrity ----

  ghost predicate OpsOk(t: Tables) {
    && (forall o :: o in t.ops ==> o <= t.opSeq)
    && (forall o, p :: o in t.ops && p in t.ops && t.ops[o].ref == t.ops[p].ref ==> o == p)
  }

  /** UNIQUE (kind, hash_kind, hash), and every hash is the digest of its value. */
  ghost predicate MetaOk(meta: map<nat, Meta>) {
    && (forall i :: i in meta ==> meta[i].hash == Md5(meta[i].value))
    && (forall i, j :: i in meta && j in meta && meta[i].kind == meta[j].kind && meta[i].hash == meta[j].hash
          ==> i == j)
  }

  predicate IsMeta(meta: map<nat, Meta>, id: nat, kind: MetaKind, value: string) {
    id in meta && meta[id].kind == kind && meta[id].value == value
  }

  /** The row was written for record `v`, and its name_id and description_id lead to that record's name and
      description. */
  predicate RowOf(meta: map<nat, Meta>, row: VulnRow, v: Vuln) {
    && Storable(v)
    && row.hash == v.hash && row.updater == v.updater && row.cols == v.cols.value
    && IsMeta(meta, row.nameId, NameMeta, v.name)
    && IsMeta(meta, row.descId, DescriptionMeta, v.description)
  }

  ghost predicate VulnOk(meta: map<nat, Meta>, vuln: map<nat, VulnRow>) {
    forall i :: i in vuln ==> exists v :: RowOf(meta, vuln[i], v)
  }

  ghost predicate VulnUnique(vuln: map<nat, VulnRow>) {
    forall i, j :: i in vuln && j in vuln && vuln[i].hash == vuln[j].hash ==> i == j
  }

  function EnrichmentOf(row: EnrichRow): Enrichment { Enrichment(row.hash, row.tags, row.data) }

  ghost predicate EnrichUnique(enrich: map<nat, EnrichRow>) {
    forall i, j :: i in enrich && j in enrich && enrich[i].hash == enrich[j].hash ==> i == j
  }

  /** The foreign keys of the two association tables, and that each belongs to operations of its own kind. */
  ghost predicate AssocOk(t: Tables) {
    && (forall a :: a in t.uoVuln ==> a.0 in t.ops && t.ops[a.0].kind == VulnerabilityKind && a.1 in t.vuln)
    && (forall a :: a in t.uoEnrich ==> a.0 in t.ops && t.ops[a.0].kind == EnrichmentKind && a.1 in t.enrich)
  }

  ghost predicate Inv(t: Tables) {
    && OpsOk(t) && MetaOk(t.meta) && VulnOk(t.meta, t.vuln) && VulnUnique(t.vuln) && EnrichUnique(t.enrich)
    && AssocOk(t)
  }

  // ---- What is associated with an operation ----

  function Value(meta: map<nat, Meta>, id: nat): string { if id in meta then meta[id].value else "" }

  function Resolve(meta: map<nat, Meta>, row: VulnRow): Entry {
    Entry(row.hash, row.updater, Value(meta, row.nameId), Value(meta, row.descId), row.cols)
  }

  function IdsOf(assoc: set<(nat, nat)>, o: nat): set<nat> {
    set a | a in assoc && a.0 == o :: a.1
  }

  function Entries(meta: map<nat, Meta>, vuln: map<nat, VulnRow>, ids: set<nat>): set<Entry> {
    set i | i in ids && i in vuln :: Resolve(meta, vuln[i])
  }

  function EnrichEntries(enrich: map<nat, EnrichRow>, ids: set<nat>): set<Enrichment> {
    set i | i in ids && i in enrich :: EnrichmentOf(enrich[i])
  }

  /** What one operation publishes. */
  datatype Content = Vulns(entries: set<Entry>) | Enrichments(records: set<Enrichment>)

  function ContentOf(t: Tables, o: nat): Content
    requires o in t.ops
  {
    if t.ops[o].kind == VulnerabilityKind then Vulns(Entries(t.meta, t.vuln, IdsOf(t.uoVuln, o)))
    else Enrichments(EnrichEntries(t.enrich, IdsOf(t.uoEnrich, o)))
  }

  datatype Snapshot = Snapshot(op: Op, content: Content)

  /** The store with ids, interning and sharing forgotten: what each operation publishes. */
  function Log(t: Tables): map<nat, Snapshot> {
    map o | o in t.ops :: Snapshot(t.ops[o], ContentOf(t, o))
  }

  // ---- The latest_update_operations view ----

  predicate IsLatest(ops: map<nat, Op>, o: nat) {
    o in ops && forall p :: p in ops && ops[p].updater == ops[o].updater ==> p <= o
  }

  /** The rows updateVulnerabilities selects before a delta: any row of this updater that some latest
      vulnerability operation is associated with. */
  function Existing(t: Tables, updater: string): set<nat> {
    set a | a in t.uoVuln && a.1 in t.vuln && IsLatest(t.ops, a.0) && t.ops[a.0].kind == VulnerabilityKind
            && t.vuln[a.1].updater == updater :: a.1
  }

  predicate Named(batch: seq<Vuln>, name: string) { exists v :: v in batch && v.name == name }

  function Carried(t: Tables, updater: string, batch: seq<Vuln>, deleted: seq<string>): set<nat> {
    set i | i in Existing(t, updater) && i in t.vuln
            && !Named(batch, Value(t.meta, t.vuln[i].nameId)) && Value(t.meta, t.vuln[i].nameId) !in deleted
  }

  // ---- Transactions, as relations between the tables before and after ----

  function Pairs(o: nat, ids: set<nat>): set<(nat, nat)> { set i | i in ids :: (o, i) }

  predicate BatchHash(batch: seq<Vuln>, h: Digest) {
    exists v :: v in batch && Storable(v) && v.hash == h
  }

  function BatchIds(vuln: map<nat, VulnRow>, batch: seq<Vuln>): set<nat> {
    set i | i in vuln && BatchHash(batch, vuln[i].hash)
  }

  ghost predicate MetaGrows(meta: map<nat, Meta>, meta': map<nat, Meta>) {
    MetaOk(meta') && forall i :: i in meta ==> i in meta' && meta'[i] == meta[i]
  }

  ghost predicate VulnKept(vuln: map<nat, VulnRow>, vuln': map<nat, VulnRow>) {
    forall i :: i in vuln ==> i in vuln' && vuln'[i] == vuln[i]
  }

  ghost predicate FromBatch(vuln: map<nat, VulnRow>, batch: seq<Vuln>, meta': map<nat, Meta>,
                            vuln': map<nat, VulnRow>) {
    forall i :: i in vuln' && i !in vuln ==> exists v :: v in batch && RowOf(meta', vuln'[i], v)
  }

  ghost predicate HasHash(vuln: map<nat, VulnRow>, h: Digest) { exists i :: i in vuln && vuln[i].hash == h }

  ghost predicate Covers(vuln: map<nat, VulnRow>, batch: seq<Vuln>) {
    forall v :: v in batch && Storable(v) ==> HasHash(vuln, v.hash)
  }

  /** Rows are only added, one for each new digest of the batch, and only for records of the batch. */
  ghost predicate VulnGrows(vuln: map<nat, VulnRow>, batch: seq<Vuln>, meta': map<nat, Meta>,
                            vuln': map<nat, VulnRow>) {
    VulnUnique(vuln') && VulnKept(vuln, vuln') && FromBatch(vuln, batch, meta', vuln') && Covers(vuln', batch)
  }

  predicate FreshRef(ops: map<nat, Op>, ref: string) { forall o :: o in ops ==> ops[o].ref != ref }

  /** A committed full update (no deletion list) or delta update (with one). */
  ghost predicate VulnStep(t: Tables, op: Op, batch: seq<Vuln>, deleted: Option<seq<string>>, t': Tables) {
    var n := t.opSeq + 1;
    && op.kind == VulnerabilityKind && FreshRef(t.ops, op.ref)
    && t'.ops == t.ops[n := op] && t'.opSeq == n
    && MetaGrows(t.meta, t'.meta)
    && VulnGrows(t.vuln, batch, t'.meta, t'.vuln)
    && t'.uoVuln == t.uoVuln
         + Pairs(n, if deleted.Some? then Carried(t, op.updater, batch, deleted.value) else {})
         + Pairs(n, BatchIds(t'.vuln, batch))
    && t'.enrich == t.enrich && t'.uoEnrich == t.uoEnrich
  }

  predicate RecordHash(records: seq<Enrichment>, h: Digest) {
    exists e :: e in records && e.hash == h
  }

  function RecordIds(enrich: map<nat, EnrichRow>, records: seq<Enrichment>): set<nat> {
    set i | i in enrich && RecordHash(records, enrich[i].hash)
  }

  ghost predicate EnrichKept(enrich: map<nat, EnrichRow>, enrich': map<nat, EnrichRow>) {
    forall i :: i in enrich ==> i in enrich' && enrich'[i] == enrich[i]
  }

  ghost predicate FromRecords(enrich: map<nat, EnrichRow>, records: seq<Enrichment>, enrich': map<nat, EnrichRow>) {
    forall i :: i in enrich' && i !in enrich ==> EnrichmentOf(enrich'[i]) in records
  }

  ghost predicate EnrichHasHash(enrich: map<nat, EnrichRow>, h: Digest) {
    exists i :: i in enrich && enrich[i].hash == h
  }

  ghost predicate EnrichCovers(enrich: map<nat, EnrichRow>, records: seq<Enrichment>) {
    forall e :: e in records ==> EnrichHasHash(enrich, e.hash)
  }

  ghost predicate EnrichGrows(enrich: map<nat, EnrichRow>, records: seq<Enrichment>,
                              enrich': map<nat, EnrichRow>) {
    && EnrichUnique(enrich') && EnrichKept(enrich, enrich') && FromRecords(enrich, records, enrich')
    && EnrichCovers(enrich', records)
  }

  /** The rows that are new carry this updater's name. */
  ghost predicate WrittenBy(enrich: map<nat, EnrichRow>, updater: string, enrich': map<nat, EnrichRow>) {
    forall i :: i in enrich' && i !in enrich ==> enrich'[i].updater == updater
  }

  /** A committed enrichment update. */
  ghost predicate EnrichStep(t: Tables, op: Op, records: seq<Enrichment>, t': Tables) {
    var n := t.opSeq + 1;
    && op.kind == EnrichmentKind && FreshRef(t.ops, op.ref)
    && t'.ops == t.ops[n := op] && t'.opSeq == n
    && EnrichGrows(t.enrich, records, t'.enrich) && WrittenBy(t.enrich, op.updater, t'.enrich)
    && t'.uoEnrich == t.uoEnrich + Pairs(n, RecordIds(t'.enrich, records))
    && t'.meta == t.meta && t'.vuln == t.vuln && t'.uoVuln == t.uoVuln
  }

  /** DELETE FROM update_operation, cascading to the two association tables. */
  function KeepOps(t: Tables, kept: set<nat>): Tables {
    t.(ops := (map o | o in t.ops && o in kept :: t.ops[o]),
       uoVuln := (set a | a in t.uoVuln && a.0 in kept),
       uoEnrich := (set a | a in t.uoEnrich && a.0 in kept))
  }

  predicate Unreferenced(assoc: set<(nat, nat)>, i: nat) { forall a :: a in assoc ==> a.1 != i }

  /** Some unreferenced rows are gone and nothing else changed. */
  ghost predicate Swept(t: Tables, t': Tables) {
    && t' == t.(vuln := t'.vuln, enrich := t'.enrich)
    && (forall i :: i in t'.vuln ==> i in t.vuln && t'.vuln[i] == t.vuln[i])
    && (forall i :: i in t.vuln && i !in t'.vuln ==> Unreferenced(t.uoVuln, i))
    && (forall i :: i in t'.enrich ==> i in t.enrich && t'.enrich[i] == t.enrich[i])
    && (forall i :: i in t.enrich && i !in t'.enrich ==> Unreferenced(t.uoEnrich, i))
  }

  predicate Registered(ops: map<nat, Op>, updater: string, kind: Kind) {
    exists o :: o in ops && ops[o].updater == updater && ops[o].kind == kind
  }

  /** No unreferenced row of an updater that still has an operation of the row's kind. */
  ghost predicate Clean(t: Tables) {
    && (forall i :: i in t.vuln && Registered(t.ops, t.vuln[i].updater, VulnerabilityKind)
          ==> !Unreferenced(t.uoVuln, i))
    && (forall i :: i in t.enrich && Registered(t.ops, t.enrich[i].updater, EnrichmentKind)
          ==> !Unreferenced(t.uoEnrich, i))
  }

  // ---- Garbage collection ----

  function Min(a: nat, b: nat): nat { if a < b then a else b }

  function OpsOf(ops: map<nat, Op>, updater: string): set<nat> {
    set o | o in ops && ops[o].updater == updater
  }

  /** For each updater, the first `keep` operations of some listing by descending date. The query leaves the
      order of equal dates open. */
  ghost predicate ValidCut(ops: map<nat, Op>, keep: nat, kept: set<nat>) {
    && kept <= ops.Keys
    && (forall u :: |OpsOf(ops, u) * kept| == Min(|OpsOf(ops, u)|, keep))
    && (forall a, b :: a in kept && b in ops && b !in kept && ops[a].updater == ops[b].updater
          ==> ops[b].date <= ops[a].date)
  }

  /** Only rows of updaters that still have an operation of the row's kind are gone. */
  ghost predicate OnlyRegistered(t: Tables, t': Tables) {
    && (forall i :: i in t.vuln && i !in t'.vuln ==> Registered(t.ops, t.vuln[i].updater, VulnerabilityKind))
    && (forall i :: i in t.enrich && i !in t'.enrich ==> Registered(t.ops, t.enrich[i].updater, EnrichmentKind))
  }

  /** A garbage collection that ran to its end, or (not `done`) stopped at some statement that failed. */
  ghost predicate GcStep(t: Tables, keep: nat, done: bool, kept: set<nat>, t': Tables) {
    && (ValidCut(t.ops, keep, kept) || (!done && kept == t.ops.Keys))
    && Swept(KeepOps(t, kept), t') && OnlyRegistered(KeepOps(t, kept), t')
    && (done ==> Clean(t'))
  }

  /** Within an updater, a later operation has a later date. */
  ghost predicate DatesFollowIds(ops: map<nat, Op>) {
    forall o, p :: o in ops && p in ops && ops[o].updater == ops[p].updater && o < p ==> ops[o].date < ops[p].date
  }

  /** The operations DELETE ... WHERE ref IN (refs) leaves. */
  function NotReferenced(ops: map<nat, Op>, refs: seq<string>): set<nat> {
    set o | o in ops && ops[o].ref !in refs
  }
}

/** What becomes of the records that callers hand in: what is stored of each and how it is read back, what an update
    publishes of a batch, and which rows a collection removes. */
module Records {
  import opened Text
  import opened Advisory
  import opened Tables
  import opened StoreIntegrity
  import opened StoreRefinement
  import opened StoreLog
  import opened MatcherStore
  import opened Query

  // ---- One record, written and read ----

  /** A record as a client of Get sees it. */
  datatype Read = Read(
    name: string, description: string, issued: string, links: string, severity: string, normalizedSeverity: string,
    pkg: Advisory.Package, dist: Distribution, archOperation: string, repo: Repository, fixedIn: string,
    updater: string)

  /** A result row after its hash, in the order of the select list. */
  function Cells(e: Entry): (cells: seq<string>)
    ensures |cells| == 25
  {
    var c := e.cols;
    [e.name, e.description, c.issued, c.links, c.severity, c.normalizedSeverity]
    + [c.pkg.name, c.pkg.version, c.pkg.mod, c.pkg.arch, c.pkg.kind]
    + [c.dist.did, c.dist.name, c.dist.version, c.dist.versionCodeName, c.dist.versionId, c.dist.arch, c.dist.cpe,
       c.dist.prettyName]
    + [c.archOperation, c.repo.name, c.repo.key, c.repo.uri, c.fixedIn, e.updater]
  }

  /** rows.Scan, cell by cell. */
  function Scan(c: seq<string>): Read
    requires |c| == 25
  {
    Read(c[0], c[1], c[2], c[3], c[4], c[5], Advisory.Package(c[6], c[7], c[8], c[9], c[10]),
         Distribution(c[11], c[12], c[13], c[14], c[15], c[16], c[17], c[18]), c[19],
         Repository(c[20], c[21], c[22]), c[23], c[24])
  }

  /** The reading shows the record, a missing distribution or repository as an empty one. */
  ghost predicate Shows(r: Read, v: Vulnerability) {
    && r.name == v.name && r.description == v.description && r.updater == v.updater
    && r.issued == v.issued.rfc3339 && r.links == v.links
    && r.severity == v.severity && r.normalizedSeverity == v.normalizedSeverity
    && Some(r.pkg) == v.pkg && r.fixedIn == v.fixedIn && r.archOperation == v.archOperation
    && r.dist == (if v.dist.Some? then v.dist.value else Distribution("", "", "", "", "", "", "", ""))
    && r.repo == (if v.repo.Some? then v.repo.value else Repository("", "", ""))
  }

  /** The entry is what is stored of the record. */
  ghost predicate StoredAs(v: Vulnerability, e: Entry) {
    && e.hash == Md5(VulnBytes(v)) && Shows(Scan(Cells(e)), v)
    && e.cols.versionKind == VR.FormatOf(v.range).kind && e.cols.range == VR.RangeColumn(v.range)
  }

  /** A record for which a row is written. */
  predicate Publishable(v: Vulnerability) { !v.invert && v.pkg.Some? && v.pkg.value.name != "" }

  lemma PublishableIsStorable(v: Vulnerability)
    ensures Storable(Digested(v)) <==> Publishable(v)
    ensures Digested(v).name == v.name && Digested(v).hash == Md5(VulnBytes(v))
  {
  }

  lemma StoredIff(v: Vulnerability, e: Entry)
    requires Publishable(v)
    ensures StoredAs(v, e) <==> e == EntryOf(Digested(v))
  {
    var r := Scan(Cells(e));
    assert r.pkg == e.cols.pkg && r.dist == e.cols.dist && r.repo == e.cols.repo;
  }

  // ---- A batch of records ----

  ghost predicate Handed(items: seq<Yield<Vulnerability>>, v: Vulnerability) {
    exists k :: 0 <= k < |items| && items[k].Record? && items[k].record == v
  }

  lemma {:induction false} BatchMembers(items: seq<Yield<Vulnerability>>, d: Vuln)
    requires AllRecords(items)
    ensures d in Batch(items) <==> exists v :: Handed(items, v) && Digested(v) == d
  {
    if items != [] {
      var n := |items| - 1;
      BatchMembers(items[..n], d);
      assert items == items[..n] + [items[n]];
      forall v ensures Handed(items, v) <==> Handed(items[..n], v) || items[n].record == v {
        if Handed(items, v) {
          var k :| 0 <= k < |items| && items[k].record == v;
          assert k < n ==> items[..n][k].record == v;
        }
        if Handed(items[..n], v) {
          var k :| 0 <= k < n && items[..n][k].record == v;
          assert items[k].record == v;
        }
      }
    }
  }

  lemma BatchNames(items: seq<Yield<Vulnerability>>, name: string)
    requires AllRecords(items)
    ensures Named(Batch(items), name) <==> exists v :: Handed(items, v) && v.name == name
  {
    if d :| d in Batch(items) && d.name == name {
      BatchMembers(items, d);
      var v :| Handed(items, v) && Digested(v) == d;
      PublishableIsStorable(v);
    }
    if v :| Handed(items, v) && v.name == name {
      BatchMembers(items, Digested(v));
      PublishableIsStorable(v);
    }
  }

  lemma BatchStored(items: seq<Yield<Vulnerability>>, e: Entry)
    requires AllRecords(items)
    ensures e in BatchEntries(Batch(items)) <==> exists v :: Handed(items, v) && Publishable(v) && StoredAs(v, e)
  {
    if d :| d in Batch(items) && Storable(d) && EntryOf(d) == e {
      BatchMembers(items, d);
      var v :| Handed(items, v) && Digested(v) == d;
      PublishableIsStorable(v);
      StoredIff(v, e);
    }
    if v :| Handed(items, v) && Publishable(v) && StoredAs(v, e) {
      BatchMembers(items, Digested(v));
      PublishableIsStorable(v);
      StoredIff(v, e);
    }
  }

  /** What stays of what was published before: entries that the updater wrote and some latest operation publishes,
      whose name is in no record handed in and not deleted. */
  ghost predicate Stays(t: Tables, op: Op, items: seq<Yield<Vulnerability>>, deleted: Option<seq<string>>, e: Entry) {
    && deleted.Some? && e in OwnLatest(Log(t), op.updater) && e.name !in deleted.value
    && forall v :: Handed(items, v) ==> v.name != e.name
  }

  lemma StaysIff(t: Tables, op: Op, items: seq<Yield<Vulnerability>>, deleted: seq<string>, e: Entry)
    requires AllRecords(items)
    ensures e in Survivors(Vulns(OwnLatest(Log(t), op.updater)), Batch(items), deleted) <==>
            Stays(t, op, items, Some(deleted), e)
  {
    BatchNames(items, e.name);
  }

  /** What an update publishes, on the records handed in, when no digest clashes: what stays, and every record that is
      not inverted and has a package name, as it is. */
  lemma UpdatePublishes(t: Tables, op: Op, items: seq<Yield<Vulnerability>>, deleted: Option<seq<string>>, t': Tables,
                        e: Entry)
    requires Inv(t) && AllRecords(items) && VulnStep(t, op, Batch(items), deleted, t') && NoClash(t, Batch(items))
    ensures t'.opSeq in t'.ops && ContentOf(t', t'.opSeq).Vulns?
    ensures e in ContentOf(t', t'.opSeq).entries <==>
              || Stays(t, op, items, deleted, e)
              || exists v :: Handed(items, v) && Publishable(v) && StoredAs(v, e)
  {
    VulnStepContent(t, op, Batch(items), deleted, t');
    BatchStored(items, e);
    if deleted.Some? {
      StaysIff(t, op, items, deleted.value, e);
    }
  }

  lemma LedEntries(t: Tables, batch: seq<Vuln>, e: Entry)
    requires e in Entries(t.meta, t.vuln, BatchIds(t.vuln, batch))
    ensures exists d :: d in batch && Storable(d) && d.hash == e.hash
  {
    var i :| i in BatchIds(t.vuln, batch) && Resolve(t.meta, t.vuln[i]) == e;
  }

  /** Whatever clashes: an entry whose name is in a record handed in or deleted is published after a delta only if a
      record with its digest was handed in. */
  lemma EvictedByName(t: Tables, op: Op, items: seq<Yield<Vulnerability>>, deleted: seq<string>, t': Tables, e: Entry)
    requires Inv(t) && AllRecords(items) && VulnStep(t, op, Batch(items), Some(deleted), t')
    requires t'.opSeq in t'.ops && ContentOf(t', t'.opSeq).Vulns? && e in ContentOf(t', t'.opSeq).entries
    requires e.name in deleted || exists v :: Handed(items, v) && v.name == e.name
    ensures exists v :: Handed(items, v) && Publishable(v) && Md5(VulnBytes(v)) == e.hash
  {
    VulnStepContent(t, op, Batch(items), Some(deleted), t');
    StaysIff(t, op, items, deleted, e);
    LedEntries(t', Batch(items), e);
    var d :| d in Batch(items) && Storable(d) && d.hash == e.hash;
    BatchMembers(items, d);
    var v :| Handed(items, v) && Digested(v) == d;
    PublishableIsStorable(v);
  }

  // ---- Where rows come from, over every run ----

  /** The row was written by one of the first n commands, for a record of its batch. */
  ghost predicate VulnWritten(cs: seq<Command>, n: nat, meta: map<nat, Meta>, row: VulnRow) {
    exists k, v :: 0 <= k < n <= |cs| && cs[k].UpdateVulns? && v in cs[k].batch && RowOf(meta, row, v)
  }

  /** The same for enrichments: the row carries the updater of the command. */
  ghost predicate EnrichWritten(cs: seq<Command>, n: nat, row: EnrichRow) {
    exists k :: 0 <= k < n <= |cs| && cs[k].UpdateEnrichs? && EnrichmentOf(row) in cs[k].records
                && row.updater == cs[k].op.updater
  }

  lemma NextVulnRow(t: Tables, c: Command, t': Tables, i: nat)
    requires Next(t, c, t') && i in t'.vuln
    ensures || (i in t.vuln && t'.vuln[i] == t.vuln[i])
            || (c.UpdateVulns? && exists v :: v in c.batch && RowOf(t'.meta, t'.vuln[i], v))
  {
    if c.Collect? || c.Delete? || c.FailedUpdate? {
      var kept := NextDeletion(t, c, t');
    }
  }

  lemma NextMeta(t: Tables, c: Command, t': Tables)
    requires MetaOk(t.meta) && Next(t, c, t')
    ensures MetaGrows(t.meta, t'.meta)
  {
    if c.Collect? || c.Delete? || c.FailedUpdate? {
      var kept := NextDeletion(t, c, t');
    }
  }

  lemma NextEnrichRow(t: Tables, c: Command, t': Tables, i: nat)
    requires Next(t, c, t') && i in t'.enrich
    ensures || (i in t.enrich && t'.enrich[i] == t.enrich[i])
            || (c.UpdateEnrichs? && EnrichmentOf(t'.enrich[i]) in c.records && t'.enrich[i].updater == c.op.updater)
  {
    if c.Collect? || c.Delete? || c.FailedUpdate? {
      var kept := NextDeletion(t, c, t');
    }
  }

  lemma WrittenLonger(cs: seq<Command>, n: nat, meta: map<nat, Meta>, meta': map<nat, Meta>, row: VulnRow)
    requires n < |cs| && MetaGrows(meta, meta') && VulnWritten(cs, n, meta, row)
    ensures VulnWritten(cs, n + 1, meta', row)
  {
    var k, v :| 0 <= k < n && cs[k].UpdateVulns? && v in cs[k].batch && RowOf(meta, row, v);
    RowOfGrows(meta, meta', row, v);
  }

  /** Every vulnerability row of every run was written for a record that some update handed in. */
  lemma {:induction false} VulnOrigin(ts: seq<Tables>, cs: seq<Command>, n: nat, i: nat)
    requires Run(ts, cs) && n <= |cs| && i in ts[n].vuln
    ensures VulnWritten(cs, n, ts[n].meta, ts[n].vuln[i])
  {
    if n > 0 {
      var c := cs[n - 1];
      RunKeepsIntegrity(ts, cs, n - 1);
      NextVulnRow(ts[n - 1], c, ts[n], i);
      if i in ts[n - 1].vuln && ts[n].vuln[i] == ts[n - 1].vuln[i] {
        VulnOrigin(ts, cs, n - 1, i);
        NextMeta(ts[n - 1], c, ts[n]);
        WrittenLonger(cs, n - 1, ts[n - 1].meta, ts[n].meta, ts[n].vuln[i]);
      }
    }
  }

  /** Every enrichment row of every run was written for a record that some update handed in, and carries the name of
      that update's updater. */
  lemma {:induction false} EnrichOrigin(ts: seq<Tables>, cs: seq<Command>, n: nat, i: nat)
    requires Run(ts, cs) && n <= |cs| && i in ts[n].enrich
    ensures EnrichWritten(cs, n, ts[n].enrich[i])
  {
    if n > 0 {
      var c := cs[n - 1];
      NextEnrichRow(ts[n - 1], c, ts[n], i);
      if i in ts[n - 1].enrich && ts[n].enrich[i] == ts[n - 1].enrich[i] {
        EnrichOrigin(ts, cs, n - 1, i);
      }
    }
  }

  /** What Get lists is, field by field, a record that some update of the run handed in. */
  lemma ListedIsHanded(ts: seq<Tables>, cs: seq<Command>, n: nat, e: Entry) returns (k: nat, v: Vulnerability)
    requires Run(ts, cs) && n <= |cs| && Visible(ts[n], e)
    requires forall j, d :: 0 <= j < n && cs[j].UpdateVulns? && d in cs[j].batch ==> exists v :: Digested(v) == d
    ensures k < n && cs[k].UpdateVulns? && Digested(v) in cs[k].batch && Publishable(v) && StoredAs(v, e)
  {
    var a :| a in Rows(ts[n]) && Resolve(ts[n].meta, ts[n].vuln[a.1]) == e;
    VulnOrigin(ts, cs, n, a.1);
    var j, d :| 0 <= j < n && cs[j].UpdateVulns? && d in cs[j].batch && RowOf(ts[n].meta, ts[n].vuln[a.1], d);
    RowResolves(ts[n].meta, ts[n].vuln[a.1], d);
    k := j;
    v :| Digested(v) == d;
    PublishableIsStorable(v);
    StoredIff(v, e);
  }

  // ---- What a collection removes ----

  /** Some operation that is left publishes something with this digest. */
  ghost predicate StillPublished(t: Tables, hash: Digest) {
    exists o :: o in t.ops && match ContentOf(t, o)
                              case Vulns(entries) => exists e :: e in entries && e.hash == hash
                              case Enrichments(records) => exists e :: e in records && e.hash == hash
  }

  lemma ReferencedIsPublished(t: Tables, i: nat)
    requires AssocOk(t)
    ensures i in t.enrich && !Unreferenced(t.uoEnrich, i) ==> StillPublished(t, t.enrich[i].hash)
    ensures i in t.vuln && !Unreferenced(t.uoVuln, i) ==> StillPublished(t, t.vuln[i].hash)
  {
    if i in t.enrich && !Unreferenced(t.uoEnrich, i) {
      var a :| a in t.uoEnrich && a.1 == i;
      assert i in IdsOf(t.uoEnrich, a.0);
      assert EnrichmentOf(t.enrich[i]) in ContentOf(t, a.0).records;
    }
    if i in t.vuln && !Unreferenced(t.uoVuln, i) {
      var a :| a in t.uoVuln && a.1 == i;
      assert i in IdsOf(t.uoVuln, a.0);
      assert Resolve(t.meta, t.vuln[i]) in ContentOf(t, a.0).entries;
    }
  }

  ghost predicate HasOperation(t: Tables, updater: string, kind: Kind) {
    exists o :: o in t.ops && t.ops[o].updater == updater && t.ops[o].kind == kind
  }

  lemma CollectedIsClean(ts: seq<Tables>, cs: seq<Command>, n: nat)
    requires Run(ts, cs) && n < |cs| && cs[n].Collect? && cs[n].done
    ensures Clean(ts[n + 1]) && AssocOk(ts[n + 1])
  {
    RunKeepsIntegrity(ts, cs, n + 1);
  }

  lemma LeftIsPublished(t: Tables, i: nat, u: string)
    requires Clean(t) && AssocOk(t)
    ensures i in t.enrich && t.enrich[i].updater == u && HasOperation(t, u, EnrichmentKind) ==>
              StillPublished(t, t.enrich[i].hash)
    ensures i in t.vuln && t.vuln[i].updater == u && HasOperation(t, u, VulnerabilityKind) ==>
              StillPublished(t, t.vuln[i].hash)
  {
    ReferencedIsPublished(t, i);
  }

  /** Enrichments with this digest were only handed in by one updater. */
  ghost predicate OnlyEnriched(cs: seq<Command>, n: nat, u: string, hash: Digest)
    requires n <= |cs|
  {
    forall k, e :: 0 <= k < n && cs[k].UpdateEnrichs? && e in cs[k].records && e.hash == hash ==> cs[k].op.updater == u
  }

  lemma EnrichedBy(cs: seq<Command>, n: nat, row: EnrichRow, u: string)
    requires n < |cs| && OnlyEnriched(cs, n, u, row.hash) && EnrichWritten(cs, n + 1, row) && cs[n].Collect?
    ensures row.updater == u
  {
    var k :| 0 <= k < n + 1 && cs[k].UpdateEnrichs? && EnrichmentOf(row) in cs[k].records
             && row.updater == cs[k].op.updater;
    assert EnrichmentOf(row).hash == row.hash;
  }

  /** After a complete collection, no enrichment is left that only one updater ever handed in and that no operation
      publishes any more, if the updater still has an enrichment operation. */
  lemma EnrichmentCollected(ts: seq<Tables>, cs: seq<Command>, n: nat, u: string, hash: Digest, i: nat)
    requires Run(ts, cs) && n < |cs| && cs[n].Collect? && cs[n].done && OnlyEnriched(cs, n, u, hash)
    requires HasOperation(ts[n + 1], u, EnrichmentKind) && !StillPublished(ts[n + 1], hash)
    ensures i in ts[n + 1].enrich ==> ts[n + 1].enrich[i].hash != hash
  {
    var t := ts[n + 1];
    if i in t.enrich && t.enrich[i].hash == hash {
      EnrichOrigin(ts, cs, n + 1, i);
      EnrichedBy(cs, n, t.enrich[i], u);
      CollectedIsClean(ts, cs, n);
      LeftIsPublished(t, i, u);
    }
  }

  /** Vulnerabilities with this digest only named one updater. */
  ghost predicate OnlyReported(cs: seq<Command>, n: nat, u: string, hash: Digest)
    requires n <= |cs|
  {
    forall k, v :: 0 <= k < n && cs[k].UpdateVulns? && v in cs[k].batch && v.hash == hash ==> v.updater == u
  }

  lemma ReportedBy(cs: seq<Command>, n: nat, meta: map<nat, Meta>, row: VulnRow, u: string)
    requires n < |cs| && OnlyReported(cs, n, u, row.hash) && VulnWritten(cs, n + 1, meta, row) && cs[n].Collect?
    ensures row.updater == u
  {
  }

  /** The same for vulnerabilities, by the updater that the records name. */
  lemma VulnerabilityCollected(ts: seq<Tables>, cs: seq<Command>, n: nat, u: string, hash: Digest, i: nat)
    requires Run(ts, cs) && n < |cs| && cs[n].Collect? && cs[n].done && OnlyReported(cs, n, u, hash)
    requires HasOperation(ts[n + 1], u, VulnerabilityKind) && !StillPublished(ts[n + 1], hash)
    ensures i in ts[n + 1].vuln ==> ts[n + 1].vuln[i].hash != hash
  {
    var t := ts[n + 1];
    if i in t.vuln && t.vuln[i].hash == hash {
      VulnOrigin(ts, cs, n + 1, i);
      ReportedBy(cs, n, t.meta, t.vuln[i], u);
      CollectedIsClean(ts, cs, n);
      LeftIsPublished(t, i, u);
    }
  }
}

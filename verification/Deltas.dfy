/** Delta updates as an algebra on published contents, and what goes wrong when digests are shared between
    updaters. */
module Deltas {
  import opened Text
  import opened Advisory
  import opened Tables
  import opened StoreRefinement

  /** One delta on a published content. */
  function Delta(c: Content, batch: seq<Vuln>, deleted: seq<string>): Content {
    AfterVulns(Some(c), batch, Some(deleted))
  }

  /** The meaning of a delta, entry by entry: old entries stay unless their name occurs in the batch, in any
      role, or in the deletion list; the storable records of the batch are there whatever was deleted. */
  lemma DeltaMeaning(c: Content, batch: seq<Vuln>, deleted: seq<string>, e: Entry)
    ensures e in Delta(c, batch, deleted).entries <==>
            || (exists v :: v in batch && !v.invert && v.cols.Some? && e == EntryOf(v))
            || (c.Vulns? && e in c.entries && e.name !in deleted && forall v :: v in batch ==> v.name != e.name)
  {
    if e in BatchEntries(batch) {
      var v :| v in batch && Storable(v) && EntryOf(v) == e;
    }
    if v :| v in batch && Storable(v) && e == EntryOf(v) {
      assert e in BatchEntries(batch);
    }
  }

  function Names(batch: seq<Vuln>): (names: seq<string>)
    ensures |names| == |batch|
  {
    if batch == [] then [] else [batch[0].name] + Names(batch[1..])
  }

  lemma {:induction false} NamesAreNamed(batch: seq<Vuln>, name: string)
    ensures name in Names(batch) <==> Named(batch, name)
  {
    if batch != [] {
      NamesAreNamed(batch[1..], name);
      assert forall v :: v in batch <==> v == batch[0] || v in batch[1..];
    }
  }

  /** The records of a batch that a later delta does not evict. */
  function Outlast(batch: seq<Vuln>, later: seq<Vuln>, deleted: seq<string>): seq<Vuln> {
    if batch == [] then []
    else
      (if Named(later, batch[0].name) || batch[0].name in deleted then [] else [batch[0]])
      + Outlast(batch[1..], later, deleted)
  }

  lemma {:induction false} OutlastMembers(batch: seq<Vuln>, later: seq<Vuln>, deleted: seq<string>, v: Vuln)
    ensures v in Outlast(batch, later, deleted)
            <==> v in batch && !Named(later, v.name) && v.name !in deleted
  {
    if batch != [] {
      OutlastMembers(batch[1..], later, deleted, v);
      assert v in batch <==> v == batch[0] || v in batch[1..];
    }
  }

  /** Two successive deltas are one: the first batch without what the second evicts, then the second batch, with
      both deletion lists and every name of the first batch deleted. */
  lemma DeltasCompose(c: Content, b1: seq<Vuln>, d1: seq<string>, b2: seq<Vuln>, d2: seq<string>)
    ensures Delta(Delta(c, b1, d1), b2, d2) == Delta(c, Outlast(b1, b2, d2) + b2, d1 + d2 + Names(b1))
  {
    var twice := Delta(Delta(c, b1, d1), b2, d2);
    var once := Delta(c, Outlast(b1, b2, d2) + b2, d1 + d2 + Names(b1));
    forall e ensures e in twice.entries <==> e in once.entries {
      ComposedMember(c, b1, d1, b2, d2, e);
    }
  }

  lemma ComposedMember(c: Content, b1: seq<Vuln>, d1: seq<string>, b2: seq<Vuln>, d2: seq<string>, e: Entry)
    ensures e in Delta(Delta(c, b1, d1), b2, d2).entries
            <==> e in Delta(c, Outlast(b1, b2, d2) + b2, d1 + d2 + Names(b1)).entries
  {
    ComposedBatch(b1, b2, d2, e);
    ComposedNames(b1, b2, d2, e.name);
    NamesAreNamed(b1, e.name);
  }

  lemma ComposedBatch(b1: seq<Vuln>, b2: seq<Vuln>, d2: seq<string>, e: Entry)
    ensures e in BatchEntries(Outlast(b1, b2, d2) + b2)
            <==> e in BatchEntries(b2) || (e in BatchEntries(b1) && !Named(b2, e.name) && e.name !in d2)
  {
    var all := Outlast(b1, b2, d2) + b2;
    if e in BatchEntries(all) {
      var v :| v in all && Storable(v) && EntryOf(v) == e;
      OutlastMembers(b1, b2, d2, v);
    }
    if e in BatchEntries(b2) {
      var v :| v in b2 && Storable(v) && EntryOf(v) == e;
      assert v in all;
    } else if e in BatchEntries(b1) && !Named(b2, e.name) && e.name !in d2 {
      var v :| v in b1 && Storable(v) && EntryOf(v) == e;
      OutlastMembers(b1, b2, d2, v);
      assert v in all;
    }
  }

  lemma ComposedNames(b1: seq<Vuln>, b2: seq<Vuln>, d2: seq<string>, name: string)
    ensures Named(b1, name) || Named(b2, name) || name in d2
            <==> Named(Outlast(b1, b2, d2) + b2, name) || Named(b1, name) || name in d2
  {
    var all := Outlast(b1, b2, d2) + b2;
    if Named(b2, name) {
      var v :| v in b2 && v.name == name;
      assert v in all;
    }
    if Named(all, name) {
      var v :| v in all && v.name == name;
      OutlastMembers(b1, b2, d2, v);
    }
  }

  // ---- Why digests must not be shared between updaters ----

  predicate Shows(t: Tables, o: nat, e: Entry) {
    o in t.ops && t.ops[o].kind == VulnerabilityKind && e in Entries(t.meta, t.vuln, IdsOf(t.uoVuln, o))
  }

  /** A row is shown under an operation exactly when it is associated with it: no other row has its digest. */
  lemma ShownIffAssociated(t: Tables, o: nat, i: nat)
    requires VulnUnique(t.vuln) && i in t.vuln && o in t.ops && t.ops[o].kind == VulnerabilityKind
    ensures Shows(t, o, Resolve(t.meta, t.vuln[i])) <==> (o, i) in t.uoVuln
  {
    if Shows(t, o, Resolve(t.meta, t.vuln[i])) {
      var j :| j in IdsOf(t.uoVuln, o) && j in t.vuln && Resolve(t.meta, t.vuln[j]) == Resolve(t.meta, t.vuln[i]);
      assert t.vuln[j].hash == t.vuln[i].hash;
    }
    if (o, i) in t.uoVuln {
      assert i in IdsOf(t.uoVuln, o);
    }
  }

  /** Whether a delta carries a row forward: the row is the updater's own, some latest operation of any updater
      holds it, and its name is neither in the batch nor deleted. */
  predicate Carries(t: Tables, updater: string, batch: seq<Vuln>, deleted: seq<string>, i: nat)
    requires i in t.vuln
  {
    var name := Value(t.meta, t.vuln[i].nameId);
    && t.vuln[i].updater == updater && !Named(batch, name) && name !in deleted
    && exists a :: a in t.uoVuln && a.1 == i && IsLatest(t.ops, a.0)
  }

  /** What any delta shows of any row that was there: it shows the row if and only if it carries it forward or a
      record of its batch has the row's digest. */
  lemma RowShownIff(t: Tables, op: Op, batch: seq<Vuln>, deleted: seq<string>, t': Tables, i: nat)
    requires Inv(t) && VulnStep(t, op, batch, Some(deleted), t') && i in t.vuln
    ensures Shows(t', t.opSeq + 1, Resolve(t.meta, t.vuln[i])) <==>
            Carries(t, op.updater, batch, deleted, i) || BatchHash(batch, t.vuln[i].hash)
  {
    ResolveGrows(t, t'.meta, i);
    ShownIffAssociated(t', t.opSeq + 1, i);
    NewIds(t, op, batch, Some(deleted), t');
    CarriedIff(t, op.updater, batch, deleted, i);
    assert (t.opSeq + 1, i) in t'.uoVuln <==> i in IdsOf(t'.uoVuln, t.opSeq + 1);
  }

  lemma CarriedIff(t: Tables, u: string, batch: seq<Vuln>, deleted: seq<string>, i: nat)
    requires AssocOk(t) && i in t.vuln
    ensures i in Carried(t, u, batch, deleted) <==> Carries(t, u, batch, deleted, i)
  {
    if Carries(t, u, batch, deleted, i) {
      var a :| a in t.uoVuln && a.1 == i && IsLatest(t.ops, a.0);
      assert i in Existing(t, u);
    }
  }

  /** A row first written by another updater is shown by this updater's latest operation, and by its next delta if
      and only if the batch brings the digest again: it is never carried forward. */
  lemma SharedRowIsDropped(t: Tables, o: nat, i: nat, op: Op, batch: seq<Vuln>, deleted: seq<string>, t': Tables)
    requires Inv(t) && VulnStep(t, op, batch, Some(deleted), t')
    requires IsLatest(t.ops, o) && (o, i) in t.uoVuln && op.updater == t.ops[o].updater != t.vuln[i].updater
    ensures Shows(t, o, Resolve(t.meta, t.vuln[i]))
    ensures Shows(t', t.opSeq + 1, Resolve(t.meta, t.vuln[i])) <==> BatchHash(batch, t.vuln[i].hash)
  {
    ShownIffAssociated(t, o, i);
    RowShownIff(t, op, batch, deleted, t', i);
  }

  /** A row of this updater that its latest operation no longer shows comes back with its next delta if and only if
      the delta leaves the name alone and some other latest operation holds the row, or the batch brings the
      digest again. */
  lemma SharedRowIsRevived(t: Tables, o: nat, i: nat, op: Op, batch: seq<Vuln>, deleted: seq<string>, t': Tables)
    requires Inv(t) && VulnStep(t, op, batch, Some(deleted), t')
    requires IsLatest(t.ops, o) && t.ops[o].kind == VulnerabilityKind && (o, i) !in t.uoVuln
    requires i in t.vuln && op.updater == t.ops[o].updater == t.vuln[i].updater
    ensures !Shows(t, o, Resolve(t.meta, t.vuln[i]))
    ensures var name := Value(t.meta, t.vuln[i].nameId);
            Shows(t', t.opSeq + 1, Resolve(t.meta, t.vuln[i])) <==>
              || BatchHash(batch, t.vuln[i].hash)
              || (!Named(batch, name) && name !in deleted
                  && exists p :: p != o && IsLatest(t.ops, p) && (p, i) in t.uoVuln)
  {
    ShownIffAssociated(t, o, i);
    RowShownIff(t, op, batch, deleted, t', i);
    if p :| p != o && IsLatest(t.ops, p) && (p, i) in t.uoVuln {
      assert (p, i).1 == i;
    }
    if Carries(t, op.updater, batch, deleted, i) {
      var a :| a in t.uoVuln && a.1 == i && IsLatest(t.ops, a.0);
      assert (a.0, i) in t.uoVuln && a.0 != o;
    }
  }
}

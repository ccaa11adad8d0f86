/** Reading an image from a local OCI archive: every layer slot is filled from the one entry that holds its blob,
    and whatever was opened on the way is closed exactly once if anything fails. Section "Blobs" of the OCI Image
    Layout Specification fixes where a blob lives. */
module LocalArchive {
  import opened Text
  import opened Order

  datatype Digest = Digest(algorithm: string, hex: string)

  datatype Descriptor = Descriptor(mediaType: string, digest: string)

  const MANIFEST := "application/vnd.oci.image.manifest.v1+json"

  /** One step of the tar reader: an error, or an entry with its cleaned name. */
  datatype Entry = Broken | Entry(name: string, isLocal: bool, positioned: bool)

  /** The archive: index.json and the manifest blobs as far as they could be read and decoded, whether the file
      rewinds, and its entries in order. */
  datatype Archive = Archive(index: Option<seq<Descriptor>>, manifest: string -> Option<seq<Descriptor>>,
                             rewinds: bool, entries: seq<Entry>)

  /** How the steps of unpacking one layer turn out. */
  datatype Steps = Steps(gzipOpens: bool, tempCreated: bool, copied: bool, gzipCloses: bool, rewound: bool,
                         initialised: bool)

  /** What the environment answers: parsed digests, and the steps for entry e taken for layer l. */
  datatype World = World(parse: string -> Option<Digest>, steps: (int, int) -> Steps)

  datatype Resource = File | Gzip(e: int, l: int) | Temp(e: int, l: int) | Layer(i: int)

  datatype Action = Open(r: Resource) | Close(r: Resource) | Unlink(r: Resource)

  /** A filled slot: the digest, the entry its content comes from, and whether it was unpacked to a temporary
      file. */
  datatype Slot = Slot(digest: Digest, entry: int, unpacked: bool)

  type Slots = seq<Option<Slot>>

  datatype Failure = NoIndex | NoManifestDigest | BadManifestDigest | NoManifest | NotRewound | BrokenArchive
                   | NotLocal(name: string) | NotPositioned | BadLayerDigest(l: int) | DuplicateBlob(name: string)
                   | UnpackFailed(e: int, l: int) | Unsupported(mediaType: string) | NotInitialised(l: int)
                   | Missing(l: int)

  datatype Result = Parsed(hash: Digest, layers: seq<Slot>, readers: seq<Resource>) | Failed(why: Failure)

  function BlobPath(d: Digest): string { "blobs/" + d.algorithm + "/" + d.hex }

  predicate IsGzip(mediaType: string) {
    mediaType == "application/vnd.oci.image.layer.v1.tar+gzip"
    || mediaType == "application/vnd.docker.image.rootfs.diff.tar.gzip"
  }

  predicate IsTar(mediaType: string) {
    mediaType == "application/vnd.oci.image.layer.v1.tar"
    || mediaType == "application/vnd.docker.image.rootfs.diff.tar"
  }

  /** A blob lies under its algorithm, under "blobs". */
  lemma BlobPathParts(d: Digest)
    requires '/' !in d.algorithm && '/' !in d.hex
    ensures Split(BlobPath(d), "/") == ["blobs", d.algorithm, d.hex]
  {
    JoinCons("blobs", [d.algorithm, d.hex], "/");
    JoinCons(d.algorithm, [d.hex], "/");
    assert "blobs" + "/" + (d.algorithm + "/" + d.hex) == BlobPath(d) by { assert "blobs" + "/" == "blobs/"; }
    assert ["blobs"] + [d.algorithm, d.hex] == ["blobs", d.algorithm, d.hex];
    assert [d.algorithm] + [d.hex] == [d.algorithm, d.hex];
    SplitJoin(["blobs", d.algorithm, d.hex], "/");
  }

  // ---- What assembling needs ----

  /** The tar entries and the layers of the manifest. */
  datatype Job = Job(w: World, entries: seq<Entry>, layers: seq<Descriptor>)

  /** Entry e holds the blob of layer l. */
  predicate Holds(b: Job, e: int, l: int) {
    && 0 <= e < |b.entries| && 0 <= l < |b.layers| && b.entries[e].Entry?
    && b.w.parse(b.layers[l].digest).Some? && b.entries[e].name == BlobPath(b.w.parse(b.layers[l].digest).value)
  }

  predicate Unpacks(s: Steps) { s.gzipOpens && s.tempCreated && s.copied && s.gzipCloses && s.rewound }

  /** Why the content of entry e cannot become layer l, if it cannot. */
  function ExtractFailure(mediaType: string, s: Steps, e: int, l: int): Option<Failure> {
    if IsGzip(mediaType) && !Unpacks(s) then Some(UnpackFailed(e, l))
    else if !IsGzip(mediaType) && !IsTar(mediaType) then Some(Unsupported(mediaType))
    else if !s.initialised then Some(NotInitialised(l))
    else None
  }

  ghost predicate NotHeldBefore(b: Job, e: int, l: int) {
    forall k :: 0 <= k < e ==> !Holds(b, k, l)
  }

  /** What layer l has against entry e: its own digest does not parse, or e is its blob and an earlier entry was
      too, or e is its blob and the content cannot be had. */
  ghost function Objection(b: Job, e: int, l: int): Option<Failure>
    requires 0 <= l < |b.layers|
  {
    if b.w.parse(b.layers[l].digest).None? then Some(BadLayerDigest(l))
    else if !Holds(b, e, l) then None
    else if !NotHeldBefore(b, e, l) then Some(DuplicateBlob(b.entries[e].name))
    else ExtractFailure(b.layers[l].mediaType, b.w.steps(e, l), e, l)
  }

  /** Layers come as OCI or Docker tar files; what is compressed, and only that, has to be unpacked. */
  lemma MediaTypes(mediaType: string, s: Steps, e: int, l: int)
    requires Unpacks(s) && s.initialised
    ensures ExtractFailure(mediaType, s, e, l).None? <==>
            mediaType in ["application/vnd.oci.image.layer.v1.tar", "application/vnd.docker.image.rootfs.diff.tar",
                          "application/vnd.oci.image.layer.v1.tar+gzip",
                          "application/vnd.docker.image.rootfs.diff.tar.gzip"]
    ensures ExtractFailure(mediaType, s, e, l).None? ==>
              (IsGzip(mediaType) <==> mediaType[|mediaType| - 4..] == "gzip")
  {
  }

  ghost predicate LayerAccepts(b: Job, e: int, l: int) { 0 <= l < |b.layers| && Objection(b, e, l).None? }

  predicate Readable(b: Job, e: int) {
    0 <= e < |b.entries| && b.entries[e].Entry? && b.entries[e].isLocal && b.entries[e].positioned
  }

  ghost predicate EntryAccepted(b: Job, e: int) {
    Readable(b, e) && forall l :: 0 <= l < |b.layers| ==> LayerAccepts(b, e, l)
  }

  ghost predicate Found(b: Job, upTo: int, l: int) {
    exists e :: 0 <= e < upTo && Holds(b, e, l)
  }

  /** Every entry is acceptable and every layer is found: the condition for success. */
  ghost predicate Assembles(b: Job) {
    && (forall e :: 0 <= e < |b.entries| ==> EntryAccepted(b, e))
    && (forall l :: 0 <= l < |b.layers| ==> Found(b, |b.entries|, l))
  }

  // ---- Accounting ----

  function Count(log: seq<Action>, a: Action): nat { multiset(log)[a] }

  lemma CountAppend(log: seq<Action>, more: seq<Action>, a: Action)
    ensures Count(log + more, a) == Count(log, a) + Count(more, a)
  {
  }

  predicate Filled(slots: Slots, i: int) { 0 <= i < |slots| && slots[i].Some? }

  predicate Earlier(k: int, j: int, e: int, l: int) { k < e || (k == e && j < l) }

  function Times(b: bool): nat { if b then 1 else 0 }

  /** While assembling, before layer l of entry e: the archive and the temporary files recorded as readers are open,
      each opened once and not closed; gzip readers have been closed as often as opened, at most once; exactly the
      filled slots hold an open layer. */
  ghost predicate Live(log: seq<Action>, readers: seq<Resource>, slots: Slots, e: int, l: int, r: Resource) {
    match r
    case File => r in readers && Count(log, Open(r)) == 1 && Count(log, Close(r)) == 0
    case Temp(k, j) =>
      && Count(log, Open(r)) == Times(r in readers) && Count(log, Close(r)) == 0
      && (r in readers ==> Earlier(k, j, e, l))
    case Gzip(k, j) =>
      && Count(log, Open(r)) == Count(log, Close(r)) <= Times(Earlier(k, j, e, l))
      && r !in readers
    case Layer(i) =>
      Count(log, Open(r)) == Times(Filled(slots, i)) && Count(log, Close(r)) == 0 && r !in readers
  }

  ghost predicate Accounted(log: seq<Action>, readers: seq<Resource>, slots: Slots, e: int, l: int) {
    Distinct(readers) && forall r :: Live(log, readers, slots, e, l, r)
  }

  /** After a failure: whatever was opened has been closed, exactly once. */
  ghost predicate NothingLeaks(log: seq<Action>) {
    forall r :: Count(log, Open(r)) == Count(log, Close(r)) <= 1
  }

  function CloseReaders(readers: seq<Resource>): (log: seq<Action>)
    ensures |log| == |readers| && forall i :: 0 <= i < |log| ==> log[i] == Close(readers[i])
  {
    if readers == [] then [] else [Close(readers[0])] + CloseReaders(readers[1..])
  }

  function CloseLayers(slots: Slots): seq<Action> {
    if slots == [] then []
    else CloseLayers(slots[..|slots| - 1]) + if slots[|slots| - 1].Some? then [Close(Layer(|slots| - 1))] else []
  }

  /** closeManifestResources: the non-nil layers in order, then the readers. */
  method CloseManifestResources(slots: Slots, readers: seq<Resource>) returns (log: seq<Action>)
    ensures log == CloseLayers(slots) + CloseReaders(readers)
  {
    log := [];
    var i := 0;
    while i < |slots|
      invariant 0 <= i <= |slots| && log == CloseLayers(slots[..i])
    {
      assert slots[..i + 1][..i] == slots[..i];
      if slots[i].Some? {
        log := log + [Close(Layer(i))];
      }
      i := i + 1;
    }
    assert slots[..i] == slots;
    i := 0;
    while i < |readers|
      invariant 0 <= i <= |readers| && log == CloseLayers(slots) + CloseReaders(readers)[..i]
    {
      log := log + [Close(readers[i])];
      i := i + 1;
    }
  }

  lemma {:induction false} ClosesLayers(slots: Slots, r: Resource)
    ensures Count(CloseLayers(slots), Close(r)) == Times(r.Layer? && Filled(slots, r.i))
    ensures Count(CloseLayers(slots), Open(r)) == 0
  {
    if slots != [] {
      ClosesLayers(slots[..|slots| - 1], r);
    }
  }

  lemma {:induction false} ClosesReaders(readers: seq<Resource>, r: Resource)
    requires Distinct(readers)
    ensures Count(CloseReaders(readers), Close(r)) == Times(r in readers)
    ensures Count(CloseReaders(readers), Open(r)) == 0
  {
    if readers != [] {
      ClosesReaders(readers[1..], r);
      assert readers == [readers[0]] + readers[1..];
      assert CloseReaders(readers) == [Close(readers[0])] + CloseReaders(readers[1..]);
    }
  }

  /** Closing the filled slots and the readers leaves nothing open and closes nothing twice. */
  lemma ClosingBalances(log: seq<Action>, readers: seq<Resource>, slots: Slots, e: int, l: int)
    requires Accounted(log, readers, slots, e, l)
    ensures NothingLeaks(log + CloseLayers(slots) + CloseReaders(readers))
  {
    var all := log + CloseLayers(slots) + CloseReaders(readers);
    forall r ensures Count(all, Open(r)) == Count(all, Close(r)) <= 1 {
      assert Live(log, readers, slots, e, l, r);
      ClosesLayers(slots, r);
      ClosesReaders(readers, r);
      CountAppend(log, CloseLayers(slots), Open(r));
      CountAppend(log, CloseLayers(slots), Close(r));
      CountAppend(log + CloseLayers(slots), CloseReaders(readers), Open(r));
      CountAppend(log + CloseLayers(slots), CloseReaders(readers), Close(r));
    }
  }

  // ---- Extracting one layer ----

  /** What unpacking opens, closes and unlinks: the gzip reader is closed as often as it was opened, the temporary file
      is left open, and it is unlinked only when everything went well. */
  ghost predicate UnpackEffect(s: Steps, e: int, l: int, log: seq<Action>, r: Resource) {
    && Count(log, Open(r)) ==
       Times((s.gzipOpens && r == Gzip(e, l)) || (s.gzipOpens && s.tempCreated && r == Temp(e, l)))
    && Count(log, Close(r)) == Times(s.gzipOpens && r == Gzip(e, l))
    && Count(log, Unlink(r)) == Times(Unpacks(s) && r == Temp(e, l))
  }

  function TempReader(s: Steps, e: int, l: int): seq<Resource> {
    if s.gzipOpens && s.tempCreated then [Temp(e, l)] else []
  }

  /** What the log counts so far: the gzip reader opened (g) and closed (h), the temporary file opened (t) and
      unlinked (u), each at most once. */
  ghost predicate Tally(e: int, l: int, log: seq<Action>, g: bool, h: bool, t: bool, u: bool) {
    forall a :: Count(log, a) == Times((g && a == Open(Gzip(e, l))) || (h && a == Close(Gzip(e, l)))
                                       || (t && a == Open(Temp(e, l))) || (u && a == Unlink(Temp(e, l))))
  }

  lemma Tallied(e: int, l: int, log: seq<Action>, g: bool, h: bool, t: bool, u: bool, a: Action)
    requires Tally(e, l, log, g, h, t, u)
    ensures !g && a == Open(Gzip(e, l)) ==> Tally(e, l, log + [a], true, h, t, u)
    ensures !h && a == Close(Gzip(e, l)) ==> Tally(e, l, log + [a], g, true, t, u)
    ensures !t && a == Open(Temp(e, l)) ==> Tally(e, l, log + [a], g, h, true, u)
    ensures !u && a == Unlink(Temp(e, l)) ==> Tally(e, l, log + [a], g, h, t, true)
  {
    assert forall x :: Count(log + [a], x) == Count(log, x) + Times(x == a);
  }

  /** Decompresses an entry into a temporary file, which is left to the list of readers once it was created. */
  method Unpack(s: Steps, e: int, l: int) returns (ok: bool, readers: seq<Resource>, log: seq<Action>)
    ensures ok <==> Unpacks(s)
    ensures readers == TempReader(s, e, l)
    ensures forall r :: UnpackEffect(s, e, l, log, r)
  {
    ok, readers, log := false, [], [];
    assert Tally(e, l, log, false, false, false, false);
    if !s.gzipOpens {
      return;
    }
    Tallied(e, l, log, false, false, false, false, Open(Gzip(e, l)));
    log := log + [Open(Gzip(e, l))];
    if !s.tempCreated {
      Tallied(e, l, log, true, false, false, false, Close(Gzip(e, l)));
      log := log + [Close(Gzip(e, l))];
      return;
    }
    Tallied(e, l, log, true, false, false, false, Open(Temp(e, l)));
    log := log + [Open(Temp(e, l))];
    readers := readers + [Temp(e, l)];
    Tallied(e, l, log, true, false, true, false, Close(Gzip(e, l)));
    if !s.copied {
      log := log + [Close(Gzip(e, l))];
      return;
    }
    log := log + [Close(Gzip(e, l))];
    if !s.gzipCloses {
      return;
    }
    if !s.rewound {
      return;
    }
    Tallied(e, l, log, true, true, true, false, Unlink(Temp(e, l)));
    log := log + [Unlink(Temp(e, l))];
    ok := true;
  }

  ghost predicate ReadersMatch(readers: seq<Resource>, slots: Slots) {
    forall k, j :: Temp(k, j) in readers <==>
                   Filled(slots, j) && slots[j].value.entry == k && slots[j].value.unpacked
  }

  ghost predicate UnlinksMatch(log: seq<Action>, readers: seq<Resource>) {
    forall r :: Count(log, Unlink(r)) == Times(r.Temp? && r in readers)
  }

  /** The readers are the archive and the temporary files of the filled slots, and these have been unlinked. */
  ghost predicate Tidy(log: seq<Action>, readers: seq<Resource>, slots: Slots) {
    ReadersMatch(readers, slots) && UnlinksMatch(log, readers)
  }

  lemma UnpackAccounted(log: seq<Action>, readers: seq<Resource>, slots: Slots, e: int, l: int, s: Steps,
                        some: seq<Action>)
    requires Accounted(log, readers, slots, e, l) && forall r :: UnpackEffect(s, e, l, some, r)
    ensures Accounted(log + some, readers + TempReader(s, e, l), slots, e, l + 1)
  {
    var all, more, next := log + some, readers + TempReader(s, e, l), l + 1;
    assert Live(log, readers, slots, e, l, Temp(e, l));
    assert Distinct(more);
    forall r ensures Live(all, more, slots, e, next, r) {
      assert Live(log, readers, slots, e, l, r);
      assert UnpackEffect(s, e, l, some, r);
      CountAppend(log, some, Open(r));
      CountAppend(log, some, Close(r));
      assert r in more <==> r in readers || r in TempReader(s, e, l);
    }
  }

  lemma StoreAccounted(log: seq<Action>, readers: seq<Resource>, slots: Slots, e: int, l: int, i: nat, slot: Slot)
    requires Accounted(log, readers, slots, e, l) && i < |slots| && slots[i].None?
    ensures Accounted(log + [Open(Layer(i))], readers, slots[i := Some(slot)], e, l)
  {
    var all, after := log + [Open(Layer(i))], slots[i := Some(slot)];
    forall r ensures Live(all, readers, after, e, l, r) {
      assert Live(log, readers, slots, e, l, r);
      CountAppend(log, [Open(Layer(i))], Open(r));
      CountAppend(log, [Open(Layer(i))], Close(r));
    }
  }

  lemma PassAccounted(log: seq<Action>, readers: seq<Resource>, slots: Slots, e: int, l: int, e': int, l': int)
    requires Accounted(log, readers, slots, e, l)
    requires forall k, j :: Earlier(k, j, e, l) ==> Earlier(k, j, e', l')
    ensures Accounted(log, readers, slots, e', l')
  {
    forall r ensures Live(log, readers, slots, e', l', r) {
      assert Live(log, readers, slots, e, l, r);
    }
  }

  lemma UnlinksGrow(log: seq<Action>, readers: seq<Resource>, e: int, l: nat, some: seq<Action>, more: seq<Resource>)
    requires UnlinksMatch(log, readers) && Temp(e, l) !in readers
    requires more == [] || more == [Temp(e, l)]
    requires forall r :: Count(some, Unlink(r)) == Times(more != [] && r == Temp(e, l))
    ensures UnlinksMatch(log + some + [Open(Layer(l))], readers + more)
  {
    var all := log + some + [Open(Layer(l))];
    forall r ensures Count(all, Unlink(r)) == Times(r.Temp? && r in readers + more) {
      CountAppend(log, some, Unlink(r));
      CountAppend(log + some, [Open(Layer(l))], Unlink(r));
    }
  }

  lemma ReadersGrow(readers: seq<Resource>, slots: Slots, l: nat, slot: Slot, more: seq<Resource>)
    requires ReadersMatch(readers, slots) && l < |slots| && slots[l].None?
    requires more == if slot.unpacked then [Temp(slot.entry, l)] else []
    ensures ReadersMatch(readers + more, slots[l := Some(slot)])
  {
  }

  lemma UnpackTidy(log: seq<Action>, readers: seq<Resource>, slots: Slots, e: int, l: nat, s: Steps,
                   some: seq<Action>, slot: Slot)
    requires Tidy(log, readers, slots) && l < |slots| && slots[l].None? && Unpacks(s)
    requires slot.entry == e && slot.unpacked && forall r :: UnpackEffect(s, e, l, some, r)
    ensures Tidy(log + some + [Open(Layer(l))], readers + TempReader(s, e, l), slots[l := Some(slot)])
  {
    assert !Filled(slots, l);
    forall r ensures Count(some, Unlink(r)) == Times(TempReader(s, e, l) != [] && r == Temp(e, l)) {
      assert UnpackEffect(s, e, l, some, r);
    }
    UnlinksGrow(log, readers, e, l, some, TempReader(s, e, l));
    ReadersGrow(readers, slots, l, slot, TempReader(s, e, l));
  }

  lemma PlainTidy(log: seq<Action>, readers: seq<Resource>, slots: Slots, l: nat, slot: Slot)
    requires Tidy(log, readers, slots) && l < |slots| && slots[l].None? && !slot.unpacked
    ensures Tidy(log + [Open(Layer(l))], readers, slots[l := Some(slot)])
  {
    assert !Filled(slots, l);
    UnlinksGrow(log, readers, slot.entry, l, [], []);
    ReadersGrow(readers, slots, l, slot, []);
    assert log + [] + [Open(Layer(l))] == log + [Open(Layer(l))] && readers + [] == readers;
  }

  /** After a failure every temporary file that was opened has been unlinked, except that of a failed unpacking. */
  ghost predicate LinksLeft(log: seq<Action>, f: Failure) {
    forall e, l :: Count(log, Unlink(Temp(e, l))) == if f == UnpackFailed(e, l) then 0 else Count(log, Open(Temp(e, l)))
  }

  lemma TidyLinks(log: seq<Action>, readers: seq<Resource>, slots: Slots, e: int, l: int, f: Failure)
    requires Accounted(log, readers, slots, e, l) && Tidy(log, readers, slots) && !f.UnpackFailed?
    ensures LinksLeft(log, f)
  {
    forall k, j ensures Count(log, Unlink(Temp(k, j))) == Count(log, Open(Temp(k, j))) {
      assert Live(log, readers, slots, e, l, Temp(k, j));
    }
  }

  lemma UnpackLinks(log: seq<Action>, readers: seq<Resource>, slots: Slots, e: int, l: int, s: Steps,
                    some: seq<Action>, f: Failure)
    requires Accounted(log, readers, slots, e, l) && Tidy(log, readers, slots)
    requires forall r :: UnpackEffect(s, e, l, some, r)
    requires if Unpacks(s) then !f.UnpackFailed? else f == UnpackFailed(e, l)
    ensures LinksLeft(log + some, f)
    ensures Count(log + some, Open(Temp(e, l))) == Times(s.gzipOpens && s.tempCreated)
  {
    var all := log + some;
    forall k, j
      ensures Count(all, Unlink(Temp(k, j))) == if f == UnpackFailed(k, j) then 0 else Count(all, Open(Temp(k, j)))
    {
      var r := Temp(k, j);
      assert Live(log, readers, slots, e, l, r);
      assert UnpackEffect(s, e, l, some, r);
      CountAppend(log, some, Open(r));
      CountAppend(log, some, Unlink(r));
    }
    assert Live(log, readers, slots, e, l, Temp(e, l));
    assert UnpackEffect(s, e, l, some, Temp(e, l));
  }

  /** The content of entry e becomes layer l. */
  method ExtractLayer(w: World, d: Descriptor, digest: Digest, e: int, l: nat, slots0: Slots,
                      readers0: seq<Resource>, log0: seq<Action>)
    returns (slots: Slots, readers: seq<Resource>, log: seq<Action>, failure: Option<Failure>)
    requires Accounted(log0, readers0, slots0, e, l) && Tidy(log0, readers0, slots0)
    requires l < |slots0| && slots0[l].None?
    ensures Accounted(log, readers, slots, e, l + 1)
    ensures failure == ExtractFailure(d.mediaType, w.steps(e, l), e, l)
    ensures failure.None? ==>
              slots == slots0[l := Some(Slot(digest, e, IsGzip(d.mediaType)))] && Tidy(log, readers, slots)
    ensures failure.Some? ==> slots == slots0
    ensures failure.Some? ==> LinksLeft(log, failure.value)
    ensures failure == Some(UnpackFailed(e, l)) ==>
              Count(log, Open(Temp(e, l))) == Times(w.steps(e, l).gzipOpens && w.steps(e, l).tempCreated)
  {
    slots, readers, log, failure := slots0, readers0, log0, None;
    var s := w.steps(e, l);
    ghost var some := [];
    if IsGzip(d.mediaType) {
      var ok, moreReaders, moreLog := Unpack(s, e, l);
      UnpackAccounted(log, readers, slots, e, l, s, moreLog);
      UnpackLinks(log0, readers0, slots0, e, l, s, moreLog, if ok then NotInitialised(l) else UnpackFailed(e, l));
      readers, log := readers + moreReaders, log + moreLog;
      some := moreLog;
      if !ok {
        return slots, readers, log, Some(UnpackFailed(e, l));
      }
    } else if IsTar(d.mediaType) {
      PassAccounted(log, readers, slots, e, l, e, l + 1);
      TidyLinks(log0, readers0, slots0, e, l, NotInitialised(l));
    } else {
      PassAccounted(log, readers, slots, e, l, e, l + 1);
      TidyLinks(log0, readers0, slots0, e, l, Unsupported(d.mediaType));
      return slots, readers, log, Some(Unsupported(d.mediaType));
    }
    if !s.initialised {
      return slots, readers, log, Some(NotInitialised(l));
    }
    var slot := Slot(digest, e, IsGzip(d.mediaType));
    StoreAccounted(log, readers, slots, e, l + 1, l, slot);
    if slot.unpacked {
      UnpackTidy(log0, readers0, slots0, e, l, s, some, slot);
    } else {
      PlainTidy(log0, readers0, slots0, l, slot);
    }
    slots, log := slots[l := Some(slot)], log + [Open(Layer(l))];
  }

  // ---- Closing leaves the links alone ----

  lemma {:induction false} LayersOnlyClose(slots: Slots, a: Action)
    requires !a.Close?
    ensures Count(CloseLayers(slots), a) == 0
  {
    if slots != [] {
      LayersOnlyClose(slots[..|slots| - 1], a);
    }
  }

  lemma ClosingOnlyCloses(log: seq<Action>, slots: Slots, readers: seq<Resource>, a: Action)
    requires !a.Close?
    ensures Count(log + CloseLayers(slots) + CloseReaders(readers), a) == Count(log, a)
  {
    LayersOnlyClose(slots, a);
    assert a !in CloseReaders(readers);
    CountAppend(log, CloseLayers(slots), a);
    CountAppend(log + CloseLayers(slots), CloseReaders(readers), a);
  }

  lemma ClosingKeepsLinks(log: seq<Action>, slots: Slots, readers: seq<Resource>, f: Failure)
    requires LinksLeft(log, f)
    ensures LinksLeft(log + CloseLayers(slots) + CloseReaders(readers), f)
  {
    var all := log + CloseLayers(slots) + CloseReaders(readers);
    forall e, l
      ensures Count(all, Unlink(Temp(e, l))) == if f == UnpackFailed(e, l) then 0 else Count(all, Open(Temp(e, l)))
    {
      ClosingOnlyCloses(log, slots, readers, Unlink(Temp(e, l)));
      ClosingOnlyCloses(log, slots, readers, Open(Temp(e, l)));
    }
  }
}

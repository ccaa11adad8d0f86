/** The loops of parseLocalArchive over entries and layers, and the whole call. */
module ParseArchive {
  import opened Text
  import opened Order
  import opened LocalArchive

  /** What the call has gathered: the layer slots, the readers to close, and the log of opening and closing. */
  datatype Work = Work(slots: Slots, readers: seq<Resource>, log: seq<Action>)

  /** Slot j after layer l of entry e: filled from the entry that holds the blob, or no entry so far holds it. */
  ghost predicate SlotRight(b: Job, slots: Slots, e: int, l: int, j: int)
    requires |slots| == |b.layers| && 0 <= j < |slots|
  {
    if slots[j].Some? then
      var s := slots[j].value;
      && Holds(b, s.entry, j) && Earlier(s.entry, j, e, l)
      && b.w.parse(b.layers[j].digest) == Some(s.digest) && s.unpacked == IsGzip(b.layers[j].mediaType)
    else
      forall k :: Earlier(k, j, e, l) ==> !Holds(b, k, j)
  }

  ghost predicate SlotsRight(b: Job, slots: Slots, e: int, l: int) {
    |slots| == |b.layers| && forall j :: 0 <= j < |slots| ==> SlotRight(b, slots, e, l, j)
  }

  ghost predicate SeenAt(b: Job, e: int, name: string) {
    exists k, j :: 0 <= k < e && Holds(b, k, j) && b.entries[k].name == name
  }

  /** The recorded names are those of the earlier entries that held a layer's blob. */
  ghost predicate SeenRight(b: Job, seen: set<string>, e: int) {
    forall name :: name in seen <==> SeenAt(b, e, name)
  }

  ghost predicate Working(b: Job, k: Work, e: int, l: int) {
    SlotsRight(b, k.slots, e, l) && Accounted(k.log, k.readers, k.slots, e, l) && Tidy(k.log, k.readers, k.slots)
  }

  /** What a failure leaves in the file system: nothing but the temporary file of a failed unpacking, and that one
      exactly when it had been created. */
  ghost predicate LeftLinked(b: Job, log: seq<Action>, f: Option<Failure>) {
    f.Some? ==>
      && LinksLeft(log, f.value)
      && (f.value.UnpackFailed? ==>
            var s := b.w.steps(f.value.e, f.value.l);
            Count(log, Open(Temp(f.value.e, f.value.l))) == Times(s.gzipOpens && s.tempCreated))
  }

  /** Layer l is the first to object to entry e, for this reason. */
  ghost predicate Refuses(b: Job, e: int, l: int, f: Failure) {
    && 0 <= l < |b.layers| && Objection(b, e, l) == Some(f)
    && forall j :: 0 <= j < l ==> LayerAccepts(b, e, j)
  }

  /** Entry e cannot be accepted, for this reason. */
  ghost predicate RefusedAt(b: Job, e: int, f: Failure) {
    && 0 <= e < |b.entries|
    && match b.entries[e]
       case Broken => f == BrokenArchive
       case Entry(name, isLocal, positioned) =>
         if !isLocal then f == NotLocal(name)
         else if !positioned then f == NotPositioned
         else exists l :: Refuses(b, e, l, f)
  }

  ghost predicate FirstRefused(b: Job, e: int, f: Failure) {
    RefusedAt(b, e, f) && forall k :: 0 <= k < e ==> EntryAccepted(b, k)
  }

  ghost predicate FirstMissing(b: Job, l: int) {
    && 0 <= l < |b.layers| && !Found(b, |b.entries|, l)
    && (forall e :: 0 <= e < |b.entries| ==> EntryAccepted(b, e))
    && forall j :: 0 <= j < l ==> Found(b, |b.entries|, j)
  }

  /** The reason reported is that of the first entry refused or, all being accepted, of the first layer missing. */
  ghost predicate Explains(b: Job, f: Failure) {
    (exists e :: FirstRefused(b, e, f)) || exists l :: FirstMissing(b, l) && f == Missing(l)
  }

  // ---- One layer against one entry ----

  /** Nothing of the kind was seen before: no earlier entry holds a blob this entry holds. */
  lemma NotSeenMeansFirst(b: Job, seen: set<string>, e: int, l: int)
    requires SeenRight(b, seen, e) && Holds(b, e, l)
    ensures b.entries[e].name !in seen <==> NotHeldBefore(b, e, l)
  {
    if NotHeldBefore(b, e, l) && SeenAt(b, e, b.entries[e].name) {
      var k, j :| 0 <= k < e && Holds(b, k, j) && b.entries[k].name == b.entries[e].name;
      assert Holds(b, k, l);
    }
    if !NotHeldBefore(b, e, l) {
      var k :| 0 <= k < e && Holds(b, k, l);
      assert SeenAt(b, e, b.entries[e].name);
    }
  }

  lemma FirstMeansEmpty(b: Job, slots: Slots, e: int, l: nat)
    requires SlotsRight(b, slots, e, l) && l < |slots| && NotHeldBefore(b, e, l)
    ensures slots[l].None?
  {
    assert SlotRight(b, slots, e, l, l);
  }

  lemma SlotsFilled(b: Job, slots: Slots, e: int, l: nat, digest: Digest)
    requires SlotsRight(b, slots, e, l) && l < |slots| && Holds(b, e, l)
    requires b.w.parse(b.layers[l].digest) == Some(digest)
    ensures SlotsRight(b, slots[l := Some(Slot(digest, e, IsGzip(b.layers[l].mediaType)))], e, l + 1)
  {
    var after, next := slots[l := Some(Slot(digest, e, IsGzip(b.layers[l].mediaType)))], l + 1;
    forall j | 0 <= j < |after| ensures SlotRight(b, after, e, next, j) {
      assert SlotRight(b, slots, e, l, j);
    }
  }

  lemma SlotsPassed(b: Job, slots: Slots, e: int, l: nat)
    requires SlotsRight(b, slots, e, l) && l < |slots| && !Holds(b, e, l)
    ensures SlotsRight(b, slots, e, l + 1)
  {
    var next := l + 1;
    forall j | 0 <= j < |slots| ensures SlotRight(b, slots, e, next, j) {
      assert SlotRight(b, slots, e, l, j);
    }
  }

  /** The names to remember after this entry's match, if it had one. */
  function SeenWith(seen: set<string>, matched: bool, name: string): set<string> {
    if matched then seen + {name} else seen
  }

  /** The body of the inner loop. */
  method TryLayer(b: Job, e: nat, l: nat, work: Work, seen: set<string>, matched: bool, ghost seen0: set<string>)
    returns (after: Work, seenAfter: set<string>, matchedAfter: bool, failure: Option<Failure>)
    requires Readable(b, e) && l < |b.layers| && Working(b, work, e, l)
    requires SeenRight(b, seen0, e) && seen == SeenWith(seen0, matched, b.entries[e].name)
    requires matched ==> b.entries[e].name !in seen0
    ensures failure == Objection(b, e, l)
    ensures failure.None? ==> Working(b, after, e, l + 1) && matchedAfter == (matched || Holds(b, e, l))
    ensures failure.None? ==> seenAfter == SeenWith(seen0, matchedAfter, b.entries[e].name)
    ensures failure.None? && matchedAfter ==> b.entries[e].name !in seen0
    ensures Accounted(after.log, after.readers, after.slots, e, l + 1) && LeftLinked(b, after.log, failure)
  {
    after, seenAfter, matchedAfter, failure := work, seen, matched, None;
    PassAccounted(work.log, work.readers, work.slots, e, l, e, l + 1);
    var digest := b.w.parse(b.layers[l].digest);
    if digest.None? {
      failure := Some(BadLayerDigest(l));
      WorkingLinks(b, work, e, l, BadLayerDigest(l));
      return;
    }
    if b.entries[e].name != BlobPath(digest.value) {
      SlotsPassed(b, work.slots, e, l);
      return;
    }
    NotSeenMeansFirst(b, seen0, e, l);
    if !matched {
      if b.entries[e].name in seen {
        failure := Some(DuplicateBlob(b.entries[e].name));
        WorkingLinks(b, work, e, l, DuplicateBlob(b.entries[e].name));
        return;
      }
      seenAfter, matchedAfter := seen + {b.entries[e].name}, true;
    }
    FirstMeansEmpty(b, work.slots, e, l);
    var slots, readers, log;
    slots, readers, log, failure :=
      ExtractLayer(b.w, b.layers[l], digest.value, e, l, work.slots, work.readers, work.log);
    after := Work(slots, readers, log);
    SlotsFilled(b, work.slots, e, l, digest.value);
  }

  // ---- One entry ----

  lemma NextEntry(b: Job, k: Work, e: nat)
    requires Working(b, k, e, |b.layers|)
    ensures Working(b, k, e + 1, 0)
  {
    var next := e + 1;
    forall j | 0 <= j < |k.slots| ensures SlotRight(b, k.slots, next, 0, j) {
      assert SlotRight(b, k.slots, e, |b.layers|, j);
    }
    ForgetLayer(k.log, k.readers, k.slots, e, |b.layers|);
  }

  lemma ForgetLayer(log: seq<Action>, readers: seq<Resource>, slots: Slots, e: int, l: int)
    requires Accounted(log, readers, slots, e, l)
    ensures Accounted(log, readers, slots, e + 1, 0)
  {
    PassAccounted(log, readers, slots, e, l, e + 1, 0);
  }

  lemma SeenNext(b: Job, seen: set<string>, e: nat, matched: bool)
    requires Readable(b, e) && SeenRight(b, seen, e)
    requires matched <==> exists j :: 0 <= j < |b.layers| && Holds(b, e, j)
    ensures SeenRight(b, SeenWith(seen, matched, b.entries[e].name), e + 1)
  {
    var next := e + 1;
    forall name ensures SeenAt(b, next, name) <==> SeenAt(b, e, name) || (matched && name == b.entries[e].name) {
      if SeenAt(b, next, name) {
        var k, j :| 0 <= k < next && Holds(b, k, j) && b.entries[k].name == name;
        assert k < e ==> SeenAt(b, e, name);
      }
      if SeenAt(b, e, name) {
        var k, j :| 0 <= k < e && Holds(b, k, j) && b.entries[k].name == name;
        assert k < next;
      }
      if matched {
        var j :| 0 <= j < |b.layers| && Holds(b, e, j);
        assert SeenAt(b, next, b.entries[e].name);
      }
    }
  }

  method ProcessEntry(b: Job, e: nat, work: Work, seen: set<string>)
    returns (after: Work, seenAfter: set<string>, failure: Option<Failure>)
    requires Readable(b, e) && Working(b, work, e, 0) && SeenRight(b, seen, e)
    ensures failure.None? <==> EntryAccepted(b, e)
    ensures failure.Some? ==> RefusedAt(b, e, failure.value)
    ensures failure.None? ==> Working(b, after, e + 1, 0) && SeenRight(b, seenAfter, e + 1)
    ensures Accounted(after.log, after.readers, after.slots, e + 1, 0) && LeftLinked(b, after.log, failure)
  {
    after, seenAfter, failure := work, seen, None;
    var matched, l := false, 0;
    while l < |b.layers|
      invariant 0 <= l <= |b.layers| && Working(b, after, e, l)
      invariant failure.None? && forall j :: 0 <= j < l ==> LayerAccepts(b, e, j)
      invariant matched <==> exists j :: 0 <= j < l && Holds(b, e, j)
      invariant seenAfter == SeenWith(seen, matched, b.entries[e].name)
      invariant matched ==> b.entries[e].name !in seen
    {
      after, seenAfter, matched, failure := TryLayer(b, e, l, after, seenAfter, matched, seen);
      if failure.Some? {
        assert Refuses(b, e, l, failure.value) && !LayerAccepts(b, e, l);
        ForgetLayer(after.log, after.readers, after.slots, e, l + 1);
        return;
      }
      l := l + 1;
    }
    NextEntry(b, after, e);
    SeenNext(b, seen, e, matched);
  }

  // ---- All entries ----

  method Assemble(b: Job) returns (work: Work, failure: Option<Failure>)
    ensures failure.None? <==> Assembles(b)
    ensures failure.Some? ==> Explains(b, failure.value)
    ensures failure.None? ==> Working(b, work, |b.entries|, 0)
    ensures failure.None? ==> forall l :: 0 <= l < |work.slots| ==> work.slots[l].Some?
    ensures exists e :: Accounted(work.log, work.readers, work.slots, e, 0)
    ensures LeftLinked(b, work.log, failure)
  {
    var none: Option<Slot> := None;
    work := Work(seq(|b.layers|, _ => none), [File], [Open(File)]);
    StartsAccounted(work.slots);
    var seen: set<string> := {};
    failure := None;
    var e := 0;
    while e < |b.entries|
      invariant 0 <= e <= |b.entries| && failure.None?
      invariant forall k :: 0 <= k < e ==> EntryAccepted(b, k)
      invariant Working(b, work, e, 0) && SeenRight(b, seen, e)
    {
      assert EntryAccepted(b, e) ==> Readable(b, e);
      if b.entries[e].Broken? {
        assert FirstRefused(b, e, BrokenArchive);
        WorkingLinks(b, work, e, 0, BrokenArchive);
        return work, Some(BrokenArchive);
      }
      if !b.entries[e].isLocal {
        assert FirstRefused(b, e, NotLocal(b.entries[e].name));
        WorkingLinks(b, work, e, 0, NotLocal(b.entries[e].name));
        return work, Some(NotLocal(b.entries[e].name));
      }
      if !b.entries[e].positioned {
        assert FirstRefused(b, e, NotPositioned);
        WorkingLinks(b, work, e, 0, NotPositioned);
        return work, Some(NotPositioned);
      }
      work, seen, failure := ProcessEntry(b, e, work, seen);
      if failure.Some? {
        assert FirstRefused(b, e, failure.value);
        return;
      }
      e := e + 1;
    }
    var l := 0;
    while l < |work.slots|
      invariant 0 <= l <= |work.slots| && forall j :: 0 <= j < l ==> work.slots[j].Some? && Found(b, e, j)
    {
      assert SlotRight(b, work.slots, e, 0, l);
      if work.slots[l].None? {
        NotFound(b, work.slots, l);
        assert FirstMissing(b, l);
        WorkingLinks(b, work, e, 0, Missing(l));
        return work, Some(Missing(l));
      }
      l := l + 1;
    }
    AllFound(b, work.slots);
  }

  lemma StartsAccounted(slots: Slots)
    requires forall i :: 0 <= i < |slots| ==> slots[i].None?
    ensures Accounted([Open(File)], [File], slots, 0, 0) && Tidy([Open(File)], [File], slots)
  {
    forall r ensures Live([Open(File)], [File], slots, 0, 0, r) {}
  }

  lemma NotFound(b: Job, slots: Slots, l: nat)
    requires SlotsRight(b, slots, |b.entries|, 0) && l < |slots| && slots[l].None?
    ensures !Found(b, |b.entries|, l) && !Assembles(b)
  {
    assert SlotRight(b, slots, |b.entries|, 0, l);
  }

  lemma AllFound(b: Job, slots: Slots)
    requires SlotsRight(b, slots, |b.entries|, 0) && forall l :: 0 <= l < |slots| ==> slots[l].Some?
    ensures forall l :: 0 <= l < |b.layers| ==> Found(b, |b.entries|, l)
  {
    forall l | 0 <= l < |b.layers| ensures Found(b, |b.entries|, l) {
      assert SlotRight(b, slots, |b.entries|, 0, l);
    }
  }

  // ---- The whole call ----

  /** The digest of the first image manifest that the index lists, or the empty string. */
  function ManifestDigest(index: seq<Descriptor>): string {
    if index == [] then ""
    else if index[0].mediaType == MANIFEST then index[0].digest
    else ManifestDigest(index[1..])
  }

  ghost predicate FirstManifest(index: seq<Descriptor>, i: int) {
    && 0 <= i < |index| && index[i].mediaType == "application/vnd.oci.image.manifest.v1+json"
    && forall j :: 0 <= j < i ==> index[j].mediaType != "application/vnd.oci.image.manifest.v1+json"
  }

  lemma {:induction false} ManifestIsFirst(index: seq<Descriptor>, i: int)
    ensures FirstManifest(index, i) ==> ManifestDigest(index) == index[i].digest
    ensures (forall j :: !FirstManifest(index, j)) ==> ManifestDigest(index) == ""
  {
    if index != [] && index[0].mediaType != MANIFEST {
      ManifestIsFirst(index[1..], i - 1);
      forall j | FirstManifest(index[1..], j) ensures FirstManifest(index, j + 1) {
        assert forall k :: 0 < k < j + 1 ==> index[k] == index[1..][k - 1];
      }
    } else if index != [] {
      assert FirstManifest(index, 0);
    }
  }

  datatype Image = Image(hash: Digest, layers: seq<Descriptor>)

  /** The manifest that index.json leads to, when everything on the way can be read. */
  function ImageOf(a: Archive, w: World): Option<Image> {
    if a.index.None? || ManifestDigest(a.index.value) == "" then None
    else
      var hash := w.parse(ManifestDigest(a.index.value));
      if hash.None? || a.manifest(BlobPath(hash.value)).None? then None
      else Some(Image(hash.value, a.manifest(BlobPath(hash.value)).value))
  }

  /** The image is read from the manifest blob that the first image manifest of the index names. */
  lemma ImageIff(a: Archive, w: World, image: Image)
    ensures ImageOf(a, w) == Some(image) <==>
            && a.index.Some?
            && exists i :: && FirstManifest(a.index.value, i) && a.index.value[i].digest != ""
                           && w.parse(a.index.value[i].digest) == Some(image.hash)
                           && a.manifest("blobs/" + image.hash.algorithm + "/" + image.hash.hex) == Some(image.layers)
  {
    if a.index.Some? {
      forall i ensures FirstManifest(a.index.value, i) ==> ManifestDigest(a.index.value) == a.index.value[i].digest {
        ManifestIsFirst(a.index.value, i);
      }
      ManifestIsFirst(a.index.value, 0);
    }
  }

  /** What is wrong with the way to the manifest when it cannot be read. */
  function NoImage(a: Archive, w: World): Failure {
    if a.index.None? then NoIndex
    else if ManifestDigest(a.index.value) == "" then NoManifestDigest
    else if w.parse(ManifestDigest(a.index.value)).None? then BadManifestDigest
    else NoManifest
  }

  method FindManifest(index: seq<Descriptor>) returns (digest: string)
    ensures digest == ManifestDigest(index)
    ensures forall i :: FirstManifest(index, i) ==> digest == index[i].digest
    ensures (forall i :: !FirstManifest(index, i)) ==> digest == ""
  {
    forall i ensures FirstManifest(index, i) ==> ManifestDigest(index) == index[i].digest {
      ManifestIsFirst(index, i);
    }
    ManifestIsFirst(index, 0);
    var i := 0;
    while i < |index|
      invariant 0 <= i <= |index| && ManifestDigest(index) == ManifestDigest(index[i..])
    {
      if index[i].mediaType == MANIFEST {
        return index[i].digest;
      }
      i := i + 1;
    }
    digest := "";
  }

  method OpenManifest(a: Archive, w: World) returns (image: Option<Image>, why: Failure)
    ensures image == ImageOf(a, w)
    ensures image.None? ==> why == NoImage(a, w)
  {
    image, why := None, NoIndex;
    if a.index.None? {
      return;
    }
    var digest := FindManifest(a.index.value);
    if digest == "" {
      why := NoManifestDigest;
      return;
    }
    var hash := w.parse(digest);
    if hash.None? {
      why := BadManifestDigest;
      return;
    }
    var layers := a.manifest(BlobPath(hash.value));
    if layers.None? {
      why := NoManifest;
      return;
    }
    image := Some(Image(hash.value, layers.value));
  }

  /** Layer i was built from the only entry with its blob's path, carries its descriptor's digest, and was unpacked
      exactly when its media type says gzip. */
  ghost predicate LayerRight(b: Job, layer: Slot, i: int) {
    && 0 <= i < |b.layers| && Some(layer.digest) == b.w.parse(b.layers[i].digest)
    && (forall k :: Holds(b, k, i) <==> k == layer.entry)
    && layer.unpacked == IsGzip(b.layers[i].mediaType)
  }

  /** What a successful call leaves: the archive, the unpacked files (unlinked) and the layers open, each opened
      once; everything else closed as often as opened. */
  ghost predicate HandsOver(log: seq<Action>, layers: seq<Slot>, readers: seq<Resource>, r: Resource) {
    match r
    case File => r in readers && Count(log, Open(r)) == 1 && Count(log, Close(r)) == 0
    case Temp(e, i) =>
      && (r in readers <==> 0 <= i < |layers| && layers[i].entry == e && layers[i].unpacked)
      && Count(log, Open(r)) == Count(log, Unlink(r)) == Times(r in readers) && Count(log, Close(r)) == 0
    case Gzip(_, _) => Count(log, Open(r)) == Count(log, Close(r)) <= 1 && r !in readers
    case Layer(i) =>
      Count(log, Open(r)) == Times(0 <= i < |layers|) && Count(log, Close(r)) == 0 && r !in readers
  }

  function Values(slots: Slots): (layers: seq<Slot>)
    requires forall i :: 0 <= i < |slots| ==> slots[i].Some?
    ensures |layers| == |slots| && forall i :: 0 <= i < |slots| ==> layers[i] == slots[i].value
  {
    if slots == [] then [] else [slots[0].value] + Values(slots[1..])
  }

  lemma WorkHandsOver(b: Job, k: Work)
    requires Assembles(b) && Working(b, k, |b.entries|, 0)
    requires forall i :: 0 <= i < |k.slots| ==> k.slots[i].Some?
    ensures |Values(k.slots)| == |b.layers|
    ensures forall i :: 0 <= i < |b.layers| ==> LayerRight(b, Values(k.slots)[i], i)
    ensures Distinct(k.readers) && forall r :: HandsOver(k.log, Values(k.slots), k.readers, r)
  {
    var layers := Values(k.slots);
    forall i | 0 <= i < |b.layers| ensures LayerRight(b, layers[i], i) {
      assert SlotRight(b, k.slots, |b.entries|, 0, i);
      OnlyHolder(b, layers[i].entry, i);
    }
    forall r ensures HandsOver(k.log, layers, k.readers, r) {
      assert Live(k.log, k.readers, k.slots, |b.entries|, 0, r);
      assert r.Temp? ==> (Filled(k.slots, r.l) <==> 0 <= r.l < |layers|);
    }
  }

  lemma OnlyHolder(b: Job, e: int, i: int)
    requires Assembles(b) && Holds(b, e, i)
    ensures forall k :: Holds(b, k, i) <==> k == e
  {
    forall k | Holds(b, k, i) ensures k == e {
      assert EntryAccepted(b, k) && EntryAccepted(b, e);
      assert LayerAccepts(b, k, i) && LayerAccepts(b, e, i);
    }
  }

  lemma CleanedUp(b: Job, work: Work, log: seq<Action>, failure: Option<Failure>)
    requires exists e :: Accounted(work.log, work.readers, work.slots, e, 0)
    requires LeftLinked(b, work.log, failure) && log == work.log + CloseLayers(work.slots) + CloseReaders(work.readers)
    ensures NothingLeaks(log) && LeftLinked(b, log, failure)
  {
    var e :| Accounted(work.log, work.readers, work.slots, e, 0);
    ClosingBalances(work.log, work.readers, work.slots, e, 0);
    ClosesKeepLinks(b, work.log, work.slots, work.readers, failure);
  }

  /** The deferred cleanup: closes what was gathered. */
  method CleanUp(b: Job, work: Work, failure: Option<Failure>) returns (log: seq<Action>)
    requires exists e :: Accounted(work.log, work.readers, work.slots, e, 0)
    requires LeftLinked(b, work.log, failure)
    ensures NothingLeaks(log) && LeftLinked(b, log, failure)
  {
    var closes := CloseManifestResources(work.slots, work.readers);
    log := work.log + closes;
    assert log == work.log + CloseLayers(work.slots) + CloseReaders(work.readers);
    CleanedUp(b, work, log, failure);
  }

  ghost predicate Delivers(b: Job, hash: Digest, r: Result, log: seq<Action>) {
    && r.Parsed? && r.hash == hash && |r.layers| == |b.layers|
    && (forall i :: 0 <= i < |b.layers| ==> LayerRight(b, r.layers[i], i))
    && Distinct(r.readers) && forall x :: HandsOver(log, r.layers, r.readers, x)
  }

  function JobOf(a: Archive, w: World): Job {
    Job(w, a.entries, if ImageOf(a, w).Some? then ImageOf(a, w).value.layers else [])
  }

  /** parseLocalArchive. It succeeds exactly when the manifest can be read, the file rewinds and the layers
      assemble; on any failure everything it opened has been closed exactly once. */
  method ParseLocalArchive(a: Archive, w: World) returns (r: Result, log: seq<Action>)
    ensures r.Parsed? <==> ImageOf(a, w).Some? && a.rewinds && Assembles(JobOf(a, w))
    ensures r.Parsed? ==> Delivers(JobOf(a, w), ImageOf(a, w).value.hash, r, log)
    ensures r.Failed? ==> NothingLeaks(log) && LeftLinked(JobOf(a, w), log, Some(r.why))
    ensures r.Failed? ==>
              if ImageOf(a, w).None? then r.why == NoImage(a, w)
              else if !a.rewinds then r.why == NotRewound
              else Explains(JobOf(a, w), r.why)
  {
    var b := JobOf(a, w);
    var image, why := OpenManifest(a, w);
    var start := Work([], [File], [Open(File)]);
    StartsAccounted([]);
    if image.None? {
      TidyLinks(start.log, start.readers, start.slots, 0, 0, why);
      log := CleanUp(b, start, Some(why));
      return Failed(why), log;
    }
    if !a.rewinds {
      TidyLinks(start.log, start.readers, start.slots, 0, 0, NotRewound);
      log := CleanUp(b, start, Some(NotRewound));
      return Failed(NotRewound), log;
    }
    var work, failure := Assemble(b);
    if failure.Some? {
      log := CleanUp(b, work, failure);
      return Failed(failure.value), log;
    }
    WorkHandsOver(b, work);
    r, log := Parsed(image.value.hash, Values(work.slots), work.readers), work.log;
    assert Delivers(b, image.value.hash, r, log);
  }

  lemma ClosesKeepLinks(b: Job, log: seq<Action>, slots: Slots, readers: seq<Resource>, f: Option<Failure>)
    requires LeftLinked(b, log, f)
    ensures LeftLinked(b, log + CloseLayers(slots) + CloseReaders(readers), f)
  {
    if f.Some? {
      ClosingKeepsLinks(log, slots, readers, f.value);
      if f.value.UnpackFailed? {
        ClosingOnlyCloses(log, slots, readers, Open(Temp(f.value.e, f.value.l)));
      }
    }
  }

  lemma WorkingLinks(b: Job, k: Work, e: int, l: int, f: Failure)
    requires Working(b, k, e, l) && !f.UnpackFailed?
    ensures LeftLinked(b, k.log, Some(f))
  {
    TidyLinks(k.log, k.readers, k.slots, e, l, f);
  }

  /** After a success nothing is lost either: closing the layers and the returned readers closes everything that
      was opened exactly once. */
  lemma ClosingAfterSuccess(b: Job, hash: Digest, r: Result, log: seq<Action>, slots: Slots)
    requires Delivers(b, hash, r, log)
    requires |slots| == |r.layers| && forall i :: 0 <= i < |slots| ==> slots[i] == Some(r.layers[i])
    ensures NothingLeaks(log + CloseLayers(slots) + CloseReaders(r.readers))
  {
    var all := log + CloseLayers(slots) + CloseReaders(r.readers);
    forall x ensures Count(all, Open(x)) == Count(all, Close(x)) <= 1 {
      assert HandsOver(log, r.layers, r.readers, x);
      ClosesLayers(slots, x);
      ClosesReaders(r.readers, x);
      CountAppend(log, CloseLayers(slots), Open(x));
      CountAppend(log, CloseLayers(slots), Close(x));
      CountAppend(log + CloseLayers(slots), CloseReaders(r.readers), Open(x));
      CountAppend(log + CloseLayers(slots), CloseReaders(r.readers), Close(x));
    }
  }
}

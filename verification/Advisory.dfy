/** The records updaters hand to the store, the byte streams their digests are taken over, and the columns they
    are stored as. MD5 is symbolic: equal digests are equal inputs. */
module Advisory {
  import opened Text
  import VR = VersionRange
  import opened Order

  datatype Digest = Md5(input: string)

  datatype Package = Package(name: string, version: string, mod: string, arch: string, kind: string)

  datatype Distribution = Distribution(
    did: string, name: string, version: string, versionCodeName: string, versionId: string, arch: string,
    cpe: string, prettyName: string)

  datatype Repository = Repository(name: string, key: string, uri: string)

  /** A time in its two renderings: Time.String, which is hashed, and RFC 3339, which is stored. */
  datatype Time = Time(full: string, rfc3339: string)

  datatype Vulnerability = Vulnerability(
    updater: string, name: string, description: string, issued: Time, links: string, severity: string,
    normalizedSeverity: string, pkg: Option<Package>, dist: Option<Distribution>, repo: Option<Repository>,
    fixedIn: string, archOperation: string, range: Option<VR.Range>, invert: bool)

  function PackageBytes(p: Package): string { p.name + p.version + p.mod + p.arch + p.kind }

  function DistributionBytes(d: Distribution): string {
    d.did + d.name + d.version + d.versionCodeName + d.versionId + d.arch + d.cpe + d.prettyName
  }

  function RepositoryBytes(r: Repository): string { r.name + r.key + r.uri }

  function RangeBytes(r: Option<VR.Range>): string {
    var f := VR.FormatOf(r);
    if f.kind.Some? then f.kind.value + f.lower + f.upper else ""
  }

  /** md5Vuln writes the fields one after another, with nothing between them; the updater, the normalized
      severity and the invert flag are not written. */
  function VulnBytes(v: Vulnerability): string {
    v.name + v.description + v.issued.full + v.links + v.severity
    + (if v.pkg.Some? then PackageBytes(v.pkg.value) else "")
    + (if v.dist.Some? then DistributionBytes(v.dist.value) else "")
    + (if v.repo.Some? then RepositoryBytes(v.repo.value) else "")
    + v.archOperation + v.fixedIn + RangeBytes(v.range)
  }

  const NO_DISTRIBUTION := Distribution("", "", "", "", "", "", "", "")
  const NO_REPOSITORY := Repository("", "", "")

  /** The record's package, distribution and repository, empty ones for those missing. */
  function PackageIn(v: Vulnerability): Package {
    if v.pkg.Some? then v.pkg.value else Package("", "", "", "", "")
  }

  function DistributionIn(v: Vulnerability): Distribution {
    if v.dist.Some? then v.dist.value else NO_DISTRIBUTION
  }

  function RepositoryIn(v: Vulnerability): Repository { if v.repo.Some? then v.repo.value else NO_REPOSITORY }

  // ---- The hashed fields ----

  function Concat(parts: seq<string>): string {
    if parts == [] then "" else parts[0] + Concat(parts[1..])
  }

  lemma {:induction false} ConcatAppend(a: seq<string>, b: seq<string>)
    ensures Concat(a + b) == Concat(a) + Concat(b)
  {
    if a == [] {
      assert a + b == b;
    } else {
      ConcatAppend(a[1..], b);
      assert (a + b)[1..] == a[1..] + b;
      assert Concat(a) + Concat(b) == a[0] + (Concat(a[1..]) + Concat(b));
    }
  }

  lemma ConcatTwo(a: string, b: string)
    ensures Concat([a, b]) == a + b
  {
    assert [a, b][1..] == [b] && [b][1..] == [];
    assert Concat([b]) == b by { assert b + "" == b; }
  }

  lemma ConcatThree(a: string, b: string, c: string)
    ensures Concat([a, b, c]) == a + b + c
  {
    assert [a, b, c][1..] == [b, c];
    ConcatTwo(b, c);
    assert a + (b + c) == a + b + c;
  }

  lemma ConcatAround(a: seq<string>, x: string, b: seq<string>)
    ensures Concat(a + [x] + b) == Concat(a) + x + Concat(b)
  {
    ConcatAppend(a + [x], b);
    ConcatAppend(a, [x]);
    assert [x][1..] == [] && x + "" == x;
  }

  function PackageFields(p: Package): (fields: seq<string>)
    ensures |fields| == 5
  {
    [p.name, p.version, p.mod] + [p.arch, p.kind]
  }

  function DistributionFields(d: Distribution): (fields: seq<string>)
    ensures |fields| == 8
  {
    [d.did, d.name, d.version] + [d.versionCodeName, d.versionId, d.arch] + [d.cpe, d.prettyName]
  }

  function RangeFields(f: VR.Formatted): (fields: seq<string>)
    ensures |fields| == 3
  {
    if f.kind.Some? then [f.kind.value, f.lower, f.upper] else ["", "", ""]
  }

  /** The hashed fields, in the order in which they are written; what is missing writes nothing. */
  function Written(v: Vulnerability): (fields: seq<string>)
    ensures |fields| == 26
  {
    var r := RepositoryIn(v);
    [v.name, v.description, v.issued.full] + [v.links, v.severity] + PackageFields(PackageIn(v))
    + DistributionFields(DistributionIn(v)) + [r.name, r.key, r.uri] + [v.archOperation, v.fixedIn]
    + RangeFields(VR.FormatOf(v.range))
  }

  lemma PackageWritten(p: Package)
    ensures Concat(PackageFields(p)) == PackageBytes(p)
  {
    ConcatAppend([p.name, p.version, p.mod], [p.arch, p.kind]);
    ConcatThree(p.name, p.version, p.mod);
    ConcatTwo(p.arch, p.kind);
    assert p.name + p.version + p.mod + (p.arch + p.kind) == PackageBytes(p);
  }

  lemma DistributionWritten(d: Distribution)
    ensures Concat(DistributionFields(d)) == DistributionBytes(d)
  {
    var first, second := [d.did, d.name, d.version], [d.versionCodeName, d.versionId, d.arch];
    ConcatAppend(first + second, [d.cpe, d.prettyName]);
    ConcatAppend(first, second);
    ConcatThree(d.did, d.name, d.version);
    ConcatThree(d.versionCodeName, d.versionId, d.arch);
    ConcatTwo(d.cpe, d.prettyName);
    assert d.did + d.name + d.version + (d.versionCodeName + d.versionId + d.arch) + (d.cpe + d.prettyName)
        == DistributionBytes(d);
  }

  lemma RangeWritten(r: Option<VR.Range>)
    ensures Concat(RangeFields(VR.FormatOf(r))) == RangeBytes(r)
  {
    var f := VR.FormatOf(r);
    if f.kind.Some? {
      ConcatThree(f.kind.value, f.lower, f.upper);
    } else {
      ConcatThree("", "", "");
    }
  }

  lemma ConcatSeven(a: seq<string>, b: seq<string>, c: seq<string>, d: seq<string>, e: seq<string>, f: seq<string>,
                    g: seq<string>)
    ensures Concat(a + b + c + d + e + f + g)
         == Concat(a) + Concat(b) + Concat(c) + Concat(d) + Concat(e) + Concat(f) + Concat(g)
  {
    ConcatAppend(a, b);
    ConcatAppend(a + b, c);
    ConcatAppend(a + b + c, d);
    ConcatAppend(a + b + c + d, e);
    ConcatAppend(a + b + c + d + e, f);
    ConcatAppend(a + b + c + d + e + f, g);
  }

  lemma MissingWritesNothing(v: Vulnerability)
    ensures VulnBytes(v) == v.name + v.description + v.issued.full + v.links + v.severity + PackageBytes(PackageIn(v))
                            + DistributionBytes(DistributionIn(v)) + RepositoryBytes(RepositoryIn(v))
                            + v.archOperation + v.fixedIn + RangeBytes(v.range)
  {
    assert PackageBytes(Package("", "", "", "", "")) == "";
    assert DistributionBytes(NO_DISTRIBUTION) == "" && RepositoryBytes(NO_REPOSITORY) == "";
  }

  lemma Regroup(head: string, l: string, s: string, p: string, d: string, r: string, a: string, f: string, g: string)
    ensures head + (l + s) + p + d + r + (a + f) + g == head + l + s + p + d + r + a + f + g
  {
    assert head + (l + s) == head + l + s;
    var front := head + l + s + p + d + r;
    assert front + (a + f) == front + a + f;
  }

  lemma BytesAreWritten(v: Vulnerability)
    ensures VulnBytes(v) == Concat(Written(v))
  {
    var p, d, r := PackageIn(v), DistributionIn(v), RepositoryIn(v);
    ConcatSeven([v.name, v.description, v.issued.full], [v.links, v.severity], PackageFields(p),
                DistributionFields(d), [r.name, r.key, r.uri], [v.archOperation, v.fixedIn],
                RangeFields(VR.FormatOf(v.range)));
    ConcatThree(v.name, v.description, v.issued.full);
    ConcatTwo(v.links, v.severity);
    ConcatThree(r.name, r.key, r.uri);
    ConcatTwo(v.archOperation, v.fixedIn);
    PackageWritten(p);
    DistributionWritten(d);
    RangeWritten(v.range);
    MissingWritesNothing(v);
    Regroup(v.name + v.description + v.issued.full, v.links, v.severity, PackageBytes(p), DistributionBytes(d),
            RepositoryBytes(r), v.archOperation, v.fixedIn, RangeBytes(v.range));
  }

  /** Two records that differ in exactly one written field have different digests. */
  lemma OneFieldShows(v: Vulnerability, w: Vulnerability, k: nat)
    requires k < 26 && Written(v)[k] != Written(w)[k]
    requires forall j :: 0 <= j < 26 && j != k ==> Written(v)[j] == Written(w)[j]
    ensures Digested(v).hash != Digested(w).hash
  {
    var a, b := Written(v), Written(w);
    BytesAreWritten(v);
    BytesAreWritten(w);
    assert a[..k] == b[..k] && a[k + 1..] == b[k + 1..];
    AroundField(a, k);
    AroundField(b, k);
    if Digested(v).hash == Digested(w).hash {
      MiddleShows(Concat(a[..k]), a[k], b[k], Concat(a[k + 1..]));
    }
  }

  lemma AroundField(a: seq<string>, k: nat)
    requires k < |a|
    ensures Concat(a) == Concat(a[..k]) + a[k] + Concat(a[k + 1..])
  {
    assert a == a[..k] + [a[k]] + a[k + 1..];
    ConcatAround(a[..k], a[k], a[k + 1..]);
  }

  lemma MiddleShows(p: string, x: string, y: string, s: string)
    requires p + x + s == p + y + s
    ensures x == y
  {
    assert |x| == |y|;
    assert x == (p + x + s)[|p|..|p| + |x|] && y == (p + y + s)[|p|..|p| + |x|];
  }

  // ---- What is stored ----

  /** The columns of a vuln row that are copied from the record as they are. */
  datatype Columns = Columns(
    issued: string, links: string, severity: string, normalizedSeverity: string, pkg: Package,
    dist: Distribution, repo: Repository, fixedIn: string, archOperation: string,
    versionKind: Option<string>, range: string)

  function ColumnsOf(v: Vulnerability): Columns
    requires v.pkg.Some?
  {
    Columns(v.issued.rfc3339, v.links, v.severity, v.normalizedSeverity, v.pkg.value,
            DistributionIn(v), RepositoryIn(v), v.fixedIn, v.archOperation, VR.FormatOf(v.range).kind,
            VR.RangeColumn(v.range))
  }

  /** A vulnerability as the store's statements see it: its two interned texts, and its digest and columns unless
      it has no package name. */
  datatype Vuln = Vuln(
    updater: string, name: string, description: string, invert: bool, hash: Digest, cols: Option<Columns>)

  function Digested(v: Vulnerability): Vuln {
    Vuln(v.updater, v.name, v.description, v.invert, Md5(VulnBytes(v)),
         if v.pkg.Some? && v.pkg.value.name != "" then Some(ColumnsOf(v)) else None)
  }

  /** Whether updateVulnerabilities writes a row for the record. */
  predicate Storable(v: Vuln) { !v.invert && v.cols.Some? }

  /** A stored advisory as a reader sees it, its interned name and description resolved. */
  datatype Entry = Entry(hash: Digest, updater: string, name: string, description: string, cols: Columns)

  function EntryOf(v: Vuln): Entry
    requires Storable(v)
  {
    Entry(v.hash, v.updater, v.name, v.description, v.cols.value)
  }

  // ---- Enrichments ----

  datatype EnrichmentRecord = EnrichmentRecord(tags: seq<string>, data: string)

  /** An enrichment as it is stored and read: its digest, its tags joined, its data. */
  datatype Enrichment = Enrichment(hash: Digest, tags: string, data: string)

  function TagBytes(tags: seq<string>): string {
    if tags == [] then "" else tags[0] + "\0" + TagBytes(tags[1..])
  }

  /** hashEnrichment sorts the record's tags in place and then writes each followed by a zero byte. */
  function EnrichBytes(e: EnrichmentRecord): string { TagBytes(Sort(e.tags, StrLe)) + e.data }

  /** The stored tags are joined after that sort. */
  function DigestedEnrichment(e: EnrichmentRecord): Enrichment {
    Enrichment(Md5(EnrichBytes(e)), Join(Sort(e.tags, StrLe), ","), e.data)
  }

  /** The data are stored as they are, and tags without commas can be read back, in order. */
  lemma EnrichmentStored(e: EnrichmentRecord)
    requires forall t :: t in e.tags ==> ',' !in t
    ensures DigestedEnrichment(e).data == e.data
    ensures e.tags == [] ==> DigestedEnrichment(e).tags == ""
    ensures e.tags != [] ==> var tags := Split(DigestedEnrichment(e).tags, ",");
                             multiset(tags) == multiset(e.tags) && Sorted(tags, StrLe)
  {
    var tags := Sort(e.tags, StrLe);
    StrLeIsTotalOrder();
    SortSorted(e.tags, StrLe);
    SortMembers(e.tags, StrLe);
    if e.tags != [] {
      SplitJoin(tags, ",");
    }
  }

  predicate NulFree(s: string) { '\0' !in s }

  predicate NulFreeEnrichment(e: EnrichmentRecord) {
    NulFree(e.data) && forall t :: t in e.tags ==> NulFree(t)
  }

  lemma HasNul(a: seq<string>, x: string)
    ensures a != [] ==> !NulFree(TagBytes(a) + x)
  {
    if a != [] {
      assert (TagBytes(a) + x)[|a[0]|] == '\0';
    }
  }

  lemma {:induction false} TagBytesDecode(a: seq<string>, x: string, b: seq<string>, y: string)
    requires NulFree(x) && NulFree(y)
    requires forall t :: t in a ==> NulFree(t)
    requires forall t :: t in b ==> NulFree(t)
    requires TagBytes(a) + x == TagBytes(b) + y
    ensures a == b && x == y
  {
    HasNul(a, x);
    HasNul(b, y);
    if a == [] || b == [] {
      assert "" + x == x && "" + y == y;
    } else {
      var ra, rb := TagBytes(a[1..]) + x, TagBytes(b[1..]) + y;
      assert NulFree(a[0]) && NulFree(b[0]);
      assert TagBytes(a) + x == a[0] + ['\0'] + ra && TagBytes(b) + y == b[0] + ['\0'] + rb;
      CutAtByte(a[0], ra, b[0], rb, '\0');
      TagBytesDecode(a[1..], x, b[1..], y);
      assert a == [a[0]] + a[1..] && b == [b[0]] + b[1..];
    }
  }

  /** Without zero bytes, what is hashed determines the tags (as a multiset) and the data, and is determined by
      them. */
  lemma EnrichBytesCanonical(d: EnrichmentRecord, e: EnrichmentRecord)
    requires NulFreeEnrichment(d) && NulFreeEnrichment(e)
    ensures EnrichBytes(d) == EnrichBytes(e) <==> multiset(d.tags) == multiset(e.tags) && d.data == e.data
  {
    var a, b := Sort(d.tags, StrLe), Sort(e.tags, StrLe);
    SortMembers(d.tags, StrLe);
    SortMembers(e.tags, StrLe);
    if EnrichBytes(d) == EnrichBytes(e) {
      TagBytesDecode(a, d.data, b, e.data);
      assert multiset(d.tags) == multiset(a) == multiset(b) == multiset(e.tags);
    }
    if multiset(d.tags) == multiset(e.tags) && d.data == e.data {
      StrLeIsTotalOrder();
      SortCanonical(d.tags, e.tags, StrLe);
    }
  }

  /** The digest of a record without zero bytes. */
  ghost predicate NulFreeDigest(e: Enrichment) {
    exists r :: NulFreeEnrichment(r) && e == DigestedEnrichment(r)
  }

  /** Enrichments without zero bytes are identified by their digests. */
  lemma NulFreeIdentified(d: Enrichment, e: Enrichment)
    requires NulFreeDigest(d) && NulFreeDigest(e) && d.hash == e.hash
    ensures d == e
  {
    var q :| NulFreeEnrichment(q) && d == DigestedEnrichment(q);
    var r :| NulFreeEnrichment(r) && e == DigestedEnrichment(r);
    EnrichBytesCanonical(q, r);
    StrLeIsTotalOrder();
    SortCanonical(q.tags, r.tags, StrLe);
  }

  /** A zero byte in the data lets an untagged record hash like a tagged one. */
  lemma EnrichBytesCollide()
    ensures EnrichBytes(EnrichmentRecord(["a"], "x")) == EnrichBytes(EnrichmentRecord([], "a\0x"))
    ensures DigestedEnrichment(EnrichmentRecord(["a"], "x")) != DigestedEnrichment(EnrichmentRecord([], "a\0x"))
  {
    assert Sort(["a"], StrLe) == ["a"] by { assert ["a"][1..] == []; }
    assert TagBytes(["a"]) == "a" + "\0" + "" by { assert ["a"][1..] == []; }
    assert "a" + "\0" + "" + "x" == "a\0x";
    assert Sort<string>([], StrLe) == [];
    assert "" + "a\0x" == "a\0x";
  }

  predicate SameTagsAndData(d: EnrichmentRecord, e: EnrichmentRecord) {
    multiset(d.tags) == multiset(e.tags) && d.data == e.data
  }

  /** What is hashed identifies a record among all others if and only if it has no tags and no zero byte. */
  lemma EnrichBytesIdentifyIff(d: EnrichmentRecord)
    ensures (forall e :: EnrichBytes(d) == EnrichBytes(e) ==> SameTagsAndData(d, e)) <==>
            d.tags == [] && NulFree(d.data)
  {
    assert Sort<string>([], StrLe) == [];
    if d.tags == [] && NulFree(d.data) {
      assert EnrichBytes(d) == d.data by { assert "" + d.data == d.data; }
      forall e | EnrichBytes(d) == EnrichBytes(e) ensures SameTagsAndData(d, e) {
        HasNul(Sort(e.tags, StrLe), e.data);
        assert |Sort(e.tags, StrLe)| == |e.tags|;
        assert "" + e.data == e.data;
      }
    } else if d.tags != [] {
      var e := EnrichmentRecord([], EnrichBytes(d));
      assert EnrichBytes(e) == EnrichBytes(d) by { assert "" + e.data == e.data; }
      assert |multiset(d.tags)| != |multiset(e.tags)|;
    } else {
      var e := CutData(d);
    }
  }

  /** A zero byte in the data of an untagged record can be read as the end of a tag. */
  lemma CutData(d: EnrichmentRecord) returns (e: EnrichmentRecord)
    requires d.tags == [] && !NulFree(d.data)
    ensures EnrichBytes(d) == EnrichBytes(e) && !SameTagsAndData(d, e)
  {
    var i :| 0 <= i < |d.data| && d.data[i] == '\0';
    var tag, rest := d.data[..i], d.data[i + 1..];
    e := EnrichmentRecord([tag], rest);
    assert Sort<string>([], StrLe) == [];
    assert Sort([tag], StrLe) == [tag] by { assert [tag][1..] == []; }
    assert TagBytes([tag]) == tag + "\0" + "" by { assert [tag][1..] == []; }
    assert tag + "\0" + "" + rest == d.data == "" + d.data;
    assert |multiset(d.tags)| != |multiset(e.tags)|;
  }

  // ---- When the digest identifies the record ----

  /** No two storable records of the universe have the same digest unless they are stored alike. */
  ghost predicate NoCollision(universe: iset<Vuln>) {
    forall v, w :: v in universe && w in universe && Storable(v) && Storable(w) && v.hash == w.hash
      ==> EntryOf(v) == EntryOf(w)
  }

  function Sample(name: string, description: string, updater: string): Vulnerability {
    Vulnerability(updater, name, description, Time("", ""), "", "", "", Some(Package("p", "", "", "", "")), None,
                  None, "", "", None, false)
  }

  /** The digest alone does not identify a record: moving the boundary between name and description, or
      changing the updater, keeps every hashed byte. */
  lemma VulnHashCollides()
    ensures var v, w := Digested(Sample("CVE-1", "0", "u")), Digested(Sample("CVE-10", "", "u"));
            v.hash == w.hash && EntryOf(v) != EntryOf(w)
    ensures var v, w := Digested(Sample("CVE-1", "", "u")), Digested(Sample("CVE-1", "", "w"));
            v.hash == w.hash && EntryOf(v) != EntryOf(w)
  {
    assert "CVE-1" + "0" == "CVE-10" + "";
  }

  /** No stored vulnerability is identified by its digest, not even among the records of its own updater: the
      normalized severity, for one, can be anything. */
  lemma DigestIdentifiesNothing(v: Vulnerability)
    requires Storable(Digested(v))
    ensures exists w :: && Storable(Digested(w)) && w.updater == v.updater && Digested(w).hash == Digested(v).hash
                        && EntryOf(Digested(w)) != EntryOf(Digested(v))
  {
    var w := v.(normalizedSeverity := v.normalizedSeverity + "?");
    assert VulnBytes(w) == VulnBytes(v);
    assert EntryOf(Digested(w)).cols.normalizedSeverity != EntryOf(Digested(v)).cols.normalizedSeverity;
  }
}

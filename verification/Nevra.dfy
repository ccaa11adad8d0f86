/** Package identities: parsing epoch:version-release and the rows of a repository query, and the key under which
    both sides meet. */
module Nevra {
  import opened Text

  datatype Nevra = Nevra(name: string, epoch: string, version: string, release: string, arch: string) {
    function Fields(): seq<string> { [name, epoch, version, release, arch] }

    function Key(): string { Join(Fields(), "|") }

    function Evr(): string { epoch + ":" + version + "-" + release }
  }

  /** The fields of a claircore package that are read here. */
  datatype Package = Package(name: string, version: string, arch: string)

  datatype Error = NilPackage | EmptyName | EmptyArch | EmptyVersion | InvalidEvr(evr: string) | InvalidRow
                 | Incomplete | EmptyEpoch

  datatype Result<+T> = Ok(value: T) | Err(error: Error)

  function ParseEvr(evr: string): Result<Nevra> {
    if evr == "" then Err(EmptyVersion)
    else
      var separator := LastIndexByte(evr, '-');
      if separator <= 0 || separator == |evr| - 1 then Err(InvalidEvr(evr))
      else
        var version, release := evr[..separator], evr[separator + 1..];
        var index := IndexByte(version, ':');
        if index < 0 then Ok(Nevra("", "0", version, release, ""))
        else if index == 0 || index == |version| - 1 then Err(InvalidEvr(evr))
        else Ok(Nevra("", version[..index], version[index + 1..], release, ""))
  }

  function Validate(n: Nevra): Result<Nevra> {
    if n.name == "" || n.version == "" || n.release == "" || n.arch == "" then Err(Incomplete)
    else if n.epoch == "" then Err(EmptyEpoch)
    else Ok(n)
  }

  function ParsePackage(pkg: Option<Package>): Result<Nevra> {
    if pkg.None? then Err(NilPackage)
    else if pkg.value.name == "" then Err(EmptyName)
    else if pkg.value.arch == "" then Err(EmptyArch)
    else
      match ParseEvr(pkg.value.version)
      case Err(e) => Err(e)
      case Ok(n) => Validate(n.(name := pkg.value.name, arch := pkg.value.arch))
  }

  function EpochOrZero(epoch: string): string { if epoch == "" then "0" else epoch }

  function ParseRow(row: string): Result<Nevra> {
    var fields := Split(row, "\t");
    if |fields| != 5 then Err(InvalidRow)
    else Validate(Nevra(fields[0], EpochOrZero(fields[1]), fields[2], fields[3], fields[4]))
  }

  // ---- epoch:version-release ----

  predicate PlainVersion(version: string, release: string) {
    version != "" && release != "" && '-' !in release
  }

  predicate PlainEpoch(epoch: string) { epoch != "" && ':' !in epoch }

  lemma {:induction false} LastByteAt(p: string, c: char, rest: string)
    requires c !in rest
    ensures LastIndexByte(p + [c] + rest, c) == |p|
    decreases |rest|
  {
    if rest != "" {
      var init := rest[..|rest| - 1];
      assert (p + [c] + rest)[..|p| + |rest|] == p + [c] + init;
      LastByteAt(p, c, init);
    }
  }

  lemma FirstByteAt(p: string, c: char, rest: string)
    requires c !in p
    ensures IndexByte(p + [c] + rest, c) == |p|
  {
    var s := p + [c] + rest;
    var i := IndexByte(s, c);
    assert s[|p|] == c;
    assert forall j :: 0 <= j < i ==> s[j] == s[..i][j];
  }

  lemma ParseWithEpoch(e: string, v: string, r: string)
    requires PlainEpoch(e) && PlainVersion(v, r)
    ensures ParseEvr(e + ":" + v + "-" + r) == Ok(Nevra("", e, v, r, ""))
  {
    var p := e + ":" + v;
    var evr := p + "-" + r;
    LastByteAt(p, '-', r);
    FirstByteAt(e, ':', v);
    assert evr[..|p|] == p && evr[|p| + 1..] == r;
    assert p[..|e|] == e && p[|e| + 1..] == v;
  }

  lemma ParseWithoutEpoch(v: string, r: string)
    requires PlainVersion(v, r) && ':' !in v
    ensures ParseEvr(v + "-" + r) == Ok(Nevra("", "0", v, r, ""))
  {
    var evr := v + "-" + r;
    LastByteAt(v, '-', r);
    assert evr[..|v|] == v && evr[|v| + 1..] == r;
  }

  /** Every accepted string prints back to itself, or to itself with "0:" in front when it names no epoch. */
  lemma EvrReprints(evr: string)
    requires ParseEvr(evr).Ok?
    ensures var n := ParseEvr(evr).value;
            && PlainEpoch(n.epoch) && PlainVersion(n.version, n.release)
            && (evr == n.Evr() || ("0:" + evr == n.Evr() && ':' !in n.version))
  {
    var separator := LastIndexByte(evr, '-');
    var version, release := evr[..separator], evr[separator + 1..];
    CutAt(evr, separator);
    var index := IndexByte(version, ':');
    if index >= 0 {
      CutAt(version, index);
    } else {
      ZeroInFront(evr, version, release);
    }
  }

  lemma ZeroInFront(evr: string, version: string, release: string)
    requires evr == version + "-" + release
    ensures "0:" + evr == "0" + ":" + version + "-" + release
  {
  }

  /** Parsing gives back exactly the three parts that were printed if and only if the epoch is non-empty and has no
      colon, the version is non-empty, and the release is non-empty and has no dash. */
  lemma EvrRoundTripIff(e: string, v: string, r: string)
    ensures ParseEvr(e + ":" + v + "-" + r) == Ok(Nevra("", e, v, r, ""))
       <==> PlainEpoch(e) && PlainVersion(v, r)
  {
    var evr := e + ":" + v + "-" + r;
    if PlainEpoch(e) && PlainVersion(v, r) {
      ParseWithEpoch(e, v, r);
    }
    if ParseEvr(evr).Ok? {
      EvrReprints(evr);
    }
  }

  /** The accepted language: version-release without a colon in the version, or epoch:version-release. */
  lemma EvrAcceptance(evr: string)
    ensures ParseEvr(evr).Ok? <==>
              || (exists v, r :: PlainVersion(v, r) && ':' !in v && evr == v + "-" + r)
              || (exists e, v, r :: PlainEpoch(e) && PlainVersion(v, r) && evr == e + ":" + v + "-" + r)
  {
    if ParseEvr(evr).Ok? {
      EvrReprints(evr);
      var n := ParseEvr(evr).value;
      if evr != n.Evr() {
        var v, r := n.version, n.release;
        var separator := LastIndexByte(evr, '-');
        assert evr == evr[..separator] + "-" + evr[separator + 1..];
        assert PlainVersion(evr[..separator], evr[separator + 1..]);
        assert IndexByte(evr[..separator], ':') < 0;
      }
    }
    forall v, r | PlainVersion(v, r) && ':' !in v && evr == v + "-" + r ensures ParseEvr(evr).Ok? {
      ParseWithoutEpoch(v, r);
    }
    forall e, v, r | PlainEpoch(e) && PlainVersion(v, r) && evr == e + ":" + v + "-" + r ensures ParseEvr(evr).Ok? {
      ParseWithEpoch(e, v, r);
    }
  }

  /** Parsing confuses two accepted strings only when they differ by a leading "0:". */
  lemma EvrConfusesOnlyZeroEpoch(a: string, b: string)
    requires ParseEvr(a).Ok? && ParseEvr(a) == ParseEvr(b)
    ensures a == b || a == "0:" + b || b == "0:" + a
  {
    EvrReprints(a);
    EvrReprints(b);
    if "0:" + a == "0:" + b {
      assert a == ("0:" + a)[2..] && b == ("0:" + b)[2..];
    }
  }

  // ---- Packages and rows ----

  /** A package is accepted exactly when it has a name and an architecture and its version parses; the final check
      never rejects what got that far. */
  lemma PackageAcceptance(p: Package)
    ensures ParsePackage(Some(p)).Ok? <==> p.name != "" && p.arch != "" && ParseEvr(p.version).Ok?
    ensures ParsePackage(Some(p)).Ok? ==>
              ParsePackage(Some(p)).value == ParseEvr(p.version).value.(name := p.name, arch := p.arch)
  {
    if ParseEvr(p.version).Ok? {
      EvrReprints(p.version);
    }
  }

  /** A refused package is told the first thing that is wrong: no name, no architecture, no version, or the version. */
  lemma PackageRefusal(p: Package)
    requires ParsePackage(Some(p)).Err?
    ensures match ParsePackage(Some(p)).error
            case EmptyName => p.name == ""
            case EmptyArch => p.name != "" && p.arch == ""
            case EmptyVersion => p.name != "" && p.arch != "" && p.version == ""
            case InvalidEvr(evr) => p.name != "" && p.arch != "" && evr == p.version != "" && ParseEvr(evr).Err?
            case _ => false
  {
    PackageAcceptance(p);
  }

  /** A refused row has another number of fields, or one of the four that are needed is empty. */
  lemma RowRefusal(row: string)
    requires ParseRow(row).Err?
    ensures var fields := Split(row, "\t");
            match ParseRow(row).error
            case InvalidRow => |fields| != 5
            case Incomplete => |fields| == 5 && "" in [fields[0], fields[2], fields[3], fields[4]]
            case _ => false
  {
  }

  /** All five fields of an identity are needed. */
  lemma ValidateIff(n: Nevra)
    ensures Validate(n) == Ok(n) <==> "" !in n.Fields()
    ensures Validate(n).Ok? ==> Validate(n) == Ok(n)
  {
    assert n.Fields()[0] == n.name && n.Fields()[1] == n.epoch && n.Fields()[2] == n.version;
  }

  predicate Complete(n: Nevra) { n.name != "" && n.version != "" && n.release != "" && n.arch != "" }

  predicate Without(n: Nevra, c: char) { forall f :: f in n.Fields() ==> c !in f }

  function RowOf(n: Nevra): string { Join(n.Fields(), "\t") }

  /** A row is accepted exactly when it is five tab-free fields of which only the epoch may be empty, and then the
      result is those fields with an empty epoch read as 0. */
  lemma RowMeaning(row: string, m: Nevra)
    ensures ParseRow(row) == Ok(m) <==>
              exists n :: Without(n, '\t') && Complete(n) && row == RowOf(n) && m == n.(epoch := EpochOrZero(n.epoch))
  {
    var fields := Split(row, "\t");
    if ParseRow(row) == Ok(m) {
      var n := Nevra(fields[0], fields[1], fields[2], fields[3], fields[4]);
      SplitPartsFree(row, '\t');
      JoinSplit(row, "\t");
      assert n.Fields() == fields;
      assert Without(n, '\t') && Complete(n) && row == RowOf(n);
    }
    forall n | Without(n, '\t') && Complete(n) && row == RowOf(n) && m == n.(epoch := EpochOrZero(n.epoch))
      ensures ParseRow(row) == Ok(m)
    {
      SplitJoin(n.Fields(), "\t");
      assert fields == n.Fields();
    }
  }

  // ---- Keys ----

  function Bars(s: string): nat { multiset(s)['|'] }

  function KeyOf(a: string, b: string, c: string, d: string, e: string): string {
    a + "|" + (b + "|" + (c + "|" + (d + "|" + e)))
  }

  lemma JoinCons(a: string, rest: seq<string>)
    requires rest != []
    ensures Join([a] + rest, "|") == a + "|" + Join(rest, "|")
  {
    assert ([a] + rest)[1..] == rest;
  }

  lemma KeySpelled(n: Nevra)
    ensures n.Key() == KeyOf(n.name, n.epoch, n.version, n.release, n.arch)
  {
    JoinCons(n.release, [n.arch]);
    JoinCons(n.version, [n.release, n.arch]);
    JoinCons(n.epoch, [n.version, n.release, n.arch]);
    JoinCons(n.name, [n.epoch, n.version, n.release, n.arch]);
  }

  lemma KeyBars(n: Nevra)
    ensures Bars(n.Key()) == 4 + Bars(n.name) + Bars(n.epoch) + Bars(n.version) + Bars(n.release) + Bars(n.arch)
  {
    KeySpelled(n);
    assert Bars("|") == 1;
  }

  lemma BarsIn(s: string)
    ensures Bars(s) == 0 <==> '|' !in s
  {
    assert '|' in s <==> '|' in multiset(s);
  }

  lemma KeyWithoutBarsIdentifies(n: Nevra, m: Nevra)
    requires Without(n, '|') && n.Key() == m.Key()
    ensures n == m
  {
    KeyBars(n);
    KeyBars(m);
    assert forall f :: f in m.Fields() ==> Bars(f) == 0 by {
      BarsIn(n.name); BarsIn(n.epoch); BarsIn(n.version); BarsIn(n.release); BarsIn(n.arch);
      assert n.name in n.Fields() && n.epoch in n.Fields() && n.version in n.Fields();
      assert n.release in n.Fields() && n.arch in n.Fields();
    }
    forall f | f in m.Fields() ensures '|' !in f { BarsIn(f); }
    SplitJoin(n.Fields(), "|");
    SplitJoin(m.Fields(), "|");
    assert n.Fields()[0] == m.Fields()[0] && n.Fields()[1] == m.Fields()[1] && n.Fields()[2] == m.Fields()[2];
    assert n.Fields()[3] == m.Fields()[3] && n.Fields()[4] == m.Fields()[4];
  }

  lemma Regroup(x: string, y: string, b: string, t: string)
    ensures (x + "|" + y) + "|" + (b + "|" + t) == x + "|" + ((y + "|" + b) + "|" + t)
  {
  }

  lemma RegroupLast(x: string, y: string, b: string)
    ensures (x + "|" + y) + "|" + b == x + "|" + (y + "|" + b)
  {
  }

  lemma ShiftName(n: Nevra) returns (m: Nevra)
    requires '|' in n.name
    ensures m != n && m.Key() == n.Key()
  {
    var i := IndexByte(n.name, '|');
    var x, y := n.name[..i], n.name[i + 1..];
    CutAt(n.name, i);
    m := n.(name := x, epoch := y + "|" + n.epoch);
    KeySpelled(n);
    KeySpelled(m);
    Regroup(x, y, n.epoch, n.version + "|" + (n.release + "|" + n.arch));
  }

  lemma ShiftEpoch(n: Nevra) returns (m: Nevra)
    requires '|' in n.epoch
    ensures m != n && m.Key() == n.Key()
  {
    var i := IndexByte(n.epoch, '|');
    var x, y := n.epoch[..i], n.epoch[i + 1..];
    CutAt(n.epoch, i);
    m := n.(epoch := x, version := y + "|" + n.version);
    KeySpelled(n);
    KeySpelled(m);
    Regroup(x, y, n.version, n.release + "|" + n.arch);
  }

  lemma ShiftVersion(n: Nevra) returns (m: Nevra)
    requires '|' in n.version
    ensures m != n && m.Key() == n.Key()
  {
    var i := IndexByte(n.version, '|');
    var x, y := n.version[..i], n.version[i + 1..];
    CutAt(n.version, i);
    m := n.(version := x, release := y + "|" + n.release);
    KeySpelled(n);
    KeySpelled(m);
    Regroup(x, y, n.release, n.arch);
  }

  lemma ShiftRelease(n: Nevra) returns (m: Nevra)
    requires '|' in n.release
    ensures m != n && m.Key() == n.Key()
  {
    var i := IndexByte(n.release, '|');
    var x, y := n.release[..i], n.release[i + 1..];
    CutAt(n.release, i);
    m := n.(release := x, arch := y + "|" + n.arch);
    KeySpelled(n);
    KeySpelled(m);
    RegroupLast(x, y, n.arch);
  }

  lemma ShiftArch(n: Nevra) returns (m: Nevra)
    requires '|' in n.arch
    ensures m != n && m.Key() == n.Key()
  {
    var i := IndexByte(n.arch, '|');
    var x, y := n.arch[..i], n.arch[i + 1..];
    CutAt(n.arch, i);
    m := n.(release := n.release + "|" + x, arch := y);
    KeySpelled(n);
    KeySpelled(m);
    RegroupLast(n.release, x, y);
  }

  /** The key identifies five fields among all others if and only if none of them contains a bar. */
  lemma KeyIdentifiesIff(n: Nevra)
    ensures (forall m: Nevra :: m.Key() == n.Key() ==> m == n) <==> Without(n, '|')
  {
    if Without(n, '|') {
      forall m: Nevra | m.Key() == n.Key() ensures m == n { KeyWithoutBarsIdentifies(n, m); }
    } else {
      var m;
      if '|' in n.name { m := ShiftName(n); }
      else if '|' in n.epoch { m := ShiftEpoch(n); }
      else if '|' in n.version { m := ShiftVersion(n); }
      else if '|' in n.release { m := ShiftRelease(n); }
      else { m := ShiftArch(n); }
      assert m.Key() == n.Key() && m != n;
    }
  }

  /** A repository row and an installed package meet under one key exactly when they are the same package, an empty
      epoch in the row and a missing one in the version both meaning 0. */
  lemma PackageMeetsRowIff(p: Package, row: string)
    requires ParsePackage(Some(p)).Ok? && ParseRow(row).Ok?
    requires Without(ParsePackage(Some(p)).value, '|') || Without(ParseRow(row).value, '|')
    ensures ParsePackage(Some(p)).value.Key() == ParseRow(row).value.Key() <==>
              exists n :: && Without(n, '\t') && Complete(n) && row == RowOf(n)
                          && p.name == n.name && p.arch == n.arch
                          && ParseEvr(p.version) == Ok(Nevra("", EpochOrZero(n.epoch), n.version, n.release, ""))
  {
    var a, b := ParsePackage(Some(p)).value, ParseRow(row).value;
    PackageAcceptance(p);
    RowMeaning(row, b);
    var n :| Without(n, '\t') && Complete(n) && row == RowOf(n) && b == n.(epoch := EpochOrZero(n.epoch));
    if a.Key() == b.Key() {
      if Without(a, '|') {
        KeyWithoutBarsIdentifies(a, b);
      } else {
        KeyWithoutBarsIdentifies(b, a);
      }
      assert ParseEvr(p.version) == Ok(Nevra("", EpochOrZero(n.epoch), n.version, n.release, "")) by {
        EvrNamesNoPackage(p.version);
      }
    }
    forall k | && Without(k, '\t') && Complete(k) && row == RowOf(k) && p.name == k.name && p.arch == k.arch
               && ParseEvr(p.version) == Ok(Nevra("", EpochOrZero(k.epoch), k.version, k.release, ""))
      ensures a.Key() == b.Key()
    {
      RowMeaning(row, k.(epoch := EpochOrZero(k.epoch)));
      assert a == b;
    }
  }

  lemma EvrNamesNoPackage(evr: string)
    ensures ParseEvr(evr).Ok? ==> ParseEvr(evr).value.name == "" && ParseEvr(evr).value.arch == ""
  {
  }
}

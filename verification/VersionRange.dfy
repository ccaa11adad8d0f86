/** The vulnerable-range column: how a pair of ten-part versions is printed, parsed back, and tested. */
module VersionRange {
  import opened Text

  const PARTS := 10

  predicate IsIntVersion(v: seq<int>) {
    |v| == PARTS && forall i :: 0 <= i < PARTS ==> IsInt32(v[i])
  }

  /** claircore's [10]int32. */
  type IntVersion = v: seq<int> | IsIntVersion(v) witness [0, 0, 0, 0, 0, 0, 0, 0, 0, 0]

  const ZERO: seq<int> := [0, 0, 0, 0, 0, 0, 0, 0, 0, 0]

  datatype Version = Version(kind: string, v: IntVersion)

  datatype Range = Range(lower: Version, upper: Version)

  /** What rangefmt returns: no kind when there is no range or its two kinds differ. */
  datatype Formatted = Formatted(kind: Option<string>, lower: string, upper: string)

  function Printed(v: seq<int>): (parts: seq<string>)
    ensures |parts| == |v| && forall i :: 0 <= i < |v| ==> parts[i] == Itoa(v[i])
  {
    seq(|v|, i requires 0 <= i < |v| => Itoa(v[i]))
  }

  function Braced(v: seq<int>): string { "{" + Join(Printed(v), ",") + "}" }

  function FormatOf(r: Option<Range>): Formatted {
    match r
    case Some(Range(Version(lk, l), Version(uk, u))) =>
      if lk == uk then Formatted(Some(lk), Braced(l), Braced(u)) else Formatted(None, "{}", "{}")
    case None => Formatted(None, "{}", "{}")
  }

  /** Joining one more part appends the separator and the part. */
  lemma {:induction false} JoinSnoc(parts: seq<string>, last: string, sep: string)
    requires parts != []
    ensures Join(parts + [last], sep) == Join(parts, sep) + sep + last
  {
    var all := parts + [last];
    assert all[0] == parts[0] && all[1..] == parts[1..] + [last];
    if |parts| > 1 {
      JoinSnoc(parts[1..], last, sep);
    } else {
      assert all[1..] == [last];
    }
  }

  lemma JoinTake(parts: seq<string>, i: nat, sep: string)
    requires i < |parts|
    ensures Join(parts[..i + 1], sep) == Join(parts[..i], sep) + (if i == 0 then "" else sep) + parts[i]
  {
    assert parts[..i + 1] == parts[..i] + [parts[i]];
    if i != 0 {
      JoinSnoc(parts[..i], parts[i], sep);
    }
  }

  /** One of rangefmt's two buffer loops, over the ten printed components. */
  method WriteParts(parts: seq<string>) returns (buf: string)
    requires |parts| == PARTS
    ensures buf == "{" + Join(parts, ",") + "}"
  {
    buf := "{";
    for i := 0 to PARTS
      invariant buf == "{" + Join(parts[..i], ",")
    {
      JoinTake(parts, i, ",");
      if i != 0 {
        buf := buf + ",";
      }
      buf := buf + parts[i];
    }
    assert parts[..PARTS] == parts;
    buf := buf + "}";
  }

  method WriteVersion(v: IntVersion) returns (buf: string)
    ensures buf == Braced(v)
  {
    buf := WriteParts(Printed(v));
  }

  method RangeFmt(r: Option<Range>) returns (f: Formatted)
    ensures f == FormatOf(r)
  {
    f := Formatted(None, "{}", "{}");
    if r.None? || r.value.lower.kind != r.value.upper.kind {
      return;
    }
    var lower := WriteVersion(r.value.lower.v);
    var upper := WriteVersion(r.value.upper.v);
    f := Formatted(Some(r.value.lower.kind), lower, upper);
  }

  /** The text stored in the vulnerable_range column. */
  function RangeColumn(r: Option<Range>): string {
    var f := FormatOf(r); Join([f.lower, f.upper], "__")
  }

  // ---- Reading the column back ----

  predicate IsBrace(c: char) { c == '{' || c == '}' }

  function TrimLeft(s: string): string {
    if s != "" && IsBrace(s[0]) then TrimLeft(s[1..]) else s
  }

  function TrimRight(s: string): string {
    if s != "" && IsBrace(s[|s| - 1]) then TrimRight(s[..|s| - 1]) else s
  }

  /** strings.Trim(s, "{}"). */
  function TrimBraces(s: string): string { TrimRight(TrimLeft(s)) }

  /** A parse either fills the array, stops at a part that is no 32-bit integer, or runs past the end of the
      ten-element array, which is a run-time panic. */
  datatype Filled = Filled(v: IntVersion) | BadNumber | IndexPanic

  function FillFrom(parts: seq<string>, i: nat, v: seq<int>): Filled
    requires i <= |parts| && IsIntVersion(v)
    decreases |parts| - i
  {
    if i == |parts| then Filled(v)
    else if ParseInt32(parts[i]).None? then BadNumber
    else if i >= PARTS then IndexPanic
    else FillFrom(parts, i + 1, v[i := ParseInt32(parts[i]).value])
  }

  function Parsed(s: string): Filled { FillFrom(Split(TrimBraces(s), ","), 0, ZERO) }

  /** The first k parts have been parsed into v, and the rest of it is as it was. */
  ghost predicate FilledUpTo(parts: seq<string>, k: nat, v: seq<int>) {
    && k <= |parts| && k <= PARTS == |v|
    && (forall i :: 0 <= i < k ==> ParseInt32(parts[i]) == Some(v[i]))
    && forall i :: k <= i < PARTS ==> v[i] == 0
  }

  /** Where the parse ends: after the last part, at the first that is no number, or at an eleventh number. */
  ghost predicate EndsAt(parts: seq<string>, k: nat, r: Filled) {
    match r
    case Filled(_) => k == |parts|
    case BadNumber => k < |parts| && ParseInt32(parts[k]).None?
    case IndexPanic => k < |parts| && k == PARTS && ParseInt32(parts[k]).Some?
  }

  ghost predicate Leaves(parts: seq<string>, v: seq<int>, r: Filled) {
    exists k :: FilledUpTo(parts, k, v) && EndsAt(parts, k, r)
  }

  /** The text that is parsed is what is left when the braces at both ends are taken off, and only these. */
  lemma TrimMeaning(s: string) returns (front: string, back: string)
    ensures s == front + TrimBraces(s) + back && forall c :: c in front || c in back ==> c in "{}"
    ensures var t := TrimBraces(s); t != "" ==> t[0] !in "{}" && t[|t| - 1] !in "{}"
  {
    front := TrimLeftMeaning(s);
    back := TrimRightMeaning(TrimLeft(s));
    assert s == front + (TrimBraces(s) + back);
    assert TrimBraces(s) != "" ==> TrimBraces(s)[0] == TrimLeft(s)[0];
  }

  lemma {:induction false} TrimLeftMeaning(s: string) returns (front: string)
    ensures s == front + TrimLeft(s) && forall c :: c in front ==> c in "{}"
    ensures TrimLeft(s) != "" ==> TrimLeft(s)[0] !in "{}"
  {
    front := "";
    if s != "" && IsBrace(s[0]) {
      var more := TrimLeftMeaning(s[1..]);
      front := [s[0]] + more;
      assert s == [s[0]] + s[1..];
    }
  }

  lemma {:induction false} TrimRightMeaning(s: string) returns (back: string)
    ensures s == TrimRight(s) + back && forall c :: c in back ==> c in "{}"
    ensures TrimRight(s) != "" ==> TrimRight(s)[|TrimRight(s)| - 1] !in "{}"
  {
    back := "";
    if s != "" && IsBrace(s[|s| - 1]) {
      var more := TrimRightMeaning(s[..|s| - 1]);
      back := more + [s[|s| - 1]];
      assert s == s[..|s| - 1] + [s[|s| - 1]];
    }
  }

  /** intVersion.FromString on a zeroed array: the loop writes the receiver in place, and an error leaves in it what
      was parsed before. */
  method FromString(v: array<int>, s: string) returns (r: Filled)
    requires v.Length == PARTS && v[..] == ZERO
    modifies v
    ensures r == Parsed(s)
    ensures r.Filled? ==> v[..] == r.v
    ensures Leaves(Split(TrimBraces(s), ","), v[..], r)
  {
    var parts := Split(TrimBraces(s), ",");
    for i := 0 to |parts|
      invariant IsIntVersion(v[..]) && FilledUpTo(parts, i, v[..])
      invariant Parsed(s) == FillFrom(parts, i, v[..])
    {
      var p := ParseInt32(parts[i]);
      if p.None? {
        assert FilledUpTo(parts, i, v[..]) && EndsAt(parts, i, BadNumber);
        assert Leaves(parts, v[..], BadNumber);
        return BadNumber;
      }
      if i >= PARTS {
        assert EndsAt(parts, i, IndexPanic);
        return IndexPanic;
      }
      v[i] := p.value;
    }
    r := Filled(v[..]);
    assert EndsAt(parts, |parts|, r);
  }

  lemma PrintedChars(n: int)
    ensures forall i :: 0 <= i < |Itoa(n)| ==> IsDigit(Itoa(n)[i]) || Itoa(n)[i] == '-'
  {
  }

  predicate NumberText(s: string) {
    forall i :: 0 <= i < |s| ==> IsDigit(s[i]) || s[i] == '-' || s[i] == ','
  }

  lemma {:induction false} JoinedChars(v: seq<int>)
    ensures NumberText(Join(Printed(v), ","))
    ensures v != [] ==> Join(Printed(v), ",") != ""
  {
    if v != [] {
      PrintedChars(v[0]);
      assert Printed(v)[1..] == Printed(v[1..]);
      JoinedChars(v[1..]);
    }
  }

  lemma TrimBraced(v: seq<int>)
    requires v != []
    ensures TrimBraces(Braced(v)) == Join(Printed(v), ",")
  {
    var body := Join(Printed(v), ",");
    JoinedChars(v);
    assert Braced(v)[1..] == body + "}";
    assert TrimLeft(body + "}") == body + "}" by { assert (body + "}")[0] == body[0]; }
    assert (body + "}")[..|body|] == body;
    assert TrimRight(body) == body;
  }

  lemma {:induction false} FillPrinted(v: IntVersion, i: nat, w: IntVersion)
    requires i <= PARTS && w[..i] == v[..i]
    ensures FillFrom(Printed(v), i, w) == Filled(v)
    decreases PARTS - i
  {
    if i < PARTS {
      ParseInverts(v[i]);
      var w' := w[i := v[i]];
      assert w'[..i + 1] == w[..i] + [v[i]] == v[..i + 1];
      FillPrinted(v, i + 1, w');
    } else {
      assert w == w[..i] && v == v[..i];
    }
  }

  lemma PrintedHasNo(v: seq<int>, c: char)
    requires c != '-' && !IsDigit(c)
    ensures forall p :: p in Printed(v) ==> c !in p
  {
    var parts := Printed(v);
    forall p | p in parts ensures c !in p {
      var k :| 0 <= k < |parts| && parts[k] == p;
      PrintedChars(v[k]);
    }
  }

  /** Parsing undoes printing for every ten-part 32-bit version. */
  lemma PrintParse(v: IntVersion)
    ensures Parsed(Braced(v)) == Filled(v)
  {
    var body := TrimBraces(Braced(v));
    assert Split(body, ",") == Printed(v) by {
      TrimBraced(v);
      PrintedHasNo(v, ',');
      SplitJoin(Printed(v), ",");
    }
    FillPrinted(v, 0, ZERO);
  }

  lemma NoUnderscore(v: IntVersion)
    ensures '_' !in Braced(v)
  {
    JoinedChars(v);
  }

  /** The stored column splits into exactly the two versions it was made from. */
  lemma RangeRoundTrip(r: Range)
    requires r.lower.kind == r.upper.kind
    ensures var parts := Split(RangeColumn(Some(r)), "__");
            && |parts| == 2
            && Parsed(parts[0]) == Filled(r.lower.v)
            && Parsed(parts[1]) == Filled(r.upper.v)
    ensures FormatOf(Some(r)).kind == Some(r.lower.kind)
  {
    var parts := [Braced(r.lower.v), Braced(r.upper.v)];
    NoUnderscore(r.lower.v);
    NoUnderscore(r.upper.v);
    SplitJoin(parts, "__");
    PrintParse(r.lower.v);
    PrintParse(r.upper.v);
  }

  /** A range whose kinds differ, or no range, is stored as a column that no version test accepts. */
  lemma NoRangeColumn(r: Option<Range>)
    requires FormatOf(r).kind == None
    ensures var parts := Split(RangeColumn(r), "__"); |parts| == 2 && parts[0] == parts[1] == "{}"
    ensures Parsed("{}") == BadNumber
  {
    SplitJoin(["{}", "{}"], "__");
    assert TrimLeft("{}") == "" by {
      assert "{}"[1..] == "}";
      assert "}"[1..] == "";
    }
    assert Split("", ",") == [""];
  }

  // ---- version_in ----

  /** intVersion.String. */
  function Dotted(v: seq<int>): string { Join(Printed(v), ".") }

  predicate IsNumber(s: string) { s != "" && AllDigits(s) }

  function Values(parts: seq<string>): (v: Option<seq<int>>)
    ensures v.Some? <==> forall i :: 0 <= i < |parts| ==> IsNumber(parts[i])
    ensures v.Some? ==> |v.value| == |parts|
    ensures v.Some? ==> forall i :: 0 <= i < |parts| ==> v.value[i] == DecimalValue(parts[i])
  {
    if parts == [] then Some([])
    else
      var rest := Values(parts[1..]);
      if IsNumber(parts[0]) && rest.Some? then Some([DecimalValue(parts[0])] + rest.value) else None
  }

  /** go-version on strings of digits and dots: one segment per part. Anything else printed from integers
      carries a minus sign, which go-version rejects. */
  function Segments(s: string): Option<seq<int>> { Values(Split(s, ".")) }

  /** Each segment is one digit or more, and its value. */
  lemma SegmentsMeaning(s: string, v: seq<int>)
    ensures Segments(s) == Some(v) <==>
              var parts := Split(s, ".");
              |parts| == |v| && forall i :: 0 <= i < |v| ==>
                parts[i] != "" && (forall j :: 0 <= j < |parts[i]| ==> '0' <= parts[i][j] <= '9')
                && DecimalValue(parts[i]) == v[i]
  {
    var parts := Split(s, ".");
    if |parts| == |v| && (forall i :: 0 <= i < |v| ==> IsNumber(parts[i]) && DecimalValue(parts[i]) == v[i]) {
      assert Values(parts).Some? && Values(parts).value == v;
    }
  }

  /** go-version's loop over the segments of two versions of the same length. */
  function Compare(a: seq<int>, b: seq<int>): int
    requires |a| == |b|
  {
    if a == [] then 0
    else if a[0] == b[0] then Compare(a[1..], b[1..])
    else if a[0] < b[0] then -1 else 1
  }

  datatype Verdict = Verdict(inRange: bool) | Error | Panic

  /** The constraint ">= lower, < upper" on the segments go-version parsed. */
  function Constrained(ver: Option<seq<int>>, lower: Option<seq<int>>, upper: Option<seq<int>>): Verdict {
    if ver.Some? && lower.Some? && upper.Some? && |lower.value| == |ver.value| == |upper.value|
    then Verdict(Compare(ver.value, lower.value) >= 0 && Compare(ver.value, upper.value) < 0)
    else Error
  }

  /** _sqliteVersionIn on two string arguments. */
  function VersionIn(pkgVer: string, vulnRange: string): Verdict {
    var ver := Segments(pkgVer);
    var vers := Split(vulnRange, "__");
    if ver.None? || |vers| != 2 then Error
    else
      var lower := Parsed(vers[0]);
      if lower.IndexPanic? then Panic
      else if lower.BadNumber? then Error
      else
        var upper := Parsed(vers[1]);
        if upper.IndexPanic? then Panic
        else if upper.BadNumber? then Error
        else Constrained(ver, Segments(Dotted(lower.v)), Segments(Dotted(upper.v)))
  }

  /** Ten parts and an eleventh, all of them 32-bit integers. */
  ghost predicate TooLong(parts: seq<string>) {
    |parts| > PARTS && forall j :: 0 <= j <= PARTS ==> ParseInt32(parts[j]).Some?
  }

  lemma {:induction false} FillPanicsIff(parts: seq<string>, i: nat, v: seq<int>)
    requires i <= |parts| && i <= PARTS && IsIntVersion(v)
    requires forall j :: 0 <= j < i ==> ParseInt32(parts[j]).Some?
    ensures FillFrom(parts, i, v).IndexPanic? <==> TooLong(parts)
    decreases PARTS - i
  {
    if i < PARTS && i < |parts| && ParseInt32(parts[i]).Some? {
      FillPanicsIff(parts, i + 1, v[i := ParseInt32(parts[i]).value]);
    }
  }

  /** version_in indexes past its array, instead of returning an error, if and only if the version parses, the column
      has two bounds, and one of them has an eleventh number: the lower, or the upper when the lower parses. */
  lemma VersionInPanicsIff(pkgVer: string, vulnRange: string)
    ensures VersionIn(pkgVer, vulnRange).Panic? <==>
              var bounds := Split(vulnRange, "__");
              && Segments(pkgVer).Some? && |bounds| == 2
              && (|| TooLong(Split(TrimBraces(bounds[0]), ","))
                  || (Parsed(bounds[0]).Filled? && TooLong(Split(TrimBraces(bounds[1]), ","))))
  {
    var bounds := Split(vulnRange, "__");
    if |bounds| == 2 {
      FillPanicsIff(Split(TrimBraces(bounds[0]), ","), 0, ZERO);
      FillPanicsIff(Split(TrimBraces(bounds[1]), ","), 0, ZERO);
    }
  }

  /** Lexicographic order, stated without a comparison loop. */
  ghost predicate LexLess(a: seq<int>, b: seq<int>)
    requires |a| == |b|
  {
    exists i :: 0 <= i < |a| && a[..i] == b[..i] && a[i] < b[i]
  }

  lemma {:induction false} CompareIsLexicographic(a: seq<int>, b: seq<int>)
    requires |a| == |b|
    ensures Compare(a, b) < 0 <==> LexLess(a, b)
    ensures Compare(a, b) > 0 <==> LexLess(b, a)
    ensures Compare(a, b) == 0 <==> a == b
  {
    if a != [] {
      if a[0] == b[0] {
        CompareIsLexicographic(a[1..], b[1..]);
        LexTail(a, b);
        LexTail(b, a);
        assert a == [a[0]] + a[1..] && b == [b[0]] + b[1..];
      } else {
        LexHead(a, b);
        LexHead(b, a);
      }
    }
  }

  lemma LexTail(a: seq<int>, b: seq<int>)
    requires |a| == |b| > 0 && a[0] == b[0]
    ensures LexLess(a, b) <==> LexLess(a[1..], b[1..])
  {
    if LexLess(a, b) {
      var i :| 0 <= i < |a| && a[..i] == b[..i] && a[i] < b[i];
      assert a[1..][..i - 1] == a[..i][1..] == b[..i][1..] == b[1..][..i - 1];
    }
    if LexLess(a[1..], b[1..]) {
      var i :| 0 <= i < |a| - 1 && a[1..][..i] == b[1..][..i] && a[1..][i] < b[1..][i];
      assert a[..i + 1] == [a[0]] + a[1..][..i] == [b[0]] + b[1..][..i] == b[..i + 1];
    }
  }

  lemma LexHead(a: seq<int>, b: seq<int>)
    requires |a| == |b| > 0 && a[0] != b[0]
    ensures LexLess(a, b) <==> a[0] < b[0]
  {
    assert forall i :: 0 < i < |a| ==> a[..i][0] == a[0] && b[..i][0] == b[0];
    if a[0] < b[0] {
      assert a[..0] == b[..0];
    }
  }

  predicate NonNegative(v: seq<int>) { forall i :: 0 <= i < |v| ==> v[i] >= 0 }

  /** What go-version reads from a printed version: the same numbers, or an error if one is negative. */
  lemma DottedSegments(v: IntVersion)
    ensures Segments(Dotted(v)) == if NonNegative(v) then Some(v) else None
  {
    var parts := Printed(v);
    PrintedHasNo(v, '.');
    SplitJoin(parts, ".");
    if NonNegative(v) {
      forall i | 0 <= i < |v| ensures DecimalValue(Decimal(v[i])) == v[i] {
        DecimalValueInverts(v[i]);
      }
      assert Values(parts).value == v;
    } else {
      var i :| 0 <= i < |v| && v[i] < 0;
      assert parts[i][0] == '-';
    }
  }

  lemma VersionInOnRange(v: IntVersion, r: Range)
    requires r.lower.kind == r.upper.kind
    ensures VersionIn(Dotted(v), RangeColumn(Some(r))) ==
            if Segments(Dotted(v)).None? then Error
            else Constrained(Segments(Dotted(v)), Segments(Dotted(r.lower.v)), Segments(Dotted(r.upper.v)))
  {
    RangeRoundTrip(r);
  }

  lemma ConstrainedMeaning(v: seq<int>, lower: seq<int>, upper: seq<int>)
    requires |lower| == |v| == |upper|
    ensures Constrained(Some(v), Some(lower), Some(upper)) == Verdict(!LexLess(v, lower) && LexLess(v, upper))
  {
    CompareIsLexicographic(v, lower);
    CompareIsLexicographic(v, upper);
  }

  /** version_in on a stored range: lower bound inclusive, upper bound exclusive, in lexicographic order; it
      answers exactly when no component of the three versions is negative. */
  lemma VersionInMeaning(v: IntVersion, r: Range)
    requires r.lower.kind == r.upper.kind
    ensures var lower, upper := r.lower.v, r.upper.v;
            VersionIn(Dotted(v), RangeColumn(Some(r))) ==
            if NonNegative(v) && NonNegative(lower) && NonNegative(upper)
            then Verdict(!LexLess(v, lower) && LexLess(v, upper))
            else Error
  {
    VersionInOnRange(v, r);
    DottedSegments(v);
    DottedSegments(r.lower.v);
    DottedSegments(r.upper.v);
    ConstrainedMeaning(v, r.lower.v, r.upper.v);
  }
}

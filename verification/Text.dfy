/** Strings as Go's strings and strconv packages see them: splitting, joining, searching for a byte, and
    printing and parsing decimal integers. */
module Text {

  datatype Option<+T> = None | Some(value: T)

  // ---- strings.Join and strings.Split ----

  function Join(parts: seq<string>, sep: string): string {
    if parts == [] then ""
    else if |parts| == 1 then parts[0]
    else parts[0] + sep + Join(parts[1..], sep)
  }

  /** Offset of the first occurrence of `sep`, or -1. */
  function IndexOf(s: string, sep: string): (i: int)
    ensures -1 <= i
    ensures i >= 0 ==> i + |sep| <= |s| && s[i..i + |sep|] == sep
  {
    if sep <= s then 0
    else if s == "" then -1
    else var j := IndexOf(s[1..], sep); if j < 0 then -1 else j + 1
  }

  function Split(s: string, sep: string): (parts: seq<string>)
    requires sep != ""
    ensures parts != []
    decreases |s|
  {
    var i := IndexOf(s, sep);
    if i < 0 then [s] else [s[..i]] + Split(s[i + |sep|..], sep)
  }

  lemma {:induction false} IndexOfSkips(p: string, sep: string, rest: string)
    requires sep != "" && sep[0] !in p
    ensures IndexOf(p + sep + rest, sep) == |p|
  {
    var s := p + sep + rest;
    if p == "" {
      assert s == sep + rest;
    } else {
      assert s[0] == p[0];
      assert s[1..] == p[1..] + sep + rest;
      IndexOfSkips(p[1..], sep, rest);
    }
  }

  lemma {:induction false} IndexOfAbsent(s: string, sep: string)
    requires sep != "" && sep[0] !in s
    ensures IndexOf(s, sep) == -1
  {
    if s != "" {
      IndexOfAbsent(s[1..], sep);
    }
  }

  lemma SplitOff(p: string, sep: string, rest: string)
    requires sep != "" && sep[0] !in p
    ensures Split(p + sep + rest, sep) == [p] + Split(rest, sep)
  {
    IndexOfSkips(p, sep, rest);
    var s := p + sep + rest;
    assert s[..|p|] == p && s[|p| + |sep|..] == rest;
  }

  /** Splitting undoes joining as long as no part contains the first byte of the separator. */
  lemma {:induction false} SplitJoin(parts: seq<string>, sep: string)
    requires sep != "" && parts != []
    requires forall p :: p in parts ==> sep[0] !in p
    ensures Split(Join(parts, sep), sep) == parts
  {
    if |parts| == 1 {
      IndexOfAbsent(parts[0], sep);
    } else {
      var rest := Join(parts[1..], sep);
      SplitOff(parts[0], sep, rest);
      SplitJoin(parts[1..], sep);
      assert parts == [parts[0]] + parts[1..];
    }
  }

  lemma JoinCons(first: string, rest: seq<string>, sep: string)
    requires rest != []
    ensures Join([first] + rest, sep) == first + sep + Join(rest, sep)
  {
    assert ([first] + rest)[1..] == rest;
  }

  lemma {:induction false} JoinShows(parts: seq<string>, sep: string, k: nat, c: char)
    requires k < |parts| && c in parts[k]
    ensures c in Join(parts, sep)
  {
    if |parts| > 1 && k > 0 {
      JoinShows(parts[1..], sep, k - 1, c);
    }
  }

  lemma CutAt(s: string, i: nat)
    requires i < |s|
    ensures s == s[..i] + [s[i]] + s[i + 1..]
  {
  }

  lemma CutOut(s: string, i: nat, j: nat)
    requires i <= j <= |s|
    ensures s == s[..i] + s[i..j] + s[j..]
  {
  }

  /** Joining undoes splitting, always. */
  lemma {:induction false} JoinSplit(s: string, sep: string)
    requires sep != ""
    ensures Join(Split(s, sep), sep) == s
    decreases |s|
  {
    var i := IndexOf(s, sep);
    if i >= 0 {
      var rest := s[i + |sep|..];
      JoinSplit(rest, sep);
      JoinCons(s[..i], Split(rest, sep), sep);
      CutOut(s, i, i + |sep|);
    }
  }

  lemma {:induction false} BeforeIndexOf(s: string, c: char)
    ensures var i := IndexOf(s, [c]); if i < 0 then c !in s else c !in s[..i]
  {
    if s != "" && s[0] != c {
      BeforeIndexOf(s[1..], c);
      var i := IndexOf(s, [c]);
      assert s == [s[0]] + s[1..];
      assert i >= 0 ==> s[..i] == [s[0]] + s[1..][..i - 1];
    }
  }

  /** No part of a split at one byte contains that byte. */
  lemma {:induction false} SplitPartsFree(s: string, c: char)
    ensures forall p :: p in Split(s, [c]) ==> c !in p
    decreases |s|
  {
    BeforeIndexOf(s, c);
    var i := IndexOf(s, [c]);
    if i >= 0 {
      SplitPartsFree(s[i + 1..], c);
    }
  }

  /** The first occurrence of a byte fixes where a string was joined. */
  lemma CutAtByte(p: string, rest: string, q: string, rest': string, c: char)
    requires p + [c] + rest == q + [c] + rest'
    requires c !in p && c !in q
    ensures p == q && rest == rest'
  {
    IndexOfSkips(p, [c], rest);
    IndexOfSkips(q, [c], rest');
    var s := p + [c] + rest;
    assert p == s[..|p|] && q == s[..|q|] && rest == s[|p| + 1..] && rest' == s[|q| + 1..];
  }

  // ---- strings.IndexByte and strings.LastIndexByte ----

  function IndexByte(s: string, c: char): (i: int)
    ensures -1 <= i < |s|
    ensures i >= 0 ==> s[i] == c && c !in s[..i]
    ensures i < 0 <==> c !in s
  {
    if s == "" then -1
    else if s[0] == c then 0
    else
      var j := IndexByte(s[1..], c);
      assert s == [s[0]] + s[1..];
      assert j >= 0 ==> s[..j + 1] == [s[0]] + s[1..][..j];
      if j < 0 then -1 else j + 1
  }

  function LastIndexByte(s: string, c: char): (i: int)
    ensures -1 <= i < |s|
    ensures i >= 0 ==> s[i] == c && c !in s[i + 1..]
    ensures i < 0 <==> c !in s
  {
    if s == "" then -1
    else
      var n := |s| - 1;
      assert s == s[..n] + [s[n]];
      if s[n] == c then n
      else
        var j := LastIndexByte(s[..n], c);
        assert j >= 0 ==> s[j + 1..] == s[..n][j + 1..] + [s[n]];
        j
  }

  // ---- strconv ----

  predicate IsDigit(c: char) { '0' <= c <= '9' }

  predicate AllDigits(s: string) { forall i :: 0 <= i < |s| ==> IsDigit(s[i]) }

  function Digit(d: nat): (c: char)
    requires d < 10
    ensures IsDigit(c) && c as int - '0' as int == d
  {
    ('0' as int + d) as char
  }

  function Decimal(n: nat): (s: string)
    ensures s != "" && AllDigits(s)
  {
    if n < 10 then [Digit(n)] else Decimal(n / 10) + [Digit(n % 10)]
  }

  /** strconv.AppendInt(_, n, 10) and fmt.Sprint(n). */
  function Itoa(n: int): (s: string)
    ensures s != ""
  {
    if n < 0 then "-" + Decimal(-n) else Decimal(n)
  }

  function DecimalValue(s: string): (n: int)
    requires AllDigits(s)
    ensures n >= 0
  {
    if s == "" then 0 else DecimalValue(s[..|s| - 1]) * 10 + (s[|s| - 1] as int - '0' as int)
  }

  const INT32_MIN := -0x8000_0000
  const INT32_MAX := 0x7fff_ffff

  predicate IsInt32(n: int) { INT32_MIN <= n <= INT32_MAX }

  function Unsigned(s: string): string {
    if s != "" && (s[0] == '-' || s[0] == '+') then s[1..] else s
  }

  /** strconv.ParseInt(s, 10, 32): an optional sign, at least one digit, and a value that fits. */
  function ParseInt32(s: string): (r: Option<int>)
    ensures r.Some? ==> IsInt32(r.value)
  {
    var digits := Unsigned(s);
    if digits == "" || !AllDigits(digits) then None
    else
      var n := if s[0] == '-' then -DecimalValue(digits) else DecimalValue(digits);
      if IsInt32(n) then Some(n) else None
  }

  ghost predicate Spells(sign: string, digits: string, s: string, n: int) {
    && s == sign + digits && digits != "" && (forall i :: 0 <= i < |digits| ==> '0' <= digits[i] <= '9')
    && sign in ["", "+", "-"] && n == if sign == "-" then -DecimalValue(digits) else DecimalValue(digits)
  }

  lemma ParsedIsSpelled(s: string, n: int) returns (sign: string, digits: string)
    requires ParseInt32(s) == Some(n)
    ensures Spells(sign, digits, s, n)
  {
    if s[0] == '-' || s[0] == '+' {
      sign, digits := if s[0] == '-' then "-" else "+", s[1..];
      assert sign == [s[0]];
    } else {
      sign, digits := "", s;
    }
  }

  lemma SpelledParses(sign: string, digits: string, s: string, n: int)
    requires Spells(sign, digits, s, n) && IsInt32(n)
    ensures ParseInt32(s) == Some(n)
  {
    if sign == "" {
      assert s == digits;
    } else {
      assert s[0] == sign[0] && s[1..] == digits;
    }
  }

  /** The texts that parse: an optional sign and at least one digit, with a value between the two extremes. */
  lemma ParseMeaning(s: string, n: int)
    ensures ParseInt32(s) == Some(n) <==>
            -2147483648 <= n <= 2147483647 && exists sign, digits :: Spells(sign, digits, s, n)
  {
    if ParseInt32(s) == Some(n) {
      var sign, digits := ParsedIsSpelled(s, n);
    }
    if sign, digits :| Spells(sign, digits, s, n) && IsInt32(n) {
      SpelledParses(sign, digits, s, n);
    }
  }

  lemma {:induction false} DecimalValueInverts(n: nat)
    ensures DecimalValue(Decimal(n)) == n
  {
    var s := Decimal(n);
    if n < 10 {
      assert s[..|s| - 1] == "";
    } else {
      DecimalValueInverts(n / 10);
      assert s[..|s| - 1] == Decimal(n / 10);
    }
  }

  /** ParseInt undoes Itoa on every 32-bit value, the two extremes included. */
  lemma ParseInverts(n: int)
    requires IsInt32(n)
    ensures ParseInt32(Itoa(n)) == Some(n)
  {
    if n < 0 {
      DecimalValueInverts(-n);
      assert Unsigned(Itoa(n)) == Decimal(-n);
    } else {
      DecimalValueInverts(n);
      assert IsDigit(Decimal(n)[0]);
    }
  }
}

/** String helpers with Python's meaning: `str.isspace`, `str.strip`,
    `str.lower` (restricted to ASCII letters), substring search, `split` on a
    single character, decimal rendering (`str(n)`) and `int(s)`. */
module Text {
  import opened Wrappers

  /** Python's `str.isspace` for one character. */
  predicate IsSpace(c: char) {
    var k := c as int;
    || (9 <= k <= 13) || (28 <= k <= 32) || k == 0x85 || k == 0xA0 || k == 0x1680
    || (0x2000 <= k <= 0x200A) || k == 0x2028 || k == 0x2029 || k == 0x202F
    || k == 0x205F || k == 0x3000
  }

  predicate IsDigit(c: char) {
    '0' <= c <= '9'
  }

  predicate AllDigits(s: string) {
    forall i :: 0 <= i < |s| ==> IsDigit(s[i])
  }

  /** Leading whitespace removed. */
  function TrimStart(s: string): (r: string)
    ensures |r| <= |s| && r == s[|s| - |r|..]
    ensures forall i :: 0 <= i < |s| - |r| ==> IsSpace(s[i])
    ensures |r| > 0 ==> !IsSpace(r[0])
  {
    if |s| > 0 && IsSpace(s[0]) then TrimStart(s[1..]) else s
  }

  /** Trailing whitespace removed. */
  function TrimEnd(s: string): (r: string)
    ensures |r| <= |s| && r == s[..|r|]
    ensures forall i :: |r| <= i < |s| ==> IsSpace(s[i])
    ensures |r| > 0 ==> !IsSpace(r[|r| - 1])
  {
    if |s| > 0 && IsSpace(s[|s| - 1]) then TrimEnd(s[..|s| - 1]) else s
  }

  /** Python's `s.strip()`: the longest infix that neither starts nor ends with
      whitespace, obtained by dropping only whitespace at both ends. */
  function Strip(s: string): (r: string)
    ensures exists k :: 0 <= k <= |s| - |r| && r == s[k..][..|r|]
    ensures |r| > 0 ==> !IsSpace(r[0]) && !IsSpace(r[|r| - 1])
    ensures (forall i :: 0 <= i < |s| ==> IsSpace(s[i])) <==> r == []
  {
    var t := TrimStart(s);
    var r := TrimEnd(t);
    assert r == s[|s| - |t|..][..|r|];
    StripEmptyOnlyIfAllSpace(s, t, r);
    r
  }

  lemma StripEmptyOnlyIfAllSpace(s: string, t: string, r: string)
    requires t == TrimStart(s) && r == TrimEnd(t)
    ensures r == [] ==> forall i :: 0 <= i < |s| ==> IsSpace(s[i])
  {
  }

  function LowerChar(c: char): char {
    if 'A' <= c <= 'Z' then (c as int + 32) as char else c
  }

  /** `s.lower()` on ASCII letters; every other character is kept. */
  function Lower(s: string): (r: string)
    ensures |r| == |s|
    ensures forall i :: 0 <= i < |s| ==> r[i] == LowerChar(s[i])
  {
    seq(|s|, i requires 0 <= i < |s| => LowerChar(s[i]))
  }

  /** Python's `sub in s`. */
  predicate Contains(s: string, sub: string) {
    exists i :: 0 <= i <= |s| - |sub| && s[i..][..|sub|] == sub
  }

  /** Position of the first occurrence of `c` in `s`, if any. */
  function IndexOf(s: string, c: char): (r: Option<nat>)
    ensures r.None? <==> c !in s
    ensures r.Some? ==> r.value < |s| && s[r.value] == c && c !in s[..r.value]
  {
    if |s| == 0 then None
    else if s[0] == c then Some(0)
    else match IndexOf(s[1..], c)
      case None => None
      case Some(k) =>
        assert s[..k + 1] == [s[0]] + s[1..][..k];
        Some(k + 1)
  }

  /** `s.split(c)[0]`: the text before the first `c` (all of `s` when absent). */
  function FieldBefore(s: string, c: char): (r: string)
    ensures c !in r
    ensures c in s ==> |r| < |s| && s[..|r| + 1] == r + [c]
    ensures c !in s ==> r == s
  {
    match IndexOf(s, c)
    case None => s
    case Some(k) => s[..k]
  }

  /** `s.split(c)[1]` when `c` occurs in `s`: the text between the first
      and the second `c` (or up to the end). */
  function SecondField(s: string, c: char): (r: string)
    requires c in s
    ensures c !in r
    ensures var k := |FieldBefore(s, c)| + 1;
      k + |r| <= |s| && s[k..k + |r|] == r && (k + |r| == |s| || s[k + |r|] == c)
  {
    var k := IndexOf(s, c).value;
    var rest := s[k + 1..];
    var r := FieldBefore(rest, c);
    assert s[k + 1..k + 1 + |r|] == r;
    r
  }

  // ---------------------------------------------------------------------
  // Decimal numbers

  function DigitChar(d: nat): (c: char)
    requires d < 10
    ensures IsDigit(c) && DigitValue(c) == d
  {
    ('0' as int + d) as char
  }

  function DigitValue(c: char): nat
    requires IsDigit(c)
  {
    (c as int - '0' as int) as nat
  }

  /** The value of a string of decimal digits. */
  function DigitsValue(s: string): nat
    requires AllDigits(s)
  {
    if |s| == 0 then 0 else DigitsValue(s[..|s| - 1]) * 10 + DigitValue(s[|s| - 1])
  }

  /** Python's `str(n)` for a natural number: decimal digits, no leading zero. */
  function NatToString(n: nat): (s: string)
    ensures |s| > 0 && AllDigits(s)
    ensures |s| > 1 ==> s[0] != '0'
  {
    if n < 10 then [DigitChar(n)]
    else
      var p := NatToString(n / 10);
      p + [DigitChar(n % 10)]
  }

  /** A non-empty run of decimal digits read as a number. */
  function ParseNat(s: string): (r: Option<nat>)
    ensures r.Some? <==> |s| > 0 && AllDigits(s)
  {
    if |s| > 0 && AllDigits(s) then Some(DigitsValue(s)) else None
  }

  /** The whitespace `int(s)` skips around a number: every `str.isspace`
      character except the ASCII separators U+001C to U+001F, which `isspace`
      accepts and `int` rejects. */
  predicate IntSpace(c: char) {
    IsSpace(c) && !(28 <= c as int <= 31)
  }

  function IntTrimStart(s: string): (r: string)
    ensures |r| <= |s| && r == s[|s| - |r|..]
    ensures forall i :: 0 <= i < |s| - |r| ==> IntSpace(s[i])
    ensures |r| > 0 ==> !IntSpace(r[0])
  {
    if |s| > 0 && IntSpace(s[0]) then IntTrimStart(s[1..]) else s
  }

  function IntTrimEnd(s: string): (r: string)
    ensures |r| <= |s| && r == s[..|r|]
    ensures forall i :: |r| <= i < |s| ==> IntSpace(s[i])
    ensures |r| > 0 ==> !IntSpace(r[|r| - 1])
  {
    if |s| > 0 && IntSpace(s[|s| - 1]) then IntTrimEnd(s[..|s| - 1]) else s
  }

  /** The text `int(s)` reads: `s` with the `IntSpace` characters dropped at
      both ends. */
  function IntStrip(s: string): (r: string)
    ensures exists k :: 0 <= k <= |s| - |r| && r == s[k..][..|r|]
    ensures |r| > 0 ==> !IntSpace(r[0]) && !IntSpace(r[|r| - 1])
  {
    var t := IntTrimStart(s);
    var r := IntTrimEnd(t);
    assert r == s[|s| - |t|..][..|r|];
    r
  }

  /** Python's `int(s)`: surrounding `IntSpace` whitespace, an optional sign,
      then at least one ASCII decimal digit. The underscores Python allows
      between digits are rejected here. */
  function ParseInt(s: string): (r: Option<int>)
  {
    ParseSigned(IntStrip(s))
  }

  /** An optional sign followed by at least one digit, nothing else. */
  function ParseSigned(t: string): (r: Option<int>)
    ensures r.Some? ==> |t| > 0
  {
    if |t| > 0 && (t[0] == '-' || t[0] == '+') then
      match ParseNat(t[1..])
      case None => None
      case Some(v) => Some(if t[0] == '-' then -(v as int) else v)
    else
      match ParseNat(t)
      case None => None
      case Some(v) => Some(v)
  }

  /** Reading back a rendered number gives the number. */
  lemma {:induction false} NatToStringValue(n: nat)
    ensures DigitsValue(NatToString(n)) == n
    decreases n
  {
    if n >= 10 {
      NatToStringValue(n / 10);
      var s := NatToString(n);
      assert s[..|s| - 1] == NatToString(n / 10);
    }
  }

  lemma ParseNatToString(n: nat)
    ensures ParseNat(NatToString(n)) == Some(n)
  {
    NatToStringValue(n);
  }

  /** Distinct numbers render to distinct strings. */
  lemma NatToStringInjective(a: nat, b: nat)
    requires NatToString(a) == NatToString(b)
    ensures a == b
  {
    NatToStringValue(a);
    NatToStringValue(b);
  }

  /** `int(str(n)) == n`. */
  lemma ParseIntNatToString(n: nat)
    ensures ParseInt(NatToString(n)) == Some(n)
  {
    var s := NatToString(n);
    IntStripDigits(s);
    assert !(s[0] == '-' || s[0] == '+') by { assert IsDigit(s[0]); }
    ParseNatToString(n);
  }

  /** Digits carry no surrounding whitespace. */
  lemma IntStripDigits(s: string)
    requires |s| > 0 && AllDigits(s)
    ensures IntStrip(s) == s
  {
    assert !IntSpace(s[0]) by { assert IsDigit(s[0]); }
    assert !IntSpace(s[|s| - 1]) by { assert IsDigit(s[|s| - 1]); }
    assert IntTrimStart(s) == s;
    assert IntTrimEnd(s) == s;
  }

  /** `int` skips a leading space, tab, newline or non-ASCII blank. */
  lemma ParseIntSkipsLeadingSpace(c: char, s: string)
    requires IntSpace(c)
    ensures ParseInt([c] + s) == ParseInt(s)
  {
    var cs := [c] + s;
    assert cs[1..] == s;
    assert IntTrimStart(cs) == IntTrimStart(s);
    IntStripOfTrimmed(cs, s);
  }

  /** `int` sees only the stripped text. */
  lemma IntStripOfTrimmed(a: string, b: string)
    requires IntTrimStart(a) == IntTrimStart(b)
    ensures ParseInt(a) == ParseInt(b)
  {
  }

  /** An ASCII separator U+001C to U+001F before a number is not skipped:
      `int("\x1c2023")` raises, although `"\x1c".isspace()` holds. */
  lemma ParseIntRejectsSeparator(c: char, n: nat)
    requires 28 <= c as int <= 31
    ensures IsSpace(c)
    ensures ParseInt([c] + NatToString(n)) == None
  {
    var d := NatToString(n);
    var s := [c] + d;
    assert IsDigit(s[|s| - 1]) by { assert s[|s| - 1] == d[|d| - 1]; }
    assert IntTrimStart(s) == s;
    assert IntTrimEnd(s) == s;
    assert !IsDigit(s[0]);
  }
}

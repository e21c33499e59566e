/**
  The pieces of java.lang.String, java.lang.Integer and java.text.DecimalFormat
  that the codec relies on, stated over `string` (a sequence of characters).
  Only ASCII decimal digits are modelled; Java also accepts other Unicode digits.
 */
module JavaText {
  import opened Optional

  /** The FIX field separator, character 0x01. */
  const SOH: char := 1 as char

  predicate IsDigit(c: char) {
    '0' <= c <= '9'
  }

  predicate AllDigits(s: string) {
    forall i :: 0 <= i < |s| ==> IsDigit(s[i])
  }

  function DigitValue(c: char): nat
    requires IsDigit(c)
  {
    c as int - '0' as int
  }

  function DigitChar(d: nat): (c: char)
    requires d < 10
    ensures IsDigit(c) && DigitValue(c) == d
  {
    ('0' as int + d) as char
  }

  /** The value of a run of decimal digits, most significant first. */
  function DigitsValue(s: string): nat
    requires AllDigits(s)
  {
    if |s| == 0 then 0 else DigitsValue(s[..|s| - 1]) * 10 + DigitValue(s[|s| - 1])
  }

  const IntMin: int := -0x8000_0000
  const IntMax: int := 0x7FFF_FFFF

  /** The range of a Java `int`. */
  predicate InIntRange(n: int) {
    IntMin <= n <= IntMax
  }

  /**
    Integer.parseInt: an optional '+' or '-', then at least one digit;
    a value outside the `int` range is a NumberFormatException (None).
   */
  function ParseInt(s: string): (r: Option<int>)
    ensures r.Some? ==> InIntRange(r.value)
    ensures r.Some? ==> |s| > 0 && (IsDigit(s[0]) || s[0] == '+' || s[0] == '-')
    ensures AllDigits(s) && |s| > 0 && InIntRange(DigitsValue(s)) ==> r == Some(DigitsValue(s))
  {
    if |s| == 0 then None
    else if s[0] == '+' || s[0] == '-' then
      if |s| == 1 || !AllDigits(s[1..]) then None
      else
        var n: int := if s[0] == '-' then -(DigitsValue(s[1..]) as int) else DigitsValue(s[1..]);
        if InIntRange(n) then Some(n) else None
    else if AllDigits(s) && InIntRange(DigitsValue(s)) then Some(DigitsValue(s))
    else None
  }

  /**
    The integer converter behind FieldMap.getInt: every character must be a digit
    except a leading '-', and the text must then pass Integer.parseInt.
   */
  function ConvertInt(s: string): (r: Option<int>)
    ensures r.Some? ==> r == ParseInt(s) && s[0] != '+'
    ensures |s| == 0 || s[0] != '+' ==> r == ParseInt(s)
  {
    if forall i :: 0 <= i < |s| ==> IsDigit(s[i]) || (i == 0 && s[i] == '-') then ParseInt(s) else None
  }

  /** Decimal text of a natural number, without leading zeros. */
  function NatToString(n: nat): (r: string)
    ensures |r| > 0 && AllDigits(r)
    ensures DigitsValue(r) == n
    ensures r[0] == '0' ==> n == 0
  {
    if n < 10 then [DigitChar(n)]
    else
      var p := NatToString(n / 10);
      var r := p + [DigitChar(n % 10)];
      assert r[..|r| - 1] == p;
      r
  }

  /** Integer.toString: decimal text with a leading '-' for negative values. */
  function IntToString(n: int): (r: string)
    ensures |r| > 0
    ensures n >= 0 <==> IsDigit(r[0])
  {
    if n >= 0 then NatToString(n) else "-" + NatToString(-n)
  }

  /** DecimalFormat("000") applied to a value below 1000: exactly three digits, zero padded. */
  function Pad3(n: nat): (r: string)
    requires n < 1000
    ensures |r| == 3 && AllDigits(r)
    ensures DigitsValue(r) == n
  {
    var r := [DigitChar(n / 100), DigitChar(n / 10 % 10), DigitChar(n % 10)];
    var p, q := r[..2], r[..1];
    assert p[..1] == q && q[..0] == [];
    assert DigitsValue(q) == n / 100;
    assert DigitsValue(p) == (n / 100) * 10 + n / 10 % 10;
    assert (n / 100) * 100 + (n / 10 % 10) * 10 + n % 10 == n;
    r
  }

  /** Positions `from <= i < |s|` holding no `c`. */
  predicate NoneOf(s: string, c: char, from: int, to: int)
    requires 0 <= from <= to <= |s|
  {
    forall i :: from <= i < to ==> s[i] != c
  }

  /** String.indexOf(char, fromIndex): the first `c` at or after `from`. */
  function IndexOfChar(s: string, c: char, from: nat): (r: Option<nat>)
    ensures r.Some? ==> from <= r.value < |s| && s[r.value] == c && NoneOf(s, c, from, r.value)
    ensures r.None? ==> from >= |s| || NoneOf(s, c, from, |s|)
    decreases |s| - from
  {
    if from >= |s| then None
    else if s[from] == c then Some(from)
    else IndexOfChar(s, c, from + 1)
  }

  /** The position of the first `x` in `xs`, or -1 when `xs` has none. */
  function IndexOfInt(x: int, xs: seq<int>): (r: int)
    ensures -1 <= r < |xs|
    ensures r == -1 <==> x !in xs
    ensures r >= 0 ==> xs[r] == x && x !in xs[..r]
  {
    if |xs| == 0 then -1
    else if xs[0] == x then 0
    else
      var k := IndexOfInt(x, xs[1..]);
      assert xs == [xs[0]] + xs[1..];
      if k == -1 then -1
      else
        assert xs[..k + 1] == [xs[0]] + xs[1..][..k];
        k + 1
  }

  /** The first `c` at or after `from` is where indexOf finds it. */
  lemma {:induction false} IndexOfCharFinds(s: string, c: char, from: nat, k: nat)
    requires from <= k < |s| && s[k] == c && NoneOf(s, c, from, k)
    ensures IndexOfChar(s, c, from) == Some(k)
    decreases k - from
  {
    if from < k {
      IndexOfCharFinds(s, c, from + 1, k);
    }
  }

  /** `t` occurs in `s` starting at position `i`. */
  predicate OccursAt(s: string, t: string, i: int) {
    0 <= i && i + |t| <= |s| && s[i..i + |t|] == t
  }

  /** String.indexOf(String, fromIndex) for a non-empty pattern: the first occurrence at or after `from`. */
  function IndexOfText(s: string, t: string, from: nat): (r: Option<nat>)
    requires |t| > 0
    ensures r.Some? ==> from <= r.value && OccursAt(s, t, r.value)
    ensures r.Some? ==> forall i :: from <= i < r.value ==> !OccursAt(s, t, i)
    ensures r.None? ==> forall i :: from <= i ==> !OccursAt(s, t, i)
    decreases |s| - from
  {
    if from + |t| > |s| then None
    else if s[from..from + |t|] == t then Some(from)
    else IndexOfText(s, t, from + 1)
  }

  /** String.lastIndexOf(String) for a non-empty pattern: the last occurrence that starts before `limit`. */
  function LastIndexOfText(s: string, t: string, limit: nat): (r: Option<nat>)
    requires |t| > 0
    ensures r.Some? ==> r.value < limit && OccursAt(s, t, r.value)
    ensures r.Some? ==> forall i :: r.value < i < limit ==> !OccursAt(s, t, i)
    ensures r.None? ==> forall i :: 0 <= i < limit ==> !OccursAt(s, t, i)
  {
    if limit == 0 then None
    else if OccursAt(s, t, limit - 1) then Some(limit - 1)
    else LastIndexOfText(s, t, limit - 1)
  }

  /**
    String.compareTo: the difference of the first differing characters,
    or the difference of the lengths when one string is a prefix of the other.
   */
  function CompareTo(a: string, b: string): (r: int)
    ensures r == 0 <==> a == b
    ensures |b| <= |a| && a[..|b|] == b ==> r == |a| - |b|
  {
    if |a| == 0 || |b| == 0 then |a| - |b|
    else if a[0] != b[0] then a[0] as int - b[0] as int
    else
      var r := CompareTo(a[1..], b[1..]);
      assert a == [a[0]] + a[1..] && b == [b[0]] + b[1..];
      r
  }

  /** Integer.toString followed by Integer.parseInt (or the getInt converter) gives the value back. */
  lemma IntToStringRoundTrip(n: int)
    requires InIntRange(n)
    ensures ParseInt(IntToString(n)) == Some(n)
    ensures ConvertInt(IntToString(n)) == Some(n)
  {
    if n < 0 {
      var t := NatToString(-n);
      assert IntToString(n)[1..] == t;
    }
  }

  /** The three-digit checksum text reads back as the value it formats. */
  lemma Pad3RoundTrip(n: nat)
    requires n < 1000
    ensures ParseInt(Pad3(n)) == Some(n)
    ensures ConvertInt(Pad3(n)) == Some(n)
  {
  }
}

/**
 * The few Python string operations the client relies on (`in`, `startswith`,
 * `endswith`, `lower`, `split`, `strip`, `int`), written over `seq<char>`.
 */
module Strings {
  import opened Wrappers

  /** `t` occurs in `s` starting at index `i`. */
  ghost predicate OccursAt(s: string, t: string, i: int)
  {
    0 <= i <= |s| - |t| && s[i..i + |t|] == t
  }

  predicate StartsWith(s: string, prefix: string)
  {
    |prefix| <= |s| && s[..|prefix|] == prefix
  }

  predicate EndsWith(s: string, suffix: string)
  {
    |suffix| <= |s| && s[|s| - |suffix|..] == suffix
  }

  /** `t` does not occur in `s` at any index below `n`. */
  ghost predicate NoOccurrenceBefore(s: string, t: string, n: int)
  {
    forall i :: 0 <= i < n ==> !OccursAt(s, t, i)
  }

  /** Index of the first occurrence of `t` in `s` (Python's `str.find`, with `None` for -1). */
  function Find(s: string, t: string): (r: Option<nat>)
    ensures r.Some? ==> OccursAt(s, t, r.value) && NoOccurrenceBefore(s, t, r.value)
    ensures r.None? ==> forall i :: !OccursAt(s, t, i)
    decreases |s|
  {
    if StartsWith(s, t) then Some(0)
    else if |s| == 0 then None
    else
      var rest := Find(s[1..], t);
      assert !OccursAt(s, t, 0);
      assert forall i :: 1 <= i ==> (OccursAt(s, t, i) <==> OccursAt(s[1..], t, i - 1));
      match rest
      case Some(k) => Some(k + 1)
      case None => None
  }

  /** Python's `t in s`. */
  predicate Contains(s: string, t: string)
  {
    Find(s, t).Some?
  }

  /** The characters Python's `str.split()` and `str.strip()` treat as whitespace. */
  predicate IsSpace(c: char)
  {
    var n := c as int;
    9 <= n <= 13 || 28 <= n <= 32 || n == 0x85 || n == 0xA0 || n == 0x1680
    || 0x2000 <= n <= 0x200A || n == 0x2028 || n == 0x2029 || n == 0x202F
    || n == 0x205F || n == 0x3000
  }

  function LowerChar(c: char): char
  {
    if 'A' <= c <= 'Z' then (c as int + 32) as char else c
  }

  /** `str.lower()` restricted to ASCII letters; every other character is kept. */
  function Lower(s: string): (r: string)
    ensures |r| == |s|
    ensures forall i :: 0 <= i < |s| ==> r[i] == LowerChar(s[i])
    ensures forall i :: 0 <= i < |r| ==> !('A' <= r[i] <= 'Z')
  {
    seq(|s|, i requires 0 <= i < |s| => LowerChar(s[i]))
  }

  /** The longest prefix of `s` without whitespace. */
  function Word(s: string): (r: string)
    ensures |r| <= |s| && r == s[..|r|]
    ensures forall i :: 0 <= i < |r| ==> !IsSpace(r[i])
    ensures |r| < |s| ==> IsSpace(s[|r|])
  {
    if |s| == 0 || IsSpace(s[0]) then [] else [s[0]] + Word(s[1..])
  }

  /** `t` is the first whitespace-delimited token of `s`, found at index `k`. */
  ghost predicate FirstTokenAt(s: string, t: string, k: int)
  {
    0 <= k <= |s| - |t| && s[k..k + |t|] == t && t != []
    && (forall j :: 0 <= j < k ==> IsSpace(s[j]))
    && (forall j :: 0 <= j < |t| ==> !IsSpace(t[j]))
    && (k + |t| == |s| || IsSpace(s[k + |t|]))
  }

  lemma FirstTokenAfterSpace(s: string, t: string)
    requires |s| > 0 && IsSpace(s[0])
    requires exists k :: FirstTokenAt(s[1..], t, k)
    ensures exists k :: FirstTokenAt(s, t, k)
  {
    var k :| FirstTokenAt(s[1..], t, k);
    assert FirstTokenAt(s, t, k + 1);
  }

  /** `s.strip().split()[0]`, with `None` where Python raises `IndexError`. */
  function FirstToken(s: string): (r: Option<string>)
    ensures r.None? <==> forall j :: 0 <= j < |s| ==> IsSpace(s[j])
    ensures r.Some? ==> exists k :: FirstTokenAt(s, r.value, k)
    decreases |s|
  {
    if |s| == 0 then None
    else if IsSpace(s[0]) then
      var r := FirstToken(s[1..]);
      if r.Some? then
        FirstTokenAfterSpace(s, r.value);
        r
      else
        assert forall j :: 0 < j < |s| ==> s[j] == s[1..][j - 1];
        r
    else
      assert FirstTokenAt(s, Word(s), 0);
      Some(Word(s))
  }

  /** `s` is `r` padded on both sides with copies of `c`, `r` starting at index `i`. */
  ghost predicate PaddedWith(s: string, r: string, c: char, i: int)
  {
    0 <= i <= |s| - |r| && s[i..i + |r|] == r
    && (forall j :: 0 <= j < i ==> s[j] == c)
    && (forall j :: i + |r| <= j < |s| ==> s[j] == c)
  }

  function StripLeft(s: string, c: char): (r: string)
    ensures |r| <= |s| && r == s[|s| - |r|..]
    ensures forall j :: 0 <= j < |s| - |r| ==> s[j] == c
    ensures r == [] || r[0] != c
  {
    if |s| > 0 && s[0] == c then StripLeft(s[1..], c) else s
  }

  function StripRight(s: string, c: char): (r: string)
    ensures |r| <= |s| && r == s[..|r|]
    ensures forall j :: |r| <= j < |s| ==> s[j] == c
    ensures r == [] || r[|r| - 1] != c
  {
    if |s| > 0 && s[|s| - 1] == c then StripRight(s[..|s| - 1], c) else s
  }

  /** Python's `s.strip(c)` for a one-character argument. */
  function Strip(s: string, c: char): (r: string)
    ensures PaddedWith(s, r, c, |s| - |StripLeft(s, c)|)
    ensures r == [] || (r[0] != c && r[|r| - 1] != c)
  {
    var l := StripLeft(s, c);
    var r := StripRight(l, c);
    StripPadding(s, l, r, c);
    r
  }

  lemma StripPadding(s: string, l: string, r: string, c: char)
    requires |l| <= |s| && l == s[|s| - |l|..] && forall j :: 0 <= j < |s| - |l| ==> s[j] == c
    requires |r| <= |l| && r == l[..|r|] && forall j :: |r| <= j < |l| ==> l[j] == c
    ensures PaddedWith(s, r, c, |s| - |l|)
  {
    var i := |s| - |l|;
    assert s[i..i + |r|] == r;
    forall j | i + |r| <= j < |s| ensures s[j] == c {
      assert s[j] == l[j - i];
    }
  }

  /** Padding is removed from the ends only, so the stripped text occurs in the original. */
  lemma PaddedOccurs(s: string, r: string, c: char, i: int)
    requires PaddedWith(s, r, c, i)
    ensures OccursAt(s, r, i)
  {
  }

  /** Python's `s.split(c)[0]`: everything before the first `c`. */
  function Before(s: string, c: char): (r: string)
    ensures |r| <= |s| && r == s[..|r|]
    ensures c !in r
    ensures |r| < |s| ==> s[|r|] == c
  {
    if |s| == 0 || s[0] == c then [] else [s[0]] + Before(s[1..], c)
  }

  /**
   * `sep` first occurs in `s` at index `i`, and `r` is what follows it up to
   * the next occurrence of `sep` or the end of `s`.
   */
  ghost predicate IsSecondPart(s: string, sep: string, r: string, i: int)
  {
    OccursAt(s, sep, i) && NoOccurrenceBefore(s, sep, i)
    && i + |sep| + |r| <= |s| && s[i + |sep|..i + |sep| + |r|] == r
    && NoOccurrenceBefore(s[i + |sep|..], sep, |r|)
    && (i + |sep| + |r| == |s| || OccursAt(s[i + |sep|..], sep, |r|))
  }

  /**
   * Python's `s.split(sep)[1]` once `sep` is known to occur: the text between
   * the first occurrence of `sep` and the next one, or the end of `s`.
   */
  function SecondPart(s: string, sep: string): (r: string)
    requires sep != [] && Contains(s, sep)
    ensures exists i :: IsSecondPart(s, sep, r, i)
  {
    var i := Find(s, sep).value;
    var rest := s[i + |sep|..];
    match Find(rest, sep)
    case Some(j) =>
      assert IsSecondPart(s, sep, rest[..j], i);
      rest[..j]
    case None =>
      assert IsSecondPart(s, sep, rest, i);
      rest
  }

  predicate IsDigit(c: char)
  {
    '0' <= c <= '9'
  }

  predicate AllDigits(s: string)
  {
    forall i :: 0 <= i < |s| ==> IsDigit(s[i])
  }

  /** The value of a string of decimal digits, read most significant digit first. */
  function DigitsValue(s: string): nat
    requires AllDigits(s)
  {
    if |s| == 0 then 0
    else DigitsValue(s[..|s| - 1]) * 10 + (s[|s| - 1] as int - '0' as int)
  }

  /** A decimal integer literal: an optional sign and at least one digit. */
  predicate IsDecimal(s: string)
  {
    if |s| > 0 && (s[0] == '+' || s[0] == '-') then |s| > 1 && AllDigits(s[1..])
    else |s| > 0 && AllDigits(s)
  }

  /** Python's `int(s)` on an already-stripped string, `None` where it raises `ValueError`. */
  function ParseInt(s: string): (r: Option<int>)
    ensures r.Some? <==> IsDecimal(s)
  {
    if |s| > 1 && s[0] == '-' && AllDigits(s[1..]) then
      var v: int := DigitsValue(s[1..]);
      Some(-v)
    else if |s| > 1 && s[0] == '+' && AllDigits(s[1..]) then Some(DigitsValue(s[1..]))
    else if |s| > 0 && AllDigits(s) then Some(DigitsValue(s))
    else None
  }

  function DigitChar(d: nat): char
    requires d < 10
  {
    ('0' as int + d) as char
  }

  /** Python's `str(n)` for a natural number. */
  function NatToString(n: nat): string
  {
    if n < 10 then [DigitChar(n)] else NatToString(n / 10) + [DigitChar(n % 10)]
  }

  /** Python's `str(n)` for an integer. */
  function IntToString(n: int): string
  {
    if n < 0 then "-" + NatToString(-n) else NatToString(n)
  }

  lemma {:induction false} NatToStringDigits(n: nat)
    ensures |NatToString(n)| > 0 && AllDigits(NatToString(n))
    ensures DigitsValue(NatToString(n)) == n
  {
    if n >= 10 {
      NatToStringDigits(n / 10);
      var s := NatToString(n);
      assert s[..|s| - 1] == NatToString(n / 10);
    }
  }

  /** `int(str(n)) == n`: the parser reads back every integer Python prints. */
  lemma ParseIntRoundTrip(n: int)
    ensures ParseInt(IntToString(n)) == Some(n)
  {
    var s := IntToString(n);
    if n < 0 {
      NatToStringDigits(-n);
      assert s[0] == '-' && s[1..] == NatToString(-n);
    } else {
      NatToStringDigits(n);
      assert IsDigit(s[0]);
    }
  }
}

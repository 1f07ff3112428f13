/**
 * Character-level helpers: Python's `str()` of an integer together with its
 * inverse, `startswith`, and the case-insensitive substring test behind
 * Django's `icontains` lookup.
 */
module Text {
  import opened Wrappers

  predicate IsDigit(c: char) {
    '0' <= c <= '9'
  }

  function DigitValue(c: char): (d: nat)
    requires IsDigit(c)
    ensures d < 10
  {
    (c as int) - ('0' as int)
  }

  function DigitChar(d: nat): (c: char)
    requires d < 10
    ensures IsDigit(c) && DigitValue(c) == d
  {
    ((d + '0' as int) as char)
  }

  /** Decimal digits of a natural number, most significant first, no leading zero. */
  function NatDecimal(n: nat): (s: string)
    ensures |s| > 0
    ensures forall i :: 0 <= i < |s| ==> IsDigit(s[i])
    ensures |s| == 1 || s[0] != '0'
    ensures n > 0 ==> s[0] != '0'
    decreases n
  {
    if n < 10 then [DigitChar(n)] else NatDecimal(n / 10) + [DigitChar(n % 10)]
  }

  /** Python's `str(n)` for an integer `n`. */
  function Decimal(n: int): (s: string)
    ensures |s| > 0
  {
    if n < 0 then "-" + NatDecimal(-n) else NatDecimal(n)
  }

  /** Reads a non-empty string of decimal digits. */
  function ParseNat(s: string): (r: Option<nat>)
    decreases |s|
  {
    if |s| == 0 || !IsDigit(s[|s| - 1]) then None
    else if |s| == 1 then Some(DigitValue(s[0]))
    else
      match ParseNat(s[..|s| - 1])
      case None => None
      case Some(v) => Some(10 * v + DigitValue(s[|s| - 1]))
  }

  /** Reads an optionally negative decimal integer. */
  function ParseInt(s: string): (r: Option<int>) {
    if |s| > 0 && s[0] == '-' then
      match ParseNat(s[1..])
      case None => None
      case Some(v) => Some(-(v as int))
    else
      match ParseNat(s)
      case None => None
      case Some(v) => Some(v)
  }

  lemma {:induction false} NatDecimalRoundTrip(n: nat)
    ensures ParseNat(NatDecimal(n)) == Some(n)
    decreases n
  {
    if n >= 10 {
      var s := NatDecimal(n);
      assert s[..|s| - 1] == NatDecimal(n / 10);
      NatDecimalRoundTrip(n / 10);
    }
  }

  /** `str` loses nothing: its output reads back as the same integer. */
  lemma {:induction false} DecimalRoundTrip(n: int)
    ensures ParseInt(Decimal(n)) == Some(n)
  {
    if n < 0 {
      assert Decimal(n)[1..] == NatDecimal(-n);
      NatDecimalRoundTrip(-n);
    } else {
      assert IsDigit(Decimal(n)[0]);
      NatDecimalRoundTrip(n);
    }
  }

  /** Python's `value.startswith(prefix)`. */
  predicate StartsWith(value: string, prefix: string) {
    |prefix| <= |value| && value[..|prefix|] == prefix
  }

  /** `p` occurs in `t` as a contiguous substring, searched position by position. */
  predicate Occurs(p: string, t: string)
    decreases |t|
  {
    StartsWith(t, p) || (|t| > 0 && Occurs(p, t[1..]))
  }

  /** `p` stands in `t` at position `i`. */
  predicate OccursAt(p: string, t: string, i: int) {
    0 <= i && i + |p| <= |t| && t[i..i + |p|] == p
  }

  /** An occurrence in a suffix is an occurrence in the whole text. */
  lemma OccursInSuffix(p: string, t: string, d: nat, j: int)
    requires d <= |t| && OccursAt(p, t[d..], j)
    ensures OccursAt(p, t, d + j)
  {
    assert t[d..][j..j + |p|] == t[d + j..d + j + |p|];
  }

  /** The positional search agrees with the declarative definition of a substring. */
  lemma {:induction false} OccursIff(p: string, t: string)
    ensures Occurs(p, t) <==> exists i :: OccursAt(p, t, i)
    decreases |t|
  {
    if StartsWith(t, p) {
      assert OccursAt(p, t, 0);
    } else if |t| > 0 {
      OccursIff(p, t[1..]);
      if Occurs(p, t[1..]) {
        var i :| OccursAt(p, t[1..], i);
        assert t[i + 1..i + 1 + |p|] == t[1..][i..i + |p|];
        assert OccursAt(p, t, i + 1);
      }
      if i :| OccursAt(p, t, i) {
        assert i != 0;
        assert t[1..][i - 1..i - 1 + |p|] == t[i..i + |p|];
        assert OccursAt(p, t[1..], i - 1);
      }
    }
  }

  /** ASCII lower-casing of one character. */
  function Lower(c: char): char {
    if 'A' <= c <= 'Z' then ((c as int) + 32) as char else c
  }

  function LowerAll(s: string): string {
    seq(|s|, i requires 0 <= i < |s| => Lower(s[i]))
  }

  /** Django's `field__icontains=motif`: `motif` occurs in `text`, ignoring ASCII case. */
  predicate ContainsIgnoreCase(text: string, motif: string) {
    Occurs(LowerAll(motif), LowerAll(text))
  }

  /** The case-insensitive test finds every literal occurrence. */
  lemma LiteralOccurrenceMatches(text: string, motif: string, i: nat)
    requires i + |motif| <= |text| && text[i..i + |motif|] == motif
    ensures ContainsIgnoreCase(text, motif)
  {
    var lt, lm := LowerAll(text), LowerAll(motif);
    assert lt[i..i + |lm|] == lm;
    assert OccursAt(lm, lt, i);
    OccursIff(lm, lt);
  }
}

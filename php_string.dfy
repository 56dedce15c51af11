/**
 * The PHP string functions the property-path code relies on: `explode` on a
 * one-character separator, its inverse `implode`, and the decimal rendering
 * of integers that `sprintf('%s', ...)` and `strval` produce.
 */
module PhpString {

  /**
   * `explode($sep, $s)`: the pieces of `s` between occurrences of `sep`.
   * Exploding the empty string gives one empty piece.
   */
  function Explode(sep: char, s: string): (r: seq<string>)
    ensures |r| >= 1
    ensures forall i :: 0 <= i < |r| ==> sep !in r[i]
    ensures Implode(sep, r) == s
    decreases |s|
  {
    if s == [] then [""]
    else
      var rest := Explode(sep, s[1..]);
      if s[0] == sep then
        assert [s[0]] + s[1..] == s;
        [""] + rest
      else
        var r := [[s[0]] + rest[0]] + rest[1..];
        assert r[1..] == rest[1..];
        assert s == [s[0]] + s[1..];
        r
  }

  /** `implode($sep, $parts)` of a non-empty list of pieces. */
  function Implode(sep: char, parts: seq<string>): (r: string)
    requires |parts| >= 1
    ensures |r| >= |parts| - 1
    decreases |parts|
  {
    if |parts| == 1 then parts[0] else parts[0] + [sep] + Implode(sep, parts[1..])
  }

  /** A piece free of the separator explodes to itself. */
  lemma {:induction false} ExplodePiece(sep: char, a: string)
    requires sep !in a
    ensures Explode(sep, a) == [a]
    decreases |a|
  {
    if a != [] {
      ExplodePiece(sep, a[1..]);
    }
  }

  /** A leading separator-free piece followed by the separator splits off as the first piece. */
  lemma {:induction false} ExplodeLeadingPiece(sep: char, a: string, b: string)
    requires sep !in a
    ensures Explode(sep, a + [sep] + b) == [a] + Explode(sep, b)
    decreases |a|
  {
    if a == [] {
      assert a + [sep] + b == [sep] + b;
      assert ([sep] + b)[1..] == b;
    } else {
      assert (a + [sep] + b)[1..] == a[1..] + [sep] + b;
      ExplodeLeadingPiece(sep, a[1..], b);
      assert [a[0]] + a[1..] == a;
    }
  }

  /** Round trip: exploding an implosion of separator-free pieces gives the pieces back. */
  lemma {:induction false} ExplodeImplode(sep: char, parts: seq<string>)
    requires |parts| >= 1
    requires forall i :: 0 <= i < |parts| ==> sep !in parts[i]
    ensures Explode(sep, Implode(sep, parts)) == parts
    decreases |parts|
  {
    if |parts| == 1 {
      ExplodePiece(sep, parts[0]);
    } else {
      ExplodeLeadingPiece(sep, parts[0], Implode(sep, parts[1..]));
      ExplodeImplode(sep, parts[1..]);
      assert [parts[0]] + parts[1..] == parts;
    }
  }

  /** A character of a piece is a character of the implosion. */
  lemma {:induction false} ImplodeContains(sep: char, parts: seq<string>, i: nat, c: char)
    requires 1 <= |parts| && i < |parts| && c in parts[i]
    ensures c in Implode(sep, parts)
    decreases |parts|
  {
    if |parts| > 1 && i > 0 {
      ImplodeContains(sep, parts[1..], i - 1, c);
    }
  }

  /** `explode` splits exactly when the separator occurs: one piece otherwise. */
  lemma ExplodeSplits(sep: char, s: string)
    ensures |Explode(sep, s)| >= 2 <==> sep in s
  {
    var r := Explode(sep, s);
    if |r| >= 2 {
      assert Implode(sep, r)[|r[0]|] == sep;
    }
  }

  /** A character that does not occur in the string occurs in none of its pieces. */
  lemma ExplodeWithout(sep: char, s: string, c: char)
    requires c !in s
    ensures forall i :: 0 <= i < |Explode(sep, s)| ==> c !in Explode(sep, s)[i]
  {
    var r := Explode(sep, s);
    forall i | 0 <= i < |r| ensures c !in r[i] {
      if c in r[i] {
        ImplodeContains(sep, r, i, c);
      }
    }
  }

  predicate IsDigit(c: char) {
    '0' <= c <= '9'
  }

  function DigitChar(d: nat): (c: char)
    requires d < 10
    ensures IsDigit(c)
  {
    "0123456789"[d]
  }

  function DigitValue(c: char): (d: nat)
    requires IsDigit(c)
    ensures d < 10
  {
    (c - '0') as nat
  }

  /** The decimal digits of `n`, as PHP renders an integer: no leading zero. */
  function NatToString(n: nat): (r: string)
    ensures |r| >= 1
    ensures forall i :: 0 <= i < |r| ==> IsDigit(r[i])
    ensures DecimalValue(r) == n
    ensures n == 0 ==> r == "0"
    ensures n > 0 ==> r[0] != '0'
    decreases n
  {
    var last := DigitChar(n % 10);
    assert DigitValue(last) == n % 10 by {
      assert "0123456789"[n % 10] - '0' == (n % 10) as char;
    }
    if n < 10 then
      assert DecimalValue([last]) == DecimalValue([]) * 10 + DigitValue(last) by {
        assert [last][..0] == [];
      }
      [last]
    else
      var r := NatToString(n / 10) + [last];
      assert r[..|r| - 1] == NatToString(n / 10);
      r
  }

  /** The value of a string of decimal digits. */
  function DecimalValue(s: string): nat
    requires forall i :: 0 <= i < |s| ==> IsDigit(s[i])
    decreases |s|
  {
    if s == [] then 0 else DecimalValue(s[..|s| - 1]) * 10 + DigitValue(s[|s| - 1])
  }

  /** The decimal rendering of an integer, with a leading '-' when negative. */
  function IntToString(i: int): (r: string)
    ensures |r| >= 1
  {
    if i < 0 then "-" + NatToString(-i) else NatToString(i)
  }

  /** A string of decimal digits without a leading zero, as PHP renders a natural number. */
  predicate CanonicalDigits(s: string)
  {
    && |s| >= 1
    && (forall i :: 0 <= i < |s| ==> IsDigit(s[i]))
    && (|s| > 1 ==> s[0] != '0')
  }

  /** A string PHP takes as an integer array key: the rendering of some integer. */
  predicate IsIntString(s: string)
  {
    CanonicalDigits(s) || (|s| >= 2 && s[0] == '-' && CanonicalDigits(s[1..]) && s[1..] != "0")
  }

  /** A digit string that does not start with '0' has a positive value. */
  lemma {:induction false} DecimalPositive(s: string)
    requires |s| >= 1 && s[0] != '0'
    requires forall i :: 0 <= i < |s| ==> IsDigit(s[i])
    ensures DecimalValue(s) > 0
    decreases |s|
  {
    if |s| > 1 {
      DecimalPositive(s[..|s| - 1]);
    }
  }

  /** A digit renders back to itself. */
  lemma DigitRoundTrip(c: char)
    requires IsDigit(c)
    ensures DigitChar(DigitValue(c)) == c
  {
    if c == '0' {} else if c == '1' {} else if c == '2' {} else if c == '3' {} else if c == '4' {}
    else if c == '5' {} else if c == '6' {} else if c == '7' {} else if c == '8' {} else {}
  }

  /** Round trip: a canonical digit string is the rendering of its value. */
  lemma {:induction false} DecimalRoundTrip(s: string)
    requires CanonicalDigits(s)
    ensures NatToString(DecimalValue(s)) == s
    decreases |s|
  {
    if |s| == 1 {
      SingleDigit(s);
    } else {
      var init := s[..|s| - 1];
      DecimalRoundTrip(init);
      DecimalPositive(init);
      RoundTripStep(s, init);
    }
  }

  /** The inductive step of `DecimalRoundTrip`: one more digit at the end. */
  lemma RoundTripStep(s: string, init: string)
    requires |s| >= 2 && forall i :: 0 <= i < |s| ==> IsDigit(s[i])
    requires init == s[..|s| - 1]
    requires NatToString(DecimalValue(init)) == init && DecimalValue(init) > 0
    ensures NatToString(DecimalValue(s)) == s
  {
    var last := s[|s| - 1];
    RenderStep(s);
    DigitRoundTrip(last);
    assert s == init + [last];
  }

  /** Rendering the value of a longer digit string renders its front, then its last digit. */
  lemma RenderStep(s: string)
    requires |s| >= 2 && forall i :: 0 <= i < |s| ==> IsDigit(s[i])
    requires DecimalValue(s[..|s| - 1]) > 0
    ensures NatToString(DecimalValue(s)) == NatToString(DecimalValue(s[..|s| - 1])) + [DigitChar(DigitValue(s[|s| - 1]))]
  {
    LastDigitValue(s);
    AppendDigit(DecimalValue(s), DecimalValue(s[..|s| - 1]), DigitValue(s[|s| - 1]));
  }

  /** A single digit is the rendering of its value. */
  lemma SingleDigit(s: string)
    requires |s| == 1 && IsDigit(s[0])
    ensures NatToString(DecimalValue(s)) == s
  {
    DigitRoundTrip(s[0]);
    assert s[..0] == [];
  }

  /** The value of a digit string is that of its front times ten plus its last digit. */
  lemma LastDigitValue(s: string)
    requires |s| >= 1 && forall i :: 0 <= i < |s| ==> IsDigit(s[i])
    ensures DecimalValue(s) == DecimalValue(s[..|s| - 1]) * 10 + DigitValue(s[|s| - 1])
  {
  }

  /** Rendering a positive number with one more digit appends that digit. */
  lemma AppendDigit(n: nat, m: nat, d: nat)
    requires m > 0 && d < 10 && n == m * 10 + d
    ensures NatToString(n) == NatToString(m) + [DigitChar(d)]
  {
    assert n / 10 == m && n % 10 == d;
  }

  /** Every integer's rendering is an integer string. */
  lemma IntToStringIsIntString(i: int)
    ensures IsIntString(IntToString(i))
  {
    if i < 0 {
      assert IntToString(i)[1..] == NatToString(-i);
    }
  }
}

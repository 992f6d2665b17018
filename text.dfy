/** String helpers with Python's semantics: `str.rstrip(c)`, `str.startswith(p)`
    and `str(n)` for integers. */
module Text {

  /** `s.rstrip(c)` for a one-character argument: drops every trailing `c`. */
  function RStrip(s: string, c: char): (r: string)
    ensures |r| <= |s| && r == s[..|r|]
    ensures r == [] || r[|r| - 1] != c
    ensures forall i :: |r| <= i < |s| ==> s[i] == c
    decreases |s|
  {
    if s != [] && s[|s| - 1] == c then RStrip(s[..|s| - 1], c) else s
  }

  /** Stripping twice strips nothing more. */
  lemma RStripIdempotent(s: string, c: char)
    ensures RStrip(RStrip(s, c), c) == RStrip(s, c)
  {
  }

  /** Trailing `c`s added to a string are stripped with the rest. */
  lemma {:induction false} RStripIgnoresTrailing(s: string, c: char, n: nat)
    ensures RStrip(s + seq(n, _ => c), c) == RStrip(s, c)
    decreases n
  {
    var t := s + seq(n, _ => c);
    if n == 0 {
      assert t == s;
    } else {
      assert t[|t| - 1] == c;
      assert t[..|t| - 1] == s + seq(n - 1, _ => c);
      RStripIgnoresTrailing(s, c, n - 1);
    }
  }

  /** A non-empty prefix that does not end in `c` survives stripping. */
  lemma {:induction false} RStripKeepsPrefix(s: string, c: char, p: string)
    requires StartsWith(s, p) && p != [] && p[|p| - 1] != c
    ensures StartsWith(RStrip(s, c), p)
    decreases |s|
  {
    if s != [] && s[|s| - 1] == c {
      assert |s| > |p|;
      assert s[..|s| - 1][..|p|] == s[..|p|];
      RStripKeepsPrefix(s[..|s| - 1], c, p);
    }
  }

  /** Stripping a concatenation whose tail keeps something strips the tail only. */
  lemma {:induction false} RStripConcat(p: string, v: string, c: char)
    requires RStrip(v, c) != []
    ensures RStrip(p + v, c) == p + RStrip(v, c)
    decreases |v|
  {
    if v != [] && v[|v| - 1] == c {
      assert (p + v)[..|p + v| - 1] == p + v[..|v| - 1];
      RStripConcat(p, v[..|v| - 1], c);
    }
  }

  /** `s.startswith(p)` */
  predicate StartsWith(s: string, p: string) {
    |p| <= |s| && s[..|p|] == p
  }

  function DigitChar(d: nat): (c: char)
    requires d < 10
    ensures '0' <= c <= '9'
  {
    ('0' as int + d) as char
  }

  /** Decimal digits of a natural number, without leading zeros. */
  function NatToString(n: nat): (r: string)
    ensures |r| >= 1
    ensures |r| == 1 <==> n < 10
    ensures forall i :: 0 <= i < |r| ==> '0' <= r[i] <= '9'
    decreases n
  {
    if n < 10 then [DigitChar(n)] else NatToString(n / 10) + [DigitChar(n % 10)]
  }

  /** Python's `str(i)` for an int: a minus sign before the digits of a negative number. */
  function IntToString(i: int): (r: string)
    ensures |r| >= 1
    ensures r[0] == '-' <==> i < 0
    ensures forall k :: 0 <= k < |r| ==> r[k] != '/'
  {
    if i < 0 then "-" + NatToString(-i) else NatToString(i)
  }

  lemma {:induction false} NatToStringInjective(a: nat, b: nat)
    requires NatToString(a) == NatToString(b)
    ensures a == b
    decreases a
  {
    if a >= 10 {
      var ra, rb := NatToString(a), NatToString(b);
      assert b >= 10;
      assert ra[|ra| - 1] == DigitChar(a % 10) && rb[|rb| - 1] == DigitChar(b % 10);
      assert a % 10 == b % 10;
      assert ra[..|ra| - 1] == NatToString(a / 10);
      assert rb[..|rb| - 1] == NatToString(b / 10);
      NatToStringInjective(a / 10, b / 10);
    }
  }

  /** Distinct integers print differently. */
  lemma IntToStringInjective(a: int, b: int)
    requires IntToString(a) == IntToString(b)
    ensures a == b
  {
    if a < 0 {
      assert IntToString(a)[1..] == NatToString(-a);
      assert IntToString(b)[1..] == NatToString(-b);
      NatToStringInjective(-a, -b);
    } else {
      NatToStringInjective(a, b);
    }
  }
}

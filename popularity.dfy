/**
 * The popularity score: `str.extract(r'(\d+)$')` on the item URI, read as a number.
 *
 * Python's `$` matches at the very end of the string and also just before a newline
 * that ends it, so "track:42\n" still yields 42. The score is the value of the
 * longest run of digits that ends at that point; without such digits it is missing.
 */
module Popularity {
  import opened Optional

  predicate IsDigit(c: char)
  {
    '0' <= c <= '9'
  }

  predicate AllDigits(s: string)
  {
    forall i :: 0 <= i < |s| ==> IsDigit(s[i])
  }

  /** The longest suffix of s made of digits only. */
  function TrailingDigits(s: string): (ds: string)
    // a suffix of s ...
    ensures |ds| <= |s| && ds == s[|s| - |ds|..]
    // ... of digits ...
    ensures AllDigits(ds)
    // ... that cannot be extended to the left
    ensures |ds| < |s| ==> !IsDigit(s[|s| - |ds| - 1])
  {
    if s != [] && IsDigit(s[|s| - 1]) then TrailingDigits(s[..|s| - 1]) + [s[|s| - 1]] else []
  }

  /** 10 to the power n. */
  function Pow10(n: nat): (p: nat)
    ensures p >= 1
  {
    if n == 0 then 1 else 10 * Pow10(n - 1)
  }

  /** The number a string of decimal digits denotes, most significant digit first. */
  function DigitsValue(ds: string): (v: nat)
    requires AllDigits(ds)
    // k digits denote a number below 10^k
    ensures v < Pow10(|ds|)
  {
    if ds == [] then 0
    else
      var high, low := DigitsValue(ds[..|ds| - 1]), ds[|ds| - 1] as int - '0' as int;
      assert high * 10 + low < Pow10(|ds| - 1) * 10 by {
        assert high + 1 <= Pow10(|ds| - 1);
        assert (high + 1) * 10 <= Pow10(|ds| - 1) * 10;
      }
      high * 10 + low
  }

  /** The part of s before the point where `$` matches: s without one final newline. */
  function Subject(s: string): (sub: string)
    // s is the subject, possibly followed by one newline ...
    ensures s == sub || s == sub + "\n"
    // ... which is dropped exactly when s ends in one
    ensures sub == s <==> s == [] || s[|s| - 1] != '\n'
  {
    if s != [] && s[|s| - 1] == '\n' then s[..|s| - 1] else s
  }

  /** `str.extract(r'(\d+)$')` followed by the conversion to a number; missing when nothing matches. */
  function ExtractScore(s: string): (score: Option<nat>)
    // missing exactly when no digit stands right before the end (or the final newline)
    ensures score.None? <==> Subject(s) == [] || !IsDigit(Subject(s)[|Subject(s)| - 1])
  {
    var ds := TrailingDigits(Subject(s));
    if ds == [] then None else Some(DigitsValue(ds))
  }

  /** The decimal numeral of n, without leading zeros. */
  function Decimal(n: nat): (ds: string)
    ensures ds != [] && AllDigits(ds)
    ensures |ds| > 1 ==> ds[0] != '0'
  {
    if n < 10 then ['0' + n as char] else Decimal(n / 10) + ['0' + (n % 10) as char]
  }

  /** Reading the numeral of n gives n back. */
  lemma {:induction false} DecimalValue(n: nat)
    ensures DigitsValue(Decimal(n)) == n
  {
    if n >= 10 {
      DecimalValue(n / 10);
      var ds := Decimal(n);
      assert ds[..|ds| - 1] == Decimal(n / 10);
    }
  }

  /** Digits appended to a prefix that does not end in a digit are exactly the trailing run. */
  lemma {:induction false} TrailingDigitsOfAppend(prefix: string, ds: string)
    requires AllDigits(ds)
    requires prefix == [] || !IsDigit(prefix[|prefix| - 1])
    ensures TrailingDigits(prefix + ds) == ds
  {
    if ds != [] {
      var s, init, last := prefix + ds, ds[..|ds| - 1], ds[|ds| - 1];
      assert s[|s| - 1] == last && IsDigit(last);
      assert s[..|s| - 1] == prefix + init;
      assert AllDigits(init);
      TrailingDigitsOfAppend(prefix, init);
      assert TrailingDigits(s) == TrailingDigits(prefix + init) + [last];
      assert init + [last] == ds;
    } else {
      assert prefix + ds == prefix;
    }
  }

  /**
   * A URI that ends in the numeral of n, after a character that is not a digit and
   * optionally before one final newline, scores n.
   */
  lemma ExtractScoreOfNumeral(prefix: string, n: nat, newline: bool)
    requires prefix == [] || !IsDigit(prefix[|prefix| - 1])
    ensures ExtractScore(prefix + Decimal(n) + (if newline then "\n" else "")) == Some(n)
  {
    var s := prefix + Decimal(n) + (if newline then "\n" else "");
    assert Subject(s) == prefix + Decimal(n);
    TrailingDigitsOfAppend(prefix, Decimal(n));
    DecimalValue(n);
  }

  /**
   * A URI that ends in a run of digits, after a character that is not a digit and
   * optionally before one final newline, scores the value of that run.
   */
  lemma ExtractScoreOfDigits(prefix: string, ds: string, newline: bool)
    requires ds != [] && AllDigits(ds)
    requires prefix == [] || !IsDigit(prefix[|prefix| - 1])
    ensures ExtractScore(prefix + ds + (if newline then "\n" else "")) == Some(DigitsValue(ds))
  {
    var s := prefix + ds + (if newline then "\n" else "");
    assert Subject(s) == prefix + ds;
    TrailingDigitsOfAppend(prefix, ds);
  }

  /** A leading zero does not change the score: "track:007" and "track:7" both score 7. */
  lemma ExtractScoreLeadingZero(prefix: string, ds: string, newline: bool)
    requires ds != [] && AllDigits(ds)
    requires prefix == [] || !IsDigit(prefix[|prefix| - 1])
    ensures ExtractScore(prefix + (['0'] + ds) + (if newline then "\n" else ""))
         == ExtractScore(prefix + ds + (if newline then "\n" else ""))
  {
    var zs := ['0'] + ds;
    assert AllDigits(zs) by {
      assert forall i :: 1 <= i < |zs| ==> zs[i] == ds[i - 1];
    }
    ExtractScoreOfDigits(prefix, zs, newline);
    ExtractScoreOfDigits(prefix, ds, newline);
    LeadingZeroValue(ds);
  }

  /** A leading zero does not change the value of a digit run: "007" reads as 7. */
  lemma {:induction false} LeadingZeroValue(ds: string)
    requires AllDigits(ds)
    ensures DigitsValue(['0'] + ds) == DigitsValue(ds)
  {
    if ds != [] {
      var zs := ['0'] + ds;
      assert zs[..|zs| - 1] == ['0'] + ds[..|ds| - 1];
      LeadingZeroValue(ds[..|ds| - 1]);
    }
  }
}

/** Strings as the code treats them: byte order, prefixes, splitting, and decimal numbers. */
module Text {
  import opened Basics

  const U64_MAX: nat := 0xFFFF_FFFF_FFFF_FFFF

  // ----- A strict total order -----

  predicate Less(a: string, b: string) {
    b != "" && (a == "" || a[0] < b[0] || (a[0] == b[0] && Less(a[1..], b[1..])))
  }

  lemma {:induction false} LessIrreflexive(a: string)
    ensures !Less(a, a)
  {
    if a != "" {
      LessIrreflexive(a[1..]);
    }
  }

  lemma {:induction false} LessTotal(a: string, b: string)
    ensures Less(a, b) || a == b || Less(b, a)
    ensures !(Less(a, b) && Less(b, a)) && !Less(a, a)
    decreases |a| + |b|
  {
    if a != "" {
      LessIrreflexive(a);
    }
    if a != "" && b != "" && a[0] == b[0] {
      LessTotal(a[1..], b[1..]);
      assert a == [a[0]] + a[1..] && b == [b[0]] + b[1..];
    }
  }

  lemma {:induction false} LessTrans(a: string, b: string, c: string)
    requires Less(a, b) && Less(b, c)
    ensures Less(a, c)
  {
    if a != "" && a[0] == b[0] && b[0] == c[0] {
      LessTrans(a[1..], b[1..], c[1..]);
    }
  }

  /** The texts agree up to some place, where the first one ends or has the smaller character. */
  ghost predicate FirstDifference(a: string, b: string, k: nat) {
    k <= |a| && k < |b| && a[..k] == b[..k] && (k == |a| || a[k] < b[k])
  }

  /** The order is that of dictionaries: it is decided where the texts first differ. */
  lemma {:induction false} LessMeaning(a: string, b: string)
    ensures Less(a, b) <==> exists k: nat :: FirstDifference(a, b, k)
  {
    if a == "" || b == "" || a[0] != b[0] {
      assert Less(a, b) ==> FirstDifference(a, b, 0);
      forall k: nat | 0 < k <= |a| && k < |b|
        ensures !FirstDifference(a, b, k)
      {
        assert a[..k][0] != b[..k][0];
      }
    } else {
      LessMeaning(a[1..], b[1..]);
      forall k: nat
        ensures FirstDifference(a[1..], b[1..], k) <==> FirstDifference(a, b, k + 1)
      {
        if k + 1 <= |a| && k + 1 < |b| {
          assert a[..k + 1] == [a[0]] + a[1..][..k] && b[..k + 1] == [b[0]] + b[1..][..k];
        }
      }
      forall k: nat | FirstDifference(a, b, k)
        ensures k > 0 && FirstDifference(a[1..], b[1..], k - 1)
      {
      }
    }
  }

  // ----- ASCII letter case -----

  function Lower(c: char): char {
    if 'A' <= c <= 'Z' then (c as int + 32) as char else c
  }

  const CAPITALS := "ABCDEFGHIJKLMNOPQRSTUVWXYZ"
  const SMALL := "abcdefghijklmnopqrstuvwxyz"

  /** Each capital becomes the small letter at its place of the alphabet, and nothing else changes. */
  lemma LowerMeaning(c: char)
    ensures Lower(c) == c || exists i :: 0 <= i < 26 && c == CAPITALS[i] && Lower(c) == SMALL[i]
    ensures c in CAPITALS ==> Lower(c) != c
  {
    if 'A' <= c <= 'Z' {
      var i := c as int - 'A' as int;
      assert CAPITALS[i] == c && SMALL[i] == Lower(c);
    }
  }

  function LowerAll(s: string): (r: string)
    ensures |r| == |s| && forall i :: 0 <= i < |s| ==> r[i] == Lower(s[i])
  {
    seq(|s|, i requires 0 <= i < |s| => Lower(s[i]))
  }

  // ----- Splitting and numbers -----

  function StripPrefix(s: string, prefix: string): Option<string> {
    if prefix <= s then Some(s[|prefix|..]) else None
  }

  /** Splits at the first occurrence of `c`. */
  function SplitOnce(s: string, c: char): Option<(string, string)> {
    if s == "" then None
    else if s[0] == c then Some(("", s[1..]))
    else match SplitOnce(s[1..], c)
      case None => None
      case Some(parts) => Some(([s[0]] + parts.0, parts.1))
  }

  predicate IsDigit(c: char) { '0' <= c <= '9' }

  predicate AllDigits(s: string) { forall i :: 0 <= i < |s| ==> IsDigit(s[i]) }

  function DigitValue(c: char): nat
    requires IsDigit(c)
  {
    (c as int) - ('0' as int)
  }

  function DecimalValue(s: string): nat
    requires AllDigits(s)
  {
    if s == "" then 0 else 10 * DecimalValue(s[..|s| - 1]) + DigitValue(s[|s| - 1])
  }

  /** `str::parse::<u64>`: one optional plus sign, at least one digit, no overflow. */
  function ParseU64(s: string): Option<nat> {
    var digits := if s != "" && s[0] == '+' then s[1..] else s;
    if digits != "" && AllDigits(digits) && DecimalValue(digits) <= U64_MAX then Some(DecimalValue(digits))
    else None
  }

  function Decimal(n: nat): string {
    var last := [('0' as int + n % 10) as char];
    if n < 10 then last else Decimal(n / 10) + last
  }

  lemma {:induction false} DecimalReadsBack(n: nat)
    ensures Decimal(n) != "" && AllDigits(Decimal(n)) && DecimalValue(Decimal(n)) == n
  {
    var s := Decimal(n);
    if n >= 10 {
      DecimalReadsBack(n / 10);
      assert s[..|s| - 1] == Decimal(n / 10);
    }
  }

  lemma ParseDecimal(n: nat)
    ensures ParseU64(Decimal(n)) == if n <= U64_MAX then Some(n) else None
  {
    DecimalReadsBack(n);
  }

  lemma {:induction false} SplitAtFirst(a: string, c: char, b: string)
    requires c !in a
    ensures SplitOnce(a + [c] + b, c) == Some((a, b))
  {
    var s := a + [c] + b;
    if a == "" {
      assert s[1..] == b;
    } else {
      assert s[1..] == a[1..] + [c] + b && s[0] == a[0];
      SplitAtFirst(a[1..], c, b);
      assert [a[0]] + a[1..] == a;
    }
  }

  /** Splitting undoes exactly one way of joining. */
  lemma {:induction false} SplitOnceMeaning(s: string, c: char)
    ensures match SplitOnce(s, c)
      case None => c !in s
      case Some((a, b)) => s == a + [c] + b && c !in a
  {
    if s != "" && s[0] != c {
      SplitOnceMeaning(s[1..], c);
      assert s == [s[0]] + s[1..];
    }
  }

  /** The digits of a number as `str::parse` takes it, without the sign it allows. */
  function Unsigned(s: string): string {
    if s != "" && s[0] == '+' then s[1..] else s
  }

  /** Digits with at most one plus sign in front. */
  predicate Numeral(s: string) {
    Unsigned(s) != "" && AllDigits(Unsigned(s))
  }

  function NumeralValue(s: string): nat
    requires Numeral(s)
  {
    DecimalValue(Unsigned(s))
  }

  lemma ParseMeaning(s: string)
    ensures ParseU64(s) == if Numeral(s) && NumeralValue(s) <= U64_MAX then Some(NumeralValue(s)) else None
  {
  }

  /** A numeral is made of digits alone exactly when it has no plus sign. */
  lemma NumeralSign(s: string)
    requires Numeral(s)
    ensures AllDigits(s) <==> '+' !in s
    ensures forall c :: c in s ==> IsDigit(c) || c == '+'
  {
    if s[0] != '+' {
      assert AllDigits(s);
    } else {
      assert !IsDigit(s[0]);
      forall c | c in s
        ensures IsDigit(c) || c == '+'
      {
        var i :| 0 <= i < |s| && s[i] == c;
        assert i > 0 ==> IsDigit(Unsigned(s)[i - 1]);
      }
    }
  }

  lemma PrefixOff(prefix: string, rest: string)
    ensures StripPrefix(prefix + rest, prefix) == Some(rest)
  {
    assert (prefix + rest)[|prefix|..] == rest;
  }
}

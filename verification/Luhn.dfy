/** The check-digit test that decides whether a long digit string is a bank card number (Annex B of
    ISO/IEC 7812-1). */
module Luhn {
  import opened Basics
  import opened TextFormat

  predicate AllDigits(s: string) {
    forall c | c in s :: IsDigit(c)
  }

  function DigitSum(n: nat): nat {
    if n < 10 then n else DigitSum(n / 10) + n % 10
  }

  /** Every second digit from the right counts double, beginning with the last but one. */
  predicate Doubled(s: string, i: nat)
    requires i < |s|
  {
    (|s| - i) % 2 == 0
  }

  /** What a digit adds: itself, or the sum of the digits of its double. */
  function Weight(d: nat, doubled: bool): nat {
    if doubled then DigitSum(2 * d) else d
  }

  /** What the first `n` digits add. */
  function Checksum(s: string, n: nat): nat
    requires AllDigits(s) && n <= |s|
  {
    if n == 0 then 0
    else
      assert s[n - 1] in s;
      Checksum(s, n - 1) + Weight(DigitValue(s[n - 1]), Doubled(s, n - 1))
  }

  predicate Valid(s: string) {
    AllDigits(s) && Checksum(s, |s|) % 10 == 0
  }

  lemma DigitSumOfDouble(d: nat)
    requires d < 10
    ensures Weight(d, true) == if 2 * d > 9 then 2 * d - 9 else 2 * d
  {
    assert d >= 5 ==> DigitSum(2 * d) == DigitSum(2 * d / 10) + 2 * d % 10;
  }

  lemma {:induction false} ChecksumBounded(s: string, n: nat)
    requires AllDigits(s) && n <= |s|
    ensures Checksum(s, n) <= 9 * n
  {
    if n > 0 {
      assert s[n - 1] in s;
      ChecksumBounded(s, n - 1);
      DigitSumOfDouble(DigitValue(s[n - 1]));
    }
  }

  lemma WrappedAdd(sum: nat, w: nat, rest: nat)
    ensures ((sum + w) % U32_LIMIT + rest) % U32_LIMIT == (sum + (rest + w)) % U32_LIMIT
  {
  }

  /** One step back: the digit's weight moves from the digits before into the sum. */
  lemma StepBack(s: string, i: nat, sum: nat, w: nat)
    requires i < |s| && IsDigit(s[i]) && w == Weight(DigitValue(s[i]), Doubled(s, i))
    ensures AllDigits(s) ==>
              ((sum + w) % U32_LIMIT + Checksum(s, i)) % U32_LIMIT == (sum + Checksum(s, i + 1)) % U32_LIMIT
  {
    if AllDigits(s) {
      WrappedAdd(sum, w, Checksum(s, i));
    }
  }

  lemma UnwrappedTest(digits: string, sum: nat)
    requires AllDigits(digits) && |digits| * 9 < U32_LIMIT && sum == Checksum(digits, |digits|) % U32_LIMIT
    ensures Valid(digits) <==> sum % 10 == 0
  {
    ChecksumBounded(digits, |digits|);
  }

  /** Walks the characters backwards and leaves at the first that is no digit; the sum is a 32-bit number. */
  method LuhnValid(digits: string) returns (valid: bool)
    ensures valid <==> AllDigits(digits) && (Checksum(digits, |digits|) % U32_LIMIT) % 10 == 0
    ensures |digits| * 9 < U32_LIMIT ==> (valid <==> Valid(digits))
  {
    var sum, odd, i := 0, true, |digits|;
    while i > 0
      invariant 0 <= i <= |digits| && 0 <= sum < U32_LIMIT && odd == ((|digits| - i) % 2 == 0)
      invariant forall k | i <= k < |digits| :: IsDigit(digits[k])
      invariant AllDigits(digits) ==>
                  (sum + Checksum(digits, i)) % U32_LIMIT == Checksum(digits, |digits|) % U32_LIMIT
    {
      i := i - 1;
      var c := digits[i];
      if !IsDigit(c) {
        assert c in digits;
        return false;
      }
      var d := DigitValue(c);
      var dd := d * 2;
      var w := if odd then d else if dd > 9 then dd - 9 else dd;
      DigitSumOfDouble(d);
      StepBack(digits, i, sum, w);
      sum := (sum + w) % U32_LIMIT;
      odd := !odd;
    }
    assert AllDigits(digits);
    valid := sum % 10 == 0;
    if |digits| * 9 < U32_LIMIT {
      UnwrappedTest(digits, sum);
    }
  }

  // ---------------------------------------------------------------- what the test detects

  /** Changing one digit changes the sum by the difference of what the two digits add there. */
  lemma {:induction false} ChecksumUpdate(s: string, i: nat, c: char, n: nat)
    requires AllDigits(s) && i < |s| && AllDigits(s[i := c]) && IsDigit(c) && n <= |s|
    ensures s[i] in s
    ensures Checksum(s[i := c], n) - Checksum(s, n)
            == if i < n then Weight(DigitValue(c), Doubled(s, i)) - Weight(DigitValue(s[i]), Doubled(s, i)) else 0
  {
    if n > 0 {
      ChecksumUpdate(s, i, c, n - 1);
    }
  }

  lemma DigitsStay(s: string, i: nat, c: char)
    requires AllDigits(s) && i < |s| && IsDigit(c)
    ensures s[i] in s && AllDigits(s[i := c])
  {
  }

  /** Each weight is a permutation of the digits. */
  lemma WeightsDiffer(a: nat, b: nat, doubled: bool)
    requires a < 10 && b < 10 && a != b
    ensures Weight(a, doubled) % 10 != Weight(b, doubled) % 10
  {
    DigitSumOfDouble(a);
    DigitSumOfDouble(b);
  }

  lemma DigitsDiffer(a: char, b: char)
    requires IsDigit(a) && IsDigit(b)
    ensures DigitValue(a) < 10 && (DigitValue(a) == DigitValue(b) <==> a == b)
  {
  }

  lemma SumsDiffer(x: int, y: int, v: int, w: int)
    requires y - x == w - v && x % 10 == 0
    ensures y % 10 == 0 <==> w % 10 == v % 10
  {
  }

  /** Changing any one digit of a valid string makes it invalid. */
  lemma OneDigitChangeDetected(s: string, i: nat, c: char)
    requires Valid(s) && i < |s| && IsDigit(c) && c != s[i]
    ensures !Valid(s[i := c])
  {
    DigitsStay(s, i, c);
    ChecksumUpdate(s, i, c, |s|);
    DigitsDiffer(s[i], c);
    DigitsDiffer(c, s[i]);
    var v, w := DigitValue(s[i]), DigitValue(c);
    WeightsDiffer(v, w, Doubled(s, i));
    SumsDiffer(Checksum(s, |s|), Checksum(s[i := c], |s|), Weight(v, Doubled(s, i)), Weight(w, Doubled(s, i)));
  }

  function Swapped(s: string, i: nat): string
    requires i + 1 < |s|
  {
    s[i := s[i + 1]][i + 1 := s[i]]
  }

  /** Two digits add the same in either order exactly when they are equal, or 0 and 9. */
  lemma SwappedWeights(a: nat, b: nat, doubled: bool)
    requires a < 10 && b < 10
    ensures (Weight(a, doubled) + Weight(b, !doubled)) % 10 == (Weight(b, doubled) + Weight(a, !doubled)) % 10
            <==> a == b || (a == 0 && b == 9) || (a == 9 && b == 0)
  {
    DigitSumOfDouble(a);
    DigitSumOfDouble(b);
    CloseSums(Weight(a, doubled) + Weight(b, !doubled), Weight(b, doubled) + Weight(a, !doubled));
  }

  /** Sums that differ by less than ten agree modulo ten only if they are equal. */
  lemma CloseSums(x: int, y: int)
    requires -10 < x - y < 10
    ensures x % 10 == y % 10 <==> x == y
  {
  }

  lemma SwapUpdates(s: string, i: nat, a: char, b: char)
    requires AllDigits(s) && i + 1 < |s| && s[i] == a && s[i + 1] == b
    ensures IsDigit(a) && IsDigit(b) && AllDigits(Swapped(s, i))
    ensures var doubled := Doubled(s, i);
            Checksum(Swapped(s, i), |s|) - Checksum(s, |s|)
            == (Weight(DigitValue(b), doubled) + Weight(DigitValue(a), !doubled))
               - (Weight(DigitValue(a), doubled) + Weight(DigitValue(b), !doubled))
  {
    assert a in s && b in s;
    var t := s[i := b];
    DigitsStay(s, i, b);
    ChecksumUpdate(s, i, b, |s|);
    DigitsStay(t, i + 1, a);
    ChecksumUpdate(t, i + 1, a, |s|);
  }

  /** Swapping two different neighbours goes unnoticed exactly when they are 0 and 9. */
  lemma TranspositionUndetectedIff(s: string, i: nat)
    requires Valid(s) && i + 1 < |s| && s[i] != s[i + 1]
    ensures Valid(Swapped(s, i)) <==> (s[i] == '0' && s[i + 1] == '9') || (s[i] == '9' && s[i + 1] == '0')
  {
    SwapUpdates(s, i, s[i], s[i + 1]);
    DigitsDiffer(s[i], s[i + 1]);
    DigitsDiffer(s[i + 1], s[i]);
    var a, b, doubled := DigitValue(s[i]), DigitValue(s[i + 1]), Doubled(s, i);
    SwappedWeights(a, b, doubled);
    SumsDiffer(Checksum(s, |s|), Checksum(Swapped(s, i), |s|),
               Weight(a, doubled) + Weight(b, !doubled), Weight(b, doubled) + Weight(a, !doubled));
  }

  /** Every prefix has exactly one valid final digit. */
  lemma ExactlyOneFinalDigit(prefix: string)
    requires AllDigits(prefix)
    ensures exists c | IsDigit(c) :: Valid(prefix + [c])
    ensures forall c, d | IsDigit(c) && IsDigit(d) && Valid(prefix + [c]) && Valid(prefix + [d]) :: c == d
  {
    var sum := Checksum(prefix + ['0'], |prefix|);
    var check := DigitChar((10 - sum % 10) % 10);
    FinalDigit(prefix, check);
    CheckValue(sum, DigitValue(check));
    forall c, d | IsDigit(c) && IsDigit(d) && Valid(prefix + [c]) && Valid(prefix + [d]) ensures c == d {
      FinalDigit(prefix, c);
      FinalDigit(prefix, d);
      CheckValue(sum, DigitValue(c));
      CheckValue(sum, DigitValue(d));
    }
  }

  lemma FinalDigit(prefix: string, c: char)
    requires AllDigits(prefix) && IsDigit(c)
    ensures AllDigits(prefix + [c]) && AllDigits(prefix + ['0'])
    ensures Checksum(prefix + [c], |prefix| + 1) == Checksum(prefix + ['0'], |prefix|) + DigitValue(c)
  {
    var s, z := prefix + [c], prefix + ['0'];
    assert z[|prefix| := c] == s;
    forall d | d in s || d in z ensures IsDigit(d) {
      assert d in prefix || d == c || d == '0';
    }
    ChecksumUpdate(z, |prefix|, c, |prefix|);
  }

  lemma CheckValue(t: nat, d: nat)
    requires d < 10
    ensures (t + d) % 10 == 0 <==> d == (10 - t % 10) % 10
  {
  }
}

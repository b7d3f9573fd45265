/// The card-number check of the booking backend: the mod-10 "double-add-double"
/// check-digit formula of ISO/IEC 7812-1 (Annex B), computed over the bytes of
/// the card string exactly as ValidateCardNumber in backend/utils/luhn.go does.
module Luhn {

  /** One byte of the card string. The source indexes a Go string, which yields
      bytes, so a multi-byte UTF-8 character is several bytes here. */
  type Byte = b: int | 0 <= b < 256

  const Zero: Byte := 48  // the byte of '0'
  const Nine: Byte := 57  // the byte of '9'

  predicate IsDigit(b: Byte) {
    Zero <= b <= Nine
  }

  predicate AllDigits(s: seq<Byte>) {
    forall i :: 0 <= i < |s| ==> IsDigit(s[i])
  }

  /** What one digit adds to the sum: the digit itself, or, when it is doubled,
      the sum of the decimal digits of its double. */
  function Contribution(d: int, doubled: bool): (r: int)
    requires 0 <= d <= 9
    ensures 0 <= r <= 9
    ensures !doubled ==> r == d
  {
    if doubled then (if 2 * d > 9 then 2 * d - 9 else 2 * d) else d
  }

  /** A doubled digit contributes the sum of the decimal digits of its double. */
  lemma ContributionIsDigitSum(d: int)
    requires 0 <= d <= 9
    ensures Contribution(d, true) == (2 * d) / 10 + (2 * d) % 10
  {
  }

  /** Whether the digit at 0-based offset k from the right is doubled. */
  predicate DoubledAt(k: nat) {
    k % 2 == 1
  }

  /** The weighted sum of an all-digit string, defined from the left: the first
      digit sits at offset |s| - 1 from the right. */
  function LuhnSum(s: seq<Byte>): int
    requires AllDigits(s)
  {
    if s == [] then 0
    else Contribution(s[0] - Zero, DoubledAt(|s| - 1)) + LuhnSum(s[1..])
  }

  /** The specification of the check: every byte is a digit and the weighted
      sum is a multiple of ten. */
  predicate LuhnValid(s: seq<Byte>) {
    AllDigits(s) && LuhnSum(s) % 10 == 0
  }

  /** The source's loop: scan from the right, flipping `alt` after every digit,
      and give up at the first byte that is not a digit. */
  method ValidateCardNumber(number: seq<Byte>) returns (ok: bool)
    ensures ok == LuhnValid(number)
  {
    var sum := 0;
    var alt := false;
    var n := |number|;
    var i := n - 1;
    while i >= 0
      invariant -1 <= i < n
      invariant AllDigits(number[i + 1..])
      invariant sum == LuhnSum(number[i + 1..])
      invariant alt == DoubledAt(n - 1 - i)
    {
      var c := number[i];
      if c < Zero || c > Nine {
        assert !IsDigit(number[i]);
        return false;
      }
      var digit: int := c - Zero;
      if alt {
        digit := digit * 2;
        if digit > 9 {
          digit := digit - 9;
        }
      }
      assert number[i..][1..] == number[i + 1..];
      sum := sum + digit;
      alt := !alt;
      i := i - 1;
    }
    assert number[0..] == number;
    return sum % 10 == 0;
  }

  /** Every contribution lies in 0..9, so the sum never exceeds nine per digit. */
  lemma {:induction false} LuhnSumBound(s: seq<Byte>)
    requires AllDigits(s)
    ensures 0 <= LuhnSum(s) <= 9 * |s|
  {
    if s != [] {
      assert AllDigits(s[1..]);
      LuhnSumBound(s[1..]);
    }
  }

  /** A byte outside '0'..'9' anywhere in the string makes the check fail. */
  lemma NonDigitRejected(s: seq<Byte>, i: nat)
    requires i < |s| && !IsDigit(s[i])
    ensures !LuhnValid(s)
  {
  }

  /** The empty string passes: its sum is 0. */
  lemma EmptyAccepted()
    ensures LuhnValid([])
  {
  }

  /** The UTF-8 encoding of a full-width digit (three bytes, each at least 0x80)
      is rejected wherever it appears. */
  lemma {:induction false} FullWidthDigitRejected(p: seq<Byte>, q: seq<Byte>)
    ensures !LuhnValid(p + [0xEF, 0xBC, 0x90] + q)
  {
    NonDigitRejected(p + [0xEF, 0xBC, 0x90] + q, |p|);
  }

  /** Replacing the digit at position i changes the sum by the difference of
      the two contributions at that position's weight. */
  lemma {:induction false} LuhnSumUpdate(s: seq<Byte>, i: nat, d: Byte)
    requires AllDigits(s) && i < |s| && IsDigit(d)
    ensures AllDigits(s[i := d])
    ensures LuhnSum(s[i := d]) == LuhnSum(s)
      - Contribution(s[i] - Zero, DoubledAt(|s| - 1 - i))
      + Contribution(d - Zero, DoubledAt(|s| - 1 - i))
  {
    var t := s[i := d];
    assert AllDigits(s[1..]);
    if i == 0 {
      assert t[1..] == s[1..];
    } else {
      assert t[1..] == s[1..][i - 1 := d];
      LuhnSumUpdate(s[1..], i - 1, d);
    }
  }

  /** At a fixed weight, different digits contribute different amounts. */
  lemma ContributionInjective(d: int, e: int, doubled: bool)
    requires 0 <= d <= 9 && 0 <= e <= 9 && d != e
    ensures Contribution(d, doubled) != Contribution(e, doubled)
  {
  }

  /** A multiple of ten moved by a nonzero amount of at most nine is no
      longer a multiple of ten. */
  lemma ShiftLeavesMultipleOfTen(a: int, delta: int)
    requires a % 10 == 0 && delta != 0 && -9 <= delta <= 9
    ensures (a + delta) % 10 != 0
  {
    var k := a / 10;
    var m, r := (a + delta) / 10, (a + delta) % 10;
    assert a == 10 * k;
    assert delta == 10 * (m - k) + r;
  }

  /** The check detects every single-digit substitution: if a number passes,
      changing any one of its digits to a different digit makes it fail. */
  lemma SingleDigitErrorDetected(s: seq<Byte>, i: nat, d: Byte)
    requires LuhnValid(s) && i < |s| && IsDigit(d) && d != s[i]
    ensures !LuhnValid(s[i := d])
  {
    LuhnSumUpdate(s, i, d);
    var w := DoubledAt(|s| - 1 - i);
    ContributionInjective(s[i] - Zero, d - Zero, w);
    ShiftLeavesMultipleOfTen(LuhnSum(s), Contribution(d - Zero, w) - Contribution(s[i] - Zero, w));
  }

  /** Appending a digit c adds exactly c: the new last digit is never doubled,
      and every earlier digit keeps the weight it had before a '0' was appended. */
  lemma {:induction false} LuhnSumAppend(p: seq<Byte>, c: Byte)
    requires AllDigits(p) && IsDigit(c)
    ensures AllDigits(p + [c]) && AllDigits(p + [Zero])
    ensures LuhnSum(p + [c]) == LuhnSum(p + [Zero]) + (c - Zero)
  {
    if p == [] {
      assert [c][1..] == [];
      assert [Zero][1..] == [];
    } else {
      assert (p + [c])[1..] == p[1..] + [c];
      assert (p + [Zero])[1..] == p[1..] + [Zero];
      assert AllDigits(p[1..]);
      LuhnSumAppend(p[1..], c);
    }
  }

  /** Every all-digit payload has exactly one check digit that makes it pass:
      the mod-10 check digit of ISO/IEC 7812-1. */
  lemma CheckDigitExistsUnique(p: seq<Byte>)
    requires AllDigits(p)
    ensures exists c: Byte :: IsDigit(c) && LuhnValid(p + [c])
    ensures forall c: Byte, e: Byte ::
      (IsDigit(c) && IsDigit(e) && LuhnValid(p + [c]) && LuhnValid(p + [e])) ==> c == e
  {
    LuhnSumAppend(p, Zero);
    var base := LuhnSum(p + [Zero]);
    var c: Byte := Zero + (10 - base % 10) % 10;
    LuhnSumAppend(p, c);
    assert LuhnValid(p + [c]);
    forall c: Byte, e: Byte | IsDigit(c) && IsDigit(e) && LuhnValid(p + [c]) && LuhnValid(p + [e])
      ensures c == e
    {
      if c != e {
        assert (p + [c])[|p| := e] == p + [e];
        SingleDigitErrorDetected(p + [c], |p|, e);
      }
    }
  }

  /** Appending an even number of digits on the right keeps the weight of
      every digit to their left, so the sums simply add. */
  lemma {:induction false} LuhnSumConcat(p: seq<Byte>, q: seq<Byte>)
    requires AllDigits(p) && AllDigits(q) && |q| % 2 == 0
    ensures AllDigits(p + q)
    ensures LuhnSum(p + q) == LuhnSum(p) + LuhnSum(q)
  {
    if p != [] {
      assert (p + q)[1..] == p[1..] + q;
      assert AllDigits(p[1..]);
      LuhnSumConcat(p[1..], q);
      assert (p + q)[0] == p[0];
      assert DoubledAt(|p + q| - 1) == DoubledAt(|p| - 1);
    } else {
      assert p + q == q;
    }
  }

  /** k copies of the two bytes x y. */
  function Pairs(x: Byte, y: Byte, k: nat): (r: seq<Byte>)
    ensures |r| == 2 * k
  {
    if k == 0 then [] else [x, y] + Pairs(x, y, k - 1)
  }

  /** In k copies of a digit pair, every first digit is doubled and every
      second one is not. */
  lemma {:induction false} LuhnSumPairs(x: Byte, y: Byte, k: nat)
    requires IsDigit(x) && IsDigit(y)
    ensures AllDigits(Pairs(x, y, k))
    ensures LuhnSum(Pairs(x, y, k)) == k * (Contribution(x - Zero, true) + Contribution(y - Zero, false))
  {
    if k > 0 {
      LuhnSumPairs(x, y, k - 1);
      LuhnSumConcat([x, y], Pairs(x, y, k - 1));
      assert [x, y][1..] == [y];
      assert [y][1..] == [];
      var v := Contribution(x - Zero, true) + Contribution(y - Zero, false);
      assert LuhnSum([x, y]) == v;
      assert k * v == (k - 1) * v + v;
    }
  }

  /** The bytes of an ASCII string. */
  function AsciiBytes(s: string): (r: seq<Byte>)
    requires forall i :: 0 <= i < |s| ==> s[i] as int < 128
    ensures |r| == |s|
    ensures forall i :: 0 <= i < |s| ==> r[i] == s[i] as int
  {
    seq(|s|, i requires 0 <= i < |s| => s[i] as int)
  }

  lemma Card4242Bytes()
    ensures AsciiBytes("4242424242424242") == Pairs(52, 50, 8)
  {
    assert AsciiBytes("4242424242424242") == [52, 50, 52, 50, 52, 50, 52, 50, 52, 50, 52, 50, 52, 50, 52, 50];
  }

  lemma Card4111Bytes()
    ensures AsciiBytes("4111111111111111") == Pairs(52, 49, 1) + Pairs(49, 49, 7)
  {
    assert AsciiBytes("4111111111111111") == [52, 49, 49, 49, 49, 49, 49, 49, 49, 49, 49, 49, 49, 49, 49, 49];
  }

  lemma Card4241Bytes()
    ensures AsciiBytes("4242424242424241") == Pairs(52, 50, 7) + Pairs(52, 49, 1)
  {
    assert AsciiBytes("4242424242424241") == [52, 50, 52, 50, 52, 50, 52, 50, 52, 50, 52, 50, 52, 50, 52, 49];
  }

  /** The card number of the mocked order test passes. */
  lemma Card4242Accepted()
    ensures LuhnValid(AsciiBytes("4242424242424242"))
  {
    Card4242Bytes();
    LuhnSumPairs(52, 50, 8);
  }

  lemma Sum4111()
    ensures AllDigits(Pairs(52, 49, 1) + Pairs(49, 49, 7))
    ensures LuhnSum(Pairs(52, 49, 1) + Pairs(49, 49, 7)) == 30
  {
    LuhnSumPairs(52, 49, 1);
    LuhnSumPairs(49, 49, 7);
    LuhnSumConcat(Pairs(52, 49, 1), Pairs(49, 49, 7));
  }

  lemma Sum4241()
    ensures AllDigits(Pairs(52, 50, 7) + Pairs(52, 49, 1))
    ensures LuhnSum(Pairs(52, 50, 7) + Pairs(52, 49, 1)) == 79
  {
    LuhnSumPairs(52, 50, 7);
    LuhnSumPairs(52, 49, 1);
    LuhnSumConcat(Pairs(52, 50, 7), Pairs(52, 49, 1));
  }

  /** The card number of the end-to-end order test passes. */
  lemma Card4111Accepted()
    ensures LuhnValid(AsciiBytes("4111111111111111"))
  {
    Card4111Bytes();
    Sum4111();
  }

  /** Changing the last digit of a passing number makes it fail. */
  lemma Card4241Rejected()
    ensures !LuhnValid(AsciiBytes("4242424242424241"))
  {
    Card4241Bytes();
    Sum4241();
  }

  /** A string with letters fails. */
  lemma LettersRejected()
    ensures !LuhnValid(AsciiBytes("abc123"))
  {
    NonDigitRejected(AsciiBytes("abc123"), 0);
  }
}

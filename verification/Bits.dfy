/** Bitwise operators on unbounded naturals, defined one binary digit at a time.
    They model JavaScript's BigInt operators and Rust's operators on unsigned
    words; each lemma gives an operator's meaning digit by digit. */
module Bits {

  /** Digit i of n. */
  function Bit(n: nat, i: nat): bool {
    if i == 0 then n % 2 == 1 else Bit(n / 2, i - 1)
  }

  function Shl(n: nat, s: nat): nat {
    if s == 0 then n else 2 * Shl(n, s - 1)
  }

  function Or(a: nat, b: nat): nat {
    if a == 0 && b == 0 then 0
    else (if a % 2 == 1 || b % 2 == 1 then 1 else 0) + 2 * Or(a / 2, b / 2)
  }

  function And(a: nat, b: nat): nat {
    if a == 0 && b == 0 then 0
    else (if a % 2 == 1 && b % 2 == 1 then 1 else 0) + 2 * And(a / 2, b / 2)
  }

  function Xor(a: nat, b: nat): nat {
    if a == 0 && b == 0 then 0
    else (if a % 2 != b % 2 then 1 else 0) + 2 * Xor(a / 2, b / 2)
  }

  lemma {:induction false} BitOfShl(n: nat, s: nat, i: nat)
    ensures Bit(Shl(n, s), i) == (i >= s && Bit(n, i - s))
    decreases s
  {
    if s > 0 {
      assert Shl(n, s) % 2 == 0 && Shl(n, s) / 2 == Shl(n, s - 1);
      if i > 0 {
        BitOfShl(n, s - 1, i - 1);
      }
    }
  }

  lemma {:induction false} BitOfOr(a: nat, b: nat, i: nat)
    ensures Bit(Or(a, b), i) == (Bit(a, i) || Bit(b, i))
    decreases i
  {
    if a == 0 && b == 0 {
      BitOfZero(i);
    } else {
      assert Or(a, b) / 2 == Or(a / 2, b / 2);
      if i > 0 {
        BitOfOr(a / 2, b / 2, i - 1);
      }
    }
  }

  lemma {:induction false} BitOfZero(i: nat)
    ensures !Bit(0, i)
  {
    if i > 0 {
      BitOfZero(i - 1);
    }
  }

  /** Masking with one power of two tests exactly that digit. */
  lemma {:induction false} AndPower(n: nat, i: nat)
    ensures And(n, Shl(1, i)) != 0 <==> Bit(n, i)
    decreases i
  {
    if i == 0 {
      AndZero(n / 2);
      assert And(n, 1) == (if n % 2 == 1 then 1 else 0) + 2 * And(n / 2, 0);
    } else {
      assert Shl(1, i) % 2 == 0 && Shl(1, i) / 2 == Shl(1, i - 1);
      ShlPositive(1, i);
      assert And(n, Shl(1, i)) == 2 * And(n / 2, Shl(1, i - 1));
      AndPower(n / 2, i - 1);
    }
  }

  lemma {:induction false} AndZero(n: nat)
    ensures And(n, 0) == 0
  {
    if n != 0 {
      AndZero(n / 2);
    }
  }

  lemma {:induction false} ShlPositive(n: nat, s: nat)
    requires n > 0
    ensures Shl(n, s) > 0
  {
    if s > 0 {
      ShlPositive(n, s - 1);
    }
  }

  lemma XorDigits(a: nat, b: nat)
    ensures Xor(a, b) % 2 == (if a % 2 != b % 2 then 1 else 0)
    ensures Xor(a, b) / 2 == Xor(a / 2, b / 2)
  {
  }

  lemma {:induction false} XorTwice(m: nat, a: nat)
    ensures Xor(m, Xor(m, a)) == a
    decreases m + a
  {
    var x := Xor(m, a);
    if m != 0 || a != 0 {
      XorDigits(m, a);
      XorTwice(m / 2, a / 2);
      XorDigits(m, x);
      assert Xor(m, x) / 2 == a / 2 && Xor(m, x) % 2 == a % 2;
    }
  }

  /** Exclusive or with a fixed mask loses nothing. */
  lemma XorInjective(m: nat, a: nat, b: nat)
    requires Xor(m, a) == Xor(m, b)
    ensures a == b
  {
    XorTwice(m, a);
    XorTwice(m, b);
  }

  /** Exclusive or of two words stays within the word. */
  lemma {:induction false} XorBound(a: nat, b: nat, width: nat)
    requires a < Shl(1, width) && b < Shl(1, width)
    ensures Xor(a, b) < Shl(1, width)
    decreases width
  {
    if width > 0 && (a != 0 || b != 0) {
      XorBound(a / 2, b / 2, width - 1);
    }
  }

  lemma {:induction false} BitOfXor(a: nat, b: nat, i: nat)
    ensures Bit(Xor(a, b), i) == (Bit(a, i) != Bit(b, i))
    decreases i
  {
    XorDigits(a, b);
    if i > 0 {
      BitOfXor(a / 2, b / 2, i - 1);
    }
  }

  /** What is added beyond a word does not change the digits within it. */
  lemma {:induction false} BitBelow(low: nat, high: nat, width: nat, i: nat)
    requires i < width
    ensures Bit(low + Shl(high, width), i) == Bit(low, i)
    decreases width
  {
    var half := Shl(high, width - 1);
    assert (low + 2 * half) % 2 == low % 2 && (low + 2 * half) / 2 == low / 2 + half;
    if i > 0 {
      BitBelow(low / 2, high, width - 1, i - 1);
    }
  }

  lemma {:induction false} ShlTimes(n: nat, s: nat)
    ensures Shl(n, s) == Shl(1, s) * n
  {
    if s > 0 {
      ShlTimes(n, s - 1);
    }
  }
}

/** Machine words as natural numbers, with the bitwise operators of C defined digit by digit.
    Every operator is characterised by the bits of its result (the lemmas named `...Bit`),
    and two numbers with the same bits are equal (`Extensionality`). */
module Bits {

  const TWO64: nat := 0x1_0000_0000_0000_0000

  type u64 = x: int | 0 <= x < TWO64 witness 0
  type byte = x: int | 0 <= x < 256 witness 0

  /** Bit `i` of `x`. */
  predicate Bit(x: nat, i: nat)
    decreases i
  {
    if i == 0 then x % 2 == 1 else Bit(x / 2, i - 1)
  }

  function Digit(b: bool): (d: nat)
  {
    if b then 1 else 0
  }

  function Pow2(n: nat): (p: nat)
    ensures p >= 1
  {
    if n == 0 then 1 else 2 * Pow2(n - 1)
  }

  /** `(1 << n) - 1`, the mask of the low `n` bits. */
  function Ones(n: nat): nat
  {
    if n == 0 then 0 else 1 + 2 * Ones(n - 1)
  }

  function And(a: nat, b: nat): nat
    decreases a
  {
    if a == 0 then 0 else Digit(a % 2 == 1 && b % 2 == 1) + 2 * And(a / 2, b / 2)
  }

  function Or(a: nat, b: nat): nat
    decreases a + b
  {
    if a == 0 && b == 0 then 0 else Digit(a % 2 == 1 || b % 2 == 1) + 2 * Or(a / 2, b / 2)
  }

  function Xor(a: nat, b: nat): nat
    decreases a + b
  {
    if a == 0 && b == 0 then 0 else (a + b) % 2 + 2 * Xor(a / 2, b / 2)
  }

  /** The complement of the low `n` bits, `~x` on an `n`-bit word. */
  function Not(n: nat, x: nat): nat
    decreases n
  {
    if n == 0 then 0 else Digit(x % 2 == 0) + 2 * Not(n - 1, x / 2)
  }

  /** Truncation to the low `n` bits: what a conversion to an `n`-bit unsigned type does. */
  function Trunc(n: nat, x: nat): nat
    decreases n
  {
    if n == 0 then 0 else x % 2 + 2 * Trunc(n - 1, x / 2)
  }

  function Shl(x: nat, k: nat): nat
  {
    if k == 0 then x else 2 * Shl(x, k - 1)
  }

  function Shr(x: nat, k: nat): nat
    decreases k
  {
    if k == 0 then x else Shr(x / 2, k - 1)
  }

  /** The number stored in bytes, least significant byte first. */
  function LittleEndian(bytes: seq<byte>): nat {
    if bytes == [] then 0 else bytes[0] + 256 * LittleEndian(bytes[1..])
  }

  /** Bit `j` of a byte buffer, counting from the least significant bit of the first byte. */
  predicate BitAt(bytes: seq<byte>, j: nat) {
    j / 8 < |bytes| && Bit(bytes[j / 8], j % 8)
  }

  // ------------------------------------------------------------------------------------
  // The bits of each operator's result.
  // ------------------------------------------------------------------------------------

  lemma BitOfDigits(digit: nat, rest: nat, i: nat)
    requires digit <= 1
    ensures Bit(digit + 2 * rest, i) <==> if i == 0 then digit == 1 else Bit(rest, i - 1)
  {
    assert (digit + 2 * rest) / 2 == rest && (digit + 2 * rest) % 2 == digit;
  }

  lemma {:induction false} ZeroBit(i: nat)
    ensures !Bit(0, i)
  {
    if i > 0 { ZeroBit(i - 1); }
  }

  lemma {:induction false} OnesBit(n: nat, i: nat)
    ensures Bit(Ones(n), i) <==> i < n
    decreases i
  {
    if n == 0 {
      ZeroBit(i);
    } else if i > 0 {
      assert Ones(n) / 2 == Ones(n - 1);
      OnesBit(n - 1, i - 1);
    }
  }

  lemma {:induction false} AndBit(a: nat, b: nat, i: nat)
    ensures Bit(And(a, b), i) <==> Bit(a, i) && Bit(b, i)
    decreases i
  {
    if a == 0 {
      ZeroBit(i);
    } else {
      BitOfDigits(Digit(a % 2 == 1 && b % 2 == 1), And(a / 2, b / 2), i);
      if i > 0 { AndBit(a / 2, b / 2, i - 1); }
    }
  }

  lemma {:induction false} OrBit(a: nat, b: nat, i: nat)
    ensures Bit(Or(a, b), i) <==> Bit(a, i) || Bit(b, i)
    decreases i
  {
    if a == 0 && b == 0 {
      ZeroBit(i);
    } else {
      BitOfDigits(Digit(a % 2 == 1 || b % 2 == 1), Or(a / 2, b / 2), i);
      if i > 0 { OrBit(a / 2, b / 2, i - 1); }
    }
  }

  lemma {:induction false} XorBit(a: nat, b: nat, i: nat)
    ensures Bit(Xor(a, b), i) <==> Bit(a, i) != Bit(b, i)
    decreases i
  {
    if a == 0 && b == 0 {
      ZeroBit(i);
    } else if i > 0 {
      assert Xor(a, b) / 2 == Xor(a / 2, b / 2);
      XorBit(a / 2, b / 2, i - 1);
    }
  }

  lemma {:induction false} NotBit(n: nat, x: nat, i: nat)
    ensures Bit(Not(n, x), i) <==> i < n && !Bit(x, i)
    decreases i
  {
    if n == 0 {
      ZeroBit(i);
    } else if i > 0 {
      assert Not(n, x) / 2 == Not(n - 1, x / 2);
      NotBit(n - 1, x / 2, i - 1);
    }
  }

  lemma {:induction false} TruncBit(n: nat, x: nat, i: nat)
    ensures Bit(Trunc(n, x), i) <==> i < n && Bit(x, i)
    decreases i
  {
    if n == 0 {
      ZeroBit(i);
    } else if i > 0 {
      assert Trunc(n, x) / 2 == Trunc(n - 1, x / 2);
      TruncBit(n - 1, x / 2, i - 1);
    }
  }

  lemma {:induction false} ShlBit(x: nat, k: nat, i: nat)
    ensures Bit(Shl(x, k), i) <==> i >= k && Bit(x, i - k)
    decreases k
  {
    if k > 0 && i > 0 {
      ShlBit(x, k - 1, i - 1);
    }
  }

  lemma {:induction false} ShrBit(x: nat, k: nat, i: nat)
    ensures Bit(Shr(x, k), i) <==> Bit(x, i + k)
    decreases k
  {
    if k > 0 { ShrBit(x / 2, k - 1, i); }
  }

  /** `((x >> from) & ones(n)) << to`: `n` bits moved to another position. */
  function Moved(x: nat, from: nat, n: nat, to: nat): nat {
    Shl(And(Shr(x, from), Ones(n)), to)
  }

  lemma MovedBit(x: nat, from: nat, n: nat, to: nat, i: nat)
    ensures Bit(Moved(x, from, n, to), i) <==> to <= i < to + n && Bit(x, from + i - to)
  {
    ShlBit(And(Shr(x, from), Ones(n)), to, i);
    if i >= to {
      AndBit(Shr(x, from), Ones(n), i - to);
      ShrBit(x, from, i - to);
      OnesBit(n, i - to);
    }
  }

  /** Two numbers side by side. */
  lemma {:induction false} SumBit(low: nat, n: nat, high: nat, i: nat)
    requires low < Pow2(n)
    ensures Bit(low + Shl(high, n), i) <==> if i < n then Bit(low, i) else Bit(high, i - n)
    decreases n
  {
    if n > 0 && i > 0 {
      assert (low + Shl(high, n)) / 2 == low / 2 + Shl(high, n - 1);
      SumBit(low / 2, n - 1, high, i - 1);
    }
  }

  lemma {:induction false} LittleEndianBit(bytes: seq<byte>, j: nat)
    ensures Bit(LittleEndian(bytes), j) <==> BitAt(bytes, j)
    decreases |bytes|
  {
    if bytes == [] {
      ZeroBit(j);
    } else {
      hide Bit, BitAt, Shl, Pow2;
      Pow2Of64();
      var high := LittleEndian(bytes[1..]);
      ShlIsTimes(high, 8);
      SumBit(bytes[0], 8, high, j);
      ByteBit(bytes, j);
      if j >= 8 { LittleEndianBit(bytes[1..], j - 8); }
    }
  }

  lemma ByteBit(bytes: seq<byte>, j: nat)
    requires bytes != []
    ensures BitAt(bytes, j) <==> if j < 8 then Bit(bytes[0], j) else BitAt(bytes[1..], j - 8)
  {
    hide Bit;
    if j >= 8 {
      var k: nat := j - 8;
      assert k / 8 == j / 8 - 1 && k % 8 == j % 8;
    }
  }

  // ------------------------------------------------------------------------------------
  // Sizes, and equality from bits.
  // ------------------------------------------------------------------------------------

  lemma {:induction false} HighBitClear(x: nat, n: nat, i: nat)
    requires x < Pow2(n) && i >= n
    ensures !Bit(x, i)
    decreases n
  {
    if n == 0 {
      ZeroBit(i);
    } else {
      HighBitClear(x / 2, n - 1, i - 1);
    }
  }

  lemma {:induction false} SomeBitSet(x: nat) returns (i: nat)
    requires x > 0
    ensures Bit(x, i) && Pow2(i) <= x
  {
    if x == 1 {
      i := 0;
    } else {
      var j := SomeBitSet(x / 2);
      i := j + 1;
    }
  }

  /** A number whose bits from `n` on are clear is below `2^n`. */
  lemma {:induction false} SmallFromBits(x: nat, n: nat)
    requires forall i: nat :: i >= n ==> !Bit(x, i)
    ensures x < Pow2(n)
    decreases n
  {
    if n == 0 {
      if x > 0 {
        var i := SomeBitSet(x);
        assert false;
      }
    } else {
      forall i: nat | i >= n - 1 ensures !Bit(x / 2, i) {
        assert !Bit(x, i + 1);
      }
      SmallFromBits(x / 2, n - 1);
    }
  }

  lemma {:induction false} Extensionality(a: nat, b: nat)
    requires forall i: nat :: Bit(a, i) == Bit(b, i)
    ensures a == b
    decreases a + b
  {
    assert Bit(a, 0) == Bit(b, 0);
    if a > 0 || b > 0 {
      forall i: nat ensures Bit(a / 2, i) == Bit(b / 2, i) {
        assert Bit(a, i + 1) == Bit(b, i + 1);
      }
      if a / 2 + b / 2 < a + b {
        Extensionality(a / 2, b / 2);
      }
    }
  }

  lemma Pow2Of64()
    ensures Pow2(8) == 256 && Pow2(16) == 0x1_0000 && Pow2(32) == 0x1_0000_0000 && Pow2(64) == TWO64
  {
    assert Pow2(8) == 256;
    assert Pow2(16) == 256 * Pow2(8) by { PowerAdd(8, 8); }
    assert Pow2(32) == Pow2(16) * Pow2(16) by { PowerAdd(16, 16); }
    assert Pow2(64) == Pow2(32) * Pow2(32) by { PowerAdd(32, 32); }
  }

  lemma {:induction false} PowerAdd(a: nat, b: nat)
    ensures Pow2(a + b) == Pow2(a) * Pow2(b)
  {
    if a > 0 { PowerAdd(a - 1, b); }
  }

  lemma {:induction false} BitwiseFits(n: nat, a: nat, b: nat)
    requires a < Pow2(n) && b < Pow2(n)
    ensures And(a, b) < Pow2(n) && Or(a, b) < Pow2(n) && Xor(a, b) < Pow2(n)
    ensures Not(n, a) < Pow2(n)
    decreases n
  {
    if n > 0 { BitwiseFits(n - 1, a / 2, b / 2); }
  }

  lemma BitwiseFits64(a: u64, b: u64)
    ensures And(a, b) < TWO64 && Or(a, b) < TWO64 && Xor(a, b) < TWO64 && Not(64, a) < TWO64
  {
    Pow2Of64();
    BitwiseFits(64, a, b);
  }

  lemma {:induction false} ShrFits(x: nat, k: nat)
    ensures Shr(x, k) <= x
    decreases k
  {
    if k > 0 { ShrFits(x / 2, k - 1); }
  }

  // ------------------------------------------------------------------------------------
  // Arithmetic meaning of shifts, masks and truncation.
  // ------------------------------------------------------------------------------------

  lemma {:induction false} ShlIsTimes(x: nat, k: nat)
    ensures Shl(x, k) == x * Pow2(k)
  {
    if k > 0 { ShlIsTimes(x, k - 1); }
  }

  lemma {:induction false} OnesIsPowerLessOne(n: nat)
    ensures Ones(n) == Pow2(n) - 1
  {
    if n > 0 { OnesIsPowerLessOne(n - 1); }
  }

  lemma {:induction false} TruncIsModulo(n: nat, x: nat)
    ensures Trunc(n, x) == x % Pow2(n)
    decreases n
  {
    if n > 0 {
      TruncIsModulo(n - 1, x / 2);
      HalvingDivision(x, Pow2(n - 1));
    }
  }

  lemma HalvingDivision(x: nat, p: nat)
    requires p > 0
    ensures x % (2 * p) == x % 2 + 2 * ((x / 2) % p)
    ensures x / (2 * p) == (x / 2) / p
  {
    var q, r := (x / 2) / p, (x / 2) % p;
    assert x / 2 == q * p + r;
    assert q * (2 * p) == 2 * (q * p);
    ModuloUnique(x, 2 * p, q, 2 * r + x % 2);
  }

  lemma ModuloUnique(x: nat, m: nat, q: nat, r: nat)
    requires m > 0 && r < m && x == q * m + r
    ensures x % m == r && x / m == q
  {
    var d := x / m - q;
    assert x == (x / m) * m + x % m;
    assert d * m == r - x % m by {
      assert (x / m) * m == (q + d) * m == q * m + d * m;
    }
    if d != 0 { NonzeroMultiple(d, m); }
  }

  lemma {:induction false} NonzeroMultiple(d: int, m: int)
    requires d != 0 && m >= 0
    ensures d * m >= m || d * m <= 0 - m
    decreases if d > 0 then d else -d
  {
    if d > 1 {
      NonzeroMultiple(d - 1, m);
      NonnegativeMultiple(d - 1, m);
      assert d * m == (d - 1) * m + m;
    } else if d < -1 {
      NonzeroMultiple(d + 1, m);
      NonnegativeMultiple(-(d + 1), m);
      assert d * m == (d + 1) * m - m;
    }
  }

  lemma NonnegativeMultiple(d: nat, m: nat)
    ensures d * m >= 0
  {
  }

  lemma {:induction false} ShrIsDivide(x: nat, k: nat)
    ensures Shr(x, k) == x / Pow2(k)
    decreases k
  {
    if k > 0 {
      ShrIsDivide(x / 2, k - 1);
      HalvingDivision(x, Pow2(k - 1));
    }
  }
}

/** Printing and reading 64-bit integers: the digit loop of `core/vsnprintf.c`, and the conversions of
    `core/object.c` that go through it. Strings are the bytes before the terminating zero. */
module Numbers {
  import opened Bits
  import opened Outcomes

  const ZERO: byte := 0x30
  const UPPER_A: byte := 0x41
  const LOWER_A: byte := 0x61
  const LOWER_X: byte := 0x78
  const UPPER_X: byte := 0x58
  const SPACE: byte := 0x20
  const FULL_STOP: byte := 0x2E
  const MINUS: byte := 0x2D

  function DigitChar(d: nat, upper: bool): byte
    requires d < 16
  {
    if d < 10 then ZERO + d else if upper then UPPER_A + (d - 10) else LOWER_A + (d - 10)
  }

  /** The value of a digit character, in either case. */
  function DigitValue(c: byte): (v: Option<nat>)
    ensures v.Some? ==> v.value < 16
  {
    if ZERO <= c < ZERO + 10 then Some(c - ZERO)
    else if LOWER_A <= c < LOWER_A + 6 then Some(c - LOWER_A + 10)
    else if UPPER_A <= c < UPPER_A + 6 then Some(c - UPPER_A + 10)
    else None
  }

  /** The digits of a number without leading zeros, the most significant one first. */
  function Digits(i: nat, base: nat, upper: bool): (s: seq<byte>)
    requires 2 <= base <= 16
    ensures |s| > 0
  {
    if i < base then [DigitChar(i, upper)] else Digits(i / base, base, upper) + [DigitChar(i % base, upper)]
  }

  function Repeat(c: byte, n: nat): (s: seq<byte>)
    ensures |s| == n && forall i :: 0 <= i < n ==> s[i] == c
  {
    seq(n, _ => c)
  }

  /** The last digits, at most `len` but at least one; a negative `len` is no limit. */
  function Capped(s: seq<byte>, len: int): seq<byte> {
    var limit := if len < 1 then 1 else len;
    if len < 0 || |s| <= limit then s else s[|s| - limit..]
  }

  function Padded(s: seq<byte>, padding: nat, padWith: byte): seq<byte> {
    Repeat(padWith, if |s| < padding then padding - |s| else 0) + s
  }

  lemma {:induction false} DigitCount(i: nat, base: nat, n: nat, upper: bool)
    requires 2 <= base <= 16 && n > 0 && i < Power(base, n)
    ensures |Digits(i, base, upper)| <= n
    decreases n
  {
    if i >= base {
      assert n > 1 by { assert Power(base, 1) == base * Power(base, 0) == base; }
      QuotientBelow(i, base, Power(base, n - 1));
      DigitCount(i / base, base, n - 1, upper);
    }
  }

  function Power(base: nat, n: nat): nat {
    if n == 0 then 1 else base * Power(base, n - 1)
  }

  lemma QuotientBelow(i: nat, base: nat, p: nat)
    requires base > 0 && i < base * p
    ensures i / base < p
  {
    assert i >= base * (i / base);
    if i / base >= p { NonzeroMultipleBound(base, p, i / base); }
  }

  lemma NonzeroMultipleBound(base: nat, p: nat, q: nat)
    requires p <= q
    ensures base * p <= base * q
  {
    assert base * q == base * p + base * (q - p);
    NonnegativeMultiple(base, q - p);
  }

  lemma DigitsFit(i: u64, base: nat, upper: bool)
    requires base in {8, 10, 16}
    ensures |Digits(i, base, upper)| <= 22
    ensures base == 10 ==> |Digits(i, base, upper)| <= 20
    ensures base == 16 ==> |Digits(i, base, upper)| <= 16
  {
    assert Power(8, 22) >= TWO64 && Power(10, 20) >= TWO64 && Power(16, 16) >= TWO64 by { PowersOfBases(); }
    DigitCount(i, base, if base == 8 then 22 else if base == 10 then 20 else 16, upper);
  }

  lemma PowersOfBases()
    ensures Power(8, 22) == 4 * TWO64 && Power(10, 20) == 100000000000000000000 && Power(16, 16) == TWO64
  {
    assert Power(8, 4) == 0x1000;
    assert Power(8, 8) == 0x100_0000;
    assert Power(8, 12) == 0x10_0000_0000;
    assert Power(8, 16) == 0x1_0000_0000_0000;
    assert Power(8, 20) == 0x1000_0000_0000_0000;
    assert Power(10, 5) == 100000;
    assert Power(10, 10) == 10000000000;
    assert Power(10, 15) == 1000000000000000;
    assert Power(16, 4) == 0x1_0000;
    assert Power(16, 8) == 0x1_0000_0000;
    assert Power(16, 12) == 0x1_0000_0000_0000;
  }

  /** A signed format takes the number for an `int`: only its low 32 bits say whether it is negative, and
      then only they are printed. */
  predicate SeenNegative(number: u64, signed: bool) {
    signed && number % 0x1_0000_0000 >= 0x8000_0000
  }

  function Magnitude(number: u64, signed: bool): u64 {
    if SeenNegative(number, signed) then 0x1_0000_0000 - number % 0x1_0000_0000 else number
  }

  /** The text `num_fmt` returns; the smallest `int` has no negation. */
  function Formatted(number: u64, base: nat, padding: nat, padWith: byte, signed: bool, upper: bool, len: int)
    : Res<seq<byte>>
    requires 2 <= base <= 16
  {
    if signed && number % 0x1_0000_0000 == 0x8000_0000 then Fail(Undefined)
    else
      var sign := if SeenNegative(number, signed) then [MINUS] else [];
      Ok(sign + Padded(Capped(Digits(Magnitude(number, signed), base, upper), len), padding, padWith))
  }

  /** `num_fmt`: fills a buffer of 50 bytes from its end, first with digits, then with padding, then with
      the sign. */
  method FormatNumber(number: u64, base: nat, padding: nat, padWith: byte, signed: bool, upper: bool, len: int)
    returns (text: Res<seq<byte>>)
    requires base in {8, 10, 16} && padding + (if signed then 1 else 0) <= 49
    ensures text == Formatted(number, base, padding, padWith, signed, upper, len)
  {
    hide Digits, DigitChar, Capped, Repeat;
    if signed && number % 0x1_0000_0000 == 0x8000_0000 { return Fail(Undefined); }
    var buf := new byte[50](_ => 0);
    var i := Magnitude(number, signed);
    var p, pad := PutDigits(buf, i, base, padding, len, upper);
    ghost var digits := buf[p..49];
    ghost var zeros := 0;
    while pad > 0
      invariant 0 <= pad <= p && zeros + pad == if |digits| < padding then padding - |digits| else 0
      invariant p == 49 - |digits| - zeros
      invariant forall i :: p <= i < 49 - |digits| ==> buf[i] == padWith
      invariant buf[49 - |digits|..49] == digits
    {
      p := p - 1;
      buf[p] := padWith;
      pad, zeros := pad - 1, zeros + 1;
    }
    assert buf[p..49] == buf[p..49 - |digits|] + buf[49 - |digits|..49];
    assert buf[p..49 - |digits|] == Repeat(padWith, zeros);
    ghost var unsigned := buf[p..49];
    if SeenNegative(number, signed) {
      p := p - 1;
      buf[p] := MINUS;
      assert buf[p..49] == [MINUS] + buf[p + 1..49] && buf[p + 1..49] == unsigned;
    } else {
      assert [] + unsigned == unsigned;
    }
    return Ok(buf[p..49]);
  }

  /** The do-while loop: the start of the digits, and the padding that is left. */
  method PutDigits(buf: array<byte>, number: u64, base: nat, padding: nat, len: int, upper: bool)
    returns (p: nat, pad: nat)
    requires buf.Length == 50 && base in {8, 10, 16}
    modifies buf
    ensures 27 <= p <= 49 && buf[p..49] == Capped(Digits(number, base, upper), len)
    ensures pad == if 49 - p < padding then padding - (49 - p) else 0
  {
    hide Digits, DigitChar, Capped;
    DigitsFit(number, base, upper);
    ghost var all, rest := Digits(number, base, upper), Digits(number, base, upper);
    p, pad := 49, padding;
    var i: nat, left := number, len;
    while true
      invariant |all| <= 22 && |rest| > 0 && p == 49 - |all| + |rest| && all == rest + buf[p..49]
      invariant rest == Digits(i, base, upper)
      invariant pad == if 49 - p < padding then padding - (49 - p) else 0
      invariant left == if len > 0 then len - (49 - p) else len
      invariant len > 0 ==> left > 0
      invariant len == 0 ==> p == 49
      decreases |rest|
    {
      LastDigit(i, base, upper);
      p := p - 1;
      buf[p] := DigitChar(i % base, upper);
      if pad > 0 { pad := pad - 1; }
      if left > 0 { left := left - 1; }
      rest, i := rest[..|rest| - 1], i / base;
      assert buf[p..49] == [buf[p]] + buf[p + 1..49];
      assert all == rest + buf[p..49];
      if i == 0 || left == 0 { break; }
    }
    CappedIsSuffix(all, rest, buf[p..49], len);
  }

  lemma CappedIsSuffix(all: seq<byte>, rest: seq<byte>, digits: seq<byte>, len: int)
    requires all == rest + digits && |digits| > 0
    requires len < 0 ==> rest == []
    requires len >= 0 ==> |digits| <= (if len < 1 then 1 else len)
                          && (rest == [] || |digits| == if len < 1 then 1 else len)
    ensures digits == Capped(all, len)
  {
  }

  lemma LastDigit(i: nat, base: nat, upper: bool)
    requires 2 <= base <= 16
    ensures var s := Digits(i, base, upper);
            && s[|s| - 1] == DigitChar(i % base, upper)
            && 0 <= i / base && 0 <= i % base < base
            && (i / base == 0 <==> |s| == 1)
            && (i / base != 0 ==> s[..|s| - 1] == Digits(i / base, base, upper))
  {
    SmallQuotient(i, base);
    if i >= base {
      var s, rest := Digits(i, base, upper), Digits(i / base, base, upper);
      assert s == rest + [DigitChar(i % base, upper)];
      assert s[..|s| - 1] == rest;
    }
  }

  lemma SmallQuotient(i: nat, base: nat)
    requires base > 0
    ensures i < base <==> i / base == 0
    ensures i < base ==> i % base == i
  {
    if i < base { ModuloUnique(i, base, 0, i); } else { assert i == base * (i / base) + i % base; }
  }

  // ------------------------------------------------------------------------------------
  // Strings from integers.
  // ------------------------------------------------------------------------------------

  /** `lai_snprintf` for a format that consists of one conversion: a text that leaves no room for the
      terminating zero is cut off and marked. */
  function Bounded(text: seq<byte>, size: nat): seq<byte> {
    if |text| < size then text else text[..size] + Repeat(FULL_STOP, 3)
  }

  function HexString(n: u64): seq<byte> {
    Bounded(Padded(Capped(Digits(n, 16, true), 16), 16, ZERO), 17)
  }

  function DecimalString(n: u64): seq<byte> {
    Bounded(Padded(Capped(Digits(n, 10, false), -1), 0, SPACE), 21)
  }

  method PrintBounded(text: seq<byte>, size: nat) returns (out: seq<byte>)
    ensures out == Bounded(text, size)
  {
    out := [];
    var len, i := size, 0;
    while i < |text| && len > 0
      invariant i <= |text| && len == size - i && out == text[..i]
    {
      out, len, i := out + [text[i]], len - 1, i + 1;
    }
    if len == 0 { out := out + Repeat(FULL_STOP, 3); }
  }

  /** `lai_mutate_string` for an integer: the format `%016lX`. */
  method MutateString(n: u64) returns (s: seq<byte>)
    ensures s == HexString(n)
  {
    var text := FormatNumber(n, 16, 16, ZERO, false, true, 16);
    s := PrintBounded(text.value, 17);
  }

  /** `lai_obj_to_decimal_string` for an integer: the format `%llu`. */
  method ToDecimalString(n: u64) returns (s: seq<byte>)
    ensures s == DecimalString(n)
  {
    var text := FormatNumber(n, 10, 0, SPACE, false, false, -1);
    s := PrintBounded(text.value, 21);
  }

  /** Neither string is ever cut off: sixteen digits, or all digits. */
  lemma StringsAreComplete(n: u64)
    ensures |Digits(n, 16, true)| <= 16
    ensures HexString(n) == Repeat(ZERO, 16 - |Digits(n, 16, true)|) + Digits(n, 16, true) && |HexString(n)| == 16
    ensures DecimalString(n) == Digits(n, 10, false)
  {
    DigitsFit(n, 16, true);
    DigitsFit(n, 10, false);
    assert Repeat(SPACE, 0) + Digits(n, 10, false) == Digits(n, 10, false);
  }

  // ------------------------------------------------------------------------------------
  // Integers from strings.
  // ------------------------------------------------------------------------------------

  /** Appends digits to a 64-bit number until one is not a digit of the base. */
  function ReadDigits(base: nat, acc: u64, s: seq<byte>): Res<u64>
    decreases |s|
  {
    if s == [] then Ok(acc)
    else
      match DigitValue(s[0])
      case Some(d) =>
        if d >= base then Fail(Api(IllegalArguments)) else ReadDigits(base, (acc * base + d) % TWO64, s[1..])
      case None => Fail(Api(IllegalArguments))
  }

  predicate HasHexPrefix(s: seq<byte>) {
    |s| >= 2 && s[0] == ZERO && s[1] in {LOWER_X, UPPER_X}
  }

  /** `lai_obj_to_integer` for a string. */
  function IntegerOf(s: seq<byte>): Res<u64> {
    if HasHexPrefix(s) then ReadDigits(16, 0, s[2..]) else ReadDigits(10, 0, s)
  }

  method ToInteger(s: seq<byte>) returns (r: Res<u64>)
    ensures r == IntegerOf(s)
  {
    var integer: u64 := 0;
    if HasHexPrefix(s) {
      var i := 2;
      while i < |s|
        invariant 2 <= i <= |s| && ReadDigits(16, 0, s[2..]) == ReadDigits(16, integer, s[i..])
      {
        var v := DigitValue(s[i]);
        if v.None? { return Fail(Api(IllegalArguments)); }
        integer, i := (integer * 16 + v.value) % TWO64, i + 1;
      }
    } else {
      var i := 0;
      assert s[0..] == s;
      while i < |s|
        invariant i <= |s| && ReadDigits(10, 0, s) == ReadDigits(10, integer, s[i..])
      {
        if s[i] < ZERO || s[i] > ZERO + 9 { return Fail(Api(IllegalArguments)); }
        integer, i := (integer * 10 + (s[i] - ZERO)) % TWO64, i + 1;
      }
    }
    return Ok(integer);
  }

  /** `lai_mutate_integer` for a string: up to sixteen hexadecimal digits, whatever follows. */
  function HexPrefixOf(acc: u64, s: seq<byte>, left: nat): u64
    decreases left
  {
    if left == 0 || s == [] || DigitValue(s[0]).None? then acc
    else HexPrefixOf((16 * acc + DigitValue(s[0]).value) % TWO64, s[1..], left - 1)
  }

  lemma OrIntoLowBits(high: nat, d: nat)
    requires d < 16
    ensures Or(Shl(high, 4), d) == 16 * high + d
  {
    hide Or, Shl;
    assert Pow2(4) == 16;
    ShlIsTimes(high, 4);
    var whole, ored := d + Shl(high, 4), Or(Shl(high, 4), d);
    forall i: nat ensures Bit(ored, i) == Bit(whole, i) {
      hide Bit, Or, Shl;
      OrBit(Shl(high, 4), d, i);
      SumBit(d, 4, high, i);
      ShlBit(high, 4, i);
      if i >= 4 { HighBitClear(d, 4, i); }
    }
    Extensionality(ored, whole);
  }

  /** Shifting a word by four bits and ORing a digit in. */
  lemma ShiftInDigit(acc: u64, d: nat)
    requires d < 16
    ensures Or(Trunc(64, Shl(acc, 4)), d) == (16 * acc + d) % TWO64
  {
    hide Or, Shl, Trunc;
    assert Pow2(64) == TWO64 && Pow2(4) == 16 by { Pow2Of64(); }
    hide Pow2;
    TruncIsModulo(64, Shl(acc, 4));
    ShlIsTimes(acc, 4);
    var kept := acc % 0x1000_0000_0000_0000;
    TopDigitFalls(acc, d);
    ShlIsTimes(kept, 4);
    OrIntoLowBits(kept, d);
  }

  lemma TopDigitFalls(acc: u64, d: nat)
    requires d < 16
    ensures var kept := acc % 0x1000_0000_0000_0000;
            (acc * 16) % TWO64 == 16 * kept && (16 * acc + d) % TWO64 == 16 * kept + d
  {
  }

  method MutateInteger(s: seq<byte>) returns (n: u64)
    ensures n == HexPrefixOf(0, s, 16)
  {
    hide DigitValue, Or, Shl, Trunc;
    n := 0;
    var i := 0;
    assert s[0..] == s;
    while i < 16
      invariant i <= 16 && i <= |s| && HexPrefixOf(0, s, 16) == HexPrefixOf(n, s[i..], 16 - i)
    {
      if i == |s| { return; }  // the terminating zero
      var v := DigitValue(s[i]);
      if v.None? { return; }
      ShiftInDigit(n, v.value);
      n := Or(Trunc(64, Shl(n, 4)), v.value);
      i := i + 1;
    }
  }

  // ------------------------------------------------------------------------------------
  // Round trips.
  // ------------------------------------------------------------------------------------

  lemma {:induction false} ReadAppend(base: nat, acc: u64, s: seq<byte>, t: seq<byte>)
    requires ReadDigits(base, acc, s).Ok?
    ensures ReadDigits(base, acc, s + t) == ReadDigits(base, ReadDigits(base, acc, s).value, t)
    decreases |s|
  {
    if s == [] {
      assert s + t == t;
    } else {
      assert (s + t)[1..] == s[1..] + t;
      ReadAppend(base, (acc * base + DigitValue(s[0]).value) % TWO64, s[1..], t);
    }
  }

  lemma DigitCharValue(d: nat, upper: bool)
    requires d < 16
    ensures DigitValue(DigitChar(d, upper)) == Some(d)
  {
  }

  lemma ReadOneDigit(acc: u64, base: nat, d: nat, upper: bool)
    requires d < base <= 16
    ensures ReadDigits(base, acc, [DigitChar(d, upper)]) == Ok((acc * base + d) % TWO64)
  {
    hide DigitValue, DigitChar;
    DigitCharValue(d, upper);
    assert [DigitChar(d, upper)][1..] == [];
  }

  /** Reading digits inverts printing them. */
  lemma {:induction false} ReadPrinted(n: u64, base: nat, upper: bool)
    requires base in {10, 16}
    ensures ReadDigits(base, 0, Digits(n, base, upper)) == Ok(n)
    decreases n
  {
    hide DigitValue, DigitChar, ReadDigits;
    if n >= base {
      assert n / base < n && (n / base) * base + n % base == n by { if base == 10 { } else { } }
      ReadPrinted(n / base, base, upper);
      ReadAppend(base, 0, Digits(n / base, base, upper), [DigitChar(n % base, upper)]);
      ReadOneDigit(n / base, base, n % base, upper);
    } else {
      ReadOneDigit(0, base, n, upper);
    }
  }

  lemma {:induction false} ReadZeros(k: nat)
    ensures ReadDigits(16, 0, Repeat(ZERO, k)) == Ok(0)
  {
    if k > 0 {
      assert Repeat(ZERO, k)[1..] == Repeat(ZERO, k - 1);
      ReadZeros(k - 1);
    }
  }

  /** On hexadecimal digits only, both readers agree. */
  lemma {:induction false} PrefixIsWhole(acc: u64, s: seq<byte>, left: nat)
    requires |s| <= left && ReadDigits(16, acc, s).Ok?
    ensures HexPrefixOf(acc, s, left) == ReadDigits(16, acc, s).value
    decreases left
  {
    if s != [] {
      var d := DigitValue(s[0]).value;
      assert acc * 16 + d == 16 * acc + d;
      PrefixIsWhole((16 * acc + d) % TWO64, s[1..], left - 1);
    }
  }

  /** `lai_mutate_integer` undoes `lai_mutate_string` on every 64-bit integer. */
  lemma MutateRoundTrip(n: u64)
    ensures HexPrefixOf(0, HexString(n), 16) == n
  {
    hide HexString, Digits, Repeat;
    StringsAreComplete(n);
    var zeros := Repeat(ZERO, 16 - |Digits(n, 16, true)|);
    ReadZeros(16 - |Digits(n, 16, true)|);
    ReadAppend(16, 0, zeros, Digits(n, 16, true));
    ReadPrinted(n, 16, true);
    PrefixIsWhole(0, HexString(n), 16);
  }

  lemma {:induction false} DigitsAreDecimal(n: nat, k: nat)
    requires k < |Digits(n, 10, false)|
    ensures ZERO <= Digits(n, 10, false)[k] <= ZERO + 9
    decreases n
  {
    if n >= 10 && k < |Digits(n, 10, false)| - 1 { DigitsAreDecimal(n / 10, k); }
  }

  /** `lai_obj_to_integer` undoes `lai_obj_to_decimal_string` on every 64-bit integer. */
  lemma DecimalRoundTrip(n: u64)
    ensures IntegerOf(DecimalString(n)) == Ok(n)
  {
    hide DecimalString, Digits;
    StringsAreComplete(n);
    ReadPrinted(n, 10, false);
    if |Digits(n, 10, false)| >= 2 { DigitsAreDecimal(n, 1); }
  }

  // ------------------------------------------------------------------------------------
  // Signed numbers.
  // ------------------------------------------------------------------------------------

  /** The decimal text of a word read as a signed number. */
  function SignedText(n: u64): seq<byte> {
    if n < 0x8000_0000_0000_0000 then Digits(n, 10, false) else [MINUS] + Digits(TWO64 - n, 10, false)
  }

  lemma SameDigits(m: u64, n: u64)
    requires Digits(m, 10, false) == Digits(n, 10, false)
    ensures m == n
  {
    hide Digits, ReadDigits;
    ReadPrinted(m, 10, false);
    ReadPrinted(n, 10, false);
  }

  /** The format `%ld` is right if and only if the number is not negative and its bit 31 is clear, or it is
      negative and above the smallest `int`. */
  lemma SignedIsRightExactly(n: u64)
    ensures Formatted(n, 10, 0, SPACE, true, false, -1) == Ok(SignedText(n)) <==>
            (if n < 0x8000_0000_0000_0000 then n % 0x1_0000_0000 < 0x8000_0000 else TWO64 - n < 0x8000_0000)
  {
    hide Digits;
    var low := n % 0x1_0000_0000;
    var magnitude := Magnitude(n, true);
    var printed := Digits(magnitude, 10, false);
    assert Repeat(SPACE, 0) + printed == printed;
    if low != 0x8000_0000 {
      if n < 0x8000_0000_0000_0000 {
        DigitsAreDecimal(n, 0);
        assert low > 0x8000_0000 ==> ([MINUS] + printed)[0] != Digits(n, 10, false)[0];
        assert [] + printed == printed;
      } else if low > 0x8000_0000 {
        assert ([MINUS] + printed)[1..] == printed && SignedText(n)[1..] == Digits(TWO64 - n, 10, false);
        if printed == Digits(TWO64 - n, 10, false) { SameDigits(magnitude, TWO64 - n); }
      } else {
        DigitsAreDecimal(n, 0);
        assert [] + printed == printed;
      }
    }
  }
}

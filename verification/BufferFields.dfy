/** Buffer fields (`core/exec-operand.c`): integers stored at any bit offset of a buffer. Writing is
    right at every offset, reading only at byte boundaries. */
module BufferFields {
  import opened Bits
  import opened Outcomes
  import opened Fields

  /** The chunk loops shift a 64-bit word by the number of bits done so far; a chunk that starts
      at bit 64 or later shifts too far. */
  predicate ShiftsTooFar(offset: nat, size: nat) {
    size > 0 && 8 * ((offset + size - 1) / 8) >= offset + 64
  }

  /** How the chunk loops advance: chunks end at byte boundaries, only the first may start elsewhere. */
  lemma NextChunk(offset: nat, size: nat, n: nat)
    requires n < size && (n == 0 || (offset + n) % 8 == 0)
    ensures var m := Min(size - n, 8 - (offset + n) % 8);
            && m > 0 && (n + m == size || (offset + n + m) % 8 == 0)
            && (n >= 64 ==> ShiftsTooFar(offset, size))
            && (n < 64 && n + m == size ==> !ShiftsTooFar(offset, size))
  {
  }

  /** The byte after `m` bits of the value, from bit `n` on, have been written at bit position `k`. */
  function WriteChunk(b: byte, value: nat, n: nat, m: nat, k: nat): byte {
    ToByte(Or(And(b, Not(8, Moved(Ones(m), 0, m, k))), Moved(value, n, m, k)))
  }

  lemma WriteChunkBit(b: byte, value: nat, n: nat, m: nat, k: nat, i: nat)
    requires i < 8
    ensures Bit(WriteChunk(b, value, n, m, k), i) <==> if k <= i < k + m then Bit(value, n + i - k) else Bit(b, i)
  {
    var mask := Moved(Ones(m), 0, m, k);
    OrBit(And(b, Not(8, mask)), Moved(value, n, m, k), i);
    AndBit(b, Not(8, mask), i);
    NotBit(8, mask, i);
    MovedBit(Ones(m), 0, m, k, i);
    MovedBit(value, n, m, k, i);
    if k <= i < k + m { OnesBit(m, i - k); }
  }

  /** `lai_write_buffer`: exactly the bits of the field change, to the low bits of the value. */
  method WriteBuffer(data: array<byte>, offset: nat, size: nat, value: u64) returns (r: Res<()>)
    requires offset + size <= 8 * data.Length
    modifies data
    ensures r == if ShiftsTooFar(offset, size) then Fail(Undefined) else Ok(())
    ensures r.Ok? ==> forall j: nat :: BitAt(data[..], j) <==>
              if offset <= j < offset + size then Bit(value, j - offset) else old(BitAt(data[..], j))
  {
    hide WriteChunk, Bit, BitAt, ShiftsTooFar, Written;
    var n := 0;
    NoneWritten(data[..], offset, value);
    assert size == 0 ==> !ShiftsTooFar(offset, size) by { EmptyNeverShifts(offset); }
    while n < size
      invariant n <= size && (n == 0 || n == size || (offset + n) % 8 == 0)
      invariant n == size ==> !ShiftsTooFar(offset, size)
      invariant Written(old(data[..]), data[..], offset, n, value)
    {
      NextChunk(offset, size, n);
      if n >= 64 { return Fail(Undefined); }
      var bit := (offset + n) % 8;
      var m := Min(size - n, 8 - bit);
      var q := (offset + n) / 8;
      ghost var before := data[..];
      var chunk := WriteChunk(data[q], value, n, m, bit);
      NextWritten(old(data[..]), before, offset, n, m, value);
      data[q] := chunk;
      assert data[..] == before[q := chunk];
      n := n + m;
    }
    WholeWritten(old(data[..]), data[..], offset, size, value);
    return Ok(());
  }

  /** The buffer after `n` bits of the field have been written. */
  ghost predicate Written(was: seq<byte>, now: seq<byte>, offset: nat, n: nat, value: nat) {
    forall j: nat :: BitAt(now, j) <==> if offset <= j < offset + n then Bit(value, j - offset) else BitAt(was, j)
  }

  lemma NoneWritten(was: seq<byte>, offset: nat, value: nat)
    ensures Written(was, was, offset, 0, value)
  {
  }

  lemma WholeWritten(was: seq<byte>, now: seq<byte>, offset: nat, n: nat, value: nat)
    requires Written(was, now, offset, n, value)
    ensures forall j: nat :: BitAt(now, j) <==>
              if offset <= j < offset + n then Bit(value, j - offset) else BitAt(was, j)
  {
  }

  lemma NextWritten(was: seq<byte>, now: seq<byte>, offset: nat, n: nat, m: nat, value: nat)
    requires Written(was, now, offset, n, value) && m <= 8 - (offset + n) % 8 && (offset + n) / 8 < |now|
    ensures var q, k := (offset + n) / 8, (offset + n) % 8;
            Written(was, now[q := WriteChunk(now[q], value, n, m, k)], offset, n + m, value)
  {
    hide WriteChunk, Bit, BitAt;
    var q, k := (offset + n) / 8, (offset + n) % 8;
    var after, end := now[q := WriteChunk(now[q], value, n, m, k)], n + m;
    forall j: nat
      ensures BitAt(after, j) <==> if offset <= j < offset + end then Bit(value, j - offset) else BitAt(was, j)
    {
      WriteChunkAt(now, offset, n, m, value, j);
      assert BitAt(now, j) <==> if offset <= j < offset + n then Bit(value, j - offset) else BitAt(was, j);
    }
  }

  lemma EmptyNeverShifts(offset: nat)
    ensures !ShiftsTooFar(offset, 0)
  {
  }

  lemma WriteChunkAt(before: seq<byte>, offset: nat, n: nat, m: nat, value: nat, j: nat)
    requires m <= 8 - (offset + n) % 8 && (offset + n) / 8 < |before|
    ensures var q, k := (offset + n) / 8, (offset + n) % 8;
            BitAt(before[q := WriteChunk(before[q], value, n, m, k)], j) <==>
              if offset + n <= j < offset + n + m then Bit(value, j - offset) else BitAt(before, j)
  {
    hide WriteChunk;
    var q, k := (offset + n) / 8, (offset + n) % 8;
    UpdateBit(before, q, WriteChunk(before[q], value, n, m, k), j);
    WriteChunkBit(before[q], value, n, m, k, j % 8);
    if j / 8 == q { assert n + j % 8 - k == j - offset; }
  }

  /** The bit of the buffer that ends up as bit `i` of what is read. In the first byte of the field
      the code forgets to shift by the position of the field. */
  function BitRead(offset: nat, i: nat): nat {
    if i < 8 - offset % 8 then offset - offset % 8 + i else offset + i
  }

  /** `lai_read_buffer`. */
  method ReadBuffer(data: seq<byte>, offset: nat, size: nat) returns (r: Res<nat>)
    requires offset + size <= 8 * |data|
    ensures r.Fail? <==> ShiftsTooFar(offset, size)
    ensures r.Fail? ==> r == Fail(Undefined)
    ensures r.Ok? ==> IsRead(data, offset, size, r.value)
  {
    hide Bit, BitAt, ShiftsTooFar, Moved, Or, Trunc, BitRead;
    var value, n := 0, 0;
    forall i: nat ensures !Bit(0, i) { ZeroBit(i); }
    assert size == 0 ==> !ShiftsTooFar(offset, size) by { EmptyNeverShifts(offset); }
    while n < size
      invariant 0 <= value && n <= size && (n == 0 || n == size || (offset + n) % 8 == 0)
      invariant n == size ==> !ShiftsTooFar(offset, size)
      invariant forall i: nat :: Bit(value, i) <==> i < n && i < 64 && BitAt(data, BitRead(offset, i))
    {
      NextChunk(offset, size, n);
      if n >= 64 { return Fail(Undefined); }
      var bit := (offset + n) % 8;
      var m := Min(size - n, 8 - bit);
      var q := (offset + n) / 8;
      var word := Trunc(64, Or(value, Moved(data[q], 0, m, n)));
      forall i: nat
        ensures Bit(word, i) <==> i < n + m && i < 64 && BitAt(data, BitRead(offset, i))
      {
        ReadChunkAt(data, offset, n, m, value, i);
      }
      value := word;
      n := n + m;
    }
    return Ok(value);
  }

  lemma PositionRead(offset: nat, n: nat, i: nat)
    requires n <= i < n + 8 - (offset + n) % 8 && (n == 0 || (offset + n) % 8 == 0)
    ensures BitRead(offset, i) / 8 == (offset + n) / 8 && BitRead(offset, i) % 8 == i - n
  {
    if n == 0 {
      assert BitRead(offset, i) == 8 * (offset / 8) + i;
    } else {
      assert BitRead(offset, i) == 8 * ((offset + n) / 8) + (i - n);
    }
  }

  lemma ReadChunkAt(data: seq<byte>, offset: nat, n: nat, m: nat, value: nat, i: nat)
    requires m <= 8 - (offset + n) % 8 && (offset + n) / 8 < |data| && (n == 0 || (offset + n) % 8 == 0)
    ensures Bit(Trunc(64, Or(value, Moved(data[(offset + n) / 8], 0, m, n))), i) <==>
              i < 64 && (Bit(value, i) || (n <= i < n + m && BitAt(data, BitRead(offset, i))))
  {
    hide Moved, Or, Trunc, Bit;
    var q := (offset + n) / 8;
    var chunk := Moved(data[q], 0, m, n);
    TruncBit(64, Or(value, chunk), i);
    OrBit(value, chunk, i);
    MovedBit(data[q], 0, m, n, i);
    if n <= i < n + m { PositionRead(offset, n, i); }
  }

  ghost predicate IsRead(data: seq<byte>, offset: nat, size: nat, value: nat) {
    forall i: nat :: Bit(value, i) <==> i < size && i < 64 && BitAt(data, BitRead(offset, i))
  }

  /** The integer that is stored in the field. */
  ghost predicate IsStored(data: seq<byte>, offset: nat, size: nat, value: nat) {
    forall i: nat :: Bit(value, i) <==> i < size && i < 64 && BitAt(data, offset + i)
  }

  /** `lai_read_buffer` returns what is in the field, whatever the buffer holds, if and only if the
      field starts at a byte boundary. */
  lemma ReadIsRightExactlyAtBytes(offset: nat, size: nat)
    requires size > 0
    ensures (forall data: seq<byte>, value: nat :: offset + size <= 8 * |data| && IsRead(data, offset, size, value) ==>
               IsStored(data, offset, size, value))
            <==> offset % 8 == 0
  {
    if offset % 8 == 0 {
      forall data: seq<byte>, value: nat | offset + size <= 8 * |data| && IsRead(data, offset, size, value)
        ensures IsStored(data, offset, size, value)
      {
        forall i: nat ensures Bit(value, i) <==> i < size && i < 64 && BitAt(data, offset + i) {
          assert BitRead(offset, i) == offset + i;
        }
      }
    } else {
      var data, value := OneAtOffset(offset, size);
      assert Bit(value, 0) != BitAt(data, offset + 0);
    }
  }

  /** A buffer with the first bit of an unaligned field set and the rest clear, and what is read. */
  lemma OneAtOffset(offset: nat, size: nat) returns (data: seq<byte>, value: nat)
    requires offset % 8 != 0 && size > 0
    ensures offset + size <= 8 * |data| && BitAt(data, offset)
    ensures IsRead(data, offset, size, value) && !Bit(value, 0)
  {
    var zeros: seq<byte> := seq(offset + size, _ => 0);
    var k := offset % 8;
    var mark := ToByte(Moved(1, 0, 1, k));
    data := zeros[offset / 8 := mark];
    forall j: nat ensures BitAt(data, j) <==> j == offset {
      UpdateBit(zeros, offset / 8, mark, j);
      MovedBit(1, 0, 1, k, j % 8);
      if j / 8 < |zeros| { ZeroBit(j % 8); }
      assert Bit(1, 0);
    }
    value := if k < 8 - k && k < size then Moved(1, 0, 1, k) else 0;
    forall i: nat ensures Bit(value, i) <==> i < size && i < 64 && BitAt(data, BitRead(offset, i)) {
      ZeroBit(i);
      MovedBit(1, 0, 1, k, i);
      assert Bit(1, 0);
    }
    assert !Bit(value, 0) by { assert BitRead(offset, 0) != offset; }
  }

  /** Writing and reading back at a byte boundary returns the low bits of the value. */
  method WriteAndReadBack(data: array<byte>, offset: nat, size: nat, value: u64) returns (back: nat)
    requires offset + size <= 8 * data.Length && offset % 8 == 0 && size <= 64
    modifies data
    ensures back == value % Pow2(size)
  {
    var written := WriteBuffer(data, offset, size, value);
    var read := ReadBuffer(data[..], offset, size);
    back := read.value;
    forall i: nat ensures Bit(back, i) == Bit(Trunc(size, value), i) {
      assert BitRead(offset, i) == offset + i;
      TruncBit(size, value, i);
    }
    Extensionality(back, Trunc(size, value));
    TruncIsModulo(size, value);
  }
}

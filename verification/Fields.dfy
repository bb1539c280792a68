/** Operation-region fields (`core/opregion.c`): bit ranges of any offset and size, read and written
    through aligned access units of 8 to 64 bits. The region is a byte memory with little-endian
    accesses, reached directly or, for an IndexField, through an index and a data register. */
module Fields {
  import opened Bits
  import opened Outcomes

  const FIELD_ANY_ACCESS := 0
  const FIELD_BYTE_ACCESS := 1
  const FIELD_WORD_ACCESS := 2
  const FIELD_DWORD_ACCESS := 3
  const FIELD_QWORD_ACCESS := 4
  const FIELD_PRESERVE := 0
  const FIELD_WRITE_ONES := 1
  const FIELD_WRITE_ZEROES := 2

  /** A named field: its place in the region in bits, and the access and update flags. */
  datatype Field = Field(offset: nat, size: nat, flags: byte)

  function Min(a: nat, b: nat): nat {
    if a > b then b else a
  }

  // ------------------------------------------------------------------------------------
  // Bits of a byte buffer.
  // ------------------------------------------------------------------------------------

  lemma ByteHasNoHighBit(b: byte, i: nat)
    requires i >= 8
    ensures !Bit(b, i)
  {
    Pow2Of64();
    HighBitClear(b, 8, i);
  }

  /** Changing one byte changes the bits of that byte only. */
  lemma UpdateBit(bytes: seq<byte>, q: nat, b: byte, j: nat)
    requires q < |bytes|
    ensures BitAt(bytes[q := b], j) <==> if j / 8 == q then Bit(b, j % 8) else BitAt(bytes, j)
  {
  }

  /** The low byte of a number, as a conversion to `uint8_t` gives it. */
  function ToByte(x: nat): (b: byte)
    ensures forall i: nat :: Bit(b, i) <==> i < 8 && Bit(x, i)
  {
    Pow2Of64();
    TruncIsModulo(8, x);
    assert forall i: nat :: Bit(x % 256, i) <==> i < 8 && Bit(x, i) by {
      forall i: nat ensures Bit(x % 256, i) <==> i < 8 && Bit(x, i) { TruncBit(8, x, i); }
    }
    x % 256
  }

  /** `lai_buffer_put_at`: ORs the low `numBits` of a value into a buffer. */
  method BufferPutAt(buffer: array<byte>, value: nat, bitOffset: nat, numBits: nat)
    requires bitOffset + numBits <= 8 * buffer.Length
    modifies buffer
    ensures forall j: nat :: BitAt(buffer[..], j) <==>
              old(BitAt(buffer[..], j)) || (bitOffset <= j < bitOffset + numBits && Bit(value, j - bitOffset))
  {
    var progress := 0;
    while progress < numBits
      invariant progress <= numBits
      invariant forall j: nat :: BitAt(buffer[..], j) <==>
                  old(BitAt(buffer[..], j)) || (bitOffset <= j < bitOffset + progress && Bit(value, j - bitOffset))
    {
      var k := (bitOffset + progress) % 8;
      var n := Min(numBits - progress, 8 - k);
      var q := (bitOffset + progress) / 8;
      var byte' := ToByte(Or(buffer[q], Moved(value, progress, n, k)));
      ghost var before := buffer[..];
      forall j: nat
        ensures BitAt(before[q := byte'], j) <==>
                  BitAt(before, j) ||
                  (bitOffset + progress <= j < bitOffset + progress + n && Bit(value, j - bitOffset))
      {
        UpdateBit(before, q, byte', j);
        if j / 8 == q {
          OrBit(before[q], Moved(value, progress, n, k), j % 8);
          MovedBit(value, progress, n, k, j % 8);
        }
      }
      buffer[q] := byte';
      assert buffer[..] == before[q := byte'];
      progress := progress + n;
    }
  }

  /** `lai_buffer_get_at`: the number in `numBits` bits of a buffer. */
  method BufferGetAt(buffer: seq<byte>, bitOffset: nat, numBits: nat) returns (value: nat)
    requires bitOffset + numBits <= 8 * |buffer|
    ensures forall i: nat :: Bit(value, i) <==> i < numBits && BitAt(buffer, bitOffset + i)
  {
    value := 0;
    var progress := 0;
    forall i: nat ensures !Bit(0, i) { ZeroBit(i); }
    while progress < numBits
      invariant progress <= numBits
      invariant forall i: nat :: Bit(value, i) <==> i < progress && BitAt(buffer, bitOffset + i)
    {
      var k := (bitOffset + progress) % 8;
      var n := Min(numBits - progress, 8 - k);
      var q := (bitOffset + progress) / 8;
      var chunk := Moved(buffer[q], k, n, progress);
      forall i: nat
        ensures Bit(Or(value, chunk), i) <==> i < progress + n && BitAt(buffer, bitOffset + i)
      {
        OrBit(value, chunk, i);
        MovedBit(buffer[q], k, n, progress, i);
        if progress <= i < progress + n {
          assert (bitOffset + i) / 8 == q && (bitOffset + i) % 8 == k + i - progress;
        }
      }
      value := Or(value, chunk);
      progress := progress + n;
    }
  }

  // ------------------------------------------------------------------------------------
  // Access width.
  // ------------------------------------------------------------------------------------

  /** The smallest power of two from `p` on that is at least `n`. */
  function RoundUpPower(n: nat, p: nat): nat
    requires p > 0
    decreases if n > p then n - p else 0
  {
    if n <= p then p else RoundUpPower(n, 2 * p)
  }

  /** `lai_calculate_access_width`: 8, 16, 32 or 64, chosen by the flags; AnyAccess rounds the field
      size up to a power of two, at most 64 for memory and 32 otherwise. */
  function AccessWidth(f: Field, inMemory: bool): Res<nat> {
    var access := f.flags % 16;
    if access == FIELD_BYTE_ACCESS then Ok(8)
    else if access == FIELD_WORD_ACCESS then Ok(16)
    else if access == FIELD_DWORD_ACCESS then Ok(32)
    else if access == FIELD_QWORD_ACCESS then Ok(64)
    else if access == FIELD_ANY_ACCESS then
      var rounded := RoundUpPower(f.size, 1);
      var clamped := Min(rounded, if inMemory then 64 else 32);
      Ok(if clamped < 8 then 8 else clamped)
    else Fail(Panic)
  }

  predicate IsWidth(w: nat) {
    w == 8 || w == 16 || w == 32 || w == 64
  }

  lemma WidthIsValid(f: Field, inMemory: bool)
    ensures AccessWidth(f, inMemory).Ok? ==> IsWidth(AccessWidth(f, inMemory).value)
  {
    if f.flags % 16 == FIELD_ANY_ACCESS { PowerBelow64(f.size); }
  }

  lemma PowerBelow64(n: nat)
    ensures RoundUpPower(n, 1) in {1, 2, 4, 8, 16, 32, 64} || RoundUpPower(n, 1) > 64
  {
    if n > 64 {
      assert RoundUpPower(n, 1) == RoundUpPower(n, 2) == RoundUpPower(n, 4) == RoundUpPower(n, 8);
      assert RoundUpPower(n, 8) == RoundUpPower(n, 16) == RoundUpPower(n, 32) == RoundUpPower(n, 64);
      PowerGrows(n, 64);
    } else {
      assert RoundUpPower(n, 1) == if n <= 1 then 1 else RoundUpPower(n, 2);
      assert RoundUpPower(n, 2) == if n <= 2 then 2 else RoundUpPower(n, 4);
      assert RoundUpPower(n, 4) == if n <= 4 then 4 else RoundUpPower(n, 8);
      assert RoundUpPower(n, 8) == if n <= 8 then 8 else RoundUpPower(n, 16);
      assert RoundUpPower(n, 16) == if n <= 16 then 16 else RoundUpPower(n, 32);
      assert RoundUpPower(n, 32) == if n <= 32 then 32 else RoundUpPower(n, 64);
    }
  }

  lemma {:induction false} PowerGrows(n: nat, p: nat)
    requires p > 0
    ensures RoundUpPower(n, p) >= n
    decreases if n > p then n - p else 0
  {
    if n > p { PowerGrows(n, 2 * p); }
  }

  // ------------------------------------------------------------------------------------
  // Access units.
  // ------------------------------------------------------------------------------------

  /** `x & (w - 1)` for an access width `w`, which is a power of two. */
  function InUnit(x: nat, w: nat): (r: nat)
    requires w > 0
    ensures r < w
  {
    x % w
  }

  function AlignDown(x: nat, w: nat): (y: nat)
    requires w > 0
    ensures y <= x < y + w
  {
    x - InUnit(x, w)
  }

  function AlignUp(x: nat, w: nat): (y: nat)
    requires w > 0
    ensures x <= y < x + w
  {
    AlignDown(x + w - 1, w)
  }

  /** A whole 64-bit unit lies inside the field: the mask `1 << 64` is undefined. */
  predicate CoversQword(f: Field, w: nat)
    requires IsWidth(w)
  {
    w == 64 && AlignUp(f.offset, 64) + 64 <= f.offset + f.size
  }

  /** `lai_perform_read` on a byte memory. */
  method PerformRead(mem: array<byte>, width: nat, offset: nat) returns (value: nat)
    requires IsWidth(width) && offset + width / 8 <= mem.Length
    ensures forall i: nat :: Bit(value, i) <==> i < width && BitAt(mem[..], 8 * offset + i)
  {
    hide Bit, LittleEndian;
    var unit := mem[offset..offset + width / 8];
    value := LittleEndian(unit);
    forall i: nat ensures Bit(value, i) <==> i < width && BitAt(mem[..], 8 * offset + i) {
      LittleEndianBit(unit, i);
      assert (8 * offset + i) / 8 == offset + i / 8 && (8 * offset + i) % 8 == i % 8;
    }
  }

  /** `lai_perform_write` on a byte memory. */
  method PerformWrite(mem: array<byte>, width: nat, offset: nat, value: nat)
    requires IsWidth(width) && offset + width / 8 <= mem.Length
    modifies mem
    ensures forall j: nat :: BitAt(mem[..], j) <==>
              if 8 * offset <= j < 8 * offset + width then Bit(value, j - 8 * offset) else old(BitAt(mem[..], j))
  {
    hide Bit, BitAt, Shr;
    var i := 0;
    while i < width / 8
      invariant 0 <= i <= width / 8
      invariant forall j: nat :: BitAt(mem[..], j) <==>
                  if 8 * offset <= j < 8 * (offset + i) then Bit(value, j - 8 * offset) else old(BitAt(mem[..], j))
    {
      var b := ToByte(Shr(value, 8 * i));
      ghost var before := mem[..];
      forall j: nat
        ensures BitAt(before[offset + i := b], j) <==>
                  if 8 * (offset + i) <= j < 8 * (offset + i) + 8 then Bit(value, j - 8 * offset) else BitAt(before, j)
      {
        UpdateBit(before, offset + i, b, j);
        if j / 8 == offset + i { ShrBit(value, 8 * i, j % 8); }
      }
      mem[offset + i] := b;
      ghost var after := before[offset + i := b];
      assert mem[..] == after;
      forall j: nat
        ensures BitAt(after, j) <==>
                  if 8 * offset <= j < 8 * (offset + i + 1) then Bit(value, j - 8 * offset) else old(BitAt(mem[..], j))
      {
        assert BitAt(before, j) <==>
          if 8 * offset <= j < 8 * (offset + i) then Bit(value, j - 8 * offset) else old(BitAt(mem[..], j));
      }
      i := i + 1;
    }
  }

  /** Where the access units of a field are: in the memory of its region, or in a memory behind an index
      register of so many bits and a data register as wide as the access. */
  class Region {
    const mem: array<byte>
    const indexBits: Option<nat>
    var index: nat

    constructor (mem: array<byte>, indexBits: Option<nat>)
      ensures this.mem == mem && this.indexBits == indexBits
    {
      this.mem, this.indexBits, index := mem, indexBits, 0;
    }

    /** The index register can select every byte of the memory. */
    predicate Reachable() {
      indexBits.Some? ==> mem.Length <= Pow2(indexBits.value)
    }

    /** The field takes the low bits of what is written. */
    method Select(offset: nat)
      requires indexBits.Some?
      modifies this`index
      ensures index == offset % Pow2(indexBits.value)
    {
      index := offset % Pow2(indexBits.value);
    }

    /** `lai_perform_read`, or `lai_perform_indexfield_read`. */
    method Fetch(width: nat, offset: nat) returns (value: nat)
      requires Reachable() && IsWidth(width) && offset + width / 8 <= mem.Length
      modifies this`index
      ensures forall i: nat :: Bit(value, i) <==> i < width && BitAt(mem[..], 8 * offset + i)
    {
      hide Bit, BitAt;
      var place := offset;
      if indexBits.Some? {
        Select(offset);
        place := index;
        ModuloUnique(offset, Pow2(indexBits.value), 0, offset);
      }
      value := PerformRead(mem, width, place);
    }

    /** `lai_perform_write`, or `lai_perform_indexfield_write`. */
    method Put(width: nat, offset: nat, value: nat)
      requires Reachable() && IsWidth(width) && offset + width / 8 <= mem.Length
      modifies this`index, mem
      ensures forall j: nat :: BitAt(mem[..], j) <==>
                if 8 * offset <= j < 8 * offset + width then Bit(value, j - 8 * offset) else old(BitAt(mem[..], j))
    {
      hide Bit, BitAt;
      var place := offset;
      if indexBits.Some? {
        Select(offset);
        place := index;
        ModuloUnique(offset, Pow2(indexBits.value), 0, offset);
      }
      PerformWrite(mem, width, place, value);
    }
  }

  // ------------------------------------------------------------------------------------
  // The loops over access units.
  // ------------------------------------------------------------------------------------

  lemma AlignedSum(y: nat, r: nat, w: nat)
    requires w > 0 && InUnit(y, w) == 0
    ensures InUnit(y + w, w) == 0 && (r < w ==> InUnit(y + r, w) == r)
  {
    var a := y / w;
    assert y == a * w;
    ModuloUnique(y + w, w, a + 1, 0);
    if r < w { ModuloUnique(y + r, w, a, r); }
  }

  lemma AlignedDown(x: nat, w: nat)
    requires w > 0
    ensures InUnit(AlignDown(x, w), w) == 0
  {
    ModuloUnique(AlignDown(x, w), w, x / w, 0);
  }

  /** Aligned positions are at least one unit apart. */
  lemma AlignedApart(y: nat, z: nat, w: nat)
    requires w > 0 && InUnit(y, w) == 0 && InUnit(z, w) == 0 && y < z
    ensures y + w <= z
  {
    var a, b := y / w, z / w;
    assert y == a * w && z == b * w;
    NonzeroMultiple(b - a, w);
    assert (b - a) * w == z - y;
  }

  lemma AlignedBound(y: nat, r: nat, w: nat)
    requires w > 0 && InUnit(y, w) == 0
    ensures y >= r ==> AlignUp(r, w) <= y
    ensures y < r ==> y + w <= AlignUp(r, w)
  {
    AlignedDown(r + w - 1, w);
    if y >= r && AlignUp(r, w) > y { AlignedApart(y, AlignUp(r, w), w); }
    if y < r { AlignedApart(y, AlignUp(r, w), w); }
  }

  /** Access units start at byte boundaries. */
  lemma UnitsAreBytes(y: nat, w: nat)
    requires IsWidth(w) && InUnit(y, w) == 0
    ensures y % 8 == 0
  {
    var bytes, units := w / 8, y / w;
    assert w == 8 * bytes && y == units * w;
    assert y == (units * bytes) * 8 by { assert units * (8 * bytes) == (units * bytes) * 8; }
    ModuloUnique(y, 8, units * bytes, 0);
  }

  /** Where the loops stand: `unit` is the first bit of the current access unit. */
  ghost predicate AtUnit(f: Field, w: nat, progress: nat, unit: nat)
    requires IsWidth(w)
  {
    && InUnit(unit, w) == 0 && unit % 8 == 0 && progress <= f.size
    && (unit == AlignDown(f.offset, w) || unit >= f.offset)
    && (if unit == AlignDown(f.offset, w) then progress == 0
        else progress == Min(f.size, unit - f.offset))
    && (CoversQword(f, w) ==> unit <= AlignUp(f.offset, 64))
  }

  /** The bits handled in one unit, and the position of the next one. */
  lemma NextUnit(f: Field, w: nat, progress: nat, unit: nat)
    requires IsWidth(w) && AtUnit(f, w, progress, unit) && progress < f.size
    ensures var bitOffset := InUnit(f.offset + progress, w);
            var accessBits := Min(f.size - progress, w - bitOffset);
            && bitOffset < w && f.offset + progress == unit + bitOffset && 0 < accessBits
            && (accessBits == 64 ==> CoversQword(f, w))
            && (accessBits != 64 ==> AtUnit(f, w, progress + accessBits, unit + w))
            && unit + w <= AlignUp(f.offset + f.size, w)
  {
    hide AlignUp, AlignDown, InUnit;
    AlignedBound(unit, f.offset, w);
    AlignedBound(unit, f.offset + f.size, w);
    AlignedSum(unit, if unit < f.offset then f.offset - unit else 0, w);
    AlignedDown(f.offset, w);
    UnitsAreBytes(unit + w, w);
    var bitOffset := InUnit(f.offset + progress, w);
    var accessBits := Min(f.size - progress, w - bitOffset);
  }

  lemma FirstUnit(f: Field, w: nat)
    requires IsWidth(w)
    ensures AtUnit(f, w, 0, AlignDown(f.offset, w)) && AlignDown(f.offset, w) % 8 == 0
  {
    hide AlignUp, AlignDown, InUnit;
    AlignedDown(f.offset, w);
    UnitsAreBytes(AlignDown(f.offset, w), w);
  }

  /** `lai_read_field_internal`: ORs the bits of the field into the destination. */
  method ReadFieldInternal(destination: array<byte>, region: Region, f: Field, w: nat) returns (r: Res<()>)
    requires IsWidth(w) && destination != region.mem && f.size <= 8 * destination.Length
    requires region.Reachable() && AlignUp(f.offset + f.size, w) <= 8 * region.mem.Length
    modifies destination, region`index
    ensures r == if CoversQword(f, w) then Fail(Undefined) else Ok(())
    ensures r.Ok? ==> forall j: nat :: BitAt(destination[..], j) <==>
              old(BitAt(destination[..], j)) || (j < f.size && BitAt(region.mem[..], f.offset + j))
  {
    hide InUnit, AlignDown, AlignUp, CoversQword, BitAt, Bit, Moved, Or, And, Shl, Ones, BitsRead, AtUnit, IsWidth,
      Pow2;
    WidthInBytes(w);
    var offset: nat := AlignDown(f.offset, w) / 8;
    var progress := 0;
    NothingRead(destination[..], region.mem[..], f);
    FirstUnit(f, w);
    while progress < f.size
      invariant AtUnit(f, w, progress, 8 * offset) && progress <= f.size
      invariant BitsRead(old(destination[..]), destination[..], region.mem[..], f, progress)
    {
      NextUnit(f, w, progress, 8 * offset);
      var bitOffset := InUnit(f.offset + progress, w);
      var accessBits := Min(f.size - progress, w - bitOffset);
      if accessBits == 64 { return Fail(Undefined); }
      var unit := region.Fetch(w, offset);
      var value := Moved(unit, bitOffset, accessBits, 0);
      ghost var before := destination[..];
      BufferPutAt(destination, value, progress, accessBits);
      ReadUnit(old(destination[..]), before, destination[..], region.mem[..], f, progress, unit, bitOffset, accessBits);
      progress := progress + accessBits;
      offset := offset + w / 8;
    }
    NotCovered(f, w, 8 * offset);
    AllRead(old(destination[..]), destination[..], region.mem[..], f);
    return Ok(());
  }

  /** The destination after the first `n` bits of the field have been ORed into it. */
  ghost predicate BitsRead(before: seq<byte>, now: seq<byte>, mem: seq<byte>, f: Field, n: nat) {
    forall j: nat :: BitAt(now, j) <==> BitAt(before, j) || (j < n && BitAt(mem, f.offset + j))
  }

  lemma NothingRead(destination: seq<byte>, mem: seq<byte>, f: Field)
    ensures BitsRead(destination, destination, mem, f, 0)
  {
  }

  lemma ReadUnit(before: seq<byte>, now: seq<byte>, after: seq<byte>, mem: seq<byte>, f: Field, progress: nat,
                 unit: nat, bitOffset: nat, n: nat)
    requires BitsRead(before, now, mem, f, progress) && f.offset + progress >= bitOffset
    requires forall i: nat :: i < bitOffset + n ==> (Bit(unit, i) <==> BitAt(mem, f.offset + progress - bitOffset + i))
    requires forall j: nat :: BitAt(after, j) <==>
               BitAt(now, j) || (progress <= j < progress + n && Bit(Moved(unit, bitOffset, n, 0), j - progress))
    ensures BitsRead(before, after, mem, f, progress + n)
  {
    hide Bit, BitAt, Moved;
    forall j: nat
      ensures BitAt(after, j) <==> BitAt(before, j) || (j < progress + n && BitAt(mem, f.offset + j))
    {
      if progress <= j < progress + n {
        MovedBit(unit, bitOffset, n, 0, j - progress);
        assert Bit(unit, bitOffset + (j - progress)) <==>
          BitAt(mem, f.offset + progress - bitOffset + (bitOffset + (j - progress)));
      }
    }
  }

  lemma AllRead(before: seq<byte>, now: seq<byte>, mem: seq<byte>, f: Field)
    requires BitsRead(before, now, mem, f, f.size)
    ensures forall j: nat :: BitAt(now, j) <==> BitAt(before, j) || (j < f.size && BitAt(mem, f.offset + j))
  {
  }

  lemma NotCovered(f: Field, w: nat, unit: nat)
    requires IsWidth(w) && AtUnit(f, w, f.size, unit)
    ensures !CoversQword(f, w)
  {
  }

  /** The bits of an access unit that the field does not cover, as the update rule fills them. */
  predicate Background(rule: nat, old': bool) {
    if rule == FIELD_PRESERVE then old' else rule == FIELD_WRITE_ONES
  }

  function UpdateRule(f: Field): nat {
    (f.flags / 32) % 16
  }

  /** What writing a field does to the region: the field takes the source's bits, the rest of the
      touched access units follows the update rule, everything else stays. */
  ghost predicate FieldWritten(before: seq<byte>, after: seq<byte>, f: Field, w: nat, source: seq<byte>)
    requires IsWidth(w)
  {
    |after| == |before| &&
    forall j: nat :: BitAt(after, j) <==>
      if f.offset <= j < f.offset + f.size then BitAt(source, j - f.offset)
      else if f.size > 0 && AlignDown(f.offset, w) <= j < AlignUp(f.offset + f.size, w)
        then Background(UpdateRule(f), BitAt(before, j))
      else BitAt(before, j)
  }

  /** The word an access unit is filled with before the field's bits are merged in. */
  method UnitBackground(region: Region, rule: nat, w: nat, offset: nat) returns (value: nat)
    requires region.Reachable() && IsWidth(w) && offset + w / 8 <= region.mem.Length && rule <= FIELD_WRITE_ZEROES
    modifies region`index
    ensures forall i: nat :: i < w ==> (Bit(value, i) <==> Background(rule, BitAt(region.mem[..], 8 * offset + i)))
  {
    hide Bit, BitAt, Ones;
    if rule == FIELD_PRESERVE {
      value := region.Fetch(w, offset);
    } else if rule == FIELD_WRITE_ONES {
      value := Ones(64);
      forall i: nat | i < w ensures Bit(value, i) { OnesBit(64, i); }
    } else {
      value := 0;
      forall i: nat | i < w ensures !Bit(value, i) { ZeroBit(i); }
    }
  }

  /** How a write from a source of `supply` bits ends: the first unit decides about an unknown update
      rule; a 64-bit unit inside the field is a shift by 64, and a source shorter than the field is read
      out of bounds. */
  function WriteOutcome(f: Field, w: nat, supply: nat): Res<()>
    requires IsWidth(w)
  {
    if f.size == 0 then Ok(())
    else if UpdateRule(f) > FIELD_WRITE_ZEROES then
      if w == 64 && InUnit(f.offset, w) == 0 && f.size >= 64 then Fail(Undefined) else Fail(Panic)
    else if CoversQword(f, w) || f.size > supply then Fail(Undefined)
    else Ok(())
  }

  /** `lai_write_field_internal`. */
  method WriteFieldInternal(source: seq<byte>, region: Region, f: Field, w: nat) returns (r: Res<()>)
    requires region.Reachable() && IsWidth(w) && AlignUp(f.offset + f.size, w) <= 8 * region.mem.Length
    modifies region`index, region.mem
    ensures r == WriteOutcome(f, w, 8 * |source|)
    ensures r.Ok? ==> FieldWritten(old(region.mem[..]), region.mem[..], f, w, source)
  {
    hide InUnit, AlignDown, AlignUp, UpdateRule, UnitsWritten, FieldWritten, WriteOutcome, AtUnit, IsWidth, Pow2;
    WidthInBytes(w);
    var offset: nat := AlignDown(f.offset, w) / 8;
    var progress := 0;
    NothingWritten(region.mem[..], f, source, AlignDown(f.offset, w));
    var rule := UpdateRule(f);
    FirstUnit(f, w);
    while progress < f.size
      invariant AtUnit(f, w, progress, 8 * offset) && progress <= f.size && progress <= 8 * |source|
      invariant 8 * offset >= AlignDown(f.offset, w) && (progress == 0 ==> 8 * offset == AlignDown(f.offset, w))
      invariant progress > 0 ==> rule <= FIELD_WRITE_ZEROES && 8 * offset <= AlignUp(f.offset + f.size, w)
      invariant UnitsWritten(old(region.mem[..]), region.mem[..], f, source, AlignDown(f.offset, w), 8 * offset)
    {
      NextUnit(f, w, progress, 8 * offset);
      UnitFate(f, w, progress, 8 * offset, 8 * |source|);
      var bitOffset := InUnit(f.offset + progress, w);
      var accessBits := Min(f.size - progress, w - bitOffset);
      if accessBits == 64 { return Fail(Undefined); }
      if rule > FIELD_WRITE_ZEROES { return Fail(Panic); }
      if progress + accessBits > 8 * |source| { return Fail(Undefined); }
      StoreUnit(source, region, f, w, progress, offset, old(region.mem[..]));
      progress := progress + accessBits;
      offset := offset + w / 8;
    }
    UnitsDone(f, w, 8 * offset, 8 * |source|);
    AllWritten(old(region.mem[..]), region.mem[..], f, w, source, 8 * offset);
    return Ok(());
  }

  lemma WidthInBytes(w: nat)
    requires IsWidth(w)
    ensures w == 8 * (w / 8)
  {
  }

  /** What can end the loop at a unit. */
  lemma UnitFate(f: Field, w: nat, progress: nat, unit: nat, supply: nat)
    requires IsWidth(w) && AtUnit(f, w, progress, unit) && progress < f.size && progress <= supply
    requires progress > 0 ==> UpdateRule(f) <= FIELD_WRITE_ZEROES
    ensures var accessBits := Min(f.size - progress, w - InUnit(f.offset + progress, w));
            if accessBits == 64 then WriteOutcome(f, w, supply) == Fail(Undefined)
            else if UpdateRule(f) > FIELD_WRITE_ZEROES then WriteOutcome(f, w, supply) == Fail(Panic)
            else progress + accessBits > supply ==> WriteOutcome(f, w, supply) == Fail(Undefined)
  {
    hide AlignUp, AlignDown, InUnit, UpdateRule;
    NextUnit(f, w, progress, unit);
  }

  lemma UnitsDone(f: Field, w: nat, unit: nat, supply: nat)
    requires IsWidth(w) && AtUnit(f, w, f.size, unit) && f.size <= supply
    requires f.size > 0 ==> UpdateRule(f) <= FIELD_WRITE_ZEROES && unit <= AlignUp(f.offset + f.size, w)
    ensures WriteOutcome(f, w, supply) == Ok(())
    ensures f.size > 0 ==> f.offset + f.size <= unit == AlignUp(f.offset + f.size, w)
  {
    NotCovered(f, w, unit);
    if f.size > 0 { AlignedBound(unit, f.offset + f.size, w); }
  }

  /** One access unit: the background, with the bits of the field merged in. */
  method StoreUnit(source: seq<byte>, region: Region, f: Field, w: nat, progress: nat, offset: nat,
                   ghost was: seq<byte>)
    requires region.Reachable() && IsWidth(w) && AtUnit(f, w, progress, 8 * offset) && progress < f.size
    requires UpdateRule(f) <= FIELD_WRITE_ZEROES && offset + w / 8 <= region.mem.Length
    requires Min(f.size - progress, w - InUnit(f.offset + progress, w)) <= 8 * |source| - progress
    requires UnitsWritten(was, region.mem[..], f, source, AlignDown(f.offset, w), 8 * offset)
    requires AlignDown(f.offset, w) <= 8 * offset
    modifies region`index, region.mem
    ensures UnitsWritten(was, region.mem[..], f, source, AlignDown(f.offset, w), 8 * offset + w)
  {
    hide InUnit, AlignDown, BitAt, Bit, Moved, Or, And, Not, Shl, Ones, UpdateRule;
    hide UnitsWritten, AtUnit, RegionBit, UnitMerged, Pow2;
    ghost var before := region.mem[..];
    var bitOffset := InUnit(f.offset + progress, w);
    var accessBits := Min(f.size - progress, w - bitOffset);
    var mask := Moved(Ones(accessBits), 0, accessBits, bitOffset);
    var value := UnitBackground(region, UpdateRule(f), w, offset);
    var newVal := BufferGetAt(source, progress, accessBits);
    var merged := Or(And(value, Not(64, mask)), And(Shl(newVal, bitOffset), mask));
    MergedUnit(before, f, w, source, progress, 8 * offset, value, newVal);
    region.Put(w, offset, merged);
    WriteUnit(was, before, region.mem[..], f, source, AlignDown(f.offset, w), 8 * offset, w, merged);
  }

  /** Bit `j` of the region once the access units from bit `start` up to bit `end` have been written. */
  predicate RegionBit(before: seq<byte>, f: Field, source: seq<byte>, start: nat, end: nat, j: nat) {
    if start <= j < end then
      if f.offset <= j < f.offset + f.size then BitAt(source, j - f.offset)
      else Background(UpdateRule(f), BitAt(before, j))
    else BitAt(before, j)
  }

  ghost predicate UnitsWritten(before: seq<byte>, now: seq<byte>, f: Field, source: seq<byte>, start: nat, end: nat) {
    |now| == |before| && forall j: nat :: BitAt(now, j) == RegionBit(before, f, source, start, end, j)
  }

  lemma NothingWritten(mem: seq<byte>, f: Field, source: seq<byte>, start: nat)
    ensures UnitsWritten(mem, mem, f, source, start, start)
  {
  }

  /** The word that is written to a unit: source bits in the field, the background elsewhere. */
  ghost predicate UnitMerged(now: seq<byte>, f: Field, source: seq<byte>, unit: nat, w: nat, merged: nat) {
    forall i: nat :: i < w ==> Bit(merged, i) == RegionBit(now, f, source, unit, unit + w, unit + i)
  }

  lemma MergedUnit(now: seq<byte>, f: Field, w: nat, source: seq<byte>, progress: nat, unit: nat, value: nat,
                   newVal: nat)
    requires IsWidth(w) && AtUnit(f, w, progress, unit) && progress < f.size
    requires forall i: nat :: i < w ==> (Bit(value, i) <==> Background(UpdateRule(f), BitAt(now, unit + i)))
    requires var accessBits := Min(f.size - progress, w - InUnit(f.offset + progress, w));
             forall i: nat :: Bit(newVal, i) <==> i < accessBits && BitAt(source, progress + i)
    ensures var bitOffset := InUnit(f.offset + progress, w);
            var accessBits := Min(f.size - progress, w - bitOffset);
            var mask := Moved(Ones(accessBits), 0, accessBits, bitOffset);
            UnitMerged(now, f, source, unit, w, Or(And(value, Not(64, mask)), And(Shl(newVal, bitOffset), mask)))
  {
    hide InUnit, AtUnit, BitAt, Bit, Moved, Or, And, Not, Shl, Ones, UpdateRule;
    var bitOffset := InUnit(f.offset + progress, w);
    var accessBits := Min(f.size - progress, w - bitOffset);
    var mask := Moved(Ones(accessBits), 0, accessBits, bitOffset);
    var merged := Or(And(value, Not(64, mask)), And(Shl(newVal, bitOffset), mask));
    forall i: nat | i < w
      ensures Bit(merged, i) == RegionBit(now, f, source, unit, unit + w, unit + i)
    {
      MergedBit(value, newVal, accessBits, bitOffset, i);
      UnitBit(f, w, progress, unit, unit + i);
    }
  }

  lemma WriteUnit(before: seq<byte>, now: seq<byte>, after: seq<byte>, f: Field, source: seq<byte>,
                  start: nat, unit: nat, w: nat, merged: nat)
    requires UnitsWritten(before, now, f, source, start, unit) && start <= unit && |after| == |now|
    requires UnitMerged(now, f, source, unit, w, merged)
    requires forall j: nat :: BitAt(after, j) <==> if unit <= j < unit + w then Bit(merged, j - unit) else BitAt(now, j)
    ensures UnitsWritten(before, after, f, source, start, unit + w)
  {
    hide Bit, BitAt, UpdateRule;
    forall j: nat ensures BitAt(after, j) == RegionBit(before, f, source, start, unit + w, j) {
      assert BitAt(now, j) == RegionBit(before, f, source, start, unit, j);
      if unit <= j < unit + w {
        assert Bit(merged, j - unit) == RegionBit(now, f, source, unit, unit + w, unit + (j - unit));
      }
    }
  }

  lemma AllWritten(before: seq<byte>, now: seq<byte>, f: Field, w: nat, source: seq<byte>, end: nat)
    requires IsWidth(w) && UnitsWritten(before, now, f, source, AlignDown(f.offset, w), end)
    requires if f.size == 0 then end == AlignDown(f.offset, w) else end == AlignUp(f.offset + f.size, w)
    requires AlignDown(f.offset, w) <= f.offset && (f.size > 0 ==> f.offset + f.size <= end)
    ensures FieldWritten(before, now, f, w, source)
  {
    hide Bit, BitAt, UpdateRule, AlignDown, AlignUp;
    forall j: nat ensures BitAt(now, j) == RegionBit(before, f, source, AlignDown(f.offset, w), end, j) {}
  }

  /** Which bits of a unit belong to the field. */
  lemma UnitBit(f: Field, w: nat, progress: nat, unit: nat, j: nat)
    requires IsWidth(w) && AtUnit(f, w, progress, unit) && progress < f.size && unit <= j < unit + w
    ensures var bitOffset := InUnit(f.offset + progress, w);
            var accessBits := Min(f.size - progress, w - bitOffset);
            && (f.offset <= j < f.offset + f.size <==> bitOffset <= j - unit < bitOffset + accessBits)
            && progress + (j - unit) - bitOffset == j - f.offset
  {
    NextUnit(f, w, progress, unit);
  }

  /** Replacing `n` bits of a word at `k` by the low bits of another number. */
  lemma MergedBit(value: nat, newVal: nat, n: nat, k: nat, i: nat)
    requires i < 64
    ensures var mask := Moved(Ones(n), 0, n, k);
            Bit(Or(And(value, Not(64, mask)), And(Shl(newVal, k), mask)), i) <==>
            if k <= i < k + n then Bit(newVal, i - k) else Bit(value, i)
  {
    var mask := Moved(Ones(n), 0, n, k);
    MovedBit(Ones(n), 0, n, k, i);
    if i >= k { OnesBit(n, i - k); }
    NotBit(64, mask, i);
    AndBit(value, Not(64, mask), i);
    ShlBit(newVal, k, i);
    AndBit(Shl(newVal, k), mask, i);
    OrBit(And(value, Not(64, mask)), And(Shl(newVal, k), mask), i);
  }

  // ------------------------------------------------------------------------------------
  // lai_read_field and lai_write_field.
  // ------------------------------------------------------------------------------------

  /** A source or destination: fields of more than 64 bits are read into buffers. A string is written
      as the bytes of its memory; nothing else can be written. */
  datatype FieldValue =
    | IntegerValue(n: u64)
    | BufferValue(bytes: seq<byte>)
    | StringValue(content: seq<byte>)
    | OtherValue

  predicate ValueBit(v: FieldValue, j: nat) {
    match v
    case IntegerValue(n) => Bit(n, j)
    case BufferValue(bytes) => BitAt(bytes, j)
    case StringValue(content) => BitAt(content, j)
    case OtherValue => false
  }

  /** The value of the field's bits, with zeros above them. */
  ghost predicate IsFieldValue(v: FieldValue, mem: seq<byte>, f: Field) {
    forall j: nat :: ValueBit(v, j) <==> j < f.size && BitAt(mem, f.offset + j)
  }

  /** `lai_read_field` for an access width already calculated. */
  method ReadField(region: Region, f: Field, w: nat) returns (r: Res<FieldValue>)
    requires region.Reachable() && IsWidth(w) && AlignUp(f.offset + f.size, w) <= 8 * region.mem.Length
    modifies region`index
    ensures r.Fail? <==> CoversQword(f, w)
    ensures r.Fail? ==> r == Fail(Undefined)
    ensures r.Ok? ==> IsFieldValue(r.value, region.mem[..], f)
    ensures r.Ok? && (f.size + 7) / 8 > 8 ==> r.value.BufferValue? && |r.value.bytes| == (f.size + 7) / 8
    ensures r.Ok? && (f.size + 7) / 8 <= 8 ==> r.value.IntegerValue?
  {
    var bytes := (f.size + 7) / 8;
    var buf := new byte[bytes](_ => 0);
    forall j: nat ensures !BitAt(buf[..], j) { ZeroBit(j % 8); }
    var status := ReadFieldInternal(buf, region, f, w);
    if status.Fail? { return Fail(status.fault); }
    if bytes > 8 {
      return Ok(BufferValue(buf[..]));
    }
    var value := 0;
    var i := 0;
    forall j: nat ensures !Bit(0, j) { ZeroBit(j); }
    while i < bytes
      invariant 0 <= i <= bytes
      invariant forall j: nat :: Bit(value, j) <==> j < 8 * i && BitAt(buf[..], j)
    {
      ghost var before := value;
      value := Or(value, Shl(buf[i], 8 * i));
      forall j: nat ensures Bit(value, j) <==> j < 8 * (i + 1) && BitAt(buf[..], j) {
        OrBit(before, Shl(buf[i], 8 * i), j);
        ShlBit(buf[i], 8 * i, j);
        if j >= 8 * i + 8 { ByteHasNoHighBit(buf[i], j - 8 * i); }
        if 8 * i <= j < 8 * i + 8 { assert j / 8 == i && j % 8 == j - 8 * i; }
      }
      i := i + 1;
    }
    Pow2Of64();
    SmallFromBits(value, 64);
    return Ok(IntegerValue(value));
  }

  /** How many bits a source can supply. */
  function Supply(v: FieldValue): nat {
    match v
    case IntegerValue(_) => 64
    case BufferValue(bytes) => 8 * |bytes|
    case StringValue(content) => 8 * |content|
    case OtherValue => 0
  }

  /** The source's bits go into the field, the update rule fills the rest of the touched units. */
  ghost predicate ValueWritten(before: seq<byte>, after: seq<byte>, f: Field, w: nat, v: FieldValue)
    requires w > 0
  {
    |after| == |before| &&
    forall j: nat :: BitAt(after, j) <==>
      if f.offset <= j < f.offset + f.size then ValueBit(v, j - f.offset)
      else if f.size > 0 && AlignDown(f.offset, w) <= j < AlignUp(f.offset + f.size, w)
        then Background(UpdateRule(f), BitAt(before, j))
      else BitAt(before, j)
  }

  /** `lai_write_field` for an access width already calculated. */
  method WriteField(region: Region, f: Field, w: nat, v: FieldValue) returns (r: Res<()>)
    requires region.Reachable() && IsWidth(w) && AlignUp(f.offset + f.size, w) <= 8 * region.mem.Length
    modifies region`index, region.mem
    ensures r == if v.OtherValue? then Fail(Panic) else WriteOutcome(f, w, Supply(v))
    ensures r.Ok? ==> ValueWritten(old(region.mem[..]), region.mem[..], f, w, v)
  {
    var source: seq<byte> := [];
    if v.BufferValue? {
      source := v.bytes;
    } else if v.StringValue? {
      source := v.content;
    } else if v.OtherValue? {
      return Fail(Panic);
    } else {
      var buf := new byte[8](_ => 0);
      var i := 0;
      while i < 8
        invariant 0 <= i <= 8
        invariant region.mem[..] == old(region.mem[..])
        invariant forall j: nat :: j < 8 * i ==> (BitAt(buf[..], j) <==> Bit(v.n, j))
      {
        var b := ToByte(Shr(v.n, 8 * i));
        ghost var before := buf[..];
        buf[i] := b;
        assert buf[..] == before[i := b];
        forall j: nat | j < 8 * (i + 1) ensures BitAt(buf[..], j) <==> Bit(v.n, j) {
          UpdateBit(before, i, b, j);
          if j / 8 == i { ShrBit(v.n, 8 * i, j % 8); }
        }
        i := i + 1;
      }
      source := buf[..];
    }
    r := WriteFieldInternal(source, region, f, w);
  }

  // ------------------------------------------------------------------------------------
  // What writing and reading promise each other.
  // ------------------------------------------------------------------------------------

  /** After a write, under any update rule, the field's value is the source's low bits. */
  lemma WriteThenRead(before: seq<byte>, after: seq<byte>, f: Field, w: nat, v: FieldValue, read: FieldValue)
    requires IsWidth(w) && ValueWritten(before, after, f, w, v) && IsFieldValue(read, after, f)
    ensures forall j: nat :: ValueBit(read, j) <==> j < f.size && ValueBit(v, j)
  {
    forall j: nat ensures ValueBit(read, j) <==> j < f.size && ValueBit(v, j) {
      assert j < f.size ==> BitAt(after, f.offset + j) == ValueBit(v, j);
    }
  }

  /** The number in the low `k` bits. */
  function LowBits(v: u64, k: nat): u64 {
    RemainderAtMost(v, Pow2(k));
    v % Pow2(k)
  }

  lemma RemainderAtMost(x: nat, m: nat)
    requires m > 0
    ensures x % m <= x
  {
    if x < m { ModuloUnique(x, m, 0, x); }
  }

  /** An integer read back from a field of at most 64 bits is the source modulo the field size. */
  lemma ReadBackInteger(before: seq<byte>, after: seq<byte>, f: Field, w: nat, v: u64, read: u64)
    requires IsWidth(w) && ValueWritten(before, after, f, w, IntegerValue(v))
    requires IsFieldValue(IntegerValue(read), after, f)
    ensures read == LowBits(v, f.size)
  {
    WriteThenRead(before, after, f, w, IntegerValue(v), IntegerValue(read));
    forall i: nat ensures Bit(read, i) == Bit(Trunc(f.size, v), i) {
      assert Bit(read, i) == ValueBit(IntegerValue(read), i) && Bit(v, i) == ValueBit(IntegerValue(v), i);
      TruncBit(f.size, v, i);
    }
    Extensionality(read, Trunc(f.size, v));
    TruncIsModulo(f.size, v);
  }

  /** The two methods together: what is written is what is read. */
  method WriteAndReadBack(region: Region, f: Field, w: nat, v: u64) returns (r: Res<FieldValue>)
    requires region.Reachable() && IsWidth(w) && f.size <= 64 && AlignUp(f.offset + f.size, w) <= 8 * region.mem.Length
    modifies region`index, region.mem
    ensures match WriteOutcome(f, w, 64)
            case Fail(fault) => r == Fail(fault)
            case Ok(_) => r == Ok(IntegerValue(LowBits(v, f.size)))
  {
    hide BitAt, Bit, Pow2, AlignUp, CoversQword, IsFieldValue, ValueWritten, UpdateRule, WriteOutcome;
    ghost var before := region.mem[..];
    var _ :- WriteField(region, f, w, IntegerValue(v));
    WrittenIsReadable(f, w);
    r := ReadField(region, f, w);
    ReadBackInteger(before, region.mem[..], f, w, v, r.value.n);
  }

  lemma WrittenIsReadable(f: Field, w: nat)
    requires IsWidth(w) && WriteOutcome(f, w, 64).Ok?
    ensures !CoversQword(f, w)
  {
  }

  predicate Disjoint(f: Field, g: Field) {
    f.offset + f.size <= g.offset || g.offset + g.size <= f.offset
  }

  /** A Preserve write through one field does not change what another, disjoint field reads,
      whatever access widths the two use and even where they share access units. */
  lemma PreserveKeepsOthers(before: seq<byte>, after: seq<byte>, f: Field, w: nat, v: FieldValue, g: Field,
                            read: FieldValue)
    requires IsWidth(w) && UpdateRule(f) == FIELD_PRESERVE && Disjoint(f, g)
    requires ValueWritten(before, after, f, w, v)
    ensures IsFieldValue(read, after, g) <==> IsFieldValue(read, before, g)
  {
    forall k: nat | g.offset <= k < g.offset + g.size ensures BitAt(after, k) == BitAt(before, k) {}
  }

  /** Whether a write through the field rewrites this bit of the region. */
  predicate Touches(f: Field, w: nat, k: nat)
    requires IsWidth(w)
  {
    f.size > 0 && AlignDown(f.offset, w) <= k < AlignUp(f.offset + f.size, w)
  }

  /** A write that fills the touched access units with ones or zeros keeps the value of a disjoint field
      exactly when all bits the two share a unit in already have the value of the filling. */
  lemma OverwriteKeepsExactly(before: seq<byte>, after: seq<byte>, f: Field, w: nat, v: FieldValue, g: Field,
                              read: FieldValue)
    requires IsWidth(w) && FIELD_WRITE_ONES <= UpdateRule(f) <= FIELD_WRITE_ZEROES && Disjoint(f, g)
    requires ValueWritten(before, after, f, w, v) && IsFieldValue(read, before, g)
    ensures IsFieldValue(read, after, g) <==>
            forall k: nat :: g.offset <= k < g.offset + g.size && Touches(f, w, k) ==>
              (BitAt(before, k) <==> UpdateRule(f) == FIELD_WRITE_ONES)
  {
    hide BitAt, UpdateRule, AlignUp, AlignDown;
    forall k: nat | g.offset <= k < g.offset + g.size
      ensures BitAt(after, k) <==>
                if Touches(f, w, k) then UpdateRule(f) == FIELD_WRITE_ONES else BitAt(before, k)
    {
      assert BitAt(after, k) <==>
        if Touches(f, w, k) then Background(UpdateRule(f), BitAt(before, k)) else BitAt(before, k);
    }
    if IsFieldValue(read, after, g) {
      forall k: nat | g.offset <= k < g.offset + g.size && Touches(f, w, k)
        ensures BitAt(before, k) <==> UpdateRule(f) == FIELD_WRITE_ONES
      {
        assert ValueBit(read, k - g.offset) <==> BitAt(after, g.offset + (k - g.offset));
      }
    }
  }
}

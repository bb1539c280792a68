/** Resource templates (section 6.4 of the ACPI 6.3 specification): the iterator of
    `helpers/resource.c` and the ConcatenateResTemplate operator of `core/exec.c`. */
module Resources {
  import opened Bits
  import opened Outcomes
  import opened Names

  const SMALL_IRQ := 0x04
  const SMALL_IO := 0x08
  const SMALL_FIXED_IO := 0x09
  const SMALL_END := 0x0F
  const LARGE_FIXED_MEM32 := 0x86
  const LARGE_IRQ := 0x89
  const END_TAG: byte := 0x79
  const IRQ_EDGE_TRIGGERED: byte := 1

  datatype Header = Header(kind: nat, size: nat, skipSize: nat)

  function At(data: seq<byte>, i: nat): Res<byte> {
    if i < |data| then Ok(data[i]) else Fail(Undefined)
  }

  /** `lai_get_header_info`. */
  function HeaderAt(data: seq<byte>, entry: nat): Res<Header> {
    var lead :- At(data, entry);
    if lead < 128 then Ok(Header(lead / 8 % 16, lead % 8, lead % 8 + 1))
    else
      var low :- At(data, entry + 1);
      var high :- At(data, entry + 2);
      Ok(Header(lead, low + 256 * high, low + 256 * high + 3))
  }

  /** Little-endian words; a 32-bit one is first an `int`, which is extended by its sign. */
  function Word16(low: byte, high: byte): nat {
    low + 256 * high
  }

  function Word32(b: seq<byte>): nat
    requires |b| == 4
  {
    LittleEndian(b)
  }

  function SignExtended(x: nat): nat
    requires x < 0x1_0000_0000
  {
    if x < 0x8000_0000 then x else TWO64 - 0x1_0000_0000 + x
  }

  lemma Word32Fits(b: seq<byte>)
    requires |b| == 4
    ensures Word32(b) < 0x1_0000_0000
    ensures Word32(b) < 0x8000_0000 <==> b[3] < 128
  {
    var b0: int, b1: int, b2: int, b3: int := b[0], b[1], b[2], b[3];
    assert b[1..][1..] == b[2..] && b[2..][1..] == b[3..] && b[3..][1..] == [];
    assert LittleEndian(b[3..]) == b3 && LittleEndian(b[2..]) == b2 + 256 * b3;
    assert LittleEndian(b) == b0 + 256 * (b1 + 256 * (b2 + 256 * b3));
  }

  /** The fields of `struct lai_resource_view`; `entry` is an offset into the buffer. */
  datatype View = View(entry: nat, skipSize: nat, entryIdx: nat, base: nat, length: nat,
                       alignment: byte, flags: byte, gsi: nat)

  const INITIAL_VIEW := View(0, 0, 0, 0, 0, 0, 0, 0)

  /** What `lai_resource_iterate` stores for the descriptor that the view has moved to. */
  function Describe(v: View, data: seq<byte>, h: Header): Res<View> {
    var e := v.entry;
    if h.kind == SMALL_FIXED_IO then
      if e + 3 >= |data| then Fail(Undefined)
      else Ok(v.(base := Word16(data[e + 1], data[e + 2] % 4), length := data[e + 3], skipSize := h.skipSize))
    else if h.kind == SMALL_IO then
      if e + 7 >= |data| then Fail(Undefined)
      else Ok(v.(flags := data[e + 1], base := Word16(data[e + 2], data[e + 3]), alignment := data[e + 6],
                 length := data[e + 7], skipSize := h.skipSize))
    else if h.kind == SMALL_IRQ then
      if h.size == 2 then Ok(v.(entryIdx := 0, flags := IRQ_EDGE_TRIGGERED, skipSize := h.skipSize))
      else if h.size == 3 then
        var flags :- At(data, e + 3);
        Ok(v.(entryIdx := 0, flags := flags, skipSize := h.skipSize))
      else Fail(Api(UnexpectedResult))
    else if h.kind == SMALL_END then Fail(Api(EndReached))
    else if h.kind == LARGE_IRQ then
      var flags :- At(data, e + 3);
      Ok(v.(entryIdx := 0, flags := flags, skipSize := h.skipSize))
    else if h.kind == LARGE_FIXED_MEM32 then
      if e + 11 >= |data| then Fail(Undefined)
      else
        Word32Fits(data[e + 8..e + 12]);
        Ok(v.(flags := data[e + 3], base := Word32(data[e + 4..e + 8]),
              length := SignExtended(Word32(data[e + 8..e + 12])), skipSize := h.skipSize))
    else Ok(v.(skipSize := h.skipSize))
  }

  /** `lai_resource_iterate`. */
  function Iterate(v: View, data: seq<byte>): Res<View> {
    var moved := v.(entry := v.entry + v.skipSize);
    var h :- HeaderAt(data, moved.entry);
    Describe(moved, data, h)
  }

  /** The view as the code keeps it. */
  class ResourceView {
    const data: seq<byte>
    var entry: nat
    var skipSize: nat
    var entryIdx: nat
    var base: nat
    var length: nat
    var alignment: byte
    var flags: byte
    var gsi: nat

    ghost function Current(): View
      reads this
    {
      View(entry, skipSize, entryIdx, base, length, alignment, flags, gsi)
    }

    /** `lai_initialize_resource_view`. */
    constructor (crs: seq<byte>)
      ensures data == crs && Current() == INITIAL_VIEW
    {
      data := crs;
      entry, skipSize, entryIdx, base, length, alignment, flags, gsi := 0, 0, 0, 0, 0, 0, 0, 0;
    }

    /** Moves to the next descriptor; at the end tag and on an error the entry stays on it. */
    method Next() returns (r: Res<()>)
      modifies this
      ensures entry == old(entry + skipSize)
      ensures match Iterate(old(Current()), data)
              case Ok(v) => r == Ok(()) && Current() == v
              case Fail(f) => r == Fail(f)
    {
      hide HeaderAt, Word32, Word16, SignExtended, LittleEndian;
      entry := entry + skipSize;
      var h :- HeaderAt(data, entry);
      if h.kind == SMALL_FIXED_IO {
        if entry + 3 >= |data| { return Fail(Undefined); }
        base, length := Word16(data[entry + 1], data[entry + 2] % 4), data[entry + 3];
      } else if h.kind == SMALL_IO {
        if entry + 7 >= |data| { return Fail(Undefined); }
        flags := data[entry + 1];
        base := Word16(data[entry + 2], data[entry + 3]);
        alignment, length := data[entry + 6], data[entry + 7];
      } else if h.kind == SMALL_IRQ {
        entryIdx := 0;
        if h.size == 2 {
          flags := IRQ_EDGE_TRIGGERED;
        } else if h.size == 3 {
          flags :- At(data, entry + 3);
        } else {
          return Fail(Api(UnexpectedResult));
        }
      } else if h.kind == SMALL_END {
        skipSize := h.skipSize;
        return Fail(Api(EndReached));
      } else if h.kind == LARGE_IRQ {
        entryIdx := 0;
        flags :- At(data, entry + 3);
      } else if h.kind == LARGE_FIXED_MEM32 {
        if entry + 11 >= |data| { return Fail(Undefined); }
        Word32Fits(data[entry + 8..entry + 12]);
        flags, base := data[entry + 3], Word32(data[entry + 4..entry + 8]);
        length := SignExtended(Word32(data[entry + 8..entry + 12]));
      }
      skipSize := h.skipSize;
      return Ok(());
    }

    /** `lai_resource_next_irq`: the next interrupt of the current descriptor. */
    method NextIrq() returns (r: Res<()>)
      modifies this`entryIdx, this`gsi
      ensures match NextIrqOf(old(Current()), data)
              case Ok(v) => r == Ok(()) && Current() == v
              case Fail(f) => r == Fail(f) && NextIrqOf(Current(), data) == Fail(f)
    {
      var h :- HeaderAt(data, entry);
      if h.kind == SMALL_IRQ {
        if entry + 2 >= |data| { return Fail(Undefined); }
        var mask := Word16(data[entry + 1], data[entry + 2]) % 256;
        while entryIdx <= 15
          invariant FirstIrq(mask, entryIdx) == FirstIrq(mask, old(entryIdx))
          decreases 16 - entryIdx
        {
          if Bit(mask, entryIdx) {
            gsi, entryIdx := entryIdx, entryIdx + 1;
            return Ok(());
          }
          entryIdx := entryIdx + 1;
        }
        return Fail(Api(EndReached));
      } else if h.kind == LARGE_IRQ {
        var count :- At(data, entry + 4);
        if entryIdx >= count { return Fail(Api(EndReached)); }
        var offset := (4 * entryIdx + 5) % 256;
        if entry + offset + 3 >= |data| { return Fail(Undefined); }
        Word32Fits(data[entry + offset..entry + offset + 4]);
        gsi, entryIdx := Word32(data[entry + offset..entry + offset + 4]), entryIdx + 1;
        return Ok(());
      }
      return Fail(Api(IllegalArguments));
    }
  }

  /** The lowest interrupt line from `i` on that a small descriptor reports. */
  function FirstIrq(mask: nat, i: nat): Option<nat>
    decreases 16 - i
  {
    if i > 15 then None else if Bit(mask, i) then Some(i) else FirstIrq(mask, i + 1)
  }

  /** The mask of a small descriptor is stored in a byte, and so is the offset into a large one. */
  function NextIrqOf(v: View, data: seq<byte>): Res<View> {
    var h :- HeaderAt(data, v.entry);
    if h.kind == SMALL_IRQ then
      if v.entry + 2 >= |data| then Fail(Undefined)
      else
        match FirstIrq(Word16(data[v.entry + 1], data[v.entry + 2]) % 256, v.entryIdx)
        case Some(line) => Ok(v.(gsi := line, entryIdx := line + 1))
        case None => Fail(Api(EndReached))
    else if h.kind == LARGE_IRQ then
      var count :- At(data, v.entry + 4);
      if v.entryIdx >= count then Fail(Api(EndReached))
      else
        var offset := (4 * v.entryIdx + 5) % 256;
        if v.entry + offset + 3 >= |data| then Fail(Undefined)
        else Ok(v.(gsi := Word32(data[v.entry + offset..v.entry + offset + 4]), entryIdx := v.entryIdx + 1))
    else Fail(Api(IllegalArguments))
  }

  // ------------------------------------------------------------------------------------
  // Templates.
  // ------------------------------------------------------------------------------------

  datatype Descriptor = Small(tag: nat, payload: seq<byte>) | Large(lead: byte, payload: seq<byte>)

  /** The descriptors of section 6.4, as far as their sizes matter to the iterator. */
  predicate WellFormed(d: Descriptor) {
    match d
    case Small(tag, payload) =>
      && tag < SMALL_END && |payload| <= 7
      && (tag == SMALL_IRQ ==> |payload| in {2, 3})
      && (tag == SMALL_FIXED_IO ==> |payload| == 3)
      && (tag == SMALL_IO ==> |payload| == 7)
    case Large(lead, payload) =>
      && lead >= 128 && |payload| < 0x1_0000
      && (lead == LARGE_IRQ ==> |payload| >= 6)
      && (lead == LARGE_FIXED_MEM32 ==> |payload| == 9)
  }

  function Encode(d: Descriptor): (s: seq<byte>)
    requires WellFormed(d)
    ensures |s| == |d.payload| + if d.Small? then 1 else 3
  {
    match d
    case Small(tag, payload) => [8 * tag + |payload|] + payload
    case Large(lead, payload) => [lead, |payload| % 256, |payload| / 256] + payload
  }

  predicate AllWellFormed(ds: seq<Descriptor>) {
    forall i :: 0 <= i < |ds| ==> WellFormed(ds[i])
  }

  function EncodeAll(ds: seq<Descriptor>): seq<byte>
    requires AllWellFormed(ds)
  {
    if ds == [] then [] else Encode(ds[0]) + EncodeAll(ds[1..])
  }

  /** A buffer that holds these descriptors and an end tag with any checksum; an empty buffer counts
      as a template without descriptors. */
  predicate IsTemplate(data: seq<byte>, ds: seq<Descriptor>) {
    && AllWellFormed(ds)
    && if data == [] then ds == []
       else |data| >= 2 && data[..|data| - 2] == EncodeAll(ds) && data[|data| - 2] == END_TAG
  }

  lemma {:induction false} EncodeAppend(ds: seq<Descriptor>, es: seq<Descriptor>)
    requires AllWellFormed(ds) && AllWellFormed(es)
    ensures AllWellFormed(ds + es) && EncodeAll(ds + es) == EncodeAll(ds) + EncodeAll(es)
    decreases |ds|
  {
    if ds == [] {
      assert ds + es == es;
    } else {
      assert (ds + es)[1..] == ds[1..] + es;
      EncodeAppend(ds[1..], es);
    }
  }

  /** The descriptor under the view, as its header delimits it. */
  function DescriptorAt(data: seq<byte>, entry: nat): Res<Descriptor> {
    var h :- HeaderAt(data, entry);
    var begin := entry + h.skipSize - h.size;
    if begin + h.size > |data| then Fail(Undefined)
    else if data[entry] < 128 then Ok(Small(h.kind, data[begin..begin + h.size]))
    else Ok(Large(data[entry], data[begin..begin + h.size]))
  }

  /** The descriptors the iterator visits before it stops, and why it stops. */
  function Visits(v: View, data: seq<byte>, limit: nat): (seq<Descriptor>, Fault)
    decreases limit
  {
    match Iterate(v, data)
    case Fail(f) => ([], f)
    case Ok(next) =>
      match DescriptorAt(data, next.entry)
      case Fail(f) => ([], f)
      case Ok(d) =>
        if limit == 0 then ([d], Undefined)
        else var rest := Visits(next, data, limit - 1); ([d] + rest.0, rest.1)
  }

  /** The header of an encoded descriptor gives back its kind and sizes. */
  lemma HeaderOfEncoded(data: seq<byte>, pos: nat, d: Descriptor)
    requires WellFormed(d) && Holds(data, pos, Encode(d))
    ensures HeaderAt(data, pos) == Ok(Header(if d.Small? then d.tag else d.lead, |d.payload|, |Encode(d)|))
    ensures DescriptorAt(data, pos) == Ok(d)
  {
    hide Holds;
    HoldsAt(data, pos, Encode(d), 0);
    PayloadHolds(data, pos, d);
    if d.Small? {
      SmallLead(d.tag, |d.payload|);
    } else {
      HoldsAt(data, pos, Encode(d), 1);
      HoldsAt(data, pos, Encode(d), 2);
    }
  }

  lemma PayloadHolds(data: seq<byte>, pos: nat, d: Descriptor)
    requires WellFormed(d) && Holds(data, pos, Encode(d))
    ensures var begin := pos + if d.Small? then 1 else 3;
            begin + |d.payload| <= |data| && data[begin..begin + |d.payload|] == d.payload
  {
    if d.Small? {
      HoldsSplit(data, pos, [8 * d.tag + |d.payload|], d.payload);
    } else {
      HoldsSplit(data, pos, [d.lead, |d.payload| % 256, |d.payload| / 256], d.payload);
    }
  }

  lemma SmallLead(tag: nat, n: nat)
    requires tag < 16 && n < 8
    ensures (8 * tag + n) / 8 % 16 == tag && (8 * tag + n) % 8 == n
  {
    ModuloUnique(8 * tag + n, 8, tag, n);
    ModuloUnique(tag, 16, 0, tag);
  }

  /** The iterator moves from one encoded descriptor to the next. */
  lemma StepOverDescriptor(v: View, data: seq<byte>, d: Descriptor)
    requires WellFormed(d) && Holds(data, v.entry + v.skipSize, Encode(d))
    ensures var r := Iterate(v, data);
            r.Ok? && r.value.entry == v.entry + v.skipSize && r.value.skipSize == |Encode(d)|
            && DescriptorAt(data, r.value.entry) == Ok(d)
  {
    hide Word32, Word16, SignExtended, DescriptorAt, HeaderAt;
    HeaderOfEncoded(data, v.entry + v.skipSize, d);
  }

  lemma StopAtEnd(v: View, data: seq<byte>)
    requires v.entry + v.skipSize < |data| && data[v.entry + v.skipSize] == END_TAG
    ensures Iterate(v, data) == Fail(Api(EndReached))
  {
  }

  lemma {:induction false} VisitsTemplate(v: View, data: seq<byte>, ds: seq<Descriptor>, limit: nat)
    requires AllWellFormed(ds) && |ds| <= limit
    requires var pos := v.entry + v.skipSize;
             Holds(data, pos, EncodeAll(ds)) && pos + |EncodeAll(ds)| < |data| && data[pos + |EncodeAll(ds)|] == END_TAG
    ensures Visits(v, data, limit) == (ds, Api(EndReached))
    decreases |ds|
  {
    hide Iterate, DescriptorAt, Encode;
    var pos := v.entry + v.skipSize;
    if ds == [] {
      StopAtEnd(v, data);
    } else {
      assert ds == [ds[0]] + ds[1..];
      HoldsSplit(data, pos, Encode(ds[0]), EncodeAll(ds[1..]));
      StepOverDescriptor(v, data, ds[0]);
      VisitsTemplate(Iterate(v, data).value, data, ds[1..], limit - 1);
    }
  }

  // ------------------------------------------------------------------------------------
  // ConcatenateResTemplate.
  // ------------------------------------------------------------------------------------

  function Sum(s: seq<byte>): nat {
    if s == [] then 0 else Sum(s[..|s| - 1]) + s[|s| - 1]
  }

  /** The bytes of a template before its end tag. */
  function Body(data: seq<byte>): seq<byte>
    requires |data| != 1
  {
    if data == [] then [] else data[..|data| - 2]
  }

  function ConcatRes(a: seq<byte>, b: seq<byte>): Res<seq<byte>> {
    if |a| == 1 || |b| == 1 then Fail(Api(UnexpectedResult))
    else
      var summed := Body(a) + Body(b) + [END_TAG];
      Ok(summed + [(256 - Sum(summed) % 256) % 256])
  }

  method ByteSum(s: seq<byte>) returns (check: nat)
    ensures check == Sum(s) % 256
  {
    check := 0;
    var i := 0;
    while i < |s|
      invariant i <= |s| && check == Sum(s[..i]) % 256
    {
      assert s[..i + 1][..i] == s[..i];
      check := (check + s[i]) % 256;
      i := i + 1;
    }
    assert s[..|s|] == s;
  }

  method Copy(buffer: array<byte>, at: nat, s: seq<byte>)
    requires at + |s| <= buffer.Length
    modifies buffer
    ensures forall i :: 0 <= i < buffer.Length ==>
              buffer[i] == if at <= i < at + |s| then s[i - at] else old(buffer[i])
  {
    forall i | 0 <= i < |s| { buffer[at + i] := s[i]; }
  }

  /** The two copies and the end tag, with room for the checksum. */
  method Join(x: seq<byte>, y: seq<byte>) returns (buffer: array<byte>)
    ensures fresh(buffer) && buffer.Length == |x| + |y| + 2 && buffer[..|x| + |y| + 1] == x + y + [END_TAG]
  {
    var n := |x| + |y|;
    buffer := new byte[n + 2](_ => 0);
    Copy(buffer, 0, x);
    Copy(buffer, |x|, y);
    buffer[n] := END_TAG;
  }

  /** The operator as the code computes it: two copies, the end tag, and a checksum loop. */
  method ConcatResources(a: seq<byte>, b: seq<byte>) returns (r: Res<seq<byte>>)
    ensures r == ConcatRes(a, b)
  {
    hide Sum, Body;
    if |a| == 1 || |b| == 1 { return Fail(Api(UnexpectedResult)); }
    var buffer := Join(Body(a), Body(b));
    var last := buffer.Length - 1;
    var check := ByteSum(buffer[..last]);
    buffer[last] := (256 - check) % 256;
    assert buffer[..] == buffer[..last] + [buffer[last]];
    return Ok(buffer[..]);
  }

  lemma ClosedSum(summed: seq<byte>)
    ensures Sum(summed + [(256 - Sum(summed) % 256) % 256]) % 256 == 0
  {
    hide Sum;
    SumPush(summed, (256 - Sum(summed) % 256) % 256);
    Complement(Sum(summed));
  }

  lemma SumPush(s: seq<byte>, b: byte)
    ensures Sum(s + [b]) == Sum(s) + b
  {
    assert (s + [b])[..|s|] == s;
  }

  lemma Complement(x: nat)
    ensures (x + (256 - x % 256) % 256) % 256 == 0
  {
    if x % 256 != 0 { ModuloUnique(x + 256 - x % 256, 256, x / 256 + 1, 0); }
  }

  /** The checksum makes the bytes of every result sum to zero. */
  lemma ChecksumIsZero(a: seq<byte>, b: seq<byte>)
    requires ConcatRes(a, b).Ok?
    ensures Sum(ConcatRes(a, b).value) % 256 == 0
  {
    ClosedSum(Body(a) + Body(b) + [END_TAG]);
  }

  /** Iterating the concatenation of two templates visits the descriptors of the first, then those of
      the second, then reaches the end tag; its bytes sum to zero. */
  lemma ConcatVisitsBoth(a: seq<byte>, ds: seq<Descriptor>, b: seq<byte>, es: seq<Descriptor>, limit: nat)
    requires IsTemplate(a, ds) && IsTemplate(b, es) && |ds| + |es| <= limit
    ensures ConcatRes(a, b).Ok? && IsTemplate(ConcatRes(a, b).value, ds + es)
    ensures Visits(INITIAL_VIEW, ConcatRes(a, b).value, limit) == (ds + es, Api(EndReached))
    ensures Sum(ConcatRes(a, b).value) % 256 == 0
  {
    EncodeAppend(ds, es);
    ChecksumIsZero(a, b);
    var r := ConcatRes(a, b).value;
    assert Body(a) == EncodeAll(ds) && Body(b) == EncodeAll(es);
    assert r[..|r| - 2] == EncodeAll(ds + es);
    VisitsTemplate(INITIAL_VIEW, r, ds + es, limit);
  }

  // ------------------------------------------------------------------------------------
  // What the view says about a descriptor.
  // ------------------------------------------------------------------------------------

  /** A port range: ten address bits in the fixed form, sixteen in the other. */
  lemma PortRange(v: View, data: seq<byte>, d: Descriptor)
    requires WellFormed(d) && Holds(data, v.entry + v.skipSize, Encode(d)) && d.Small?
    ensures d.tag == SMALL_FIXED_IO ==>
              Iterate(v, data).value.base == Word16(d.payload[0], d.payload[1]) % 1024
              && Iterate(v, data).value.length == d.payload[2]
    ensures d.tag == SMALL_IO ==>
              Iterate(v, data).value.base == Word16(d.payload[1], d.payload[2])
              && Iterate(v, data).value.length == d.payload[6]
  {
    hide HeaderAt, DescriptorAt, Holds, Encode, LittleEndian;
    var pos := v.entry + v.skipSize;
    HeaderOfEncoded(data, pos, d);
    PayloadOfSmall(data, pos, d);
  }

  lemma PayloadOfSmall(data: seq<byte>, pos: nat, d: Descriptor)
    requires WellFormed(d) && Holds(data, pos, Encode(d)) && d.Small?
    ensures pos + 1 + |d.payload| <= |data|
    ensures forall i :: 0 <= i < |d.payload| ==> data[pos + 1 + i] == d.payload[i]
  {
    forall i | 0 <= i < |d.payload| ensures data[pos + 1 + i] == d.payload[i] {
      HoldsAt(data, pos, Encode(d), 1 + i);
      assert ([8 * d.tag + |d.payload|] + d.payload)[1 + i] == d.payload[i];
    }
  }

  /** A fixed memory range: the base is right, the length exactly when it is below 2 GiB. */
  lemma MemoryRange(v: View, data: seq<byte>, d: Descriptor)
    requires WellFormed(d) && Holds(data, v.entry + v.skipSize, Encode(d)) && d.Large? && d.lead == LARGE_FIXED_MEM32
    ensures Iterate(v, data).value.base == Word32(d.payload[1..5])
    ensures Iterate(v, data).value.length == Word32(d.payload[5..9]) <==> d.payload[8] < 128
  {
    hide Word32, HeaderAt, DescriptorAt, Holds;
    var pos := v.entry + v.skipSize;
    HeaderOfEncoded(data, pos, d);
    PayloadOfLarge(data, pos, d);
    SliceOfSlice(data, pos + 3, pos + 12, 1, 5);
    SliceOfSlice(data, pos + 3, pos + 12, 5, 9);
    Word32Fits(d.payload[5..9]);
  }

  /** The interrupts of a small descriptor, in order, from line `i` on. */
  function Lines(mask: nat, i: nat): seq<nat>
    decreases 16 - i
  {
    if i > 15 then [] else (if Bit(mask, i) then [i] else []) + Lines(mask, i + 1)
  }

  /** Lines 8 to 15 are lost, because the mask is kept in one byte: the reported interrupts are the
      ones of the descriptor if and only if its second byte is zero. */
  lemma SmallIrqsExactlyWhen(low: byte, high: byte)
    ensures Lines(Word16(low, high) % 256, 0) == Lines(Word16(low, high), 0) <==> high == 0
  {
    hide Lines, Bit, Shl, Pow2;
    LowByte(low, high);
    if high != 0 {
      var k := SomeBitSet(high);
      if k >= 8 { Pow2Of64(); HighBitClear(high, 8, k); }
      assert Pow2(8) == 256 && Shl(high, 8) == 256 * high by { ShlIsTimes(high, 8); Pow2Of64(); }
      SumBit(low, 8, high, 8 + k);
      HighBitClear(low, 8, 8 + k);
      LineMember(low, 0, 8 + k);
      LineMember(Word16(low, high), 0, 8 + k);
    }
  }

  lemma LowByte(low: byte, high: byte)
    ensures Word16(low, high) % 256 == low
  {
    ModuloUnique(low + 256 * high, 256, high, low);
  }

  lemma {:induction false} LineMember(mask: nat, i: nat, line: nat)
    requires line <= 15
    ensures line in Lines(mask, i) <==> i <= line && Bit(mask, line)
    decreases 16 - i
  {
    if i <= 15 { LineMember(mask, i + 1, line); }
  }

  /** Repeating the query reports exactly the lines of the truncated mask. */
  lemma {:induction false} FirstOfLines(mask: nat, i: nat)
    ensures match FirstIrq(mask, i)
            case None => Lines(mask, i) == []
            case Some(line) => i <= line <= 15 && Lines(mask, i) == [line] + Lines(mask, line + 1)
    decreases 16 - i
  {
    if i <= 15 { FirstOfLines(mask, i + 1); }
  }

  /** Whether interrupt `k` of this descriptor is read from its place. */
  predicate ReadsIrq(v: View, data: seq<byte>, d: Descriptor, k: nat)
    requires IsIrq(d, k)
  {
    NextIrqOf(v, data) == Ok(v.(gsi := Word32(d.payload[2 + 4 * k..6 + 4 * k]), entryIdx := k + 1))
  }

  /** A large descriptor with more than `k` interrupts. */
  predicate IsIrq(d: Descriptor, k: nat) {
    && WellFormed(d) && d.Large? && d.lead == LARGE_IRQ
    && k < d.payload[1] && |d.payload| >= 2 + 4 * (d.payload[1] as int)
  }

  ghost predicate AlwaysReadsIrq(k: nat) {
    forall v: View, data, d :: IsIrq(d, k) && Holds(data, v.entry, Encode(d)) && v.entryIdx == k ==>
      ReadsIrq(v, data, d, k)
  }

  /** The offset of an interrupt is kept in one byte: interrupt `k` is read from its place in all
      descriptors if and only if it is among the first 63. */
  lemma LargeIrqExactlyWhen(k: nat)
    requires k < 255
    ensures AlwaysReadsIrq(k) <==> k < 63
  {
    if k < 63 {
      forall v: View, data, d | IsIrq(d, k) && Holds(data, v.entry, Encode(d)) && v.entryIdx == k
        ensures ReadsIrq(v, data, d, k)
      {
        LargeIrqInPlace(v, data, d);
      }
    } else {
      LargeIrqMisread(k);
    }
  }

  /** All interrupts of this descriptor are 0 but interrupt `k`, which is 1. */
  function LateIrq(k: nat): (d: Descriptor)
    requires k < 255
    ensures IsIrq(d, k) && |d.payload| == 1022
  {
    Large(LARGE_IRQ, seq(1022, i => if i == 1 then 255 else if i == 2 + 4 * k then 1 else 0))
  }

  /** Interrupts from number 63 on are read from the beginning of the descriptor. */
  lemma LargeIrqMisread(k: nat)
    requires 63 <= k < 255
    ensures !AlwaysReadsIrq(k)
  {
    hide Word32, HeaderAt, LateIrq;
    var d, v := LateIrq(k), INITIAL_VIEW.(entryIdx := k);
    var data := Encode(d);
    assert data[0..0 + |data|] == data;
    assert IsIrq(d, k) && Holds(data, v.entry, Encode(d));
    HeaderOfEncoded(data, 0, d);
    LateIrqBytes(k);
    assert !ReadsIrq(v, data, d, k);
  }

  /** The word in its place, and the word that is read instead. */
  lemma LateIrqBytes(k: nat)
    requires 63 <= k < 255
    ensures var d, offset := LateIrq(k), (4 * k + 5) % 256;
            && offset + 4 <= |Encode(d)| && Encode(d)[4] == 255
            && Word32(d.payload[2 + 4 * k..6 + 4 * k]) == 1
            && Word32(Encode(d)[offset..offset + 4]) != 1
  {
    hide Word32, LateIrq, Encode;
    var m := (4 * k + 5) / 256;
    var q: nat := k + 1 - 64 * m;
    assert (4 * k + 5) % 256 == 4 * q + 1 && q <= 63;
    WordInPlace(k);
    WordThere(k, q);
  }

  lemma WordInPlace(k: nat)
    requires 63 <= k < 255
    ensures Word32(LateIrq(k).payload[2 + 4 * k..6 + 4 * k]) == 1 && Encode(LateIrq(k))[4] == 255
  {
    hide Word32;
    WordOfBytes(LateIrq(k).payload[2 + 4 * k..6 + 4 * k]);
  }

  lemma WordThere(k: nat, q: nat)
    requires 63 <= k < 255 && q <= 63
    ensures Word32(Encode(LateIrq(k))[4 * q + 1..4 * q + 5]) != 1
  {
    hide Word32;
    var data, payload, offset := Encode(LateIrq(k)), LateIrq(k).payload, 4 * q + 1;
    WordOfBytes(data[offset..offset + 4]);
    if q == 0 {
      assert data[offset..offset + 4][3] == payload[1];
    } else {
      var place := 4 * q - 2;
      assert data[offset] == payload[place];
    }
  }

  lemma WordOfBytes(b: seq<byte>)
    requires |b| == 4
    ensures Word32(b) == b[0] + 256 * b[1] + 0x1_0000 * b[2] + 0x100_0000 * (b[3] as int)
  {
    assert LittleEndian(b) == b[0] + 256 * LittleEndian(b[1..]);
    assert LittleEndian(b[1..]) == b[1] + 256 * LittleEndian(b[2..]) by { assert b[1..][1..] == b[2..]; }
    assert LittleEndian(b[2..]) == b[2] + 256 * LittleEndian(b[3..]) by { assert b[2..][1..] == b[3..]; }
    assert LittleEndian(b[3..]) == b[3] by { assert b[3..][1..] == []; }
  }

  lemma LargeIrqInPlace(v: View, data: seq<byte>, d: Descriptor)
    requires IsIrq(d, v.entryIdx) && Holds(data, v.entry, Encode(d)) && v.entryIdx < 63
    ensures ReadsIrq(v, data, d, v.entryIdx)
  {
    hide Word32, HeaderAt, DescriptorAt, Holds;
    var pos, k := v.entry, v.entryIdx;
    HeaderOfEncoded(data, pos, d);
    PayloadOfLarge(data, pos, d);
    assert data[pos + 3..pos + 3 + |d.payload|][1] == d.payload[1];
    SliceOfSlice(data, pos + 3, pos + 3 + |d.payload|, 2 + 4 * k, 6 + 4 * k);
  }

  lemma SliceOfSlice(s: seq<byte>, from: nat, to: nat, i: nat, j: nat)
    requires from <= to <= |s| && i <= j <= to - from
    ensures s[from..to][i..j] == s[from + i..from + j]
  {
    var inner := s[from..to];
    forall k | 0 <= k < j - i ensures inner[i..j][k] == s[from + i..from + j][k] {}
  }

  lemma PayloadOfLarge(data: seq<byte>, pos: nat, d: Descriptor)
    requires WellFormed(d) && Holds(data, pos, Encode(d)) && d.Large?
    ensures pos + 3 + |d.payload| <= |data| && data[pos + 3..pos + 3 + |d.payload|] == d.payload
  {
    HoldsSplit(data, pos, [d.lead, |d.payload| % 256, |d.payload| / 256], d.payload);
  }
}

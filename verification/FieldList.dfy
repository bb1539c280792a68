/** The FieldList of Field() and IndexField() (`core/exec.c`): which bit range and which flags every named
    field gets, which nodes the parser installs, and that the ranges never overlap. */
module FieldList {
  import opened Bits
  import opened Outcomes
  import opened Names
  import opened Namespace
  import opened Machine
  import opened Fields
  import opened Syntax
  import opened Decoding

  const RESERVED_FIELD := 0
  const ACCESS_FIELD := 1
  const CONNECT_FIELD := 2

  datatype NamedField = NamedField(name: AmlName, field: Field)

  /** The list from `pc` to `end`, starting at bit `offset` with these flags. A length that is cut
      off by `limit` is an error; a list that runs past the table is read out of bounds. */
  function Layout(code: seq<byte>, pc: nat, end: nat, limit: int, flags: byte, offset: nat): Res<seq<NamedField>>
    decreases |code| - pc
  {
    if pc >= end then Ok([])
    else if pc >= |code| then Fail(Undefined)
    else if code[pc] == RESERVED_FIELD then
      var skip :- ReadPackageLength(code, pc + 1, limit);
      Layout(code, skip.1, end, limit, flags, offset + skip.0)
    else if code[pc] == ACCESS_FIELD then
      var access :- ByteAt(code, pc + 1);
      Layout(code, pc + 3, end, limit, access, offset)
    else if code[pc] == CONNECT_FIELD then Fail(Panic)
    else
      var name :- ParseName(code, pc);
      var size :- ReadPackageLength(code, name.1, limit);
      var rest :- Layout(code, size.1, end, limit, flags, offset + size.0);
      Ok([NamedField(name.0, Field(offset, size.0, flags))] + rest)
  }

  // ------------------------------------------------------------------------------------
  // From the list to the namespace.
  // ------------------------------------------------------------------------------------

  function UnitOf(register: Register, f: Field): Kind {
    FieldUnit(register, f.flags, f.offset, f.size)
  }

  /** One node after the other. */
  function InstallAll(s: State, register: Register, fields: seq<NamedField>): Res<State>
    requires s.contexts.Cons?
    decreases |fields|
  {
    if fields == [] then Ok(s)
    else
      var s' :- CreateNode(s, fields[0].name, UnitOf(register, fields[0].field));
      InstallAll(s', register, fields[1..])
  }

  /** The loop over a FieldList succeeds if and only if the list can be read to its end and every field of
      it can be installed, and then it has installed exactly these fields, in their order. */
  lemma {:induction false} FieldsAreInstalled(s: State, code: seq<byte>, register: Register, flags: byte, offset: nat,
                                              pc: nat, end: nat, limit: int)
    requires Ready(s)
    ensures var r, fields := InstallFields(s, code, register, flags, offset, pc, end, limit),
                             Layout(code, pc, end, limit, flags, offset);
            && (r.Ok? <==> fields.Ok? && InstallAll(s, register, fields.value).Ok?)
            && (r.Ok? ==> InstallAll(s, register, fields.value) == Ok(r.value.0))
    decreases |code| - pc, 1
  {
    hide ReadPackageLength, ParseName, CreateNode;
    if pc < end && pc < |code| {
      if code[pc] == RESERVED_FIELD {
        var bits := ReadPackageLength(code, pc + 1, limit);
        if bits.Ok? {
          FieldsAreInstalled(s, code, register, flags, offset + bits.value.0, bits.value.1, end, limit);
        }
      } else if code[pc] == ACCESS_FIELD {
        var access := ByteAt(code, pc + 1);
        if access.Ok? { FieldsAreInstalled(s, code, register, access.value, offset, pc + 3, end, limit); }
      } else if code[pc] != CONNECT_FIELD {
        var name := ParseName(code, pc);
        if name.Ok? { FieldIsInstalled(s, code, register, flags, offset, pc, end, limit, name.value.0, name.value.1); }
      }
    }
  }

  lemma {:induction false} FieldIsInstalled(s: State, code: seq<byte>, register: Register, flags: byte, offset: nat,
                                            pc: nat, end: nat, limit: int, name: AmlName, sizePc: nat)
    requires Ready(s) && pc < end && pc < |code| && code[pc] > CONNECT_FIELD
    requires ParseName(code, pc) == Ok((name, sizePc))
    ensures var r, fields := InstallFields(s, code, register, flags, offset, pc, end, limit),
                             Layout(code, pc, end, limit, flags, offset);
            && (r.Ok? <==> fields.Ok? && InstallAll(s, register, fields.value).Ok?)
            && (r.Ok? ==> InstallAll(s, register, fields.value) == Ok(r.value.0))
    decreases |code| - pc, 0
  {
    hide ReadPackageLength, ParseName, CreateNode;
    var bits := ReadPackageLength(code, sizePc, limit);
    if bits.Ok? {
      var kind := FieldUnit(register, flags, offset, bits.value.0);
      var s' := CreateNode(s, name, kind);
      var fields := Layout(code, bits.value.1, end, limit, flags, offset + bits.value.0);
      if fields.Ok? {
        var first := NamedField(name, Field(offset, bits.value.0, flags));
        assert ([first] + fields.value)[1..] == fields.value;
      }
      if s'.Ok? {
        FieldsAreInstalled(s'.value, code, register, flags, offset + bits.value.0, bits.value.1, end, limit);
      }
    }
  }

  /** Compilers name the fields of a list by single segments. */
  predicate PlainNames(fields: seq<NamedField>) {
    forall i :: 0 <= i < |fields| ==> fields[i].name == AmlName(false, 0, [LastSegment(fields[i].name)])
  }

  function LastSegment(name: AmlName): Segment {
    if name.segments == [] then [0, 0, 0, 0] else name.segments[|name.segments| - 1]
  }

  /** All names are different, and new to the scope. */
  predicate AllNew(kids: map<(nat, Segment), nat>, scope: nat, fields: seq<NamedField>) {
    && (forall i, j :: 0 <= i < j < |fields| ==> LastSegment(fields[i].name) != LastSegment(fields[j].name))
    && (forall i :: 0 <= i < |fields| ==> (scope, LastSegment(fields[i].name)) !in kids)
  }

  /** Every field has its node, which the scope knows by the name of the field. */
  predicate AllInstalled(ns: Space, scope: nat, first: nat, register: Register, fields: seq<NamedField>) {
    forall i: nat :: i < |fields| ==>
      var node := first + i;
      && GetChild(ns, scope, LastSegment(fields[i].name)) == Some(node)
      && KindOf(ns, node) == Some(UnitOf(register, fields[i].field))
  }

  lemma CreatePlain(s: State, name: AmlName, kind: Kind)
    requires s.contexts.Cons? && name == AmlName(false, 0, [LastSegment(name)])
    requires KindOf(s.ns, s.contexts.head.handle).Some? && !KindOf(s.ns, s.contexts.head.handle).value.Alias?
    requires s.contexts.head.handle < s.ns.next
    ensures var scope, segment, s' := s.contexts.head.handle, LastSegment(name), CreateNode(s, name, kind);
            && (if (scope, segment) in s.ns.kids then s' == Fail(Api(UnexpectedResult))
                else s'.Ok? && s'.value.ns == s.ns.(nodes := s.ns.nodes[s.ns.next := Node(segment, Some(scope), kind)],
                                                   kids := s.ns.kids[(scope, segment) := s.ns.next],
                                                   next := s.ns.next + 1))
            && (s'.Ok? ==> s'.value.contexts.Cons? && s'.value.contexts.head.handle == scope)
  {
    assert DescendToParent(s.ns, s.contexts.head.handle, name.segments) == Ok(s.contexts.head.handle);
  }

  /** A list of plain names is installed if and only if no name occurs twice and none is taken, and then every
      field is found under its name, with its place and its flags. */
  lemma {:induction false} NamesAreInstalled(s: State, register: Register, fields: seq<NamedField>)
    requires s.contexts.Cons? && PlainNames(fields)
    requires KindOf(s.ns, s.contexts.head.handle).Some? && !KindOf(s.ns, s.contexts.head.handle).value.Alias?
    requires s.contexts.head.handle < s.ns.next
    ensures var r, scope := InstallAll(s, register, fields), s.contexts.head.handle;
            && (if AllNew(s.ns.kids, scope, fields) then r.Ok? else r == Fail(Api(UnexpectedResult)))
            && (r.Ok? ==>
                  && AllInstalled(r.value.ns, scope, s.ns.next, register, fields)
                  && s.ns.next + |fields| == r.value.ns.next
                  && (forall n :: n in s.ns.nodes && n < s.ns.next ==> KindOf(r.value.ns, n) == KindOf(s.ns, n))
                  && (forall key :: key in s.ns.kids ==>
                        key in r.value.ns.kids && r.value.ns.kids[key] == s.ns.kids[key]))
    decreases |fields|
  {
    hide CreateNode, LastSegment, AllNew, AllInstalled;
    if fields == [] {
      NothingToInstall(s.ns, s.contexts.head.handle, register);
    } else {
      var scope, first, kind := s.contexts.head.handle, fields[0], UnitOf(register, fields[0].field);
      CreatePlain(s, first.name, kind);
      var s' := CreateNode(s, first.name, kind);
      AllNewRest(s.ns.kids, s.ns.next, scope, fields);
      if s'.Ok? {
        NamesAreInstalled(s'.value, register, fields[1..]);
        var r := InstallAll(s'.value, register, fields[1..]);
        if r.Ok? {
          assert (scope, LastSegment(first.name)) in s'.value.ns.kids;
          InstalledWithFirst(r.value.ns, scope, s.ns.next, register, fields);
        }
      }
    }
  }

  lemma InstalledWithFirst(ns: Space, scope: nat, first: nat, register: Register, fields: seq<NamedField>)
    requires fields != [] && AllInstalled(ns, scope, first + 1, register, fields[1..])
    requires GetChild(ns, scope, LastSegment(fields[0].name)) == Some(first)
    requires KindOf(ns, first) == Some(UnitOf(register, fields[0].field))
    ensures AllInstalled(ns, scope, first, register, fields)
  {
    hide LastSegment, UnitOf, GetChild, KindOf;
    forall i: nat | i < |fields|
      ensures var node := first + i;
              && GetChild(ns, scope, LastSegment(fields[i].name)) == Some(node)
              && KindOf(ns, node) == Some(UnitOf(register, fields[i].field))
    {
      if i > 0 {
        var k: nat := i - 1;
        assert fields[1..][k] == fields[i] && (first + 1) + k == first + i;
      }
    }
  }

  /** The first name is new, and with it in place the others are. */
  lemma AllNewRest(kids: map<(nat, Segment), nat>, node: nat, scope: nat, fields: seq<NamedField>)
    requires fields != []
    ensures var key := (scope, LastSegment(fields[0].name));
            AllNew(kids, scope, fields) <==> key !in kids && AllNew(kids[key := node], scope, fields[1..])
  {
    hide LastSegment;
    var key := (scope, LastSegment(fields[0].name));
    var kids' := kids[key := node];
    if key !in kids && AllNew(kids', scope, fields[1..]) {
      forall i, j | 0 <= i < j < |fields| ensures LastSegment(fields[i].name) != LastSegment(fields[j].name) {
        assert fields[j] == fields[1..][j - 1];
        if i > 0 { assert fields[i] == fields[1..][i - 1]; }
        else { assert (scope, LastSegment(fields[1..][j - 1].name)) !in kids'; }
      }
      forall i | 0 <= i < |fields| ensures (scope, LastSegment(fields[i].name)) !in kids {
        if i > 0 {
          assert fields[i] == fields[1..][i - 1];
          assert (scope, LastSegment(fields[1..][i - 1].name)) !in kids';
        }
      }
    }
    if AllNew(kids, scope, fields) {
      forall i | 0 <= i < |fields[1..]| ensures (scope, LastSegment(fields[1..][i].name)) !in kids' {
        assert fields[1..][i] == fields[i + 1];
      }
    }
  }

  lemma NothingToInstall(ns: Space, scope: nat, register: Register)
    ensures AllNew(ns.kids, scope, []) && AllInstalled(ns, scope, ns.next, register, [])
  {
  }

  // ------------------------------------------------------------------------------------
  // The list a compiler writes.
  // ------------------------------------------------------------------------------------

  /** The elements of a FieldList (section 20.2.5.2 of the ACPI 6.3 specification). */
  datatype Entry =
    | Reserved(bits: nat)
    | Access(accessType: byte, attribute: byte)
    | Named(segment: Segment, bits: nat)

  predicate LegalEntry(e: Entry) {
    match e
    case Reserved(bits) => bits < MAX_PACKAGE
    case Access(_, _) => true
    case Named(segment, bits) => LegalSegment(segment) && bits < MAX_PACKAGE
  }

  predicate AllLegal(es: seq<Entry>) {
    forall i :: 0 <= i < |es| ==> LegalEntry(es[i])
  }

  /** A length that does not count its own bytes. */
  function EncodeLength(n: nat): seq<byte>
    requires n < MAX_PACKAGE
  {
    if n < 0x40 then [n]
    else if n < 0x1000 then LongLength(n, 1)
    else if n < 0x10_0000 then LongLength(n, 2)
    else LongLength(n, 3)
  }

  function EncodeEntry(e: Entry): (s: seq<byte>)
    requires LegalEntry(e)
    ensures s != []
  {
    match e
    case Reserved(bits) => [RESERVED_FIELD] + EncodeLength(bits)
    case Access(accessType, attribute) => [ACCESS_FIELD, accessType, attribute]
    case Named(segment, bits) => segment + EncodeLength(bits)
  }

  function EncodeEntries(es: seq<Entry>): seq<byte>
    requires AllLegal(es)
  {
    if es == [] then [] else EncodeEntry(es[0]) + EncodeEntries(es[1..])
  }

  /** The fields a list declares: every entry with a length takes its bits, every Access() changes
      the flags of the fields behind it. */
  function Declared(es: seq<Entry>, flags: byte, offset: nat): seq<NamedField> {
    if es == [] then []
    else
      match es[0]
      case Reserved(bits) => Declared(es[1..], flags, offset + bits)
      case Access(accessType, _) => Declared(es[1..], accessType, offset)
      case Named(segment, bits) =>
        [NamedField(AmlName(false, 0, [segment]), Field(offset, bits, flags))] + Declared(es[1..], flags, offset + bits)
  }

  lemma ReadLength(code: seq<byte>, pc: nat, n: nat, limit: int)
    requires n < MAX_PACKAGE && Holds(code, pc, EncodeLength(n)) && pc + |EncodeLength(n)| <= limit
    ensures ReadPackageLength(code, pc, limit) == Ok((n, pc + |EncodeLength(n)|))
  {
    assert Pow256(1) == 0x100 && Pow256(2) == 0x1_0000 && Pow256(3) == 0x100_0000;
    if n < 0x40 {
      HoldsAt(code, pc, EncodeLength(n), 0);
    } else {
      ReadLongLength(code, pc, n, if n < 0x1000 then 1 else if n < 0x10_0000 then 2 else 3, limit);
    }
  }

  lemma ReadSegmentName(code: seq<byte>, pc: nat, segment: Segment)
    requires LegalSegment(segment) && Holds(code, pc, segment)
    ensures pc < |code| && code[pc] == segment[0] && ParseName(code, pc) == Ok((AmlName(false, 0, [segment]), pc + 4))
  {
    var name := AmlName(false, 0, [segment]);
    assert EncodeName(name) == segment by {
      assert Flatten([segment]) == segment + Flatten([]) == segment by { assert [segment][1..] == []; }
      assert Carets(0) + CountPrefix(1) + segment == segment;
    }
    ParseEncodedName(code, pc, name);
    HoldsAt(code, pc, segment, 0);
  }

  /** Parsing an encoded list gives exactly the fields it declares, at their bit offsets. */
  lemma {:induction false} LayoutOfEncoded(code: seq<byte>, pc: nat, es: seq<Entry>, end: nat, limit: int, flags: byte,
                                           offset: nat)
    requires AllLegal(es) && Holds(code, pc, EncodeEntries(es))
    requires end == pc + |EncodeEntries(es)| && end <= limit
    ensures Layout(code, pc, end, limit, flags, offset) == Ok(Declared(es, flags, offset))
    decreases |es|
  {
    hide EncodeEntry, Layout, LegalEntry;
    if es == [] {
      LayoutEnds(code, pc, limit, flags, offset);
    } else {
      HoldsSplit(code, pc, EncodeEntry(es[0]), EncodeEntries(es[1..]));
      var next := pc + |EncodeEntry(es[0])|;
      match es[0]
      case Reserved(bits) =>
        SkipReserved(code, pc, bits, end, limit, flags, offset);
        LayoutOfEncoded(code, next, es[1..], end, limit, flags, offset + bits);
      case Access(accessType, attribute) =>
        SwitchAccess(code, pc, accessType, attribute, end, limit, flags, offset);
        LayoutOfEncoded(code, next, es[1..], end, limit, accessType, offset);
      case Named(segment, bits) =>
        PlaceNamed(code, pc, segment, bits, end, limit, flags, offset);
        LayoutOfEncoded(code, next, es[1..], end, limit, flags, offset + bits);
    }
  }

  lemma LayoutEnds(code: seq<byte>, pc: nat, limit: int, flags: byte, offset: nat)
    ensures Layout(code, pc, pc, limit, flags, offset) == Ok([])
  {
  }

  lemma SkipReserved(code: seq<byte>, pc: nat, bits: nat, end: nat, limit: int, flags: byte, offset: nat)
    requires LegalEntry(Reserved(bits)) && Holds(code, pc, EncodeEntry(Reserved(bits)))
    requires pc + |EncodeEntry(Reserved(bits))| <= end <= limit
    ensures Layout(code, pc, end, limit, flags, offset)
         == Layout(code, pc + |EncodeEntry(Reserved(bits))|, end, limit, flags, offset + bits)
  {
    hide ReadPackageLength, ParseName, EncodeLength;
    HoldsSplit(code, pc, [RESERVED_FIELD], EncodeLength(bits));
    HoldsAt(code, pc, [RESERVED_FIELD], 0);
    ReadLength(code, pc + 1, bits, limit);
  }

  lemma SwitchAccess(code: seq<byte>, pc: nat, accessType: byte, attribute: byte, end: nat, limit: int, flags: byte,
                     offset: nat)
    requires Holds(code, pc, EncodeEntry(Access(accessType, attribute)))
    requires pc + |EncodeEntry(Access(accessType, attribute))| <= end
    ensures |EncodeEntry(Access(accessType, attribute))| == 3
    ensures Layout(code, pc, end, limit, flags, offset) == Layout(code, pc + 3, end, limit, accessType, offset)
  {
    hide ReadPackageLength, ParseName;
    HoldsAt(code, pc, EncodeEntry(Access(accessType, attribute)), 0);
    HoldsAt(code, pc, EncodeEntry(Access(accessType, attribute)), 1);
  }

  lemma PlaceNamed(code: seq<byte>, pc: nat, segment: Segment, bits: nat, end: nat, limit: int, flags: byte,
                   offset: nat)
    requires LegalEntry(Named(segment, bits)) && Holds(code, pc, EncodeEntry(Named(segment, bits)))
    requires pc + |EncodeEntry(Named(segment, bits))| <= end <= limit
    ensures Layout(code, pc, end, limit, flags, offset)
         == match Layout(code, pc + |EncodeEntry(Named(segment, bits))|, end, limit, flags, offset + bits)
            case Fail(f) => Fail(f)
            case Ok(rest) => Ok([NamedField(AmlName(false, 0, [segment]), Field(offset, bits, flags))] + rest)
  {
    hide ReadPackageLength, ParseName, EncodeLength, LegalSegment;
    HoldsSplit(code, pc, segment, EncodeLength(bits));
    ReadSegmentName(code, pc, segment);
    LeadIsNoTag(segment);
    ReadLength(code, pc + 4, bits, limit);
  }

  lemma LeadIsNoTag(segment: Segment)
    requires LegalSegment(segment)
    ensures segment[0] > CONNECT_FIELD
  {
  }

  // ------------------------------------------------------------------------------------
  // Fields of one list do not interfere.
  // ------------------------------------------------------------------------------------

  /** Fields come in the order of the list, each starting where the previous ones have ended. */
  lemma {:induction false} LayoutIsOrdered(code: seq<byte>, pc: nat, end: nat, limit: int, flags: byte, offset: nat)
    requires Layout(code, pc, end, limit, flags, offset).Ok?
    ensures var fields := Layout(code, pc, end, limit, flags, offset).value;
            && (forall i :: 0 <= i < |fields| ==> fields[i].field.offset >= offset)
            && (forall i, j :: 0 <= i < j < |fields| ==>
                  fields[i].field.offset + fields[i].field.size <= fields[j].field.offset)
    decreases |code| - pc
  {
    hide LittleEndian, ParseName, ByteAt;
    if pc < end {
      if code[pc] == RESERVED_FIELD {
        var skip := ReadPackageLength(code, pc + 1, limit).value;
        LayoutIsOrdered(code, skip.1, end, limit, flags, offset + skip.0);
      } else if code[pc] == ACCESS_FIELD {
        LayoutIsOrdered(code, pc + 3, end, limit, ByteAt(code, pc + 1).value, offset);
      } else {
        var name := ParseName(code, pc).value;
        var size := ReadPackageLength(code, name.1, limit).value;
        LayoutIsOrdered(code, size.1, end, limit, flags, offset + size.0);
        var rest := Layout(code, size.1, end, limit, flags, offset + size.0).value;
        var fields := [NamedField(name.0, Field(offset, size.0, flags))] + rest;
        assert forall i :: 1 <= i < |fields| ==> fields[i] == rest[i - 1];
      }
    }
  }

  /** Any two named fields of one list are disjoint, so a Preserve write through one never changes
      what a read of the other returns, whatever access widths they have. */
  lemma FieldsDoNotInterfere(code: seq<byte>, pc: nat, end: nat, limit: int, flags: byte, i: nat, j: nat,
                             before: seq<byte>, after: seq<byte>, w: nat, v: FieldValue, read: FieldValue)
    requires Layout(code, pc, end, limit, flags, 0).Ok? && IsWidth(w)
    requires var fields := Layout(code, pc, end, limit, flags, 0).value;
             && i < |fields| && j < |fields| && i != j && UpdateRule(fields[i].field) == FIELD_PRESERVE
             && ValueWritten(before, after, fields[i].field, w, v)
    ensures var fields := Layout(code, pc, end, limit, flags, 0).value;
            && Disjoint(fields[i].field, fields[j].field)
            && (IsFieldValue(read, after, fields[j].field) <==> IsFieldValue(read, before, fields[j].field))
  {
    hide Layout;
    LayoutIsOrdered(code, pc, end, limit, flags, 0);
    var fields := Layout(code, pc, end, limit, flags, 0).value;
    PreserveKeepsOthers(before, after, fields[i].field, w, v, fields[j].field, read);
  }
}

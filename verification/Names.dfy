/** AML names (section 20.2.2 of the ACPI 6.3 specification): parsing as in
    `lai_amlname_parse`, and the encoder that inverts it. */
module Names {
  import opened Bits
  import opened Outcomes

  const ROOT_CHAR: byte := 0x5C
  const PARENT_CHAR: byte := 0x5E
  const DUAL_PREFIX: byte := 0x2E
  const MULTI_PREFIX: byte := 0x2F
  const UNDERSCORE: byte := 0x5F

  type Segment = s: seq<byte> | |s| == 4 witness [0x5F, 0x5F, 0x5F, 0x5F]

  datatype AmlName = AmlName(isAbsolute: bool, height: nat, segments: seq<Segment>) {
    /** Single-segment relative names are searched in all enclosing scopes. */
    predicate SearchScopes() {
      !isAbsolute && height == 0 && |segments| == 1
    }
  }

  /** `lai_is_name`. */
  predicate IsName(c: byte) {
    0x30 <= c <= 0x39 || 0x41 <= c <= 0x5A || c in {UNDERSCORE, ROOT_CHAR, PARENT_CHAR, MULTI_PREFIX, DUAL_PREFIX}
  }

  function CountCarets(code: seq<byte>, pc: nat): (n: nat)
    decreases |code| - pc
    ensures n > 0 ==> pc + n <= |code|
  {
    if pc < |code| && code[pc] == PARENT_CHAR then 1 + CountCarets(code, pc + 1) else 0
  }

  function ReadSegments(code: seq<byte>, pc: nat, n: nat): Res<seq<Segment>>
    decreases n
  {
    if n == 0 then Ok([])
    else if pc + 4 > |code| then Fail(Undefined)
    else
      var rest :- ReadSegments(code, pc + 4, n - 1);
      var segment: Segment := code[pc..pc + 4];
      Ok([segment] + rest)
  }

  /** The segment-count prefix at `pc`: the number of segments and the number of prefix bytes. */
  function ReadCount(code: seq<byte>, pc: nat): Res<(nat, nat)> {
    if pc >= |code| then Fail(Undefined)
    else if code[pc] == 0 then Ok((0, 1))
    else if code[pc] == DUAL_PREFIX then Ok((2, 1))
    else if code[pc] == MULTI_PREFIX then
      if pc + 1 >= |code| then Fail(Undefined)
      else if code[pc + 1] <= 2 then Fail(Panic)
      else Ok((code[pc + 1], 2))
    else if IsName(code[pc]) then Ok((1, 0))
    else Fail(Panic)
  }

  /** `lai_amlname_parse`: the name that starts at `pc`, and the first byte after it.
      Like the code it ignores the limit of the enclosing block. */
  function ParseName(code: seq<byte>, pc: nat): (r: Res<(AmlName, nat)>)
    ensures r.Ok? ==> r.value.1 > pc
  {
    if pc >= |code| then Fail(Undefined)
    else
      var absolute := code[pc] == ROOT_CHAR;
      var height := if absolute then 0 else CountCarets(code, pc);
      var start := if absolute then pc + 1 else pc + height;
      var count :- ReadCount(code, start);
      var segments :- ReadSegments(code, start + count.1, count.0);
      Ok((AmlName(absolute, height, segments), start + count.1 + 4 * count.0))
  }

  // ------------------------------------------------------------------------------------
  // The encoder, and names that survive the round trip.
  // ------------------------------------------------------------------------------------

  predicate LeadChar(c: byte) {
    0x41 <= c <= 0x5A || c == UNDERSCORE
  }

  predicate NameChar(c: byte) {
    LeadChar(c) || 0x30 <= c <= 0x39
  }

  predicate LegalSegment(s: Segment) {
    LeadChar(s[0]) && NameChar(s[1]) && NameChar(s[2]) && NameChar(s[3])
  }

  /** A name the grammar of section 20.2.2 can express. */
  predicate LegalName(n: AmlName) {
    && |n.segments| <= 255
    && (forall i :: 0 <= i < |n.segments| ==> LegalSegment(n.segments[i]))
    && (n.isAbsolute ==> n.height == 0)
  }

  function Flatten(segments: seq<Segment>): (bytes: seq<byte>)
    ensures |bytes| == 4 * |segments|
  {
    if segments == [] then [] else segments[0] + Flatten(segments[1..])
  }

  function CountPrefix(n: nat): seq<byte>
    requires n <= 255
  {
    if n == 0 then [0] else if n == 1 then [] else if n == 2 then [DUAL_PREFIX] else [MULTI_PREFIX, n]
  }

  function Carets(n: nat): (s: seq<byte>)
    ensures |s| == n && forall i :: 0 <= i < n ==> s[i] == PARENT_CHAR
  {
    if n == 0 then [] else [PARENT_CHAR] + Carets(n - 1)
  }

  function EncodeName(n: AmlName): seq<byte>
    requires LegalName(n)
  {
    (if n.isAbsolute then [ROOT_CHAR] else Carets(n.height)) + CountPrefix(|n.segments|) + Flatten(n.segments)
  }

  predicate Holds(code: seq<byte>, pc: nat, bytes: seq<byte>) {
    pc + |bytes| <= |code| && code[pc..pc + |bytes|] == bytes
  }

  lemma HoldsSplit(code: seq<byte>, pc: nat, a: seq<byte>, b: seq<byte>)
    ensures Holds(code, pc, a + b) <==> Holds(code, pc, a) && Holds(code, pc + |a|, b)
  {
    if pc + |a| + |b| <= |code| {
      var whole := code[pc..pc + |a + b|];
      assert whole == code[pc..pc + |a|] + code[pc + |a|..pc + |a| + |b|];
      assert whole[..|a|] == code[pc..pc + |a|] && whole[|a|..] == code[pc + |a|..pc + |a| + |b|];
      assert (a + b)[..|a|] == a && (a + b)[|a|..] == b;
    }
  }

  lemma HoldsAt(code: seq<byte>, pc: nat, bytes: seq<byte>, i: nat)
    requires Holds(code, pc, bytes) && i < |bytes|
    ensures code[pc + i] == bytes[i]
  {
    assert code[pc..pc + |bytes|][i] == bytes[i];
  }

  lemma {:induction false} ReadFlattened(code: seq<byte>, pc: nat, segments: seq<Segment>)
    requires Holds(code, pc, Flatten(segments))
    ensures ReadSegments(code, pc, |segments|) == Ok(segments)
    decreases |segments|
  {
    if segments != [] {
      HoldsSplit(code, pc, segments[0], Flatten(segments[1..]));
      ReadFlattened(code, pc + 4, segments[1..]);
      assert [segments[0]] + segments[1..] == segments;
    }
  }

  lemma {:induction false} CountEncodedCarets(code: seq<byte>, pc: nat, n: nat)
    requires Holds(code, pc, Carets(n))
    requires pc + n < |code| && code[pc + n] != PARENT_CHAR
    ensures CountCarets(code, pc) == n
    decreases n
  {
    if n > 0 {
      HoldsAt(code, pc, Carets(n), 0);
      HoldsSplit(code, pc, [PARENT_CHAR], Carets(n - 1));
      CountEncodedCarets(code, pc + 1, n - 1);
    }
  }

  /** What follows the leading characters of an encoded name: the count, then the segments. */
  lemma ReadEncodedTail(code: seq<byte>, pc: nat, segments: seq<Segment>)
    requires |segments| <= 255 && forall i :: 0 <= i < |segments| ==> LegalSegment(segments[i])
    requires Holds(code, pc, CountPrefix(|segments|) + Flatten(segments))
    ensures pc < |code| && code[pc] != PARENT_CHAR && code[pc] != ROOT_CHAR
    ensures IsName(code[pc]) <==> segments != []
    ensures ReadCount(code, pc) == Ok((|segments|, |CountPrefix(|segments|)|))
    ensures ReadSegments(code, pc + |CountPrefix(|segments|)|, |segments|) == Ok(segments)
  {
    var count := CountPrefix(|segments|);
    HoldsSplit(code, pc, count, Flatten(segments));
    ReadFlattened(code, pc + |count|, segments);
    if |segments| == 1 {
      HoldsAt(code, pc, Flatten(segments), 0);
      assert Flatten(segments)[0] == segments[0][0];
    } else {
      HoldsAt(code, pc, count, 0);
      if |segments| > 2 { HoldsAt(code, pc, count, 1); }
    }
  }

  /** Parsing inverts the encoder wherever the encoded name stands in the code. */
  lemma ParseEncodedName(code: seq<byte>, pc: nat, n: AmlName)
    requires LegalName(n) && Holds(code, pc, EncodeName(n))
    ensures ParseName(code, pc) == Ok((n, pc + |EncodeName(n)|))
    ensures pc < |code|
    ensures IsName(code[pc]) <==> n.isAbsolute || n.height > 0 || n.segments != []
  {
    hide ReadSegments, ReadCount, CountCarets, Flatten, CountPrefix, Carets;
    var lead := if n.isAbsolute then [ROOT_CHAR] else Carets(n.height);
    var tail := CountPrefix(|n.segments|) + Flatten(n.segments);
    assert EncodeName(n) == lead + tail;
    HoldsSplit(code, pc, lead, tail);
    ReadEncodedTail(code, pc + |lead|, n.segments);
    if |lead| > 0 { HoldsAt(code, pc, lead, 0); }
    if n.isAbsolute {
      assert code[pc] == ROOT_CHAR;
    } else {
      CountEncodedCarets(code, pc, n.height);
      assert code[pc] != ROOT_CHAR;
    }
    assert |EncodeName(n)| == |lead| + |CountPrefix(|n.segments|)| + 4 * |n.segments|;
  }
}

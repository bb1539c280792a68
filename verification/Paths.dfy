/** Names as text (`core/ns.c`): printing nodes and encoded names, and resolving the text again. */
module Paths {
  import opened Bits
  import opened Outcomes
  import opened Names
  import opened Namespace
  import Resolution

  const DOT: byte := 0x2E

  function Join(segments: seq<Segment>): seq<byte> {
    if segments == [] then [] else if |segments| == 1 then segments[0] else segments[0] + [DOT] + Join(segments[1..])
  }

  /** The text of a name, as `lai_stringify_amlname` prints it. */
  function TextOf(name: AmlName): seq<byte> {
    (if name.isAbsolute then [ROOT_CHAR] else []) + Carets(name.height) + Join(name.segments)
  }

  /** The names on the way from the root to a node. */
  function Trail(ns: Space, n: nat): seq<Segment> {
    match ParentOf(ns, n)
    case None => []
    case Some(p) => Trail(ns, p) + [ns.nodes[n].name]
  }

  /** `lai_stringify_node_path`. */
  function PathOf(ns: Space, n: nat): Res<seq<byte>> {
    if ParentOf(ns, n).None? && KindOf(ns, n) != Some(Root) then Fail(Panic)
    else Ok([ROOT_CHAR] + Join(Trail(ns, n)))
  }

  // ------------------------------------------------------------------------------------
  // Resolving text.
  // ------------------------------------------------------------------------------------

  /** The number of name characters at `pos`, at most `max`. */
  function NameLength(text: seq<byte>, pos: nat, max: nat): (k: nat)
    ensures k <= max && (k > 0 ==> pos + k <= |text|)
    decreases max
  {
    if max > 0 && pos < |text| && IsName(text[pos]) then 1 + NameLength(text, pos + 1, max - 1) else 0
  }

  function Pad(s: seq<byte>): Segment
    requires |s| <= 4
  {
    s + seq(4 - |s|, _ => UNDERSCORE)
  }

  /** The next segment: up to four name characters, padded with underscores. */
  function SegmentAt(text: seq<byte>, pos: nat): Segment
    requires pos <= |text|
  {
    Pad(text[pos..pos + NameLength(text, pos, 4)])
  }

  /** The loop over segments; every alias on the way is followed. */
  function Walk(ns: Space, n: nat, text: seq<byte>, pos: nat): Res<Option<nat>>
    requires pos <= |text|
    decreases |text| - pos
  {
    match GetChild(ns, n, SegmentAt(text, pos))
    case None => Ok(None)
    case Some(child) =>
      var target :- FollowAlias(ns, child);
      var end := pos + NameLength(text, pos, 4);
      if end == |text| then Ok(Some(target))
      else if text[end] != DOT then Fail(Panic)
      else Walk(ns, target, text, end + 1)
  }

  /** `lai_resolve_path`. */
  function ResolvePath(ns: Space, ctx: nat, text: seq<byte>): Res<Option<nat>> {
    if text != [] && text[0] == ROOT_CHAR then
      if KindOf(ns, RootOf(ns, ctx)) != Some(Root) then Fail(Panic)
      else if |text| == 1 then Ok(Some(RootOf(ns, ctx)))
      else Walk(ns, RootOf(ns, ctx), text, 1)
    else
      var height := CountCarets(text, 0);
      var start :- Ascend(ns, ctx, height);
      if |text| == height then Ok(Some(start)) else Walk(ns, start, text, height)
  }

  // ------------------------------------------------------------------------------------
  // Reading back what was printed.
  // ------------------------------------------------------------------------------------

  predicate AllLegal(segments: seq<Segment>) {
    forall i :: 0 <= i < |segments| ==> LegalSegment(segments[i])
  }

  lemma SegmentReadBack(text: seq<byte>, pos: nat, segment: Segment)
    requires LegalSegment(segment) && Holds(text, pos, segment)
    ensures NameLength(text, pos, 4) == 4 && SegmentAt(text, pos) == segment
  {
    HoldsAt(text, pos, segment, 0);
    HoldsAt(text, pos, segment, 1);
    HoldsAt(text, pos, segment, 2);
    HoldsAt(text, pos, segment, 3);
    assert NameLength(text, pos + 4, 0) == 0;
    assert NameLength(text, pos + 3, 1) == 1;
    assert NameLength(text, pos + 2, 2) == 2;
    assert NameLength(text, pos + 1, 3) == 3;
  }

  /** Following the segments one by one, with every alias on the way. */
  function Follow(ns: Space, n: nat, segments: seq<Segment>): Res<Option<nat>>
    decreases |segments|
  {
    if segments == [] then Ok(Some(n))
    else
      match GetChild(ns, n, segments[0])
      case None => Ok(None)
      case Some(child) =>
        var target :- FollowAlias(ns, child);
        Follow(ns, target, segments[1..])
  }

  /** Walking over printed segments is following them. */
  lemma {:induction false} WalkFollows(ns: Space, n: nat, text: seq<byte>, pos: nat, segments: seq<Segment>)
    requires segments != [] && AllLegal(segments)
    requires Holds(text, pos, Join(segments)) && pos + |Join(segments)| == |text|
    ensures Walk(ns, n, text, pos) == Follow(ns, n, segments)
    decreases |segments|
  {
    hide SegmentAt, NameLength;
    if |segments| == 1 {
      SegmentReadBack(text, pos, segments[0]);
      assert segments[1..] == [];
    } else {
      assert Join(segments) == segments[0] + ([DOT] + Join(segments[1..]));
      HoldsSplit(text, pos, segments[0], [DOT] + Join(segments[1..]));
      HoldsSplit(text, pos + 4, [DOT], Join(segments[1..]));
      SegmentReadBack(text, pos, segments[0]);
      HoldsAt(text, pos + 4, [DOT], 0);
      match GetChild(ns, n, segments[0])
      case None =>
      case Some(child) =>
        if FollowAlias(ns, child).Ok? { WalkFollows(ns, FollowAlias(ns, child).value, text, pos + 5, segments[1..]); }
    }
  }

  lemma JoinStartsLegal(segments: seq<Segment>)
    requires segments != [] && AllLegal(segments)
    ensures |Join(segments)| >= 4 && LeadChar(Join(segments)[0])
  {
  }

  // ------------------------------------------------------------------------------------
  // The loops.
  // ------------------------------------------------------------------------------------

  /** Every segment behind a dot. */
  function Dotted(segments: seq<Segment>): (text: seq<byte>)
    ensures |text| == 5 * |segments|
  {
    if segments == [] then [] else [DOT] + segments[0] + Dotted(segments[1..])
  }

  lemma {:induction false} DottedIsJoined(segments: seq<Segment>)
    requires segments != []
    ensures Dotted(segments) == [DOT] + Join(segments)
    decreases |segments|
  {
    if |segments| == 1 {
      assert segments[1..] == [] && [DOT] + segments[0] + [] == [DOT] + segments[0];
    } else {
      DottedIsJoined(segments[1..]);
      assert [DOT] + segments[0] + ([DOT] + Join(segments[1..])) == [DOT] + (segments[0] + [DOT] + Join(segments[1..]));
    }
  }

  lemma TrailStep(ns: Space, n: nat, rest: seq<Segment>)
    requires ParentOf(ns, n).Some?
    ensures Trail(ns, n) + rest == Trail(ns, ParentOf(ns, n).value) + ([ns.nodes[n].name] + rest)
    ensures Dotted([ns.nodes[n].name] + rest) == [DOT] + ns.nodes[n].name + Dotted(rest)
  {
    assert ([ns.nodes[n].name] + rest)[1..] == rest;
  }

  /** `lai_stringify_node_path`: a pass to count the segments, and one that fills the text from right
      to left. */
  method StringifyPath(ns: Space, node: nat) returns (r: Res<seq<byte>>)
    ensures r == PathOf(ns, node)
  {
    hide Join, Dotted;
    var parent := ParentOf(ns, node);
    if parent.None? {
      JoinOfNone();
      if KindOf(ns, node) != Some(Root) { return Fail(Panic); }
      assert [ROOT_CHAR] + Join(Trail(ns, node)) == [ROOT_CHAR];
      return Ok([ROOT_CHAR]);
    }
    var current, numSegs: nat := node, 0;
    while parent.Some?
      invariant parent == ParentOf(ns, current) && |Trail(ns, node)| == numSegs + |Trail(ns, current)|
      decreases current
    {
      numSegs, current := numSegs + 1, parent.value;
      parent := ParentOf(ns, current);
    }
    var length := 5 * numSegs;
    var str := new byte[length](_ => 0);
    var n := length;
    current, parent := node, ParentOf(ns, node);
    ghost var done: seq<Segment> := [];
    assert Trail(ns, node) + [] == Trail(ns, node);
    while parent.Some?
      invariant parent == ParentOf(ns, current) && Trail(ns, node) == Trail(ns, current) + done
      invariant n == 5 * |Trail(ns, current)| <= length && str[n..] == Dotted(done)
      decreases current
    {
      TrailStep(ns, current, done);
      done := [ns.nodes[current].name] + done;
      n := n - 5;
      forall i | 0 <= i < 4 { str[n + 1 + i] := ns.nodes[current].name[i]; }
      str[n] := DOT;
      assert str[n..] == [DOT] + ns.nodes[current].name + str[n + 5..];
      current := parent.value;
      parent := ParentOf(ns, current);
    }
    assert Trail(ns, node) == [] + done == done;
    DottedIsJoined(done);
    str[0] := ROOT_CHAR;
    assert str[..] == [ROOT_CHAR] + Join(done);
    return Ok(str[..]);
  }

  /** The loop over the characters of a segment. */
  method SegmentEnd(text: seq<byte>, begin: nat) returns (end: nat)
    requires begin <= |text|
    ensures end == begin + NameLength(text, begin, 4) <= |text|
  {
    end := begin;
    var k := 0;
    while k < 4 && end < |text| && IsName(text[end])
      invariant k <= 4 && end == begin + k <= |text|
      invariant NameLength(text, begin, 4) == k + NameLength(text, end, 4 - k)
    {
      end, k := end + 1, k + 1;
    }
  }

  /** `lai_resolve_path`, in three loops: carets, segments, and the characters of a segment. */
  method FindPath(ns: Space, ctx: nat, text: seq<byte>) returns (r: Res<Option<nat>>)
    ensures r == ResolvePath(ns, ctx, text)
  {
    hide FollowAlias, Pad, Ascend, RootOf, NameLength;
    var current, pos: nat := ctx, 0;
    if text != [] && text[0] == ROOT_CHAR {
      current := Resolution.FindRoot(ns, ctx);
      if KindOf(ns, current) != Some(Root) { return Fail(Panic); }
      pos := 1;
    } else {
      while pos < |text| && text[pos] == PARENT_CHAR
        invariant pos <= |text| && CountCarets(text, 0) == pos + CountCarets(text, pos)
      {
        pos := pos + 1;
      }
      current :- Resolution.Climb(ns, ctx, pos);
    }
    if pos == |text| { return Ok(Some(current)); }
    ghost var whole := Walk(ns, current, text, pos);
    while true
      invariant pos <= |text| && Walk(ns, current, text, pos) == whole
      decreases |text| - pos
    {
      var end := SegmentEnd(text, pos);
      var child := GetChild(ns, current, Pad(text[pos..end]));
      pos := end;
      if child.None? { return Ok(None); }
      current :- FollowAlias(ns, child.value);
      if pos == |text| { return Ok(Some(current)); }
      if text[pos] != DOT { return Fail(Panic); }
      pos := pos + 1;
    }
  }

  /** `lai_stringify_amlname`: the buffer is never too small. */
  method StringifyName(name: AmlName) returns (text: seq<byte>)
    ensures text == TextOf(name)
  {
    hide Join, Carets, Separated;
    var maxLength := 1 + name.height + 5 * |name.segments|;
    var str := new byte[maxLength](_ => 0);
    var n := 0;
    if name.isAbsolute { str[n] := ROOT_CHAR; n := n + 1; }
    n := PrintCarets(str, n, name.height);
    n := PrintSegments(str, n, name.segments);
    text := str[..n];
  }

  /** The loop over the carets. */
  method PrintCarets(str: array<byte>, start: nat, height: nat) returns (n: nat)
    requires start + height <= str.Length
    modifies str
    ensures n == start + height && str[..n] == old(str[..start]) + Carets(height)
  {
    hide Carets;
    ghost var written := str[..start];
    n := start;
    assert written + Carets(0) == written by { CaretsGrow(0); }
    var i: nat := 0;
    while i < height
      invariant i <= height && n == start + i && str[..n] == written + Carets(i)
    {
      CaretsGrow(i);
      str[n] := PARENT_CHAR;
      assert str[..n + 1] == (written + Carets(i)) + [PARENT_CHAR] == written + Carets(i + 1);
      n, i := n + 1, i + 1;
    }
  }

  /** The loop over the segments. */
  method PrintSegments(str: array<byte>, start: nat, segments: seq<Segment>) returns (n: nat)
    requires start + 5 * |segments| <= str.Length
    modifies str
    ensures n <= str.Length && str[..n] == old(str[..start]) + Join(segments)
  {
    hide Join, Separated;
    ghost var written := str[..start];
    ghost var whole := written + Join(segments);
    n := start;
    var k := 0;
    assert segments[0..] == segments;
    while k < |segments|
      invariant k <= |segments| && n <= start + 5 * k && str[..n] == written
      invariant written + Join(segments[k..]) == whole
    {
      JoinStep(segments, k);
      n := PrintSegment(str, n, segments, k);
      written := written + Separated(segments, k);
      k := k + 1;
    }
    JoinOfNone();
    assert segments[k..] == [] && written + [] == written;
  }

  /** One segment, and a dot if another one follows. */
  method PrintSegment(str: array<byte>, start: nat, segments: seq<Segment>, k: nat) returns (n: nat)
    requires k < |segments| && start + 5 <= str.Length
    modifies str
    ensures n <= start + 5 && str[..n] == old(str[..start]) + Separated(segments, k)
  {
    ghost var written := str[..start];
    var segment := segments[k];
    forall j | 0 <= j < 4 { str[start + j] := segment[j]; }
    n := start + 4;
    assert str[..n] == written + segment;
    if k + 1 < |segments| {
      str[n] := DOT;
      n := n + 1;
      assert str[..n] == written + (segment + [DOT]);
    }
  }

  /** A segment and the dot behind it, if there is one. */
  function Separated(segments: seq<Segment>, k: nat): seq<byte>
    requires k < |segments|
  {
    segments[k] + if k + 1 < |segments| then [DOT] else []
  }

  lemma JoinStep(segments: seq<Segment>, k: nat)
    requires k < |segments|
    ensures Join(segments[k..]) == Separated(segments, k) + Join(segments[k + 1..])
    ensures forall prefix :: prefix + Join(segments[k..]) == (prefix + Separated(segments, k)) + Join(segments[k + 1..])
  {
    assert segments[k..][1..] == segments[k + 1..];
  }

  lemma {:induction false} CaretsGrow(n: nat)
    ensures Carets(0) == []
    ensures Carets(n + 1) == Carets(n) + [PARENT_CHAR]
  {
  }

  // ------------------------------------------------------------------------------------
  // Consistent namespaces.
  // ------------------------------------------------------------------------------------

  predicate IsAlias(ns: Space, n: nat) {
    KindOf(ns, n).Some? && KindOf(ns, n).value.Alias?
  }

  /** A child knows its parent and its name, no alias has children, and aliases name existing nodes. */
  ghost predicate Consistent(ns: Space) {
    && Numbered(ns)
    && (forall n :: n in ns.nodes && ns.nodes[n].kind.Alias? ==> ns.nodes[n].kind.target in ns.nodes)
    && (forall key :: key in ns.kids ==> Placed(ns, key.0, key.1, ns.kids[key]))
  }

  /** The node knows where it is; its parent is older and no alias. */
  predicate Placed(ns: Space, parent: nat, name: Segment, n: nat) {
    && n in ns.nodes && ns.nodes[n].parent == Some(parent) && ns.nodes[n].name == name
    && parent < n && !IsAlias(ns, parent)
  }

  /** The parent of a new node is an existing node and no alias. */
  lemma {:induction false} NewParentIsNoAlias(ns: Space, n: nat, segments: seq<Segment>)
    requires Consistent(ns) && segments != [] && n in ns.nodes && !IsAlias(ns, n)
    requires DescendToParent(ns, n, segments).Ok?
    ensures var parent := DescendToParent(ns, n, segments).value; parent in ns.nodes && !IsAlias(ns, parent)
    decreases |segments|
  {
    if |segments| > 1 {
      NewParentIsNoAlias(ns, FollowAlias(ns, GetChild(ns, n, segments[0]).value).value, segments[1..]);
    }
  }

  lemma {:induction false} AscendIsNoAlias(ns: Space, n: nat, height: nat)
    requires Consistent(ns) && n in ns.nodes && !IsAlias(ns, n) && Attached(ns, n) && Ascend(ns, n, height).Ok?
    ensures var m := Ascend(ns, n, height).value; m in ns.nodes && !IsAlias(ns, m)
    decreases height
  {
    if height > 0 && ParentOf(ns, n).Some? {
      assert ParentOf(ns, n).value in ns.nodes;
      AscendIsNoAlias(ns, ParentOf(ns, n).value, height - 1);
    }
  }

  /** A node that can be reached from the root through the tables of children. */
  ghost predicate Attached(ns: Space, n: nat) {
    match ParentOf(ns, n)
    case None => KindOf(ns, n) == Some(Root)
    case Some(p) => GetChild(ns, p, ns.nodes[n].name) == Some(n) && Attached(ns, p)
  }

  /** Creating a node from an encoded name keeps the namespace consistent. */
  lemma CreationKeepsConsistent(ns: Space, ctx: nat, name: AmlName, kind: Kind)
    requires Consistent(ns) && ctx in ns.nodes && Attached(ns, ctx) && DoResolveNew(ns, ctx, name).Ok?
    requires kind.Alias? ==> kind.target in ns.nodes
    requires var place := DoResolveNew(ns, ctx, name).value; Install(ns, place.0, place.1, kind).Ok?
    ensures var place := DoResolveNew(ns, ctx, name).value; Consistent(Install(ns, place.0, place.1, kind).value)
  {
    hide Attached, Consistent;
    var begin := if name.isAbsolute then RootOf(ns, ctx) else ctx;
    var start := StartOf(ns, ctx, name).value;
    if name.isAbsolute { RootIsAttached(ns, ctx); }
    AscendIsNoAlias(ns, begin, name.height);
    NewParentIsNoAlias(ns, start, name.segments);
    var parent := DescendToParent(ns, start, name.segments).value;
    InstallKeepsConsistent(ns, parent, name.segments[|name.segments| - 1], kind);
  }

  lemma RootIsAttached(ns: Space, n: nat)
    requires KindOf(ns, RootOf(ns, n)) == Some(Root)
    ensures Attached(ns, RootOf(ns, n)) && RootOf(ns, n) in ns.nodes && !IsAlias(ns, RootOf(ns, n))
  {
    RootHasNoParent(ns, n);
  }

  lemma {:induction false} RootHasNoParent(ns: Space, n: nat)
    ensures ParentOf(ns, RootOf(ns, n)).None?
  {
    if ParentOf(ns, n).Some? { RootHasNoParent(ns, ParentOf(ns, n).value); }
  }

  lemma InstallKeepsConsistent(ns: Space, parent: nat, name: Segment, kind: Kind)
    requires Consistent(ns) && Install(ns, parent, name, kind).Ok? && parent in ns.nodes && !IsAlias(ns, parent)
    requires kind.Alias? ==> kind.target in ns.nodes
    ensures Consistent(Install(ns, parent, name, kind).value)
  {
    var after := Install(ns, parent, name, kind).value;
    forall key | key in after.kids ensures Placed(after, key.0, key.1, after.kids[key]) {
      if key != (parent, name) { assert Placed(ns, key.0, key.1, ns.kids[key]); }
    }
  }

  lemma RemovalKeepsConsistent(ns: Space, n: nat)
    requires Consistent(ns) && Uninstall(ns, n).Ok?
    ensures Consistent(Uninstall(ns, n).value)
  {
  }

  // ------------------------------------------------------------------------------------
  // Node paths.
  // ------------------------------------------------------------------------------------

  lemma {:induction false} FollowAppend(ns: Space, n: nat, segments: seq<Segment>, last: Segment)
    ensures Follow(ns, n, segments + [last]) ==
            match Follow(ns, n, segments)
            case Ok(Some(m)) => Follow(ns, m, [last])
            case other => other
    decreases |segments|
  {
    if segments == [] {
      assert segments + [last] == [last];
    } else {
      assert (segments + [last])[1..] == segments[1..] + [last];
      match GetChild(ns, n, segments[0])
      case None =>
      case Some(child) =>
        if FollowAlias(ns, child).Ok? { FollowAppend(ns, FollowAlias(ns, child).value, segments[1..], last); }
    }
  }

  lemma {:induction false} FollowTrail(ns: Space, n: nat)
    requires Consistent(ns) && Attached(ns, n) && !IsAlias(ns, n)
    ensures Follow(ns, RootOf(ns, n), Trail(ns, n)) == Ok(Some(n)) && KindOf(ns, RootOf(ns, n)) == Some(Root)
  {
    var parent := ParentOf(ns, n);
    if parent.Some? {
      FollowTrail(ns, parent.value);
      FollowAppend(ns, RootOf(ns, n), Trail(ns, parent.value), ns.nodes[n].name);
      assert [ns.nodes[n].name][1..] == [];
    }
  }

  /** The path of a node leads back to it from every context below the same root. */
  lemma PathRoundTrip(ns: Space, ctx: nat, n: nat)
    requires Consistent(ns) && Attached(ns, n) && !IsAlias(ns, n) && AllLegal(Trail(ns, n))
    requires RootOf(ns, ctx) == RootOf(ns, n)
    ensures PathOf(ns, n).Ok? && ResolvePath(ns, ctx, PathOf(ns, n).value) == Ok(Some(n))
  {
    FollowTrail(ns, n);
    var text, trail := PathOf(ns, n).value, Trail(ns, n);
    if trail == [] {
      assert text == [ROOT_CHAR];
    } else {
      JoinStartsLegal(trail);
      HoldsSplit(text, 0, [ROOT_CHAR], Join(trail));
      assert text[..|text|] == text;
      WalkFollows(ns, RootOf(ns, n), text, 1, trail);
    }
  }

  // ------------------------------------------------------------------------------------
  // Encoded names and their text.
  // ------------------------------------------------------------------------------------

  /** No segment but the last one names an alias. */
  predicate NoAliasBeforeLast(ns: Space, n: nat, segments: seq<Segment>)
    decreases |segments|
  {
    |segments| <= 1 ||
    match GetChild(ns, n, segments[0])
    case None => true
    case Some(child) => !IsAlias(ns, child) && NoAliasBeforeLast(ns, child, segments[1..])
  }

  /** What `lai_do_resolve` does with the segments of a name. */
  function Lookup(ns: Space, n: nat, segments: seq<Segment>): Res<Option<nat>> {
    match Descend(ns, n, segments)
    case None => Ok(None)
    case Some(child) =>
      var target :- FollowAlias(ns, child);
      Ok(Some(target))
  }

  lemma {:induction false} LookupIsFollow(ns: Space, n: nat, segments: seq<Segment>)
    requires segments != [] && NoAliasBeforeLast(ns, n, segments)
    ensures Lookup(ns, n, segments) == Follow(ns, n, segments)
    decreases |segments|
  {
    match GetChild(ns, n, segments[0])
    case None =>
    case Some(child) =>
      if |segments| > 1 {
        LookupIsFollow(ns, child, segments[1..]);
      } else {
        assert segments[1..] == [] && Descend(ns, child, []) == Some(child);
      }
  }

  /** The other case: an alias before the last segment has no children, so the encoded name denotes
      nothing, whatever its text denotes. */
  lemma {:induction false} AliasOnTheWay(ns: Space, n: nat, segments: seq<Segment>)
    requires Consistent(ns) && !NoAliasBeforeLast(ns, n, segments)
    ensures Lookup(ns, n, segments) == Ok(None)
    decreases |segments|
  {
    var child := GetChild(ns, n, segments[0]).value;
    if IsAlias(ns, child) {
      assert GetChild(ns, child, segments[1]).None?;
      assert Descend(ns, child, segments[1..]).None?;
    } else {
      AliasOnTheWay(ns, child, segments[1..]);
    }
  }

  /** Where text and encoded name start to look for segments. */
  lemma TextStart(name: AmlName)
    requires LegalName(name)
    ensures var text := TextOf(name);
            && (name.isAbsolute <==> text != [] && text[0] == ROOT_CHAR)
            && (!name.isAbsolute ==> CountCarets(text, 0) == name.height)
            && Holds(text, |text| - |Join(name.segments)|, Join(name.segments))
            && |text| == name.height + (if name.isAbsolute then 1 else 0) + |Join(name.segments)|
  {
    hide Join, CountCarets, LegalSegment, Holds;
    JoinOfNone();
    var text, tail := TextOf(name), Join(name.segments);
    if name.segments != [] { JoinStartsLegal(name.segments); }
    var lead := (if name.isAbsolute then [ROOT_CHAR] else []) + Carets(name.height);
    TailHolds(lead, tail);
    if name.isAbsolute {
      assert text[0] == ROOT_CHAR;
    } else {
      assert lead == Carets(name.height);
      CaretsAreCounted(name.height, tail);
      if text != [] { assert text[0] == if name.height > 0 then PARENT_CHAR else tail[0]; }
    }
  }

  lemma TailHolds(lead: seq<byte>, tail: seq<byte>)
    ensures Holds(lead + tail, |lead|, tail)
  {
  }

  lemma CaretsAreCounted(height: nat, tail: seq<byte>)
    requires tail != [] ==> tail[0] != PARENT_CHAR
    ensures CountCarets(Carets(height) + tail, 0) == height
  {
    hide CountCarets;
    var text := Carets(height) + tail;
    if tail == [] { CountAllCarets(text, 0, height); } else { CountEncodedCarets(text, 0, height); }
  }

  lemma {:induction false} CountAllCarets(text: seq<byte>, pos: nat, n: nat)
    requires pos + n == |text| && forall i :: pos <= i < |text| ==> text[i] == PARENT_CHAR
    ensures CountCarets(text, pos) == n
    decreases n
  {
    if n > 0 { CountAllCarets(text, pos + 1, n - 1); }
  }

  /** Parsing the encoded name and resolving it is resolving the text of the name. */
  lemma EncodedNameAgreesWithText(ns: Space, ctx: nat, name: AmlName, code: seq<byte>, pc: nat)
    requires LegalName(name) && Holds(code, pc, EncodeName(name)) && !name.SearchScopes() && !IsAlias(ns, ctx)
    requires StartOf(ns, ctx, name).Ok? ==> NoAliasBeforeLast(ns, StartOf(ns, ctx, name).value, name.segments)
    ensures ParseName(code, pc).Ok?
    ensures DoResolve(ns, ctx, ParseName(code, pc).value.0) == ResolvePath(ns, ctx, TextOf(name))
  {
    hide Walk, Lookup, Join, Carets;
    ParseEncodedName(code, pc, name);
    TextStart(name);
    var text, start := TextOf(name), StartOf(ns, ctx, name);
    if start.Ok? && name.segments != [] {
      JoinStartsLegal(name.segments);
      LookupIsFollow(ns, start.value, name.segments);
      WalkFollows(ns, start.value, text, |text| - |Join(name.segments)|, name.segments);
      LookupIsResolve(ns, ctx, name);
    } else if name.segments == [] {
      assert Join([]) == [] by { JoinOfNone(); }
    }
  }

  lemma JoinOfNone()
    ensures Join([]) == []
  {
  }

  lemma LookupIsResolve(ns: Space, ctx: nat, name: AmlName)
    requires !IsAlias(ns, ctx) && !name.SearchScopes() && StartOf(ns, ctx, name).Ok? && name.segments != []
    ensures DoResolve(ns, ctx, name) == Lookup(ns, StartOf(ns, ctx, name).value, name.segments)
  {
  }

  // ------------------------------------------------------------------------------------
  // Short segments.
  // ------------------------------------------------------------------------------------

  predicate AllNameChars(s: seq<byte>) {
    forall i :: 0 <= i < |s| ==> NameChar(s[i])
  }

  lemma {:induction false} ShortLength(text: seq<byte>, pos: nat, k: nat, max: nat)
    requires pos + k <= |text| && k <= max && AllNameChars(text[pos..pos + k])
    ensures NameLength(text, pos, max) == k + NameLength(text, pos + k, max - k)
    decreases k
  {
    if k > 0 {
      assert text[pos..pos + k][0] == text[pos];
      assert text[pos + 1..pos + k] == text[pos..pos + k][1..];
      ShortLength(text, pos + 1, k - 1, max - 1);
    }
  }

  /** A segment of fewer than four characters is padded at the end of the text. Before a dot it is
      padded if and only if it needs no padding: a dot counts as a name character. */
  lemma PaddedExactlyWhen(text: seq<byte>, pos: nat, k: nat)
    requires pos + k <= |text| && 0 < k <= 4 && AllNameChars(text[pos..pos + k])
    ensures pos + k == |text| ==> SegmentAt(text, pos) == Pad(text[pos..pos + k])
    ensures pos + k < |text| && text[pos + k] == DOT ==> (SegmentAt(text, pos) == Pad(text[pos..pos + k]) <==> k == 4)
  {
    ShortLength(text, pos, k, 4);
    if pos + k < |text| && text[pos + k] == DOT && k < 4 {
      assert SegmentAt(text, pos)[k] == DOT;
      assert Pad(text[pos..pos + k])[k] == UNDERSCORE;
    }
  }
}

/** The loops of `core/ns.c` and of the parser: each walks its pointers in place and computes what
    the recursive functions of `Names` and `Namespace` say. */
module Resolution {
  import opened Bits
  import opened Outcomes
  import opened Names
  import opened Namespace
  import opened Operators
  import opened Machine

  lemma {:induction false} ReadMoreSegments(code: seq<byte>, pc: nat, i: nat, n: nat)
    requires i < n && ReadSegments(code, pc, i).Ok?
    ensures pc + 4 * i + 4 > |code| ==> ReadSegments(code, pc, n) == Fail(Undefined)
    ensures pc + 4 * i + 4 <= |code| ==>
              ReadSegments(code, pc, i + 1) == Ok(ReadSegments(code, pc, i).value + [code[pc + 4 * i..pc + 4 * i + 4]])
    decreases i
  {
    if i == 0 {
      if pc + 4 <= |code| {
        var only: Segment := code[pc..pc + 4];
        assert ReadSegments(code, pc + 4, 0) == Ok([]);
        assert [only] + [] == [] + [only];
      }
    } else {
      ReadMoreSegments(code, pc + 4, i - 1, n - 1);
      if pc + 4 * i + 4 <= |code| {
        var first: Segment, last: Segment := code[pc..pc + 4], code[pc + 4 * i..pc + 4 * i + 4];
        var middle := ReadSegments(code, pc + 4, i - 1).value;
        assert ReadSegments(code, pc + 4, i) == Ok(middle + [last]);
        assert [first] + (middle + [last]) == ([first] + middle) + [last];
      }
    }
  }

  /** `lai_amlname_parse` and `lai_amlname_iterate`: carets are counted, then segments are copied
      until the iterator reaches the end of the name. */
  method Parse(code: seq<byte>, start: nat) returns (r: Res<(AmlName, nat)>)
    ensures r == ParseName(code, start)
  {
    hide ReadCount, ReadSegments, CountCarets;
    if start >= |code| { return Fail(Undefined); }
    var absolute, height, pc := code[start] == ROOT_CHAR, 0, start;
    if absolute {
      pc := pc + 1;
    } else {
      height := SkipCarets(code, start);
      pc := pc + height;
    }
    var count :- ReadCount(code, pc);
    var segments :- CollectSegments(code, pc + count.1, count.0);
    return Ok((AmlName(absolute, height, segments), pc + count.1 + 4 * count.0));
  }

  /** The loop over the carets. */
  method SkipCarets(code: seq<byte>, start: nat) returns (height: nat)
    requires start < |code|
    ensures height == CountCarets(code, start)
  {
    height := 0;
    while start + height < |code| && code[start + height] == PARENT_CHAR
      invariant start + height <= |code|
      invariant CountCarets(code, start) == height + CountCarets(code, start + height)
    {
      height := height + 1;
    }
  }

  /** The loop over the segments. */
  method CollectSegments(code: seq<byte>, start: nat, n: nat) returns (r: Res<seq<Segment>>)
    ensures r == ReadSegments(code, start, n)
  {
    hide ReadSegments;
    var segments: seq<Segment>, it := [], start;
    NoSegments(code, start);
    while |segments| < n
      invariant |segments| <= n && it == start + 4 * |segments|
      invariant ReadSegments(code, start, |segments|) == Ok(segments)
    {
      ReadMoreSegments(code, start, |segments|, n);
      if it + 4 > |code| { return Fail(Undefined); }
      segments, it := segments + [code[it..it + 4]], it + 4;
    }
    return Ok(segments);
  }

  lemma NoSegments(code: seq<byte>, start: nat)
    ensures ReadSegments(code, start, 0) == Ok([])
  {
  }

  /** The walk to the root. */
  method FindRoot(ns: Space, n: nat) returns (root: nat)
    ensures root == RootOf(ns, n)
  {
    root := n;
    var parent := ParentOf(ns, root);
    while parent.Some?
      invariant parent == ParentOf(ns, root)
      invariant RootOf(ns, root) == RootOf(ns, n)
      decreases root
    {
      root := parent.value;
      parent := ParentOf(ns, root);
    }
  }

  /** One parent per caret; the root has no parent to go to. */
  method Climb(ns: Space, n: nat, height: nat) returns (r: Res<nat>)
    ensures r == Ascend(ns, n, height)
  {
    var current, i := n, 0;
    while i < height
      invariant i <= height
      invariant Ascend(ns, n, height) == Ascend(ns, current, height - i)
    {
      var parent := ParentOf(ns, current);
      if parent.None? {
        if KindOf(ns, current) != Some(Root) { return Fail(Panic); }
        AscendFromRoot(ns, current, height - i);
        return Ok(current);
      }
      current, i := parent.value, i + 1;
    }
    return Ok(current);
  }

  /** The common start of both resolvers: the root or the context, then one parent per caret. */
  method FindStart(ns: Space, ctx: nat, name: AmlName) returns (r: Res<nat>)
    ensures r == StartOf(ns, ctx, name)
  {
    var current := ctx;
    if name.isAbsolute {
      current := FindRoot(ns, ctx);
      if KindOf(ns, current) != Some(Root) { return Fail(Panic); }
    }
    r := Climb(ns, current, name.height);
  }

  lemma AscendFromRoot(ns: Space, n: nat, height: nat)
    requires ParentOf(ns, n).None? && KindOf(ns, n) == Some(Root)
    ensures Ascend(ns, n, height) == Ok(n)
  {
  }

  /** `lai_do_resolve`. */
  method Resolve(ns: Space, ctx: nat, name: AmlName) returns (r: Res<Option<nat>>)
    ensures r == DoResolve(ns, ctx, name)
  {
    if KindOf(ns, ctx).Some? && KindOf(ns, ctx).value.Alias? { return Fail(Panic); }
    if name.SearchScopes() {
      var current := ctx;
      while true
        invariant SearchUp(ns, current, name.segments[0]) == SearchUp(ns, ctx, name.segments[0])
        decreases current
      {
        var child := GetChild(ns, current, name.segments[0]);
        if child.Some? {
          var target :- FollowAlias(ns, child.value);
          return Ok(Some(target));
        }
        var parent := ParentOf(ns, current);
        if parent.None? { return Ok(None); }
        current := parent.value;
      }
    }
    var current :- FindStart(ns, ctx, name);
    if name.segments == [] { return Ok(Some(current)); }
    ghost var begin := current;
    var i := 0;
    while i < |name.segments|
      invariant i <= |name.segments|
      invariant Descend(ns, begin, name.segments) == Descend(ns, current, name.segments[i..])
    {
      var child := GetChild(ns, current, name.segments[i]);
      if child.None? { return Ok(None); }
      current, i := child.value, i + 1;
    }
    var target :- FollowAlias(ns, current);
    return Ok(Some(target));
  }

  /** `lai_do_resolve_new_node`. */
  method ResolveNew(ns: Space, ctx: nat, name: AmlName) returns (r: Res<(nat, Segment)>)
    ensures r == DoResolveNew(ns, ctx, name)
  {
    if KindOf(ns, ctx).Some? && KindOf(ns, ctx).value.Alias? { return Fail(Panic); }
    var parent :- FindStart(ns, ctx, name);
    if name.segments == [] { return Fail(Panic); }
    ghost var begin := parent;
    var i := 0;
    while i + 1 < |name.segments|
      invariant i < |name.segments|
      invariant DescendToParent(ns, begin, name.segments) == DescendToParent(ns, parent, name.segments[i..])
    {
      var child := GetChild(ns, parent, name.segments[i]);
      if child.None? { return Fail(Panic); }
      parent :- FollowAlias(ns, child.value);
      i := i + 1;
    }
    return Ok((parent, name.segments[i]));
  }

  /** The clean-up of the per-method list. */
  method RemoveAll(ns: Space, created: seq<nat>) returns (r: Res<Space>)
    ensures r == UninstallAll(ns, created)
  {
    var current, i := ns, 0;
    while i < |created|
      invariant i <= |created|
      invariant UninstallAll(ns, created) == UninstallAll(current, created[i..])
    {
      current :- Uninstall(current, created[i]);
      i := i + 1;
    }
    return Ok(current);
  }

  lemma {:induction false} GetMoreObjects(operands: seq<Operand>, i: nat)
    requires i < |operands| && GetObjects(operands[..i]).Ok?
    ensures GetObject(operands[i]).Fail? ==> GetObjects(operands) == Fail(GetObject(operands[i]).fault)
    ensures GetObject(operands[i]).Ok? ==>
              GetObjects(operands[..i + 1]) == Ok(GetObjects(operands[..i]).value + [GetObject(operands[i]).value])
  {
    if i > 0 {
      var rest := operands[1..];
      assert operands[..i][1..] == rest[..i - 1] && operands[..i + 1][1..] == rest[..i];
      GetMoreObjects(rest, i - 1);
      if GetObject(operands[i]).Ok? {
        var first, last := GetObject(operands[0]).value, GetObject(operands[i]).value;
        var middle := GetObjects(rest[..i - 1]).value;
        assert [first] + (middle + [last]) == ([first] + middle) + [last];
      }
    } else {
      assert operands[..1][1..] == [];
      if GetObject(operands[0]).Ok? {
        var only := GetObject(operands[0]).value;
        assert GetObjects(operands[..1]) == Ok([only] + []) && [only] + [] == [] + [only];
      }
    }
  }

  /** Collecting the arguments of a call. */
  method CollectObjects(operands: seq<Operand>) returns (r: Res<seq<Object>>)
    ensures r == GetObjects(operands)
  {
    var values: seq<Object>, i := [], 0;
    while i < |operands|
      invariant i <= |operands|
      invariant GetObjects(operands[..i]) == Ok(values)
    {
      GetMoreObjects(operands, i);
      var v :- GetObject(operands[i]);
      values, i := values + [v], i + 1;
    }
    assert operands[..|operands|] == operands;
    return Ok(values);
  }
}

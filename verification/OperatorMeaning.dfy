/** What the integer operators compute, bit by bit and in arithmetic, the loops of
    `lai_exec_reduce_op` that search for a set bit, and what a store changes. */
module OperatorMeaning {
  import opened Bits
  import opened Outcomes
  import opened Names
  import opened Namespace
  import opened Opcodes
  import opened Operators

  lemma WrapBit(x: nat, i: nat)
    ensures Bit(Wrap(x), i) <==> i < 64 && Bit(x, i)
  {
    Pow2Of64();
    TruncIsModulo(64, x);
    TruncBit(64, x, i);
  }

  lemma {:induction false} WordHasNoHighBit(a: u64, i: nat)
    requires i >= 64
    ensures !Bit(a, i)
  {
    Pow2Of64();
    HighBitClear(a, 64, i);
  }

  /** The truth table of each bitwise operator. */
  predicate TruthTable(opcode: nat, a: bool, b: bool) {
    if opcode == AND_OP then a && b
    else if opcode == NAND_OP then !(a && b)
    else if opcode == OR_OP then a || b
    else if opcode == NOR_OP then !(a || b)
    else a != b
  }

  lemma BitwiseMeaning(opcode: nat, a: u64, b: u64, i: nat)
    requires opcode in {AND_OP, NAND_OP, OR_OP, NOR_OP, XOR_OP} && i < 64
    ensures Binary(opcode, a, b).Ok?
    ensures Bit(Binary(opcode, a, b).value, i) <==> TruthTable(opcode, Bit(a, i), Bit(b, i))
  {
    AndBit(a, b, i);
    OrBit(a, b, i);
    XorBit(a, b, i);
    NotBit(64, And(a, b), i);
    NotBit(64, Or(a, b), i);
  }

  lemma NotMeaning(a: u64, i: nat)
    requires i < 64
    ensures Bit(Unary(NOT_OP, a), i) <==> !Bit(a, i)
  {
    NotBit(64, a, i);
  }

  /** Shifts move bits and fill with zeros; counts of 64 and more are undefined. */
  lemma ShiftMeaning(a: u64, b: u64, i: nat)
    requires i < 64
    ensures Binary(SHL_OP, a, b) == Fail(Undefined) <==> b >= 64
    ensures Binary(SHR_OP, a, b) == Fail(Undefined) <==> b >= 64
    ensures b < 64 ==> (Bit(Binary(SHL_OP, a, b).value, i) <==> i >= b && Bit(a, i - b))
    ensures b < 64 ==> (Bit(Binary(SHR_OP, a, b).value, i) <==> i + b < 64 && Bit(a, i + b))
  {
    ShlBit(a, b, i);
    ShrBit(a, b, i);
    WrapBit(Shl(a, b), i);
    if i + b >= 64 { WordHasNoHighBit(a, i + b); }
  }

  /** Divide's two results: the remainder is smaller than the divisor and the parts add up. */
  lemma DivisionMeaning(a: u64, b: u64)
    requires b != 0
    ensures Remainder(a, b) < b && a == (a / b) * b + Remainder(a, b)
  {
  }

  // ------------------------------------------------------------------------------------
  // FindSetLeftBit and FindSetRightBit.
  // ------------------------------------------------------------------------------------

  /** `r` is the 1-based position of the highest set bit, 0 if there is none. */
  ghost predicate IsHighest(x: nat, r: nat) {
    && (r == 0 <==> x == 0)
    && (r > 0 ==> Bit(x, r - 1))
    && forall i: nat :: i >= r ==> !Bit(x, i)
  }

  lemma {:induction false} FindSetLeftMeaning(x: nat)
    ensures IsHighest(x, FindSetLeft(x))
  {
    if x == 0 {
      forall i: nat ensures !Bit(x, i) { ZeroBit(i); }
    } else {
      FindSetLeftMeaning(x / 2);
      forall i: nat | i >= FindSetLeft(x) ensures !Bit(x, i) {
        assert i - 1 >= FindSetLeft(x / 2);
      }
      if x == 1 { assert FindSetLeft(0) == 0; }
    }
  }

  /** The right-shift loop of FindSetLeftBit. */
  method FindSetLeftBit(x: u64) returns (msb: nat)
    ensures msb == FindSetLeft(x) && IsHighest(x, msb)
  {
    var operand: nat := x;
    msb := 0;
    while operand != 0
      invariant msb + FindSetLeft(operand) == FindSetLeft(x)
      decreases operand
    {
      operand := operand / 2;
      msb := msb + 1;
    }
    FindSetLeftMeaning(x);
  }

  /** `r` is the 1-based position of the lowest set bit, 0 if there is none. */
  ghost predicate IsLowest(x: nat, r: nat) {
    && (r == 0 <==> x == 0)
    && (r > 0 ==> Bit(x, r - 1))
    && forall i: nat :: i + 1 < r ==> !Bit(x, i)
  }

  lemma DoubleBit(x: u64, i: nat)
    ensures Bit(Wrap(2 * x), i) <==> 0 < i < 64 && Bit(x, i - 1)
  {
    WrapBit(2 * x, i);
  }

  lemma {:induction false} ShiftsFromLowest(x: u64, j: nat, budget: nat)
    requires j < 64 && Bit(x, j) && (forall i: nat :: i < j ==> !Bit(x, i)) && budget >= 64 - j
    ensures ShiftsToZero(x, budget) == 64 - j
    decreases 64 - j
  {
    var y := Wrap(2 * x);
    ZeroBit(j);
    forall i: nat ensures Bit(y, i) <==> 0 < i < 64 && Bit(x, i - 1) { DoubleBit(x, i); }
    if j < 63 {
      ShiftsFromLowest(y, j + 1, budget - 1);
    } else {
      forall i: nat ensures Bit(y, i) == Bit(0, i) {
        ZeroBit(i);
        if 0 < i < 64 { assert i - 1 < j; }
      }
      Extensionality(y, 0);
    }
  }

  lemma {:induction false} LowestExists(x: nat) returns (j: nat)
    requires x > 0
    ensures Bit(x, j) && forall i: nat :: i < j ==> !Bit(x, i)
  {
    if x % 2 == 1 {
      j := 0;
    } else {
      var k := LowestExists(x / 2);
      j := k + 1;
      forall i: nat | i < j ensures !Bit(x, i) {
        if i > 0 { assert !Bit(x / 2, i - 1); }
      }
    }
  }

  lemma FindSetRightMeaning(x: u64)
    ensures IsLowest(x, FindSetRight(x))
  {
    if x > 0 {
      var j := LowestExists(x);
      if j >= 64 { WordHasNoHighBit(x, j); }
      ShiftsFromLowest(x, j, 64);
    }
  }

  lemma NoBitsLeft(x: u64)
    requires forall i: nat :: i < 64 ==> !Bit(x, i)
    ensures x == 0
  {
    forall i: nat ensures Bit(x, i) == Bit(0, i) {
      ZeroBit(i);
      if i >= 64 { WordHasNoHighBit(x, i); }
    }
    Extensionality(x, 0);
  }

  /** The left-shift loop of FindSetRightBit; it ends after at most 64 shifts. */
  method FindSetRightBit(x: u64) returns (result: nat)
    ensures result == FindSetRight(x) && IsLowest(x, result)
  {
    var operand: u64 := x;
    var lsb := 0;
    ghost var total := ShiftsToZero(x, 64);
    FindSetRightMeaning(x);
    while operand != 0
      invariant 0 <= lsb <= 64
      invariant lsb + ShiftsToZero(operand, 64 - lsb) == total
      invariant operand != 0 ==> lsb < 64
      invariant forall i: nat :: i < lsb ==> !Bit(operand, i)
      decreases 64 - lsb
    {
      forall i: nat ensures Bit(Wrap(2 * operand), i) <==> 0 < i < 64 && Bit(operand, i - 1) {
        DoubleBit(operand, i);
      }
      operand := Wrap(2 * operand);
      lsb := lsb + 1;
      if lsb == 64 { NoBitsLeft(operand); }
    }
    result := if lsb == 0 then 0 else 65 - lsb;
  }

  // ------------------------------------------------------------------------------------
  // Stores.
  // ------------------------------------------------------------------------------------

  /** The places that hold an object: the variables of the current call and the nodes. */
  predicate IsPlace(o: Operand) {
    o.ArgName? || o.LocalName? || o.ResolvedName?
  }

  /** A store that succeeds puts the object where it belongs and changes nothing else that can be read; an
      integer object only ever takes an integer, unless it is copied to. */
  lemma StoreChangesOnly(env: Env, o: Operand, v: Object, keepType: bool, other: Operand)
    requires StoreTo(env, o, v, keepType).Ok?
    ensures var env' := StoreTo(env, o, v, keepType).value;
            && (if IsPlace(o) then Load(env', o) == Ok(v) else env' == env)
            && (other != o ==> Load(env', other) == Load(env, other))
            && SameTree(env.ns, env'.ns) && CreatedBy(env'.invocation) == CreatedBy(env.invocation)
            && (keepType && o.ResolvedName? && Load(env, o).value.Integer? ==> v.Integer?)
  {
    hide MutateNode, StoreNode, Access;
    if o.ResolvedName? {
      NodeChangesOnly(env.ns, o.node, v, keepType, if other.ResolvedName? then other.node else o.node + 1);
    }
    SameTreeAsItself(env.ns);
  }

  lemma SameTreeAsItself(ns: Space)
    ensures SameTree(ns, ns)
  {
  }

  lemma NodeChangesOnly(ns: Space, n: nat, v: Object, keepType: bool, other: nat)
    ensures var r := if keepType then MutateNode(ns, n, v) else StoreNode(ns, n, v);
            r.Ok? ==>
              && Access(r.value, n) == Ok(v) && (other != n ==> Access(r.value, other) == Access(ns, other))
              && SameTree(ns, r.value)
              && (keepType && Access(ns, n).value.Integer? ==> v.Integer?)
  {
    hide SetObject, SameTree;
    if KindOf(ns, n).Some? && KindOf(ns, n).value.NameObject? { ObjectChangesOnly(ns, n, v, other); }
  }

  lemma ObjectChangesOnly(ns: Space, n: nat, v: Object, other: nat)
    requires n in ns.nodes && ns.nodes[n].kind.NameObject?
    ensures var after := SetObject(ns, n, v);
            && Access(after, n) == Ok(v) && (other != n ==> Access(after, other) == Access(ns, other))
            && SameTree(ns, after)
  {
  }

  /** Neither a store nor a reply changes what any name denotes in any context. */
  lemma SameTreeResolves(ns: Space, ns': Space, ctx: nat, name: AmlName)
    requires SameTree(ns, ns')
    ensures DoResolve(ns', ctx, name) == DoResolve(ns, ctx, name)
    ensures DoResolveNew(ns', ctx, name) == DoResolveNew(ns, ctx, name)
  {
    hide SameTree, FollowAlias;
    TreeOf(ns, ns', ctx);
    if name.SearchScopes() { SearchInTree(ns, ns', ctx, name.segments[0]); }
    RootInTree(ns, ns', ctx);
    TreeOf(ns, ns', RootOf(ns, ctx));
    AscendInTree(ns, ns', if name.isAbsolute then RootOf(ns, ctx) else ctx, name.height);
    var start := StartOf(ns, ctx, name);
    if start.Ok? && name.segments != [] {
      DescendInTree(ns, ns', start.value, name.segments);
      var target := Descend(ns, start.value, name.segments);
      if target.Some? { TreeOf(ns, ns', target.value); }
    }
  }

  lemma TreeOf(ns: Space, ns': Space, n: nat)
    requires SameTree(ns, ns')
    ensures ParentOf(ns', n) == ParentOf(ns, n) && FollowAlias(ns', n) == FollowAlias(ns, n)
    ensures (KindOf(ns', n) == Some(Root)) == (KindOf(ns, n) == Some(Root))
    ensures (KindOf(ns', n).Some? && KindOf(ns', n).value.Alias?) == (KindOf(ns, n).Some? && KindOf(ns, n).value.Alias?)
    ensures forall name :: GetChild(ns', n, name) == GetChild(ns, n, name)
  {
  }

  lemma {:induction false} RootInTree(ns: Space, ns': Space, n: nat)
    requires SameTree(ns, ns')
    ensures RootOf(ns', n) == RootOf(ns, n)
  {
    hide SameTree;
    TreeOf(ns, ns', n);
    if ParentOf(ns, n).Some? { RootInTree(ns, ns', ParentOf(ns, n).value); }
  }

  lemma {:induction false} AscendInTree(ns: Space, ns': Space, n: nat, height: nat)
    requires SameTree(ns, ns')
    ensures Ascend(ns', n, height) == Ascend(ns, n, height)
    decreases height
  {
    hide SameTree;
    TreeOf(ns, ns', n);
    if height > 0 && ParentOf(ns, n).Some? { AscendInTree(ns, ns', ParentOf(ns, n).value, height - 1); }
  }

  lemma {:induction false} SearchInTree(ns: Space, ns': Space, n: nat, segment: Segment)
    requires SameTree(ns, ns')
    ensures SearchUp(ns', n, segment) == SearchUp(ns, n, segment)
  {
    hide SameTree, FollowAlias;
    TreeOf(ns, ns', n);
    var child := GetChild(ns, n, segment);
    if child.Some? { TreeOf(ns, ns', child.value); }
    else if ParentOf(ns, n).Some? { SearchInTree(ns, ns', ParentOf(ns, n).value, segment); }
  }

  lemma {:induction false} DescendInTree(ns: Space, ns': Space, n: nat, segments: seq<Segment>)
    requires SameTree(ns, ns')
    ensures Descend(ns', n, segments) == Descend(ns, n, segments)
    ensures segments != [] ==> DescendToParent(ns', n, segments) == DescendToParent(ns, n, segments)
    decreases |segments|
  {
    hide SameTree, FollowAlias;
    TreeOf(ns, ns', n);
    if segments != [] && GetChild(ns, n, segments[0]).Some? {
      var child := GetChild(ns, n, segments[0]).value;
      TreeOf(ns, ns', child);
      DescendInTree(ns, ns', child, segments[1..]);
      var r := FollowAlias(ns, child);
      if r.Ok? { DescendInTree(ns, ns', r.value, segments[1..]); }
    }
  }
}

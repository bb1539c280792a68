/** Method calls on arbitrary bytes: a method leaves the caller's stacks as they were apart from its
    result and from variables it was given references to, and it restores the children of every
    namespace node unless it declares names in a nested body of Scope, Device and the like. */
module Calls {
  import opened Bits
  import opened Outcomes
  import opened Names
  import opened Namespace
  import opened Opcodes
  import opened Operators
  import opened Machine
  import opened StackInvariant
  import opened Locality

  // ------------------------------------------------------------------------------------
  // What one step may change.
  // ------------------------------------------------------------------------------------

  function Last(items: List<Item>): Item
    requires items.Cons?
  {
    if items.tail.Nil? then items.head else Last(items.tail)
  }

  /** The operands below the frame of the top item, and the item at the bottom, stay. */
  predicate StacksKept(t: State, t': State)
    requires t.items.Cons?
  {
    var k := FrameOf(t.items.head, |t.operands|);
    && (k <= |t.operands| ==> k <= |t'.operands| && t'.operands[..k] == t.operands[..k])
    && (t'.items.Cons? ==> Last(t'.items) == Last(t.items))
  }

  ghost predicate NodesKept(ns: Space, ns': Space) {
    forall n :: n in ns.nodes ==> n in ns'.nodes && KeyOf(ns', n) == KeyOf(ns, n)
  }

  /** No name comes or goes. */
  ghost predicate TreeQuiet(t: State, t': State) {
    && t'.ns.kids == t.ns.kids && t'.ns.next == t.ns.next && t'.ns.nodes.Keys == t.ns.nodes.Keys
    && NodesKept(t.ns, t'.ns)
    && AllCreated(t'.contexts) == AllCreated(t.contexts)
    && t'.contexts.Cons? == t.contexts.Cons?
    && (t.contexts.Cons? ==> t'.contexts.head.invocation.Some? == t.contexts.head.invocation.Some?)
  }

  /** The nodes created between two states of the namespace. */
  function NewNodes(first: nat, next: nat): (nodes: seq<nat>)
    requires first <= next
  {
    seq(next - first, i requires 0 <= i < next - first => first + i)
  }

  /** Names appear, on the list of the running method if there is one. */
  ghost predicate TreeInstall(t: State, t': State)
    requires Ready(t)
  {
    && t.ns.next <= t'.ns.next && NodesKept(t.ns, t'.ns)
    && var created := NewNodes(t.ns.next, t'.ns.next);
    && t.ns.kids.Keys !! KeysOf(t'.ns.nodes, created)
    && t'.ns.kids - KeysOf(t'.ns.nodes, created) == t.ns.kids
    && AllCreated(t'.contexts)
       == AllCreated(t.contexts) + if t.contexts.head.invocation.Some? then created else []
  }

  /** The running method ends and takes its names with it. */
  ghost predicate TreeLeave(t: State, t': State)
    requires Ready(t)
  {
    && t.contexts.head.invocation.Some?
    && t'.ns.nodes == t.ns.nodes && t'.contexts == t.contexts.tail
    && t'.ns.kids == t.ns.kids - KeysOf(t.ns.nodes, CreatedBy(t.contexts.head.invocation))
  }

  ghost predicate TreeEffect(t: State, t': State)
    requires Ready(t)
  {
    TreeQuiet(t, t') || TreeInstall(t, t') || TreeLeave(t, t')
  }

  ghost predicate Effect(t: State, t': State)
    requires Ready(t) && t.items.Cons?
  {
    StacksKept(t, t') && TreeEffect(t, t')
  }

  ghost predicate EffectOf(t: State, r: Res<State>)
    requires Ready(t) && t.items.Cons?
  {
    r.Ok? ==> Effect(t, r.value)
  }

  lemma AnsweredEffect(t: State)
    ensures var r := Answered(t); r.Ok? ==> TreeQuiet(t, r.value.1)
  {
    if t.replies != [] && t.replies[0].Replied? {
      RebindKeepsCalls(t.contexts, t.replies[0].variables);
      CreatedCalls(t.contexts, Answered(t).value.1.contexts);
      RefillKeepsOwned(t.ns, t.replies[0].contents, []);
    }
  }

  lemma QuietIsReflexive(t: State)
    ensures TreeQuiet(t, t)
  {
  }

  lemma OrAnsweredEffect(t: State, r: Res<Object>)
    ensures var answer := OrAnswered(t, r); answer.Ok? ==> TreeQuiet(t, answer.value.1)
  {
    hide Answered;
    AnsweredEffect(t);
  }

  lemma {:induction false} BreakEffect(t: State)
    requires Grounded(t)
    ensures var r := BreakLoop(t);
            r.Ok? ==> r.value.operands == t.operands && r.value.contexts == t.contexts && r.value.ns == t.ns
                      && (r.value.items.Cons? ==> Last(r.value.items) == Last(t.items))
    decreases t.items
  {
    if t.items.head.CondItem? { BreakEffect(t.(blocks := t.blocks.tail, items := t.items.tail)); }
  }

  lemma {:induction false} ContinueEffect(t: State)
    requires Grounded(t)
    ensures var r := ContinueLoop(t);
            r.Ok? ==> r.value.operands == t.operands && r.value.contexts == t.contexts && r.value.ns == t.ns
                      && (r.value.items.Cons? ==> Last(r.value.items) == Last(t.items))
    decreases t.items
  {
    if t.items.head.CondItem? { ContinueEffect(t.(blocks := t.blocks.tail, items := t.items.tail)); }
  }

  lemma LeaveEffect(t: State)
    requires Ready(t) && t.items.Cons? && Owned(AllCreated(t.contexts), t.ns)
    ensures var r := LeaveMethod(t);
            r.Ok? ==> r.value.operands == t.operands && r.value.items == t.items.tail && TreeLeave(t, r.value)
  {
    if t.contexts.head.invocation.Some? {
      UninstallAllSafe(t.ns, AllCreated(t.contexts.tail), t.contexts.head.invocation.value.created);
    }
  }

  lemma {:induction false} ReturnEffect(t: State, v: Object)
    requires Grounded(t) && Owned(AllCreated(t.contexts), t.ns)
    ensures Ready(t)
    ensures var r := ReturnFrom(t, v);
            r.Ok? ==> t.operands <= r.value.operands && TreeLeave(t, r.value)
                      && (r.value.items.Cons? ==> Last(r.value.items) == Last(t.items))
    decreases t.items
  {
    hide LeaveMethod;
    StackedReady(t.items, t.contexts, t.blocks);
    if t.items.head.MethodItem? {
      LeaveEffect(if t.items.head.wantResult then PushOperand(t, Value(v)) else t);
    } else if t.items.head.CondItem? || t.items.head.LoopItem? {
      ReturnEffect(t.(blocks := t.blocks.tail, items := t.items.tail), v);
    }
  }

  /** A state to which nodes have been added, with everything but the namespace and the list of the
      running method as it was. */
  ghost predicate Declared(t: State, t': State)
    requires Ready(t)
  {
    && t'.operands == t.operands && t'.items == t.items && t'.contexts.Cons? && t'.blocks == t.blocks
    && t'.contexts.head.invocation.Some? == t.contexts.head.invocation.Some?
    && t'.contexts.tail == t.contexts.tail && TreeInstall(t, t')
  }

  lemma InstallEffect(t: State, place: (nat, Segment), kind: Kind)
    requires Ready(t) && Owned(AllCreated(t.contexts), t.ns)
    ensures var r := InstallNode(t, place, kind); r.Ok? ==> Declared(t, r.value)
  {
    hide KeysOf, NodesKept, NewNodes;
    var invocation := t.contexts.head.invocation;
    if place !in t.ns.kids {
      InstalledKey(t.ns, place, kind);
      if invocation.Some? {
        assert AllCreated(t.contexts.tail) + (invocation.value.created + [t.ns.next])
            == AllCreated(t.contexts) + [t.ns.next];
      } else {
        assert AllCreated(t.contexts) + [] == AllCreated(t.contexts);
      }
    }
  }

  lemma InstalledKey(ns: Space, place: (nat, Segment), kind: Kind)
    requires place !in ns.kids && Numbered(ns)
    ensures var ns' := Install(ns, place.0, place.1, kind).value;
            && NewNodes(ns.next, ns'.next) == [ns.next] && KeysOf(ns'.nodes, [ns.next]) == {place}
            && ns'.kids - {place} == ns.kids && NodesKept(ns, ns')
  {
    var ns' := Install(ns, place.0, place.1, kind).value;
    assert NewNodes(ns.next, ns'.next) == [ns.next] && [ns.next][1..] == [];
  }

  lemma NothingDeclared(t: State)
    requires Ready(t)
    ensures Declared(t, t)
  {
    assert NewNodes(t.ns.next, t.ns.next) == [];
    assert t.ns.kids - {} == t.ns.kids;
    assert AllCreated(t.contexts) + [] == AllCreated(t.contexts);
  }

  lemma CreateEffect(t: State, name: AmlName, kind: Kind)
    requires Ready(t) && Owned(AllCreated(t.contexts), t.ns)
    ensures var r := CreateNode(t, name, kind); r.Ok? ==> Declared(t, r.value)
  {
    hide DoResolveNew, InstallNode, Declared;
    var place := DoResolveNew(t.ns, t.contexts.head.handle, name);
    if place.Ok? { InstallEffect(t, place.value, kind); }
  }

  /** Declarations add up. */
  lemma InstallTwice(t: State, t': State, t'': State)
    requires Ready(t) && Ready(t') && TreeInstall(t, t') && TreeInstall(t', t'')
    requires t'.contexts.head.invocation.Some? == t.contexts.head.invocation.Some?
    requires forall n :: t.ns.next <= n < t'.ns.next ==> n in t'.ns.nodes
    ensures TreeInstall(t, t'')
  {
    hide KeysOf, AllCreated;
    var first, second := NewNodes(t.ns.next, t'.ns.next), NewNodes(t'.ns.next, t''.ns.next);
    assert NewNodes(t.ns.next, t''.ns.next) == first + second;
    KeysOfKept(t'.ns, t''.ns, first);
    KeysOfJoin(t''.ns.nodes, first, second);
    KidsTwice(t.ns.kids, t'.ns.kids, t''.ns.kids, KeysOf(t'.ns.nodes, first), KeysOf(t''.ns.nodes, second));
    if t.contexts.head.invocation.Some? {
      assert AllCreated(t.contexts) + first + second == AllCreated(t.contexts) + (first + second);
    }
  }

  lemma KidsTwice(kids: map<(nat, Segment), nat>, kids': map<(nat, Segment), nat>, kids'': map<(nat, Segment), nat>,
                  keys: set<(nat, Segment)>, keys': set<(nat, Segment)>)
    requires kids.Keys !! keys && kids' - keys == kids && kids'.Keys !! keys' && kids'' - keys' == kids'
    ensures kids.Keys !! (keys + keys') && kids'' - (keys + keys') == kids
  {
    assert kids.Keys <= kids'.Keys;
    assert kids'' - (keys + keys') == (kids'' - keys') - keys;
  }

  /** A quiet step before a declaration. */
  lemma QuietInstall(t: State, t': State, t'': State)
    requires Ready(t) && Ready(t') && TreeQuiet(t, t') && TreeInstall(t', t'')
    ensures TreeInstall(t, t'')
  {
  }

  /** Nodes are numbered as they are created. */
  ghost predicate Dense(t: State, t': State) {
    && (forall n :: n in t'.ns.nodes ==> n < t'.ns.next)
    && (forall n :: t.ns.next <= n < t'.ns.next ==> n in t'.ns.nodes)
  }

  lemma CreateIsDense(t: State, name: AmlName, kind: Kind)
    requires Ready(t) && Owned(AllCreated(t.contexts), t.ns)
    ensures var r := CreateNode(t, name, kind);
            r.Ok? ==> Dense(t, r.value) && Owned(AllCreated(r.value.contexts), r.value.ns)
  {
    hide DoResolveNew;
    var place := DoResolveNew(t.ns, t.contexts.head.handle, name);
    if place.Ok? && place.value !in t.ns.kids {
      InstallKeepsOwned(t.ns, AllCreated(t.contexts), place.value.0, place.value.1, kind);
      InstallEffect(t, place.value, kind);
      var ns := Install(t.ns, place.value.0, place.value.1, kind).value;
      assert NewNodes(t.ns.next, ns.next) == [t.ns.next];
      assert AllCreated(t.contexts) + [] == AllCreated(t.contexts);
    }
  }

  lemma {:induction false} InstallFieldsEffect(t: State, code: seq<byte>, register: Register, flags: byte, offset: nat,
                                               pc: nat, end: int, limit: int)
    requires Ready(t) && Owned(AllCreated(t.contexts), t.ns)
    ensures var r := InstallFields(t, code, register, flags, offset, pc, end, limit); r.Ok? ==> Declared(t, r.value.0)
    decreases end - pc
  {
    hide ReadPackageLength, ParseName, CreateNode, TreeInstall, Owned;
    NothingDeclared(t);
    if pc < end && pc < |code| {
      var skipped := ReadPackageLength(code, pc + 1, limit);
      var name := ParseName(code, pc);
      if code[pc] == 0 && skipped.Ok? {
        InstallFieldsEffect(t, code, register, flags, offset + skipped.value.0, skipped.value.1, end, limit);
      } else if code[pc] == 1 && pc + 1 < |code| {
        InstallFieldsEffect(t, code, register, code[pc + 1], offset, pc + 3, end, limit);
      } else if code[pc] > 2 && name.Ok? {
        var bits := ReadPackageLength(code, name.value.1, limit);
        if bits.Ok? {
          var kind := FieldUnit(register, flags, offset, bits.value.0);
          CreateEffect(t, name.value.0, kind);
          CreateIsDense(t, name.value.0, kind);
          var s := CreateNode(t, name.value.0, kind);
          if s.Ok? {
            var r := InstallFields(s.value, code, register, flags, offset + bits.value.0, bits.value.1, end, limit);
            InstallFieldsEffect(s.value, code, register, flags, offset + bits.value.0, bits.value.1, end, limit);
            if r.Ok? { InstallTwice(t, s.value, r.value.0); }
          }
        }
      }
    }
  }

  lemma PopulateContextCreatesNothing(contexts: List<Context>, c: Context)
    requires CreatedBy(c.invocation) == []
    ensures AllCreated(Cons(c, contexts)) == AllCreated(contexts)
  {
  }

  lemma ScopeEffect(t: State, opcode: nat, pc: nat)
    requires Ready(t) && t.items.Cons? && Owned(AllCreated(t.contexts), t.ns)
    ensures EffectOf(t, ParseScope(t, pc)) && EffectOf(t, ParseDevice(t, opcode, pc))
  {
    hide ReadPackageLength, ParseName, DoResolve, CreateNode, ReadHeader;
    var r := ParseScope(t, pc);
    if r.Ok? {
      PopulateContextCreatesNothing(t.contexts, r.value.contexts.head);
      NothingDeclared(t);
    }
    var d := ParseDevice(t, opcode, pc);
    var code, limit := t.contexts.head.code, t.blocks.head.limit;
    var size := ReadPackageLength(code, pc + 2, limit);
    if d.Ok? {
      var next := CommitPc(t, pc + 2 + size.value.0);
      var name := ParseName(code, size.value.1).value;
      var header := ReadHeader(code, opcode, name.1, limit).value;
      CreateEffect(next, name.0, header.0);
      PopulateContextCreatesNothing(CreateNode(next, name.0, header.0).value.contexts, d.value.contexts.head);
    }
  }

  lemma LeafEffect(t: State, pc: nat, name: AmlName, kind: Kind)
    requires Ready(t) && t.items.Cons? && Owned(AllCreated(t.contexts), t.ns)
    ensures EffectOf(t, CreateNode(CommitPc(t, pc), name, kind))
  {
    hide CreateNode;
    CreateEffect(CommitPc(t, pc), name, kind);
  }

  lemma MethodAliasEffect(t: State, pc: nat)
    requires Ready(t) && t.items.Cons? && Owned(AllCreated(t.contexts), t.ns)
    ensures EffectOf(t, ParseMethod(t, pc)) && EffectOf(t, ParseAlias(t, pc))
  {
    hide ReadPackageLength, ParseName, DoResolve, CreateNode, ReadInteger, Effect;
    var code, limit := t.contexts.head.code, t.blocks.head.limit;
    var m := ParseMethod(t, pc);
    if m.Ok? {
      var size := ReadPackageLength(code, pc + 1, limit).value;
      var name := ParseName(code, size.1).value;
      var flags := ReadInteger(code, name.1, 1, limit).value;
      var end := pc + 1 + size.0;
      LeafEffect(t, end, name.0,
                 Method(flags.0 % 256, if flags.1 <= |code| then code[flags.1..] else [], end - flags.1));
    }
    var a := ParseAlias(t, pc);
    if a.Ok? {
      var target := ParseName(code, pc + 1).value;
      var name := ParseName(code, target.1).value;
      var node := DoResolve(t.ns, t.contexts.head.handle, target.0).value.value;
      LeafEffect(t, name.1, name.0, Alias(node));
    }
  }

  lemma SyncEffect(t: State, opcode: nat, pc: nat)
    requires Ready(t) && t.items.Cons? && Owned(AllCreated(t.contexts), t.ns)
    ensures EffectOf(t, ParseSync(t, opcode, pc)) && EffectOf(t, ParseExternal(t, pc))
  {
    hide ParseName, CreateNode, ReadInteger;
    var name := ParseName(t.contexts.head.code, pc);
    if name.Ok? {
      LeafEffect(t, name.value.1 + 1, name.value.0, Other(Mutex));
      LeafEffect(t, name.value.1, name.value.0, Other(Event));
    }
  }

  lemma FieldsEffect(t: State, opcode: nat, pc: nat)
    requires Ready(t) && t.items.Cons? && Owned(AllCreated(t.contexts), t.ns)
    ensures EffectOf(t, ParseFields(t, opcode, pc))
  {
    hide ReadPackageLength, InstallFields, ReadRegister, TreeQuiet, TreeInstall, TreeLeave;
    var code, limit := t.contexts.head.code, t.blocks.head.limit;
    var size := ReadPackageLength(code, pc + 2, limit);
    if size.Ok? {
      var register := ReadRegister(t, opcode, size.value.1);
      if register.Ok? && register.value.1 < |code| {
        var start, end := register.value.1 + 1, pc + 2 + size.value.0;
        InstallFieldsEffect(t, code, register.value.0, code[start - 1], 0, start, end, limit);
        var r := InstallFields(t, code, register.value.0, code[start - 1], 0, start, end, limit);
        if r.Ok? { CommitEffect(t, r.value.0, r.value.1); }
      }
    }
  }

  lemma CommitEffect(t: State, t': State, pc: nat)
    requires Ready(t) && t.items.Cons? && Declared(t, t') && t'.blocks.Cons?
    ensures Effect(t, CommitPc(t', pc))
  {
  }

  lemma ObjectOpcodeEffect(t: State, mode: Mode, opcode: nat, opcodePc: nat, pc: nat)
    requires Ready(t) && t.items.Cons?
    ensures EffectOf(t, ParseObjectOpcode(t, mode, opcode, opcodePc, pc))
  {
    hide ReadPackageLength, StringEnd, ParseTimer, ParseData, Effect, Last;
    var r := ParseObjectOpcode(t, mode, opcode, opcodePc, pc);
    if opcode == TIMER_OP {
      TimerEffect(t, CommitPc(t, pc), mode);
    } else if opcode == REVISION_OP {
      DataEffect(t, CommitPc(t, pc), mode, Integer(REVISION));
    } else if opcode == STRINGPREFIX {
      var end := StringEnd(t.contexts.head.code, pc, t.blocks.head.limit);
      if end.Ok? { DataEffect(t, CommitPc(t, end.value + 1), mode, Opaque(TextForm, end.value - pc)); }
    } else if r.Ok? {
      if r.value.items.tail == t.items { LastBelow(r.value.items); }
      PushEffect(t, r.value);
    }
  }

  lemma LastBelow(items: List<Item>)
    requires items.Cons? && items.tail.Cons?
    ensures Last(items) == Last(items.tail)
  {
  }

  lemma TimerEffect(t: State, t': State, mode: Mode)
    requires Ready(t) && t.items.Cons? && t' == t.(blocks := t'.blocks)
    ensures EffectOf(t, ParseTimer(t', mode))
  {
    hide Answered, NodesKept, Last, Effect;
    PushEffect(t, t');
    AnsweredEffect(t');
    var r := Answered(t');
    if r.Ok? { QuietEffect(t, r.value.1, Value(r.value.0)); }
  }

  /** A step that only pushes. */
  lemma PushEffect(t: State, t': State)
    requires Ready(t) && t.items.Cons? && t'.ns == t.ns && t'.contexts == t.contexts && t.operands <= t'.operands
    requires t'.items.Cons? && Last(t'.items) == Last(t.items)
    ensures Effect(t, t')
  {
    QuietIsReflexive(t);
  }

  lemma DataEffect(t: State, t': State, mode: Mode, v: Object)
    requires Ready(t) && t.items.Cons? && t' == t.(blocks := t'.blocks)
    ensures EffectOf(t, ParseData(t', mode, v))
  {
    hide Effect;
    var r := ParseData(t', mode, v);
    if r.Ok? { PushEffect(t, r.value); }
  }

  lemma StatementEffect(t: State, opcode: nat, opcodePc: nat, pc: nat)
    requires Grounded(t) && Ready(t) && Owned(AllCreated(t.contexts), t.ns)
    ensures EffectOf(t, ParseIf(t, opcodePc)) && EffectOf(t, ParseWhile(t, opcodePc))
    ensures EffectOf(t, BreakLoop(t)) && EffectOf(t, ContinueLoop(t))
  {
    hide ReadPackageLength, NodesKept, BreakLoop, ContinueLoop;
    QuietIsReflexive(t);
    BreakEffect(t);
    ContinueEffect(t);
  }

  lemma ParseOpcodeEffect(t: State, mode: Mode, opcode: nat, opcodePc: nat, pc: nat)
    requires Grounded(t) && Ready(t) && Owned(AllCreated(t.contexts), t.ns)
    ensures EffectOf(t, ParseOpcode(t, mode, opcode, opcodePc, pc))
  {
    hide ParseScope, ParseDevice, ParseMethod, ParseAlias, BreakLoop, ContinueLoop, ReadInteger, ReadPackageLength,
      ParseIf, ParseWhile, ParseVariable, ParseData, ParseSync, ParseExternal, ParseFields, ParseObjectOpcode, Effect;
    var next := CommitPc(t, pc);
    if ARG0_OP <= opcode <= ARG6_OP || LOCAL0_OP <= opcode <= LOCAL7_OP {
      var variable := if opcode >= ARG0_OP then ArgName(opcode - ARG0_OP) else LocalName(opcode - LOCAL0_OP);
      VariableEffect(t, next, mode, variable);
    } else if opcode in {ZERO_OP, ONE_OP, ONES_OP} {
      if opcode == ZERO_OP && IsTargetMode(mode) { PushEffect(t, PushOperand(next, NullName)); }
      DataEffect(t, next, mode, Integer(if opcode == ZERO_OP then 0 else if opcode == ONE_OP then 1 else TWO64 - 1));
    } else if opcode in {BYTEPREFIX, WORDPREFIX, DWORDPREFIX, QWORDPREFIX} {
      var value := ReadInteger(t.contexts.head.code, pc, PrefixWidth(opcode), t.blocks.head.limit);
      if value.Ok? { DataEffect(t, CommitPc(t, value.value.1), mode, Integer(Wrap(value.value.0))); }
    } else {
      PushEffect(t, next);
      PushEffect(t, PushItem(next, OpItem(|t.operands|, opcode, WantsResult(mode))));
      PushEffect(t, PushItem(next, ReturnItem(|t.operands|)));
      PushEffect(t, PushItem(next, NodeItem(|t.operands|, NAME_OP)));
      StatementEffect(t, opcode, opcodePc, pc);
      ScopeEffect(t, opcode, opcodePc);
      MethodAliasEffect(t, opcodePc);
      SyncEffect(t, opcode, pc);
      FieldsEffect(t, opcode, opcodePc);
      ObjectOpcodeEffect(t, mode, opcode, opcodePc, pc);
    }
  }

  lemma VariableEffect(t: State, t': State, mode: Mode, variable: Operand)
    requires Ready(t) && t.items.Cons? && t' == t.(blocks := t'.blocks) && t'.blocks.Cons?
    ensures EffectOf(t, ParseVariable(t', mode, variable))
  {
    hide Effect, Load;
    var r := ParseVariable(t', mode, variable);
    if r.Ok? { PushEffect(t, r.value); }
  }

  lemma ReferenceEffect(t: State, mode: Mode, name: AmlName)
    requires Ready(t) && t.items.Cons?
    ensures EffectOf(t, ParseReference(t, mode, name))
  {
    hide DoResolve, Access, OrAnswered, Effect, Last;
    var r := ParseReference(t, mode, name);
    var target := DoResolve(t.ns, t.contexts.head.handle, name);
    if mode == UnresolvedMode || mode == DataMode || target.Fail? || target.value.None? || IsTargetMode(mode) {
      if r.Ok? { PushEffect(t, r.value); }
    } else {
      var n := target.value.value;
      if KindOf(t.ns, n).Some? && KindOf(t.ns, n).value.Method? {
        LastBelow(r.value.items);
        PushEffect(t, r.value);
      } else {
        OrAnsweredEffect(t, Access(t.ns, n));
        var answer := OrAnswered(t, Access(t.ns, n));
        if answer.Ok? { QuietEffect(t, answer.value.1, Value(answer.value.0)); }
      }
    }
  }

  /** A reply, and possibly its result on the operand stack. */
  lemma QuietEffect(t: State, t': State, o: Operand)
    requires Ready(t) && t.items.Cons? && TreeQuiet(t, t') && t'.items == t.items && t'.operands == t.operands
    ensures Effect(t, t') && Effect(t, PushOperand(t', o))
  {
    hide NodesKept, Last;
  }

  lemma ParseEffect(t: State, mode: Mode)
    requires Grounded(t) && Ready(t) && Owned(AllCreated(t.contexts), t.ns)
    ensures EffectOf(t, Parse(t, mode))
  {
    hide ParseOpcode, ParseName, ParseReference, ReadInteger, NodesKept;
    QuietIsReflexive(t);
    var code, pc := t.contexts.head.code, t.blocks.head.pc;
    if pc < |code| {
      if code[pc] == EXTOP_PREFIX {
        if pc + 1 < |code| {
          ParseOpcodeEffect(t, mode, 256 * EXTOP_PREFIX + code[pc + 1], pc, pc + 2);
        }
      } else if !IsName(code[pc]) {
        ParseOpcodeEffect(t, mode, code[pc], pc, pc + 1);
      } else if ParseName(code, pc).Ok? {
        ReferenceEffect(CommitPc(t, ParseName(code, pc).value.1), mode, ParseName(code, pc).value.0);
      }
    }
  }

  lemma EnvEffect(t: State, env: Env)
    requires Ready(t) && t.items.Cons? && Harmless(EnvOf(t), env)
    ensures TreeQuiet(t, WithEnv(t, env)) && WithEnv(t, env).items == t.items && WithEnv(t, env).operands == t.operands
  {
  }

  lemma ReductionEffect(t: State, opcode: nat, operands: seq<Operand>)
    requires Ready(t) && t.items.Cons? && HasOperands(opcode) && |operands| == OperandCount(opcode)
    ensures var r := Reduction(t, opcode, operands); r.Ok? ==> TreeQuiet(t, r.value.1)
  {
    hide ReduceOp, Answered;
    AnsweredEffect(t);
    if IsOperator(opcode) {
      ReduceIsHarmless(opcode, EnvOf(t), operands);
      var r := ReduceOp(opcode, EnvOf(t), operands);
      if r.Ok? { EnvEffect(t, r.value.1); }
    }
  }

  lemma OpEffect(t: State)
    requires Grounded(t) && Ready(t) && Owned(AllCreated(t.contexts), t.ns) && t.items.head.OpItem?
    ensures EffectOf(t, ProcessOp(t))
  {
    hide Parse, Reduction, NodesKept;
    var OpItem(frame, opcode, _) := t.items.head;
    if frame <= |t.operands| && HasOperands(opcode) {
      var k := |t.operands| - frame;
      if k < OperandCount(opcode) { ParseEffect(t, ModeOf(opcode, k)); }
      if k == OperandCount(opcode) { ReductionEffect(t, opcode, t.operands[frame..]); }
    }
  }

  lemma QuietlyEffect(t: State, place: (nat, Segment), kind: Kind)
    requires Ready(t) && Owned(AllCreated(t.contexts), t.ns)
    ensures Declared(t, InstallQuietly(t, place, kind))
  {
    hide InstallNode;
    NothingDeclared(t);
    InstallEffect(t, place, kind);
  }

  lemma BufferFieldEffect(t: State, opcode: nat, operands: seq<Operand>)
    requires Ready(t) && Owned(AllCreated(t.contexts), t.ns)
    requires opcode != NAME_OP && IsNodeOpcode(opcode) && |operands| == |NodeModes(opcode)|
    ensures var r := ReduceBufferField(t, opcode, operands); r.Ok? ==> TreeEffect(t, r.value)
  {
    hide InstallQuietly, DoResolveNew, OrAnswered, FieldPlace, Load, TreeQuiet, TreeInstall, Owned;
    QuietIsReflexive(t);
    OrAnsweredEffect(t, Load(EnvOf(t), operands[0]));
    var target := operands[|operands| - 1];
    var buffer := OrAnswered(t, Load(EnvOf(t), operands[0]));
    if FieldPlace(opcode, operands).Ok? && target.UnresolvedName? && buffer.Ok? {
      var place := DoResolveNew(t.ns, t.contexts.head.handle, target.name);
      var (start, length) := FieldPlace(opcode, operands).value;
      if place.Ok? {
        var t' := buffer.value.1;
        OwnedQuiet(t, t');
        QuietlyEffect(t', place.value, BufferField(start, length));
        QuietInstall(t, t', InstallQuietly(t', place.value, BufferField(start, length)));
      }
    }
  }

  lemma OwnedQuiet(t: State, t': State)
    requires Owned(AllCreated(t.contexts), t.ns) && TreeQuiet(t, t')
    ensures Owned(AllCreated(t'.contexts), t'.ns)
  {
    var created := AllCreated(t.contexts);
    forall i | 0 <= i < |created| ensures Installed(t'.ns, created[i]) { assert Installed(t.ns, created[i]); }
  }

  lemma ReduceNodeEffect(t: State, opcode: nat, operands: seq<Operand>)
    requires Ready(t) && Owned(AllCreated(t.contexts), t.ns)
    requires IsNodeOpcode(opcode) && |operands| == |NodeModes(opcode)|
    ensures var r := ReduceNode(t, opcode, operands); r.Ok? ==> TreeEffect(t, r.value)
  {
    hide InstallQuietly, DoResolveNew, ReduceBufferField, TreeQuiet, TreeInstall, Owned;
    QuietIsReflexive(t);
    if opcode == NAME_OP || opcode == OPREGION_OP {
      if operands[0].UnresolvedName? {
        var place := DoResolveNew(t.ns, t.contexts.head.handle, operands[0].name);
        if place.Ok? {
          if operands[1].Value? { QuietlyEffect(t, place.value, NameObject(operands[1].v)); }
          QuietlyEffect(t, place.value, Other(OpRegion));
        }
      }
    } else {
      BufferFieldEffect(t, opcode, operands);
    }
  }

  lemma NodeEffect(t: State)
    requires Grounded(t) && Ready(t) && Owned(AllCreated(t.contexts), t.ns) && t.items.head.NodeItem?
    ensures EffectOf(t, ProcessNode(t))
  {
    hide Parse, ReduceNode, NodesKept;
    var NodeItem(frame, opcode) := t.items.head;
    if frame <= |t.operands| && IsNodeOpcode(opcode) {
      var k := |t.operands| - frame;
      if k < |NodeModes(opcode)| { ParseEffect(t, NodeModes(opcode)[k]); }
      if k == |NodeModes(opcode)| {
        ReduceNodeEffect(t, opcode, t.operands[frame..]);
      }
    }
  }

  lemma BufferEffect(t: State)
    requires Grounded(t) && Ready(t) && Owned(AllCreated(t.contexts), t.ns) && t.items.head.BufferItem?
    ensures EffectOf(t, ProcessBuffer(t))
  {
    hide Parse, CreateBuffer, NodesKept;
    ParseEffect(t, ObjectMode);
    var frame := t.items.head.frame;
    if |t.operands| == frame + 1 && GetObject(t.operands[frame]).Ok? {
      CreateBufferEffect(t, GetObject(t.operands[frame]).value);
    }
  }

  lemma CreateBufferEffect(t: State, size: Object)
    requires Ready(t)
    ensures var r := CreateBuffer(t, size); r.Ok? ==> TreeQuiet(t, r.value.1)
  {
    hide Answered, OrAnswered, TreeQuiet;
    AnsweredEffect(t);
    if size.Integer? { OrAnsweredEffect(t, FillBuffer(t, size.n)); }
    OrAnsweredEffect(t, FillBuffer(t, 0));
  }

  lemma PackageEffect(t: State)
    requires Grounded(t) && Ready(t) && Owned(AllCreated(t.contexts), t.ns) && t.items.head.PackageItem?
    ensures EffectOf(t, ProcessPackage(t))
  {
    hide Parse, StoreInitializer, NodesKept;
    QuietIsReflexive(t);
    ImmediateKeeps(t, 1);
    var empty := State(Nil, Nil, Nil, [], t.ns, []);
    StoreInitializerLocal(t, empty);
    var r := StoreInitializer(t);
    if r.Ok? { ParseEffect(r.value, DataMode); }
  }

  lemma InvokeEffect(t: State)
    requires Grounded(t) && Ready(t) && Owned(AllCreated(t.contexts), t.ns) && t.items.head.InvokeItem?
    ensures EffectOf(t, ProcessInvoke(t))
  {
    hide Parse, GetObjects, NodesKept;
    QuietIsReflexive(t);
    ParseEffect(t, ObjectMode);
    var r := ProcessInvoke(t);
    if r.Ok? && |t.operands| == t.items.head.frame + t.items.head.argc + 1 {
      PopulateContextCreatesNothing(t.contexts, r.value.contexts.head);
    }
  }

  lemma ReturnItemEffect(t: State)
    requires Grounded(t) && Ready(t) && Owned(AllCreated(t.contexts), t.ns) && t.items.head.ReturnItem?
    ensures EffectOf(t, ProcessReturn(t))
  {
    hide Parse, ReturnFrom;
    ParseEffect(t, ObjectMode);
    var frame := t.items.head.frame;
    if |t.operands| == frame + 1 && GetObject(t.operands[frame]).Ok? {
      var below := t.(operands := t.operands[..frame], items := t.items.tail);
      ReturnEffect(below, GetObject(t.operands[frame]).value);
    }
  }

  lemma LoopEffect(t: State)
    requires Grounded(t) && Ready(t) && Owned(AllCreated(t.contexts), t.ns)
    requires t.items.head.LoopItem? || t.items.head.CondItem?
    ensures t.items.head.LoopItem? ==> EffectOf(t, ProcessLoop(t))
    ensures t.items.head.CondItem? ==> EffectOf(t, ProcessCond(t))
  {
    hide Parse, NodesKept;
    QuietIsReflexive(t);
    ParseEffect(t, ObjectMode);
    ParseEffect(t, ExecMode);
  }

  lemma MethodEndEffect(t: State)
    requires Grounded(t) && Ready(t) && Owned(AllCreated(t.contexts), t.ns) && t.items.head.MethodItem?
    ensures EffectOf(t, ImplicitReturn(t))
  {
    hide LeaveMethod;
    LeaveEffect(if t.items.head.wantResult then PushOperand(t, Value(Integer(0))) else t);
  }

  lemma StepEffect(t: State, final: nat)
    requires Inv(t, final) && t.items.Cons?
    ensures Ready(t) && EffectOf(t, Process(t))
  {
    hide Parse, ProcessLoop, ProcessCond, ProcessOp, ProcessNode, ProcessInvoke, ProcessReturn, ImplicitReturn;
    hide ProcessBuffer, ProcessPackage;
    StackedReady(t.items, t.contexts, t.blocks);
    ParseEffect(t, ExecMode);
    match t.items.head
    case Populate =>
      PopulateContextCreatesNothing(t.contexts.tail, t.contexts.head);
      NothingDeclared(t);
    case MethodItem(_) => MethodEndEffect(t);
    case LoopItem(_, _, _) => LoopEffect(t);
    case CondItem(_, _, _, _, _) => LoopEffect(t);
    case NodeItem(_, _) => NodeEffect(t);
    case OpItem(_, _, _) => OpEffect(t);
    case InvokeItem(_, _, _) => InvokeEffect(t);
    case ReturnItem(_) => ReturnItemEffect(t);
    case BufferItem(_, _) => BufferEffect(t);
    case PackageItem(_, _, _, _) => PackageEffect(t);
  }

  // ------------------------------------------------------------------------------------
  // The caller's operands.
  // ------------------------------------------------------------------------------------

  lemma {:induction false} FramesAboveBottom(items: List<Item>, h: nat, gain: nat, final: nat)
    requires items.Cons? && Last(items).MethodItem? && Below(items, h, gain, final)
    ensures h + Gain(Last(items)) >= final
    decreases items
  {
    if items.tail.Cons? { FramesAboveBottom(items.tail, FrameOf(items.head, h), Gain(items.head), final); }
  }

  /** The part of the namespace that the running methods do not own. */
  function Foreign(t: State): map<(nat, Segment), nat> {
    t.ns.kids - KeysOf(t.ns.nodes, AllCreated(t.contexts))
  }

  /** A step that declares a name in a Scope or Device body, where no method owns it. */
  predicate Leaks(t: State) {
    && t.items.Cons? && Ready(t) && t.contexts.head.invocation.None?
    && Process(t).Ok? && Process(t).value.ns.kids != t.ns.kids
  }

  lemma {:induction false} KeysOfKept(ns: Space, ns': Space, created: seq<nat>)
    requires NodesKept(ns, ns') && forall i :: 0 <= i < |created| ==> created[i] in ns.nodes
    ensures KeysOf(ns'.nodes, created) == KeysOf(ns.nodes, created)
    decreases |created|
  {
    if created != [] {
      assert KeyOf(ns', created[0]) == KeyOf(ns, created[0]);
      KeysOfKept(ns, ns', created[1..]);
    }
  }

  lemma {:induction false} KeysOfJoin(nodes: map<nat, Node>, a: seq<nat>, b: seq<nat>)
    ensures KeysOf(nodes, a + b) == KeysOf(nodes, a) + KeysOf(nodes, b)
    decreases |a|
  {
    if a == [] {
      assert a + b == b;
    } else {
      assert (a + b)[1..] == a[1..] + b;
      KeysOfJoin(nodes, a[1..], b);
    }
  }

  lemma OwnedInstall(t: State, t': State)
    requires Ready(t) && Owned(AllCreated(t.contexts), t.ns) && TreeInstall(t, t') && t.contexts.head.invocation.Some?
    ensures Foreign(t') == Foreign(t)
  {
    var created, more := AllCreated(t.contexts), NewNodes(t.ns.next, t'.ns.next);
    forall i | 0 <= i < |created| ensures created[i] in t.ns.nodes { assert Installed(t.ns, created[i]); }
    KeysOfKept(t.ns, t'.ns, created);
    KeysOfJoin(t'.ns.nodes, created, more);
    var keys, keys' := KeysOf(t.ns.nodes, created), KeysOf(t'.ns.nodes, more);
    MinusBoth(t'.ns.kids, keys', keys);
  }

  lemma MinusBoth<K, V>(kids: map<K, V>, a: set<K>, b: set<K>)
    ensures kids - (b + a) == (kids - a) - b
  {
  }

  lemma ForeignInstall(t: State, t': State)
    requires Ready(t) && Owned(AllCreated(t.contexts), t.ns) && TreeInstall(t, t') && t.contexts.head.invocation.None?
    ensures t'.ns.kids == t.ns.kids ==> Foreign(t') == Foreign(t)
    ensures t'.ns.kids != t.ns.kids ==> Foreign(t') != Foreign(t) && |Foreign(t')| > |Foreign(t)|
  {
    var created, more := AllCreated(t.contexts), NewNodes(t.ns.next, t'.ns.next);
    forall i | 0 <= i < |created| ensures created[i] in t.ns.nodes { assert Installed(t.ns, created[i]); }
    KeysOfKept(t.ns, t'.ns, created);
    assert created + [] == created;
    KeysAreInstalled(t.ns, created);
    if t'.ns.kids != t.ns.kids {
      KidsGrow(t.ns.kids, t'.ns.kids, KeysOf(t'.ns.nodes, more), KeysOf(t.ns.nodes, created));
    }
  }

  lemma KidsGrow<K, V>(kids: map<K, V>, kids': map<K, V>, keys: set<K>, owned: set<K>)
    requires kids.Keys !! keys && kids' - keys == kids && owned <= kids.Keys && kids' != kids
    ensures kids' - owned != kids - owned && |kids' - owned| > |kids - owned|
  {
    var added := kids'.Keys * keys;
    if added == {} {
      NothingAdded(kids, kids', keys);
    }
    assert kids'.Keys == kids.Keys + added;
    KeysMinus(kids', owned);
    KeysMinus(kids, owned);
    assert kids'.Keys - owned == (kids.Keys - owned) + added;
    assert |(kids' - owned).Keys| == |(kids - owned).Keys| + |added|;
  }

  lemma NothingAdded<K, V>(kids: map<K, V>, kids': map<K, V>, keys: set<K>)
    requires kids' - keys == kids && kids'.Keys !! keys
    ensures kids' == kids
  {
    KeysMinus(kids', keys);
    assert kids'.Keys == kids.Keys;
  }

  lemma KeysMinus<K, V>(kids: map<K, V>, owned: set<K>)
    ensures (kids - owned).Keys == kids.Keys - owned
  {
  }

  lemma ForeignLeave(t: State, t': State)
    requires Ready(t) && TreeLeave(t, t')
    ensures Foreign(t') == Foreign(t)
  {
    KeysOfJoin(t.ns.nodes, AllCreated(t.contexts.tail), CreatedBy(t.contexts.head.invocation));
  }

  lemma ForeignQuiet(t: State, t': State)
    requires Owned(AllCreated(t.contexts), t.ns) && TreeQuiet(t, t')
    ensures Foreign(t') == Foreign(t)
  {
    var created := AllCreated(t.contexts);
    forall i | 0 <= i < |created| ensures created[i] in t.ns.nodes { assert Installed(t.ns, created[i]); }
    KeysOfKept(t.ns, t'.ns, created);
  }

  /** Names outside the running methods never go away, and they change exactly when a step leaks. */
  lemma ForeignStep(t: State, final: nat)
    requires Inv(t, final) && t.items.Cons? && Process(t).Ok?
    ensures var t' := Process(t).value;
            && (Foreign(t') == Foreign(t) <==> !Leaks(t))
            && (if Leaks(t) then |Foreign(t')| > |Foreign(t)| else |Foreign(t')| == |Foreign(t)|)
  {
    hide Process, Foreign;
    StepEffect(t, final);
    var t' := Process(t).value;
    if TreeQuiet(t, t') {
      ForeignQuiet(t, t');
    } else if TreeLeave(t, t') {
      ForeignLeave(t, t');
    } else if t.contexts.head.invocation.Some? {
      OwnedInstall(t, t');
    } else {
      ForeignInstall(t, t');
    }
  }

  lemma {:induction false} KeysAreInstalled(ns: Space, created: seq<nat>)
    requires forall i :: 0 <= i < |created| ==> Installed(ns, created[i])
    ensures KeysOf(ns.nodes, created) <= ns.kids.Keys
    decreases |created|
  {
    if created != [] {
      assert Installed(ns, created[0]);
      forall i | 0 <= i < |created[1..]| ensures Installed(ns, created[1..][i]) {
        assert created[1..][i] == created[i + 1];
      }
      KeysAreInstalled(ns, created[1..]);
    }
  }

  // ------------------------------------------------------------------------------------
  // Whole calls.
  // ------------------------------------------------------------------------------------

  /** Some step of the run leaks a name. */
  ghost predicate LeaksWithin(t: State, n: nat) {
    exists k: nat :: k < n && Run(Ok(t), k).Ok? && Leaks(Run(Ok(t), k).value)
  }

  /** A run that has not ended keeps the caller's operands and the names nobody owns, until it leaks. */
  lemma {:induction false} RunEffect(t: State, base: nat, n: nat, final: nat)
    requires Inv(t, final) && (t.items.Cons? ==> Last(t.items).MethodItem? && base + Gain(Last(t.items)) == final)
    requires base <= |t.operands| && Run(Ok(t), n).Ok?
    ensures var t' := Run(Ok(t), n).value;
            && base <= |t'.operands| && t'.operands[..base] == t.operands[..base]
            && (Foreign(t') == Foreign(t) <==> !LeaksWithin(t, n))
            && |Foreign(t')| >= |Foreign(t)|
    decreases n
  {
    hide Process, Inv, Foreign, Leaks;
    if n == 0 || t.items.Nil? {
      if t.items.Nil? { NoLeakAfterEnd(t, n); }
    } else {
      var t1 := Process(t).value;
      StepSafe(t, final);
      StepEffect(t, final);
      ForeignStep(t, final);
      BaseBelowFrame(t, base, final);
      var k := FrameOf(t.items.head, |t.operands|);
      assert t1.operands[..base] == t1.operands[..k][..base] == t.operands[..k][..base] == t.operands[..base];
      RunEffect(t1, base, n - 1, final);
      LeaksShift(t, n);
    }
  }

  lemma BaseBelowFrame(t: State, base: nat, final: nat)
    requires Inv(t, final) && t.items.Cons? && Last(t.items).MethodItem? && base + Gain(Last(t.items)) == final
    ensures base <= FrameOf(t.items.head, |t.operands|) <= |t.operands|
  {
    if t.items.tail.Cons? {
      FramesAboveBottom(t.items.tail, FrameOf(t.items.head, |t.operands|), Gain(t.items.head), final);
    }
  }

  lemma NoLeakAfterEnd(t: State, n: nat)
    requires t.items.Nil?
    ensures !LeaksWithin(t, n)
  {
    forall k: nat | k < n ensures Run(Ok(t), k) == Ok(t) {}
  }

  lemma LeaksShift(t: State, n: nat)
    requires n > 0 && t.items.Cons? && Process(t).Ok?
    ensures LeaksWithin(t, n) <==> Leaks(t) || LeaksWithin(Process(t).value, n - 1)
  {
    hide Process, Leaks;
    var t1 := Process(t).value;
    assert Run(Ok(t), 0) == Ok(t);
    if LeaksWithin(t, n) {
      var k: nat :| k < n && Run(Ok(t), k).Ok? && Leaks(Run(Ok(t), k).value);
      if k > 0 { assert Run(Ok(t1), k - 1) == Run(Ok(t), k); }
    }
    if LeaksWithin(t1, n - 1) {
      var k: nat :| k < n - 1 && Run(Ok(t1), k).Ok? && Leaks(Run(Ok(t1), k).value);
      assert Run(Ok(t), k + 1) == Run(Ok(t1), k);
    }
  }

  /** The callee by itself, on the operands and the namespace of its caller. */
  function Callee(b: State, m: nat, code: seq<byte>, size: int, args: seq<Object>, want: bool): State
    requires |args| <= 7
  {
    EnterMethod(State(Nil, Nil, Nil, b.operands, b.ns, b.replies), m, code, size, args, want)
  }

  /** A call of a method with arbitrary code, made from any state of the caller: if the callee ends
      after `n` steps, the caller gets its blocks, its pending items and its calls in progress back, its
      operands unchanged plus exactly one result if it wants one, and the tables of children of all
      namespace nodes are what they were, except for names declared in bodies of Scope and the like, if
      any. Its variables are the same, too, unless a reply has reached them through a reference. */
  lemma CallIsTransparent(b: State, m: nat, code: seq<byte>, size: int, args: seq<Object>, want: bool, n: nat)
    requires |args| <= 7 && Numbered(b.ns)
    requires var t := Callee(b, m, code, size, args, want);
             Run(Ok(t), n).Ok? && Run(Ok(t), n).value.items.Nil? && forall k: nat :: k < n ==> !Halted(Run(Ok(t), k))
    ensures var t, s := Callee(b, m, code, size, args, want), EnterMethod(b, m, code, size, args, want);
            var r := Run(Ok(s), n);
            && r.Ok? && r.value.blocks == b.blocks && r.value.items == b.items
            && SameCalls(b.contexts, r.value.contexts)
            && (r.value.replies == b.replies ==> r.value.contexts == b.contexts)
            && |r.value.operands| == |b.operands| + (if want then 1 else 0)
            && b.operands <= r.value.operands
            && (r.value.ns.kids == b.ns.kids <==> !LeaksWithin(t, n))
  {
    hide Run, Inv, Foreign, Process, CallerAfter;
    var t := Callee(b, m, code, size, args, want);
    var final := |b.operands| + if want then 1 else 0;
    CalleeInv(b, m, code, size, args, want);
    RunLocal(t, b, n, final);
    RunSafe(t, n, final);
    CallerKept(t, b, n, final);
    RunEffect(t, |b.operands|, n, final);
    var t' := Run(Ok(t), n).value;
    EndState(t', final);
  }

  lemma CalleeInv(b: State, m: nat, code: seq<byte>, size: int, args: seq<Object>, want: bool)
    requires |args| <= 7 && Numbered(b.ns)
    ensures var t := Callee(b, m, code, size, args, want);
            && Inv(t, |b.operands| + if want then 1 else 0)
            && Foreign(t) == b.ns.kids && Last(t.items) == MethodItem(want)
            && OnTop(t, b) == EnterMethod(b, m, code, size, args, want)
  {
    var t := Callee(b, m, code, size, args, want);
    assert AllCreated(t.contexts.tail) == [] && AllCreated(t.contexts) == [];
    assert Stacked(t.items.tail, t.contexts.tail, t.blocks.tail);
    assert Called(t.items.tail, t.operands, t.ns);
    assert b.ns.kids - {} == b.ns.kids;
    var empty := State(Nil, Nil, Nil, b.operands, b.ns, b.replies);
    assert OnTop(empty, b) == b;
    var c := Context(code, m, Some(NewInvocation(args)));
    PushContextLocal(empty, c, b);
    PushLocal(PushContext(empty, c), 0, size, MethodItem(want), b);
  }

  lemma EndState(t: State, final: nat)
    requires Inv(t, final) && t.items.Nil?
    ensures t.contexts.Nil? && t.blocks.Nil? && |t.operands| == final && Foreign(t) == t.ns.kids
  {
    assert t.ns.kids - {} == t.ns.kids;
  }
}

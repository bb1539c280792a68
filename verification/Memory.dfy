/** Reference counts (`core/variable.c`): variables and package elements share strings, buffers and
    packages through heads that count the slots pointing at them. */
module Memory {
  import opened Bits

  /** What a slot holds: nothing, an object without a head, or a pointer to a head. Index references
      (`LAI_STRING_INDEX` and the like) count like the objects they point into. */
  datatype Value =
    | Zeroed
    | Plain(n: u64)
    | Points(isIndex: bool, head: nat)

  /** `rc` and the payload of strings and buffers, or of packages. A freed head stays freed. */
  datatype Head =
    | Leaf(rc: int, content: seq<byte>)
    | Package(rc: int, elems: seq<Value>)
    | Freed

  datatype Store = Store(vars: seq<Value>, heads: seq<Head>)

  /** A place that holds a value. */
  datatype Slot = Var(i: nat) | Elem(head: nat, i: nat)

  predicate IsSlot(m: Store, s: Slot) {
    match s
    case Var(i) => i < |m.vars|
    case Elem(h, i) => h < |m.heads| && m.heads[h].Package? && i < |m.heads[h].elems|
  }

  function Read(m: Store, s: Slot): Value
    requires IsSlot(m, s)
  {
    match s
    case Var(i) => m.vars[i]
    case Elem(h, i) => m.heads[h].elems[i]
  }

  function Write(m: Store, s: Slot, v: Value): Store
    requires IsSlot(m, s)
  {
    match s
    case Var(i) => m.(vars := m.vars[i := v])
    case Elem(h, i) => m.(heads := m.heads[h := m.heads[h].(elems := m.heads[h].elems[i := v])])
  }

  function SetCount(m: Store, h: nat, rc: int): Store
    requires h < |m.heads| && !m.heads[h].Freed?
  {
    m.(heads := m.heads[h := m.heads[h].(rc := rc)])
  }

  // ------------------------------------------------------------------------------------
  // Counting.
  // ------------------------------------------------------------------------------------

  /** Whether a value points at head `h`, as a number. */
  function Points1(v: Value, h: nat): nat {
    if v.Points? && v.head == h then 1 else 0
  }

  function CountIn(vs: seq<Value>, h: nat): nat {
    if vs == [] then 0 else CountIn(vs[..|vs| - 1], h) + Points1(vs[|vs| - 1], h)
  }

  function CountInside(head: Head, h: nat): nat {
    if head.Package? then CountIn(head.elems, h) else 0
  }

  function CountAll(hs: seq<Head>, h: nat): nat {
    if hs == [] then 0 else CountAll(hs[..|hs| - 1], h) + CountInside(hs[|hs| - 1], h)
  }

  /** The number of slots that point at a head. */
  function Refs(m: Store, h: nat): nat {
    CountIn(m.vars, h) + CountAll(m.heads, h)
  }

  predicate Live(m: Store, h: nat) {
    h < |m.heads| && !m.heads[h].Freed?
  }

  /** Every count is the number of slots pointing at the head, where `held` are the pointers in local
      variables of the running C functions; nothing points at a freed head. */
  ghost predicate Balanced(m: Store, held: multiset<nat>) {
    forall h: nat :: if Live(m, h) then m.heads[h].rc == Refs(m, h) + held[h] else Refs(m, h) + held[h] == 0
  }

  /** No head is waiting to be freed. */
  predicate NoneDying(m: Store) {
    forall h :: 0 <= h < |m.heads| && !m.heads[h].Freed? ==> m.heads[h].rc > 0
  }

  function Held(v: Value): multiset<nat> {
    if v.Points? then multiset{v.head} else multiset{}
  }

  lemma {:induction false} CountUpdate(vs: seq<Value>, i: nat, v: Value, h: nat)
    requires i < |vs|
    ensures CountIn(vs[i := v], h) + Points1(vs[i], h) == CountIn(vs, h) + Points1(v, h)
    decreases |vs|
  {
    var n := |vs| - 1;
    if i < n {
      assert vs[i := v][..n] == vs[..n][i := v];
      CountUpdate(vs[..n], i, v, h);
    } else {
      assert vs[i := v][..n] == vs[..n];
    }
  }

  lemma {:induction false} CountAllUpdate(hs: seq<Head>, i: nat, head: Head, h: nat)
    requires i < |hs|
    ensures CountAll(hs[i := head], h) + CountInside(hs[i], h) == CountAll(hs, h) + CountInside(head, h)
    decreases |hs|
  {
    var n := |hs| - 1;
    if i < n {
      assert hs[i := head][..n] == hs[..n][i := head];
      CountAllUpdate(hs[..n], i, head, h);
    } else {
      assert hs[i := head][..n] == hs[..n];
    }
  }

  lemma WriteRefs(m: Store, s: Slot, v: Value, h: nat)
    requires IsSlot(m, s)
    ensures Refs(Write(m, s, v), h) + Points1(Read(m, s), h) == Refs(m, h) + Points1(v, h)
  {
    match s
    case Var(i) => CountUpdate(m.vars, i, v, h);
    case Elem(p, i) =>
      CountUpdate(m.heads[p].elems, i, v, h);
      CountAllUpdate(m.heads, p, m.heads[p].(elems := m.heads[p].elems[i := v]), h);
  }

  /** Taking a value out of its slot: the pointer is now held by the running function. */
  lemma TakeBalanced(m: Store, s: Slot, held: multiset<nat>)
    requires IsSlot(m, s) && Balanced(m, held)
    ensures Balanced(Write(m, s, Zeroed), held + Held(Read(m, s)))
  {
    hide Refs;
    forall h: nat { WriteRefs(m, s, Zeroed, h); }
  }

  /** Putting a held value into an empty slot. */
  lemma PutBalanced(m: Store, s: Slot, v: Value, held: multiset<nat>)
    requires IsSlot(m, s) && Read(m, s) == Zeroed && Balanced(m, held + Held(v))
    ensures Balanced(Write(m, s, v), held)
  {
    hide Refs;
    forall h: nat { WriteRefs(m, s, v, h); }
  }

  /** Changing a count and the held pointers together. */
  lemma CountBalanced(m: Store, p: nat, rc: int, held: multiset<nat>, held': multiset<nat>)
    requires Live(m, p) && Balanced(m, held)
    requires rc + held[p] == m.heads[p].rc + held'[p]
    requires forall h :: h != p ==> held'[h] == held[h]
    ensures Balanced(SetCount(m, p, rc), held')
  {
    forall h: nat ensures Refs(SetCount(m, p, rc), h) == Refs(m, h) {
      CountAllUpdate(m.heads, p, m.heads[p].(rc := rc), h);
    }
    hide Refs;
  }

  lemma FreeBalanced(m: Store, p: nat, held: multiset<nat>)
    requires Balanced(m, held) && Live(m, p) && m.heads[p].rc == 0
    requires m.heads[p].Package? ==> forall i :: 0 <= i < |m.heads[p].elems| ==> m.heads[p].elems[i] == Zeroed
    ensures Balanced(m.(heads := m.heads[p := Freed]), held)
  {
    forall h: nat ensures Refs(m.(heads := m.heads[p := Freed]), h) == Refs(m, h) {
      CountAllUpdate(m.heads, p, Freed, h);
      if m.heads[p].Package? { NothingInside(m.heads[p].elems, h); }
    }
    hide Refs;
  }

  lemma {:induction false} NothingInside(vs: seq<Value>, h: nat)
    requires forall i :: 0 <= i < |vs| ==> vs[i] == Zeroed
    ensures CountIn(vs, h) == 0
  {
    if vs != [] { NothingInside(vs[..|vs| - 1], h); }
  }

  // ------------------------------------------------------------------------------------
  // What freeing leaves alone.
  // ------------------------------------------------------------------------------------

  /** A head after references have been dropped: counts go down, a head whose count reaches zero is
      gone, and one that was already dying is left to whoever frees it. */
  predicate Kept(before: Head, after: Head) {
    after == before ||
    (!before.Freed? && before.rc > 0 &&
     (after.Freed? || (after.rc > 0 && after.rc <= before.rc && after == before.(rc := after.rc))))
  }

  predicate Dropped(m: Store, after: Store) {
    && after.vars == m.vars && |after.heads| == |m.heads|
    && forall h :: 0 <= h < |m.heads| ==> Kept(m.heads[h], after.heads[h])
  }

  /** How many heads are in use; every free makes it smaller. */
  function InUse(hs: seq<Head>): nat {
    if hs == [] then 0
    else InUse(hs[..|hs| - 1]) + if !hs[|hs| - 1].Freed? && hs[|hs| - 1].rc > 0 then 1 else 0
  }

  lemma {:induction false} InUseShrinks(hs: seq<Head>, gs: seq<Head>)
    requires |hs| == |gs|
    requires forall i :: 0 <= i < |hs| && !gs[i].Freed? && gs[i].rc > 0 ==> !hs[i].Freed? && hs[i].rc > 0
    ensures InUse(gs) <= InUse(hs)
    ensures (exists i :: 0 <= i < |hs| && !hs[i].Freed? && hs[i].rc > 0 && (gs[i].Freed? || gs[i].rc <= 0)) ==>
              InUse(gs) < InUse(hs)
    decreases |hs|
  {
    if hs != [] { InUseShrinks(hs[..|hs| - 1], gs[..|gs| - 1]); }
  }

  lemma DroppedKeepsInUse(m: Store, after: Store)
    requires Dropped(m, after)
    ensures InUse(after.heads) <= InUse(m.heads)
  {
    InUseShrinks(m.heads, after.heads);
  }

  lemma PointerIsLive(m: Store, s: Slot, held: multiset<nat>)
    requires IsSlot(m, s) && Balanced(m, held) && Read(m, s).Points?
    ensures Live(m, Read(m, s).head) && m.heads[Read(m, s).head].rc > 0
  {
    hide Refs;
    WriteRefs(m, s, Zeroed, Read(m, s).head);
  }

  lemma HeldIsLive(m: Store, held: multiset<nat>, h: nat)
    requires Balanced(m, held + multiset{h})
    ensures Live(m, h) && m.heads[h].rc > 0
  {
    hide Refs;
    assert (held + multiset{h})[h] > 0;
  }

  lemma WrittenIsRead(m: Store, s: Slot, v: Value)
    requires IsSlot(m, s)
    ensures IsSlot(Write(m, s, v), s) && Read(Write(m, s, v), s) == v
  {
  }

  lemma WriteTwice(m: Store, s: Slot, v: Value, w: Value)
    requires IsSlot(m, s)
    ensures IsSlot(Write(m, s, v), s) && Write(Write(m, s, v), s, w) == Write(m, s, w)
  {
    if s.Elem? {
      var elems := m.heads[s.head].elems;
      assert elems[s.i := v][s.i := w] == elems[s.i := w];
      var first := m.heads[s.head].(elems := elems[s.i := v]);
      var second := m.heads[s.head].(elems := elems[s.i := w]);
      assert m.heads[s.head := first][s.head := second] == m.heads[s.head := second];
    } else {
      assert m.vars[s.i := v][s.i := w] == m.vars[s.i := w];
    }
  }

  /** The count after one more slot has been given the value. */
  function Counted(m: Store, v: Value): Store {
    if v.Points? && Live(m, v.head) then SetCount(m, v.head, m.heads[v.head].rc + 1) else m
  }

  /** What a move and an assignment write before they release the old value of the destination. */
  function AfterMove(m: Store, dest: Slot, src: Slot): Store
    requires IsSlot(m, dest) && IsSlot(m, src)
  {
    Write(Write(m, src, Zeroed), dest, Read(m, src))
  }

  function AfterAssign(m: Store, dest: Slot, src: Slot): Store
    requires IsSlot(m, dest) && IsSlot(m, src)
  {
    Write(Counted(m, Read(m, src)), dest, Read(m, src))
  }

  /** All variables of the interpreter and all heads it has allocated. */
  class Heap {
    var vars: seq<Value>
    var heads: seq<Head>

    ghost function Current(): Store
      reads this
    {
      Store(vars, heads)
    }

    /** Between two operations no head is dying, and no package contains itself. The `lost` pointers
        have been counted, but no slot holds them. */
    ghost predicate Valid(lost: multiset<nat>)
      reads this
    {
      Balanced(Current(), lost) && NoneDying(Current()) && Nested(heads)
    }

    constructor (n: nat)
      ensures Valid(multiset{}) && Current() == Store(seq(n, _ => Zeroed), [])
    {
      vars, heads := seq(n, _ => Zeroed), [];
      new;
      forall h { NothingInside(vars, h); }
      assert NestAt(heads, 0);
    }

    method Set(s: Slot, v: Value)
      requires IsSlot(Current(), s)
      modifies this
      ensures Current() == Write(old(Current()), s, v)
    {
      match s {
        case Var(i) => vars := vars[i := v];
        case Elem(h, i) => heads := heads[h := heads[h].(elems := heads[h].elems[i := v])];
      }
    }

    /** `lai_rc_unref` and what follows when the count reaches zero. */
    method Release(v: Value, ghost held: multiset<nat>)
      requires Balanced(Current(), held + Held(v))
      modifies this
      ensures Balanced(Current(), held) && Dropped(old(Current()), Current())
      ensures !v.Points? ==> Current() == old(Current())
      decreases InUse(heads), 0
    {
      hide Refs;
      if v.Points? {
        HeldIsLive(Current(), held, v.head);
        var h, rc := v.head, heads[v.head].rc - 1;
        CountBalanced(Current(), h, rc, held + Held(v), held);
        heads := heads[h := heads[h].(rc := rc)];
        if rc == 0 {
          InUseShrinks(old(heads), heads);
          if heads[h].Package? {
            FreePackage(h, held);
          } else {
            FreeBalanced(Current(), h, held);
            heads := heads[h := Freed];
          }
        }
      }
    }

    /** `laihost_free_package`. */
    method FreePackage(p: nat, ghost held: multiset<nat>)
      requires Balanced(Current(), held) && Live(Current(), p) && heads[p].Package? && heads[p].rc == 0
      modifies this
      ensures Balanced(Current(), held) && vars == old(vars) && |heads| == |old(heads)| && heads[p].Freed?
      ensures forall h :: 0 <= h < |heads| && h != p ==> Kept(old(heads)[h], heads[h])
      decreases InUse(heads), 2
    {
      hide Refs, Balanced;
      var i := 0;
      while i < |heads[p].elems|
        invariant vars == old(vars) && |heads| == |old(heads)|
        invariant Balanced(Current(), held) && heads[p].Package? && heads[p].rc == 0
        invariant i <= |heads[p].elems| && forall j :: 0 <= j < i ==> heads[p].elems[j] == Zeroed
        invariant forall h :: 0 <= h < |heads| && h != p ==> Kept(old(heads)[h], heads[h])
        invariant InUse(heads) <= InUse(old(heads))
        decreases |heads[p].elems| - i
      {
        Finalize(Elem(p, i), held);
        i := i + 1;
      }
      FreeBalanced(Current(), p, held);
      heads := heads[p := Freed];
    }

    /** `lai_var_finalize`. The code clears the slot last; nothing reads it in between. */
    method Finalize(s: Slot, ghost held: multiset<nat>)
      requires IsSlot(Current(), s) && Balanced(Current(), held)
      modifies this
      ensures Balanced(Current(), held) && Dropped(Write(old(Current()), s, Zeroed), Current())
      ensures NoneDying(old(Current())) ==> NoneDying(Current())
      ensures Nested(old(heads)) ==> Nested(heads)
      ensures InUse(heads) <= InUse(old(heads))
      decreases InUse(heads), 1
    {
      hide Refs;
      var v := Read(Store(vars, heads), s);
      TakeBalanced(Current(), s, held);
      Set(s, Zeroed);
      InUseShrinks(old(heads), heads);
      Release(v, held);
      DroppedKeepsInUse(Write(old(Current()), s, Zeroed), Current());
      if Nested(old(heads)) {
        ZeroedKeepsNested(old(Current()), s);
        DroppedKeepsNested(Write(old(Current()), s, Zeroed), Current(), held);
      }
    }

    /** The common end of move and assignment: the held value is swapped into its slot, and the value
        that was there is finalized. */
    method Replace(dest: Slot, v: Value, ghost held: multiset<nat>)
      requires IsSlot(Current(), dest) && Balanced(Current(), held + Held(v))
      modifies this
      ensures Balanced(Current(), held) && Dropped(Write(old(Current()), dest, v), Current())
      ensures !Read(old(Current()), dest).Points? ==> Current() == Write(old(Current()), dest, v)
    {
      hide Refs, Write, Read, IsSlot;
      var last := Read(Store(vars, heads), dest);
      TakeBalanced(Current(), dest, held + Held(v));
      WriteTwice(Current(), dest, Zeroed, v);
      assert held + Held(v) + Held(last) == held + Held(last) + Held(v);
      WrittenIsRead(Current(), dest, Zeroed);
      PutBalanced(Write(Current(), dest, Zeroed), dest, v, held + Held(last));
      Set(dest, v);
      Release(last, held);
    }

    /** `lai_var_move`: the value changes its slot, the old value of the destination is released. */
    method Move(dest: Slot, src: Slot, ghost held: multiset<nat>)
      requires IsSlot(Current(), dest) && IsSlot(Current(), src) && Balanced(Current(), held)
      modifies this
      ensures Balanced(Current(), held) && Dropped(AfterMove(old(Current()), dest, src), Current())
      ensures NoneDying(old(Current())) ==> NoneDying(Current())
      ensures dest.Var? && Nested(old(heads)) ==> Nested(heads)
    {
      hide Refs, NestAt;
      var temp := Read(Store(vars, heads), src);
      TakeBalanced(Current(), src, held);
      Set(src, Zeroed);
      Replace(dest, temp, held);
      if dest.Var? && Nested(old(heads)) {
        ZeroedKeepsNested(old(Current()), src);
        DroppedKeepsNested(AfterMove(old(Current()), dest, src), Current(), held);
      }
    }

    /** One more reference to a value, held by the running function. */
    method Share(v: Value, ghost held: multiset<nat>)
      requires Balanced(Current(), held) && (v.Points? ==> Live(Current(), v.head))
      modifies this
      ensures Balanced(Current(), held + Held(v)) && Current() == Counted(old(Current()), v)
    {
      hide Refs;
      if v.Points? {
        CountBalanced(Current(), v.head, heads[v.head].rc + 1, held, held + Held(v));
        heads := heads[v.head := heads[v.head].(rc := heads[v.head].rc + 1)];
      } else {
        assert held + Held(v) == held;
      }
    }

    /** `lai_var_assign`: a shallow copy with one more reference. */
    method Assign(dest: Slot, src: Slot, ghost held: multiset<nat>)
      requires IsSlot(Current(), dest) && IsSlot(Current(), src) && Balanced(Current(), held)
      modifies this
      ensures Balanced(Current(), held) && Dropped(AfterAssign(old(Current()), dest, src), Current())
      ensures !Read(old(Current()), dest).Points? ==> Current() == AfterAssign(old(Current()), dest, src)
      ensures NoneDying(old(Current())) ==> NoneDying(Current())
      ensures dest.Var? && Nested(old(heads)) ==> Nested(heads)
    {
      hide Refs, NoneDying, NestAt;
      ghost var m := Current();
      var temp := Read(Store(vars, heads), src);
      if temp.Points? { PointerIsLive(m, src, held); }
      Share(temp, held);
      Replace(dest, temp, held);
      AssignLeavesNoneDying(m, dest, src);
      DroppedLeavesNoneDying(AfterAssign(m, dest, src), Current());
      if dest.Var? && Nested(old(heads)) {
        CountedExtends(m, temp);
        DroppedKeepsNested(AfterAssign(m, dest, src), Current(), held);
      }
    }

    /** `lai_exec_pkg_var_load`. */
    method LoadElement(out: nat, p: nat, i: nat, ghost held: multiset<nat>)
      requires out < |vars| && IsSlot(Current(), Elem(p, i)) && Balanced(Current(), held)
      modifies this
      ensures Balanced(Current(), held) && Dropped(AfterAssign(old(Current()), Var(out), Elem(p, i)), Current())
      ensures NoneDying(old(Current())) ==> NoneDying(Current())
      ensures Nested(old(heads)) ==> Nested(heads)
    {
      Assign(Var(out), Elem(p, i), held);
    }

    /** Index (`lai_exec_reduce_op`): a reference into an object shares its head. */
    method Index(dest: nat, src: nat, ghost held: multiset<nat>)
      requires dest < |vars| && src < |vars| && vars[src].Points? && Balanced(Current(), held)
      modifies this
      ensures Balanced(Current(), held)
      ensures var v := old(vars[src]);
              Dropped(Write(Counted(old(Current()), v), Var(dest), Points(true, v.head)), Current())
      ensures NoneDying(old(Current())) ==> NoneDying(Current())
      ensures Nested(old(heads)) ==> Nested(heads)
    {
      hide Refs, NestAt;
      ghost var m := Current();
      var v := vars[src];
      PointerIsLive(m, Var(src), held);
      Share(v, held);
      assert Held(v) == Held(Points(true, v.head));
      Replace(Var(dest), Points(true, v.head), held);
      if Nested(old(heads)) {
        CountedExtends(m, v);
        DroppedKeepsNested(Write(Counted(m, v), Var(dest), Points(true, v.head)), Current(), held);
      }
    }

    /** The initializers of Package (`lai_exec_process`): the package under construction is known to its
        operand alone, so that no initializer can contain it. */
    method Initialise(package: nat, i: nat, initializer: nat, ghost held: multiset<nat>)
      requires package < |vars| && initializer < |vars| && package != initializer && Balanced(Current(), held)
      requires vars[package].Points? && IsSlot(Current(), Elem(vars[package].head, i))
      requires heads[vars[package].head].rc == 1 && Nested(heads)
      modifies this
      ensures Balanced(Current(), held) && Nested(heads) && vars == old(vars)
      ensures Dropped(AfterAssign(old(Current()), Elem(vars[package].head, i), Var(initializer)), Current())
      ensures !Read(old(Current()), Elem(vars[package].head, i)).Points? ==>
                Current() == AfterAssign(old(Current()), Elem(vars[package].head, i), Var(initializer))
      ensures NoneDying(old(Current())) ==> NoneDying(Current())
    {
      hide Refs;
      ghost var m := Current();
      var p := vars[package].head;
      OnlyReference(m, Var(package), Var(initializer), held);
      Assign(Elem(p, i), Var(initializer), held);
      if m.vars[initializer].Points? { PointerIsLive(m, Var(initializer), held); }
      InitialisedKeepsNested(m, package, p, i, m.vars[initializer], held);
      DroppedKeepsNested(AfterAssign(m, Elem(p, i), Var(initializer)), Current(), held);
    }

    /** The value `lai_obj_clone` puts into its destination: a new head for every string, buffer and
        package, and one more reference for everything else. `depth` bounds the nesting. */
    method CloneValue(v: Value, ghost held: multiset<nat>, ghost depth: nat) returns (w: Value)
      requires Balanced(Current(), held) && Nests(heads, v, depth) && Nested(heads)
      requires v.Points? ==> Live(Current(), v.head)
      modifies this
      ensures Balanced(Current(), held + Held(w)) && Extends(old(Current()), Current()) && Nested(heads)
      ensures IsCopy(old(Current()), v, Current(), w, |old(heads)|, depth)
      decreases depth, 1
    {
      hide Refs, IsCopy, Nests, NestAt;
      if v.Points? && !v.isIndex {
        if heads[v.head].Leaf? {
          w := NewHead(Leaf(1, heads[v.head].content), held);
          CopyOfLeaf(old(Current()), v, Current(), w, depth);
        } else {
          w := ClonePackage(v.head, held, depth);
        }
      } else {
        CountedExtends(Current(), v);
        Share(v, held);
        w := v;
        CopyOfOther(old(Current()), v, Current(), depth);
      }
    }

    /** `lai_create_string`, `lai_create_buffer` and `lai_create_pkg`: a head with one reference. */
    method NewHead(head: Head, ghost held: multiset<nat>) returns (w: Value)
      requires Balanced(Current(), held) && !head.Freed? && head.rc == 1
      requires head.Package? ==> forall i :: 0 <= i < |head.elems| ==> head.elems[i] == Zeroed
      modifies this
      ensures w == Points(false, |old(heads)|) && vars == old(vars) && heads == old(heads) + [head]
      ensures Balanced(Current(), held + Held(w))
      ensures Nested(old(heads)) ==> Nested(heads)
    {
      AppendBalanced(Current(), head, held);
      if Nested(heads) { AppendKeepsNested(Current(), head); }
      w := Points(false, |heads|);
      heads := heads + [head];
    }

    /** `lai_create_string`, `lai_create_buffer` and `lai_create_pkg` into a variable. */
    method Create(dest: nat, head: Head, ghost held: multiset<nat>)
      requires dest < |vars| && Balanced(Current(), held) && !head.Freed? && head.rc == 1
      requires head.Package? ==> forall i :: 0 <= i < |head.elems| ==> head.elems[i] == Zeroed
      modifies this
      ensures Balanced(Current(), held)
      ensures Dropped(Store(old(vars)[dest := Points(false, |old(heads)|)], old(heads) + [head]), Current())
      ensures !old(vars)[dest].Points? ==>
                Current() == Store(old(vars)[dest := Points(false, |old(heads)|)], old(heads) + [head])
      ensures NoneDying(old(Current())) ==> NoneDying(Current())
      ensures Nested(old(heads)) ==> Nested(heads)
    {
      hide Refs, NestAt;
      var w := NewHead(head, held);
      ghost var middle := Current();
      Replace(Var(dest), w, held);
      if Nested(middle.heads) {
        DroppedKeepsNested(Write(middle, Var(dest), w), Current(), held);
      }
    }

    /** `lai_clone_package`. */
    method ClonePackage(p: nat, ghost held: multiset<nat>, ghost depth: nat) returns (w: Value)
      requires Balanced(Current(), held) && Live(Current(), p) && heads[p].Package?
      requires Nests(heads, Points(false, p), depth) && Nested(heads)
      modifies this
      ensures Balanced(Current(), held + Held(w)) && Extends(old(Current()), Current()) && Nested(heads)
      ensures IsCopy(old(Current()), Points(false, p), Current(), w, |old(heads)|, depth)
      decreases depth, 0
    {
      hide Refs, IsCopy, Nests, Extends, PartialCopy, NestAt;
      ghost var m := Current();
      PackageNests(m, p, depth);
      var n := |heads[p].elems|;
      w := NewHead(Package(1, seq(n, _ => Zeroed)), held);
      var q := w.head;
      var i := 0;
      PartialStart(m, p, Current(), depth);
      while i < n
        invariant i <= n && Balanced(Current(), held + Held(w)) && Nested(heads)
        invariant PartialCopy(m, p, Current(), q, i, depth)
      {
        ghost var before := Current();
        ElementNests(m, p, i, depth);
        PartialElement(m, p, before, q, i, depth);
        var v := heads[p].elems[i];
        if v.Points? { PointerIsLive(before, Elem(p, i), held + Held(w)); }
        var e := CloneValue(v, held + Held(w), depth - 1);
        ghost var middle := Current();
        CopyElement(m, p, before, middle, q, i, e, depth);
        CloneStoredKeepsNested(before, v, middle, e, |before.heads|, depth - 1, Elem(q, i));
        Replace(Elem(q, i), e, held + Held(w));
        i := i + 1;
      }
      CopyOfPackage(m, p, Current(), w, depth);
    }

    /** `lai_obj_clone`: the destination gets a copy that shares no string, buffer or package with the
        source, down to the last nested package; only index references are shared. It terminates
        because no package contains itself. */
    method Clone(dest: Slot, src: Slot, ghost held: multiset<nat>)
      requires IsSlot(Current(), dest) && IsSlot(Current(), src) && Balanced(Current(), held) && Nested(heads)
      modifies this
      ensures Balanced(Current(), held) && Nested(heads)
      ensures IsSlot(Current(), dest) ==>
                DeepCopy(old(Current()), Read(old(Current()), src), Current(), Read(Current(), dest), |old(heads)|)
      ensures dest.Var? || held[dest.head] > 0 ==> IsSlot(Current(), dest)
      ensures |vars| == |old(vars)| && forall i :: 0 <= i < |vars| && dest != Var(i) ==> vars[i] == old(vars)[i]
      ensures NoneDying(old(Current())) ==> NoneDying(Current())
    {
      hide Refs, IsCopy, Nests, NestAt, Nested, Balanced;
      ghost var m := Current();
      var v := Read(Store(vars, heads), src);
      if v.Points? { PointerIsLive(m, src, held); }
      ghost var depth := NestedDepth(m, v);
      var w := CloneValue(v, held, depth);
      ghost var middle := Current();
      Replace(dest, w, held);
      CopyAfterWrite(m, v, middle, w, |m.heads|, depth, dest, w);
      ghost var written := Write(middle, dest, w);
      CloneStoredKeepsNested(m, v, middle, w, |m.heads|, depth, dest);
      if dest.Elem? && held[dest.head] > 0 { HeldIsLiveIn(Current(), held, dest.head); }
      DroppedKeepsNested(written, Current(), held);
      if IsSlot(Current(), dest) {
        WrittenIsRead(middle, dest, w);
        if w.Points? { PointerIsLive(Current(), dest, held); }
        CopySurvives(m, v, written, Current(), w, |m.heads|, depth, held);
      }
    }

    /** The clones Store and CopyObject (`lai_exec_reduce_op`) make of their source: the result, and one
        that is dropped unused after the store. */
    method CloneForStore(src: Slot, ghost held: multiset<nat>)
      returns (source: Value, result: Value, out: Value, ghost depth: nat)
      requires IsSlot(Current(), src) && Balanced(Current(), held) && Nested(heads)
      modifies this
      ensures Balanced(Current(), held + Held(source) + Held(result) + Held(out))
      ensures source == Read(old(Current()), src) && Extends(old(Current()), Current()) && Nested(heads)
      ensures IsCopy(old(Current()), source, Current(), result, |old(heads)|, depth)
    {
      hide Refs, IsCopy, Nests, NestAt, Extends;
      ghost var m := Current();
      source := Read(Store(vars, heads), src);
      if source.Points? { PointerIsLive(m, src, held); }
      depth := NestedDepth(m, source);
      CountedExtends(m, source);
      Share(source, held);
      ghost var shared := Current();
      NestsExtends(m, shared, source, depth);
      result := CloneValue(source, held + Held(source), depth);
      ghost var cloned := Current();
      CopyFrom(m, source, shared, cloned, result, |m.heads|, depth);
      if result.Points? { HeldIsLive(cloned, held + Held(source), result.head); }
      ghost var again := NestedDepth(cloned, result);
      out := CloneValue(result, held + Held(source) + Held(result), again);
      CopyStays(m, source, cloned, Current(), result, |m.heads|, depth);
      ExtendsTwice(m, shared, cloned);
      ExtendsTwice(m, cloned, Current());
    }

    /** The local variables of Store and CopyObject are dropped after the store. */
    method DropLocals(source: Value, out: Value, ghost held: multiset<nat>)
      requires Balanced(Current(), held + Held(source) + Held(out)) && Nested(heads)
      modifies this
      ensures Balanced(Current(), held) && Dropped(old(Current()), Current()) && Nested(heads)
    {
      hide Refs, NestAt, Dropped;
      ghost var m := Current();
      assert held + Held(source) + Held(out) == held + Held(out) + Held(source);
      Release(source, held + Held(out));
      ghost var middle := Current();
      DroppedKeepsNested(m, middle, held + Held(out));
      Release(out, held);
      DroppedKeepsNested(middle, Current(), held);
      DroppedTwice(m, middle, Current());
    }

    /** A local variable of the running function is dropped. */
    method Drop(v: Value, ghost held: multiset<nat>)
      requires Balanced(Current(), held + Held(v)) && NoneDying(Current()) && Nested(heads)
      modifies this
      ensures Balanced(Current(), held) && Dropped(old(Current()), Current())
      ensures NoneDying(Current()) && Nested(heads)
    {
      hide Refs, NestAt;
      Release(v, held);
      DroppedLeavesNoneDying(old(Current()), Current());
      DroppedKeepsNested(old(Current()), Current(), held);
    }

    /** `lai_var_assign` from a local variable. */
    method AssignValue(dest: Slot, v: Value, ghost held: multiset<nat>)
      requires IsSlot(Current(), dest) && Balanced(Current(), held) && (v.Points? ==> Live(Current(), v.head))
      modifies this
      ensures Balanced(Current(), held) && Dropped(Write(Counted(old(Current()), v), dest, v), Current())
    {
      hide Refs;
      Share(v, held);
      Replace(dest, v, held);
    }

    /** Store and CopyObject on a variable or on an element of a package. What is stored is a clone, so
        that no package gets to contain itself. */
    method StoreClone(dest: Slot, src: Slot, ghost held: multiset<nat>) returns (result: Value)
      requires IsSlot(Current(), dest) && IsSlot(Current(), src) && Balanced(Current(), held) && Nested(heads)
      modifies this
      ensures Balanced(Current(), held + Held(result)) && Nested(heads)
      ensures DeepCopy(old(Current()), Read(old(Current()), src), Current(), result, |old(heads)|)
      ensures IsSlot(Current(), dest) ==> Read(Current(), dest) == result
      ensures |vars| == |old(vars)| && forall i :: 0 <= i < |vars| && dest != Var(i) ==> vars[i] == old(vars)[i]
      ensures NoneDying(old(Current())) ==> NoneDying(Current())
    {
      hide Refs, IsCopy, Nests, NestAt, Dropped, Extends, NoneDying, IsSlot, Read, Write;
      ghost var m := Current();
      var source, out;
      ghost var depth;
      source, result, out, depth := CloneForStore(src, held);
      ghost var all := held + Held(source) + Held(result) + Held(out);
      ghost var cloned := Current();
      if result.Points? { HeldIsLiveIn(cloned, all, result.head); }
      SlotExtends(m, cloned, dest);
      ghost var written := Stored(m, source, cloned, dest, result, depth);
      AssignValue(dest, result, all);
      DroppedKeepsNested(written, Current(), all);
      ghost var replaced := Current();
      assert all == held + Held(result) + Held(source) + Held(out);
      DropLocals(source, out, held + Held(result));
      DroppedTwice(written, replaced, Current());
      if result.Points? { HeldIsLive(Current(), held, result.head); }
      CopySurvives(m, source, written, Current(), result, |m.heads|, depth, held + Held(result));
      StoredStays(m, cloned, dest, result, Current());
    }

    /** `lai_obj_resize_pkg` on the package of a variable: elements are finalized or added. */
    method Resize(target: nat, n: nat, ghost held: multiset<nat>)
      requires target < |vars| && HoldsPackage(Current(), vars[target])
      requires Balanced(Current(), held) && Nested(heads)
      modifies this
      ensures Balanced(Current(), held) && Nested(heads) && vars == old(vars)
      ensures HoldsPackage(Current(), vars[target]) && |heads[vars[target].head].elems| == n
      ensures |heads| == |old(heads)|
      ensures forall h :: 0 <= h < |heads| && h != vars[target].head ==> Kept(old(heads)[h], heads[h])
      ensures NoneDying(old(Current())) ==> NoneDying(Current())
    {
      hide Refs, NestAt;
      var p := vars[target].head;
      PointerIsLive(Current(), Var(target), held);
      if n <= |heads[p].elems| {
        ClearFrom(target, n, held);
        ResizeBalanced(Current(), p, heads[p].elems[..n], held);
        heads := heads[p := heads[p].(elems := heads[p].elems[..n])];
      } else {
        var elems := heads[p].elems + seq(n - |heads[p].elems|, _ => Zeroed);
        ResizeBalanced(Current(), p, elems, held);
        heads := heads[p := heads[p].(elems := elems)];
      }
    }

    /** The elements that do not stay are finalized. */
    method ClearFrom(target: nat, n: nat, ghost held: multiset<nat>)
      requires target < |vars| && HoldsPackage(Current(), vars[target]) && n <= |heads[vars[target].head].elems|
      requires Balanced(Current(), held) && Nested(heads)
      modifies this
      ensures Balanced(Current(), held) && Nested(heads) && vars == old(vars) && |heads| == |old(heads)|
      ensures HoldsPackage(Current(), vars[target]) && n <= |heads[vars[target].head].elems|
      ensures forall j :: n <= j < |heads[vars[target].head].elems| ==> heads[vars[target].head].elems[j] == Zeroed
      ensures forall h :: 0 <= h < |heads| && h != vars[target].head ==> Kept(old(heads)[h], heads[h])
      ensures NoneDying(old(Current())) ==> NoneDying(Current())
    {
      hide Refs, NestAt, Nested, Balanced, NoneDying;
      var p := vars[target].head;
      var i := n;
      while i < |heads[p].elems|
        invariant vars == old(vars) && |heads| == |old(heads)| && HoldsPackage(Current(), vars[target])
        invariant n <= i <= |heads[p].elems|
        invariant Balanced(Current(), held) && Nested(heads)
        invariant forall j :: n <= j < i ==> heads[p].elems[j] == Zeroed
        invariant forall h :: 0 <= h < |heads| && h != p ==> Kept(old(heads)[h], heads[h])
        invariant NoneDying(old(Current())) ==> NoneDying(Current())
        decreases |heads[p].elems| - i
      {
        Finalize(Elem(p, i), held);
        PointerIsLive(Current(), Var(target), held);
        i := i + 1;
      }
    }

    /** One element of `lai_exec_mutate_ns`: it is loaded into a temporary that nobody finalizes, and
        stored from there. */
    method MutateElement(target: nat, q: nat, i: nat, ghost m: Store, ghost v: Value, ghost depth: nat,
                         ghost held: multiset<nat>)
      returns (ghost temporary: Value)
      requires target < |vars| && HoldsPackage(Current(), vars[target]) && vars[target].head < |m.heads|
      requires Live(Current(), q) && heads[q].Package? && held[q] > 0 && q != vars[target].head
      requires i < |heads[vars[target].head].elems| && i < |heads[q].elems|
      requires Balanced(Current(), held) && Nested(heads) && NoneDying(Current())
      requires IsCopy(m, v, Current(), Points(false, q), |m.heads|, depth) && v.Points? && !v.isIndex
      modifies this
      ensures temporary == old(heads)[q].elems[i]
      ensures Balanced(Current(), held + Held(temporary)) && Nested(heads) && NoneDying(Current()) && vars == old(vars)
      ensures Live(Current(), q) && heads[q].Package? && heads[q].elems == old(heads)[q].elems
      ensures HoldsPackage(Current(), vars[target])
      ensures heads[vars[target].head].elems == old(heads)[vars[target].head].elems[i := temporary]
      ensures IsCopy(m, v, Current(), Points(false, q), |m.heads|, depth)
    {
      hide Refs, NestAt, IsCopy, Nests, Nested, Balanced;
      ghost var before := Current();
      var slot := Elem(vars[target].head, i);
      var temp := heads[q].elems[i];
      temporary := temp;
      if temp.Points? { PointerIsLive(before, Elem(q, i), held); }
      CountedExtends(before, temp);
      CopyStays(m, v, before, Counted(before, temp), Points(false, q), |m.heads|, depth);
      Share(temp, held);
      ghost var loaded := Current();
      CountedExtends(loaded, temp);
      ghost var shared := Counted(loaded, temp);
      CopyStays(m, v, loaded, shared, Points(false, q), |m.heads|, depth);
      AssignValue(slot, temp, held + Held(temp));
      ghost var written := Write(shared, slot, temp);
      CopyBound(m, v, shared, q, depth);
      CopyAfterWrite(m, v, shared, Points(false, q), |m.heads|, depth, slot, temp);
      ElementStoredKeepsNested(m, v, shared, q, depth, slot.head, i);
      DroppedKeepsNested(written, Current(), held + Held(temp));
      DroppedLeavesNoneDying(written, Current());
      PointerIsLive(Current(), Var(target), held + Held(temp));
      HeldIsLiveIn(Current(), held + Held(temp), q);
      assert Kept(written.heads[q], heads[q]) && Kept(written.heads[slot.head], heads[slot.head]);
      CopySurvives(m, v, written, Current(), Points(false, q), |m.heads|, depth, held + Held(temp));
    }

    /** `lai_exec_mutate_ns` on a Name that holds a package, after the resizing. A reference to every
        element is lost. */
    method MutateElements(target: nat, q: nat, ghost m: Store, ghost v: Value, ghost depth: nat,
                          ghost held: multiset<nat>)
      returns (ghost lost: multiset<nat>)
      requires target < |vars| && HoldsPackage(Current(), vars[target]) && vars[target].head < |m.heads|
      requires Live(Current(), q) && heads[q].Package? && held[q] > 0
      requires |heads[vars[target].head].elems| == |heads[q].elems|
      requires Balanced(Current(), held) && Nested(heads) && NoneDying(Current())
      requires IsCopy(m, v, Current(), Points(false, q), |m.heads|, depth) && v.Points? && !v.isIndex
      modifies this
      ensures Balanced(Current(), held + lost) && Nested(heads) && NoneDying(Current()) && vars == old(vars)
      ensures Live(Current(), q) && heads[q].Package? && heads[q].elems == old(heads)[q].elems
      ensures HoldsPackage(Current(), vars[target]) && heads[vars[target].head].elems == heads[q].elems
      ensures lost == HeldIn(heads[q].elems)
      ensures IsCopy(m, v, Current(), Points(false, q), |m.heads|, depth)
    {
      hide Refs, NestAt, IsCopy, Nests, Nested, Balanced, NoneDying, HeldIn, Held;
      var p := vars[target].head;
      var n := |heads[q].elems|;
      var i := 0;
      NothingHeld();
      ghost var elems := heads[q].elems;
      lost := multiset{};
      assert held + lost == held;
      CopyBound(m, v, Current(), q, depth);
      while i < n
        invariant i <= n && vars == old(vars) && HoldsPackage(Current(), vars[target])
        invariant Live(Current(), q) && heads[q].Package? && heads[q].elems == elems
        invariant |heads[p].elems| == n && heads[p].elems[..i] == elems[..i]
        invariant Balanced(Current(), held + lost) && Nested(heads) && NoneDying(Current())
        invariant IsCopy(m, v, Current(), Points(false, q), |m.heads|, depth)
        invariant lost == HeldIn(elems[..i])
      {
        ghost var copied := heads[p].elems;
        ghost var temporary := MutateElement(target, q, i, m, v, depth, held + lost);
        NextFilled(elems, copied, i);
        assert held + (lost + Held(temporary)) == held + lost + Held(temporary);
        lost := lost + Held(temporary);
        i := i + 1;
      }
      assert elems[..n] == elems && heads[p].elems[..n] == heads[p].elems;
    }

    /** Store on a Name that holds a package: the package in place is resized and filled. */
    method StorePackage(target: nat, src: Slot, ghost held: multiset<nat>)
      returns (result: Value, ghost lost: multiset<nat>)
      requires target < |vars| && HoldsPackage(Current(), vars[target])
      requires IsSlot(Current(), src) && HoldsPackage(Current(), Read(Current(), src))
      requires Balanced(Current(), held) && Nested(heads) && NoneDying(Current())
      modifies this
      ensures Balanced(Current(), held + lost + Held(result)) && Nested(heads) && NoneDying(Current())
      ensures vars == old(vars) && HoldsPackage(Current(), vars[target]) && HoldsPackage(Current(), result)
      ensures DeepCopy(old(Current()), Read(old(Current()), src), Current(), result, |old(heads)|)
      ensures heads[vars[target].head].elems == heads[result.head].elems
      ensures lost == HeldIn(heads[vars[target].head].elems)
      ensures var elems := old(heads[Read(Current(), src).head].elems);
              |lost| == Pointers(elems) && (lost == multiset{} <==> NoPointers(elems))
    {
      hide Refs, NestAt, IsCopy, Nests, Nested, Balanced, NoneDying, Dropped, HeldIn, Pointers, NoPointers;
      ghost var m := Current();
      var source, out;
      ghost var depth;
      source, result, out, depth := CloneAndResize(target, src, held);
      ghost var all := held + Held(source) + Held(result) + Held(out);
      lost := MutateElements(target, result.head, m, source, depth, all);
      CopyPointers(m, source, Current(), result, |m.heads|, depth);
      CopyBound(m, source, Current(), result.head, depth);
      assert all + lost == held + lost + Held(result) + Held(source) + Held(out);
      DropAfterStore(target, source, result, out, m, depth, held + lost);
    }

    /** The clones, and room for as many elements in the package that is stored over. */
    method CloneAndResize(target: nat, src: Slot, ghost held: multiset<nat>)
      returns (source: Value, result: Value, out: Value, ghost depth: nat)
      requires target < |vars| && HoldsPackage(Current(), vars[target])
      requires IsSlot(Current(), src) && HoldsPackage(Current(), Read(Current(), src))
      requires Balanced(Current(), held) && Nested(heads) && NoneDying(Current())
      modifies this
      ensures Balanced(Current(), held + Held(source) + Held(result) + Held(out))
      ensures Nested(heads) && NoneDying(Current()) && vars == old(vars) && source == old(Read(Current(), src))
      ensures HoldsPackage(Current(), vars[target]) && HoldsPackage(Current(), result)
      ensures vars[target].head < |old(heads)|
      ensures |heads[vars[target].head].elems| == |heads[result.head].elems|
      ensures IsCopy(old(Current()), source, Current(), result, |old(heads)|, depth)
    {
      hide Refs, NestAt, IsCopy, Nests, Nested, Balanced;
      ghost var m := Current();
      PointerIsLive(m, Var(target), held);
      source, result, out, depth := CloneForStore(src, held);
      ghost var all := held + Held(source) + Held(result) + Held(out);
      CopyIsPackage(m, source, Current(), result, |m.heads|, depth);
      ghost var cloned := Current();
      Resize(target, |heads[result.head].elems|, all);
      HeldIsLiveIn(Current(), all, result.head);
      ResizedCopy(m, source, cloned, Current(), vars[target].head, result, depth, all);
      assert Kept(cloned.heads[result.head], heads[result.head]);
    }

    /** The end of the store: the local variables are dropped. */
    method DropAfterStore(target: nat, source: Value, result: Value, out: Value, ghost m: Store, ghost depth: nat,
                          ghost held: multiset<nat>)
      requires target < |vars| && HoldsPackage(Current(), vars[target]) && HoldsPackage(Current(), result)
      requires Balanced(Current(), held + Held(result) + Held(source) + Held(out)) && Nested(heads)
      requires NoneDying(Current()) && IsCopy(m, source, Current(), result, |m.heads|, depth)
      modifies this
      ensures Balanced(Current(), held + Held(result)) && Nested(heads) && NoneDying(Current()) && vars == old(vars)
      ensures HoldsPackage(Current(), vars[target]) && HoldsPackage(Current(), result)
      ensures heads[vars[target].head].elems == old(heads)[vars[target].head].elems
      ensures heads[result.head].elems == old(heads)[result.head].elems
      ensures IsCopy(m, source, Current(), result, |m.heads|, depth)
    {
      hide Refs, NestAt, IsCopy, Nests, Nested, Balanced;
      ghost var filled := Current();
      DropLocals(source, out, held + Held(result));
      PointerIsLive(Current(), Var(target), held + Held(result));
      HeldIsLive(Current(), held, result.head);
      assert Kept(filled.heads[result.head], heads[result.head]);
      assert Kept(filled.heads[vars[target].head], heads[vars[target].head]);
      CopySurvives(m, source, filled, Current(), result, |m.heads|, depth, held + Held(result));
      DroppedLeavesNoneDying(filled, Current());
    }
  }

  // ------------------------------------------------------------------------------------
  // Deep copies.
  // ------------------------------------------------------------------------------------

  /** Packages are nested at most `depth` levels deep. Index references are not followed. */
  ghost predicate Nests(hs: seq<Head>, v: Value, depth: nat)
    decreases depth
  {
    v.Points? && !v.isIndex ==>
      v.head < |hs| && !hs[v.head].Freed? &&
      (hs[v.head].Package? ==>
         depth > 0 && forall i :: 0 <= i < |hs[v.head].elems| ==> Nests(hs, hs[v.head].elems[i], depth - 1))
  }

  ghost predicate NestAt(hs: seq<Head>, depth: nat) {
    forall h :: 0 <= h < |hs| && !hs[h].Freed? ==> Nests(hs, Points(false, h), depth)
  }

  /** No package contains itself, directly or through others. */
  ghost predicate Nested(hs: seq<Head>) {
    exists depth :: NestAt(hs, depth)
  }

  ghost predicate DeepCopy(m: Store, v: Value, m': Store, w: Value, bound: nat) {
    exists depth :: IsCopy(m, v, m', w, bound, depth)
  }

  /** `w` in `m'` is a deep copy of `v` in `m`, made of heads from number `bound` on. */
  ghost predicate IsCopy(m: Store, v: Value, m': Store, w: Value, bound: nat, depth: nat)
    decreases depth
  {
    if v.Points? && !v.isIndex then
      && Live(m, v.head) && w.Points? && !w.isIndex && w.head >= bound && Live(m', w.head)
      && (m.heads[v.head].Leaf? ==> m'.heads[w.head].Leaf? && m'.heads[w.head].content == m.heads[v.head].content)
      && (m.heads[v.head].Package? ==>
            && depth > 0 && m'.heads[w.head].Package? && |m'.heads[w.head].elems| == |m.heads[v.head].elems|
            && forall i :: 0 <= i < |m.heads[v.head].elems| ==>
                 IsCopy(m, m.heads[v.head].elems[i], m', m'.heads[w.head].elems[i], bound, depth - 1))
    else w == v
  }

  /** Heads were added and counts went up. */
  predicate Extends(m: Store, m': Store) {
    && m'.vars == m.vars && |m'.heads| >= |m.heads|
    && (forall h :: 0 <= h < |m.heads| ==>
          m'.heads[h] == m.heads[h] ||
          (!m.heads[h].Freed? && !m'.heads[h].Freed? && m'.heads[h].rc >= m.heads[h].rc
           && m'.heads[h] == m.heads[h].(rc := m'.heads[h].rc)))
    && (forall h :: |m.heads| <= h < |m'.heads| ==> !m'.heads[h].Freed? && m'.heads[h].rc > 0)
  }

  /** Heads were added, counts changed, and elements were cleared or added empty. */
  predicate NoDeeper(hs: seq<Head>, gs: seq<Head>) {
    && |hs| <= |gs|
    && forall h :: 0 <= h < |hs| && !hs[h].Freed? ==>
         && (hs[h].Leaf? ==> gs[h].Leaf?)
         && (hs[h].Package? ==>
               && gs[h].Package?
               && forall i :: 0 <= i < |gs[h].elems| ==>
                    gs[h].elems[i] == Zeroed || (i < |hs[h].elems| && gs[h].elems[i] == hs[h].elems[i]))
  }

  lemma {:induction false} NoDeeperNests(hs: seq<Head>, gs: seq<Head>, v: Value, depth: nat)
    requires NoDeeper(hs, gs) && Nests(hs, v, depth)
    ensures Nests(gs, v, depth)
    decreases depth
  {
    if v.Points? && !v.isIndex && hs[v.head].Package? {
      forall i | 0 <= i < |gs[v.head].elems| ensures Nests(gs, gs[v.head].elems[i], depth - 1) {
        if gs[v.head].elems[i] != Zeroed { NoDeeperNests(hs, gs, hs[v.head].elems[i], depth - 1); }
      }
    }
  }

  lemma NoDeeperNested(hs: seq<Head>, gs: seq<Head>)
    requires NoDeeper(hs, gs) && |hs| == |gs| && Nested(hs)
    requires forall h :: 0 <= h < |hs| && hs[h].Freed? ==> gs[h].Freed?
    ensures Nested(gs)
  {
    var depth: nat :| NestAt(hs, depth);
    forall h | 0 <= h < |gs| && !gs[h].Freed? { NoDeeperNests(hs, gs, Points(false, h), depth); }
    assert NestAt(gs, depth);
  }

  lemma NestsExtends(m: Store, m': Store, v: Value, depth: nat)
    requires Extends(m, m') && Nests(m.heads, v, depth)
    ensures Nests(m'.heads, v, depth)
  {
    NoDeeperNests(m.heads, m'.heads, v, depth);
  }

  lemma {:induction false} NestsDeeper(hs: seq<Head>, v: Value, depth: nat, deeper: nat)
    requires Nests(hs, v, depth) && depth <= deeper
    ensures Nests(hs, v, deeper)
    decreases depth
  {
    if v.Points? && !v.isIndex && hs[v.head].Package? {
      forall i | 0 <= i < |hs[v.head].elems| { NestsDeeper(hs, hs[v.head].elems[i], depth - 1, deeper - 1); }
    }
  }

  lemma NestedDepth(m: Store, v: Value) returns (depth: nat)
    requires Nested(m.heads) && (v.Points? ==> Live(m, v.head))
    ensures Nests(m.heads, v, depth)
  {
    depth :| NestAt(m.heads, depth);
    if v.Points? { assert Nests(m.heads, Points(false, v.head), depth); }
  }

  lemma ZeroedKeepsNested(m: Store, s: Slot)
    requires IsSlot(m, s) && Nested(m.heads)
    ensures Nested(Write(m, s, Zeroed).heads)
  {
    NoDeeperNested(m.heads, Write(m, s, Zeroed).heads);
  }

  lemma CountedExtends(m: Store, v: Value)
    requires Nested(m.heads)
    ensures Extends(m, Counted(m, v)) && Nested(Counted(m, v).heads)
  {
    NoDeeperNested(m.heads, Counted(m, v).heads);
  }

  lemma AppendKeepsNested(m: Store, head: Head)
    requires Nested(m.heads) && !head.Freed?
    requires head.Package? ==> forall i :: 0 <= i < |head.elems| ==> head.elems[i] == Zeroed
    ensures Nested(m.heads + [head])
  {
    var depth: nat :| NestAt(m.heads, depth);
    var after := m.heads + [head];
    forall h | 0 <= h < |after| && !after[h].Freed? ensures Nests(after, Points(false, h), depth + 1) {
      if h < |m.heads| {
        NoDeeperNests(m.heads, after, Points(false, h), depth);
        NestsDeeper(after, Points(false, h), depth, depth + 1);
      }
    }
    assert NestAt(after, depth + 1);
  }

  lemma {:induction false} DroppedNests(m: Store, after: Store, v: Value, depth: nat, held: multiset<nat>)
    requires Dropped(m, after) && Balanced(after, held) && Nests(m.heads, v, depth)
    requires v.Points? ==> Live(after, v.head)
    ensures Nests(after.heads, v, depth)
    decreases depth
  {
    hide Refs;
    if v.Points? && !v.isIndex {
      assert Kept(m.heads[v.head], after.heads[v.head]);
      if m.heads[v.head].Package? {
        forall i | 0 <= i < |m.heads[v.head].elems| ensures Nests(after.heads, m.heads[v.head].elems[i], depth - 1) {
          var e := m.heads[v.head].elems[i];
          if e.Points? { PointerIsLive(after, Elem(v.head, i), held); }
          DroppedNests(m, after, e, depth - 1, held);
        }
      }
    }
  }

  lemma DroppedKeepsNested(m: Store, after: Store, held: multiset<nat>)
    requires Dropped(m, after) && Balanced(after, held) && Nested(m.heads)
    ensures Nested(after.heads)
  {
    hide Refs;
    var depth: nat :| NestAt(m.heads, depth);
    forall h | 0 <= h < |after.heads| && !after.heads[h].Freed? ensures Nests(after.heads, Points(false, h), depth) {
      assert Kept(m.heads[h], after.heads[h]);
      DroppedNests(m, after, Points(false, h), depth, held);
    }
    assert NestAt(after.heads, depth);
  }

  /** Storing a value that nests afterwards makes everything at most so much deeper. */
  lemma {:induction false} StoredNests(m: Store, p: nat, i: nat, v: Value, depth: nat, x: Value, d: nat)
    requires IsSlot(m, Elem(p, i)) && Nests(Write(m, Elem(p, i), v).heads, v, depth) && Nests(m.heads, x, d)
    ensures Nests(Write(m, Elem(p, i), v).heads, x, d + depth)
    decreases d
  {
    var gs := Write(m, Elem(p, i), v).heads;
    if x.Points? && !x.isIndex && m.heads[x.head].Package? {
      forall j | 0 <= j < |gs[x.head].elems| ensures Nests(gs, gs[x.head].elems[j], d + depth - 1) {
        if x.head == p && j == i {
          NestsDeeper(gs, v, depth, d + depth - 1);
        } else {
          StoredNests(m, p, i, v, depth, m.heads[x.head].elems[j], d - 1);
        }
      }
    }
  }

  lemma StoredKeepsNested(m: Store, p: nat, i: nat, v: Value, depth: nat)
    requires IsSlot(m, Elem(p, i)) && Nested(m.heads) && Nests(Write(m, Elem(p, i), v).heads, v, depth)
    ensures Nested(Write(m, Elem(p, i), v).heads)
  {
    var d: nat :| NestAt(m.heads, d);
    var gs := Write(m, Elem(p, i), v).heads;
    forall h | 0 <= h < |gs| && !gs[h].Freed? { StoredNests(m, p, i, v, depth, Points(false, h), d); }
    assert NestAt(gs, d + depth);
  }

  lemma {:induction false} CopyNests(m: Store, v: Value, m': Store, w: Value, bound: nat, depth: nat)
    requires IsCopy(m, v, m', w, bound, depth)
    ensures Nests(m'.heads, w, depth)
    decreases depth
  {
    if v.Points? && !v.isIndex && m.heads[v.head].Package? {
      forall i | 0 <= i < |m.heads[v.head].elems| {
        CopyNests(m, m.heads[v.head].elems[i], m', m'.heads[w.head].elems[i], bound, depth - 1);
      }
    }
  }

  /** A clone cannot contain the package it is stored into: it is made of new heads. */
  lemma CloneStoredKeepsNested(m: Store, v: Value, m': Store, w: Value, bound: nat, depth: nat, s: Slot)
    requires IsCopy(m, v, m', w, bound, depth) && Nested(m'.heads)
    requires IsSlot(m', s) && (s.Elem? ==> s.head < bound)
    ensures Nested(Write(m', s, w).heads)
  {
    CopyAfterWrite(m, v, m', w, bound, depth, s, w);
    if s.Elem? {
      CopyNests(m, v, Write(m', s, w), w, bound, depth);
      StoredKeepsNested(m', s.head, s.i, w, depth);
    }
  }

  lemma PackageNests(m: Store, p: nat, depth: nat)
    requires Nests(m.heads, Points(false, p), depth) && Live(m, p) && m.heads[p].Package?
    ensures depth > 0
  {
  }

  lemma ElementNests(m: Store, p: nat, i: nat, depth: nat)
    requires Nests(m.heads, Points(false, p), depth)
    requires Live(m, p) && m.heads[p].Package? && i < |m.heads[p].elems|
    ensures depth > 0 && Nests(m.heads, m.heads[p].elems[i], depth - 1)
  {
  }

  lemma ExtendsTwice(m: Store, m': Store, m'': Store)
    requires Extends(m, m') && Extends(m', m'')
    ensures Extends(m, m'')
  {
  }

  lemma DroppedTwice(m: Store, m': Store, m'': Store)
    requires Dropped(m, m') && Dropped(m', m'')
    ensures Dropped(m, m'')
  {
    forall h | 0 <= h < |m.heads| ensures Kept(m.heads[h], m''.heads[h]) {
      assert Kept(m.heads[h], m'.heads[h]) && Kept(m'.heads[h], m''.heads[h]);
    }
  }

  lemma SlotExtends(m: Store, m': Store, s: Slot)
    requires Extends(m, m') && IsSlot(m, s)
    ensures IsSlot(m', s) && (s.Elem? ==> s.head < |m.heads|)
  {
  }

  /** A copy of what the source is now is a copy of what it was. */
  lemma {:induction false} CopyFrom(m: Store, v: Value, before: Store, m': Store, w: Value, bound: nat, depth: nat)
    requires Extends(m, before) && Nests(m.heads, v, depth) && bound <= |before.heads|
    requires IsCopy(before, v, m', w, |before.heads|, depth)
    ensures IsCopy(m, v, m', w, bound, depth)
    decreases depth
  {
    if v.Points? && !v.isIndex && m.heads[v.head].Package? {
      forall i | 0 <= i < |m.heads[v.head].elems| {
        CopyFrom(m, m.heads[v.head].elems[i], before, m', m'.heads[w.head].elems[i], bound, depth - 1);
      }
    }
  }

  lemma {:induction false} CopyStays(m: Store, v: Value, before: Store, after: Store, w: Value, bound: nat, depth: nat)
    requires Extends(before, after) && IsCopy(m, v, before, w, bound, depth)
    ensures IsCopy(m, v, after, w, bound, depth)
    decreases depth
  {
    if v.Points? && !v.isIndex && m.heads[v.head].Package? {
      forall i | 0 <= i < |m.heads[v.head].elems| {
        CopyStays(m, m.heads[v.head].elems[i], before, after, before.heads[w.head].elems[i], bound, depth - 1);
      }
    }
  }

  lemma {:induction false} CopyAfterWrite(m: Store, v: Value, m': Store, w: Value, bound: nat, depth: nat,
                                          s: Slot, x: Value)
    requires IsSlot(m', s) && (s.Elem? ==> s.head < bound) && IsCopy(m, v, m', w, bound, depth)
    ensures IsCopy(m, v, Write(m', s, x), w, bound, depth)
    decreases depth
  {
    if v.Points? && !v.isIndex && m.heads[v.head].Package? {
      forall i | 0 <= i < |m.heads[v.head].elems| {
        CopyAfterWrite(m, m.heads[v.head].elems[i], m', m'.heads[w.head].elems[i], bound, depth - 1, s, x);
      }
    }
  }

  /** Releasing other values does not reach into a copy that is still pointed at. */
  lemma {:induction false} CopySurvives(m: Store, v: Value, m': Store, after: Store, w: Value, bound: nat, depth: nat,
                                        held: multiset<nat>)
    requires Dropped(m', after) && Balanced(after, held) && IsCopy(m, v, m', w, bound, depth)
    requires w.Points? ==> Live(after, w.head)
    ensures IsCopy(m, v, after, w, bound, depth)
    decreases depth
  {
    hide Refs;
    if v.Points? && !v.isIndex {
      assert Kept(m'.heads[w.head], after.heads[w.head]);
      if m.heads[v.head].Package? {
        forall i | 0 <= i < |m.heads[v.head].elems|
          ensures IsCopy(m, m.heads[v.head].elems[i], after, after.heads[w.head].elems[i], bound, depth - 1)
        {
          var e := after.heads[w.head].elems[i];
          if e.Points? { PointerIsLive(after, Elem(w.head, i), held); }
          CopySurvives(m, m.heads[v.head].elems[i], m', after, e, bound, depth - 1, held);
        }
      }
    }
  }

  lemma CopyOfLeaf(m: Store, v: Value, m': Store, w: Value, depth: nat)
    requires v.Points? && !v.isIndex && Live(m, v.head) && m.heads[v.head].Leaf?
    requires w == Points(false, |m.heads|) && m'.heads == m.heads + [Leaf(1, m.heads[v.head].content)]
    ensures IsCopy(m, v, m', w, |m.heads|, depth)
  {
  }

  lemma CopyOfOther(m: Store, v: Value, m': Store, depth: nat)
    requires !v.Points? || v.isIndex
    ensures IsCopy(m, v, m', v, |m.heads|, depth)
  {
  }

  /** The state of `lai_clone_package` after `i` elements: `q` is the new package. */
  ghost predicate PartialCopy(m: Store, p: nat, now: Store, q: nat, i: nat, depth: nat)
    requires Live(m, p) && m.heads[p].Package? && depth > 0
  {
    && Extends(m, now) && q == |m.heads| < |now.heads|
    && now.heads[q].Package? && |now.heads[q].elems| == |m.heads[p].elems|
    && (forall j :: i <= j < |m.heads[p].elems| ==> now.heads[q].elems[j] == Zeroed)
    && (forall j :: 0 <= j < i && j < |m.heads[p].elems| ==>
          IsCopy(m, m.heads[p].elems[j], now, now.heads[q].elems[j], q + 1, depth - 1))
  }

  lemma PartialStart(m: Store, p: nat, now: Store, depth: nat)
    requires Live(m, p) && m.heads[p].Package? && depth > 0
    requires now == m.(heads := m.heads + [Package(1, seq(|m.heads[p].elems|, _ => Zeroed))])
    ensures PartialCopy(m, p, now, |m.heads|, 0, depth)
  {
  }

  lemma PartialElement(m: Store, p: nat, now: Store, q: nat, i: nat, depth: nat)
    requires Live(m, p) && m.heads[p].Package? && depth > 0 && i < |m.heads[p].elems|
    requires PartialCopy(m, p, now, q, i, depth) && Nests(m.heads, m.heads[p].elems[i], depth - 1)
    ensures Live(now, p) && now.heads[p].Package? && now.heads[p].elems == m.heads[p].elems
    ensures Nests(now.heads, m.heads[p].elems[i], depth - 1)
    ensures IsSlot(now, Elem(q, i)) && Read(now, Elem(q, i)) == Zeroed
  {
    NestsExtends(m, now, m.heads[p].elems[i], depth - 1);
  }

  /** One more element has been cloned and stored. */
  lemma CopyElement(m: Store, p: nat, before: Store, middle: Store, q: nat, i: nat, e: Value, depth: nat)
    requires Live(m, p) && m.heads[p].Package? && depth > 0 && i < |m.heads[p].elems|
    requires PartialCopy(m, p, before, q, i, depth) && Nests(m.heads, m.heads[p].elems[i], depth - 1)
    requires Extends(before, middle) && IsCopy(before, m.heads[p].elems[i], middle, e, |before.heads|, depth - 1)
    ensures IsSlot(middle, Elem(q, i)) && Read(middle, Elem(q, i)) == Zeroed
    ensures PartialCopy(m, p, Write(middle, Elem(q, i), e), q, i + 1, depth)
  {
    hide IsCopy, Nests;
    var elems, after := m.heads[p].elems, Write(middle, Elem(q, i), e);
    assert middle.heads[q].elems == before.heads[q].elems;
    CopyFrom(m, elems[i], before, middle, e, q + 1, depth - 1);
    CopyAfterWrite(m, elems[i], middle, e, q + 1, depth - 1, Elem(q, i), e);
    forall j | 0 <= j < i ensures IsCopy(m, elems[j], after, after.heads[q].elems[j], q + 1, depth - 1) {
      CopyStays(m, elems[j], before, middle, before.heads[q].elems[j], q + 1, depth - 1);
      CopyAfterWrite(m, elems[j], middle, before.heads[q].elems[j], q + 1, depth - 1, Elem(q, i), e);
    }
  }

  lemma CopyOfPackage(m: Store, p: nat, now: Store, w: Value, depth: nat)
    requires Live(m, p) && m.heads[p].Package? && depth > 0 && w == Points(false, |m.heads|)
    requires PartialCopy(m, p, now, w.head, |m.heads[p].elems|, depth)
    ensures IsCopy(m, Points(false, p), now, w, |m.heads|, depth) && Extends(m, now)
  {
    forall i | 0 <= i < |m.heads[p].elems|
      ensures IsCopy(m, m.heads[p].elems[i], now, now.heads[w.head].elems[i], |m.heads|, depth - 1)
    {
      CopyLowerBound(m, m.heads[p].elems[i], now, now.heads[w.head].elems[i], |m.heads| + 1, |m.heads|, depth - 1);
    }
  }

  lemma {:induction false} CopyLowerBound(m: Store, v: Value, m': Store, w: Value, bound: nat, lower: nat, depth: nat)
    requires IsCopy(m, v, m', w, bound, depth) && lower <= bound
    ensures IsCopy(m, v, m', w, lower, depth)
    decreases depth
  {
    if v.Points? && !v.isIndex && m.heads[v.head].Package? {
      forall i | 0 <= i < |m.heads[v.head].elems| {
        CopyLowerBound(m, m.heads[v.head].elems[i], m', m'.heads[w.head].elems[i], bound, lower, depth - 1);
      }
    }
  }

  lemma HeldIsLiveIn(m: Store, held: multiset<nat>, h: nat)
    requires Balanced(m, held) && held[h] > 0
    ensures Live(m, h)
  {
    hide Refs;
  }

  lemma AppendBalanced(m: Store, head: Head, held: multiset<nat>)
    requires Balanced(m, held) && !head.Freed? && head.rc == 1
    requires head.Package? ==> forall i :: 0 <= i < |head.elems| ==> head.elems[i] == Zeroed
    ensures Balanced(m.(heads := m.heads + [head]), held + multiset{|m.heads|})
  {
    var after := m.(heads := m.heads + [head]);
    assert after.heads[..|m.heads|] == m.heads;
    forall h: nat ensures Refs(after, h) == Refs(m, h) {
      if head.Package? { NothingInside(head.elems, h); }
    }
    hide Refs;
    assert !Live(m, |m.heads|);
    forall h: nat | h != |m.heads| ensures (held + multiset{|m.heads|})[h] == held[h] {}
  }

  // ------------------------------------------------------------------------------------
  // Stores into packages.
  // ------------------------------------------------------------------------------------

  predicate HoldsPackage(m: Store, v: Value) {
    v.Points? && !v.isIndex && Live(m, v.head) && m.heads[v.head].Package?
  }

  /** The pointers among some values. */
  function HeldIn(vs: seq<Value>): multiset<nat> {
    if vs == [] then multiset{} else HeldIn(vs[..|vs| - 1]) + Held(vs[|vs| - 1])
  }

  lemma NothingHeld()
    ensures HeldIn([]) == multiset{}
  {
  }

  lemma NextFilled(elems: seq<Value>, copied: seq<Value>, i: nat)
    requires i < |elems| == |copied| && copied[..i] == elems[..i]
    ensures copied[i := elems[i]][..i + 1] == elems[..i + 1]
    ensures HeldIn(elems[..i + 1]) == HeldIn(elems[..i]) + Held(elems[i])
  {
    assert elems[..i + 1] == elems[..i] + [elems[i]];
    assert copied[i := elems[i]][..i + 1] == copied[..i] + [elems[i]];
  }

  /** How many of the values point at a head. */
  function Pointers(vs: seq<Value>): nat {
    if vs == [] then 0 else Pointers(vs[..|vs| - 1]) + if vs[|vs| - 1].Points? then 1 else 0
  }

  predicate NoPointers(vs: seq<Value>) {
    forall i :: 0 <= i < |vs| ==> !vs[i].Points?
  }

  lemma {:induction false} HeldInCounts(vs: seq<Value>)
    ensures |HeldIn(vs)| == Pointers(vs)
    decreases |vs|
  {
    if vs != [] { HeldInCounts(vs[..|vs| - 1]); }
  }

  lemma {:induction false} NoneCounted(vs: seq<Value>)
    ensures Pointers(vs) == 0 <==> NoPointers(vs)
    decreases |vs|
  {
    if vs != [] {
      var n := |vs| - 1;
      NoneCounted(vs[..n]);
      if NoPointers(vs) { assert NoPointers(vs[..n]); }
      if NoPointers(vs[..n]) {
        forall i | 0 <= i < n ensures !vs[i].Points? { assert vs[..n][i] == vs[i]; }
      }
    }
  }

  lemma {:induction false} SamePointers(vs: seq<Value>, ws: seq<Value>)
    requires |vs| == |ws| && forall i :: 0 <= i < |vs| ==> (vs[i].Points? <==> ws[i].Points?)
    ensures Pointers(vs) == Pointers(ws)
    decreases |vs|
  {
    if vs != [] { SamePointers(vs[..|vs| - 1], ws[..|ws| - 1]); }
  }

  /** The elements of a clone point at heads where those of the source do. */
  lemma CopyPointers(m: Store, v: Value, m': Store, w: Value, bound: nat, depth: nat)
    requires IsCopy(m, v, m', w, bound, depth) && HoldsPackage(m, v)
    ensures HoldsPackage(m', w)
    ensures var elems, held := m.heads[v.head].elems, HeldIn(m'.heads[w.head].elems);
            |held| == Pointers(elems) && (held == multiset{} <==> NoPointers(elems))
  {
    var elems, copies := m.heads[v.head].elems, m'.heads[w.head].elems;
    forall i | 0 <= i < |elems| ensures elems[i].Points? <==> copies[i].Points? {
      assert IsCopy(m, elems[i], m', copies[i], bound, depth - 1);
    }
    SamePointers(elems, copies);
    HeldInCounts(copies);
    NoneCounted(elems);
  }

  /** What a store writes, seen from before the source was cloned. */
  lemma Stored(m: Store, v: Value, m': Store, s: Slot, w: Value, depth: nat) returns (written: Store)
    requires IsCopy(m, v, m', w, |m.heads|, depth) && Nested(m'.heads) && Extends(m, m') && IsSlot(m, s)
    ensures IsSlot(Counted(m', w), s) && written == Write(Counted(m', w), s, w)
    ensures IsCopy(m, v, written, w, |m.heads|, depth) && Nested(written.heads)
  {
    hide IsCopy, NestAt;
    CountedExtends(m', w);
    CopyStays(m, v, m', Counted(m', w), w, |m.heads|, depth);
    CopyAfterWrite(m, v, Counted(m', w), w, |m.heads|, depth, s, w);
    CloneStoredKeepsNested(m, v, Counted(m', w), w, |m.heads|, depth, s);
    written := Write(Counted(m', w), s, w);
  }

  lemma StoredStays(m: Store, m': Store, s: Slot, w: Value, after: Store)
    requires Extends(m, m') && IsSlot(m, s) && IsSlot(Counted(m', w), s)
    requires Dropped(Write(Counted(m', w), s, w), after)
    ensures IsSlot(after, s) ==> Read(after, s) == w
    ensures |after.vars| == |m.vars|
    ensures forall i :: 0 <= i < |m.vars| && s != Var(i) ==> after.vars[i] == m.vars[i]
    ensures NoneDying(m) ==> NoneDying(after)
  {
    var written := Write(Counted(m', w), s, w);
    if s.Elem? && IsSlot(after, s) {
      assert Kept(written.heads[s.head], after.heads[s.head]);
    }
    if NoneDying(m) {
      assert NoneDying(m');
      DroppedLeavesNoneDying(written, after);
    }
  }

  lemma CopyBound(m: Store, v: Value, m': Store, q: nat, depth: nat)
    requires IsCopy(m, v, m', Points(false, q), |m.heads|, depth) && v.Points? && !v.isIndex
    ensures q >= |m.heads|
  {
  }

  /** An element of a clone cannot contain the package it is stored into. */
  lemma ElementStoredKeepsNested(m: Store, v: Value, m': Store, q: nat, depth: nat, p: nat, i: nat)
    requires IsCopy(m, v, m', Points(false, q), |m.heads|, depth) && v.Points? && !v.isIndex
    requires Nested(m'.heads) && IsSlot(m', Elem(p, i)) && p < |m.heads|
    requires Live(m', q) && m'.heads[q].Package? && i < |m'.heads[q].elems|
    ensures Nested(Write(m', Elem(p, i), m'.heads[q].elems[i]).heads)
  {
    hide IsCopy, NestAt, Nested;
    var e := m'.heads[q].elems[i];
    var written := Write(m', Elem(p, i), e);
    CopyBound(m, v, m', q, depth);
    CopyAfterWrite(m, v, m', Points(false, q), |m.heads|, depth, Elem(p, i), e);
    CopyNests(m, v, written, Points(false, q), |m.heads|, depth);
    ElementNests(written, q, i, depth);
    StoredKeepsNested(m', p, i, e, depth - 1);
  }

  lemma {:induction false} CountPrefix(vs: seq<Value>, n: nat, h: nat)
    requires n <= |vs| && forall i :: n <= i < |vs| ==> vs[i] == Zeroed
    ensures CountIn(vs, h) == CountIn(vs[..n], h)
    decreases |vs|
  {
    if n == |vs| {
      assert vs[..n] == vs;
    } else {
      CountPrefix(vs[..|vs| - 1], n, h);
      assert vs[..|vs| - 1][..n] == vs[..n];
    }
  }

  /** Empty elements at the end of a package come and go freely. */
  lemma ResizeBalanced(m: Store, p: nat, elems: seq<Value>, held: multiset<nat>)
    requires Live(m, p) && m.heads[p].Package? && Balanced(m, held) && Nested(m.heads)
    requires forall i :: 0 <= i < |elems| && i < |m.heads[p].elems| ==> elems[i] == m.heads[p].elems[i]
    requires forall i :: |m.heads[p].elems| <= i < |elems| ==> elems[i] == Zeroed
    requires forall i :: |elems| <= i < |m.heads[p].elems| ==> m.heads[p].elems[i] == Zeroed
    ensures Balanced(m.(heads := m.heads[p := m.heads[p].(elems := elems)]), held)
    ensures Nested(m.heads[p := m.heads[p].(elems := elems)])
  {
    var after := m.(heads := m.heads[p := m.heads[p].(elems := elems)]);
    var was := m.heads[p].elems;
    var n := if |elems| < |was| then |elems| else |was|;
    assert elems[..n] == was[..n];
    forall h: nat ensures Refs(after, h) == Refs(m, h) {
      CountPrefix(elems, n, h);
      CountPrefix(was, n, h);
      CountAllUpdate(m.heads, p, after.heads[p], h);
    }
    hide Refs;
    NoDeeperNested(m.heads, after.heads);
  }

  lemma CopyIsPackage(m: Store, v: Value, m': Store, w: Value, bound: nat, depth: nat)
    requires IsCopy(m, v, m', w, bound, depth) && HoldsPackage(m, v)
    ensures HoldsPackage(m', w) && w.head >= bound
  {
  }

  /** Resizing an old package does not reach into a copy. */
  lemma {:induction false} ResizedCopy(m: Store, v: Value, m': Store, after: Store, p: nat, w: Value, depth: nat,
                                       held: multiset<nat>)
    requires |m'.heads| == |after.heads| && p < |m.heads| && Balanced(after, held)
    requires w.Points? ==> Live(after, w.head)
    requires forall h :: 0 <= h < |m'.heads| && h != p ==> Kept(m'.heads[h], after.heads[h])
    requires IsCopy(m, v, m', w, |m.heads|, depth)
    ensures IsCopy(m, v, after, w, |m.heads|, depth)
    decreases depth
  {
    hide Refs;
    if v.Points? && !v.isIndex {
      assert Kept(m'.heads[w.head], after.heads[w.head]);
      if m.heads[v.head].Package? {
        forall i | 0 <= i < |m.heads[v.head].elems|
          ensures IsCopy(m, m.heads[v.head].elems[i], after, after.heads[w.head].elems[i], |m.heads|, depth - 1)
        {
          var e := after.heads[w.head].elems[i];
          if e.Points? { PointerIsLive(after, Elem(w.head, i), held); }
          ResizedCopy(m, m.heads[v.head].elems[i], m', after, p, e, depth - 1, held);
        }
      }
    }
  }

  /** A head with one reference, held by one variable, is in no other slot. */
  lemma OnlyReference(m: Store, s: Slot, other: Slot, held: multiset<nat>)
    requires IsSlot(m, s) && IsSlot(m, other) && s != other && s.Var? && Balanced(m, held)
    requires Read(m, s).Points? && Live(m, Read(m, s).head) && m.heads[Read(m, s).head].rc == 1
    ensures !(Read(m, other).Points? && Read(m, other).head == Read(m, s).head)
  {
    hide Refs;
    var h := Read(m, s).head;
    var without := Write(m, s, Zeroed);
    WriteRefs(m, s, Zeroed, h);
    WriteRefs(without, other, Zeroed, h);
  }

  /** What does not reach a package is not affected by a store into it. */
  lemma {:induction false} UnreachedNests(m: Store, s: Slot, p: nat, i: nat, w: Value, x: Value, depth: nat,
                                          held: multiset<nat>)
    requires IsSlot(m, s) && s.Var? && Read(m, s).Points? && Read(m, s).head == p && Balanced(m, held)
    requires IsSlot(m, Elem(p, i)) && m.heads[p].rc == 1
    requires Nests(m.heads, x, depth) && !(x.Points? && x.head == p)
    ensures Nests(Write(m, Elem(p, i), w).heads, x, depth)
    decreases depth
  {
    hide Refs;
    if x.Points? && !x.isIndex && m.heads[x.head].Package? {
      forall j | 0 <= j < |m.heads[x.head].elems|
        ensures Nests(Write(m, Elem(p, i), w).heads, m.heads[x.head].elems[j], depth - 1)
      {
        OnlyReference(m, s, Elem(x.head, j), held);
        UnreachedNests(m, s, p, i, w, m.heads[x.head].elems[j], depth - 1, held);
      }
    }
  }

  lemma InitialisedKeepsNested(m: Store, package: nat, p: nat, i: nat, v: Value, held: multiset<nat>)
    requires package < |m.vars| && m.vars[package].Points? && m.vars[package].head == p && Balanced(m, held)
    requires IsSlot(m, Elem(p, i)) && m.heads[p].rc == 1 && Nested(m.heads)
    requires !(v.Points? && v.head == p) && (v.Points? ==> Live(m, v.head))
    ensures Nested(Write(Counted(m, v), Elem(p, i), v).heads)
  {
    hide Refs, NestAt, Nests, Balanced;
    var depth := NestedDepth(m, v);
    UnreachedNests(m, Var(package), p, i, v, v, depth, held);
    CountedExtends(m, v);
    NoDeeperNests(Write(m, Elem(p, i), v).heads, Write(Counted(m, v), Elem(p, i), v).heads, v, depth);
    StoredKeepsNested(Counted(m, v), p, i, v, depth);
  }

  // ------------------------------------------------------------------------------------
  // Sequences of operations.
  // ------------------------------------------------------------------------------------

  lemma AssignLeavesNoneDying(m: Store, dest: Slot, src: Slot)
    requires IsSlot(m, dest) && IsSlot(m, src)
    ensures NoneDying(m) ==> NoneDying(AfterAssign(m, dest, src))
  {
  }

  /** Dropping references leaves no dying head behind. */
  lemma DroppedLeavesNoneDying(m: Store, after: Store)
    requires Dropped(m, after)
    ensures NoneDying(m) ==> NoneDying(after)
  {
  }

  datatype Operation =
    | CreatingData(dest: nat, content: seq<byte>)
    | CreatingPackage(dest: nat, n: nat)
    | Initialising(package: nat, i: nat, initializer: nat)
    | Finalizing(v: nat)
    | Moving(dest: nat, src: nat)
    | Assigning(dest: nat, src: nat)
    | Loading(dest: nat, head: nat, i: nat)
    | Indexing(dest: nat, src: nat)
    | Cloning(dest: nat, src: nat)
    | Storing(place: Slot, src: nat)
    | Mutating(target: nat, src: nat)

  /** Whether an operation can be executed now: its variables exist and hold what it needs. */
  predicate Enabled(m: Store, op: Operation) {
    match op
    case CreatingData(dest, _) => dest < |m.vars|
    case CreatingPackage(dest, _) => dest < |m.vars|
    case Initialising(package, i, initializer) =>
      && package < |m.vars| && initializer < |m.vars| && package != initializer && m.vars[package].Points?
      && IsSlot(m, Elem(m.vars[package].head, i)) && m.heads[m.vars[package].head].rc == 1
    case Finalizing(v) => v < |m.vars|
    case Moving(dest, src) => dest < |m.vars| && src < |m.vars|
    case Assigning(dest, src) => dest < |m.vars| && src < |m.vars|
    case Loading(dest, head, i) => dest < |m.vars| && IsSlot(m, Elem(head, i))
    case Indexing(dest, src) => dest < |m.vars| && src < |m.vars| && m.vars[src].Points?
    case Cloning(dest, src) => dest < |m.vars| && src < |m.vars|
    case Storing(place, src) => IsSlot(m, place) && src < |m.vars|
    case Mutating(target, src) =>
      && target < |m.vars| && HoldsPackage(m, m.vars[target]) && src < |m.vars| && HoldsPackage(m, m.vars[src])
  }

  /** A store over a package from a package in which some element points at something. */
  predicate Loses(m: Store, op: Operation)
    requires Enabled(m, op)
  {
    op.Mutating? && !NoPointers(m.heads[m.vars[op.src].head].elems)
  }

  /** One operation of the interpreter on its variables and packages. */
  method Apply(heap: Heap, op: Operation, ghost held: multiset<nat>) returns (ghost lost: multiset<nat>)
    requires heap.Valid(held) && Enabled(heap.Current(), op)
    modifies heap
    ensures heap.Valid(held + lost) && (lost == multiset{} <==> !old(Loses(heap.Current(), op)))
  {
    hide Refs, NestAt, Nests, IsCopy;
    lost := multiset{};
    assert held + lost == held;
    match op {
      case CreatingData(dest, content) => heap.Create(dest, Leaf(1, content), held);
      case CreatingPackage(dest, n) => heap.Create(dest, Package(1, seq(n, _ => Zeroed)), held);
      case Initialising(package, i, initializer) => heap.Initialise(package, i, initializer, held);
      case Finalizing(v) => heap.Finalize(Var(v), held);
      case Moving(dest, src) => heap.Move(Var(dest), Var(src), held);
      case Assigning(dest, src) => heap.Assign(Var(dest), Var(src), held);
      case Loading(dest, head, i) => heap.LoadElement(dest, head, i, held);
      case Indexing(dest, src) => heap.Index(dest, src, held);
      case Cloning(dest, src) => heap.Clone(Var(dest), Var(src), held);
      case Storing(place, src) =>
        var result := heap.StoreClone(place, Var(src), held);
        heap.Drop(result, held);
      case Mutating(target, src) =>
        var result;
        result, lost := heap.StorePackage(target, Var(src), held);
        heap.Drop(result, held + lost);
    }
  }

  /** Whatever the interpreter does with its variables and packages, in whatever order, starting with
      empty variables: no package ever contains itself, a freed head is in no slot, and every count is
      the number of slots plus the references that stores over packages have lost. */
  method Replay(n: nat, operations: seq<Operation>) returns (heap: Heap, ghost lost: multiset<nat>)
    ensures fresh(heap) && heap.Valid(lost)
    ensures forall h: nat :: Live(heap.Current(), h) ==> heap.heads[h].rc == Refs(heap.Current(), h) + lost[h] > 0
    ensures forall h: nat :: h < |heap.heads| && !Live(heap.Current(), h) ==> Refs(heap.Current(), h) == 0
    ensures (forall i :: 0 <= i < |operations| ==> !operations[i].Mutating?) ==> lost == multiset{}
  {
    hide Refs, NestAt, Enabled;
    heap := new Heap(n);
    lost := multiset{};
    for i := 0 to |operations|
      invariant fresh(heap) && heap.Valid(lost)
      invariant (forall j :: 0 <= j < i ==> !operations[j].Mutating?) ==> lost == multiset{}
    {
      if Enabled(Store(heap.vars, heap.heads), operations[i]) {
        ghost var more := Apply(heap, operations[i], lost);
        lost := lost + more;
      }
    }
  }

  lemma LostIsCounted(m: Store, lost: multiset<nat>, h: nat)
    requires Balanced(m, lost) && lost[h] > 0
    ensures Live(m, h) && m.heads[h].rc > Refs(m, h)
  {
  }

  /** An empty package and a package with one string. */
  method TwoPackages() returns (heap: Heap)
    ensures fresh(heap) && heap.Valid(multiset{})
    ensures heap.vars == [Points(false, 0), Points(false, 1), Points(false, 2)]
    ensures heap.heads == [Package(1, []), Package(1, [Points(false, 2)]), Leaf(2, [])]
  {
    hide Refs, NestAt, Nests, Nested, Balanced, NoneDying;
    heap := new Heap(3);
    heap.Create(0, Package(1, []), multiset{});
    heap.Create(1, Package(1, [Zeroed]), multiset{});
    heap.Create(2, Leaf(1, []), multiset{});
    heap.Initialise(1, 0, 2, multiset{});
    assert heap.heads[1].elems == [Points(false, 2)];
  }

  /** The second is stored over the first, and all variables are finalized: the string stays in use
      although no variable is left. */
  method LosesString() returns (heap: Heap)
    ensures fresh(heap) && heap.vars == [Zeroed, Zeroed, Zeroed]
    ensures exists h: nat :: Live(heap.Current(), h) && heap.heads[h].rc > Refs(heap.Current(), h)
  {
    hide Refs, DeepCopy, Nested, Balanced, NoneDying, HeldIn, Pointers, Kept;
    heap := TwoPackages();
    var result;
    ghost var lost;
    assert heap.heads[1].elems[0].Points?;
    result, lost := heap.StorePackage(0, Var(1), multiset{});
    ghost var h :| h in lost;
    DropAll(heap, result, lost);
    LostIsCounted(heap.Current(), lost, h);
  }

  /** The result of the store and the three variables are finalized. */
  method DropAll(heap: Heap, result: Value, ghost lost: multiset<nat>)
    requires |heap.vars| == 3 && heap.Valid(multiset{} + lost + Held(result))
    modifies heap
    ensures heap.Valid(lost) && heap.vars == [Zeroed, Zeroed, Zeroed]
  {
    hide Refs, Nested, Balanced, NoneDying, Kept;
    assert multiset{} + lost + Held(result) == lost + Held(result);
    heap.Drop(result, lost);
    heap.Finalize(Var(0), lost);
    heap.Finalize(Var(1), lost);
    heap.Finalize(Var(2), lost);
  }
}

/** The growable stacks of `core/exec_impl.h`: a base array, a pointer and a capacity that doubles. */
module Stacks {
  import opened Outcomes

  /** The context, block and execution stacks; `top` is the index of the last item, -1 when empty. */
  class Stack<T> {
    var base: array<T>
    var top: int
    const blank: T

    ghost predicate Valid()
      reads this, base
    {
      0 < base.Length && -1 <= top < base.Length
    }

    ghost function Contents(): seq<T>
      reads this, base
      requires Valid()
    {
      base[..top + 1]
    }

    constructor (capacity: nat, zero: T)
      requires capacity > 0
      ensures Valid() && Contents() == [] && base.Length == capacity && fresh(base)
    {
      base, top, blank := new T[capacity](_ => zero), -1, zero;
    }

    /** Makes room for one item. */
    method Reserve()
      requires Valid()
      modifies this
      ensures Valid() && Contents() == old(Contents()) && top + 1 < base.Length
      ensures if old(top + 1 < base.Length) then base == old(base)
              else fresh(base) && base.Length == old(2 * base.Length)
    {
      if top + 1 == base.Length {
        var larger := new T[2 * base.Length](_ => blank);
        forall i | 0 <= i < top + 1 { larger[i] := base[i]; }
        base := larger;
      }
    }

    /** The code asserts that there is room. */
    method Push(item: T)
      requires Valid() && top + 1 < base.Length
      modifies this`top, base
      ensures Valid() && base == old(base) && Contents() == old(Contents()) + [item]
    {
      top := top + 1;
      base[top] := item;
    }

    /** The item `n` places below the last one. */
    method Peek(n: nat) returns (item: Option<T>)
      requires Valid()
      ensures item == if n < |Contents()| then Some(Contents()[|Contents()| - 1 - n]) else None
    {
      if top - n < 0 { return None; }
      return Some(base[top - n]);
    }

    /** The last item is changed in place. */
    method Update(item: T)
      requires Valid() && Contents() != []
      modifies base
      ensures Valid() && Contents() == old(Contents()[..|Contents()| - 1]) + [item]
    {
      base[top] := item;
    }

    method Pop()
      requires Valid() && Contents() != []
      modifies this`top
      ensures Valid() && Contents() == old(Contents()[..|Contents()| - 1])
    {
      top := top - 1;
    }
  }

  /** The capacity after `lai_exec_reserve_opstack_n`: every round of its loop asks for one free
      slot, so that only the first one can do anything. */
  function CapacityAfter(count: nat, capacity: nat, n: nat): nat {
    if n > 0 && count == capacity then 2 * capacity else capacity
  }

  /** The operand stack; `count` is the number of operands. */
  class OperandStack<T> {
    var base: array<T>
    var count: nat
    const blank: T

    ghost predicate Valid()
      reads this, base
    {
      0 < base.Length && count <= base.Length
    }

    ghost function Contents(): seq<T>
      reads this, base
      requires Valid()
    {
      base[..count]
    }

    constructor (capacity: nat, zero: T)
      requires capacity > 0
      ensures Valid() && Contents() == [] && base.Length == capacity && fresh(base)
    {
      base, count, blank := new T[capacity](_ => zero), 0, zero;
    }

    method Reserve()
      requires Valid()
      modifies this
      ensures Valid() && Contents() == old(Contents()) && count < base.Length
      ensures if old(count < base.Length) then base == old(base)
              else fresh(base) && base.Length == old(2 * base.Length)
    {
      if count == base.Length {
        var larger := new T[2 * base.Length](_ => blank);
        forall i | 0 <= i < count { larger[i] := base[i]; }
        base := larger;
      }
    }

    /** `lai_exec_reserve_opstack_n`. */
    method ReserveMany(n: nat)
      requires Valid()
      modifies this
      ensures Valid() && Contents() == old(Contents())
      ensures base.Length == CapacityAfter(old(count), old(base.Length), n)
      ensures base == old(base) || fresh(base)
    {
      var left := n;
      while left > 0
        invariant 0 <= left <= n && Valid() && Contents() == old(Contents())
        invariant base.Length == CapacityAfter(old(count), old(base.Length), n - left)
        invariant base == old(base) || fresh(base)
      {
        Reserve();
        left := left - 1;
      }
    }

    method Push(operand: T)
      requires Valid() && count < base.Length
      modifies this`count, base
      ensures Valid() && base == old(base) && Contents() == old(Contents()) + [operand]
    {
      base[count] := operand;
      count := count + 1;
    }

    method Get(n: nat) returns (operand: T)
      requires Valid() && n < |Contents()|
      ensures operand == Contents()[n]
    {
      operand := base[n];
    }

    method Pop(n: nat)
      requires Valid() && n <= |Contents()|
      modifies this`count
      ensures Valid() && Contents() == old(Contents()[..|Contents()| - n])
    {
      count := count - n;
    }
  }

  /** Reserving for `n` operands guarantees room for `n` pushes, however full the stack is, if and
      only if `n` is at most one. */
  lemma ReserveManySufficesExactly(n: nat, capacity: nat)
    requires capacity > 0
    ensures (forall count: nat :: count <= capacity ==> n <= CapacityAfter(count, capacity, n) - count) <==> n <= 1
  {
    if n > 1 { assert CapacityAfter(capacity - 1, capacity, n) - (capacity - 1) == 1; }
  }

  /** For one call: there is room exactly if the stack was full and doubling is enough, or enough
      slots were free before. */
  lemma RoomAfterReserveMany(n: nat, count: nat, capacity: nat)
    requires count <= capacity && n > 0
    ensures n <= CapacityAfter(count, capacity, n) - count
            <==> (if count == capacity then n <= capacity else count + n <= capacity)
  {
  }
}

/** Operators: the byte machine's reductions and the evaluator's table mean the same. */
module OperatorRefinement {
  import opened Outcomes
  import opened Namespace
  import opened Opcodes
  import opened Operators
  import opened Syntax
  import M = Machine
  import E = Evaluator

  function AsOperands(vs: seq<Object>): (operands: seq<Operand>)
    ensures |operands| == |vs| && forall i :: 0 <= i < |vs| ==> operands[i] == Value(vs[i])
  {
    seq(|vs|, i requires 0 <= i < |vs| => Value(vs[i]))
  }

  lemma StoreOne(env: Env, t: Operand, v: Object, keepType: bool)
    ensures E.StoreAll(env, [t], [v], keepType) == StoreTo(env, t, v, keepType)
  {
    var r := StoreTo(env, t, v, keepType);
    if r.Ok? {
      assert E.StoreAll(r.value, [t][1..], [v][1..], keepType) == Ok(r.value);
    }
  }

  lemma StoreTwo(env: Env, t: seq<Operand>, v: seq<Object>)
    requires |t| == |v| == 2
    ensures E.StoreAll(env, t, v, true)
         == (var env1 :- Mutate(env, t[0], v[0]); Mutate(env1, t[1], v[1]))
  {
    var r := Mutate(env, t[0], v[0]);
    if r.Ok? {
      assert t[1..] == [t[1]] && v[1..] == [v[1]];
      StoreOne(r.value, t[1], v[1], true);
    }
  }

  /** `lai_exec_reduce_op` computes the operator's result and stores it to every target. */
  lemma ReductionMeaning(op: Operator, vs: seq<Object>, targets: seq<Operand>, env: Env)
    requires |vs| == ValueCount(op) && |targets| == TargetCount(op)
    ensures M.ReduceOp(op, env, AsOperands(vs) + targets) == E.ApplyOperator(op, vs, targets, env)
  {
    var operands := AsOperands(vs) + targets;
    forall i | 0 <= i < |targets| ensures operands[|vs| + i] == targets[i] {}
    var result := E.ApplyOperator(op, vs, targets, env);
    if op in {INCREMENT_OP, DECREMENT_OP} {
      var v := Load(env, targets[0]);
      if v.Ok? && v.value.Integer? {
        var r := E.Meaning(op, [v.value]);
        assert targets == [targets[0]];
        StoreOne(env, targets[0], r.value.0, true);
      }
    } else {
      var m := E.Meaning(op, vs);
      if m.Ok? {
        if |targets| == 1 {
          assert targets == [targets[0]] && m.value.1 == [m.value.1[0]];
          StoreOne(env, targets[0], m.value.1[0], op != COPYOBJECT_OP);
        } else if |targets| == 2 {
          StoreTwo(env, targets, m.value.1);
        }
      }
    }
  }
}

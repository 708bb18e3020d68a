/** One evaluation followed by another: what a relation between values that kernels keep says of programs. */
module Simulation {
  import opened Fhn
  import opened Sets
  import opened Decomposition

  /** The same slots are used, and their values are related. */
  ghost predicate Matches<V, W>(related: (V, W) -> bool, args: seq<Option<V>>, others: seq<Option<W>>) {
    && |args| == |others| == 4
    && forall j :: 0 <= j < 4 ==>
         (args[j].Some? <==> others[j].Some?) && (args[j].Some? ==> related(args[j].value, others[j].value))
  }

  /** On related operands an opcode's kernels give related results. */
  ghost predicate Follows<V(!new), W(!new)>(related: (V, W) -> bool, k: Kernel<V>, other: Kernel<W>, op: Opcode) {
    forall args, others, param, scalar :: Matches(related, args, others) ==>
      related(k(op, args, param, scalar), other(op, others, param, scalar))
  }

  ghost predicate AllRelated<V, W>(related: (V, W) -> bool, vals: map<Id, V>, others: map<Id, W>) {
    vals.Keys == others.Keys && forall x :: x in vals ==> x in others && related(vals[x], others[x])
  }

  lemma {:induction false} ComputeFollows<V(!new), W(!new)>(
      related: (V, W) -> bool, k: Kernel<V>, other: Kernel<W>, inst: Instruction, vals: map<Id, V>, others: map<Id, W>)
    requires AllRelated(related, vals, others) && Follows(related, k, other, inst.opcode)
    ensures related(Compute(k, inst, vals), Compute(other, inst, others))
  {
    assert Matches(related, OperandValues(inst, vals), OperandValues(inst, others));
  }

  /** Then programs evaluated from related inputs have related values throughout. */
  lemma {:induction false} EvalFollows<V(!new), W(!new)>(
      related: (V, W) -> bool, ks: Kernels<V>, other: Kernel<W>, p: Program, inputs: map<Id, V>, others: map<Id, W>,
      i: nat)
    requires i <= |p.insts| && AllRelated(related, inputs, others)
    requires forall j :: 0 <= j < |p.insts| ==> Follows(related, ks(p.insts[j].resultId), other, p.insts[j].opcode)
    ensures AllRelated(related, Eval(ks, p, inputs, i), Eval(Always(other), p, others, i))
  {
    hide Follows; hide Compute; hide Eval;
    if i == 0 {
      EvalStart(ks, p, inputs);
      EvalStart(Always(other), p, others);
    } else {
      var inst := p.insts[i - 1];
      EvalFollows(related, ks, other, p, inputs, others, i - 1);
      EvalStep(ks, p, inputs, i - 1);
      EvalStep(Always(other), p, others, i - 1);
      ComputeFollows(related, ks(inst.resultId), other, inst, Eval(ks, p, inputs, i - 1),
        Eval(Always(other), p, others, i - 1));
    }
  }
}

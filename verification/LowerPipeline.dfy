/** Lowering followed by no-op removal. */
module LowerPipeline {
  import opened Base
  import opened Tir
  import opened Te
  import opened Lower
  import LowerCorrect
  import opened LowerTheorem
  import opened RemoveNoOp

  /** The cleaned-up function computes the same outputs as the lowered one. */
  lemma CleanedLoweringCorrect(
    I: Interp, g: Graph, inp: Inputs, inputs: seq<nat>, constants: seq<nat>, outputs: seq<nat>, mem: Mem)
    returns (m: Mem)
    requires ExactInts(I) && ValidCall(g, inputs, constants, outputs) && FreshAxes(g)
    requires Lowered(g, inputs, constants, outputs).Ok?
    requires forall t :: t in Topo(g, outputs) ==> t < |g| && LowerCorrect.Defined(I, g, inp, t)
    requires CallerMemory(I, g, inp, inputs + constants, outputs, mem)
    ensures Exec(I, Remove(Lowered(g, inputs, constants, outputs).value.body), map[], mem) == Some(m)
    ensures m.Keys == mem.Keys && forall b :: 0 <= b < |inputs + constants| ==> m[b] == mem[b]
    ensures OutputsHold(I, g, inp, outputs, |inputs + constants|, m)
  {
    hide ExactInts, Acyclic, FreshAxes, CallerMemory, OutputsHold, Lowered, Remove;
    m := LoweringCorrect(I, g, inp, inputs, constants, outputs, mem);
    RemoveRefines(I, Lowered(g, inputs, constants, outputs).value.body, map[], mem);
  }
}

/** The stack IR the compiler emits. The instructions for calls, floats, shifts and conversions are not modelled. */
module Ir {
  import opened Words

  datatype Instruction =
    | I32Const(value: I32) | I64Const(wide: int)
    | I32Load(offset: nat) | I32Load8S(offset: nat) | I32Load16S(offset: nat) | I64Load(offset: nat)
    | I32Store(offset: nat) | I32Store8(offset: nat) | I32Store16(offset: nat) | I64Store(offset: nat)
    | LocalGet(index: nat) | LocalSet(index: nat)
    | I32Add | I32Sub | I32Mul | I32DivS | I32RemS
    | I64Add | I64Sub | I64Mul | I64DivS
    | I32Eq | I32Ne | I32LtS | I32LeS | I32GtS | I32GeS | I32Eqz
    | I32And | I32Or | I32Xor
    | Br(target: nat) | BrIf(target: nat)
    | Block | Loop | If | Else | End
    | Return

  type Code = seq<Instruction>

  /** `c` stands in `code` from position `pc` on. */
  ghost predicate At(code: Code, pc: nat, c: Code)
  {
    pc + |c| <= |code| && code[pc..pc + |c|] == c
  }

  lemma AtFirst(code: Code, pc: nat, c: Code)
    requires At(code, pc, c) && |c| > 0
    ensures pc < |code| && code[pc] == c[0]
  {
    assert code[pc..pc + |c|][0] == code[pc];
  }

  /** A concatenation stands at `pc` exactly if its parts stand one after the other. */
  lemma AtAppend(code: Code, pc: nat, a: Code, b: Code)
    ensures At(code, pc, a + b) <==> At(code, pc, a) && At(code, pc + |a|, b)
  {
    if At(code, pc, a + b) {
      assert code[pc..pc + |a|] == (a + b)[..|a|];
      assert code[pc + |a|..pc + |a| + |b|] == (a + b)[|a|..];
    }
    if At(code, pc, a) && At(code, pc + |a|, b) {
      assert code[pc..pc + |a + b|] == code[pc..pc + |a|] + code[pc + |a|..pc + |a| + |b|];
    }
  }
}

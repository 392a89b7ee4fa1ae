/** P-code operations and the operand visitors of `pcode-ir`. The many one-input and
    two-input variants, which every visitor treats alike, are `Unary` and `Binary`
    tagged with their opcode. */
module Pcode {
  import opened Options

  datatype Space = Register | Ram | Unique | Const

  /** A storage location or constant: `size` bytes at `offset` of `space`. For a
      constant the offset is the value itself. */
  datatype Varnode = Varnode(space: Space, offset: nat, size: nat)

  function Constant(value: nat, size: nat): Varnode {
    Varnode(Const, value, size)
  }

  datatype UnaryOp =
    | IntNeg | IntNot | IntZext | IntSext | BoolNot | Popcount | Lzcount
    | FloatNeg | FloatAbs | FloatSqrt | FloatNan | Int2Float | Float2Float | Trunc
    | FloatCeil | FloatFloor | FloatRound

  datatype BinaryOp =
    | IntAdd | IntSub | IntMult | IntDiv | IntSDiv | IntRem | IntSRem
    | IntEq | IntNotEq | IntLess | IntLessEq | IntSLess | IntSLessEq
    | IntAnd | IntOr | IntXor | IntLsl | IntLsr | IntAsr
    | IntCarry | IntSCarry | IntSBorrow | BoolAnd | BoolOr | BoolXor
    | FloatAdd | FloatSub | FloatMult | FloatDiv
    | FloatEq | FloatNotEq | FloatLess | FloatLessEq

  datatype Op =
    | Copy(out: Varnode, input: Varnode)
    | Load(out: Varnode, space: Space, ptr: Varnode)
    | Store(space: Space, ptr: Varnode, val: Varnode)
    | Branch(dest: Varnode)
    | CBranch(dest: Varnode, cond: Varnode)
    | BranchInd(dest: Varnode)
    | Call(dest: Varnode)
    | CallInd(dest: Varnode)
    | Return(dest: Varnode)
    | Unary(unop: UnaryOp, out: Varnode, input: Varnode)
    | Binary(binop: BinaryOp, out: Varnode, left: Varnode, right: Varnode)
    | Subpiece(out: Varnode, input: Varnode, lsb: nat)
    | CallOther(result: Option<Varnode>, funcId: nat, inputs: seq<Varnode>)

  /** The output reported to the passes; a `CallOther` result is not reported. */
  function GetOutput(op: Op): Option<Varnode> {
    match op
    case Copy(out, _) => Some(out)
    case Load(out, _, _) => Some(out)
    case Unary(_, out, _) => Some(out)
    case Binary(_, out, _, _) => Some(out)
    case Subpiece(out, _, _) => Some(out)
    case _ => None
  }

  function WithOutput(op: Op, v: Varnode): (r: Op)
    ensures GetOutput(op).Some? ==> GetOutput(r) == Some(v)
    ensures Reads(r) == Reads(op)
  {
    match op
    case Copy(_, input) => Copy(v, input)
    case Load(_, space, ptr) => Load(v, space, ptr)
    case Unary(k, _, input) => Unary(k, v, input)
    case Binary(k, _, left, right) => Binary(k, v, left, right)
    case Subpiece(_, input, lsb) => Subpiece(v, input, lsb)
    case _ => op
  }

  /** Unlike `GetOutput`, this sees the result of a `CallOther`. */
  predicate WritesTo(op: Op, target: Varnode) {
    GetOutput(op) == Some(target) || (op.CallOther? && op.result == Some(target))
  }

  /** The operands `visit_reads` visits, in order. */
  function Reads(op: Op): seq<Varnode> {
    match op
    case Copy(_, input) => [input]
    case Load(_, _, ptr) => [ptr]
    case Store(_, ptr, val) => [ptr, val]
    case Branch(dest) => [dest]
    case CBranch(dest, cond) => [dest, cond]
    case BranchInd(dest) => [dest]
    case Call(dest) => [dest]
    case CallInd(dest) => [dest]
    case Return(dest) => [dest]
    case Unary(_, _, input) => [input]
    case Binary(_, _, left, right) => [left, right]
    case Subpiece(_, input, _) => [input]
    case CallOther(_, _, inputs) => inputs
  }

  function Occurrences(s: seq<Varnode>, v: Varnode): (n: nat)
    ensures n > 0 <==> v in s
  {
    if s == [] then 0
    else Occurrences(s[..|s| - 1], v) + (if s[|s| - 1] == v then 1 else 0)
  }

  function CountReads(op: Op, target: Varnode): (n: nat)
    ensures n > 0 <==> target in Reads(op)
  {
    Occurrences(Reads(op), target)
  }

  function Subst(v: Varnode, target: Varnode, repl: Varnode): Varnode {
    if v == target then repl else v
  }

  function SubstAll(vs: seq<Varnode>, target: Varnode, repl: Varnode): (r: seq<Varnode>)
    ensures |r| == |vs| && forall k :: 0 <= k < |vs| ==> r[k] == Subst(vs[k], target, repl)
  {
    seq(|vs|, k requires 0 <= k < |vs| => Subst(vs[k], target, repl))
  }

  function ReplaceReads(op: Op, target: Varnode, repl: Varnode): (r: Op)
    ensures GetOutput(r) == GetOutput(op)
    ensures forall v :: WritesTo(r, v) <==> WritesTo(op, v)
    ensures Reads(r) == SubstAll(Reads(op), target, repl)
  {
    match op
    case Copy(out, input) => Copy(out, Subst(input, target, repl))
    case Load(out, space, ptr) => Load(out, space, Subst(ptr, target, repl))
    case Store(space, ptr, val) => Store(space, Subst(ptr, target, repl), Subst(val, target, repl))
    case Branch(dest) => Branch(Subst(dest, target, repl))
    case CBranch(dest, cond) => CBranch(Subst(dest, target, repl), Subst(cond, target, repl))
    case BranchInd(dest) => BranchInd(Subst(dest, target, repl))
    case Call(dest) => Call(Subst(dest, target, repl))
    case CallInd(dest) => CallInd(Subst(dest, target, repl))
    case Return(dest) => Return(Subst(dest, target, repl))
    case Unary(k, out, input) => Unary(k, out, Subst(input, target, repl))
    case Binary(k, out, left, right) =>
      Binary(k, out, Subst(left, target, repl), Subst(right, target, repl))
    case Subpiece(out, input, lsb) => Subpiece(out, Subst(input, target, repl), lsb)
    case CallOther(result, funcId, inputs) =>
      CallOther(result, funcId, SubstAll(inputs, target, repl))
  }

  function RemoveAt<T>(s: seq<T>, i: nat): (r: seq<T>)
    requires i < |s|
    ensures |r| == |s| - 1
    ensures forall k :: 0 <= k < i ==> r[k] == s[k]
    ensures forall k :: i <= k < |r| ==> r[k] == s[k + 1]
  {
    s[..i] + s[i + 1..]
  }

  predicate IsControl(op: Op) {
    op.Branch? || op.CBranch? || op.BranchInd? || op.Call? || op.CallInd? || op.Return?
  }

  /** `JMP [expr]` is a transfer through a Ram varnode whose offset names the
      temporary that holds the computed address. */
  predicate IsThroughRam(op: Op) {
    (op.BranchInd? || op.CallInd?) && op.dest.space == Ram
  }
}

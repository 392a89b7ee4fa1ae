/** An execution semantics for straight-line P-code, after Ghidra's P-Code Reference
    Manual. Opcodes the optimizer never evaluates, memory accesses and user-defined
    operations are interpreted by an arbitrary `Machine`. */
module Semantics {
  import opened Words
  import opened Options
  import opened Pcode

  type Memory = map<(Space, nat), nat>

  /** Everything about the processor the optimizer does not look at. */
  datatype Machine = Machine(
    addressSize: nat,
    unary: (UnaryOp, nat, nat, nat) -> nat,
    binary: (BinaryOp, nat, nat, nat, nat) -> nat,
    load: (Memory, Space, nat, nat) -> nat,
    store: (Memory, Space, nat, nat, nat) -> Memory,
    other: (nat, seq<nat>, Memory) -> (nat, Memory))

  /** A machine to show that something goes wrong on. */
  function Idle(): Machine {
    Machine(0, (k, o, i, v) => 0, (k, o, i, a, b) => 0, (mem, sp, a, n) => 0,
            (mem, sp, a, v, n) => mem, (id, vs, mem) => (0, mem))
  }

  datatype Kind = Jump | CondJump | IndirectJump | DirectCall | IndirectCall | Ret

  /** A control transfer: what it is, whether it is taken, and where it goes. */
  datatype Exit = Exit(kind: Kind, taken: bool, target: nat)

  datatype State = State(vals: map<Varnode, nat>, mem: Memory, exits: seq<Exit>)

  function Get(s: State, v: Varnode): (r: nat)
    ensures r < Capacity(v.size)
  {
    if v.space == Const then Wrap(v.offset, v.size)
    else if v in s.vals then Wrap(s.vals[v], v.size)
    else 0
  }

  function Set(s: State, v: Varnode, x: nat): State {
    s.(vals := s.vals[v := x])
  }

  function GetAll(s: State, vs: seq<Varnode>): (r: seq<nat>)
    ensures |r| == |vs| && forall k :: 0 <= k < |vs| ==> r[k] == Get(s, vs[k])
  {
    seq(|vs|, k requires 0 <= k < |vs| => Get(s, vs[k]))
  }

  function Flag(b: bool): nat {
    if b then 1 else 0
  }

  function EvalUnary(m: Machine, k: UnaryOp, outSize: nat, inSize: nat, x: nat): nat {
    match k
    case IntNeg => Wrap(0 - x, outSize)
    case IntNot => Wrap(-1 - x, outSize)
    case IntZext => x
    case IntSext => if inSize == 0 then 0 else Wrap(Signed(x, inSize), outSize)
    case BoolNot => Flag(x == 0)
    case _ => m.unary(k, outSize, inSize, x)
  }

  /** Operands of `IntSLess` and `IntSLessEq` have one common size, `size`, which is
      also the size of the shifted operand. */
  function EvalBinary(m: Machine, k: BinaryOp, outSize: nat, size: nat, a: nat, b: nat): nat {
    match k
    case IntAdd => Wrap(a + b, outSize)
    case IntSub => Wrap(a - b, outSize)
    case IntMult => Wrap(a * b, outSize)
    case IntAnd => BitAnd(a, b)
    case IntOr => BitOr(a, b)
    case IntXor => BitXor(a, b)
    case IntLsl => Wrap(a * Pow2(b), outSize)
    case IntLsr => ShiftRight(a, b)
    case IntAsr => if size == 0 then 0 else Wrap(ShiftRight(Signed(a, size), b), outSize)
    case IntEq => Flag(a == b)
    case IntNotEq => Flag(a != b)
    case IntLess => Flag(a < b)
    case IntLessEq => Flag(a <= b)
    case IntSLess => Flag(size != 0 && Signed(a, size) < Signed(b, size))
    case IntSLessEq => Flag(size != 0 && Signed(a, size) <= Signed(b, size))
    case BoolAnd => Flag(a != 0 && b != 0)
    case BoolOr => Flag(a != 0 || b != 0)
    case BoolXor => Flag((a != 0) != (b != 0))
    case _ => m.binary(k, outSize, size, a, b)
  }

  /** The value an operation with a reported output computes. */
  function Result(m: Machine, op: Op, s: State): nat
    requires GetOutput(op).Some?
  {
    match op
    case Copy(_, input) => Get(s, input)
    case Load(out, space, ptr) => m.load(s.mem, space, Get(s, ptr), out.size)
    case Unary(k, out, input) => EvalUnary(m, k, out.size, input.size, Get(s, input))
    case Binary(k, out, left, right) =>
      EvalBinary(m, k, out.size, left.size, Get(s, left), Get(s, right))
    case Subpiece(out, input, lsb) => ShiftRight(Get(s, input), 8 * lsb)
  }

  /** The temporary whose value is the address of a transfer through memory. */
  function AddressHolder(m: Machine, dest: Varnode): Varnode {
    Varnode(Unique, dest.offset, m.addressSize)
  }

  function IndirectTarget(m: Machine, dest: Varnode, s: State): nat {
    if dest.space == Ram then m.load(s.mem, Ram, Get(s, AddressHolder(m, dest)), dest.size)
    else Get(s, dest)
  }

  function DirectTarget(dest: Varnode, s: State): nat {
    if dest.space == Ram then dest.offset else Get(s, dest)
  }

  function Transfer(m: Machine, op: Op, s: State): Exit
    requires IsControl(op)
  {
    match op
    case Branch(dest) => Exit(Jump, true, DirectTarget(dest, s))
    case CBranch(dest, cond) => Exit(CondJump, Get(s, cond) != 0, DirectTarget(dest, s))
    case BranchInd(dest) => Exit(IndirectJump, true, IndirectTarget(m, dest, s))
    case Call(dest) => Exit(DirectCall, true, DirectTarget(dest, s))
    case CallInd(dest) => Exit(IndirectCall, true, IndirectTarget(m, dest, s))
    case Return(dest) => Exit(Ret, true, Get(s, dest))
  }

  /** What a step does to a state: a write, the memory afterwards, and a transfer. */
  datatype Effect = Effect(write: Option<(Varnode, nat)>, mem: Memory, exit: Option<Exit>)

  function EffectOf(m: Machine, op: Op, s: State): Effect {
    if GetOutput(op).Some? then Effect(Some((GetOutput(op).value, Result(m, op, s))), s.mem, None)
    else if IsControl(op) then Effect(None, s.mem, Some(Transfer(m, op, s)))
    else match op
      case Store(space, ptr, val) =>
        Effect(None, m.store(s.mem, space, Get(s, ptr), Get(s, val), val.size), None)
      case CallOther(result, funcId, inputs) =>
        var (x, mem') := m.other(funcId, GetAll(s, inputs), s.mem);
        Effect(if result.Some? then Some((result.value, x)) else None, mem', None)
  }

  function Apply(s: State, e: Effect): State {
    State(if e.write.Some? then s.vals[e.write.value.0 := e.write.value.1] else s.vals, e.mem,
          if e.exit.Some? then s.exits + [e.exit.value] else s.exits)
  }

  /** Names an operation whose step a proof wants to look into. */
  ghost predicate Shown(op: Op) { true }

  /** `t` is `s` after `op`. Folded: it opens only for an operation named by `Shown`, which
      keeps single operations out of the proofs about whole runs. */
  ghost predicate IsStep(m: Machine, op: Op, s: State, t: State) {
    forall o {:trigger Shown(o)} :: Shown(o) && o == op ==> t == Apply(s, EffectOf(m, o, s))
  }

  ghost function Step(m: Machine, op: Op, s: State): State {
    assert IsStep(m, op, s, Apply(s, EffectOf(m, op, s)));
    var t :| IsStep(m, op, s, t);
    t
  }

  /** Execute `ops[lo..hi]`. */
  ghost function RunRange(m: Machine, ops: seq<Op>, lo: nat, hi: nat, s: State): State
    requires lo <= hi <= |ops|
    decreases hi - lo
  {
    if lo == hi then s else RunRange(m, ops, lo + 1, hi, Step(m, ops[lo], s))
  }

  ghost function Run(m: Machine, ops: seq<Op>, s: State): State {
    RunRange(m, ops, 0, |ops|, s)
  }

  /** Same registers, memory and control transfers; temporaries are dead. */
  ghost predicate SameOutcome(s: State, t: State) {
    s.mem == t.mem && s.exits == t.exits &&
    forall v: Varnode :: v.space != Unique ==> Get(s, v) == Get(t, v)
  }

  /** The meaning of a sequence: its outcome on every machine from every state. */
  ghost predicate Equivalent(p: seq<Op>, q: seq<Op>) {
    forall m, s :: SameOutcome(Run(m, p, s), Run(m, q, s))
  }

  lemma EquivalentTransitive(p: seq<Op>, q: seq<Op>, r: seq<Op>)
    requires Equivalent(p, q) && Equivalent(q, r)
    ensures Equivalent(p, r)
  {
    forall m, s ensures SameOutcome(Run(m, p, s), Run(m, r, s)) {
      assert SameOutcome(Run(m, p, s), Run(m, q, s));
      assert SameOutcome(Run(m, q, s), Run(m, r, s));
    }
  }

  // ----- reasoning about states that agree outside a set of locations -----

  ghost predicate AgreeExcept(s: State, t: State, x: set<Varnode>) {
    s.mem == t.mem && s.exits == t.exits &&
    forall v :: v !in x ==> Get(s, v) == Get(t, v)
  }

  /** Every location an operation may depend on. A transfer through Ram depends on
      the temporary its offset names, whatever the width of an address. */
  predicate Uses(op: Op, v: Varnode) {
    v in Reads(op) || (IsThroughRam(op) && v.space == Unique && v.offset == op.dest.offset)
  }

  lemma ReplaceBySelf(op: Op, u: Varnode)
    ensures ReplaceReads(op, u, u) == op
  {
    if op.CallOther? {
      assert SubstAll(op.inputs, u, u) == op.inputs;
    }
  }

  /** Look into a step. */
  lemma StepIs(m: Machine, op: Op, s: State)
    ensures Step(m, op, s) == Apply(s, EffectOf(m, op, s))
  {
    assert Shown(op);
  }

  /** A step of an operation with a reported output. */
  lemma OutputStep(m: Machine, op: Op, s: State)
    requires GetOutput(op).Some?
    ensures Step(m, op, s) == Set(s, GetOutput(op).value, Result(m, op, s))
  {
    StepIs(m, op, s);
  }

  lemma StepWrites(m: Machine, op: Op, s: State)
    ensures forall v :: WritesTo(op, v) <==> EffectOf(m, op, s).write.Some? && EffectOf(m, op, s).write.value.0 == v
  {
  }

  /** The same effect keeps two states in agreement, and makes them agree on what is
      written. */
  lemma ApplyAgrees(s: State, t: State, e: Effect, x: set<Varnode>)
    requires AgreeExcept(s, t, x)
    ensures AgreeExcept(Apply(s, e), Apply(t, e), x)
    ensures e.write.Some? ==> Get(Apply(s, e), e.write.value.0) == Get(Apply(t, e), e.write.value.0)
  {
    var s', t' := Apply(s, e), Apply(t, e);
    forall v | v !in x ensures Get(s', v) == Get(t', v) {
      assert Get(s, v) == Get(t, v);
    }
  }

  /** Operations of the same effect keep two states in agreement. */
  lemma SameEffectAgrees(m: Machine, op: Op, op': Op, s: State, t: State, x: set<Varnode>)
    requires AgreeExcept(s, t, x) && EffectOf(m, op, s) == EffectOf(m, op', t)
    ensures AgreeExcept(Step(m, op, s), Step(m, op', t), x)
    ensures forall v :: WritesTo(op, v) ==> Get(Step(m, op, s), v) == Get(Step(m, op', t), v)
  {
    StepIs(m, op, s);
    StepIs(m, op', t);
    StepWrites(m, op, s);
    ApplyAgrees(s, t, EffectOf(m, op, s), x);
  }

  /** An operation and its copy that reads `w` for `u` have the same effect when every
      operand of the one has the value of the corresponding operand of the other. */
  lemma ReplacedSameEffect(m: Machine, op: Op, u: Varnode, w: Varnode, s: State, t: State)
    requires u.size == w.size && u.space != Ram && w.space != Ram
    requires s.mem == t.mem
    requires forall v :: v in Reads(op) ==> Get(s, v) == Get(t, Subst(v, u, w))
    requires IsThroughRam(op) ==>
               Get(s, AddressHolder(m, op.dest)) == Get(t, AddressHolder(m, op.dest))
    ensures EffectOf(m, op, s) == EffectOf(m, ReplaceReads(op, u, w), t)
  {
    forall k | 0 <= k < |Reads(op)|
      ensures Get(s, Reads(op)[k]) == Get(t, Subst(Reads(op)[k], u, w))
    {
      assert Reads(op)[k] in Reads(op);
    }
    var op' := ReplaceReads(op, u, w);
    if op.CallOther? {
      assert GetAll(s, op.inputs) == GetAll(t, op'.inputs);
    } else if IsControl(op) {
      assert Transfer(m, op, s) == Transfer(m, op', t);
    }
  }

  /** An operation that uses no location in `x` has the same effect on states that agree
      outside `x`. */
  lemma UnusedSameEffect(m: Machine, op: Op, s: State, t: State, x: set<Varnode>)
    requires AgreeExcept(s, t, x)
    requires forall v :: v in x ==> !Uses(op, v)
    ensures EffectOf(m, op, s) == EffectOf(m, op, t)
  {
    if IsThroughRam(op) {
      assert Uses(op, AddressHolder(m, op.dest));
    }
    var u := Varnode(Unique, 0, 0);
    ReplaceBySelf(op, u);
    ReplacedSameEffect(m, op, u, u, s, t);
  }

  /** Stepping over an operation that uses no location in `x` keeps two states in
      agreement outside `x`, and makes them agree on what it writes. */
  lemma StepAgrees(m: Machine, op: Op, s: State, t: State, x: set<Varnode>)
    requires AgreeExcept(s, t, x)
    requires forall v :: v in x ==> !Uses(op, v)
    ensures AgreeExcept(Step(m, op, s), Step(m, op, t), x)
    ensures forall v :: WritesTo(op, v) ==> Get(Step(m, op, s), v) == Get(Step(m, op, t), v)
  {
    UnusedSameEffect(m, op, s, t, x);
    SameEffectAgrees(m, op, op, s, t, x);
  }

  /** A step changes no location it does not write. */
  lemma StepFrame(m: Machine, op: Op, s: State, v: Varnode)
    requires !WritesTo(op, v)
    ensures Get(Step(m, op, s), v) == Get(s, v)
  {
    StepIs(m, op, s);
  }

  // ----- runs -----

  lemma {:induction false} RunSplit(m: Machine, ops: seq<Op>, lo: nat, mid: nat, hi: nat, s: State)
    requires lo <= mid <= hi <= |ops|
    ensures RunRange(m, ops, lo, hi, s) == RunRange(m, ops, mid, hi, RunRange(m, ops, lo, mid, s))
    decreases mid - lo
  {
    if lo < mid {
      RunSplit(m, ops, lo + 1, mid, hi, Step(m, ops[lo], s));
    }
  }

  /** Equal stretches of two sequences, `d` positions apart, run alike. */
  lemma {:induction false} RunSame(m: Machine, p: seq<Op>, q: seq<Op>, lo: nat, hi: nat, d: int, s: State)
    requires lo <= hi <= |p| && 0 <= lo + d && hi + d <= |q|
    requires forall k :: lo <= k < hi ==> p[k] == q[k + d]
    ensures RunRange(m, p, lo, hi, s) == RunRange(m, q, lo + d, hi + d, s)
    decreases hi - lo
  {
    if lo < hi {
      RunSame(m, p, q, lo + 1, hi, d, Step(m, p[lo], s));
    }
  }

  /** A run in three stretches. */
  lemma RunThree(m: Machine, ops: seq<Op>, i: nat, j: nat, s: State)
    requires i <= j <= |ops|
    ensures Run(m, ops, s) ==
      RunRange(m, ops, j, |ops|, RunRange(m, ops, i, j, RunRange(m, ops, 0, i, s)))
  {
    RunSplit(m, ops, 0, i, |ops|, s);
    RunSplit(m, ops, i, j, |ops|, RunRange(m, ops, 0, i, s));
  }

  lemma {:induction false} RunAgrees(m: Machine, ops: seq<Op>, lo: nat, hi: nat, s: State, t: State, x: set<Varnode>)
    requires lo <= hi <= |ops| && AgreeExcept(s, t, x)
    requires forall k, v :: lo <= k < hi && v in x ==> !Uses(ops[k], v)
    ensures AgreeExcept(RunRange(m, ops, lo, hi, s), RunRange(m, ops, lo, hi, t), x)
    decreases hi - lo
  {
    if lo < hi {
      StepAgrees(m, ops[lo], s, t, x);
      RunAgrees(m, ops, lo + 1, hi, Step(m, ops[lo], s), Step(m, ops[lo], t), x);
    }
  }

  lemma {:induction false} RunFrame(m: Machine, ops: seq<Op>, lo: nat, hi: nat, s: State, v: Varnode)
    requires lo <= hi <= |ops|
    requires forall k :: lo <= k < hi ==> !WritesTo(ops[k], v)
    ensures Get(RunRange(m, ops, lo, hi, s), v) == Get(s, v)
    decreases hi - lo
  {
    if lo < hi {
      StepFrame(m, ops[lo], s, v);
      RunFrame(m, ops, lo + 1, hi, Step(m, ops[lo], s), v);
    }
  }

  lemma ConcatRun(m: Machine, p: seq<Op>, q: seq<Op>, s: State)
    ensures Run(m, p + q, s) == Run(m, q, Run(m, p, s))
  {
    var pq, n := p + q, |p|;
    RunSplit(m, pq, 0, n, |pq|, s);
    RunSame(m, p, pq, 0, n, 0, s);
    RunSame(m, q, pq, 0, |q|, n, Run(m, p, s));
  }
}

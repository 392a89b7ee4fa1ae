/** How far the hypotheses of the optimizer reach: a simple sufficient condition, and
    inputs on which the optimizer changes meaning because one of them fails. */
module Hypotheses {
  import opened Words
  import opened Options
  import opened Pcode
  import opened Semantics
  import opened Folding
  import opened Liveness
  import opened Rewrites
  import opened Discipline
  import opened Optimizer

  // ----- a sufficient condition that needs no labels -----

  function RegistersRead(ops: seq<Op>): set<Varnode> {
    set k: nat, v | k < |ops| && v in Reads(ops[k]) && v.space == Register :: v
  }

  predicate WritesRegister(op: Op, v: Varnode) {
    WritesTo(op, v) && v.space == Register
  }

  ghost predicate ReadsAndWritesApart(ops: seq<Op>) {
    forall k, v :: 0 <= k < |ops| && WritesRegister(ops[k], v) ==> v !in RegistersRead(ops)
  }

  function Written(op: Op): set<Varnode> {
    if GetOutput(op).Some? then {GetOutput(op).value}
    else if op.CallOther? && op.result.Some? then {op.result.value} else {}
  }

  function RegistersWritten(ops: seq<Op>): set<Varnode> {
    set k: nat, v | k < |ops| && v in Written(ops[k]) && v.space == Register :: v
  }

  function Temporaries(ops: seq<Op>): set<Varnode> {
    (set k: nat, v | k < |ops| && v in Reads(ops[k]) && v.space == Unique :: v) +
    (set k: nat, v | k < |ops| && v in Written(ops[k]) && v.space == Unique :: v)
  }

  ghost function AllRead(ops: seq<Op>): Labels {
    map u | u in Temporaries(ops) :: RegistersRead(ops)
  }

  ghost function AllWritten(ops: seq<Op>): Labels {
    map u | u in Temporaries(ops) :: RegistersWritten(ops)
  }

  lemma ApartFlows(ops: seq<Op>, k: nat)
    requires k < |ops| && OpsOk(ops)
    ensures OpFlowsOk(AllRead(ops), AllWritten(ops), ops[k])
  {
    if GetOutput(ops[k]).Some? {
      var o := GetOutput(ops[k]).value;
      assert OpOk(ops[k]) && o in Written(ops[k]);
      forall v | v in CopySources(ops[k]) ensures FlowOk(AllRead(ops), AllWritten(ops), v, o) {
        CopySourcesAreRead(ops[k], v);
        assert v.space == Unique ==> v in Temporaries(ops);
        assert o.space == Unique ==> o in Temporaries(ops);
      }
    }
  }

  lemma ApartStable(ops: seq<Op>, k: nat, r: Varnode)
    requires k < |ops| && ReadsAndWritesApart(ops) && r in RegistersRead(ops)
    ensures !MayWrite(AllWritten(ops), ops[k], r)
  {
    forall k': nat | k' < |ops| ensures !WritesTo(ops[k'], r) && r !in Written(ops[k']) {
      assert !WritesRegister(ops[k'], r);
    }
  }

  /** A sequence that never both reads and writes a register needs no labels. */
  lemma ApartIsWellFormed(ops: seq<Op>)
    requires OpsOk(ops) && StraightLine(ops) && SingleAssignment(ops) && DefinedBeforeRead(ops)
    requires ReadsAndWritesApart(ops)
    ensures WellFormed(ops)
  {
    var from, to := AllRead(ops), AllWritten(ops);
    forall k | 0 <= k < |ops| ensures OpFlowsOk(from, to, ops[k]) {
      ApartFlows(ops, k);
    }
    forall i, k, j, r | 0 <= i < k < j < |ops| && Carries(from, ops[i], ops[j], r) ensures !MayWrite(to, ops[k], r) {
      ApartStable(ops, k, r);
    }
    assert Labelled(ops, from, to);
  }

  // ----- the hypotheses matter -----

  /** A single operation that writes a register. */
  lemma AloneOptimized(op: Op)
    requires GetOutput(op).Some? && op.out.space == Register && FoldOp(op).Copy? && FoldOp(op).out == op.out
    ensures Rounds([op], 4) == [FoldOp(op)]
  {
    var q := [FoldOp(op)];
    assert SimplifyAll([op]) == q && CollapsePass(q, 0) == q;
    NoTemporaries(q);
    RoundIs([op]);
  }

  lemma OneOpRun(m: Machine, op: Op, s: State)
    requires GetOutput(op).Some? && op.out.space == Register
    ensures Run(m, [op], s) == Set(s, op.out, Result(m, op, s))
    ensures Get(Run(m, [op], s), op.out) == Wrap(Result(m, op, s), op.out.size)
  {
    RunOne(m, [op], 0, s);
    OutputStep(m, op, s);
  }

  /** The optimizer is right on it if and only if pass 0 is. */
  lemma AloneIff(op: Op)
    requires GetOutput(op).Some? && op.out.space == Register && FoldOp(op).Copy? && FoldOp(op).out == op.out
    ensures Equivalent([op], Rounds([op], 4)) <==> FoldedRight(op)
  {
    AloneOptimized(op);
    var op' := FoldOp(op);
    forall m, s ensures SameOutcome(Run(m, [op], s), Run(m, [op'], s))
      <==> Wrap(Result(m, op', s), op.out.size) == Wrap(Result(m, op, s), op.out.size)
    {
      OneOpRun(m, op, s);
      OneOpRun(m, op', s);
    }
  }

  /** Pass 0 gives the operation's own result in every state on every machine. */
  ghost predicate FoldedRight(op: Op)
    requires GetOutput(op).Some? && GetOutput(FoldOp(op)).Some?
  {
    forall m, s :: Wrap(Result(m, FoldOp(op), s), op.out.size) == Wrap(Result(m, op, s), op.out.size)
  }

  function AndAllOnesOp(o: Varnode, l: Varnode): (op: Op)
    ensures GetOutput(op).Some? && GetOutput(FoldOp(op)).Some? && op.out == o
  {
    Binary(IntAnd, o, l, Constant(AllOnesMask(o.size), o.size))
  }

  lemma NarrowAndIsRight(o: Varnode, l: Varnode)
    requires VarnodeOk(l) && o.size == l.size <= 8
    ensures FoldedRight(AndAllOnesOp(o, l))
  {
    AllOnesMaskIs(o.size);
    CapacityFitsWord(o.size);
    FoldOpSimplifies(AndAllOnesOp(o, l));
  }

  /** Beyond eight bytes the mask keeps the low 64 bits. */
  lemma WideAndResult(m: Machine, o: Varnode, l: Varnode, s: State)
    requires o.size == l.size > 8
    ensures Result(m, AndAllOnesOp(o, l), s) == Get(s, l) % TWO64
    ensures Result(m, FoldOp(AndAllOnesOp(o, l)), s) == Get(s, l)
  {
    Pow2At64();
    Pow2Monotone(64, 8 * o.size);
    WrapSmall(TWO64 - 1, o.size);
    MaskIsMod(Get(s, l), 64);
  }

  lemma WideConstantAndIsRight(o: Varnode, l: Varnode)
    requires VarnodeOk(l) && o.size == l.size > 8 && l.space == Const
    ensures FoldedRight(AndAllOnesOp(o, l))
  {
    forall m, s ensures Result(m, FoldOp(AndAllOnesOp(o, l)), s) == Result(m, AndAllOnesOp(o, l), s) {
      WideAndResult(m, o, l, s);
      WrapSmall(l.offset, l.size);
      DivModUnique(l.offset, 0, l.offset, TWO64);
    }
  }

  /** A location that holds 2^64 loses it in the And but not in the Copy. */
  lemma WideAndIsWrong(o: Varnode, l: Varnode)
    requires o.size == l.size > 8 && l.space != Const
    ensures !FoldedRight(AndAllOnesOp(o, l))
  {
    var m, s, op := Idle(), State(map[l := TWO64], map[], []), AndAllOnesOp(o, l);
    WideAndResult(m, o, l, s);
    assert TWO64 < Capacity(l.size) by {
      Pow2At64();
      Pow2Monotone(65, 8 * l.size);
    }
    WrapSmall(TWO64, l.size);
    WrapSmall(0, l.size);
    DivModUnique(TWO64, 1, 0, TWO64);
    assert Wrap(Result(m, FoldOp(op), s), o.size) != Wrap(Result(m, op, s), o.size);
  }

  /** The And-with-all-ones rewrite is right if and only if the width is at most eight
      bytes or the other operand is a constant. */
  lemma AllOnesRewriteIff(o: Varnode, l: Varnode)
    requires VarnodeOk(l) && o.size == l.size
    ensures FoldedRight(AndAllOnesOp(o, l)) <==> o.size <= 8 || l.space == Const
  {
    if o.size <= 8 {
      NarrowAndIsRight(o, l);
    } else if l.space == Const {
      WideConstantAndIsRight(o, l);
    } else {
      WideAndIsWrong(o, l);
    }
  }

  lemma AllOnesOptimizedIff(o: Varnode, l: Varnode)
    requires VarnodeOk(l) && o.size == l.size && o.space == Register
    ensures var ops := [AndAllOnesOp(o, l)];
      Equivalent(ops, Rounds(ops, 4)) <==> o.size <= 8 || l.space == Const
  {
    AloneIff(AndAllOnesOp(o, l));
    AllOnesRewriteIff(o, l);
  }

  function SextOp(o: Varnode, l: Varnode): (op: Op)
    ensures GetOutput(op).Some? && GetOutput(FoldOp(op)).Some? && op.out == o
  {
    Unary(IntSext, o, l)
  }

  lemma SextResult(m: Machine, o: Varnode, l: Varnode, s: State)
    requires VarnodeOk(l) && l.space == Const && l.size <= o.size
    ensures Result(m, SextOp(o, l), s) == Wrap(Signed(l.offset, l.size), o.size)
    ensures Result(m, FoldOp(SextOp(o, l)), s) == Wrap(SignExtendToSize(l.offset, l.size, o.size), o.size)
  {
    WrapSmall(l.offset, l.size);
  }

  /** The rewrite of a sign extension of a constant is right if and only if the result has
      at most eight bytes or there is no sign to extend. */
  lemma SextRewriteIff(o: Varnode, l: Varnode)
    requires VarnodeOk(l) && l.space == Const && l.size <= o.size
    ensures FoldedRight(SextOp(o, l)) <==> o.size <= 8 || l.offset < Pow2(8 * l.size - 1)
  {
    var right, folded := Signed(l.offset, l.size), SignExtendToSize(l.offset, l.size, o.size);
    SextConstantIff(l.offset, l.size, o.size);
    WrapTwice(right, o.size);
    WrapTwice(folded, o.size);
    forall m, s ensures (Wrap(Result(m, FoldOp(SextOp(o, l)), s), o.size) == Wrap(Result(m, SextOp(o, l), s), o.size))
      <==> Wrap(folded, o.size) == Wrap(right, o.size)
    {
      SextResult(m, o, l, s);
    }
    assert FoldedRight(SextOp(o, l)) ==> Wrap(folded, o.size) == Wrap(right, o.size) by {
      SextResult(Idle(), o, l, State(map[], map[], []));
    }
  }

  lemma SextOptimizedIff(o: Varnode, l: Varnode)
    requires VarnodeOk(l) && l.space == Const && l.size <= o.size && o.space == Register
    ensures var ops := [SextOp(o, l)];
      Equivalent(ops, Rounds(ops, 4)) <==> o.size <= 8 || l.offset < Pow2(8 * l.size - 1)
  {
    AloneIff(SextOp(o, l));
    SextRewriteIff(o, l);
  }

  lemma SextConstantIff(v: nat, inSize: nat, outSize: nat)
    requires 1 <= inSize <= outSize && v < Capacity(inSize) && v < TWO64
    ensures Wrap(SignExtendToSize(v, inSize, outSize), outSize) == Wrap(Signed(v, inSize), outSize)
      <==> outSize <= 8 || v < Pow2(8 * inSize - 1)
  {
    if outSize <= 8 {
      NarrowSextKeepsSign(v, inSize, outSize);
    } else if v >= Pow2(8 * inSize - 1) {
      WideSextLosesSign(v, inSize, outSize);
    }
  }

  lemma NarrowSextKeepsSign(v: nat, inSize: nat, outSize: nat)
    requires 1 <= inSize <= outSize <= 8 && v < Capacity(inSize)
    ensures Wrap(SignExtendToSize(v, inSize, outSize), outSize) == Wrap(Signed(v, inSize), outSize)
  {
    var x := Signed(v, inSize);
    SignedValueIsSigned(v, inSize);
    MaskToSizeWraps(AsU64(x), outSize);
    WrapAsU64(x, outSize);
    WrapTwice(x, outSize);
  }

  lemma WideSextLosesSign(v: nat, inSize: nat, outSize: nat)
    requires 1 <= inSize <= outSize && 8 < outSize && Pow2(8 * inSize - 1) <= v < Capacity(inSize) && v < TWO64
    ensures Wrap(v, outSize) != Wrap(Signed(v, inSize), outSize)
  {
    var low, high := Capacity(inSize), Capacity(outSize);
    assert inSize <= 8 by {
      if inSize > 8 {
        Pow2At64();
        Pow2Monotone(64, 8 * inSize - 1);
      }
    }
    Pow2Monotone(8 * inSize + 1, 8 * outSize);
    DivModUnique(v - low, -1, v - low + high, high);
    WrapSmall(v, outSize);
  }

  ghost predicate NoControl(ops: seq<Op>) {
    forall k :: 0 <= k < |ops| ==> !IsControl(ops[k])
  }

  lemma NothingProtected(ops: seq<Op>, u: Varnode)
    requires NoControl(ops)
    ensures !Protected(ops, u)
  {
  }

  /** Three registers, three temporaries and a constant, of one byte each. */
  datatype Names = Names(d: Varnode, x: Varnode, r: Varnode, w: Varnode, u: Varnode, t: Varnode, one: Varnode)
  {
    predicate Valid() {
      && d.space == x.space == r.space == Register && w.space == u.space == t.space == Unique
      && one.space == Const && one.offset == 1
      && d != x && d != r && x != r && w != u && w != t && u != t
      && d.size == x.size == r.size == w.size == u.size == t.size == one.size == 1
    }
  }

  /** The register `r` and the unused `t` are computed from a copy of `d`, before `d`
      is replaced. */
  predicate IsLateUpdate(ops: seq<Op>, n: Names) {
    && n.Valid() && |ops| == 5
    && ops[0] == Copy(n.w, n.d) && ops[1] == Binary(IntAdd, n.u, n.x, n.one)
    && ops[2] == Binary(IntAdd, n.r, n.w, n.one) && ops[3] == Binary(IntAdd, n.t, n.w, n.one)
    && ops[4] == Copy(n.d, n.u)
  }

  predicate IsSwept(ops: seq<Op>, n: Names) {
    && n.Valid() && |ops| == 4
    && ops[0] == Copy(n.w, n.d) && ops[1] == Binary(IntAdd, n.u, n.x, n.one)
    && ops[2] == Binary(IntAdd, n.r, n.w, n.one) && ops[3] == Copy(n.d, n.u)
  }

  predicate IsSunk(ops: seq<Op>, n: Names) {
    && n.Valid() && |ops| == 3
    && ops[0] == Copy(n.w, n.d) && ops[1] == Binary(IntAdd, n.d, n.x, n.one)
    && ops[2] == Binary(IntAdd, n.r, n.w, n.one)
  }

  predicate IsBroken(ops: seq<Op>, n: Names) {
    && n.Valid() && |ops| == 2
    && ops[0] == Binary(IntAdd, n.d, n.x, n.one) && ops[1] == Binary(IntAdd, n.r, n.d, n.one)
  }

  /** A Copy or an addition. */
  predicate IsSimple(op: Op) {
    op.Copy? || (op.Binary? && op.binop == IntAdd)
  }

  function ReadsOfSimple(op: Op, v: Varnode): nat
    requires IsSimple(op)
  {
    if op.Copy? then (if op.input == v then 1 else 0)
    else (if op.left == v then 1 else 0) + (if op.right == v then 1 else 0)
  }

  lemma SimpleCounts(ops: seq<Op>)
    requires forall k :: 0 <= k < |ops| ==> IsSimple(ops[k])
    ensures forall k, v :: 0 <= k < |ops| ==> CountReads(ops[k], v) == ReadsOfSimple(ops[k], v)
  {
    forall k, v | 0 <= k < |ops| ensures CountReads(ops[k], v) == ReadsOfSimple(ops[k], v) {
      var rs := Reads(ops[k]);
      assert rs[..|rs| - 1] == if |rs| == 1 then [] else [rs[0]];
      assert [rs[0]][..0] == [];
      assert Occurrences([rs[0]], v) == if rs[0] == v then 1 else 0;
    }
  }

  /** No reads and no writes of `v` from `k` to before `j`, where it is read once. */
  lemma {:induction false} ReadOnceAt(ops: seq<Op>, v: Varnode, k: nat, j: nat)
    requires k <= j < |ops|
    requires forall m :: k <= m < |ops| ==> GetOutput(ops[m]) != Some(v)
    requires forall m :: k <= m < |ops| ==> CountReads(ops[m], v) == if m == j then 1 else 0
    ensures FutureReads(ops, v, k) == 1 && NextAccess(ops, v, k) == Some(Read(j))
    decreases j - k
  {
    if k == j {
      NeverRead(ops, v, j + 1);
    } else {
      ReadOnceAt(ops, v, k + 1, j);
    }
  }

  lemma {:induction false} NeverRead(ops: seq<Op>, v: Varnode, k: nat)
    requires k <= |ops| && forall m :: k <= m < |ops| ==> GetOutput(ops[m]) != Some(v) && CountReads(ops[m], v) == 0
    ensures FutureReads(ops, v, k) == 0
    decreases |ops| - k
  {
    if k < |ops| {
      NeverRead(ops, v, k + 1);
    }
  }

  lemma {:induction false} NoMasks(ops: seq<Op>, i: nat)
    requires forall k :: 0 <= k < |ops| ==> !IsMask(ops[k])
    ensures CollapsePass(ops, i) == ops
    decreases |ops| - i
  {
    if i + 1 < |ops| {
      NoMasks(ops, i + 1);
    }
  }

  lemma {:induction false} NothingToForward(ops: seq<Op>, i: nat)
    requires forall k :: i <= k < |ops| ==> !CopyOnce(ops, k, Analysis(ops, k))
    ensures ForwardPass(ops, i) == ops
    decreases |ops| - i
  {
    if i < |ops| {
      NothingToForward(ops, i + 1);
    }
  }

  lemma {:induction false} NothingToSink(ops: seq<Op>, i: nat)
    requires forall k :: i <= k < |ops| ==> !SinksOnce(ops, k, Analysis(ops, k))
    ensures SinkPass(ops, i) == ops
    decreases |ops| - i
  {
    if i < |ops| {
      NothingToSink(ops, i + 1);
    }
  }

  lemma {:induction false} NothingDead(ops: seq<Op>, k: nat)
    requires k <= |ops| && forall a :: k <= a < |ops| ==> !IsDead(Analysis(ops, a))
    ensures Survivors(ops, k) == ops[k..]
    decreases |ops| - k
  {
    if k < |ops| {
      NothingDead(ops, k + 1);
    }
  }

  /** No masks, and constants only on the right of additions: simplification is idle. */
  lemma NothingToSimplify(ops: seq<Op>)
    requires forall k :: 0 <= k < |ops| ==> IsPlain(ops[k])
    ensures SimplifyAll(ops) == ops && CollapsePass(SimplifyAll(ops), 0) == ops
  {
    NoMasks(ops, 0);
  }

  predicate IsPlain(op: Op) {
    op.Copy? || (op.Binary? && op.binop == IntAdd && op.left.space != Const)
  }

  /** A round without anything to simplify. */
  lemma PlainRound(ops: seq<Op>)
    requires forall k :: 0 <= k < |ops| ==> IsPlain(ops[k])
    ensures Round(ops) == SinkPass(Survivors(ForwardPass(ops, 0), 0), 0)
  {
    NothingToSimplify(ops);
    RoundIs(ops);
  }

  /** A round without anything to do. */
  lemma QuietRound(ops: seq<Op>)
    requires forall k :: 0 <= k < |ops| ==> IsPlain(ops[k]) && !IsTemp(ops[k])
    ensures Round(ops) == ops
  {
    PlainRound(ops);
    NoTemporaries(ops);
  }

  lemma LateUpdateAnalysis(ops: seq<Op>, n: Names)
    requires IsLateUpdate(ops, n)
    ensures Analysis(ops, 0) == Some(Info(2, Some(Read(2))))
    ensures Analysis(ops, 1) == Some(Info(1, Some(Read(4))))
    ensures Analysis(ops, 2) == None && Analysis(ops, 4) == None
    ensures Analysis(ops, 3).Some? && Analysis(ops, 3).value.futureReads == 0
  {
    CopyOfOldValue(ops, n);
    NewValue(ops, n);
    DeadAddition(ops, n);
  }

  lemma CopyOfOldValue(ops: seq<Op>, n: Names)
    requires IsLateUpdate(ops, n)
    ensures Analysis(ops, 0) == Some(Info(2, Some(Read(2))))
  {
    NothingProtected(ops, n.w);
    ReadTwice(ops, n);
  }

  lemma NewValue(ops: seq<Op>, n: Names)
    requires IsLateUpdate(ops, n)
    ensures Analysis(ops, 1) == Some(Info(1, Some(Read(4))))
  {
    NothingProtected(ops, n.u);
    SimpleCounts(ops);
    ReadOnceAt(ops, n.u, 2, 4);
  }

  lemma DeadAddition(ops: seq<Op>, n: Names)
    requires IsLateUpdate(ops, n)
    ensures Analysis(ops, 3).Some? && Analysis(ops, 3).value.futureReads == 0
  {
    NothingProtected(ops, n.t);
    SimpleCounts(ops);
    NeverRead(ops, n.t, 4);
  }

  lemma ReadTwice(ops: seq<Op>, n: Names)
    requires IsLateUpdate(ops, n)
    ensures FutureReads(ops, n.w, 1) == 2 && NextAccess(ops, n.w, 1) == Some(Read(2))
  {
    SimpleCounts(ops);
    NeverRead(ops, n.w, 4);
    assert FutureReads(ops, n.w, 3) == 1;
    assert FutureReads(ops, n.w, 2) == 2;
    assert NextAccess(ops, n.w, 2) == Some(Read(2));
  }

  /** The first round: the dead addition goes, then the new value of `d` is sunk above
      the last read of the copy of its old value. */
  lemma FirstRound(ops: seq<Op>, n: Names)
    requires IsLateUpdate(ops, n)
    ensures IsSunk(Round(ops), n)
  {
    PlainRound(ops);
    LateUpdateUnforwarded(ops, n);
    SweepLateUpdate(ops, n);
    SinkSwept(Survivors(ops, 0), n);
  }

  lemma LateUpdateUnforwarded(ops: seq<Op>, n: Names)
    requires IsLateUpdate(ops, n)
    ensures ForwardPass(ops, 0) == ops
  {
    LateUpdateAnalysis(ops, n);
    NothingToForward(ops, 0);
  }

  lemma SweepLateUpdate(ops: seq<Op>, n: Names)
    requires IsLateUpdate(ops, n)
    ensures IsSwept(Survivors(ops, 0), n)
  {
    LateUpdateAnalysis(ops, n);
    NothingDead(ops, 4);
    assert Survivors(ops, 3) == ops[4..];
    assert Survivors(ops, 2) == [ops[2]] + ops[4..];
    assert Survivors(ops, 1) == [ops[1]] + ([ops[2]] + ops[4..]);
  }

  lemma SweptAnalysis(ops: seq<Op>, n: Names)
    requires IsSwept(ops, n)
    ensures Analysis(ops, 0) == Some(Info(1, Some(Read(2))))
    ensures Analysis(ops, 1) == Some(Info(1, Some(Read(3))))
    ensures CountReads(ops[2], n.d) == 0
  {
    SweptNewValue(ops, n);
    NothingProtected(ops, n.w);
    SimpleCounts(ops);
    ReadOnceAt(ops, n.w, 1, 2);
  }

  lemma SweptNewValue(ops: seq<Op>, n: Names)
    requires IsSwept(ops, n)
    ensures Analysis(ops, 1) == Some(Info(1, Some(Read(3))))
  {
    NothingProtected(ops, n.u);
    SimpleCounts(ops);
    ReadOnceAt(ops, n.u, 2, 3);
  }

  lemma SinkSwept(ops: seq<Op>, n: Names)
    requires IsSwept(ops, n)
    ensures IsSunk(SinkPass(ops, 0), n)
  {
    SweptAnalysis(ops, n);
    assert !SinksInto(ops, 0, 2) && SinksInto(ops, 1, 3);
    assert SinkPass(ops, 0) == SinkPass(ops, 1) == SinkPass(Sink(ops, 1, 3), 1);
    NothingToSink(Sink(ops, 1, 3), 1);
  }

  /** The second round forwards the copy of `d` past the write that was sunk. */
  lemma SecondRound(ops: seq<Op>, n: Names)
    requires IsSunk(ops, n)
    ensures IsBroken(Round(ops), n)
  {
    PlainRound(ops);
    SunkForwarded(ops, n);
    NoTemporaries(Forward(ops, 0, 2));
  }

  lemma SunkForwarded(ops: seq<Op>, n: Names)
    requires IsSunk(ops, n)
    ensures IsBroken(Forward(ops, 0, 2), n) && ForwardPass(ops, 0) == ForwardPass(Forward(ops, 0, 2), 0)
  {
    SunkAnalysis(ops, n);
    assert CopyOnce(ops, 0, Analysis(ops, 0));
  }

  lemma SunkAnalysis(ops: seq<Op>, n: Names)
    requires IsSunk(ops, n)
    ensures Analysis(ops, 0) == Some(Info(1, Some(Read(2))))
  {
    NothingProtected(ops, n.w);
    SimpleCounts(ops);
    ReadOnceAt(ops, n.w, 1, 2);
  }

  lemma LaterRounds(ops: seq<Op>, n: Names)
    requires IsBroken(ops, n)
    ensures Round(ops) == ops
  {
    QuietRound(ops);
  }

  /** Without temporaries the structural passes do nothing. */
  lemma NoTemporaries(ops: seq<Op>)
    requires forall k :: 0 <= k < |ops| ==> !IsTemp(ops[k])
    ensures ForwardPass(ops, 0) == ops && Survivors(ops, 0) == ops && SinkPass(ops, 0) == ops
  {
    NothingToForward(ops, 0);
    NothingDead(ops, 0);
    NothingToSink(ops, 0);
  }

  /** Every copy is read before its source is written. */
  ghost predicate CopiesReadInTime(ops: seq<Op>) {
    forall i, k, j :: 0 <= i < k < j < |ops| && ops[i].Copy? && IsTemp(ops[i]) && ops[i].out in Reads(ops[j]) ==>
      !WritesTo(ops[k], ops[i].input)
  }

  lemma LateUpdateLooksStable(ops: seq<Op>, n: Names)
    requires IsLateUpdate(ops, n)
    ensures CopiesReadInTime(ops)
  {
    assert ops[4].input == Reads(ops[4])[0];
  }

  /** Every copy is read in time, yet the rounds together compute `r` from the new value
      of `d`: sinking has moved the write of `d` above the read of its copy. Hence
      `CopiesStable` also looks at where values may be sunk to. */
  lemma LateUpdateIsBroken(ops: seq<Op>, n: Names)
    requires IsLateUpdate(ops, n)
    ensures CopiesReadInTime(ops) && !Equivalent(ops, Rounds(ops, 4))
  {
    LateUpdateLooksStable(ops, n);
    var three := Round(ops);
    FirstRound(ops, n);
    var two := Round(three);
    SecondRound(three, n);
    LaterRounds(two, n);
    assert Rounds(two, 2) == two;
    assert Rounds(three, 3) == two;
    LateUpdateDiffers(ops, two, n);
  }

  lemma LateUpdateDiffers(p: seq<Op>, q: seq<Op>, n: Names)
    requires IsLateUpdate(p, n) && IsBroken(q, n)
    ensures !Equivalent(p, q)
  {
    var m, s := Idle(), State(map[], map[], []);
    LateUpdateOriginal(m, p, n, s);
    LateUpdateRewritten(m, q, n, s);
    assert !SameOutcome(Run(m, p, s), Run(m, q, s));
  }

  lemma AddOne(m: Machine, op: Op, s: State, one: Varnode)
    requires op.Binary? && op.binop == IntAdd && op.right == one && one == Constant(1, 1)
    requires op.left.size == 1 && op.out.size == 1 && op.out.space != Const && Get(s, op.left) < 2
    ensures Get(Step(m, op, s), op.out) == Get(s, op.left) + 1
  {
    OutputStep(m, op, s);
    assert Pow2(8) == 256;
  }

  lemma LateUpdateOriginal(m: Machine, p: seq<Op>, n: Names, s: State)
    requires IsLateUpdate(p, n) && s.vals == map[]
    ensures Get(Run(m, p, s), n.r) == 1
  {
    var s1 := Step(m, p[0], s);
    var s2 := Step(m, p[1], s1);
    CopyStep(m, p[0], s);
    StepFrame(m, p[1], s1, n.w);
    AddOne(m, p[2], s2, n.one);
    RunFrame(m, p, 3, 5, Step(m, p[2], s2), n.r);
    assert RunRange(m, p, 1, 5, s1) == RunRange(m, p, 2, 5, s2);
  }

  lemma LateUpdateRewritten(m: Machine, q: seq<Op>, n: Names, s: State)
    requires IsBroken(q, n) && s.vals == map[]
    ensures Get(Run(m, q, s), n.r) == 2
  {
    var t1 := Step(m, q[0], s);
    AddOne(m, q[0], s, n.one);
    AddOne(m, q[1], t1, n.one);
    assert RunRange(m, q, 1, 2, t1) == Step(m, q[1], t1);
  }
}

/** When the rounds of the optimizer reach a fixpoint: always after a round that does not
    shorten the sequence, always within as many rounds as there are operations, and for a
    chain of additions not any sooner. */
module Fixpoint {
  import opened Options
  import opened Pcode
  import opened Folding
  import opened Liveness
  import opened Rewrites
  import opened Discipline
  import opened Optimizer
  import opened Hypotheses

  ghost predicate IsFixpoint(ops: seq<Op>) {
    Round(ops) == ops
  }

  // ----- a pass that keeps the length does nothing -----

  /** The single-operation passes have nothing to do on their own results. */
  lemma SimplifyTwice(op: Op)
    ensures SimplifyOp(SimplifyOp(op)) == SimplifyOp(op)
  {
    var op' := SimplifyOp(op);
    if op' != op {
      assert op'.Copy?;
    }
  }

  lemma SimplifyAllTwice(ops: seq<Op>)
    ensures SimplifyAll(SimplifyAll(ops)) == SimplifyAll(ops)
  {
    forall k | 0 <= k < |ops| ensures SimplifyAll(SimplifyAll(ops))[k] == SimplifyAll(ops)[k] {
      SimplifyTwice(ops[k]);
    }
  }

  lemma {:induction false} CollapseShortens(ops: seq<Op>, i: nat)
    ensures |CollapsePass(ops, i)| <= |ops|
    ensures |CollapsePass(ops, i)| == |ops| ==> CollapsePass(ops, i) == ops
    decreases |ops| - i
  {
    if i + 1 < |ops| {
      if MasksRepeat(ops, i, Analysis(ops, i)) {
        CollapseShortens(Collapse(ops, i), i);
      } else {
        CollapseShortens(ops, i + 1);
      }
    }
  }

  lemma {:induction false} ForwardShortens(ops: seq<Op>, i: nat)
    ensures |ForwardPass(ops, i)| <= |ops|
    ensures |ForwardPass(ops, i)| == |ops| ==> ForwardPass(ops, i) == ops
    decreases |ops| - i
  {
    if i < |ops| {
      if CopyOnce(ops, i, Analysis(ops, i)) {
        ForwardShortens(Forward(ops, i, OnlyReader(Analysis(ops, i)).value), i);
      } else {
        ForwardShortens(ops, i + 1);
      }
    }
  }

  lemma {:induction false} SweepShortens(ops: seq<Op>, k: nat)
    requires k <= |ops|
    ensures |Survivors(ops, k)| == |ops| - k ==> Survivors(ops, k) == ops[k..]
    decreases |ops| - k
  {
    if k < |ops| {
      SweepShortens(ops, k + 1);
    }
  }

  lemma {:induction false} SinkShortens(ops: seq<Op>, i: nat)
    ensures |SinkPass(ops, i)| <= |ops|
    ensures |SinkPass(ops, i)| == |ops| ==> SinkPass(ops, i) == ops
    decreases |ops| - i
  {
    if i < |ops| {
      if SinksOnce(ops, i, Analysis(ops, i)) {
        SinkShortens(Sink(ops, i, OnlyReader(Analysis(ops, i)).value), i);
      } else {
        SinkShortens(ops, i + 1);
      }
    }
  }

  /** The structural passes of a round. */
  ghost function Structural(ops: seq<Op>): seq<Op> {
    SinkPass(Survivors(ForwardPass(CollapsePass(ops, 0), 0), 0), 0)
  }

  lemma StructuralShortens(ops: seq<Op>)
    ensures |Structural(ops)| <= |ops|
    ensures |Structural(ops)| == |ops| ==> Structural(ops) == ops
  {
    var a := CollapsePass(ops, 0);
    var b := ForwardPass(a, 0);
    var c := Survivors(b, 0);
    CollapseShortens(ops, 0);
    ForwardShortens(a, 0);
    SweepShortens(b, 0);
    SinkShortens(c, 0);
    assert b[0..] == b;
  }

  lemma RoundIsStructural(ops: seq<Op>)
    ensures Round(ops) == Structural(SimplifyAll(ops)) && |Round(ops)| <= |ops|
  {
    RoundIs(ops);
    StructuralShortens(SimplifyAll(ops));
  }

  /** A round that does not shorten the sequence leaves a fixpoint. */
  lemma IdleRoundSettles(ops: seq<Op>)
    requires |Round(ops)| == |ops|
    ensures IsFixpoint(Round(ops))
  {
    var s := SimplifyAll(ops);
    RoundIsStructural(ops);
    StructuralShortens(s);
    assert Round(ops) == s;
    SimplifyAllTwice(ops);
    RoundIsStructural(s);
  }

  // ----- enough rounds -----

  /** One of the first `n` rounds does not shorten the sequence. */
  ghost predicate Settles(ops: seq<Op>, n: nat)
    decreases n
  {
    n > 0 && (|Round(ops)| == |ops| || Settles(Round(ops), n - 1))
  }

  /** The result is a fixpoint if some round was idle, and in any case after as many
      rounds as there are operations. */
  lemma {:induction false} EnoughRounds(ops: seq<Op>, n: nat)
    requires Settles(ops, n) || |ops| <= n
    ensures IsFixpoint(Rounds(ops, n))
    decreases n
  {
    RoundIsStructural(ops);
    if |Round(ops)| == |ops| {
      IdleRoundSettles(ops);
      if n == 0 {
        assert Round(ops) == [] == ops;
      }
    } else {
      EnoughRounds(Round(ops), n - 1);
    }
  }

  // ----- a chain of additions needs all of them -----

  predicate IsAddition(op: Op, size: nat) {
    && op.Binary? && op.binop == IntAdd && op.right.space == Const
    && op.out.size == size && op.left.size == size && op.right.size == size
  }

  /** Additions of constants, the first to a constant, each other to the result of the one
      before, the last into a register. */
  ghost predicate IsAddChain(ops: seq<Op>, size: nat) {
    && FoldableWidth(size) && |ops| > 0
    && (forall k :: 0 <= k < |ops| ==> IsAddition(ops[k], size))
    && ops[0].left.space == Const && ops[|ops| - 1].out.space == Register
    && (forall k :: 0 <= k < |ops| - 1 ==> ops[k].out.space == Unique && ops[k + 1].left == ops[k].out)
    && (forall j, k :: 0 <= j < k < |ops| ==> ops[j].out != ops[k].out)
  }

  /** Pass 0 folds the first addition of the chain, and only that. */
  ghost predicate IsFolded(ops: seq<Op>, s: seq<Op>) {
    && |s| == |ops| > 0 && ops[0].Binary?
    && s[0].Copy? && s[0].out == ops[0].out && s[0].input.space == Const && s[0].input.size == ops[0].out.size
    && forall k :: 0 < k < |ops| ==> s[k] == ops[k]
  }

  lemma ChainFolded(ops: seq<Op>, size: nat)
    requires IsAddChain(ops, size)
    ensures IsFolded(ops, SimplifyAll(ops))
  {
    assert IsAddition(ops[0], size) && SimplifyOp(ops[0]).Copy?;
    forall k | 0 < k < |ops| ensures SimplifyOp(ops[k]) == ops[k] {
      assert IsAddition(ops[k], size) && ops[k].left == ops[k - 1 + 1].left;
      assert ops[(k - 1) + 1].left == ops[k - 1].out;
    }
  }

  /** The result of every addition but the last is read once, by the next one. */
  lemma ReadByNext(ops: seq<Op>, k: nat)
    requires k + 1 < |ops| && (forall m :: 0 <= m < |ops| ==> IsSimple(ops[m])) && IsTemp(ops[k])
    requires forall m :: k < m < |ops| ==>
      && ops[m].Binary? && ops[m].right.space == Const && ops[m].out != ops[k].out
      && (ops[m].left == ops[k].out <==> m == k + 1)
    ensures Analysis(ops, k) == Some(Info(1, Some(Read(k + 1))))
  {
    NothingProtected(ops, ops[k].out);
    SimpleCounts(ops);
    ReadOnceAt(ops, ops[k].out, k + 1, k + 1);
  }

  lemma NextReads(ops: seq<Op>, size: nat, k: nat, m: nat)
    requires IsAddChain(ops, size) && k < m < |ops|
    ensures ops[m].left == ops[k].out <==> m == k + 1
  {
    assert ops[(m - 1) + 1].left == ops[m - 1].out;
  }

  lemma ChainAlive(ops: seq<Op>, size: nat)
    requires IsAddChain(ops, size)
    ensures forall k :: 0 <= k < |ops| ==> !IsDead(Analysis(ops, k))
  {
    forall k | 0 <= k < |ops| ensures !IsDead(Analysis(ops, k)) {
      assert IsAddition(ops[k], size);
      if k + 1 < |ops| {
        forall m | k < m < |ops| ensures ops[m].left == ops[k].out <==> m == k + 1 {
          NextReads(ops, size, k, m);
        }
        ReadByNext(ops, k);
      }
    }
  }

  /** Nothing but folding can be done to a chain. */
  lemma ChainKept(ops: seq<Op>, size: nat)
    requires IsAddChain(ops, size)
    ensures ForwardPass(ops, 0) == ops && Survivors(ops, 0) == ops && SinkPass(ops, 0) == ops
  {
    assert forall k :: 0 <= k < |ops| ==> IsAddition(ops[k], size) && !ops[k].Copy?;
    NothingToForward(ops, 0);
    ChainAlive(ops, size);
    NothingDead(ops, 0);
    assert ops[0..] == ops;
    NothingToSink(ops, 0);
  }

  /** The folded constant is forwarded into the next addition, which gives a shorter chain. */
  lemma ChainForwarded(ops: seq<Op>, size: nat, s: seq<Op>)
    requires IsAddChain(ops, size) && |ops| > 1 && IsFolded(ops, s)
    ensures ForwardPass(s, 0) == ForwardPass(Forward(s, 0, 1), 0)
    ensures IsAddChain(Forward(s, 0, 1), size)
  {
    FoldedAnalysis(ops, size, s);
    assert CopyOnce(s, 0, Analysis(s, 0));
    ShorterChain(ops, size, s);
  }

  lemma FoldedAnalysis(ops: seq<Op>, size: nat, s: seq<Op>)
    requires IsAddChain(ops, size) && |ops| > 1 && IsFolded(ops, s)
    ensures Analysis(s, 0) == Some(Info(1, Some(Read(1))))
  {
    forall m | 0 < m < |s| ensures IsAddition(s[m], size) && (s[m].left == s[0].out <==> m == 1) {
      NextReads(ops, size, 0, m);
    }
    ReadByNext(s, 0);
  }

  lemma ShorterChain(ops: seq<Op>, size: nat, s: seq<Op>)
    requires IsAddChain(ops, size) && |ops| > 1 && IsFolded(ops, s)
    ensures IsAddChain(Forward(s, 0, 1), size)
  {
    var q := Forward(s, 0, 1);
    assert IsAddition(ops[0], size) && IsAddition(ops[1], size) && ops[0 + 1].left == ops[0].out;
    assert q[0] == Binary(IntAdd, ops[1].out, s[0].input, ops[1].right);
    assert forall k :: 0 < k < |q| ==> q[k] == ops[k + 1];
    assert forall k :: 0 <= k < |q| ==> IsAddition(q[k], size) && q[k].out == ops[k + 1].out;
    forall k | 0 <= k < |q| - 1 ensures q[k].out.space == Unique && q[k + 1].left == q[k].out {
      assert ops[(k + 1) + 1].left == ops[k + 1].out;
    }
  }

  lemma NoMaskIn(ops: seq<Op>, s: seq<Op>, size: nat)
    requires IsAddChain(ops, size) && IsFolded(ops, s)
    ensures CollapsePass(s, 0) == s
  {
    assert forall k :: 0 <= k < |ops| ==> IsAddition(ops[k], size);
    NoMasks(s, 0);
  }

  /** A round takes one addition off the chain. */
  lemma ChainRound(ops: seq<Op>, size: nat)
    requires IsAddChain(ops, size) && |ops| > 1
    ensures IsAddChain(Round(ops), size) && |Round(ops)| == |ops| - 1
  {
    var s := SimplifyAll(ops);
    ChainFolded(ops, size);
    NoMaskIn(ops, s, size);
    ChainForwarded(ops, size, s);
    ChainKept(Forward(s, 0, 1), size);
    RoundIsStructural(ops);
  }

  /** The last one becomes a Copy of the sum. */
  lemma LastRound(ops: seq<Op>, size: nat)
    requires IsAddChain(ops, size) && |ops| == 1
    ensures |Round(ops)| == 1 && Round(ops)[0].Copy? && IsFixpoint(Round(ops))
  {
    var s := SimplifyAll(ops);
    ChainFolded(ops, size);
    NoMaskIn(ops, s, size);
    NoTemporaries(s);
    RoundIsStructural(ops);
    IdleRoundSettles(ops);
  }

  lemma ChainMoves(ops: seq<Op>, size: nat)
    requires IsAddChain(ops, size)
    ensures !IsFixpoint(ops)
  {
    if |ops| > 1 {
      ChainRound(ops, size);
    } else {
      LastRound(ops, size);
      assert IsAddition(ops[0], size);
    }
  }

  /** The optimizer reaches the fixpoint of a chain of additions if and only if it has at
      least as many rounds as the chain has additions. */
  lemma {:induction false} ChainFixpointIff(ops: seq<Op>, size: nat, n: nat)
    requires IsAddChain(ops, size)
    ensures IsFixpoint(Rounds(ops, n)) <==> |ops| <= n
    decreases n
  {
    if |ops| <= n {
      EnoughRounds(ops, n);
    } else if n == 0 {
      ChainMoves(ops, size);
    } else {
      ChainRound(ops, size);
      ChainFixpointIff(Round(ops), size, n - 1);
    }
  }

  function Link(i: nat, last: bool): Op {
    Binary(IntAdd, if last then Varnode(Register, 0, 4) else Varnode(Unique, i, 4),
           if i == 0 then Constant(1, 4) else Varnode(Unique, i - 1, 4), Constant(1, 4))
  }

  /** Five additions are too many for the four rounds. */
  lemma FiveAdditions()
    ensures var ops := [Link(0, false), Link(1, false), Link(2, false), Link(3, false), Link(4, true)];
      !IsFixpoint(Rounds(ops, 4)) && IsFixpoint(Rounds(ops, 5))
  {
    var ops := [Link(0, false), Link(1, false), Link(2, false), Link(3, false), Link(4, true)];
    assert IsAddChain(ops, 4);
    ChainFixpointIff(ops, 4, 4);
    ChainFixpointIff(ops, 4, 5);
  }

  // ----- a repeated mask -----

  function Mask(out: Varnode, left: Varnode, right: Varnode): Op {
    Binary(IntAnd, out, left, right)
  }

  predicate IsMaskPair(u: Varnode, d: Varnode, x: Varnode, c: Varnode) {
    && u.space == Unique && d.space == x.space == Register && c.space == Const
    && c.offset != AllOnesMask(u.size) && u.size == d.size
  }

  lemma MasksStay(u: Varnode, d: Varnode, x: Varnode, c: Varnode)
    requires IsMaskPair(u, d, x, c)
    ensures SimplifyAll([Mask(u, x, c), Mask(d, u, c)]) == [Mask(u, x, c), Mask(d, u, c)]
    ensures SimplifyAll([Mask(d, x, c)]) == [Mask(d, x, c)]
  {
  }

  lemma MaskReadOnce(u: Varnode, d: Varnode, x: Varnode, c: Varnode)
    requires IsMaskPair(u, d, x, c)
    ensures var info := Analysis([Mask(u, x, c), Mask(d, u, c)], 0); info.Some? && info.value.futureReads == 1
  {
    var ops := [Mask(u, x, c), Mask(d, u, c)];
    NothingProtected(ops, u);
    assert Reads(ops[1]) == [u, c] && [u, c][..1] == [u] && [u][..0] == [];
    assert Occurrences([u], u) == 1;
    assert CountReads(ops[1], u) == Occurrences([u, c], u) == 1;
    assert FutureReads(ops, u, 2) == 0;
  }

  /** Two equal masks in a row come out of the optimizer as one. */
  lemma RepeatedMaskGoes(u: Varnode, d: Varnode, x: Varnode, c: Varnode)
    requires IsMaskPair(u, d, x, c)
    ensures Rounds([Mask(u, x, c), Mask(d, u, c)], 4) == [Mask(d, x, c)]
  {
    var ops, q := [Mask(u, x, c), Mask(d, u, c)], [Mask(d, x, c)];
    MasksStay(u, d, x, c);
    MaskReadOnce(u, d, x, c);
    assert MasksRepeat(ops, 0, Analysis(ops, 0)) && Collapse(ops, 0) == q;
    assert CollapsePass(q, 0) == q;
    NoTemporaries(q);
    RoundIs(ops);
    RoundIs(q);
    assert Rounds(q, 3) == q;
  }
}

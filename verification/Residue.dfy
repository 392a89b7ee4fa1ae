/** What the optimizer leaves behind: a sequence is a fixpoint if and only if it has nothing
    to fold, no repeated mask, no copy with a single reader, no dead temporary, and none
    that could be computed in the place it is copied to. */
module Residue {
  import opened Options
  import opened Pcode
  import opened Folding
  import opened Liveness
  import opened Rewrites
  import opened Optimizer
  import opened Fixpoint

  /** The temporary `u`, written at `k`, may be touched: no branch within the instruction
      lies between two writes of it, and no indirect transfer goes through its address. */
  ghost predicate IsFree(ops: seq<Op>, k: nat, u: Varnode)
    requires k < |ops|
  {
    && GetOutput(ops[k]) == Some(u) && u.space == Unique
    && !StraddlesBranch(ops, u) && !HoldsAddress(ops, u)
  }

  /** `u` is read before it is written again. */
  ghost predicate IsUsed(ops: seq<Op>, k: nat, u: Varnode) {
    exists j :: k < j < |ops| && CountReads(ops[j], u) > 0 && forall m :: k < m < j ==> GetOutput(ops[m]) != Some(u)
  }

  /** The first op behind `k` that reads `u` is the one at `j`. */
  ghost predicate IsReadFirst(ops: seq<Op>, k: nat, j: nat, u: Varnode) {
    && k < j < |ops| && CountReads(ops[j], u) > 0
    && forall m :: k < m < j ==> CountReads(ops[m], u) == 0 && GetOutput(ops[m]) != Some(u)
  }

  /** Read by exactly one operand before it is written again. */
  ghost predicate IsUsedOnce(ops: seq<Op>, k: nat, u: Varnode)
    requires k < |ops|
  {
    FutureReads(ops, u, k + 1) == 1
  }

  /** The op at `j` is a Copy of `u` whose destination nothing touches from `k` to there. */
  ghost predicate IsFreeCopy(ops: seq<Op>, k: nat, j: nat, u: Varnode) {
    && k < j < |ops| && ops[j].Copy? && ops[j].input == u
    && forall m :: k < m < j ==> CountReads(ops[m], ops[j].out) == 0 && !WritesTo(ops[m], ops[j].out)
  }

  /** Two masks in a row by the same constant. */
  predicate IsMaskedAgain(ops: seq<Op>, k: nat) {
    && k + 1 < |ops| && ops[k].Binary? && ops[k + 1].Binary? && ops[k].binop == ops[k + 1].binop == IntAnd
    && ops[k + 1].left == ops[k].out && ops[k + 1].right == ops[k].right && ops[k].right.space == Const
  }

  ghost predicate IsCleanFor(ops: seq<Op>, k: nat, u: Varnode)
    requires k < |ops|
  {
    && IsUsed(ops, k, u)
    && (IsUsedOnce(ops, k, u) ==>
          !ops[k].Copy? && !IsMaskedAgain(ops, k) &&
          forall j :: IsReadFirst(ops, k, j, u) ==> !IsFreeCopy(ops, k, j, u))
  }

  ghost predicate IsCleanAt(ops: seq<Op>, k: nat)
    requires k < |ops|
  {
    forall u :: IsFree(ops, k, u) ==> IsCleanFor(ops, k, u)
  }

  ghost predicate IsClean(ops: seq<Op>) {
    && (forall k :: 0 <= k < |ops| ==> SimplifyOp(ops[k]) == ops[k])
    && forall k :: 0 <= k < |ops| ==> IsCleanAt(ops, k)
  }

  // ----- the analysis in these terms -----

  lemma {:induction false} ReadsMeanAccess(ops: seq<Op>, u: Varnode, k: nat)
    requires k <= |ops|
    ensures FutureReads(ops, u, k) > 0 <==> NextAccess(ops, u, k).Some? && NextAccess(ops, u, k).value.Read?
    decreases |ops| - k
  {
    if k < |ops| && CountReads(ops[k], u) == 0 && GetOutput(ops[k]) != Some(u) {
      ReadsMeanAccess(ops, u, k + 1);
    }
  }

  lemma {:induction false} FirstReadIs(ops: seq<Op>, u: Varnode, k: nat, j: nat)
    requires k < |ops|
    ensures NextAccess(ops, u, k + 1) == Some(Read(j)) <==> IsReadFirst(ops, k, j, u)
    decreases |ops| - k
  {
    if NextAccess(ops, u, k + 1) == Some(Read(j)) {
      NextAccessIsFirst(ops, u, k + 1, j);
    }
    if IsReadFirst(ops, k, j, u) && k + 1 < j {
      FirstReadIs(ops, u, k + 1, j);
    }
  }

  lemma {:induction false} UsedIff(ops: seq<Op>, u: Varnode, k: nat)
    requires k < |ops|
    ensures IsUsed(ops, k, u) <==> FutureReads(ops, u, k + 1) > 0
    decreases |ops| - k
  {
    if k + 1 < |ops| {
      UsedIff(ops, u, k + 1);
      if IsUsed(ops, k, u) && CountReads(ops[k + 1], u) == 0 {
        var j :| k < j < |ops| && CountReads(ops[j], u) > 0 && forall m :: k < m < j ==> GetOutput(ops[m]) != Some(u);
        assert GetOutput(ops[k + 1]) != Some(u);
        assert IsUsed(ops, k + 1, u);
      }
      if GetOutput(ops[k + 1]) != Some(u) && IsUsed(ops, k + 1, u) {
        var j :| k + 1 < j < |ops| && CountReads(ops[j], u) > 0 &&
          forall m :: k + 1 < m < j ==> GetOutput(ops[m]) != Some(u);
        forall m | k < m < j ensures GetOutput(ops[m]) != Some(u) {
          assert m == k + 1 || k + 1 < m < j;
        }
      }
    }
  }

  lemma AnalysisOfFree(ops: seq<Op>, k: nat)
    requires k < |ops|
    ensures Analysis(ops, k).Some? <==> GetOutput(ops[k]).Some? && IsFree(ops, k, GetOutput(ops[k]).value)
    ensures Analysis(ops, k).Some? ==>
      Analysis(ops, k).value.futureReads == FutureReads(ops, GetOutput(ops[k]).value, k + 1) &&
      Analysis(ops, k).value.nextAccess == NextAccess(ops, GetOutput(ops[k]).value, k + 1)
  {
  }

  // ----- the passes have nothing to do -----

  /** No structural pass has anything to do at `k`. */
  ghost predicate IsIdle(ops: seq<Op>, k: nat)
    requires k < |ops|
  {
    var info := Analysis(ops, k);
    !MasksRepeat(ops, k, info) && !CopyOnce(ops, k, info) && !IsDead(info) && !SinksOnce(ops, k, info)
  }

  lemma DeadIff(ops: seq<Op>, k: nat, u: Varnode)
    requires k < |ops| && IsFree(ops, k, u)
    ensures IsDead(Analysis(ops, k)) <==> !IsUsed(ops, k, u)
  {
    AnalysisOfFree(ops, k);
    UsedIff(ops, u, k);
    ReadsMeanAccess(ops, u, k + 1);
  }

  lemma OnlyReaderIff(ops: seq<Op>, k: nat, u: Varnode, j: nat)
    requires k < |ops| && IsFree(ops, k, u)
    ensures OnlyReader(Analysis(ops, k)) == Some(j) <==> IsUsedOnce(ops, k, u) && IsReadFirst(ops, k, j, u)
  {
    AnalysisOfFree(ops, k);
    FirstReadIs(ops, u, k, j);
  }

  lemma HasOnlyReader(ops: seq<Op>, k: nat, u: Varnode)
    requires k < |ops| && IsFree(ops, k, u) && IsUsedOnce(ops, k, u)
    ensures OnlyReader(Analysis(ops, k)).Some?
    ensures k < OnlyReader(Analysis(ops, k)).value < |ops|
  {
    AnalysisOfFree(ops, k);
    ReadsMeanAccess(ops, u, k + 1);
    OnlyReaderIff(ops, k, u, OnlyReader(Analysis(ops, k)).value);
  }

  lemma SinkIff(ops: seq<Op>, k: nat, u: Varnode)
    requires k < |ops| && IsFree(ops, k, u)
    ensures SinksOnce(ops, k, Analysis(ops, k)) <==>
      IsUsedOnce(ops, k, u) && exists j :: IsReadFirst(ops, k, j, u) && IsFreeCopy(ops, k, j, u)
  {
    var r := OnlyReader(Analysis(ops, k));
    if r.Some? {
      OnlyReaderIff(ops, k, u, r.value);
      assert SinksInto(ops, k, r.value) <==> IsFreeCopy(ops, k, r.value, u);
    }
    if j :| IsUsedOnce(ops, k, u) && IsReadFirst(ops, k, j, u) && IsFreeCopy(ops, k, j, u) {
      OnlyReaderIff(ops, k, u, j);
    }
  }

  lemma IdleAtFree(ops: seq<Op>, k: nat, u: Varnode)
    requires k < |ops| && IsFree(ops, k, u)
    ensures IsIdle(ops, k) <==> IsCleanFor(ops, k, u)
  {
    AnalysisOfFree(ops, k);
    DeadIff(ops, k, u);
    SinkIff(ops, k, u);
    if IsUsedOnce(ops, k, u) {
      HasOnlyReader(ops, k, u);
    }
  }

  lemma IdleIff(ops: seq<Op>, k: nat)
    requires k < |ops|
    ensures IsIdle(ops, k) <==> IsCleanAt(ops, k)
  {
    AnalysisOfFree(ops, k);
    if Analysis(ops, k).Some? {
      IdleAtFree(ops, k, GetOutput(ops[k]).value);
    }
  }

  /** No structural pass has anything to do anywhere. */
  ghost predicate AllIdle(ops: seq<Op>) {
    forall k :: 0 <= k < |ops| ==> IsIdle(ops, k)
  }

  lemma {:induction false} CollapseIdle(ops: seq<Op>, i: nat)
    requires AllIdle(ops)
    ensures CollapsePass(ops, i) == ops
    decreases |ops| - i
  {
    if i + 1 < |ops| {
      assert IsIdle(ops, i);
      CollapseIdle(ops, i + 1);
    }
  }

  lemma {:induction false} ForwardIdle(ops: seq<Op>, i: nat)
    requires AllIdle(ops)
    ensures ForwardPass(ops, i) == ops
    decreases |ops| - i
  {
    if i < |ops| {
      assert IsIdle(ops, i);
      ForwardIdle(ops, i + 1);
    }
  }

  lemma {:induction false} SweepIdle(ops: seq<Op>, i: nat)
    requires AllIdle(ops) && i <= |ops|
    ensures Survivors(ops, i) == ops[i..]
    decreases |ops| - i
  {
    if i < |ops| {
      assert IsIdle(ops, i);
      SweepIdle(ops, i + 1);
    }
  }

  lemma {:induction false} SinkIdle(ops: seq<Op>, i: nat)
    requires AllIdle(ops)
    ensures SinkPass(ops, i) == ops
    decreases |ops| - i
  {
    if i < |ops| {
      assert IsIdle(ops, i);
      SinkIdle(ops, i + 1);
    }
  }

  lemma {:induction false} CollapseHasNone(ops: seq<Op>, i: nat, k: nat)
    requires CollapsePass(ops, i) == ops && i <= k < |ops|
    ensures !MasksRepeat(ops, k, Analysis(ops, k))
    decreases |ops| - i
  {
    if i + 1 < |ops| {
      if MasksRepeat(ops, i, Analysis(ops, i)) {
        CollapseShortens(Collapse(ops, i), i);
      } else if i < k {
        CollapseHasNone(ops, i + 1, k);
      }
    }
  }

  lemma {:induction false} ForwardHasNone(ops: seq<Op>, i: nat, k: nat)
    requires ForwardPass(ops, i) == ops && i <= k < |ops|
    ensures !CopyOnce(ops, k, Analysis(ops, k))
    decreases |ops| - i
  {
    if CopyOnce(ops, i, Analysis(ops, i)) {
      ForwardShortens(Forward(ops, i, OnlyReader(Analysis(ops, i)).value), i);
    } else if i < k {
      ForwardHasNone(ops, i + 1, k);
    }
  }

  lemma {:induction false} SweepHasNone(ops: seq<Op>, i: nat, k: nat)
    requires i <= k < |ops| && |Survivors(ops, i)| == |ops| - i
    ensures !IsDead(Analysis(ops, k))
    decreases |ops| - i
  {
    if i < k {
      SweepHasNone(ops, i + 1, k);
    }
  }

  lemma {:induction false} SinkHasNone(ops: seq<Op>, i: nat, k: nat)
    requires SinkPass(ops, i) == ops && i <= k < |ops|
    ensures !SinksOnce(ops, k, Analysis(ops, k))
    decreases |ops| - i
  {
    if SinksOnce(ops, i, Analysis(ops, i)) {
      SinkShortens(Sink(ops, i, OnlyReader(Analysis(ops, i)).value), i);
    } else if i < k {
      SinkHasNone(ops, i + 1, k);
    }
  }

  /** Each structural pass is idle, if together they are. */
  lemma StructuralIdle(ops: seq<Op>)
    ensures Structural(ops) == ops <==>
      CollapsePass(ops, 0) == ops && ForwardPass(ops, 0) == ops && Survivors(ops, 0) == ops && SinkPass(ops, 0) == ops
  {
    var a := CollapsePass(ops, 0);
    var b := ForwardPass(a, 0);
    var c := Survivors(b, 0);
    CollapseShortens(ops, 0);
    ForwardShortens(a, 0);
    SweepShortens(b, 0);
    SinkShortens(c, 0);
    assert b[0..] == b;
  }

  lemma IdlePasses(ops: seq<Op>)
    requires AllIdle(ops)
    ensures Structural(ops) == ops
  {
    CollapseIdle(ops, 0);
    ForwardIdle(ops, 0);
    SweepIdle(ops, 0);
    SinkIdle(ops, 0);
    assert ops[0..] == ops;
  }

  lemma PassesIdle(ops: seq<Op>, k: nat)
    requires Structural(ops) == ops && k < |ops|
    ensures IsIdle(ops, k)
  {
    StructuralIdle(ops);
    CollapseHasNone(ops, 0, k);
    ForwardHasNone(ops, 0, k);
    SweepHasNone(ops, 0, k);
    SinkHasNone(ops, 0, k);
  }

  lemma StructuralIdleIff(ops: seq<Op>)
    ensures Structural(ops) == ops <==> AllIdle(ops)
  {
    if AllIdle(ops) {
      IdlePasses(ops);
    } else if Structural(ops) == ops {
      var k :| 0 <= k < |ops| && !IsIdle(ops, k);
      PassesIdle(ops, k);
    }
  }

  lemma SimplifiedIff(ops: seq<Op>)
    ensures SimplifyAll(ops) == ops <==> forall k :: 0 <= k < |ops| ==> SimplifyOp(ops[k]) == ops[k]
  {
    if SimplifyAll(ops) == ops {
      assert forall k :: 0 <= k < |ops| ==> SimplifyAll(ops)[k] == ops[k];
    }
  }

  /** A round changes nothing if and only if there is nothing left to do. */
  lemma FixpointIff(ops: seq<Op>)
    ensures IsFixpoint(ops) <==> IsClean(ops)
  {
    RoundIsStructural(ops);
    StructuralShortens(SimplifyAll(ops));
    SimplifiedIff(ops);
    StructuralIdleIff(ops);
    forall k | 0 <= k < |ops|
      ensures IsIdle(ops, k) <==> IsCleanAt(ops, k)
    {
      IdleIff(ops, k);
    }
  }

  /** What the four rounds leave, if one of them was idle or there were at most four
      operations: nothing to do. */
  lemma OptimizedIsClean(ops: seq<Op>, n: nat)
    requires Settles(ops, n) || |ops| <= n
    ensures IsClean(Rounds(ops, n))
  {
    EnoughRounds(ops, n);
    FixpointIff(Rounds(ops, n));
  }
}

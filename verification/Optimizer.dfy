/** The peephole optimizer: its passes and rounds as functions of the sequence, and the
    proof that they preserve meaning. */
module Optimizer {
  import opened Options
  import opened Pcode
  import opened Semantics
  import opened Folding
  import opened Liveness
  import opened Rewrites
  import opened Discipline

  // ----- the passes -----

  /** Passes 0, 1 and 1b. */
  function SimplifyAll(ops: seq<Op>): (r: seq<Op>)
    ensures |r| == |ops| && forall k :: 0 <= k < |ops| ==> r[k] == SimplifyOp(ops[k])
  {
    seq(|ops|, k requires 0 <= k < |ops| => SimplifyOp(ops[k]))
  }

  /** Pass 1a collapses the masks at `i` and `i + 1`. */
  predicate MasksRepeat(ops: seq<Op>, i: nat, info: Option<Info>) {
    && i + 1 < |ops| && IsMask(ops[i]) && IsMask(ops[i + 1])
    && ops[i].out.space == Unique && ops[i].right.space == Const
    && ops[i + 1].left == ops[i].out && ops[i + 1].right == ops[i].right
    && info.Some? && info.value.futureReads == 1
  }

  ghost function CollapsePass(ops: seq<Op>, i: nat): seq<Op>
    decreases |ops| - i
  {
    if i + 1 >= |ops| then ops
    else if MasksRepeat(ops, i, Analysis(ops, i)) then CollapsePass(Collapse(ops, i), i)
    else CollapsePass(ops, i + 1)
  }

  /** The only reader of the temporary that `info` is about, if there is just one read. */
  function OnlyReader(info: Option<Info>): Option<nat> {
    if info.Some? && info.value.futureReads == 1 && info.value.nextAccess.Some?
       && info.value.nextAccess.value.Read?
    then Some(info.value.nextAccess.value.at) else None
  }

  /** Pass 2 forwards the Copy at `i`. */
  predicate CopyOnce(ops: seq<Op>, i: nat, info: Option<Info>) {
    && i < |ops| && ops[i].Copy? && ops[i].out.space == Unique
    && OnlyReader(info).Some? && i < OnlyReader(info).value < |ops|
  }

  ghost function ForwardPass(ops: seq<Op>, i: nat): seq<Op>
    decreases |ops| - i
  {
    if i >= |ops| then ops
    else if CopyOnce(ops, i, Analysis(ops, i)) then ForwardPass(Forward(ops, i, OnlyReader(Analysis(ops, i)).value), i)
    else ForwardPass(ops, i + 1)
  }

  /** Passes 2b and 3 drop the op that `info` is about. */
  predicate IsDead(info: Option<Info>) {
    info.Some? && (info.value.futureReads == 0 || info.value.nextAccess == Some(Write))
  }

  /** The ops from `k` on that are not dead in the sequence as a whole. */
  ghost function Survivors(ops: seq<Op>, k: nat): (r: seq<Op>)
    requires k <= |ops|
    ensures |r| <= |ops| - k
    decreases |ops| - k
  {
    if k == |ops| then []
    else (if IsDead(Analysis(ops, k)) then [] else [ops[k]]) + Survivors(ops, k + 1)
  }

  /** Pass 4 sinks the temporary written at `i` into the Copy at `j`. */
  predicate SinksInto(ops: seq<Op>, i: nat, j: nat) {
    && i < j < |ops| && GetOutput(ops[i]).Some? && ops[j].Copy? && ops[j].input == GetOutput(ops[i]).value
    && forall k :: i < k < j ==> CountReads(ops[k], ops[j].out) == 0 && !WritesTo(ops[k], ops[j].out)
  }

  predicate SinksOnce(ops: seq<Op>, i: nat, info: Option<Info>) {
    OnlyReader(info).Some? && SinksInto(ops, i, OnlyReader(info).value)
  }

  ghost function SinkPass(ops: seq<Op>, i: nat): seq<Op>
    decreases |ops| - i
  {
    if i >= |ops| then ops
    else if SinksOnce(ops, i, Analysis(ops, i)) then SinkPass(Sink(ops, i, OnlyReader(Analysis(ops, i)).value), i)
    else SinkPass(ops, i + 1)
  }

  /** The passes in order. */
  ghost function Passes(ops: seq<Op>): seq<Op> {
    SinkPass(Survivors(ForwardPass(CollapsePass(SimplifyAll(ops), 0), 0), 0), 0)
  }

  /** Names a sequence whose passes a proof wants to look into. */
  ghost predicate Traced(ops: seq<Op>) { true }

  /** `r` is the result of the passes. Folded: it opens only for a sequence named by
      `Traced`, which keeps the passes out of the proofs about several rounds. */
  ghost predicate IsRound(ops: seq<Op>, r: seq<Op>) {
    forall p {:trigger Traced(p)} :: Traced(p) && p == ops ==> r == Passes(p)
  }

  ghost function Round(ops: seq<Op>): seq<Op> {
    assert IsRound(ops, Passes(ops));
    var r :| IsRound(ops, r);
    r
  }

  /** Look into a round. */
  lemma RoundIs(ops: seq<Op>)
    ensures Round(ops) == Passes(ops)
  {
    assert Traced(ops);
  }

  /** Up to `n` rounds, stopping after one that does not shorten the sequence. */
  ghost function Rounds(ops: seq<Op>, n: nat): seq<Op>
    decreases n
  {
    if n == 0 then ops
    else if |Round(ops)| == |ops| then Round(ops)
    else Rounds(Round(ops), n - 1)
  }

  // ----- from the analysis to the local conditions -----

  lemma {:induction false} NoReadsIsDead(ops: seq<Op>, u: Varnode, k: nat)
    requires k <= |ops| && FutureReads(ops, u, k) == 0 && !HoldsAddress(ops, u)
    ensures DeadFrom(ops, k, u)
    decreases |ops| - k
  {
    if k < |ops| && GetOutput(ops[k]) != Some(u) {
      NoReadsIsDead(ops, u, k + 1);
    }
  }

  /** A temporary the analysis reports as dead is dead. */
  lemma DeadIsDead(ops: seq<Op>, i: nat)
    requires i < |ops| && IsDead(Analysis(ops, i))
    ensures IsTemp(ops[i]) && DeadFrom(ops, i + 1, GetOutput(ops[i]).value)
  {
    var u := GetOutput(ops[i]).value;
    if NextAccess(ops, u, i + 1) == Some(Write) {
      NextWriteMeansNoReads(ops, u, i + 1);
    }
    NoReadsIsDead(ops, u, i + 1);
  }

  lemma OneReadThenDead(ops: seq<Op>, u: Varnode, j: nat)
    requires j < |ops| && FutureReads(ops, u, j) == 1 && CountReads(ops[j], u) > 0 && !HoldsAddress(ops, u)
    ensures GetOutput(ops[j]) == Some(u) || DeadFrom(ops, j + 1, u)
    ensures CountReads(ops[j], u) == 1
  {
    if GetOutput(ops[j]) != Some(u) {
      NoReadsIsDead(ops, u, j + 1);
    }
  }

  /** A temporary with one reader is untouched before it and dead after it. */
  lemma OnlyReaderMeans(ops: seq<Op>, i: nat)
    requires i < |ops| && OnlyReader(Analysis(ops, i)).Some? && OpsOk(ops)
    ensures IsTemp(ops[i])
    ensures var u, j := GetOutput(ops[i]).value, OnlyReader(Analysis(ops, i)).value;
      && i < j < |ops| && u in Reads(ops[j]) && Untouched(ops, i + 1, j, u)
      && !(IsThroughRam(ops[j]) && ops[j].dest.offset == u.offset)
      && (GetOutput(ops[j]) == Some(u) || DeadFrom(ops, j + 1, u))
  {
    var u, j := GetOutput(ops[i]).value, OnlyReader(Analysis(ops, i)).value;
    NextAccessIsFirst(ops, u, i + 1, j);
    OneReadThenDead(ops, u, j);
    UntouchedBetween(ops, u, i + 1, j);
  }

  lemma UntouchedBetween(ops: seq<Op>, u: Varnode, lo: nat, hi: nat)
    requires hi <= |ops| && OpsOk(ops) && u.space == Unique && !HoldsAddress(ops, u)
    requires forall k :: lo <= k < hi ==> CountReads(ops[k], u) == 0 && GetOutput(ops[k]) != Some(u)
    ensures Untouched(ops, lo, hi, u)
  {
    forall k | lo <= k < hi ensures !Uses(ops[k], u) && !WritesTo(ops[k], u) {
      assert OpOk(ops[k]);
    }
  }

  // ----- each pass keeps the discipline and the meaning -----

  /** What every pass guarantees. */
  ghost predicate Improves(p: seq<Op>, q: seq<Op>) {
    WellFormed(q) && Equivalent(p, q) && |q| <= |p|
  }

  lemma ImprovesTransitive(p: seq<Op>, q: seq<Op>, r: seq<Op>)
    requires Improves(p, q) && Improves(q, r)
    ensures Improves(p, r)
  {
    EquivalentTransitive(p, q, r);
  }

  lemma ImprovesSelf(p: seq<Op>)
    requires WellFormed(p)
    ensures Improves(p, p)
  {
  }

  lemma SimplifyAllImproves(ops: seq<Op>)
    requires WellFormed(ops)
    ensures Improves(ops, SimplifyAll(ops))
  {
    var from, to :| Labelled(ops, from, to);
    forall k | 0 <= k < |ops| ensures Simplifies(ops[k], SimplifyAll(ops)[k]) {
      assert OpOk(ops[k]);
      SimplifyOpSound(ops[k]);
    }
    PointwiseSound(ops, SimplifyAll(ops));
    PointwiseKeeps(ops, SimplifyAll(ops), from, to);
  }

  lemma CollapseImproves(ops: seq<Op>, i: nat)
    requires WellFormed(ops) && i < |ops| && MasksRepeat(ops, i, Analysis(ops, i))
    ensures Improves(ops, Collapse(ops, i))
  {
    var from, to :| Labelled(ops, from, to);
    RepeatCanCollapse(ops, i);
    CollapseSound(ops, i);
    var from' := MoveUpKeeps(ops, i, i + 1, from, to);
  }

  lemma RepeatCanCollapse(ops: seq<Op>, i: nat)
    requires OpsOk(ops) && i < |ops| && MasksRepeat(ops, i, Analysis(ops, i))
    ensures CanCollapse(ops, i) && IsTemp(ops[i])
    ensures ops[i].out in Reads(ops[i + 1]) && ops[i].out in CopySources(ops[i + 1])
  {
    assert OpOk(ops[i]) && OpOk(ops[i + 1]);
    assert ops[i].out == Reads(ops[i + 1])[0] && ops[i].out == CopySources(ops[i + 1])[0];
    OneReadThenDead(ops, ops[i].out, i + 1);
  }

  lemma {:induction false} CollapsePassImproves(ops: seq<Op>, i: nat)
    requires WellFormed(ops)
    ensures Improves(ops, CollapsePass(ops, i))
    decreases |ops| - i
  {
    if i + 1 >= |ops| {
      ImprovesSelf(ops);
    } else if MasksRepeat(ops, i, Analysis(ops, i)) {
      CollapseImproves(ops, i);
      CollapsePassImproves(Collapse(ops, i), i);
      ImprovesTransitive(ops, Collapse(ops, i), CollapsePass(ops, i));
    } else {
      CollapsePassImproves(ops, i + 1);
    }
  }

  /** The source of a forwarded copy is not written before the read. */
  lemma SourceStable(ops: seq<Op>, i: nat, j: nat, k: nat, from: Labels, to: Labels)
    requires Labelled(ops, from, to) && i < k < j < |ops|
    requires ops[i].Copy? && IsTemp(ops[i]) && ops[i].out in Reads(ops[j])
    ensures !WritesTo(ops[k], ops[i].input)
  {
    var w := ops[i].input;
    assert w in Reads(ops[i]) && w in CopySources(ops[i]);
    assert OpFlowsOk(from, to, ops[i]) && FlowOk(from, to, w, ops[i].out) && OpOk(ops[i]) && OpOk(ops[k]);
    if w.space == Register {
      assert Carries(from, ops[i], ops[j], w);
      assert !MayWrite(to, ops[k], w);
    }
  }

  lemma ForwardImproves(ops: seq<Op>, i: nat)
    requires WellFormed(ops) && i < |ops| && CopyOnce(ops, i, Analysis(ops, i))
    ensures Improves(ops, Forward(ops, i, OnlyReader(Analysis(ops, i)).value))
  {
    var from, to :| Labelled(ops, from, to);
    var j := OnlyReader(Analysis(ops, i)).value;
    OnlyReaderMeans(ops, i);
    assert OpOk(ops[i]) && ops[i].input in Reads(ops[i]);
    forall k | i < k < j ensures !WritesTo(ops[k], ops[i].input) {
      SourceStable(ops, i, j, k, from, to);
    }
    ForwardSound(ops, i, j);
    ForwardKeeps(ops, i, j, from, to);
  }

  lemma {:induction false} ForwardPassImproves(ops: seq<Op>, i: nat)
    requires WellFormed(ops)
    ensures Improves(ops, ForwardPass(ops, i))
    decreases |ops| - i
  {
    if i >= |ops| {
      ImprovesSelf(ops);
    } else if CopyOnce(ops, i, Analysis(ops, i)) {
      var ops' := Forward(ops, i, OnlyReader(Analysis(ops, i)).value);
      ForwardImproves(ops, i);
      ForwardPassImproves(ops', i);
      ImprovesTransitive(ops, ops', ForwardPass(ops, i));
    } else {
      ForwardPassImproves(ops, i + 1);
    }
  }

  // Removal of all dead writes at once: taking them out back to front, each one is
  // still dead when its turn comes.

  /** Deadness is a matter of what follows. */
  lemma {:induction false} DeadSameSuffix(p: seq<Op>, i: nat, q: seq<Op>, j: nat, u: Varnode)
    requires i <= |p| && j <= |q| && p[i..] == q[j..] && DeadFrom(p, i, u)
    ensures DeadFrom(q, j, u)
    decreases |p| - i
  {
    assert |p| - i == |q| - j;
    if i < |p| {
      assert p[i..][0] == q[j..][0];
      if !WritesTo(p[i], u) {
        assert p[i + 1..] == p[i..][1..] && q[j + 1..] == q[j..][1..];
        DeadSameSuffix(p, i + 1, q, j + 1, u);
      }
    }
  }

  /** What is dead before a dead write is dead behind it, and there once it is removed. */
  lemma DeadInPlace(ops: seq<Op>, x: nat, u: Varnode)
    requires x < |ops| && IsTemp(ops[x]) && DeadFrom(ops, x + 1, GetOutput(ops[x]).value) && DeadFrom(ops, x, u)
    ensures DeadFrom(RemoveAt(ops, x), x, u)
  {
    assert WritesTo(ops[x], u) ==> GetOutput(ops[x]) == Some(u);
    assert RemoveAt(ops, x)[x..] == ops[x + 1..];
    DeadSameSuffix(ops, x + 1, RemoveAt(ops, x), x, u);
  }

  /** Removing a dead write cannot make another temporary live. */
  lemma {:induction false} DeadAfterRemoval(ops: seq<Op>, x: nat, k: nat, u: Varnode)
    requires k <= x < |ops| && IsTemp(ops[x]) && DeadFrom(ops, x + 1, GetOutput(ops[x]).value)
    requires DeadFrom(ops, k, u)
    ensures DeadFrom(RemoveAt(ops, x), k, u)
    decreases x - k
  {
    if k == x {
      DeadInPlace(ops, x, u);
    } else {
      assert RemoveAt(ops, x)[k] == ops[k];
      if !WritesTo(ops[k], u) {
        DeadAfterRemoval(ops, x, k + 1, u);
      }
    }
  }

  ghost function Swept(ops: seq<Op>, k: nat): (r: seq<Op>)
    requires k <= |ops|
    ensures |r| <= |ops| && k <= |r|
    ensures forall a :: 0 <= a < k ==> r[a] == ops[a]
  {
    ops[..k] + Survivors(ops, k)
  }

  lemma SweptOne(ops: seq<Op>, k: nat)
    requires k < |ops|
    ensures |Swept(ops, k + 1)| > k
    ensures Swept(ops, k) == if IsDead(Analysis(ops, k)) then RemoveAt(Swept(ops, k + 1), k) else Swept(ops, k + 1)
  {
    var after := Survivors(ops, k + 1);
    assert ops[..k + 1] == ops[..k] + [ops[k]];
    RemoveMiddle(ops[..k], ops[k], after);
    if IsDead(Analysis(ops, k)) {
      assert Survivors(ops, k) == [] + after == after;
    } else {
      assert Survivors(ops, k) == [ops[k]] + after;
    }
  }

  lemma RemoveMiddle(before: seq<Op>, op: Op, after: seq<Op>)
    ensures RemoveAt(before + [op] + after, |before|) == before + after
    ensures before + [op] + after == before + ([op] + after)
  {
  }

  /** What the analysis of `ops` found dead below `k` is dead in `r`, which shares that part. */
  ghost predicate StillDead(ops: seq<Op>, r: seq<Op>, k: nat)
    requires k <= |ops| && k <= |r|
  {
    forall a :: 0 <= a < k && IsDead(Analysis(ops, a)) ==>
      IsTemp(ops[a]) && r[a] == ops[a] && DeadFrom(r, a + 1, GetOutput(ops[a]).value)
  }

  lemma StillDeadAfter(ops: seq<Op>, r: seq<Op>, k: nat)
    requires k < |ops| && k < |r| && IsDead(Analysis(ops, k)) && StillDead(ops, r, k + 1)
    ensures StillDead(ops, RemoveAt(r, k), k)
  {
    forall a | 0 <= a < k && IsDead(Analysis(ops, a)) ensures DeadFrom(RemoveAt(r, k), a + 1, GetOutput(ops[a]).value) {
      DeadAfterRemoval(r, k, a + 1, GetOutput(ops[a]).value);
    }
  }

  lemma RemoveImproves(ops: seq<Op>, k: nat)
    requires WellFormed(ops) && k < |ops| && IsTemp(ops[k]) && DeadFrom(ops, k + 1, GetOutput(ops[k]).value)
    ensures Improves(ops, RemoveAt(ops, k))
  {
    var from, to :| Labelled(ops, from, to);
    RemoveKeeps(ops, k, from, to);
    RemoveDeadSound(ops, k);
  }

  lemma AllDead(ops: seq<Op>)
    ensures StillDead(ops, ops, |ops|)
  {
    forall a | 0 <= a < |ops| && IsDead(Analysis(ops, a))
      ensures IsTemp(ops[a]) && DeadFrom(ops, a + 1, GetOutput(ops[a]).value)
    {
      DeadIsDead(ops, a);
    }
  }

  lemma {:induction false} SweepImproves(ops: seq<Op>, k: nat)
    requires WellFormed(ops) && k <= |ops|
    ensures Improves(ops, Swept(ops, k)) && StillDead(ops, Swept(ops, k), k)
    decreases |ops| - k
  {
    if k == |ops| {
      assert Swept(ops, k) == ops;
      ImprovesSelf(ops);
      AllDead(ops);
    } else {
      SweepImproves(ops, k + 1);
      SweptOne(ops, k);
      if IsDead(Analysis(ops, k)) {
        var r := Swept(ops, k + 1);
        RemoveImproves(r, k);
        ImprovesTransitive(ops, r, RemoveAt(r, k));
        StillDeadAfter(ops, r, k);
      }
    }
  }

  lemma SurvivorsImprove(ops: seq<Op>)
    requires WellFormed(ops)
    ensures Improves(ops, Survivors(ops, 0))
  {
    SweepImproves(ops, 0);
    assert Swept(ops, 0) == Survivors(ops, 0);
  }

  lemma SinkImproves(ops: seq<Op>, i: nat)
    requires WellFormed(ops) && i < |ops| && SinksOnce(ops, i, Analysis(ops, i))
    ensures Improves(ops, Sink(ops, i, OnlyReader(Analysis(ops, i)).value))
  {
    var from, to :| Labelled(ops, from, to);
    var j := OnlyReader(Analysis(ops, i)).value;
    OnlyReaderMeans(ops, i);
    assert OpOk(ops[j]);
    var d := ops[j].out;
    assert Untouched(ops, i + 1, j, d);
    assert ops[j].input == CopySources(ops[j])[0];
    SinkSound(ops, i, j);
    var from' := MoveUpKeeps(ops, i, j, from, to);
  }

  lemma {:induction false} SinkPassImproves(ops: seq<Op>, i: nat)
    requires WellFormed(ops)
    ensures Improves(ops, SinkPass(ops, i))
    decreases |ops| - i
  {
    if i >= |ops| {
      ImprovesSelf(ops);
    } else if SinksOnce(ops, i, Analysis(ops, i)) {
      var ops' := Sink(ops, i, OnlyReader(Analysis(ops, i)).value);
      SinkImproves(ops, i);
      SinkPassImproves(ops', i);
      ImprovesTransitive(ops, ops', SinkPass(ops, i));
    } else {
      SinkPassImproves(ops, i + 1);
    }
  }

  lemma RoundImproves(ops: seq<Op>)
    requires WellFormed(ops)
    ensures Improves(ops, Round(ops))
  {
    RoundIs(ops);
    var a := SimplifyAll(ops);
    var b := CollapsePass(a, 0);
    var c := ForwardPass(b, 0);
    var d := Survivors(c, 0);
    SimplifyAllImproves(ops);
    CollapsePassImproves(a, 0);
    ImprovesTransitive(ops, a, b);
    ForwardPassImproves(b, 0);
    ImprovesTransitive(ops, b, c);
    SurvivorsImprove(c);
    ImprovesTransitive(ops, c, d);
    SinkPassImproves(d, 0);
    ImprovesTransitive(ops, d, SinkPass(d, 0));
  }

  /** Optimizing a well-formed sequence, for any number of rounds, keeps it well
      formed, does not lengthen it, and preserves its outcome on every machine. */
  lemma {:induction false} RoundsImprove(ops: seq<Op>, n: nat)
    requires WellFormed(ops)
    ensures Improves(ops, Rounds(ops, n))
    decreases n
  {
    if n == 0 {
      ImprovesSelf(ops);
    } else {
      RoundImproves(ops);
      if |Round(ops)| != |ops| {
        RoundsImprove(Round(ops), n - 1);
        ImprovesTransitive(ops, Round(ops), Rounds(ops, n));
      }
    }
  }
}

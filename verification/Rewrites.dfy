/** The structural rewrites of the optimizer, each sound under its own local condition. */
module Rewrites {
  import opened Words
  import opened Options
  import opened Pcode
  import opened Semantics
  import opened Folding

  /** From `k` on, `u` is not used before it is written again (or at all). */
  predicate DeadFrom(ops: seq<Op>, k: nat, u: Varnode)
    requires k <= |ops|
    decreases |ops| - k
  {
    k == |ops| || (!Uses(ops[k], u) && (WritesTo(ops[k], u) || DeadFrom(ops, k + 1, u)))
  }

  /** `u` is neither used nor written in `ops[lo..hi]`. */
  predicate Untouched(ops: seq<Op>, lo: nat, hi: nat, u: Varnode) {
    forall k :: lo <= k < hi && k < |ops| ==> !Uses(ops[k], u) && !WritesTo(ops[k], u)
  }

  /** States that differ only in a dead temporary have the same outcome. */
  lemma {:induction false} DeadAgrees(m: Machine, ops: seq<Op>, k: nat, u: Varnode, s: State, t: State)
    requires k <= |ops| && u.space == Unique && DeadFrom(ops, k, u)
    requires AgreeExcept(s, t, {u})
    ensures SameOutcome(RunRange(m, ops, k, |ops|, s), RunRange(m, ops, k, |ops|, t))
    decreases |ops| - k
  {
    if k < |ops| {
      StepAgrees(m, ops[k], s, t, {u});
      var s', t' := Step(m, ops[k], s), Step(m, ops[k], t);
      if WritesTo(ops[k], u) {
        RunAgrees(m, ops, k + 1, |ops|, s', t', {});
      } else {
        DeadAgrees(m, ops, k + 1, u, s', t');
      }
    }
  }

  /** The states after a rewritten stretch differ at most in a dead temporary. */
  ghost predicate Joins(ops: seq<Op>, k: nat, u: Varnode, s: State, t: State)
    requires k <= |ops|
  {
    AgreeExcept(s, t, {}) || (AgreeExcept(s, t, {u}) && u.space == Unique && DeadFrom(ops, k, u))
  }

  lemma JoinedOutcome(m: Machine, ops: seq<Op>, k: nat, u: Varnode, s: State, t: State)
    requires k <= |ops| && Joins(ops, k, u, s, t)
    ensures SameOutcome(RunRange(m, ops, k, |ops|, s), RunRange(m, ops, k, |ops|, t))
  {
    if AgreeExcept(s, t, {}) {
      RunAgrees(m, ops, k, |ops|, s, t, {});
    } else {
      DeadAgrees(m, ops, k, u, s, t);
    }
  }

  /** Sequences that share all but the stretch `i..=j`, one op shorter in `ops'`, are
      equivalent if that stretch leads to joining states. */
  lemma StretchSound(ops: seq<Op>, ops': seq<Op>, i: nat, j: nat, u: Varnode)
    requires i <= j < |ops| == |ops'| + 1
    requires forall k :: 0 <= k < i ==> ops[k] == ops'[k]
    requires forall k :: j < k < |ops| ==> ops[k] == ops'[k - 1]
    requires forall m, s :: Joins(ops, j + 1, u, RunRange(m, ops, i, j + 1, s), RunRange(m, ops', i, j, s))
    ensures Equivalent(ops, ops')
  {
    forall m, s ensures SameOutcome(Run(m, ops, s), Run(m, ops', s)) {
      StretchOutcome(m, ops, ops', i, j, u, s, RunRange(m, ops, 0, i, s));
    }
  }

  lemma StretchOutcome(
    m: Machine, ops: seq<Op>, ops': seq<Op>, i: nat, j: nat, u: Varnode, s: State, s1: State)
    requires i <= j < |ops| == |ops'| + 1
    requires forall k :: 0 <= k < i ==> ops[k] == ops'[k]
    requires forall k :: j < k < |ops| ==> ops[k] == ops'[k - 1]
    requires s1 == RunRange(m, ops, 0, i, s)
    requires Joins(ops, j + 1, u, RunRange(m, ops, i, j + 1, s1), RunRange(m, ops', i, j, s1))
    ensures SameOutcome(Run(m, ops, s), Run(m, ops', s))
  {
    JoinedOutcome(m, ops, j + 1, u, RunRange(m, ops, i, j + 1, s1), RunRange(m, ops', i, j, s1));
    RunThree(m, ops, i, j + 1, s);
    RestOfRun(m, ops, ops', i, j, s);
  }

  lemma RestOfRun(m: Machine, ops: seq<Op>, ops': seq<Op>, i: nat, j: nat, s: State)
    requires i <= j < |ops| == |ops'| + 1
    requires forall k :: 0 <= k < i ==> ops[k] == ops'[k]
    requires forall k :: j < k < |ops| ==> ops[k] == ops'[k - 1]
    ensures var t2 := RunRange(m, ops', i, j, RunRange(m, ops, 0, i, s));
            Run(m, ops', s) == RunRange(m, ops, j + 1, |ops|, t2)
  {
    RunSame(m, ops, ops', 0, i, 0, s);
    RunThree(m, ops', i, j, s);
    RunSame(m, ops, ops', j + 1, |ops|, -1, RunRange(m, ops', i, j, RunRange(m, ops, 0, i, s)));
  }

  lemma RunOne(m: Machine, ops: seq<Op>, i: nat, s: State)
    requires i < |ops|
    ensures RunRange(m, ops, i, i + 1, s) == Step(m, ops[i], s)
  {
    assert RunRange(m, ops, i + 1, i + 1, Step(m, ops[i], s)) == Step(m, ops[i], s);
  }

  /** Run the first op, the middle, then the last. */
  lemma RunEnds(m: Machine, ops: seq<Op>, i: nat, j: nat, s: State)
    requires i < j < |ops|
    ensures RunRange(m, ops, i, j + 1, s)
         == Step(m, ops[j], RunRange(m, ops, i + 1, j, Step(m, ops[i], s)))
  {
    var s' := Step(m, ops[i], s);
    RunSplit(m, ops, i + 1, j, j + 1, s');
    RunOne(m, ops, j, RunRange(m, ops, i + 1, j, s'));
  }

  // ----- removing a dead write -----

  lemma RemoveDeadSound(ops: seq<Op>, i: nat)
    requires i < |ops| && GetOutput(ops[i]).Some?
    requires var u := GetOutput(ops[i]).value; u.space == Unique && DeadFrom(ops, i + 1, u)
    ensures Equivalent(ops, RemoveAt(ops, i))
  {
    var u, ops' := GetOutput(ops[i]).value, RemoveAt(ops, i);
    forall m, s
      ensures Joins(ops, i + 1, u, RunRange(m, ops, i, i + 1, s), RunRange(m, ops', i, i, s))
    {
      RunOne(m, ops, i, s);
      OutputStep(m, ops[i], s);
    }
    StretchSound(ops, ops', i, i, u);
  }

  // ----- forwarding a copy to its one reader -----

  function Forward(ops: seq<Op>, i: nat, j: nat): (r: seq<Op>)
    requires i < j < |ops| && ops[i].Copy?
    ensures |r| == |ops| - 1
    ensures forall k :: 0 <= k < i ==> r[k] == ops[k]
    ensures forall k :: i < k < |ops| && k != j ==> r[k - 1] == ops[k]
    ensures r[j - 1] == ReplaceReads(ops[j], ops[i].out, ops[i].input)
  {
    RemoveAt(ops[j := ReplaceReads(ops[j], ops[i].out, ops[i].input)], i)
  }

  /** Nothing between the copy at `i` and its reader at `j` touches the copy or
      writes its source, and the copy is not needed after `j`. */
  predicate CanForward(ops: seq<Op>, i: nat, j: nat) {
    && i < j < |ops| && ops[i].Copy?
    && var u, w := ops[i].out, ops[i].input;
    && u.space == Unique && w.space != Ram && u.size == w.size
    && Untouched(ops, i + 1, j, u)
    && (forall k :: i < k < j ==> !WritesTo(ops[k], w))
    && !(IsThroughRam(ops[j]) && ops[j].dest.offset == u.offset)
    && (WritesTo(ops[j], u) || DeadFrom(ops, j + 1, u))
  }

  /** A Copy gives its output the value of its input and changes nothing else. */
  lemma CopyStep(m: Machine, op: Op, s: State)
    requires op.Copy? && op.out.size == op.input.size && op.out.space != Const
    ensures Get(Step(m, op, s), op.out) == Get(s, op.input)
    ensures AgreeExcept(Step(m, op, s), s, {op.out})
  {
    OutputStep(m, op, s);
    WrapSmall(Get(s, op.input), op.out.size);
  }

  /** The reader of the copy and its rewritten form, in states that agree except on
      the copy, where the source still has the copy's value. */
  lemma ForwardStep(m: Machine, op: Op, u: Varnode, w: Varnode, s: State, t: State)
    requires u.space == Unique && w.space != Ram && u.size == w.size
    requires AgreeExcept(s, t, {u}) && Get(t, w) == Get(s, u)
    requires !(IsThroughRam(op) && op.dest.offset == u.offset)
    ensures var op' := ReplaceReads(op, u, w);
            && AgreeExcept(Step(m, op, s), Step(m, op', t), {u})
            && (WritesTo(op, u) ==> AgreeExcept(Step(m, op, s), Step(m, op', t), {}))
  {
    forall v | v in Reads(op) ensures Get(s, v) == Get(t, Subst(v, u, w)) {
    }
    ReplacedSameEffect(m, op, u, w, s, t);
    SameEffectAgrees(m, op, ReplaceReads(op, u, w), s, t, {u});
  }

  /** A location that a stretch does not touch keeps its value. */
  lemma UntouchedFrame(m: Machine, ops: seq<Op>, lo: nat, hi: nat, s: State, u: Varnode)
    requires lo <= hi <= |ops| && Untouched(ops, lo, hi, u)
    ensures Get(RunRange(m, ops, lo, hi, s), u) == Get(s, u)
  {
    RunFrame(m, ops, lo, hi, s, u);
  }

  lemma ForwardMiddle(m: Machine, ops: seq<Op>, i: nat, j: nat, s: State, s1: State)
    requires CanForward(ops, i, j) && Get(s1, ops[i].out) == Get(s, ops[i].input)
    ensures Get(RunRange(m, ops, i + 1, j, s1), ops[i].out) == Get(RunRange(m, ops, i + 1, j, s), ops[i].input)
  {
    UntouchedFrame(m, ops, i + 1, j, s1, ops[i].out);
    RunFrame(m, ops, i + 1, j, s, ops[i].input);
  }

  lemma ForwardJoins(m: Machine, ops: seq<Op>, i: nat, j: nat, s: State, s1: State)
    requires CanForward(ops, i, j)
    requires AgreeExcept(s1, s, {ops[i].out}) && Get(s1, ops[i].out) == Get(s, ops[i].input)
    ensures var s2, t2 := RunRange(m, ops, i + 1, j, s1), RunRange(m, ops, i + 1, j, s);
            Joins(ops, j + 1, ops[i].out, Step(m, ops[j], s2),
                  Step(m, ReplaceReads(ops[j], ops[i].out, ops[i].input), t2))
  {
    RunAgrees(m, ops, i + 1, j, s1, s, {ops[i].out});
    ForwardMiddle(m, ops, i, j, s, s1);
    ForwardStep(m, ops[j], ops[i].out, ops[i].input, RunRange(m, ops, i + 1, j, s1), RunRange(m, ops, i + 1, j, s));
  }

  lemma ForwardStretch(m: Machine, ops: seq<Op>, i: nat, j: nat, s: State)
    requires CanForward(ops, i, j)
    ensures Joins(ops, j + 1, ops[i].out, RunRange(m, ops, i, j + 1, s), RunRange(m, Forward(ops, i, j), i, j, s))
  {
    CopyStep(m, ops[i], s);
    ForwardJoins(m, ops, i, j, s, Step(m, ops[i], s));
    RunEnds(m, ops, i, j, s);
    ForwardedRun(m, ops, i, j, s);
  }

  lemma ForwardedRun(m: Machine, ops: seq<Op>, i: nat, j: nat, s: State)
    requires i < j < |ops| && ops[i].Copy?
    ensures RunRange(m, Forward(ops, i, j), i, j, s)
         == Step(m, ReplaceReads(ops[j], ops[i].out, ops[i].input), RunRange(m, ops, i + 1, j, s))
  {
    MovedUpRun(m, ops, Forward(ops, i, j), i, j, s);
  }

  /** The middle of `ops` one place earlier in `ops'`, then another operation. */
  lemma MovedUpRun(m: Machine, ops: seq<Op>, ops': seq<Op>, i: nat, j: nat, s: State)
    requires i < j < |ops| && j <= |ops'| && forall k :: i < k < j ==> ops'[k - 1] == ops[k]
    ensures RunRange(m, ops', i, j, s) == Step(m, ops'[j - 1], RunRange(m, ops, i + 1, j, s))
  {
    RunSame(m, ops, ops', i + 1, j, -1, s);
    RunSplit(m, ops', i, j - 1, j, s);
    RunOne(m, ops', j - 1, RunRange(m, ops', i, j - 1, s));
  }

  lemma ForwardSound(ops: seq<Op>, i: nat, j: nat)
    requires CanForward(ops, i, j)
    ensures Equivalent(ops, Forward(ops, i, j))
  {
    forall m, s
      ensures Joins(ops, j + 1, ops[i].out, RunRange(m, ops, i, j + 1, s), RunRange(m, Forward(ops, i, j), i, j, s))
    {
      ForwardStretch(m, ops, i, j, s);
    }
    StretchSound(ops, Forward(ops, i, j), i, j, ops[i].out);
  }

  // ----- sinking a temporary into the destination of its copy -----

  function Sink(ops: seq<Op>, i: nat, j: nat): (r: seq<Op>)
    requires i < j < |ops| && ops[j].Copy?
    ensures |r| == |ops| - 1
    ensures forall k :: 0 <= k < j && k != i ==> r[k] == ops[k]
    ensures forall k :: j < k < |ops| ==> r[k - 1] == ops[k]
    ensures r[i] == WithOutput(ops[i], ops[j].out)
  {
    RemoveAt(ops[i := WithOutput(ops[i], ops[j].out)], j)
  }

  /** The temporary written at `i` goes only into the Copy at `j`, whose destination
      nothing in between touches. */
  predicate CanSink(ops: seq<Op>, i: nat, j: nat) {
    && i < j < |ops| && ops[j].Copy? && GetOutput(ops[i]) == Some(ops[j].input)
    && var u, d := ops[j].input, ops[j].out;
    && u.space == Unique && d.space != Const && d.size == u.size
    && Untouched(ops, i + 1, j, u) && Untouched(ops, i + 1, j, d)
    && (d == u || DeadFrom(ops, j + 1, u))
  }

  lemma WithOutputSameResult(m: Machine, op: Op, d: Varnode, s: State)
    requires GetOutput(op).Some? && GetOutput(op).value.size == d.size
    ensures Result(m, WithOutput(op, d), s) == Result(m, op, s)
  {
  }

  lemma SinkStart(m: Machine, op: Op, u: Varnode, d: Varnode, s: State)
    requires GetOutput(op) == Some(u) && u.size == d.size && u.space != Const && d.space != Const
    ensures var s', t' := Step(m, op, s), Step(m, WithOutput(op, d), s);
            AgreeExcept(s', t', {u, d}) && Get(s', u) == Get(t', d)
  {
    WithOutputSameResult(m, op, d, s);
    OutputStep(m, op, s);
    OutputStep(m, WithOutput(op, d), s);
  }

  lemma SinkEnd(m: Machine, op: Op, s: State, t: State)
    requires op.Copy? && op.out.space != Const && op.out.size == op.input.size
    requires AgreeExcept(s, t, {op.input, op.out}) && Get(s, op.input) == Get(t, op.out)
    ensures AgreeExcept(Step(m, op, s), t, {op.input})
    ensures op.input == op.out ==> AgreeExcept(Step(m, op, s), t, {})
  {
    CopyStep(m, op, s);
  }

  lemma SinkJoins(m: Machine, ops: seq<Op>, i: nat, j: nat, s: State, t: State)
    requires CanSink(ops, i, j)
    requires AgreeExcept(s, t, {ops[j].input, ops[j].out}) && Get(s, ops[j].input) == Get(t, ops[j].out)
    ensures Joins(ops, j + 1, ops[j].input, Step(m, ops[j], RunRange(m, ops, i + 1, j, s)),
                  RunRange(m, ops, i + 1, j, t))
  {
    RunAgrees(m, ops, i + 1, j, s, t, {ops[j].input, ops[j].out});
    UntouchedFrame(m, ops, i + 1, j, s, ops[j].input);
    UntouchedFrame(m, ops, i + 1, j, t, ops[j].out);
    SinkEnd(m, ops[j], RunRange(m, ops, i + 1, j, s), RunRange(m, ops, i + 1, j, t));
  }

  lemma SinkStretch(m: Machine, ops: seq<Op>, i: nat, j: nat, s: State)
    requires CanSink(ops, i, j)
    ensures Joins(ops, j + 1, ops[j].input, RunRange(m, ops, i, j + 1, s), RunRange(m, Sink(ops, i, j), i, j, s))
  {
    SinkStart(m, ops[i], ops[j].input, ops[j].out, s);
    SinkJoins(m, ops, i, j, Step(m, ops[i], s), Step(m, WithOutput(ops[i], ops[j].out), s));
    RunEnds(m, ops, i, j, s);
    SunkRun(m, ops, i, j, s);
  }

  lemma SunkRun(m: Machine, ops: seq<Op>, i: nat, j: nat, s: State)
    requires i < j < |ops| && ops[j].Copy?
    ensures RunRange(m, Sink(ops, i, j), i, j, s)
         == RunRange(m, ops, i + 1, j, Step(m, WithOutput(ops[i], ops[j].out), s))
  {
    StayedRun(m, ops, Sink(ops, i, j), i, j, s);
  }

  /** Another operation, then the middle of `ops` in its place. */
  lemma StayedRun(m: Machine, ops: seq<Op>, ops': seq<Op>, i: nat, j: nat, s: State)
    requires i < j < |ops| && j <= |ops'| && forall k :: i < k < j ==> ops'[k] == ops[k]
    ensures RunRange(m, ops', i, j, s) == RunRange(m, ops, i + 1, j, Step(m, ops'[i], s))
  {
    RunSame(m, ops, ops', i + 1, j, 0, Step(m, ops'[i], s));
  }

  lemma SinkSound(ops: seq<Op>, i: nat, j: nat)
    requires CanSink(ops, i, j)
    ensures Equivalent(ops, Sink(ops, i, j))
  {
    forall m, s
      ensures Joins(ops, j + 1, ops[j].input, RunRange(m, ops, i, j + 1, s), RunRange(m, Sink(ops, i, j), i, j, s))
    {
      SinkStretch(m, ops, i, j, s);
    }
    StretchSound(ops, Sink(ops, i, j), i, j, ops[j].input);
  }

  // ----- collapsing two equal masks -----

  predicate IsMask(op: Op) {
    op.Binary? && op.binop == IntAnd
  }

  function Collapse(ops: seq<Op>, i: nat): (r: seq<Op>)
    requires i + 1 < |ops| && IsMask(ops[i]) && IsMask(ops[i + 1])
    ensures |r| == |ops| - 1
    ensures forall k :: 0 <= k < i ==> r[k] == ops[k]
    ensures forall k :: i + 1 < k < |ops| ==> r[k - 1] == ops[k]
    ensures r[i] == WithOutput(ops[i], ops[i + 1].out)
  {
    RemoveAt(ops[i := WithOutput(ops[i], ops[i + 1].out)], i + 1)
  }

  /** The second of two adjacent And operations masks only the result of the first,
      with the same constant. */
  predicate CanCollapse(ops: seq<Op>, i: nat) {
    && i + 1 < |ops| && IsMask(ops[i]) && IsMask(ops[i + 1])
    && SizesOk(ops[i]) && SizesOk(ops[i + 1])
    && var u := ops[i].out;
    && u.space == Unique && ops[i].right.space == Const
    && ops[i + 1].left == u && ops[i + 1].right == ops[i].right
    && (ops[i + 1].out == u || DeadFrom(ops, i + 2, u))
  }

  lemma MaskTwice(m: Machine, first: Op, second: Op, s: State)
    requires IsMask(first) && IsMask(second) && SizesOk(first) && SizesOk(second)
    requires first.out.space != Const && first.right.space == Const
    requires second.left == first.out && second.right == first.right
    ensures Result(m, second, Step(m, first, s)) == Result(m, first, s)
  {
    OutputStep(m, first, s);
    var x, k := Get(s, first.left), Get(s, first.right);
    BitAndBound(x, k);
    WrapSmall(BitAnd(x, k), first.out.size);
    BitAndIdempotent(x, k);
  }

  lemma CollapseStretch(m: Machine, ops: seq<Op>, i: nat, s: State)
    requires CanCollapse(ops, i)
    ensures Joins(ops, i + 2, ops[i].out, RunRange(m, ops, i, i + 2, s), RunRange(m, Collapse(ops, i), i, i + 1, s))
  {
    RunEnds(m, ops, i, i + 1, s);
    RunOne(m, Collapse(ops, i), i, s);
    CollapseSteps(m, ops[i], ops[i + 1], s);
  }

  /** Both masks write the same value; only the first one's output is left over. */
  lemma CollapseSteps(m: Machine, first: Op, second: Op, s: State)
    requires IsMask(first) && IsMask(second) && SizesOk(first) && SizesOk(second)
    requires first.out.space != Const && first.right.space == Const
    requires second.left == first.out && second.right == first.right
    ensures var s', t' := Step(m, second, Step(m, first, s)), Step(m, WithOutput(first, second.out), s);
      AgreeExcept(s', t', {first.out}) && (second.out == first.out ==> AgreeExcept(s', t', {}))
  {
    MaskTwice(m, first, second, s);
    WithOutputSameResult(m, first, second.out, s);
    OutputStep(m, first, s);
    OutputStep(m, second, Step(m, first, s));
    OutputStep(m, WithOutput(first, second.out), s);
  }

  lemma CollapseSound(ops: seq<Op>, i: nat)
    requires CanCollapse(ops, i)
    ensures Equivalent(ops, Collapse(ops, i))
  {
    var ops', u, j := Collapse(ops, i), ops[i].out, i + 1;
    forall m, s
      ensures Joins(ops, j + 1, u, RunRange(m, ops, i, j + 1, s), RunRange(m, ops', i, j, s))
    {
      CollapseStretch(m, ops, i, s);
    }
    StretchSound(ops, ops', i, j, u);
  }

  // ----- simplifying one operation -----

  lemma SimplifiesStep(m: Machine, op: Op, op': Op, s: State, t: State)
    requires Simplifies(op, op') && AgreeExcept(s, t, {})
    ensures AgreeExcept(Step(m, op, s), Step(m, op', t), {})
  {
    StepAgrees(m, op', s, t, {});
    if op' != op {
      assert Wrap(Result(m, op', s), op'.out.size) == Wrap(Result(m, op, s), op'.out.size);
      OutputStep(m, op, s);
      OutputStep(m, op', s);
      assert AgreeExcept(Step(m, op, s), Step(m, op', s), {});
    }
  }

  /** Replacing every operation by a simpler one of equal value changes nothing. */
  lemma PointwiseSound(p: seq<Op>, q: seq<Op>)
    requires |p| == |q| && forall k :: 0 <= k < |p| ==> Simplifies(p[k], q[k])
    ensures Equivalent(p, q)
  {
    forall m, s ensures SameOutcome(Run(m, p, s), Run(m, q, s)) {
      PointwiseRun(m, p, q, 0, s, s);
    }
  }

  lemma {:induction false} PointwiseRun(m: Machine, p: seq<Op>, q: seq<Op>, k: nat, s: State, t: State)
    requires k <= |p| == |q| && forall i :: 0 <= i < |p| ==> Simplifies(p[i], q[i])
    requires AgreeExcept(s, t, {})
    ensures AgreeExcept(RunRange(m, p, k, |p|, s), RunRange(m, q, k, |q|, t), {})
    decreases |p| - k
  {
    if k < |p| {
      SimplifiesStep(m, p[k], q[k], s, t);
      PointwiseRun(m, p, q, k + 1, Step(m, p[k], s), Step(m, q[k], t));
    }
  }
}

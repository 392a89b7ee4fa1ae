/** Forwarding a copy past register moves: the pass does it whatever the moves are, and it
    is right exactly when the moves bring the copied register back to its own value. */
module StaleCopies {
  import opened Words
  import opened Options
  import opened Pcode
  import opened Semantics
  import opened Liveness
  import opened Rewrites
  import opened Discipline
  import opened Optimizer
  import opened Hypotheses

  predicate IsRegister(v: Varnode, size: nat) {
    v.space == Register && v.size == size
  }

  /** Copies between registers of one size. */
  predicate AreMoves(mid: seq<Op>, size: nat) {
    forall k :: 0 <= k < |mid| ==> mid[k].Copy? && IsRegister(mid[k].out, size) && IsRegister(mid[k].input, size)
  }

  /** The register whose first value `v` holds after the moves `mid[..k]`. */
  function Origin(mid: seq<Op>, k: nat, v: Varnode): (r: Varnode)
    requires k <= |mid| && forall i :: 0 <= i < |mid| ==> mid[i].Copy?
  {
    if k == 0 then v else Origin(mid, k - 1, if mid[k - 1].out == v then mid[k - 1].input else v)
  }

  /** Save `a` in `u`, move registers about, then set `d` from `u`. */
  function Saved(a: Varnode, mid: seq<Op>, d: Varnode, u: Varnode): (r: seq<Op>)
    ensures |r| == |mid| + 2 && r[0] == Copy(u, a) && r[|mid| + 1] == Copy(d, u)
    ensures forall k :: 1 <= k <= |mid| ==> r[k] == mid[k - 1]
  {
    [Copy(u, a)] + mid + [Copy(d, u)]
  }

  function Unsaved(a: Varnode, mid: seq<Op>, d: Varnode): (r: seq<Op>)
    ensures |r| == |mid| + 1 && r[|mid|] == Copy(d, a)
    ensures forall k :: 0 <= k < |mid| ==> r[k] == mid[k]
  {
    mid + [Copy(d, a)]
  }

  predicate Fits(a: Varnode, mid: seq<Op>, d: Varnode, u: Varnode) {
    && IsRegister(a, u.size) && IsRegister(d, u.size) && AreMoves(mid, u.size)
    && u.space == Unique && u.size >= 1
  }

  // ----- what the moves do -----

  lemma {:induction false} OriginIsRegister(mid: seq<Op>, k: nat, v: Varnode, size: nat)
    requires k <= |mid| && AreMoves(mid, size) && IsRegister(v, size)
    ensures IsRegister(Origin(mid, k, v), size)
  {
    if k > 0 {
      OriginIsRegister(mid, k - 1, if mid[k - 1].out == v then mid[k - 1].input else v, size);
    }
  }

  lemma {:induction false} OriginHolds(m: Machine, mid: seq<Op>, k: nat, v: Varnode, s: State, size: nat)
    requires k <= |mid| && AreMoves(mid, size) && IsRegister(v, size)
    ensures Get(RunRange(m, mid, 0, k, s), v) == Get(s, Origin(mid, k, v))
  {
    if k > 0 {
      var op, s' := mid[k - 1], RunRange(m, mid, 0, k - 1, s);
      RunSplit(m, mid, 0, k - 1, k, s);
      RunOne(m, mid, k - 1, s');
      CopyStep(m, op, s');
      OriginHolds(m, mid, k - 1, if op.out == v then op.input else v, s, size);
    }
  }

  /** The saved copy survives the moves, which do the same with it as without it. */
  lemma MovesIgnoreCopy(m: Machine, a: Varnode, mid: seq<Op>, u: Varnode, s: State)
    requires IsRegister(a, u.size) && AreMoves(mid, u.size) && u.space == Unique
    ensures var s2 := RunRange(m, mid, 0, |mid|, Step(m, Copy(u, a), s));
      Get(s2, u) == Get(s, a) && AgreeExcept(s2, RunRange(m, mid, 0, |mid|, s), {u})
  {
    var s1 := Step(m, Copy(u, a), s);
    CopyStep(m, Copy(u, a), s);
    RunFrame(m, mid, 0, |mid|, s1, u);
    RunAgrees(m, mid, 0, |mid|, s1, s, {u});
  }

  lemma OneRun(m: Machine, op: Op, s: State)
    ensures Run(m, [op], s) == Step(m, op, s)
  {
    RunOne(m, [op], 0, s);
  }

  lemma SavedRun(m: Machine, a: Varnode, mid: seq<Op>, d: Varnode, u: Varnode, s: State)
    ensures Run(m, Saved(a, mid, d, u), s) == Step(m, Copy(d, u), Run(m, mid, Step(m, Copy(u, a), s)))
  {
    ConcatRun(m, [Copy(u, a)] + mid, [Copy(d, u)], s);
    ConcatRun(m, [Copy(u, a)], mid, s);
    OneRun(m, Copy(u, a), s);
    OneRun(m, Copy(d, u), Run(m, mid, Step(m, Copy(u, a), s)));
  }

  lemma UnsavedRun(m: Machine, a: Varnode, mid: seq<Op>, d: Varnode, s: State)
    ensures Run(m, Unsaved(a, mid, d), s) == Step(m, Copy(d, a), Run(m, mid, s))
  {
    ConcatRun(m, mid, [Copy(d, a)], s);
    OneRun(m, Copy(d, a), Run(m, mid, s));
  }

  /** The two forms differ at most in `d`: one sets it from `a`, the other from what the
      moves have put there. */
  lemma TwoForms(m: Machine, a: Varnode, mid: seq<Op>, d: Varnode, u: Varnode, s: State)
    requires Fits(a, mid, d, u)
    ensures var p, q := Run(m, Saved(a, mid, d, u), s), Run(m, Unsaved(a, mid, d), s);
      && AgreeExcept(p, q, {u, d})
      && Get(p, d) == Get(s, a) && Get(q, d) == Get(s, Origin(mid, |mid|, a))
  {
    SavedRun(m, a, mid, d, u, s);
    UnsavedRun(m, a, mid, d, s);
    MovesIgnoreCopy(m, a, mid, u, s);
    OriginHolds(m, mid, |mid|, a, s, u.size);
    CopyStep(m, Copy(d, u), RunRange(m, mid, 0, |mid|, Step(m, Copy(u, a), s)));
    CopyStep(m, Copy(d, a), RunRange(m, mid, 0, |mid|, s));
  }

  // ----- what the pass does -----

  lemma SavedAnalysis(a: Varnode, mid: seq<Op>, d: Varnode, u: Varnode)
    requires Fits(a, mid, d, u)
    ensures Analysis(Saved(a, mid, d, u), 0) == Some(Info(1, Some(Read(|mid| + 1))))
  {
    var ops := Saved(a, mid, d, u);
    NothingProtected(ops, u);
    SimpleCounts(ops);
    ReadOnceAt(ops, u, 1, |mid| + 1);
  }

  lemma SavedIsForwarded(a: Varnode, mid: seq<Op>, d: Varnode, u: Varnode)
    requires Fits(a, mid, d, u)
    ensures ForwardPass(Saved(a, mid, d, u), 0) == Unsaved(a, mid, d)
  {
    var ops, q := Saved(a, mid, d, u), Unsaved(a, mid, d);
    SavedAnalysis(a, mid, d, u);
    assert Forward(ops, 0, |mid| + 1) == q;
    NoTemporaries(q);
  }

  lemma SavedLooksFine(a: Varnode, mid: seq<Op>, d: Varnode, u: Varnode)
    requires Fits(a, mid, d, u)
    ensures var ops := Saved(a, mid, d, u);
      OpsOk(ops) && StraightLine(ops) && SingleAssignment(ops) && DefinedBeforeRead(ops)
  {
  }

  // ----- when that is right -----

  lemma BackInPlaceIsRight(a: Varnode, mid: seq<Op>, d: Varnode, u: Varnode)
    requires Fits(a, mid, d, u) && Origin(mid, |mid|, a) == a
    ensures Equivalent(Saved(a, mid, d, u), Unsaved(a, mid, d))
  {
    var p, q := Saved(a, mid, d, u), Unsaved(a, mid, d);
    forall m, s ensures SameOutcome(Run(m, p, s), Run(m, q, s)) {
      TwoForms(m, a, mid, d, u, s);
    }
  }

  lemma MovedAwayIsWrong(a: Varnode, mid: seq<Op>, d: Varnode, u: Varnode)
    requires Fits(a, mid, d, u) && Origin(mid, |mid|, a) != a
    ensures !Equivalent(Saved(a, mid, d, u), Unsaved(a, mid, d))
  {
    var m, s := Idle(), State(map[a := 1], map[], []);
    TwoForms(m, a, mid, d, u, s);
    OriginIsRegister(mid, |mid|, a, u.size);
    Pow2Monotone(8, 8 * u.size);
    WrapSmall(1, u.size);
    WrapSmall(0, u.size);
    assert !SameOutcome(Run(m, Saved(a, mid, d, u), s), Run(m, Unsaved(a, mid, d), s));
  }

  /** The four rounds do this forwarding and nothing else. */
  lemma SavedIsOptimized(a: Varnode, mid: seq<Op>, d: Varnode, u: Varnode)
    requires Fits(a, mid, d, u)
    ensures Rounds(Saved(a, mid, d, u), 4) == Unsaved(a, mid, d)
  {
    var ops, q := Saved(a, mid, d, u), Unsaved(a, mid, d);
    PlainRound(ops);
    SavedIsForwarded(a, mid, d, u);
    NoTemporaries(q);
    QuietRound(q);
    assert Rounds(q, 3) == q;
  }

  /** Saving a register across any moves satisfies every hypothesis but the stability of
      copies. The optimizer always forwards the saved copy, and keeps the meaning if and
      only if the moves leave the register with its own value. */
  lemma ForwardedPastMovesIff(a: Varnode, mid: seq<Op>, d: Varnode, u: Varnode)
    requires Fits(a, mid, d, u)
    ensures var ops := Saved(a, mid, d, u);
      && OpsOk(ops) && StraightLine(ops) && SingleAssignment(ops) && DefinedBeforeRead(ops)
      && ForwardPass(ops, 0) == Rounds(ops, 4) == Unsaved(a, mid, d)
      && (Equivalent(ops, Rounds(ops, 4)) <==> Origin(mid, |mid|, a) == a)
  {
    SavedLooksFine(a, mid, d, u);
    SavedIsForwarded(a, mid, d, u);
    SavedIsOptimized(a, mid, d, u);
    if Origin(mid, |mid|, a) == a {
      BackInPlaceIsRight(a, mid, d, u);
    } else {
      MovedAwayIsWrong(a, mid, d, u);
    }
  }

  /** Swapping two registers through a temporary comes out as two assignments of the same
      register. */
  lemma SwapIsBroken(a: Varnode, b: Varnode, u: Varnode)
    requires IsRegister(a, u.size) && IsRegister(b, u.size) && a != b && u.space == Unique && u.size >= 1
    ensures var ops := [Copy(u, a), Copy(a, b), Copy(b, u)];
      Rounds(ops, 4) == [Copy(a, b), Copy(b, a)] && !Equivalent(ops, Rounds(ops, 4))
  {
    var mid := [Copy(a, b)];
    assert Saved(a, mid, b, u) == [Copy(u, a), Copy(a, b), Copy(b, u)];
    assert Unsaved(a, mid, b) == [Copy(a, b), Copy(b, a)];
    assert Origin(mid, 1, a) == b;
    ForwardedPastMovesIff(a, mid, b, u);
  }
}

/** The optimizer as it runs: index loops that rewrite and remove operations in place,
    recomputing the analysis after each removal. */
module Peephole {
  import opened Options
  import opened Pcode
  import opened Folding
  import opened Liveness
  import opened Rewrites
  import opened Discipline
  import opened Optimizer
  import opened Fixpoint

  ghost predicate IsAnalysis(ops: seq<Op>, analysis: seq<Option<Info>>) {
    |analysis| == |ops| && forall i :: 0 <= i < |ops| ==> analysis[i] == Analysis(ops, i)
  }

  /** Passes 0, 1 and 1b, each over the whole sequence. */
  method SimplifyInPlace(input: seq<Op>) returns (ops: seq<Op>)
    ensures ops == SimplifyAll(input)
  {
    ops := input;
    for k := 0 to |ops|
      invariant |ops| == |input|
      invariant forall j :: 0 <= j < k ==> ops[j] == FoldOp(input[j])
      invariant forall j :: k <= j < |ops| ==> ops[j] == input[j]
    {
      ops := ops[k := FoldOp(ops[k])];
    }
    for k := 0 to |ops|
      invariant |ops| == |input|
      invariant forall j :: 0 <= j < k ==> ops[j] == IdentitySubpiece(FoldOp(input[j]))
      invariant forall j :: k <= j < |ops| ==> ops[j] == FoldOp(input[j])
    {
      ops := ops[k := IdentitySubpiece(ops[k])];
    }
    for k := 0 to |ops|
      invariant |ops| == |input|
      invariant forall j :: 0 <= j < k ==> ops[j] == SimplifyOp(input[j])
      invariant forall j :: k <= j < |ops| ==> ops[j] == IdentitySubpiece(FoldOp(input[j]))
    {
      ops := ops[k := ConstSubpiece(ops[k])];
    }
  }

  /** Pass 1a. */
  method CollapseInPlace(input: seq<Op>) returns (ops: seq<Op>, analysis: seq<Option<Info>>)
    ensures ops == CollapsePass(input, 0) && IsAnalysis(ops, analysis)
  {
    ops := input;
    analysis := AnalyzeUniqueOutputs(ops);
    var i := 0;
    while i + 1 < |ops|
      invariant IsAnalysis(ops, analysis)
      invariant CollapsePass(input, 0) == CollapsePass(ops, i)
      decreases |ops| - i
    {
      var first, second, info := ops[i], ops[i + 1], analysis[i];
      if first.Binary? && first.binop == IntAnd && second.Binary? && second.binop == IntAnd &&
         first.out.space == Unique && first.right.space == Const && second.left == first.out &&
         second.right == first.right && info.Some? && info.value.futureReads == 1
      {
        ops := Collapse(ops, i);
        analysis := AnalyzeUniqueOutputs(ops);
      } else {
        i := i + 1;
      }
    }
  }

  method SingleReader(info: Option<Info>) returns (reader: Option<nat>)
    ensures reader == OnlyReader(info)
  {
    if info == None || info.value.futureReads != 1 {
      return None;
    }
    match info.value.nextAccess {
      case Some(Read(at)) => return Some(at);
      case _ => return None;
    }
  }

  /** Pass 2. */
  method ForwardInPlace(input: seq<Op>, valid: seq<Option<Info>>) returns (ops: seq<Op>, analysis: seq<Option<Info>>)
    requires IsAnalysis(input, valid)
    ensures ops == ForwardPass(input, 0) && IsAnalysis(ops, analysis)
  {
    ops, analysis := input, valid;
    var i := 0;
    while i < |ops|
      invariant IsAnalysis(ops, analysis)
      invariant ForwardPass(input, 0) == ForwardPass(ops, i)
      decreases |ops| - i
    {
      var reader := SingleReader(analysis[i]);
      if ops[i].Copy? && ops[i].out.space == Unique && reader.Some? && i < reader.value < |ops| {
        ops := Forward(ops, i, reader.value);
        analysis := AnalyzeUniqueOutputs(ops);
      } else {
        i := i + 1;
      }
    }
  }

  /** `list` holds the dead positions below `n`, in increasing order. */
  ghost predicate ListsDead(analysis: seq<Option<Info>>, n: nat, list: seq<nat>) {
    && n <= |analysis|
    && (forall r :: 0 <= r < |list| ==> list[r] < n && IsDead(analysis[list[r]]))
    && (forall r, s :: 0 <= r < s < |list| ==> list[r] < list[s])
    && (forall k :: 0 <= k < n && IsDead(analysis[k]) ==> k in list)
  }

  method DeadPositions(analysis: seq<Option<Info>>) returns (list: seq<nat>)
    ensures ListsDead(analysis, |analysis|, list)
  {
    list := [];
    for i := 0 to |analysis|
      invariant ListsDead(analysis, i, list)
    {
      var info := analysis[i];
      if info.Some? && (info.value.futureReads == 0 || info.value.nextAccess == Some(Write)) {
        list := list + [i];
      }
    }
  }

  /** The last listed position is the highest dead one; the rest lists those below it. */
  lemma LastDead(analysis: seq<Option<Info>>, n: nat, list: seq<nat>)
    requires ListsDead(analysis, n, list) && list != []
    ensures var last := list[|list| - 1];
      && last < n && IsDead(analysis[last])
      && ListsDead(analysis, last, list[..|list| - 1])
      && forall k :: last < k < n ==> !IsDead(analysis[k])
  {
    var last := list[|list| - 1];
    forall k | 0 <= k < n && IsDead(analysis[k]) ensures k <= last && (k < last ==> k in list[..|list| - 1]) {
      var r :| 0 <= r < |list| && list[r] == k;
      if r < |list| - 1 {
        assert list[..|list| - 1][r] == k;
      }
    }
  }

  /** Passes 2b and 3: collect the dead positions, then remove them back to front. */
  method SweepInPlace(input: seq<Op>, analysis: seq<Option<Info>>) returns (ops: seq<Op>)
    requires IsAnalysis(input, analysis)
    ensures ops == Survivors(input, 0)
  {
    var toRemove := DeadPositions(analysis);
    ops := input;
    ghost var done: nat := |input|;
    SweptAll(input);
    assert toRemove[..|toRemove|] == toRemove;
    for r := |toRemove| downto 0
      invariant done <= |input| && ops == Swept(input, done)
      invariant ListsDead(analysis, done, toRemove[..r])
    {
      SweepStep(input, analysis, done, toRemove, r);
      ops := RemoveAt(ops, toRemove[r]);
      done := toRemove[r];
    }
    SweepEnd(input, analysis, done);
  }

  /** Removing the last listed position sweeps down to it. */
  lemma SweepStep(input: seq<Op>, analysis: seq<Option<Info>>, done: nat, list: seq<nat>, r: nat)
    requires IsAnalysis(input, analysis) && r < |list| && ListsDead(analysis, done, list[..r + 1])
    ensures list[r] < |Swept(input, done)| && Swept(input, list[r]) == RemoveAt(Swept(input, done), list[r])
    ensures ListsDead(analysis, list[r], list[..r])
  {
    LastDead(analysis, done, list[..r + 1]);
    assert list[..r + 1][..r] == list[..r];
    SweptUnchanged(input, list[r] + 1, done);
    SweptOne(input, list[r]);
  }

  lemma SweepEnd(input: seq<Op>, analysis: seq<Option<Info>>, done: nat)
    requires IsAnalysis(input, analysis) && ListsDead(analysis, done, [])
    ensures Swept(input, done) == Survivors(input, 0)
  {
    SweptUnchanged(input, 0, done);
    assert Swept(input, 0) == Survivors(input, 0);
  }

  lemma SweptAll(ops: seq<Op>)
    ensures Swept(ops, |ops|) == ops
  {
    assert Survivors(ops, |ops|) == [];
  }

  /** Positions that are not dead do not change the sweep. */
  lemma {:induction false} SweptUnchanged(ops: seq<Op>, lo: nat, hi: nat)
    requires lo <= hi <= |ops| && forall k :: lo <= k < hi ==> !IsDead(Analysis(ops, k))
    ensures Swept(ops, lo) == Swept(ops, hi)
    decreases hi - lo
  {
    if lo < hi {
      SweptOne(ops, lo);
      SweptUnchanged(ops, lo + 1, hi);
    }
  }

  /** The op at `j` copies the output of the op at `i`, and nothing in between reads or
      writes the copy. */
  method CopiesUntouched(ops: seq<Op>, i: nat, j: nat) returns (b: bool)
    requires i < j < |ops|
    ensures b <==> SinksInto(ops, i, j)
  {
    var out := GetOutput(ops[i]);
    if out == None || !ops[j].Copy? || ops[j].input != out.value {
      return false;
    }
    var d := ops[j].out;
    for k := i + 1 to j
      invariant forall m :: i < m < k ==> CountReads(ops[m], d) == 0 && !WritesTo(ops[m], d)
    {
      if d in Reads(ops[k]) || WritesTo(ops[k], d) {
        return false;
      }
    }
    return true;
  }

  /** Pass 4. */
  method SinkInPlace(input: seq<Op>) returns (ops: seq<Op>)
    ensures ops == SinkPass(input, 0)
  {
    ops := input;
    var analysis := AnalyzeUniqueOutputs(ops);
    var i := 0;
    while i < |ops|
      invariant IsAnalysis(ops, analysis)
      invariant SinkPass(input, 0) == SinkPass(ops, i)
      decreases |ops| - i
    {
      var reader := SingleReader(analysis[i]);
      var sinks := false;
      if reader.Some? && i < reader.value < |ops| {
        sinks := CopiesUntouched(ops, i, reader.value);
      }
      if sinks {
        ops := Sink(ops, i, reader.value);
        analysis := AnalyzeUniqueOutputs(ops);
      } else {
        i := i + 1;
      }
    }
  }

  method OptimizeOnce(input: seq<Op>) returns (ops: seq<Op>)
    ensures ops == Round(input)
  {
    RoundIs(input);
    var a := SimplifyInPlace(input);
    var b, analysis := CollapseInPlace(a);
    var c, analysis' := ForwardInPlace(b, analysis);
    var d := SweepInPlace(c, analysis');
    ops := SinkInPlace(d);
  }

  /** Up to `limit` rounds, stopping when one does not shorten the sequence. */
  method RunRounds(input: seq<Op>, limit: nat) returns (ops: seq<Op>)
    ensures ops == Rounds(input, limit)
  {
    ops := input;
    ghost var want := Rounds(input, limit);
    for round := 0 to limit
      invariant want == Rounds(ops, limit - round)
    {
      var once := OptimizeOnce(ops);
      RoundsStep(ops, once, limit - round);
      if |once| == |ops| {
        return once;
      }
      ops := once;
    }
  }

  lemma RoundsStep(ops: seq<Op>, once: seq<Op>, n: nat)
    requires n > 0 && once == Round(ops)
    ensures Rounds(ops, n) == if |once| == |ops| then once else Rounds(once, n - 1)
  {
  }

  /** Four rounds at most. On a well-formed sequence the result has the same meaning, is
      well formed and no longer. It is a fixpoint if a round was idle or there are at most
      four operations. */
  method Optimize(input: seq<Op>) returns (ops: seq<Op>)
    ensures ops == Rounds(input, 4)
    ensures WellFormed(input) ==> Improves(input, ops)
    ensures Settles(input, 4) || |input| <= 4 ==> IsFixpoint(ops)
  {
    ops := RunRounds(input, 4);
    if WellFormed(input) {
      RoundsImprove(input, 4);
    }
    if Settles(input, 4) || |input| <= 4 {
      EnoughRounds(input, 4);
    }
  }
}

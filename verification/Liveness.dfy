/** The backward analysis that drives the structural passes: for each write of a
    temporary, how often it is read before the next write, and what touches it first. */
module Liveness {
  import opened Options
  import opened Pcode

  datatype Access = Read(at: nat) | Write

  datatype Info = Info(futureReads: nat, nextAccess: Option<Access>)

  // ----- what the analysis means -----

  /** Operand reads of `u` from `k` on, up to and including the next op that writes it. */
  function FutureReads(ops: seq<Op>, u: Varnode, k: nat): nat
    requires k <= |ops|
    decreases |ops| - k
  {
    if k == |ops| then 0
    else CountReads(ops[k], u) + if GetOutput(ops[k]) == Some(u) then 0 else FutureReads(ops, u, k + 1)
  }

  /** The first op from `k` on that touches `u`; a read wins over a write in one op. */
  function NextAccess(ops: seq<Op>, u: Varnode, k: nat): (a: Option<Access>)
    requires k <= |ops|
    decreases |ops| - k
  {
    if k == |ops| then None
    else if CountReads(ops[k], u) > 0 then Some(Read(k))
    else if GetOutput(ops[k]) == Some(u) then Some(Write)
    else NextAccess(ops, u, k + 1)
  }

  predicate IsLocalBranch(op: Op) {
    op.CBranch? && op.dest.space == Const
  }

  predicate WritesUnique(op: Op, u: Varnode) {
    GetOutput(op) == Some(u) && u.space == Unique
  }

  /** Written on both sides of a branch within the instruction. */
  ghost predicate StraddlesBranch(ops: seq<Op>, u: Varnode) {
    exists a, c, b :: 0 <= a < c < b < |ops| && WritesUnique(ops[a], u) && IsLocalBranch(ops[c]) &&
        WritesUnique(ops[b], u)
  }

  /** Named by the Ram destination of an indirect transfer. */
  ghost predicate HoldsAddress(ops: seq<Op>, u: Varnode) {
    exists c :: 0 <= c < |ops| && IsThroughRam(ops[c]) && ops[c].dest.offset == u.offset
  }

  ghost predicate Protected(ops: seq<Op>, u: Varnode) {
    StraddlesBranch(ops, u) || HoldsAddress(ops, u)
  }

  ghost function Analysis(ops: seq<Op>, idx: nat): Option<Info>
    requires idx < |ops|
  {
    var out := GetOutput(ops[idx]);
    if out.None? || out.value.space != Unique || Protected(ops, out.value) then None
    else Some(Info(FutureReads(ops, out.value, idx + 1), NextAccess(ops, out.value, idx + 1)))
  }

  // ----- the one-pass computation -----

  /** The temporaries written in `ops[lo..hi]`. */
  method UniquesWritten(ops: seq<Op>, lo: nat, hi: nat) returns (written: set<Varnode>)
    requires lo <= hi <= |ops|
    ensures forall u :: u in written <==> exists i :: lo <= i < hi && WritesUnique(ops[i], u)
  {
    written := {};
    for i := lo to hi
      invariant forall u :: u in written <==> exists j :: lo <= j < i && WritesUnique(ops[j], u)
    {
      var out := GetOutput(ops[i]);
      if out.Some? && out.value.space == Unique {
        written := written + {out.value};
        assert WritesUnique(ops[i], out.value);
      }
    }
  }

  method BranchProtected(ops: seq<Op>) returns (p: set<Varnode>)
    ensures forall u :: u in p <==> StraddlesBranch(ops, u)
  {
    p := {};
    for c := 0 to |ops|
      invariant forall u :: u in p <==>
        exists a, d, b :: 0 <= a < d < b < |ops| && d < c && WritesUnique(ops[a], u) && IsLocalBranch(ops[d]) &&
            WritesUnique(ops[b], u)
    {
      if ops[c].CBranch? && ops[c].dest.space == Const {
        var before := UniquesWritten(ops, 0, c);
        var after := UniquesWritten(ops, c + 1, |ops|);
        p := p + before * after;
      }
    }
  }

  method AddressHolders(ops: seq<Op>) returns (offsets: set<nat>)
    ensures forall u: Varnode :: u.offset in offsets <==> HoldsAddress(ops, u)
  {
    offsets := {};
    for c := 0 to |ops|
      invariant forall u: Varnode :: u.offset in offsets <==>
        exists d :: 0 <= d < c && IsThroughRam(ops[d]) && ops[d].dest.offset == u.offset
    {
      if (ops[c].BranchInd? || ops[c].CallInd?) && ops[c].dest.space == Ram {
        offsets := offsets + {ops[c].dest.offset};
      }
    }
  }

  function Count(counts: map<Varnode, nat>, v: Varnode): nat {
    if v in counts then counts[v] else 0
  }

  function Lookup(m: map<Varnode, Access>, v: Varnode): Option<Access> {
    if v in m then Some(m[v]) else None
  }

  /** The maps `counts` and `next` are `counts0` and `next0` after reading `vs` at `idx`. */
  ghost predicate Visited(vs: seq<Varnode>, idx: nat, counts0: map<Varnode, nat>, next0: map<Varnode, Access>,
                          counts: map<Varnode, nat>, next: map<Varnode, Access>)
  {
    forall u: Varnode :: u.space == Unique ==>
      && Count(counts, u) == Count(counts0, u) + Occurrences(vs, u)
      && Lookup(next, u) == if u in vs then Some(Read(idx)) else Lookup(next0, u)
  }

  lemma VisitOne(vs: seq<Varnode>, v: Varnode, idx: nat, counts0: map<Varnode, nat>, next0: map<Varnode, Access>,
                 counts: map<Varnode, nat>, next: map<Varnode, Access>)
    requires Visited(vs, idx, counts0, next0, counts, next)
    ensures v.space == Unique ==>
      Visited(vs + [v], idx, counts0, next0, counts[v := Count(counts, v) + 1], next[v := Read(idx)])
    ensures v.space != Unique ==> Visited(vs + [v], idx, counts0, next0, counts, next)
  {
    var ws := vs + [v];
    assert ws[..|ws| - 1] == vs;
  }

  /** Record the reads of one op: bump the counts and make it the next access. */
  method VisitReads(vs: seq<Varnode>, idx: nat, counts0: map<Varnode, nat>, next0: map<Varnode, Access>)
    returns (counts: map<Varnode, nat>, next: map<Varnode, Access>)
    ensures Visited(vs, idx, counts0, next0, counts, next)
  {
    counts, next := counts0, next0;
    for r := 0 to |vs|
      invariant Visited(vs[..r], idx, counts0, next0, counts, next)
    {
      VisitOne(vs[..r], vs[r], idx, counts0, next0, counts, next);
      assert vs[..r] + [vs[r]] == vs[..r + 1];
      if vs[r].space == Unique {
        counts, next := counts[vs[r] := Count(counts, vs[r]) + 1], next[vs[r] := Read(idx)];
      }
    }
    assert vs[..|vs|] == vs;
  }

  /** The maps hold the meaning of the suffix from `idx` for unprotected temporaries. */
  ghost predicate Tracks(ops: seq<Op>, idx: nat, counts: map<Varnode, nat>, next: map<Varnode, Access>)
    requires idx <= |ops|
  {
    forall u: Varnode :: u.space == Unique && !Protected(ops, u) ==>
      Count(counts, u) == FutureReads(ops, u, idx) && Lookup(next, u) == NextAccess(ops, u, idx)
  }

  /** At a write the maps hold the analysis. */
  lemma RecordOne(ops: seq<Op>, idx: nat, u: Varnode, counts: map<Varnode, nat>, next: map<Varnode, Access>)
    requires idx < |ops| && Tracks(ops, idx + 1, counts, next)
    requires GetOutput(ops[idx]) == Some(u) && u.space == Unique && !Protected(ops, u)
    ensures Analysis(ops, idx) == Some(Info(Count(counts, u), Lookup(next, u)))
  {
  }

  /** Forgetting a temporary at its write, then recording the op's reads, moves the
      tracked suffix one op back. */
  lemma TrackOne(ops: seq<Op>, idx: nat, counts: map<Varnode, nat>, next: map<Varnode, Access>,
                 counts1: map<Varnode, nat>, next1: map<Varnode, Access>,
                 counts2: map<Varnode, nat>, next2: map<Varnode, Access>)
    requires idx < |ops| && Tracks(ops, idx + 1, counts, next)
    requires var out := GetOutput(ops[idx]);
             if out.Some? && out.value.space == Unique && !Protected(ops, out.value)
             then counts1 == counts - {out.value} && next1 == next[out.value := Write]
             else counts1 == counts && next1 == next
    requires Visited(Reads(ops[idx]), idx, counts1, next1, counts2, next2)
    ensures Tracks(ops, idx, counts2, next2)
  {
  }

  /** One op, going backwards: record the analysis of its write, then its reads. */
  method AnalyzeOne(ops: seq<Op>, idx: nat, protectedOut: bool, counts: map<Varnode, nat>, next: map<Varnode, Access>)
    returns (entry: Option<Info>, counts': map<Varnode, nat>, next': map<Varnode, Access>)
    requires idx < |ops| && Tracks(ops, idx + 1, counts, next)
    requires GetOutput(ops[idx]).Some? ==> (protectedOut <==> Protected(ops, GetOutput(ops[idx]).value))
    ensures entry == Analysis(ops, idx) && Tracks(ops, idx, counts', next')
  {
    var out := GetOutput(ops[idx]);
    entry, counts', next' := None, counts, next;
    if out.Some? && out.value.space == Unique && !protectedOut {
      var u := out.value;
      RecordOne(ops, idx, u, counts, next);
      entry, counts', next' := Some(Info(Count(counts, u), Lookup(next, u))), counts - {u}, next[u := Write];
    }
    ghost var counts1, next1 := counts', next';
    counts', next' := VisitReads(Reads(ops[idx]), idx, counts', next');
    TrackOne(ops, idx, counts, next, counts1, next1, counts', next');
  }

  /** The analysis is its declarative meaning, for every sequence. */
  method AnalyzeUniqueOutputs(ops: seq<Op>) returns (result: seq<Option<Info>>)
    ensures |result| == |ops|
    ensures forall i :: 0 <= i < |ops| ==> result[i] == Analysis(ops, i)
  {
    var counts: map<Varnode, nat> := map[];
    var next: map<Varnode, Access> := map[];
    result := seq(|ops|, _ => None);
    var straddling := BranchProtected(ops);
    var holders := AddressHolders(ops);
    for idx := |ops| downto 0
      invariant |result| == |ops|
      invariant forall i :: idx <= i < |ops| ==> result[i] == Analysis(ops, i)
      invariant Tracks(ops, idx, counts, next)
    {
      var out := GetOutput(ops[idx]);
      var protectedOut := out.Some? && (out.value in straddling || out.value.offset in holders);
      var entry;
      entry, counts, next := AnalyzeOne(ops, idx, protectedOut, counts, next);
      result := result[idx := entry];
    }
  }

  // ----- consequences -----

  /** A temporary whose next access is at `j` is untouched before it. */
  lemma {:induction false} NextAccessIsFirst(ops: seq<Op>, u: Varnode, k: nat, j: nat)
    requires k <= |ops| && NextAccess(ops, u, k) == Some(Read(j))
    ensures k <= j < |ops| && CountReads(ops[j], u) > 0
    ensures forall m :: k <= m < j ==> CountReads(ops[m], u) == 0 && GetOutput(ops[m]) != Some(u)
    ensures FutureReads(ops, u, k) == FutureReads(ops, u, j)
    decreases |ops| - k
  {
    if CountReads(ops[k], u) == 0 {
      assert GetOutput(ops[k]) != Some(u) && NextAccess(ops, u, k + 1) == Some(Read(j));
      NextAccessIsFirst(ops, u, k + 1, j);
    }
  }

  lemma {:induction false} NextWriteMeansNoReads(ops: seq<Op>, u: Varnode, k: nat)
    requires k <= |ops| && NextAccess(ops, u, k) == Some(Write)
    ensures FutureReads(ops, u, k) == 0
    decreases |ops| - k
  {
    if GetOutput(ops[k]) != Some(u) {
      NextWriteMeansNoReads(ops, u, k + 1);
    }
  }
}

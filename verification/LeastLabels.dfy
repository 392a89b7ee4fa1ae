/** The hypotheses of the optimizer decided by computation: the least labels follow the
    sequence forwards (what a temporary may copy) and backwards (where it may be sunk), and
    a sequence is well formed exactly when copies are stable with these. */
module LeastLabels {
  import opened Options
  import opened Pcode
  import opened Folding
  import opened Discipline

  // ----- what a temporary may be a copy of -----

  /** The registers whose value `v` may hold. */
  function Held(l: Labels, v: Varnode): set<Varnode> {
    if v.space == Register then {v} else if v.space == Unique then Label(l, v) else {}
  }

  function HeldByAny(l: Labels, vs: seq<Varnode>): (r: set<Varnode>)
    ensures forall x :: x in r <==> exists i :: 0 <= i < |vs| && x in Held(l, vs[i])
  {
    if vs == [] then {} else HeldByAny(l, vs[..|vs| - 1]) + Held(l, vs[|vs| - 1])
  }

  /** Forwards: each temporary may hold what its sources may hold. */
  function FromUpTo(ops: seq<Op>, n: nat): Labels
    requires n <= |ops|
  {
    if n == 0 then map[]
    else
      var l, op := FromUpTo(ops, n - 1), ops[n - 1];
      if IsTemp(op) then l[GetOutput(op).value := HeldByAny(l, CopySources(op))] else l
  }

  function LeastFrom(ops: seq<Op>): Labels {
    FromUpTo(ops, |ops|)
  }

  /** A label is not changed by operations that do not assign the temporary. */
  lemma {:induction false} FromUnchanged(ops: seq<Op>, u: Varnode, lo: nat, hi: nat)
    requires lo <= hi <= |ops| && u.space == Unique
    requires forall k :: lo <= k < hi ==> GetOutput(ops[k]) != Some(u)
    ensures Label(FromUpTo(ops, hi), u) == Label(FromUpTo(ops, lo), u)
    decreases hi - lo
  {
    if lo < hi {
      FromUnchanged(ops, u, lo, hi - 1);
    }
  }

  lemma {:induction false} FromIsLeast(ops: seq<Op>, n: nat, from: Labels, to: Labels, u: Varnode)
    requires n <= |ops| && FlowsOk(ops, from, to)
    ensures Label(FromUpTo(ops, n), u) <= Label(from, u)
    decreases n
  {
    if n > 0 {
      var l, op := FromUpTo(ops, n - 1), ops[n - 1];
      FromIsLeast(ops, n - 1, from, to, u);
      if IsTemp(op) && GetOutput(op).value == u {
        assert OpFlowsOk(from, to, op);
        forall x | x in HeldByAny(l, CopySources(op)) ensures x in Label(from, u) {
          var i :| 0 <= i < |CopySources(op)| && x in Held(l, CopySources(op)[i]);
          var v := CopySources(op)[i];
          assert FlowOk(from, to, v, u);
          FromIsLeast(ops, n - 1, from, to, v);
        }
      }
    }
  }

  // ----- where a temporary may be sunk -----

  predicate PassesFrom(op: Op, v: Varnode) {
    v.space == Unique && GetOutput(op).Some? && v in CopySources(op)
  }

  /** Backwards: `v` may be sunk to where the outputs of operations it is a source of
      may be. */
  function SunkFrom(ops: seq<Op>, k: nat, v: Varnode): set<Varnode>
    requires k <= |ops|
    decreases |ops| - k, 0
  {
    if k == |ops| then {}
    else
      SunkFrom(ops, k + 1, v) +
      (if PassesFrom(ops[k], v) then Destinations(ops, k + 1, GetOutput(ops[k]).value) else {})
  }

  /** The registers that a value going to `o` may be written to. */
  function Destinations(ops: seq<Op>, k: nat, o: Varnode): set<Varnode>
    requires k <= |ops|
    decreases |ops| - k, 1
  {
    if o.space == Unique then SunkFrom(ops, k, o) else {o}
  }

  function LeastTo(ops: seq<Op>): Labels {
    map v | v in Sources(ops, 0) :: SunkFrom(ops, 0, v)
  }

  function Sources(ops: seq<Op>, k: nat): set<Varnode>
    requires k <= |ops|
    decreases |ops| - k
  {
    if k == |ops| then {} else Sources(ops, k + 1) + set v | v in CopySources(ops[k])
  }

  lemma {:induction false} OnlySourcesSink(ops: seq<Op>, k: nat, v: Varnode)
    requires k <= |ops| && v !in Sources(ops, k)
    ensures SunkFrom(ops, k, v) == {}
    decreases |ops| - k
  {
    if k < |ops| {
      OnlySourcesSink(ops, k + 1, v);
    }
  }

  lemma LeastToLabel(ops: seq<Op>, v: Varnode)
    ensures Label(LeastTo(ops), v) == SunkFrom(ops, 0, v)
  {
    if v !in Sources(ops, 0) {
      OnlySourcesSink(ops, 0, v);
    }
  }

  lemma {:induction false} SunkGrows(ops: seq<Op>, lo: nat, hi: nat, v: Varnode)
    requires lo <= hi <= |ops|
    ensures SunkFrom(ops, hi, v) <= SunkFrom(ops, lo, v)
    decreases hi - lo
  {
    if lo < hi {
      SunkGrows(ops, lo + 1, hi, v);
    }
  }

  lemma {:induction false} SunkUnchanged(ops: seq<Op>, lo: nat, hi: nat, v: Varnode)
    requires lo <= hi <= |ops| && forall k :: lo <= k < hi ==> !PassesFrom(ops[k], v)
    ensures SunkFrom(ops, lo, v) == SunkFrom(ops, hi, v)
    decreases hi - lo
  {
    if lo < hi {
      SunkUnchanged(ops, lo + 1, hi, v);
    }
  }

  lemma {:induction false} ToIsLeast(ops: seq<Op>, k: nat, from: Labels, to: Labels, v: Varnode)
    requires k <= |ops| && FlowsOk(ops, from, to)
    ensures SunkFrom(ops, k, v) <= Label(to, v)
    decreases |ops| - k
  {
    if k < |ops| {
      ToIsLeast(ops, k + 1, from, to, v);
      if PassesFrom(ops[k], v) {
        var o := GetOutput(ops[k]).value;
        assert OpFlowsOk(from, to, ops[k]) && FlowOk(from, to, v, o);
        ToIsLeast(ops, k + 1, from, to, o);
      }
    }
  }

  // ----- they are labels -----

  lemma FromFlows(ops: seq<Op>, k: nat, v: Varnode)
    requires SingleAssignment(ops) && DefinedBeforeRead(ops) && k < |ops|
    requires IsTemp(ops[k]) && v in CopySources(ops[k])
    ensures Held(LeastFrom(ops), v) <= Label(LeastFrom(ops), GetOutput(ops[k]).value)
  {
    var o, l := GetOutput(ops[k]).value, FromUpTo(ops, k);
    FromUnchanged(ops, o, k + 1, |ops|);
    if v.space == Unique {
      CopySourcesAreRead(ops[k], v);
      forall i | k <= i < |ops| ensures GetOutput(ops[i]) != Some(v) {
        assert IsTemp(ops[i]) ==> GetOutput(ops[i]).value !in Reads(ops[k]);
      }
      FromUnchanged(ops, v, k, |ops|);
    }
    var i :| 0 <= i < |CopySources(ops[k])| && CopySources(ops[k])[i] == v;
    assert forall x :: x in Held(l, v) ==> x in HeldByAny(l, CopySources(ops[k]));
  }

  lemma ToFlows(ops: seq<Op>, k: nat, v: Varnode)
    requires DefinedBeforeRead(ops) && k < |ops| && PassesFrom(ops[k], v)
    ensures Destinations(ops, 0, GetOutput(ops[k]).value) <= SunkFrom(ops, 0, v)
  {
    var o := GetOutput(ops[k]).value;
    SunkGrows(ops, 0, k, v);
    if o.space == Unique {
      forall j | 0 <= j < k + 1 ensures !PassesFrom(ops[j], o) {
        if PassesFrom(ops[j], o) {
          CopySourcesAreRead(ops[j], o);
        }
      }
      SunkUnchanged(ops, 0, k + 1, o);
    }
  }

  lemma LeastFlowsOk(ops: seq<Op>)
    requires OpsOk(ops) && SingleAssignment(ops) && DefinedBeforeRead(ops)
    ensures FlowsOk(ops, LeastFrom(ops), LeastTo(ops))
  {
    forall k, v | 0 <= k < |ops| && GetOutput(ops[k]).Some? && v in CopySources(ops[k])
      ensures FlowOk(LeastFrom(ops), LeastTo(ops), v, GetOutput(ops[k]).value)
    {
      if IsTemp(ops[k]) {
        FromFlows(ops, k, v);
      }
      if v.space == Unique {
        ToFlows(ops, k, v);
        LeastToLabel(ops, v);
        LeastToLabel(ops, GetOutput(ops[k]).value);
      }
    }
  }

  // ----- and the only ones that matter -----

  lemma StableWithLess(ops: seq<Op>, from: Labels, to: Labels, from': Labels, to': Labels)
    requires CopiesStable(ops, from, to)
    requires forall u :: Label(from', u) <= Label(from, u) && Label(to', u) <= Label(to, u)
    ensures CopiesStable(ops, from', to')
  {
    forall i, k, j, r | 0 <= i < k < j < |ops| && Carries(from', ops[i], ops[j], r) ensures !MayWrite(to', ops[k], r) {
      assert Carries(from, ops[i], ops[j], r);
      assert MayWrite(to', ops[k], r) ==> MayWrite(to, ops[k], r);
    }
  }

  /** The hypotheses of the optimizer, decided with the computed labels. */
  lemma WellFormedIff(ops: seq<Op>)
    ensures WellFormed(ops) <==>
      && OpsOk(ops) && StraightLine(ops) && SingleAssignment(ops) && DefinedBeforeRead(ops)
      && CopiesStable(ops, LeastFrom(ops), LeastTo(ops))
  {
    if WellFormed(ops) {
      var from, to :| Labelled(ops, from, to);
      forall u ensures Label(LeastFrom(ops), u) <= Label(from, u) && Label(LeastTo(ops), u) <= Label(to, u) {
        FromIsLeast(ops, |ops|, from, to, u);
        ToIsLeast(ops, 0, from, to, u);
        LeastToLabel(ops, u);
      }
      StableWithLess(ops, from, to, LeastFrom(ops), LeastTo(ops));
    }
    if OpsOk(ops) && StraightLine(ops) && SingleAssignment(ops) && DefinedBeforeRead(ops)
       && CopiesStable(ops, LeastFrom(ops), LeastTo(ops)) {
      LeastFlowsOk(ops);
      assert Labelled(ops, LeastFrom(ops), LeastTo(ops));
    }
  }

  // ----- a decision -----

  /** `CopiesStable`, looking only at registers that a label holds. */
  predicate StableCheck(ops: seq<Op>, from: Labels, to: Labels) {
    forall i, k, j :: 0 <= i < k < j < |ops| && IsTemp(ops[i]) && GetOutput(ops[i]).value in Reads(ops[j]) ==>
      forall r :: r in Label(from, GetOutput(ops[i]).value) ==> !MayWrite(to, ops[k], r)
  }

  lemma StableCheckIs(ops: seq<Op>, from: Labels, to: Labels)
    ensures StableCheck(ops, from, to) <==> CopiesStable(ops, from, to)
  {
    if CopiesStable(ops, from, to) {
      forall i, k, j, r | 0 <= i < k < j < |ops| && IsTemp(ops[i]) && GetOutput(ops[i]).value in Reads(ops[j])
        && r in Label(from, GetOutput(ops[i]).value)
        ensures !MayWrite(to, ops[k], r)
      {
        assert Carries(from, ops[i], ops[j], r);
      }
    }
  }

  /** Whether the optimizer's theorem applies. */
  method IsWellFormed(ops: seq<Op>) returns (b: bool)
    ensures b <==> WellFormed(ops)
  {
    WellFormedIff(ops);
    var from, to := LeastFrom(ops), LeastTo(ops);
    StableCheckIs(ops, from, to);
    b := OpsOk(ops) && StraightLine(ops) && SingleAssignment(ops) && DefinedBeforeRead(ops)
      && StableCheck(ops, from, to);
  }
}

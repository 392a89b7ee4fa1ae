/** The discipline under which the optimizer is correct, and its preservation by each
    rewrite. Besides size rules, straight-line control and single assignment of
    temporaries it says when copies of a register stay valid. */
module Discipline {
  import opened Options
  import opened Pcode
  import opened Folding
  import opened Rewrites

  /** Labels a set of locations to each temporary. */
  type Labels = map<Varnode, set<Varnode>>

  function Label(l: Labels, u: Varnode): set<Varnode> {
    if u in l then l[u] else {}
  }

  predicate IsTemp(op: Op) {
    GetOutput(op).Some? && GetOutput(op).value.space == Unique
  }

  // ----- one operation -----

  /** Ram varnodes occur only as destinations of control transfers. */
  predicate RamOnlyAsDest(op: Op) {
    match op
    case Branch(dest) => dest.space == Ram
    case Call(dest) => dest.space == Ram
    case CBranch(dest, cond) => dest.space == Ram && cond.space != Ram
    case BranchInd(_) => true
    case CallInd(_) => true
    case _ => forall v :: v in Reads(op) ==> v.space != Ram
  }

  predicate OutputOk(op: Op) {
    && (GetOutput(op).Some? ==> GetOutput(op).value.space == Register || GetOutput(op).value.space == Unique)
    && (op.CallOther? && op.result.Some? ==> op.result.value.space == Register)
  }

  predicate OpOk(op: Op) {
    OperandsOk(op) && RamOnlyAsDest(op) && OutputOk(op)
  }

  // ----- the whole sequence -----

  predicate OpsOk(ops: seq<Op>) {
    forall k :: 0 <= k < |ops| ==> OpOk(ops[k])
  }

  /** Control leaves only at the end. */
  predicate StraightLine(ops: seq<Op>) {
    forall k :: 0 <= k < |ops| - 1 ==> !IsControl(ops[k])
  }

  predicate SingleAssignment(ops: seq<Op>) {
    forall i, j :: 0 <= i < j < |ops| && IsTemp(ops[i]) ==> GetOutput(ops[j]) != GetOutput(ops[i])
  }

  predicate DefinedBeforeRead(ops: seq<Op>) {
    forall i, j :: 0 <= j <= i < |ops| && IsTemp(ops[i]) ==> GetOutput(ops[i]).value !in Reads(ops[j])
  }

  /** If `op` may pass `v` on to its output `o`, then `o` may carry what `v` carries
      (labels `from`) and `v` may be sunk to where `o` may be sunk (labels `to`). */
  ghost predicate FlowOk(from: Labels, to: Labels, v: Varnode, o: Varnode) {
    && (o.space == Unique && v.space == Register ==> v in Label(from, o))
    && (o.space == Unique && v.space == Unique ==>
          Label(from, v) <= Label(from, o) && Label(to, o) <= Label(to, v))
    && (o.space != Unique && v.space == Unique ==> o in Label(to, v))
  }

  ghost predicate OpFlowsOk(from: Labels, to: Labels, op: Op) {
    GetOutput(op).Some? ==> forall v :: v in CopySources(op) ==> FlowOk(from, to, v, GetOutput(op).value)
  }

  ghost predicate FlowsOk(ops: seq<Op>, from: Labels, to: Labels) {
    forall k :: 0 <= k < |ops| ==> OpFlowsOk(from, to, ops[k])
  }

  /** `user` reads a temporary of `def` that may be a copy of `r`. */
  predicate Carries(from: Labels, def: Op, user: Op, r: Varnode) {
    IsTemp(def) && GetOutput(def).value in Reads(user) && r in Label(from, GetOutput(def).value)
  }

  /** `op` writes `r`, or a temporary that may be sunk into `r`. */
  predicate MayWrite(to: Labels, op: Op, r: Varnode) {
    (!IsTemp(op) && WritesTo(op, r)) || (IsTemp(op) && r in Label(to, GetOutput(op).value))
  }

  /** No register is written, now or after sinking, while a copy of it awaits a read. */
  ghost predicate CopiesStable(ops: seq<Op>, from: Labels, to: Labels) {
    forall i, k, j, r :: 0 <= i < k < j < |ops| && Carries(from, ops[i], ops[j], r) ==> !MayWrite(to, ops[k], r)
  }

  ghost predicate Labelled(ops: seq<Op>, from: Labels, to: Labels) {
    && OpsOk(ops) && StraightLine(ops) && SingleAssignment(ops) && DefinedBeforeRead(ops)
    && FlowsOk(ops, from, to) && CopiesStable(ops, from, to)
  }

  ghost predicate WellFormed(ops: seq<Op>) {
    exists from, to :: Labelled(ops, from, to)
  }

  lemma CopySourcesAreRead(op: Op, v: Varnode)
    requires v in CopySources(op)
    ensures v in Reads(op)
  {
    if op.Binary? {
      assert op.left == Reads(op)[0] && op.right == Reads(op)[1];
    } else {
      assert v == Reads(op)[0];
    }
  }

  // ----- simpler operations in place -----

  lemma SimplifiesKeepsOp(op: Op, op': Op, from: Labels, to: Labels)
    requires Simplifies(op, op') && OpOk(op) && OpFlowsOk(from, to, op)
    ensures OpOk(op') && OpFlowsOk(from, to, op') && IsControl(op') == IsControl(op)
    ensures forall v :: v in Reads(op') ==> v.space == Const || v in Reads(op)
    ensures forall v :: WritesTo(op', v) ==> WritesTo(op, v)
  {
    forall v | v in CopySources(op) ensures v in Reads(op) {
      CopySourcesAreRead(op, v);
    }
  }

  lemma PointwiseKeeps(p: seq<Op>, q: seq<Op>, from: Labels, to: Labels)
    requires Labelled(p, from, to)
    requires |p| == |q| && forall k :: 0 <= k < |p| ==> Simplifies(p[k], q[k])
    ensures Labelled(q, from, to)
  {
    forall k | 0 <= k < |p|
      ensures OpOk(q[k]) && OpFlowsOk(from, to, q[k]) && IsControl(q[k]) == IsControl(p[k])
      ensures forall v :: v in Reads(q[k]) ==> v.space == Const || v in Reads(p[k])
      ensures forall v :: WritesTo(q[k], v) ==> WritesTo(p[k], v)
      ensures GetOutput(q[k]) == GetOutput(p[k])
    {
      assert OpOk(p[k]) && OpFlowsOk(from, to, p[k]);
      SimplifiesKeepsOp(p[k], q[k], from, to);
    }
    forall i, k, j, r | 0 <= i < k < j < |q| && Carries(from, q[i], q[j], r) ensures !MayWrite(to, q[k], r) {
      assert Carries(from, p[i], p[j], r);
      assert !MayWrite(to, p[k], r);
    }
  }

  // ----- removing an operation -----

  lemma RemoveKeeps(ops: seq<Op>, x: nat, from: Labels, to: Labels)
    requires x < |ops| && Labelled(ops, from, to)
    ensures Labelled(RemoveAt(ops, x), from, to)
  {
    var ops' := RemoveAt(ops, x);
    forall i, k, j, r | 0 <= i < k < j < |ops'| && Carries(from, ops'[i], ops'[j], r)
      ensures !MayWrite(to, ops'[k], r)
    {
      var i', k', j' := Back(i, x), Back(k, x), Back(j, x);
      assert Carries(from, ops[i'], ops[j'], r);
      assert !MayWrite(to, ops[k'], r);
    }
    forall i, j | 0 <= i < j < |ops'| && IsTemp(ops'[i]) ensures GetOutput(ops'[j]) != GetOutput(ops'[i]) {
      assert ops'[i] == ops[Back(i, x)] && ops'[j] == ops[Back(j, x)];
    }
    forall i, j | 0 <= j <= i < |ops'| && IsTemp(ops'[i]) ensures GetOutput(ops'[i]).value !in Reads(ops'[j]) {
      assert ops'[i] == ops[Back(i, x)] && ops'[j] == ops[Back(j, x)];
    }
  }

  /** Where the op now at `k` was before position `x` was removed. */
  function Back(k: nat, x: nat): nat {
    if k < x then k else k + 1
  }

  // ----- reading a copy's source instead of the copy -----

  lemma ReplaceKeepsOp(op: Op, u: Varnode, w: Varnode)
    requires OpOk(op) && VarnodeOk(w) && w.space != Ram && u.space == Unique && u.size == w.size
    ensures OpOk(ReplaceReads(op, u, w)) && IsControl(ReplaceReads(op, u, w)) == IsControl(op)
  {
    var op' := ReplaceReads(op, u, w);
    forall v | v in Reads(op') ensures VarnodeOk(v) && (v == w || v in Reads(op)) {
      var k :| 0 <= k < |Reads(op')| && v == Reads(op')[k];
      assert v == Subst(Reads(op)[k], u, w) && Reads(op)[k] in Reads(op);
    }
  }

  lemma ReplaceReadsOf(op: Op, u: Varnode, w: Varnode, v: Varnode)
    requires v in Reads(ReplaceReads(op, u, w))
    ensures v in Reads(op) || (v == w && u in Reads(op))
  {
    var k :| 0 <= k < |Reads(op)| && v == Subst(Reads(op)[k], u, w);
    assert Reads(op)[k] in Reads(op);
  }

  lemma ReplaceCopySources(op: Op, u: Varnode, w: Varnode, v: Varnode)
    requires u.size == w.size && v in CopySources(ReplaceReads(op, u, w))
    ensures v in CopySources(op) || (v == w && u in CopySources(op))
  {
    var op' := ReplaceReads(op, u, w);
    assert CopySources(op') == SubstAll(CopySources(op), u, w);
    var k :| 0 <= k < |CopySources(op')| && v == CopySources(op')[k];
    assert CopySources(op)[k] in CopySources(op);
  }

  /** `w` can be read for `u` at `j`: it is available there, may flow wherever `u` may,
      and is not a stale copy. */
  ghost predicate CanStandIn(ops: seq<Op>, j: nat, u: Varnode, w: Varnode, from: Labels, to: Labels) {
    && u.space == Unique && w.space != Ram && VarnodeOk(w) && u.size == w.size && FlowOk(from, to, w, u)
    && (forall a :: j <= a < |ops| && IsTemp(ops[a]) ==> GetOutput(ops[a]).value != w)
    && (forall a, k, r ::
          0 <= a < k < j && k < |ops| && GetOutput(ops[a]) == Some(w) && r in Label(from, w) && IsTemp(ops[a]) ==>
          !MayWrite(to, ops[k], r))
  }

  lemma ReplaceKeeps(ops: seq<Op>, j: nat, u: Varnode, w: Varnode, from: Labels, to: Labels)
    requires j < |ops| && Labelled(ops, from, to) && CanStandIn(ops, j, u, w, from, to)
    ensures Labelled(ops[j := ReplaceReads(ops[j], u, w)], from, to)
  {
    var op' := ReplaceReads(ops[j], u, w);
    var q := ops[j := op'];
    ReplaceKeepsOp(ops[j], u, w);
    ReplaceKeepsFlows(ops[j], u, w, from, to);
    forall a, b | 0 <= b <= a < |q| && IsTemp(q[a]) ensures GetOutput(q[a]).value !in Reads(q[b]) {
      assert GetOutput(q[a]) == GetOutput(ops[a]);
      if b == j && GetOutput(q[a]).value in Reads(op') {
        ReplaceReadsOf(ops[j], u, w, GetOutput(q[a]).value);
      }
    }
    forall a, k, b, r | 0 <= a < k < b < |q| && Carries(from, q[a], q[b], r) ensures !MayWrite(to, q[k], r) {
      assert GetOutput(q[a]) == GetOutput(ops[a]) && GetOutput(q[k]) == GetOutput(ops[k]);
      assert MayWrite(to, q[k], r) == MayWrite(to, ops[k], r);
      if b == j {
        ReplaceReadsOf(ops[j], u, w, GetOutput(q[a]).value);
      }
      assert Carries(from, ops[a], ops[b], r) || (b == j && GetOutput(ops[a]).value == w);
    }
  }

  lemma ReplaceKeepsFlows(op: Op, u: Varnode, w: Varnode, from: Labels, to: Labels)
    requires u.space == Unique && w.space != Ram && u.size == w.size
    requires OpFlowsOk(from, to, op) && FlowOk(from, to, w, u)
    ensures OpFlowsOk(from, to, ReplaceReads(op, u, w))
  {
    var op' := ReplaceReads(op, u, w);
    if GetOutput(op).Some? {
      forall v | v in CopySources(op') ensures FlowOk(from, to, v, GetOutput(op').value) {
        ReplaceCopySources(op, u, w, v);
      }
    }
  }

  /** A copy's source that is itself a temporary is no stale copy at the reader. */
  lemma SourceNotStale(ops: seq<Op>, i: nat, j: nat, a: nat, k: nat, r: Varnode, from: Labels, to: Labels)
    requires Labelled(ops, from, to) && i < j < |ops|
    requires ops[i].Copy? && IsTemp(ops[i]) && ops[i].out in Reads(ops[j])
    requires a < k < j && k != i && IsTemp(ops[a]) && GetOutput(ops[a]) == Some(ops[i].input)
    requires r in Label(from, ops[i].input)
    ensures !MayWrite(to, ops[k], r)
  {
    var w := ops[i].input;
    assert w in Reads(ops[i]) && w in CopySources(ops[i]) && OpFlowsOk(from, to, ops[i]);
    if k < i {
      assert Carries(from, ops[a], ops[i], r);
    } else {
      assert FlowOk(from, to, w, ops[i].out);
      assert Carries(from, ops[i], ops[j], r);
    }
  }

  lemma ForwardKeeps(ops: seq<Op>, i: nat, j: nat, from: Labels, to: Labels)
    requires Labelled(ops, from, to) && i < j < |ops|
    requires ops[i].Copy? && IsTemp(ops[i]) && ops[i].out in Reads(ops[j])
    ensures WellFormed(Forward(ops, i, j))
  {
    var p := RemoveAt(ops, i);
    RemoveKeeps(ops, i, from, to);
    CopySourceFresh(ops, i, j, p, from, to);
    ReplaceKeeps(p, j - 1, ops[i].out, ops[i].input, from, to);
    assert Forward(ops, i, j) == p[j - 1 := ReplaceReads(p[j - 1], ops[i].out, ops[i].input)];
  }

  /** Once the copy is gone its source can be read where its result was. */
  lemma CopySourceFresh(ops: seq<Op>, i: nat, j: nat, p: seq<Op>, from: Labels, to: Labels)
    requires Labelled(ops, from, to) && i < j < |ops| && p == RemoveAt(ops, i)
    requires ops[i].Copy? && IsTemp(ops[i]) && ops[i].out in Reads(ops[j])
    ensures CanStandIn(p, j - 1, ops[i].out, ops[i].input, from, to)
  {
    var w := ops[i].input;
    assert w in Reads(ops[i]) && OpOk(ops[i]) && OpFlowsOk(from, to, ops[i]) && w in CopySources(ops[i]);
    forall a | j - 1 <= a < |p| && IsTemp(p[a]) ensures GetOutput(p[a]).value != w {
      assert p[a] == ops[a + 1];
    }
    forall a, k, r | 0 <= a < k < j - 1 && GetOutput(p[a]) == Some(w) && r in Label(from, w) && IsTemp(p[a])
      ensures !MayWrite(to, p[k], r)
    {
      SourceNotStale(ops, i, j, Back(a, i), Back(k, i), r, from, to);
    }
  }

  // ----- writing elsewhere -----

  lemma WithOutputKeepsOp(op: Op, d: Varnode)
    requires OpOk(op) && IsTemp(op) && d.size == GetOutput(op).value.size
    requires d.space == Register || d.space == Unique
    ensures OpOk(WithOutput(op, d)) && !IsControl(WithOutput(op, d))
    ensures CopySources(WithOutput(op, d)) == CopySources(op)
  {
  }

  /** Writing the temporary of `i` to `d` instead keeps the discipline if `d` is not
      otherwise assigned, not read before, and no copy it will hold is stale. */
  lemma RenameKeeps(ops: seq<Op>, i: nat, d: Varnode, from: Labels, to: Labels)
    requires i < |ops| && Labelled(ops, from, to) && IsTemp(ops[i])
    requires d.size == GetOutput(ops[i]).value.size && (d.space == Register || d.space == Unique)
    requires var u := GetOutput(ops[i]).value;
      && (d.space == Register ==> d in Label(to, u))
      && (d.space == Unique ==>
            && Label(to, d) <= Label(to, u)
            && Label(from, u) <= Label(from, d)
            && (forall a :: 0 <= a < |ops| ==> GetOutput(ops[a]) != Some(d))
            && (forall a :: 0 <= a <= i ==> d !in Reads(ops[a]))
            && (forall k, b, r :: i < k < b < |ops| && d in Reads(ops[b]) && r in Label(from, u) ==>
                !MayWrite(to, ops[k], r)))
    ensures var from' := if d.space == Unique then from[d := Label(from, GetOutput(ops[i]).value)] else from;
            Labelled(ops[i := WithOutput(ops[i], d)], from', to)
  {
    var u, op' := GetOutput(ops[i]).value, WithOutput(ops[i], d);
    var q := ops[i := op'];
    var from' := if d.space == Unique then from[d := Label(from, u)] else from;
    WithOutputKeepsOp(ops[i], d);
    assert OpOk(ops[i]);
    forall k | 0 <= k < |q| ensures OpFlowsOk(from', to, q[k]) {
      assert OpFlowsOk(from, to, ops[k]);
      RenameKeepsFlows(ops, k, i, d, from, to);
    }
    forall a, b | 0 <= b <= a < |q| && IsTemp(q[a]) ensures GetOutput(q[a]).value !in Reads(q[b]) {
      assert Reads(q[b]) == Reads(ops[b]);
    }
    forall a, k, b, r | 0 <= a < k < b < |q| && Carries(from', q[a], q[b], r) ensures !MayWrite(to, q[k], r) {
      assert Reads(q[b]) == Reads(ops[b]);
      assert MayWrite(to, q[k], r) ==> MayWrite(to, ops[k], r);
      assert a != i ==> Carries(from, ops[a], ops[b], r);
    }
  }

  lemma RenameKeepsFlows(ops: seq<Op>, k: nat, i: nat, d: Varnode, from: Labels, to: Labels)
    requires k < |ops| && i < |ops| && IsTemp(ops[i]) && OpFlowsOk(from, to, ops[k])
    requires CopySources(WithOutput(ops[i], d)) == CopySources(ops[i])
    requires var u := GetOutput(ops[i]).value;
      && (d.space == Register ==> d in Label(to, u))
      && (d.space == Unique ==> Label(to, d) <= Label(to, u) && Label(from, u) <= Label(from, d))
      && (d.space == Register || d.space == Unique)
      && (d.space == Unique ==> GetOutput(ops[k]) != Some(d))
    ensures var from' := if d.space == Unique then from[d := Label(from, GetOutput(ops[i]).value)] else from;
            OpFlowsOk(from', to, ops[i := WithOutput(ops[i], d)][k])
  {
    var u := GetOutput(ops[i]).value;
    var from' := if d.space == Unique then from[d := Label(from, u)] else from;
    var op' := ops[i := WithOutput(ops[i], d)][k];
    if GetOutput(op').Some? {
      forall v | v in CopySources(op') ensures FlowOk(from', to, v, GetOutput(op').value) {
        assert v in CopySources(ops[k]);
        assert FlowOk(from, to, v, GetOutput(ops[k]).value);
        assert Label(from', v) <= Label(from, v);
      }
    }
  }

  /** Moving the write of `d` from its copy at `j` up to the definition at `i`. */
  lemma MoveUpKeeps(ops: seq<Op>, i: nat, j: nat, from: Labels, to: Labels)
    returns (from': Labels)
    requires Labelled(ops, from, to) && i < j < |ops| && IsTemp(ops[i]) && GetOutput(ops[j]).Some?
    requires GetOutput(ops[i]).value in CopySources(ops[j]) && GetOutput(ops[i]).value in Reads(ops[j])
    requires GetOutput(ops[i]).value.size == GetOutput(ops[j]).value.size
    ensures Labelled(RemoveAt(ops[i := WithOutput(ops[i], GetOutput(ops[j]).value)], j), from', to)
  {
    var u, d, p := GetOutput(ops[i]).value, GetOutput(ops[j]).value, RemoveAt(ops, j);
    RemoveKeeps(ops, j, from, to);
    assert OpOk(ops[j]) && OpFlowsOk(from, to, ops[j]);
    if d.space == Unique {
      forall a | 0 <= a < |p| ensures GetOutput(p[a]) != Some(d) {
        assert p[a] == ops[Back(a, j)];
      }
      forall k, b, r | i < k < b < |p| && d in Reads(p[b]) && r in Label(from, u) ensures !MayWrite(to, p[k], r) {
        var k', b' := Back(k, j), Back(b, j);
        assert p[k] == ops[k'] && p[b] == ops[b'];
        assert b' > j;
        if k' < j {
          assert Carries(from, ops[i], ops[j], r);
        } else {
          assert Carries(from, ops[j], ops[b'], r);
        }
      }
    }
    RenameKeeps(p, i, d, from, to);
    from' := if d.space == Unique then from[d := Label(from, u)] else from;
    assert RemoveAt(ops[i := WithOutput(ops[i], d)], j) == p[i := WithOutput(p[i], d)];
  }
}

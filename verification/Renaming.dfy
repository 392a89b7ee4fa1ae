/** Shifting the offsets of temporaries, used when sequences are combined, is an
    alpha-renaming. */
module Renaming {
  import opened Words
  import opened Options
  import opened Pcode
  import opened Semantics
  import opened Rewrites

  function Shift(v: Varnode, k: nat): Varnode {
    if v.space == Unique then v.(offset := v.offset + k) else v
  }

  function ShiftReads(op: Op, k: nat): (r: Op)
    ensures GetOutput(r) == GetOutput(op)
  {
    match op
    case Copy(out, input) => Copy(out, Shift(input, k))
    case Load(out, space, ptr) => Load(out, space, Shift(ptr, k))
    case Store(space, ptr, val) => Store(space, Shift(ptr, k), Shift(val, k))
    case Branch(dest) => Branch(Shift(dest, k))
    case CBranch(dest, cond) => CBranch(Shift(dest, k), Shift(cond, k))
    case BranchInd(dest) => BranchInd(Shift(dest, k))
    case Call(dest) => Call(Shift(dest, k))
    case CallInd(dest) => CallInd(Shift(dest, k))
    case Return(dest) => Return(Shift(dest, k))
    case Unary(o, out, input) => Unary(o, out, Shift(input, k))
    case Binary(o, out, left, right) => Binary(o, out, Shift(left, k), Shift(right, k))
    case Subpiece(out, input, lsb) => Subpiece(out, Shift(input, k), lsb)
    case CallOther(result, funcId, inputs) =>
      CallOther(result, funcId, seq(|inputs|, i requires 0 <= i < |inputs| => Shift(inputs[i], k)))
  }

  /** Shift the reported output, then every operand. */
  function OffsetUniqueVarnodes(op: Op, k: nat): Op {
    var op' := if GetOutput(op).Some? then WithOutput(op, Shift(GetOutput(op).value, k)) else op;
    ShiftReads(op', k)
  }

  function OffsetAll(ops: seq<Op>, k: nat): (r: seq<Op>)
    ensures |r| == |ops| && forall i :: 0 <= i < |ops| ==> r[i] == OffsetUniqueVarnodes(ops[i], k)
  {
    seq(|ops|, i requires 0 <= i < |ops| => OffsetUniqueVarnodes(ops[i], k))
  }

  predicate HidesResult(op: Op) {
    op.CallOther? && op.result.Some? && op.result.value.space == Unique
  }

  /** The two forms whose temporaries the shift does not see. */
  predicate Shiftable(op: Op) {
    !HidesResult(op) && !IsThroughRam(op)
  }

  ghost predicate AllShiftable(ops: seq<Op>) {
    forall i :: 0 <= i < |ops| ==> Shiftable(ops[i])
  }

  /** Writes are renamed consistently exactly when no temporary result is hidden in a
      `CallOther`. */
  lemma WritesRenamedIff(op: Op, k: nat)
    requires k > 0
    ensures (forall v :: WritesTo(op, v) <==> WritesTo(OffsetUniqueVarnodes(op, k), Shift(v, k))) <==> !HidesResult(op)
  {
    if HidesResult(op) {
      var v := op.result.value;
      assert WritesTo(op, v) && !WritesTo(OffsetUniqueVarnodes(op, k), Shift(v, k));
    } else {
      forall v ensures WritesTo(op, v) <==> WritesTo(OffsetUniqueVarnodes(op, k), Shift(v, k)) {
      }
    }
  }

  /** `t` holds at shifted positions what `s` holds. */
  ghost predicate Shifted(s: State, t: State, k: nat) {
    s.mem == t.mem && s.exits == t.exits && forall v :: Get(s, v) == Get(t, Shift(v, k))
  }

  function ShiftEffect(e: Effect, k: nat): Effect {
    e.(write := if e.write.Some? then Some((Shift(e.write.value.0, k), e.write.value.1)) else None)
  }

  /** The same effect at shifted positions. */
  lemma ShiftedApply(s: State, t: State, e: Effect, k: nat)
    requires Shifted(s, t, k)
    ensures Shifted(Apply(s, e), Apply(t, ShiftEffect(e, k)), k)
  {
    forall v ensures Get(Apply(s, e), v) == Get(Apply(t, ShiftEffect(e, k)), Shift(v, k)) {
      ShiftedGet(s, t, e, k, v);
    }
  }

  lemma ShiftedGet(s: State, t: State, e: Effect, k: nat, v: Varnode)
    requires Get(s, v) == Get(t, Shift(v, k))
    ensures Get(Apply(s, e), v) == Get(Apply(t, ShiftEffect(e, k)), Shift(v, k))
  {
    if e.write.Some? {
      assert Shift(v, k) == Shift(e.write.value.0, k) <==> v == e.write.value.0;
    }
  }

  lemma ShiftedOperands(op: Op, k: nat)
    ensures var op' := OffsetUniqueVarnodes(op, k);
      && |Reads(op')| == |Reads(op)|
      && (forall i :: 0 <= i < |Reads(op)| ==> Reads(op')[i] == Shift(Reads(op)[i], k))
      && GetOutput(op').Some? == GetOutput(op).Some?
      && (GetOutput(op).Some? ==> GetOutput(op').value == Shift(GetOutput(op).value, k))
  {
  }

  /** What an operation computes depends on its operand values alone. */
  lemma ShiftedResult(m: Machine, op: Op, k: nat, s: State, t: State)
    requires s.mem == t.mem && GetOutput(op).Some?
    requires forall i :: 0 <= i < |Reads(op)| ==> Get(s, Reads(op)[i]) == Get(t, Shift(Reads(op)[i], k))
    ensures GetOutput(OffsetUniqueVarnodes(op, k)).Some?
    ensures Result(m, op, s) == Result(m, OffsetUniqueVarnodes(op, k), t)
  {
    var v := Reads(op)[0];
    assert Get(s, v) == Get(t, Shift(v, k)) && v.size == Shift(v, k).size;
    if op.Binary? {
      assert op.right == Reads(op)[1];
    }
  }

  lemma ShiftedTransfer(m: Machine, op: Op, k: nat, s: State, t: State)
    requires s.mem == t.mem && IsControl(op) && !IsThroughRam(op)
    requires forall i :: 0 <= i < |Reads(op)| ==> Get(s, Reads(op)[i]) == Get(t, Shift(Reads(op)[i], k))
    ensures IsControl(OffsetUniqueVarnodes(op, k))
    ensures Transfer(m, op, s) == Transfer(m, OffsetUniqueVarnodes(op, k), t)
  {
    assert op.dest == Reads(op)[0];
    if op.CBranch? {
      assert op.cond == Reads(op)[1];
    }
  }

  lemma ShiftedStore(m: Machine, op: Op, k: nat, s: State, t: State)
    requires Shifted(s, t, k) && op.Store?
    ensures EffectOf(m, OffsetUniqueVarnodes(op, k), t) == ShiftEffect(EffectOf(m, op, s), k)
  {
    var op' := Store(op.space, Shift(op.ptr, k), Shift(op.val, k));
    assert OffsetUniqueVarnodes(op, k) == op';
    assert Get(s, op.ptr) == Get(t, op'.ptr) && Get(s, op.val) == Get(t, op'.val);
    var e := Effect(None, m.store(s.mem, op.space, Get(s, op.ptr), Get(s, op.val), op.val.size), None);
    assert EffectOf(m, op, s) == e;
    assert EffectOf(m, op', t) == e;
  }

  lemma ShiftedCallOther(m: Machine, op: Op, k: nat, s: State, t: State)
    requires Shifted(s, t, k) && op.CallOther? && !HidesResult(op)
    ensures EffectOf(m, OffsetUniqueVarnodes(op, k), t) == ShiftEffect(EffectOf(m, op, s), k)
  {
    var op' := OffsetUniqueVarnodes(op, k);
    assert op'.CallOther? && op'.result == op.result && op'.funcId == op.funcId;
    assert GetAll(s, op.inputs) == GetAll(t, op'.inputs);
    assert EffectOf(m, op', t) == EffectOf(m, op, s);
  }

  lemma ShiftedEffect(m: Machine, op: Op, k: nat, s: State, t: State)
    requires Shifted(s, t, k) && Shiftable(op)
    ensures EffectOf(m, OffsetUniqueVarnodes(op, k), t) == ShiftEffect(EffectOf(m, op, s), k)
  {
    if GetOutput(op).Some? {
      ShiftedOperands(op, k);
      ShiftedResult(m, op, k, s, t);
    } else if IsControl(op) {
      ShiftedTransfer(m, op, k, s, t);
    } else if op.Store? {
      ShiftedStore(m, op, k, s, t);
    } else {
      ShiftedCallOther(m, op, k, s, t);
    }
  }

  lemma ShiftedStep(m: Machine, op: Op, k: nat, s: State, t: State)
    requires Shifted(s, t, k) && Shiftable(op)
    ensures Shifted(Step(m, op, s), Step(m, OffsetUniqueVarnodes(op, k), t), k)
  {
    StepIs(m, op, s);
    StepIs(m, OffsetUniqueVarnodes(op, k), t);
    ShiftedEffect(m, op, k, s, t);
    ShiftedApply(s, t, EffectOf(m, op, s), k);
  }

  // ----- the two forms are the only ones -----

  /** Executing the operation commutes with the shift, on every machine from every state. */
  ghost predicate Commutes(op: Op, k: nat) {
    forall m, s, t :: Shifted(s, t, k) ==> Shifted(Step(m, op, s), Step(m, OffsetUniqueVarnodes(op, k), t), k)
  }

  lemma StepReturningOne(m: Machine, op: Op, v: Varnode, s: State)
    requires op.CallOther? && op.result == Some(v) && v.space == Unique && v.size >= 1
    requires forall id, vs, mem :: m.other(id, vs, mem) == (1, mem)
    ensures Get(Step(m, op, s), v) == 1
    ensures forall w :: w != v ==> Get(Step(m, op, s), w) == Get(s, w)
  {
    StepIs(m, op, s);
    Pow2Monotone(8, 8 * v.size);
    WrapSmall(1, v.size);
  }

  /** The result of the operation stays where it was. */
  lemma HiddenResultShows(op: Op, k: nat)
    requires k > 0 && HidesResult(op) && op.result.value.size >= 1
    ensures !Commutes(op, k)
  {
    var m := Idle().(other := (id, vs, mem) => (1, mem));
    var s := State(map[], map[], []);
    HiddenResultStays(m, op, k, s);
    assert Shifted(s, s, k);
  }

  lemma HiddenResultStays(m: Machine, op: Op, k: nat, s: State)
    requires k > 0 && HidesResult(op) && op.result.value.size >= 1 && s.vals == map[]
    requires forall id, vs, mem :: m.other(id, vs, mem) == (1, mem)
    ensures !Shifted(Step(m, op, s), Step(m, OffsetUniqueVarnodes(op, k), s), k)
  {
    var v := op.result.value;
    StepReturningOne(m, op, v, s);
    StepReturningOne(m, OffsetUniqueVarnodes(op, k), v, s);
    assert Get(s, Shift(v, k)) == 0;
  }

  /** One temporary is 1, all other locations are 0. */
  function OneAt(u: Varnode): State {
    State(map[u := 1], map[], [])
  }

  lemma OneAtShifted(u: Varnode, k: nat)
    requires u.space == Unique
    ensures Shifted(OneAt(u), OneAt(Shift(u, k)), k)
  {
    forall v ensures Get(OneAt(u), v) == Get(OneAt(Shift(u, k)), Shift(v, k)) {
      assert Shift(v, k) == Shift(u, k) <==> v == u;
    }
  }

  lemma TransferOf(m: Machine, op: Op, s: State)
    requires IsThroughRam(op) && s.exits == []
    requires forall mem, sp, a, n :: m.load(mem, sp, a, n) == a
    ensures var exits := Step(m, op, s).exits;
      |exits| == 1 && exits[0].target == Get(s, AddressHolder(m, op.dest))
  {
    StepIs(m, op, s);
  }

  /** The address is still read from the temporary that the offset names. */
  lemma RamDestinationShows(op: Op, k: nat)
    requires k > 0 && IsThroughRam(op)
    ensures !Commutes(op, k)
  {
    var m := Idle().(addressSize := 1, load := (mem, sp, a, n) => a);
    var u := AddressHolder(m, op.dest);
    OneAtShifted(u, k);
    RamDestinationStays(m, op, k, u);
  }

  lemma RamDestinationStays(m: Machine, op: Op, k: nat, u: Varnode)
    requires k > 0 && IsThroughRam(op) && m.addressSize == 1 && u == AddressHolder(m, op.dest)
    requires forall mem, sp, a, n :: m.load(mem, sp, a, n) == a
    ensures !Shifted(Step(m, op, OneAt(u)), Step(m, OffsetUniqueVarnodes(op, k), OneAt(Shift(u, k))), k)
  {
    TransferOf(m, op, OneAt(u));
    TransferOf(m, op, OneAt(Shift(u, k)));
    assert Get(OneAt(u), u) == 1 by {
      assert Pow2(8) == 256;
      WrapSmall(1, 1);
    }
    RamDestinationUnshifted(op, k);
  }

  lemma RamDestinationUnshifted(op: Op, k: nat)
    requires IsThroughRam(op)
    ensures OffsetUniqueVarnodes(op, k) == op
  {
  }

  /** Execution commutes with the shift if and only if the operation is neither a
      `CallOther` with a temporary result nor an indirect transfer through Ram. */
  lemma ShiftCommutesIff(op: Op, k: nat)
    requires k > 0 && (HidesResult(op) ==> op.result.value.size >= 1)
    ensures Commutes(op, k) <==> Shiftable(op)
  {
    if HidesResult(op) {
      HiddenResultShows(op, k);
    } else if IsThroughRam(op) {
      RamDestinationShows(op, k);
    } else {
      forall m, s, t | Shifted(s, t, k)
        ensures Shifted(Step(m, op, s), Step(m, OffsetUniqueVarnodes(op, k), t), k)
      {
        ShiftedStep(m, op, k, s, t);
      }
    }
  }

  /** One operation does at shifted positions what the other does. */
  ghost predicate StepsAlike(m: Machine, op: Op, op': Op, k: nat) {
    forall s, t :: Shifted(s, t, k) ==> Shifted(Step(m, op, s), Step(m, op', t), k)
  }

  lemma {:induction false} AlikeRun(
    m: Machine, p: seq<Op>, q: seq<Op>, lo: nat, hi: nat, k: nat, s: State, t: State)
    requires lo <= hi <= |p| == |q| && Shifted(s, t, k) && forall i :: lo <= i < hi ==> StepsAlike(m, p[i], q[i], k)
    ensures Shifted(RunRange(m, p, lo, hi, s), RunRange(m, q, lo, hi, t), k)
    decreases hi - lo
  {
    if lo < hi {
      AlikeRun(m, p, q, lo + 1, hi, k, Step(m, p[lo], s), Step(m, q[lo], t));
    }
  }

  /** Execution of any stretch commutes with the shift. */
  lemma ShiftedRun(m: Machine, ops: seq<Op>, lo: nat, hi: nat, k: nat, s: State, t: State)
    requires lo <= hi <= |ops| && Shifted(s, t, k) && AllShiftable(ops)
    ensures Shifted(RunRange(m, ops, lo, hi, s), RunRange(m, OffsetAll(ops, k), lo, hi, t), k)
  {
    forall i | lo <= i < hi ensures StepsAlike(m, ops[i], OffsetAll(ops, k)[i], k) {
      forall s, t | Shifted(s, t, k) ensures Shifted(Step(m, ops[i], s), Step(m, OffsetAll(ops, k)[i], t), k) {
        ShiftedStep(m, ops[i], k, s, t);
      }
    }
    AlikeRun(m, ops, OffsetAll(ops, k), lo, hi, k, s, t);
  }

  ghost predicate StretchCommutes(ops: seq<Op>, lo: nat, hi: nat, k: nat)
    requires lo <= hi <= |ops|
  {
    forall m, s, t :: Shifted(s, t, k) ==>
      Shifted(RunRange(m, ops, lo, hi, s), RunRange(m, OffsetAll(ops, k), lo, hi, t), k)
  }

  lemma OneOpStretch(ops: seq<Op>, i: nat, k: nat)
    requires i < |ops| && StretchCommutes(ops, i, i + 1, k)
    ensures Commutes(ops[i], k)
  {
    var op, op' := ops[i], OffsetAll(ops, k)[i];
    forall m, s, t | Shifted(s, t, k) ensures Shifted(Step(m, op, s), Step(m, op', t), k) {
      RunOne(m, ops, i, s);
      RunOne(m, OffsetAll(ops, k), i, t);
    }
  }

  /** Every stretch of a sequence commutes with the shift if and only if the sequence has
      neither of the two forms. */
  lemma RunCommutesIff(ops: seq<Op>, k: nat)
    requires k > 0
    requires forall i :: 0 <= i < |ops| && HidesResult(ops[i]) ==> ops[i].result.value.size >= 1
    ensures (forall lo: nat, hi: nat :: lo <= hi <= |ops| ==> StretchCommutes(ops, lo, hi, k)) <==> AllShiftable(ops)
  {
    if AllShiftable(ops) {
      forall lo: nat, hi: nat | lo <= hi <= |ops| ensures StretchCommutes(ops, lo, hi, k) {
        forall m, s, t | Shifted(s, t, k)
          ensures Shifted(RunRange(m, ops, lo, hi, s), RunRange(m, OffsetAll(ops, k), lo, hi, t), k)
        {
          ShiftedRun(m, ops, lo, hi, k, s, t);
        }
      }
    } else {
      var i :| 0 <= i < |ops| && !Shiftable(ops[i]);
      ShiftCommutesIff(ops[i], k);
      if StretchCommutes(ops, i, i + 1, k) {
        OneOpStretch(ops, i, k);
      }
    }
  }

  /** Every temporary the sequence writes has an offset below `k`. */
  ghost predicate TempsBelow(ops: seq<Op>, k: nat) {
    forall i, v :: 0 <= i < |ops| && WritesTo(ops[i], v) && v.space == Unique ==> v.offset < k
  }

  lemma UntouchedAbove(m: Machine, ops: seq<Op>, k: nat, s: State, v: Varnode)
    requires TempsBelow(ops, k) && v.space == Unique && v.offset >= k
    ensures Get(Run(m, ops, s), v) == Get(s, v)
  {
    RunFrame(m, ops, 0, |ops|, s, v);
  }

  /** Two sequences with disjoint temporaries compose: after `p`, the shifted `q` does
      what `q` does from `p`'s outcome with its own, undisturbed temporaries. */
  lemma ShiftedConcatenation(m: Machine, p: seq<Op>, q: seq<Op>, k: nat, s: State, s0: State)
    requires TempsBelow(p, k) && AllShiftable(q)
    requires SameOutcome(s0, Run(m, p, s))
    requires forall u: Varnode :: u.space == Unique ==> Get(s0, u) == Get(s, Shift(u, k))
    ensures SameOutcome(Run(m, q, s0), Run(m, p + OffsetAll(q, k), s))
  {
    var s1 := Run(m, p, s);
    assert Shifted(s0, s1, k) by {
      forall v ensures Get(s0, v) == Get(s1, Shift(v, k)) {
        if v.space == Unique {
          UntouchedAbove(m, p, k, s, Shift(v, k));
        }
      }
    }
    ShiftedRun(m, q, 0, |q|, k, s0, s1);
    ConcatRun(m, p, OffsetAll(q, k), s);
    var t0, t1 := Run(m, q, s0), Run(m, OffsetAll(q, k), s1);
    forall v: Varnode | v.space != Unique ensures Get(t0, v) == Get(t1, v) {
      assert Get(t0, v) == Get(t1, Shift(v, k));
    }
  }
}

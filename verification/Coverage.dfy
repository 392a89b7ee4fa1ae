/** Decoded instructions, where their control goes, and the address intervals they cover. */
module Coverage {
  import opened Options
  import opened Pcode

  /** A decoded instruction: its length and its operations. */
  datatype Decoded = Decoded(len: nat, ops: seq<Op>)

  datatype Inst = Inst(addr: nat, body: Decoded)

  datatype Segment = Segment(va: nat, size: nat, fileOffset: nat)

  /** What does not change: function starts, functions that do not return, executable
      segments, the file, the extents of fragments with their own unwind entry, and the
      decoder, which is given an address and a range of the file. */
  datatype Image = Image(starts: set<nat>, noreturn: set<nat>, segments: seq<Segment>, fileSize: nat,
                         extents: map<nat, nat>, decode: (nat, nat, nat) -> Option<Decoded>)

  datatype Diagnostic =
    | OutsideCode(addr: nat)
    | TooMany(addr: nat)
    | TooLong(addr: nat)
    | Failed(addr: nat)
    | Limited(addr: nat)

  const MAX_FRAGMENTS := 32
  const MAX_FRAGMENT_BYTES := 4096

  predicate InSegment(s: Segment, t: nat) {
    s.va <= t < s.va + s.size
  }

  // ----- where control goes -----

  predicate JumpsTo(op: Op, t: nat) {
    (op.Branch? || op.CBranch?) && op.dest.space == Ram && op.dest.offset == t
  }

  /** `t` is the target of a direct jump or conditional jump. */
  ghost predicate InTargets(insts: seq<Inst>, t: nat) {
    exists k, j :: 0 <= k < |insts| && 0 <= j < |insts[k].body.ops| && JumpsTo(insts[k].body.ops[j], t)
  }

  /** Control does not fall through: a return, an indirect or direct jump, or a call that
      does not return. */
  predicate Leaves(m: Image, op: Op) {
    || op.Return? || op.BranchInd?
    || (op.Branch? && op.dest.space == Ram)
    || (op.Call? && op.dest.space == Ram && op.dest.offset in m.noreturn)
  }

  ghost predicate Transfers(m: Image, d: Decoded) {
    exists j :: 0 <= j < |d.ops| && Leaves(m, d.ops[j])
  }

  method DirectJumpTargets(insts: seq<Inst>) returns (r: seq<nat>)
    ensures forall t :: t in r <==> InTargets(insts, t)
  {
    r := [];
    for k := 0 to |insts|
      invariant forall t :: t in r <==> InTargets(insts[..k], t)
    {
      var more := TargetsOfOne(insts[k]);
      OneMoreInst(insts, k);
      r := r + more;
    }
    assert insts[..|insts|] == insts;
  }

  method TargetsOfOne(inst: Inst) returns (r: seq<nat>)
    ensures forall t :: t in r <==> InTargets([inst], t)
  {
    r := [];
    var ops := inst.body.ops;
    for j := 0 to |ops|
      invariant forall t :: t in r <==> exists i :: 0 <= i < j && JumpsTo(ops[i], t)
    {
      if (ops[j].Branch? || ops[j].CBranch?) && ops[j].dest.space == Ram {
        assert JumpsTo(ops[j], ops[j].dest.offset);
        r := r + [ops[j].dest.offset];
      }
    }
    assert [inst][0] == inst;
  }

  lemma OneMoreInst(insts: seq<Inst>, k: nat)
    requires k < |insts|
    ensures forall t: nat :: InTargets(insts[..k + 1], t) <==> InTargets(insts[..k], t) || InTargets([insts[k]], t)
  {
    TargetsConcat(insts[..k], [insts[k]]);
    assert insts[..k + 1] == insts[..k] + [insts[k]];
  }

  lemma TargetsConcat(p: seq<Inst>, q: seq<Inst>)
    ensures forall t: nat :: InTargets(p + q, t) <==> InTargets(p, t) || InTargets(q, t)
  {
    forall t: nat ensures InTargets(p + q, t) <==> InTargets(p, t) || InTargets(q, t) {
      if InTargets(p, t) {
        var k, j :| 0 <= k < |p| && 0 <= j < |p[k].body.ops| && JumpsTo(p[k].body.ops[j], t);
        assert (p + q)[k] == p[k];
      }
      if InTargets(q, t) {
        var k, j :| 0 <= k < |q| && 0 <= j < |q[k].body.ops| && JumpsTo(q[k].body.ops[j], t);
        assert (p + q)[|p| + k] == q[k];
      }
    }
  }

  method ControlLeaves(m: Image, d: Decoded) returns (b: bool)
    ensures b <==> Transfers(m, d)
  {
    for j := 0 to |d.ops|
      invariant forall i :: 0 <= i < j ==> !Leaves(m, d.ops[i])
    {
      match d.ops[j] {
        case Return(_) => return true;
        case BranchInd(_) => return true;
        case Branch(dest) => if dest.space == Ram { return true; }
        case Call(dest) => if dest.space == Ram && dest.offset in m.noreturn { return true; }
        case _ =>
      }
    }
    return false;
  }

  // ----- coverage -----

  type Intervals = map<nat, nat>

  /** The interval with the greatest start not above `t` contains `t`. */
  predicate IsCovered(covered: Intervals, t: nat) {
    exists s :: s in covered && s <= t < covered[s] && forall r :: r in covered && r <= t ==> r <= s
  }

  /** The intervals of instructions; a later one replaces an earlier one at its address. */
  function CoverOf(insts: seq<Inst>): Intervals {
    if insts == [] then map[]
    else
      var last := insts[|insts| - 1];
      CoverOf(insts[..|insts| - 1])[last.addr := last.addr + last.body.len]
  }

  method InitialCover(insts: seq<Inst>) returns (covered: Intervals)
    ensures covered == CoverOf(insts)
  {
    covered := map[];
    for n := 0 to |insts|
      invariant covered == CoverOf(insts[..n])
    {
      assert insts[..n + 1][..n] == insts[..n];
      covered := covered[insts[n].addr := insts[n].addr + insts[n].body.len];
    }
    assert insts[..|insts|] == insts;
  }

  lemma CoverAppend(insts: seq<Inst>, i: Inst)
    ensures CoverOf(insts + [i]) == CoverOf(insts)[i.addr := i.addr + i.body.len]
  {
    assert (insts + [i])[..|insts|] == insts;
  }

  /** Adding an interval at an uncovered start covers it and uncovers nothing. */
  lemma CoverMore(covered: Intervals, a: nat, len: nat, t: nat)
    requires !IsCovered(covered, a) && len > 0
    ensures IsCovered(covered[a := a + len], a)
    ensures IsCovered(covered, t) ==> IsCovered(covered[a := a + len], t)
  {
    var c := covered[a := a + len];
    assert a in c && c[a] == a + len;
    if IsCovered(covered, t) {
      var s :| s in covered && s <= t < covered[s] && forall r :: r in covered && r <= t ==> r <= s;
      assert s in c && c[s] == covered[s];
    }
  }

  /** Every covered interval is an instruction, and every instruction's address starts one. */
  lemma {:induction false} CoverIsInsts(insts: seq<Inst>)
    ensures forall s :: s in CoverOf(insts) ==>
      exists k :: 0 <= k < |insts| && insts[k].addr == s && s + insts[k].body.len == CoverOf(insts)[s]
    ensures forall k :: 0 <= k < |insts| ==> insts[k].addr in CoverOf(insts)
  {
    if insts != [] {
      var n := |insts| - 1;
      var init, c := insts[..n], CoverOf(insts);
      CoverIsInsts(init);
      forall s | s in c ensures exists k :: 0 <= k < |insts| && insts[k].addr == s && s + insts[k].body.len == c[s] {
        if s == insts[n].addr {
          assert c[s] == s + insts[n].body.len;
        } else {
          var k :| 0 <= k < |init| && init[k].addr == s && s + init[k].body.len == CoverOf(init)[s];
          assert insts[k] == init[k];
        }
      }
    }
  }

  /** The address of an instruction is covered, if instructions have a length. */
  lemma AddressIsCovered(insts: seq<Inst>, k: nat)
    requires k < |insts| && forall j :: 0 <= j < |insts| ==> insts[j].body.len > 0
    ensures IsCovered(CoverOf(insts), insts[k].addr)
  {
    CoverIsInsts(insts);
    var s, c := insts[k].addr, CoverOf(insts);
    var j :| 0 <= j < |insts| && insts[j].addr == s && s + insts[j].body.len == c[s];
    assert s in c && s < c[s];
  }

  lemma CoveredIsDecoded(insts: seq<Inst>, t: nat)
    requires IsCovered(CoverOf(insts), t)
    ensures exists k :: 0 <= k < |insts| && insts[k].addr <= t < insts[k].addr + insts[k].body.len
  {
    CoverIsInsts(insts);
    var s :| s in CoverOf(insts) && s <= t < CoverOf(insts)[s];
    var k :| 0 <= k < |insts| && insts[k].addr == s && s + insts[k].body.len == CoverOf(insts)[s];
  }
}

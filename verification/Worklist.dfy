/** The worklist of detached fragments: which parts are decoded, what they cover, and what
    has become of every direct jump in the end. */
module Worklist {
  import opened Options
  import opened Coverage
  import opened Fragments

  // ----- what a part adds -----

  /** `insts` extends `insts0` by instructions at new addresses, all of them covered. */
  ghost predicate Grows(insts0: seq<Inst>, insts: seq<Inst>) {
    var c0, c := CoverOf(insts0), CoverOf(insts);
    && insts0 <= insts
    && (forall t :: IsCovered(c0, t) ==> IsCovered(c, t))
    && (forall k :: |insts0| <= k < |insts| ==> IsCovered(c, insts[k].addr) && !IsCovered(c0, insts[k].addr))
    && (forall j, k :: |insts0| <= j < k < |insts| ==> insts[j].addr != insts[k].addr)
  }

  lemma CoverOneMore(insts: seq<Inst>, i: Inst)
    requires !IsCovered(CoverOf(insts), i.addr) && i.body.len > 0
    ensures IsCovered(CoverOf(insts + [i]), i.addr)
    ensures forall t :: IsCovered(CoverOf(insts), t) ==> IsCovered(CoverOf(insts + [i]), t)
  {
    CoverAppend(insts, i);
    forall t ensures IsCovered(CoverOf(insts), t) ==> IsCovered(CoverOf(insts + [i]), t) {
      CoverMore(CoverOf(insts), i.addr, i.body.len, t);
    }
    CoverMore(CoverOf(insts), i.addr, i.body.len, i.addr);
  }

  lemma GrowOne(insts0: seq<Inst>, insts: seq<Inst>, i: Inst)
    requires Grows(insts0, insts) && !IsCovered(CoverOf(insts), i.addr) && i.body.len > 0
    ensures Grows(insts0, insts + [i])
  {
    var more := insts + [i];
    CoverOneMore(insts, i);
    assert forall k :: 0 <= k < |insts| ==> more[k] == insts[k];
    forall k | |insts0| <= k < |more|
      ensures IsCovered(CoverOf(more), more[k].addr) && !IsCovered(CoverOf(insts0), more[k].addr)
    {
    }
  }

  lemma GrowsTransitive(i0: seq<Inst>, i1: seq<Inst>, i2: seq<Inst>)
    requires Grows(i0, i1) && Grows(i1, i2)
    ensures Grows(i0, i2)
  {
    forall k | |i0| <= k < |i2| ensures IsCovered(CoverOf(i2), i2[k].addr) && !IsCovered(CoverOf(i0), i2[k].addr) {
      if k < |i1| {
        assert i2[k] == i1[k];
      }
    }
    forall j, k | |i0| <= j < k < |i2| ensures i2[j].addr != i2[k].addr {
      if j < |i1| {
        assert i2[j] == i1[j];
        if k < |i1| {
          assert i2[k] == i1[k];
        }
      }
    }
  }

  /** A decoded part grows the instructions before it. */
  lemma {:induction false} DecodedGrows(m: Image, s: Segment, target: nat, before: seq<Inst>, insts: seq<Inst>)
    requires InSegment(s, target) && AreDecoded(m, s, target, before, insts) && !IsCovered(CoverOf(before), target)
    ensures Grows(before, before + insts)
    decreases |insts|
  {
    if insts == [] {
      assert before + insts == before;
    } else {
      var n := |insts| - 1;
      var init, last := insts[..n], insts[n];
      DecodedGrows(m, s, target, before, init);
      assert init == [] ==> before + init == before;
      assert before + insts == (before + init) + [last];
      GrowOne(before, before + init, last);
    }
  }

  /** Instruction `k` of a part: decoded where the one before it ends, and before it
      nothing ended the part. */
  lemma {:induction false} DecodedInst(m: Image, s: Segment, target: nat, before: seq<Inst>, insts: seq<Inst>, k: nat)
    requires InSegment(s, target) && AreDecoded(m, s, target, before, insts) && k < |insts|
    ensures IsNext(m, s, target, before, insts[..k], insts[k])
    decreases |insts|
  {
    var n := |insts| - 1;
    if k < n {
      DecodedInst(m, s, target, before, insts[..n], k);
      assert insts[..n][..k] == insts[..k];
    }
  }

  // ----- the parts of a run -----

  function Flat(parts: seq<Part>): seq<Inst> {
    if parts == [] then [] else Flat(parts[..|parts| - 1]) + parts[|parts| - 1].insts
  }

  function Left(allowance: Option<nat>, parts: seq<Part>): Option<nat> {
    if parts == [] then allowance
    else Spend(Left(allowance, parts[..|parts| - 1]), Attempts(parts[|parts| - 1]))
  }

  /** `p` starts where a jump in `before` goes: not at a function, not in decoded code. */
  ghost predicate IsFollowed(m: Image, before: seq<Inst>, allowance: Option<nat>, p: Part) {
    && InTargets(before, p.target) && p.target !in m.starts && !IsCovered(CoverOf(before), p.target)
    && IsFirstSegment(m.segments, p.target, p.segment) && InSegment(p.segment, p.target)
    && IsPart(m, before, allowance, p)
  }

  /** The parts followed one after the other from `insts0`. */
  ghost predicate AreFollowed(m: Image, insts0: seq<Inst>, allowance: Option<nat>, parts: seq<Part>) {
    parts == [] ||
    var n := |parts| - 1;
    && AreFollowed(m, insts0, allowance, parts[..n])
    && IsFollowed(m, insts0 + Flat(parts[..n]), Left(allowance, parts[..n]), parts[n])
  }

  /** Names the instructions whose growth a proof wants to look into. */
  ghost predicate Seen(insts: seq<Inst>) { true }

  /** `Grows`, folded: it opens only for instructions named by `Seen`. */
  ghost predicate HasGrown(insts0: seq<Inst>, insts: seq<Inst>) {
    forall r {:trigger Seen(r)} :: Seen(r) && r == insts ==> Grows(insts0, r)
  }

  lemma NotGrown(insts: seq<Inst>)
    ensures HasGrown(insts, insts)
  {
  }

  lemma PartGrows(m: Image, insts0: seq<Inst>, before: seq<Inst>, allowance: Option<nat>, p: Part, after: seq<Inst>)
    requires HasGrown(insts0, before) && IsFollowed(m, before, allowance, p) && after == before + p.insts
    ensures HasGrown(insts0, after)
  {
    assert Seen(before) && Opened(p);
    DecodedGrows(m, p.segment, p.target, before, p.insts);
    GrowsTransitive(insts0, before, after);
  }

  lemma Associates(a: seq<Inst>, b: seq<Inst>, c: seq<Inst>)
    ensures a + (b + c) == a + b + c
  {
  }

  lemma {:induction false} FollowedGrows(m: Image, insts0: seq<Inst>, allowance: Option<nat>, parts: seq<Part>)
    requires AreFollowed(m, insts0, allowance, parts)
    ensures HasGrown(insts0, insts0 + Flat(parts))
    decreases |parts|
  {
    if parts == [] {
      NotGrown(insts0);
      assert insts0 + Flat(parts) == insts0;
    } else {
      var init, last := parts[..|parts| - 1], parts[|parts| - 1];
      Associates(insts0, Flat(init), last.insts);
      FollowedGrows(m, insts0, allowance, init);
      PartGrows(m, insts0, insts0 + Flat(init), Left(allowance, init), last, insts0 + Flat(parts));
    }
  }

  lemma {:induction false} FollowedPart(m: Image, insts0: seq<Inst>, allowance: Option<nat>, parts: seq<Part>, j: nat)
    requires AreFollowed(m, insts0, allowance, parts) && j < |parts|
    ensures IsFollowed(m, insts0 + Flat(parts[..j]), Left(allowance, parts[..j]), parts[j])
    decreases |parts|
  {
    var n := |parts| - 1;
    if j < n {
      FollowedPart(m, insts0, allowance, parts[..n], j);
      assert parts[..n][..j] == parts[..j];
    }
  }

  /** The decoder delivers the instruction at its address. */
  ghost predicate Delivered(m: Image, i: Inst) {
    exists start, end :: m.decode(i.addr, start, end) == Some(i.body)
  }

  /** Every appended instruction is what the decoder delivers at its address. */
  lemma {:induction false} AppendedIsDecoded(m: Image, insts0: seq<Inst>, allowance: Option<nat>, parts: seq<Part>,
                                             k: nat)
    requires AreFollowed(m, insts0, allowance, parts) && k < |Flat(parts)|
    ensures Delivered(m, Flat(parts)[k])
    decreases |parts|
  {
    var n := |parts| - 1;
    var p, before := parts[n], Flat(parts[..n]);
    if k < |before| {
      AppendedIsDecoded(m, insts0, allowance, parts[..n], k);
      assert Flat(parts)[k] == before[k];
    } else {
      assert Opened(p);
      DecodedInst(m, p.segment, p.target, insts0 + before, p.insts, k - |before|);
      var i := p.insts[k - |before|];
      assert m.decode(i.addr, FileStart(p.segment, i.addr), FileEnd(m, p.segment, p.target)) == Some(i.body);
    }
  }

  // ----- what becomes of a jump target -----

  /** `t` needs no following: it is covered or a function start. */
  ghost predicate Known(m: Image, insts: seq<Inst>, t: nat) {
    IsCovered(CoverOf(insts), t) || t in m.starts
  }

  /** `t` has been dealt with: known, reported as outside all code, or followed. */
  ghost predicate Dealt(m: Image, insts: seq<Inst>, parts: seq<Part>, notes: seq<Diagnostic>, t: nat) {
    || Known(m, insts, t)
    || (NoSegment(m.segments, t) && OutsideCode(t) in notes)
    || exists j :: 0 <= j < |parts| && parts[j].target == t
  }

  /** Every jump target is dealt with or still on the list. */
  ghost predicate Accounted(m: Image, insts: seq<Inst>, parts: seq<Part>, notes: seq<Diagnostic>, pending: seq<nat>) {
    forall t: nat :: InTargets(insts, t) ==> Dealt(m, insts, parts, notes, t) || t in pending
  }

  /** The reports of the parts are made, and every other report is about a target. */
  ghost predicate Reported(m: Image, insts: seq<Inst>, parts: seq<Part>, notes: seq<Diagnostic>) {
    && (forall j :: 0 <= j < |parts| ==>
          InSegment(parts[j].segment, parts[j].target) && forall d :: d in DiagnosticsOf(m, parts[j]) ==> d in notes)
    && (forall d :: d in notes ==> Justified(m, insts, parts, d))
  }

  ghost predicate Justified(m: Image, insts: seq<Inst>, parts: seq<Part>, d: Diagnostic) {
    || (d.OutsideCode? && InTargets(insts, d.addr) && NoSegment(m.segments, d.addr))
    || (d.TooMany? && InTargets(insts, d.addr) && |parts| == 32)
    || exists j :: 0 <= j < |parts| && InSegment(parts[j].segment, parts[j].target) && d in DiagnosticsOf(m, parts[j])
  }

  /** What holds before each target is taken from the list. */
  ghost predicate Following(m: Image, insts0: seq<Inst>, allowance0: Option<nat>, insts: seq<Inst>, parts: seq<Part>,
                            notes: seq<Diagnostic>, pending: seq<nat>)
  {
    && AreFollowed(m, insts0, allowance0, parts) && insts == insts0 + Flat(parts)
    && Reported(m, insts, parts, notes) && Accounted(m, insts, parts, notes, pending)
    && forall t :: t in pending ==> InTargets(insts, t)
  }

  /** Names the instructions a proof wants to look at. */
  ghost predicate Looked(insts: seq<Inst>) { true }

  /** `Following`, folded: it opens only for instructions named by `Looked`. */
  ghost predicate OnTheWay(m: Image, insts0: seq<Inst>, allowance0: Option<nat>, insts: seq<Inst>, parts: seq<Part>,
                           notes: seq<Diagnostic>, pending: seq<nat>)
  {
    forall r {:trigger Looked(r)} :: Looked(r) && r == insts ==>
      Following(m, insts0, allowance0, r, parts, notes, pending)
  }

  function Without(xs: seq<nat>, k: nat): (r: seq<nat>)
    requires k < |xs|
    ensures forall x :: x in xs <==> x == xs[k] || x in r
  {
    assert xs == xs[..k] + [xs[k]] + xs[k + 1..];
    xs[..k] + xs[k + 1..]
  }

  lemma DealtStays(m: Image, i: seq<Inst>, ps: seq<Part>, ns: seq<Diagnostic>, i': seq<Inst>, ps': seq<Part>,
                   ns': seq<Diagnostic>, t: nat)
    requires Dealt(m, i, ps, ns, t) && ps <= ps' && (forall d :: d in ns ==> d in ns')
    requires IsCovered(CoverOf(i), t) ==> IsCovered(CoverOf(i'), t)
    ensures Dealt(m, i', ps', ns', t)
  {
    if j :| 0 <= j < |ps| && ps[j].target == t {
      assert ps'[j].target == t;
    }
  }

  lemma JustifiedStays(m: Image, i: seq<Inst>, ps: seq<Part>, i': seq<Inst>, ps': seq<Part>, d: Diagnostic)
    requires Justified(m, i, ps, d) && ps <= ps' && (|ps| < MAX_FRAGMENTS || |ps| == |ps'|)
    requires forall t: nat :: InTargets(i, t) ==> InTargets(i', t)
    ensures Justified(m, i', ps', d)
  {
    if j :| 0 <= j < |ps| && InSegment(ps[j].segment, ps[j].target) && d in DiagnosticsOf(m, ps[j]) {
      assert ps'[j] == ps[j];
    }
  }

  // ----- the steps -----

  /** A target that is known or was followed is taken off the list. */
  lemma AfterSkip(m: Image, insts0: seq<Inst>, allowance0: Option<nat>, insts: seq<Inst>, parts: seq<Part>,
                  notes: seq<Diagnostic>, pending: seq<nat>, k: nat)
    requires OnTheWay(m, insts0, allowance0, insts, parts, notes, pending)
    requires k < |pending| && Known(m, insts, pending[k])
    ensures OnTheWay(m, insts0, allowance0, insts, parts, notes, Without(pending, k))
  {
    assert Looked(insts);
    forall t: nat | InTargets(insts, t)
      ensures Dealt(m, insts, parts, notes, t) || t in Without(pending, k)
    {
      if t == pending[k] {
        assert Dealt(m, insts, parts, notes, t);
      }
    }
  }

  /** One report more. */
  lemma NoteMade(m: Image, insts: seq<Inst>, parts: seq<Part>, notes: seq<Diagnostic>, d: Diagnostic)
    requires Reported(m, insts, parts, notes) && Justified(m, insts, parts, d)
    ensures Reported(m, insts, parts, notes + [d])
  {
  }

  lemma StillAccounted(m: Image, insts: seq<Inst>, parts: seq<Part>, notes: seq<Diagnostic>, d: Diagnostic,
                       pending: seq<nat>)
    requires Accounted(m, insts, parts, notes, pending)
    ensures Accounted(m, insts, parts, notes + [d], pending)
  {
    forall t: nat | InTargets(insts, t) ensures Dealt(m, insts, parts, notes + [d], t) || t in pending {
      if Dealt(m, insts, parts, notes, t) {
        DealtStays(m, insts, parts, notes, insts, parts, notes + [d], t);
      }
    }
  }

  lemma AfterOutside(m: Image, insts0: seq<Inst>, allowance0: Option<nat>, insts: seq<Inst>, parts: seq<Part>,
                     notes: seq<Diagnostic>, pending: seq<nat>, k: nat)
    requires OnTheWay(m, insts0, allowance0, insts, parts, notes, pending)
    requires k < |pending| && NoSegment(m.segments, pending[k])
    ensures OnTheWay(m, insts0, allowance0, insts, parts, notes + [OutsideCode(pending[k])], Without(pending, k))
  {
    assert Looked(insts);
    var d := OutsideCode(pending[k]);
    NoteMade(m, insts, parts, notes, d);
    StillAccounted(m, insts, parts, notes, d, pending);
    forall t: nat | InTargets(insts, t)
      ensures Dealt(m, insts, parts, notes + [d], t) || t in Without(pending, k)
    {
      if t == pending[k] {
        assert d in notes + [d];
        assert Dealt(m, insts, parts, notes + [d], t);
      }
    }
  }

  lemma AfterTooMany(m: Image, insts0: seq<Inst>, allowance0: Option<nat>, insts: seq<Inst>, parts: seq<Part>,
                     notes: seq<Diagnostic>, pending: seq<nat>, k: nat)
    requires OnTheWay(m, insts0, allowance0, insts, parts, notes, pending)
    requires k < |pending| && |parts| == MAX_FRAGMENTS
    ensures OnTheWay(m, insts0, allowance0, insts, parts, notes + [TooMany(pending[k])], pending)
  {
    assert Looked(insts);
    NoteMade(m, insts, parts, notes, TooMany(pending[k]));
    StillAccounted(m, insts, parts, notes, TooMany(pending[k]), pending);
  }

  /** The reports after a part. */
  lemma PartReported(m: Image, insts: seq<Inst>, parts: seq<Part>, notes: seq<Diagnostic>, p: Part, more: seq<Inst>)
    requires Reported(m, insts, parts, notes) && |parts| < MAX_FRAGMENTS && InSegment(p.segment, p.target)
    requires forall t: nat :: InTargets(insts, t) ==> InTargets(more, t)
    ensures Reported(m, more, parts + [p], notes + DiagnosticsOf(m, p))
  {
    var ps, ns := parts + [p], notes + DiagnosticsOf(m, p);
    assert ps[|parts|] == p;
    forall d | d in ns ensures Justified(m, more, ps, d) {
      if d in notes {
        JustifiedStays(m, insts, parts, more, ps, d);
      } else {
        assert d in DiagnosticsOf(m, ps[|parts|]);
      }
    }
    forall j | 0 <= j < |ps|
      ensures InSegment(ps[j].segment, ps[j].target) && forall d :: d in DiagnosticsOf(m, ps[j]) ==> d in ns
    {
      if j < |parts| {
        assert ps[j] == parts[j];
      }
    }
  }

  /** The targets after a part: those of its instructions are on the list. */
  lemma PartAccounted(m: Image, insts: seq<Inst>, parts: seq<Part>, notes: seq<Diagnostic>, pending: seq<nat>, k: nat,
                      p: Part, found: seq<nat>, ns: seq<Diagnostic>)
    requires Accounted(m, insts, parts, notes, pending) && k < |pending| && p.target == pending[k] && notes <= ns
    requires forall t :: IsCovered(CoverOf(insts), t) ==> IsCovered(CoverOf(insts + p.insts), t)
    requires forall t: nat :: InTargets(p.insts, t) ==> t in found
    ensures Accounted(m, insts + p.insts, parts + [p], ns, Without(pending, k) + found)
  {
    var more, ps := insts + p.insts, parts + [p];
    TargetsConcat(insts, p.insts);
    forall t: nat | InTargets(more, t) ensures Dealt(m, more, ps, ns, t) || t in Without(pending, k) + found {
      if t == pending[k] {
        assert ps[|parts|].target == t;
      } else if InTargets(insts, t) && Dealt(m, insts, parts, notes, t) {
        DealtStays(m, insts, parts, notes, more, ps, ns, t);
      }
    }
  }

  lemma FollowMore(m: Image, insts0: seq<Inst>, allowance0: Option<nat>, parts: seq<Part>, p: Part)
    requires AreFollowed(m, insts0, allowance0, parts)
    requires IsFollowed(m, insts0 + Flat(parts), Left(allowance0, parts), p)
    ensures AreFollowed(m, insts0, allowance0, parts + [p])
    ensures insts0 + Flat(parts + [p]) == insts0 + Flat(parts) + p.insts
    ensures Left(allowance0, parts + [p]) == Spend(Left(allowance0, parts), Attempts(p))
  {
    assert (parts + [p])[..|parts|] == parts;
  }

  /** A part covers no less than there was before. */
  lemma PartCovers(m: Image, before: seq<Inst>, allowance: Option<nat>, p: Part)
    requires IsFollowed(m, before, allowance, p)
    ensures forall t :: IsCovered(CoverOf(before), t) ==> IsCovered(CoverOf(before + p.insts), t)
  {
    var after := before + p.insts;
    NotGrown(before);
    PartGrows(m, before, before, allowance, p, after);
    assert Seen(after);
  }

  lemma AfterPart(m: Image, insts0: seq<Inst>, allowance0: Option<nat>, insts: seq<Inst>, parts: seq<Part>,
                  notes: seq<Diagnostic>, pending: seq<nat>, k: nat, p: Part, found: seq<nat>)
    requires OnTheWay(m, insts0, allowance0, insts, parts, notes, pending) && |parts| < MAX_FRAGMENTS
    requires k < |pending| && p.target == pending[k] && !Known(m, insts, pending[k])
    requires IsFirstSegment(m.segments, p.target, p.segment) && InSegment(p.segment, p.target)
    requires IsPart(m, insts, Left(allowance0, parts), p)
    requires forall t: nat :: InTargets(p.insts, t) <==> t in found
    ensures OnTheWay(m, insts0, allowance0, insts + p.insts, parts + [p], notes + DiagnosticsOf(m, p),
                     Without(pending, k) + found)
    ensures Left(allowance0, parts + [p]) == Spend(Left(allowance0, parts), Attempts(p))
  {
    assert Looked(insts);
    TargetsConcat(insts, p.insts);
    PartCovers(m, insts, Left(allowance0, parts), p);
    FollowMore(m, insts0, allowance0, parts, p);
    PartReported(m, insts, parts, notes, p, insts + p.insts);
    PartAccounted(m, insts, parts, notes, pending, k, p, found, notes + DiagnosticsOf(m, p));
  }

  lemma AtStart(m: Image, insts0: seq<Inst>, allowance0: Option<nat>, pending: seq<nat>)
    requires forall t: nat :: t in pending <==> InTargets(insts0, t)
    ensures OnTheWay(m, insts0, allowance0, insts0, [], [], pending)
  {
    assert insts0 + Flat([]) == insts0;
  }

  // ----- the worklist -----

  method FindSegment(segments: seq<Segment>, t: nat) returns (r: Option<Segment>)
    ensures r.Some? ==> IsFirstSegment(segments, t, r.value)
    ensures r.None? ==> NoSegment(segments, t)
  {
    for k := 0 to |segments|
      invariant forall j :: 0 <= j < k ==> !InSegment(segments[j], t)
    {
      var s := segments[k];
      if t >= s.va && t < s.va + s.size {
        return Some(s);
      }
    }
    return None;
  }

  /** Decode the fragment at a target in this segment. */
  method FollowTarget(m: Image, target: nat, segment: Segment, insts0: seq<Inst>, covered0: Intervals,
                      diagnostics0: seq<Diagnostic>, allowance0: Option<nat>)
    returns (insts: seq<Inst>, covered: Intervals, diagnostics: seq<Diagnostic>, allowance: Option<nat>, stopped: bool,
             ghost part: Part)
    requires InSegment(segment, target) && covered0 == CoverOf(insts0)
    ensures part.target == target && part.segment == segment && IsPart(m, insts0, allowance0, part)
    ensures insts == insts0 + part.insts && covered == CoverOf(insts)
    ensures diagnostics == diagnostics0 + DiagnosticsOf(m, part)
    ensures allowance == Spend(allowance0, Attempts(part))
    ensures stopped <==> part.end == Refused
  {
    var offset, available := segment.fileOffset + (target - segment.va), segment.va + segment.size - target;
    var extent := if target in m.extents then m.extents[target] else MAX_FRAGMENT_BYTES;
    var limit := if available <= extent then available else extent;
    insts, covered, diagnostics, allowance, stopped, part :=
      DecodeFragment(m, target, offset, limit, insts0, covered0, diagnostics0, allowance0, segment);
  }

  ghost predicate NoneRefused(parts: seq<Part>) {
    parts == [] || (NoneRefused(parts[..|parts| - 1]) && parts[|parts| - 1].end != Refused)
  }

  /** How the loop ended: the list is empty, there is a target too many, or the budget has
      refused to decode more; no part before the last was refused. */
  ghost predicate Ended(parts: seq<Part>, notes: seq<Diagnostic>, pending: seq<nat>) {
    && |parts| <= 32 && (parts == [] || NoneRefused(parts[..|parts| - 1]))
    && (pending != [] ==> Truncated(parts, notes))
  }

  ghost predicate Truncated(parts: seq<Part>, notes: seq<Diagnostic>) {
    || (|parts| == 32 && exists t :: TooMany(t) in notes)
    || (parts != [] && parts[|parts| - 1].end == Refused)
  }

  lemma EndsTruncated(parts: seq<Part>, notes: seq<Diagnostic>, pending: seq<nat>, target: nat)
    requires |parts| == MAX_FRAGMENTS && NoneRefused(parts)
    ensures Ended(parts, notes + [TooMany(target)], pending)
  {
    assert TooMany(target) in notes + [TooMany(target)];
  }

  lemma OnePartMore(parts: seq<Part>, p: Part, notes: seq<Diagnostic>, pending: seq<nat>)
    requires |parts| < MAX_FRAGMENTS && NoneRefused(parts)
    ensures p.end != Refused ==> NoneRefused(parts + [p])
    ensures p.end == Refused ==> Ended(parts + [p], notes, pending)
  {
    assert (parts + [p])[..|parts|] == parts;
  }

  /** Decode the fragment at target `k` of the list and collect the jumps in it. */
  method FollowOne(m: Image, segment: Segment, insts: seq<Inst>, covered: Intervals, allowance: Option<nat>,
                   todo: seq<nat>, k: nat, ghost insts0: seq<Inst>, ghost allowance0: Option<nat>,
                   ghost parts: seq<Part>, ghost notes: seq<Diagnostic>)
    returns (more: seq<Inst>, cover: Intervals, reports: seq<Diagnostic>, rest: Option<nat>, stopped: bool,
             found: seq<nat>, ghost p: Part)
    requires OnTheWay(m, insts0, allowance0, insts, parts, notes, todo) && |parts| < MAX_FRAGMENTS
    requires k < |todo| && !Known(m, insts, todo[k]) && NoneRefused(parts)
    requires IsFirstSegment(m.segments, todo[k], segment) && InSegment(segment, todo[k])
    requires covered == CoverOf(insts) && allowance == Left(allowance0, parts)
    ensures OnTheWay(m, insts0, allowance0, more, parts + [p], notes + reports, Without(todo, k) + found)
    ensures cover == CoverOf(more) && rest == Left(allowance0, parts + [p])
    ensures !stopped ==> NoneRefused(parts + [p])
    ensures stopped ==> Ended(parts + [p], notes + reports, Without(todo, k) + found)
  {
    more, cover, reports, rest, stopped, p := FollowTarget(m, todo[k], segment, insts, covered, [], allowance);
    assert more[|insts|..] == p.insts && reports == DiagnosticsOf(m, p);
    found := DirectJumpTargets(more[|insts|..]);
    AfterPart(m, insts0, allowance0, insts, parts, notes, todo, k, p, found);
    OnePartMore(parts, p, notes + reports, Without(todo, k) + found);
  }

  /** Work the list off, one target after the other. */
  method WorkOff(m: Image, insts0: seq<Inst>, covered0: Intervals, diagnostics0: seq<Diagnostic>,
                 allowance0: Option<nat>)
    returns (insts: seq<Inst>, diagnostics: seq<Diagnostic>, fragments: nat,
             ghost parts: seq<Part>, ghost notes: seq<Diagnostic>, ghost pending: seq<nat>)
    requires covered0 == CoverOf(insts0)
    ensures OnTheWay(m, insts0, allowance0, insts, parts, notes, pending) && Ended(parts, notes, pending)
    ensures fragments == |parts| && diagnostics == diagnostics0 + notes
  {
    insts, diagnostics, fragments, parts, notes := insts0, diagnostics0, 0, [], [];
    var covered, allowance := covered0, allowance0;
    var todo := DirectJumpTargets(insts);
    AtStart(m, insts0, allowance0, todo);
    while todo != []
      invariant OnTheWay(m, insts0, allowance0, insts, parts, notes, todo)
      invariant covered == CoverOf(insts) && allowance == Left(allowance0, parts)
      invariant fragments == |parts| <= MAX_FRAGMENTS && diagnostics == diagnostics0 + notes
      invariant NoneRefused(parts)
      decreases MAX_FRAGMENTS - fragments, |todo|
    {
      var k :| 0 <= k < |todo|;
      var target := todo[k];
      if IsCovered(covered, target) || target in m.starts {
        AfterSkip(m, insts0, allowance0, insts, parts, notes, todo, k);
        todo := todo[..k] + todo[k + 1..];
        continue;
      }
      var segment := FindSegment(m.segments, target);
      if segment.None? {
        AfterOutside(m, insts0, allowance0, insts, parts, notes, todo, k);
        diagnostics, notes := diagnostics + [OutsideCode(target)], notes + [OutsideCode(target)];
        todo := todo[..k] + todo[k + 1..];
        continue;
      }
      if fragments == MAX_FRAGMENTS {
        AfterTooMany(m, insts0, allowance0, insts, parts, notes, todo, k);
        EndsTruncated(parts, notes, todo, target);
        diagnostics, notes, pending := diagnostics + [TooMany(target)], notes + [TooMany(target)], todo;
        return;
      }
      fragments := fragments + 1;
      var reports, stopped, found;
      ghost var p;
      insts, covered, reports, allowance, stopped, found, p :=
        FollowOne(m, segment.value, insts, covered, allowance, todo, k, insts0, allowance0, parts, notes);
      todo, diagnostics := todo[..k] + todo[k + 1..] + found, diagnostics + reports;
      parts, notes := parts + [p], notes + reports;
      if stopped {
        pending := todo;
        return;
      }
    }
    pending := todo;
  }

  // ----- the end result -----

  /** The decoder delivers instructions that have a length, segments lie in the file, and
      unwind entries are not empty. */
  ghost predicate WellBehaved(m: Image) {
    && (forall addr, start, end :: m.decode(addr, start, end).Some? ==> m.decode(addr, start, end).value.len > 0)
    && (forall k :: 0 <= k < |m.segments| ==> m.segments[k].fileOffset + m.segments[k].size <= m.fileSize)
    && (forall t :: t in m.extents ==> m.extents[t] > 0)
  }

  /** Each jump target lies in a decoded instruction or starts a function. */
  ghost predicate Followed(m: Image, insts: seq<Inst>) {
    forall t: nat :: InTargets(insts, t) ==>
      t in m.starts || exists k :: 0 <= k < |insts| && insts[k].addr <= t < insts[k].addr + insts[k].body.len
  }

  lemma SomeOrNone(ds: seq<Diagnostic>)
    ensures ds == [] || exists d :: d in ds
  {
    if ds != [] {
      assert ds[0] in ds;
    }
  }

  /** A part that ends without a report has decoded its target. */
  lemma SilentPartDecodes(m: Image, before: seq<Inst>, allowance: Option<nat>, p: Part)
    requires IsFollowed(m, before, allowance, p) && WellBehaved(m) && DiagnosticsOf(m, p) == []
    ensures p.insts != [] && p.insts[0].addr == p.target
  {
    assert Opened(p);
    if p.insts == [] {
      assert false;
    }
    DecodedInst(m, p.segment, p.target, before, p.insts, 0);
  }

  lemma {:induction false} FlatPrefix(parts: seq<Part>, n: nat)
    requires n <= |parts|
    ensures Flat(parts[..n]) <= Flat(parts)
    decreases |parts|
  {
    if n == |parts| {
      assert parts[..n] == parts;
    } else {
      var init := parts[..|parts| - 1];
      FlatPrefix(init, n);
      assert init[..n] == parts[..n];
    }
  }

  /** What a part has decoded stays covered. */
  lemma PartIsCovered(m: Image, insts0: seq<Inst>, allowance: Option<nat>, parts: seq<Part>, j: nat)
    requires AreFollowed(m, insts0, allowance, parts) && j < |parts| && parts[j].insts != []
    ensures IsCovered(CoverOf(insts0 + Flat(parts)), parts[j].insts[0].addr)
  {
    var all := insts0 + Flat(parts);
    var head := Flat(parts[..j]);
    FollowedGrows(m, insts0, allowance, parts);
    assert Seen(all);
    assert parts[..j + 1][..j] == parts[..j];
    FlatPrefix(parts, j + 1);
    assert Flat(parts[..j + 1]) == head + parts[j].insts;
    assert Flat(parts)[|head|] == parts[j].insts[0];
    assert all[|insts0| + |head|] == parts[j].insts[0];
  }

  /** An empty list without a report: every jump ends in decoded code or at a function. */
  lemma EmptyListIsFollowed(m: Image, insts0: seq<Inst>, allowance0: Option<nat>, insts: seq<Inst>, parts: seq<Part>)
    requires Following(m, insts0, allowance0, insts, parts, [], []) && WellBehaved(m)
    ensures Followed(m, insts)
  {
    forall t: nat | InTargets(insts, t) && t !in m.starts
      ensures exists k :: 0 <= k < |insts| && insts[k].addr <= t < insts[k].addr + insts[k].body.len
    {
      assert Dealt(m, insts, parts, [], t);
      if !IsCovered(CoverOf(insts), t) {
        var j :| 0 <= j < |parts| && parts[j].target == t;
        FollowedPart(m, insts0, allowance0, parts, j);
        var p := parts[j];
        SomeOrNone(DiagnosticsOf(m, p));
        SilentPartDecodes(m, insts0 + Flat(parts[..j]), Left(allowance0, parts[..j]), p);
        PartIsCovered(m, insts0, allowance0, parts, j);
      }
      CoveredIsDecoded(insts, t);
    }
  }

  /** Nothing was reported: the list is empty. */
  lemma SilentRunIsDone(m: Image, insts: seq<Inst>, parts: seq<Part>, pending: seq<nat>)
    requires Reported(m, insts, parts, []) && Ended(parts, [], pending)
    ensures pending == []
  {
    if pending != [] {
      var p := parts[|parts| - 1];
      assert Limited(After(p.target, p.insts)) in DiagnosticsOf(m, p);
      assert false;
    }
  }

  /** The appended instructions are decoded ones, at addresses of their own. */
  lemma AppendedOnes(m: Image, insts0: seq<Inst>, allowance0: Option<nat>, parts: seq<Part>, insts: seq<Inst>)
    requires AreFollowed(m, insts0, allowance0, parts) && insts == insts0 + Flat(parts)
    ensures forall k :: |insts0| <= k < |insts| ==> Delivered(m, insts[k])
    ensures forall j, k :: |insts0| <= j < k < |insts| ==> insts[j].addr != insts[k].addr
    ensures forall k :: |insts0| <= k < |insts| ==> !IsCovered(CoverOf(insts0), insts[k].addr)
  {
    FollowedGrows(m, insts0, allowance0, parts);
    assert Seen(insts);
    forall k | |insts0| <= k < |insts| ensures Delivered(m, insts[k]) {
      AppendedIsDecoded(m, insts0, allowance0, parts, k - |insts0|);
    }
  }

  lemma OldOnesAreOthers(insts0: seq<Inst>, insts: seq<Inst>)
    requires insts0 <= insts && forall k :: 0 <= k < |insts0| ==> insts0[k].body.len > 0
    requires forall k :: |insts0| <= k < |insts| ==> !IsCovered(CoverOf(insts0), insts[k].addr)
    ensures forall j, k :: 0 <= j < |insts0| <= k < |insts| ==> insts[j].addr != insts[k].addr
  {
    forall j, k | 0 <= j < |insts0| <= k < |insts| ensures insts[j].addr != insts[k].addr {
      assert insts[j] == insts0[j];
      AddressIsCovered(insts0, j);
    }
  }

  lemma Conclusions(m: Image, insts0: seq<Inst>, allowance0: Option<nat>, insts: seq<Inst>, parts: seq<Part>,
                    notes: seq<Diagnostic>, pending: seq<nat>)
    requires OnTheWay(m, insts0, allowance0, insts, parts, notes, pending) && Ended(parts, notes, pending)
    ensures AreFollowed(m, insts0, allowance0, parts) && insts == insts0 + Flat(parts)
    ensures Reported(m, insts, parts, notes) && Accounted(m, insts, parts, notes, pending)
    ensures forall k :: |insts0| <= k < |insts| ==> Delivered(m, insts[k])
    ensures forall j, k :: |insts0| <= j < k < |insts| ==> insts[j].addr != insts[k].addr
    ensures (forall k :: 0 <= k < |insts0| ==> insts0[k].body.len > 0) ==>
              forall j, k :: 0 <= j < |insts0| <= k < |insts| ==> insts[j].addr != insts[k].addr
    ensures WellBehaved(m) && notes == [] ==> Followed(m, insts)
  {
    assert Looked(insts);
    AppendedOnes(m, insts0, allowance0, parts, insts);
    if forall k :: 0 <= k < |insts0| ==> insts0[k].body.len > 0 {
      OldOnesAreOthers(insts0, insts);
    }
    if WellBehaved(m) && notes == [] {
      SilentRunIsDone(m, insts, parts, pending);
      EmptyListIsFollowed(m, insts0, allowance0, insts, parts);
    }
  }

  /** The given instructions stay a prefix, at most 32 parts follow, each exactly the
      fragment at a jump target, and no address is decoded again. Every jump is dealt with
      or still on the list, which is empty unless there are too many targets or the budget
      refused; without a report every jump ends in decoded code or at a function. */
  method FollowDetachedFragments(m: Image, insts0: seq<Inst>, diagnostics0: seq<Diagnostic>, allowance0: Option<nat>)
    returns (insts: seq<Inst>, diagnostics: seq<Diagnostic>, fragments: nat,
             ghost parts: seq<Part>, ghost notes: seq<Diagnostic>, ghost pending: seq<nat>)
    ensures insts == insts0 + Flat(parts) && AreFollowed(m, insts0, allowance0, parts)
    ensures diagnostics == diagnostics0 + notes && Reported(m, insts, parts, notes)
    ensures Accounted(m, insts, parts, notes, pending) && Ended(parts, notes, pending)
    ensures fragments == |parts|
    ensures forall k :: |insts0| <= k < |insts| ==> Delivered(m, insts[k])
    ensures forall j, k :: |insts0| <= j < k < |insts| ==> insts[j].addr != insts[k].addr
    ensures (forall k :: 0 <= k < |insts0| ==> insts0[k].body.len > 0) ==>
              forall j, k :: 0 <= j < |insts0| <= k < |insts| ==> insts[j].addr != insts[k].addr
    ensures WellBehaved(m) && diagnostics == diagnostics0 ==> Followed(m, insts)
  {
    var covered0 := InitialCover(insts0);
    insts, diagnostics, fragments, parts, notes, pending := WorkOff(m, insts0, covered0, diagnostics0, allowance0);
    Conclusions(m, insts0, allowance0, insts, parts, notes, pending);
  }
}

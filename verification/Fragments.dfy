/** Following direct jumps out of a function's window into detached fragments. The
    worklist is taken in any order, so the results hold for the sorted order used. */
module Fragments {
  import opened Options
  import opened Basics
  import opened Coverage

  /** The first segment that holds `t`. */
  ghost predicate IsFirstSegment(segments: seq<Segment>, t: nat, s: Segment) {
    exists k :: 0 <= k < |segments| && segments[k] == s && InSegment(s, t) &&
        forall j :: 0 <= j < k ==> !InSegment(segments[j], t)
  }

  ghost predicate NoSegment(segments: seq<Segment>, t: nat) {
    forall k :: 0 <= k < |segments| ==> !InSegment(segments[k], t)
  }

  // ----- what a fragment is -----

  /** Why a fragment goes no further: covered code, a function start, its limit, a transfer
      of control, the budget, the end of the file, or a decoder that fails or delivers
      nothing. */
  datatype End = AtCovered | AtFunction | AtLimit | AtTransfer | Refused | NoBytes | Undecodable | NoLength

  datatype Part = Part(target: nat, segment: Segment, insts: seq<Inst>, end: End)

  /** The address after `insts`. */
  function After(target: nat, insts: seq<Inst>): (a: nat)
    ensures a >= target
  {
    if insts == [] then target else After(target, insts[..|insts| - 1]) + insts[|insts| - 1].body.len
  }

  /** How far a fragment may reach: to the end of its segment, and as far as its unwind
      entry says or 4096 bytes. */
  function Limit(m: Image, s: Segment, target: nat): nat
    requires InSegment(s, target)
  {
    Min(s.va + s.size - target, if target in m.extents then m.extents[target] else 4096)
  }

  function FileStart(s: Segment, addr: nat): nat
    requires s.va <= addr
  {
    s.fileOffset + (addr - s.va)
  }

  function FileEnd(m: Image, s: Segment, target: nat): nat
    requires InSegment(s, target)
  {
    Min(FileStart(s, target) + Limit(m, s, target), m.fileSize)
  }

  /** What the decoder says about the bytes at `addr`. */
  function DecodedAt(m: Image, s: Segment, target: nat, addr: nat): Option<Decoded>
    requires InSegment(s, target) && s.va <= addr
  {
    m.decode(addr, FileStart(s, addr), FileEnd(m, s, target))
  }

  /** After `insts`, which follow `before`, the fragment does not end for want of code to
      decode. */
  ghost predicate MayGoOn(m: Image, s: Segment, target: nat, before: seq<Inst>, insts: seq<Inst>)
    requires InSegment(s, target)
  {
    var addr := After(target, insts);
    && addr - target < Limit(m, s, target)
    && (insts != [] ==> !IsCovered(CoverOf(before + insts), addr))
    && (insts != [] && target !in m.extents ==> addr !in m.starts && !Transfers(m, insts[|insts| - 1].body))
  }

  /** `insts` are consecutive from the target on, each is what the decoder delivers at its
      address, and at none of them was the fragment over. */
  ghost predicate AreDecoded(m: Image, s: Segment, target: nat, before: seq<Inst>, insts: seq<Inst>)
    requires InSegment(s, target)
  {
    insts == [] ||
    var n := |insts| - 1;
    AreDecoded(m, s, target, before, insts[..n]) && IsNext(m, s, target, before, insts[..n], insts[n])
  }

  ghost predicate IsNext(m: Image, s: Segment, target: nat, before: seq<Inst>, insts: seq<Inst>, next: Inst)
    requires InSegment(s, target)
  {
    && MayGoOn(m, s, target, before, insts)
    && next.addr == After(target, insts) && next.body.len > 0
    && FileStart(s, next.addr) <= FileEnd(m, s, target)
    && DecodedAt(m, s, target, next.addr) == Some(next.body)
  }

  /** Why the fragment is over after `insts`, with `allowance` decodings allowed in all. */
  ghost predicate EndsAs(m: Image, s: Segment, target: nat, before: seq<Inst>, insts: seq<Inst>,
                         allowance: Option<nat>, end: End)
    requires InSegment(s, target)
  {
    var addr := After(target, insts);
    var transferred := insts != [] && target !in m.extents && Transfers(m, insts[|insts| - 1].body);
    var joined := insts != [] && IsCovered(CoverOf(before + insts), addr);
    var started := insts != [] && target !in m.extents && addr in m.starts;
    match end
    case AtTransfer => transferred
    case AtCovered => !transferred && joined
    case AtFunction => !transferred && !joined && started
    case AtLimit => !transferred && !joined && !started && addr - target >= Limit(m, s, target)
    case Refused => MayGoOn(m, s, target, before, insts) && allowance == Some(|insts|)
    case NoBytes =>
      MayGoOn(m, s, target, before, insts) && allowance != Some(|insts|) && FileStart(s, addr) > FileEnd(m, s, target)
    case Undecodable =>
      && MayGoOn(m, s, target, before, insts) && allowance != Some(|insts|)
      && FileStart(s, addr) <= FileEnd(m, s, target) && DecodedAt(m, s, target, addr) == None
    case NoLength =>
      && MayGoOn(m, s, target, before, insts) && allowance != Some(|insts|)
      && FileStart(s, addr) <= FileEnd(m, s, target)
      && DecodedAt(m, s, target, addr).Some? && DecodedAt(m, s, target, addr).value.len == 0
  }

  /** A fragment decoded after `before`, with so many decodings allowed. */
  ghost predicate IsWholePart(m: Image, before: seq<Inst>, allowance: Option<nat>, p: Part) {
    && InSegment(p.segment, p.target)
    && AreDecoded(m, p.segment, p.target, before, p.insts)
    && (allowance.Some? ==> |p.insts| <= allowance.value)
    && EndsAs(m, p.segment, p.target, before, p.insts, allowance, p.end)
  }

  /** Names a part that a proof wants to look into. */
  ghost predicate Opened(p: Part) { true }

  /** `IsWholePart`, folded: it opens only for a part named by `Opened`. */
  ghost predicate IsPart(m: Image, before: seq<Inst>, allowance: Option<nat>, p: Part) {
    forall q {:trigger Opened(q)} :: Opened(q) && q == p ==> IsWholePart(m, before, allowance, q)
  }

  /** Every attempt to decode is charged, also the last one. */
  function Attempts(p: Part): nat {
    |p.insts| + if p.end == NoBytes || p.end == Undecodable || p.end == NoLength then 1 else 0
  }

  function Spend(allowance: Option<nat>, n: nat): Option<nat> {
    if allowance.None? then None else Some(if allowance.value < n then 0 else allowance.value - n)
  }

  function DiagnosticsOf(m: Image, p: Part): seq<Diagnostic>
    requires InSegment(p.segment, p.target)
  {
    if p.end == AtLimit && p.target !in m.extents && Limit(m, p.segment, p.target) == 4096
    then [TooLong(p.target)]
    else if p.end == Refused then [Limited(After(p.target, p.insts))]
    else if p.end == Undecodable then [Failed(After(p.target, p.insts))]
    else []
  }

  // ----- decoding a fragment -----

  datatype Attempt = Got(inst: Decoded) | Failure(end: End)

  /** One call of the decoder, if the file has bytes for it. */
  method DecodeAt(m: Image, addr: nat, start: nat, end: nat) returns (r: Attempt)
    ensures r.Got? ==> start <= end && m.decode(addr, start, end) == Some(r.inst) && r.inst.len > 0
    ensures r == Failure(NoBytes) <==> start > end
    ensures r == Failure(Undecodable) <==> start <= end && m.decode(addr, start, end) == None
    ensures r == Failure(NoLength) <==>
      start <= end && m.decode(addr, start, end).Some? && m.decode(addr, start, end).value.len == 0
    ensures r.Failure? ==> r.end == NoBytes || r.end == Undecodable || r.end == NoLength
  {
    if start > end {
      return Failure(NoBytes);
    }
    var decoded := m.decode(addr, start, end);
    if decoded.None? {
      return Failure(Undecodable);
    }
    return if decoded.value.len == 0 then Failure(NoLength) else Got(decoded.value);
  }

  lemma AppendDecoded(m: Image, s: Segment, target: nat, before: seq<Inst>, insts: seq<Inst>, next: Inst)
    requires InSegment(s, target) && AreDecoded(m, s, target, before, insts)
    requires IsNext(m, s, target, before, insts, next)
    ensures AreDecoded(m, s, target, before, insts + [next])
    ensures After(target, insts + [next]) == After(target, insts) + next.body.len
    ensures CoverOf(before + (insts + [next])) == CoverOf(before + insts)[next.addr := next.addr + next.body.len]
  {
    var more := insts + [next];
    assert more[..|insts|] == insts;
    assert before + more == (before + insts) + [next];
    CoverAppend(before + insts, next);
  }

  /** The state of the decoding loop: `done` of the fragment is decoded, and control falls
      through it. */
  ghost predicate Running(m: Image, s: Segment, target: nat, before: seq<Inst>, done: seq<Inst>, delta: nat,
                          allowance0: Option<nat>, allowance: Option<nat>)
    requires InSegment(s, target)
  {
    && target + delta == After(target, done) && (delta == 0 <==> done == [])
    && AreDecoded(m, s, target, before, done)
    && (done != [] && target !in m.extents ==> !Transfers(m, done[|done| - 1].body))
    && (allowance0.Some? ==> |done| <= allowance0.value)
    && allowance == Spend(allowance0, |done|)
  }

  /** Names the decoded part of a fragment that a proof wants to look at. */
  ghost predicate Shown(done: seq<Inst>) { true }

  /** `Running`, folded: it opens only for a part named by `Shown`. */
  ghost predicate StillRunning(m: Image, s: Segment, target: nat, before: seq<Inst>, done: seq<Inst>, delta: nat,
                               allowance0: Option<nat>, allowance: Option<nat>)
    requires InSegment(s, target)
  {
    forall d {:trigger Shown(d)} :: Shown(d) && d == done ==>
      Running(m, s, target, before, d, delta, allowance0, allowance)
  }

  datatype Progress = GoOn(next: Decoded) | Over(end: End)

  lemma StartRunning(m: Image, s: Segment, target: nat, before: seq<Inst>, allowance0: Option<nat>)
    requires InSegment(s, target)
    ensures StillRunning(m, s, target, before, [], 0, allowance0, allowance0)
  {
  }

  /** One instruction more through which control falls. */
  lemma KeepRunning(m: Image, s: Segment, target: nat, before: seq<Inst>, done: seq<Inst>, delta: nat,
                    allowance0: Option<nat>, allowance: Option<nat>, next: Inst)
    requires InSegment(s, target) && StillRunning(m, s, target, before, done, delta, allowance0, allowance)
    requires IsNext(m, s, target, before, done, next) && allowance != Some(0)
    requires target in m.extents || !Transfers(m, next.body)
    ensures StillRunning(m, s, target, before, done + [next], delta + next.body.len, allowance0, Charged(allowance))
  {
    assert Shown(done);
    AppendDecoded(m, s, target, before, done, next);
  }

  function Charged(allowance: Option<nat>): Option<nat> {
    if allowance.Some? && allowance.value > 0 then Some(allowance.value - 1) else allowance
  }

  /** Ends before an attempt to decode, which is not charged. */
  predicate IsUncharged(end: End) {
    end == AtCovered || end == AtFunction || end == AtLimit || end == Refused
  }

  /** The fragment is over. */
  lemma StopRunning(m: Image, s: Segment, target: nat, before: seq<Inst>, done: seq<Inst>, delta: nat,
                    allowance0: Option<nat>, allowance: Option<nat>, end: End)
    requires InSegment(s, target) && StillRunning(m, s, target, before, done, delta, allowance0, allowance)
    requires EndsAs(m, s, target, before, done, allowance0, end) && end != AtTransfer
    ensures var p := Part(target, s, done, end);
      && IsPart(m, before, allowance0, p)
      && (if IsUncharged(end) then allowance else Charged(allowance)) == Spend(allowance0, Attempts(p))
  {
    assert Shown(done);
  }

  /** It is over with an instruction that transfers control. */
  lemma TransferRunning(m: Image, s: Segment, target: nat, before: seq<Inst>, done: seq<Inst>, delta: nat,
                        allowance0: Option<nat>, allowance: Option<nat>, next: Inst)
    requires InSegment(s, target) && StillRunning(m, s, target, before, done, delta, allowance0, allowance)
    requires IsNext(m, s, target, before, done, next) && allowance != Some(0)
    requires target !in m.extents && Transfers(m, next.body)
    ensures var p := Part(target, s, done + [next], AtTransfer);
      && IsPart(m, before, allowance0, p) && Charged(allowance) == Spend(allowance0, Attempts(p))
  {
    assert Shown(done);
    AppendDecoded(m, s, target, before, done, next);
  }

  lemma NextCover(before: seq<Inst>, done: seq<Inst>, next: Inst)
    ensures before + done + [next] == before + (done + [next])
    ensures CoverOf(before + done + [next]) == CoverOf(before + done)[next.addr := next.addr + next.body.len]
  {
    CoverAppend(before + done, next);
  }

  /** The checks before an instruction is decoded. */
  method CheckEnd(m: Image, target: nat, limit: nat, delta: nat, covered: Intervals, allowance: Option<nat>,
                  ghost s: Segment, ghost before: seq<Inst>, ghost done: seq<Inst>, ghost allowance0: Option<nat>)
    returns (end: Option<End>, note: seq<Diagnostic>)
    requires InSegment(s, target) && limit == Limit(m, s, target)
    requires StillRunning(m, s, target, before, done, delta, allowance0, allowance) && covered == CoverOf(before + done)
    ensures target + delta == After(target, done)
    ensures allowance0 == Some(|done|) <==> allowance == Some(0)
    ensures end.None? ==> note == [] && allowance != Some(0) && MayGoOn(m, s, target, before, done)
    ensures end.Some? ==> EndsAs(m, s, target, before, done, allowance0, end.value) && IsUncharged(end.value)
    ensures end.Some? ==> note == DiagnosticsOf(m, Part(target, s, done, end.value))
  {
    assert Shown(done);
    var addr := target + delta;
    if delta > 0 && IsCovered(covered, addr) {
      return Some(AtCovered), [];
    }
    if delta > 0 && target !in m.extents && addr in m.starts {
      return Some(AtFunction), [];
    }
    if delta >= limit {
      return Some(AtLimit), if target !in m.extents && limit == MAX_FRAGMENT_BYTES then [TooLong(target)] else [];
    }
    if allowance == Some(0) {
      return Some(Refused), [Limited(addr)];
    }
    return None, [];
  }

  /** The next instruction of the fragment, or why there is none, and what is reported. */
  method Advance(m: Image, target: nat, offset: nat, limit: nat, delta: nat, covered: Intervals, allowance: Option<nat>,
                 ghost s: Segment, ghost before: seq<Inst>, ghost done: seq<Inst>, ghost allowance0: Option<nat>)
    returns (r: Progress, note: seq<Diagnostic>)
    requires InSegment(s, target) && offset == FileStart(s, target) && limit == Limit(m, s, target)
    requires StillRunning(m, s, target, before, done, delta, allowance0, allowance) && covered == CoverOf(before + done)
    ensures r.GoOn? ==> IsNext(m, s, target, before, done, Inst(target + delta, r.next)) && allowance != Some(0)
    ensures r.GoOn? ==> note == [] && r.next.len > 0 && delta < limit
    ensures r.Over? ==> EndsAs(m, s, target, before, done, allowance0, r.end)
    ensures r.Over? ==> r.end != AtTransfer && note == DiagnosticsOf(m, Part(target, s, done, r.end))
  {
    var end;
    end, note := CheckEnd(m, target, limit, delta, covered, allowance, s, before, done, allowance0);
    if end.Some? {
      return Over(end.value), note;
    }
    var attempt := DecodeAt(m, target + delta, offset + delta, Min(offset + limit, m.fileSize));
    if attempt.Got? {
      return GoOn(attempt.inst), [];
    }
    return Over(attempt.end), if attempt.end == Undecodable then [Failed(target + delta)] else [];
  }

  /** Decode linearly from `target`, at file offset `offset`, for at most `limit` bytes:
      exactly the fragment, its cover, its diagnostics and its charge. */
  method DecodeFragment(
    m: Image, target: nat, offset: nat, limit: nat, insts0: seq<Inst>, covered0: Intervals,
    diagnostics0: seq<Diagnostic>, allowance0: Option<nat>, ghost s: Segment)
    returns (insts: seq<Inst>, covered: Intervals, diagnostics: seq<Diagnostic>, allowance: Option<nat>, stopped: bool,
             ghost part: Part)
    requires InSegment(s, target) && offset == FileStart(s, target) && limit == Limit(m, s, target)
    requires covered0 == CoverOf(insts0)
    ensures part.target == target && part.segment == s && IsPart(m, insts0, allowance0, part)
    ensures insts == insts0 + part.insts && covered == CoverOf(insts)
    ensures diagnostics == diagnostics0 + DiagnosticsOf(m, part)
    ensures allowance == Spend(allowance0, Attempts(part))
    ensures stopped <==> part.end == Refused
  {
    insts, covered, diagnostics, allowance, stopped := insts0, covered0, diagnostics0, allowance0, false;
    ghost var done: seq<Inst> := [];
    assert insts0 + done == insts0;
    StartRunning(m, s, target, insts0, allowance0);
    var delta := 0;
    while true
      invariant insts == insts0 + done && covered == CoverOf(insts)
      invariant StillRunning(m, s, target, insts0, done, delta, allowance0, allowance)
      invariant diagnostics == diagnostics0 && !stopped
      decreases limit - delta
    {
      var step, note := Advance(m, target, offset, limit, delta, covered, allowance, s, insts0, done, allowance0);
      if step.Over? {
        StopRunning(m, s, target, insts0, done, delta, allowance0, allowance, step.end);
        part := Part(target, s, done, step.end);
        diagnostics, stopped := diagnostics + note, step.end == Refused;
        allowance := if IsUncharged(step.end) then allowance else Charged(allowance);
        return;
      }
      var next := Inst(target + delta, step.next);
      NextCover(insts0, done, next);
      var ends := ControlLeaves(m, step.next);
      covered := covered[next.addr := next.addr + next.body.len];
      insts := insts + [next];
      if ends && target !in m.extents {
        TransferRunning(m, s, target, insts0, done, delta, allowance0, allowance, next);
        part := Part(target, s, done + [next], AtTransfer);
        allowance := Charged(allowance);
        return;
      }
      KeepRunning(m, s, target, insts0, done, delta, allowance0, allowance, next);
      done, delta, allowance := done + [next], delta + next.body.len, Charged(allowance);
    }
  }
}

/** Cooperative execution accounting of one analysis thread: nested scopes with limits
    and a deadline, charged by decoding, polling and work, under any monotone clock. */
module Budget {
  import opened Options
  import opened Basics

  const U64MAX: nat := 0xFFFF_FFFF_FFFF_FFFF
  const NANOS_PER_MS: nat := 1_000_000

  datatype Limits = Limits(decode: Option<nat>, ssaWork: Option<nat>, deadlineMs: Option<nat>)

  datatype Reason = Deadline | DecodeLimit | SsaWorkLimit

  datatype Stop = Stop(stage: string, reason: Reason, consumed: nat, limit: nat)

  datatype Metrics = Metrics(limits: Limits, decode: nat, ssaWork: nat, stop: Option<Stop>)

  /** A scope; `started` is a clock reading in nanoseconds. */
  datatype Scope = Scope(started: nat, metrics: Metrics)

  function SaturatingSub(a: nat, b: nat): nat {
    if a < b then 0 else a - b
  }

  function Elapsed(s: Scope, now: nat): nat {
    SaturatingSub(now, s.started)
  }

  function Counter(m: Metrics, decode: bool): nat {
    if decode then m.decode else m.ssaWork
  }

  function LimitOf(m: Metrics, decode: bool): Option<nat> {
    if decode then m.limits.decode else m.limits.ssaWork
  }

  function SetCounter(m: Metrics, decode: bool, x: nat): Metrics {
    if decode then m.(decode := x) else m.(ssaWork := x)
  }

  /** Why a charge is refused, if it is. */
  function Refusal(s: Scope, stage: string, decode: bool, amount: nat, now: nat): Option<Stop> {
    var limits := s.metrics.limits;
    if limits.deadlineMs.Some? && Elapsed(s, now) >= limits.deadlineMs.value * NANOS_PER_MS then
      Some(Stop(stage, Deadline, Min(Elapsed(s, now) / NANOS_PER_MS, U64MAX), limits.deadlineMs.value))
    else
      var consumed, limit := Counter(s.metrics, decode), LimitOf(s.metrics, decode);
      if limit.Some? && amount > SaturatingSub(limit.value, consumed) then
        Some(Stop(stage, if decode then DecodeLimit else SsaWorkLimit, consumed, limit.value))
      else None
  }

  /** The scope after a charge, and the error it returns. */
  function Charge(s: Scope, stage: string, decode: bool, amount: nat, now: nat): (Scope, Option<Stop>) {
    if s.metrics.stop.Some? then (s, s.metrics.stop)
    else
      var refusal := Refusal(s, stage, decode, amount, now);
      if refusal.Some? then (s.(metrics := s.metrics.(stop := refusal)), refusal)
      else (s.(metrics := SetCounter(s.metrics, decode, Min(Counter(s.metrics, decode) + amount, U64MAX))), None)
  }

  // ----- one scope -----

  predicate WithinLimits(s: Scope) {
    && (s.metrics.limits.decode.Some? ==> s.metrics.decode <= s.metrics.limits.decode.value)
    && (s.metrics.limits.ssaWork.Some? ==> s.metrics.ssaWork <= s.metrics.limits.ssaWork.value)
  }

  datatype Request = Request(stage: string, decode: bool, amount: nat, now: nat)

  function ChargeAll(s: Scope, rs: seq<Request>): Scope
    decreases |rs|
  {
    if rs == [] then s
    else
      var r := rs[|rs| - 1];
      Charge(ChargeAll(s, rs[..|rs| - 1]), r.stage, r.decode, r.amount, r.now).0
  }

  function ResultOf(s: Scope, rs: seq<Request>, k: nat): Option<Stop>
    requires k < |rs|
  {
    Charge(ChargeAll(s, rs[..k]), rs[k].stage, rs[k].decode, rs[k].amount, rs[k].now).1
  }

  /** The units of one kind that were accepted. */
  function Accepted(s: Scope, rs: seq<Request>, decode: bool): nat
    decreases |rs|
  {
    if rs == [] then 0
    else
      var n := |rs| - 1;
      Accepted(s, rs[..n], decode) +
      if rs[n].decode == decode && ResultOf(s, rs, n).None? then rs[n].amount else 0
  }

  lemma {:induction false} ChargeAllKeepsLimits(s: Scope, rs: seq<Request>)
    ensures ChargeAll(s, rs).metrics.limits == s.metrics.limits && ChargeAll(s, rs).started == s.started
    ensures WithinLimits(s) ==> WithinLimits(ChargeAll(s, rs))
    decreases |rs|
  {
    if rs != [] {
      ChargeAllKeepsLimits(s, rs[..|rs| - 1]);
    }
  }

  /** A counter under a limit is what it was plus exactly the accepted units; without a
      limit it is that sum, saturated. */
  lemma {:induction false} ChargesAddUp(s: Scope, rs: seq<Request>, decode: bool)
    requires WithinLimits(s) && Counter(s.metrics, decode) <= U64MAX
    requires LimitOf(s.metrics, decode).Some? ==> LimitOf(s.metrics, decode).value <= U64MAX
    ensures Counter(ChargeAll(s, rs).metrics, decode) ==
        Min(Counter(s.metrics, decode) + Accepted(s, rs, decode), U64MAX)
    ensures LimitOf(s.metrics, decode).Some? ==>
      Counter(s.metrics, decode) + Accepted(s, rs, decode) <= LimitOf(s.metrics, decode).value
    decreases |rs|
  {
    if rs != [] {
      var n := |rs| - 1;
      var init := rs[..n];
      ChargesAddUp(s, init, decode);
      ChargeAllKeepsLimits(s, init);
      assert ResultOf(s, rs, n) == Charge(ChargeAll(s, init), rs[n].stage, rs[n].decode, rs[n].amount, rs[n].now).1;
      ChargeAddsUp(ChargeAll(s, init), rs[n], decode);
    }
  }

  lemma ChargeAddsUp(s: Scope, r: Request, decode: bool)
    requires WithinLimits(s) && Counter(s.metrics, decode) <= U64MAX
    ensures var (t, e) := Charge(s, r.stage, r.decode, r.amount, r.now);
      var units := if r.decode == decode && e.None? then r.amount else 0;
      && Counter(t.metrics, decode) == Min(Counter(s.metrics, decode) + units, U64MAX)
      && (LimitOf(s.metrics, decode).Some? && units > 0 ==>
          Counter(s.metrics, decode) + units <= LimitOf(s.metrics, decode).value)
  {
  }

  // ----- nested scopes -----

  /** What dropping a guard puts back. */
  datatype Guard = ScopeGuard(saved: Option<Scope>) | TraversalGuard(was: bool)

  /** One thread: the innermost scope, the traversal flag, and the live guards. */
  datatype Thread = Thread(scope: Option<Scope>, traversal: bool, guards: seq<Guard>)

  datatype Event =
    | OpenScope(limits: Limits, now: nat)
    | OpenTraversal
    | DropGuard
    | DecodeStep(now: nat)
    | Poll(stage: string, now: nat)
    | Work(stage: string, units: nat, now: nat)

  /** The request an event makes of the innermost scope. */
  function RequestOf(t: Thread, e: Event): Option<Request> {
    match e
    case DecodeStep(now) => Some(Request("decode", true, 1, now))
    case Poll(stage, now) => Some(Request(stage, false, 0, now))
    case Work(stage, units, now) => Some(Request(stage, false, if t.traversal then 0 else units, now))
    case _ => None
  }

  function Step(t: Thread, e: Event): Thread {
    match e
    case OpenScope(limits, now) =>
      Thread(Some(Scope(now, Metrics(limits, 0, 0, None))), t.traversal, t.guards + [ScopeGuard(t.scope)])
    case OpenTraversal => Thread(t.scope, true, t.guards + [TraversalGuard(t.traversal)])
    case DropGuard =>
      if t.guards == [] then t
      else
        var n := |t.guards| - 1;
        var g := t.guards[n];
        if g.ScopeGuard? then Thread(g.saved, t.traversal, t.guards[..n]) else Thread(t.scope, g.was, t.guards[..n])
    case _ =>
      var r := RequestOf(t, e).value;
      if t.scope.None? then t
      else t.(scope := Some(Charge(t.scope.value, r.stage, r.decode, r.amount, r.now).0))
  }

  function Run(t: Thread, es: seq<Event>): Thread
    decreases |es|
  {
    if es == [] then t else Step(Run(t, es[..|es| - 1]), es[|es| - 1])
  }

  function Result(t: Thread, e: Event): Option<Stop> {
    var r := RequestOf(t, e);
    if r.None? || t.scope.None? then None
    else Charge(t.scope.value, r.value.stage, r.value.decode, r.value.amount, r.value.now).1
  }

  // ----- when a charge is accepted -----

  /** Nanoseconds since the scope was opened; a clock that runs backwards counts as none. */
  function Since(s: Scope, now: nat): nat {
    if now < s.started then 0 else now - s.started
  }

  predicate HasPassed(s: Scope, now: nat) {
    s.metrics.limits.deadlineMs.Some? && Since(s, now) >= s.metrics.limits.deadlineMs.value * 1_000_000
  }

  /** Consumed is the time in whole milliseconds, as 64 bits hold it. */
  ghost predicate IsDeadlineStop(s: Scope, stage: string, now: nat, stop: Stop) {
    && s.metrics.limits.deadlineMs == Some(stop.limit) && stop.stage == stage && stop.reason == Deadline
    && stop.consumed == if Since(s, now) / 1_000_000 < 0x1_0000_0000_0000_0000 then Since(s, now) / 1_000_000
                        else 0xFFFF_FFFF_FFFF_FFFF
  }

  function Saturated(x: nat): nat {
    if x < 0x1_0000_0000_0000_0000 then x else 0xFFFF_FFFF_FFFF_FFFF
  }

  /** A decode step is accepted exactly before the deadline and below the limit. A refusal
      is for the deadline exactly if that has passed, and is recorded. */
  lemma DecodeStepIff(t: Thread, now: nat)
    requires t.scope.Some? && t.scope.value.metrics.stop.None?
    ensures var s, stop := t.scope.value, Result(t, DecodeStep(now));
      var m := s.metrics;
      && (stop == None <==> !HasPassed(s, now) && (m.limits.decode.Some? ==> m.decode + 1 <= m.limits.decode.value))
      && (HasPassed(s, now) ==> IsDeadlineStop(s, "decode", now, stop.value))
      && (stop.Some? && !HasPassed(s, now) ==>
          stop == Some(Stop("decode", DecodeLimit, m.decode, m.limits.decode.value)))
      && Step(t, DecodeStep(now)) == Thread(
           Some(Scope(s.started, if stop.Some? then Metrics(m.limits, m.decode, m.ssaWork, stop)
                                 else Metrics(m.limits, Saturated(m.decode + 1), m.ssaWork, None))),
           t.traversal, t.guards)
  {
  }

  /** Work is accepted exactly before the deadline and within the limit, except that none
      of it counts inside a traversal, and no units are within any limit. */
  lemma WorkIff(t: Thread, stage: string, units: nat, now: nat)
    requires t.scope.Some? && t.scope.value.metrics.stop.None?
    ensures var s, stop := t.scope.value, Result(t, Work(stage, units, now));
      var m, counted := s.metrics, if t.traversal then 0 else units;
      && (stop == None <==>
            !HasPassed(s, now) &&
            (m.limits.ssaWork.Some? ==> counted == 0 || m.ssaWork + counted <= m.limits.ssaWork.value))
      && (HasPassed(s, now) ==> IsDeadlineStop(s, stage, now, stop.value))
      && (stop.Some? && !HasPassed(s, now) ==>
          stop == Some(Stop(stage, SsaWorkLimit, m.ssaWork, m.limits.ssaWork.value)))
      && Step(t, Work(stage, units, now)) == Thread(
           Some(Scope(s.started, if stop.Some? then Metrics(m.limits, m.decode, m.ssaWork, stop)
                                 else Metrics(m.limits, m.decode, Saturated(m.ssaWork + counted), None))),
           t.traversal, t.guards)
  {
  }

  /** A poll is refused exactly when the deadline has passed. */
  lemma PollIff(t: Thread, stage: string, now: nat)
    requires t.scope.Some? && t.scope.value.metrics.stop.None?
    ensures var stop := Result(t, Poll(stage, now));
      && (stop == None <==> !HasPassed(t.scope.value, now))
      && (stop.Some? ==> IsDeadlineStop(t.scope.value, stage, now, stop.value))
    ensures Step(t, Poll(stage, now)) == Step(t, Work(stage, 0, now))
  {
  }

  /** Without a scope everything is accepted and nothing is charged. */
  lemma NoScopeNoCharge(t: Thread, e: Event)
    requires t.scope.None? && (e.DecodeStep? || e.Poll? || e.Work?)
    ensures Result(t, e) == None && Step(t, e) == t
  {
  }

  ghost predicate AllWithinLimits(t: Thread) {
    && (t.scope.Some? ==> WithinLimits(t.scope.value))
    && forall k :: 0 <= k < |t.guards| && t.guards[k].ScopeGuard? && t.guards[k].saved.Some? ==>
         WithinLimits(t.guards[k].saved.value)
  }

  lemma StepKeepsLimits(t: Thread, e: Event)
    requires AllWithinLimits(t)
    ensures AllWithinLimits(Step(t, e))
  {
    var t' := Step(t, e);
    forall k | 0 <= k < |t'.guards| && t'.guards[k].ScopeGuard? && t'.guards[k].saved.Some?
      ensures WithinLimits(t'.guards[k].saved.value)
    {
      if k < |t.guards| {
        assert t'.guards[k] == t.guards[k];
      }
    }
  }

  /** In every run, no counter of any live scope exceeds its limit. */
  lemma {:induction false} RunKeepsLimits(t: Thread, es: seq<Event>)
    requires AllWithinLimits(t)
    ensures AllWithinLimits(Run(t, es))
    decreases |es|
  {
    if es != [] {
      RunKeepsLimits(t, es[..|es| - 1]);
      StepKeepsLimits(Run(t, es[..|es| - 1]), es[|es| - 1]);
    }
  }

  // Dropping guards undoes everything done above them, whatever happened in between and
  // also when an unwinding skips the rest of the work.

  /** The thread after dropping guards down to `n`. */
  function Unwound(t: Thread, n: nat): Thread
    decreases |t.guards|
  {
    if |t.guards| <= n then t else Unwound(Step(t, DropGuard), n)
  }

  /** Some scope has been opened above the first `n` guards and is still open. */
  predicate ScopeAbove(t: Thread, n: nat) {
    n < |t.guards| && t.guards[n].ScopeGuard?
  }

  lemma {:induction false} UnwoundIgnoresScope(t: Thread, n: nat, s: Option<Scope>)
    requires ScopeAbove(t, n)
    ensures Unwound(t.(scope := s), n) == Unwound(t, n)
    decreases |t.guards|
  {
    var a, b := Step(t, DropGuard), Step(t.(scope := s), DropGuard);
    if t.guards[|t.guards| - 1].ScopeGuard? {
      assert a == b;
    } else {
      assert b == a.(scope := s);
      UnwoundIgnoresScope(a, n, s);
    }
  }

  lemma PushThenDrop(t: Thread, e: Event)
    requires e.OpenScope? || e.OpenTraversal?
    ensures Step(Step(t, e), DropGuard) == t
  {
    assert Step(t, e).guards[..|t.guards|] == t.guards;
  }

  /** While a scope at `n` stays open, no event changes what unwinding to `n` gives. */
  lemma StepKeepsUnwound(t: Thread, e: Event, n: nat)
    requires ScopeAbove(t, n)
    ensures Unwound(Step(t, e), n) == Unwound(t, n)
    ensures e != DropGuard || |t.guards| > n + 1 ==> ScopeAbove(Step(t, e), n)
  {
    if e.OpenScope? || e.OpenTraversal? {
      PushThenDrop(t, e);
    } else if e != DropGuard {
      UnwoundIgnoresScope(t, n, Step(t, e).scope);
    }
  }

  /** The guards never drop to `n` before the end of the run. */
  ghost predicate StaysAbove(t: Thread, es: seq<Event>, n: nat) {
    forall k :: 0 <= k < |es| ==> n < |Run(t, es[..k]).guards|
  }

  lemma {:induction false} RunKeepsUnwound(t: Thread, es: seq<Event>, n: nat)
    requires ScopeAbove(t, n) && StaysAbove(t, es, n)
    ensures Unwound(Run(t, es), n) == Unwound(t, n)
    ensures |Run(t, es).guards| > n ==> ScopeAbove(Run(t, es), n)
    decreases |es|
  {
    if es != [] {
      var m := |es| - 1;
      var init := es[..m];
      forall k | 0 <= k < |init| ensures n < |Run(t, init[..k]).guards| {
        assert init[..k] == es[..k];
      }
      RunKeepsUnwound(t, init, n);
      assert es[..m] == init;
      StepKeepsUnwound(Run(t, init), es[m], n);
    }
  }

  /** Closing a scope restores the enclosing metrics and traversal flag exactly, after
      any run of events in between. */
  lemma ScopeRestores(t: Thread, limits: Limits, now: nat, es: seq<Event>)
    requires var t' := Step(t, OpenScope(limits, now));
      StaysAbove(t', es, |t.guards|) && |Run(t', es).guards| == |t.guards|
    ensures Run(Step(t, OpenScope(limits, now)), es) == t
  {
    var t', n := Step(t, OpenScope(limits, now)), |t.guards|;
    RunKeepsUnwound(t', es, n);
    PushThenDrop(t, OpenScope(limits, now));
    assert Unwound(t', n) == Unwound(t, n) == t;
  }

  // ----- the charges of one scope in a run -----

  /** No scope has been opened above the first `n` guards. */
  predicate Innermost(t: Thread, n: nat) {
    forall k :: n <= k < |t.guards| ==> !t.guards[k].ScopeGuard?
  }

  /** The scope that was innermost when there were `n` guards: still the innermost one, or
      saved by the next scope opened above. */
  function ScopeAt(t: Thread, n: nat): Option<Scope>
    decreases |t.guards| - n
  {
    if |t.guards| <= n then t.scope
    else if t.guards[n].ScopeGuard? then t.guards[n].saved
    else ScopeAt(t, n + 1)
  }

  /** The first `n` guards stay. */
  ghost predicate Keeps(t: Thread, es: seq<Event>, n: nat) {
    forall k :: 0 <= k <= |es| ==> n <= |Run(t, es[..k]).guards|
  }

  /** The request of an event, if it goes to the scope at `n`. */
  function OwnOf(before: Thread, e: Event, n: nat): seq<Request> {
    if Innermost(before, n) && RequestOf(before, e).Some? then [RequestOf(before, e).value] else []
  }

  /** The requests of a run that go to the scope at `n`. */
  function Own(t: Thread, es: seq<Event>, n: nat): seq<Request>
    decreases |es|
  {
    if es == [] then []
    else
      var m := |es| - 1;
      Own(t, es[..m], n) + OwnOf(Run(t, es[..m]), es[m], n)
  }

  lemma {:induction false} InnermostScope(t: Thread, n: nat)
    requires Innermost(t, n)
    ensures ScopeAt(t, n) == t.scope
    decreases |t.guards| - n
  {
    if n < |t.guards| {
      InnermostScope(t, n + 1);
    }
  }

  /** One guard more: the scope is found below it, or saved by it, or still innermost. */
  lemma {:induction false} ScopeBelow(t: Thread, u: Thread, n: nat)
    requires n <= |t.guards| && |u.guards| == |t.guards| + 1 && u.guards[..|t.guards|] == t.guards
    ensures var g := u.guards[|t.guards|];
      && ScopeAt(u, n) == (if !Innermost(t, n) then ScopeAt(t, n) else if g.ScopeGuard? then g.saved else u.scope)
      && (Innermost(u, n) <==> Innermost(t, n) && !g.ScopeGuard?)
    decreases |t.guards| - n
  {
    if n < |t.guards| {
      assert u.guards[n] == t.guards[n];
      ScopeBelow(t, u, n + 1);
      assert Innermost(t, n) <==> Innermost(t, n + 1) && !t.guards[n].ScopeGuard?;
      assert Innermost(u, n) <==> Innermost(u, n + 1) && !u.guards[n].ScopeGuard?;
    }
  }

  /** A charge of an inner scope does not reach the scope at `n`. */
  lemma {:induction false} ChargedAbove(t: Thread, u: Thread, n: nat)
    requires u.guards == t.guards && !Innermost(t, n)
    ensures ScopeAt(u, n) == ScopeAt(t, n)
    decreases |t.guards| - n
  {
    if !t.guards[n].ScopeGuard? {
      ChargedAbove(t, u, n + 1);
    }
  }

  /** What an event does to the scope at `n`: it charges it if it is the innermost one. */
  lemma StepAt(t: Thread, e: Event, n: nat)
    requires n <= |t.guards| && n <= |Step(t, e).guards| && ScopeAt(t, n).Some?
    ensures ScopeAt(Step(t, e), n) ==
      if Innermost(t, n) && RequestOf(t, e).Some? then
        var r := RequestOf(t, e).value;
        Some(Charge(ScopeAt(t, n).value, r.stage, r.decode, r.amount, r.now).0)
      else ScopeAt(t, n)
  {
    var u := Step(t, e);
    if Innermost(t, n) {
      InnermostScope(t, n);
    }
    if e.OpenScope? || e.OpenTraversal? {
      ScopeBelow(t, u, n);
    } else if e.DropGuard? {
      if t.guards != [] {
        ScopeBelow(u, t, n);
        if Innermost(u, n) {
          InnermostScope(u, n);
        }
      }
    } else if Innermost(t, n) {
      InnermostScope(u, n);
    } else {
      ChargedAbove(t, u, n);
    }
  }

  lemma KeepsInit(t: Thread, es: seq<Event>, n: nat, m: nat)
    requires Keeps(t, es, n) && m <= |es|
    ensures Keeps(t, es[..m], n) && n <= |Run(t, es[..m]).guards|
  {
    forall k | 0 <= k <= m ensures n <= |Run(t, es[..m][..k]).guards| {
      assert es[..m][..k] == es[..k];
    }
  }

  /** In every run that keeps the first `n` guards, whatever is opened and closed above
      them, the scope at `n` is charged exactly its own requests. */
  lemma {:induction false} RunIsCharges(t: Thread, es: seq<Event>, n: nat)
    requires Keeps(t, es, n) && ScopeAt(t, n).Some?
    ensures ScopeAt(Run(t, es), n) == Some(ChargeAll(ScopeAt(t, n).value, Own(t, es, n)))
    decreases |es|
  {
    if es != [] {
      var m := |es| - 1;
      var init := es[..m];
      KeepsInit(t, es, n, m);
      KeepsInit(t, es, n, |es|);
      assert es[..|es|] == es;
      RunIsCharges(t, init, n);
      StepAt(Run(t, init), es[m], n);
      var own := Own(t, es, n);
      if own != Own(t, init, n) {
        assert own[..|own| - 1] == Own(t, init, n);
      }
    }
  }

  /** The units of one kind that the scope at `n` accepts of an event. */
  function UnitsOf(before: Thread, e: Event, n: nat, decode: bool): nat {
    var r := RequestOf(before, e);
    if Innermost(before, n) && r.Some? && r.value.decode == decode && Result(before, e).None?
    then r.value.amount else 0
  }

  /** The units of one kind that the scope at `n` accepts in a run. */
  function Units(t: Thread, es: seq<Event>, n: nat, decode: bool): nat
    decreases |es|
  {
    if es == [] then 0
    else Units(t, es[..|es| - 1], n, decode) + UnitsOf(Run(t, es[..|es| - 1]), es[|es| - 1], n, decode)
  }

  lemma AcceptedOneMore(s: Scope, rs: seq<Request>, r: Request, decode: bool)
    ensures Accepted(s, rs + [r], decode) == Accepted(s, rs, decode) +
      if r.decode == decode && Charge(ChargeAll(s, rs), r.stage, r.decode, r.amount, r.now).1.None?
      then r.amount else 0
  {
    assert (rs + [r])[..|rs|] == rs;
  }

  lemma UnitsOfAreAccepted(s: Scope, rs: seq<Request>, before: Thread, e: Event, n: nat, decode: bool)
    requires ScopeAt(before, n) == Some(ChargeAll(s, rs))
    ensures Accepted(s, rs + OwnOf(before, e, n), decode) == Accepted(s, rs, decode) + UnitsOf(before, e, n, decode)
  {
    if Innermost(before, n) && RequestOf(before, e).Some? {
      InnermostScope(before, n);
      AcceptedOneMore(s, rs, RequestOf(before, e).value, decode);
    } else {
      assert rs + [] == rs;
    }
  }

  lemma {:induction false} UnitsAreAccepted(t: Thread, es: seq<Event>, n: nat, decode: bool)
    requires Keeps(t, es, n) && ScopeAt(t, n).Some?
    ensures Units(t, es, n, decode) == Accepted(ScopeAt(t, n).value, Own(t, es, n), decode)
    decreases |es|
  {
    if es != [] {
      var init, e := es[..|es| - 1], es[|es| - 1];
      KeepsInit(t, es, n, |es| - 1);
      UnitsAreAccepted(t, init, n, decode);
      RunIsCharges(t, init, n);
      UnitsOfAreAccepted(ScopeAt(t, n).value, Own(t, init, n), Run(t, init), e, n, decode);
    }
  }

  /** In every run a counter of a scope is what it was plus exactly the units that scope
      accepted, saturated; under a limit the sum never exceeds it. */
  lemma CountersAddUp(t: Thread, es: seq<Event>, n: nat, decode: bool)
    requires Keeps(t, es, n) && ScopeAt(t, n).Some?
    requires var m := ScopeAt(t, n).value.metrics;
      && WithinLimits(ScopeAt(t, n).value) && Counter(m, decode) <= U64MAX
      && (LimitOf(m, decode).Some? ==> LimitOf(m, decode).value <= U64MAX)
    ensures ScopeAt(Run(t, es), n).Some?
    ensures var m, m' := ScopeAt(t, n).value.metrics, ScopeAt(Run(t, es), n).value.metrics;
      var sum := Counter(m, decode) + Units(t, es, n, decode);
      && Counter(m', decode) == Min(sum, U64MAX)
      && (LimitOf(m, decode).Some? ==> Counter(m', decode) == sum <= LimitOf(m, decode).value)
  {
    RunIsCharges(t, es, n);
    UnitsAreAccepted(t, es, n, decode);
    ChargesAddUp(ScopeAt(t, n).value, Own(t, es, n), decode);
  }

  /** `n` guards have been kept, the scope there is innermost again, and it has not stopped. */
  ghost predicate StillCharges(t: Thread, es: seq<Event>, n: nat) {
    && Keeps(t, es, n) && ScopeAt(t, n).Some? && Innermost(Run(t, es), n)
    && ScopeAt(Run(t, es), n).Some? && ScopeAt(Run(t, es), n).value.metrics.stop.None?
  }

  lemma ScopeInRun(t: Thread, es: seq<Event>, n: nat)
    requires StillCharges(t, es, n)
    ensures Run(t, es).scope == ScopeAt(Run(t, es), n)
    ensures var s, s' := ScopeAt(t, n).value, ScopeAt(Run(t, es), n).value;
      s'.started == s.started && s'.metrics.limits == s.metrics.limits
  {
    InnermostScope(Run(t, es), n);
    RunIsCharges(t, es, n);
    ChargeAllKeepsLimits(ScopeAt(t, n).value, Own(t, es, n));
  }

  /** After any run in which the scope has not stopped, its next decode step is accepted
      exactly before the deadline, counted from the opening, and while what it had, the
      units it accepted in the run and one more are within the limit. */
  lemma DecodeStepInRun(t: Thread, es: seq<Event>, n: nat, now: nat)
    requires StillCharges(t, es, n) && WithinLimits(ScopeAt(t, n).value)
    requires var m := ScopeAt(t, n).value.metrics;
      m.decode <= U64MAX && m.limits.decode.Some? && m.limits.decode.value <= U64MAX
    ensures var s := ScopeAt(t, n).value;
      Result(Run(t, es), DecodeStep(now)) == None <==>
        !HasPassed(s, now) && s.metrics.decode + Units(t, es, n, true) + 1 <= s.metrics.limits.decode.value
  {
    ScopeInRun(t, es, n);
    CountersAddUp(t, es, n, true);
    DecodeStepIff(Run(t, es), now);
  }

  /** The same of work outside traversals. */
  lemma WorkInRun(t: Thread, es: seq<Event>, n: nat, stage: string, units: nat, now: nat)
    requires StillCharges(t, es, n) && WithinLimits(ScopeAt(t, n).value) && !Run(t, es).traversal
    requires var m := ScopeAt(t, n).value.metrics;
      m.ssaWork <= U64MAX && m.limits.ssaWork.Some? && m.limits.ssaWork.value <= U64MAX
    ensures var s := ScopeAt(t, n).value;
      Result(Run(t, es), Work(stage, units, now)) == None <==>
        !HasPassed(s, now) && s.metrics.ssaWork + Units(t, es, n, false) + units <= s.metrics.limits.ssaWork.value
  {
    ScopeInRun(t, es, n);
    CountersAddUp(t, es, n, false);
    WorkIff(Run(t, es), stage, units, now);
  }

  lemma StepFrozen(t: Thread, e: Event, n: nat)
    requires n <= |t.guards| && n <= |Step(t, e).guards|
    requires ScopeAt(t, n).Some? && ScopeAt(t, n).value.metrics.stop.Some?
    ensures ScopeAt(Step(t, e), n) == ScopeAt(t, n)
  {
    StepAt(t, e, n);
  }

  /** A stopped scope stays as it is. */
  lemma {:induction false} StoppedStays(t: Thread, es: seq<Event>, n: nat, j: nat, k: nat)
    requires Keeps(t, es, n) && j <= k <= |es|
    requires var s := ScopeAt(Run(t, es[..j]), n); s.Some? && s.value.metrics.stop.Some?
    ensures ScopeAt(Run(t, es[..k]), n) == ScopeAt(Run(t, es[..j]), n)
    decreases k - j
  {
    if j < k {
      StoppedStays(t, es, n, j, k - 1);
      assert es[..k][..k - 1] == es[..k - 1];
      assert Run(t, es[..k]) == Step(Run(t, es[..k - 1]), es[k - 1]);
      StepFrozen(Run(t, es[..k - 1]), es[k - 1], n);
    }
  }

  /** In every run the first stop a scope reports is what every later charge of that scope
      reports, whatever scopes come and go above it, and it freezes the scope. */
  lemma FirstStopSticks(t: Thread, es: seq<Event>, n: nat, j: nat, k: nat)
    requires Keeps(t, es, n) && ScopeAt(t, n).Some? && j <= k < |es|
    requires Innermost(Run(t, es[..j]), n) && Result(Run(t, es[..j]), es[j]).Some?
    requires Innermost(Run(t, es[..k]), n) && RequestOf(Run(t, es[..k]), es[k]).Some?
    ensures Result(Run(t, es[..k]), es[k]) == Result(Run(t, es[..j]), es[j])
    ensures ScopeAt(Run(t, es[..k + 1]), n) == ScopeAt(Run(t, es[..j + 1]), n)
  {
    StopRecorded(t, es, n, j);
    StoppedStays(t, es, n, j + 1, k + 1);
    if j < k {
      StoppedStays(t, es, n, j + 1, k);
      StoppedReports(Run(t, es[..k]), es[k], n);
    }
  }

  lemma StoppedReports(t: Thread, e: Event, n: nat)
    requires Innermost(t, n) && RequestOf(t, e).Some?
    requires ScopeAt(t, n).Some? && ScopeAt(t, n).value.metrics.stop.Some?
    ensures Result(t, e) == ScopeAt(t, n).value.metrics.stop
  {
    InnermostScope(t, n);
  }

  lemma StopRecorded(t: Thread, es: seq<Event>, n: nat, j: nat)
    requires Keeps(t, es, n) && j < |es|
    requires Innermost(Run(t, es[..j]), n) && Result(Run(t, es[..j]), es[j]).Some?
    ensures var s := ScopeAt(Run(t, es[..j + 1]), n);
      s.Some? && s.value.metrics.stop == Result(Run(t, es[..j]), es[j])
  {
    var before := Run(t, es[..j]);
    InnermostScope(before, n);
    assert es[..j + 1][..j] == es[..j];
    KeepsInit(t, es, n, j);
    KeepsInit(t, es, n, j + 1);
    StepAt(before, es[j], n);
  }

  // ----- traversals -----

  /** `fs` is `es` with some of the work inside traversals replaced by polls. */
  ghost predicate PollsInTraversals(t: Thread, es: seq<Event>, fs: seq<Event>) {
    && |es| == |fs|
    && forall k :: 0 <= k < |es| ==>
         || fs[k] == es[k]
         || (es[k].Work? && Run(t, es[..k]).traversal && fs[k] == Poll(es[k].stage, es[k].now))
  }

  /** Work inside a traversal is a poll, and is refused only for the deadline. */
  lemma TraversedWorkIsPoll(t: Thread, stage: string, units: nat, now: nat)
    requires t.traversal
    ensures RequestOf(t, Work(stage, units, now)) == RequestOf(t, Poll(stage, now))
    ensures Step(t, Work(stage, units, now)) == Step(t, Poll(stage, now))
    ensures Result(t, Work(stage, units, now)) == Result(t, Poll(stage, now))
    ensures var stop := Result(t, Work(stage, units, now));
      stop.Some? && t.scope.value.metrics.stop.None? ==> stop.value.reason == Deadline
  {
  }

  /** In any run, work inside traversals could as well be polls: the threads, and the units
      each scope accepts, are the same. */
  lemma {:induction false} TraversalIsFree(t: Thread, es: seq<Event>, fs: seq<Event>, n: nat, decode: bool)
    requires PollsInTraversals(t, es, fs)
    ensures Run(t, es) == Run(t, fs) && Units(t, es, n, decode) == Units(t, fs, n, decode)
    decreases |es|
  {
    if es != [] {
      var m := |es| - 1;
      var e, f := es[m], fs[m];
      PollsInit(t, es, fs);
      TraversalIsFree(t, es[..m], fs[..m], n, decode);
      if f != e {
        TraversedWorkIsPoll(Run(t, es[..m]), e.stage, e.units, e.now);
      }
    }
  }

  lemma PollsInit(t: Thread, es: seq<Event>, fs: seq<Event>)
    requires PollsInTraversals(t, es, fs) && es != []
    ensures PollsInTraversals(t, es[..|es| - 1], fs[..|es| - 1])
  {
    var m := |es| - 1;
    forall k | 0 <= k < m ensures Run(t, es[..m][..k]) == Run(t, es[..k]) {
      assert es[..m][..k] == es[..k];
    }
  }

  // ----- the thread-local state itself -----

  class Account {
    var scope: Option<Scope>
    var traversal: bool

    constructor ()
      ensures scope == None && !traversal
    {
      scope, traversal := None, false;
    }

    /** Open a scope; the caller keeps the guard. */
    method Open(limits: Limits, now: nat, ghost guards: seq<Guard>) returns (guard: Guard)
      modifies this`scope
      ensures Thread(scope, traversal, guards + [guard])
           == Step(Thread(old(scope), traversal, guards), OpenScope(limits, now))
    {
      guard := ScopeGuard(scope);
      scope := Some(Scope(now, Metrics(limits, 0, 0, None)));
    }

    method Traverse(ghost guards: seq<Guard>) returns (guard: Guard)
      modifies this`traversal
      ensures Thread(scope, traversal, guards + [guard]) == Step(Thread(scope, old(traversal), guards), OpenTraversal)
    {
      guard := TraversalGuard(traversal);
      traversal := true;
    }

    /** Drop the innermost guard. */
    method Drop(guard: Guard, ghost below: seq<Guard>)
      modifies this
      ensures Thread(scope, traversal, below) == Step(Thread(old(scope), old(traversal), below + [guard]), DropGuard)
    {
      if guard.ScopeGuard? {
        scope := guard.saved;
      } else {
        traversal := guard.was;
      }
    }

    /** The charge of a decode step, a poll or work: update the scope, report the stop. */
    method ChargeFor(e: Event, ghost guards: seq<Guard>) returns (stop: Option<Stop>)
      requires e.DecodeStep? || e.Poll? || e.Work?
      modifies this`scope
      ensures Thread(scope, traversal, guards) == Step(Thread(old(scope), traversal, guards), e)
      ensures stop == Result(Thread(old(scope), traversal, guards), e)
    {
      if scope.None? {
        return None;
      }
      var s := scope.value;
      if s.metrics.stop.Some? {
        return s.metrics.stop;
      }
      var stage, decode, amount, now :=
        if e.DecodeStep? then "decode" else e.stage, e.DecodeStep?,
        if e.DecodeStep? then 1 else if e.Poll? || traversal then 0 else e.units, e.now;
      var refusal := Refusal(s, stage, decode, amount, now);
      if refusal.Some? {
        scope := Some(s.(metrics := s.metrics.(stop := refusal)));
      } else {
        scope := Some(s.(metrics := SetCounter(s.metrics, decode, Min(Counter(s.metrics, decode) + amount, U64MAX))));
      }
      stop := refusal;
    }
  }
}

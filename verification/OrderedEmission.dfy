/** Running a job for every index on several workers and emitting the results in index
    order: the interleavings of claims, sends and receives, and the receiving loop. */
module OrderedEmission {
  import opened Basics

  // ----- the receiver -----

  datatype Inbox<T> = Inbox(pending: map<nat, T>, want: nat, emitted: seq<(nat, T)>)

  /** The inbox once the wanted result is emitted. */
  function EmitWanted<T>(b: Inbox<T>): Inbox<T>
    requires b.want in b.pending
  {
    Inbox(b.pending - {b.want}, b.want + 1, b.emitted + [(b.want, b.pending[b.want])])
  }

  /** Emit for as long as the next wanted result is there. */
  function Drain<T>(b: Inbox<T>): Inbox<T>
    decreases |b.pending|
  {
    if b.want !in b.pending then b
    else
      assert EmitWanted(b).pending.Keys == b.pending.Keys - {b.want};
      Drain(EmitWanted(b))
  }

  function Accept<T>(b: Inbox<T>, i: nat, value: T): Inbox<T> {
    Drain(b.(pending := b.pending[i := value]))
  }

  class Receiver<T> {
    var pending: map<nat, T>
    var want: nat
    var emitted: seq<(nat, T)>

    constructor ()
      ensures Value() == Inbox(map[], 0, [])
    {
      pending, want, emitted := map[], 0, [];
    }

    function Value(): Inbox<T>
      reads this
    {
      Inbox(pending, want, emitted)
    }

    method Receive(i: nat, value: T)
      modifies this
      ensures Value() == Accept(old(Value()), i, value)
    {
      pending := pending[i := value];
      while want in pending
        invariant Drain(Value()) == Accept(old(Value()), i, value)
        decreases |pending|
      {
        var next := pending[want];
        assert (pending - {want}).Keys == pending.Keys - {want};
        pending := pending - {want};
        emitted := emitted + [(want, next)];
        want := want + 1;
      }
    }
  }

  // ----- the whole system -----

  /** What is to be done: `count` jobs, each run on a decoder, which it may change; so many
      workers, each of which begins with a blank one. */
  datatype Plan<!D, !T> = Plan(count: nat, workers: nat, job: (nat, D) -> (T, D), blank: D)

  /** A worker owns a decoder, which each job may change. */
  datatype Worker<D> = Ready(decoder: D) | Running(index: nat, decoder: D) | Stopped

  datatype System<D, T> =
    System(next: nat, workers: seq<Worker<D>>, channel: seq<(nat, T)>, inbox: Inbox<T>)

  /** A worker takes the next index, or stops when there is none left. */
  ghost predicate Claim<D(!new), T(!new)>(p: Plan<D, T>, s: System<D, T>, t: System<D, T>, w: nat) {
    && w < |s.workers| && s.workers[w].Ready?
    && var w' := if s.next < p.count then Running(s.next, s.workers[w].decoder) else Stopped;
    t == s.(next := s.next + 1, workers := s.workers[w := w'])
  }

  /** A worker runs its job on its decoder and sends the result. */
  ghost predicate Send<D(!new), T(!new)>(p: Plan<D, T>, s: System<D, T>, t: System<D, T>, w: nat) {
    && w < |s.workers| && s.workers[w].Running?
    && var i := s.workers[w].index;
    && var (x, decoder') := p.job(i, s.workers[w].decoder);
    t == s.(workers := s.workers[w := Ready(decoder')], channel := s.channel + [(i, x)])
  }

  ghost predicate Take<D(!new), T(!new)>(s: System<D, T>, t: System<D, T>) {
    && s.channel != []
    && t == s.(channel := s.channel[1..], inbox := Accept(s.inbox, s.channel[0].0, s.channel[0].1))
  }

  ghost predicate Step<D(!new), T(!new)>(p: Plan<D, T>, s: System<D, T>, t: System<D, T>) {
    (exists w :: Claim(p, s, t, w)) || (exists w :: Send(p, s, t, w)) || Take(s, t)
  }

  /** Every worker starts with a decoder of its own. */
  ghost predicate Start<D(!new), T(!new)>(p: Plan<D, T>, s: System<D, T>) {
    && s.next == 0 && s.channel == [] && s.inbox == Inbox(map[], 0, [])
    && |s.workers| == p.workers > 0 && forall w :: 0 <= w < |s.workers| ==> s.workers[w] == Ready(p.blank)
  }

  /** All senders are gone and the channel is drained: the receiving loop ends. */
  ghost predicate Over<D(!new), T(!new)>(s: System<D, T>) {
    s.channel == [] && forall w :: 0 <= w < |s.workers| ==> s.workers[w] == Stopped
  }

  ghost predicate IsRun<D(!new), T(!new)>(p: Plan<D, T>, run: seq<System<D, T>>) {
    && run != [] && Start(p, run[0])
    && forall i, j :: 0 <= i < |run| - 1 && j == i + 1 ==> Step(p, run[i], run[j])
  }

  // ----- the sequential path -----

  /** The decoder after the jobs in `h`. */
  function DecoderAfter<D, T>(p: Plan<D, T>, h: seq<nat>): D {
    if h == [] then p.blank else p.job(h[|h| - 1], DecoderAfter(p, h[..|h| - 1])).1
  }

  /** What job `i` returns after the jobs in `h`. */
  function ResultAfter<D, T>(p: Plan<D, T>, h: seq<nat>, i: nat): T {
    p.job(i, DecoderAfter(p, h)).0
  }

  function UpTo(n: nat): (r: seq<nat>)
    ensures |r| == n && forall k :: 0 <= k < n ==> r[k] == k
  {
    seq(n, k => k)
  }

  /** Jobs 0 to `n` - 1 on one decoder: the results with their indices. */
  function Sequential<D, T>(p: Plan<D, T>, n: nat): (r: seq<(nat, T)>)
    ensures |r| == n && forall k :: 0 <= k < n ==> r[k] == (k, ResultAfter(p, UpTo(k), k))
  {
    seq(n, (k: nat) => (k, ResultAfter(p, UpTo(k), k)))
  }

  /** One worker, or at most one index: a plain loop. */
  method ForEachAlone<D, T>(p: Plan<D, T>) returns (emitted: seq<(nat, T)>)
    ensures emitted == Sequential(p, p.count)
  {
    emitted := [];
    var decoder := p.blank;
    for i := 0 to p.count
      invariant emitted == Sequential(p, i) && decoder == DecoderAfter(p, UpTo(i))
    {
      var (x, decoder') := p.job(i, decoder);
      emitted, decoder := emitted + [(i, x)], decoder';
      assert UpTo(i + 1)[..i] == UpTo(i);
    }
  }

  // ----- what a job can return -----

  /** A history of a worker that has just claimed `i`: earlier indices, in order. */
  ghost predicate Ascending(h: seq<nat>, i: nat) {
    && (forall a, b :: 0 <= a < b < |h| ==> h[a] < h[b])
    && forall a :: 0 <= a < |h| ==> h[a] < i
  }

  /** `d` is what a history below `i` leaves. */
  ghost predicate Reachable<D(!new), T(!new)>(p: Plan<D, T>, i: nat, d: D) {
    exists h :: Ascending(h, i) && DecoderAfter(p, h) == d
  }

  /** A result that job `i` can give. */
  ghost predicate Possible<D(!new), T(!new)>(p: Plan<D, T>, i: nat, x: T) {
    exists h :: Ascending(h, i) && ResultAfter(p, h, i) == x
  }

  /** No job's result depends on which earlier jobs its decoder has seen. */
  ghost predicate HistoryFree<D(!new), T(!new)>(p: Plan<D, T>) {
    forall i: nat, g, h :: i < p.count && Ascending(g, i) && Ascending(h, i) ==>
      ResultAfter(p, g, i) == ResultAfter(p, h, i)
  }

  lemma ReachableNext<D(!new), T(!new)>(p: Plan<D, T>, i: nat, n: nat, d: D)
    requires Reachable(p, i, d) && i < n
    ensures Possible(p, i, p.job(i, d).0) && Reachable(p, n, p.job(i, d).1)
  {
    var h :| Ascending(h, i) && DecoderAfter(p, h) == d;
    assert ResultAfter(p, h, i) == p.job(i, d).0;
    var g := h + [i];
    assert g[..|h|] == h;
    assert Ascending(g, n) && DecoderAfter(p, g) == p.job(i, d).1;
  }

  /** Results of jobs 0 to `n` - 1, in this order. */
  ghost predicate InOrder<D(!new), T(!new)>(p: Plan<D, T>, out: seq<(nat, T)>, n: nat) {
    |out| == n && forall k :: 0 <= k < n ==> out[k].0 == k && Possible(p, k, out[k].1)
  }

  lemma InOrderIsPrefix<D(!new), T(!new)>(p: Plan<D, T>, out: seq<(nat, T)>, n: nat)
    requires HistoryFree(p) && InOrder(p, out, n) && n <= p.count
    ensures out <= Sequential(p, p.count)
  {
    var all := Sequential(p, p.count);
    forall k | 0 <= k < n ensures out[k] == all[k] {
      assert Possible(p, k, out[k].1);
      var h :| Ascending(h, k) && ResultAfter(p, h, k) == out[k].1;
      assert Ascending(UpTo(k), k);
    }
  }

  // ----- where every claimed index is -----

  function InFlight<D, T>(s: System<D, T>): set<nat> {
    set w | 0 <= w < |s.workers| && s.workers[w].Running? :: s.workers[w].index
  }

  function InChannel<D, T>(s: System<D, T>): set<nat> {
    set k | 0 <= k < |s.channel| :: s.channel[k].0
  }

  /** Index `i` is in flight, in the channel, pending or emitted. */
  ghost predicate Placed<D(!new), T(!new)>(s: System<D, T>, i: nat) {
    i in InFlight(s) || i in InChannel(s) || i in s.inbox.pending || i < s.inbox.want
  }

  /** The claimed indices are exactly those in flight, in the channel, pending or
      emitted, and no index is in two places or twice in one. */
  ghost predicate Conserved<D(!new), T(!new)>(p: Plan<D, T>, s: System<D, T>) {
    && (forall i: nat :: i < Min(s.next, p.count) <==> Placed(s, i))
    && InFlight(s) !! InChannel(s) && InFlight(s) !! s.inbox.pending.Keys && InChannel(s) !! s.inbox.pending.Keys
    && (forall i :: i in InFlight(s) || i in InChannel(s) || i in s.inbox.pending ==> s.inbox.want <= i)
    && (forall v, w :: 0 <= v < w < |s.workers| && s.workers[v].Running? && s.workers[w].Running? ==>
          s.workers[v].index != s.workers[w].index)
    && (forall k, l :: 0 <= k < l < |s.channel| ==> s.channel[k].0 != s.channel[l].0)
  }

  /** Every value is a result of its own job. */
  ghost predicate Honest<D(!new), T(!new)>(p: Plan<D, T>, s: System<D, T>) {
    && (forall k :: 0 <= k < |s.channel| ==> Possible(p, s.channel[k].0, s.channel[k].1))
    && (forall i :: i in s.inbox.pending ==> Possible(p, i, s.inbox.pending[i]))
    && InOrder(p, s.inbox.emitted, s.inbox.want)
    && s.inbox.want !in s.inbox.pending
  }

  ghost predicate Retiring<D(!new), T(!new)>(p: Plan<D, T>, s: System<D, T>) {
    |s.workers| > 0 && forall w :: 0 <= w < |s.workers| && s.workers[w] == Stopped ==> p.count < s.next
  }

  /** Every decoder has seen only earlier indices, in order. */
  ghost predicate Trained<D(!new), T(!new)>(p: Plan<D, T>, s: System<D, T>) {
    forall w :: 0 <= w < |s.workers| ==>
      match s.workers[w]
      case Ready(d) => Reachable(p, s.next, d)
      case Running(i, d) => i < s.next && Reachable(p, i, d)
      case Stopped => true
  }

  ghost predicate Inv<D(!new), T(!new)>(p: Plan<D, T>, s: System<D, T>) {
    Conserved(p, s) && Honest(p, s) && Retiring(p, s) && Trained(p, s)
  }

  // ----- every step keeps the account -----

  lemma StartKeeps<D(!new), T(!new)>(p: Plan<D, T>, s: System<D, T>)
    requires Start(p, s)
    ensures Inv(p, s)
  {
    assert Ascending([], 0) && DecoderAfter(p, []) == p.blank;
    assert Reachable(p, 0, p.blank);
  }

  lemma ClaimInFlight<D(!new), T(!new)>(p: Plan<D, T>, s: System<D, T>, t: System<D, T>, w: nat)
    requires Claim(p, s, t, w)
    ensures InFlight(t) == if s.next < p.count then InFlight(s) + {s.next} else InFlight(s)
  {
    assert s.next < p.count ==> t.workers[w] == Running(s.next, s.workers[w].decoder);
    forall i | i in InFlight(s) ensures i in InFlight(t) {
      var v :| 0 <= v < |s.workers| && s.workers[v].Running? && s.workers[v].index == i;
      assert t.workers[v] == s.workers[v];
    }
  }

  lemma ClaimKeeps<D(!new), T(!new)>(p: Plan<D, T>, s: System<D, T>, t: System<D, T>, w: nat)
    requires Inv(p, s) && Claim(p, s, t, w)
    ensures Inv(p, t)
  {
    ClaimInFlight(p, s, t, w);
    assert !Placed(s, s.next);
    assert forall v :: 0 <= v < |s.workers| && s.workers[v].Running? ==> s.workers[v].index in InFlight(s);
    assert InChannel(t) == InChannel(s);
    forall i: nat ensures i < Min(t.next, p.count) <==> Placed(t, i) {
      assert i < Min(s.next, p.count) <==> Placed(s, i);
    }
  }

  lemma SendKeeps<D(!new), T(!new)>(p: Plan<D, T>, s: System<D, T>, t: System<D, T>, w: nat)
    requires Inv(p, s) && Send(p, s, t, w)
    ensures Inv(p, t)
  {
    var i := s.workers[w].index;
    assert InFlight(t) == InFlight(s) - {i} by {
      forall j | j in InFlight(s) && j != i ensures j in InFlight(t) {
        var v :| 0 <= v < |s.workers| && s.workers[v].Running? && s.workers[v].index == j;
        assert t.workers[v] == s.workers[v];
      }
    }
    assert i in InFlight(s);
    ReachableNext(p, i, s.next, s.workers[w].decoder);
    assert InChannel(t) == InChannel(s) + {i} by {
      assert t.channel[|s.channel|].0 == i;
      forall j | j in InChannel(s) ensures j in InChannel(t) {
        var k :| 0 <= k < |s.channel| && s.channel[k].0 == j;
        assert t.channel[k].0 == j;
      }
    }
    forall j: nat ensures j < Min(t.next, p.count) <==> Placed(t, j) {
      assert j < Min(s.next, p.count) <==> Placed(s, j);
    }
  }

  ghost predicate Queued<D(!new), T(!new)>(p: Plan<D, T>, b: Inbox<T>) {
    && (forall i :: i in b.pending ==> b.want <= i && Possible(p, i, b.pending[i]))
    && InOrder(p, b.emitted, b.want)
  }

  lemma EmitKeeps<D(!new), T(!new)>(p: Plan<D, T>, b: Inbox<T>)
    requires Queued(p, b) && b.want in b.pending
    ensures Queued(p, EmitWanted(b)) && |EmitWanted(b).pending| < |b.pending|
    ensures Drain(b) == Drain(EmitWanted(b))
    ensures forall i :: i in EmitWanted(b).pending <==> i in b.pending && i != b.want
  {
    assert Possible(p, b.want, b.pending[b.want]);
    assert (b.pending - {b.want}).Keys == b.pending.Keys - {b.want};
  }

  /** Draining moves a run of pending results, starting at the wanted one, to the output. */
  lemma {:induction false} DrainKeeps<D(!new), T(!new)>(p: Plan<D, T>, b: Inbox<T>)
    requires Queued(p, b)
    ensures var r := Drain(b);
      && Queued(p, r) && b.want <= r.want && r.want !in r.pending
      && (forall i :: i in r.pending <==> i in b.pending && r.want <= i)
      && (forall i :: b.want <= i && i !in b.pending ==> r.want <= i)
    decreases |b.pending|
  {
    if b.want in b.pending {
      EmitKeeps(p, b);
      DrainKeeps(p, EmitWanted(b));
    }
  }

  lemma TakeKeeps<D(!new), T(!new)>(p: Plan<D, T>, s: System<D, T>, t: System<D, T>)
    requires Inv(p, s) && Take(s, t)
    ensures Inv(p, t)
  {
    var i, value := s.channel[0].0, s.channel[0].1;
    assert i in InChannel(s);
    var b := s.inbox.(pending := s.inbox.pending[i := value]);
    DrainKeeps(p, b);
    assert InFlight(t) == InFlight(s);
    assert InChannel(t) == InChannel(s) - {i} by {
      forall j | j in InChannel(s) && j != i ensures j in InChannel(t) {
        var k :| 0 <= k < |s.channel| && s.channel[k].0 == j;
        assert t.channel[k - 1].0 == j;
      }
      forall j | j in InChannel(t) ensures j in InChannel(s) && j != i {
        var k :| 0 <= k < |t.channel| && t.channel[k].0 == j;
        assert s.channel[k + 1].0 == j;
      }
    }
    forall j: nat
      ensures j < Min(t.next, p.count) <==> Placed(t, j)
      ensures j in InFlight(t) || j in InChannel(t) || j in t.inbox.pending ==> t.inbox.want <= j
    {
      assert j < Min(s.next, p.count) <==> Placed(s, j);
      assert j in b.pending <==> j in s.inbox.pending || j == i;
      assert j in t.inbox.pending <==> j in b.pending && t.inbox.want <= j;
      assert b.want <= j && j !in b.pending ==> t.inbox.want <= j;
    }
  }

  lemma StepKeeps<D(!new), T(!new)>(p: Plan<D, T>, s: System<D, T>, t: System<D, T>)
    requires Inv(p, s) && Step(p, s, t)
    ensures Inv(p, t)
  {
    if w: nat :| Claim(p, s, t, w) {
      ClaimKeeps(p, s, t, w);
    } else if w: nat :| Send(p, s, t, w) {
      SendKeeps(p, s, t, w);
    } else {
      TakeKeeps(p, s, t);
    }
  }

  // ----- whole runs -----

  lemma {:induction false} RunKeeps<D(!new), T(!new)>(p: Plan<D, T>, run: seq<System<D, T>>, n: nat)
    requires IsRun(p, run) && n < |run|
    ensures Inv(p, run[n])
  {
    if n == 0 {
      StartKeeps(p, run[0]);
    } else {
      RunKeeps(p, run, n - 1);
      StepKeeps(p, run[n - 1], run[n]);
    }
  }

  /** In every state of every interleaving no claimed index is lost or duplicated, and the
      output so far holds the results of the first jobs in order; it is the beginning of
      the sequential output if no result depends on the decoder's history. */
  lemma OutputIsPrefix<D(!new), T(!new)>(p: Plan<D, T>, run: seq<System<D, T>>, n: nat)
    requires IsRun(p, run) && n < |run|
    ensures Conserved(p, run[n]) && InOrder(p, run[n].inbox.emitted, run[n].inbox.want)
    ensures run[n].inbox.want <= p.count
    ensures HistoryFree(p) ==> run[n].inbox.emitted <= Sequential(p, p.count)
  {
    RunKeeps(p, run, n);
    var s := run[n];
    ClaimedIffPlaced(p, s, p.count);
    if HistoryFree(p) {
      InOrderIsPrefix(p, s.inbox.emitted, s.inbox.want);
    }
  }

  /** When the receiving loop ends, every job's result has been emitted, in order, and
      nothing is pending. */
  lemma OverIsComplete<D(!new), T(!new)>(p: Plan<D, T>, run: seq<System<D, T>>, n: nat)
    requires IsRun(p, run) && n < |run| && Over(run[n])
    ensures InOrder(p, run[n].inbox.emitted, p.count) && run[n].inbox.pending == map[]
    ensures HistoryFree(p) ==> run[n].inbox.emitted == Sequential(p, p.count)
  {
    RunKeeps(p, run, n);
    var s := run[n];
    assert s.workers[0] == Stopped;
    assert InFlight(s) == {} && InChannel(s) == {};
    ClaimedIffPlaced(p, s, s.inbox.want);
    ClaimedIffPlaced(p, s, p.count);
    assert s.inbox.want == p.count;
    forall i | i in s.inbox.pending ensures false {
      ClaimedIffPlaced(p, s, i);
    }
    OutputIsPrefix(p, run, n);
  }

  lemma ClaimedIffPlaced<D(!new), T(!new)>(p: Plan<D, T>, s: System<D, T>, i: nat)
    requires Conserved(p, s)
    ensures i < Min(s.next, p.count) <==> Placed(s, i)
  {
  }

  // ----- and only then sequential -----

  /** The first two workers share the indices; `pick` says which ones the first gets. This
      is the decoder of the first (`mine`) or second once index `j` is reached. */
  function Decoder<D, T>(p: Plan<D, T>, pick: nat -> bool, mine: bool, j: nat): D {
    if j == 0 then p.blank
    else
      var d := Decoder(p, pick, mine, j - 1);
      if pick(j - 1) == mine then p.job(j - 1, d).1 else d
  }

  function Picked<D, T>(p: Plan<D, T>, pick: nat -> bool, n: nat): seq<(nat, T)> {
    if n == 0 then []
    else Picked(p, pick, n - 1) + [(n - 1, p.job(n - 1, Decoder(p, pick, pick(n - 1), n - 1)).0)]
  }

  lemma {:induction false} PickedAt<D, T>(p: Plan<D, T>, pick: nat -> bool, n: nat, k: nat)
    requires k < n
    ensures |Picked(p, pick, n)| == n && Picked(p, pick, n)[k].1 == p.job(k, Decoder(p, pick, pick(k), k)).0
    decreases n
  {
    if n > 1 {
      PickedAt(p, pick, n - 1, if k < n - 1 then k else 0);
    }
  }

  /** The workers beyond the first two only wait. */
  function Spare<D, T>(p: Plan<D, T>): (r: seq<Worker<D>>)
    requires p.workers >= 2
    ensures |r| == p.workers - 2 && forall w :: 0 <= w < |r| ==> r[w] == Ready(p.blank)
  {
    seq(p.workers - 2, w => Ready(p.blank))
  }

  /** Everything below `j` is emitted, and all workers are ready. */
  function Between<D, T>(p: Plan<D, T>, pick: nat -> bool, j: nat): (s: System<D, T>)
    requires p.workers >= 2
    ensures |s.workers| == p.workers
  {
    System(j, [Ready(Decoder(p, pick, true, j)), Ready(Decoder(p, pick, false, j))] + Spare(p), [],
           Inbox(map[], j, Picked(p, pick, j)))
  }

  lemma AcceptWanted<T>(want: nat, emitted: seq<(nat, T)>, x: T)
    ensures Accept(Inbox(map[], want, emitted), want, x) == Inbox(map[], want + 1, emitted + [(want, x)])
  {
    var b := Inbox(map[want := x], want, emitted);
    var r: Inbox<T> := Inbox(map[], want + 1, emitted + [(want, x)]);
    assert b.pending - {want} == r.pending;
    assert Drain(b) == Drain(r) == r;
  }

  function Turn(pick: nat -> bool, j: nat): nat {
    if pick(j) then 0 else 1
  }

  /** The worker whose turn it is runs job `j`. */
  function Claimed<D, T>(p: Plan<D, T>, pick: nat -> bool, j: nat): System<D, T>
    requires p.workers >= 2
  {
    var s := Between(p, pick, j);
    s.(next := j + 1, workers := s.workers[Turn(pick, j) := Running(j, Decoder(p, pick, pick(j), j))])
  }

  /** Its result is in the channel. */
  function Sent<D, T>(p: Plan<D, T>, pick: nat -> bool, j: nat): System<D, T>
    requires p.workers >= 2
  {
    var (x, d) := p.job(j, Decoder(p, pick, pick(j), j));
    var s := Between(p, pick, j);
    s.(next := j + 1, workers := s.workers[Turn(pick, j) := Ready(d)], channel := [(j, x)])
  }

  lemma ClaimOne<D(!new), T(!new)>(p: Plan<D, T>, pick: nat -> bool, j: nat)
    requires p.workers >= 2 && j < p.count
    ensures Step(p, Between(p, pick, j), Claimed(p, pick, j))
  {
    assert Claim(p, Between(p, pick, j), Claimed(p, pick, j), Turn(pick, j));
  }

  lemma SendOne<D(!new), T(!new)>(p: Plan<D, T>, pick: nat -> bool, j: nat)
    requires p.workers >= 2
    ensures Step(p, Claimed(p, pick, j), Sent(p, pick, j))
  {
    assert Send(p, Claimed(p, pick, j), Sent(p, pick, j), Turn(pick, j));
  }

  lemma TakeOne<D(!new), T(!new)>(p: Plan<D, T>, pick: nat -> bool, j: nat)
    requires p.workers >= 2
    ensures Step(p, Sent(p, pick, j), Between(p, pick, j + 1))
  {
    SentWorkers(p, pick, j);
    var x := p.job(j, Decoder(p, pick, pick(j), j)).0;
    var out := Picked(p, pick, j);
    assert [(j, x)][1..] == [];
    AcceptWanted(j, out, x);
    assert Take(Sent(p, pick, j), Between(p, pick, j + 1));
  }

  lemma SentWorkers<D, T>(p: Plan<D, T>, pick: nat -> bool, j: nat)
    requires p.workers >= 2
    ensures Sent(p, pick, j).workers == Between(p, pick, j + 1).workers
  {
  }

  /** Claim, send and receive index `j`. */
  lemma OneIndex<D(!new), T(!new)>(p: Plan<D, T>, pick: nat -> bool, j: nat)
    returns (a: System<D, T>, b: System<D, T>)
    requires p.workers >= 2 && j < p.count
    ensures Step(p, Between(p, pick, j), a) && Step(p, a, b) && Step(p, b, Between(p, pick, j + 1))
  {
    a, b := Claimed(p, pick, j), Sent(p, pick, j);
    ClaimOne(p, pick, j);
    SendOne(p, pick, j);
    TakeOne(p, pick, j);
  }

  lemma Extend<D(!new), T(!new)>(p: Plan<D, T>, run: seq<System<D, T>>, more: seq<System<D, T>>)
    requires IsRun(p, run) && more != [] && Step(p, run[|run| - 1], more[0])
    requires forall i, j :: 0 <= i < |more| - 1 && j == i + 1 ==> Step(p, more[i], more[j])
    ensures IsRun(p, run + more)
  {
    var all := run + more;
    forall i, j | 0 <= i < |all| - 1 && j == i + 1 ensures Step(p, all[i], all[j]) {
      if i >= |run| {
        assert Step(p, more[i - |run|], more[j - |run|]);
      }
    }
  }

  /** All indices below `j`, one after the other. */
  lemma {:induction false} RunTo<D(!new), T(!new)>(p: Plan<D, T>, pick: nat -> bool, j: nat)
    returns (run: seq<System<D, T>>)
    requires p.workers >= 2 && j <= p.count
    ensures IsRun(p, run) && run[|run| - 1] == Between(p, pick, j)
  {
    if j == 0 {
      run := [Between(p, pick, 0)];
    } else {
      var init := RunTo(p, pick, j - 1);
      run := RunOn(p, pick, j - 1, init);
    }
  }

  lemma RunOn<D(!new), T(!new)>(p: Plan<D, T>, pick: nat -> bool, j: nat, init: seq<System<D, T>>)
    returns (run: seq<System<D, T>>)
    requires p.workers >= 2 && j < p.count && IsRun(p, init) && init[|init| - 1] == Between(p, pick, j)
    ensures IsRun(p, run) && run[|run| - 1] == Between(p, pick, j + 1)
  {
    var a, b := OneIndex(p, pick, j);
    var more := [a, b, Between(p, pick, j + 1)];
    Extend(p, init, more);
    run := init + more;
  }

  /** With no index left the workers stop one after the other. */
  lemma {:induction false} StopAll<D(!new), T(!new)>(p: Plan<D, T>, init: seq<System<D, T>>, k: nat)
    returns (run: seq<System<D, T>>)
    requires IsRun(p, init)
    requires var s := init[|init| - 1];
      && p.count <= s.next && s.channel == [] && k <= |s.workers|
      && forall w :: 0 <= w < |s.workers| ==> if w < k then s.workers[w] == Stopped else s.workers[w].Ready?
    ensures IsRun(p, run) && Over(run[|run| - 1]) && run[|run| - 1].inbox == init[|init| - 1].inbox
    decreases |init[|init| - 1].workers| - k
  {
    var s := init[|init| - 1];
    if k == |s.workers| {
      run := init;
    } else {
      var t := s.(next := s.next + 1, workers := s.workers[k := Stopped]);
      assert Claim(p, s, t, k);
      assert Step(p, s, t);
      Extend(p, init, [t]);
      run := StopAll(p, init + [t], k + 1);
    }
  }

  /** The run of this schedule, to its end. */
  lemma PickedRun<D(!new), T(!new)>(p: Plan<D, T>, pick: nat -> bool) returns (run: seq<System<D, T>>)
    requires p.workers >= 2
    ensures IsRun(p, run) && Over(run[|run| - 1]) && run[|run| - 1].inbox.emitted == Picked(p, pick, p.count)
  {
    var init := RunTo(p, pick, p.count);
    run := StopAll(p, init, 0);
  }

  /** The first worker can have any history. */
  lemma {:induction false} HistoryIsPicked<D, T>(p: Plan<D, T>, h: seq<nat>, i: nat, pick: nat -> bool, j: nat, m: nat)
    requires Ascending(h, i) && (forall k :: pick(k) <==> k in h || k == i)
    requires j <= i && m <= |h| && forall a :: 0 <= a < |h| ==> (h[a] < j <==> a < m)
    ensures Decoder(p, pick, true, j) == DecoderAfter(p, h[..m])
    decreases j
  {
    if j > 0 {
      if m > 0 && h[m - 1] == j - 1 {
        assert h[m - 1] in h;
        HistoryIsPicked(p, h, i, pick, j - 1, m - 1);
        assert h[..m][..m - 1] == h[..m - 1];
      } else {
        assert j - 1 !in h;
        HistoryIsPicked(p, h, i, pick, j - 1, m);
      }
    }
  }

  /** Every finished run of the plan emits the sequential output. */
  ghost predicate AlwaysSequential<D(!new), T(!new)>(p: Plan<D, T>) {
    forall run: seq<System<D, T>>, n :: IsRun(p, run) && 0 <= n < |run| && Over(run[n]) ==>
      run[n].inbox.emitted == Sequential(p, p.count)
  }

  lemma HistoryShows<D(!new), T(!new)>(p: Plan<D, T>, i: nat, h: seq<nat>)
    requires p.workers >= 2 && AlwaysSequential(p) && i < p.count && Ascending(h, i)
    ensures ResultAfter(p, h, i) == ResultAfter(p, UpTo(i), i)
  {
    var pick := k => k in h || k == i;
    var run := PickedRun(p, pick);
    PickedAt(p, pick, p.count, i);
    assert Picked(p, pick, p.count)[i] == Sequential(p, p.count)[i];
    HistoryIsPicked(p, h, i, pick, i, |h|);
    assert h[..|h|] == h;
  }

  /** With two workers or more, the parallel path refines the sequential one in every
      interleaving if and only if no job's result depends on which earlier jobs its decoder
      has seen. */
  lemma OverIsSequentialIff<D(!new), T(!new)>(p: Plan<D, T>)
    requires p.workers >= 2
    ensures AlwaysSequential(p) <==> HistoryFree(p)
  {
    if HistoryFree(p) {
      forall run: seq<System<D, T>>, n | IsRun(p, run) && 0 <= n < |run| && Over(run[n])
        ensures run[n].inbox.emitted == Sequential(p, p.count)
      {
        OverIsComplete(p, run, n);
      }
    }
    if AlwaysSequential(p) {
      forall i: nat, g, h | i < p.count && Ascending(g, i) && Ascending(h, i)
        ensures ResultAfter(p, g, i) == ResultAfter(p, h, i)
      {
        HistoryShows(p, i, g);
        HistoryShows(p, i, h);
      }
    }
  }

  // ----- progress -----

  /** Until the loop is over some step is possible. */
  lemma NoDeadlock<D(!new), T(!new)>(p: Plan<D, T>, s: System<D, T>)
    requires !Over(s)
    ensures exists t :: Step(p, s, t)
  {
    if s.channel != [] {
      var t := s.(channel := s.channel[1..], inbox := Accept(s.inbox, s.channel[0].0, s.channel[0].1));
      assert Step(p, s, t);
    } else {
      var w :| 0 <= w < |s.workers| && s.workers[w] != Stopped;
      if s.workers[w].Ready? {
        var w' := if s.next < p.count then Running(s.next, s.workers[w].decoder) else Stopped;
        var t := s.(next := s.next + 1, workers := s.workers[w := w']);
        assert Claim(p, s, t, w);
        assert Step(p, s, t);
      } else {
        var i := s.workers[w].index;
        var (x, decoder') := p.job(i, s.workers[w].decoder);
        var t := s.(workers := s.workers[w := Ready(decoder')], channel := s.channel + [(i, x)]);
        assert Send(p, s, t, w);
        assert Step(p, s, t);
      }
    }
  }

  // Every run is short: a claim, a send and a receipt for each index, and one failed
  // claim for each worker.

  function Weight<D>(w: Worker<D>): nat {
    match w
    case Ready(_) => 1
    case Running(_, _) => 3
    case Stopped => 0
  }

  function Total<D>(ws: seq<Worker<D>>): nat {
    if ws == [] then 0 else Total(ws[..|ws| - 1]) + Weight(ws[|ws| - 1])
  }

  lemma {:induction false} TotalUpdate<D>(ws: seq<Worker<D>>, k: nat, w: Worker<D>)
    requires k < |ws|
    ensures Total(ws[k := w]) == Total(ws) - Weight(ws[k]) + Weight(w)
  {
    var n := |ws| - 1;
    if k < n {
      TotalUpdate(ws[..n], k, w);
      assert ws[k := w][..n] == ws[..n][k := w];
    } else {
      assert ws[k := w][..n] == ws[..n];
    }
  }

  /** Steps still ahead, at most. */
  function Budget<D, T>(p: Plan<D, T>, s: System<D, T>): nat {
    (if s.next < p.count then 3 * (p.count - s.next) else 0) + Total(s.workers) + |s.channel|
  }

  lemma StepSpends<D(!new), T(!new)>(p: Plan<D, T>, s: System<D, T>, t: System<D, T>)
    requires Step(p, s, t)
    ensures Budget(p, t) < Budget(p, s)
  {
    if w: nat :| Claim(p, s, t, w) {
      TotalUpdate(s.workers, w, t.workers[w]);
    } else if w: nat :| Send(p, s, t, w) {
      TotalUpdate(s.workers, w, t.workers[w]);
    }
  }

  lemma {:induction false} RunIsShort<D(!new), T(!new)>(p: Plan<D, T>, run: seq<System<D, T>>, n: nat)
    requires IsRun(p, run) && n < |run|
    ensures n + Budget(p, run[n]) <= Budget(p, run[0])
  {
    if n > 0 {
      RunIsShort(p, run, n - 1);
      StepSpends(p, run[n - 1], run[n]);
    }
  }

  lemma {:induction false} AllReady<D>(ws: seq<Worker<D>>)
    requires forall w :: 0 <= w < |ws| ==> ws[w].Ready?
    ensures Total(ws) == |ws|
  {
    if ws != [] {
      AllReady(ws[..|ws| - 1]);
    }
  }

  /** Every interleaving ends after at most three steps an index and one a worker. */
  lemma RunsEnd<D(!new), T(!new)>(p: Plan<D, T>, run: seq<System<D, T>>)
    requires IsRun(p, run)
    ensures |run| - 1 <= 3 * p.count + p.workers
  {
    RunIsShort(p, run, |run| - 1);
    AllReady(run[0].workers);
  }
}

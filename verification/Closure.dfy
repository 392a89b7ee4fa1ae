/** Which functions get a summary without a scope: the two-way closure of a seed over callers
    and callees, by repeated passes over the symbols. */
module Closure {
  import opened Basics
  import opened Reachability

  // ----- what is to be computed -----

  /** Closed under callees and callers among the symbols. */
  ghost predicate ClosedBothWays(p: Program, s: set<nat>) {
    forall a :: a in p.symbols ==> Settled(p, s, a)
  }

  /** `a` asks for no change to `s`. */
  ghost predicate Settled(p: Program, s: set<nat>, a: nat) {
    forall b :: b in p.callees(a) ==> (a in s && b in p.symbols ==> b in s) && (b in s ==> a in s)
  }

  /** Everything in `s` is forced by the seed. */
  ghost predicate Forced(p: Program, seed: set<nat>, s: set<nat>) {
    seed <= s && forall t :: seed <= t && ClosedBothWays(p, t) ==> s <= t
  }

  /** A symbol that calls, or is called from, a member of `s`. */
  ghost predicate Neighbours(p: Program, s: set<nat>, v: nat) {
    && v in p.symbols
    && ((exists a :: a in s && a in p.symbols && v in p.callees(a)) || exists b :: b in s && b in p.callees(v))
  }

  /** Names a symbol whose neighbours a proof wants to look at. */
  ghost predicate Seen(v: nat) { true }

  /** `b` says whether `v` neighbours `s`. Folded: it opens only for a symbol named by `Seen`. */
  ghost predicate IsLinked(p: Program, s: set<nat>, v: nat, b: bool) {
    forall w {:trigger Seen(w)} :: Seen(w) && w == v ==> (b <==> Neighbours(p, s, w))
  }

  ghost predicate Linked(p: Program, s: set<nat>, v: nat) {
    assert IsLinked(p, s, v, Neighbours(p, s, v));
    var b :| IsLinked(p, s, v, b);
    b
  }

  lemma LinkedIs(p: Program, s: set<nat>, v: nat)
    ensures Linked(p, s, v) <==> Neighbours(p, s, v)
  {
    assert Seen(v);
  }

  /** The symbols within `n` calls of the seed, in either direction at each of them. */
  ghost function Ball(p: Program, seed: set<nat>, n: nat): set<nat> {
    if n == 0 then seed else Grown(p, Ball(p, seed, n - 1))
  }

  ghost function Grown(p: Program, s: set<nat>): (r: set<nat>)
    ensures forall v :: v in r <==> v in s || (v in p.symbols && Linked(p, s, v))
  {
    s + set v | v in p.symbols && Linked(p, s, v)
  }

  lemma BallGrows(p: Program, seed: set<nat>, n: nat)
    ensures Ball(p, seed, n) <= Ball(p, seed, n + 1)
  {
  }

  lemma {:induction false} BallsNest(p: Program, seed: set<nat>, m: nat, n: nat)
    requires m <= n
    ensures Ball(p, seed, m) <= Ball(p, seed, n)
    decreases n
  {
    if m < n {
      BallsNest(p, seed, m, n - 1);
      BallGrows(p, seed, n - 1);
    }
  }

  // ----- one pass -----

  /** One symbol of a pass: pull its callees in if it is in, itself if a callee is. */
  function Pull(p: Program, s: set<nat>, a: nat): set<nat> {
    if a in s then s + set b | b in p.callees(a) && b in p.symbols
    else if exists b :: b in p.callees(a) && b in s then s + {a}
    else s
  }

  function Pass(p: Program, listing: seq<nat>, s: set<nat>): set<nat> {
    if listing == [] then s
    else Pull(p, Pass(p, listing[..|listing| - 1], s), listing[|listing| - 1])
  }

  function Passes(p: Program, listing: seq<nat>, s: set<nat>, n: nat): set<nat> {
    if n == 0 then s else Pass(p, listing, Passes(p, listing, s, n - 1))
  }

  /** `a` has pulled in what a pass that begins with `s` owes it. */
  ghost predicate Served(p: Program, s: set<nat>, a: nat, t: set<nat>) {
    forall b :: b in p.callees(a) ==> (a in s && b in p.symbols ==> b in t) && (b in s ==> a in t)
  }

  lemma PullServes(p: Program, s: set<nat>, a: nat)
    ensures s <= Pull(p, s, a) && Served(p, s, a, Pull(p, s, a))
    ensures Pull(p, s, a) == s ==> Settled(p, s, a)
  {
  }

  lemma PullForced(p: Program, seed: set<nat>, s: set<nat>, a: nat)
    requires Forced(p, seed, s) && a in p.symbols
    ensures Forced(p, seed, Pull(p, s, a))
  {
    forall t | seed <= t && ClosedBothWays(p, t) ensures Pull(p, s, a) <= t {
      assert Settled(p, t, a);
    }
  }

  lemma {:induction false} PassServes(p: Program, listing: seq<nat>, s: set<nat>)
    ensures s <= Pass(p, listing, s)
    ensures forall a :: a in listing ==> Served(p, s, a, Pass(p, listing, s))
    ensures Pass(p, listing, s) == s ==> forall a :: a in listing ==> Settled(p, s, a)
    decreases |listing|
  {
    if listing != [] {
      var init, last := listing[..|listing| - 1], listing[|listing| - 1];
      PassServes(p, init, s);
      PullServes(p, Pass(p, init, s), last);
      assert forall a :: a in listing <==> a in init || a == last;
    }
  }

  lemma {:induction false} PassForced(p: Program, seed: set<nat>, listing: seq<nat>, s: set<nat>)
    requires Forced(p, seed, s) && Elements(listing) <= p.symbols
    ensures Forced(p, seed, Pass(p, listing, s))
    decreases |listing|
  {
    if listing != [] {
      var init, last := listing[..|listing| - 1], listing[|listing| - 1];
      assert last in Elements(listing) && forall a :: a in Elements(init) ==> a in Elements(listing);
      PassForced(p, seed, init, s);
      PullForced(p, seed, Pass(p, init, s), last);
    }
  }

  /** A pass that changes nothing shows that the set is closed. */
  lemma IdlePassCloses(p: Program, listing: seq<nat>, s: set<nat>)
    requires p.symbols == Elements(listing) && Pass(p, listing, s) == s
    ensures ClosedBothWays(p, s)
  {
    PassServes(p, listing, s);
  }

  /** A pass goes one ball further. */
  lemma PassGrowsBall(p: Program, seed: set<nat>, listing: seq<nat>, n: nat, s: set<nat>)
    requires p.symbols == Elements(listing) && Ball(p, seed, n) <= s
    ensures Ball(p, seed, n + 1) <= Pass(p, listing, s)
  {
    var inner, t := Ball(p, seed, n), Pass(p, listing, s);
    PassServes(p, listing, s);
    forall v | v in p.symbols && Linked(p, inner, v) ensures v in t {
      LinkedIs(p, inner, v);
      if a :| a in inner && a in p.symbols && v in p.callees(a) {
        assert Served(p, s, a, t);
      } else {
        assert Served(p, s, v, t);
      }
    }
  }

  // ----- several passes -----

  /** Everything within `n` calls of the seed is in after `n` passes, and everything in is
      forced by the seed. */
  lemma {:induction false} PassesBounds(p: Program, seed: set<nat>, listing: seq<nat>, n: nat)
    requires p.symbols == Elements(listing)
    ensures Ball(p, seed, n) <= Passes(p, listing, seed, n) && Forced(p, seed, Passes(p, listing, seed, n))
  {
    if n > 0 {
      var s := Passes(p, listing, seed, n - 1);
      PassesBounds(p, seed, listing, n - 1);
      PassGrowsBall(p, seed, listing, n - 1, s);
      PassForced(p, seed, listing, s);
    }
  }

  /** Once a ball is closed it is the result, for every listing. */
  lemma ClosedBall(p: Program, seed: set<nat>, listing: seq<nat>, n: nat)
    requires p.symbols == Elements(listing) && ClosedBothWays(p, Ball(p, seed, n))
    ensures Passes(p, listing, seed, n) == Ball(p, seed, n)
  {
    PassesBounds(p, seed, listing, n);
    BallsNest(p, seed, 0, n);
  }

  lemma {:induction false} IdlePassesStay(p: Program, listing: seq<nat>, seed: set<nat>, k: nat, n: nat)
    requires k <= n && Pass(p, listing, Passes(p, listing, seed, k)) == Passes(p, listing, seed, k)
    ensures Passes(p, listing, seed, n) == Passes(p, listing, seed, k)
    decreases n
  {
    if k < n {
      IdlePassesStay(p, listing, seed, k, n - 1);
    }
  }

  // ----- the loops -----

  method PullOne(p: Program, s0: set<nat>, a: nat) returns (s: set<nat>, grew: bool)
    ensures s == Pull(p, s0, a) && (grew <==> s != s0)
  {
    s, grew := s0, false;
    var inSet := a in s;
    var cs := p.callees(a);
    for k := 0 to |cs|
      invariant inSet ==> s == s0 + set b | b in cs[..k] && b in p.symbols
      invariant !inSet ==> s == s0 && forall b :: b in cs[..k] ==> b !in s0
      invariant grew <==> s != s0
    {
      if inSet {
        if cs[k] in p.symbols && cs[k] !in s {
          s, grew := s + {cs[k]}, true;
        }
      } else if cs[k] in s {
        assert cs[k] in p.callees(a);
        return s + {a}, true;
      }
    }
    assert cs[..|cs|] == cs;
  }

  method PullAll(p: Program, symbols: seq<nat>, s0: set<nat>) returns (s: set<nat>, grew: bool)
    ensures s == Pass(p, symbols, s0) && (grew <==> s != s0)
  {
    s, grew := s0, false;
    for k := 0 to |symbols|
      invariant s == Pass(p, symbols[..k], s0) && s0 <= s && (grew <==> s != s0)
    {
      assert symbols[..k + 1][..k] == symbols[..k];
      PullServes(p, s, symbols[k]);
      var more;
      s, more := PullOne(p, s, symbols[k]);
      grew := grew || more;
    }
    assert symbols[..|symbols|] == symbols;
  }

  /** At most `limit` passes, stopping after one that changes nothing. Everything within as
      many calls of the seed is in the result, and everything in it is forced by the seed.
      If the last pass changed nothing it is closed. */
  method ClosureWithin(p: Program, symbols: seq<nat>, seed: set<nat>, limit: nat) returns (s: set<nat>, grow: bool)
    requires p.symbols == Elements(symbols)
    ensures s == Passes(p, symbols, seed, limit)
    ensures Forced(p, seed, s) && Ball(p, seed, limit) <= s
    ensures !grow ==> ClosedBothWays(p, s)
  {
    s, grow := seed, true;
    var pass := 0;
    while grow && pass < limit
      invariant pass <= limit && s == Passes(p, symbols, seed, pass)
      invariant !grow ==> Pass(p, symbols, s) == s
      decreases limit - pass
    {
      s, grow := PullAll(p, symbols, s);
      pass := pass + 1;
    }
    if !grow {
      IdlePassesStay(p, symbols, seed, pass, limit);
      IdlePassCloses(p, symbols, s);
    }
    PassesBounds(p, seed, symbols, limit);
  }

  const MAX_PASSES := 32

  /** With the limit of 32 passes. */
  method TwoWayClosure(p: Program, symbols: seq<nat>, seed: set<nat>) returns (s: set<nat>, grow: bool)
    requires p.symbols == Elements(symbols)
    ensures s == Passes(p, symbols, seed, 32)
    ensures Forced(p, seed, s) && Ball(p, seed, 32) <= s
    ensures !grow ==> ClosedBothWays(p, s)
  {
    s, grow := ClosureWithin(p, symbols, seed, MAX_PASSES);
  }

  // ----- the farthest symbols first -----

  ghost predicate Lists(p: Program, listing: seq<nat>) {
    p.symbols == Elements(listing) && forall i, j :: 0 <= i < j < |listing| ==> listing[i] != listing[j]
  }

  /** `x` is in a ball only if `y` is. */
  ghost predicate AsFar(p: Program, seed: set<nat>, x: nat, y: nat) {
    forall n :: x in Ball(p, seed, n) ==> y in Ball(p, seed, n)
  }

  ghost predicate FarthestFirst(p: Program, seed: set<nat>, listing: seq<nat>) {
    forall i, j :: 0 <= i < j < |listing| ==> AsFar(p, seed, listing[i], listing[j])
  }

  /** What a pass from the ball `n` over a farthest-first listing leads to, symbol by
      symbol: nothing while the symbols are farther than `n` + 1, then symbols of that
      distance by themselves, and only then their callees. */
  ghost predicate OneBallOn(p: Program, seed: set<nat>, listing: seq<nat>, n: nat, k: nat, s: set<nat>)
    requires k <= |listing|
  {
    var inner, outer := Ball(p, seed, n), Ball(p, seed, n + 1);
    && inner <= s <= outer
    && (s == inner || Elements(listing[k..]) <= outer)
    && (s <= inner + Elements(listing[..k]) || Elements(listing[k..]) <= inner)
  }

  lemma PullInner(p: Program, seed: set<nat>, n: nat, s: set<nat>, a: nat)
    requires a in p.symbols && a in Ball(p, seed, n) && Ball(p, seed, n) <= s <= Ball(p, seed, n + 1)
    ensures Pull(p, s, a) <= Ball(p, seed, n + 1)
  {
    forall v | v in p.callees(a) && v in p.symbols ensures v in Grown(p, Ball(p, seed, n)) {
      LinkedIs(p, Ball(p, seed, n), v);
    }
  }

  lemma OneBallStep(p: Program, seed: set<nat>, listing: seq<nat>, n: nat, k: nat, s: set<nat>)
    requires Lists(p, listing) && FarthestFirst(p, seed, listing) && k < |listing|
    requires OneBallOn(p, seed, listing, n, k, s)
    ensures OneBallOn(p, seed, listing, n, k + 1, Pull(p, s, listing[k]))
  {
    var a, inner, outer := listing[k], Ball(p, seed, n), Ball(p, seed, n + 1);
    assert a in Elements(listing);
    assert a == listing[k..][0] && a in Elements(listing[k..]);
    PullServes(p, s, a);
    forall x | x in Elements(listing[k + 1..])
      ensures x in Elements(listing[k..]) && (a in inner ==> x in inner) && (a in outer ==> x in outer)
    {
      var j :| 0 <= j < |listing[k + 1..]| && listing[k + 1..][j] == x;
      assert listing[k..][j + 1] == x && listing[k + 1 + j] == x;
      assert AsFar(p, seed, listing[k], listing[k + 1 + j]);
    }
    if a in inner {
      PullInner(p, seed, n, s, a);
    } else {
      assert a !in s by {
        assert a !in Elements(listing[..k]);
      }
      assert Elements(listing[..k + 1]) == Elements(listing[..k]) + {a} by {
        assert listing[..k + 1] == listing[..k] + [a];
      }
      PullOuter(p, seed, n, s, a);
    }
  }

  /** A symbol outside the ball pulls in nothing but itself, and not even that if it is
      farther than one call. */
  lemma PullOuter(p: Program, seed: set<nat>, n: nat, s: set<nat>, a: nat)
    requires a in p.symbols && a !in s && (a in Ball(p, seed, n + 1) || s == Ball(p, seed, n))
    ensures Pull(p, s, a) <= s + {a} && (a !in Ball(p, seed, n + 1) ==> Pull(p, s, a) == s)
  {
    if a !in Ball(p, seed, n + 1) {
      LinkedIs(p, s, a);
    }
  }

  lemma {:induction false} OneBallPrefix(p: Program, seed: set<nat>, listing: seq<nat>, n: nat, k: nat)
    requires Lists(p, listing) && FarthestFirst(p, seed, listing) && k <= |listing|
    ensures OneBallOn(p, seed, listing, n, k, Pass(p, listing[..k], Ball(p, seed, n)))
  {
    if k == 0 {
      BallGrows(p, seed, n);
    } else {
      OneBallPrefix(p, seed, listing, n, k - 1);
      assert listing[..k][..k - 1] == listing[..k - 1];
      OneBallStep(p, seed, listing, n, k - 1, Pass(p, listing[..k - 1], Ball(p, seed, n)));
    }
  }

  lemma FarthestPass(p: Program, seed: set<nat>, listing: seq<nat>, n: nat)
    requires Lists(p, listing) && FarthestFirst(p, seed, listing)
    ensures Pass(p, listing, Ball(p, seed, n)) == Ball(p, seed, n + 1)
  {
    OneBallPrefix(p, seed, listing, n, |listing|);
    assert listing[..|listing|] == listing;
    PassGrowsBall(p, seed, listing, n, Ball(p, seed, n));
  }

  /** With the farthest symbols first every pass adds exactly one ball. */
  lemma {:induction false} FarthestPasses(p: Program, seed: set<nat>, listing: seq<nat>, n: nat)
    requires Lists(p, listing) && FarthestFirst(p, seed, listing)
    ensures Passes(p, listing, seed, n) == Ball(p, seed, n)
  {
    if n > 0 {
      FarthestPasses(p, seed, listing, n - 1);
      FarthestPass(p, seed, listing, n - 1);
    }
  }

  lemma OneIsAsFar(p: Program, seed: set<nat>, x: nat, y: nat)
    ensures AsFar(p, seed, x, y) || AsFar(p, seed, y, x)
  {
    if m :| x in Ball(p, seed, m) && y !in Ball(p, seed, m) {
      forall n | y in Ball(p, seed, n) ensures x in Ball(p, seed, n) {
        if n < m {
          BallsNest(p, seed, n, m);
        } else {
          BallsNest(p, seed, m, n);
        }
      }
    }
  }

  /** A symbol as far as all others. */
  lemma {:induction false} Farthest(p: Program, seed: set<nat>, rest: set<nat>) returns (x: nat)
    requires rest != {}
    ensures x in rest && forall y :: y in rest ==> AsFar(p, seed, x, y)
    decreases |rest|
  {
    var one :| one in rest;
    x := one;
    if rest != {one} {
      var far := Farthest(p, seed, rest - {one});
      OneIsAsFar(p, seed, one, far);
      if AsFar(p, seed, one, far) {
        forall y | y in rest ensures AsFar(p, seed, one, y) {
          assert y != one ==> AsFar(p, seed, far, y);
        }
      } else {
        x := far;
      }
    }
  }

  lemma {:induction false} FarthestListing(p: Program, seed: set<nat>, rest: set<nat>) returns (listing: seq<nat>)
    ensures Elements(listing) == rest && FarthestFirst(p, seed, listing)
    ensures forall i, j :: 0 <= i < j < |listing| ==> listing[i] != listing[j]
    decreases |rest|
  {
    listing := [];
    if rest != {} {
      var x := Farthest(p, seed, rest);
      var tail := FarthestListing(p, seed, rest - {x});
      listing := [x] + tail;
      assert Elements(listing) == {x} + Elements(tail);
      forall j | 0 <= j < |tail| ensures tail[j] in rest && tail[j] != x && AsFar(p, seed, x, tail[j]) {
        assert tail[j] in Elements(tail);
      }
      forall i, j | 0 <= i < j < |listing| ensures AsFar(p, seed, listing[i], listing[j]) {
        assert i > 0 ==> AsFar(p, seed, tail[i - 1], tail[j - 1]);
      }
    }
  }

  /** The passes end with a closed set whatever the order of the symbols, if and only if
      everything that the seed forces lies within as many calls of it. */
  lemma ClosedIff(p: Program, seed: set<nat>, limit: nat)
    ensures (forall listing :: Lists(p, listing) ==> ClosedBothWays(p, Passes(p, listing, seed, limit)))
      <==> ClosedBothWays(p, Ball(p, seed, limit))
  {
    if ClosedBothWays(p, Ball(p, seed, limit)) {
      forall listing | Lists(p, listing) ensures ClosedBothWays(p, Passes(p, listing, seed, limit)) {
        ClosedBall(p, seed, listing, limit);
      }
    } else {
      var listing := FarthestListing(p, seed, p.symbols);
      FarthestPasses(p, seed, listing, limit);
      assert Lists(p, listing);
    }
  }

  // ----- a chain that is too long -----

  /** The numbers below `n`. */
  function Below(n: nat): (r: set<nat>)
    ensures forall a: nat :: a in r <==> a < n
  {
    if n == 0 then {} else Below(n - 1) + {n - 1}
  }

  /** `n` functions, each calling the next. */
  function CallChain(n: nat): Program {
    Program(Below(n), (a: nat) => if a + 1 < n then [a + 1] else [])
  }

  lemma ChainLinked(n: nat, k: nat, v: nat)
    requires 0 < k < n
    ensures Linked(CallChain(n), Below(k), v) ==> v <= k
    ensures Linked(CallChain(n), Below(k), k)
  {
    var p := CallChain(n);
    LinkedIs(p, Below(k), v);
    LinkedIs(p, Below(k), k);
    assert k - 1 in Below(k) && k in p.callees(k - 1);
  }

  lemma {:induction false} ChainBall(n: nat, k: nat)
    requires k < n
    ensures Ball(CallChain(n), {0}, k) == Below(k + 1)
  {
    if k == 0 {
      assert Below(1) == {0};
    } else {
      ChainBall(n, k - 1);
      forall v: nat ensures v in Grown(CallChain(n), Below(k)) <==> v < k + 1 {
        ChainLinked(n, k, v);
      }
    }
  }

  lemma ChainOrder(n: nat, x: nat, y: nat)
    requires y < x < n
    ensures AsFar(CallChain(n), {0}, x, y)
  {
    var p := CallChain(n);
    forall k: nat | x in Ball(p, {0}, k) ensures y in Ball(p, {0}, k) {
      if k < n {
        ChainBall(n, k);
      } else {
        ChainBall(n, n - 1);
        BallsNest(p, {0}, n - 1, k);
      }
    }
  }

  function Downwards(n: nat): (r: seq<nat>)
    ensures |r| == n && forall i :: 0 <= i < n ==> r[i] == n - 1 - i
  {
    seq(n, i requires 0 <= i < n => n - 1 - i)
  }

  lemma DownwardsFarthest(n: nat)
    ensures Lists(CallChain(n), Downwards(n)) && FarthestFirst(CallChain(n), {0}, Downwards(n))
  {
    var p, listing := CallChain(n), Downwards(n);
    forall a: nat ensures a in p.symbols <==> a in Elements(listing) {
      if a < n {
        assert listing[n - 1 - a] == a;
      }
    }
    forall i, j | 0 <= i < j < |listing| ensures AsFar(p, {0}, listing[i], listing[j]) {
      ChainOrder(n, listing[i], listing[j]);
    }
  }

  /** Listed from its far end, a chain of at least two functions more than passes is not
      followed to its end: 34 functions are too many for the 32 passes. */
  lemma ChainUnfinished(n: nat, limit: nat)
    requires limit + 2 <= n
    ensures Lists(CallChain(n), Downwards(n))
    ensures !ClosedBothWays(CallChain(n), Passes(CallChain(n), Downwards(n), {0}, limit))
  {
    var p := CallChain(n);
    DownwardsFarthest(n);
    FarthestPasses(p, {0}, Downwards(n), limit);
    ChainBall(n, limit);
    assert limit + 1 in p.callees(limit);
    assert !Settled(p, Below(limit + 1), limit);
  }
}
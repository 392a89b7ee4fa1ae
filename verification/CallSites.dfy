/** Direct calls in raw ARM and Thumb-2 code: the forward scan that collects targets, the
    reverse query for one target, and function discovery. */
module CallSites {
  import opened Options
  import opened Words
  import opened CallCodes

  // ----- call sites in a blob -----

  /** The address with the Thumb bit ignored. */
  function Canon(t: nat): nat {
    t - t % 2
  }

  predicate InBlob(data: Bytes, base: nat, t: nat) {
    base <= t < base + |data|
  }

  /** The target of the Thumb-2 call at `i`, if it lies in the blob. */
  function ThumbTarget(data: Bytes, base: nat, i: nat): Option<nat> {
    if i + 4 > |data| then None
    else
      var t := ThumbCall(data, base, i);
      if t.Some? && InBlob(data, base, Canon(t.value)) then t else None
  }

  /** The target of the ARM call at `j`, if it lies in the blob: the reverse query
      ignores the low bit first, the forward scan does not. */
  function ArmTarget(data: Bytes, base: nat, j: nat, forward: bool): Option<nat> {
    if j + 4 > |data| then None
    else
      var t := ArmCall(data, base, j);
      if t.Some? && InBlob(data, base, if forward then t.value else Canon(t.value)) then t else None
  }

  predicate GoesTo(t: Option<nat>, want: nat) {
    t.Some? && Canon(t.value) == want
  }

  function ThumbTargets(data: Bytes, base: nat): nat -> Option<nat> {
    i => ThumbTarget(data, base, i)
  }

  function ArmTargets(data: Bytes, base: nat, forward: bool): nat -> Option<nat> {
    j => ArmTarget(data, base, j, forward)
  }

  /** A call at offset `i`, Thumb-2 or ARM, goes to `want` up to the Thumb bit. */
  predicate CallsVia(thumb: nat -> Option<nat>, arm: nat -> Option<nat>, i: nat, want: nat) {
    (i % 2 == 0 && GoesTo(thumb(i), want)) || (i % 4 == 0 && GoesTo(arm(i), want))
  }

  /** The bytes at offset `i` are a call, Thumb-2 or ARM, of an address in the blob that is
      `want` up to the Thumb bit. */
  ghost predicate IsSite(data: Bytes, base: nat, i: nat, want: nat) {
    && base <= want < base + |data|
    && ((i % 2 == 0 && exists t: nat :: ThumbCalls(data, base, i, t) && t - t % 2 == want) ||
        (i % 4 == 0 && exists t: nat :: ArmCalls(data, base, i, t) && t - t % 2 == want))
  }

  lemma ThumbCallsFit(data: Bytes, base: nat, i: nat, t: nat)
    requires ThumbCalls(data, base, i, t)
    ensures i + 4 <= |data|
  {
    assert Inspected(i);
  }

  lemma ThumbTargetIs(data: Bytes, base: nat, i: nat, t: nat)
    ensures ThumbTarget(data, base, i) == Some(t) <==> ThumbCalls(data, base, i, t) && InBlob(data, base, Canon(t))
  {
    if i + 4 <= |data| {
      ThumbCallIff(data, base, i, t);
    } else if ThumbCalls(data, base, i, t) {
      ThumbCallsFit(data, base, i, t);
    }
  }

  lemma ArmCallsFit(data: Bytes, base: nat, i: nat, t: nat)
    requires ArmCalls(data, base, i, t)
    ensures i + 4 <= |data|
  {
    assert Inspected(i);
  }

  lemma ArmTargetIs(data: Bytes, base: nat, j: nat, forward: bool, t: nat)
    ensures ArmTarget(data, base, j, forward) == Some(t) <==>
            ArmCalls(data, base, j, t) && InBlob(data, base, if forward then t else Canon(t))
  {
    if j + 4 <= |data| {
      ArmCallIff(data, base, j, t);
    } else if ArmCalls(data, base, j, t) {
      ArmCallsFit(data, base, j, t);
    }
  }

  /** What the reverse query looks for is exactly a call site. */
  lemma SiteIff(data: Bytes, base: nat, i: nat, want: nat)
    ensures CallsVia(ThumbTargets(data, base), ArmTargets(data, base, false), i, want) <==> IsSite(data, base, i, want)
  {
    var thumb, arm := ThumbTarget(data, base, i), ArmTarget(data, base, i, false);
    if GoesTo(thumb, want) {
      ThumbTargetIs(data, base, i, thumb.value);
    }
    if GoesTo(arm, want) {
      ArmTargetIs(data, base, i, false, arm.value);
    }
    if InBlob(data, base, want) {
      if t: nat :| ThumbCalls(data, base, i, t) && t - t % 2 == want {
        ThumbTargetIs(data, base, i, t);
      }
      if t: nat :| ArmCalls(data, base, i, t) && t - t % 2 == want {
        ArmTargetIs(data, base, i, false, t);
      }
    }
  }

  /** The multiples of `step` below `len` where `target` goes to `want`, as addresses. */
  method SitesOf(len: nat, base: nat, step: nat, target: nat -> Option<nat>, want: nat) returns (sites: seq<nat>)
    requires step > 0 && forall i :: i >= len ==> target(i) == None
    ensures forall a :: a in sites <==> a >= base && (a - base) % step == 0 && GoesTo(target(a - base), want)
  {
    sites := [];
    var i, n := 0, 0;
    while i < len
      invariant i == n * step && i % step == 0
      invariant forall a :: a in sites <==>
          a >= base && (a - base) % step == 0 && a - base < i && GoesTo(target(a - base), want)
      decreases len - i
    {
      if GoesTo(target(i), want) {
        sites := sites + [base + i];
      }
      NextMultiple(i, n, step);
      i, n := i + step, n + 1;
    }
  }

  lemma NextMultiple(i: nat, n: nat, step: nat)
    requires step > 0 && i == n * step
    ensures (i + step) % step == 0
    ensures forall k :: i < k < i + step ==> k % step != 0
  {
    DivModUnique(i + step, n + 1, 0, step);
    forall k | i < k < i + step ensures k % step != 0 {
      DivModUnique(k, n, k - i, step);
    }
  }

  ghost predicate Increasing(xs: seq<nat>) {
    forall i, j :: 0 <= i < j < |xs| ==> xs[i] < xs[j]
  }

  /** Insert into an increasing sequence, once. */
  function Insert(xs: seq<nat>, x: nat): (r: seq<nat>)
    requires Increasing(xs)
    ensures |r| > 0 && (r[0] == x || (xs != [] && r[0] == xs[0]))
    ensures Increasing(r)
    ensures forall y :: y in r <==> y in xs || y == x
  {
    if xs == [] then [x]
    else if x < xs[0] then [x] + xs
    else if x == xs[0] then xs
    else
      var rest := Insert(xs[1..], x);
      assert xs[0] < rest[0];
      assert xs == [xs[0]] + xs[1..];
      [xs[0]] + rest
  }

  method SortAndDedup(xs: seq<nat>) returns (r: seq<nat>)
    ensures Increasing(r) && forall y :: y in r <==> y in xs
  {
    r := [];
    for k := 0 to |xs|
      invariant Increasing(r) && forall y :: y in r <==> y in xs[..k]
    {
      r := Insert(r, xs[k]);
    }
  }

  /** The sites of both scans, in order and without duplicates. */
  method BothScans(len: nat, base: nat, thumb: nat -> Option<nat>, arm: nat -> Option<nat>, want: nat)
    returns (sites: seq<nat>)
    requires forall i :: i >= len ==> thumb(i) == None && arm(i) == None
    ensures Increasing(sites) && forall a :: a in sites <==> a >= base && CallsVia(thumb, arm, a - base, want)
  {
    var halves := SitesOf(len, base, 2, thumb, want);
    var words := SitesOf(len, base, 4, arm, want);
    sites := SortAndDedup(halves + words);
  }

  /** All call sites of `query`, and no others, in order; its low bit does not matter. */
  ghost predicate AreSites(data: Bytes, base: nat, query: nat, sites: seq<nat>) {
    Increasing(sites) && forall a :: a in sites <==> a >= base && IsSite(data, base, a - base, query - query % 2)
  }

  lemma AllSitesIff(data: Bytes, base: nat, want: nat)
    ensures forall i: nat ::
      CallsVia(ThumbTargets(data, base), ArmTargets(data, base, false), i, want) <==> IsSite(data, base, i, want)
  {
    forall i: nat
      ensures CallsVia(ThumbTargets(data, base), ArmTargets(data, base, false), i, want) <==>
              IsSite(data, base, i, want)
    {
      SiteIff(data, base, i, want);
    }
  }

  /** The reverse query. */
  method FindCallSites(data: Bytes, base: nat, query: nat) returns (sites: seq<nat>)
    ensures AreSites(data, base, query, sites)
  {
    var want := Canon(query);
    sites := BothScans(|data|, base, ThumbTargets(data, base), ArmTargets(data, base, false), want);
    AllSitesIff(data, base, want);
  }

  // ----- the forward scan -----

  ghost predicate HasTarget(step: nat, target: nat -> Option<nat>, t: nat)
    requires step > 0
  {
    exists i: nat :: i % step == 0 && target(i) == Some(t)
  }

  /** Somewhere in the blob is a call of `t`, which lies in the blob as well: of a Thumb-2
      call, `t` less its Thumb bit. */
  ghost predicate IsCalled(data: Bytes, base: nat, t: nat) {
    || (base <= t - t % 2 < base + |data| && exists i: nat :: i % 2 == 0 && ThumbCalls(data, base, i, t))
    || (base <= t < base + |data| && exists j: nat :: j % 4 == 0 && ArmCalls(data, base, j, t))
  }

  /** What the scans collect is exactly what is called. */
  lemma CalledIff(data: Bytes, base: nat, t: nat)
    ensures HasTarget(2, ThumbTargets(data, base), t) || HasTarget(4, ArmTargets(data, base, true), t) <==>
            IsCalled(data, base, t)
  {
    if i: nat :| i % 2 == 0 && ThumbTargets(data, base)(i) == Some(t) {
      ThumbTargetIs(data, base, i, t);
    }
    if j: nat :| j % 4 == 0 && ArmTargets(data, base, true)(j) == Some(t) {
      ArmTargetIs(data, base, j, true, t);
    }
    if i: nat :| i % 2 == 0 && ThumbCalls(data, base, i, t) {
      ThumbTargetIs(data, base, i, t);
      assert ThumbTargets(data, base)(i) == ThumbTarget(data, base, i);
    }
    if j: nat :| j % 4 == 0 && ArmCalls(data, base, j, t) {
      ArmTargetIs(data, base, j, true, t);
      assert ArmTargets(data, base, true)(j) == ArmTarget(data, base, j, true);
    }
  }

  /** The targets at multiples of `step`. */
  method TargetsOf(len: nat, step: nat, target: nat -> Option<nat>) returns (found: set<nat>)
    requires step > 0 && forall i :: i >= len ==> target(i) == None
    ensures forall t :: t in found <==> HasTarget(step, target, t)
  {
    found := {};
    var i, n := 0, 0;
    while i < len
      invariant i == n * step && i % step == 0
      invariant forall t :: t in found <==> exists k: nat :: k < i && k % step == 0 && target(k) == Some(t)
      decreases len - i
    {
      if target(i).Some? {
        found := found + {target(i).value};
      }
      NextMultiple(i, n, step);
      i, n := i + step, n + 1;
    }
  }

  ghost predicate AreTargets(data: Bytes, base: nat, found: set<nat>) {
    forall t :: t in found <==> IsCalled(data, base, t)
  }

  method ScanCalls(data: Bytes, base: nat) returns (found: set<nat>)
    ensures AreTargets(data, base, found)
  {
    var arm := TargetsOf(|data|, 4, ArmTargets(data, base, true));
    var thumb := TargetsOf(|data|, 2, ThumbTargets(data, base));
    found := arm + thumb;
    forall t: nat ensures t in found <==> IsCalled(data, base, t) {
      CalledIff(data, base, t);
    }
  }

  /** In an evenly based blob ARM-mode calls at words go to even addresses. */
  lemma ArmCallsEven(data: Bytes, base: nat, j: nat, t: nat)
    requires base % 2 == 0 && j % 4 == 0 && ArmCalls(data, base, j, t)
    ensures t % 2 == 0
  {
    assert Inspected(j);
    var cond, offset :| HasArmBl(data, j, cond, offset) && t == Plus(base + j, 8 + offset);
    EvenAddress(base, j, offset);
  }

  lemma EvenAddress(base: nat, j: nat, offset: int)
    requires base % 2 == 0 && j % 4 == 0 && offset % 4 == 0
    ensures Plus(base + j, 8 + offset) % 2 == 0
  {
    EvenSum(base, j, offset);
    EvenWrapped(base + j + (8 + offset));
  }

  lemma EvenSum(a: int, b: int, c: int)
    requires a % 2 == 0 && b % 4 == 0 && c % 4 == 0
    ensures (a + b + (8 + c)) % 2 == 0
  {
    assert a == 2 * (a / 2) && b == 4 * (b / 4) && c == 4 * (c / 4);
    assert a + b + (8 + c) == 2 * (a / 2 + 2 * (b / 4) + 4 + 2 * (c / 4));
  }

  lemma EvenWrapped(x: int)
    requires x % 2 == 0
    ensures (x % TWO64) % 2 == 0
  {
    ModTwo64(x, 1);
    assert Pow2(1) == 2;
  }

  /** Forward and reverse agree: a target has call sites exactly when the scan adds it,
      the Thumb bit ignored. */
  lemma ForwardAndReverseAgree(data: Bytes, base: nat, want: nat)
    requires base % 2 == 0
    ensures (exists i: nat :: IsSite(data, base, i, want)) <==>
            (exists t: nat :: IsCalled(data, base, t) && t - t % 2 == want)
  {
    if i: nat :| IsSite(data, base, i, want) {
      SiteIsCalled(data, base, i, want);
    }
    if t: nat :| IsCalled(data, base, t) && t - t % 2 == want {
      CalledHasSite(data, base, t, want);
    }
  }

  lemma SiteIsCalled(data: Bytes, base: nat, i: nat, want: nat)
    requires base % 2 == 0 && IsSite(data, base, i, want)
    ensures exists t: nat :: IsCalled(data, base, t) && t - t % 2 == want
  {
    if t: nat :| i % 2 == 0 && ThumbCalls(data, base, i, t) && t - t % 2 == want {
      assert IsCalled(data, base, t);
    } else {
      var u: nat :| i % 4 == 0 && ArmCalls(data, base, i, u) && u - u % 2 == want;
      ArmCallsEven(data, base, i, u);
      assert IsCalled(data, base, u);
    }
  }

  lemma CalledHasSite(data: Bytes, base: nat, t: nat, want: nat)
    requires base % 2 == 0 && IsCalled(data, base, t) && want == t - t % 2
    ensures exists i: nat :: IsSite(data, base, i, want)
  {
    if i: nat :| i % 2 == 0 && ThumbCalls(data, base, i, t) && base <= t - t % 2 < base + |data| {
      assert IsSite(data, base, i, want);
    } else {
      var j: nat :| j % 4 == 0 && ArmCalls(data, base, j, t);
      ArmCallsEven(data, base, j, t);
      assert IsSite(data, base, j, want);
    }
  }

  /** Of the two results: the reverse query finds a site exactly when the forward scan has
      added the query, the low bit ignored. */
  lemma QueryAgreesWithScan(data: Bytes, base: nat, query: nat, sites: seq<nat>, found: set<nat>)
    requires base % 2 == 0 && AreSites(data, base, query, sites) && AreTargets(data, base, found)
    ensures sites != [] <==> exists t: nat :: t in found && t - t % 2 == query - query % 2
  {
    var want := query - query % 2;
    ForwardAndReverseAgree(data, base, want);
    if sites != [] {
      assert sites[0] in sites;
    }
    if i: nat :| IsSite(data, base, i, want) {
      assert base + i in sites;
    }
  }

  // ----- all of function discovery -----

  predicate HasVectors(data: Bytes) {
    |data| >= 8 && WordAt(data, 0) / 0x100_0000 == 0x20
  }

  /** An odd entry of the Cortex-M vector table that points into the blob. */
  function VectorTarget(data: Bytes, base: nat, i: nat): Option<nat> {
    if HasVectors(data) && 4 <= i < 0x400 && i + 4 <= |data| && WordAt(data, i) % 2 == 1 &&
        InBlob(data, base, Canon(WordAt(data, i)))
    then Some(WordAt(data, i)) else None
  }

  function VectorTargets(data: Bytes, base: nat): nat -> Option<nat> {
    i => VectorTarget(data, base, i)
  }

  /** The blob starts with a stack pointer 0x20xxxxxx, and an odd word behind it, among the
      first 1024 bytes, is `t` and points into the blob. */
  ghost predicate IsVector(data: Bytes, base: nat, t: nat) {
    && |data| >= 8 && data[3] as nat == 0x20 && t % 2 == 1 && base <= t - 1 < base + |data|
    && exists i: nat :: i % 4 == 0 && 4 <= i < 1024 && HasWord(data, i, t)
  }

  lemma TopByte(w: nat, b0: nat, b1: nat, b2: nat, b3: nat)
    requires b0 < 256 && b1 < 256 && b2 < 256 && w == b0 + 256 * b1 + 65536 * (b2 + 256 * b3)
    ensures w / 0x100_0000 == b3
  {
    assert w == 0x100_0000 * b3 + (b0 + 256 * b1 + 65536 * b2);
  }

  lemma HasVectorsIff(data: Bytes)
    ensures HasVectors(data) <==> |data| >= 8 && data[3] as nat == 0x20
  {
    if |data| >= 8 {
      TopByte(WordAt(data, 0), data[0] as nat, data[1] as nat, data[2] as nat, data[3] as nat);
    }
  }

  lemma VectorTargetIs(data: Bytes, base: nat, i: nat, t: nat)
    ensures VectorTarget(data, base, i) == Some(t) <==>
            HasVectors(data) && 4 <= i < 1024 && HasWord(data, i, t) && t % 2 == 1 && base <= t - 1 < base + |data|
  {
    if i + 4 <= |data| {
      WordRead(data, i, t);
    }
  }

  /** What is read from the vector table is exactly its odd entries into the blob. */
  lemma VectorIff(data: Bytes, base: nat, t: nat)
    ensures HasTarget(4, VectorTargets(data, base), t) <==> IsVector(data, base, t)
  {
    HasVectorsIff(data);
    if i: nat :| i % 4 == 0 && VectorTargets(data, base)(i) == Some(t) {
      VectorTargetIs(data, base, i, t);
    }
    if i: nat :| i % 4 == 0 && 4 <= i < 1024 && HasWord(data, i, t) {
      VectorTargetIs(data, base, i, t);
      assert VectorTargets(data, base)(i) == VectorTarget(data, base, i);
    }
  }

  /** The blob's base, its vector table, and the targets of its direct calls. */
  method DiscoverFunctions(data: Bytes, base: nat) returns (found: set<nat>)
    ensures forall t :: t in found <==> t == base || IsVector(data, base, t) || IsCalled(data, base, t)
  {
    var vectors := TargetsOf(|data|, 4, VectorTargets(data, base));
    var calls := ScanCalls(data, base);
    found := {base} + vectors + calls;
    forall t: nat ensures t in vectors <==> IsVector(data, base, t) {
      VectorIff(data, base, t);
    }
  }
}

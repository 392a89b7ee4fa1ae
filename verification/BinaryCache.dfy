/** The one-slot cache of whole-binary results, and the content sample in its keys. */
module BinaryCache {
  import opened Options
  import opened Basics
  import opened FnvHash
  import Words

  // ----- the cache -----

  /** A request: its key, and whether computing its value would panic now. */
  datatype Request<K> = Request(key: K, panics: bool)

  type Slot<K, T> = Option<(K, T)>

  predicate Hits<K(==), T>(slot: Slot<K, T>, key: K) {
    slot.Some? && slot.value.0 == key
  }

  /** The reply to a request whose computation gives `compute`, or panics. */
  function Reply<K(==), T>(slot: Slot<K, T>, key: K, compute: Option<T>): Option<T> {
    if Hits(slot, key) then Some(slot.value.1) else compute
  }

  function Updated<K(==), T>(slot: Slot<K, T>, key: K, compute: Option<T>): Slot<K, T> {
    if Hits(slot, key) || compute.None? then slot else Some((key, compute.value))
  }

  class Cache<K(==), T> {
    var slot: Slot<K, T>

    constructor ()
      ensures slot == None
    {
      slot := None;
    }

    /** The value for `key`, computing it on a miss; `compute` is `None` if it panics, and
        then the slot is as it was. */
    method Get(key: K, compute: Option<T>) returns (value: Option<T>, computed: bool)
      modifies this
      ensures computed <==> !Hits(old(slot), key)
      ensures value == Reply(old(slot), key, compute)
      ensures slot == Updated(old(slot), key, compute)
    {
      if Hits(slot, key) {
        return Some(slot.value.1), false;
      }
      computed, value := true, compute;
      if compute.Some? {
        slot := Some((key, compute.value));
      }
    }
  }

  // ----- runs of requests whose value is determined by the key -----

  function Outcome<K, T>(r: Request<K>, valueOf: K -> T): Option<T> {
    if r.panics then None else Some(valueOf(r.key))
  }

  function Next<K(==), T>(slot: Slot<K, T>, r: Request<K>, valueOf: K -> T): Slot<K, T> {
    Updated(slot, r.key, Outcome(r, valueOf))
  }

  function After<K(==), T>(rs: seq<Request<K>>, valueOf: K -> T): Slot<K, T>
    decreases |rs|
  {
    if rs == [] then None else Next(After(rs[..|rs| - 1], valueOf), rs[|rs| - 1], valueOf)
  }

  /** The answer to request `k`: `None` is a panic reaching the caller. */
  function Answer<K(==), T>(rs: seq<Request<K>>, k: nat, valueOf: K -> T): Option<T>
    requires k < |rs|
  {
    Reply(After(rs[..k], valueOf), rs[k].key, Outcome(rs[k], valueOf))
  }

  /** The latest request before `n` that got an answer. */
  ghost predicate IsLatestAnswered<K, T>(rs: seq<Request<K>>, n: nat, j: nat, valueOf: K -> T) {
    && j < n <= |rs| && Answer(rs, j, valueOf).Some?
    && forall i :: j < i < n ==> Answer(rs, i, valueOf).None?
  }

  ghost predicate NoneAnswered<K, T>(rs: seq<Request<K>>, n: nat, valueOf: K -> T) {
    n <= |rs| && forall i :: 0 <= i < n ==> Answer(rs, i, valueOf).None?
  }

  lemma AfterOneMore<K, T>(rs: seq<Request<K>>, n: nat, valueOf: K -> T)
    requires n < |rs|
    ensures After(rs[..n + 1], valueOf) == Next(After(rs[..n], valueOf), rs[n], valueOf)
  {
    assert rs[..n + 1][..n] == rs[..n];
  }

  /** The slot holds the key of the latest answered request, with the right value. */
  lemma {:induction false} SlotIsLatestAnswered<K, T>(rs: seq<Request<K>>, n: nat, valueOf: K -> T)
    requires n <= |rs|
    ensures var slot := After(rs[..n], valueOf);
      && (slot.None? ==> NoneAnswered(rs, n, valueOf))
      && (slot.Some? ==> slot.value.1 == valueOf(slot.value.0))
      && (slot.Some? ==> exists j: nat :: IsLatestAnswered(rs, n, j, valueOf) && rs[j].key == slot.value.0)
    decreases n
  {
    if n > 0 {
      SlotIsLatestAnswered(rs, n - 1, valueOf);
      AfterOneMore(rs, n - 1, valueOf);
      var before, slot := After(rs[..n - 1], valueOf), After(rs[..n], valueOf);
      if Answer(rs, n - 1, valueOf).Some? {
        assert IsLatestAnswered(rs, n, n - 1, valueOf);
      } else if before.Some? {
        var j: nat :| IsLatestAnswered(rs, n - 1, j, valueOf) && rs[j].key == before.value.0;
        assert IsLatestAnswered(rs, n, j, valueOf);
      }
    }
  }

  /** Every answer is what computing directly would give. A request panics only if its
      computation does, and is computed exactly when the latest answered request had
      another key, or there was none. */
  lemma AnswersAreRight<K, T>(rs: seq<Request<K>>, k: nat, valueOf: K -> T)
    requires k < |rs|
    ensures Answer(rs, k, valueOf).Some? ==> Answer(rs, k, valueOf).value == valueOf(rs[k].key)
    ensures Answer(rs, k, valueOf).None? ==> rs[k].panics
    ensures Hits(After(rs[..k], valueOf), rs[k].key) <==>
      exists j: nat :: IsLatestAnswered(rs, k, j, valueOf) && rs[j].key == rs[k].key
  {
    SlotIsLatestAnswered(rs, k, valueOf);
    var slot := After(rs[..k], valueOf);
    if j: nat :| IsLatestAnswered(rs, k, j, valueOf) && rs[j].key == rs[k].key {
      assert slot.Some?;
      var i: nat :| IsLatestAnswered(rs, k, i, valueOf) && rs[i].key == slot.value.0;
      assert i == j;
    }
  }

  // ----- the sample -----

  const RUN := 64
  const EDGE := 4096

  method Feed(hash0: nat, bytes: seq<Byte>) returns (hash: nat)
    ensures hash == Fnv(hash0, bytes)
  {
    hash := hash0;
    for k := 0 to |bytes|
      invariant hash == Fnv(hash0, bytes[..k])
    {
      assert bytes[..k + 1][..k] == bytes[..k];
      hash := Words.BitXor(hash, bytes[k]) * 0x0100_0000_01b3 % 0x1_0000_0000_0000_0000;
    }
    assert bytes[..|bytes|] == bytes;
  }

  /** The half-open ranges of positions that are sampled, in order. */
  datatype Range = Range(lo: nat, hi: nat)

  predicate Fit(ranges: seq<Range>, len: nat) {
    forall k :: 0 <= k < |ranges| ==> ranges[k].lo <= ranges[k].hi <= len
  }

  function Bytes(data: seq<Byte>, ranges: seq<Range>): seq<Byte>
    requires Fit(ranges, |data|)
    decreases |ranges|
  {
    if ranges == [] then []
    else
      var last := ranges[|ranges| - 1];
      Bytes(data, ranges[..|ranges| - 1]) + data[last.lo..last.hi]
  }

  function Stride(len: nat): (r: nat)
    ensures r >= RUN
  {
    Max(len / 256, RUN)
  }

  function EdgeOf(len: nat): nat {
    if len < EDGE then len else EDGE
  }

  /** The sampled ranges: both edges, then a run at every multiple of the stride. */
  function Ranges(len: nat, n: nat): seq<Range>
    decreases n
  {
    if n == 0 then [Range(0, EdgeOf(len)), Range(len - EdgeOf(len), len)]
    else Ranges(len, n - 1) + [RunAt(len, n - 1)]
  }

  function RunAt(len: nat, k: nat): Range {
    var at := k * Stride(len);
    Range(at, at + RUN)
  }

  predicate InRanges(ranges: seq<Range>, x: nat) {
    exists k :: 0 <= k < |ranges| && ranges[k].lo <= x < ranges[k].hi
  }

  lemma {:induction false} RangesFit(len: nat, n: nat)
    requires n > 0 ==> (n - 1) * Stride(len) + RUN <= len
    ensures |Ranges(len, n)| == n + 2
    ensures Fit(Ranges(len, n), len)
    decreases n
  {
    if n > 0 {
      assert (n - 1) * Stride(len) == (n - 2) * Stride(len) + Stride(len);
      RangesFit(len, n - 1);
    }
  }

  /** How many runs fit. */
  function RunCount(len: nat): nat {
    if len < RUN then 0 else (len - RUN) / Stride(len) + 1
  }

  /** `n` runs fit and the next does not. */
  ghost predicate IsRunCount(len: nat, n: nat) {
    (n > 0 ==> (n - 1) * Stride(len) + RUN <= len) && n * Stride(len) + RUN > len
  }

  lemma RunCountIs(len: nat, n: nat)
    requires IsRunCount(len, n)
    ensures n == RunCount(len)
  {
    if n > 0 {
      var stride := Stride(len);
      OneMoreStride(n - 1, stride);
      Words.DivModUnique(len - RUN, n - 1, len - RUN - (n - 1) * stride, stride);
    }
  }

  lemma RunCountFits(len: nat)
    ensures IsRunCount(len, RunCount(len))
  {
    if len >= RUN {
      var stride := Stride(len);
      var q := (len - RUN) / stride;
      OneMoreStride(q, stride);
      assert len - RUN == q * stride + (len - RUN) % stride;
    }
  }

  /** The ranges up to run `n` fit, and `hash` is their digest. */
  ghost predicate Digested(data: seq<Byte>, n: nat, hash: nat) {
    && |Ranges(|data|, n)| == n + 2 && Fit(Ranges(|data|, n), |data|)
    && hash == Fnv(OFFSET, Bytes(data, Ranges(|data|, n)))
  }

  lemma DigestEdges(data: seq<Byte>)
    ensures var edge := EdgeOf(|data|);
      Digested(data, 0, Fnv(Fnv(OFFSET, data[0..edge]), data[|data| - edge..|data|]))
  {
    var edge := EdgeOf(|data|);
    RangesFit(|data|, 0);
    EdgeBytes(data);
    FnvConcat(OFFSET, data[0..edge], data[|data| - edge..|data|]);
  }

  lemma DigestRun(data: seq<Byte>, n: nat, at: nat, hash: nat)
    requires Digested(data, n, hash) && at == n * Stride(|data|) && at + RUN <= |data|
    ensures Digested(data, n + 1, Fnv(hash, data[at..at + RUN]))
  {
    var r := Range(at, at + RUN);
    RangesStep(|data|, n, r);
    AppendRange(OFFSET, data, Ranges(|data|, n), r);
  }

  lemma RangesStep(len: nat, n: nat, r: Range)
    requires r == RunAt(len, n)
    ensures Ranges(len, n + 1) == Ranges(len, n) + [r]
  {
  }

  /** The digest of the sampled ranges. */
  function SampleOf(data: seq<Byte>): nat {
    RunCountFits(|data|);
    RangesFit(|data|, RunCount(|data|));
    Fnv(OFFSET, Bytes(data, Ranges(|data|, RunCount(|data|))))
  }

  /** Hash the sampled ranges; every access is in range. */
  method Sample(data: seq<Byte>) returns (hash: nat)
    ensures hash == SampleOf(data)
  {
    var edge, stride := EdgeOf(|data|), Stride(|data|);
    hash := Feed(OFFSET, data[0..edge]);
    hash := Feed(hash, data[|data| - edge..|data|]);
    DigestEdges(data);
    ghost var n := 0;
    var at := 0;
    while at + RUN <= |data|
      invariant at == n * stride && (n > 0 ==> (n - 1) * stride + RUN <= |data|)
      invariant Digested(data, n, hash)
      decreases |data| - at
    {
      DigestRun(data, n, at, hash);
      hash := Feed(hash, data[at..at + RUN]);
      OneMoreStride(n, stride);
      at, n := at + stride, n + 1;
    }
    RunCountIs(|data|, n);
  }

  lemma OneMoreStride(n: nat, stride: nat)
    ensures (n + 1) * stride == n * stride + stride
  {
  }

  lemma BytesAppend(data: seq<Byte>, rs: seq<Range>, r: Range)
    requires Fit(rs, |data|) && r.lo <= r.hi <= |data|
    ensures Fit(rs + [r], |data|) && Bytes(data, rs + [r]) == Bytes(data, rs) + data[r.lo..r.hi]
  {
    assert (rs + [r])[..|rs|] == rs;
  }

  lemma BytesOfOne(data: seq<Byte>, a: Range)
    requires a.lo <= a.hi <= |data|
    ensures Fit([a], |data|) && Bytes(data, [a]) == data[a.lo..a.hi]
  {
    var none: seq<Byte> := [];
    assert [a][..0] == [];
    assert none + data[a.lo..a.hi] == data[a.lo..a.hi];
  }

  lemma TwoRanges(data: seq<Byte>, a: Range, b: Range)
    requires a.lo <= a.hi <= |data| && b.lo <= b.hi <= |data|
    ensures Fit([a, b], |data|) && Bytes(data, [a, b]) == data[a.lo..a.hi] + data[b.lo..b.hi]
  {
    BytesOfOne(data, a);
    BytesAppend(data, [a], b);
    assert [a] + [b] == [a, b];
  }

  lemma EdgeBytes(data: seq<Byte>)
    ensures var edge := EdgeOf(|data|);
      Fit(Ranges(|data|, 0), |data|) && Bytes(data, Ranges(|data|, 0)) == data[0..edge] + data[|data| - edge..|data|]
  {
    var edge := EdgeOf(|data|);
    TwoRanges(data, Range(0, edge), Range(|data| - edge, |data|));
  }

  lemma AppendRange(hash: nat, data: seq<Byte>, rs: seq<Range>, r: Range)
    requires Fit(rs, |data|) && r.lo <= r.hi <= |data|
    ensures Fit(rs + [r], |data|)
    ensures Fnv(hash, Bytes(data, rs + [r])) == Fnv(Fnv(hash, Bytes(data, rs)), data[r.lo..r.hi])
  {
    BytesAppend(data, rs, r);
    FnvConcat(hash, Bytes(data, rs), data[r.lo..r.hi]);
  }

  // ----- what the sample covers, and what it costs -----

  lemma {:induction false} RangesAre(len: nat, n: nat)
    ensures var rs := Ranges(len, n);
      && |rs| == n + 2 && rs[0] == Range(0, EdgeOf(len)) && rs[1] == Range(len - EdgeOf(len), len)
      && forall k :: 0 <= k < n ==> rs[k + 2] == RunAt(len, k)
    decreases n
  {
    if n > 0 {
      RangesAre(len, n - 1);
      var rs, init := Ranges(len, n), Ranges(len, n - 1);
      forall k | 0 <= k < n ensures rs[k + 2] == RunAt(len, k) {
        if k < n - 1 {
          assert rs[k + 2] == init[k + 2];
        }
      }
    }
  }

  predicate InRange(r: Range, x: nat) {
    r.lo <= x < r.hi
  }

  /** A position is in no more than one run: the one that starts at the multiple of the
      stride below it. */
  lemma InRunIff(len: nat, k: nat, x: nat)
    ensures InRange(RunAt(len, k), x) <==> k == x / Stride(len) && x % Stride(len) < RUN
  {
    var stride := Stride(len);
    if InRange(RunAt(len, k), x) {
      Words.DivModUnique(x, k, x - k * stride, stride);
    }
    assert x == x / stride * stride + x % stride;
  }

  lemma RunFitsIff(len: nat, k: nat)
    ensures k < RunCount(len) <==> k * Stride(len) + RUN <= len
  {
    var n, stride := RunCount(len), Stride(len);
    RunCountFits(len);
    if k < n {
      MulMonotone(k, n - 1, stride);
    } else {
      MulMonotone(n, k, stride);
    }
  }

  lemma RangesHave(len: nat, n: nat, x: nat)
    ensures InRanges(Ranges(len, n), x) <==>
      x < EdgeOf(len) || len - EdgeOf(len) <= x < len || exists k :: 0 <= k < n && InRange(RunAt(len, k), x)
  {
    var rs := Ranges(len, n);
    RangesAre(len, n);
    if i :| 0 <= i < |rs| && rs[i].lo <= x < rs[i].hi && i > 1 {
      assert InRange(RunAt(len, i - 2), x);
    }
    if k :| 0 <= k < n && InRange(RunAt(len, k), x) {
      assert rs[k + 2].lo <= x < rs[k + 2].hi;
    }
  }

  /** How far apart the runs start: 64 bytes, or a 256th of the length if that is more. */
  function Spacing(len: nat): (s: nat)
    ensures s >= 64
  {
    if len / 256 < 64 then 64 else len / 256
  }

  lemma BelowPosition(x: nat, s: nat)
    requires s > 0
    ensures x / s * s == x - x % s
  {
  }

  /** The run of a position is whole if and only if it ends in the buffer. */
  lemma RunHolds(len: nat, x: nat)
    ensures (exists k :: 0 <= k < RunCount(len) && InRange(RunAt(len, k), x)) <==>
            var s := Spacing(len); x % s < 64 && x - x % s + 64 <= len
  {
    var at := x / Stride(len);
    BelowPosition(x, Stride(len));
    RunFitsIff(len, at);
    InRunIff(len, at, x);
    if k :| 0 <= k < RunCount(len) && InRange(RunAt(len, k), x) {
      InRunIff(len, k, x);
    }
  }

  /** The sampled positions: 4096 at either end, and whole runs of 64. */
  lemma SampledIff(len: nat, x: nat)
    requires x < len
    ensures InRanges(Ranges(len, RunCount(len)), x) <==>
      var s := Spacing(len); x < 4096 || x >= len - 4096 || (x % s < 64 && x - x % s + 64 <= len)
  {
    RangesHave(len, RunCount(len), x);
    RunHolds(len, x);
  }

  // From 16640 bytes on the runs start more than 64 bytes apart, and the byte behind the
  // first run beyond the leading edge is never fed.

  function UnfedByte(len: nat): nat {
    (EDGE / Stride(len) + 1) * Stride(len) + RUN
  }

  lemma UnfedIsOutside(len: nat)
    requires len >= 16640
    ensures Stride(len) > RUN && EDGE <= UnfedByte(len) < len - EDGE && UnfedByte(len) % Stride(len) == RUN
  {
    var stride := Stride(len);
    var q := EDGE / stride;
    assert EDGE == q * stride + EDGE % stride;
    OneMoreStride(q, stride);
    Words.DivModUnique(UnfedByte(len), q + 1, RUN, stride);
  }

  /** Every byte of a buffer is fed to the hash if and only if it has fewer than 16640. */
  lemma FullySampledIff(len: nat)
    ensures (forall x: nat :: x < len ==> InRanges(Ranges(len, RunCount(len)), x)) <==> len < 16640
  {
    if len < 16640 {
      forall x: nat | x < len ensures InRanges(Ranges(len, RunCount(len)), x) {
        assert Spacing(len) == 64;
        SampledIff(len, x);
      }
    } else {
      UnfedIsOutside(len);
      SampledIff(len, UnfedByte(len));
    }
  }

  lemma {:induction false} UnfedIgnored(data: seq<Byte>, ranges: seq<Range>, x: nat, b: Byte)
    requires Fit(ranges, |data|) && x < |data| && !InRanges(ranges, x)
    ensures Bytes(data[x := b], ranges) == Bytes(data, ranges)
    decreases |ranges|
  {
    if ranges != [] {
      var init, last := ranges[..|ranges| - 1], ranges[|ranges| - 1];
      assert !(last.lo <= x < last.hi);
      UnfedIgnored(data, init, x, b);
      assert data[x := b][last.lo..last.hi] == data[last.lo..last.hi];
    }
  }

  lemma SliceAround(data: seq<Byte>, lo: nat, x: nat, hi: nat)
    requires lo <= x < hi <= |data|
    ensures data[lo..hi] == data[lo..x] + [data[x]] + data[x + 1..hi]
  {
  }

  lemma Inside(a: seq<Byte>, b: seq<Byte>, m: Byte, c: seq<Byte>, d: seq<Byte>)
    ensures a + (b + [m] + c) == (a + b) + [m] + c
    ensures (b + [m] + c) + d == b + [m] + (c + d)
  {
  }

  lemma SliceChanged(data: seq<Byte>, lo: nat, x: nat, hi: nat, b: Byte)
    requires lo <= x < hi <= |data|
    ensures data[x := b][lo..hi] == data[lo..x] + [b] + data[x + 1..hi]
  {
    SliceAround(data[x := b], lo, x, hi);
    assert data[x := b][lo..x] == data[lo..x];
  }

  /** A position in one range and no other: the fed bytes differ in just that byte. */
  lemma {:induction false} FedOnce(data: seq<Byte>, ranges: seq<Range>, k: nat, x: nat, b: Byte)
    returns (before: seq<Byte>, after: seq<Byte>)
    requires Fit(ranges, |data|) && x < |data| && k < |ranges| && InRange(ranges[k], x)
    requires forall i :: 0 <= i < |ranges| && i != k ==> !InRange(ranges[i], x)
    ensures Bytes(data, ranges) == before + [data[x]] + after
    ensures Bytes(data[x := b], ranges) == before + [b] + after
    decreases |ranges|
  {
    var n := |ranges| - 1;
    var init, last := ranges[..n], ranges[n];
    if k == n {
      UnfedIgnored(data, init, x, b);
      SliceAround(data, last.lo, x, last.hi);
      SliceChanged(data, last.lo, x, last.hi, b);
      before, after := Bytes(data, init) + data[last.lo..x], data[x + 1..last.hi];
      Inside(Bytes(data, init), data[last.lo..x], data[x], after, []);
      Inside(Bytes(data, init), data[last.lo..x], b, after, []);
    } else {
      var p, q := FedOnce(data, init, k, x, b);
      before, after := p, q + data[last.lo..last.hi];
      SliceKept(data, last, x, b);
      Inside([], p, data[x], q, data[last.lo..last.hi]);
      Inside([], p, b, q, data[last.lo..last.hi]);
    }
  }

  lemma SliceKept(data: seq<Byte>, r: Range, x: nat, b: Byte)
    requires r.lo <= r.hi <= |data| && x < |data| && !InRange(r, x)
    ensures data[x := b][r.lo..r.hi] == data[r.lo..r.hi]
  {
  }

  /** A position away from both ends is in no other range than its run. */
  lemma OnlyInRun(len: nat, x: nat) returns (k: nat)
    requires 4096 <= x < len - 4096 && x % Spacing(len) < 64
    ensures k < |Ranges(len, RunCount(len))| && InRange(Ranges(len, RunCount(len))[k], x)
    ensures forall i :: 0 <= i < |Ranges(len, RunCount(len))| && i != k ==> !InRange(Ranges(len, RunCount(len))[i], x)
  {
    var n := RunCount(len);
    RangesAre(len, n);
    RunHolds(len, x);
    var run :| 0 <= run < n && InRange(RunAt(len, run), x);
    InRunIff(len, run, x);
    k := run + 2;
    forall i | 0 <= i < n + 2 && i != k ensures !InRange(Ranges(len, n)[i], x) {
      if i > 1 {
        InRunIff(len, i - 2, x);
      }
    }
  }

  lemma SampledOnce(data: seq<Byte>, x: nat, b: Byte)
    requires 4096 <= x < |data| - 4096 && x % Spacing(|data|) < 64 && b != data[x]
    ensures SampleOf(data[x := b]) != SampleOf(data)
  {
    var n := RunCount(|data|);
    RunCountFits(|data|);
    RangesFit(|data|, n);
    var k := OnlyInRun(|data|, x);
    var before, after := FedOnce(data, Ranges(|data|, n), k, x, b);
    EveryByteCounts(OFFSET, before, data[x], b, after);
  }

  lemma UnsampledIsIgnored(data: seq<Byte>, x: nat, b: Byte)
    requires x < |data| && !InRanges(Ranges(|data|, RunCount(|data|)), x)
    ensures SampleOf(data[x := b]) == SampleOf(data)
  {
    RunCountFits(|data|);
    RangesFit(|data|, RunCount(|data|));
    UnfedIgnored(data, Ranges(|data|, RunCount(|data|)), x, b);
  }

  /** Away from both ends a change of one byte is noticed if and only if the byte is in the
      first 64 of its stretch. */
  lemma MiddleChangeIff(data: seq<Byte>, x: nat, b: Byte)
    requires 4096 <= x < |data| - 4096 && b != data[x]
    ensures SampleOf(data[x := b]) != SampleOf(data) <==> x % Spacing(|data|) < 64
  {
    if x % Spacing(|data|) < 64 {
      SampledOnce(data, x, b);
    } else {
      SampledIff(|data|, x);
      UnsampledIsIgnored(data, x, b);
    }
  }

  /** What identifies a buffer: its address and length, and its sample. */
  datatype Key = Key(addr: nat, len: nat, sample: nat)

  function KeyOf(addr: nat, data: seq<Byte>): Key {
    Key(addr, |data|, SampleOf(data))
  }

  /** A buffer of 16640 bytes or more can be overwritten without a change of its key, and
      then the cache answers with the value of the earlier contents. */
  lemma OverwrittenIsMistaken<T>(addr: nat, data: seq<Byte>, b: Byte, value: seq<Byte> -> T)
    requires |data| >= 16640
    ensures UnfedByte(|data|) < |data|
    ensures var data' := data[UnfedByte(|data|) := b];
      && KeyOf(addr, data') == KeyOf(addr, data)
      && var slot := Updated(None, KeyOf(addr, data), Some(value(data)));
      Reply(slot, KeyOf(addr, data'), Some(value(data'))) == Some(value(data))
  {
    UnfedIsOutside(|data|);
    SampledIff(|data|, UnfedByte(|data|));
    UnsampledIsIgnored(data, UnfedByte(|data|), b);
  }

  lemma {:induction false} FedBytes(data: seq<Byte>, n: nat)
    requires n > 0 ==> (n - 1) * Stride(|data|) + RUN <= |data|
    requires Fit(Ranges(|data|, n), |data|)
    ensures |Bytes(data, Ranges(|data|, n))| == 2 * EdgeOf(|data|) + n * RUN
    decreases n
  {
    if n == 0 {
      EdgeBytes(data);
    } else {
      assert (n - 1) * Stride(|data|) == (n - 2) * Stride(|data|) + Stride(|data|);
      RangesFit(|data|, n - 1);
      FedBytes(data, n - 1);
      var rs, more := Ranges(|data|, n - 1), Ranges(|data|, n);
      assert more[..|more| - 1] == rs;
    }
  }

  lemma MulMonotone(a: nat, b: nat, s: nat)
    ensures a <= b ==> a * s <= b * s
  {
    if a <= b {
      assert b * s == a * s + (b - a) * s;
    }
  }

  lemma LengthInStrides(len: nat)
    ensures len < 259 * Stride(len) + RUN
  {
  }

  /** There are never more than 259 runs. */
  lemma FewRuns(len: nat)
    ensures RunCount(len) <= 259
  {
    var n := RunCount(len);
    RunCountFits(len);
    LengthInStrides(len);
    if n > 0 {
      MulMonotone(259, n - 1, Stride(len));
    }
  }

  /** The sample reads at most 8192 + 259 * 64 bytes of any buffer. */
  lemma SampleIsCheap(data: seq<Byte>)
    ensures var ranges := Ranges(|data|, RunCount(|data|));
      Fit(ranges, |data|) && |Bytes(data, ranges)| <= 8192 + 259 * RUN
  {
    RunCountFits(|data|);
    RangesFit(|data|, RunCount(|data|));
    FedBytes(data, RunCount(|data|));
    FewRuns(|data|);
  }
}

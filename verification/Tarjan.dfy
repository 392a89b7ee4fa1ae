/** Tarjan's strongly connected components over the direct-call graph. */
module Tarjan {
  import opened Basics
  import opened CallGraph

  /** The value of the traversal state, with two ghost additions: the functions whose
      visit is still running, and the position of the component of each finished one. */
  datatype Trace = Trace(
    counter: nat,
    stack: seq<FuncId>,
    indices: map<FuncId, nat>,
    lowlinks: map<FuncId, nat>,
    onStack: map<FuncId, bool>,
    components: seq<seq<FuncId>>,
    open: set<FuncId>,
    rank: map<FuncId, nat>)

  // ----- what holds throughout -----

  /** Indices are handed out in order, and the stack is ordered by them. */
  ghost predicate Numbered(s: Trace) {
    && (forall x :: x in s.indices ==> s.indices[x] < s.counter)
    && (forall i :: 0 <= i < |s.stack| ==> s.stack[i] in s.indices)
    && (forall i, j :: 0 <= i < j < |s.stack| ==> s.indices[s.stack[i]] < s.indices[s.stack[j]])
    && s.lowlinks.Keys == s.indices.Keys
    && (forall x :: (x in s.onStack && s.onStack[x]) <==> x in s.stack)
  }

  /** Visited functions are on the stack or in one component. */
  ghost predicate Partitioned(s: Trace) {
    && (forall x :: x in s.indices <==> x in s.stack || x in s.rank)
    && (forall x :: x in s.stack ==> x !in s.rank)
    && (forall x :: x in s.rank ==> s.rank[x] < |s.components|)
    && (forall i, x :: 0 <= i < |s.components| ==> (x in s.components[i] <==> x in s.rank && s.rank[x] == i))
    && (forall i, a, b :: 0 <= i < |s.components| && 0 <= a < b < |s.components[i]| ==>
          s.components[i][a] != s.components[i][b])
    && (forall i :: 0 <= i < |s.components| ==> |s.components[i]| > 0)
  }

  /** A finished visit has seen all successors; open ones are on the stack. */
  ghost predicate Explored(g: Graph, s: Trace) {
    && (forall x :: x in s.open ==> x in s.stack)
    && (forall x, y {:trigger Calls(g, x, y)} :: x in s.indices && x !in s.open && Calls(g, x, y) ==> y in s.indices)
  }

  /** Components are strongly connected, and calls lead only to earlier ones. */
  ghost predicate Finished(g: Graph, s: Trace) {
    && (forall x, y {:trigger Calls(g, x, y)} :: x in s.rank && Calls(g, x, y) ==>
        y in s.rank && s.rank[y] <= s.rank[x])
    && (forall x, y {:trigger Reaches(g, x, y)} :: x in s.rank && y in s.rank && s.rank[x] == s.rank[y] ==>
        Reaches(g, x, y))
  }

  /** An open function reaches all above it on the stack. */
  ghost predicate Descends(g: Graph, s: Trace)
    requires Numbered(s) && Explored(g, s)
  {
    forall x, y {:trigger Reaches(g, x, y)} ::
      x in s.open && y in s.stack && s.indices[x] <= s.indices[y] ==> Reaches(g, x, y)
  }

  ghost predicate ClimbsTo(g: Graph, s: Trace, y: FuncId, x: FuncId)
    requires y in s.indices
  {
    x in s.open && x in s.indices && s.indices[x] <= s.indices[y] && Reaches(g, y, x)
  }

  ghost predicate HasClimb(g: Graph, s: Trace, y: FuncId) {
    y in s.indices && exists x :: ClimbsTo(g, s, y, x)
  }

  /** Every function on the stack reaches an open one at or below it. */
  ghost predicate Climbs(g: Graph, s: Trace)
    requires Numbered(s)
  {
    forall y {:trigger HasClimb(g, s, y)} :: y in s.stack ==> HasClimb(g, s, y)
  }

  ghost predicate FromRoots(g: Graph, x: FuncId) {
    exists r :: r in g.funcs && Reaches(g, r, x)
  }

  ghost predicate Rooted(g: Graph, s: Trace) {
    forall x {:trigger FromRoots(g, x)} :: x in s.indices ==> FromRoots(g, x)
  }

  ghost predicate Inv(g: Graph, s: Trace) {
    && Numbered(s) && Partitioned(s) && Explored(g, s) && Finished(g, s)
    && Descends(g, s) && Climbs(g, s) && Rooted(g, s)
  }

  // ----- starting a visit -----

  ghost function Push(s: Trace, id: FuncId): Trace {
    s.(counter := s.counter + 1, stack := s.stack + [id], indices := s.indices[id := s.counter],
       lowlinks := s.lowlinks[id := s.counter], onStack := s.onStack[id := true], open := s.open + {id})
  }

  ghost predicate CanVisit(g: Graph, s: Trace, id: FuncId) {
    && Inv(g, s) && id !in s.indices && FromRoots(g, id)
    && forall x :: x in s.open ==> Reaches(g, x, id)
  }

  lemma PushNumbered(s: Trace, id: FuncId)
    requires Numbered(s) && id !in s.indices
    ensures Numbered(Push(s, id))
  {
  }

  lemma PushPartitioned(s: Trace, id: FuncId)
    requires Partitioned(s) && id !in s.indices
    ensures Partitioned(Push(s, id))
  {
    var t := Push(s, id);
    assert forall x :: x in t.stack <==> x in s.stack || x == id;
  }

  lemma PushExplored(g: Graph, s: Trace, id: FuncId)
    requires Explored(g, s)
    ensures Explored(g, Push(s, id))
  {
  }

  lemma PushDescends(g: Graph, s: Trace, id: FuncId)
    requires Numbered(s) && Explored(g, s) && Descends(g, s) && id !in s.indices
    requires forall x :: x in s.open ==> Reaches(g, x, id)
    ensures Numbered(Push(s, id)) && Explored(g, Push(s, id)) && Descends(g, Push(s, id))
  {
    PushNumbered(s, id);
    PushExplored(g, s, id);
    ReachesSelf(g, id);
    var t := Push(s, id);
    forall x, y | x in t.open && y in t.stack && t.indices[x] <= t.indices[y] ensures Reaches(g, x, y) {
      if y != id {
        assert x != id;
      }
    }
  }

  lemma PushClimbs(g: Graph, s: Trace, id: FuncId)
    requires Numbered(s) && Climbs(g, s) && id !in s.indices
    ensures Numbered(Push(s, id)) && Climbs(g, Push(s, id))
  {
    PushNumbered(s, id);
    ReachesSelf(g, id);
    var t := Push(s, id);
    forall y | y in t.stack ensures HasClimb(g, t, y) {
      if y == id {
        assert ClimbsTo(g, t, id, id);
      } else {
        assert HasClimb(g, s, y);
        var x :| ClimbsTo(g, s, y, x);
        assert ClimbsTo(g, t, y, x);
      }
    }
  }

  lemma PushKeeps(g: Graph, s: Trace, id: FuncId)
    requires CanVisit(g, s, id)
    ensures Inv(g, Push(s, id))
  {
    PushNumbered(s, id);
    PushPartitioned(s, id);
    PushDescends(g, s, id);
    PushClimbs(g, s, id);
    PushFinished(g, s, id);
    PushRooted(g, s, id);
  }

  lemma PushFinished(g: Graph, s: Trace, id: FuncId)
    requires Finished(g, s)
    ensures Finished(g, Push(s, id))
  {
  }

  lemma PushRooted(g: Graph, s: Trace, id: FuncId)
    requires Rooted(g, s) && FromRoots(g, id)
    ensures Rooted(g, Push(s, id))
  {
  }

  // ----- the meaning of lowlinks -----

  /** `low` is the index of a function on the stack that `id` reaches, ... */
  ghost predicate LowReached(g: Graph, s: Trace, id: FuncId, low: nat) {
    exists y :: y in s.stack && y in s.indices && s.indices[y] == low && Reaches(g, id, y)
  }

  /** ... and bounds every call from the stack above `base` into the stack below it,
      of `id` as far as its successors in `seen` go. */
  ghost predicate LowBounds(g: Graph, s: Trace, base: nat, id: FuncId, seen: set<FuncId>, low: nat)
    requires base <= |s.stack|
  {
    forall u, v {:trigger Calls(g, u, v)} ::
      u in s.stack[base..] && Calls(g, u, v) && v in s.stack[..base] && v in s.indices && (u != id || v in seen) ==>
      low <= s.indices[v]
  }

  /** `id` sits at `base` on the stack, above every other open function, its successors
      in `seen` are visited and its lowlink accounts for them. */
  ghost predicate Underway(g: Graph, s: Trace, base: nat, id: FuncId, seen: set<FuncId>) {
    && base < |s.stack| && s.stack[base] == id && id in s.open && id in s.indices && id in s.lowlinks
    && (forall x :: x in s.open && x != id ==> x in s.stack[..base])
    && (forall v :: v in seen ==> v in s.indices)
    && s.lowlinks[id] <= s.indices[id]
    && LowReached(g, s, id, s.lowlinks[id])
    && LowBounds(g, s, base, id, seen, s.lowlinks[id])
  }

  lemma PushUnderway(g: Graph, s: Trace, id: FuncId)
    requires id !in s.indices && Explored(g, s)
    ensures Underway(g, Push(s, id), |s.stack|, id, {})
  {
    var t := Push(s, id);
    ReachesSelf(g, id);
    assert t.stack[|s.stack|] == id;
    assert t.stack[..|s.stack|] == s.stack && t.stack[|s.stack|..] == [id];
  }

  // ----- one successor -----

  ghost function SetLow(s: Trace, id: FuncId, low: nat): Trace {
    s.(lowlinks := s.lowlinks[id := low])
  }

  lemma SetLowNumbered(s: Trace, id: FuncId, low: nat)
    requires Numbered(s) && id in s.indices
    ensures Numbered(SetLow(s, id, low))
  {
  }

  lemma SetLowPartitioned(s: Trace, id: FuncId, low: nat)
    requires Partitioned(s)
    ensures Partitioned(SetLow(s, id, low))
  {
  }

  lemma SetLowKeeps(g: Graph, s: Trace, id: FuncId, low: nat)
    requires Inv(g, s) && id in s.indices
    ensures Inv(g, SetLow(s, id, low))
  {
    var t := SetLow(s, id, low);
    SetLowNumbered(s, id, low);
    SetLowPartitioned(s, id, low);
    assert Explored(g, t) && Finished(g, t) && Rooted(g, t) && Descends(g, t);
    forall y | y in t.stack ensures HasClimb(g, t, y) {
      assert HasClimb(g, s, y);
      var x :| ClimbsTo(g, s, y, x);
      assert ClimbsTo(g, t, y, x);
    }
  }

  /** A successor that is already on the stack. */
  lemma SeenOnStack(g: Graph, s: Trace, base: nat, id: FuncId, seen: set<FuncId>, v: FuncId)
    requires Underway(g, s, base, id, seen) && Calls(g, id, v) && v in s.stack && v in s.indices
    ensures Underway(g, SetLow(s, id, Min(s.lowlinks[id], s.indices[v])), base, id, seen + {v})
  {
    var low := Min(s.lowlinks[id], s.indices[v]);
    var t := SetLow(s, id, low);
    ReachesCall(g, id, v);
    assert LowReached(g, t, id, low) by {
      if low == s.indices[v] {
        assert v in t.stack && t.indices[v] == low && Reaches(g, id, v);
      } else {
        var y :| y in s.stack && y in s.indices && s.indices[y] == low && Reaches(g, id, y);
        assert y in t.stack;
      }
    }
  }

  /** A successor in a finished component. */
  lemma SeenFinished(g: Graph, s: Trace, base: nat, id: FuncId, seen: set<FuncId>, v: FuncId)
    requires Underway(g, s, base, id, seen) && v in s.indices && v !in s.stack
    ensures Underway(g, s, base, id, seen + {v})
  {
    assert forall x :: x in s.stack[..base] ==> x in s.stack;
  }

  // ----- what a visit achieves -----

  /** `t` continues `s`: nothing recorded is changed. */
  ghost predicate Extends(s: Trace, t: Trace) {
    && s.stack <= t.stack && s.components <= t.components && t.open == s.open && s.counter <= t.counter
    && (forall x :: x in s.indices ==>
          && x in t.indices && t.indices[x] == s.indices[x]
          && x in s.lowlinks && x in t.lowlinks && t.lowlinks[x] == s.lowlinks[x])
    && (forall x :: x in t.indices && x !in s.indices ==> s.counter <= t.indices[x])
  }

  /** After the visit of `id`: its component was emitted, or its lowlink is the index of
      a function that was on the stack before and bounds all calls down to there. */
  ghost predicate Visited(g: Graph, s: Trace, t: Trace, id: FuncId)
    requires s.stack <= t.stack
  {
    && id in t.indices && id !in s.indices && id in t.lowlinks
    && (t.stack == s.stack ==> t.lowlinks[id] == t.indices[id])
    && (t.stack != s.stack ==> exists y ::
        y in s.stack && y in s.indices && s.indices[y] == t.lowlinks[id] && Reaches(g, id, y))
    && (forall u, v {:trigger Calls(g, u, v)} ::
        u in t.stack[|s.stack|..] && Calls(g, u, v) && v in s.stack && v in s.indices ==>
          t.lowlinks[id] <= s.indices[v])
  }

  /** A successor that had to be visited first. */
  lemma SeenByVisit(g: Graph, s: Trace, t: Trace, base: nat, id: FuncId, seen: set<FuncId>, v: FuncId)
    requires Numbered(s) && Underway(g, s, base, id, seen) && Calls(g, id, v)
    requires Numbered(t) && Extends(s, t) && Visited(g, s, t, v)
    ensures Underway(g, SetLow(t, id, Min(t.lowlinks[id], t.lowlinks[v])), base, id, seen + {v})
  {
    var low := Min(t.lowlinks[id], t.lowlinks[v]);
    assert t.stack[..base] == s.stack[..base];
    LowReachedByVisit(g, s, t, base, id, seen, v);
    LowBoundsByVisit(g, s, t, base, id, seen, v);
  }

  lemma LowReachedByVisit(g: Graph, s: Trace, t: Trace, base: nat, id: FuncId, seen: set<FuncId>, v: FuncId)
    requires Numbered(s) && Underway(g, s, base, id, seen) && Calls(g, id, v)
    requires Extends(s, t) && Visited(g, s, t, v)
    ensures LowReached(g, SetLow(t, id, Min(t.lowlinks[id], t.lowlinks[v])), id, Min(t.lowlinks[id], t.lowlinks[v]))
  {
    var low := Min(t.lowlinks[id], t.lowlinks[v]);
    var y;
    if low == s.lowlinks[id] {
      y :| y in s.stack && y in s.indices && s.indices[y] == s.lowlinks[id] && Reaches(g, id, y);
    } else {
      y :| y in s.stack && y in s.indices && s.indices[y] == t.lowlinks[v] && Reaches(g, v, y);
      ReachesCall(g, id, v);
      ReachesTransitive(g, id, v, y);
    }
    OnExtendedStack(s, t, y);
  }

  lemma OnExtendedStack(s: Trace, t: Trace, y: FuncId)
    requires s.stack <= t.stack && y in s.stack
    ensures y in t.stack
  {
    var k :| 0 <= k < |s.stack| && s.stack[k] == y;
    assert t.stack[k] == y;
  }

  lemma LowBoundsByVisit(g: Graph, s: Trace, t: Trace, base: nat, id: FuncId, seen: set<FuncId>, v: FuncId)
    requires Numbered(s) && Underway(g, s, base, id, seen)
    requires Extends(s, t) && Visited(g, s, t, v)
    ensures LowBounds(g, SetLow(t, id, Min(t.lowlinks[id], t.lowlinks[v])), base, id, seen + {v},
        Min(t.lowlinks[id], t.lowlinks[v]))
  {
    var low := Min(t.lowlinks[id], t.lowlinks[v]);
    assert t.stack[..base] == s.stack[..base];
    assert t.stack[base..] == s.stack[base..] + t.stack[|s.stack|..];
    forall u, w | u in t.stack[base..] && Calls(g, u, w) && w in t.stack[..base] && w in t.indices &&
        (u != id || w in seen + {v})
      ensures low <= t.indices[w]
    {
      assert w in s.stack && w in s.indices;
      if u in s.stack[base..] {
        assert w != v;
      }
    }
  }

  /** The recursive visit of an unvisited successor may start. */
  lemma SuccessorCanBeVisited(g: Graph, s: Trace, base: nat, id: FuncId, seen: set<FuncId>, v: FuncId)
    requires Inv(g, s) && Underway(g, s, base, id, seen) && Calls(g, id, v) && v !in s.indices
    ensures CanVisit(g, s, v)
  {
    ReachesCall(g, id, v);
    assert FromRoots(g, v) by {
      assert FromRoots(g, id);
      var r :| r in g.funcs && Reaches(g, r, id);
      ReachesTransitive(g, r, id, v);
    }
    forall x | x in s.open ensures Reaches(g, x, v) {
      OpenReachesTop(g, s, base, id, seen, x);
      ReachesTransitive(g, x, id, v);
    }
  }

  lemma OpenReachesTop(g: Graph, s: Trace, base: nat, id: FuncId, seen: set<FuncId>, x: FuncId)
    requires Numbered(s) && Explored(g, s) && Descends(g, s) && Underway(g, s, base, id, seen) && x in s.open
    ensures Reaches(g, x, id)
  {
    assert id in s.stack;
    if x != id {
      var k :| 0 <= k < base && s.stack[k] == x;
      assert s.indices[s.stack[k]] < s.indices[s.stack[base]];
    }
  }

  // ----- finishing a visit -----

  ghost predicate AllSeen(g: Graph, id: FuncId, seen: set<FuncId>) {
    forall v :: Calls(g, id, v) ==> v in seen
  }

  lemma StackOrder(s: Trace, i: nat, j: nat)
    requires Numbered(s) && i < |s.stack| && j < |s.stack|
    ensures s.stack[i] in s.indices && s.stack[j] in s.indices
    ensures s.indices[s.stack[i]] < s.indices[s.stack[j]] <==> i < j
    ensures s.stack[i] == s.stack[j] <==> i == j
  {
  }

  lemma BelowBase(s: Trace, base: nat, v: FuncId)
    requires Numbered(s) && base < |s.stack| && v in s.stack
    ensures v in s.indices && s.stack[base] in s.indices
    ensures v in s.stack[..base] <==> s.indices[v] < s.indices[s.stack[base]]
    ensures v in s.stack[base..] <==> s.indices[v] >= s.indices[s.stack[base]]
  {
    var k :| 0 <= k < |s.stack| && s.stack[k] == v;
    StackOrder(s, k, base);
    if v in s.stack[..base] {
      var j :| 0 <= j < base && s.stack[j] == v;
      StackOrder(s, j, k);
    }
    if v in s.stack[base..] {
      var j :| 0 <= j < |s.stack| - base && s.stack[base..][j] == v;
      StackOrder(s, base + j, k);
    }
    if k < base {
      assert s.stack[..base][k] == v;
    } else {
      assert s.stack[base..][k - base] == v;
    }
  }

  /** Calls from the top of the stack stay there or lead to finished components, once
      the lowlink of `id` is its own index. */
  lemma NoEscape(g: Graph, s: Trace, base: nat, id: FuncId, seen: set<FuncId>, u: FuncId, v: FuncId)
    requires Numbered(s) && Partitioned(s) && Explored(g, s) && Underway(g, s, base, id, seen) && AllSeen(g, id, seen)
    requires s.lowlinks[id] == s.indices[id]
    requires u in s.stack[base..] && Calls(g, u, v)
    ensures v in s.stack[base..] || v in s.rank
  {
    assert u in s.stack;
    BelowBase(s, base, u);
    assert v in s.indices;
    if v in s.stack {
      BelowBase(s, base, v);
    }
  }

  ghost function Top(s: Trace, base: nat): set<FuncId>
    requires base <= |s.stack|
  {
    (set x | x in s.stack[base..]) + s.rank.Keys
  }

  lemma TopClosed(g: Graph, s: Trace, base: nat, id: FuncId, seen: set<FuncId>)
    requires Numbered(s) && Partitioned(s) && Explored(g, s) && Finished(g, s)
    requires Underway(g, s, base, id, seen) && AllSeen(g, id, seen) && s.lowlinks[id] == s.indices[id]
    ensures Closed(g, Top(s, base))
  {
    forall u, v | u in Top(s, base) && Calls(g, u, v) ensures v in Top(s, base) {
      if u !in s.rank {
        NoEscape(g, s, base, id, seen, u, v);
      }
    }
  }

  /** The open function that the top of the stack climbs to is `id`. */
  lemma OnlyIdOpen(s: Trace, base: nat, id: FuncId, x: FuncId)
    requires Numbered(s) && Partitioned(s) && base < |s.stack| && s.stack[base] == id
    requires forall z :: z in s.open && z != id ==> z in s.stack[..base]
    requires x in s.open && x in Top(s, base) && x in s.stack
    ensures x == id
  {
    BelowBase(s, base, x);
  }

  /** The open function that `y` reaches. */
  lemma Climb(g: Graph, s: Trace, y: FuncId) returns (x: FuncId)
    requires Numbered(s) && Climbs(g, s) && y in s.stack
    ensures x in s.open && x in s.indices && y in s.indices && s.indices[x] <= s.indices[y] && Reaches(g, y, x)
  {
    assert HasClimb(g, s, y);
    x :| ClimbsTo(g, s, y, x);
  }

  lemma ReachesTop(g: Graph, s: Trace, base: nat, id: FuncId, y: FuncId)
    requires Numbered(s) && Explored(g, s) && Descends(g, s)
    requires base < |s.stack| && s.stack[base] == id && id in s.open && y in s.stack[base..]
    ensures Reaches(g, id, y)
  {
    assert y in s.stack;
    BelowBase(s, base, y);
  }

  lemma TopClimb(g: Graph, s: Trace, base: nat, y: FuncId) returns (x: FuncId)
    requires Numbered(s) && Climbs(g, s) && base <= |s.stack| && Closed(g, Top(s, base)) && y in s.stack[base..]
    ensures x in s.open && x in Top(s, base) && Reaches(g, y, x)
  {
    assert y in s.stack;
    x := Climb(g, s, y);
    assert y in Top(s, base);
    ClosedReaches(g, Top(s, base), y, x);
  }

  /** What is known of the top of the stack when `id` at `base` is to be emitted. */
  ghost predicate Ready(g: Graph, s: Trace, base: nat, id: FuncId) {
    && Numbered(s) && Partitioned(s) && Explored(g, s) && Climbs(g, s) && Descends(g, s)
    && base < |s.stack| && s.stack[base] == id && id in s.open && Closed(g, Top(s, base))
    && forall z :: z in s.open && z != id ==> z in s.stack[..base]
  }

  lemma TopReachesId(g: Graph, s: Trace, base: nat, id: FuncId, y: FuncId)
    requires Ready(g, s, base, id) && y in s.stack[base..]
    ensures Reaches(g, y, id)
  {
    var x := TopClimb(g, s, base, y);
    OnlyIdOpen(s, base, id, x);
  }

  lemma TopPair(g: Graph, s: Trace, base: nat, id: FuncId, x: FuncId, y: FuncId)
    requires Ready(g, s, base, id) && x in s.stack[base..] && y in s.stack[base..]
    ensures Reaches(g, x, y)
  {
    TopReachesId(g, s, base, id, x);
    ReachesTop(g, s, base, id, y);
    ReachesTransitive(g, x, id, y);
  }

  /** The stack from `base` up is strongly connected. */
  ghost predicate TopConnected(g: Graph, s: Trace, base: nat)
    requires base <= |s.stack|
  {
    forall x, y :: x in s.stack[base..] && y in s.stack[base..] ==> Reaches(g, x, y)
  }

  lemma TopIsConnected(g: Graph, s: Trace, base: nat, id: FuncId)
    requires Ready(g, s, base, id)
    ensures TopConnected(g, s, base)
  {
    forall x, y | x in s.stack[base..] && y in s.stack[base..] ensures Reaches(g, x, y) {
      TopPair(g, s, base, id, x, y);
    }
  }

  /** `comp` lists `top` once each. */
  ghost predicate Lists(comp: seq<FuncId>, top: seq<FuncId>) {
    && |comp| > 0 && (forall x :: x in comp <==> x in top)
    && forall a, b :: 0 <= a < b < |comp| ==> comp[a] != comp[b]
  }

  /** Emit the stack above `base` as a component. */
  ghost function Emit(s: Trace, base: nat, id: FuncId, comp: seq<FuncId>, onStack: map<FuncId, bool>): Trace
    requires base <= |s.stack|
  {
    s.(stack := s.stack[..base], components := s.components + [comp], onStack := onStack, open := s.open - {id},
       rank := s.rank + (map x | x in s.stack[base..] :: |s.components|))
  }

  ghost predicate TakenOff(s: Trace, base: nat, onStack: map<FuncId, bool>)
    requires base <= |s.stack|
  {
    forall x :: (x in onStack && onStack[x]) <==> x in s.stack[..base]
  }

  lemma EmitNumbered(s: Trace, base: nat, id: FuncId, comp: seq<FuncId>, onStack: map<FuncId, bool>)
    requires Numbered(s) && base <= |s.stack| && TakenOff(s, base, onStack)
    ensures Numbered(Emit(s, base, id, comp, onStack))
  {
  }

  lemma StackSplits(s: Trace, base: nat)
    requires Numbered(s) && base < |s.stack|
    ensures forall x :: x in s.stack <==> x in s.stack[..base] || x in s.stack[base..]
    ensures forall x :: x in s.stack[..base] ==> x !in s.stack[base..]
  {
    assert s.stack == s.stack[..base] + s.stack[base..];
    forall x | x in s.stack[..base] ensures x !in s.stack[base..] {
      BelowBase(s, base, x);
    }
  }

  lemma EmitPartitioned(s: Trace, base: nat, id: FuncId, comp: seq<FuncId>, onStack: map<FuncId, bool>)
    requires Numbered(s) && Partitioned(s) && base < |s.stack| && Lists(comp, s.stack[base..])
    ensures Partitioned(Emit(s, base, id, comp, onStack))
  {
    StackSplits(s, base);
    EmitRanks(s, base, id, comp, onStack);
    EmitCovers(s, base, id, comp, onStack);
  }

  lemma EmitCovers(s: Trace, base: nat, id: FuncId, comp: seq<FuncId>, onStack: map<FuncId, bool>)
    requires Partitioned(s) && base < |s.stack| && |comp| > 0
    requires forall x :: x in s.stack <==> x in s.stack[..base] || x in s.stack[base..]
    requires forall x :: x in s.stack[..base] ==> x !in s.stack[base..]
    ensures var t := Emit(s, base, id, comp, onStack);
      && (forall x :: x in t.indices <==> x in t.stack || x in t.rank)
      && (forall x :: x in t.stack ==> x !in t.rank)
      && (forall i :: 0 <= i < |t.components| ==> |t.components[i]| > 0)
  {
  }

  lemma EmitRanks(s: Trace, base: nat, id: FuncId, comp: seq<FuncId>, onStack: map<FuncId, bool>)
    requires Partitioned(s) && base < |s.stack| && Lists(comp, s.stack[base..])
    ensures var t := Emit(s, base, id, comp, onStack);
      && (forall x :: x in t.rank ==> t.rank[x] < |t.components|)
      && (forall i, x :: 0 <= i < |t.components| ==> (x in t.components[i] <==> x in t.rank && t.rank[x] == i))
      && (forall i, a, b :: 0 <= i < |t.components| && 0 <= a < b < |t.components[i]| ==>
          t.components[i][a] != t.components[i][b])
  {
    var t := Emit(s, base, id, comp, onStack);
    forall x | x in s.stack[base..] ensures x !in s.rank {
      assert x in s.stack;
    }
    forall i, x | 0 <= i < |t.components| ensures x in t.components[i] <==> x in t.rank && t.rank[x] == i {
      if i < |s.components| {
        assert t.components[i] == s.components[i];
      }
    }
  }

  lemma EmitExplored(g: Graph, s: Trace, base: nat, id: FuncId, seen: set<FuncId>, comp: seq<FuncId>,
      onStack: map<FuncId, bool>)
    requires Explored(g, s) && Underway(g, s, base, id, seen) && AllSeen(g, id, seen)
    ensures Explored(g, Emit(s, base, id, comp, onStack))
  {
  }

  lemma EmitFinished(g: Graph, s: Trace, base: nat, id: FuncId, comp: seq<FuncId>, onStack: map<FuncId, bool>)
    requires Partitioned(s) && Finished(g, s) && base <= |s.stack|
    requires Closed(g, Top(s, base)) && TopConnected(g, s, base)
    ensures Finished(g, Emit(s, base, id, comp, onStack))
  {
    var t := Emit(s, base, id, comp, onStack);
    forall x | x in s.stack[base..] ensures x !in s.rank {
      assert x in s.stack;
    }
    forall x, y | x in t.rank && Calls(g, x, y) ensures y in t.rank && t.rank[y] <= t.rank[x] {
      assert x in Top(s, base) && y in Top(s, base);
    }
  }

  lemma EmitClimbs(g: Graph, s: Trace, base: nat, id: FuncId, comp: seq<FuncId>, onStack: map<FuncId, bool>)
    requires Numbered(s) && Climbs(g, s)
    requires base < |s.stack| && s.stack[base] == id && TakenOff(s, base, onStack)
    ensures var t := Emit(s, base, id, comp, onStack); Numbered(t) && Climbs(g, t)
  {
    var t := Emit(s, base, id, comp, onStack);
    EmitNumbered(s, base, id, comp, onStack);
    forall y | y in t.stack ensures HasClimb(g, t, y) {
      assert y in s.stack;
      BelowBase(s, base, y);
      var x := Climb(g, s, y);
      assert ClimbsTo(g, t, y, x);
    }
  }

  lemma EmitDescends(g: Graph, s: Trace, base: nat, id: FuncId, comp: seq<FuncId>, onStack: map<FuncId, bool>)
    requires Numbered(s) && Explored(g, s) && Descends(g, s) && base <= |s.stack|
    requires var t := Emit(s, base, id, comp, onStack); Numbered(t) && Explored(g, t)
    ensures Descends(g, Emit(s, base, id, comp, onStack))
  {
    assert forall y :: y in s.stack[..base] ==> y in s.stack;
  }

  /** Popping the stack down to `id` emits a strongly connected component whose calls
      lead to itself and earlier components. */
  lemma EmitKeeps(g: Graph, s: Trace, base: nat, id: FuncId, seen: set<FuncId>, comp: seq<FuncId>,
      onStack: map<FuncId, bool>)
    requires Inv(g, s) && Underway(g, s, base, id, seen) && AllSeen(g, id, seen) && s.lowlinks[id] == s.indices[id]
    requires Lists(comp, s.stack[base..]) && TakenOff(s, base, onStack)
    ensures Inv(g, Emit(s, base, id, comp, onStack))
  {
    EmitNumbered(s, base, id, comp, onStack);
    EmitPartitioned(s, base, id, comp, onStack);
    EmitExplored(g, s, base, id, seen, comp, onStack);
    TopClosed(g, s, base, id, seen);
    TopIsConnected(g, s, base, id);
    EmitFinished(g, s, base, id, comp, onStack);
    EmitClimbs(g, s, base, id, comp, onStack);
    EmitDescends(g, s, base, id, comp, onStack);
    EmitRooted(g, s, base, id, comp, onStack);
  }

  lemma EmitRooted(g: Graph, s: Trace, base: nat, id: FuncId, comp: seq<FuncId>, onStack: map<FuncId, bool>)
    requires Rooted(g, s) && base <= |s.stack|
    ensures Rooted(g, Emit(s, base, id, comp, onStack))
  {
  }

  // ----- or staying on the stack -----

  ghost function Close(s: Trace, id: FuncId): Trace {
    s.(open := s.open - {id})
  }

  /** When `id` is closed, it still reaches an open function, further down. */
  lemma ClimbPast(g: Graph, s: Trace, base: nat, id: FuncId, seen: set<FuncId>) returns (x: FuncId)
    requires Numbered(s) && Climbs(g, s) && Underway(g, s, base, id, seen) && s.lowlinks[id] < s.indices[id]
    ensures x in s.open && x in s.indices && s.indices[x] < s.indices[id] && Reaches(g, id, x)
  {
    var z :| z in s.stack && z in s.indices && s.indices[z] == s.lowlinks[id] && Reaches(g, id, z);
    x := Climb(g, s, z);
    ReachesTransitive(g, id, z, x);
  }

  lemma CloseClimbsAt(g: Graph, s: Trace, id: FuncId, x': FuncId, y: FuncId)
    requires Numbered(s) && Climbs(g, s) && y in s.stack && id in s.indices
    requires x' in s.open && x' in s.indices && s.indices[x'] < s.indices[id] && Reaches(g, id, x')
    ensures HasClimb(g, Close(s, id), y)
  {
    var x := Climb(g, s, y);
    if x == id {
      ReachesTransitive(g, y, id, x');
      assert ClimbsTo(g, Close(s, id), y, x');
    } else {
      assert ClimbsTo(g, Close(s, id), y, x);
    }
  }

  lemma CloseClimbs(g: Graph, s: Trace, base: nat, id: FuncId, seen: set<FuncId>)
    requires Numbered(s) && Climbs(g, s) && Underway(g, s, base, id, seen) && s.lowlinks[id] < s.indices[id]
    ensures Numbered(Close(s, id)) && Climbs(g, Close(s, id))
  {
    var x := ClimbPast(g, s, base, id, seen);
    forall y | y in s.stack ensures HasClimb(g, Close(s, id), y) {
      CloseClimbsAt(g, s, id, x, y);
    }
  }

  lemma CloseExplored(g: Graph, s: Trace, base: nat, id: FuncId, seen: set<FuncId>)
    requires Numbered(s) && Explored(g, s) && Descends(g, s) && Underway(g, s, base, id, seen) && AllSeen(g, id, seen)
    ensures Numbered(Close(s, id)) && Explored(g, Close(s, id)) && Descends(g, Close(s, id))
  {
  }

  lemma CloseKeeps(g: Graph, s: Trace, base: nat, id: FuncId, seen: set<FuncId>)
    requires Inv(g, s) && Underway(g, s, base, id, seen) && AllSeen(g, id, seen) && s.lowlinks[id] < s.indices[id]
    ensures Inv(g, Close(s, id))
  {
    CloseClimbs(g, s, base, id, seen);
    CloseExplored(g, s, base, id, seen);
    CloseOthers(g, s, id);
  }

  lemma CloseOthers(g: Graph, s: Trace, id: FuncId)
    requires Partitioned(s) && Finished(g, s) && Rooted(g, s)
    ensures var t := Close(s, id); Partitioned(t) && Finished(g, t) && Rooted(g, t)
  {
  }

  // ----- the visit as a whole -----

  /** `s` is within the visit of `id` that began in `s0`. */
  ghost predicate Within(s0: Trace, s: Trace, id: FuncId) {
    && |s0.stack| < |s.stack| && s0.stack == s.stack[..|s0.stack|]
    && s0.components <= s.components && s.open == s0.open + {id} && id !in s0.open && id !in s0.indices
    && s0.counter <= s.counter
    && (forall x :: x in s0.indices ==>
          && x in s.indices && s.indices[x] == s0.indices[x]
          && x in s0.lowlinks && x in s.lowlinks && s.lowlinks[x] == s0.lowlinks[x])
    && (forall x :: x in s.indices && x !in s0.indices ==> s0.counter <= s.indices[x])
  }

  lemma EmitVisited(g: Graph, s0: Trace, s: Trace, id: FuncId, comp: seq<FuncId>, onStack: map<FuncId, bool>)
    requires Within(s0, s, id) && id in s.indices && id in s.lowlinks && s.lowlinks[id] == s.indices[id]
    ensures var t := Emit(s, |s0.stack|, id, comp, onStack);
      Extends(s0, t) && Visited(g, s0, t, id)
  {
  }

  lemma CloseVisited(g: Graph, s0: Trace, s: Trace, id: FuncId, seen: set<FuncId>)
    requires Numbered(s) && Within(s0, s, id) && Underway(g, s, |s0.stack|, id, seen) && AllSeen(g, id, seen)
    requires s.lowlinks[id] < s.indices[id]
    requires forall x :: x in s0.stack ==> x in s0.indices
    ensures Extends(s0, Close(s, id)) && Visited(g, s0, Close(s, id), id)
  {
    var y :| y in s.stack && y in s.indices && s.indices[y] == s.lowlinks[id] && Reaches(g, id, y);
    BelowBase(s, |s0.stack|, y);
  }

  lemma PushWithin(s: Trace, id: FuncId)
    requires Numbered(s) && id !in s.indices && id !in s.open
    ensures Within(s, Push(s, id), id)
  {
    assert Push(s, id).stack[..|s.stack|] == s.stack;
  }

  lemma WithinSetLow(s0: Trace, s: Trace, id: FuncId, low: nat)
    requires Within(s0, s, id)
    ensures Within(s0, SetLow(s, id, low), id)
  {
  }

  lemma WithinExtends(s0: Trace, s: Trace, t: Trace, id: FuncId)
    requires Within(s0, s, id) && Extends(s, t)
    ensures Within(s0, t, id)
  {
    assert t.stack[..|s0.stack|] == s.stack[..|s0.stack|];
  }

  /** The visit of `id` that began in `s0` has reached `s`, with successors `seen` done. */
  ghost predicate Active(g: Graph, s0: Trace, s: Trace, id: FuncId, seen: set<FuncId>) {
    && Inv(g, s) && |s0.stack| < |s.stack| && Within(s0, s, id) && Underway(g, s, |s0.stack|, id, seen)
    && Numbered(s0)
  }

  /** Names a trace whose folded facts a proof wants to open. */
  ghost predicate Unfold(s: Trace) { true }

  /** `Active`, folded: it opens only for a trace named by `Unfold`, which keeps its many
      clauses out of the proofs that just pass it on. */
  ghost predicate StillActive(g: Graph, s0: Trace, s: Trace, id: FuncId, seen: set<FuncId>) {
    forall r {:trigger Unfold(r)} :: Unfold(r) && r == s ==> Active(g, s0, r, id, seen)
  }

  lemma Begin(g: Graph, s: Trace, id: FuncId)
    requires CanVisit(g, s, id)
    ensures Active(g, s, Push(s, id), id, {})
  {
    PushKeeps(g, s, id);
    PushUnderway(g, s, id);
    PushWithin(s, id);
  }

  lemma FollowOnStack(g: Graph, s0: Trace, s: Trace, r: Trace, id: FuncId, seen: set<FuncId>, succ: FuncId)
    requires Active(g, s0, s, id, seen) && Calls(g, id, succ) && succ in s.stack
    requires succ in s.indices && id in s.lowlinks && r == SetLow(s, id, Min(s.lowlinks[id], s.indices[succ]))
    ensures Active(g, s0, r, id, seen + {succ})
  {
    SeenOnStack(g, s, |s0.stack|, id, seen, succ);
    WithinSetLow(s0, s, id, Min(s.lowlinks[id], s.indices[succ]));
    SetLowKeeps(g, s, id, Min(s.lowlinks[id], s.indices[succ]));
  }

  lemma FollowFinished(g: Graph, s0: Trace, s: Trace, id: FuncId, seen: set<FuncId>, succ: FuncId)
    requires Active(g, s0, s, id, seen) && succ in s.indices && succ !in s.stack
    ensures Active(g, s0, s, id, seen + {succ})
  {
    SeenFinished(g, s, |s0.stack|, id, seen, succ);
  }

  /** What the visit of `id` from `s` leads to. */
  ghost predicate Completes(g: Graph, s: Trace, t: Trace, id: FuncId) {
    Inv(g, t) && Extends(s, t) && Visited(g, s, t, id)
  }

  /** `Completes`, folded. */
  ghost predicate Finishes(g: Graph, s: Trace, t: Trace, id: FuncId) {
    forall r {:trigger Unfold(r)} :: Unfold(r) && r == t ==> Completes(g, s, r, id)
  }

  lemma CanFollow(g: Graph, s0: Trace, s: Trace, id: FuncId, seen: set<FuncId>, succ: FuncId)
    requires StillActive(g, s0, s, id, seen) && Calls(g, id, succ) && succ !in s.indices
    ensures CanVisit(g, s, succ)
  {
    assert Unfold(s);
    SuccessorCanBeVisited(g, s, |s0.stack|, id, seen, succ);
  }

  lemma AfterVisit(g: Graph, s0: Trace, s: Trace, t: Trace, id: FuncId, seen: set<FuncId>, succ: FuncId)
    requires StillActive(g, s0, s, id, seen) && Finishes(g, s, t, succ)
    ensures id in t.lowlinks && succ in t.lowlinks && s.indices.Keys <= t.indices.Keys
  {
    assert Unfold(s) && Unfold(t);
  }

  lemma FollowUnvisited(
    g: Graph, s0: Trace, s: Trace, t: Trace, r: Trace, id: FuncId, seen: set<FuncId>, succ: FuncId)
    requires StillActive(g, s0, s, id, seen) && Calls(g, id, succ) && Finishes(g, s, t, succ)
    requires id in t.lowlinks && succ in t.lowlinks && r == SetLow(t, id, Min(t.lowlinks[id], t.lowlinks[succ]))
    ensures StillActive(g, s0, r, id, seen + {succ})
  {
    assert Unfold(s) && Unfold(t);
    var low := Min(t.lowlinks[id], t.lowlinks[succ]);
    SeenByVisit(g, s, t, |s0.stack|, id, seen, succ);
    WithinExtends(s0, s, t, id);
    WithinSetLow(s0, t, id, low);
    SetLowKeeps(g, t, id, low);
  }

  lemma EndByEmitting(g: Graph, s0: Trace, s: Trace, id: FuncId, seen: set<FuncId>, comp: seq<FuncId>,
      onStack: map<FuncId, bool>)
    requires Active(g, s0, s, id, seen) && AllSeen(g, id, seen) && s.lowlinks[id] == s.indices[id]
    requires Lists(comp, s.stack[|s0.stack|..]) && TakenOff(s, |s0.stack|, onStack)
    ensures Completes(g, s0, Emit(s, |s0.stack|, id, comp, onStack), id)
  {
    EmitKeeps(g, s, |s0.stack|, id, seen, comp, onStack);
    EmitVisited(g, s0, s, id, comp, onStack);
  }

  lemma EndByClosing(g: Graph, s0: Trace, s: Trace, id: FuncId, seen: set<FuncId>)
    requires Active(g, s0, s, id, seen) && AllSeen(g, id, seen) && s.lowlinks[id] != s.indices[id]
    ensures Completes(g, s0, Close(s, id), id)
  {
    CloseKeeps(g, s, |s0.stack|, id, seen);
    CloseVisited(g, s0, s, id, seen);
  }
}

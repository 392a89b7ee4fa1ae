/** The component list Tarjan's algorithm returns, what it means, and recursion. */
module Sccs {
  import opened CallGraph
  import opened Tarjan
  import opened Traversal

  /** The members of the components are the functions reachable from the listed ones. */
  ghost predicate Covers(g: Graph, comps: seq<seq<FuncId>>) {
    forall x {:trigger FromRoots(g, x)} :: FromRoots(g, x) <==> exists i :: 0 <= i < |comps| && x in comps[i]
  }

  /** No component is empty or lists a function twice. */
  ghost predicate ProperlyListed(comps: seq<seq<FuncId>>) {
    && (forall i, a, b :: 0 <= i < |comps| && 0 <= a < b < |comps[i]| ==> comps[i][a] != comps[i][b])
    && (forall i :: 0 <= i < |comps| ==> |comps[i]| > 0)
  }

  /** Two functions share a component iff each reaches the other, and a call never leads
      to a later component. */
  ghost predicate ConnectedAndOrdered(g: Graph, comps: seq<seq<FuncId>>) {
    forall i, j, x, y :: 0 <= i < |comps| && 0 <= j < |comps| && x in comps[i] && y in comps[j] ==>
      (i == j <==> Reaches(g, x, y) && Reaches(g, y, x)) && (Calls(g, x, y) ==> j <= i)
  }

  /** The strongly connected components of the reachable functions, each function in
      exactly one, callees before callers. */
  ghost predicate AreSccs(g: Graph, comps: seq<seq<FuncId>>) {
    Covers(g, comps) && ProperlyListed(comps) && ConnectedAndOrdered(g, comps)
  }

  /** A finished traversal: every listed function visited, no visit open. */
  ghost predicate Complete(g: Graph, s: Trace) {
    Progress(g, s, |g.funcs|)
  }

  lemma StackIsEmpty(g: Graph, s: Trace)
    requires Numbered(s) && Climbs(g, s) && s.open == {}
    ensures s.stack == []
  {
    assert s.stack != [] ==> s.stack[0] in s.stack && HasClimb(g, s, s.stack[0]);
  }

  lemma RanksCover(g: Graph, s: Trace)
    requires Complete(g, s)
    ensures forall x :: x in s.rank <==> FromRoots(g, x)
  {
    StackIsEmpty(g, s);
    assert forall x :: x in s.indices <==> x in s.rank by {
      assert Partitioned(s);
    }
    forall x ensures x in s.rank <==> FromRoots(g, x) {
      if x in s.rank {
        assert Rooted(g, s) && FromRoots(g, x);
      }
      if FromRoots(g, x) {
        RootsAreRanked(g, s, x);
      }
    }
  }

  lemma RootsAreRanked(g: Graph, s: Trace, x: FuncId)
    requires Finished(g, s) && (forall z :: z in s.indices <==> z in s.rank)
    requires forall k :: 0 <= k < |g.funcs| ==> g.funcs[k] in s.indices
    requires FromRoots(g, x)
    ensures x in s.rank
  {
    var r :| r in g.funcs && Reaches(g, r, x);
    assert Closed(g, s.rank.Keys);
    ClosedReaches(g, s.rank.Keys, r, x);
  }

  /** Reachability never leads to a later component. */
  lemma RankDescends(g: Graph, s: Trace, x: FuncId, y: FuncId)
    requires Finished(g, s) && x in s.rank && Reaches(g, x, y)
    ensures y in s.rank && s.rank[y] <= s.rank[x]
  {
    var below := set z | z in s.rank && s.rank[z] <= s.rank[x];
    assert Closed(g, below);
    ClosedReaches(g, below, x, y);
  }

  lemma SameRankIff(g: Graph, s: Trace, x: FuncId, y: FuncId)
    requires Finished(g, s) && x in s.rank && y in s.rank
    ensures s.rank[x] == s.rank[y] <==> Reaches(g, x, y) && Reaches(g, y, x)
  {
    if Reaches(g, x, y) && Reaches(g, y, x) {
      RankDescends(g, s, x, y);
      RankDescends(g, s, y, x);
    }
  }

  lemma MembersAreRanked(g: Graph, s: Trace)
    requires Partitioned(s) && forall x :: x in s.rank <==> FromRoots(g, x)
    ensures Covers(g, s.components) && ProperlyListed(s.components)
  {
    forall x ensures FromRoots(g, x) <==> exists i :: 0 <= i < |s.components| && x in s.components[i] {
      if FromRoots(g, x) {
        assert x in s.components[s.rank[x]];
      }
    }
  }

  lemma ComponentsOrdered(g: Graph, s: Trace)
    requires Partitioned(s) && Finished(g, s)
    ensures ConnectedAndOrdered(g, s.components)
  {
    var comps := s.components;
    forall i, j, x, y | 0 <= i < |comps| && 0 <= j < |comps| && x in comps[i] && y in comps[j]
      ensures (i == j <==> Reaches(g, x, y) && Reaches(g, y, x)) && (Calls(g, x, y) ==> j <= i)
    {
      SameRankIff(g, s, x, y);
    }
  }

  /** A complete traversal has found the components. */
  lemma CompleteIsSccs(g: Graph, s: Trace)
    requires Complete(g, s)
    ensures AreSccs(g, s.components)
  {
    RanksCover(g, s);
    MembersAreRanked(g, s);
    ComponentsOrdered(g, s);
  }

  /** Tarjan's algorithm: for every call graph it terminates with the components of the
      reachable functions, in reverse topological order. */
  method TarjanSccs(g: Graph) returns (components: seq<seq<FuncId>>)
    ensures AreSccs(g, components)
  {
    var state := new TarjanState();
    EmptyInv(g, state.Value());
    for k := 0 to |g.funcs|
      invariant Progress(g, state.Value(), k)
    {
      if g.funcs[k] !in state.indices {
        ghost var s := state.Value();
        RootCanBeVisited(g, s, k);
        state.Visit(g, g.funcs[k], Nodes(g));
        ProgressByVisit(g, s, state.Value(), k);
      }
    }
    CompleteIsSccs(g, state.Value());
    components := state.components;
  }

  /** The first `k` listed functions are visited and no visit is open. */
  ghost predicate Progress(g: Graph, s: Trace, k: nat) {
    k <= |g.funcs| && Inv(g, s) && s.open == {} && forall j :: 0 <= j < k ==> g.funcs[j] in s.indices
  }

  lemma ProgressByVisit(g: Graph, s: Trace, t: Trace, k: nat)
    requires Progress(g, s, k) && k < |g.funcs| && Finishes(g, s, t, g.funcs[k])
    ensures Progress(g, t, k + 1)
  {
    assert Unfold(t);
  }

  lemma EmptyInv(g: Graph, s: Trace)
    requires s == Trace(0, [], map[], map[], map[], [], {}, map[])
    ensures Progress(g, s, 0)
  {
  }

  lemma RootCanBeVisited(g: Graph, s: Trace, k: nat)
    requires Progress(g, s, k) && k < |g.funcs| && g.funcs[k] !in s.indices
    ensures CanVisit(g, s, g.funcs[k])
    ensures g.funcs[k] in Nodes(g) && HoldsCallees(g, Nodes(g))
  {
    CalleesAreNodes(g);
    ReachesSelf(g, g.funcs[k]);
    assert FromRoots(g, g.funcs[k]) by {
      assert g.funcs[k] in g.funcs;
    }
  }

  lemma CalleesAreNodes(g: Graph)
    ensures HoldsCallees(g, Nodes(g))
  {
    forall u, v | Calls(g, u, v) ensures v in Nodes(g) {
      CalledIsNode(g, u, v);
    }
  }

  // ----- recursion -----

  /** `id` lies on a non-empty cycle of direct calls. */
  ghost predicate OnCycle(g: Graph, id: FuncId) {
    exists v :: Calls(g, id, v) && Reaches(g, v, id)
  }

  lemma FirstStep(g: Graph, u: FuncId, w: FuncId) returns (v: FuncId)
    requires Reaches(g, u, w) && u != w
    ensures Calls(g, u, v) && Reaches(g, v, w)
  {
    var p :| IsPath(g, p, u, w);
    v := p[1];
    forall i, j | 0 <= i < |p[1..]| - 1 && j == i + 1 ensures Calls(g, p[1..][i], p[1..][j]) {
      assert Calls(g, p[i + 1], p[j + 1]);
    }
    assert IsPath(g, p[1..], v, w);
  }

  /** Where every callee is listed, a function on a cycle is listed itself. */
  lemma CycleIsListed(g: Graph, id: FuncId)
    requires CalleesListed(g) && OnCycle(g, id)
    ensures FromRoots(g, id)
  {
    var v :| Calls(g, id, v) && Reaches(g, v, id);
    var p :| IsPath(g, p, v, id);
    if |p| > 1 {
      assert Calls(g, p[|p| - 2], p[|p| - 1]);
    }
    ReachesSelf(g, id);
  }

  lemma SharedComponentCycles(g: Graph, comps: seq<seq<FuncId>>, i: nat, id: FuncId)
    requires AreSccs(g, comps) && i < |comps| && id in comps[i] && |comps[i]| > 1
    ensures OnCycle(g, id)
  {
    var y := if comps[i][0] == id then comps[i][1] else comps[i][0];
    assert y in comps[i] && y != id;
    assert Reaches(g, id, y) && Reaches(g, y, id);
    var v := FirstStep(g, id, y);
    ReachesTransitive(g, v, y, id);
  }

  lemma SingletonCycles(g: Graph, comps: seq<seq<FuncId>>, i: nat, id: FuncId)
    requires AreSccs(g, comps) && i < |comps| && id in comps[i] && |comps[i]| == 1 && OnCycle(g, id)
    ensures Calls(g, id, id)
  {
    var v :| Calls(g, id, v) && Reaches(g, v, id);
    ReachesCall(g, id, v);
    assert FromRoots(g, v) by {
      assert FromRoots(g, id);
      var r :| r in g.funcs && Reaches(g, r, id);
      ReachesTransitive(g, r, id, v);
    }
    var j :| 0 <= j < |comps| && v in comps[j];
    assert i == j;
    assert comps[i][0] == id && comps[i][0] == v;
  }

  /** The component of `id` has other members or calls itself: on the components of the
      graph, exactly the reachable functions that lie on a cycle, and if every callee is
      listed, as in a built graph, exactly the functions that lie on a cycle. */
  method IsRecursive(comps: seq<seq<FuncId>>, id: FuncId, g: Graph) returns (r: bool)
    ensures AreSccs(g, comps) ==> (r <==> FromRoots(g, id) && OnCycle(g, id))
    ensures AreSccs(g, comps) && CalleesListed(g) ==> (r <==> OnCycle(g, id))
  {
    if CalleesListed(g) && OnCycle(g, id) {
      CycleIsListed(g, id);
    }
    for i := 0 to |comps|
      invariant forall j :: 0 <= j < i ==> id !in comps[j]
    {
      if id in comps[i] {
        if |comps[i]| > 1 {
          if AreSccs(g, comps) {
            SharedComponentCycles(g, comps, i, id);
          }
          return true;
        }
        r := exists k :: 0 <= k < |EdgesOf(g, id)| && EdgesOf(g, id)[k].callee == Direct(id);
        if AreSccs(g, comps) {
          if r {
            ReachesSelf(g, id);
          }
          if OnCycle(g, id) {
            SingletonCycles(g, comps, i, id);
          }
        }
        return;
      }
    }
    return false;
  }
}

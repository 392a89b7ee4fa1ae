/** The static call graph: functions, call edges, and reachability by direct calls. */
module CallGraph {

  type FuncId = nat

  datatype CalleeRef = Direct(target: FuncId) | Import(name: string, addr: nat) | Indirect

  datatype CallEdge = CallEdge(callee: CalleeRef, callSite: nat)

  datatype Graph = Graph(funcs: seq<FuncId>, edges: map<FuncId, seq<CallEdge>>)

  function EdgesOf(g: Graph, id: FuncId): seq<CallEdge> {
    if id in g.edges then g.edges[id] else []
  }

  predicate Calls(g: Graph, u: FuncId, v: FuncId) {
    exists k :: 0 <= k < |EdgesOf(g, u)| && EdgesOf(g, u)[k].callee == Direct(v)
  }

  /** Direct-call successors, without duplicates, in order of first call. */
  method DirectSuccessors(g: Graph, id: FuncId) returns (out: seq<FuncId>)
    ensures forall v :: v in out <==> Calls(g, id, v)
    ensures forall i, j :: 0 <= i < j < |out| ==> out[i] != out[j]
  {
    out := [];
    var es := EdgesOf(g, id);
    for k := 0 to |es|
      invariant forall v :: v in out <==> exists j :: 0 <= j < k && es[j].callee == Direct(v)
      invariant forall i, j :: 0 <= i < j < |out| ==> out[i] != out[j]
    {
      if es[k].callee.Direct? && es[k].callee.target !in out {
        out := out + [es[k].callee.target];
      }
    }
  }

  // ----- reachability -----

  ghost predicate IsPath(g: Graph, p: seq<FuncId>, u: FuncId, v: FuncId) {
    && |p| > 0 && p[0] == u && p[|p| - 1] == v
    && forall i, j :: 0 <= i < |p| - 1 && j == i + 1 ==> Calls(g, p[i], p[j])
  }

  ghost predicate Reaches(g: Graph, u: FuncId, v: FuncId) {
    exists p :: IsPath(g, p, u, v)
  }

  /** Every callee is a listed function. */
  ghost predicate CalleesListed(g: Graph) {
    forall u, v :: Calls(g, u, v) ==> v in g.funcs
  }

  lemma ReachesSelf(g: Graph, u: FuncId)
    ensures Reaches(g, u, u)
  {
    assert IsPath(g, [u], u, u);
  }

  lemma ReachesTransitive(g: Graph, u: FuncId, v: FuncId, w: FuncId)
    requires Reaches(g, u, v) && Reaches(g, v, w)
    ensures Reaches(g, u, w)
  {
    var p :| IsPath(g, p, u, v);
    var q :| IsPath(g, q, v, w);
    var r := p + q[1..];
    forall i, j | 0 <= i < |r| - 1 && j == i + 1 ensures Calls(g, r[i], r[j]) {
      if i < |p| - 1 {
        assert Calls(g, p[i], p[j]);
      } else {
        var d := |p| - 1;
        assert r[i] == q[i - d] && r[j] == q[j - d];
      }
    }
    assert IsPath(g, r, u, w);
  }

  lemma ReachesCall(g: Graph, u: FuncId, v: FuncId)
    requires Calls(g, u, v)
    ensures Reaches(g, u, v)
  {
    assert IsPath(g, [u, v], u, v);
  }

  ghost predicate Closed(g: Graph, s: set<FuncId>) {
    forall u, v :: u in s && Calls(g, u, v) ==> v in s
  }

  /** A set closed under calls holds everything reachable from its members. */
  lemma ClosedReaches(g: Graph, s: set<FuncId>, u: FuncId, v: FuncId)
    requires Closed(g, s) && u in s && Reaches(g, u, v)
    ensures v in s
  {
    var p :| IsPath(g, p, u, v);
    ClosedPath(g, s, p, u, v);
  }

  lemma {:induction false} ClosedPath(g: Graph, s: set<FuncId>, p: seq<FuncId>, u: FuncId, v: FuncId)
    requires Closed(g, s) && u in s && IsPath(g, p, u, v)
    ensures v in s
    decreases |p|
  {
    if |p| > 1 {
      assert Calls(g, p[0], p[1]);
      forall i, j | 0 <= i < |p[1..]| - 1 && j == i + 1 ensures Calls(g, p[1..][i], p[1..][j]) {
        assert Calls(g, p[i + 1], p[j + 1]);
      }
      ClosedPath(g, s, p[1..], p[1], v);
    }
  }

  // ----- the finite universe of functions -----

  function Targets(es: seq<CallEdge>): set<FuncId> {
    set k | 0 <= k < |es| && es[k].callee.Direct? :: es[k].callee.target
  }

  /** Every function listed or called directly. */
  ghost function Nodes(g: Graph): set<FuncId> {
    (set k | 0 <= k < |g.funcs| :: g.funcs[k]) +
    (set u, v | u in g.edges && v in Targets(g.edges[u]) :: v)
  }

  lemma CalledIsNode(g: Graph, u: FuncId, v: FuncId)
    requires Calls(g, u, v)
    ensures v in Nodes(g)
  {
    var k :| 0 <= k < |EdgesOf(g, u)| && EdgesOf(g, u)[k].callee == Direct(v);
    assert v in Targets(g.edges[u]);
  }
}

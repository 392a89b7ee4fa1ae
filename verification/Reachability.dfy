/** Which functions get a summary when a scope is given: those reachable from it, by bounded
    breadth-first search. */
module Reachability {
  import opened Basics

  /** A program: the known symbols, and the direct call targets of each function. */
  datatype Program = Program(symbols: set<nat>, callees: nat -> seq<nat>)

  predicate CallsSymbol(p: Program, u: nat, v: nat) {
    v in p.symbols && v in p.callees(u)
  }

  // ----- from a scope -----

  /** A chain of direct calls between symbols, from the scope to `v`. */
  ghost predicate IsChain(p: Program, scope: set<nat>, c: seq<nat>, v: nat) {
    && |c| > 0 && c[0] in scope && c[|c| - 1] == v
    && forall i, j :: 0 <= i < |c| - 1 && j == i + 1 ==> CallsSymbol(p, c[i], c[j])
  }

  /** `v` is reached in at most `n` calls. */
  ghost predicate Within(p: Program, scope: set<nat>, n: nat, v: nat) {
    exists c :: IsChain(p, scope, c, v) && |c| <= n + 1
  }

  lemma WithinZero(p: Program, scope: set<nat>, v: nat)
    ensures Within(p, scope, 0, v) <==> v in scope
  {
    if v in scope {
      assert IsChain(p, scope, [v], v);
    }
  }

  lemma WithinMore(p: Program, scope: set<nat>, n: nat, v: nat)
    requires Within(p, scope, n, v)
    ensures Within(p, scope, n + 1, v)
  {
    var c :| IsChain(p, scope, c, v) && |c| <= n + 1;
    assert IsChain(p, scope, c, v) && |c| <= n + 2;
  }

  lemma WithinStep(p: Program, scope: set<nat>, n: nat, u: nat, v: nat)
    requires Within(p, scope, n, u) && CallsSymbol(p, u, v)
    ensures Within(p, scope, n + 1, v)
  {
    var c :| IsChain(p, scope, c, u) && |c| <= n + 1;
    assert IsChain(p, scope, c + [v], v);
  }

  /** The last call of a chain. */
  lemma WithinBack(p: Program, scope: set<nat>, n: nat, v: nat)
    requires Within(p, scope, n + 1, v)
    ensures Within(p, scope, n, v) || exists u :: Within(p, scope, n, u) && CallsSymbol(p, u, v)
  {
    var c :| IsChain(p, scope, c, v) && |c| <= n + 2;
    if |c| > 1 {
      var k := |c| - 2;
      assert CallsSymbol(p, c[k], c[k + 1]);
      assert IsChain(p, scope, c[..k + 1], c[k]);
      assert Within(p, scope, n, c[k]);
    } else {
      assert IsChain(p, scope, c, v) && |c| <= n + 1;
    }
  }

  /** `reached` is what lies within `n` calls. */
  ghost predicate IsLayer(p: Program, scope: set<nat>, n: nat, reached: set<nat>) {
    forall v :: v in reached <==> Within(p, scope, n, v)
  }

  /** All but the frontier has been expanded. */
  ghost predicate Expanded(p: Program, reached: set<nat>, frontier: set<nat>) {
    forall u, v :: u in reached && u !in frontier && CallsSymbol(p, u, v) ==> v in reached
  }

  /** Expanding the frontier of one layer gives the next. */
  lemma NextLayer(p: Program, scope: set<nat>, n: nat, reached: set<nat>, frontier: set<nat>, next: set<nat>)
    requires IsLayer(p, scope, n, reached) && frontier <= reached && Expanded(p, reached, frontier)
    requires forall v :: v in next <==> v !in reached && exists u :: u in frontier && CallsSymbol(p, u, v)
    ensures IsLayer(p, scope, n + 1, reached + next) && Expanded(p, reached + next, next)
  {
    forall v ensures v in reached + next <==> Within(p, scope, n + 1, v) {
      if v in reached {
        WithinMore(p, scope, n, v);
      } else if v in next {
        var u :| u in frontier && CallsSymbol(p, u, v);
        WithinStep(p, scope, n, u, v);
      } else if Within(p, scope, n + 1, v) {
        WithinBack(p, scope, n, v);
      }
    }
  }

  /** Nothing left to expand: the layer is final. */
  lemma {:induction false} LayerIsFinal(p: Program, scope: set<nat>, n: nat, m: nat, reached: set<nat>)
    requires IsLayer(p, scope, n, reached) && Expanded(p, reached, {}) && n <= m
    ensures IsLayer(p, scope, m, reached)
    decreases m - n
  {
    if n < m {
      NextLayer(p, scope, n, reached, {}, {});
      assert reached + {} == reached;
      LayerIsFinal(p, scope, n + 1, m, reached);
    }
  }

  /** The callees of one function that are new symbols. */
  method ExpandOne(p: Program, fa: nat, known: set<nat>) returns (found: set<nat>, order: seq<nat>)
    ensures forall v :: v in found <==> v !in known && CallsSymbol(p, fa, v)
    ensures forall v :: v in order <==> v in found
  {
    found, order := {}, [];
    var cs := p.callees(fa);
    for k := 0 to |cs|
      invariant forall v :: v in found <==> v !in known && v in p.symbols && v in cs[..k]
      invariant forall v :: v in order <==> v in found
    {
      if cs[k] in p.symbols && cs[k] !in known && cs[k] !in found {
        found, order := found + {cs[k]}, order + [cs[k]];
      }
    }
  }

  method ExpandFrontier(p: Program, frontier: seq<nat>, known: set<nat>) returns (found: set<nat>, next: seq<nat>)
    ensures forall v :: v in found <==> v !in known && exists u :: u in frontier && CallsSymbol(p, u, v)
    ensures forall v :: v in next <==> v in found
  {
    found, next := {}, [];
    for k := 0 to |frontier|
      invariant forall v :: v in found <==> v !in known && exists u :: u in frontier[..k] && CallsSymbol(p, u, v)
      invariant forall v :: v in next <==> v in found
    {
      var more, order := ExpandOne(p, frontier[k], known + found);
      assert frontier[..k + 1] == frontier[..k] + [frontier[k]];
      found, next := found + more, next + order;
    }
    assert frontier[..|frontier|] == frontier;
  }

  const MAX_DEPTH := 32

  /** The scope and every symbol within 32 direct calls of it, exactly. */
  method ScopedReachable(p: Program, scope: seq<nat>) returns (reached: set<nat>)
    ensures IsLayer(p, Elements(scope), 32, reached)
  {
    reached := Elements(scope);
    ghost var start := reached;
    var frontier := scope;
    var depth := 0;
    forall v ensures v in reached <==> Within(p, start, 0, v) {
      WithinZero(p, start, v);
    }
    while depth < MAX_DEPTH && frontier != []
      invariant depth <= MAX_DEPTH
      invariant IsLayer(p, start, depth, reached)
      invariant Elements(frontier) <= reached && Expanded(p, reached, Elements(frontier))
      decreases MAX_DEPTH - depth
    {
      var found, next := ExpandFrontier(p, frontier, reached);
      NextLayer(p, start, depth, reached, Elements(frontier), found);
      reached := reached + found;
      frontier := next;
      assert Elements(frontier) == found;
      depth := depth + 1;
    }
    if depth < MAX_DEPTH {
      assert Elements(frontier) == {};
      LayerIsFinal(p, start, depth, MAX_DEPTH, reached);
    }
  }
}

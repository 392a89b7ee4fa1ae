/** The depth-first traversal itself: one object holding the counter, the stack, the
    maps and the component list, updated in place. */
module Traversal {
  import opened Basics
  import opened CallGraph
  import opened Tarjan

  /** A finite set of functions that holds every callee. */
  ghost predicate HoldsCallees(g: Graph, all: set<FuncId>) {
    forall u, v :: Calls(g, u, v) ==> v in all
  }

  // ----- the algorithm -----

  lemma FewerLeft(all: set<FuncId>, before: set<FuncId>, after: set<FuncId>)
    requires before <= after
    ensures all - after == all - before || all - after < all - before
  {
  }

  class TarjanState {
    var indexCounter: nat
    var stack: seq<FuncId>
    var indices: map<FuncId, nat>
    var lowlinks: map<FuncId, nat>
    var onStack: map<FuncId, bool>
    var components: seq<seq<FuncId>>
    ghost var open: set<FuncId>
    ghost var rank: map<FuncId, nat>

    ghost function Value(): Trace
      reads this
    {
      Trace(indexCounter, stack, indices, lowlinks, onStack, components, open, rank)
    }

    constructor ()
      ensures Value() == Trace(0, [], map[], map[], map[], [], {}, map[])
    {
      indexCounter, stack, indices, lowlinks, onStack, components := 0, [], map[], map[], map[], [];
      open, rank := {}, map[];
    }

    method Visit(g: Graph, id: FuncId, ghost all: set<FuncId>)
      requires CanVisit(g, Value(), id) && id in all && HoldsCallees(g, all)
      modifies this
      ensures Finishes(g, old(Value()), Value(), id)
      decreases all - indices.Keys, 0
    {
      ghost var s0 := Value();
      Enter(g, id);
      var succs := DirectSuccessors(g, id);
      FollowAll(g, id, succs, s0, all);
      assert Unfold(Value());
      Conclude(g, id, s0, Elements(succs));
    }

    method FollowAll(g: Graph, id: FuncId, succs: seq<FuncId>, ghost s0: Trace, ghost all: set<FuncId>)
      requires StillActive(g, s0, Value(), id, {}) && HoldsCallees(g, all)
      requires forall v :: v in Elements(succs) ==> Calls(g, id, v)
      modifies this
      ensures StillActive(g, s0, Value(), id, Elements(succs))
      decreases all - indices.Keys, 3
    {
      ghost var seen: set<FuncId> := {};
      for k := 0 to |succs|
        invariant StillActive(g, s0, Value(), id, seen) && seen == Elements(succs[..k])
        invariant old(indices).Keys <= indices.Keys
      {
        FewerLeft(all, old(indices).Keys, indices.Keys);
        Follow(g, id, succs[k], s0, seen, all);
        seen := seen + {succs[k]};
        ElementsGrow(succs, k);
      }
      assert succs[..|succs|] == succs;
    }

    method Enter(g: Graph, id: FuncId)
      requires CanVisit(g, Value(), id)
      modifies this
      ensures Value() == Push(old(Value()), id) && Active(g, old(Value()), Value(), id, {})
    {
      Begin(g, Value(), id);
      Record(id);
    }

    method Record(id: FuncId)
      modifies this
      ensures Value() == Push(old(Value()), id)
    {
      indices, lowlinks := indices[id := indexCounter], lowlinks[id := indexCounter];
      indexCounter := indexCounter + 1;
      stack, onStack := stack + [id], onStack[id := true];
      open := open + {id};
    }

    /** Emit the component of `id`, or leave it on the stack. */
    method Conclude(g: Graph, id: FuncId, ghost s0: Trace, ghost seen: set<FuncId>)
      requires Active(g, s0, Value(), id, seen) && AllSeen(g, id, seen)
      modifies this
      ensures Completes(g, s0, Value(), id)
    {
      if lowlinks[id] == indices[id] {
        ghost var s := Value();
        var component := EmitComponent(id, |s0.stack|);
        EndByEmitting(g, s0, s, id, seen, component, onStack);
      } else {
        EndByClosing(g, s0, Value(), id, seen);
        open := open - {id};
      }
    }

    method EmitComponent(id: FuncId, ghost base: nat) returns (component: seq<FuncId>)
      requires Numbered(Value()) && base < |stack| && stack[base] == id
      modifies this
      ensures Value() == Emit(old(Value()), base, id, component, onStack)
      ensures Lists(component, old(stack)[base..]) && TakenOff(old(Value()), base, onStack)
    {
      ghost var top, n := stack[base..], |components|;
      component := PopComponent(id, base);
      open, rank := open - {id}, rank + (map x | x in top :: n);
      components := components + [component];
    }

    /** One successor of `id`. */
    method Follow(g: Graph, id: FuncId, succ: FuncId, ghost s0: Trace, ghost seen: set<FuncId>, ghost all: set<FuncId>)
      requires StillActive(g, s0, Value(), id, seen) && Calls(g, id, succ) && HoldsCallees(g, all)
      modifies this
      ensures StillActive(g, s0, Value(), id, seen + {succ}) && old(indices).Keys <= indices.Keys
      decreases all - indices.Keys, 2
    {
      if succ !in indices {
        FollowNew(g, id, succ, s0, seen, all);
        return;
      }
      assert Unfold(Value());
      if succ in onStack && onStack[succ] {
        ghost var s := Value();
        Lower(id, indices[succ]);
        FollowOnStack(g, s0, s, Value(), id, seen, succ);
      } else {
        FollowFinished(g, s0, Value(), id, seen, succ);
      }
    }

    method FollowNew(
      g: Graph, id: FuncId, succ: FuncId, ghost s0: Trace, ghost seen: set<FuncId>, ghost all: set<FuncId>)
      requires StillActive(g, s0, Value(), id, seen) && Calls(g, id, succ) && HoldsCallees(g, all) && succ !in indices
      modifies this
      ensures StillActive(g, s0, Value(), id, seen + {succ}) && old(indices).Keys <= indices.Keys
      decreases all - indices.Keys, 1
    {
      ghost var s := Value();
      CanFollow(g, s0, s, id, seen, succ);
      Visit(g, succ, all);
      ghost var t := Value();
      AfterVisit(g, s0, s, t, id, seen, succ);
      Lower(id, lowlinks[succ]);
      FollowUnvisited(g, s0, s, t, Value(), id, seen, succ);
    }

    method Lower(id: FuncId, low: nat)
      requires id in lowlinks
      modifies this`lowlinks
      ensures lowlinks == old(lowlinks)[id := Min(old(lowlinks)[id], low)]
    {
      lowlinks := lowlinks[id := Min(lowlinks[id], low)];
    }

    /** Pop the stack down to and including `id`. */
    method PopComponent(id: FuncId, ghost base: nat) returns (component: seq<FuncId>)
      requires Numbered(Value()) && base < |stack| && stack[base] == id
      modifies this`stack, this`onStack
      ensures stack == old(stack)[..base]
      ensures Lists(component, old(stack)[base..])
      ensures TakenOff(old(Value()), base, onStack)
    {
      component := [];
      ghost var whole := stack;
      while true
        invariant base < |stack| <= |whole| && stack == whole[..|stack|]
        invariant |component| == |whole| - |stack|
        invariant forall k :: 0 <= k < |component| ==> component[k] == whole[|whole| - 1 - k]
        invariant forall x :: (x in onStack && onStack[x]) <==> x in stack
        decreases |stack|
      {
        var w := stack[|stack| - 1];
        TopIsUnique(old(Value()), |stack|);
        stack := stack[..|stack| - 1];
        onStack := onStack[w := false];
        component := component + [w];
        if w == id {
          break;
        }
      }
      ReversedLists(component, whole, base);
    }
  }

  lemma ElementsGrow(xs: seq<FuncId>, k: nat)
    requires k < |xs|
    ensures Elements(xs[..k + 1]) == Elements(xs[..k]) + {xs[k]}
  {
    assert xs[..k + 1] == xs[..k] + [xs[k]];
  }

  /** Dropping the top of a stack prefix removes exactly that function. */
  lemma TopIsUnique(s: Trace, n: nat)
    requires Numbered(s) && 0 < n <= |s.stack|
    ensures forall x :: x in s.stack[..n] <==> x in s.stack[..n - 1] || x == s.stack[n - 1]
    ensures s.stack[n - 1] !in s.stack[..n - 1]
    ensures forall b :: 0 <= b < n ==> (s.stack[b] == s.stack[n - 1] <==> b == n - 1)
  {
    assert s.stack[..n] == s.stack[..n - 1] + [s.stack[n - 1]];
  }

  lemma ReversedLists(component: seq<FuncId>, whole: seq<FuncId>, base: nat)
    requires base < |whole| && |component| == |whole| - base
    requires forall k :: 0 <= k < |component| ==> component[k] == whole[|whole| - 1 - k]
    requires forall i, j :: 0 <= i < j < |whole| ==> whole[i] != whole[j]
    ensures Lists(component, whole[base..])
  {
    forall x | x in whole[base..] ensures x in component {
      var k :| 0 <= k < |whole| - base && whole[base..][k] == x;
      assert component[|whole| - 1 - (base + k)] == x;
    }
  }
}

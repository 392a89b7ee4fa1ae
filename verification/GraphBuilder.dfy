/** Building the call graph from the calls of each function, with address resolution of
    indirect calls given by the caller. */
module GraphBuilder {
  import opened Options
  import opened CallGraph

  /** A call site: a fixed address, or a register-like operand together with what the
      scalar and the table resolver make of it. */
  datatype Target = Fixed(addr: nat) | Computed(scalar: Option<nat>, table: seq<nat>)

  datatype Block = Block(calls: seq<Target>, terminator: Option<Target>)

  type Function = (FuncId, seq<Block>)

  function ClassifyAddr(addr: nat, imports: map<nat, string>, known: set<FuncId>): CalleeRef {
    if addr in imports then Import(imports[addr], addr)
    else if addr in known then Direct(addr)
    else Indirect
  }

  function ClassifyEdges(target: Target, imports: map<nat, string>, known: set<FuncId>, image: bool): (r: seq<CallEdge>)
    ensures |r| > 0 && forall k :: 0 <= k < |r| ==> r[k].callSite == 0
  {
    var resolved := if target.Fixed? then Some(target.addr) else target.scalar;
    if resolved.Some? then [CallEdge(ClassifyAddr(resolved.value, imports, known), 0)]
    else if image && target.table != [] then
      seq(|target.table|, k requires 0 <= k < |target.table| => CallEdge(ClassifyAddr(target.table[k], imports,
          known), 0))
    else [CallEdge(Indirect, 0)]
  }

  // ----- what the graph should hold -----

  function Callees(es: seq<CallEdge>): set<CalleeRef> {
    set k | 0 <= k < |es| :: es[k].callee
  }

  function TargetsOf(b: Block): seq<Target> {
    b.calls + if b.terminator.Some? then [b.terminator.value] else []
  }

  /** Everything the calls of a function may refer to. */
  ghost function Expected(blocks: seq<Block>, imports: map<nat, string>, known: set<FuncId>,
      image: bool): set<CalleeRef> {
    set b: nat, t: nat, c | b < |blocks| && t < |TargetsOf(blocks[b])| &&
      c in Callees(ClassifyEdges(TargetsOf(blocks[b])[t], imports, known, image)) :: c
  }

  ghost predicate NoDuplicateCallee(es: seq<CallEdge>) {
    forall i, j :: 0 <= i < j < |es| ==> es[i].callee != es[j].callee
  }

  /** `t` is a call or the call that ends one of the blocks. */
  ghost predicate HasTarget(blocks: seq<Block>, t: Target) {
    exists b :: 0 <= b < |blocks| && (t in blocks[b].calls || blocks[b].terminator == Some(t))
  }

  /** The call's address, fixed or resolved, is `a`; or no scalar resolves and `a` is in its
      table, which is read from an image. */
  predicate GoesTo(t: Target, image: bool, a: nat) {
    match t
    case Fixed(addr) => addr == a
    case Computed(scalar, table) => scalar == Some(a) || (scalar == None && image && a in table)
  }

  predicate IsUnresolved(t: Target, image: bool) {
    t.Computed? && t.scalar == None && (!image || t.table == [])
  }

  /** Some call of the function goes to `a`. */
  ghost predicate Refers(blocks: seq<Block>, image: bool, a: nat) {
    exists t :: HasTarget(blocks, t) && GoesTo(t, image, a)
  }

  /** Some call of the function is not resolved, or goes to neither an import nor a known
      function. */
  ghost predicate RefersElsewhere(blocks: seq<Block>, imports: map<nat, string>, known: set<FuncId>, image: bool) {
    || (exists t :: HasTarget(blocks, t) && IsUnresolved(t, image))
    || (exists a :: Refers(blocks, image, a) && a !in imports && a !in known)
  }

  ghost predicate RefersTo(blocks: seq<Block>, imports: map<nat, string>, known: set<FuncId>, image: bool,
                           c: CalleeRef)
  {
    match c
    case Direct(v) => v in known && v !in imports && Refers(blocks, image, v)
    case Import(name, a) => a in imports && imports[a] == name && Refers(blocks, image, a)
    case Indirect => RefersElsewhere(blocks, imports, known, image)
  }

  lemma TargetsHave(blocks: seq<Block>, t: Target)
    ensures HasTarget(blocks, t) <==> exists b :: 0 <= b < |blocks| && t in TargetsOf(blocks[b])
  {
    if b :| 0 <= b < |blocks| && (t in blocks[b].calls || blocks[b].terminator == Some(t)) {
      assert t in TargetsOf(blocks[b]);
    }
  }

  /** What one call site is classified as: by the addresses it goes to. */
  ghost predicate IsCallee(t: Target, imports: map<nat, string>, known: set<FuncId>, image: bool, c: CalleeRef) {
    match c
    case Direct(v) => v in known && v !in imports && GoesTo(t, image, v)
    case Import(name, a) => a in imports && imports[a] == name && GoesTo(t, image, a)
    case Indirect => IsUnresolved(t, image) || exists a :: GoesTo(t, image, a) && a !in imports && a !in known
  }

  lemma EdgeIsCallee(t: Target, imports: map<nat, string>, known: set<FuncId>, image: bool, c: CalleeRef)
    requires c in Callees(ClassifyEdges(t, imports, known, image))
    ensures IsCallee(t, imports, known, image, c)
  {
    var es := ClassifyEdges(t, imports, known, image);
    var k :| 0 <= k < |es| && es[k].callee == c;
    if t.Computed? && t.scalar == None && image && t.table != [] {
      assert GoesTo(t, image, t.table[k]);
    } else if !IsUnresolved(t, image) {
      assert GoesTo(t, image, if t.Fixed? then t.addr else t.scalar.value);
    }
  }

  lemma AddrIsEdge(t: Target, imports: map<nat, string>, known: set<FuncId>, image: bool, a: nat)
    requires GoesTo(t, image, a)
    ensures ClassifyAddr(a, imports, known) in Callees(ClassifyEdges(t, imports, known, image))
  {
    var es := ClassifyEdges(t, imports, known, image);
    if t.Computed? && t.scalar == None {
      var k :| 0 <= k < |t.table| && t.table[k] == a;
      assert es[k].callee == ClassifyAddr(a, imports, known);
    } else {
      assert es[0].callee == ClassifyAddr(a, imports, known);
    }
  }

  lemma ClassifiedIff(t: Target, imports: map<nat, string>, known: set<FuncId>, image: bool, c: CalleeRef)
    ensures c in Callees(ClassifyEdges(t, imports, known, image)) <==> IsCallee(t, imports, known, image, c)
  {
    if c in Callees(ClassifyEdges(t, imports, known, image)) {
      EdgeIsCallee(t, imports, known, image, c);
    }
    if IsCallee(t, imports, known, image, c) {
      if c.Direct? {
        AddrIsEdge(t, imports, known, image, c.target);
      } else if c.Import? {
        AddrIsEdge(t, imports, known, image, c.addr);
      } else if IsUnresolved(t, image) {
        assert ClassifyEdges(t, imports, known, image)[0].callee == c;
      } else {
        var a :| GoesTo(t, image, a) && a !in imports && a !in known;
        AddrIsEdge(t, imports, known, image, a);
      }
    }
  }

  /** What the calls of a function may refer to, without the classification. */
  lemma ExpectedIff(blocks: seq<Block>, imports: map<nat, string>, known: set<FuncId>, image: bool, c: CalleeRef)
    ensures c in Expected(blocks, imports, known, image) <==> RefersTo(blocks, imports, known, image, c)
  {
    if c in Expected(blocks, imports, known, image) {
      var b: nat, k: nat :| b < |blocks| && k < |TargetsOf(blocks[b])| &&
        c in Callees(ClassifyEdges(TargetsOf(blocks[b])[k], imports, known, image));
      var t := TargetsOf(blocks[b])[k];
      TargetsHave(blocks, t);
      ClassifiedIff(t, imports, known, image, c);
    }
    if t :| HasTarget(blocks, t) && IsCallee(t, imports, known, image, c) {
      TargetsHave(blocks, t);
      var b :| 0 <= b < |blocks| && t in TargetsOf(blocks[b]);
      var k :| 0 <= k < |TargetsOf(blocks[b])| && TargetsOf(blocks[b])[k] == t;
      ClassifiedIff(TargetsOf(blocks[b])[k], imports, known, image, c);
    }
  }

  /** Direct callees are known functions that are not imports; imports carry the name
      the import map gives their address. */
  ghost predicate CalleeOk(c: CalleeRef, imports: map<nat, string>, known: set<FuncId>) {
    && (c.Direct? ==> c.target in known && c.target !in imports)
    && (c.Import? ==> c.addr in imports && c.name == imports[c.addr])
  }

  ghost predicate DistinctIds(funcs: seq<Function>) {
    forall i, j :: 0 <= i < j < |funcs| ==> funcs[i].0 != funcs[j].0
  }

  lemma ClassifiedOk(target: Target, imports: map<nat, string>, known: set<FuncId>, image: bool, c: CalleeRef)
    requires c in Callees(ClassifyEdges(target, imports, known, image))
    ensures CalleeOk(c, imports, known)
  {
  }

  lemma ExpectedOk(blocks: seq<Block>, imports: map<nat, string>, known: set<FuncId>, image: bool, c: CalleeRef)
    requires c in Expected(blocks, imports, known, image)
    ensures CalleeOk(c, imports, known)
  {
    var b: nat, t: nat :| b < |blocks| && t < |TargetsOf(blocks[b])| &&
      c in Callees(ClassifyEdges(TargetsOf(blocks[b])[t], imports, known, image));
    ClassifiedOk(TargetsOf(blocks[b])[t], imports, known, image, c);
  }

  // ----- building -----

  function AddFunction(g: Graph, id: FuncId): Graph {
    if id in g.funcs then g
    else Graph(g.funcs + [id], if id in g.edges then g.edges else g.edges[id := []])
  }

  function AddEdge(g: Graph, caller: FuncId, e: CallEdge): Graph {
    g.(edges := g.edges[caller := EdgesOf(g, caller) + [e]])
  }

  /** Only the edges of `caller` differ. */
  ghost predicate SameElsewhere(g: Graph, h: Graph, caller: FuncId) {
    g.funcs == h.funcs && forall id :: id != caller ==> EdgesOf(g, id) == EdgesOf(h, id)
  }

  /** `seen` is what this caller's pass has added so far to the edges `es0`. */
  ghost predicate Added(es0: seq<CallEdge>, es: seq<CallEdge>, seen: set<CalleeRef>) {
    && es0 <= es && Callees(es[|es0|..]) == seen && NoDuplicateCallee(es[|es0|..])
  }

  lemma AddOne(es0: seq<CallEdge>, es: seq<CallEdge>, seen: set<CalleeRef>, e: CallEdge)
    requires Added(es0, es, seen) && e.callee !in seen
    ensures Added(es0, es + [e], seen + {e.callee})
  {
    var tail := es[|es0|..];
    assert (es + [e])[|es0|..] == tail + [e];
    assert forall k :: 0 <= k < |tail| ==> tail[k].callee in Callees(tail);
    assert Callees(tail + [e]) == seen + {e.callee} by {
      forall c | c in seen ensures c in Callees(tail + [e]) {
        var k :| 0 <= k < |tail| && tail[k].callee == c;
        assert (tail + [e])[k].callee == c;
      }
      assert (tail + [e])[|tail|].callee == e.callee;
    }
  }

  /** Add the edges of one call site that are new to this caller. */
  method AddNew(g0: Graph, caller: FuncId, es: seq<CallEdge>, seen0: set<CalleeRef>, ghost base: seq<CallEdge>)
    returns (g: Graph, seen: set<CalleeRef>)
    requires Added(base, EdgesOf(g0, caller), seen0)
    ensures SameElsewhere(g0, g, caller)
    ensures seen == seen0 + Callees(es)
    ensures Added(base, EdgesOf(g, caller), seen)
  {
    g, seen := g0, seen0;
    for k := 0 to |es|
      invariant SameElsewhere(g0, g, caller)
      invariant seen == seen0 + Callees(es[..k])
      invariant Added(base, EdgesOf(g, caller), seen)
    {
      if es[k].callee !in seen {
        AddOne(base, EdgesOf(g, caller), seen, es[k]);
        g := AddEdge(g, caller, es[k]);
        seen := seen + {es[k].callee};
      }
      CalleesGrow(es, k);
    }
    assert es[..|es|] == es;
  }

  lemma CalleesGrow(es: seq<CallEdge>, k: nat)
    requires k < |es|
    ensures Callees(es[..k + 1]) == Callees(es[..k]) + {es[k].callee}
  {
    var a, b := es[..k], es[..k + 1];
    forall c | c in Callees(a) ensures c in Callees(b) {
      var i :| 0 <= i < |a| && a[i].callee == c;
      assert b[i].callee == c;
    }
    assert b[k].callee == es[k].callee;
  }

  ghost function FromTargets(ts: seq<Target>, imports: map<nat, string>, known: set<FuncId>,
      image: bool): set<CalleeRef> {
    set t: nat, c | t < |ts| && c in Callees(ClassifyEdges(ts[t], imports, known, image)) :: c
  }

  lemma FromTargetsGrow(ts: seq<Target>, k: nat, imports: map<nat, string>, known: set<FuncId>, image: bool)
    requires k < |ts|
    ensures FromTargets(ts[..k + 1], imports, known, image)
         == FromTargets(ts[..k], imports, known, image) + Callees(ClassifyEdges(ts[k], imports, known, image))
  {
    var a, b := ts[..k], ts[..k + 1];
    forall c | c in FromTargets(a, imports, known, image) ensures c in FromTargets(b, imports, known, image) {
      var t: nat :| t < |a| && c in Callees(ClassifyEdges(a[t], imports, known, image));
      assert b[t] == a[t];
    }
    assert b[k] == ts[k];
  }

  method AddBlock(g0: Graph, caller: FuncId, block: Block, imports: map<nat, string>, known: set<FuncId>, image: bool,
                  seen0: set<CalleeRef>, ghost base: seq<CallEdge>)
    returns (g: Graph, seen: set<CalleeRef>)
    requires Added(base, EdgesOf(g0, caller), seen0)
    ensures SameElsewhere(g0, g, caller)
    ensures seen == seen0 + FromTargets(TargetsOf(block), imports, known, image)
    ensures Added(base, EdgesOf(g, caller), seen)
  {
    g, seen := g0, seen0;
    var ts := TargetsOf(block);
    for k := 0 to |ts|
      invariant SameElsewhere(g0, g, caller)
      invariant seen == seen0 + FromTargets(ts[..k], imports, known, image)
      invariant Added(base, EdgesOf(g, caller), seen)
    {
      ghost var prior := FromTargets(ts[..k], imports, known, image);
      var es := ClassifyEdges(ts[k], imports, known, image);
      g, seen := AddNew(g, caller, es, seen, base);
      assert seen == seen0 + (prior + Callees(es));
      FromTargetsGrow(ts, k, imports, known, image);
    }
    assert ts[..|ts|] == ts;
  }

  lemma ExpectedGrow(blocks: seq<Block>, k: nat, imports: map<nat, string>, known: set<FuncId>, image: bool)
    requires k < |blocks|
    ensures Expected(blocks[..k + 1], imports, known, image)
         == Expected(blocks[..k], imports, known, image) + FromTargets(TargetsOf(blocks[k]), imports, known, image)
  {
    var a, b := blocks[..k], blocks[..k + 1];
    forall c | c in Expected(a, imports, known, image) ensures c in Expected(b, imports, known, image) {
      var i: nat, t: nat :| i < |a| && t < |TargetsOf(a[i])| &&
        c in Callees(ClassifyEdges(TargetsOf(a[i])[t], imports, known, image));
      assert b[i] == a[i];
    }
    assert b[k] == blocks[k];
  }

  method AddCalls(g0: Graph, caller: FuncId, blocks: seq<Block>, imports: map<nat, string>, known: set<FuncId>,
      image: bool)
    returns (g: Graph)
    ensures SameElsewhere(g0, g, caller)
    ensures Added(EdgesOf(g0, caller), EdgesOf(g, caller), Expected(blocks, imports, known, image))
  {
    g := g0;
    var seen: set<CalleeRef> := {};
    ghost var base := EdgesOf(g0, caller);
    assert base[|base|..] == [];
    for k := 0 to |blocks|
      invariant SameElsewhere(g0, g, caller)
      invariant seen == Expected(blocks[..k], imports, known, image)
      invariant Added(base, EdgesOf(g, caller), seen)
    {
      ExpectedGrow(blocks, k, imports, known, image);
      g, seen := AddBlock(g, caller, blocks[k], imports, known, image, seen, base);
    }
    assert blocks[..|blocks|] == blocks;
  }

  function Ids(funcs: seq<Function>): set<FuncId> {
    set k | 0 <= k < |funcs| :: funcs[k].0
  }

  /** The edges of the first `n` functions are complete, the others have none. */
  ghost predicate BuiltUpTo(g: Graph, funcs: seq<Function>, n: nat, imports: map<nat, string>, image: bool) {
    forall k :: 0 <= k < |funcs| ==>
      if k < n then Added([], EdgesOf(g, funcs[k].0), Expected(funcs[k].1, imports, Ids(funcs), image))
      else EdgesOf(g, funcs[k].0) == []
  }

  ghost predicate AllCalleesOk(g: Graph, imports: map<nat, string>, known: set<FuncId>) {
    forall id, c :: c in Callees(EdgesOf(g, id)) ==> CalleeOk(c, imports, known)
  }

  lemma AddedOk(g: Graph, h: Graph, caller: FuncId, blocks: seq<Block>, imports: map<nat, string>,
      known: set<FuncId>, image: bool)
    requires AllCalleesOk(g, imports, known) && SameElsewhere(g, h, caller)
    requires Added(EdgesOf(g, caller), EdgesOf(h, caller), Expected(blocks, imports, known, image))
    ensures AllCalleesOk(h, imports, known)
  {
    forall id, c | c in Callees(EdgesOf(h, id)) ensures CalleeOk(c, imports, known) {
      if id == caller {
        var es0, es := EdgesOf(g, id), EdgesOf(h, id);
        var k :| 0 <= k < |es| && es[k].callee == c;
        if k < |es0| {
          assert es0[k].callee == c;
        } else {
          assert es[|es0|..][k - |es0|].callee == c;
          ExpectedOk(blocks, imports, known, image, c);
        }
      }
    }
  }

  lemma AreListed(g: Graph, imports: map<nat, string>, known: set<FuncId>)
    requires AllCalleesOk(g, imports, known) && forall id :: id in known ==> id in g.funcs
    ensures CalleesListed(g)
  {
    forall u, v | Calls(g, u, v) ensures v in g.funcs {
      var es := EdgesOf(g, u);
      var k :| 0 <= k < |es| && es[k].callee == Direct(v);
      assert es[k].callee in Callees(es);
      assert CalleeOk(es[k].callee, imports, known);
    }
  }

  ghost predicate HasCallee(g: Graph, u: FuncId, c: CalleeRef) {
    exists k :: 0 <= k < |EdgesOf(g, u)| && EdgesOf(g, u)[k].callee == c
  }

  ghost predicate IsId(funcs: seq<Function>, v: FuncId) {
    exists k :: 0 <= k < |funcs| && funcs[k].0 == v
  }

  /** Function `f` calls exactly the functions and imports, by address, that its calls go
      to, and has an indirect callee exactly if a call goes elsewhere. */
  ghost predicate IsBuilt(g: Graph, funcs: seq<Function>, f: Function, imports: map<nat, string>, image: bool) {
    && (forall v :: Calls(g, f.0, v) <==> IsId(funcs, v) && v !in imports && Refers(f.1, image, v))
    && (forall name, a :: HasCallee(g, f.0, Import(name, a)) <==>
          a in imports && imports[a] == name && Refers(f.1, image, a))
    && (HasCallee(g, f.0, Indirect) <==>
          || (exists t :: HasTarget(f.1, t) && IsUnresolved(t, image))
          || (exists a :: Refers(f.1, image, a) && a !in imports && !IsId(funcs, a)))
    && NoDuplicateCallee(EdgesOf(g, f.0))
  }

  lemma CompleteIsBuilt(g: Graph, funcs: seq<Function>, k: nat, imports: map<nat, string>, image: bool)
    requires k < |funcs| && BuiltUpTo(g, funcs, |funcs|, imports, image)
    ensures IsBuilt(g, funcs, funcs[k], imports, image)
  {
    var f, known := funcs[k], Ids(funcs);
    assert EdgesOf(g, f.0)[0..] == EdgesOf(g, f.0);
    forall c ensures HasCallee(g, f.0, c) <==> RefersTo(f.1, imports, known, image, c) {
      ExpectedIff(f.1, imports, known, image, c);
    }
    forall v ensures Calls(g, f.0, v) <==> RefersTo(f.1, imports, known, image, Direct(v)) {
      assert Calls(g, f.0, v) <==> HasCallee(g, f.0, Direct(v));
    }
    forall name, a
      ensures HasCallee(g, f.0, Import(name, a)) <==> RefersTo(f.1, imports, known, image, Import(name, a))
    {
    }
    assert forall v :: v in known <==> IsId(funcs, v);
  }

  /** Every edge of the result is classified correctly; if the functions have distinct
      ids, each has exactly the callees of its calls, without duplicates. */
  method BuildCallGraph(funcs: seq<Function>, imports: map<nat, string>, image: bool) returns (g: Graph)
    ensures forall id :: id in g.funcs <==> IsId(funcs, id)
    ensures AllCalleesOk(g, imports, Ids(funcs)) && CalleesListed(g)
    ensures DistinctIds(funcs) ==> forall k :: 0 <= k < |funcs| ==> IsBuilt(g, funcs, funcs[k], imports, image)
  {
    g := AddFunctions(funcs);
    for n := 0 to |funcs|
      invariant forall id :: id in g.funcs <==> id in Ids(funcs)
      invariant AllCalleesOk(g, imports, Ids(funcs))
      invariant DistinctIds(funcs) ==> BuiltUpTo(g, funcs, n, imports, image)
    {
      ghost var g0 := g;
      g := AddCalls(g, funcs[n].0, funcs[n].1, imports, Ids(funcs), image);
      AddedOk(g0, g, funcs[n].0, funcs[n].1, imports, Ids(funcs), image);
      if DistinctIds(funcs) {
        assert EdgesOf(g0, funcs[n].0) == [];
      }
    }
    AreListed(g, imports, Ids(funcs));
    if DistinctIds(funcs) {
      forall k | 0 <= k < |funcs| ensures IsBuilt(g, funcs, funcs[k], imports, image) {
        CompleteIsBuilt(g, funcs, k, imports, image);
      }
    }
  }

  method AddFunctions(funcs: seq<Function>) returns (g: Graph)
    ensures forall id :: id in g.funcs <==> id in Ids(funcs)
    ensures forall id :: EdgesOf(g, id) == []
  {
    g := Graph([], map[]);
    for n := 0 to |funcs|
      invariant forall id :: id in g.funcs <==> exists k :: 0 <= k < n && funcs[k].0 == id
      invariant forall id :: id in g.edges ==> g.edges[id] == []
    {
      g := AddFunction(g, funcs[n].0);
    }
  }
}

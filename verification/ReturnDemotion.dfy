/** Whole-program validation of inferred return values: a function marked as returning a
    stale value is made void when no caller reads its result. */
module ReturnDemotion {
  import opened Options

  type VarId = nat

  datatype Stmt = Assign(id: VarId) | Store(addr: VarId, val: VarId) | CallStmt(args: seq<VarId>) | OtherStmt

  datatype CallTarget = Direct(callee: nat) | Indirect

  datatype Terminator =
    | Call(target: CallTarget, args: seq<VarId>, out: Option<VarId>)
    | CBranch(cond: VarId)
    | IndirectJump(value: VarId)
    | Return(result: Option<VarId>)
    | OtherTerminator

  datatype Block = Block(stmts: seq<Stmt>, terminator: Terminator)

  datatype Diagnostic = StaleReturn(demotedAt: Option<nat>) | OtherDiagnostic

  /** A function in SSA form; `refs` are the variables each definition refers to. */
  datatype Ssa = Ssa(blocks: seq<Block>, refs: map<VarId, set<VarId>>, diagnostics: seq<Diagnostic>)

  type Function = (nat, Ssa)

  // ----- who reads a call's result -----

  predicate StmtReads(ssa: Ssa, s: Stmt, v: VarId) {
    || (s.Assign? && s.id in ssa.refs && v in ssa.refs[s.id] && v != s.id)
    || (s.Store? && v in {s.addr, s.val})
    || (s.CallStmt? && v in s.args)
  }

  /** A forwarding return is no evidence for its own inference and does not count. */
  predicate TerminatorReads(t: Terminator, v: VarId) {
    (t.Call? && v in t.args) || t == CBranch(v) || t == IndirectJump(v)
  }

  predicate BlockReads(ssa: Ssa, b: Block, v: VarId) {
    TerminatorReads(b.terminator, v) || exists k :: 0 <= k < |b.stmts| && StmtReads(ssa, b.stmts[k], v)
  }

  predicate SsaReads(ssa: Ssa, v: VarId) {
    exists k :: 0 <= k < |ssa.blocks| && BlockReads(ssa, ssa.blocks[k], v)
  }

  predicate IsDirectCall(t: Terminator) {
    t.Call? && t.target.Direct?
  }

  function UseOf(ssa: Ssa, t: Terminator): (nat, bool)
    requires IsDirectCall(t)
  {
    (t.target.callee, t.out.Some? && SsaReads(ssa, t.out.value))
  }

  /** The direct calls of the first `n` blocks, each with whether its result is read. */
  function UsesUpTo(ssa: Ssa, n: nat): seq<(nat, bool)>
    requires n <= |ssa.blocks|
  {
    if n == 0 then []
    else
      var t := ssa.blocks[n - 1].terminator;
      UsesUpTo(ssa, n - 1) + (if IsDirectCall(t) then [UseOf(ssa, t)] else [])
  }

  method ReadsInStatement(ssa: Ssa, s: Stmt, v: VarId) returns (b: bool)
    ensures b == StmtReads(ssa, s, v)
  {
    match s {
      case Assign(id) => b := id != v && id in ssa.refs && v in ssa.refs[id];
      case Store(addr, val) => b := addr == v || val == v;
      case CallStmt(args) => b := v in args;
      case OtherStmt => b := false;
    }
  }

  method ReadsAtEnd(t: Terminator, v: VarId) returns (b: bool)
    ensures b == TerminatorReads(t, v)
  {
    match t {
      case Call(_, args, _) => b := v in args;
      case CBranch(cond) => b := cond == v;
      case IndirectJump(value) => b := value == v;
      case Return(_) => b := false;
      case OtherTerminator => b := false;
    }
  }

  method ReadsResult(ssa: Ssa, v: VarId) returns (uses: bool)
    ensures uses == SsaReads(ssa, v)
  {
    uses := false;
    for k := 0 to |ssa.blocks|
      invariant uses <==> exists j :: 0 <= j < k && BlockReads(ssa, ssa.blocks[j], v)
    {
      var b := ssa.blocks[k];
      var found := ReadsAtEnd(b.terminator, v);
      for s := 0 to |b.stmts|
        invariant found <==> TerminatorReads(b.terminator, v) || exists j :: 0 <= j < s && StmtReads(ssa, b.stmts[j], v)
      {
        var read := ReadsInStatement(ssa, b.stmts[s], v);
        found := found || read;
      }
      uses := uses || found;
      if uses {
        assert BlockReads(ssa, ssa.blocks[k], v);
        return true;
      }
    }
  }

  method CollectCallsiteReturnUses(ssa: Ssa) returns (out: seq<(nat, bool)>)
    ensures out == UsesUpTo(ssa, |ssa.blocks|)
  {
    out := [];
    for n := 0 to |ssa.blocks|
      invariant out == UsesUpTo(ssa, n)
    {
      var t := ssa.blocks[n].terminator;
      if t.Call? && t.target != Indirect {
        var uses := false;
        if t.out.Some? {
          uses := ReadsResult(ssa, t.out.value);
        }
        out := out + [(t.target.callee, uses)];
      }
    }
  }

  /** Block `b` ends in a direct call to `addr`, and its result is read somewhere. */
  ghost predicate IsReadCall(ssa: Ssa, b: Block, addr: nat) {
    exists args, v :: b.terminator == Call(Direct(addr), args, Some(v)) && SsaReads(ssa, v)
  }

  lemma {:induction false} UsesAre(ssa: Ssa, n: nat, addr: nat)
    requires n <= |ssa.blocks|
    ensures (addr, true) in UsesUpTo(ssa, n) <==> exists k :: 0 <= k < n && IsReadCall(ssa, ssa.blocks[k], addr)
  {
    if n > 0 {
      UsesAre(ssa, n - 1, addr);
      var t := ssa.blocks[n - 1].terminator;
      if t.Call? && t.target == Direct(addr) && t.out.Some? {
        assert t == Call(Direct(addr), t.args, Some(t.out.value));
      }
    }
  }

  // ----- which functions are demoted -----

  /** Some supplied function reads the result of a direct call to `addr`. */
  ghost predicate HasReader(funcs: seq<Function>, addr: nat) {
    exists k :: 0 <= k < |funcs| && (addr, true) in UsesUpTo(funcs[k].1, |funcs[k].1.blocks|)
  }

  predicate IsStale(ssa: Ssa) {
    exists k :: 0 <= k < |ssa.diagnostics| && ssa.diagnostics[k].StaleReturn?
  }

  predicate ReturnsValue(b: Block) {
    b.terminator.Return? && b.terminator.result.Some?
  }

  predicate HasValueReturn(ssa: Ssa) {
    exists k :: 0 <= k < |ssa.blocks| && ReturnsValue(ssa.blocks[k])
  }

  function VoidBlock(b: Block): Block {
    if ReturnsValue(b) then b.(terminator := Return(None)) else b
  }

  function Demote(addr: nat, ssa: Ssa): Ssa {
    Ssa(seq(|ssa.blocks|, k requires 0 <= k < |ssa.blocks| => VoidBlock(ssa.blocks[k])), ssa.refs,
        ssa.diagnostics + [StaleReturn(Some(addr))])
  }

  /** Marked stale, returning a value, and read by nobody. */
  ghost predicate Unread(funcs: seq<Function>, f: Function) {
    IsStale(f.1) && HasValueReturn(f.1) && !HasReader(funcs, f.0)
  }

  ghost function Validated(funcs: seq<Function>, f: Function): Function {
    if Unread(funcs, f) then (f.0, Demote(f.0, f.1)) else f
  }

  ghost function CountUnread(funcs: seq<Function>, n: nat): nat
    requires n <= |funcs|
  {
    if n == 0 then 0 else CountUnread(funcs, n - 1) + (if Unread(funcs, funcs[n - 1]) then 1 else 0)
  }

  /** A function has a reader if and only if some block of some supplied function ends in a
      direct call to it whose result is read in that function. */
  lemma ReaderIff(funcs: seq<Function>, addr: nat)
    ensures HasReader(funcs, addr) <==>
      exists k, b :: 0 <= k < |funcs| && b in funcs[k].1.blocks && IsReadCall(funcs[k].1, b, addr)
  {
    if k :| 0 <= k < |funcs| && (addr, true) in UsesUpTo(funcs[k].1, |funcs[k].1.blocks|) {
      UsesAre(funcs[k].1, |funcs[k].1.blocks|, addr);
      var j :| 0 <= j < |funcs[k].1.blocks| && IsReadCall(funcs[k].1, funcs[k].1.blocks[j], addr);
      assert funcs[k].1.blocks[j] in funcs[k].1.blocks;
    }
    if k, b :| 0 <= k < |funcs| && b in funcs[k].1.blocks && IsReadCall(funcs[k].1, b, addr) {
      UsesAre(funcs[k].1, |funcs[k].1.blocks|, addr);
    }
  }

  // ----- the pass -----

  ghost predicate Tracks(readers: map<nat, bool>, funcs: seq<Function>, n: nat)
    requires n <= |funcs|
  {
    forall a: nat :: (a in readers && readers[a]) <==> HasReader(funcs[..n], a)
  }

  method CollectReaders(funcs: seq<Function>) returns (readers: map<nat, bool>)
    ensures Tracks(readers, funcs, |funcs|)
  {
    readers := map[];
    for n := 0 to |funcs|
      invariant Tracks(readers, funcs, n)
    {
      var uses := CollectCallsiteReturnUses(funcs[n].1);
      ghost var before := readers;
      for k := 0 to |uses|
        invariant forall a: nat :: (a in readers && readers[a]) <==>
            (a in before && before[a]) || (a, true) in uses[..k]
      {
        var (callee, used) := uses[k];
        readers := readers[callee := used || (callee in readers && readers[callee])];
      }
      assert uses[..|uses|] == uses;
      OneMoreFunction(funcs, n);
    }
  }

  lemma OneMoreFunction(funcs: seq<Function>, n: nat)
    requires n < |funcs|
    ensures forall a: nat :: HasReader(funcs[..n + 1], a) <==>
      HasReader(funcs[..n], a) || (a, true) in UsesUpTo(funcs[n].1, |funcs[n].1.blocks|)
  {
    forall a: nat ensures HasReader(funcs[..n + 1], a) <==>
      HasReader(funcs[..n], a) || (a, true) in UsesUpTo(funcs[n].1, |funcs[n].1.blocks|)
    {
      var p, q := funcs[..n], funcs[..n + 1];
      assert q[n] == funcs[n];
      assert forall k :: 0 <= k < n ==> p[k] == q[k];
    }
  }

  /** Void every value return, remembering whether there was one. */
  method VoidReturns(blocks0: seq<Block>) returns (blocks: seq<Block>, changed: bool)
    ensures blocks == seq(|blocks0|, k requires 0 <= k < |blocks0| => VoidBlock(blocks0[k]))
    ensures changed <==> exists k :: 0 <= k < |blocks0| && ReturnsValue(blocks0[k])
  {
    blocks, changed := blocks0, false;
    for n := 0 to |blocks|
      invariant |blocks| == |blocks0|
      invariant forall k :: 0 <= k < n ==> blocks[k] == VoidBlock(blocks0[k])
      invariant forall k :: n <= k < |blocks0| ==> blocks[k] == blocks0[k]
      invariant changed <==> exists k :: 0 <= k < n && ReturnsValue(blocks0[k])
    {
      if blocks[n].terminator.Return? && blocks[n].terminator.result != None {
        blocks := blocks[n := blocks[n].(terminator := Return(None))];
        changed := true;
      }
    }
  }

  method IsMarkedStale(diagnostics: seq<Diagnostic>) returns (stale: bool)
    ensures stale <==> exists k :: 0 <= k < |diagnostics| && diagnostics[k].StaleReturn?
  {
    for k := 0 to |diagnostics|
      invariant forall j :: 0 <= j < k ==> !diagnostics[j].StaleReturn?
    {
      if diagnostics[k] != OtherDiagnostic {
        return true;
      }
    }
    return false;
  }

  /** Demote a function that is marked stale and returns a value, unless it has a reader. */
  method DemoteOne(addr: nat, ssa: Ssa, read: bool) returns (r: Ssa, changed: bool)
    ensures changed <==> IsStale(ssa) && HasValueReturn(ssa) && !read
    ensures r == if changed then Demote(addr, ssa) else ssa
  {
    var stale := IsMarkedStale(ssa.diagnostics);
    if !stale || read {
      return ssa, false;
    }
    var blocks;
    blocks, changed := VoidReturns(ssa.blocks);
    if changed {
      r := Ssa(blocks, ssa.refs, ssa.diagnostics + [StaleReturn(Some(addr))]);
      assert r.blocks == Demote(addr, ssa).blocks;
    } else {
      r := ssa;
    }
  }

  /** Exactly the unread functions are demoted, in place, and counted. */
  method ValidateReturns(input: seq<Function>, assumeExternalCallers: bool) returns (funcs: seq<Function>, demoted: nat)
    ensures |funcs| == |input|
    ensures assumeExternalCallers ==> funcs == input && demoted == 0
    ensures !assumeExternalCallers ==> forall k :: 0 <= k < |input| ==> funcs[k] == Validated(input, input[k])
    ensures !assumeExternalCallers ==> demoted == CountUnread(input, |input|)
  {
    funcs, demoted := input, 0;
    if assumeExternalCallers {
      return;
    }
    var readers := CollectReaders(input);
    assert input[..|input|] == input;
    for n := 0 to |funcs|
      invariant |funcs| == |input|
      invariant forall k :: 0 <= k < n ==> funcs[k] == Validated(input, input[k])
      invariant forall k :: n <= k < |input| ==> funcs[k] == input[k]
      invariant demoted == CountUnread(input, n)
    {
      var (addr, ssa) := funcs[n];
      assert HasReader(input, addr) <==> addr in readers && readers[addr];
      var judged, changed := DemoteOne(addr, ssa, addr in readers && readers[addr]);
      if changed {
        demoted := demoted + 1;
        funcs := funcs[n := (addr, judged)];
      }
    }
  }

  // ----- demotion does not change what callers read -----

  lemma DemotedReadsSame(addr: nat, ssa: Ssa, v: VarId)
    ensures SsaReads(Demote(addr, ssa), v) <==> SsaReads(ssa, v)
  {
    var d := Demote(addr, ssa);
    forall k | 0 <= k < |ssa.blocks| ensures BlockReads(d, d.blocks[k], v) <==> BlockReads(ssa, ssa.blocks[k], v) {
      assert d.blocks[k].stmts == ssa.blocks[k].stmts;
      assert forall s :: StmtReads(d, s, v) <==> StmtReads(ssa, s, v);
    }
  }

  lemma {:induction false} DemotedUsesSame(addr: nat, ssa: Ssa, n: nat)
    requires n <= |ssa.blocks|
    ensures UsesUpTo(Demote(addr, ssa), n) == UsesUpTo(ssa, n)
  {
    if n > 0 {
      DemotedUsesSame(addr, ssa, n - 1);
      var t := ssa.blocks[n - 1].terminator;
      if IsDirectCall(t) && t.out.Some? {
        DemotedReadsSame(addr, ssa, t.out.value);
      }
    }
  }

  ghost function ValidatedAll(funcs: seq<Function>): (r: seq<Function>)
    ensures |r| == |funcs| && forall k :: 0 <= k < |funcs| ==> r[k] == Validated(funcs, funcs[k])
  {
    seq(|funcs|, k requires 0 <= k < |funcs| => Validated(funcs, funcs[k]))
  }

  lemma ReadersUnchanged(funcs: seq<Function>, addr: nat)
    ensures HasReader(ValidatedAll(funcs), addr) <==> HasReader(funcs, addr)
  {
    var r := ValidatedAll(funcs);
    forall k | 0 <= k < |funcs|
      ensures UsesUpTo(r[k].1, |r[k].1.blocks|) == UsesUpTo(funcs[k].1, |funcs[k].1.blocks|)
    {
      DemotedUsesSame(funcs[k].0, funcs[k].1, |funcs[k].1.blocks|);
    }
  }

  lemma DemotedReturnsNothing(addr: nat, ssa: Ssa)
    ensures !HasValueReturn(Demote(addr, ssa))
  {
  }

  /** A second pass changes nothing and demotes no function. */
  lemma SecondRunIsIdle(funcs: seq<Function>)
    ensures ValidatedAll(ValidatedAll(funcs)) == ValidatedAll(funcs)
    ensures CountUnread(ValidatedAll(funcs), |funcs|) == 0
  {
    var r := ValidatedAll(funcs);
    forall k | 0 <= k < |r| ensures !Unread(r, r[k]) {
      ReadersUnchanged(funcs, funcs[k].0);
      if Unread(funcs, funcs[k]) {
        DemotedReturnsNothing(funcs[k].0, funcs[k].1);
      }
    }
    CountNone(r, |r|);
  }

  lemma {:induction false} CountNone(funcs: seq<Function>, n: nat)
    requires n <= |funcs| && forall k :: 0 <= k < |funcs| ==> !Unread(funcs, funcs[k])
    ensures CountUnread(funcs, n) == 0
  {
    if n > 0 {
      CountNone(funcs, n - 1);
    }
  }

  // ----- the order of the functions does not matter -----

  /** The functions of `s`, each judged by the callers in `all`. */
  ghost function Judge(all: seq<Function>, s: seq<Function>): multiset<Function> {
    if s == [] then multiset{} else multiset{Validated(all, s[0])} + Judge(all, s[1..])
  }

  ghost function Demotions(all: seq<Function>, s: seq<Function>): nat {
    if s == [] then 0 else (if Unread(all, s[0]) then 1 else 0) + Demotions(all, s[1..])
  }

  lemma {:induction false} JudgeConcat(all: seq<Function>, s: seq<Function>, t: seq<Function>)
    ensures Judge(all, s + t) == Judge(all, s) + Judge(all, t)
    ensures Demotions(all, s + t) == Demotions(all, s) + Demotions(all, t)
    decreases |s|
  {
    var st := s + t;
    if s == [] {
      assert st == t;
    } else {
      var rest := s[1..];
      assert st[0] == s[0] && st[1..] == rest + t;
      JudgeConcat(all, rest, t);
      var v := multiset{Validated(all, s[0])};
      assert Judge(all, st) == v + (Judge(all, rest) + Judge(all, t));
      assert Judge(all, s) == v + Judge(all, rest);
    }
  }

  /** The head of `s` can be taken out of any rearrangement of `s`. */
  lemma HeadTakenOut(s: seq<Function>, t: seq<Function>) returns (before: seq<Function>, after: seq<Function>)
    requires s != [] && multiset(s) == multiset(t)
    ensures t == before + ([s[0]] + after)
    ensures multiset(s[1..]) == multiset(before + after)
  {
    assert s[0] in multiset(t);
    var i :| 0 <= i < |t| && t[i] == s[0];
    before, after := t[..i], t[i + 1..];
    assert t == before + ([s[0]] + after);
    assert s == [s[0]] + s[1..];
    assert multiset(s[1..]) == multiset(s) - multiset{s[0]};
    assert multiset(before + after) == multiset(t) - multiset{s[0]};
  }

  lemma {:induction false} JudgePermuted(all: seq<Function>, s: seq<Function>, t: seq<Function>)
    requires multiset(s) == multiset(t)
    ensures Judge(all, s) == Judge(all, t) && Demotions(all, s) == Demotions(all, t)
    decreases |s|
  {
    if s == [] {
      assert |multiset(t)| == 0;
    } else {
      var before, after := HeadTakenOut(s, t);
      JudgePermuted(all, s[1..], before + after);
      JudgeConcat(all, before, after);
      JudgeConcat(all, before, [s[0]] + after);
      assert ([s[0]] + after)[1..] == after;
    }
  }

  lemma {:induction false} JudgeAgrees(all: seq<Function>, n: nat)
    requires n <= |all|
    ensures Judge(all, all[..n]) == multiset(ValidatedAll(all)[..n])
    ensures Demotions(all, all[..n]) == CountUnread(all, n)
  {
    if n > 0 {
      JudgeAgrees(all, n - 1);
      assert all[..n] == all[..n - 1] + [all[n - 1]];
      JudgeConcat(all, all[..n - 1], [all[n - 1]]);
      JudgeOne(all, all[n - 1]);
      OneMoreMember(ValidatedAll(all), n);
    }
  }

  lemma OneMoreMember(r: seq<Function>, n: nat)
    requires 0 < n <= |r|
    ensures multiset(r[..n]) == multiset(r[..n - 1]) + multiset{r[n - 1]}
  {
    assert r[..n] == r[..n - 1] + [r[n - 1]];
  }

  lemma JudgeOne(all: seq<Function>, f: Function)
    ensures Judge(all, [f]) == multiset{Validated(all, f)}
    ensures Demotions(all, [f]) == if Unread(all, f) then 1 else 0
  {
    assert [f][1..] == [];
  }

  lemma {:induction false} JudgeSameCallers(p: seq<Function>, q: seq<Function>, s: seq<Function>)
    requires forall g :: g in p <==> g in q
    ensures Judge(p, s) == Judge(q, s) && Demotions(p, s) == Demotions(q, s)
  {
    if s != [] {
      SameReaders(p, q, s[0].0);
      SameReaders(q, p, s[0].0);
      JudgeSameCallers(p, q, s[1..]);
    }
  }

  /** Listing the functions in another order demotes the same functions and reports the same
      number. */
  lemma OrderDoesNotMatter(p: seq<Function>, q: seq<Function>)
    requires multiset(p) == multiset(q)
    ensures multiset(ValidatedAll(p)) == multiset(ValidatedAll(q))
    ensures CountUnread(p, |p|) == CountUnread(q, |q|)
  {
    JudgeWhole(p);
    JudgeWhole(q);
    JudgePermuted(p, p, q);
    forall g ensures g in p <==> g in q {
      assert g in p <==> g in multiset(p);
    }
    JudgeSameCallers(p, q, q);
  }

  lemma JudgeWhole(all: seq<Function>)
    ensures Judge(all, all) == multiset(ValidatedAll(all)) && Demotions(all, all) == CountUnread(all, |all|)
  {
    JudgeAgrees(all, |all|);
    var r := ValidatedAll(all);
    assert all[..|all|] == all && r[..|all|] == r;
  }

  lemma SameReaders(p: seq<Function>, q: seq<Function>, addr: nat)
    requires forall g :: g in p ==> g in q
    ensures HasReader(p, addr) ==> HasReader(q, addr)
  {
    if HasReader(p, addr) {
      var k :| 0 <= k < |p| && (addr, true) in UsesUpTo(p[k].1, |p[k].1.blocks|);
      assert p[k] in q;
      var j :| 0 <= j < |q| && q[j] == p[k];
    }
  }
}

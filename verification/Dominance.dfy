/** Every use is dominated by a definition, before and after expansion. */
module Dominance {
  import opened Conditions
  import opened MachineIR
  import opened LocalSsa
  import opened SelectExpansion
  import opened SelectSimulation
  import opened WellFormedness
  import opened ExpansionPreserves
  import opened ExpansionWellFormed
  import opened Conservation

  // ----- Paths -----

  predicate Edge(f: Function, p: seq<BlockId>, k: nat)
    requires 0 < k < |p|
  {
    p[k - 1] in f.succs && p[k] in f.succs[p[k - 1]]
  }

  ghost predicate IsPath(f: Function, p: seq<BlockId>) {
    && p != [] && f.layout != [] && p[0] == f.layout[0]
    && forall k {:trigger Edge(f, p, k)} :: 0 < k < |p| ==> Edge(f, p, k)
  }

  /** Every path from the entry to `u` goes through `d`. */
  ghost predicate Dominates(f: Function, d: BlockId, u: BlockId) {
    forall p {:trigger IsPath(f, p)} :: IsPath(f, p) && p[|p| - 1] == u ==> d in p
  }

  /** The blocks among the first `k` that are numbered below `limit`. */
  function OldBlocks(p: seq<BlockId>, k: nat, limit: BlockId): seq<BlockId>
    requires k <= |p|
  {
    if k == 0 then []
    else if p[k - 1] < limit then OldBlocks(p, k - 1, limit) + [p[k - 1]]
    else OldBlocks(p, k - 1, limit)
  }

  lemma {:induction false} OldBlocksOccur(p: seq<BlockId>, k: nat, limit: BlockId, x: BlockId)
    requires k <= |p| && x in OldBlocks(p, k, limit)
    ensures x in p && x < limit
  {
    if k > 0 && x in OldBlocks(p, k - 1, limit) {
      OldBlocksOccur(p, k - 1, limit, x);
    }
  }

  /** What is known about the first `k` blocks of a path of the expanded function. */
  ghost predicate PathSoFar(f: Function, b: BlockId, p: seq<BlockId>, k: nat)
    requires 0 < k <= |p|
  {
    var was := OldBlocks(p, k, f.nextId);
    && IsPath(f, was)
    && was[|was| - 1] == (if p[k - 1] < f.nextId then p[k - 1] else b)
    && (b in was[..|was| - 1] ==> f.nextId in p)
    && (p[k - 1] >= f.nextId ==> p[k - 1] == f.nextId || p[k - 1] == f.nextId + 1)
  }

  lemma PathSnoc(f: Function, was: seq<BlockId>, x: BlockId)
    requires IsPath(f, was) && was[|was| - 1] in f.succs && x in f.succs[was[|was| - 1]]
    ensures IsPath(f, was + [x])
  {
    var p := was + [x];
    forall k | 0 < k < |p| ensures Edge(f, p, k) {
      if k < |was| {
        assert Edge(f, was, k);
      }
    }
  }

  /** Leaving out the triangle's new blocks turns a path of the expanded function into one of the was. */
  lemma {:induction false} PathCollapses(f: Function, b: BlockId, at: nat, g: Function, p: seq<BlockId>, k: nat)
    requires CanExpand(f, b, at) && ExpansionOf(f, b, at, g) && IsPath(g, p) && 0 < k <= |p|
    requires g.layout[0] == f.layout[0]
    ensures PathSoFar(f, b, p, k)
  {
    if k == 1 {
      PathStarts(f, b, p);
    } else {
      PathCollapses(f, b, at, g, p, k - 1);
      PathEdge(f, b, at, g, p, k);
      PathStep(f, b, at, p, k, p[k - 2], p[k - 1]);
    }
  }

  lemma PathStarts(f: Function, b: BlockId, p: seq<BlockId>)
    requires Allocated(f) && f.layout != [] && p != [] && p[0] == f.layout[0]
    ensures PathSoFar(f, b, p, 1)
  {
    assert f.layout[0] in f.layout;
    assert OldBlocks(p, 1, f.nextId) == OldBlocks(p, 0, f.nextId) + [p[0]] == [p[0]];
  }

  lemma PathEdge(f: Function, b: BlockId, at: nat, g: Function, p: seq<BlockId>, k: nat)
    requires CanExpand(f, b, at) && ExpansionOf(f, b, at, g) && IsPath(g, p) && 1 < k <= |p|
    ensures p[k - 2] in f.code || p[k - 2] == f.nextId || p[k - 2] == f.nextId + 1
    ensures p[k - 1] in ExpandedSuccs(f, b, at, p[k - 2])
  {
    assert Edge(g, p, k - 1);
    assert g.succs[p[k - 2]] == ExpandedSuccs(f, b, at, p[k - 2]);
  }

  lemma PathStep(f: Function, b: BlockId, at: nat, p: seq<BlockId>, k: nat, y: BlockId, x: BlockId)
    requires CanExpand(f, b, at) && 1 < k <= |p| && y == p[k - 2] && x == p[k - 1]
    requires PathSoFar(f, b, p, k - 1)
    requires y in f.code || y == f.nextId || y == f.nextId + 1
    requires x in ExpandedSuccs(f, b, at, y)
    ensures PathSoFar(f, b, p, k)
  {
    var was := OldBlocks(p, k - 1, f.nextId);
    if x < f.nextId {
      var now := was + [x];
      assert OldBlocks(p, k, f.nextId) == now;
      assert now[..|now| - 1] == was;
      if y < f.nextId {
        assert y in f.code && x in f.succs[y] && y != b;
        assert b in was ==> b in was[..|was| - 1];
      } else {
        assert y == f.nextId && y in p;
        assert x in f.succs[b];
      }
      PathSnoc(f, was, x);
    } else {
      assert x !in f.code;
      assert OldBlocks(p, k, f.nextId) == was;
    }
  }

  /** A path of the expanded function that ends where a dominated block was goes
      through the dominator, and through the tail if that was the expanded block. */
  lemma PathThrough(f: Function, b: BlockId, at: nat, g: Function, d: BlockId, u: BlockId, p: seq<BlockId>)
    requires CanExpand(f, b, at) && ExpansionOf(f, b, at, g) && g.layout[0] == f.layout[0]
    requires Dominates(f, d, u) && IsPath(g, p)
    requires u in f.code && (p[|p| - 1] == u || (u == b && p[|p| - 1] >= f.nextId))
    ensures d in p && (d == b && u != b ==> f.nextId in p)
  {
    PathCollapses(f, b, at, g, p, |p|);
    var was := OldBlocks(p, |p|, f.nextId);
    assert u < f.nextId;
    assert IsPath(f, was) && was[|was| - 1] == u;
    assert d in was;
    OldBlocksOccur(p, |p|, f.nextId, d);
    if d == b && u != b {
      assert was == was[..|was| - 1] + [u];
      assert b in was[..|was| - 1];
    }
  }

  lemma EntryKept(f: Function, b: BlockId, at: nat)
    requires CanExpand(f, b, at)
    ensures Expand(f, b, at).layout != [] && Expand(f, b, at).layout[0] == f.layout[0]
  {
    HeadOfInserted(f.layout, b, [f.nextId + 1, f.nextId]);
  }

  lemma DominatesKept(f: Function, b: BlockId, at: nat, g: Function, d: BlockId, u: BlockId)
    requires CanExpand(f, b, at) && ExpansionOf(f, b, at, g) && g.layout != [] && g.layout[0] == f.layout[0]
    requires Dominates(f, d, u) && u in f.code
    ensures Dominates(g, d, u)
    ensures u == b ==> Dominates(g, d, f.nextId) && Dominates(g, d, f.nextId + 1)
    ensures d == b && u != b ==> Dominates(g, f.nextId, u)
  {
    forall p | IsPath(g, p) && (p[|p| - 1] == u || (u == b && p[|p| - 1] >= f.nextId))
      ensures d in p && (d == b && u != b ==> f.nextId in p)
    {
      PathThrough(f, b, at, g, d, u, p);
    }
  }

  lemma DominatesSelf(f: Function, u: BlockId)
    ensures Dominates(f, u, u)
  {
  }

  // ----- Uses -----

  predicate DefinedIn(code: Code, hi: nat, r: Reg)
    requires hi <= |code|
  {
    exists j :: 0 <= j < hi && r in Defs(code[j])
  }

  predicate Defines(code: Code, r: Reg) {
    DefinedIn(code, |code|, r)
  }

  /** `r` is defined in a block that dominates `u`. */
  ghost predicate Reaching(f: Function, u: BlockId, r: Reg) {
    exists d :: d in f.code && Defines(f.code[d], r) && Dominates(f, d, u)
  }

  /** The same, by a block other than `u` itself. */
  ghost predicate ReachesFromOutside(f: Function, u: BlockId, r: Reg) {
    exists d :: d in f.code && d != u && Defines(f.code[d], r) && Dominates(f, d, u)
  }

  ghost function FromOutside(f: Function, u: BlockId): iset<Reg> {
    iset r | ReachesFromOutside(f, u, r)
  }

  /** Each use is preceded by a definition in the code, or of a register from outside. */
  ghost predicate Covered(code: Code, outside: iset<Reg>) {
    forall j, r :: 0 <= j < |code| && r in Uses(code[j]) ==> r in outside || DefinedIn(code, j, r)
  }

  ghost predicate UsesDominated(f: Function, u: BlockId)
    requires u in f.code
  {
    Covered(f.code[u], FromOutside(f, u))
  }

  /** A PHI reads at the end of the predecessor. */
  ghost predicate PhiUsesDominated(f: Function, u: BlockId)
    requires u in f.code
  {
    forall y, inc :: y in f.code[u] && y.Phi? && inc in y.incoming ==> Reaching(f, inc.block, inc.reg)
  }

  /** A function in SSA form: one definition a register, dominating every use. */
  ghost predicate SsaOk(f: Function) {
    && CfgOk(f)
    && (forall r {:trigger DefinitionsOf(r)} :: FunctionSum(DefinitionsOf(r), f) <= 1)
    && (forall u {:trigger UsesDominated(f, u)} :: u in f.code ==> UsesDominated(f, u))
    && (forall u {:trigger PhiUsesDominated(f, u)} :: u in f.code ==> PhiUsesDominated(f, u))
  }

  // ----- What the pieces of the triangle define and use -----

  lemma DefinedMore(code: Code, hi: nat, hi': nat, r: Reg)
    requires hi <= hi' <= |code| && DefinedIn(code, hi, r)
    ensures DefinedIn(code, hi', r)
  {
  }

  lemma DefinedPrefix(a: Code, b: Code, hi: nat, r: Reg)
    requires hi <= |a|
    ensures DefinedIn(a + b, hi, r) <==> DefinedIn(a, hi, r)
  {
    if DefinedIn(a, hi, r) {
      var j :| 0 <= j < hi && r in Defs(a[j]);
      assert r in Defs((a + b)[j]);
    }
  }

  lemma DefinedAppend(a: Code, b: Code, r: Reg)
    ensures Defines(a + b, r) <==> Defines(a, r) || Defines(b, r)
  {
    if Defines(a, r) {
      var j :| 0 <= j < |a| && r in Defs(a[j]);
      assert r in Defs((a + b)[j]);
    }
    if Defines(b, r) {
      var j :| 0 <= j < |b| && r in Defs(b[j]);
      assert r in Defs((a + b)[|a| + j]);
    }
  }

  lemma CoveredSnoc(a: Code, x: Instr, outside: iset<Reg>)
    requires Covered(a, outside) && forall r :: r in Uses(x) ==> r in outside || Defines(a, r)
    ensures Covered(a + [x], outside)
  {
    var c := a + [x];
    forall j, r | 0 <= j < |c| && r in Uses(c[j]) && r !in outside ensures DefinedIn(c, j, r) {
      DefinedPrefix(a, [x], j, r);
      if j < |a| {
        assert r in Uses(a[j]);
      }
    }
  }

  /** `a` defines everything the first `k` instructions of `code` define, except `dests`. */
  ghost predicate DefinesAllBut(a: Code, code: Code, k: nat, dests: set<Reg>)
    requires k <= |code|
  {
    forall r :: DefinedIn(code, k, r) ==> Defines(a, r) || r in dests
  }

  lemma DefinesAllButSnoc(a: Code, a': Code, code: Code, k: nat, dests: set<Reg>, dests': set<Reg>)
    requires k < |code| && DefinesAllBut(a, code, k, dests) && dests <= dests'
    requires forall r :: Defines(a, r) ==> Defines(a', r)
    requires forall r :: r in Defs(code[k]) ==> Defines(a', r) || r in dests'
    ensures DefinesAllBut(a', code, k + 1, dests')
  {
    forall r | DefinedIn(code, k + 1, r) ensures Defines(a', r) || r in dests' {
      var j :| 0 <= j < k + 1 && r in Defs(code[j]);
      if j < k {
        assert DefinedIn(code, k, r);
      }
    }
  }

  lemma DefinesSnoc(a: Code, x: Instr)
    ensures forall r :: Defines(a, r) || r in Defs(x) ==> Defines(a + [x], r)
  {
    forall r | Defines(a, r) || r in Defs(x) ensures Defines(a + [x], r) {
      DefinedAppend(a, [x], r);
      if r in Defs(x) {
        assert [x][0] == x;
        assert Defines([x], r);
      }
    }
  }

  lemma PrefixCovered(code: Code, at: nat, outside: iset<Reg>)
    requires Covered(code, outside) && at <= |code|
    ensures Covered(code[..at], outside) && DefinesAllBut(code[..at], code, at, {})
  {
    assert code == code[..at] + code[at..];
    forall j, r | 0 <= j < at && r in Uses(code[..at][j]) && r !in outside ensures DefinedIn(code[..at], j, r) {
      assert r in Uses(code[j]);
      DefinedPrefix(code[..at], code[at..], j, r);
    }
    forall r | DefinedIn(code, at, r) ensures Defines(code[..at], r) {
      DefinedPrefix(code[..at], code[at..], at, r);
    }
  }

  /** No instruction of the run reads a gathered result, so all of its uses stay covered in the head. */
  lemma {:induction false} KeptCovered(code: Code, at: nat, k: nat, gone: set<nat>, outside: iset<Reg>)
    requires Covered(code, outside) && IsSelectAt(code, at) && at <= k <= |code| && Unstopped(code, at, k)
    requires forall d :: d in gone && d < |code| ==> code[d].Debug?
    ensures var a := code[..at] + Kept(code, at, k, gone);
            Covered(a, outside) && DefinesAllBut(a, code, k, DestsOf(code, at, k))
  {
    if k == at {
      PrefixCovered(code, at, outside);
      assert code[..at] + [] == code[..at];
    } else {
      KeptCovered(code, at, k - 1, gone, outside);
      KeptCoveredStep(code[..at] + Kept(code, at, k - 1, gone), code, at, k, k - 1 in gone, outside);
      if !code[k - 1].Select? && k - 1 !in gone {
        assert code[..at] + Kept(code, at, k, gone) == (code[..at] + Kept(code, at, k - 1, gone)) + [code[k - 1]];
      }
    }
  }

  lemma KeptCoveredStep(a: Code, code: Code, at: nat, k: nat, isGone: bool, outside: iset<Reg>)
    requires Covered(code, outside) && IsSelectAt(code, at) && at < k <= |code| && PassesScan(code, at, k - 1)
    requires isGone ==> code[k - 1].Debug?
    requires Covered(a, outside) && DefinesAllBut(a, code, k - 1, DestsOf(code, at, k - 1))
    ensures var a' := if code[k - 1].Select? || isGone then a else a + [code[k - 1]];
            Covered(a', outside) && DefinesAllBut(a', code, k, DestsOf(code, at, k))
  {
    var x, dests, dests' := code[k - 1], DestsOf(code, at, k - 1), DestsOf(code, at, k);
    if x.Select? || isGone {
      DefinesAllButSnoc(a, a, code, k - 1, dests, dests');
    } else {
      forall r | r in Uses(x) ensures r in outside || Defines(a, r) {
        assert r in Operands(x);
        assert r in outside || DefinedIn(code, k - 1, r);
      }
      CoveredSnoc(a, x, outside);
      DefinesSnoc(a, x);
      DefinesAllButSnoc(a, a + [x], code, k - 1, dests, dests');
    }
  }

  lemma HeadCovered(code: Code, at: nat, tail: BlockId, outside: iset<Reg>)
    requires LocalOk(code) && Covered(code, outside) && IsSelectAt(code, at)
    ensures Covered(HeadCode(code, at, tail), outside)
    ensures DefinesAllBut(HeadCode(code, at, tail), code, LastSelect(code, at) + 1,
                          DestsOf(code, at, LastSelect(code, at) + 1))
  {
    var last := LastSelect(code, at);
    GatheredUnstopped(code, at);
    GoneAreDebug(code, at);
    KeptCovered(code, at, last + 1, Positions(Moved(code, at)), outside);
    BranchCovered(code, at, last + 1, code[..at] + KeptRun(code, at),
                  CondBr(GetBrCond(code[at].cc), code[at].lhs, code[at].rhs, tail), outside);
  }

  lemma BranchCovered(code: Code, at: nat, k: nat, a: Code, br: Instr, outside: iset<Reg>)
    requires UsesPrecedeDefs(code) && Covered(code, outside) && IsSelectAt(code, at) && at < k <= |code|
    requires br.CondBr? && br.lhs == code[at].lhs && br.rhs == code[at].rhs
    requires Covered(a, outside) && DefinesAllBut(a, code, k, DestsOf(code, at, k))
    ensures Covered(a + [br], outside) && DefinesAllBut(a + [br], code, k, DestsOf(code, at, k))
  {
    forall r | r in Uses(br) ensures r in outside || Defines(a, r) {
      ConditionCovered(code, at, k, a, outside, r);
    }
    CoveredSnoc(a, br, outside);
    DefinesSnoc(a, br);
  }

  lemma ConditionCovered(code: Code, at: nat, k: nat, a: Code, outside: iset<Reg>, r: Reg)
    requires UsesPrecedeDefs(code) && Covered(code, outside) && IsSelectAt(code, at) && at < k <= |code|
    requires DefinesAllBut(a, code, k, DestsOf(code, at, k)) && (r == code[at].lhs || r == code[at].rhs)
    ensures r in outside || Defines(a, r)
  {
    ConditionKept(code, at, k);
    assert r in Uses(code[at]);
    if r !in outside {
      DefinedMore(code, at, k, r);
    }
  }

  lemma {:induction false} PhisDefine(code: Code, at: nat, k: nat, head: BlockId, ifFalse: BlockId, r: Reg)
    requires at <= k <= |code| && r in DestsOf(code, at, k)
    ensures Defines(PhisOf(code, at, k, head, ifFalse), r)
  {
    var phis := PhisOf(code, at, k - 1, head, ifFalse);
    if code[k - 1].Select? {
      DefinesSnoc(phis, PhiFor(code[k - 1], head, ifFalse));
    }
    if r in DestsOf(code, at, k - 1) {
      PhisDefine(code, at, k - 1, head, ifFalse, r);
    }
  }

  /** In the tail, everything the head defines counts as from outside. */
  lemma {:induction false} RestCovered(a: Code, code: Code, lo: nat, k: nat, gone: set<nat>, outside: iset<Reg>, more: iset<Reg>)
    requires Covered(code, outside) && outside <= more && lo <= k <= |code|
    requires forall d :: d in gone && d < |code| ==> code[d].Debug?
    requires Covered(a, more) && forall r :: DefinedIn(code, lo, r) ==> r in more || Defines(a, r)
    ensures var b := a + Without(code, lo, k, gone);
            Covered(b, more) && forall r :: DefinedIn(code, k, r) ==> r in more || Defines(b, r)
  {
    if k == lo {
      assert a + [] == a;
    } else {
      RestCovered(a, code, lo, k - 1, gone, outside, more);
      var b := a + Without(code, lo, k - 1, gone);
      if k - 1 in gone {
        assert a + Without(code, lo, k, gone) == b;
        forall r | DefinedIn(code, k, r) ensures r in more || Defines(b, r) {
          assert DefinedIn(code, k - 1, r);
        }
      } else {
        RestCoveredStep(b, code, k, outside, more);
        assert a + Without(code, lo, k, gone) == b + [code[k - 1]];
      }
    }
  }

  lemma RestCoveredStep(b: Code, code: Code, k: nat, outside: iset<Reg>, more: iset<Reg>)
    requires Covered(code, outside) && outside <= more && 0 < k <= |code|
    requires Covered(b, more) && forall r :: DefinedIn(code, k - 1, r) ==> r in more || Defines(b, r)
    ensures Covered(b + [code[k - 1]], more)
    ensures forall r :: DefinedIn(code, k, r) ==> r in more || Defines(b + [code[k - 1]], r)
  {
    CoveredSnoc(b, code[k - 1], more);
    DefinesSnoc(b, code[k - 1]);
    forall r | DefinedIn(code, k, r) ensures r in more || Defines(b + [code[k - 1]], r) {
      var j :| 0 <= j < k && r in Defs(code[j]);
      if j < k - 1 {
        assert DefinedIn(code, k - 1, r);
      }
    }
  }
}

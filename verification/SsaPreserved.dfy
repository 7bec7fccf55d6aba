/** Expansion keeps SSA form: one definition a register, dominating every use. */
module SsaPreserved {
  import opened MachineIR
  import opened LocalSsa
  import opened SelectExpansion
  import opened SelectSimulation
  import opened WellFormedness
  import opened ExpansionPreserves
  import opened SelectRuns
  import opened ExpansionWellFormed
  import opened Conservation
  import opened Dominance

  // ----- What the two halves of the block define -----

  lemma {:induction false} DefinedIsCounted(code: Code, hi: nat, r: Reg)
    requires hi <= |code|
    ensures DefinedIn(code, hi, r) <==> Sum(DefinitionsOf(r), code, 0, hi) > 0
  {
    if hi > 0 {
      DefinedIsCounted(code, hi - 1, r);
      assert DefinedIn(code, hi, r) <==> DefinedIn(code, hi - 1, r) || r in Defs(code[hi - 1]);
    }
  }

  lemma DefinesSplit(code: Code, at: nat, head: BlockId, tail: BlockId, ifFalse: BlockId, r: Reg)
    requires IsSelectAt(code, at) && Defines(code, r)
    ensures Defines(HeadCode(code, at, tail), r) || Defines(TailCode(code, at, head, ifFalse), r)
  {
    var h, t := HeadCode(code, at, tail), TailCode(code, at, head, ifFalse);
    DefinitionsPlain(r);
    SumExpanded(DefinitionsOf(r), code, at, head, tail, ifFalse);
    SelectsSame(r, code, at, LastSelect(code, at) + 1);
    DefinedIsCounted(code, |code|, r);
    DefinedIsCounted(h, |h|, r);
    DefinedIsCounted(t, |t|, r);
  }

  lemma RenamedDefines(code: Code, renamed: bool, from: BlockId, to: BlockId, r: Reg)
    ensures Defines(MaybeRenamed(code, renamed, from, to), r) <==> Defines(code, r)
  {
    var code' := MaybeRenamed(code, renamed, from, to);
    assert forall j :: 0 <= j < |code| ==> Defs(code'[j]) == Defs(code[j]);
  }

  lemma RenamedCovered(code: Code, renamed: bool, from: BlockId, to: BlockId, outside: iset<Reg>)
    requires Covered(code, outside)
    ensures Covered(MaybeRenamed(code, renamed, from, to), outside)
  {
    var code' := MaybeRenamed(code, renamed, from, to);
    forall j, r | 0 <= j < |code'| && r in Uses(code'[j]) && r !in outside ensures DefinedIn(code', j, r) {
      assert r in Uses(code[j]);
      var i :| 0 <= i < j && r in Defs(code[i]);
      assert r in Defs(code'[i]);
    }
  }

  /** The head, its PHIs perhaps renamed, and the tail of an expanded block. */
  predicate Halves(code: Code, at: nat, head: BlockId, tail: BlockId, ifFalse: BlockId, renamed: bool, h: Code, t: Code)
    requires IsSelectAt(code, at)
  {
    h == MaybeRenamed(HeadCode(code, at, tail), renamed, head, tail) && t == TailCode(code, at, head, ifFalse)
  }

  lemma BlockHalves(f: Function, b: BlockId, at: nat, g: Function)
    requires CanExpand(f, b, at) && Expansion(f, b, at, g)
    ensures b in f.code && b in g.code && f.nextId in g.code
    ensures Halves(f.code[b], at, b, f.nextId, f.nextId + 1, b in f.succs[b], g.code[b], g.code[f.nextId])
  {
    ExpandedBlocks(f, b, at, g);
  }

  lemma HalvesDefine(code: Code, at: nat, head: BlockId, tail: BlockId, ifFalse: BlockId, renamed: bool,
                     h: Code, t: Code, r: Reg)
    requires IsSelectAt(code, at) && Defines(code, r) && Halves(code, at, head, tail, ifFalse, renamed, h, t)
    ensures Defines(h, r) || Defines(t, r)
  {
    DefinesSplit(code, at, head, tail, ifFalse, r);
    RenamedDefines(HeadCode(code, at, tail), renamed, head, tail, r);
  }

  lemma CoveredMore(code: Code, outside: iset<Reg>, more: iset<Reg>)
    requires Covered(code, outside) && outside <= more
    ensures Covered(code, more)
  {
  }

  lemma FrontCovered(code: Code, at: nat, head: BlockId, ifFalse: BlockId, more: iset<Reg>)
    requires IsSelectAt(code, at)
    ensures Covered(TailFront(code, at, head, ifFalse), more)
    ensures forall r :: r in DestsOf(code, at, LastSelect(code, at) + 1) ==> Defines(TailFront(code, at, head, ifFalse), r)
  {
    var last := LastSelect(code, at);
    var phis, debug := PhisOf(code, at, last + 1, head, ifFalse), Pick(code, Moved(code, at));
    PickedAreDebug(code, at);
    assert forall j :: 0 <= j < |phis| ==> phis[j] in phis;
    forall r | r in DestsOf(code, at, last + 1) ensures Defines(TailFront(code, at, head, ifFalse), r) {
      PhisDefine(code, at, last + 1, head, ifFalse, r);
      DefinedAppend(phis, debug, r);
    }
  }

  /** In the tail, what the head defines counts as from outside. */
  lemma TailCovered(code: Code, at: nat, head: BlockId, tail: BlockId, ifFalse: BlockId,
                    outside: iset<Reg>, more: iset<Reg>)
    requires LocalOk(code) && Covered(code, outside) && IsSelectAt(code, at) && outside <= more
    requires forall r :: Defines(HeadCode(code, at, tail), r) ==> r in more
    ensures Covered(TailCode(code, at, head, ifFalse), more)
  {
    var front, last := TailFront(code, at, head, ifFalse), LastSelect(code, at);
    HeadCovered(code, at, tail, outside);
    FrontCovered(code, at, head, ifFalse, more);
    GoneAreDebug(code, at);
    forall r | DefinedIn(code, last + 1, r) ensures r in more || Defines(front, r) {
    }
    RestCovered(front, code, last + 1, |code|, Positions(Moved(code, at)), outside, more);
    TailPieces(code, at, head, ifFalse);
  }

  // ----- Definitions that reach a block still reach it -----

  /** What the lemmas below use about the expanded function `g`. */
  ghost predicate Expanded(f: Function, b: BlockId, at: nat, g: Function) {
    && CanExpand(f, b, at)
    && ExpansionOf(f, b, at, g)
    && g.layout != [] && g.layout[0] == f.layout[0]
  }

  /** What `c` defines, one of the two halves does. */
  ghost predicate DefsKept(c: Code, h: Code, t: Code) {
    forall r {:trigger Defines(c, r)} :: Defines(c, r) ==> Defines(h, r) || Defines(t, r)
  }

  lemma HalvesKeepDefs(code: Code, at: nat, head: BlockId, tail: BlockId, ifFalse: BlockId, renamed: bool, h: Code, t: Code)
    requires IsSelectAt(code, at) && Halves(code, at, head, tail, ifFalse, renamed, h, t)
    ensures DefsKept(code, h, t)
  {
    forall r | Defines(code, r) ensures Defines(h, r) || Defines(t, r) {
      HalvesDefine(code, at, head, tail, ifFalse, renamed, h, t, r);
    }
  }

  lemma BlockDefinesKept(f: Function, b: BlockId, at: nat, g: Function)
    requires CanExpand(f, b, at) && Expansion(f, b, at, g)
    ensures b in f.code && b in g.code && f.nextId in g.code && DefsKept(f.code[b], g.code[b], g.code[f.nextId])
  {
    BlockHalves(f, b, at, g);
    HalvesKeepDefs(f.code[b], at, b, f.nextId, f.nextId + 1, b in f.succs[b], g.code[b], g.code[f.nextId]);
  }

  lemma DefinesKept(f: Function, b: BlockId, at: nat, g: Function, d: BlockId, r: Reg)
    requires Expanded(f, b, at, g) && d in f.code && Defines(f.code[d], r)
    ensures d in g.code && f.nextId in g.code
    ensures Defines(g.code[d], r) || (d == b && Defines(g.code[f.nextId], r))
  {
    if d == b {
      BlockDefinesKept(f, b, at, g);
    } else {
      OtherCode(f, b, at, g, d);
      RenamedDefines(f.code[d], d in f.succs[b], b, f.nextId, r);
    }
  }

  lemma IncomingMoved(f: Function, b: BlockId, at: nat, g: Function, u: BlockId, r: Reg)
    requires Expanded(f, b, at, g) && u in f.code && ReachesFromOutside(f, u, r)
    ensures ReachesFromOutside(g, u, r)
    ensures u == b ==> ReachesFromOutside(g, f.nextId, r) && Reaching(g, f.nextId + 1, r)
  {
    var d :| d in f.code && d != u && Defines(f.code[d], r) && Dominates(f, d, u);
    assert u < f.nextId && d < f.nextId;
    DefinesKept(f, b, at, g, d, r);
    DominatesKept(f, b, at, g, d, u);
  }

  lemma ReachingMoved(f: Function, b: BlockId, at: nat, g: Function, p: BlockId, r: Reg)
    requires Expanded(f, b, at, g) && p in f.code && Reaching(f, p, r)
    ensures Reaching(g, RenameBlock(p, b, f.nextId), r)
  {
    var d :| d in f.code && Defines(f.code[d], r) && Dominates(f, d, p);
    DefinesKept(f, b, at, g, d, r);
    DominatesKept(f, b, at, g, d, p);
    DominatesSelf(g, f.nextId);
  }

  lemma HeadReaches(f: Function, b: BlockId, at: nat, g: Function, r: Reg)
    requires Expanded(f, b, at, g)
    requires b in f.code && Defines(HeadCode(f.code[b], at, f.nextId), r)
    ensures ReachesFromOutside(g, f.nextId, r) && Reaching(g, b, r) && Reaching(g, f.nextId + 1, r)
  {
    ExpandedBlocks(f, b, at, g);
    RenamedDefines(HeadCode(f.code[b], at, f.nextId), b in f.succs[b], b, f.nextId, r);
    DominatesSelf(f, b);
    DominatesKept(f, b, at, g, b, b);
  }

  // ----- Uses in the code -----

  lemma OtherUses(f: Function, b: BlockId, at: nat, g: Function, u: BlockId)
    requires Expanded(f, b, at, g) && u in f.code && u != b && UsesDominated(f, u) && u in g.code
    ensures UsesDominated(g, u)
  {
    OtherCode(f, b, at, g, u);
    var outside := FromOutside(f, u);
    forall r | r in outside ensures r in FromOutside(g, u) {
      IncomingMoved(f, b, at, g, u, r);
    }
    RenamedCovered(f.code[u], u in f.succs[b], b, f.nextId, outside);
    CoveredMore(g.code[u], outside, FromOutside(g, u));
  }

  lemma HeadUses(f: Function, b: BlockId, at: nat, g: Function)
    requires Expanded(f, b, at, g) && b in f.code && LocalOk(f.code[b]) && UsesDominated(f, b) && b in g.code
    ensures UsesDominated(g, b)
  {
    ExpandedBlocks(f, b, at, g);
    var outside := FromOutside(f, b);
    forall r | r in outside ensures r in FromOutside(g, b) {
      IncomingMoved(f, b, at, g, b, r);
    }
    HeadCovered(f.code[b], at, f.nextId, outside);
    RenamedCovered(HeadCode(f.code[b], at, f.nextId), b in f.succs[b], b, f.nextId, outside);
    CoveredMore(g.code[b], outside, FromOutside(g, b));
  }

  lemma ReachesTail(f: Function, b: BlockId, at: nat, g: Function)
    requires Expanded(f, b, at, g) && b in f.code
    ensures FromOutside(f, b) <= FromOutside(g, f.nextId)
    ensures forall r :: Defines(HeadCode(f.code[b], at, f.nextId), r) ==> r in FromOutside(g, f.nextId)
  {
    forall r | r in FromOutside(f, b) ensures r in FromOutside(g, f.nextId) {
      IncomingMoved(f, b, at, g, b, r);
    }
    forall r | Defines(HeadCode(f.code[b], at, f.nextId), r) ensures r in FromOutside(g, f.nextId) {
      HeadReaches(f, b, at, g, r);
    }
  }

  lemma TailUses(f: Function, b: BlockId, at: nat, g: Function)
    requires Expanded(f, b, at, g) && b in f.code && LocalOk(f.code[b]) && UsesDominated(f, b) && f.nextId in g.code
    ensures UsesDominated(g, f.nextId)
  {
    ReachesTail(f, b, at, g);
    ExpandedBlocks(f, b, at, g);
    TailUsesFrom(g, f.nextId, f.code[b], at, b, f.nextId + 1, FromOutside(f, b));
  }

  lemma TailUsesFrom(g: Function, tail: BlockId, code: Code, at: nat, head: BlockId, ifFalse: BlockId, outside: iset<Reg>)
    requires LocalOk(code) && IsSelectAt(code, at) && Covered(code, outside)
    requires tail in g.code && g.code[tail] == TailCode(code, at, head, ifFalse)
    requires outside <= FromOutside(g, tail)
    requires forall r :: Defines(HeadCode(code, at, tail), r) ==> r in FromOutside(g, tail)
    ensures UsesDominated(g, tail)
  {
    TailCovered(code, at, head, tail, ifFalse, outside, FromOutside(g, tail));
  }

  lemma UsesKept(f: Function, b: BlockId, at: nat, g: Function, u: BlockId)
    requires Expanded(f, b, at, g) && b in f.code && LocalOk(f.code[b]) && UsesDominated(f, b) && u in g.code
    requires u in f.code ==> UsesDominated(f, u)
    ensures UsesDominated(g, u)
  {
    if u == b {
      HeadUses(f, b, at, g);
    } else if u == f.nextId {
      TailUses(f, b, at, g);
    } else if u in f.code {
      OtherUses(f, b, at, g, u);
    } else {
      ExpandedBlocks(f, b, at, g);
    }
  }

  // ----- Uses on the edges -----

  lemma RenamedSource(inc: Incoming, incoming: seq<Incoming>, from: BlockId, to: BlockId) returns (was: Incoming)
    requires inc in RenameIncoming(incoming, from, to)
    ensures was in incoming && inc == was.(block := RenameBlock(was.block, from, to))
  {
    var renamed := RenameIncoming(incoming, from, to);
    var k :| 0 <= k < |renamed| && renamed[k] == inc;
    was := incoming[k];
  }

  /** A PHI of an old block was a PHI there before, with the expanded block in place of its tail. */
  lemma OldPhi(f: Function, b: BlockId, at: nat, g: Function, u: BlockId, y: Instr) returns (was: Instr)
    requires Expandable(f, b, at) && ExpansionOf(f, b, at, g) && u in f.code && u in g.code && y in g.code[u] && y.Phi?
    ensures was in f.code[u] && was.Phi?
    ensures y == if u in f.succs[b] then RenamePhi(was, b, f.nextId) else was
  {
    assert u < f.nextId;
    assert g.code[u] == ExpandedCode(f, b, at, u);
    var c := if u == b then HeadCode(f.code[b], at, f.nextId) else f.code[u];
    var k :| 0 <= k < |c| && y == MaybeRenamed(c, u in f.succs[b], b, f.nextId)[k];
    was := c[k];
    if u == b {
      assert LocalOk(f.code[b]);
      HeadPhiOrigin(f.code[b], at, f.nextId, k);
    }
  }

  lemma OldSource(f: Function, b: BlockId, at: nat, g: Function, u: BlockId, y: Instr, inc: Incoming)
    requires Expandable(f, b, at) && Expanded(f, b, at, g) && u in f.code && u in g.code && PhiUsesDominated(f, u)
    requires y in g.code[u] && y.Phi? && inc in y.incoming
    ensures Reaching(g, inc.block, inc.reg)
  {
    var was := OldPhi(f, b, at, g, u, y);
    var from := inc;
    if u in f.succs[b] {
      from := RenamedSource(inc, was.incoming, b, f.nextId);
    }
    PhiSourcesOld(f, b, at, u);
    assert PhisOk(f, u);
    assert from.block in Sources(was.incoming);
    ReachingMoved(f, b, at, g, from.block, from.reg);
  }

  /** What a gathered select chooses between is no result of the run. */
  lemma {:induction false} ChoicesKept(code: Code, at: nat, j: nat, k: nat)
    requires UsesPrecedeDefs(code) && IsSelectAt(code, at) && at <= j < k <= |code|
    requires PassesScan(code, at, j) && code[j].Select?
    ensures code[j].tv !in DestsOf(code, at, k) && code[j].fv !in DestsOf(code, at, k)
  {
    assert DoesNotRead(code[j], code[k - 1]);
    if k > j + 1 {
      ChoicesKept(code, at, j, k - 1);
    }
  }

  lemma {:induction false} PhiOrigin(code: Code, at: nat, k: nat, head: BlockId, ifFalse: BlockId, y: Instr)
    returns (j: nat)
    requires at <= k <= |code| && y in PhisOf(code, at, k, head, ifFalse)
    ensures at <= j < k && code[j].Select? && y == PhiFor(code[j], head, ifFalse)
  {
    if code[k - 1].Select? && y == PhiFor(code[k - 1], head, ifFalse) {
      j := k - 1;
    } else {
      j := PhiOrigin(code, at, k - 1, head, ifFalse, y);
    }
  }

  lemma ChoiceReaches(f: Function, b: BlockId, at: nat, g: Function, j: nat, r: Reg)
    requires Expanded(f, b, at, g) && b in f.code && LocalOk(f.code[b]) && UsesDominated(f, b)
    requires at <= j <= LastSelect(f.code[b], at) && f.code[b][j].Select?
    requires r == f.code[b][j].tv || r == f.code[b][j].fv
    ensures Reaching(g, b, r) && Reaching(g, f.nextId + 1, r)
  {
    ChoiceInHead(f.code[b], at, f.nextId, j, r, FromOutside(f, b));
    if r in FromOutside(f, b) {
      IncomingMoved(f, b, at, g, b, r);
    } else {
      HeadReaches(f, b, at, g, r);
    }
  }

  lemma ChoiceInHead(code: Code, at: nat, tail: BlockId, j: nat, r: Reg, outside: iset<Reg>)
    requires LocalOk(code) && Covered(code, outside) && IsSelectAt(code, at)
    requires at <= j <= LastSelect(code, at) && code[j].Select? && (r == code[j].tv || r == code[j].fv)
    ensures r in outside || Defines(HeadCode(code, at, tail), r)
  {
    var last := LastSelect(code, at);
    HeadCovered(code, at, tail, outside);
    ChoiceNotGathered(code, at, j);
    ChoiceDefined(code, j, last + 1, r, outside);
  }

  lemma ChoiceNotGathered(code: Code, at: nat, j: nat)
    requires LocalOk(code) && IsSelectAt(code, at) && at <= j <= LastSelect(code, at) && code[j].Select?
    ensures var dests := DestsOf(code, at, LastSelect(code, at) + 1);
            code[j].tv !in dests && code[j].fv !in dests
  {
    GatheredUnstopped(code, at);
    ChoicesKept(code, at, j, LastSelect(code, at) + 1);
  }

  lemma ChoiceDefined(code: Code, j: nat, k: nat, r: Reg, outside: iset<Reg>)
    requires Covered(code, outside) && j < k <= |code| && r in Uses(code[j])
    ensures r in outside || DefinedIn(code, k, r)
  {
    if r !in outside {
      DefinedMore(code, j, k, r);
    }
  }

  lemma TailSources(f: Function, b: BlockId, at: nat, g: Function)
    requires Expanded(f, b, at, g) && b in f.code && LocalOk(f.code[b]) && UsesDominated(f, b) && f.nextId in g.code
    ensures PhiUsesDominated(g, f.nextId)
  {
    TailOriginsOf(f, b, at, g);
    forall y, inc | y in g.code[f.nextId] && y.Phi? && inc in y.incoming ensures Reaching(g, inc.block, inc.reg) {
      TailReached(f, b, at, g, inc);
    }
  }

  lemma TailOriginsOf(f: Function, b: BlockId, at: nat, g: Function)
    requires CanExpand(f, b, at) && Expansion(f, b, at, g) && LocalOk(f.code[b])
    ensures f.nextId in g.code && TailOrigins(g.code[f.nextId], f.code[b], at, b, f.nextId + 1)
  {
    ExpandedTailOrigins(f, b, at);
    assert f.nextId in g.code;
    assert g.code[f.nextId] == ExpandedCode(f, b, at, f.nextId);
  }

  lemma ExpandedTailOrigins(f: Function, b: BlockId, at: nat)
    requires CanExpand(f, b, at) && LocalOk(f.code[b])
    ensures TailOrigins(ExpandedCode(f, b, at, f.nextId), f.code[b], at, b, f.nextId + 1)
  {
    TailOriginsHold(ExpandedCode(f, b, at, f.nextId), f.code[b], at, b, f.nextId + 1);
  }

  lemma TailReached(f: Function, b: BlockId, at: nat, g: Function, inc: Incoming)
    requires Expanded(f, b, at, g) && b in f.code && LocalOk(f.code[b]) && UsesDominated(f, b)
    requires ChosenFrom(f.code[b], at, b, f.nextId + 1, inc)
    ensures Reaching(g, inc.block, inc.reg)
  {
    var j :| at <= j <= LastSelect(f.code[b], at) && f.code[b][j].Select? &&
             (inc.reg == f.code[b][j].tv || inc.reg == f.code[b][j].fv);
    ChoiceReaches(f, b, at, g, j, inc.reg);
  }

  /** A choice of some gathered select, over one of the two edges into the tail. */
  predicate ChosenFrom(code: Code, at: nat, head: BlockId, ifFalse: BlockId, inc: Incoming)
    requires IsSelectAt(code, at)
  {
    && (inc.block == head || inc.block == ifFalse)
    && exists j :: at <= j <= LastSelect(code, at) && code[j].Select? && (inc.reg == code[j].tv || inc.reg == code[j].fv)
  }

  ghost predicate TailOrigins(c: Code, code: Code, at: nat, head: BlockId, ifFalse: BlockId)
    requires IsSelectAt(code, at)
  {
    forall y, inc :: y in c && y.Phi? && inc in y.incoming ==> ChosenFrom(code, at, head, ifFalse, inc)
  }

  lemma TailOriginsHold(c: Code, code: Code, at: nat, head: BlockId, ifFalse: BlockId)
    requires LocalOk(code) && IsSelectAt(code, at) && c == TailCode(code, at, head, ifFalse)
    ensures TailOrigins(c, code, at, head, ifFalse)
  {
    forall y, inc | y in c && y.Phi? && inc in y.incoming ensures ChosenFrom(code, at, head, ifFalse, inc) {
      var j := TailPhiOrigin(code, at, head, ifFalse, y, inc);
    }
  }

  lemma TailPhiOrigin(code: Code, at: nat, head: BlockId, ifFalse: BlockId, y: Instr, inc: Incoming) returns (j: nat)
    requires LocalOk(code) && IsSelectAt(code, at)
    requires y in TailCode(code, at, head, ifFalse) && y.Phi? && inc in y.incoming
    ensures at <= j <= LastSelect(code, at) && code[j].Select? && (inc.block == head || inc.block == ifFalse)
    ensures inc.reg == code[j].tv || inc.reg == code[j].fv
  {
    TailRestNoPhi(code, at);
    j := PhiOrigin(code, at, LastSelect(code, at) + 1, head, ifFalse, y);
  }

  lemma SourcesKept(f: Function, b: BlockId, at: nat, g: Function, u: BlockId)
    requires Expandable(f, b, at) && Expanded(f, b, at, g) && UsesDominated(f, b) && u in g.code
    requires u in f.code ==> PhiUsesDominated(f, u)
    ensures PhiUsesDominated(g, u)
  {
    BlockIsExpanded(f, b, at, g, u);
    if u == f.nextId {
      assert LocalOk(f.code[b]);
      TailSources(f, b, at, g);
    } else if u in f.code {
      OldSources(f, b, at, g, u);
    } else {
      assert g.code[u] == [];
    }
  }

  lemma OldSources(f: Function, b: BlockId, at: nat, g: Function, u: BlockId)
    requires Expandable(f, b, at) && Expanded(f, b, at, g) && u in g.code && u in f.code && PhiUsesDominated(f, u)
    ensures PhiUsesDominated(g, u)
  {
    forall y, inc | y in g.code[u] && y.Phi? && inc in y.incoming ensures Reaching(g, inc.block, inc.reg) {
      OldSource(f, b, at, g, u, y, inc);
    }
  }

  /** The expansion of a function in SSA form is in SSA form: every register is
      still defined at most once, and every use, PHI sources included, is still
      dominated by its definition. */
  lemma ExpansionKeepsSsa(f: Function, b: BlockId, at: nat)
    requires SsaOk(f) && CanExpand(f, b, at)
    ensures SsaOk(Expand(f, b, at))
  {
    var g := Expand(f, b, at);
    ExpansionKeepsCfg(f, b, at);
    ExpandIsExpansionOf(f, b, at);
    EntryKept(f, b, at);
    assert LocalOk(f.code[b]) && UsesDominated(f, b);
    forall r ensures FunctionSum(DefinitionsOf(r), g) <= 1 {
      DefinitionsConserved(f, b, at, r);
      assert FunctionSum(DefinitionsOf(r), f) <= 1;
    }
    forall u | u in g.code ensures UsesDominated(g, u) {
      assert u in f.code ==> UsesDominated(f, u);
      UsesKept(f, b, at, g, u);
    }
    forall u | u in g.code ensures PhiUsesDominated(g, u) {
      assert u in f.code ==> PhiUsesDominated(f, u);
      SourcesKept(f, b, at, g, u);
    }
  }
}

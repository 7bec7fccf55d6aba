/** What the pieces of the triangle do: head, tail and the blocks around them. */
module ExpansionPreserves {
  import opened Wrappers
  import opened Conditions
  import opened MachineIR
  import opened LocalSsa
  import opened SelectExpansion
  import opened SelectSimulation
  import opened WellFormedness

  // ----- Executing the pieces -----

  /** The state after straight-line code, instruction by instruction. */
  function StraightRun<W>(m: Meaning<W>, code: Code, st: State<W>): State<W> {
    if code == [] then st else ExecOne(m, code[|code| - 1], StraightRun(m, code[..|code| - 1], st))
  }

  lemma ExecAlone<W>(m: Meaning<W>, x: Instr, st: State<W>)
    requires !IsTerminator(x)
    ensures Exec(m, [x], st) == Fall(ExecOne(m, x, st))
  {
    assert [x][1..] == [];
  }

  lemma {:induction false} ExecStraightRun<W>(m: Meaning<W>, code: Code, st: State<W>)
    requires StraightUpTo(code, |code|)
    ensures Exec(m, code, st) == Fall(StraightRun(m, code, st))
  {
    if code != [] {
      var init, x := code[..|code| - 1], code[|code| - 1];
      assert code == init + [x];
      ExecStraightRun(m, init, st);
      ExecAppend(m, init, [x], st);
      ExecAlone(m, x, StraightRun(m, init, st));
    }
  }

  lemma {:induction false} RunInPlace<W>(m: Meaning<W>, code: Code, at: nat, k: nat, st: State<W>)
    requires at <= k <= |code|
    ensures StraightRun(m, code[at..k], st) == InPlace(m, code, at, k, st)
  {
    if k > at {
      RunInPlace(m, code, at, k - 1, st);
      assert code[at..k][..k - at - 1] == code[at..k - 1];
    }
  }

  lemma {:induction false} RunKept<W>(m: Meaning<W>, code: Code, at: nat, k: nat, gone: set<nat>, st: State<W>)
    requires at <= k <= |code| && forall d :: d in gone && d < |code| ==> code[d].Debug?
    ensures StraightRun(m, Kept(code, at, k, gone), st) == Skipping(m, code, at, k, st)
  {
    if k > at {
      RunKept(m, code, at, k - 1, gone, st);
      if !code[k - 1].Select? && k - 1 !in gone {
        StraightRunSnoc(m, Kept(code, at, k - 1, gone), code[k - 1], st);
      }
    }
  }

  lemma StraightRunSnoc<W>(m: Meaning<W>, code: Code, x: Instr, st: State<W>)
    ensures StraightRun(m, code + [x], st) == ExecOne(m, x, StraightRun(m, code, st))
  {
    assert (code + [x])[..|code|] == code;
  }

  lemma {:induction false} KeptOrigin(code: Code, at: nat, k: nat, gone: set<nat>, x: Instr)
    requires at <= k <= |code| && x in Kept(code, at, k, gone)
    ensures !x.Select? && exists j :: at <= j < k && code[j] == x
  {
    if k > at && x in Kept(code, at, k - 1, gone) {
      KeptOrigin(code, at, k - 1, gone, x);
    }
  }

  lemma ExecSnoc<W>(m: Meaning<W>, a: Code, x: Instr, st: State<W>)
    ensures Exec(m, a + [x], st) == (match Exec(m, a, st) case Fall(st') => Exec(m, [x], st') case o => o)
  {
    ExecAppend(m, a, [x], st);
  }

  /** A debug instruction at the end makes no difference. */
  lemma ExecNoDebug<W>(m: Meaning<W>, a: Code, x: Instr, st: State<W>)
    requires x.Debug?
    ensures Exec(m, a + [x], st) == Exec(m, a, st)
  {
    ExecSnoc(m, a, x, st);
    if Exec(m, a, st).Fall? {
      ExecAlone(m, x, Exec(m, a, st).st);
    }
  }

  lemma {:induction false} ExecRest<W>(m: Meaning<W>, code: Code, lo: nat, hi: nat, gone: set<nat>, st: State<W>)
    requires lo <= hi <= |code| && forall d :: d in gone && d < |code| ==> code[d].Debug?
    ensures Exec(m, Without(code, lo, hi, gone), st) == Exec(m, code[lo..hi], st)
  {
    if lo < hi {
      ExecRest(m, code, lo, hi - 1, gone, st);
      var kept, all, x := Without(code, lo, hi - 1, gone), code[lo..hi - 1], code[hi - 1];
      assert code[lo..hi] == all + [x];
      if hi - 1 in gone {
        assert kept + [] == kept;
        ExecNoDebug(m, all, x, st);
      } else {
        ExecSnoc(m, kept, x, st);
        ExecSnoc(m, all, x, st);
      }
    }
  }

  lemma {:induction false} ExecDebug<W>(m: Meaning<W>, debug: Code, rest: Code, st: State<W>)
    requires forall k :: 0 <= k < |debug| ==> debug[k].Debug?
    ensures Exec(m, debug + rest, st) == Exec(m, rest, st)
  {
    if debug == [] {
      assert debug + rest == rest;
    } else {
      assert (debug + rest)[1..] == debug[1..] + rest;
      ExecDebug(m, debug[1..], rest, st);
    }
  }

  lemma {:induction false} EnterPhisAppend(a: Code, b: Code, pred: BlockId, before: Regs, acc: Regs)
    requires (forall x :: x in a ==> x.Phi?) && (forall x :: x in b ==> x.Phi?) && (forall x :: x in a + b ==> x.Phi?)
    ensures EnterPhis(a + b, pred, before, acc) ==
            (match EnterPhis(a, pred, before, acc)
             case None => None
             case Some(regs) => EnterPhis(b, pred, before, regs))
  {
    if a == [] {
      assert a + b == b;
    } else {
      assert (a + b)[0] == a[0] && (a + b)[1..] == a[1..] + b;
      match IncomingReg(a[0].incoming, pred)
      case None =>
      case Some(r) => EnterPhisAppend(a[1..], b, pred, before, acc[a[0].dst := Read(before, r)]);
    }
  }

  lemma OnePhi(x: Instr, head: BlockId, ifFalse: BlockId, pred: BlockId, before: Regs, acc: Regs)
    requires x.Select? && head != ifFalse && (pred == head || pred == ifFalse)
    ensures EnterPhis([PhiFor(x, head, ifFalse)], pred, before, acc) ==
            Some(acc[x.dst := Read(before, if pred == head then x.tv else x.fv)])
  {
    var inc := PhiFor(x, head, ifFalse).incoming;
    assert inc[1..] == [Incoming(x.fv, ifFalse)];
    assert IncomingReg(inc, pred) == Some(if pred == head then x.tv else x.fv);
    assert [PhiFor(x, head, ifFalse)][1..] == [];
  }

  lemma {:induction false} EnterRunPhis(code: Code, at: nat, k: nat, head: BlockId, ifFalse: BlockId,
                                        pred: BlockId, regs: Regs)
    requires at <= k <= |code| && head != ifFalse && (pred == head || pred == ifFalse)
    ensures EnterPhis(PhisOf(code, at, k, head, ifFalse), pred, regs, regs) ==
            Some(AllAtOnce(code, at, k, pred == head, regs))
  {
    if k > at {
      EnterRunPhis(code, at, k - 1, head, ifFalse, pred, regs);
      var x := code[k - 1];
      if x.Select? {
        EnterPhisAppend(PhisOf(code, at, k - 1, head, ifFalse), [PhiFor(x, head, ifFalse)], pred, regs, regs);
        OnePhi(x, head, ifFalse, pred, regs, AllAtOnce(code, at, k - 1, pred == head, regs));
      }
    }
  }

  // ----- Renamed edges -----

  function RenameBlock(x: BlockId, from: BlockId, to: BlockId): BlockId {
    if x == from then to else x
  }

  lemma {:induction false} IncomingRenamed(incoming: seq<Incoming>, pred: BlockId, from: BlockId, to: BlockId)
    requires pred != to && to !in Sources(incoming)
    ensures IncomingReg(RenameIncoming(incoming, from, to), RenameBlock(pred, from, to)) == IncomingReg(incoming, pred)
  {
    if incoming != [] {
      assert incoming[0] in incoming;
      assert forall inc :: inc in incoming[1..] ==> inc in incoming;
      assert RenameIncoming(incoming, from, to)[1..] == RenameIncoming(incoming[1..], from, to);
      IncomingRenamed(incoming[1..], pred, from, to);
    }
  }

  lemma {:induction false} IncomingAbsent(incoming: seq<Incoming>, pred: BlockId)
    requires pred !in Sources(incoming)
    ensures IncomingReg(incoming, pred) == None
  {
    if incoming != [] {
      assert incoming[0] in incoming;
      assert forall inc :: inc in incoming[1..] ==> inc in incoming;
      IncomingAbsent(incoming[1..], pred);
    }
  }

  /** Reading the PHIs of a block over an edge that now starts elsewhere. */
  lemma {:induction false} EnterRenamed(phis: Code, renamed: bool, pred: BlockId, from: BlockId, to: BlockId,
                                        before: Regs, acc: Regs)
    requires forall x :: x in phis ==> x.Phi? && to !in Sources(x.incoming)
    requires !renamed ==> forall x :: x in phis ==> from !in Sources(x.incoming)
    requires pred != to && forall x :: x in MaybeRenamed(phis, renamed, from, to) ==> x.Phi?
    ensures EnterPhis(MaybeRenamed(phis, renamed, from, to), RenameBlock(pred, from, to), before, acc) ==
            EnterPhis(phis, pred, before, acc)
  {
    if phis != [] {
      var x := phis[0];
      assert x in phis;
      var phis' := MaybeRenamed(phis, renamed, from, to);
      assert phis'[1..] == MaybeRenamed(phis[1..], renamed, from, to);
      if renamed {
        IncomingRenamed(x.incoming, pred, from, to);
      } else if pred == from {
        IncomingAbsent(x.incoming, from);
        IncomingAbsent(x.incoming, to);
      }
      match IncomingReg(x.incoming, pred)
      case None =>
      case Some(r) => EnterRenamed(phis[1..], renamed, pred, from, to, before, acc[x.dst := Read(before, r)]);
    }
  }

  // ----- The three blocks -----

  lemma PhiCountOf(phis: Code, rest: Code)
    requires (forall x :: x in phis ==> x.Phi?) && (rest == [] || !rest[0].Phi?)
    ensures PhiCount(phis + rest) == |phis|
    ensures (phis + rest)[..|phis|] == phis && (phis + rest)[|phis|..] == rest
  {
    var code := phis + rest;
    forall k | 0 <= k < |phis| ensures code[k].Phi? {
      assert phis[k] in phis;
    }
    assert rest != [] ==> code[|phis|] == rest[0];
  }

  lemma RunCodeSplit<W>(m: Meaning<W>, phis: Code, rest: Code, pred: BlockId, st: State<W>)
    requires (forall x :: x in phis ==> x.Phi?) && (forall x :: x in rest ==> !x.Phi?)
    ensures RunCode(m, phis + rest, pred, st) ==
            (match EnterPhis(phis, pred, st.regs, st.regs)
             case None => None
             case Some(regs) => Some(Exec(m, rest, st.(regs := regs))))
  {
    assert rest == [] || rest[0] in rest;
    PhiCountOf(phis, rest);
  }

  lemma ExecThree<W>(m: Meaning<W>, a: Code, b: Code, c: Code, st: State<W>, s1: State<W>, s2: State<W>)
    requires Exec(m, a, st) == Fall(s1) && Exec(m, b, s1) == Fall(s2)
    ensures Exec(m, a + b + c, st) == Exec(m, c, s2)
  {
    ExecAppend(m, a, b, st);
    ExecAppend(m, a + b, c, st);
  }

  predicate StraightUpTo(code: Code, hi: nat)
    requires hi <= |code|
  {
    forall j :: 0 <= j < hi ==> !IsTerminator(code[j])
  }

  lemma StraightToSelect(code: Code, at: nat)
    requires LocalOk(code) && IsSelectAt(code, at)
    ensures StraightUpTo(code, LastSelect(code, at) + 1)
  {
  }

  lemma NotPhi(code: Code, k: nat)
    requires PhisFirst(code) && PhiCount(code) <= k < |code|
    ensures !code[k].Phi?
  {
    assert code[PhiCount(code)..][k - PhiCount(code)] == code[k];
  }

  lemma PhisBeforeSelects(code: Code, at: nat)
    requires LocalOk(code) && IsSelectAt(code, at)
    ensures PhiCount(code) <= at
  {
  }

  /** The block before expansion, from the end of its PHIs. */
  lemma OldBlock<W>(m: Meaning<W>, code: Code, n: nat, at: nat, last: nat, s0: State<W>)
    requires n <= at <= last < |code| && StraightUpTo(code, last + 1)
    ensures Exec(m, code[n..], s0) ==
            Exec(m, code[last + 1..], InPlace(m, code, at, last + 1, InPlace(m, code, n, at, s0)))
  {
    SliceThen(m, code, n, at, s0);
    SliceThen(m, code, at, last + 1, InPlace(m, code, n, at, s0));
  }

  lemma SliceThen<W>(m: Meaning<W>, code: Code, lo: nat, hi: nat, st: State<W>)
    requires lo <= hi <= |code| && StraightUpTo(code, hi)
    ensures Exec(m, code[lo..], st) == Exec(m, code[hi..], InPlace(m, code, lo, hi, st))
  {
    SliceRun(m, code, lo, hi, st);
    assert code[lo..] == code[lo..hi] + code[hi..];
    ExecAppend(m, code[lo..hi], code[hi..], st);
  }

  lemma SliceRun<W>(m: Meaning<W>, code: Code, lo: nat, hi: nat, st: State<W>)
    requires lo <= hi <= |code| && StraightUpTo(code, hi)
    ensures Exec(m, code[lo..hi], st) == Fall(InPlace(m, code, lo, hi, st))
  {
    ExecStraightRun(m, code[lo..hi], st);
    RunInPlace(m, code, lo, hi, st);
  }

  function KeptRun(code: Code, at: nat): Code
    requires IsSelectAt(code, at)
  {
    Kept(code, at, LastSelect(code, at) + 1, Positions(Moved(code, at)))
  }

  lemma GatheredRun<W>(m: Meaning<W>, code: Code, at: nat, st: State<W>)
    requires IsSelectAt(code, at) && StraightUpTo(code, LastSelect(code, at) + 1)
    ensures Exec(m, KeptRun(code, at), st) == Fall(Skipping(m, code, at, LastSelect(code, at) + 1, st))
  {
    GatheredStraight(code, at);
    ExecStraightRun(m, KeptRun(code, at), st);
    RunKept(m, code, at, LastSelect(code, at) + 1, Positions(Moved(code, at)), st);
  }

  lemma GatheredStraight(code: Code, at: nat)
    requires IsSelectAt(code, at) && StraightUpTo(code, LastSelect(code, at) + 1)
    ensures StraightUpTo(KeptRun(code, at), |KeptRun(code, at)|)
  {
    var kept := KeptRun(code, at);
    forall k | 0 <= k < |kept| ensures !IsTerminator(kept[k]) {
      KeptOrigin(code, at, LastSelect(code, at) + 1, Positions(Moved(code, at)), kept[k]);
    }
  }

  /** The head, from the end of its PHIs: the same prefix, the run without its selects, and the branch. */
  lemma HeadBlock<W>(m: Meaning<W>, code: Code, n: nat, at: nat, tail: BlockId, s0: State<W>)
    requires IsSelectAt(code, at) && n <= at && StraightUpTo(code, LastSelect(code, at) + 1)
    requires Unstopped(code, at, LastSelect(code, at) + 1) && UsesPrecedeDefs(code) && DistinctDefs(code)
    ensures var s1 := InPlace(m, code, n, at, s0);
            var n1 := Skipping(m, code, at, LastSelect(code, at) + 1, s1);
            Exec(m, HeadCode(code, at, tail)[n..], s0) ==
            if ConditionAt(m, code, at, s1) then Goto(tail, n1) else Fall(n1)
  {
    var last := LastSelect(code, at);
    var s1 := InPlace(m, code, n, at, s0);
    HeadRuns(m, code, n, at, tail, s0);
    RunSim(m, code, at, last + 1, s1);
    BranchAlone(m, code, at, tail, s1, Skipping(m, code, at, last + 1, s1));
  }

  lemma HeadRuns<W>(m: Meaning<W>, code: Code, n: nat, at: nat, tail: BlockId, s0: State<W>)
    requires IsSelectAt(code, at) && n <= at && StraightUpTo(code, LastSelect(code, at) + 1)
    ensures var n1 := Skipping(m, code, at, LastSelect(code, at) + 1, InPlace(m, code, n, at, s0));
            Exec(m, HeadCode(code, at, tail)[n..], s0) ==
            Exec(m, [CondBr(GetBrCond(code[at].cc), code[at].lhs, code[at].rhs, tail)], n1)
  {
    var s1 := InPlace(m, code, n, at, s0);
    HeadFrom(code, n, at, tail);
    SliceRun(m, code, n, at, s0);
    GatheredRun(m, code, at, s1);
    ExecThree(m, code[n..at], KeptRun(code, at), [CondBr(GetBrCond(code[at].cc), code[at].lhs, code[at].rhs, tail)],
              s0, s1, Skipping(m, code, at, LastSelect(code, at) + 1, s1));
  }

  lemma HeadFrom(code: Code, n: nat, at: nat, tail: BlockId)
    requires IsSelectAt(code, at) && n <= at
    ensures HeadCode(code, at, tail)[n..] ==
            code[n..at] + KeptRun(code, at) +
            [CondBr(GetBrCond(code[at].cc), code[at].lhs, code[at].rhs, tail)]
    ensures HeadCode(code, at, tail)[..n] == code[..n]
  {
  }

  lemma BranchAlone<W>(m: Meaning<W>, code: Code, at: nat, tail: BlockId, s1: State<W>, n1: State<W>)
    requires IsSelectAt(code, at)
    requires Read(n1.regs, code[at].lhs) == Read(s1.regs, code[at].lhs)
    requires Read(n1.regs, code[at].rhs) == Read(s1.regs, code[at].rhs)
    ensures Exec(m, [CondBr(GetBrCond(code[at].cc), code[at].lhs, code[at].rhs, tail)], n1) ==
            if ConditionAt(m, code, at, s1) then Goto(tail, n1) else Fall(n1)
  {
    var br := CondBr(GetBrCond(code[at].cc), code[at].lhs, code[at].rhs, tail);
    BrCondTaken(m.cmp, code[at].cc, Read(s1.regs, code[at].lhs), Read(s1.regs, code[at].rhs));
    assert [br][1..] == [];
  }

  /** Entering the tail, all PHIs at once do what the selects do. */
  lemma TailEnters(code: Code, at: nat, head: BlockId, ifFalse: BlockId, holds: bool, regs: Regs)
    requires IsSelectAt(code, at) && head != ifFalse
    ensures EnterPhis(PhisOf(code, at, LastSelect(code, at) + 1, head, ifFalse), if holds then head else ifFalse, regs, regs) ==
            Some(AllAtOnce(code, at, LastSelect(code, at) + 1, holds, regs))
  {
    EnterRunPhis(code, at, LastSelect(code, at) + 1, head, ifFalse, if holds then head else ifFalse, regs);
  }

  /** The tail: all PHIs at once, then what followed the run. */
  lemma TailBlock<W>(m: Meaning<W>, code: Code, at: nat, head: BlockId, ifFalse: BlockId, holds: bool, n1: State<W>)
    requires LocalOk(code) && IsSelectAt(code, at) && head != ifFalse
    ensures var last := LastSelect(code, at);
            RunCode(m, TailCode(code, at, head, ifFalse), if holds then head else ifFalse, n1) ==
            Some(Exec(m, code[last + 1..], n1.(regs := AllAtOnce(code, at, last + 1, holds, n1.regs))))
  {
    var regs := AllAtOnce(code, at, LastSelect(code, at) + 1, holds, n1.regs);
    TailEnters(code, at, head, ifFalse, holds, n1.regs);
    TailRestNoPhi(code, at);
    TailRestRun(m, code, at, n1.(regs := regs));
    EnterThenRun(m, PhisOf(code, at, LastSelect(code, at) + 1, head, ifFalse), TailRest(code, at),
                 if holds then head else ifFalse, n1, regs);
  }

  lemma EnterThenRun<W>(m: Meaning<W>, phis: Code, rest: Code, pred: BlockId, st: State<W>, regs: Regs)
    requires (forall x :: x in phis ==> x.Phi?) && (forall x :: x in rest ==> !x.Phi?)
    requires EnterPhis(phis, pred, st.regs, st.regs) == Some(regs)
    ensures RunCode(m, phis + rest, pred, st) == Some(Exec(m, rest, st.(regs := regs)))
  {
    RunCodeSplit(m, phis, rest, pred, st);
  }

  lemma TailRestRun<W>(m: Meaning<W>, code: Code, at: nat, st: State<W>)
    requires IsSelectAt(code, at)
    ensures Exec(m, TailRest(code, at), st) == Exec(m, code[LastSelect(code, at) + 1..], st)
  {
    PickDebug(code, at);
    GoneAreDebug(code, at);
    RestRun(m, code, LastSelect(code, at) + 1, Pick(code, Moved(code, at)), Positions(Moved(code, at)), st);
  }

  lemma PickDebug(code: Code, at: nat)
    requires IsSelectAt(code, at)
    ensures forall x :: x in Pick(code, Moved(code, at)) ==> x.Debug?
  {
    var moved := Moved(code, at);
    assert forall j :: 0 <= j < |moved| ==> moved[j] in moved;
  }

  lemma RestRun<W>(m: Meaning<W>, code: Code, lo: nat, debug: Code, gone: set<nat>, st: State<W>)
    requires lo <= |code| && (forall x :: x in debug ==> x.Debug?)
    requires forall d :: d in gone ==> d < |code| && code[d].Debug?
    ensures Exec(m, debug + Without(code, lo, |code|, gone), st) == Exec(m, code[lo..], st)
  {
    ExecDebug(m, debug, Without(code, lo, |code|, gone), st);
    ExecRest(m, code, lo, |code|, gone, st);
    assert code[lo..|code|] == code[lo..];
  }

  lemma {:induction false} WithoutOrigin(code: Code, lo: nat, hi: nat, gone: set<nat>, x: Instr)
    requires lo <= hi <= |code| && x in Without(code, lo, hi, gone)
    ensures exists j :: lo <= j < hi && j !in gone && code[j] == x
  {
    if lo < hi && x in Without(code, lo, hi - 1, gone) {
      WithoutOrigin(code, lo, hi - 1, gone, x);
    }
  }

  lemma TailRestNoPhi(code: Code, at: nat)
    requires LocalOk(code) && IsSelectAt(code, at)
    ensures forall x :: x in TailRest(code, at) ==> !x.Phi?
  {
    var last, moved := LastSelect(code, at), Moved(code, at);
    PhisBeforeSelects(code, at);
    forall k | 0 <= k < |moved| ensures Pick(code, moved)[k].Debug? {
      assert moved[k] in moved;
    }
    WithoutNoPhi(code, last + 1, |code|, Positions(moved));
  }

  lemma {:induction false} WithoutNoPhi(code: Code, lo: nat, hi: nat, gone: set<nat>)
    requires PhisFirst(code) && PhiCount(code) <= lo <= hi <= |code|
    ensures forall x :: x in Without(code, lo, hi, gone) ==> !x.Phi?
  {
    if lo < hi {
      WithoutNoPhi(code, lo, hi - 1, gone);
      NotPhi(code, hi - 1);
    }
  }

  // ----- Control over renamed edges and the new layout -----

  lemma RunRenamed<W>(m: Meaning<W>, phis: Code, rest: Code, renamed: bool, pred: BlockId, from: BlockId, to: BlockId,
                      st: State<W>)
    requires forall x :: x in phis ==> x.Phi? && to !in Sources(x.incoming)
    requires !renamed ==> forall x :: x in phis ==> from !in Sources(x.incoming)
    requires pred != to && forall x :: x in rest ==> !x.Phi?
    ensures RunCode(m, MaybeRenamed(phis + rest, renamed, from, to), RenameBlock(pred, from, to), st) ==
            RunCode(m, phis + rest, pred, st)
  {
    var phis', rest' := MaybeRenamed(phis, renamed, from, to), MaybeRenamed(rest, renamed, from, to);
    assert MaybeRenamed(phis + rest, renamed, from, to) == phis' + rest';
    assert rest' == rest;
    EnterRenamed(phis, renamed, pred, from, to, st.regs, st.regs);
    RunCodeSplit(m, phis', rest, RenameBlock(pred, from, to), st);
    RunCodeSplit(m, phis, rest, pred, st);
  }

  lemma {:induction false} NextInserted(layout: seq<BlockId>, b: BlockId, ifFalse: BlockId, tail: BlockId, x: BlockId)
    requires NoRepeats(layout) && b in layout && ifFalse !in layout && tail !in layout && ifFalse != tail
    ensures var layout' := InsertAfter(layout, b, [ifFalse, tail]);
            && (x in layout && x != b ==> NextInLayout(layout', x) == NextInLayout(layout, x))
            && NextInLayout(layout', b) == Some(ifFalse)
            && NextInLayout(layout', ifFalse) == Some(tail)
            && NextInLayout(layout', tail) == NextInLayout(layout, b)
  {
    var layout', rest := InsertAfter(layout, b, [ifFalse, tail]), layout[1..];
    assert layout == [layout[0]] + rest;
    if layout[0] == b {
      assert layout' == [b] + ([ifFalse] + ([tail] + rest));
      NextAbsent(rest, b);
      NextAbsent(rest, tail);
      if x != b {
        NextCons(b, [ifFalse] + ([tail] + rest), x);
        NextCons(ifFalse, [tail] + rest, x);
        NextCons(tail, rest, x);
        NextCons(b, rest, x);
      }
      NextCons(b, [ifFalse] + ([tail] + rest), b);
      NextCons(b, rest, b);
      NextCons(ifFalse, [tail] + rest, ifFalse);
      NextCons(tail, rest, tail);
      NextCons(b, [ifFalse] + ([tail] + rest), ifFalse);
      NextCons(b, [ifFalse] + ([tail] + rest), tail);
      NextCons(ifFalse, [tail] + rest, tail);
    } else {
      NextInserted(rest, b, ifFalse, tail, x);
      assert layout'[1..] == InsertAfter(rest, b, [ifFalse, tail]);
      HeadOfInserted(rest, b, [ifFalse, tail]);
    }
  }

  lemma NextCons(y: BlockId, rest: seq<BlockId>, x: BlockId)
    ensures x != y ==> NextInLayout([y] + rest, x) == NextInLayout(rest, x)
    ensures x == y ==> NextInLayout([y] + rest, x) == if rest == [] then None else Some(rest[0])
  {
    assert ([y] + rest)[1..] == rest;
    if rest == [] {
    } else {
      assert ([y] + rest)[1] == rest[0];
    }
  }

  lemma HeadOfInserted(layout: seq<BlockId>, b: BlockId, xs: seq<BlockId>)
    requires layout != []
    ensures InsertAfter(layout, b, xs) != [] && InsertAfter(layout, b, xs)[0] == layout[0]
  {
  }

  lemma {:induction false} NextAbsent(layout: seq<BlockId>, x: BlockId)
    requires x !in layout
    ensures NextInLayout(layout, x) == None
  {
    if |layout| >= 2 {
      NextAbsent(layout[1..], x);
    }
  }
}

/** Moving the components of a target string to their canonical positions. */
module TripleComponents {

  type Components = seq<string>

  /** Which of the four canonical positions hold their final component. */
  type Found = f: seq<bool> | |f| == 4 witness [false, false, false, false]

  /** `accepts(p, c)`: does the search take component `c` for position `p`?
      `settles(p, c)`: does `c` stay if it is there to begin with? */
  datatype Rules = Rules(accepts: (nat, string) -> bool, settles: (nat, string) -> bool)

  /** What the permutation needs of the parsers. */
  ghost predicate Sound(rules: Rules) {
    && (forall p {:trigger rules.accepts(p, "")} :: !rules.accepts(p, ""))
    && (forall p, c {:trigger rules.settles(p, c)} :: rules.settles(p, c) ==> rules.accepts(p, c))
  }

  // ----- Positions -----

  predicate IsFixed(found: Found, i: nat) {
    i < 4 && found[i]
  }

  /** The first position from `i` on that is not fixed. */
  function NextFree(found: Found, i: nat): (j: nat)
    ensures i <= j && !IsFixed(found, j)
    ensures forall k :: i <= k < j ==> IsFixed(found, k)
    decreases 4 - i
  {
    if IsFixed(found, i) then NextFree(found, i + 1) else i
  }

  // ----- Pushing components to the right -----

  /** Puts `current` at the free position `i`, what was there at the next free
      position, and so on, until an empty component or the end is reached. */
  function Ripple(cs: Components, found: Found, i: nat, current: string): (r: Components)
    requires !IsFixed(found, i)
    ensures |r| >= |cs|
    decreases |cs| - i
  {
    if i >= |cs| then cs + [current]
    else if cs[i] == "" then cs[i := current]
    else Ripple(cs[i := current], found, NextFree(found, i + 1), cs[i])
  }

  /** Takes the component at `idx` out and inserts it at `pos`, to its left. */
  function InsertLeft(cs: Components, found: Found, pos: nat, idx: nat): Components
    requires pos < idx < |cs| && !IsFixed(found, pos)
  {
    Ripple(cs[idx := ""], found, pos, cs[idx])
  }

  /** Inserts empty components at `idx` until what was there has reached `pos`. */
  function PushRight(cs: Components, found: Found, pos: nat, idx: nat): Components
    requires idx < |cs| && idx <= pos && !IsFixed(found, idx) && !IsFixed(found, pos)
    decreases pos - idx
  {
    if idx == pos then cs
    else
      var next := NextFree(found, idx + 1);
      var pushed := Ripple(cs, found, idx, "");
      if next < |pushed| && next <= pos then PushRight(pushed, found, pos, next) else pushed
  }

  // ----- What a ripple does -----

  /** The non-empty components at free positions from `lo` up to `hi`, in order. */
  function Loose(cs: Components, found: Found, lo: nat, hi: nat): seq<string>
    requires lo <= hi <= |cs|
  {
    if lo == hi then []
    else if IsFixed(found, hi - 1) || cs[hi - 1] == "" then Loose(cs, found, lo, hi - 1)
    else Loose(cs, found, lo, hi - 1) + [cs[hi - 1]]
  }

  function Only(c: string): seq<string> {
    if c == "" then [] else [c]
  }

  /** Only positions that exist are fixed. */
  predicate Placed(cs: Components, found: Found) {
    forall p :: 0 <= p < 4 && found[p] ==> p < |cs|
  }

  lemma {:induction false} NextFreeInside(cs: Components, found: Found, i: nat)
    requires Placed(cs, found) && i <= |cs|
    ensures NextFree(found, i) <= |cs|
    decreases 4 - i
  {
    if IsFixed(found, i) {
      NextFreeInside(cs, found, i + 1);
    }
  }

  /** Fixed positions, and everything to the left of `i`, stay as they are. */
  ghost predicate Same(cs: Components, r: Components, found: Found, i: nat) {
    && |r| >= |cs|
    && forall k {:trigger r[k]} :: 0 <= k < |cs| && (k < i || IsFixed(found, k)) ==> r[k] == cs[k]
  }

  lemma {:induction false} RippleFrame(cs: Components, found: Found, i: nat, current: string)
    requires !IsFixed(found, i) && i <= |cs|
    ensures var r := Ripple(cs, found, i, current); Same(cs, r, found, i) && i < |r| && r[i] == current
    decreases |cs| - i
  {
    if i < |cs| && cs[i] != "" {
      var next := NextFree(found, i + 1);
      if next <= |cs| {
        RippleFrame(cs[i := current], found, next, cs[i]);
      }
    }
  }

  /** An empty component on the way ends the ripple. */
  lemma {:induction false} RippleStops(cs: Components, found: Found, i: nat, current: string, j: nat)
    requires !IsFixed(found, i) && i <= j < |cs| && !IsFixed(found, j) && cs[j] == ""
    ensures var r := Ripple(cs, found, i, current); |r| == |cs| && forall k :: j < k < |cs| ==> r[k] == cs[k]
    decreases |cs| - i
  {
    if cs[i] != "" {
      RippleStops(cs[i := current], found, NextFree(found, i + 1), cs[i], j);
    }
  }

  lemma {:induction false} LooseSplit(cs: Components, found: Found, lo: nat, mid: nat, hi: nat)
    requires lo <= mid <= hi <= |cs|
    ensures Loose(cs, found, lo, hi) == Loose(cs, found, lo, mid) + Loose(cs, found, mid, hi)
  {
    if mid < hi {
      LooseSplit(cs, found, lo, mid, hi - 1);
    }
  }

  /** The same components at the same positions, and no difference in what is fixed. */
  ghost predicate Alike(cs: Components, r: Components, found: Found, found': Found, lo: nat, hi: nat)
    requires lo <= hi <= |cs| && hi <= |r|
  {
    forall k {:trigger AlikeAt(cs, r, found, found', k)} :: lo <= k < hi ==> AlikeAt(cs, r, found, found', k)
  }

  predicate AlikeAt(cs: Components, r: Components, found: Found, found': Found, k: nat)
    requires k < |cs| && k < |r|
  {
    (IsFixed(found, k) <==> IsFixed(found', k)) && (IsFixed(found, k) || r[k] == cs[k])
  }

  lemma {:induction false} LooseAlike(cs: Components, r: Components, found: Found, found': Found, lo: nat, hi: nat)
    requires lo <= hi <= |cs| && hi <= |r| && Alike(cs, r, found, found', lo, hi)
    ensures Loose(r, found', lo, hi) == Loose(cs, found, lo, hi)
  {
    if lo < hi {
      assert AlikeAt(cs, r, found, found', hi - 1);
      LooseAlike(cs, r, found, found', lo, hi - 1);
    }
  }

  /** Nothing but fixed positions and empty components. */
  ghost predicate Vacant(cs: Components, found: Found, lo: nat, hi: nat)
    requires hi <= |cs|
  {
    forall k {:trigger cs[k]} :: lo <= k < hi ==> IsFixed(found, k) || cs[k] == ""
  }

  lemma {:induction false} LooseVacant(cs: Components, found: Found, lo: nat, hi: nat)
    requires lo <= hi <= |cs| && Vacant(cs, found, lo, hi)
    ensures Loose(cs, found, lo, hi) == []
  {
    if lo < hi {
      assert Vacant(cs, found, lo, hi - 1);
      assert cs[hi - 1] == cs[hi - 1];
      LooseVacant(cs, found, lo, hi - 1);
    }
  }

  lemma LooseAt(cs: Components, found: Found, i: nat)
    requires i < |cs| && !IsFixed(found, i)
    ensures Loose(cs, found, i, i + 1) == Only(cs[i])
  {
    assert Loose(cs, found, i, i) == [];
  }

  lemma {:induction false} RippleLoose(cs: Components, found: Found, i: nat, current: string)
    requires !IsFixed(found, i) && i <= |cs| && Placed(cs, found)
    ensures var r := Ripple(cs, found, i, current);
            Loose(r, found, i, |r|) == Only(current) + Loose(cs, found, i, |cs|)
    decreases |cs| - i
  {
    var r := Ripple(cs, found, i, current);
    RippleFrame(cs, found, i, current);
    LooseSplit(r, found, i, i + 1, |r|);
    LooseAt(r, found, i);
    if i < |cs| {
      LooseSplit(cs, found, i, i + 1, |cs|);
      LooseAt(cs, found, i);
      if cs[i] == "" {
        LooseAlike(cs, r, found, found, i + 1, |cs|);
      } else {
        RippleLooseOn(cs, found, i, current);
      }
    }
  }

  /** The rest of a ripple that displaced a component at `i`. */
  lemma {:induction false} RippleLooseOn(cs: Components, found: Found, i: nat, current: string)
    requires !IsFixed(found, i) && i < |cs| && Placed(cs, found) && cs[i] != ""
    ensures var r := Ripple(cs, found, i, current);
            Loose(r, found, i + 1, |r|) == [cs[i]] + Loose(cs, found, i + 1, |cs|)
    decreases |cs| - i, 0
  {
    var r, next, cs' := Ripple(cs, found, i, current), NextFree(found, i + 1), cs[i := current];
    NextFreeInside(cs, found, i + 1);
    RippleLoose(cs', found, next, cs[i]);
    RippleFrame(cs', found, next, cs[i]);
    LooseSplit(r, found, i + 1, next, |r|);
    LooseSplit(cs, found, i + 1, next, |cs|);
    LooseVacant(r, found, i + 1, next);
    LooseVacant(cs, found, i + 1, next);
    LooseAlike(cs', cs, found, found, next, |cs|);
  }

  /** A ripple adds its component and loses none. */
  lemma {:induction false} RippleConserves(cs: Components, found: Found, i: nat, current: string, s: string)
    requires !IsFixed(found, i) && s != ""
    ensures multiset(Ripple(cs, found, i, current))[s] == multiset(cs)[s] + if s == current then 1 else 0
    decreases |cs| - i
  {
    if i < |cs| && cs[i] != "" {
      RippleConserves(cs[i := current], found, NextFree(found, i + 1), cs[i], s);
    }
  }

  // ----- What moving a component does -----

  /** Component `idx` has moved to `pos`: no fixed component has moved, the
      others keep their order, none is lost, and to the left of `pos` free
      positions are as before, if they come before `idx`, or empty. */
  ghost predicate Arrived(cs: Components, found: Found, pos: nat, idx: nat, r: Components)
    requires idx < |cs| && pos < 4
  {
    && |r| >= |cs| && pos < |r| && r[pos] == cs[idx]
    && (forall k {:trigger r[k]} :: 0 <= k < |cs| && IsFixed(found, k) ==> r[k] == cs[k])
    && Loose(r, found[pos := true], 0, |r|) == Loose(cs[idx := ""], found, 0, |cs|)
    && (forall s {:trigger multiset(r)[s]} :: s != "" ==> multiset(r)[s] == multiset(cs)[s])
    && (forall k {:trigger r[k]} :: 0 <= k < pos && !IsFixed(found, k) ==> r[k] == "" || (k < idx && r[k] == cs[k]))
  }

  lemma SameEverywhere(cs: Components, r: Components, found: Found, found': Found, lo: nat, hi: nat)
    requires lo <= hi <= |cs| && hi <= |r|
    requires forall k :: lo <= k < hi ==> (IsFixed(found, k) <==> IsFixed(found', k)) && (r[k] == cs[k] || IsFixed(found, k))
    ensures Loose(r, found', lo, hi) == Loose(cs, found, lo, hi)
  {
    forall k | lo <= k < hi ensures AlikeAt(cs, r, found, found', k) {
    }
    LooseAlike(cs, r, found, found', lo, hi);
  }

  /** With the component at `pos` fixed, what remains loose is what is left of it and what is right of it. */
  lemma LooseAround(r: Components, found: Found, pos: nat)
    requires pos < |r| && pos < 4 && !IsFixed(found, pos)
    ensures Loose(r, found[pos := true], 0, |r|) == Loose(r, found, 0, pos) + Loose(r, found, pos + 1, |r|)
  {
    var found' := found[pos := true];
    LooseSplit(r, found', 0, pos, |r|);
    LooseSplit(r, found', pos, pos + 1, |r|);
    assert Loose(r, found', pos, pos + 1) == [];
    SameEverywhere(r, r, found, found', 0, pos);
    SameEverywhere(r, r, found, found', pos + 1, |r|);
  }

  lemma CancelHead(x: string, a: seq<string>, b: seq<string>)
    requires [x] + a == [x] + b
    ensures a == b
  {
    assert ([x] + a)[1..] == a && ([x] + b)[1..] == b;
  }

  lemma InsertedLeft(cs: Components, found: Found, pos: nat, idx: nat)
    requires pos < idx < |cs| && pos < 4 && !IsFixed(found, pos) && !IsFixed(found, idx)
    requires Placed(cs, found) && cs[idx] != ""
    ensures Arrived(cs, found, pos, idx, InsertLeft(cs, found, pos, idx))
    ensures |InsertLeft(cs, found, pos, idx)| == |cs|
  {
    var cs', r := cs[idx := ""], InsertLeft(cs, found, pos, idx);
    RippleFrame(cs', found, pos, cs[idx]);
    RippleStops(cs', found, pos, cs[idx], idx);
    forall s | s != "" ensures multiset(r)[s] == multiset(cs)[s] {
      RippleConserves(cs', found, pos, cs[idx], s);
    }
    InsertedLoose(cs, found, pos, idx, r);
  }

  lemma InsertedLoose(cs: Components, found: Found, pos: nat, idx: nat, r: Components)
    requires pos < idx < |cs| && pos < 4 && !IsFixed(found, pos) && !IsFixed(found, idx)
    requires Placed(cs, found) && cs[idx] != "" && r == InsertLeft(cs, found, pos, idx) && pos < |r|
    requires Same(cs[idx := ""], r, found, pos) && r[pos] == cs[idx]
    ensures Loose(r, found[pos := true], 0, |r|) == Loose(cs[idx := ""], found, 0, |cs|)
  {
    var cs' := cs[idx := ""];
    RippleLoose(cs', found, pos, cs[idx]);
    LooseHead(r, found, pos);
    CancelHead(cs[idx], Loose(r, found, pos + 1, |r|), Loose(cs', found, pos, |cs|));
    LooseAround(r, found, pos);
    SameEverywhere(cs', r, found, found, 0, pos);
    LooseSplit(cs', found, 0, pos, |cs|);
  }

  lemma LooseHead(r: Components, found: Found, i: nat)
    requires i < |r| && !IsFixed(found, i)
    ensures Loose(r, found, i, |r|) == Only(r[i]) + Loose(r, found, i + 1, |r|)
  {
    LooseSplit(r, found, i, i + 1, |r|);
    LooseAt(r, found, i);
  }

  // ----- Pushing right -----

  /** Part of the way: what was at `idx` is at `i`, and nothing is left between. */
  ghost predicate Pushed(cs: Components, found: Found, idx: nat, i: nat, r: Components)
    requires idx < |cs|
  {
    && |r| >= |cs| && idx <= i < |r| && r[i] == cs[idx] && !IsFixed(found, i)
    && Same(cs, r, found, idx)
    && Vacant(r, found, idx, i)
    && Loose(r, found, i, |r|) == Loose(cs, found, idx, |cs|)
    && (forall s {:trigger multiset(r)[s]} :: s != "" ==> multiset(r)[s] == multiset(cs)[s])
  }

  lemma PushedOnce(cs: Components, found: Found, idx: nat, i: nat, r: Components)
    requires idx < |cs| && cs[idx] != "" && Placed(cs, found) && Pushed(cs, found, idx, i, r)
    ensures var next := NextFree(found, i + 1); Pushed(cs, found, idx, next, Ripple(r, found, i, ""))
  {
    var next, r' := NextFree(found, i + 1), Ripple(r, found, i, "");
    NextFreeInside(r, found, i + 1);
    RippleFrame(r, found, i, "");
    RippleFrame(r[i := ""], found, next, r[i]);
    forall s | s != "" ensures multiset(r')[s] == multiset(cs)[s] {
      RippleConserves(r, found, i, "", s);
    }
    PushedLoose(r, found, i);
    PushedVacant(r, found, idx, i, r');
  }

  lemma PushedLoose(r: Components, found: Found, i: nat)
    requires i < |r| && !IsFixed(found, i) && r[i] != "" && Placed(r, found)
    ensures var next, r' := NextFree(found, i + 1), Ripple(r, found, i, "");
            next <= |r'| && Loose(r', found, next, |r'|) == Loose(r, found, i, |r|)
  {
    var next, r' := NextFree(found, i + 1), Ripple(r, found, i, "");
    NextFreeInside(r, found, i + 1);
    RippleLoose(r, found, i, "");
    RippleFrame(r, found, i, "");
    SkipVacant(r', found, i, next, |r'|);
    assert Only("") + Loose(r, found, i, |r|) == Loose(r, found, i, |r|);
  }

  lemma SkipVacant(r: Components, found: Found, lo: nat, mid: nat, hi: nat)
    requires lo <= mid <= hi <= |r| && Vacant(r, found, lo, mid)
    ensures Loose(r, found, lo, hi) == Loose(r, found, mid, hi)
  {
    LooseSplit(r, found, lo, mid, hi);
    LooseVacant(r, found, lo, mid);
    assert [] + Loose(r, found, mid, hi) == Loose(r, found, mid, hi);
  }

  lemma PushedVacant(r: Components, found: Found, idx: nat, i: nat, r': Components)
    requires idx <= i < |r| <= |r'| && NextFree(found, i + 1) <= |r'|
    requires Vacant(r, found, idx, i) && Same(r, r', found, i) && r'[i] == ""
    ensures Vacant(r', found, idx, NextFree(found, i + 1))
  {
    forall k | idx <= k < NextFree(found, i + 1) ensures IsFixed(found, k) || r'[k] == "" {
      if k < i {
        assert r[k] == r[k] && r'[k] == r[k];
      }
    }
  }

  /** No free position lies between `i` and the next one, so a push never steps past a free `pos`. */
  lemma NextNotPast(found: Found, i: nat, pos: nat)
    requires i < pos && !IsFixed(found, pos)
    ensures NextFree(found, i + 1) <= pos
  {
  }

  lemma {:induction false} PushedAll(cs: Components, found: Found, idx: nat, pos: nat, i: nat, r: Components)
    requires idx < |cs| && cs[idx] != "" && Placed(cs, found) && Pushed(cs, found, idx, i, r)
    requires i <= pos && !IsFixed(found, pos)
    ensures Pushed(cs, found, idx, pos, PushRight(r, found, pos, i))
    decreases pos - i
  {
    if i < pos {
      var next := NextFree(found, i + 1);
      NextNotPast(found, i, pos);
      PushedOnce(cs, found, idx, i, r);
      PushedAll(cs, found, idx, pos, next, Ripple(r, found, i, ""));
    }
  }

  lemma PushedRight(cs: Components, found: Found, pos: nat, idx: nat)
    requires idx < |cs| && idx <= pos < 4 && !IsFixed(found, idx) && !IsFixed(found, pos)
    requires Placed(cs, found) && cs[idx] != ""
    ensures Arrived(cs, found, pos, idx, PushRight(cs, found, pos, idx))
  {
    PushedAll(cs, found, idx, pos, idx, cs);
    PushedArrives(cs, found, pos, idx, PushRight(cs, found, pos, idx));
  }

  lemma PushedArrives(cs: Components, found: Found, pos: nat, idx: nat, r: Components)
    requires idx < |cs| && idx <= pos < 4 && !IsFixed(found, idx) && cs[idx] != "" && Pushed(cs, found, idx, pos, r)
    ensures Arrived(cs, found, pos, idx, r)
  {
    PushedRest(cs, found, pos, idx, r);
  }

  lemma PushedRest(cs: Components, found: Found, pos: nat, idx: nat, r: Components)
    requires idx < |cs| && idx <= pos < 4 && !IsFixed(found, idx) && cs[idx] != "" && Pushed(cs, found, idx, pos, r)
    ensures Loose(r, found[pos := true], 0, |r|) == Loose(cs[idx := ""], found, 0, |cs|)
  {
    LooseAround(r, found, pos);
    LooseHead(r, found, pos);
    LooseHead(cs, found, idx);
    CancelHead(cs[idx], Loose(r, found, pos + 1, |r|), Loose(cs, found, idx + 1, |cs|));
    LooseSplit(r, found, 0, idx, pos);
    LooseVacant(r, found, idx, pos);
    WithoutOne(cs, r, found, idx);
  }

  lemma WithoutOne(cs: Components, r: Components, found: Found, idx: nat)
    requires idx < |cs| && Same(cs, r, found, idx) && !IsFixed(found, idx)
    ensures Loose(cs[idx := ""], found, 0, |cs|) == Loose(r, found, 0, idx) + Loose(cs, found, idx + 1, |cs|)
  {
    var cs' := cs[idx := ""];
    LooseSplit(cs', found, 0, idx, |cs|);
    LooseHead(cs', found, idx);
    SameEverywhere(cs', r, found, found, 0, idx);
    SameEverywhere(cs, cs', found, found, idx + 1, |cs|);
  }
}

/** What a move of a component does to the whole list, exactly: how long the
    list becomes, and where its empty slots are. */
module TripleGaps {
  import opened TripleComponents
  import opened TripleSearch

  // ----- Counting -----

  function Min(a: nat, b: nat): nat {
    if a < b then a else b
  }

  /** What is left of `a` when `b` is taken away, if anything. */
  function Less(a: nat, b: nat): nat {
    if a < b then 0 else a - b
  }

  /** How many free positions from `k` on are empty. */
  function Gaps(cs: Components, found: Found, k: nat): nat
    decreases |cs| - k
  {
    if k >= |cs| then 0
    else (if !IsFixed(found, k) && cs[k] == "" then 1 else 0) + Gaps(cs, found, k + 1)
  }

  /** How many positions from `lo` up to `hi` are free. */
  function FreeSlots(found: Found, lo: nat, hi: nat): nat
    decreases hi - lo
  {
    if lo >= hi then 0 else (if IsFixed(found, lo) then 0 else 1) + FreeSlots(found, lo + 1, hi)
  }

  lemma {:induction false} GapsUpdated(cs: Components, found: Found, i: nat, c: string, k: nat)
    requires i < |cs| && i < k
    ensures Gaps(cs[i := c], found, k) == Gaps(cs, found, k)
    decreases |cs| - k
  {
    if k < |cs| {
      GapsUpdated(cs, found, i, c, k + 1);
    }
  }

  /** Fixed positions hold no gap. */
  lemma {:induction false} GapsSkip(cs: Components, found: Found, lo: nat, hi: nat)
    requires lo <= hi && forall k :: lo <= k < hi ==> IsFixed(found, k)
    ensures Gaps(cs, found, lo) == Gaps(cs, found, hi)
    decreases hi - lo
  {
    if lo < hi {
      GapsSkip(cs, found, lo + 1, hi);
      if lo >= |cs| {
        assert Gaps(cs, found, lo) == 0 && Gaps(cs, found, hi) == 0;
      }
    }
  }

  lemma {:induction false} GapsFall(cs: Components, found: Found, lo: nat, hi: nat)
    requires lo <= hi
    ensures Gaps(cs, found, hi) <= Gaps(cs, found, lo)
    decreases hi - lo
  {
    if lo < hi {
      GapsFall(cs, found, lo + 1, hi);
    }
  }

  lemma {:induction false} FreeSkip(found: Found, lo: nat, mid: nat, hi: nat)
    requires lo <= mid <= hi && forall k :: lo <= k < mid ==> IsFixed(found, k)
    ensures FreeSlots(found, lo, hi) == FreeSlots(found, mid, hi)
    decreases mid - lo
  {
    if lo < mid {
      FreeSkip(found, lo + 1, mid, hi);
    }
  }

  lemma {:induction false} FreeLast(found: Found, lo: nat, pos: nat)
    requires lo <= pos && !IsFixed(found, pos)
    ensures FreeSlots(found, lo, pos + 1) == FreeSlots(found, lo, pos) + 1
    decreases pos - lo
  {
    if lo < pos {
      FreeLast(found, lo + 1, pos);
    } else {
      assert FreeSlots(found, pos, pos + 1) == 1 + FreeSlots(found, pos + 1, pos + 1);
    }
  }

  // ----- One ripple -----

  /** A ripple closes the first gap from where it starts; without one it makes
      the list one longer, and what it adds there is what it carried. */
  lemma {:induction false} RippleGaps(cs: Components, found: Found, i: nat, current: string, k: nat)
    requires !IsFixed(found, i) && i <= |cs| && Placed(cs, found) && i < k
    ensures var r := Ripple(cs, found, i, current);
            && |r| == |cs| + (if Gaps(cs, found, i) == 0 then 1 else 0)
            && Gaps(r, found, k) == Min(Gaps(cs, found, k), Less(Gaps(cs, found, i), 1))
    decreases |cs| - i
  {
    if i == |cs| {
      assert Gaps(Ripple(cs, found, i, current), found, k) == 0;
    } else if cs[i] == "" {
      GapsUpdated(cs, found, i, current, k);
      GapsFall(cs, found, i + 1, k);
    } else {
      RippleGapsOn(cs, found, i, current, k);
    }
  }

  lemma {:induction false} RippleGapsOn(cs: Components, found: Found, i: nat, current: string, k: nat)
    requires !IsFixed(found, i) && i < |cs| && Placed(cs, found) && i < k && cs[i] != ""
    ensures var r := Ripple(cs, found, i, current);
            && |r| == |cs| + (if Gaps(cs, found, i) == 0 then 1 else 0)
            && Gaps(r, found, k) == Min(Gaps(cs, found, k), Less(Gaps(cs, found, i), 1))
    decreases |cs| - i, 0
  {
    var next, moved := NextFree(found, i + 1), cs[i := current];
    var r, k' := Ripple(moved, found, next, cs[i]), if k > next then k else next + 1;
    NextFreeInside(cs, found, i + 1);
    RippleGaps(moved, found, next, cs[i], k');
    GapsUpdated(cs, found, i, current, next);
    GapsUpdated(cs, found, i, current, k');
    GapsSkip(cs, found, i + 1, next);
    if k <= next {
      RippleFrame(moved, found, next, cs[i]);
      GapsSkip(r, found, k, next);
      GapsSkip(cs, found, k, next);
      assert Gaps(r, found, next) == Gaps(r, found, next + 1);
    }
  }

  // ----- Pushing right -----

  /** A push closes as many gaps as there are free positions to pass, or makes
      the list that much longer. */
  lemma {:induction false} PushGaps(cs: Components, found: Found, pos: nat, idx: nat, k: nat)
    requires idx < |cs| && idx <= pos && !IsFixed(found, idx) && !IsFixed(found, pos)
    requires Placed(cs, found) && cs[idx] != "" && pos < k
    ensures var r := PushRight(cs, found, pos, idx);
            && |r| == |cs| + Less(FreeSlots(found, idx, pos), Gaps(cs, found, idx))
            && Gaps(r, found, k) == Min(Gaps(cs, found, k), Less(Gaps(cs, found, idx), FreeSlots(found, idx, pos)))
    decreases pos - idx
  {
    if idx == pos {
      GapsFall(cs, found, idx, k);
    } else {
      var next, pushed := NextFree(found, idx + 1), Ripple(cs, found, idx, "");
      PushStep(cs, found, pos, idx);
      RippleGaps(cs, found, idx, "", next);
      RippleGaps(cs, found, idx, "", k);
      GapsSkip(cs, found, idx + 1, next);
      FreeSkip(found, idx + 1, next, pos);
      PushGaps(pushed, found, pos, next, k);
    }
  }

  /** After one push the component is at the next free position. */
  lemma PushStep(cs: Components, found: Found, pos: nat, idx: nat)
    requires idx < |cs| && idx < pos && !IsFixed(found, idx) && !IsFixed(found, pos)
    requires Placed(cs, found) && cs[idx] != ""
    ensures var next, pushed := NextFree(found, idx + 1), Ripple(cs, found, idx, "");
            && idx < next <= pos && next < |pushed| && pushed[next] == cs[idx] && Placed(pushed, found)
  {
    NextNotPast(found, idx, pos);
    NextFreeInside(cs, found, idx + 1);
    RippleFrame(cs[idx := ""], found, NextFree(found, idx + 1), cs[idx]);
  }

  // ----- A move, exactly -----

  /** Component `idx` has moved to `pos`. Taking it out leaves a gap. What is left
      of both positions is untouched; from the left one up to `pos` nothing but
      fixed components remains; and the gaps from there on make room for the
      component and what it displaces, the first ones first. Only where they are
      too few does the list grow, by as many as are missing. */
  ghost predicate MovedTo(cs: Components, found: Found, pos: nat, idx: nat, r: Components)
    requires idx < |cs| && pos < 4
  {
    var lo, holed := Min(pos, idx), cs[idx := ""];
    && Arrived(cs, found, pos, idx, r)
    && (forall k :: 0 <= k < lo ==> r[k] == cs[k])
    && (forall k :: lo <= k < pos && !IsFixed(found, k) ==> r[k] == "")
    && |r| == |cs| + Less(FreeSlots(found, lo, pos + 1), Gaps(holed, found, lo))
    && forall k {:trigger Gaps(r, found, k)} :: k > pos ==>
         Gaps(r, found, k) == Min(Gaps(holed, found, k), Less(Gaps(holed, found, lo), FreeSlots(found, lo, pos + 1)))
  }

  lemma LeftMovedTo(cs: Components, found: Found, pos: nat, idx: nat)
    requires pos < idx < |cs| && pos < 4 && !IsFixed(found, pos) && !IsFixed(found, idx)
    requires Placed(cs, found) && cs[idx] != ""
    ensures MovedTo(cs, found, pos, idx, InsertLeft(cs, found, pos, idx))
  {
    var r, holed := InsertLeft(cs, found, pos, idx), cs[idx := ""];
    InsertedLeft(cs, found, pos, idx);
    RippleFrame(holed, found, pos, cs[idx]);
    assert Gaps(holed, found, idx) >= 1;
    GapsFall(holed, found, pos, idx);
    FreeLast(found, pos, pos);
    forall k: nat | k > pos
      ensures Gaps(r, found, k) == Min(Gaps(holed, found, k), Less(Gaps(holed, found, pos), FreeSlots(found, pos, pos + 1)))
    {
      RippleGaps(holed, found, pos, cs[idx], k);
    }
  }

  lemma RightMovedTo(cs: Components, found: Found, pos: nat, idx: nat)
    requires idx < |cs| && idx <= pos < 4 && !IsFixed(found, pos) && !IsFixed(found, idx)
    requires Placed(cs, found) && cs[idx] != ""
    ensures MovedTo(cs, found, pos, idx, PushRight(cs, found, pos, idx))
  {
    var r, holed := PushRight(cs, found, pos, idx), cs[idx := ""];
    PushedRight(cs, found, pos, idx);
    PushedAll(cs, found, idx, pos, idx, cs);
    HoleGaps(cs, found, idx);
    FreeLast(found, idx, pos);
    PushGaps(cs, found, pos, idx, pos + 1);
    forall k: nat | k > pos
      ensures Gaps(r, found, k) == Min(Gaps(holed, found, k), Less(Gaps(holed, found, idx), FreeSlots(found, idx, pos + 1)))
    {
      PushGaps(cs, found, pos, idx, k);
      GapsUpdated(cs, found, idx, "", k);
    }
  }

  lemma HoleGaps(cs: Components, found: Found, idx: nat)
    requires idx < |cs| && !IsFixed(found, idx) && cs[idx] != ""
    ensures Gaps(cs[idx := ""], found, idx) == Gaps(cs, found, idx) + 1
  {
    GapsUpdated(cs, found, idx, "", idx + 1);
  }

  // ----- Nothing else fits the description -----

  lemma {:induction false} SameLoose(a: Components, b: Components, found: Found, hi: nat)
    requires hi <= |a| == |b| && Loose(a, found, 0, hi) == Loose(b, found, 0, hi)
    requires forall k :: 0 <= k < hi && !IsFixed(found, k) ==> (a[k] == "" <==> b[k] == "")
    ensures forall k :: 0 <= k < hi && !IsFixed(found, k) ==> a[k] == b[k]
  {
    if hi > 0 {
      if !IsFixed(found, hi - 1) && a[hi - 1] != "" {
        SameEnd(Loose(a, found, 0, hi - 1), Loose(b, found, 0, hi - 1), a[hi - 1], b[hi - 1]);
      }
      SameLoose(a, b, found, hi - 1);
    }
  }

  lemma SameEnd(a: seq<string>, b: seq<string>, x: string, y: string)
    requires a + [x] == b + [y]
    ensures a == b && x == y
  {
    assert |a| == |b| && (a + [x])[|a|] == (b + [y])[|b|];
    assert (a + [x])[..|a|] == a && (b + [y])[..|b|] == b;
  }

  /** Lists with the same gaps are empty at the same places. */
  lemma SameGaps(a: Components, b: Components, found: Found, k: nat)
    requires k < |a| == |b| && !IsFixed(found, k)
    requires Gaps(a, found, k) == Gaps(b, found, k) && Gaps(a, found, k + 1) == Gaps(b, found, k + 1)
    ensures a[k] == "" <==> b[k] == ""
  {
  }

  lemma MovedFront(cs: Components, found: Found, pos: nat, idx: nat, r: Components, k: nat)
    requires idx < |cs| && pos < 4 && Placed(cs, found) && MovedTo(cs, found, pos, idx, r) && k <= pos
    ensures r[k] == if k == pos then cs[idx] else if k < Min(pos, idx) || IsFixed(found, k) then cs[k] else ""
  {
  }

  /** The description determines the list. */
  lemma MovedToIsUnique(cs: Components, found: Found, pos: nat, idx: nat, a: Components, b: Components)
    requires idx < |cs| && pos < 4 && Placed(cs, found) && !IsFixed(found, pos)
    requires MovedTo(cs, found, pos, idx, a) && MovedTo(cs, found, pos, idx, b)
    ensures a == b
  {
    var found' := found[pos := true];
    forall k | 0 <= k < |a| && !IsFixed(found', k) ensures a[k] == "" <==> b[k] == "" {
      if k <= pos {
        MovedFront(cs, found, pos, idx, a, k);
        MovedFront(cs, found, pos, idx, b, k);
      } else {
        assert Gaps(a, found, k) == Gaps(b, found, k) && Gaps(a, found, k + 1) == Gaps(b, found, k + 1);
        SameGaps(a, b, found, k);
      }
    }
    SameLoose(a, b, found', |a|);
    forall k | 0 <= k < |a| ensures a[k] == b[k] {
      if IsFixed(found', k) {
        assert k == pos || (IsFixed(found, k) && a[k] == cs[k] && b[k] == cs[k]);
      }
    }
  }

  /** A move is exactly what is described. */
  lemma MoveIsExact(cs: Components, found: Found, pos: nat, idx: nat, r: Components)
    requires idx < |cs| && pos < 4 && !IsFixed(found, pos) && !IsFixed(found, idx)
    requires Placed(cs, found) && cs[idx] != ""
    ensures r == Move(cs, found, pos, idx) <==> MovedTo(cs, found, pos, idx, r)
  {
    var moved := Move(cs, found, pos, idx);
    if pos < idx {
      LeftMovedTo(cs, found, pos, idx);
    } else {
      RightMovedTo(cs, found, pos, idx);
    }
    if MovedTo(cs, found, pos, idx, r) {
      MovedToIsUnique(cs, found, pos, idx, r, moved);
    }
  }

  // ----- The search, exactly -----

  /** The first free component that fits `pos`. */
  ghost predicate FitsFirst(rules: Rules, cs: Components, found: Found, pos: nat, idx: nat) {
    && idx < |cs| && !IsFixed(found, idx) && rules.accepts(pos, cs[idx])
    && forall k :: 0 <= k < idx && !IsFixed(found, k) ==> !rules.accepts(pos, cs[k])
  }

  /** One round: the first component that fits moves to `pos`, if that is not found and there is one. */
  ghost predicate Round(rules: Rules, cs: Components, found: Found, pos: nat, r: Components, found': Found)
    requires pos < 4
  {
    if exists idx :: !found[pos] && FitsFirst(rules, cs, found, pos, idx) then
      found' == found[pos := true] && exists idx :: FitsFirst(rules, cs, found, pos, idx) && MovedTo(cs, found, pos, idx, r)
    else r == cs && found' == found
  }

  lemma FirstFitIs(rules: Rules, cs: Components, found: Found, pos: nat, idx: nat)
    ensures FitsFirst(rules, cs, found, pos, idx) <==> idx < |cs| && idx == FirstFit(rules, cs, found, pos, 0)
  {
  }

  lemma PlaceIsExact(rules: Rules, cs: Components, found: Found, pos: nat, r: Components, found': Found)
    requires Sound(rules) && pos < 4 && Placed(cs, found)
    ensures (r, found') == Place(rules, cs, found, pos) <==> Round(rules, cs, found, pos, r, found')
  {
    if !found[pos] {
      var first := FirstFit(rules, cs, found, pos, 0);
      forall idx: nat ensures FitsFirst(rules, cs, found, pos, idx) <==> idx < |cs| && idx == first {
        FirstFitIs(rules, cs, found, pos, idx);
      }
      if first < |cs| {
        assert FitsFirst(rules, cs, found, pos, first);
        assert cs[first] != "" by {
          assert !rules.accepts(pos, "");
        }
        MoveIsExact(cs, found, pos, first, r);
      }
    }
  }

  /** The lists and what is found, before the first round and after each of the four. */
  ghost predicate IsSearch(rules: Rules, cs: Components, lists: seq<Components>, founds: seq<Found>) {
    && |lists| == |founds| == 5 && lists[0] == cs
    && (forall p :: 0 <= p < 4 ==> founds[0][p] == (p < |cs| && rules.settles(p, cs[p])))
    && forall p {:trigger lists[p + 1]} :: 0 <= p < 4 ==> Round(rules, lists[p], founds[p], p, lists[p + 1], founds[p + 1])
  }

  /** Only one search fits the description of its rounds, and it ends as it should. */
  lemma {:induction false} SearchIsUnique(rules: Rules, cs: Components, lists: seq<Components>, founds: seq<Found>, n: nat)
    requires Sound(rules) && IsSearch(rules, cs, lists, founds) && n <= 4
    ensures (lists[n], founds[n]) == Rounds(rules, cs, Settled(rules, cs), n)
  {
    if n == 0 {
      assert founds[0] == Settled(rules, cs);
    } else {
      SearchIsUnique(rules, cs, lists, founds, n - 1);
      RoundsPlaced(rules, cs, n - 1);
      var p := n - 1;
      assert lists[p + 1] == lists[n];
      assert Round(rules, lists[p], founds[p], p, lists[p + 1], founds[p + 1]);
      PlaceIsExact(rules, lists[p], founds[p], p, lists[n], founds[n]);
    }
  }

  /** There is such a search for every list. */
  lemma SearchExists(rules: Rules, cs: Components) returns (lists: seq<Components>, founds: seq<Found>)
    requires Sound(rules)
    ensures IsSearch(rules, cs, lists, founds)
    ensures (lists[4], founds[4]) == Rounds(rules, cs, Settled(rules, cs), 4)
  {
    var init := Settled(rules, cs);
    lists := seq(5, n requires 0 <= n < 5 => Rounds(rules, cs, init, n).0);
    founds := seq(5, n requires 0 <= n < 5 => Rounds(rules, cs, init, n).1);
    forall p | 0 <= p < 4 ensures Round(rules, lists[p], founds[p], p, lists[p + 1], founds[p + 1]) {
      RoundsPlaced(rules, cs, p);
      PlaceIsExact(rules, lists[p], founds[p], p, lists[p + 1], founds[p + 1]);
    }
  }

  // ----- How many components are empty -----

  /** The list grows by empty components alone, as no other is made or lost. */
  lemma EmptyCount(cs: Components, r: Components)
    requires forall s {:trigger multiset(r)[s]} :: s != "" ==> multiset(r)[s] == multiset(cs)[s]
    requires |r| >= |cs|
    ensures multiset(r)[""] == multiset(cs)[""] + (|r| - |cs|)
  {
    var a, b := multiset(cs), multiset(r);
    assert a["" := 0] == b["" := 0];
    assert a == a["" := 0] + multiset{}["" := a[""]] && b == b["" := 0] + multiset{}["" := b[""]];
    assert |a| == |cs| && |b| == |r|;
  }
}

/** The search for each canonical position, over a whole component list. */
module TripleSearch {
  import opened TripleComponents

  /** The first component from `idx` on, not fixed, that the search takes for `pos`; the length if none. */
  function FirstFit(rules: Rules, cs: Components, found: Found, pos: nat, idx: nat): (r: nat)
    requires idx <= |cs|
    ensures idx <= r <= |cs|
    ensures r < |cs| ==> !IsFixed(found, r) && rules.accepts(pos, cs[r])
    ensures forall k :: idx <= k < r && !IsFixed(found, k) ==> !rules.accepts(pos, cs[k])
    decreases |cs| - idx
  {
    if idx == |cs| || (!IsFixed(found, idx) && rules.accepts(pos, cs[idx])) then idx
    else FirstFit(rules, cs, found, pos, idx + 1)
  }

  function Move(cs: Components, found: Found, pos: nat, idx: nat): Components
    requires idx < |cs| && !IsFixed(found, pos) && !IsFixed(found, idx)
  {
    if pos < idx then InsertLeft(cs, found, pos, idx) else PushRight(cs, found, pos, idx)
  }

  /** One round of the search. */
  function Place(rules: Rules, cs: Components, found: Found, pos: nat): (Components, Found)
    requires pos < 4
  {
    if found[pos] then (cs, found)
    else
      var idx := FirstFit(rules, cs, found, pos, 0);
      if idx == |cs| then (cs, found) else (Move(cs, found, pos, idx), found[pos := true])
  }

  /** The first `n` rounds. */
  function Rounds(rules: Rules, cs: Components, found: Found, n: nat): (Components, Found)
    requires n <= 4
  {
    if n == 0 then (cs, found)
    else
      var (cs', found') := Rounds(rules, cs, found, n - 1);
      Place(rules, cs', found', n - 1)
  }

  /** Which components stay where they are. */
  function Settled(rules: Rules, cs: Components): Found {
    [0 < |cs| && rules.settles(0, cs[0]), 1 < |cs| && rules.settles(1, cs[1]),
     2 < |cs| && rules.settles(2, cs[2]), 3 < |cs| && rules.settles(3, cs[3])]
  }

  lemma SettledArePlaced(rules: Rules, cs: Components)
    ensures Placed(cs, Settled(rules, cs))
  {
  }

  // ----- What a move does, whichever way -----

  lemma MoveArrives(cs: Components, found: Found, pos: nat, idx: nat)
    requires idx < |cs| && pos < 4 && !IsFixed(found, pos) && !IsFixed(found, idx)
    requires Placed(cs, found) && cs[idx] != ""
    ensures Arrived(cs, found, pos, idx, Move(cs, found, pos, idx))
  {
    if pos < idx {
      InsertedLeft(cs, found, pos, idx);
    } else {
      PushedRight(cs, found, pos, idx);
    }
  }

  lemma {:induction false} LooseOrigin(cs: Components, found: Found, hi: nat, s: string) returns (j: nat)
    requires hi <= |cs| && s in Loose(cs, found, 0, hi)
    ensures j < hi && !IsFixed(found, j) && cs[j] == s && s != ""
  {
    if !IsFixed(found, hi - 1) && cs[hi - 1] == s && s != "" {
      j := hi - 1;
    } else {
      j := LooseOrigin(cs, found, hi - 1, s);
    }
  }

  lemma {:induction false} LooseHas(cs: Components, found: Found, hi: nat, k: nat)
    requires k < hi <= |cs| && !IsFixed(found, k) && cs[k] != ""
    ensures cs[k] in Loose(cs, found, 0, hi)
  {
    if k < hi - 1 {
      LooseHas(cs, found, hi - 1, k);
    }
  }

  /** A component loose after a move was loose before it. */
  lemma StillLoose(cs: Components, found: Found, pos: nat, idx: nat, r: Components, k: nat) returns (j: nat)
    requires idx < |cs| && pos < 4 && Arrived(cs, found, pos, idx, r)
    requires k < |r| && !IsFixed(found[pos := true], k) && r[k] != ""
    ensures j < |cs| && !IsFixed(found, j) && cs[j] == r[k]
  {
    LooseHas(r, found[pos := true], |r|, k);
    j := LooseOrigin(cs[idx := ""], found, |cs|, r[k]);
  }

  // ----- The invariant of the rounds -----

  /** Position `p`, found by search, was not passed over: nothing loose to its left fits it. */
  ghost predicate FoundFirst(rules: Rules, cs: Components, found: Found, p: nat) {
    forall k {:trigger cs[k]} :: 0 <= k < p && k < |cs| && !IsFixed(found, k) ==> !rules.accepts(p, cs[k])
  }

  /** Nothing fits position `p` that is loose, or was when the round of `p` came. */
  ghost predicate NoneFits(rules: Rules, cs: Components, found: Found, init: Found, p: nat) {
    forall k {:trigger cs[k]} :: 0 <= k < |cs| && !IsFixed(init, k) && (!IsFixed(found, k) || k > p) ==> !rules.accepts(p, cs[k])
  }

  ghost predicate Accepted(rules: Rules, cs: Components, found: Found) {
    Placed(cs, found) && forall p :: 0 <= p < 4 && found[p] ==> rules.accepts(p, cs[p])
  }

  /** What is known when the rounds before `pos` are done. */
  ghost predicate Searched(rules: Rules, cs: Components, found: Found, init: Found, pos: nat) {
    && Accepted(rules, cs, found)
    && (forall p :: 0 <= p < 4 && init[p] ==> found[p])
    && (forall p :: 0 <= p < 4 && found[p] && !init[p] ==> p < pos && FoundFirst(rules, cs, found, p))
    && (forall p :: 0 <= p < 4 && p < pos && !found[p] ==> NoneFits(rules, cs, found, init, p))
  }

  lemma StartsSearched(rules: Rules, cs: Components)
    requires Sound(rules)
    ensures Searched(rules, cs, Settled(rules, cs), Settled(rules, cs), 0)
  {
  }

  lemma PlaceSearched(rules: Rules, cs: Components, found: Found, init: Found, pos: nat)
    requires Sound(rules) && pos < 4 && Searched(rules, cs, found, init, pos)
    ensures var (cs', found') := Place(rules, cs, found, pos); Searched(rules, cs', found', init, pos + 1)
  {
    if !found[pos] {
      var idx := FirstFit(rules, cs, found, pos, 0);
      if idx == |cs| {
        assert NoneFits(rules, cs, found, init, pos);
      } else {
        MoveArrives(cs, found, pos, idx);
        MoveSearched(rules, cs, found, init, pos, idx, Move(cs, found, pos, idx));
      }
    }
  }

  lemma MoveSearched(rules: Rules, cs: Components, found: Found, init: Found, pos: nat, idx: nat, r: Components)
    requires Sound(rules) && pos < 4 && Searched(rules, cs, found, init, pos) && !found[pos]
    requires idx < |cs| && idx == FirstFit(rules, cs, found, pos, 0) && Arrived(cs, found, pos, idx, r)
    ensures Searched(rules, r, found[pos := true], init, pos + 1)
  {
    var found' := found[pos := true];
    forall p | 0 <= p < 4 && found'[p] ensures p < |r| && rules.accepts(p, r[p]) {
      assert p != pos ==> IsFixed(found, p);
    }
    forall p | 0 <= p < 4 && found'[p] && !init[p] ensures p < pos + 1 && FoundFirst(rules, r, found', p) {
      MoveFoundFirst(rules, cs, found, init, pos, idx, r, p);
    }
    forall p | 0 <= p < 4 && p < pos + 1 && !found'[p] ensures NoneFits(rules, r, found', init, p) {
      MoveNoneFits(rules, cs, found, init, pos, idx, r, p);
    }
  }

  lemma MoveFoundFirst(rules: Rules, cs: Components, found: Found, init: Found, pos: nat, idx: nat, r: Components, p: nat)
    requires Sound(rules) && pos < 4 && p <= pos && !found[pos]
    requires p < pos ==> FoundFirst(rules, cs, found, p)
    requires idx < |cs| && idx == FirstFit(rules, cs, found, pos, 0) && Arrived(cs, found, pos, idx, r)
    ensures FoundFirst(rules, r, found[pos := true], p)
  {
    forall k | 0 <= k < p && k < |r| && !IsFixed(found[pos := true], k) ensures !rules.accepts(p, r[k]) {
      assert !IsFixed(found, k);
      assert r[k] == "" || (k < idx && r[k] == cs[k]);
    }
  }

  lemma MoveNoneFits(rules: Rules, cs: Components, found: Found, init: Found, pos: nat, idx: nat, r: Components, p: nat)
    requires Sound(rules) && pos < 4 && p < pos && Placed(cs, found) && NoneFits(rules, cs, found, init, p)
    requires forall q :: 0 <= q < 4 && init[q] ==> found[q]
    requires idx < |cs| && !IsFixed(found, idx) && Arrived(cs, found, pos, idx, r)
    ensures NoneFits(rules, r, found[pos := true], init, p)
  {
    var found' := found[pos := true];
    forall k | 0 <= k < |r| && !IsFixed(init, k) && (!IsFixed(found', k) || k > p) ensures !rules.accepts(p, r[k]) {
      if k == pos {
        assert r[k] == cs[idx];
      } else if IsFixed(found, k) {
        assert r[k] == cs[k];
      } else if r[k] != "" {
        var j := StillLoose(cs, found, pos, idx, r, k);
        assert cs[j] == r[k];
      }
    }
  }

  lemma {:induction false} RoundsSearched(rules: Rules, cs: Components, n: nat)
    requires Sound(rules) && n <= 4
    ensures var init := Settled(rules, cs);
            var (cs', found') := Rounds(rules, cs, init, n);
            Searched(rules, cs', found', init, n)
  {
    if n == 0 {
      StartsSearched(rules, cs);
    } else {
      RoundsSearched(rules, cs, n - 1);
      var (cs', found') := Rounds(rules, cs, Settled(rules, cs), n - 1);
      PlaceSearched(rules, cs', found', Settled(rules, cs), n - 1);
    }
  }

  // ----- Nothing lost, nothing fixed moved, order kept -----

  /** `a` is `b` without some of its elements: `m` says where each one was. */
  ghost predicate Embeds(m: seq<nat>, a: seq<string>, b: seq<string>) {
    && |m| == |a|
    && (forall i {:trigger m[i]} :: 0 <= i < |m| ==> m[i] < |b| && a[i] == b[m[i]])
    && (forall i, j {:trigger m[i], m[j]} :: 0 <= i < j < |m| ==> m[i] < m[j])
  }

  lemma {:induction false} EmbedOne(cs: Components, found: Found, idx: nat, hi: nat) returns (m: seq<nat>)
    requires idx < |cs| && hi <= |cs|
    ensures Embeds(m, Loose(cs[idx := ""], found, 0, hi), Loose(cs, found, 0, hi))
  {
    if hi == 0 {
      m := [];
    } else {
      m := EmbedOne(cs, found, idx, hi - 1);
      if hi - 1 != idx && !IsFixed(found, hi - 1) && cs[hi - 1] != "" {
        m := m + [|Loose(cs, found, 0, hi - 1)|];
      }
    }
  }

  lemma EmbedTwice(m: seq<nat>, n: seq<nat>, a: seq<string>, b: seq<string>, c: seq<string>) returns (k: seq<nat>)
    requires Embeds(m, a, b) && Embeds(n, b, c)
    ensures Embeds(k, a, c)
  {
    k := seq(|m|, i requires 0 <= i < |m| => n[m[i]]);
  }

  lemma EmbedSelf(a: seq<string>) returns (m: seq<nat>)
    ensures Embeds(m, a, a)
  {
    m := seq(|a|, i => i);
  }

  /** What the rounds keep: fixed components, the bag of components, the order of the rest. */
  ghost predicate Kept(cs: Components, found: Found, r: Components, found': Found, m: seq<nat>) {
    && |r| >= |cs|
    && (forall k :: 0 <= k < 4 && found[k] ==> found'[k])
    && (forall k {:trigger r[k]} :: 0 <= k < |cs| && IsFixed(found, k) ==> r[k] == cs[k])
    && (forall s {:trigger multiset(r)[s]} :: s != "" ==> multiset(r)[s] == multiset(cs)[s])
    && Embeds(m, Loose(r, found', 0, |r|), Loose(cs, found, 0, |cs|))
  }

  lemma PlaceKeeps(rules: Rules, cs: Components, found: Found, pos: nat) returns (m: seq<nat>)
    requires Sound(rules) && pos < 4 && Placed(cs, found)
    ensures var (cs', found') := Place(rules, cs, found, pos); Kept(cs, found, cs', found', m) && Placed(cs', found')
  {
    m := EmbedSelf(Loose(cs, found, 0, |cs|));
    if !found[pos] {
      var idx := FirstFit(rules, cs, found, pos, 0);
      if idx < |cs| {
        MoveArrives(cs, found, pos, idx);
        m := EmbedOne(cs, found, idx, |cs|);
      }
    }
  }

  /** Over all rounds: the multiset of non-empty components is unchanged, a
      fixed component never moves, and the components that are never fixed keep
      their relative order. */
  lemma {:induction false} RoundsKeep(rules: Rules, cs: Components, found: Found, n: nat) returns (m: seq<nat>)
    requires Sound(rules) && n <= 4 && Placed(cs, found)
    ensures var (cs', found') := Rounds(rules, cs, found, n); Kept(cs, found, cs', found', m) && Placed(cs', found')
  {
    if n == 0 {
      m := EmbedSelf(Loose(cs, found, 0, |cs|));
    } else {
      var m1 := RoundsKeep(rules, cs, found, n - 1);
      var (cs1, found1) := Rounds(rules, cs, found, n - 1);
      var m2 := PlaceKeeps(rules, cs1, found1, n - 1);
      var (cs2, found2) := Place(rules, cs1, found1, n - 1);
      m := EmbedTwice(m2, m1, Loose(cs2, found2, 0, |cs2|), Loose(cs1, found1, 0, |cs1|), Loose(cs, found, 0, |cs|));
      KeptTwice(cs, found, cs1, found1, cs2, found2, m1, m2, m);
    }
  }

  lemma RoundsPlaced(rules: Rules, cs: Components, n: nat)
    requires Sound(rules) && n <= 4
    ensures var (cs', found') := Rounds(rules, cs, Settled(rules, cs), n); Placed(cs', found') && |cs'| >= |cs|
  {
    SettledArePlaced(rules, cs);
    var m := RoundsKeep(rules, cs, Settled(rules, cs), n);
  }

  lemma KeptTwice(cs: Components, found: Found, cs1: Components, found1: Found, cs2: Components, found2: Found,
                  m1: seq<nat>, m2: seq<nat>, m: seq<nat>)
    requires Kept(cs, found, cs1, found1, m1) && Kept(cs1, found1, cs2, found2, m2)
    requires Embeds(m, Loose(cs2, found2, 0, |cs2|), Loose(cs, found, 0, |cs|))
    ensures Kept(cs, found, cs2, found2, m)
  {
    forall k | 0 <= k < |cs| && IsFixed(found, k) ensures cs2[k] == cs[k] {
      assert cs1[k] == cs[k] && IsFixed(found1, k);
    }
    forall s | s != "" ensures multiset(cs2)[s] == multiset(cs)[s] {
      assert multiset(cs1)[s] == multiset(cs)[s];
    }
  }

  // ----- Idempotence -----

  /** Empty components become "unknown". */
  function Fill(cs: Components): (r: Components)
    ensures |r| == |cs|
    ensures forall k :: 0 <= k < |cs| ==> r[k] == if cs[k] == "" then "unknown" else cs[k]
  {
    seq(|cs|, k requires 0 <= k < |cs| => if cs[k] == "" then "unknown" else cs[k])
  }

  /** Everything up to the special cases. */
  function Canonical(rules: Rules, cs: Components): Components {
    Fill(Rounds(rules, cs, Settled(rules, cs), 4).0)
  }

  /** "unknown" is not taken for anything either. */
  ghost predicate UnknownFree(rules: Rules) {
    forall p {:trigger rules.accepts(p, "unknown")} :: !rules.accepts(p, "unknown")
  }

  /** The state of a second pass: `g` is what it has found before round `pos`,
      `found` what the first pass found in the end. */
  ghost predicate Again(rules: Rules, cs: Components, found: Found, g: Found, pos: nat) {
    && (forall q :: 0 <= q < 4 && q < pos ==> g[q] == found[q])
    && (forall q :: 0 <= q < 4 && q >= pos ==> g[q] == Settled(rules, Fill(cs))[q])
  }

  lemma NoMisfit(rules: Rules, cs: Components, k: nat, p: nat)
    requires Sound(rules) && UnknownFree(rules) && k < |cs| && !rules.accepts(p, cs[k])
    ensures !rules.accepts(p, Fill(cs)[k])
  {
    assert !rules.accepts(p, "unknown");
  }

  /** A second pass moves nothing in its round `pos`. */
  lemma PlaceAgain(rules: Rules, cs: Components, found: Found, init: Found, g: Found, pos: nat)
    requires Sound(rules) && UnknownFree(rules) && pos < 4
    requires Searched(rules, cs, found, init, 4) && Again(rules, cs, found, g, pos)
    requires forall q :: 0 <= q < 4 && init[q] ==> Settled(rules, Fill(cs))[q]
    requires forall q :: 0 <= q < 4 && Settled(rules, Fill(cs))[q] ==> found[q]
    ensures var (cs', g') := Place(rules, Fill(cs), g, pos); cs' == Fill(cs) && Again(rules, cs, found, g', pos + 1)
  {
    if !g[pos] {
      var idx := FirstFit(rules, Fill(cs), g, pos, 0);
      if found[pos] {
        FoundAgain(rules, cs, found, init, g, pos);
      } else {
        forall k: nat | k < |cs| && !IsFixed(g, k) ensures !rules.accepts(pos, Fill(cs)[k]) {
          assert !IsFixed(init, k) && (!IsFixed(found, k) || k > pos);
          assert NoneFits(rules, cs, found, init, pos);
          assert !rules.accepts(pos, cs[k]);
          NoMisfit(rules, cs, k, pos);
        }
      }
    }
  }

  /** What the search found once, though it does not settle, it finds in place. */
  lemma FoundAgain(rules: Rules, cs: Components, found: Found, init: Found, g: Found, pos: nat)
    requires Sound(rules) && UnknownFree(rules) && pos < 4
    requires Searched(rules, cs, found, init, 4) && Again(rules, cs, found, g, pos)
    requires forall q :: 0 <= q < 4 && init[q] ==> Settled(rules, Fill(cs))[q]
    requires !g[pos] && found[pos]
    ensures FirstFit(rules, Fill(cs), g, pos, 0) == pos && pos < |cs|
  {
    assert rules.accepts(pos, cs[pos]) && cs[pos] != "" by {
      assert !rules.accepts(pos, "");
    }
    forall k: nat | k < pos && !IsFixed(g, k) ensures !rules.accepts(pos, Fill(cs)[k]) {
      assert FoundFirst(rules, cs, found, pos) && !IsFixed(found, k);
      assert !rules.accepts(pos, cs[k]);
      NoMisfit(rules, cs, k, pos);
    }
  }

  lemma {:induction false} RoundsAgain(rules: Rules, cs: Components, found: Found, init: Found, n: nat)
    requires Sound(rules) && UnknownFree(rules) && n <= 4 && Searched(rules, cs, found, init, 4)
    requires forall q :: 0 <= q < 4 && init[q] ==> Settled(rules, Fill(cs))[q]
    requires forall q :: 0 <= q < 4 && Settled(rules, Fill(cs))[q] ==> found[q]
    ensures var (cs', g) := Rounds(rules, Fill(cs), Settled(rules, Fill(cs)), n); cs' == Fill(cs) && Again(rules, cs, found, g, n)
  {
    if n > 0 {
      RoundsAgain(rules, cs, found, init, n - 1);
      PlaceAgain(rules, cs, found, init, Rounds(rules, Fill(cs), Settled(rules, Fill(cs)), n - 1).1, n - 1);
    }
  }

  lemma SettledIsFound(rules: Rules, cs: Components, found: Found, init: Found)
    requires Sound(rules) && UnknownFree(rules) && Searched(rules, cs, found, init, 4)
    ensures forall q :: 0 <= q < 4 && Settled(rules, Fill(cs))[q] ==> found[q]
  {
    forall q | 0 <= q < 4 && Settled(rules, Fill(cs))[q] ensures found[q] {
      assert rules.accepts(q, Fill(cs)[q]);
      if !found[q] {
        assert NoneFits(rules, cs, found, init, q);
        assert !rules.accepts(q, cs[q]);
        NoMisfit(rules, cs, q, q);
      }
    }
  }

  /** A list in which every position is searched stays as it is: nothing
      moves, and the same positions are found. */
  lemma SearchedIsFixpoint(rules: Rules, cs: Components, found: Found, init: Found)
    requires Sound(rules) && UnknownFree(rules) && Searched(rules, cs, found, init, 4)
    requires forall q :: 0 <= q < 4 && init[q] ==> Settled(rules, Fill(cs))[q]
    ensures Rounds(rules, Fill(cs), Settled(rules, Fill(cs)), 4) == (Fill(cs), found)
  {
    SettledIsFound(rules, cs, found, init);
    RoundsAgain(rules, cs, found, init, 4);
    assert Rounds(rules, Fill(cs), Settled(rules, Fill(cs)), 4).1 == found;
  }

  /** Moving the components of a list that has been through it moves none, and
      finds the same positions: the permutation is idempotent for every list. */
  lemma CanonicalIsFixpoint(rules: Rules, cs: Components)
    requires Sound(rules) && UnknownFree(rules)
    ensures Canonical(rules, Canonical(rules, cs)) == Canonical(rules, cs)
    ensures Rounds(rules, Canonical(rules, cs), Settled(rules, Canonical(rules, cs)), 4).1 ==
            Rounds(rules, cs, Settled(rules, cs), 4).1
  {
    var init := Settled(rules, cs);
    var (r, found) := Rounds(rules, cs, init, 4);
    RoundsSearched(rules, cs, 4);
    var m := RoundsKeep(rules, cs, init, 4);
    SettledStays(rules, cs, r, init);
    SearchedIsFixpoint(rules, r, found, init);
    FillTwice(r);
  }

  lemma SettledStays(rules: Rules, cs: Components, r: Components, init: Found)
    requires Sound(rules) && init == Settled(rules, cs) && |r| >= |cs|
    requires forall k {:trigger r[k]} :: 0 <= k < |cs| && IsFixed(init, k) ==> r[k] == cs[k]
    ensures forall q :: 0 <= q < 4 && init[q] ==> Settled(rules, Fill(r))[q]
  {
    forall q | 0 <= q < 4 && init[q] ensures Settled(rules, Fill(r))[q] {
      assert IsFixed(init, q) && r[q] == cs[q] && rules.settles(q, cs[q]);
      assert cs[q] != "" by {
        assert !rules.accepts(q, "");
      }
    }
  }

  lemma FillTwice(cs: Components)
    ensures Fill(Fill(cs)) == Fill(cs)
  {
  }
}

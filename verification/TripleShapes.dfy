/** Lists in which the special cases have replaced components after the search:
    a second search leaves them as they are. */
module TripleShapes {
  import opened TripleComponents
  import opened TripleSearch

  /** A list after the search, in which what had settled before still does. */
  ghost predicate Stable(rules: Rules, r: Components, found: Found, init: Found) {
    && Searched(rules, r, found, init, 4)
    && forall q :: 0 <= q < 4 && init[q] ==> q < |r| && rules.settles(q, r[q])
  }

  lemma SearchIsStable(rules: Rules, cs: Components)
    requires Sound(rules)
    ensures var (r, found) := Rounds(rules, cs, Settled(rules, cs), 4); Stable(rules, r, found, Settled(rules, cs))
  {
    var init := Settled(rules, cs);
    var (r, found) := Rounds(rules, cs, init, 4);
    RoundsSearched(rules, cs, 4);
    SettledArePlaced(rules, cs);
    var m := RoundsKeep(rules, cs, init, 4);
    forall q | 0 <= q < 4 && init[q] ensures q < |r| && rules.settles(q, r[q]) {
      assert IsFixed(init, q) && r[q] == cs[q];
    }
  }

  // ----- What may stand at each position -----

  /** The component of the searched list, filled in. */
  predicate KeptAt(r: Components, found: Found, s: Components, found': Found, k: nat)
    requires k < |s|
  {
    k < |r| && s[k] == Fill(r)[k] && (IsFixed(found', k) <==> IsFixed(found, k))
  }

  /** A system or an environment. */
  predicate SettledAt(rules: Rules, s: Components, found': Found, k: nat)
    requires k < |s|
  {
    (k == 2 || k == 3) && found'[k] && rules.settles(k, s[k])
  }

  /** What fits the fourth position, but neither of the first two. */
  predicate IsFormat(rules: Rules, c: string) {
    c != "" && rules.accepts(3, c) && !rules.accepts(0, c) && !rules.accepts(1, c)
  }

  /** An object format written at position 3, where one was found, or at position 4. */
  predicate FormatAt(rules: Rules, r: Components, found: Found, s: Components, found': Found, k: nat)
    requires k < |s|
  {
    && found'[2] && found'[3] && IsFormat(rules, s[k])
    && (k == 4 || (k == 3 && found[3] && |r| > 3 && !rules.settles(3, r[3])))
  }

  predicate Slot(rules: Rules, r: Components, found: Found, s: Components, found': Found, k: nat)
    requires k < |s|
  {
    KeptAt(r, found, s, found', k) || SettledAt(rules, s, found', k) || FormatAt(rules, r, found, s, found', k)
  }

  /** Each position is of one of the three kinds, and nothing found is lost. */
  ghost predicate Shaped(rules: Rules, r: Components, found: Found, s: Components, found': Found) {
    && Placed(s, found')
    && (forall p :: 0 <= p < 4 && found[p] ==> found'[p]) && found'[0] == found[0] && found'[1] == found[1]
    && forall k {:trigger Slot(rules, r, found, s, found', k)} :: 0 <= k < |s| ==> Slot(rules, r, found, s, found', k)
  }

  /** What settles in the new list. */
  function SettledOf(rules: Rules, s: Components, found': Found): Found
    requires Placed(s, found')
  {
    [found'[0] && rules.settles(0, s[0]), found'[1] && rules.settles(1, s[1]),
     found'[2] && rules.settles(2, s[2]), found'[3] && rules.settles(3, s[3])]
  }

  // ----- The second search -----

  /** What was found is not empty, so filling leaves it alone. */
  lemma FoundIsFilled(rules: Rules, r: Components, found: Found, p: nat)
    requires Sound(rules) && Accepted(rules, r, found) && p < 4 && found[p]
    ensures p < |r| && rules.accepts(p, r[p]) && r[p] != "" && Fill(r)[p] == r[p]
  {
    assert !rules.accepts(p, "");
  }

  lemma ShapedAccepted(rules: Rules, r: Components, found: Found, s: Components, found': Found, p: nat)
    requires Sound(rules) && Accepted(rules, r, found) && Shaped(rules, r, found, s, found') && p < 4 && found'[p]
    ensures rules.accepts(p, s[p])
  {
    assert Slot(rules, r, found, s, found', p);
    if KeptAt(r, found, s, found', p) {
      FoundIsFilled(rules, r, found, p);
    }
  }

  /** A kept component that had settled settles now. */
  lemma KeptSettles(rules: Rules, r: Components, found: Found, init: Found, s: Components, found': Found, k: nat)
    requires Sound(rules) && Stable(rules, r, found, init) && Placed(s, found')
    requires k < |s| && KeptAt(r, found, s, found', k)
    ensures IsFixed(init, k) ==> IsFixed(SettledOf(rules, s, found'), k)
  {
    if IsFixed(init, k) {
      FoundIsFilled(rules, r, found, k);
    }
  }

  lemma ShapedNoneFits(rules: Rules, r: Components, found: Found, init: Found, s: Components, found': Found, p: nat)
    requires Sound(rules) && UnknownFree(rules) && Stable(rules, r, found, init)
    requires Shaped(rules, r, found, s, found') && p < 4 && !found'[p]
    ensures NoneFits(rules, s, found', SettledOf(rules, s, found'), p)
  {
    var init' := SettledOf(rules, s, found');
    assert NoneFits(rules, r, found, init, p);
    forall k | 0 <= k < |s| && !IsFixed(init', k) && (!IsFixed(found', k) || k > p) ensures !rules.accepts(p, s[k]) {
      assert Slot(rules, r, found, s, found', k);
      if KeptAt(r, found, s, found', k) {
        KeptSettles(rules, r, found, init, s, found', k);
        assert !rules.accepts(p, r[k]);
        NoMisfit(rules, r, k, p);
      }
    }
  }

  lemma ShapedFoundFirst(rules: Rules, r: Components, found: Found, init: Found, s: Components, found': Found, p: nat)
    requires Sound(rules) && UnknownFree(rules) && Stable(rules, r, found, init)
    requires Shaped(rules, r, found, s, found') && p < 4 && found'[p] && !SettledOf(rules, s, found')[p]
    ensures FoundFirst(rules, s, found', p)
  {
    assert Slot(rules, r, found, s, found', p);
    if KeptAt(r, found, s, found', p) {
      KeptSettles(rules, r, found, init, s, found', p);
    }
    assert FoundFirst(rules, r, found, p);
    forall k | 0 <= k < p && k < |s| && !IsFixed(found', k) ensures !rules.accepts(p, s[k]) {
      assert Slot(rules, r, found, s, found', k);
      assert !rules.accepts(p, r[k]);
      NoMisfit(rules, r, k, p);
    }
  }

  lemma ShapedFilled(rules: Rules, r: Components, found: Found, s: Components, found': Found)
    requires Sound(rules) && Shaped(rules, r, found, s, found')
    ensures Fill(s) == s
  {
    forall k | 0 <= k < |s| ensures s[k] != "" {
      assert Slot(rules, r, found, s, found', k);
      assert !rules.accepts(k, "");
    }
  }

  lemma ShapedSearched(rules: Rules, r: Components, found: Found, init: Found, s: Components, found': Found)
    requires Sound(rules) && UnknownFree(rules) && Stable(rules, r, found, init) && Shaped(rules, r, found, s, found')
    ensures Searched(rules, s, found', SettledOf(rules, s, found'), 4)
  {
    var init' := SettledOf(rules, s, found');
    forall p | 0 <= p < 4 && found'[p] ensures rules.accepts(p, s[p]) {
      ShapedAccepted(rules, r, found, s, found', p);
    }
    forall p | 0 <= p < 4 && found'[p] && !init'[p] ensures FoundFirst(rules, s, found', p) {
      ShapedFoundFirst(rules, r, found, init, s, found', p);
    }
    forall p | 0 <= p < 4 && !found'[p] ensures NoneFits(rules, s, found', init', p) {
      ShapedNoneFits(rules, r, found, init, s, found', p);
    }
  }

  /** The search moves nothing in a list of this shape. */
  lemma ShapedIsFixpoint(rules: Rules, r: Components, found: Found, init: Found, s: Components, found': Found)
    requires Sound(rules) && UnknownFree(rules) && Stable(rules, r, found, init) && Shaped(rules, r, found, s, found')
    ensures Rounds(rules, s, Settled(rules, s), 4) == (s, found') && Fill(s) == s
  {
    ShapedFilled(rules, r, found, s, found');
    ShapedSearched(rules, r, found, init, s, found');
    SearchedIsFixpoint(rules, s, found', SettledOf(rules, s, found'));
  }
}

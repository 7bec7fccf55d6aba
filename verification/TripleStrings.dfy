/** Splitting a target string at its dashes, and joining it again. */
module TripleStrings {

  predicate DashFree(s: string) {
    '-' !in s
  }

  /** The position of the first dash, or the length. */
  function Dash(s: string): (d: nat)
    ensures d <= |s| && DashFree(s[..d]) && (d < |s| ==> s[d] == '-')
  {
    if s == "" || s[0] == '-' then 0
    else
      var d := 1 + Dash(s[1..]);
      assert s[..d] == [s[0]] + s[1..][..d - 1];
      1 + Dash(s[1..])
  }

  /** What stands before the first dash, and after it. */
  function First(s: string): string {
    s[..Dash(s)]
  }

  function Second(s: string): string {
    if Dash(s) == |s| then "" else s[Dash(s) + 1..]
  }

  function Split(s: string): (cs: seq<string>)
    ensures cs != []
  {
    if Dash(s) == |s| then [s] else [First(s)] + Split(Second(s))
  }

  function Join(cs: seq<string>): string
    requires cs != []
  {
    if |cs| == 1 then cs[0] else cs[0] + "-" + Join(cs[1..])
  }

  lemma {:induction false} DashAt(a: string, b: string)
    requires DashFree(a)
    ensures Dash(a + "-" + b) == |a|
  {
    var s := a + "-" + b;
    if a == "" {
      assert s[0] == '-';
    } else {
      assert a[0] in a && forall c :: c in a[1..] ==> c in a;
      DashAt(a[1..], b);
      assert s[1..] == a[1..] + "-" + b && s[0] == a[0];
    }
  }

  lemma {:induction false} DashNone(a: string)
    requires DashFree(a)
    ensures Dash(a) == |a|
  {
    if a != "" {
      assert a[0] in a && forall c :: c in a[1..] ==> c in a;
      DashNone(a[1..]);
    }
  }

  /** A string with a dash after a dash-free start comes apart there. */
  lemma FirstSecond(a: string, b: string)
    requires DashFree(a)
    ensures First(a + "-" + b) == a && Second(a + "-" + b) == b && Dash(a + "-" + b) < |a + "-" + b|
  {
    DashAt(a, b);
    var s := a + "-" + b;
    assert s[..|a|] == a && s[|a| + 1..] == b;
  }

  lemma FirstAlone(a: string)
    requires DashFree(a)
    ensures First(a) == a && Second(a) == ""
  {
    DashNone(a);
  }

  lemma Pieces(s: string, d: nat)
    requires d < |s| && s[d] == '-'
    ensures s == s[..d] + "-" + s[d + 1..]
  {
    assert [s[d]] == "-";
  }

  lemma FirstDashFree(s: string)
    ensures DashFree(First(s))
    ensures Dash(s) < |s| ==> s == First(s) + "-" + Second(s)
    ensures Dash(s) == |s| ==> s == First(s) && Second(s) == ""
  {
    var d := Dash(s);
    if d < |s| {
      Pieces(s, d);
    } else {
      assert s[..d] == s;
    }
  }

  ghost predicate AllDashFree(cs: seq<string>) {
    forall c {:trigger DashFree(c)} :: c in cs ==> DashFree(c)
  }

  lemma {:induction false} SplitDashFree(s: string)
    ensures AllDashFree(Split(s))
  {
    FirstDashFree(s);
    if Dash(s) < |s| {
      SplitDashFree(Second(s));
      forall c | c in Split(s) ensures DashFree(c) {
        assert c == First(s) || c in Split(Second(s));
      }
    }
  }

  /** Splitting loses nothing. */
  lemma {:induction false} JoinSplit(s: string)
    ensures Join(Split(s)) == s
  {
    FirstDashFree(s);
    if Dash(s) < |s| {
      JoinSplit(Second(s));
      assert Split(s)[1..] == Split(Second(s));
    }
  }

  /** Splitting a joined string gives the components back, if none holds a dash. */
  lemma {:induction false} SplitJoin(cs: seq<string>)
    requires cs != [] && AllDashFree(cs)
    ensures Split(Join(cs)) == cs
  {
    assert DashFree(cs[0]);
    if |cs| == 1 {
      FirstAlone(cs[0]);
      DashNone(cs[0]);
    } else {
      forall c | c in cs[1..] ensures DashFree(c) {
        assert c in cs;
      }
      SplitJoin(cs[1..]);
      FirstSecond(cs[0], Join(cs[1..]));
      assert cs == [cs[0]] + cs[1..];
    }
  }

  lemma SplitCons(a: string, b: string)
    requires DashFree(a)
    ensures Split(a + "-" + b) == [a] + Split(b)
  {
    FirstSecond(a, b);
  }

  lemma DashAssociates(a: string, b: string, c: string)
    ensures (a + "-" + b) + "-" + c == a + "-" + (b + "-" + c)
  {
    assert a + "-" + b + "-" + c == a + ("-" + b + "-" + c);
  }

  /** Joining two strings with a dash puts their components in a row. */
  lemma {:induction false} SplitBoth(a: string, b: string)
    ensures Split(a + "-" + b) == Split(a) + Split(b)
    decreases |a|
  {
    FirstDashFree(a);
    if Dash(a) == |a| {
      SplitCons(a, b);
    } else {
      var x, y := First(a), Second(a);
      SplitBoth(y, b);
      DashAssociates(x, y, b);
      SplitCons(x, y + "-" + b);
      ConsBoth(x, Split(y), Split(b));
    }
  }

  lemma ConsBoth(x: string, a: seq<string>, b: seq<string>)
    ensures [x] + (a + b) == ([x] + a) + b
  {
  }
}

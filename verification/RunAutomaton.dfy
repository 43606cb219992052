/** run.cpp: simulating the automaton on every prefix of an input at once, and the whole way
    from an infix expression to the printed answer. */
module RunAutomaton {
  import opened Automaton
  import opened Build
  import opened PostFix

  /** Reading w leads from state p to state q. */
  ghost predicate Leads(d: DFA, p: nat, w: string, q: nat)
    decreases |w|
  {
    if w == [] then p == q
    else exists m: nat :: Leads(d, p, w[..|w| - 1], m) && (w[|w| - 1], q) in Out(d.transitions, m)
  }

  lemma {:induction false} LeadsFirst(d: DFA, p: nat, c: char, m: nat, w: string, q: nat)
    requires (c, m) in Out(d.transitions, p) && Leads(d, m, w, q)
    ensures Leads(d, p, [c] + w, q)
    decreases |w|
  {
    if w == [] {
      assert ([c] + w)[..0] == [] && [c] + w == [c];
      assert Leads(d, p, ([c] + w)[..0], p);
    } else {
      var k: nat :| Leads(d, m, w[..|w| - 1], k) && (w[|w| - 1], q) in Out(d.transitions, k);
      LeadsFirst(d, p, c, m, w[..|w| - 1], k);
      assert ([c] + w)[..|w|] == [c] + w[..|w| - 1];
    }
  }

  lemma {:induction false} AcceptsLeads(d: DFA, p: nat, w: string) returns (q: nat)
    requires Accepts(d, p, w)
    ensures Leads(d, p, w, q) && q in d.acceptStates
    decreases |w|
  {
    if w == [] {
      q := p;
    } else {
      var m: nat :| (w[0], m) in Out(d.transitions, p) && Accepts(d, m, w[1..]);
      q := AcceptsLeads(d, m, w[1..]);
      LeadsFirst(d, p, w[0], m, w[1..], q);
      assert w == [w[0]] + w[1..];
    }
  }

  lemma {:induction false} LeadsAccepts(d: DFA, p: nat, w: string, q: nat, v: string)
    requires Leads(d, p, w, q) && Accepts(d, q, v)
    ensures Accepts(d, p, w + v)
    decreases |w|
  {
    if w == [] {
      assert w + v == v;
    } else {
      var m: nat :| Leads(d, p, w[..|w| - 1], m) && (w[|w| - 1], q) in Out(d.transitions, m);
      var u := [w[|w| - 1]] + v;
      assert u[1..] == v;
      LeadsAccepts(d, p, w[..|w| - 1], m, u);
      assert w[..|w| - 1] + u == w + v;
    }
  }

  /** Acceptance from the start is reaching an accepting state. */
  lemma AcceptsIffLeads(d: DFA, w: string)
    ensures Accepts(d, 0, w) <==> exists q: nat :: Leads(d, 0, w, q) && q in d.acceptStates
  {
    if Accepts(d, 0, w) {
      var q := AcceptsLeads(d, 0, w);
    }
    if q: nat :| Leads(d, 0, w, q) && q in d.acceptStates {
      LeadsAccepts(d, 0, w, q, []);
      assert w + [] == w;
    }
  }

  type Table = map<(nat, char), seq<nat>>

  /** The table lists, for each state and letter, the targets of the edges. */
  ghost predicate Lists(table: Table, d: DFA) {
    forall p: nat, c: char, q: nat ::
      ((p, c) in table && q in table[(p, c)]) <==> p < d.n && (c, q) in Out(d.transitions, p)
  }

  /** Adds the edge (c, to) of state i. */
  function AddTarget(table: Table, i: nat, c: char, to: nat): Table {
    table[(i, c) := (if (i, c) in table then table[(i, c)] else []) + [to]]
  }

  lemma AddTargetMeaning(table: Table, i: nat, c: char, to: nat, p: nat, x: char, q: nat)
    ensures var r := AddTarget(table, i, c, to);
            ((p, x) in r && q in r[(p, x)]) <==>
              ((p, x) in table && q in table[(p, x)]) || (p == i && x == c && q == to)
  {
  }

  /** The targets recorded so far: all states below i, and the edges `seen` of state i. */
  ghost predicate ListsSoFar(table: Table, d: DFA, i: nat, seen: set<Edge>) {
    forall p: nat, c: char, q: nat ::
      ((p, c) in table && q in table[(p, c)]) <==>
        (p < i && (c, q) in Out(d.transitions, p)) || (p == i && (c, q) in seen)
  }

  /** Reading the printed automaton. */
  method ReadTable(d: DFA) returns (table: Table)
    requires d.n >= 0
    ensures Lists(table, d)
  {
    table := map[];
    for i := 0 to d.n
      invariant ListsSoFar(table, d, i, {})
    {
      var out := Out(d.transitions, i);
      var rest := out;
      assert out - rest == {};
      while rest != {}
        invariant rest <= out && ListsSoFar(table, d, i, out - rest)
      {
        var e: Edge :| e in rest;
        ghost var before, seen := table, out - rest;
        table := AddTarget(table, i, e.0, e.1);
        rest := rest - {e};
        assert out - rest == seen + {e};
        forall p: nat, c: char, q: nat
          ensures ((p, c) in table && q in table[(p, c)]) <==>
            (p < i && (c, q) in Out(d.transitions, p)) || (p == i && (c, q) in out - rest)
        {
          AddTargetMeaning(before, i, e.0, e.1, p, c, q);
        }
      }
      assert out - rest == out;
      assert ListsSoFar(table, d, i + 1, {});
    }
  }

  /** The states reached by one more letter, and whether one of them accepts. */
  method Advance(table: Table, accepting: set<nat>, current: set<nat>, c: char) returns (next: set<nat>, yes: bool)
    ensures forall q: nat :: q in next <==> exists p: nat :: p in current && (p, c) in table && q in table[(p, c)]
    ensures yes <==> exists q: nat :: q in next && q in accepting
  {
    next, yes := {}, false;
    var rest := current;
    while rest != {}
      invariant rest <= current
      invariant forall q: nat :: q in next <==>
        exists p: nat :: p in current - rest && (p, c) in table && q in table[(p, c)]
      invariant yes <==> exists q: nat :: q in next && q in accepting
    {
      var node: nat :| node in rest;
      ghost var before, done := next, current - rest;
      rest := rest - {node};
      assert current - rest == done + {node};
      if (node, c) !in table {
        continue;
      }
      var nodes := table[(node, c)];
      for i := 0 to |nodes|
        invariant forall q: nat :: q in next <==> q in before || q in nodes[..i]
        invariant yes <==> exists q: nat :: q in next && q in accepting
      {
        assert nodes[..i + 1] == nodes[..i] + [nodes[i]];
        if nodes[i] in accepting {
          yes := true;
        }
        next := next + {nodes[i]};
      }
      assert nodes[..|nodes|] == nodes;
    }
    assert current - rest == current;
  }

  lemma LeadsOn(d: DFA, w: string, c: char, q: nat)
    ensures Leads(d, 0, w + [c], q) <==> exists m: nat :: Leads(d, 0, w, m) && (c, q) in Out(d.transitions, m)
  {
    assert (w + [c])[..|w|] == w;
  }

  /** Y at position i exactly when the automaton accepts the prefix of length i + 1. */
  method Run(d: DFA, s: string) returns (ans: string)
    requires WellFormed(d)
    ensures |ans| == |s|
    ensures forall i :: 0 <= i < |s| ==> ans[i] == if Accepts(d, 0, s[..i + 1]) then 'Y' else 'N'
  {
    hide WellFormed, Accepts, Lists, Out, Leads;
    StartBelow(d);
    var table := ReadTable(d);
    ans := seq(|s|, _ => 'N');
    var currentStates: set<nat> := {0};
    LeadsEmpty(d);
    for currInd := 0 to |s|
      invariant |ans| == |s|
      invariant forall q: nat :: q in currentStates <==> Leads(d, 0, s[..currInd], q)
      invariant forall i :: 0 <= i < currInd ==> ans[i] == if Accepts(d, 0, s[..i + 1]) then 'Y' else 'N'
      invariant forall i :: currInd <= i < |s| ==> ans[i] == 'N'
    {
      var newState, yes := Advance(table, d.acceptStates, currentStates, s[currInd]);
      assert s[..currInd + 1] == s[..currInd] + [s[currInd]];
      forall q: nat ensures q in newState <==> Leads(d, 0, s[..currInd + 1], q) {
        LeadsOn(d, s[..currInd], s[currInd], q);
        ListsAt(table, d, s[currInd], q);
      }
      AcceptsIffLeads(d, s[..currInd + 1]);
      if yes {
        ans := ans[currInd := 'Y'];
      }
      currentStates := newState;
    }
  }

  lemma LeadsEmpty(d: DFA)
    ensures forall q: nat :: Leads(d, 0, [], q) <==> q == 0
  {
  }

  lemma ListsAt(table: Table, d: DFA, c: char, q: nat)
    requires WellFormed(d) && Lists(table, d)
    ensures forall p: nat :: ((p, c) in table && q in table[(p, c)]) <==> (c, q) in Out(d.transitions, p)
  {
    forall p: nat | (c, q) in Out(d.transitions, p) ensures p < d.n {
      OutBounds(d, p, (c, q));
    }
  }

  /** From an infix expression to the printed answer: Y exactly at the prefixes in the language. */
  method MatchPrefixes(infix: string, text: string, ghost s: Syntax) returns (ans: string)
    requires Proper(s) && infix == Text(s) && NoClash(infix)
    ensures |ans| == |text|
    ensures forall i :: 0 <= i < |text| ==> ans[i] == if In(Tree(s), text[..i + 1]) then 'Y' else 'N'
  {
    hide Proper, NoClash, Converted, Accepts, In, WellFormed;
    PostFixUndoesPrinting(s);
    ProperLettersPlain(s);
    PostEvaluates(Tree(s));
    var post := ToPostFix(infix);
    var d := Build.Build(post);
    ans := Run(d, text);
  }
}

/** The automaton constructions of build.cpp and the evaluation of a postfix expression. */
module Build {
  import opened Wrappers
  import opened Automaton

  // ---- Counting edges ----

  lemma AddKey(tr: Transitions, p: nat)
    requires p !in tr
    ensures Edges(tr[p := {}]) == Edges(tr)
    ensures forall q: nat :: Out(tr[p := {}], q) == Out(tr, q)
  {
  }

  lemma AddEdge(tr: Transitions, p: nat, e: Edge)
    requires p in tr && e !in tr[p]
    ensures |Edges(tr[p := tr[p] + {e}])| == |Edges(tr)| + 1
  {
    assert Edges(tr[p := tr[p] + {e}]) == Edges(tr) + {(p, e)};
  }

  lemma {:induction false} PairCount(p: nat, es: set<Edge>)
    ensures |set e | e in es :: (p, e)| == |es|
  {
    if es != {} {
      var x :| x in es;
      PairCount(p, es - {x});
      assert (set e | e in es :: (p, e)) == (set e | e in es - {x} :: (p, e)) + {(p, x)};
    }
  }

  lemma AddSource(tr: Transitions, p: nat, es: set<Edge>)
    requires p !in tr
    ensures |Edges(tr[p := es])| == |Edges(tr)| + |es|
  {
    var own := set e | e in es :: (p, e);
    PairCount(p, es);
    assert Edges(tr[p := es]) == Edges(tr) + own;
    assert Edges(tr) !! own;
  }

  /** r has the edges of tr, and the edges es from state p besides. */
  ghost predicate Adds(tr: Transitions, r: Transitions, p: nat, es: set<Edge>) {
    forall q: nat :: Out(r, q) == Out(tr, q) + if q == p then es else {}
  }

  ghost predicate KeysBelow(tr: Transitions, n: int) {
    forall p :: p in tr ==> p < n
  }

  /** Every edge leads to a state from 1 to n - 1. */
  ghost predicate TargetsWithin(tr: Transitions, n: int) {
    forall p: nat, c: char, q: nat :: (c, q) in Out(tr, p) ==> 1 <= q < n
  }

  ghost predicate StatesBelow(s: set<nat>, n: int) {
    forall x :: x in s ==> x < n
  }

  lemma WellFormedParts(d: DFA)
    ensures WellFormed(d) <==>
      && d.n >= 2 && KeysBelow(d.transitions, d.n) && TargetsWithin(d.transitions, d.n)
      && StatesBelow(d.acceptStates, d.n)
      && d.n - 1 in d.acceptStates && d.a == |d.acceptStates| && d.t == |Edges(d.transitions)|
  {
    if TargetsWithin(d.transitions, d.n) {
      forall p, e | p in d.transitions && e in d.transitions[p] ensures 1 <= e.1 < d.n {
        assert (e.0, e.1) in Out(d.transitions, p);
      }
    }
    if WellFormed(d) {
      forall p: nat, c: char, q: nat | (c, q) in Out(d.transitions, p) ensures 1 <= q < d.n {
        OutBounds(d, p, (c, q));
      }
    }
  }

  method BasicDFA(ch: char) returns (ans: DFA)
    ensures WellFormed(ans) && Recognises(ans, Letter(ch))
  {
    ans := DFA(2, 1, 1, {1}, map[0 := {(ch, 1)}]);
    assert Edges(ans.transitions) == {(0, (ch, 1))};
    LetterLanguage(ans, ch);
  }

  /** Gives state p the edges of es that it does not have yet, counting them. */
  method AddMissing(tr: Transitions, p: nat, es: set<Edge>, t: int) returns (r: Transitions, count: int)
    requires p in tr && t == |Edges(tr)|
    ensures r.Keys == tr.Keys && count == |Edges(r)|
    ensures Adds(tr, r, p, es)
  {
    hide Adds, Edges, Out;
    r, count := tr, t;
    var rest := es;
    AddsStart(tr, p);
    assert es - rest == {};
    while rest != {}
      invariant rest <= es && r.Keys == tr.Keys && count == |Edges(r)|
      invariant Adds(tr, r, p, es - rest)
    {
      var e: Edge :| e in rest;
      if e !in r[p] {
        AddEdge(r, p, e);
        count := count + 1;
      } else {
        assert r[p] + {e} == r[p];
        assert r[p := r[p]] == r;
      }
      AddsStep(tr, r, p, es - rest, e);
      assert es - rest + {e} == es - (rest - {e});
      r := r[p := r[p] + {e}];
      rest := rest - {e};
    }
    assert es - rest == es;
  }

  /** The edges of d with those of its start added to the visited states. */
  ghost predicate Starred(d: DFA, tr: Transitions, visited: set<nat>) {
    forall p: nat :: Out(tr, p) == Out(d.transitions, p) + if p in visited && p != 0 then Out(d.transitions, 0) else {}
  }

  lemma StarredStep(d: DFA, tr: Transitions, r: Transitions, visited: set<nat>, it: nat)
    requires Starred(d, tr, visited) && Adds(tr, r, it, if it == 0 then {} else Out(d.transitions, 0))
    ensures Starred(d, r, visited + {it})
  {
    hide Out;
  }

  /** Making sure that state p has an entry changes no edge. */
  lemma EnsureKey(tr: Transitions, p: nat)
    ensures var r := if p in tr then tr else tr[p := {}];
            |Edges(r)| == |Edges(tr)| && (forall q: nat :: Adds(r, r, q, {})) && forall x: nat ::
              Out(r, x) == Out(tr, x)
  {
    if p !in tr { AddKey(tr, p); }
  }

  lemma StarStart(d: DFA)
    requires WellFormed(d)
    ensures var tr := if 0 in d.transitions then d.transitions else d.transitions[0 := {}];
            KeysBelow(tr, d.n) && Starred(d, tr, {}) && d.t == |Edges(tr)| && tr[0] == Out(d.transitions, 0)
  {
    hide WellFormed, Edges, Out, Starred;
    WellFormedParts(d);
    StarredStart(d);
    EnsureKey(d.transitions, 0);
    OutIn(if 0 in d.transitions then d.transitions else d.transitions[0 := {}], 0);
  }

  method Star(dfa: DFA) returns (r: DFA)
    requires WellFormed(dfa)
    ensures WellFormed(r) && IsStar(dfa, r)
  {
    hide WellFormed, Edges, Out, Starred, IsStar, KeysBelow;
    StarStart(dfa);
    var tr: Transitions, t := if 0 in dfa.transitions then dfa.transitions else dfa.transitions[0 := {}], dfa.t;
    var ep := tr[0];
    var rest := dfa.acceptStates;
    assert dfa.acceptStates - rest == {};
    while rest != {}
      invariant rest <= dfa.acceptStates
      invariant KeysBelow(tr, dfa.n) && Starred(dfa, tr, dfa.acceptStates - rest)
      invariant t == |Edges(tr)|
    {
      var it: nat :| it in rest;
      tr, t := LinkToStart(dfa, tr, t, it, ep, dfa.acceptStates - rest);
      assert dfa.acceptStates - (rest - {it}) == dfa.acceptStates - rest + {it};
      rest := rest - {it};
    }
    var acc := dfa.acceptStates;
    if 0 !in acc {
      acc := acc + {0};
    }
    r := DFA(dfa.n, |acc|, t, acc, tr);
    assert dfa.acceptStates - rest == dfa.acceptStates;
    StarShape(dfa, r);
    StarWellFormed(dfa, r);
  }

  /** One round of the loop of star: the accepting state `it` gets the start's edges. */
  method LinkToStart(dfa: DFA, transitions: Transitions, count: int, it: nat, ep: set<Edge>, ghost visited: set<nat>)
    returns (tr: Transitions, t: int)
    requires WellFormed(dfa) && it in dfa.acceptStates && ep == Out(dfa.transitions, 0)
    requires KeysBelow(transitions, dfa.n) && Starred(dfa, transitions, visited) && count == |Edges(transitions)|
    ensures KeysBelow(tr, dfa.n) && Starred(dfa, tr, visited + {it}) && t == |Edges(tr)|
  {
    hide WellFormed, Edges, Out, Starred, Adds;
    tr, t := transitions, count;
    AcceptingState(dfa, it);
    EnsureKey(tr, it);
    EnsureStarred(dfa, tr, visited, it);
    if it !in tr {
      tr := tr[it := {}];
    }
    ghost var before := tr;
    if it != 0 {
      tr, t := AddMissing(tr, it, ep, t);
    }
    StarredStep(dfa, before, tr, visited, it);
  }

  lemma EnsureStarred(d: DFA, tr: Transitions, visited: set<nat>, it: nat)
    requires Starred(d, tr, visited)
    ensures Starred(d, if it in tr then tr else tr[it := {}], visited)
    ensures Adds(if it in tr then tr else tr[it := {}], if it in tr then tr else tr[it := {}], it, {})
  {
    EnsureKey(tr, it);
    hide Out;
  }

  lemma StarredStart(d: DFA)
    ensures Starred(d, d.transitions, {})
    ensures 0 !in d.transitions ==> Starred(d, d.transitions[0 := {}], {})
  {
  }

  lemma StarShape(d: DFA, r: DFA)
    requires r.n == d.n && r.acceptStates == d.acceptStates + {0} && Starred(d, r.transitions, d.acceptStates)
    ensures IsStar(d, r)
  {
  }

  lemma AcceptingState(d: DFA, p: nat)
    requires WellFormed(d) && p in d.acceptStates
    ensures p < d.n
  {
  }

  lemma OutIn(tr: Transitions, p: nat)
    requires p in tr
    ensures Out(tr, p) == tr[p]
  {
  }

  lemma StarWellFormed(d: DFA, r: DFA)
    requires WellFormed(d) && IsStar(d, r)
    requires KeysBelow(r.transitions, r.n)
    requires r.a == |r.acceptStates| && r.t == |Edges(r.transitions)|
    ensures WellFormed(r)
  {
    hide WellFormed, Edges, Out;
    WellFormedParts(d);
    WellFormedParts(r);
  }

  method CopySet(es: set<Edge>) returns (dest: set<Edge>)
    ensures dest == es
  {
    dest := {};
    var rest := es;
    while rest != {}
      invariant rest <= es && dest == es - rest
    {
      var e: Edge :| e in rest;
      dest, rest := dest + {(e.0, e.1)}, rest - {e};
    }
  }

  method CopyFirst(from: Transitions) returns (to: Transitions)
    ensures to == from
  {
    to := map[];
    var rest := from.Keys;
    while rest != {}
      invariant rest <= from.Keys && to.Keys == from.Keys - rest
      invariant forall f: nat :: f in to ==> to[f] == from[f]
    {
      var f: nat :| f in rest;
      var dest := CopySet(from[f]);
      to, rest := to[f := dest], rest - {f};
    }
  }

  /** The edges of es with their targets moved up by incr; size counts them. */
  method ShiftSet(es: set<Edge>, incr: nat, size: int) returns (dest: set<Edge>, count: int)
    ensures dest == Shift(es, incr) && count == size + |dest|
  {
    dest, count := {}, size;
    var rest := es;
    while rest != {}
      invariant rest <= es && dest == Shift(es - rest, incr) && count == size + |dest|
    {
      var e: Edge :| e in rest;
      ShiftBack(es - rest, incr, e.0, e.1 + incr);
      dest, count := dest + {(e.0, e.1 + incr)}, count + 1;
      assert es - (rest - {e}) == (es - rest) + {e};
      assert dest == Shift(es - (rest - {e}), incr);
      rest := rest - {e};
    }
  }

  lemma ShiftMore(es: set<Edge>, e: Edge, incr: nat)
    ensures Shift(es + {e}, incr) == Shift(es, incr) + {(e.0, e.1 + incr)}
    ensures e !in es ==> (e.0, e.1 + incr) !in Shift(es, incr)
  {
    ShiftBack(es, incr, e.0, e.1 + incr);
  }

  lemma AddsStart(tr: Transitions, p: nat)
    ensures Adds(tr, tr, p, {})
  {
  }

  lemma AddsStep(tr: Transitions, r: Transitions, p: nat, es: set<Edge>, e: Edge)
    requires Adds(tr, r, p, es) && p in r
    ensures Adds(tr, r[p := r[p] + {e}], p, es + {e})
  {
    forall q: nat ensures Out(r[p := r[p] + {e}], q) == Out(tr, q) + if q == p then es + {e} else {} {
      OutUpdate(r, p, r[p] + {e}, q);
      if q == p { OutIn(r, p); }
    }
  }

  /** Adds to state p the edges of es moved up by incr, all of them new. */
  method AttachShifted(tr: Transitions, p: nat, es: set<Edge>, incr: nat, size: int)
    returns (r: Transitions, count: int)
    requires p in tr && Out(tr, p) !! Shift(es, incr) && size == |Edges(tr)|
    ensures r.Keys == tr.Keys && count == |Edges(r)|
    ensures Adds(tr, r, p, Shift(es, incr))
  {
    hide Adds, Edges, Out, Shift;
    r, count := tr, size;
    var rest := es;
    AddsStart(tr, p);
    ShiftNone(incr);
    assert es - rest == {};
    while rest != {}
      invariant rest <= es && r.Keys == tr.Keys && count == |Edges(r)|
      invariant Adds(tr, r, p, Shift(es - rest, incr))
    {
      var e: Edge :| e in rest;
      var moved := (e.0, e.1 + incr);
      ghost var seen := es - rest;
      ShiftMore(seen, e, incr);
      ShiftMore(es - {e}, e, incr);
      assert es - {e} + {e} == es;
      OutIn(r, p);
      AddsAt(tr, r, p, Shift(seen, incr));
      AddEdge(r, p, moved);
      AddsStep(tr, r, p, Shift(seen, incr), moved);
      r := r[p := r[p] + {moved}];
      count := count + 1;
      rest := rest - {e};
      assert es - rest == seen + {e};
    }
    assert es - rest == es;
  }

  lemma AddsAt(tr: Transitions, r: Transitions, p: nat, es: set<Edge>)
    requires Adds(tr, r, p, es)
    ensures Out(r, p) == Out(tr, p) + es
  {
  }

  lemma ShiftNone(incr: nat)
    ensures Shift({}, incr) == {}
  {
  }

  /** The new number of a state of the second automaton. */
  function Up(f: nat, incr: nat): nat {
    f + incr
  }

  /** States up to incr are those of `to`; the states above are those of `from` in `done`, moved up. */
  ghost predicate Joined(to: Transitions, from: Transitions, r: Transitions, incr: nat, done: set<nat>) {
    && (forall p: nat :: p <= incr ==> Out(r, p) == Out(to, p))
    && (forall f: nat :: 0 < f ==> Out(r, Up(f, incr)) == if f in done then Shift(Out(from, f), incr) else {})
  }

  lemma JoinedStep(to: Transitions, from: Transitions, r: Transitions, incr: nat, done: set<nat>, f: nat)
    requires Joined(to, from, r, incr, done) && 0 < f
    ensures Joined(to, from, r[f + incr := Shift(Out(from, f), incr)], incr, done + {f})
  {
    hide Shift, Out;
    forall p: nat | p <= incr ensures Out(r[f + incr := Shift(Out(from, f), incr)], p) == Out(to, p) {
      OutUpdate(r, f + incr, Shift(Out(from, f), incr), p);
    }
    forall g: nat | 0 < g
      ensures Out(r[f + incr := Shift(Out(from, f), incr)], Up(g, incr)) ==
        if g in done + {f} then Shift(Out(from, g), incr) else {}
    {
      JoinedStepAt(to, from, r, incr, done, f, g);
    }
  }

  lemma JoinedStepAt(to: Transitions, from: Transitions, r: Transitions, incr: nat, done: set<nat>, f: nat, g: nat)
    requires Joined(to, from, r, incr, done) && 0 < f && 0 < g
    ensures Out(r[f + incr := Shift(Out(from, f), incr)], Up(g, incr)) ==
      if g in done + {f} then Shift(Out(from, g), incr) else {}
  {
    hide Shift, Out, Joined;
    OutUpdate(r, f + incr, Shift(Out(from, f), incr), Up(g, incr));
    JoinedAt(to, from, r, incr, done, g);
  }

  lemma JoinedAt(to: Transitions, from: Transitions, r: Transitions, incr: nat, done: set<nat>, g: nat)
    requires Joined(to, from, r, incr, done) && 0 < g
    ensures Out(r, Up(g, incr)) == if g in done then Shift(Out(from, g), incr) else {}
  {
  }

  lemma OutUpdate(tr: Transitions, k: nat, es: set<Edge>, q: nat)
    ensures Out(tr[k := es], q) == if q == k then es else Out(tr, q)
  {
  }

  lemma JoinedStart(to: Transitions, from: Transitions, incr: nat)
    requires KeysBelow(to, incr + 1)
    ensures Joined(to, from, to, incr, {})
  {
  }

  lemma JoinedSkip(to: Transitions, from: Transitions, r: Transitions, incr: nat, done: set<nat>)
    requires Joined(to, from, r, incr, done)
    ensures Joined(to, from, r, incr, done + {0})
  {
  }

  /** The new keys are moved-up keys of `from`. */
  ghost predicate KeysFrom(r: Transitions, from: Transitions, incr: nat, done: set<nat>) {
    forall p: nat :: p in r ==> p <= incr || ((p - incr) as nat in from && (p - incr) as nat in done)
  }

  /** The states of `from` but 0 are added with their number moved up by incr. */
  method CopySecondUnion(from: Transitions, to: Transitions, incr: nat, size: int) returns (r: Transitions, count: int)
    requires KeysBelow(to, incr + 1) && size == |Edges(to)|
    ensures KeysFrom(r, from, incr, from.Keys)
    ensures Joined(to, from, r, incr, from.Keys)
    ensures count == |Edges(r)|
  {
    hide Edges, Out, Shift, Joined;
    JoinedStart(to, from, incr);
    r, count := to, size;
    var rest := from.Keys;
    assert from.Keys - rest == {};
    while rest != {}
      invariant rest <= from.Keys && count == |Edges(r)|
      invariant KeysFrom(r, from, incr, from.Keys - rest)
      invariant Joined(to, from, r, incr, from.Keys - rest)
    {
      var f: nat :| f in rest;
      ghost var done := from.Keys - rest;
      rest := rest - {f};
      assert from.Keys - rest == done + {f};
      if f == 0 {
        JoinedSkip(to, from, r, incr, done);
        continue;
      }
      OutIn(from, f);
      var dest;
      dest, count := ShiftSet(from[f], incr, count);
      assert f + incr !in r;
      AddSource(r, f + incr, dest);
      JoinedStep(to, from, r, incr, done, f);
      r := r[f + incr := dest];
    }
    assert from.Keys - rest == from.Keys;
  }

  /** The edges of `to` with the moved-up start edges of `from` added to the visited states. */
  ghost predicate Attached(to: Transitions, r: Transitions, visited: set<nat>, es: set<Edge>) {
    forall p: nat :: Out(r, p) == Out(to, p) + if p in visited then es else {}
  }

  lemma AttachedStep(to: Transitions, tr: Transitions, r: Transitions, visited: set<nat>, it: nat, es: set<Edge>)
    requires Attached(to, tr, visited, es) && Adds(tr, r, it, es)
    ensures Attached(to, r, visited + {it}, es)
  {
    hide Out;
  }

  lemma AttachedReady(to: Transitions, tr: Transitions, visited: set<nat>, es: set<Edge>, it: nat)
    requires Attached(to, tr, visited, es) && it !in visited
    ensures var r := if it in tr then tr else tr[it := {}];
            Attached(to, r, visited, es) && Out(r, it) == Out(to, it) && |Edges(r)| == |Edges(tr)|
  {
    EnsureKey(tr, it);
  }

  lemma AttachedStart(to: Transitions, es: set<Edge>)
    ensures Attached(to, to, {}, es)
  {
  }

  lemma OutOrEmpty(tr: Transitions, p: nat)
    ensures Out(tr, p) == if p in tr then tr[p] else {}
  {
  }

  method CopySecond(from: Transitions, to: Transitions, acc: set<nat>, incr: nat, initSize: int)
    returns (r: Transitions, count: int, ghost mid: Transitions)
    requires KeysBelow(to, incr + 1) && StatesBelow(acc, incr + 1) && initSize == |Edges(to)|
    requires forall p: nat :: Out(to, p) !! Shift(Out(from, 0), incr)
    ensures KeysFrom(r, from, incr, from.Keys)
    ensures Attached(to, mid, acc, Shift(Out(from, 0), incr)) && Joined(mid, from, r, incr, from.Keys)
    ensures count == |Edges(r)|
  {
    hide Edges, Out, Shift, Adds, Joined, KeysFrom, TargetsWithin, Attached;
    OutOrEmpty(from, 0);
    var ep := if 0 in from then from[0] else {};
    r, count := to, initSize;
    var rest := acc;
    AttachedStart(to, Shift(ep, incr));
    assert acc - rest == {};
    while rest != {}
      invariant rest <= acc && count == |Edges(r)|
      invariant KeysBelow(r, incr + 1)
      invariant Attached(to, r, acc - rest, Shift(ep, incr))
    {
      var it: nat :| it in rest;
      ghost var visited := acc - rest;
      AttachedReady(to, r, visited, Shift(ep, incr), it);
      if it !in r {
        r := r[it := {}];
      }
      ghost var before := r;
      r, count := AttachShifted(r, it, ep, incr, count);
      AttachedStep(to, before, r, visited, it, Shift(ep, incr));
      rest := rest - {it};
      assert acc - rest == visited + {it};
    }
    assert acc - rest == acc;
    mid := r;
    r, count := CopySecondUnion(from, r, incr, count);
  }

  lemma NoOverlap(tr: Transitions, n: int, p: nat, other: Transitions, m: int)
    requires TargetsWithin(tr, n) && TargetsWithin(other, m) && n >= 1
    ensures Out(tr, p) !! Shift(Out(other, 0), n - 1)
  {
    forall e: Edge | e in Out(tr, p) ensures e !in Shift(Out(other, 0), n - 1) {
      assert (e.0, e.1) in Out(tr, p);
      ShiftBack(Out(other, 0), n - 1, e.0, e.1);
    }
  }

  method ShiftAccepting(acc: set<nat>, incr: nat, newAcc: set<nat>) returns (r: set<nat>)
    ensures r == newAcc + ShiftStates(acc, incr)
  {
    r := newAcc;
    var rest := acc;
    while rest != {}
      invariant rest <= acc && r == newAcc + ShiftStates(acc - rest, incr)
    {
      var it: nat :| it in rest;
      assert acc - (rest - {it}) == (acc - rest) + {it};
      assert ShiftStates(acc - (rest - {it}), incr) == ShiftStates(acc - rest, incr) + {it + incr};
      r, rest := r + {it + incr}, rest - {it};
    }
    assert acc - rest == acc;
  }

  method Concat(dfa1: DFA, dfa2: DFA) returns (ans: DFA)
    requires WellFormed(dfa1) && WellFormed(dfa2)
    ensures WellFormed(ans) && IsConcat(dfa1, dfa2, ans)
  {
    hide WellFormed, Edges, Out, Shift, Attached, Joined, IsConcat, TargetsWithin;
    WellFormedParts(dfa1);
    WellFormedParts(dfa2);
    var n := dfa1.n + dfa2.n - 1;
    var incr: nat := dfa1.n - 1;
    var tr := CopyFirst(dfa1.transitions);
    var initSize := dfa1.t;
    forall p: nat ensures Out(tr, p) !! Shift(Out(dfa2.transitions, 0), incr) {
      NoOverlap(tr, dfa1.n, p, dfa2.transitions, dfa2.n);
    }
    ghost var mid;
    tr, initSize, mid := CopySecond(dfa2.transitions, tr, dfa1.acceptStates, incr, initSize);
    var newAcc: set<nat> := {};
    if 0 in dfa2.acceptStates {
      newAcc := newAcc + dfa1.acceptStates;
    }
    newAcc := ShiftAccepting(dfa2.acceptStates, incr, newAcc);
    ans := DFA(n, |newAcc|, initSize, newAcc, tr);
    ConcatShape(dfa1, dfa2, mid, ans);
    ConcatWellFormed(dfa1, dfa2, ans);
  }

  lemma ConcatShape(d1: DFA, d2: DFA, mid: Transitions, r: DFA)
    requires d1.n >= 2 && r.n == d1.n + d2.n - 1
    requires r.acceptStates ==
      (if 0 in d2.acceptStates then d1.acceptStates else {}) + ShiftStates(d2.acceptStates, d1.n - 1)
    requires Attached(d1.transitions, mid, d1.acceptStates, Shift(Out(d2.transitions, 0), d1.n - 1))
    requires Joined(mid, d2.transitions, r.transitions, d1.n - 1, d2.transitions.Keys)
    ensures IsConcat(d1, d2, r)
  {
    forall p: nat | 0 < p ensures Out(r.transitions, p + d1.n - 1) == Shift(Out(d2.transitions, p), d1.n - 1) {
      assert Up(p, d1.n - 1) == p + d1.n - 1;
      assert p !in d2.transitions ==> Out(d2.transitions, p) == {};
    }
  }

  lemma ConcatWellFormed(d1: DFA, d2: DFA, r: DFA)
    requires WellFormed(d1) && WellFormed(d2) && d1.n >= 2 && IsConcat(d1, d2, r)
    requires KeysFrom(r.transitions, d2.transitions, d1.n - 1, d2.transitions.Keys)
    requires r.a == |r.acceptStates| && r.t == |Edges(r.transitions)|
    ensures WellFormed(r)
  {
    hide WellFormed, Edges, Out, Shift, IsConcat, ShiftStates;
    WellFormedParts(d1);
    WellFormedParts(d2);
    var k := d1.n - 1;
    forall p: nat, c: char, q: nat | (c, q) in Out(r.transitions, p) ensures 1 <= q < d1.n + d2.n - 1 {
      ConcatEdges(d1, d2, r, p, c, q);
      if p >= d1.n {
        ConcatEdges(d1, d2, r, p - k, c, q);
      }
    }
    ConcatHead(d1, d2, r);
    forall x: nat | x in r.acceptStates ensures x < r.n {
      ShiftStatesBack(d2.acceptStates, k, x);
    }
    ShiftStatesBack(d2.acceptStates, k, r.n - 1);
    WellFormedParts(r);
  }

  lemma ConcatHead(d1: DFA, d2: DFA, r: DFA)
    requires d1.n >= 2 && IsConcat(d1, d2, r)
    ensures r.n == d1.n + d2.n - 1
    ensures r.acceptStates ==
      (if 0 in d2.acceptStates then d1.acceptStates else {}) + ShiftStates(d2.acceptStates, d1.n - 1)
  {
  }

  method CopyAcceptStates(acc1: set<nat>, acc2: set<nat>, incr: nat) returns (acc: set<nat>)
    ensures acc == acc1 + (if 0 in acc2 then {0} else {}) + ShiftStates(acc2 - {0}, incr)
  {
    acc := acc1;
    var rest := acc2;
    while rest != {}
      invariant rest <= acc2
      invariant acc == acc1 + (if 0 in acc2 - rest then {0} else {}) + ShiftStates(acc2 - rest - {0}, incr)
    {
      var it: nat :| it in rest;
      if it == 0 {
        assert acc2 - (rest - {it}) - {0} == acc2 - rest - {0};
        acc := acc + {0};
      } else {
        assert acc2 - (rest - {it}) - {0} == (acc2 - rest - {0}) + {it};
        assert ShiftStates(acc2 - (rest - {it}) - {0}, incr) == ShiftStates(acc2 - rest - {0}, incr) + {it + incr};
        acc := acc + {it + incr};
      }
      rest := rest - {it};
    }
    assert acc2 - rest == acc2;
  }

  method DfaUnion(dfa1: DFA, dfa2: DFA) returns (ans: DFA)
    requires WellFormed(dfa1) && WellFormed(dfa2)
    ensures WellFormed(ans) && IsUnion(dfa1, dfa2, ans)
  {
    hide WellFormed, Edges, Out, Shift, Joined, IsUnion, TargetsWithin, Adds;
    WellFormedParts(dfa1);
    WellFormedParts(dfa2);
    var n := dfa1.n + dfa2.n - 1;
    var incr: nat := dfa1.n - 1;
    var tr := CopyFirst(dfa1.transitions);
    EnsureKey(dfa2.transitions, 0);
    var ep := if 0 in dfa2.transitions then dfa2.transitions[0] else {};
    assert ep == Out(dfa2.transitions, 0) by {
      if 0 in dfa2.transitions { OutIn(dfa2.transitions, 0); } else { OutIn(dfa2.transitions[0 := {}], 0); }
    }
    var size := dfa1.t;
    EnsureKey(tr, 0);
    NoOverlap(tr, dfa1.n, 0, dfa2.transitions, dfa2.n);
    if 0 !in tr {
      tr := tr[0 := {}];
    }
    ghost var start := tr;
    tr, size := AttachShifted(tr, 0, ep, incr, size);
    ghost var mid := tr;
    tr, size := CopySecondUnion(dfa2.transitions, tr, incr, size);
    var acc := CopyAcceptStates(dfa1.acceptStates, dfa2.acceptStates, incr);
    ans := DFA(n, |acc|, size, acc, tr);
    UnionShape(dfa1, dfa2, start, mid, ans);
    UnionWellFormed(dfa1, dfa2, ans);
  }

  lemma UnionShape(d1: DFA, d2: DFA, start: Transitions, mid: Transitions, r: DFA)
    requires d1.n >= 2 && r.n == d1.n + d2.n - 1
    requires r.acceptStates ==
      d1.acceptStates + (if 0 in d2.acceptStates then {0} else {}) + ShiftStates(d2.acceptStates - {0}, d1.n - 1)
    requires forall p: nat :: Out(start, p) == Out(d1.transitions, p)
    requires Adds(start, mid, 0, Shift(Out(d2.transitions, 0), d1.n - 1))
    requires Joined(mid, d2.transitions, r.transitions, d1.n - 1, d2.transitions.Keys)
    ensures IsUnion(d1, d2, r)
  {
    forall p: nat | 0 < p ensures Out(r.transitions, p + d1.n - 1) == Shift(Out(d2.transitions, p), d1.n - 1) {
      assert Up(p, d1.n - 1) == p + d1.n - 1;
      assert p !in d2.transitions ==> Out(d2.transitions, p) == {};
    }
  }

  lemma UnionWellFormed(d1: DFA, d2: DFA, r: DFA)
    requires WellFormed(d1) && WellFormed(d2) && d1.n >= 2 && IsUnion(d1, d2, r)
    requires KeysFrom(r.transitions, d2.transitions, d1.n - 1, d2.transitions.Keys)
    requires r.a == |r.acceptStates| && r.t == |Edges(r.transitions)|
    ensures WellFormed(r)
  {
    hide WellFormed, Edges, Out, Shift, IsUnion, ShiftStates;
    WellFormedParts(d1);
    WellFormedParts(d2);
    var k := d1.n - 1;
    forall p: nat, c: char, q: nat | (c, q) in Out(r.transitions, p) ensures 1 <= q < d1.n + d2.n - 1 {
      UnionEdges(d1, d2, r, p, c, q);
      if p >= d1.n {
        UnionEdges(d1, d2, r, p - k, c, q);
      }
    }
    UnionHead(d1, d2, r);
    forall x: nat | x in r.acceptStates ensures x < r.n {
      ShiftStatesBack(d2.acceptStates - {0}, k, x);
    }
    ShiftStatesBack(d2.acceptStates - {0}, k, r.n - 1);
    WellFormedParts(r);
  }

  lemma UnionHead(d1: DFA, d2: DFA, r: DFA)
    requires d1.n >= 2 && IsUnion(d1, d2, r)
    ensures r.n == d1.n + d2.n - 1
    ensures r.acceptStates ==
      d1.acceptStates + (if 0 in d2.acceptStates then {0} else {}) + ShiftStates(d2.acceptStates - {0}, d1.n - 1)
  {
  }

  // ---- Postfix expressions ----

  predicate IsOperator(c: char) {
    c == '&' || c == '*' || c == '|'
  }

  /** Reads a postfix string onto a stack of expressions; None when an operand is missing. */
  function Eval(reg: string, stack: seq<Regex>): Option<seq<Regex>>
    decreases |reg|
  {
    if reg == [] then Some(stack)
    else
      var c, k := reg[0], |stack|;
      if !IsOperator(c) then Eval(reg[1..], stack + [Letter(c)])
      else if c == '*' then
        if k < 1 then None else Eval(reg[1..], stack[..k - 1] + [Regex.Star(stack[k - 1])])
      else
        if k < 2 then None
        else Eval(reg[1..],
          stack[..k - 2] +
          [if c == '&' then Regex.Concat(stack[k - 2], stack[k - 1]) else Regex.Union(stack[k - 2], stack[k - 1])])
  }

  /** The postfix form of an expression. */
  function Post(r: Regex): string {
    match r
    case Letter(c) => [c]
    case Star(s) => Post(s) + "*"
    case Concat(l, s) => Post(l) + Post(s) + "&"
    case Union(l, s) => Post(l) + Post(s) + "|"
  }

  /** No letter of the expression is one of the operator symbols. */
  predicate PlainLetters(r: Regex) {
    match r
    case Letter(c) => !IsOperator(c)
    case Star(s) => PlainLetters(s)
    case Concat(l, s) => PlainLetters(l) && PlainLetters(s)
    case Union(l, s) => PlainLetters(l) && PlainLetters(s)
  }

  lemma EvalLetter(c: char, rest: string, stack: seq<Regex>)
    requires !IsOperator(c)
    ensures Eval([c] + rest, stack) == Eval(rest, stack + [Letter(c)])
  {
    assert ([c] + rest)[1..] == rest;
  }

  lemma EvalStar(rest: string, stack: seq<Regex>, s: Regex)
    ensures Eval("*" + rest, stack + [s]) == Eval(rest, stack + [Regex.Star(s)])
  {
    assert ("*" + rest)[1..] == rest;
    assert (stack + [s])[..|stack|] == stack;
  }

  lemma EvalBinary(c: char, rest: string, stack: seq<Regex>, l: Regex, r: Regex)
    requires c == '&' || c == '|'
    ensures Eval([c] + rest, stack + [l] + [r]) ==
      Eval(rest, stack + [if c == '&' then Regex.Concat(l, r) else Regex.Union(l, r)])
  {
    assert ([c] + rest)[1..] == rest;
    assert (stack + [l] + [r])[..|stack|] == stack;
  }

  /** Reading the postfix form of r pushes exactly r. */
  lemma {:induction false} EvalPost(r: Regex, rest: string, stack: seq<Regex>)
    requires PlainLetters(r)
    ensures Eval(Post(r) + rest, stack) == Eval(rest, stack + [r])
    decreases r
  {
    hide Eval;
    match r
    case Letter(c) =>
      EvalLetter(c, rest, stack);
    case Star(s) =>
      assert Post(r) + rest == Post(s) + ("*" + rest);
      EvalPost(s, "*" + rest, stack);
      EvalStar(rest, stack, s);
    case Concat(l, s) =>
      assert Post(r) + rest == Post(l) + (Post(s) + ("&" + rest));
      EvalPost(l, Post(s) + ("&" + rest), stack);
      EvalPost(s, "&" + rest, stack + [l]);
      EvalBinary('&', rest, stack, l, s);
    case Union(l, s) =>
      assert Post(r) + rest == Post(l) + (Post(s) + ("|" + rest));
      EvalPost(l, Post(s) + ("|" + rest), stack);
      EvalPost(s, "|" + rest, stack + [l]);
      EvalBinary('|', rest, stack, l, s);
  }

  lemma PostEvaluates(r: Regex)
    requires PlainLetters(r)
    ensures Eval(Post(r), []) == Some([r])
  {
    EvalPost(r, [], []);
    assert Post(r) + [] == Post(r);
    assert [] + [r] == [r];
  }

  /** The automata on the stack recognise the expressions on the stack. */
  ghost predicate Stacked(res: seq<DFA>, stack: seq<Regex>) {
    |res| == |stack| && forall k :: 0 <= k < |res| ==> WellFormed(res[k]) && Recognises(res[k], stack[k])
  }

  /** For every string that reads as a postfix expression, the automaton accepts exactly the
      language of the expression on top of the stack. */
  method Build(reg: string) returns (d: DFA)
    requires Eval(reg, []).Some? && Eval(reg, []).value != []
    ensures WellFormed(d)
    ensures var stack := Eval(reg, []).value; Recognises(d, stack[|stack| - 1])
  {
    hide WellFormed, Recognises, IsStar, IsConcat, IsUnion;
    var res: seq<DFA> := [];
    ghost var stack: seq<Regex> := [];
    assert reg[0..] == reg;
    for i := 0 to |reg|
      invariant Stacked(res, stack)
      invariant Eval(reg[i..], stack) == Eval(reg, [])
    {
      assert reg[i..][1..] == reg[i + 1..] && reg[i..][0] == reg[i];
      var k := |res|;
      if reg[i] != '&' && reg[i] != '*' && reg[i] != '|' {
        var d0 := BasicDFA(reg[i]);
        res := res + [d0];
        stack := stack + [Letter(reg[i])];
      } else if reg[i] == '*' {
        var d0 := res[k - 1];
        res := res[..k - 1];
        var s := Star(d0);
        StarLanguage(d0, s, stack[k - 1]);
        res := res + [s];
        stack := stack[..k - 1] + [Regex.Star(stack[k - 1])];
      } else {
        var d1, d2 := res[k - 1], res[k - 2];
        res := res[..k - 2];
        var s;
        if reg[i] == '&' {
          s := Concat(d2, d1);
          ConcatLanguage(d2, d1, s, stack[k - 2], stack[k - 1]);
          stack := stack[..k - 2] + [Regex.Concat(stack[k - 2], stack[k - 1])];
        } else {
          s := DfaUnion(d2, d1);
          UnionLanguage(d2, d1, s, stack[k - 2], stack[k - 1]);
          stack := stack[..k - 2] + [Regex.Union(stack[k - 2], stack[k - 1])];
        }
        res := res + [s];
      }
    }
    assert reg[|reg|..] == [];
    d := res[|res| - 1];
  }
}

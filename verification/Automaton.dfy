/** Regular expressions, epsilon-free automata, and what the three automaton constructions do
    to the accepted language. */
module Automaton {

  datatype Regex = Letter(c: char) | Star(r: Regex) | Concat(l: Regex, r: Regex) | Union(l: Regex, r: Regex)

  /** w belongs to the language of r. */
  ghost predicate In(r: Regex, w: string)
    decreases r, |w|
  {
    match r
    case Letter(c) => w == [c]
    case Star(s) => w == [] || exists i :: 0 < i <= |w| && In(s, w[..i]) && In(r, w[i..])
    case Concat(l, s) => exists i :: 0 <= i <= |w| && In(l, w[..i]) && In(s, w[i..])
    case Union(l, s) => In(l, w) || In(s, w)
  }

  type Edge = (char, nat)
  type Transitions = map<nat, set<Edge>>

  /** n states, a accepting states, t edges; state 0 is the start. */
  datatype DFA = DFA(n: int, a: int, t: int, acceptStates: set<nat>, transitions: Transitions)

  function Out(tr: Transitions, p: nat): set<Edge> {
    if p in tr then tr[p] else {}
  }

  /** All edges, each with its source. */
  function Edges(tr: Transitions): set<(nat, Edge)> {
    set p, e | p in tr && e in tr[p] :: (p, e)
  }

  /** The automaton accepts w when started in state p. */
  ghost predicate Accepts(d: DFA, p: nat, w: string)
    decreases |w|
  {
    if w == [] then p in d.acceptStates
    else exists q: nat :: (w[0], q) in Out(d.transitions, p) && Accepts(d, q, w[1..])
  }

  /** What every construction keeps: no edge enters state 0, all states are below n, the last
      state accepts, and the counters a and t are right. */
  ghost predicate WellFormed(d: DFA) {
    && d.n >= 2
    && (forall p :: p in d.transitions ==> p < d.n)
    && (forall p, e :: p in d.transitions && e in d.transitions[p] ==> 1 <= e.1 < d.n)
    && (forall p :: p in d.acceptStates ==> p < d.n)
    && d.n - 1 in d.acceptStates
    && d.a == |d.acceptStates|
    && d.t == |Edges(d.transitions)|
  }

  lemma OutBounds(d: DFA, p: nat, e: Edge)
    requires WellFormed(d) && e in Out(d.transitions, p)
    ensures p < d.n && 1 <= e.1 < d.n
  {
  }

  lemma AcceptBounds(d: DFA)
    requires WellFormed(d)
    ensures (forall x :: x in d.acceptStates ==> x < d.n) && d.n - 1 in d.acceptStates
  {
  }

  /** The automaton accepts exactly the language of the expression. */
  ghost predicate Recognises(d: DFA, r: Regex) {
    forall w :: Accepts(d, 0, w) <==> In(r, w)
  }

  function Shift(es: set<Edge>, k: nat): set<Edge> {
    set e | e in es :: (e.0, e.1 + k)
  }

  function ShiftStates(s: set<nat>, k: nat): set<nat> {
    set x | x in s :: x + k
  }

  /** Undoing a shift. */
  lemma ShiftBack(es: set<Edge>, k: nat, c: char, q: nat)
    ensures (c, q) in Shift(es, k) <==> q >= k && (c, (q - k) as nat) in es
  {
    if q >= k && (c, (q - k) as nat) in es {
      var e := (c, (q - k) as nat);
      assert (e.0, e.1 + k) in Shift(es, k);
    }
  }

  lemma ShiftStatesBack(s: set<nat>, k: nat, x: nat)
    ensures x in ShiftStates(s, k) <==> x >= k && (x - k) as nat in s
  {
    if x >= k && (x - k) as nat in s {
      var y := (x - k) as nat;
      assert y + k in ShiftStates(s, k);
    }
  }

  // ---- A single letter ----

  lemma LetterLanguage(d: DFA, c: char)
    requires d.acceptStates == {1} && d.transitions == map[0 := {(c, 1)}]
    ensures Recognises(d, Letter(c))
  {
    forall w ensures Accepts(d, 0, w) <==> In(Letter(c), w) {
      if w != [] {
        if |w| == 1 { assert w == [w[0]] && w[1..] == []; } else { assert w[1..] != []; }
        assert Accepts(d, 1, w[1..]) <==> w[1..] == [];
        assert Accepts(d, 0, w) <==> w[0] == c && Accepts(d, 1, w[1..]);
      }
    }
  }

  // ---- Star ----

  /** Every accepting state but 0 gets the start's edges as well; 0 becomes accepting. */
  ghost predicate IsStar(d: DFA, r: DFA) {
    && r.n == d.n
    && r.acceptStates == d.acceptStates + {0}
    && forall p: nat :: Out(r.transitions, p) ==
         Out(d.transitions, p) + if p in d.acceptStates && p != 0 then Out(d.transitions, 0) else {}
  }

  /** w is a sequence of words accepted from the start. */
  ghost predicate Repeats(d: DFA, w: string)
    decreases |w|
  {
    w == [] || exists i :: 0 < i <= |w| && Accepts(d, 0, w[..i]) && Repeats(d, w[i..])
  }

  /** w is a word accepted from p followed by such a sequence. */
  ghost predicate ThenRepeats(d: DFA, p: nat, w: string) {
    exists i :: 0 <= i <= |w| && Accepts(d, p, w[..i]) && Repeats(d, w[i..])
  }

  lemma AcceptsFirst(d: DFA, p: nat, w: string, i: nat, q: nat)
    requires 0 < i <= |w| && (w[0], q) in Out(d.transitions, p) && Accepts(d, q, w[1..][..i - 1])
    ensures Accepts(d, p, w[..i])
  {
    assert w[..i][1..] == w[1..][..i - 1];
  }

  lemma AcceptsRest(d: DFA, p: nat, w: string, i: nat) returns (q: nat)
    requires 0 < i <= |w| && Accepts(d, p, w[..i])
    ensures (w[0], q) in Out(d.transitions, p) && Accepts(d, q, w[1..][..i - 1])
  {
    assert w[..i][1..] == w[1..][..i - 1];
    q :| (w[..i][0], q) in Out(d.transitions, p) && Accepts(d, q, w[..i][1..]);
  }

  lemma ThenRepeatsFirst(d: DFA, p: nat, w: string, q: nat)
    requires w != [] && (w[0], q) in Out(d.transitions, p) && ThenRepeats(d, q, w[1..])
    ensures ThenRepeats(d, p, w)
    ensures exists i :: 0 < i <= |w| && Accepts(d, p, w[..i]) && Repeats(d, w[i..])
  {
    var i :| 0 <= i <= |w[1..]| && Accepts(d, q, w[1..][..i]) && Repeats(d, w[1..][i..]);
    AcceptsFirst(d, p, w, i + 1, q);
    assert w[1..][i..] == w[i + 1..];
  }

  lemma {:induction false} StarSound(d: DFA, r: DFA, p: nat, w: string)
    requires WellFormed(d) && IsStar(d, r) && 0 < p && Accepts(r, p, w)
    ensures ThenRepeats(d, p, w)
    decreases |w|
  {
    if w == [] {
      assert w[..0] == [] && w[0..] == [];
      assert Accepts(d, p, w[..0]);
    } else {
      var q :| (w[0], q) in Out(r.transitions, p) && Accepts(r, q, w[1..]);
      if (w[0], q) in Out(d.transitions, p) {
        OutBounds(d, p, (w[0], q));
        StarSound(d, r, q, w[1..]);
        ThenRepeatsFirst(d, p, w, q);
      } else {
        OutBounds(d, 0, (w[0], q));
        StarSound(d, r, q, w[1..]);
        ThenRepeatsFirst(d, 0, w, q);
        assert w[..0] == [] && w[0..] == w;
        assert Accepts(d, p, w[..0]) && Repeats(d, w[0..]);
      }
    }
  }

  /** The first letter of a non-empty repetition leads on from the start. */
  lemma RepeatsFirst(d: DFA, w: string) returns (q: nat)
    requires w != [] && Repeats(d, w)
    ensures (w[0], q) in Out(d.transitions, 0) && ThenRepeats(d, q, w[1..])
  {
    var i :| 0 < i <= |w| && Accepts(d, 0, w[..i]) && Repeats(d, w[i..]);
    q := AcceptsRest(d, 0, w, i);
    assert w[1..][i - 1..] == w[i..];
  }

  lemma {:induction false} StarComplete(d: DFA, r: DFA, p: nat, w: string)
    requires WellFormed(d) && IsStar(d, r) && 0 < p && ThenRepeats(d, p, w)
    ensures Accepts(r, p, w)
    decreases |w|
  {
    var i :| 0 <= i <= |w| && Accepts(d, p, w[..i]) && Repeats(d, w[i..]);
    if w != [] {
      var q: nat;
      if i == 0 {
        assert w[..0] == [] && w[0..] == w;
        q := RepeatsFirst(d, w);
        OutBounds(d, 0, (w[0], q));
      } else {
        q := AcceptsRest(d, p, w, i);
        OutBounds(d, p, (w[0], q));
        assert w[1..][i - 1..] == w[i..];
        assert ThenRepeats(d, q, w[1..]);
      }
      StarComplete(d, r, q, w[1..]);
      assert (w[0], q) in Out(r.transitions, p);
    }
  }

  lemma {:induction false} RepeatsLanguage(d: DFA, s: Regex, w: string)
    requires Recognises(d, s)
    ensures Repeats(d, w) <==> In(Star(s), w)
    decreases |w|
  {
    forall i | 0 < i <= |w| ensures Repeats(d, w[i..]) <==> In(Star(s), w[i..]) {
      RepeatsLanguage(d, s, w[i..]);
    }
  }

  lemma StarLanguage(d: DFA, r: DFA, s: Regex)
    requires WellFormed(d) && IsStar(d, r) && Recognises(d, s)
    ensures Recognises(r, Star(s))
  {
    forall w ensures Accepts(r, 0, w) <==> In(Star(s), w) {
      RepeatsLanguage(d, s, w);
      if w != [] && Accepts(r, 0, w) {
        var q :| (w[0], q) in Out(r.transitions, 0) && Accepts(r, q, w[1..]);
        OutBounds(d, 0, (w[0], q));
        StarSound(d, r, q, w[1..]);
        ThenRepeatsFirst(d, 0, w, q);
      }
      if w != [] && Repeats(d, w) {
        var q := RepeatsFirst(d, w);
        OutBounds(d, 0, (w[0], q));
        StarComplete(d, r, q, w[1..]);
        assert (w[0], q) in Out(r.transitions, 0);
      }
    }
  }

  // ---- Concatenation ----

  /** The second automaton, renumbered by n1 - 1 and without its start, is attached to the
      accepting states of the first. When the second start accepts, 0 + (n1 - 1) is among the
      new accepting states too. */
  ghost predicate IsConcat(d1: DFA, d2: DFA, r: DFA)
    requires d1.n >= 1
  {
    var k := d1.n - 1;
    && r.n == d1.n + d2.n - 1
    && r.acceptStates == (if 0 in d2.acceptStates then d1.acceptStates else {}) + ShiftStates(d2.acceptStates, k)
    && (forall p: nat :: p < d1.n ==>
          Out(r.transitions, p) == Out(d1.transitions, p) +
          if p in d1.acceptStates then Shift(Out(d2.transitions, 0), k) else {})
    && (forall p: nat :: 0 < p ==> Out(r.transitions, p + k) == Shift(Out(d2.transitions, p), k))
  }

  ghost predicate SplitAccepts(d1: DFA, p: nat, d2: DFA, w: string) {
    exists i :: 0 <= i <= |w| && Accepts(d1, p, w[..i]) && Accepts(d2, 0, w[i..])
  }

  lemma SplitFirst(d1: DFA, p: nat, d2: DFA, w: string, q: nat)
    requires w != [] && (w[0], q) in Out(d1.transitions, p) && SplitAccepts(d1, q, d2, w[1..])
    ensures SplitAccepts(d1, p, d2, w)
  {
    var i :| 0 <= i <= |w[1..]| && Accepts(d1, q, w[1..][..i]) && Accepts(d2, 0, w[1..][i..]);
    AcceptsFirst(d1, p, w, i + 1, q);
    assert w[1..][i..] == w[i + 1..];
  }

  /** Edges of the result, state by state. */
  lemma ConcatEdges(d1: DFA, d2: DFA, r: DFA, p: nat, c: char, q: nat)
    requires d1.n >= 2 && IsConcat(d1, d2, r)
    ensures p < d1.n ==>
      ((c, q) in Out(r.transitions, p) <==>
       (c, q) in Out(d1.transitions, p) ||
       (p in d1.acceptStates && q >= d1.n - 1 && (c, (q - (d1.n - 1)) as nat) in Out(d2.transitions, 0)))
    ensures 0 < p ==>
      ((c, q) in Out(r.transitions, p + d1.n - 1) <==>
        q >= d1.n - 1 && (c, (q - (d1.n - 1)) as nat) in Out(d2.transitions, p))
  {
    hide Out, Shift;
    ShiftBack(Out(d2.transitions, 0), d1.n - 1, c, q);
    ShiftBack(Out(d2.transitions, p), d1.n - 1, c, q);
  }

  /** Acceptance in the result: the stray state 0 + (n1 - 1) accepts in the first automaton anyway. */
  lemma ConcatAccepting(d1: DFA, d2: DFA, r: DFA, p: nat)
    requires WellFormed(d1) && d1.n >= 2 && IsConcat(d1, d2, r)
    ensures p < d1.n ==> (p in r.acceptStates <==> p in d1.acceptStates && 0 in d2.acceptStates)
    ensures 0 < p ==> (p + d1.n - 1 in r.acceptStates <==> p in d2.acceptStates)
  {
    hide Out, WellFormed, ShiftStates;
    AcceptBounds(d1);
    ShiftStatesBack(d2.acceptStates, d1.n - 1, p);
    ShiftStatesBack(d2.acceptStates, d1.n - 1, p + d1.n - 1);
  }

  lemma {:induction false} ConcatSecond(d1: DFA, d2: DFA, r: DFA, p: nat, w: string)
    requires WellFormed(d1) && WellFormed(d2) && IsConcat(d1, d2, r) && 0 < p && d1.n >= 2
    ensures Accepts(r, p + d1.n - 1, w) <==> Accepts(d2, p, w)
    decreases |w|
  {
    hide WellFormed, IsConcat, Out;
    var k := d1.n - 1;
    if w == [] {
      ConcatAccepting(d1, d2, r, p);
    } else {
      if q :| (w[0], q) in Out(d2.transitions, p) && Accepts(d2, q, w[1..]) {
        OutBounds(d2, p, (w[0], q));
        ConcatSecond(d1, d2, r, q, w[1..]);
        ConcatEdges(d1, d2, r, p, w[0], q + k);
      }
      if q' :| (w[0], q') in Out(r.transitions, p + k) && Accepts(r, q', w[1..]) {
        ConcatEdges(d1, d2, r, p, w[0], q');
        var q := (q' - k) as nat;
        OutBounds(d2, p, (w[0], q));
        ConcatSecond(d1, d2, r, q, w[1..]);
      }
    }
  }

  lemma {:induction false} ConcatSound(d1: DFA, d2: DFA, r: DFA, p: nat, w: string)
    requires WellFormed(d1) && WellFormed(d2) && IsConcat(d1, d2, r) && p < d1.n && Accepts(r, p, w)
    ensures SplitAccepts(d1, p, d2, w)
    decreases |w|
  {
    hide WellFormed, IsConcat, Out;
    StartBelow(d1);
    assert w[..0] == [] && w[0..] == w;
    if w == [] {
      ConcatAccepting(d1, d2, r, p);
      assert Accepts(d1, p, w[..0]) && Accepts(d2, 0, w[0..]);
    } else {
      var q :| (w[0], q) in Out(r.transitions, p) && Accepts(r, q, w[1..]);
      ConcatEdges(d1, d2, r, p, w[0], q);
      if (w[0], q) in Out(d1.transitions, p) {
        OutBounds(d1, p, (w[0], q));
        ConcatSound(d1, d2, r, q, w[1..]);
        SplitFirst(d1, p, d2, w, q);
      } else {
        var q2 := (q - (d1.n - 1)) as nat;
        OutBounds(d2, 0, (w[0], q2));
        ConcatSecond(d1, d2, r, q2, w[1..]);
        assert Accepts(d1, p, w[..0]) && Accepts(d2, 0, w[0..]);
      }
    }
  }

  lemma {:induction false} ConcatComplete(d1: DFA, d2: DFA, r: DFA, p: nat, w: string, i: nat)
    requires WellFormed(d1) && WellFormed(d2) && IsConcat(d1, d2, r) && p < d1.n
    requires i <= |w| && Accepts(d1, p, w[..i]) && Accepts(d2, 0, w[i..])
    ensures Accepts(r, p, w)
    decreases |w|
  {
    hide WellFormed, IsConcat, Out;
    StartBelow(d1);
    if w == [] {
      assert w[..i] == [] && w[i..] == [];
      ConcatAccepting(d1, d2, r, p);
    } else if i == 0 {
      assert w[..0] == [] && w[0..] == w;
      var q :| (w[0], q) in Out(d2.transitions, 0) && Accepts(d2, q, w[1..]);
      OutBounds(d2, 0, (w[0], q));
      ConcatSecond(d1, d2, r, q, w[1..]);
      ConcatEdges(d1, d2, r, p, w[0], q + d1.n - 1);
    } else {
      var q := AcceptsRest(d1, p, w, i);
      OutBounds(d1, p, (w[0], q));
      assert w[1..][i - 1..] == w[i..];
      ConcatComplete(d1, d2, r, q, w[1..], i - 1);
      ConcatEdges(d1, d2, r, p, w[0], q);
    }
  }

  lemma SplitLanguage(d1: DFA, d2: DFA, s1: Regex, s2: Regex, w: string)
    requires Recognises(d1, s1) && Recognises(d2, s2)
    ensures SplitAccepts(d1, 0, d2, w) <==> In(Concat(s1, s2), w)
  {
    hide Accepts;
    forall i | 0 <= i <= |w|
      ensures Accepts(d1, 0, w[..i]) && Accepts(d2, 0, w[i..]) <==> In(s1, w[..i]) && In(s2, w[i..]) {
    }
  }

  lemma ConcatLanguage(d1: DFA, d2: DFA, r: DFA, s1: Regex, s2: Regex)
    requires WellFormed(d1) && WellFormed(d2) && IsConcat(d1, d2, r)
    requires Recognises(d1, s1) && Recognises(d2, s2)
    ensures Recognises(r, Concat(s1, s2))
  {
    hide WellFormed, IsConcat, Out, Accepts, In;
    StartBelow(d1);
    forall w ensures Accepts(r, 0, w) <==> In(Concat(s1, s2), w) {
      SplitLanguage(d1, d2, s1, s2, w);
      if Accepts(r, 0, w) {
        ConcatSound(d1, d2, r, 0, w);
      }
      if SplitAccepts(d1, 0, d2, w) {
        var i: nat :| i <= |w| && Accepts(d1, 0, w[..i]) && Accepts(d2, 0, w[i..]);
        ConcatComplete(d1, d2, r, 0, w, i);
      }
    }
  }

  lemma StartBelow(d: DFA)
    requires WellFormed(d)
    ensures d.n >= 2
  {
  }

  // ---- Union ----

  /** The two automata share the start; the other states of the second are renumbered. */
  ghost predicate IsUnion(d1: DFA, d2: DFA, r: DFA)
    requires d1.n >= 1
  {
    var k := d1.n - 1;
    && r.n == d1.n + d2.n - 1
    && r.acceptStates ==
      d1.acceptStates + (if 0 in d2.acceptStates then {0} else {}) + ShiftStates(d2.acceptStates - {0}, k)
    && Out(r.transitions, 0) == Out(d1.transitions, 0) + Shift(Out(d2.transitions, 0), k)
    && (forall p: nat :: 0 < p < d1.n ==> Out(r.transitions, p) == Out(d1.transitions, p))
    && (forall p: nat :: 0 < p ==> Out(r.transitions, p + k) == Shift(Out(d2.transitions, p), k))
  }

  lemma UnionEdges(d1: DFA, d2: DFA, r: DFA, p: nat, c: char, q: nat)
    requires d1.n >= 2 && IsUnion(d1, d2, r)
    ensures (c, q) in Out(r.transitions, 0) <==>
      (c, q) in Out(d1.transitions, 0) || (q >= d1.n - 1 && (c, (q - (d1.n - 1)) as nat) in Out(d2.transitions, 0))
    ensures 0 < p < d1.n ==> ((c, q) in Out(r.transitions, p) <==> (c, q) in Out(d1.transitions, p))
    ensures 0 < p ==>
      ((c, q) in Out(r.transitions, p + d1.n - 1) <==>
        q >= d1.n - 1 && (c, (q - (d1.n - 1)) as nat) in Out(d2.transitions, p))
  {
    hide Out, Shift;
    ShiftBack(Out(d2.transitions, 0), d1.n - 1, c, q);
    ShiftBack(Out(d2.transitions, p), d1.n - 1, c, q);
  }

  lemma UnionAccepting(d1: DFA, d2: DFA, r: DFA, p: nat)
    requires WellFormed(d1) && d1.n >= 2 && IsUnion(d1, d2, r)
    ensures 0 in r.acceptStates <==> 0 in d1.acceptStates || 0 in d2.acceptStates
    ensures 0 < p < d1.n ==> (p in r.acceptStates <==> p in d1.acceptStates)
    ensures 0 < p ==> (p + d1.n - 1 in r.acceptStates <==> p in d2.acceptStates)
  {
    hide Out, WellFormed, ShiftStates;
    AcceptBounds(d1);
    ShiftStatesBack(d2.acceptStates - {0}, d1.n - 1, 0);
    ShiftStatesBack(d2.acceptStates - {0}, d1.n - 1, p);
    ShiftStatesBack(d2.acceptStates - {0}, d1.n - 1, p + d1.n - 1);
  }

  lemma {:induction false} UnionFirst(d1: DFA, d2: DFA, r: DFA, p: nat, w: string)
    requires WellFormed(d1) && WellFormed(d2) && IsUnion(d1, d2, r) && 0 < p < d1.n
    ensures Accepts(r, p, w) <==> Accepts(d1, p, w)
    decreases |w|
  {
    hide WellFormed, IsUnion, Out;
    StartBelow(d1);
    if w == [] {
      UnionAccepting(d1, d2, r, p);
    } else {
      forall q: nat ensures ((w[0], q) in Out(r.transitions, p) <==> (w[0], q) in Out(d1.transitions, p)) &&
          ((w[0], q) in Out(d1.transitions, p) ==> (Accepts(r, q, w[1..]) <==> Accepts(d1, q, w[1..])))
      {
        UnionEdges(d1, d2, r, p, w[0], q);
        if (w[0], q) in Out(d1.transitions, p) {
          OutBounds(d1, p, (w[0], q));
          UnionFirst(d1, d2, r, q, w[1..]);
        }
      }
    }
  }

  lemma {:induction false} UnionSecond(d1: DFA, d2: DFA, r: DFA, p: nat, w: string)
    requires WellFormed(d1) && WellFormed(d2) && IsUnion(d1, d2, r) && 0 < p && d1.n >= 2
    ensures Accepts(r, p + d1.n - 1, w) <==> Accepts(d2, p, w)
    decreases |w|
  {
    hide WellFormed, IsUnion, Out;
    var k := d1.n - 1;
    if w == [] {
      UnionAccepting(d1, d2, r, p);
    } else {
      if q :| (w[0], q) in Out(d2.transitions, p) && Accepts(d2, q, w[1..]) {
        OutBounds(d2, p, (w[0], q));
        UnionSecond(d1, d2, r, q, w[1..]);
        UnionEdges(d1, d2, r, p, w[0], q + k);
      }
      if q' :| (w[0], q') in Out(r.transitions, p + k) && Accepts(r, q', w[1..]) {
        UnionEdges(d1, d2, r, p, w[0], q');
        var q := (q' - k) as nat;
        OutBounds(d2, p, (w[0], q));
        UnionSecond(d1, d2, r, q, w[1..]);
      }
    }
  }

  lemma UnionStart(d1: DFA, d2: DFA, r: DFA, w: string)
    requires WellFormed(d1) && WellFormed(d2) && IsUnion(d1, d2, r) && d1.n >= 2
    ensures Accepts(r, 0, w) <==> Accepts(d1, 0, w) || Accepts(d2, 0, w)
  {
    hide WellFormed, IsUnion, Out;
    if w == [] {
      UnionAccepting(d1, d2, r, 0);
    } else {
      if q :| (w[0], q) in Out(d1.transitions, 0) && Accepts(d1, q, w[1..]) {
        OutBounds(d1, 0, (w[0], q));
        UnionFirst(d1, d2, r, q, w[1..]);
        UnionEdges(d1, d2, r, 0, w[0], q);
      }
      if q :| (w[0], q) in Out(d2.transitions, 0) && Accepts(d2, q, w[1..]) {
        OutBounds(d2, 0, (w[0], q));
        UnionSecond(d1, d2, r, q, w[1..]);
        UnionEdges(d1, d2, r, 0, w[0], q + d1.n - 1);
      }
      if q :| (w[0], q) in Out(r.transitions, 0) && Accepts(r, q, w[1..]) {
        UnionEdges(d1, d2, r, 0, w[0], q);
        if (w[0], q) in Out(d1.transitions, 0) {
          OutBounds(d1, 0, (w[0], q));
          UnionFirst(d1, d2, r, q, w[1..]);
        } else {
          var q2 := (q - (d1.n - 1)) as nat;
          OutBounds(d2, 0, (w[0], q2));
          UnionSecond(d1, d2, r, q2, w[1..]);
        }
      }
    }
  }

  lemma UnionLanguage(d1: DFA, d2: DFA, r: DFA, s1: Regex, s2: Regex)
    requires WellFormed(d1) && WellFormed(d2) && IsUnion(d1, d2, r)
    requires Recognises(d1, s1) && Recognises(d2, s2)
    ensures Recognises(r, Union(s1, s2))
  {
    StartBelow(d1);
    forall w ensures Accepts(r, 0, w) <==> In(Union(s1, s2), w) {
      UnionStart(d1, d2, r, w);
    }
  }
}

/** The Viterbi path of a hidden Markov model given by log-probabilities. */
module Viterbi {
  /** init is the distribution of a state before the first symbol; all numbers are logarithms. */
  datatype Hmm = Hmm(init: seq<real>, tr: seq<seq<real>>, em: seq<seq<real>>) {
    predicate Valid(x: seq<nat>) {
      && |tr| > 0 && |init| == |tr| && |em| == |tr|
      && (forall j :: 0 <= j < |tr| ==> |tr[j]| == |tr|)
      && (forall k, i :: 0 <= k < |em| && 0 <= i < |x| ==> x[i] < |em[k]|)
    }

    function N(): nat {
      |tr|
    }
  }

  // ---- Paths ----

  predicate IsPath(h: Hmm, y: seq<int>) {
    forall i :: 0 <= i < |y| ==> 0 <= y[i] < h.N()
  }

  /** The state before y[i]. */
  function Before(start: nat, y: seq<int>, i: nat): int
    requires i <= |y|
  {
    if i == 0 then start else y[i - 1]
  }

  function Last(start: nat, y: seq<int>): int {
    Before(start, y, |y|)
  }

  lemma LastIs(start: nat, y: seq<int>)
    ensures Last(start, y) == if y == [] then start else y[|y| - 1]
  {
  }

  /** The log-probability of the path start, y[0], y[1], ... and the symbols x[0], x[1], ... */
  function PathScore(h: Hmm, x: seq<nat>, start: nat, y: seq<int>): real
    requires h.Valid(x) && |y| <= |x| && start < h.N() && IsPath(h, y)
  {
    if y == [] then h.init[start]
    else
      var front, k := y[..|y| - 1], y[|y| - 1];
      PathScore(h, x, start, front) + h.tr[Last(start, front)][k] + h.em[k][x[|y| - 1]]
  }

  /** A path of one state: from the state before to the first, which emits the first symbol. */
  lemma OneStatePath(h: Hmm, x: seq<nat>, start: nat, k: nat)
    requires h.Valid(x) && |x| > 0 && start < h.N() && k < h.N()
    ensures PathScore(h, x, start, [k]) == h.init[start] + h.tr[start][k] + h.em[k][x[0]]
  {
    assert PathScore(h, x, start, [k][..0]) == h.init[start];
  }

  // ---- The recurrence ----

  function MaxOf(s: seq<real>): (m: real)
    requires s != []
    ensures m in s && forall i :: 0 <= i < |s| ==> s[i] <= m
  {
    if |s| == 1 then s[0]
    else
      var m := MaxOf(s[1..]);
      if s[0] >= m then s[0] else m
  }

  function Transitions(h: Hmm, x: seq<nat>, prev: seq<real>, k: nat): (r: seq<real>)
    requires h.Valid(x) && |prev| == h.N() && k < h.N()
    ensures |r| == h.N() && forall j :: 0 <= j < h.N() ==> r[j] == prev[j] + h.tr[j][k]
  {
    seq(h.N(), j requires 0 <= j < h.N() => prev[j] + h.tr[j][k])
  }

  function Previous(h: Hmm, x: seq<nat>, i: nat): (r: seq<real>)
    requires h.Valid(x) && i <= |x|
    ensures |r| == h.N()
    decreases i, 0
  {
    if i == 0 then h.init else Row(h, x, i - 1)
  }

  /** The row V[i]. */
  function Row(h: Hmm, x: seq<nat>, i: nat): (r: seq<real>)
    requires h.Valid(x) && i < |x|
    ensures |r| == h.N()
    decreases i, 1
  {
    var prev := Previous(h, x, i);
    seq(h.N(), k requires 0 <= k < h.N() => h.em[k][x[i]] + MaxOf(Transitions(h, x, prev, k)))
  }

  lemma RowAt(h: Hmm, x: seq<nat>, i: nat, k: nat)
    requires h.Valid(x) && i < |x| && k < h.N()
    ensures Row(h, x, i)[k] == h.em[k][x[i]] + MaxOf(Transitions(h, x, Previous(h, x, i), k))
  {
  }

  /** V[i][k] bounds every path that ends in state k. */
  lemma {:induction false} NoneBetter(h: Hmm, x: seq<nat>, start: nat, y: seq<int>)
    requires h.Valid(x) && |y| <= |x| && start < h.N() && IsPath(h, y)
    ensures PathScore(h, x, start, y) <= Previous(h, x, |y|)[Last(start, y)]
  {
    if y != [] {
      var i := |y| - 1;
      NoneBetter(h, x, start, y[..i]);
      RowAt(h, x, i, y[i]);
      var steps := Transitions(h, x, Previous(h, x, i), y[i]);
      assert steps[Last(start, y[..i])] <= MaxOf(steps);
    }
  }

  /** j is a best state before state k at symbol i. */
  ghost predicate BestPrevious(h: Hmm, x: seq<nat>, i: nat, k: int, j: int)
    requires h.Valid(x) && i < |x| && 0 <= k < h.N()
  {
    0 <= j < h.N() && Transitions(h, x, Previous(h, x, i), k)[j] == MaxOf(Transitions(h, x, Previous(h, x, i), k))
  }

  /** y goes from each state to the one it was traced back from, starting with symbol `from`. */
  ghost predicate Traced(h: Hmm, x: seq<nat>, start: nat, y: seq<int>, from: nat)
    requires h.Valid(x) && |y| <= |x| && IsPath(h, y)
  {
    forall i: nat :: from <= i < |y| ==> BestPrevious(h, x, i, y[i], Before(start, y, i))
  }

  lemma TracedFront(h: Hmm, x: seq<nat>, start: nat, y: seq<int>)
    requires h.Valid(x) && 0 < |y| <= |x| && IsPath(h, y) && Traced(h, x, start, y, 0)
    ensures Traced(h, x, start, y[..|y| - 1], 0)
    ensures BestPrevious(h, x, |y| - 1, y[|y| - 1], Last(start, y[..|y| - 1]))
  {
    hide BestPrevious;
    var front := y[..|y| - 1];
    forall i: nat | i < |front| ensures BestPrevious(h, x, i, front[i], Before(start, front, i)) {
      assert Before(start, front, i) == Before(start, y, i);
    }
    assert Last(start, front) == Before(start, y, |y| - 1);
  }

  lemma StepValue(h: Hmm, x: seq<nat>, i: nat, k: int, j: int)
    requires h.Valid(x) && i < |x| && 0 <= k < h.N() && BestPrevious(h, x, i, k, j)
    ensures 0 <= j < h.N() && Row(h, x, i)[k] == Previous(h, x, i)[j] + h.tr[j][k] + h.em[k][x[i]]
  {
    RowAt(h, x, i, k);
  }

  lemma PathScoreSnoc(h: Hmm, x: seq<nat>, start: nat, y: seq<int>)
    requires h.Valid(x) && 0 < |y| <= |x| && start < h.N() && IsPath(h, y)
    ensures IsPath(h, y[..|y| - 1])
    ensures PathScore(h, x, start, y) ==
      PathScore(h, x, start, y[..|y| - 1]) + h.tr[Last(start, y[..|y| - 1])][y[|y| - 1]] + h.em[y[|y| - 1]][x[|y| - 1]]
  {
  }

  lemma EmptyPath(h: Hmm, x: seq<nat>, start: nat)
    requires h.Valid(x) && start < h.N()
    ensures PathScore(h, x, start, []) == Previous(h, x, 0)[Last(start, [])]
  {
  }

  lemma PreviousRow(h: Hmm, x: seq<nat>, i: nat)
    requires h.Valid(x) && 0 < i <= |x|
    ensures Previous(h, x, i) == Row(h, x, i - 1)
  {
  }

  /** Following best previous states back from y's last state attains V. */
  lemma {:induction false} Attained(h: Hmm, x: seq<nat>, start: nat, y: seq<int>)
    requires h.Valid(x) && |y| <= |x| && start < h.N() && IsPath(h, y) && Traced(h, x, start, y, 0)
    ensures PathScore(h, x, start, y) == Previous(h, x, |y|)[Last(start, y)]
  {
    hide PathScore, Row, Traced, BestPrevious, Before, Transitions, MaxOf, Previous, Last;
    if y == [] {
      EmptyPath(h, x, start);
    } else {
      var i := |y| - 1;
      PreviousRow(h, x, |y|);
      PathScoreSnoc(h, x, start, y);
      TracedFront(h, x, start, y);
      Attained(h, x, start, y[..i]);
      StepValue(h, x, i, y[i], Last(start, y[..i]));
      LastIs(start, y);
    }
  }

  // ---- The algorithm ----

  /** Stands for util.argmax, which is not part of this model: some index of a maximum. */
  method ArgMax(s: seq<real>) returns (j: nat)
    requires s != []
    ensures j < |s| && s[j] == MaxOf(s)
  {
    j := 0;
    for i := 1 to |s|
      invariant j < i && forall k :: 0 <= k < i ==> s[k] <= s[j]
    {
      if s[i] > s[j] { j := i; }
    }
  }

  /** The larger state wins a tie, as in Python's maximum of pairs. */
  method MaxPair(s: seq<real>) returns (j: nat)
    requires s != []
    ensures j < |s| && s[j] == MaxOf(s) && forall k :: j < k < |s| ==> s[k] < s[j]
  {
    j := 0;
    for i := 1 to |s|
      invariant j < i && forall k :: 0 <= k < i ==> s[k] <= s[j]
      invariant forall k :: j < k < i ==> s[k] < s[j]
    {
      if s[i] >= s[j] { j := i; }
    }
  }

  /** The path is most probable among all paths from all start states. */
  ghost predicate MostProbable(h: Hmm, x: seq<nat>, y: seq<int>)
    requires h.Valid(x)
  {
    && |y| == |x| && IsPath(h, y)
    && exists s: nat :: s < h.N() && forall start: nat, other: seq<int> ::
      start < h.N() && |other| == |x| && IsPath(h, other) ==>
         PathScore(h, x, start, other) <= PathScore(h, x, s, y)
  }

  lemma BestOverall(h: Hmm, x: seq<nat>, s: nat, y: seq<int>)
    requires h.Valid(x) && |x| > 0 && |y| == |x| && IsPath(h, y) && s < h.N() && Traced(h, x, s, y, 0)
    requires Row(h, x, |x| - 1)[y[|x| - 1]] == MaxOf(Row(h, x, |x| - 1))
    ensures MostProbable(h, x, y)
  {
    hide Traced, PathScore, Row;
    Attained(h, x, s, y);
    forall start: nat, other: seq<int> | start < h.N() && |other| == |x| && IsPath(h, other)
      ensures PathScore(h, x, start, other) <= PathScore(h, x, s, y)
    {
      NoneBetter(h, x, start, other);
    }
  }

  /** The inner loop: one row of V and of the back pointers. */
  method FillRow(h: Hmm, x: seq<nat>, i: nat, prev: seq<real>) returns (row: seq<real>, back: seq<int>)
    requires h.Valid(x) && i < |x| && prev == Previous(h, x, i)
    ensures row == Row(h, x, i)
    ensures |back| == h.N() && forall k: nat :: k < h.N() ==> BestPrevious(h, x, i, k, back[k])
  {
    hide Row, Transitions, MaxOf, Previous;
    row, back := [], [];
    for k: nat := 0 to h.N()
      invariant |row| == |back| == k
      invariant forall l: nat :: l < k ==> row[l] == Row(h, x, i)[l]
      invariant forall l: nat :: l < k ==> BestPrevious(h, x, i, l, back[l])
    {
      var emission := h.em[k][x[i]];
      var transitions := Transitions(h, x, prev, k);
      var j := ArgMax(transitions);
      RowAt(h, x, i, k);
      row := row + [emission + transitions[j]];
      back := back + [j];
    }
  }

  ghost predicate BackRow(h: Hmm, x: seq<nat>, i: nat, back: seq<int>)
    requires h.Valid(x) && i < |x|
  {
    |back| == h.N() && forall k: nat :: k < h.N() ==> BestPrevious(h, x, i, k, back[k])
  }

  lemma BackInRange(h: Hmm, x: seq<nat>, i: nat, back: seq<int>, k: int)
    requires h.Valid(x) && i < |x| && BackRow(h, x, i, back) && 0 <= k < h.N()
    ensures |back| == h.N() && 0 <= back[k] < h.N() && BestPrevious(h, x, i, k, back[k])
  {
  }

  /** y[i] is the back pointer of the state after it. */
  ghost predicate TracedBack(tb: seq<seq<int>>, y: seq<int>, i: nat) {
    i + 1 < |y| && i + 1 < |tb| ==> 0 <= y[i + 1] < |tb[i + 1]| && y[i] == tb[i + 1][y[i + 1]]
  }

  lemma TraceExtended(tb: seq<seq<int>>, y: seq<int>, i: nat, z: seq<int>)
    requires i + 1 < |y| == |tb| && 0 <= y[i + 1] < |tb[i + 1]| && z == y[i := tb[i + 1][y[i + 1]]]
    requires forall l: nat :: i < l < |y| ==> TracedBack(tb, y, l)
    ensures forall l: nat :: i <= l < |y| ==> TracedBack(tb, z, l)
  {
    forall l: nat | i <= l < |y| ensures TracedBack(tb, z, l) {
      assert l > i ==> TracedBack(tb, y, l);
    }
  }

  lemma TraceIsBest(h: Hmm, x: seq<nat>, tb: seq<seq<int>>, y: seq<int>)
    requires h.Valid(x) && |x| > 0 && |tb| == |y| == |x| && IsPath(h, y)
    requires forall i: nat :: i < |x| ==> BackRow(h, x, i, tb[i])
    requires forall i: nat :: i < |x| ==> TracedBack(tb, y, i)
    requires Row(h, x, |x| - 1)[y[|x| - 1]] == MaxOf(Row(h, x, |x| - 1))
    ensures MostProbable(h, x, y)
  {
    hide BestPrevious, MostProbable;
    BackInRange(h, x, 0, tb[0], y[0]);
    var s := tb[0][y[0]];
    forall i: nat | i < |y| ensures BestPrevious(h, x, i, y[i], Before(s, y, i)) {
      BackInRange(h, x, i, tb[i], y[i]);
      if i > 0 {
        var l: nat := i - 1;
        assert TracedBack(tb, y, l);
      }
    }
    BestOverall(h, x, s, y);
  }

  method Traceback(h: Hmm, x: seq<nat>, TB: seq<seq<int>>, lastRow: seq<real>) returns (y: seq<int>)
    requires h.Valid(x) && |TB| == |x| > 0 && forall i: nat :: i < |x| ==> BackRow(h, x, i, TB[i])
    requires lastRow == Row(h, x, |x| - 1)
    ensures MostProbable(h, x, y)
  {
    hide Row, PathScore, MostProbable, BackRow, MaxOf;
    y := seq(|x|, i => -1);
    var last := MaxPair(lastRow);
    y := y[|x| - 1 := last];
    for i: nat := |x| - 1 downto 0
      invariant |y| == |x| && y[|x| - 1] == last
      invariant forall l: nat :: i <= l < |x| ==> 0 <= y[l] < h.N()
      invariant forall l: nat :: i <= l < |x| ==> TracedBack(TB, y, l)
    {
      BackInRange(h, x, i + 1, TB[i + 1], y[i + 1]);
      TraceExtended(TB, y, i, y[i := TB[i + 1][y[i + 1]]]);
      y := y[i := TB[i + 1][y[i + 1]]];
    }
    TraceIsBest(h, x, TB, y);
  }

  method Viterbi(h: Hmm, x: seq<nat>) returns (y: seq<int>)
    requires h.Valid(x) && |x| > 0
    ensures MostProbable(h, x, y)
  {
    hide Row, MostProbable, BestPrevious;
    var V: seq<seq<real>>, TB: seq<seq<int>> := [], [];
    for i: nat := 0 to |x|
      invariant |V| == |TB| == i && forall l: nat :: l < i ==> V[l] == Row(h, x, l)
      invariant forall l: nat :: l < i ==> BackRow(h, x, l, TB[l])
    {
      var row, back := FillRow(h, x, i, if i == 0 then h.init else V[i - 1]);
      V, TB := V + [row], TB + [back];
    }
    y := Traceback(h, x, TB, V[|x| - 1]);
  }
}

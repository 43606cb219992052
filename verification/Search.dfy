/** The search space of checkSingle: configurations (set of linearized operations, state),
    the steps between them, and partial linearizations named by operation ids. */
module Search {
  import opened Linearizability
  import opened Sequences

  datatype Config<S> = Config(done: set<nat>, state: S)

  lemma ElemsOfAppend(p: seq<nat>, x: nat)
    ensures Elems(p + [x]) == Elems(p) + {x}
  {
  }

  function Below(n: nat): (s: set<nat>)
    ensures forall i: nat :: i in s <==> i < n
    ensures |s| == n
  {
    if n == 0 then {} else Below(n - 1) + {n - 1}
  }

  predicate InRange(p: seq<nat>, n: nat) {
    forall k :: 0 <= k < |p| ==> p[k] < n
  }

  /** The operations named by a sequence of ids. */
  function Named<I, O>(ops: seq<Operation<I, O>>, p: seq<nat>): seq<Operation<I, O>>
    requires InRange(p, |ops|)
  {
    seq(|p|, k requires 0 <= k < |p| => ops[p[k]])
  }

  /** Operation i may come next: it is not done and no other pending one returned before its call. */
  predicate Enabled<I, O>(ops: seq<Operation<I, O>>, done: set<nat>, i: nat) {
    i < |ops| && i !in done &&
    forall j: nat :: j < |ops| && j !in done ==> !(ops[j].ret < ops[i].call)
  }

  predicate CanStep<S, I, O>(m: Model<S, I, O>, ops: seq<Operation<I, O>>, c: Config<S>, i: nat) {
    Enabled(ops, c.done, i) && m.step(c.state, ops[i].input, ops[i].output).0
  }

  function Next<S, I, O>(m: Model<S, I, O>, ops: seq<Operation<I, O>>, c: Config<S>, i: nat): Config<S>
    requires i < |ops|
  {
    Config(c.done + {i}, m.step(c.state, ops[i].input, ops[i].output).1)
  }

  function Root<S, I, O>(m: Model<S, I, O>): Config<S> {
    Config({}, m.init)
  }

  /** The configuration reached by linearizing the ids of p in order. */
  function ConfigOf<S, I, O>(m: Model<S, I, O>, ops: seq<Operation<I, O>>, p: seq<nat>): Config<S>
    requires InRange(p, |ops|)
  {
    if p == [] then Root(m)
    else Next(m, ops, ConfigOf(m, ops, p[..|p| - 1]), p[|p| - 1])
  }

  /** p is a partial linearization: each id was enabled and accepted when it was appended. */
  predicate Partial<S, I, O>(m: Model<S, I, O>, ops: seq<Operation<I, O>>, p: seq<nat>) {
    (InRange(p, |ops|)) &&
    (p == [] ||
     (Partial(m, ops, p[..|p| - 1]) && CanStep(m, ops, ConfigOf(m, ops, p[..|p| - 1]), p[|p| - 1])))
  }

  lemma AppendShape(p: seq<nat>)
    requires p != []
    ensures p == p[..|p| - 1] + [p[|p| - 1]]
    ensures Elems(p) == Elems(p[..|p| - 1]) + {p[|p| - 1]}
    ensures NoRepeats(p) <==> NoRepeats(p[..|p| - 1]) && p[|p| - 1] !in Elems(p[..|p| - 1])
  {
    var front, x := p[..|p| - 1], p[|p| - 1];
    assert p == front + [x];
    ElemsOfAppend(front, x);
    assert forall i :: 0 <= i < |front| ==> front[i] == p[i];
  }

  lemma {:induction false} DistinctCount(p: seq<nat>)
    requires NoRepeats(p)
    ensures |Elems(p)| == |p|
  {
    if p != [] {
      AppendShape(p);
      DistinctCount(p[..|p| - 1]);
    }
  }

  /** A partial linearization never repeats an id, and its configuration holds exactly its ids. */
  lemma {:induction false} PartialDistinct<S, I, O>(m: Model<S, I, O>, ops: seq<Operation<I, O>>, p: seq<nat>)
    requires Partial(m, ops, p)
    ensures ConfigOf(m, ops, p).done == Elems(p)
    ensures NoRepeats(p)
    ensures |Elems(p)| == |p|
  {
    if p != [] {
      PartialDistinct(m, ops, p[..|p| - 1]);
      AppendShape(p);
    }
    DistinctCount(p);
  }

  /** The ids in p respect real time: what returned before a member was called stands before it. */
  ghost predicate InRealTime<I, O>(ops: seq<Operation<I, O>>, p: seq<nat>) {
    && (InRange(p, |ops|))
    && (forall k, j: nat :: 0 <= k < |p| && j < |ops| && ops[j].ret < ops[p[k]].call ==> j in p[..k])
  }

  /** The legality and real-time content of Partial, without reference to the search. */
  ghost predicate IsPartialLinearization<S, I, O>(m: Model<S, I, O>, ops: seq<Operation<I, O>>, p: seq<nat>) {
    && (InRange(p, |ops|))
    && (NoRepeats(p))
    && Legal(m, Named(ops, p))
    && InRealTime(ops, p)
  }

  lemma {:induction false} ConfigState<S, I, O>(m: Model<S, I, O>, ops: seq<Operation<I, O>>, p: seq<nat>)
    requires InRange(p, |ops|)
    ensures ConfigOf(m, ops, p).state == StateAfter(m, Named(ops, p))
  {
    if p != [] {
      ConfigState(m, ops, p[..|p| - 1]);
      assert Named(ops, p)[..|p| - 1] == Named(ops, p[..|p| - 1]);
    }
  }

  /** x may be appended to the partial linearization front, said without reference to the search. */
  ghost predicate Extends<S, I, O>(m: Model<S, I, O>, ops: seq<Operation<I, O>>, front: seq<nat>, x: nat)
    requires InRange(front, |ops|)
  {
    && x < |ops| && x !in front
    && m.step(StateAfter(m, Named(ops, front)), ops[x].input, ops[x].output).0
    && forall j: nat :: j < |ops| && ops[j].ret < ops[x].call ==> j in front
  }

  lemma LegalAppend<S, I, O>(m: Model<S, I, O>, ops: seq<Operation<I, O>>, p: seq<nat>)
    requires p != [] && InRange(p, |ops|)
    ensures InRange(p[..|p| - 1], |ops|)
    ensures Legal(m, Named(ops, p)) <==>
            Legal(m, Named(ops, p[..|p| - 1])) &&
            var o := ops[p[|p| - 1]];
            m.step(StateAfter(m, Named(ops, p[..|p| - 1])), o.input, o.output).0
  {
    assert Named(ops, p)[..|p| - 1] == Named(ops, p[..|p| - 1]);
  }

  lemma RealTimeAppend<I, O>(ops: seq<Operation<I, O>>, p: seq<nat>)
    requires p != [] && InRange(p, |ops|)
    ensures InRealTime(ops, p) <==>
            InRealTime(ops, p[..|p| - 1]) &&
            forall j: nat :: j < |ops| && ops[j].ret < ops[p[|p| - 1]].call ==> j in p[..|p| - 1]
  {
    var front := p[..|p| - 1];
    assert forall k :: 0 <= k <= |front| ==> p[..k] == front[..k];
    assert forall k :: 0 <= k < |front| ==> p[k] == front[k];
    assert front[..|front|] == front;
  }

  lemma PartialLinearizationAppend<S, I, O>(m: Model<S, I, O>, ops: seq<Operation<I, O>>, p: seq<nat>)
    requires p != [] && InRange(p, |ops|)
    ensures IsPartialLinearization(m, ops, p) <==>
            IsPartialLinearization(m, ops, p[..|p| - 1]) && Extends(m, ops, p[..|p| - 1], p[|p| - 1])
  {
    hide Legal, StateAfter, InRealTime;
    AppendShape(p);
    LegalAppend(m, ops, p);
    RealTimeAppend(ops, p);
  }

  lemma CanStepMeaning<S, I, O>(m: Model<S, I, O>, ops: seq<Operation<I, O>>, p: seq<nat>, x: nat)
    requires WellTimed(ops)
    requires Partial(m, ops, p)
    ensures CanStep(m, ops, ConfigOf(m, ops, p), x) <==> Extends(m, ops, p, x)
  {
    PartialDistinct(m, ops, p);
    ConfigState(m, ops, p);
  }

  /** The step-by-step and the declarative notion of partial linearization agree. */
  lemma {:induction false} PartialMeaning<S, I, O>(m: Model<S, I, O>, ops: seq<Operation<I, O>>, p: seq<nat>)
    requires WellTimed(ops)
    ensures Partial(m, ops, p) <==> IsPartialLinearization(m, ops, p)
  {
    if p != [] && InRange(p, |ops|) {
      var front, x := p[..|p| - 1], p[|p| - 1];
      PartialMeaning(m, ops, front);
      PartialLinearizationAppend(m, ops, p);
      if Partial(m, ops, front) {
        CanStepMeaning(m, ops, front, x);
      }
    }
  }

  /** D contains every successor of each of its members. */
  ghost predicate Closed<S, I, O>(m: Model<S, I, O>, ops: seq<Operation<I, O>>, D: set<Config<S>>) {
    forall c, i: nat :: c in D && CanStep(m, ops, c, i) ==> Next(m, ops, c, i) in D
  }

  /** A closed set that holds all the successors of the root holds the configuration of
      every non-empty partial linearization. */
  lemma {:induction false} ClosedCoversPartials<S, I, O>(m: Model<S, I, O>, ops: seq<Operation<I, O>>,
                                                         D: set<Config<S>>, p: seq<nat>)
    requires Closed(m, ops, D)
    requires forall i: nat :: CanStep(m, ops, Root(m), i) ==> Next(m, ops, Root(m), i) in D
    requires Partial(m, ops, p) && p != []
    ensures ConfigOf(m, ops, p) in D
  {
    if |p| > 1 {
      ClosedCoversPartials(m, ops, D, p[..|p| - 1]);
    }
  }

  /** The finite set of configurations reachable in at most k steps. */
  ghost function Reach<S(!new), I, O>(m: Model<S, I, O>, ops: seq<Operation<I, O>>, k: nat): set<Config<S>> {
    if k == 0 then {Root(m)}
    else
      var before := Reach(m, ops, k - 1);
      before + set c, i: nat | c in before && i < |ops| && CanStep(m, ops, c, i) :: Next(m, ops, c, i)
  }

  lemma {:induction false} ReachGrows<S(!new), I, O>(m: Model<S, I, O>, ops: seq<Operation<I, O>>, j: nat, k: nat)
    requires j <= k
    ensures Reach(m, ops, j) <= Reach(m, ops, k)
    decreases k - j
  {
    if j < k { ReachGrows(m, ops, j + 1, k); }
  }

  lemma {:induction false} PartialShort<S, I, O>(m: Model<S, I, O>, ops: seq<Operation<I, O>>, p: seq<nat>)
    requires Partial(m, ops, p)
    ensures |p| <= |ops|
    ensures |p| == |ops| <==> forall i: nat :: i < |ops| ==> i in Elems(p)
  {
    PartialDistinct(m, ops, p);
    var all := Below(|ops|);
    assert Elems(p) <= all;
    Cardinality(Elems(p), all);
    if |p| == |ops| {
      Cardinality(Elems(p), all);
      assert Elems(p) == all;
    }
    if forall i: nat :: i < |ops| ==> i in Elems(p) {
      assert Elems(p) == all;
    }
  }

  lemma {:induction false} Cardinality<T>(a: set<T>, b: set<T>)
    requires a <= b
    ensures |a| <= |b|
    ensures |a| == |b| ==> a == b
  {
    assert b == a + (b - a);
    assert |b| == |a| + |b - a|;
  }

  /** Partial linearizations stay within the finite set of reachable configurations. */
  lemma {:induction false} PartialReaches<S(!new), I, O>(m: Model<S, I, O>, ops: seq<Operation<I, O>>, p: seq<nat>)
    requires Partial(m, ops, p)
    ensures ConfigOf(m, ops, p) in Reach(m, ops, |ops|)
  {
    PartialShort(m, ops, p);
    PartialReachesAt(m, ops, p);
    ReachGrows(m, ops, |p|, |ops|);
  }

  lemma {:induction false} PartialReachesAt<S(!new), I, O>(m: Model<S, I, O>, ops: seq<Operation<I, O>>, p: seq<nat>)
    requires Partial(m, ops, p)
    ensures ConfigOf(m, ops, p) in Reach(m, ops, |p|)
  {
    if p != [] {
      PartialReachesAt(m, ops, p[..|p| - 1]);
    }
  }

  // ---- Complete partial linearizations are linearizations of the history ----

  /** A complete partial linearization orders all operations of the history. */
  lemma {:induction false} CompleteIsLinearization<S, I, O>(m: Model<S, I, O>, ops: seq<Operation<I, O>>, p: seq<nat>)
    requires WellTimed(ops)
    requires Partial(m, ops, p) && |p| == |ops|
    ensures IsLinearization(m, ops, Named(ops, p))
  {
    PartialMeaning(m, ops, p);
    PartialDistinct(m, ops, p);
    PartialShort(m, ops, p);
    var order := Named(ops, p);
    forall i, j | 0 <= i < j < |order| ensures !(order[j].ret < order[i].call) {
      assert p[j] !in p[..i];
    }
    PermutationKeepsMultiset(ops, p);
  }

  /** The operations whose ids are not below n and not in s; used to count permutations. */
  function Pick<T>(ops: seq<T>, s: set<nat>): multiset<T> {
    if ops == [] then multiset{}
    else
      var n := |ops| - 1;
      Pick(ops[..n], s) + if n in s then multiset{ops[n]} else multiset{}
  }

  lemma {:induction false} PickAll<T>(ops: seq<T>, s: set<nat>)
    requires forall i: nat :: i < |ops| ==> i in s
    ensures Pick(ops, s) == multiset(ops)
  {
    if ops != [] {
      var n := |ops| - 1;
      PickAll(ops[..n], s);
      assert ops == ops[..n] + [ops[n]];
    }
  }

  lemma {:induction false} PickNone<T>(ops: seq<T>, s: set<nat>)
    requires forall i: nat :: i < |ops| ==> i !in s
    ensures Pick(ops, s) == multiset{}
  {
    if ops != [] { PickNone(ops[..|ops| - 1], s); }
  }

  lemma PickLast<T>(ops: seq<T>, s: set<nat>)
    requires ops != []
    ensures var n := |ops| - 1; Pick(ops, s) == Pick(ops[..n], s) + if n in s then multiset{ops[n]} else multiset{}
  {
  }

  lemma {:induction false} PickAdd<T>(ops: seq<T>, s: set<nat>, x: nat)
    requires x < |ops| && x !in s
    ensures Pick(ops, s + {x}) == Pick(ops, s) + multiset{ops[x]}
  {
    hide Pick;
    var n := |ops| - 1;
    PickLast(ops, s);
    PickLast(ops, s + {x});
    if x == n {
      PickSame(ops[..n], s, s + {x});
    } else {
      PickAdd(ops[..n], s, x);
    }
  }

  lemma {:induction false} PickSame<T>(ops: seq<T>, s: set<nat>, t: set<nat>)
    requires forall i: nat :: i < |ops| ==> (i in s <==> i in t)
    ensures Pick(ops, s) == Pick(ops, t)
  {
    if ops != [] { PickSame(ops[..|ops| - 1], s, t); }
  }

  /** A pickable value has an index. */
  lemma {:induction false} PickWitness<T>(ops: seq<T>, s: set<nat>, v: T) returns (i: nat)
    requires v in Pick(ops, s)
    ensures i < |ops| && i in s && ops[i] == v
  {
    var n := |ops| - 1;
    if n in s && ops[n] == v {
      i := n;
    } else {
      i := PickWitness(ops[..n], s, v);
    }
  }

  lemma {:induction false} NamedMultiset<I, O>(ops: seq<Operation<I, O>>, p: seq<nat>)
    requires InRange(p, |ops|)
    requires NoRepeats(p)
    ensures multiset(Named(ops, p)) == Pick(ops, Elems(p))
  {
    if p == [] {
      PickNone(ops, Elems(p));
    } else {
      var front, x := p[..|p| - 1], p[|p| - 1];
      NamedMultiset(ops, front);
      assert p == front + [x];
      assert x !in Elems(front);
      assert Elems(p) == Elems(front) + {x} by {
        forall y | y in Elems(front) + {x} ensures y in Elems(p) {
          if y == x { assert p[|p| - 1] == y; } else {
            var i :| 0 <= i < |front| && front[i] == y; assert p[i] == y;
          }
        }
      }
      PickAdd(ops, Elems(front), x);
      assert Named(ops, p) == Named(ops, front) + [ops[x]];
    }
  }

  lemma PermutationKeepsMultiset<I, O>(ops: seq<Operation<I, O>>, p: seq<nat>)
    requires InRange(p, |ops|)
    requires NoRepeats(p)
    requires forall i: nat :: i < |ops| ==> i in Elems(p)
    ensures multiset(Named(ops, p)) == multiset(ops)
  {
    NamedMultiset(ops, p);
    PickAll(ops, Elems(p));
  }

  /** The last operation of a reordering has an id; the rest reorders the remaining ids. */
  lemma NameLast<T>(ops: seq<T>, s: set<nat>, order: seq<T>) returns (x: nat)
    requires order != [] && multiset(order) == Pick(ops, s)
    ensures x < |ops| && x in s && ops[x] == order[|order| - 1]
    ensures multiset(order[..|order| - 1]) == Pick(ops, s - {x})
  {
    var front, v := order[..|order| - 1], order[|order| - 1];
    assert order == front + [v];
    assert v in multiset(order);
    x := PickWitness(ops, s, v);
    assert s == (s - {x}) + {x};
    PickAdd(ops, s - {x}, x);
    assert multiset(order) == multiset(front) + multiset{v};
    assert multiset(front) == Pick(ops, s) - multiset{v};
  }

  /** Any reordering of operations can be named by distinct ids. */
  lemma {:induction false} NameOrder<I, O>(ops: seq<Operation<I, O>>, s: set<nat>, order: seq<Operation<I, O>>)
    returns (p: seq<nat>)
    requires multiset(order) == Pick(ops, s)
    ensures |p| == |order|
    ensures InRange(p, |ops|) && Elems(p) <= s
    ensures NoRepeats(p)
    ensures Named(ops, p) == order
    decreases |order|
  {
    if order == [] {
      p := [];
    } else {
      var x := NameLast(ops, s, order);
      var q := NameOrder(ops, s - {x}, order[..|order| - 1]);
      p := q + [x];
      assert p[..|p| - 1] == q;
      AppendShape(p);
      assert Named(ops, p) == Named(ops, q) + [ops[x]];
    }
  }

  /** Every linearization of the history is a complete partial linearization of ids. */
  lemma {:induction false} LinearizationIsComplete<S, I, O>(m: Model<S, I, O>, ops: seq<Operation<I, O>>,
        order: seq<Operation<I, O>>)
    returns (p: seq<nat>)
    requires WellTimed(ops)
    requires IsLinearization(m, ops, order)
    ensures Partial(m, ops, p) && |p| == |ops| && Named(ops, p) == order
  {
    var all := Below(|ops|);
    PickAll(ops, all);
    p := NameOrder(ops, all, order);
    SameMultisetSameLength(order, ops);
    NamesEverything(|ops|, p);
    forall k, j: nat | 0 <= k < |p| && j < |ops| && ops[j].ret < ops[p[k]].call
      ensures j in p[..k]
    {
      assert j in p;
      var q :| 0 <= q < |p| && p[q] == j;
      assert order[q] == ops[j] && order[k] == ops[p[k]];
      assert !(k < q);
      assert k != q;
      assert p[..k][q] == j;
    }
    PartialMeaning(m, ops, p);
  }

  lemma SameMultisetSameLength<T>(a: seq<T>, b: seq<T>)
    requires multiset(a) == multiset(b)
    ensures |a| == |b|
  {
    assert |multiset(a)| == |a| && |multiset(b)| == |b|;
  }

  lemma {:induction false} NamesEverything(n: nat, p: seq<nat>)
    requires |p| == n
    requires forall k :: 0 <= k < |p| ==> p[k] < n
    requires NoRepeats(p)
    ensures forall i: nat :: i < n ==> i in p
  {
    var all := Below(n);
    DistinctCount(p);
    assert Elems(p) <= all;
    Cardinality(Elems(p), all);
    forall i: nat | i < n ensures i in p { assert i in all; }
  }

  /** A history is linearizable exactly when some partial linearization is complete. */
  lemma LinearizableIffComplete<S(!new), I(!new), O(!new)>(m: Model<S, I, O>, ops: seq<Operation<I, O>>)
    requires WellTimed(ops)
    ensures Linearizable(m, ops) <==> exists p: seq<nat> :: Partial(m, ops, p) && |p| == |ops|
  {
    if Linearizable(m, ops) {
      var order :| IsLinearization(m, ops, order);
      var p := LinearizationIsComplete(m, ops, order);
    }
    if p: seq<nat> :| Partial(m, ops, p) && |p| == |ops| {
      CompleteIsLinearization(m, ops, p);
    }
  }
}

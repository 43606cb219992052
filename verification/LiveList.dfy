/** The live part of the event list: what is left after lifting the pairs of a set of operations. */
module LiveList {
  import opened Linearizability
  import opened Entries
  import opened LinkedEntries
  import opened Sequences

  /** The first position from `from` on whose operation is not done, or |es|. */
  function NextLive<I, O>(es: seq<Entry<I, O>>, done: set<nat>, from: nat): (k: nat)
    requires from <= |es|
    ensures from <= k <= |es|
    ensures k < |es| ==> es[k].id !in done
    ensures forall x :: from <= x < k ==> es[x].id in done
    decreases |es| - from
  {
    if from < |es| && es[from].id in done then NextLive(es, done, from + 1) else from
  }

  /** The positions from `from` on whose operation is not done, in order. */
  function LiveFrom<I, O>(es: seq<Entry<I, O>>, done: set<nat>, from: nat): (r: seq<nat>)
    requires from <= |es|
    ensures Increasing(r)
    ensures forall x :: x in r <==> from <= x < |es| && es[x].id !in done
    decreases |es| - from
  {
    if from == |es| then []
    else if es[from].id in done then LiveFrom(es, done, from + 1)
    else
      var rest := LiveFrom(es, done, from + 1);
      assert forall k :: 0 <= k < |rest| ==> rest[k] in rest;
      [from] + rest
  }

  predicate Increasing(s: seq<nat>) {
    forall i, j :: 0 <= i < j < |s| ==> s[i] < s[j]
  }

  lemma SameHead(s: seq<nat>, t: seq<nat>)
    requires Increasing(s) && Increasing(t) && s != []
    requires forall x :: x in s <==> x in t
    ensures t != [] && s[0] == t[0]
  {
    assert s[0] in t;
    assert t[0] in s;
  }

  /** An increasing sequence is determined by its elements. */
  lemma {:induction false} IncreasingUnique(s: seq<nat>, t: seq<nat>)
    requires Increasing(s) && Increasing(t)
    requires forall x :: x in s <==> x in t
    ensures s == t
  {
    if s == [] {
      assert forall k :: 0 <= k < |t| ==> t[k] in t;
    } else {
      SameHead(s, t);
      CutIncreasing(s, 0);
      CutIncreasing(t, 0);
      IncreasingUnique(Cut(s, 0), Cut(t, 0));
      assert s == [s[0]] + Cut(s, 0) && t == [t[0]] + Cut(t, 0);
    }
  }

  lemma IncreasingOrder(s: seq<nat>, i: nat, j: nat)
    requires Increasing(s) && i < |s| && j < |s| && s[i] < s[j]
    ensures i < j
  {
  }

  lemma {:induction false} CutIncreasing(s: seq<nat>, k: nat)
    requires Increasing(s) && k < |s|
    ensures Increasing(Cut(s, k))
    ensures forall x :: x in Cut(s, k) <==> x in s && x != s[k]
  {
    assert s == s[..k] + [s[k]] + s[k + 1..];
  }

  function IndexOf(s: seq<nat>, x: nat): (k: nat)
    requires x in s
    ensures k < |s| && s[k] == x
  {
    if s[0] == x then 0 else 1 + IndexOf(s[1..], x)
  }

  /** c and r are the only two entries of operation i. */
  ghost predicate IsPair<I, O>(es: seq<Entry<I, O>>, i: nat, c: nat, r: nat) {
    c < r < |es| && forall k :: 0 <= k < |es| ==> (es[k].id == i <==> k == c || k == r)
  }

  lemma WithoutIncreasing(s: seq<nat>, a: nat, b: nat)
    requires Increasing(s) && a < b < |s|
    ensures Increasing(Without(s, a, b))
    ensures forall x :: x in Without(s, a, b) <==> x in s && x != s[a] && x != s[b]
  {
    CutIncreasing(s, a);
    CutIncreasing(Cut(s, a), b - 1);
  }

  /** Taking the pair of operation i out of the live positions leaves the live positions of
      the larger set. */
  lemma LiveWithout<I, O>(es: seq<Entry<I, O>>, done: set<nat>, i: nat, c: nat, r: nat)
    requires IsPair(es, i, c, r) && i !in done
    ensures c in LiveFrom(es, done, 0) && r in LiveFrom(es, done, 0)
    ensures var live := LiveFrom(es, done, 0);
            IndexOf(live, c) < IndexOf(live, r) &&
            Without(live, IndexOf(live, c), IndexOf(live, r)) == LiveFrom(es, done + {i}, 0)
  {
    var live := LiveFrom(es, done, 0);
    var a, b := IndexOf(live, c), IndexOf(live, r);
    IncreasingOrder(live, a, b);
    WithoutIncreasing(live, a, b);
    IncreasingUnique(Without(live, a, b), LiveFrom(es, done + {i}, 0));
  }

  lemma WithoutAt<T>(s: seq<T>, a: nat, b: nat)
    requires a < b < |s|
    ensures |Without(s, a, b)| == |s| - 2
    ensures forall k :: 0 <= k < |s| - 2 ==>
      Without(s, a, b)[k] == s[if k < a then k else if k + 1 < b then k + 1 else k + 2]
  {
  }

  /** The list head followed by the nodes at the given positions. */
  function ChainOf<I, O>(head: Node<I, O>, nodes: seq<Node<I, O>>, live: seq<nat>): (r: seq<Node<I, O>>)
    requires forall x :: x in live ==> x < |nodes|
    ensures |r| == 1 + |live| && r[0] == head
    ensures forall k :: 1 <= k < |r| ==> live[k - 1] in live && r[k] == nodes[live[k - 1]]
  {
    assert forall k :: 0 <= k < |live| ==> live[k] in live;
    [head] + seq(|live|, k requires 0 <= k < |live| => nodes[live[k]])
  }

  lemma ChainWithout<I, O>(head: Node<I, O>, nodes: seq<Node<I, O>>, live: seq<nat>, a: nat, b: nat, rest: seq<nat>)
    requires forall x :: x in live ==> x < |nodes|
    requires forall x :: x in rest ==> x < |nodes|
    requires a < b < |live| && rest == Without(live, a, b)
    ensures Without(ChainOf(head, nodes, live), a + 1, b + 1) == ChainOf(head, nodes, rest)
  {
    WithoutAt(live, a, b);
    var c, d := Without(ChainOf(head, nodes, live), a + 1, b + 1), ChainOf(head, nodes, rest);
    WithoutAt(ChainOf(head, nodes, live), a + 1, b + 1);
    hide Without;
    forall k | 0 <= k < |c| ensures c[k] == d[k] {
    }
  }

  /** The next pointer of a listed node leads to the next listed position. */
  lemma NextInChain<I, O>(head: Node<I, O>, nodes: seq<Node<I, O>>, live: seq<nat>, q: nat)
    requires forall x :: x in live ==> x < |nodes|
    requires q < |live| && Linked(ChainOf(head, nodes, live))
    ensures live[q] in live && (q + 1 < |live| ==> live[q + 1] in live)
    ensures nodes[live[q]].next == if q + 1 < |live| then nodes[live[q + 1]] else null
  {
    var c := ChainOf(head, nodes, live);
    assert forall k :: 0 <= k < |live| ==> live[k] in live;
    assert c[q + 1] == nodes[live[q]];
    assert q + 1 < |live| ==> c[q + 2] == nodes[live[q + 1]];
  }

  lemma ChainNoRepeats<I, O>(head: Node<I, O>, nodes: seq<Node<I, O>>, live: seq<nat>)
    requires forall x :: x in live ==> x < |nodes|
    requires Increasing(live) && NoRepeats(nodes) && head !in nodes
    ensures NoRepeats(ChainOf(head, nodes, live))
  {
    var c := ChainOf(head, nodes, live);
    assert forall k :: 0 <= k < |live| ==> live[k] in live;
    forall i, j | 0 <= i < j < |c| ensures c[i] != c[j] {
      assert c[j] == nodes[live[j - 1]];
      if i > 0 { assert live[i - 1] < live[j - 1]; }
    }
  }

  lemma ChainMembers<I, O>(head: Node<I, O>, nodes: seq<Node<I, O>>, live: seq<nat>, k: nat)
    requires forall x :: x in live ==> x < |nodes|
    requires NoRepeats(nodes) && head !in nodes && k < |nodes|
    ensures nodes[k] in ChainOf(head, nodes, live) <==> k in live
  {
    var c := ChainOf(head, nodes, live);
    assert forall q :: 0 <= q < |live| ==> live[q] in live;
    if k in live {
      assert c[IndexOf(live, k) + 1] == nodes[k];
    } else {
      forall q | 0 <= q < |c| ensures c[q] != nodes[k] {
        if q > 0 {
          assert c[q] == nodes[live[q - 1]] && live[q - 1] != k;
        }
      }
    }
  }

  /** The live position after live[q] is live[q + 1]. */
  lemma NextPosition<I, O>(es: seq<Entry<I, O>>, done: set<nat>, q: nat)
    requires q < |LiveFrom(es, done, 0)|
    ensures var live := LiveFrom(es, done, 0);
            live[q] < |es| && NextLive(es, done, live[q] + 1) == if q + 1 < |live| then live[q + 1] else |es|
  {
    var live := LiveFrom(es, done, 0);
    assert live[q] in live;
    assert q + 1 < |live| ==> live[q + 1] in live && live[q] < live[q + 1];
    var k := NextLive(es, done, live[q] + 1);
    if k < |es| {
      assert k in live;
      IncreasingOrder(live, q, IndexOf(live, k));
    }
  }

  lemma FirstPosition<I, O>(es: seq<Entry<I, O>>, done: set<nat>)
    ensures var live := LiveFrom(es, done, 0);
            NextLive(es, done, 0) == if live == [] then |es| else live[0]
  {
    var live, first := LiveFrom(es, done, 0), NextLive(es, done, 0);
    assert live == [] || live[0] in live;
    assert first < |es| ==> first in live && live[0] <= first;
  }

  /** A history with its timeline, and the nodes allocated for its entries. */
  datatype Layout<I, O> = Layout(
    ops: seq<Operation<I, O>>, es: seq<Entry<I, O>>, cp: seq<nat>, rp: seq<nat>,
    head: Node<I, O>, nodes: seq<Node<I, O>>)
  {
    ghost predicate Valid() {
      Timeline(ops, es, cp, rp) && Represents(nodes, es, rp) && NoRepeats(nodes) && head !in nodes
    }

    ghost predicate Shaped() {
      |nodes| == |es| && NoRepeats(nodes) && head !in nodes
    }

    ghost function Live(done: set<nat>): seq<nat> {
      LiveFrom(es, done, 0)
    }

    /** The list head followed by the nodes of the operations that are not done. */
    ghost function Chain(done: set<nat>): seq<Node<I, O>>
      requires Shaped()
    {
      ChainOf(head, nodes, Live(done))
    }

    lemma PairFacts(i: nat)
      requires Valid() && i < |ops|
      ensures Shaped() && i < |cp| && i < |rp| && IsPair(es, i, cp[i], rp[i])
      ensures nodes[cp[i]].matching == nodes[rp[i]]
      ensures nodes[cp[i]].id == i && nodes[rp[i]].id == i && nodes[rp[i]].matching == null
      ensures nodes[cp[i]].value == Input(ops[i].input) && nodes[rp[i]].value == Output(ops[i].output)
    {
      assert es[cp[i]] == CallOf(ops, i) && es[rp[i]] == ReturnOf(ops, i);
      assert CarriedFrom(nodes, es, rp, 0, cp[i]) && CarriedFrom(nodes, es, rp, 0, rp[i]);
      forall k | 0 <= k < |es| && es[k].id == i ensures k == cp[i] || k == rp[i] {
      }
    }

    /** What the next pointers of the live list mean in terms of positions. */
    lemma NextNode(done: set<nat>, at: nat)
      requires Shaped() && Linked(Chain(done))
      requires at < |es| && es[at].id !in done
      ensures nodes[at].next == At(nodes, NextLive(es, done, at + 1))
    {
      hide Linked, NoRepeats, NextLive, Increasing;
      var live := Live(done);
      assert at in live;
      var q := IndexOf(live, at);
      NextInChain(head, nodes, live, q);
      NextPosition(es, done, q);
    }

    lemma FirstNode(done: set<nat>)
      requires Shaped() && Linked(Chain(done))
      ensures head.next == At(nodes, NextLive(es, done, 0))
    {
      FirstPosition(es, done);
      var c := Chain(done);
      assert c[0].next == if |c| > 1 then c[1] else null;
    }
  }
}

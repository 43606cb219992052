/** Reverse-mode differentiation of nn.py on a graph of scalar nodes. Nodes are numbered in the
    order of their creation, so parents have smaller numbers. */
module Gradients {
  import opened Sequences

  /** parents[u] are the arguments of node u (repeats allowed), local[u] the derivatives of u by
      each of them: what _backward multiplies the incoming gradient with. */
  datatype Graph = Graph(parents: seq<seq<nat>>, local: seq<seq<real>>)

  predicate WellFormed(g: Graph) {
    && |g.local| == |g.parents|
    && forall u :: 0 <= u < |g.parents| ==>
         |g.local[u]| == |g.parents[u]| && forall k :: 0 <= k < |g.parents[u]| ==> g.parents[u][k] < u
  }

  // ---- The sum over all paths ----

  /** The sum, over all paths from u down to v, of the products of the local derivatives. */
  ghost function PathSum(g: Graph, u: nat, v: nat): real
    requires WellFormed(g) && u < |g.parents|
    decreases u, 1, 0
  {
    (if u == v then 1.0 else 0.0) + ParentSum(g, u, v, |g.parents[u]|)
  }

  /** The part of that sum that starts with one of the first k arguments of u. */
  ghost function ParentSum(g: Graph, u: nat, v: nat, k: nat): real
    requires WellFormed(g) && u < |g.parents| && k <= |g.parents[u]|
    decreases u, 0, k
  {
    if k == 0 then 0.0
    else ParentSum(g, u, v, k - 1) + g.local[u][k - 1] * PathSum(g, g.parents[u][k - 1], v)
  }

  /** A path is given by the argument positions taken on the way down from u. */
  ghost predicate IsPath(g: Graph, u: nat, v: nat, path: seq<nat>)
    requires WellFormed(g) && u < |g.parents|
    decreases |path|
  {
    if path == [] then u == v
    else path[0] < |g.parents[u]| && IsPath(g, g.parents[u][path[0]], v, path[1..])
  }

  function Product(g: Graph, u: nat, path: seq<nat>): real
    requires WellFormed(g) && u < |g.parents|
    decreases |path|
  {
    if path == [] then 1.0
    else if path[0] < |g.parents[u]| then g.local[u][path[0]] * Product(g, g.parents[u][path[0]], path[1..])
    else 0.0
  }

  function SumOf(xs: seq<real>): real {
    if xs == [] then 0.0 else SumOf(xs[..|xs| - 1]) + xs[|xs| - 1]
  }

  function Products(g: Graph, u: nat, paths: seq<seq<nat>>): (r: seq<real>)
    requires WellFormed(g) && u < |g.parents|
    ensures |r| == |paths|
  {
    seq(|paths|, i requires 0 <= i < |paths| => Product(g, u, paths[i]))
  }

  /** All paths from u to v: the empty one if u is v, and those through each argument in turn. */
  ghost function AllPaths(g: Graph, u: nat, v: nat): seq<seq<nat>>
    requires WellFormed(g) && u < |g.parents|
    decreases u, 1, 0
  {
    (if u == v then [[]] else []) + PathsThrough(g, u, v, |g.parents[u]|)
  }

  function Prepend(rest: seq<seq<nat>>, k: nat): (r: seq<seq<nat>>)
    ensures |r| == |rest| && forall i :: 0 <= i < |rest| ==> r[i] == [k] + rest[i]
  {
    seq(|rest|, i requires 0 <= i < |rest| => [k] + rest[i])
  }

  ghost function PathsThrough(g: Graph, u: nat, v: nat, k: nat): seq<seq<nat>>
    requires WellFormed(g) && u < |g.parents| && k <= |g.parents[u]|
    decreases u, 0, k
  {
    if k == 0 then []
    else
      var rest := AllPaths(g, g.parents[u][k - 1], v);
      PathsThrough(g, u, v, k - 1) + Prepend(rest, k - 1)
  }

  lemma PrependAll(rest: seq<seq<nat>>, k: nat, path: seq<nat>)
    ensures var r := Prepend(rest, k);
            && (path in r <==> path != [] && path[0] == k && path[1..] in rest)
            && (NoRepeats(rest) ==> NoRepeats(r))
  {
    var r := Prepend(rest, k);
    if path in r {
      var i :| 0 <= i < |r| && r[i] == path;
      assert path[1..] == rest[i];
    }
    if path != [] && path[0] == k && path[1..] in rest {
      var i :| 0 <= i < |rest| && rest[i] == path[1..];
      assert r[i] == [k] + rest[i] == path;
    }
    forall i, j | 0 <= i < j < |r| && rest[i] != rest[j] ensures r[i] != r[j] {
      assert r[i][1..] == rest[i] && r[j][1..] == rest[j];
    }
  }

  lemma {:induction false} PathsThroughComplete(g: Graph, u: nat, v: nat, k: nat, path: seq<nat>)
    requires WellFormed(g) && u < |g.parents| && k <= |g.parents[u]|
    ensures path in PathsThrough(g, u, v, k) <==> path != [] && path[0] < k && IsPath(g, u, v, path)
    ensures NoRepeats(PathsThrough(g, u, v, k))
    decreases u, 0, k
  {
    if k > 0 {
      var p, before := g.parents[u][k - 1], PathsThrough(g, u, v, k - 1);
      var rest := AllPaths(g, p, v);
      var last := Prepend(rest, k - 1);
      PathsThroughComplete(g, u, v, k - 1, path);
      PrependAll(rest, k - 1, path);
      AllPathsComplete(g, p, v, if path == [] then [] else path[1..]);
      forall x | x in before ensures x !in last {
        PathsThroughComplete(g, u, v, k - 1, x);
        PrependAll(rest, k - 1, x);
      }
      JoinNoRepeats(before, last);
    }
  }

  lemma JoinNoRepeats<T>(a: seq<T>, b: seq<T>)
    requires NoRepeats(a) && NoRepeats(b) && forall x :: x in a ==> x !in b
    ensures NoRepeats(a + b)
  {
    forall i, j | 0 <= i < j < |a + b| ensures (a + b)[i] != (a + b)[j] {
      if i < |a| <= j { assert a[i] in a && b[j - |a|] in b; }
    }
  }

  /** AllPaths lists every path exactly once. */
  lemma {:induction false} AllPathsComplete(g: Graph, u: nat, v: nat, path: seq<nat>)
    requires WellFormed(g) && u < |g.parents|
    ensures path in AllPaths(g, u, v) <==> IsPath(g, u, v, path)
    ensures NoRepeats(AllPaths(g, u, v))
    decreases u, 1, 0
  {
    var n := |g.parents[u]|;
    PathsThroughComplete(g, u, v, n, path);
    var through := PathsThrough(g, u, v, n);
    if u == v {
      PathsThroughComplete(g, u, v, n, []);
      JoinNoRepeats([[]], through);
    } else {
      assert AllPaths(g, u, v) == through;
    }
  }

  lemma {:induction false} SumJoin(a: seq<real>, b: seq<real>)
    ensures SumOf(a + b) == SumOf(a) + SumOf(b)
  {
    if b == [] {
      assert a + b == a;
    } else {
      assert (a + b)[..|a + b| - 1] == a + b[..|b| - 1];
      SumJoin(a, b[..|b| - 1]);
    }
  }

  lemma {:induction false} SumScaled(c: real, xs: seq<real>, ys: seq<real>)
    requires |xs| == |ys| && forall i :: 0 <= i < |xs| ==> ys[i] == c * xs[i]
    ensures SumOf(ys) == c * SumOf(xs)
  {
    if xs != [] {
      SumScaled(c, xs[..|xs| - 1], ys[..|ys| - 1]);
    }
  }

  lemma ProductsJoin(g: Graph, u: nat, a: seq<seq<nat>>, b: seq<seq<nat>>)
    requires WellFormed(g) && u < |g.parents|
    ensures SumOf(Products(g, u, a + b)) == SumOf(Products(g, u, a)) + SumOf(Products(g, u, b))
  {
    assert Products(g, u, a + b) == Products(g, u, a) + Products(g, u, b);
    SumJoin(Products(g, u, a), Products(g, u, b));
  }

  lemma ArgumentOk(g: Graph, u: nat, k: nat)
    requires WellFormed(g) && u < |g.parents| && k < |g.parents[u]|
    ensures |g.local| == |g.parents| && |g.local[u]| == |g.parents[u]| && g.parents[u][k] < |g.parents|
  {
  }

  lemma ProductPrepended(g: Graph, u: nat, k: nat, path: seq<nat>)
    requires WellFormed(g) && u < |g.parents| && k < |g.parents[u]|
    ensures Product(g, u, [k] + path) == g.local[u][k] * Product(g, g.parents[u][k], path)
  {
    hide WellFormed;
    ArgumentOk(g, u, k);
    assert ([k] + path)[1..] == path;
  }

  lemma ProductsPrepended(g: Graph, u: nat, k: nat, rest: seq<seq<nat>>)
    requires WellFormed(g) && u < |g.parents| && k < |g.parents[u]|
    ensures SumOf(Products(g, u, Prepend(rest, k))) == g.local[u][k] * SumOf(Products(g, g.parents[u][k], rest))
  {
    hide Product, SumOf, Prepend;
    var last := Prepend(rest, k);
    forall i | 0 <= i < |rest| ensures Product(g, u, last[i]) == g.local[u][k] * Product(g, g.parents[u][k], rest[i]) {
      ProductPrepended(g, u, k, rest[i]);
    }
    SumScaled(g.local[u][k], Products(g, g.parents[u][k], rest), Products(g, u, last));
  }

  lemma {:induction false} ParentSumIsSum(g: Graph, u: nat, v: nat, k: nat)
    requires WellFormed(g) && u < |g.parents| && k <= |g.parents[u]|
    ensures ParentSum(g, u, v, k) == SumOf(Products(g, u, PathsThrough(g, u, v, k)))
    decreases u, 0, k
  {
    hide SumOf, Products, Product, Prepend;
    if k == 0 {
      NoProducts(g, u);
    } else {
      var p := g.parents[u][k - 1];
      var rest := AllPaths(g, p, v);
      var last := Prepend(rest, k - 1);
      ParentSumIsSum(g, u, v, k - 1);
      PathSumIsSum(g, p, v);
      ProductsJoin(g, u, PathsThrough(g, u, v, k - 1), last);
      ProductsPrepended(g, u, k - 1, rest);
    }
  }

  lemma NoProducts(g: Graph, u: nat)
    requires WellFormed(g) && u < |g.parents|
    ensures SumOf(Products(g, u, [])) == 0.0
  {
  }

  /** PathSum is the sum of the products over the list of all paths. */
  lemma {:induction false} PathSumIsSum(g: Graph, u: nat, v: nat)
    requires WellFormed(g) && u < |g.parents|
    ensures PathSum(g, u, v) == SumOf(Products(g, u, AllPaths(g, u, v)))
    decreases u, 1, 0
  {
    var n := |g.parents[u]|;
    ParentSumIsSum(g, u, v, n);
    var own: seq<seq<nat>> := if u == v then [[]] else [];
    ProductsJoin(g, u, own, PathsThrough(g, u, v, n));
    assert SumOf(Products(g, u, own)) == if u == v then 1.0 else 0.0 by {
      if u == v {
        assert Products(g, u, own) == [1.0];
        assert [1.0][..0] == [];
      }
    }
  }

  // ---- The tape ----

  /** All arguments of each node of the tape stand before it. */
  ghost predicate Topological(g: Graph, tape: seq<nat>)
    requires WellFormed(g)
  {
    && NoRepeats(tape)
    && (forall i :: 0 <= i < |tape| ==> tape[i] < |g.parents|)
    && (forall i, k :: 0 <= i < |tape| && 0 <= k < |g.parents[tape[i]]| ==> g.parents[tape[i]][k] in tape[..i])
  }

  lemma TopologicalAppend(g: Graph, tape: seq<nat>, u: nat)
    requires WellFormed(g) && Topological(g, tape) && u !in tape && u < |g.parents|
    requires forall k :: 0 <= k < |g.parents[u]| ==> g.parents[u][k] in tape
    ensures Topological(g, tape + [u])
  {
    var t := tape + [u];
    forall i, k | 0 <= i < |t| && 0 <= k < |g.parents[t[i]]| ensures g.parents[t[i]][k] in t[..i] {
      if i < |tape| {
        assert t[..i] == tape[..i] && t[i] == tape[i];
      } else {
        assert t[..i] == tape;
      }
    }
  }

  /** The recursive visit: u and everything below it is on the tape afterwards. */
  method Visit(g: Graph, u: nat, nodes0: set<nat>, tape0: seq<nat>) returns (nodes: set<nat>, tape: seq<nat>)
    requires WellFormed(g) && u < |g.parents| && Topological(g, tape0) && nodes0 == Elems(tape0)
    ensures Topological(g, tape) && nodes == Elems(tape)
    ensures tape0 <= tape && u in tape
    ensures forall x :: x in tape ==> x in tape0 || x <= u
    decreases u
  {
    nodes, tape := nodes0, tape0;
    if u !in nodes {
      for k := 0 to |g.parents[u]|
        invariant Topological(g, tape) && nodes == Elems(tape) && tape0 <= tape
        invariant forall x :: x in tape ==> x in tape0 || x < u
        invariant forall j :: 0 <= j < k ==> g.parents[u][j] in tape
      {
        ghost var before := tape;
        nodes, tape := Visit(g, g.parents[u][k], nodes, tape);
        assert forall x :: x in before ==> x in tape;
      }
      TopologicalAppend(g, tape, u);
      nodes := nodes + {u};
      tape := tape + [u];
    }
  }

  // ---- The reverse sweep ----

  /** A set of nodes closed under taking arguments has no path out of it. */
  lemma {:induction false} NoPathOut(g: Graph, closed: set<nat>, u: nat, v: nat, k: nat)
    requires WellFormed(g) && u in closed && v !in closed && u < |g.parents| && k <= |g.parents[u]|
    requires forall x, i :: x in closed && x < |g.parents| && 0 <= i < |g.parents[x]| ==> g.parents[x][i] in closed
    ensures ParentSum(g, u, v, k) == 0.0 && PathSum(g, u, v) == 0.0
    decreases u, k
  {
    NoPathOutParents(g, closed, u, v, k);
    NoPathOutParents(g, closed, u, v, |g.parents[u]|);
  }

  lemma {:induction false} NoPathOutParents(g: Graph, closed: set<nat>, u: nat, v: nat, k: nat)
    requires WellFormed(g) && u in closed && v !in closed && u < |g.parents| && k <= |g.parents[u]|
    requires forall x, i :: x in closed && x < |g.parents| && 0 <= i < |g.parents[x]| ==> g.parents[x][i] in closed
    ensures ParentSum(g, u, v, k) == 0.0
    decreases u, k
  {
    if k > 0 {
      var p := g.parents[u][k - 1];
      NoPathOutParents(g, closed, u, v, k - 1);
      NoPathOutParents(g, closed, p, v, |g.parents[p]|);
      assert p in closed;
      assert PathSum(g, p, v) == 0.0;
    }
  }

  /** The gradients on the tape, each carried on to v along all paths. */
  ghost function Carried(g: Graph, tape: seq<nat>, grads: map<nat, real>, v: nat): real
    requires WellFormed(g) && forall i :: 0 <= i < |tape| ==> tape[i] < |g.parents| && tape[i] in grads
  {
    if tape == [] then 0.0
    else
      var x := tape[|tape| - 1];
      Carried(g, tape[..|tape| - 1], grads, v) + grads[x] * PathSum(g, x, v)
  }

  /** Adding d to the gradient of one node adds d times the paths from it. */
  lemma {:induction false} CarriedAdd(g: Graph, tape: seq<nat>, grads: map<nat, real>, p: nat, d: real, v: nat)
    requires WellFormed(g) && NoRepeats(tape) && p in grads && p < |g.parents|
    requires forall i :: 0 <= i < |tape| ==> tape[i] < |g.parents| && tape[i] in grads
    ensures Carried(g, tape, grads[p := grads[p] + d], v) ==
            Carried(g, tape, grads, v) + if p in tape then d * PathSum(g, p, v) else 0.0
  {
    if tape != [] {
      var x, front := tape[|tape| - 1], tape[..|tape| - 1];
      CarriedAdd(g, front, grads, p, d, v);
      assert tape == front + [x];
    }
  }

  /** Only the last node of a topological tape reaches the last node: itself, by the empty path. */
  lemma {:induction false} CarriedToLast(g: Graph, tape: seq<nat>, grads: map<nat, real>, k: nat)
    requires WellFormed(g) && Topological(g, tape) && tape != [] && k < |tape|
    requires forall i :: 0 <= i < |tape| ==> tape[i] in grads
    ensures Carried(g, tape[..k], grads, tape[|tape| - 1]) == 0.0
    ensures PathSum(g, tape[|tape| - 1], tape[|tape| - 1]) == 1.0
  {
    var v, front := tape[|tape| - 1], tape[..|tape| - 1];
    FrontClosed(g, tape);
    var closed := Elems(front);
    assert v !in front;
    if k > 0 {
      CarriedToLast(g, tape, grads, k - 1);
      assert tape[..k][..k - 1] == tape[..k - 1];
      assert tape[k - 1] == front[k - 1];
      NoPathOut(g, closed, tape[k - 1], v, 0);
    }
    ArgumentsOut(g, closed, v, |g.parents[v]|);
  }

  lemma FrontClosed(g: Graph, tape: seq<nat>)
    requires WellFormed(g) && Topological(g, tape) && tape != []
    ensures var closed, v := Elems(tape[..|tape| - 1]), tape[|tape| - 1];
            && (forall x, i :: x in closed && x < |g.parents| && 0 <= i < |g.parents[x]| ==> g.parents[x][i] in closed)
            && forall i :: 0 <= i < |g.parents[v]| ==> g.parents[v][i] in closed
  {
    var front := tape[..|tape| - 1];
    forall x, i | x in front && 0 <= i < |g.parents[x]| ensures g.parents[x][i] in front {
      var j :| 0 <= j < |front| && front[j] == x;
      assert tape[j] == x;
      assert g.parents[x][i] in tape[..j];
    }
  }

  lemma {:induction false} ArgumentsOut(g: Graph, closed: set<nat>, v: nat, k: nat)
    requires WellFormed(g) && v !in closed && v < |g.parents| && k <= |g.parents[v]|
    requires forall x, i :: x in closed && x < |g.parents| && 0 <= i < |g.parents[x]| ==> g.parents[x][i] in closed
    requires forall i :: 0 <= i < |g.parents[v]| ==> g.parents[v][i] in closed
    ensures ParentSum(g, v, v, k) == 0.0
  {
    if k > 0 {
      ArgumentsOut(g, closed, v, k - 1);
      NoPathOut(g, closed, g.parents[v][k - 1], v, 0);
    }
  }

  /** What the sweep keeps: the gradients of the nodes not yet handled, carried on along all
      paths, make up the derivative of the loss by each of them. */
  ghost predicate Pending(g: Graph, tape: seq<nat>, grads: map<nat, real>, loss: nat)
    requires WellFormed(g) && loss < |g.parents| && forall i :: 0 <= i < |tape| ==>
      tape[i] < |g.parents| && tape[i] in grads
  {
    forall v :: v in tape ==> Carried(g, tape, grads, v) == PathSum(g, loss, v)
  }

  /** Handling node x: its gradient is passed on to its arguments. */
  method PassOn(g: Graph, x: nat, ghost tape: seq<nat>, grads0: map<nat, real>) returns (grads: map<nat, real>)
    requires WellFormed(g) && x < |g.parents| && NoRepeats(tape) && x !in tape && x in grads0
    requires forall i :: 0 <= i < |tape| ==> tape[i] < |g.parents| && tape[i] in grads0
    requires forall k :: 0 <= k < |g.parents[x]| ==> g.parents[x][k] in tape
    ensures grads.Keys == grads0.Keys
    ensures forall u :: u in grads && u !in tape ==> grads[u] == grads0[u]
    ensures forall v ::
      Carried(g, tape, grads, v) == Carried(g, tape, grads0, v) + grads0[x] * ParentSum(g, x, v, |g.parents[x]|)
  {
    hide WellFormed, Carried, ParentSum, PathSum, NoRepeats;
    ArgumentInRange(g);
    grads := grads0;
    forall v ensures ParentSum(g, x, v, 0) == 0.0 { NoParents(g, x, v); }
    for k := 0 to |g.parents[x]|
      invariant grads.Keys == grads0.Keys
      invariant forall u :: u in grads && u !in tape ==> grads[u] == grads0[u]
      invariant forall v ::
        Carried(g, tape, grads, v) == Carried(g, tape, grads0, v) + grads0[x] * ParentSum(g, x, v, k)
    {
      var p, d := g.parents[x][k], grads0[x] * g.local[x][k];
      ghost var before := grads;
      grads := grads[p := grads[p] + d];
      forall v ensures Carried(g, tape, grads, v) ==
        Carried(g, tape, grads0, v) + grads0[x] * ParentSum(g, x, v, k + 1) {
        CarriedAdd(g, tape, before, p, d, v);
        ParentSumStep(g, x, v, k);
        Distribute(grads0[x], g.local[x][k], ParentSum(g, x, v, k), PathSum(g, p, v));
      }
    }
  }

  lemma NoParents(g: Graph, x: nat, v: nat)
    requires WellFormed(g) && x < |g.parents|
    ensures ParentSum(g, x, v, 0) == 0.0
  {
  }

  lemma ParentSumStep(g: Graph, x: nat, v: nat, k: nat)
    requires WellFormed(g) && x < |g.parents| && k < |g.parents[x]|
    ensures ParentSum(g, x, v, k + 1) == ParentSum(g, x, v, k) + g.local[x][k] * PathSum(g, g.parents[x][k], v)
  {
  }

  lemma ArgumentInRange(g: Graph)
    requires WellFormed(g)
    ensures |g.local| == |g.parents|
    ensures forall x, k :: 0 <= x < |g.parents| && 0 <= k < |g.parents[x]| ==>
      |g.local[x]| == |g.parents[x]| && g.parents[x][k] < |g.parents|
  {
  }

  lemma Distribute(a: real, w: real, s: real, t: real)
    ensures a * s + (a * w) * t == a * (s + w * t)
  {
  }

  lemma AllBelow(g: Graph, tape: seq<nat>, u: nat, v: nat)
    requires WellFormed(g) && Topological(g, tape) && u in tape && v !in tape
    ensures PathSum(g, u, v) == 0.0
  {
    var closed := Elems(tape);
    forall x, i | x in closed && x < |g.parents| && 0 <= i < |g.parents[x]| ensures g.parents[x][i] in closed {
      var j :| 0 <= j < |tape| && tape[j] == x;
      assert g.parents[x][i] in tape[..j];
    }
    NoPathOut(g, closed, u, v, 0);
  }

  /** At the start only the loss carries a gradient, of one. */
  lemma {:induction false} CarriedStart(g: Graph, tape: seq<nat>, grads: map<nat, real>, loss: nat, v: nat)
    requires WellFormed(g) && NoRepeats(tape) && loss < |g.parents|
    requires forall i :: 0 <= i < |tape| ==> tape[i] < |g.parents| && tape[i] in grads
    requires forall u :: u in grads ==> grads[u] == if u == loss then 1.0 else 0.0
    ensures Carried(g, tape, grads, v) == if loss in tape then PathSum(g, loss, v) else 0.0
  {
    if tape != [] {
      var x, front := tape[|tape| - 1], tape[..|tape| - 1];
      CarriedStart(g, front, grads, loss, v);
      assert tape == front + [x];
    }
  }

  /** The state of the sweep with the nodes of `tape` still to be handled. */
  ghost predicate Swept(g: Graph, tape: seq<nat>, grads: map<nat, real>, loss: nat)
    requires WellFormed(g) && loss < |g.parents|
  {
    && Topological(g, tape)
    && (forall i :: 0 <= i < |tape| ==> tape[i] < |g.parents| && tape[i] in grads)
    && Pending(g, tape, grads, loss)
    && forall v :: v in grads && v !in tape ==> grads[v] == PathSum(g, loss, v)
  }

  lemma SweptDone(g: Graph, grads: map<nat, real>, loss: nat)
    requires WellFormed(g) && loss < |g.parents| && Swept(g, [], grads, loss)
    ensures forall v :: v in grads ==> grads[v] == PathSum(g, loss, v)
  {
  }

  /** gradients: the gradient of every parameter is the sum, over all paths from the loss to it,
      of the products of local derivatives; zero when there is no such path. */
  method ComputeGradients(g: Graph, loss: nat, parameters: seq<nat>) returns (result: seq<real>)
    requires WellFormed(g) && loss < |g.parents|
    requires forall k :: 0 <= k < |parameters| ==> parameters[k] < |g.parents|
    ensures |result| == |parameters|
    ensures forall k :: 0 <= k < |parameters| ==>
      result[k] == PathSum(g, loss, parameters[k]) == SumOf(Products(g, loss, AllPaths(g, loss, parameters[k])))
  {
    hide WellFormed, Swept, PathSum, Topological, SumOf, Products, AllPaths, Elems;
    EmptyTape(g);
    ElemsAre(parameters);
    var nodes, tape := Visit(g, loss, {}, []);
    ElemsAre(tape);
    nodes := nodes + Elems(parameters);
    var grads: map<nat, real> := map u | u in nodes :: 0.0;
    grads := grads[loss := 1.0];
    StartSwept(g, tape, grads, loss);
    var i := |tape|;
    while i > 0
      invariant 0 <= i <= |tape| && grads.Keys == nodes
      invariant Swept(g, tape[..i], grads, loss)
    {
      assert tape[..i][..i - 1] == tape[..i - 1];
      grads := SweepStep(g, tape[..i], grads, loss);
      i := i - 1;
    }
    SweptDone(g, grads, loss);
    result := [];
    for k := 0 to |parameters|
      invariant |result| == k
      invariant forall j :: 0 <= j < k ==> result[j] == PathSum(g, loss, parameters[j])
    {
      result := result + [grads[parameters[k]]];
    }
    forall k | 0 <= k < |parameters|
      ensures PathSum(g, loss, parameters[k]) == SumOf(Products(g, loss, AllPaths(g, loss, parameters[k]))) {
      PathSumIsSum(g, loss, parameters[k]);
    }
  }

  lemma ElemsAre(s: seq<nat>)
    ensures forall x :: x in Elems(s) <==> x in s
  {
  }

  lemma EmptyTape(g: Graph)
    requires WellFormed(g)
    ensures Topological(g, []) && Elems<nat>([]) == {}
  {
  }

  lemma StartSwept(g: Graph, tape: seq<nat>, grads: map<nat, real>, loss: nat)
    requires WellFormed(g) && loss < |g.parents| && Topological(g, tape) && loss in tape
    requires forall u :: u in tape ==> u in grads
    requires forall u :: u in grads ==> grads[u] == if u == loss then 1.0 else 0.0
    ensures tape[..|tape|] == tape && Swept(g, tape, grads, loss)
  {
    forall v | v in tape ensures Carried(g, tape, grads, v) == PathSum(g, loss, v) {
      CarriedStart(g, tape, grads, loss, v);
    }
    forall v | v in grads && v !in tape ensures PathSum(g, loss, v) == 0.0 {
      AllBelow(g, tape, loss, v);
    }
  }

  /** One round of the sweep: the last unhandled node has its final gradient, and passes it on. */
  method SweepStep(g: Graph, tape: seq<nat>, grads0: map<nat, real>, loss: nat) returns (grads: map<nat, real>)
    requires WellFormed(g) && loss < |g.parents| && tape != [] && Swept(g, tape, grads0, loss)
    ensures grads.Keys == grads0.Keys && Swept(g, tape[..|tape| - 1], grads, loss)
  {
    hide WellFormed, Carried, ParentSum, PathSum, Topological, Pending, Swept;
    ghost var front := tape[..|tape| - 1];
    SweptTape(g, tape, grads0, loss);
    grads := PassOn(g, tape[|tape| - 1], front, grads0);
    FrontPending(g, tape, grads0, grads, loss);
    SweptFront(g, tape, grads0, grads, loss);
  }

  lemma SweptTape(g: Graph, tape: seq<nat>, grads: map<nat, real>, loss: nat)
    requires WellFormed(g) && loss < |g.parents| && tape != [] && Swept(g, tape, grads, loss)
    ensures var front, x := tape[..|tape| - 1], tape[|tape| - 1];
            && x < |g.parents| && x in grads && NoRepeats(front) && x !in front
            && (forall i :: 0 <= i < |front| ==> front[i] < |g.parents| && front[i] in grads)
            && forall k :: 0 <= k < |g.parents[x]| ==> g.parents[x][k] in front
  {
    hide WellFormed, PathSum, Carried;
    FrontTopological(g, tape);
  }

  lemma SweptFront(g: Graph, tape: seq<nat>, grads0: map<nat, real>, grads: map<nat, real>, loss: nat)
    requires WellFormed(g) && loss < |g.parents| && tape != [] && Swept(g, tape, grads0, loss)
    requires grads.Keys == grads0.Keys
    requires var front := tape[..|tape| - 1];
             && (forall i :: 0 <= i < |front| ==> front[i] < |g.parents| && front[i] in grads)
             && Pending(g, front, grads, loss)
             && forall u :: u in grads && u !in front ==> grads[u] == grads0[u]
    ensures Swept(g, tape[..|tape| - 1], grads, loss)
  {
    hide WellFormed, PathSum, Carried, Pending;
    FrontTopological(g, tape);
    LastIsFinal(g, tape, grads0, loss);
  }

  /** The gradient of the last unhandled node is already its derivative. */
  lemma LastIsFinal(g: Graph, tape: seq<nat>, grads: map<nat, real>, loss: nat)
    requires WellFormed(g) && loss < |g.parents| && tape != [] && Swept(g, tape, grads, loss)
    ensures grads[tape[|tape| - 1]] == PathSum(g, loss, tape[|tape| - 1])
  {
    hide WellFormed, Carried, PathSum, Topological;
    var x := tape[|tape| - 1];
    assert x in tape;
    CarriedToLast(g, tape, grads, |tape| - 1);
    CarriedStep(g, tape, grads, x);
  }

  lemma FrontPending(g: Graph, tape: seq<nat>, grads0: map<nat, real>, grads: map<nat, real>, loss: nat)
    requires WellFormed(g) && loss < |g.parents| && tape != [] && Swept(g, tape, grads0, loss)
    requires grads.Keys == grads0.Keys
    requires var front, x := tape[..|tape| - 1], tape[|tape| - 1];
             x !in front && forall v ::
               Carried(g, front, grads, v) ==
               Carried(g, front, grads0, v) + grads0[x] * ParentSum(g, x, v, |g.parents[x]|)
    ensures Pending(g, tape[..|tape| - 1], grads, loss)
  {
    hide WellFormed, Carried, PathSum, ParentSum, Topological;
    var front, x := tape[..|tape| - 1], tape[|tape| - 1];
    forall v | v in front ensures Carried(g, front, grads, v) == PathSum(g, loss, v) {
      assert v in tape && v != x;
      CarriedStep(g, tape, grads0, v);
      PathSumStep(g, x, v);
    }
  }

  lemma CarriedStep(g: Graph, tape: seq<nat>, grads: map<nat, real>, v: nat)
    requires WellFormed(g) && tape != [] && forall i :: 0 <= i < |tape| ==> tape[i] < |g.parents| && tape[i] in grads
    ensures var front, x := tape[..|tape| - 1], tape[|tape| - 1];
            Carried(g, tape, grads, v) == Carried(g, front, grads, v) + grads[x] * PathSum(g, x, v)
  {
  }

  lemma PathSumStep(g: Graph, x: nat, v: nat)
    requires WellFormed(g) && x < |g.parents| && x != v
    ensures PathSum(g, x, v) == ParentSum(g, x, v, |g.parents[x]|)
  {
  }

  lemma FrontTopological(g: Graph, tape: seq<nat>)
    requires WellFormed(g) && Topological(g, tape) && tape != []
    ensures var front, x := tape[..|tape| - 1], tape[|tape| - 1];
            && Topological(g, front) && x !in front && (forall v :: v in tape <==> v in front || v == x)
            && forall k :: 0 <= k < |g.parents[x]| ==> g.parents[x][k] in front
  {
    var front, x := tape[..|tape| - 1], tape[|tape| - 1];
    assert tape == front + [x];
    forall i, k | 0 <= i < |front| && 0 <= k < |g.parents[front[i]]| ensures g.parents[front[i]][k] in front[..i] {
      assert front[..i] == tape[..i] && front[i] == tape[i];
    }
  }
}

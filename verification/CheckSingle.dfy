/** The backtracking search for a linearization of one partition. */
module CheckSingle {
  import opened Wrappers
  import opened Linearizability
  import opened Entries
  import opened LinkedEntries
  import opened Sequences
  import opened LiveList
  import opened Search
  import opened SearchInvariant

  // ---- The cache: configurations in buckets by the hash of their operation set ----

  type Cache<!S> = map<nat, seq<Config<S>>>

  ghost function Cached<S(!new)>(cache: Cache<S>): set<Config<S>> {
    set h, c | h in cache && c in cache[h] :: c
  }

  ghost predicate Bucketed<S>(hash: set<nat> -> nat, cache: Cache<S>) {
    forall h, c :: h in cache && c in cache[h] ==> hash(c.done) == h
  }

  function AddToCache<S>(hash: set<nat> -> nat, cache: Cache<S>, c: Config<S>): Cache<S> {
    var h := hash(c.done);
    cache[h := (if h in cache then cache[h] else []) + [c]]
  }

  lemma AddToCacheMeaning<S(!new)>(hash: set<nat> -> nat, cache: Cache<S>, c: Config<S>)
    requires Bucketed(hash, cache)
    ensures Bucketed(hash, AddToCache(hash, cache, c))
    ensures Cached(AddToCache(hash, cache, c)) == Cached(cache) + {c}
  {
    var after := AddToCache(hash, cache, c);
    forall x ensures x in Cached(after) <==> x in Cached(cache) || x == c {
      var h := hash(x.done);
      assert x in Cached(after) <==> h in after && x in after[h];
      assert x in Cached(cache) <==> h in cache && x in cache[h];
    }
  }

  /** Only the bucket of the configuration's own hash is searched, and that is enough. */
  method CacheContains<S(==, !new)>(hash: set<nat> -> nat, cache: Cache<S>, c: Config<S>) returns (found: bool)
    requires Bucketed(hash, cache)
    ensures found <==> c in Cached(cache)
  {
    var h := hash(c.done);
    assert c in Cached(cache) <==> h in cache && c in cache[h];
    if h !in cache {
      return false;
    }
    var bucket := cache[h];
    for k := 0 to |bucket|
      invariant c !in bucket[..k]
    {
      if c == bucket[k] {
        return true;
      }
    }
    return false;
  }

  // ---- The longest partial linearization recorded for each operation ----

  /** Every record is a partial linearization that contains its operation. */
  ghost predicate RecordsLegal<S, I, O>(m: Model<S, I, O>, ops: seq<Operation<I, O>>, longest: seq<Option<seq<nat>>>) {
    |longest| == |ops| &&
    forall i :: 0 <= i < |longest| && longest[i].Some? ==> Partial(m, ops, longest[i].value) && i in longest[i].value
  }

  /** For every popped configuration, each of its operations has a record at least as long. */
  ghost predicate RecordsCover<S, I, O>(ops: seq<Operation<I, O>>, longest: seq<Option<seq<nat>>>, D: set<Config<S>>) {
    |longest| == |ops| &&
    forall c, i: nat :: c in D && i in c.done && i < |ops| ==> longest[i].Some? && |c.done| <= |longest[i].value|
  }

  function Lengthen(longest: seq<Option<seq<nat>>>, p: seq<nat>): (r: seq<Option<seq<nat>>>)
    ensures |r| == |longest|
  {
    seq(|longest|, i requires 0 <= i < |longest| =>
      if i in p && (longest[i].None? || |p| > |longest[i].value|) then Some(p) else longest[i])
  }

  method UpdateLongest(longest: array<Option<seq<nat>>>, p: seq<nat>)
    requires InRange(p, longest.Length)
    modifies longest
    ensures longest[..] == Lengthen(old(longest[..]), p)
  {
    ghost var was := longest[..];
    for k := 0 to |p|
      invariant forall i :: 0 <= i < longest.Length ==>
        longest[i] == if i in p[..k] && (was[i].None? || |p| > |was[i].value|) then Some(p) else was[i]
    {
      var id := p[k];
      assert p[..k + 1] == p[..k] + [id];
      if longest[id].None? || |p| > |longest[id].value| {
        longest[id] := Some(p);
      }
    }
    assert p[..|p|] == p;
  }

  lemma LengthenKeeps<S, I, O>(m: Model<S, I, O>, ops: seq<Operation<I, O>>, longest: seq<Option<seq<nat>>>,
                               p: seq<nat>, D: set<Config<S>>)
    requires Partial(m, ops, p)
    requires RecordsLegal(m, ops, longest) && RecordsCover(ops, longest, D)
    ensures RecordsLegal(m, ops, Lengthen(longest, p))
    ensures RecordsCover(ops, Lengthen(longest, p), D + {ConfigOf(m, ops, p)})
  {
    PartialDistinct(m, ops, p);
  }

  /** Each operation's record is a partial linearization containing it of the greatest length
      among all of them, and there is a record if there is any such partial linearization. */
  ghost predicate RecordsLongest<S, I, O>(m: Model<S, I, O>, ops: seq<Operation<I, O>>,
                                          longest: seq<Option<seq<nat>>>) {
    && |longest| == |ops|
    && (forall i :: 0 <= i < |ops| && longest[i].Some? ==>
          IsPartialLinearization(m, ops, longest[i].value) && i in longest[i].value)
    && (forall i, p: seq<nat> :: 0 <= i < |ops| && IsPartialLinearization(m, ops, p) && i in p ==>
          longest[i].Some? && |p| <= |longest[i].value|)
  }

  lemma CoveredRecordsAreLongest<S(!new), I, O>(m: Model<S, I, O>, ops: seq<Operation<I, O>>,
                                                longest: seq<Option<seq<nat>>>, D: set<Config<S>>)
    requires WellTimed(ops)
    requires RecordsLegal(m, ops, longest) && RecordsCover(ops, longest, D)
    requires forall p: seq<nat> :: Partial(m, ops, p) && p != [] ==> ConfigOf(m, ops, p) in D
    ensures RecordsLongest(m, ops, longest)
  {
    forall i | 0 <= i < |ops| && longest[i].Some? ensures IsPartialLinearization(m, ops, longest[i].value) {
      PartialMeaning(m, ops, longest[i].value);
    }
    forall i, p: seq<nat> | 0 <= i < |ops| && IsPartialLinearization(m, ops, p) && i in p
      ensures longest[i].Some? && |p| <= |longest[i].value|
    {
      PartialMeaning(m, ops, p);
      PartialDistinct(m, ops, p);
    }
  }

  lemma CompleteRecordsAreLongest<S(!new), I, O>(m: Model<S, I, O>, ops: seq<Operation<I, O>>,
                                                 longest: seq<Option<seq<nat>>>, p: seq<nat>)
    requires WellTimed(ops)
    requires Partial(m, ops, p) && |p| == |ops|
    requires |longest| == |ops| && forall i :: 0 <= i < |ops| ==> longest[i] == Some(p)
    ensures RecordsLongest(m, ops, longest)
  {
    PartialMeaning(m, ops, p);
    PartialShort(m, ops, p);
    forall i, q: seq<nat> | 0 <= i < |ops| && IsPartialLinearization(m, ops, q) && i in q
      ensures |q| <= |p|
    {
      PartialMeaning(m, ops, q);
      PartialShort(m, ops, q);
    }
    forall i: nat | i < |ops| ensures i in p { assert i in Elems(p); }
  }

  // ---- The list with a stack of lifted pairs ----

  /** The positions of operation i's call and return in the live list of `done`. */
  ghost function CallIndex<I, O>(t: Layout<I, O>, done: set<nat>, i: nat): nat
    requires t.Valid() && i < |t.ops| && i !in done
  {
    t.PairFacts(i);
    LiveWithout(t.es, done, i, t.cp[i], t.rp[i]);
    1 + IndexOf(t.Live(done), t.cp[i])
  }

  ghost function ReturnIndex<I, O>(t: Layout<I, O>, done: set<nat>, i: nat): nat
    requires t.Valid() && i < |t.ops| && i !in done
  {
    t.PairFacts(i);
    LiveWithout(t.es, done, i, t.cp[i], t.rp[i]);
    1 + IndexOf(t.Live(done), t.rp[i])
  }

  lemma PairIndices<I, O>(t: Layout<I, O>, done: set<nat>, i: nat)
    requires t.Valid() && i < |t.ops| && i !in done
    ensures t.Shaped() && |t.cp| == |t.rp| == |t.ops| && t.cp[i] < |t.nodes| && t.rp[i] < |t.nodes|
    ensures t.nodes[t.cp[i]].matching == t.nodes[t.rp[i]]
    ensures var c, a, b := t.Chain(done), CallIndex(t, done, i), ReturnIndex(t, done, i);
            && NoRepeats(c)
            && 0 < a < b < |c| && c[a] == t.nodes[t.cp[i]] && c[b] == t.nodes[t.rp[i]]
            && Without(c, a, b) == t.Chain(done + {i})
  {
    hide Timeline, Represents, LiveFrom, Without;
    ShapedOf(t);
    t.PairFacts(i);
    LiveWithout(t.es, done, i, t.cp[i], t.rp[i]);
    var live := t.Live(done);
    var a, b := IndexOf(live, t.cp[i]), IndexOf(live, t.rp[i]);
    ChainWithout(t.head, t.nodes, live, a, b, t.Live(done + {i}));
    ChainNoRepeats(t.head, t.nodes, live);
  }

  /** The pair of operation i was lifted out of the live list of `done`. */
  ghost predicate OnShelf<I, O>(t: Layout<I, O>, done: set<nat>, i: nat)
    requires t.Valid() && i < |t.ops| && i !in done
    reads t.nodes[t.cp[i]], t.nodes[t.rp[i]]
  {
    PairIndices(t, done, i);
    Lifted(t.Chain(done), CallIndex(t, done, i), ReturnIndex(t, done, i))
  }

  /** Every pair of p, lifted in that order, can be put back in reverse order. */
  ghost predicate AllOnShelf<I, O>(t: Layout<I, O>, p: seq<nat>)
    requires t.Valid() && InRange(p, |t.ops|)
    reads t.nodes
  {
    forall k :: 0 <= k < |p| ==> p[k] !in Elems(p[..k]) && OnShelf(t, Elems(p[..k]), p[k])
  }

  /** The list is the live list after lifting the pairs of p in order. */
  ghost predicate Shelved<I, O>(t: Layout<I, O>, p: seq<nat>)
    reads t.head, t.nodes
  {
    && t.Valid() && InRange(p, |t.ops|) && NoRepeats(p)
    && Linked(t.Chain(Elems(p)))
    && AllOnShelf(t, p)
  }

  lemma AllOnShelfAppend<I, O>(t: Layout<I, O>, p: seq<nat>)
    requires t.Valid() && InRange(p, |t.ops|) && p != []
    ensures var front, i := p[..|p| - 1], p[|p| - 1];
            AllOnShelf(t, p) <==> AllOnShelf(t, front) && i !in front && OnShelf(t, Elems(front), i)
  {
    hide Layout.Valid, OnShelf;
    var front := p[..|p| - 1];
    assert forall k :: 0 <= k < |front| ==> front[..k] == p[..k] && front[k] == p[k];
  }

  /** The nodes of a lifted pair are not in the live list. */
  lemma OffChain<I, O>(t: Layout<I, O>, done: set<nat>, i: nat)
    requires t.Valid() && i < |t.ops| && i in done
    ensures t.Shaped() && |t.cp| == |t.rp| == |t.ops| && t.cp[i] < |t.nodes| && t.rp[i] < |t.nodes|
    ensures t.nodes[t.cp[i]] !in t.Chain(done) && t.nodes[t.rp[i]] !in t.Chain(done)
  {
    t.PairFacts(i);
    ChainMembers(t.head, t.nodes, t.Live(done), t.cp[i]);
    ChainMembers(t.head, t.nodes, t.Live(done), t.rp[i]);
  }

  method LiftOperation<I, O>(entry: Node<I, O>, ghost t: Layout<I, O>, ghost done: set<nat>, ghost i: nat)
    requires t.Valid() && i < |t.ops| && i !in done && entry == t.nodes[t.cp[i]]
    requires Linked(t.Chain(done))
    modifies t.Chain(done)
    ensures Linked(t.Chain(done + {i})) && OnShelf(t, done, i)
    ensures t.head.prev == old(t.head.prev)
  {
    PairIndices(t, done, i);
    hide Layout.Valid, Linked, NoRepeats;
    Lift(entry, t.Chain(done), CallIndex(t, done, i), ReturnIndex(t, done, i));
  }

  method UnliftOperation<I, O>(entry: Node<I, O>, ghost t: Layout<I, O>, ghost done: set<nat>, ghost i: nat)
    requires t.Valid() && i < |t.ops| && i !in done && entry == t.nodes[t.cp[i]]
    requires Linked(t.Chain(done + {i})) && OnShelf(t, done, i)
    modifies t.Chain(done)
    ensures Linked(t.Chain(done))
    ensures t.head.prev == old(t.head.prev)
  {
    PairIndices(t, done, i);
    hide Layout.Valid, Linked, NoRepeats;
    Unlift(entry, t.Chain(done), CallIndex(t, done, i), ReturnIndex(t, done, i));
  }

  /** Changing the live list of `done` leaves the pairs lifted before untouched. */
  lemma ShelfOffChain<I, O>(t: Layout<I, O>, p: seq<nat>, done: set<nat>)
    requires t.Valid() && InRange(p, |t.ops|) && Elems(p) <= done
    ensures |t.cp| == |t.rp| == |t.ops|
    ensures forall k :: 0 <= k < |p| ==>
      t.cp[p[k]] < |t.nodes| && t.rp[p[k]] < |t.nodes| &&
      t.nodes[t.cp[p[k]]] !in t.Chain(done) && t.nodes[t.rp[p[k]]] !in t.Chain(done)
  {
    forall k | 0 <= k < |p| ensures t.nodes[t.cp[p[k]]] !in t.Chain(done) && t.nodes[t.rp[p[k]]] !in t.Chain(done) {
      assert p[k] in Elems(p);
      OffChain(t, done, p[k]);
    }
  }

  method LiftPair<I, O>(entry: Node<I, O>, ghost t: Layout<I, O>, ghost p: seq<nat>, ghost i: nat)
    requires Shelved(t, p) && i < |t.ops| && i !in p && entry == t.nodes[t.cp[i]]
    modifies t.Chain(Elems(p))
    ensures Shelved(t, p + [i])
    ensures t.head.prev == old(t.head.prev)
  {
    hide Layout.Valid, Linked, NoRepeats, Layout.Chain, Lifted, CallIndex, ReturnIndex;
    ShelfOffChain(t, p, Elems(p));
    AppendFront(p, i);
    AppendShape(p + [i]);
    LiftOperation(entry, t, Elems(p), i);
    assert AllOnShelf(t, p);
    AllOnShelfAppend(t, p + [i]);
  }

  method UnliftPair<I, O>(entry: Node<I, O>, ghost t: Layout<I, O>, ghost p: seq<nat>)
    requires Shelved(t, p) && p != [] && entry == t.nodes[t.cp[p[|p| - 1]]]
    modifies t.Chain(Elems(p[..|p| - 1]))
    ensures Shelved(t, p[..|p| - 1])
    ensures t.head.prev == old(t.head.prev)
  {
    hide Layout.Valid, Linked, NoRepeats, Layout.Chain, Lifted, CallIndex, ReturnIndex, Elems;
    ghost var front := p[..|p| - 1];
    AppendShape(p);
    ShelfOffChain(t, front, Elems(front));
    AllOnShelfAppend(t, p);
    UnliftOperation(entry, t, Elems(front), p[|p| - 1]);
    assert AllOnShelf(t, front);
  }

  // ---- The search loop ----

  datatype CallsEntry<S, I, O> = CallsEntry(entry: Node<I, O>, state: S)

  /** The stack of calls spells the path p, with the state before each step. */
  ghost predicate Spells<S, I, O>(m: Model<S, I, O>, t: Layout<I, O>, calls: seq<CallsEntry<S, I, O>>, p: seq<nat>) {
    && InRange(p, |t.ops|) && |calls| == |p| && |t.cp| == |t.ops|
    && forall k :: 0 <= k < |p| ==>
         && t.cp[p[k]] < |t.nodes| && calls[k].entry == t.nodes[t.cp[p[k]]] && calls[k].entry.id == p[k]
         && calls[k].state == ConfigOf(m, t.ops, p[..k]).state
  }

  lemma SpellsAppend<S, I, O>(m: Model<S, I, O>, t: Layout<I, O>, calls: seq<CallsEntry<S, I, O>>, p: seq<nat>,
                              e: CallsEntry<S, I, O>)
    requires Spells(m, t, calls, p) && t.Valid() && 0 <= e.entry.id < |t.ops|
    requires e.entry == t.nodes[t.cp[e.entry.id]] && e.state == ConfigOf(m, t.ops, p).state
    ensures Spells(m, t, calls + [e], p + [e.entry.id])
  {
    var q := p + [e.entry.id];
    assert forall k :: 0 <= k < |p| ==> q[..k] == p[..k];
    assert q[..|p|] == p;
    t.PairFacts(e.entry.id);
  }

  lemma SpellsFront<S, I, O>(m: Model<S, I, O>, t: Layout<I, O>, calls: seq<CallsEntry<S, I, O>>, p: seq<nat>)
    requires Spells(m, t, calls, p) && p != []
    ensures Spells(m, t, calls[..|calls| - 1], p[..|p| - 1])
    ensures var top, x := calls[|calls| - 1], p[|p| - 1];
            top.entry == t.nodes[t.cp[x]] && top.entry.id == x && top.state == ConfigOf(m, t.ops, p[..|p| - 1]).state
  {
    var front, n := p[..|p| - 1], |p| - 1;
    assert forall k :: 0 <= k < |front| ==> front[..k] == p[..k];
    assert calls[n].entry == t.nodes[t.cp[p[n]]] && calls[n].state == ConfigOf(m, t.ops, p[..n]).state;
  }

  /** The ids along the stack of calls. */
  function CallIds<S, I, O>(calls: seq<CallsEntry<S, I, O>>): seq<nat>
    requires forall k :: 0 <= k < |calls| ==> calls[k].entry.id >= 0
  {
    seq(|calls|, k requires 0 <= k < |calls| => calls[k].entry.id as nat)
  }

  lemma CallIdsSpell<S, I, O>(m: Model<S, I, O>, t: Layout<I, O>, calls: seq<CallsEntry<S, I, O>>, p: seq<nat>)
    requires Spells(m, t, calls, p)
    ensures forall k :: 0 <= k < |calls| ==> calls[k].entry.id >= 0
    ensures CallIds(calls) == p
  {
  }

  /** Everything the loop keeps, apart from the records of longest linearizations. */
  ghost predicate LoopInvariant<S(!new), I, O>(m: Model<S, I, O>, hash: set<nat> -> nat, t: Layout<I, O>,
                                               p: seq<nat>, at: nat, D: set<Config<S>>, cache: Cache<S>,
                                               calls: seq<CallsEntry<S, I, O>>, state: S, linearized: set<nat>,
                                               entry: Node?<I, O>)
    reads t.head, t.nodes
  {
    && Searching(m, t.ops, t.es, t.cp, t.rp, p, at, D, Cached(cache))
    && Bucketed(hash, cache)
    && Shelved(t, p)
    && Spells(m, t, calls, p)
    && ConfigOf(m, t.ops, p) == Config(linearized, state)
    && entry == At(t.nodes, at)
  }

  /** What the search reads off the node under the cursor. */
  lemma CursorNode<S(!new), I, O>(m: Model<S, I, O>, t: Layout<I, O>, p: seq<nat>, at: nat, D: set<Config<S>>,
                                  cached: set<Config<S>>)
    requires Searching(m, t.ops, t.es, t.cp, t.rp, p, at, D, cached) && Shelved(t, p)
    requires t.head.next != null
    ensures at < |t.es| == |t.nodes| && t.es[at].id < |t.ops| == |t.cp| && t.es[at].id !in p
    ensures var n, e := t.nodes[at], t.es[at];
            && n.id == e.id && (n.matching != null <==> e.kind == CallEntry)
            && (e.kind == CallEntry ==>
                  at == t.cp[e.id] && n.value == Input(t.ops[e.id].input) &&
                  n.matching.value == Output(t.ops[e.id].output))
  {
    t.FirstNode(Elems(p));
    CursorInside(t.ops, t.es, t.cp, t.rp, p, at);
    var i := t.es[at].id;
    t.PairFacts(i);
    assert CarriedFrom(t.nodes, t.es, t.rp, 0, at);
  }

  lemma CursorInside<I, O>(ops: seq<Operation<I, O>>, es: seq<Entry<I, O>>, cp: seq<nat>, rp: seq<nat>, p: seq<nat>,
                           at: nat)
    requires Timeline(ops, es, cp, rp) && CursorAt(es, p, at)
    requires NextLive(es, Elems(p), 0) < |es|
    ensures at < |es|
  {
    var k := NextLive(es, Elems(p), 0);
    var i := es[k].id;
    assert es[rp[i]] == ReturnOf(ops, i);
  }

  /** With no live entry left the path orders every operation. */
  lemma EmptyListIsComplete<S(!new), I, O>(m: Model<S, I, O>, t: Layout<I, O>, p: seq<nat>, at: nat, D: set<Config<S>>,
                                           cached: set<Config<S>>)
    requires Searching(m, t.ops, t.es, t.cp, t.rp, p, at, D, cached) && Shelved(t, p)
    requires t.head.next == null
    ensures |p| == |t.ops|
  {
    t.FirstNode(Elems(p));
    AllDone(t.ops, t.es, t.cp, t.rp, Elems(p));
    hide Timeline, Represents, Linked;
    PartialShort(m, t.ops, p);
  }

  lemma AllDone<I, O>(ops: seq<Operation<I, O>>, es: seq<Entry<I, O>>, cp: seq<nat>, rp: seq<nat>, done: set<nat>)
    requires Timeline(ops, es, cp, rp) && NextLive(es, done, 0) == |es|
    ensures forall i: nat :: i < |ops| ==> i in done
  {
    forall i: nat | i < |ops| ensures i in done {
      assert es[cp[i]] == CallOf(ops, i);
    }
  }

  /** Caching a new reachable configuration uses up one of finitely many. */
  lemma CacheProgress<T>(reach: set<T>, cached: set<T>, c: T)
    requires c !in cached && cached + {c} <= reach
    ensures |reach - (cached + {c})| < |reach - cached|
  {
    assert reach - cached == (reach - (cached + {c})) + {c};
  }

  lemma LoopStarts<S(!new), I, O>(m: Model<S, I, O>, hash: set<nat> -> nat, t: Layout<I, O>, entry: Node?<I, O>)
    requires t.Valid() && t.Shaped() && Linked(t.Chain({})) && entry == At(t.nodes, 0)
    ensures LoopInvariant(m, hash, t, [], 0, {}, map[], [], m.init, {}, entry)
  {
    assert Elems<nat>([]) == {};
    assert Cached<S>(map[]) == {};
  }

  /** What the loop body may use about the node under the cursor and the stack. */
  lemma OpenInvariant<S(!new), I, O>(m: Model<S, I, O>, hash: set<nat> -> nat, t: Layout<I, O>,
                                     p: seq<nat>, at: nat, D: set<Config<S>>, cache: Cache<S>,
                                     calls: seq<CallsEntry<S, I, O>>, state: S, linearized: set<nat>,
                                     entry: Node?<I, O>)
    requires LoopInvariant(m, hash, t, p, at, D, cache, calls, state, linearized, entry) && t.head.next != null
    ensures at < |t.es| && entry != null && Bucketed(hash, cache)
    ensures var e := t.es[at];
            && entry.id == e.id < |t.ops| && (entry.matching != null <==> e.kind == CallEntry)
            && (e.kind == CallEntry ==>
              entry.value == Input(t.ops[e.id].input) && entry.matching.value == Output(t.ops[e.id].output))
  {
    CursorNode(m, t, p, at, D, Cached(cache));
  }

  lemma EnterTurn<S(!new), I, O>(m: Model<S, I, O>, hash: set<nat> -> nat, t: Layout<I, O>,
                                 p: seq<nat>, at: nat, D: set<Config<S>>, cache: Cache<S>,
                                 calls: seq<CallsEntry<S, I, O>>, state: S, linearized: set<nat>, entry: Node<I, O>,
                                 next: Config<S>)
    requires LoopInvariant(m, hash, t, p, at, D, cache, calls, state, linearized, entry) && t.head.next != null
    requires at < |t.es| && t.es[at].kind == CallEntry && t.es[at].id < |t.ops|
    requires var o := t.ops[t.es[at].id];
             m.step(state, o.input, o.output) == (true, next.state) && next.done == linearized + {t.es[at].id} &&
               next !in Cached(cache)
    ensures var i := t.es[at].id;
            && Shelved(t, p) && i !in p && |t.cp| == |t.ops| && t.cp[i] < |t.nodes| && entry == t.nodes[t.cp[i]]
            && InRange(p + [i], |t.ops|) && ConfigOf(m, t.ops, p + [i]) == next
            && Searching(m, t.ops, t.es, t.cp, t.rp, p + [i], NextLive(t.es, Elems(p + [i]), 0), D,
              Cached(AddToCache(hash, cache, next)))
            && Bucketed(hash, AddToCache(hash, cache, next))
            && Spells(m, t, calls + [CallsEntry(entry, state)], p + [i])
    ensures |Reach(m, t.ops, |t.ops|) - Cached(AddToCache(hash, cache, next))| <
      |Reach(m, t.ops, |t.ops|) - Cached(cache)|
  {
    hide Searching, Timeline, Represents, Shelved, NextLive, Cached, AddToCache, Bucketed, Reach, Linked, Spells,
      ConfigOf;
    var i := t.es[at].id;
    CursorNode(m, t, p, at, D, Cached(cache));
    StepAtCursor(m, t.ops, t.es, t.cp, t.rp, p, at, D, Cached(cache), next);
    EnterKeeps(m, t.ops, t.es, t.cp, t.rp, p, at, D, Cached(cache));
    AddToCacheMeaning(hash, cache, next);
    ShelvedValid(t, p);
    t.PairFacts(i);
    SearchingReaches(m, t.ops, t.es, t.cp, t.rp, p + [i], NextLive(t.es, Elems(p + [i]), 0), D,
      Cached(AddToCache(hash, cache, next)));
    CacheProgress(Reach(m, t.ops, |t.ops|), Cached(cache), next);
    SpellsAppend(m, t, calls, p, CallsEntry(entry, state));
  }

  /** An accepted step of the call under the cursor is a step of the search. */
  lemma StepAtCursor<S(!new), I, O>(m: Model<S, I, O>, ops: seq<Operation<I, O>>, es: seq<Entry<I, O>>, cp: seq<nat>,
                                    rp: seq<nat>,
                                    p: seq<nat>, at: nat, D: set<Config<S>>, cached: set<Config<S>>, next: Config<S>)
    requires Searching(m, ops, es, cp, rp, p, at, D, cached) && at < |es| && es[at].kind == CallEntry
    requires es[at].id < |ops|
    requires var o, c := ops[es[at].id], ConfigOf(m, ops, p);
             m.step(c.state, o.input, o.output) == (true, next.state) && next.done == c.done + {es[at].id}
    ensures CanStep(m, ops, ConfigOf(m, ops, p), es[at].id)
    ensures InRange(p + [es[at].id], |ops|) && ConfigOf(m, ops, p + [es[at].id]) == next
    ensures es[at].id !in p
  {
    hide PathExplored, DeadEnds, PathConfigs, Explored, Reach;
    AppendFront(p, es[at].id);
    EnabledAtCursor(ops, es, cp, rp, p, at);
    PartialDistinct(m, ops, p);
  }

  lemma SearchingReaches<S(!new), I, O>(m: Model<S, I, O>, ops: seq<Operation<I, O>>, es: seq<Entry<I, O>>,
                                        cp: seq<nat>, rp: seq<nat>,
                                        p: seq<nat>, at: nat, D: set<Config<S>>, cached: set<Config<S>>)
    requires Searching(m, ops, es, cp, rp, p, at, D, cached)
    ensures cached <= Reach(m, ops, |ops|)
  {
  }

  lemma ShelvedValid<I, O>(t: Layout<I, O>, p: seq<nat>)
    requires Shelved(t, p)
    ensures t.Valid()
  {
  }

  lemma SkipTurn<S(!new), I, O>(m: Model<S, I, O>, hash: set<nat> -> nat, t: Layout<I, O>,
                                p: seq<nat>, at: nat, D: set<Config<S>>, cache: Cache<S>,
                                calls: seq<CallsEntry<S, I, O>>, state: S, linearized: set<nat>, entry: Node<I, O>)
    requires LoopInvariant(m, hash, t, p, at, D, cache, calls, state, linearized, entry) && t.head.next != null
    requires at < |t.es| && t.es[at].kind == CallEntry && t.es[at].id < |t.ops|
    requires var o := t.ops[t.es[at].id]; var (ok, s) := m.step(state, o.input, o.output);
             ok ==> Config(linearized + {t.es[at].id}, s) in Cached(cache)
    ensures LoopInvariant(m, hash, t, p, NextLive(t.es, Elems(p), at + 1), D, cache, calls, state, linearized,
      entry.next)
  {
    hide Searching, Timeline, Represents, Linked, Spells, ConfigOf, AllOnShelf, NextLive, Cached, Bucketed;
    CursorNode(m, t, p, at, D, Cached(cache));
    SkipKeeps(m, t.ops, t.es, t.cp, t.rp, p, at, D, Cached(cache));
    NextOfShelved(t, p, at);
  }

  lemma FirstOfShelved<I, O>(t: Layout<I, O>, p: seq<nat>)
    requires Shelved(t, p)
    ensures t.head.next == At(t.nodes, NextLive(t.es, Elems(p), 0))
  {
    hide Timeline, Represents;
    ShapedOf(t);
    t.FirstNode(Elems(p));
  }

  lemma NextOfShelved<I, O>(t: Layout<I, O>, p: seq<nat>, at: nat)
    requires Shelved(t, p) && at < |t.es| && t.es[at].id !in Elems(p)
    ensures at < |t.nodes| && t.nodes[at].next == At(t.nodes, NextLive(t.es, Elems(p), at + 1))
  {
    hide Timeline, Linked;
    ShapedOf(t);
    t.NextNode(Elems(p), at);
  }

  lemma ShapedOf<I, O>(t: Layout<I, O>)
    requires t.Valid()
    ensures t.Shaped() && |t.cp| == |t.rp| == |t.ops| && |t.nodes| == |t.es|
  {
  }

  lemma PopTurn<S(!new), I, O>(m: Model<S, I, O>, hash: set<nat> -> nat, t: Layout<I, O>,
                               p: seq<nat>, at: nat, D: set<Config<S>>, cache: Cache<S>,
                               calls: seq<CallsEntry<S, I, O>>, state: S, linearized: set<nat>, entry: Node<I, O>)
    requires LoopInvariant(m, hash, t, p, at, D, cache, calls, state, linearized, entry)
    requires at < |t.es| && t.es[at].kind == ReturnEntry && calls != []
    ensures |calls| == |p| && Shelved(t, p) && |t.cp| == |t.ops| == |t.rp| && InRange(p, |t.ops|)
    ensures var front, x, top := p[..|p| - 1], p[|p| - 1], calls[|calls| - 1];
            && t.cp[x] < |t.es| == |t.nodes| && t.es[t.cp[x]].id == x && x !in Elems(front)
            && top.entry == t.nodes[t.cp[x]] && top.entry.id == x
            && Searching(m, t.ops, t.es, t.cp, t.rp, front, NextLive(t.es, Elems(front), t.cp[x] + 1),
              D + {ConfigOf(m, t.ops, p)}, Cached(cache))
            && Bucketed(hash, cache)
            && Spells(m, t, calls[..|calls| - 1], front)
            && ConfigOf(m, t.ops, front) == Config(linearized - {x}, top.state)
  {
    hide Timeline, Represents, Linked, AllOnShelf, NextLive, Cached, Bucketed, Reach, PathExplored, Explored, DeadEnds;
    var front, x := p[..|p| - 1], p[|p| - 1];
    PopKeeps(m, t.ops, t.es, t.cp, t.rp, p, at, D, Cached(cache));
    SpellsFront(m, t, calls, p);
    AppendShape(p);
    ShapedOf(t);
    t.PairFacts(x);
    PartialDistinct(m, t.ops, p);
    PartialDistinct(m, t.ops, front);
  }

  lemma RecordTurn<S(!new), I, O>(m: Model<S, I, O>, hash: set<nat> -> nat, t: Layout<I, O>,
                                  p: seq<nat>, at: nat, D: set<Config<S>>, cache: Cache<S>,
                                  calls: seq<CallsEntry<S, I, O>>, state: S, linearized: set<nat>, entry: Node<I, O>,
                                  longest: seq<Option<seq<nat>>>)
    requires LoopInvariant(m, hash, t, p, at, D, cache, calls, state, linearized, entry)
    requires RecordsLegal(m, t.ops, longest) && RecordsCover(t.ops, longest, D)
    ensures (forall k :: 0 <= k < |calls| ==> calls[k].entry.id >= 0) && CallIds(calls) == p && InRange(p, |t.ops|)
    ensures RecordsLegal(m, t.ops, Lengthen(longest, p))
    ensures RecordsCover(t.ops, Lengthen(longest, p), D + {ConfigOf(m, t.ops, p)})
  {
    hide Timeline, Represents, Linked, AllOnShelf, Bucketed, PathExplored, Explored, DeadEnds, RecordsLegal,
      RecordsCover;
    CallIdsSpell(m, t, calls, p);
    LengthenKeeps(m, t.ops, longest, p, D);
  }

  lemma FailTurn<S(!new), I(!new), O(!new)>(m: Model<S, I, O>, hash: set<nat> -> nat, t: Layout<I, O>,
                                p: seq<nat>, at: nat, D: set<Config<S>>, cache: Cache<S>,
                                state: S, linearized: set<nat>, entry: Node<I, O>, longest: seq<Option<seq<nat>>>)
    requires WellTimed(t.ops)
    requires LoopInvariant(m, hash, t, p, at, D, cache, [], state, linearized, entry)
    requires at < |t.es| && t.es[at].kind == ReturnEntry
    ensures !Linearizable(m, t.ops)
    ensures RecordsLegal(m, t.ops, longest) && RecordsCover(t.ops, longest, D) ==> RecordsLongest(m, t.ops, longest)
  {
    hide Timeline, Represents, Linked, AllOnShelf, Bucketed, PathExplored, Explored, DeadEnds, RecordsLegal,
      RecordsCover, RecordsLongest;
    assert p == [];
    FailedSearchIsExhaustive(m, t.ops, t.es, t.cp, t.rp, at, D, Cached(cache));
    if RecordsLegal(m, t.ops, longest) && RecordsCover(t.ops, longest, D) {
      CoveredRecordsAreLongest(m, t.ops, longest, D);
    }
  }

  /** The list holds no other nodes than the head and the entries' nodes. */
  lemma ChainWithin<I, O>(t: Layout<I, O>, done: set<nat>)
    requires t.Valid()
    ensures t.Shaped() && forall k :: 0 <= k < |t.Chain(done)| ==>
      t.Chain(done)[k] == t.head || t.Chain(done)[k] in t.nodes
  {
    hide Timeline;
    ShapedOf(t);
  }

  /** The last loop of checkSingle: the full linearization is the longest for every operation. */
  method RecordEverywhere(longest: array<Option<seq<nat>>>, s: seq<nat>)
    modifies longest
    ensures forall k :: 0 <= k < longest.Length ==> longest[k] == Some(s)
  {
    for i := 0 to longest.Length
      invariant forall k :: 0 <= k < i ==> longest[k] == Some(s)
    {
      longest[i] := Some(s);
    }
  }

  /** The main loop of checkSingle. p, at and D exist only for the proof. */
  method RunSearch<S(==, !new), I(!new), O(!new)>(m: Model<S, I, O>, hash: set<nat> -> nat, computePartial: bool,
                                                  headEntry: Node<I, O>, first: Node?<I, O>,
                                                  longest: array<Option<seq<nat>>>, ghost t: Layout<I, O>)
    returns (ok: bool)
    requires WellTimed(t.ops) && t.Valid() && t.head == headEntry
    requires t.Shaped() && Linked(t.Chain({})) && first == At(t.nodes, 0)
    requires longest.Length == |t.ops| && forall i :: 0 <= i < longest.Length ==> longest[i].None?
    modifies headEntry, t.nodes, longest
    ensures ok <==> Linearizable(m, t.ops)
    ensures ok || computePartial ==> RecordsLongest(m, t.ops, longest[..])
  {
    hide Searching, Timeline, Represents, Linked, Shelved, Spells, Bucketed, Cached, AddToCache, ConfigOf, NextLive,
      Reach, RecordsLegal, RecordsCover, RecordsLongest, Lengthen, Linearizable, Layout.Valid, Layout.Chain, NoRepeats,
      WellTimed;
    var entry, state, linearized := first, m.init, {};
    var cache: Cache<S> := map[];
    var calls: seq<CallsEntry<S, I, O>> := [];
    ghost var p: seq<nat>, at: nat, D: set<Config<S>> := [], 0, {};
    LoopStarts(m, hash, t, entry);
    RecordsStart(m, t.ops, longest[..]);
    while headEntry.next != null
      invariant LoopInvariant(m, hash, t, p, at, D, cache, calls, state, linearized, entry)
      invariant computePartial ==> RecordsLegal(m, t.ops, longest[..]) && RecordsCover(t.ops, longest[..], D)
      decreases |Reach(m, t.ops, |t.ops|) - Cached(cache)|, |calls|, |t.es| - at
    {
      OpenInvariant(m, hash, t, p, at, D, cache, calls, state, linearized, entry);
      if entry.matching != null {
        var matching := entry.matching;
        var (accepted, newState) := m.step(state, entry.value.input, matching.value.output);
        var newEntry := Config(linearized + {entry.id as nat}, newState);
        var isNew := false;
        if accepted {
          var hit := CacheContains(hash, cache, newEntry);
          isNew := !hit;
        }
        if isNew {
          EnterTurn(m, hash, t, p, at, D, cache, calls, state, linearized, entry, newEntry);
          ChainWithin(t, Elems(p));
          cache := AddToCache(hash, cache, newEntry);
          calls := calls + [CallsEntry(entry, state)];
          state := newState;
          linearized := linearized + {entry.id as nat};
          LiftPair(entry, t, p, entry.id as nat);
          p := p + [entry.id as nat];
          at := NextLive(t.es, Elems(p), 0);
          FirstOfShelved(t, p);
          entry := headEntry.next;
        } else {
          SkipTurn(m, hash, t, p, at, D, cache, calls, state, linearized, entry);
          entry := entry.next;
          at := NextLive(t.es, Elems(p), at + 1);
        }
      } else {
        if |calls| == 0 {
          FailTurn(m, hash, t, p, at, D, cache, state, linearized, entry, longest[..]);
          return false;
        }
        if computePartial {
          RecordTurn(m, hash, t, p, at, D, cache, calls, state, linearized, entry, longest[..]);
          UpdateLongest(longest, CallIds(calls));
        }
        PopTurn(m, hash, t, p, at, D, cache, calls, state, linearized, entry);
        ChainWithin(t, Elems(p[..|p| - 1]));
        var callsTop := calls[|calls| - 1];
        entry := callsTop.entry;
        state := callsTop.state;
        linearized := linearized - {entry.id as nat};
        calls := calls[..|calls| - 1];
        UnliftPair(entry, t, p);
        D := D + {ConfigOf(m, t.ops, p)};
        at := t.cp[p[|p| - 1]];
        p := p[..|p| - 1];
        NextOfShelved(t, p, at);
        entry := entry.next;
        at := NextLive(t.es, Elems(p), at + 1);
      }
    }
    SucceedTurn(m, hash, t, p, at, D, cache, calls, state, linearized, entry);
    var complete := CallIds(calls);
    RecordEverywhere(longest, complete);
    CompleteRecordsAreLongest(m, t.ops, longest[..], p);
    return true;
  }

  lemma SucceedTurn<S(!new), I(!new), O(!new)>(m: Model<S, I, O>, hash: set<nat> -> nat, t: Layout<I, O>,
                                   p: seq<nat>, at: nat, D: set<Config<S>>, cache: Cache<S>,
                                   calls: seq<CallsEntry<S, I, O>>, state: S, linearized: set<nat>, entry: Node?<I, O>)
    requires WellTimed(t.ops)
    requires LoopInvariant(m, hash, t, p, at, D, cache, calls, state, linearized, entry) && t.head.next == null
    ensures Linearizable(m, t.ops)
    ensures Partial(m, t.ops, p) && |p| == |t.ops|
    ensures (forall k :: 0 <= k < |calls| ==> calls[k].entry.id >= 0) && CallIds(calls) == p
  {
    hide Timeline, Represents, Linked, AllOnShelf, Bucketed, PathExplored, Explored, DeadEnds, Linearizable, NextLive;
    EmptyListIsComplete(m, t, p, at, D, Cached(cache));
    CallIdsSpell(m, t, calls, p);
    LinearizableIffComplete(m, t.ops);
  }

  lemma RecordsStart<S(!new), I, O>(m: Model<S, I, O>, ops: seq<Operation<I, O>>, longest: seq<Option<seq<nat>>>)
    requires |longest| == |ops| && forall i :: 0 <= i < |longest| ==> longest[i].None?
    ensures RecordsLegal(m, ops, longest) && RecordsCover<S, I, O>(ops, longest, {})
  {
  }

  lemma {:induction false} LiveAll<I, O>(es: seq<Entry<I, O>>, from: nat)
    requires from <= |es|
    ensures |LiveFrom(es, {}, from)| == |es| - from
    ensures forall k :: 0 <= k < |es| - from ==> LiveFrom(es, {}, from)[k] == from + k
    decreases |es| - from
  {
    if from < |es| {
      LiveAll(es, from + 1);
    }
  }

  /** With nothing done, the live list is the head followed by all nodes. */
  lemma ChainAll<I, O>(t: Layout<I, O>)
    requires t.Shaped()
    ensures t.Chain({}) == InsertAt(t.nodes, 0, t.head)
  {
    LiveAll(t.es, 0);
    var c, d := t.Chain({}), InsertAt(t.nodes, 0, t.head);
    forall k | 0 <= k < |c| ensures c[k] == d[k] {
      if k > 0 { assert c[k] == t.nodes[t.Live({})[k - 1]]; }
    }
  }

  /** checkSingle without the kill flag. It terminates, answers whether the history is
      linearizable, and (on success, or when asked to) records for every operation a longest
      partial linearization containing it. hash is an arbitrary function on operation sets. */
  method CheckSingle<S(==, !new), I(!new), O(!new)>(m: Model<S, I, O>, hash: set<nat> -> nat, history: seq<Entry<I, O>>,
                                                    computePartial: bool, ghost ops: seq<Operation<I, O>>)
    returns (ok: bool, longest: array<Option<seq<nat>>>)
    requires WellTimed(ops) && EventList(ops, history)
    ensures ok <==> Linearizable(m, ops)
    ensures fresh(longest)
    ensures ok || computePartial ==> RecordsLongest(m, ops, longest[..])
  {
    hide EventList, WellTimed, Linearizable, RecordsLongest, NoRepeats, Linked;
    ghost var cp, rp := EventListTimeline(ops, history);
    var entry;
    ghost var nodes;
    entry, nodes := MakeLinkedEntries(history, ops, cp, rp);
    var l := Length(entry, nodes);
    var n := l / 2;
    longest := new Option<seq<nat>>[n](_ => None);
    var head := new Node<I, O>(NoValue, null, -1);
    ghost var t := Layout(ops, history, cp, rp, head, nodes);
    LayoutReady(t, entry);
    var headEntry := InsertBefore(head, entry, nodes, 0);
    ChainAll(t);
    ok := RunSearch(m, hash, computePartial, headEntry, entry, longest, t);
  }

  lemma LayoutReady<I, O>(t: Layout<I, O>, entry: Node?<I, O>)
    requires Timeline(t.ops, t.es, t.cp, t.rp) && Represents(t.nodes, t.es, t.rp)
    requires Rooted(entry, t.nodes) && t.head !in t.nodes
    ensures t.Valid() && t.Shaped() && entry == At(t.nodes, 0) && |t.nodes| == 2 * |t.ops|
  {
  }
}

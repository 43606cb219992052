/** What the backtracking search of checkSingle knows at each turn of its loop, said without
    the linked list, and why each kind of turn keeps it. */
module SearchInvariant {
  import opened Linearizability
  import opened Entries
  import opened Search
  import opened LiveList
  import opened Sequences

  /** All accepted steps from c by operations called before position `bound` lead into D. */
  ghost predicate Explored<S, I, O>(m: Model<S, I, O>, ops: seq<Operation<I, O>>, cp: seq<nat>, c: Config<S>,
                                    bound: nat, D: set<Config<S>>)
    requires |cp| == |ops|
  {
    forall i: nat :: CanStep(m, ops, c, i) && cp[i] < bound ==> Next(m, ops, c, i) in D
  }

  /** The configurations on the current path, without the root. */
  ghost function PathConfigs<S, I, O>(m: Model<S, I, O>, ops: seq<Operation<I, O>>, p: seq<nat>): set<Config<S>>
    requires InRange(p, |ops|)
  {
    if p == [] then {} else PathConfigs(m, ops, p[..|p| - 1]) + {ConfigOf(m, ops, p)}
  }

  /** Every configuration on the path has explored the candidates before the one it took. */
  ghost predicate PathExplored<S, I, O>(m: Model<S, I, O>, ops: seq<Operation<I, O>>, cp: seq<nat>, p: seq<nat>,
                                        D: set<Config<S>>)
    requires |cp| == |ops| && InRange(p, |ops|)
  {
    p != [] ==>
      var front, x := p[..|p| - 1], p[|p| - 1];
      PathExplored(m, ops, cp, front, D) && Explored(m, ops, cp, ConfigOf(m, ops, front), cp[x], D)
  }

  /** The popped configurations: closed under steps, and none of them is complete. */
  ghost predicate DeadEnds<S, I, O>(m: Model<S, I, O>, ops: seq<Operation<I, O>>, D: set<Config<S>>) {
    Closed(m, ops, D) && forall c :: c in D ==> exists i: nat :: i < |ops| && i !in c.done
  }

  /** The cursor stands at the first live position from which no live return has been passed. */
  ghost predicate CursorAt<I, O>(es: seq<Entry<I, O>>, p: seq<nat>, at: nat) {
    && at <= |es|
    && (at < |es| ==> es[at].id !in Elems(p))
    && forall k :: 0 <= k < at && es[k].kind == ReturnEntry ==> es[k].id in Elems(p)
  }

  /** The state of the search: the path p of linearized ids, the cursor, the configurations D
      that were popped, and all cached configurations. */
  ghost predicate Searching<S(!new), I, O>(m: Model<S, I, O>, ops: seq<Operation<I, O>>, es: seq<Entry<I, O>>,
                                           cp: seq<nat>, rp: seq<nat>,
                                     p: seq<nat>, at: nat, D: set<Config<S>>, cached: set<Config<S>>)
  {
    && Timeline(ops, es, cp, rp)
    && Partial(m, ops, p)
    && DeadEnds(m, ops, D)
    && cached == D + PathConfigs(m, ops, p)
    && PathExplored(m, ops, cp, p, D)
    && Explored(m, ops, cp, ConfigOf(m, ops, p), at, D)
    && CursorAt(es, p, at)
    && cached <= Reach(m, ops, |ops|)
  }

  lemma {:induction false} PathExploredGrows<S, I, O>(m: Model<S, I, O>, ops: seq<Operation<I, O>>, cp: seq<nat>,
                                                      p: seq<nat>, D: set<Config<S>>, D': set<Config<S>>)
    requires |cp| == |ops| && InRange(p, |ops|) && D <= D'
    requires PathExplored(m, ops, cp, p, D)
    ensures PathExplored(m, ops, cp, p, D')
  {
    if p != [] {
      PathExploredGrows(m, ops, cp, p[..|p| - 1], D, D');
    }
  }

  /** Configurations on the path have at most as many operations done as the path is long. */
  lemma {:induction false} PathConfigsSmall<S, I, O>(m: Model<S, I, O>, ops: seq<Operation<I, O>>, p: seq<nat>,
                                                     c: Config<S>)
    requires Partial(m, ops, p) && c in PathConfigs(m, ops, p)
    ensures |c.done| <= |p|
  {
    PartialDistinct(m, ops, p);
    if c != ConfigOf(m, ops, p) {
      PathConfigsSmall(m, ops, p[..|p| - 1], c);
    }
  }

  /** Positions of live calls: an enabled call comes before every live return. */
  lemma EnabledAtCursor<I, O>(ops: seq<Operation<I, O>>, es: seq<Entry<I, O>>, cp: seq<nat>, rp: seq<nat>, p: seq<nat>,
                              at: nat)
    requires Timeline(ops, es, cp, rp) && CursorAt(es, p, at) && at < |es|
    requires es[at].kind == CallEntry
    ensures Enabled(ops, Elems(p), es[at].id) && cp[es[at].id] == at
  {
    var i := es[at].id;
    forall j: nat | j < |ops| && j !in Elems(p) ensures !(ops[j].ret < ops[i].call) {
      assert es[rp[j]] == ReturnOf(ops, j);
      assert !(rp[j] < cp[i]);
    }
  }

  /** At a live return, no enabled operation is called further on. */
  lemma NothingBeyondReturn<I, O>(ops: seq<Operation<I, O>>, es: seq<Entry<I, O>>, cp: seq<nat>, rp: seq<nat>,
                                  p: seq<nat>, at: nat, i: nat)
    requires Timeline(ops, es, cp, rp) && CursorAt(es, p, at) && at < |es|
    requires es[at].kind == ReturnEntry && Enabled(ops, Elems(p), i)
    ensures cp[i] < at
  {
    var j := es[at].id;
    assert rp[j] == at;
    assert !(rp[j] < cp[i]);
    assert es[cp[i]] == CallOf(ops, i);
  }

  lemma AppendFront(p: seq<nat>, x: nat)
    ensures (p + [x])[..|p + [x]| - 1] == p && Elems(p + [x]) == Elems(p) + {x}
  {
    ElemsOfAppend(p, x);
  }

  /** Turn 1: a new configuration is cached and entered; the cursor returns to the front. */
  lemma EnterKeeps<S(!new), I, O>(m: Model<S, I, O>, ops: seq<Operation<I, O>>, es: seq<Entry<I, O>>, cp: seq<nat>,
                                  rp: seq<nat>, p: seq<nat>, at: nat, D: set<Config<S>>, cached: set<Config<S>>)
    requires Searching(m, ops, es, cp, rp, p, at, D, cached) && at < |es| && es[at].kind == CallEntry
    requires CanStep(m, ops, ConfigOf(m, ops, p), es[at].id)
    requires ConfigOf(m, ops, p + [es[at].id]) !in cached
    ensures Searching(m, ops, es, cp, rp, p + [es[at].id], NextLive(es, Elems(p + [es[at].id]), 0), D,
      cached + {ConfigOf(m, ops, p + [es[at].id])})
  {
    var i := es[at].id;
    var q := p + [i];
    AppendFront(p, i);
    EnabledAtCursor(ops, es, cp, rp, p, at);
    PartialReaches(m, ops, q);
    PartialDistinct(m, ops, q);
    var first := NextLive(es, Elems(q), 0);
    forall k: nat | CanStep(m, ops, ConfigOf(m, ops, q), k) ensures cp[k] >= first {
      assert es[cp[k]] == CallOf(ops, k);
    }
  }

  /** Turn 2: the step is rejected or leads to a cached configuration; the cursor moves on. */
  lemma SkipKeeps<S(!new), I, O>(m: Model<S, I, O>, ops: seq<Operation<I, O>>, es: seq<Entry<I, O>>, cp: seq<nat>,
                                 rp: seq<nat>, p: seq<nat>, at: nat, D: set<Config<S>>, cached: set<Config<S>>)
    requires Searching(m, ops, es, cp, rp, p, at, D, cached) && at < |es| && es[at].kind == CallEntry
    requires CanStep(m, ops, ConfigOf(m, ops, p), es[at].id) ==> Next(m, ops, ConfigOf(m, ops, p), es[at].id) in cached
    ensures Searching(m, ops, es, cp, rp, p, NextLive(es, Elems(p), at + 1), D, cached)
  {
    hide Timeline, Partial, DeadEnds, PathExplored, Explored, CursorAt, Reach, PathConfigs, NextLive;
    SkipExplored(m, ops, es, cp, rp, p, at, D, cached);
    SkipCursor(ops, es, cp, rp, p, at);
  }

  lemma SkipCursor<I, O>(ops: seq<Operation<I, O>>, es: seq<Entry<I, O>>, cp: seq<nat>, rp: seq<nat>, p: seq<nat>,
                         at: nat)
    requires Timeline(ops, es, cp, rp) && CursorAt(es, p, at) && at < |es| && es[at].kind == CallEntry
    ensures CursorAt(es, p, NextLive(es, Elems(p), at + 1))
  {
  }

  lemma SkipExplored<S(!new), I, O>(m: Model<S, I, O>, ops: seq<Operation<I, O>>, es: seq<Entry<I, O>>, cp: seq<nat>,
                                    rp: seq<nat>, p: seq<nat>, at: nat, D: set<Config<S>>, cached: set<Config<S>>)
    requires Timeline(ops, es, cp, rp) && Partial(m, ops, p) && at < |es|
    requires Explored(m, ops, cp, ConfigOf(m, ops, p), at, D)
    requires cached == D + PathConfigs(m, ops, p)
    requires CanStep(m, ops, ConfigOf(m, ops, p), es[at].id) ==> Next(m, ops, ConfigOf(m, ops, p), es[at].id) in cached
    ensures Explored(m, ops, cp, ConfigOf(m, ops, p), NextLive(es, Elems(p), at + 1), D)
  {
    var c := ConfigOf(m, ops, p);
    PartialDistinct(m, ops, p);
    forall k: nat | CanStep(m, ops, c, k) && cp[k] < NextLive(es, Elems(p), at + 1) ensures Next(m, ops, c, k) in D {
      CalledBefore(ops, es, cp, rp, Elems(p), at, k);
      if cp[k] == at {
        NotOnPath(m, ops, p, k);
      }
    }
  }

  /** A pending operation called before the next live position was called at `at` or earlier. */
  lemma CalledBefore<I, O>(ops: seq<Operation<I, O>>, es: seq<Entry<I, O>>, cp: seq<nat>, rp: seq<nat>, done: set<nat>,
                           at: nat, k: nat)
    requires Timeline(ops, es, cp, rp) && at < |es| && k < |ops| && k !in done
    requires cp[k] < NextLive(es, done, at + 1)
    ensures cp[k] <= at && (cp[k] == at ==> k == es[at].id)
  {
    assert es[cp[k]] == CallOf(ops, k);
  }

  lemma NotOnPath<S, I, O>(m: Model<S, I, O>, ops: seq<Operation<I, O>>, p: seq<nat>, i: nat)
    requires Partial(m, ops, p) && CanStep(m, ops, ConfigOf(m, ops, p), i)
    ensures Next(m, ops, ConfigOf(m, ops, p), i) !in PathConfigs(m, ops, p)
  {
    PartialDistinct(m, ops, p);
    var c := Next(m, ops, ConfigOf(m, ops, p), i);
    assert |c.done| == |p| + 1;
    if c in PathConfigs(m, ops, p) {
      PathConfigsSmall(m, ops, p, c);
    }
  }

  /** At a live return every step from the current configuration has been explored. */
  lemma ExploredAtReturn<S(!new), I, O>(m: Model<S, I, O>, ops: seq<Operation<I, O>>, es: seq<Entry<I, O>>,
                                        cp: seq<nat>, rp: seq<nat>,
                                  p: seq<nat>, at: nat, D: set<Config<S>>, cached: set<Config<S>>)
    requires Searching(m, ops, es, cp, rp, p, at, D, cached) && at < |es| && es[at].kind == ReturnEntry
    ensures forall i: nat :: CanStep(m, ops, ConfigOf(m, ops, p), i) ==> Next(m, ops, ConfigOf(m, ops, p), i) in D
    ensures es[at].id < |ops| && es[at].id !in ConfigOf(m, ops, p).done
  {
    PartialDistinct(m, ops, p);
    forall i: nat | CanStep(m, ops, ConfigOf(m, ops, p), i) ensures Next(m, ops, ConfigOf(m, ops, p), i) in D {
      NothingBeyondReturn(ops, es, cp, rp, p, at, i);
    }
  }

  /** Turn 3: at a live return the current configuration is a dead end and is popped. */
  lemma PopKeeps<S(!new), I, O>(m: Model<S, I, O>, ops: seq<Operation<I, O>>, es: seq<Entry<I, O>>, cp: seq<nat>,
                                rp: seq<nat>, p: seq<nat>, at: nat, D: set<Config<S>>, cached: set<Config<S>>)
    requires Searching(m, ops, es, cp, rp, p, at, D, cached) && at < |es| && es[at].kind == ReturnEntry
    requires p != []
    ensures var front, x := p[..|p| - 1], p[|p| - 1];
            Searching(m, ops, es, cp, rp, front, NextLive(es, Elems(front), cp[x] + 1), D + {ConfigOf(m, ops, p)},
              cached)
  {
    PopDeadEnds(m, ops, es, cp, rp, p, at, D, cached);
    PopExplored(m, ops, es, cp, rp, p, at, D, cached);
    PopCursor(m, ops, es, cp, rp, p);
    PathExploredGrows(m, ops, cp, p[..|p| - 1], D, D + {ConfigOf(m, ops, p)});
  }

  lemma PopDeadEnds<S(!new), I, O>(m: Model<S, I, O>, ops: seq<Operation<I, O>>, es: seq<Entry<I, O>>, cp: seq<nat>,
                                   rp: seq<nat>, p: seq<nat>, at: nat, D: set<Config<S>>, cached: set<Config<S>>)
    requires Searching(m, ops, es, cp, rp, p, at, D, cached) && at < |es| && es[at].kind == ReturnEntry
    ensures DeadEnds(m, ops, D + {ConfigOf(m, ops, p)})
  {
    ExploredAtReturn(m, ops, es, cp, rp, p, at, D, cached);
  }

  lemma PopExplored<S(!new), I, O>(m: Model<S, I, O>, ops: seq<Operation<I, O>>, es: seq<Entry<I, O>>, cp: seq<nat>,
                                   rp: seq<nat>, p: seq<nat>, at: nat, D: set<Config<S>>, cached: set<Config<S>>)
    requires Searching(m, ops, es, cp, rp, p, at, D, cached)
    requires p != []
    ensures var front, x := p[..|p| - 1], p[|p| - 1];
            Explored(m, ops, cp, ConfigOf(m, ops, front), NextLive(es, Elems(front), cp[x] + 1),
              D + {ConfigOf(m, ops, p)})
  {
    var front, x := p[..|p| - 1], p[|p| - 1];
    PartialDistinct(m, ops, front);
    var c, next := ConfigOf(m, ops, front), NextLive(es, Elems(front), cp[x] + 1);
    forall k: nat | CanStep(m, ops, c, k) && cp[k] < next ensures Next(m, ops, c, k) in D + {ConfigOf(m, ops, p)} {
      assert es[cp[x]] == CallOf(ops, x);
      CalledBefore(ops, es, cp, rp, Elems(front), cp[x], k);
    }
  }

  lemma LiveReturnAfterEnabled<I, O>(ops: seq<Operation<I, O>>, es: seq<Entry<I, O>>, cp: seq<nat>, rp: seq<nat>,
                                     done: set<nat>, x: nat, k: nat)
    requires Timeline(ops, es, cp, rp) && Enabled(ops, done, x) && k < |es|
    requires es[k].kind == ReturnEntry && es[k].id !in done
    ensures cp[x] < k
  {
    assert rp[es[k].id] == k && es[cp[x]] == CallOf(ops, x);
    assert !(rp[es[k].id] < cp[x]);
  }

  lemma PopCursor<S(!new), I, O>(m: Model<S, I, O>, ops: seq<Operation<I, O>>, es: seq<Entry<I, O>>, cp: seq<nat>,
                                 rp: seq<nat>, p: seq<nat>)
    requires Timeline(ops, es, cp, rp) && Partial(m, ops, p) && p != []
    ensures var front, x := p[..|p| - 1], p[|p| - 1];
            CursorAt(es, front, NextLive(es, Elems(front), cp[x] + 1))
  {
    var front, x := p[..|p| - 1], p[|p| - 1];
    PartialDistinct(m, ops, front);
    forall k: nat | k < |es| && es[k].kind == ReturnEntry && es[k].id !in Elems(front) ensures cp[x] < k {
      LiveReturnAfterEnabled(ops, es, cp, rp, Elems(front), x, k);
    }
  }

  /** When the search stops at a live return with an empty path, it has seen every partial
      linearization, and none was complete. */
  lemma FailedSearchIsExhaustive<S(!new), I(!new), O(!new)>(m: Model<S, I, O>, ops: seq<Operation<I, O>>,
        es: seq<Entry<I, O>>, cp: seq<nat>, rp: seq<nat>, at: nat, D: set<Config<S>>, cached: set<Config<S>>)
    requires WellTimed(ops)
    requires Searching(m, ops, es, cp, rp, [], at, D, cached) && at < |es| && es[at].kind == ReturnEntry
    ensures !Linearizable(m, ops)
    ensures forall p: seq<nat> :: Partial(m, ops, p) && p != [] ==> ConfigOf(m, ops, p) in D
  {
    ExploredAtReturn(m, ops, es, cp, rp, [], at, D, cached);
    forall p: seq<nat> | Partial(m, ops, p) && p != []
      ensures ConfigOf(m, ops, p) in D && |p| != |ops|
    {
      ClosedCoversPartials(m, ops, D, p);
      PartialDistinct(m, ops, p);
      PartialShort(m, ops, p);
    }
    LinearizableIffComplete(m, ops);
  }
}

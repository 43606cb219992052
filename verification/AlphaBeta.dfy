/** Minimax and alpha-beta search of multiAgents.py: agent 0 maximises, the others minimise. */
module AlphaBeta {
  import opened Wrappers

  /** The game as the agents see it. Actions are listed in the order in which they are tried. */
  datatype Game<!S, !A> = Game(over: S -> bool, score: S -> real, actions: (S, nat) -> seq<A>, next: (S, nat, A) -> S)

  const BOUND: real := 9949345345990.0

  /** Scores stay within the sentinels, and whoever is to move in an unfinished game can move. */
  ghost predicate Playable<S(!new), A>(g: Game<S, A>) {
    && (forall s :: -9949345345990.0 <= g.score(s) <= 9949345345990.0)
    && (forall s, agent: nat :: !g.over(s) ==> g.actions(s, agent) != [])
  }

  function NextAgent(agent: nat, agents: nat): (r: nat)
    requires agent < agents
    ensures r == if agent + 1 == agents then 0 else agent + 1
  {
    (agent + 1) % agents
  }

  /** Moves left in the current round; agent 0 opens a round. */
  function Left(agent: nat, agents: nat): nat
    requires agent < agents
  {
    if agent == 0 then 0 else agents - agent
  }

  predicate Better(agent: nat, x: real, y: real) {
    if agent == 0 then x > y else x < y
  }

  // ---- The value of a position ----

  /** The search stops here: the game is over, or agent 0 has used up its depth. */
  predicate Stops<S, A>(g: Game<S, A>, s: S, agent: nat, depth: nat) {
    g.over(s) || (agent == 0 && depth == 1)
  }

  /** The minimax value of s with `agent` to move; `depth` counts the turns of agent 0. */
  ghost function Value<S(!new), A>(g: Game<S, A>, s: S, agent: nat, depth: nat, agents: nat): real
    requires Playable(g) && agent < agents && depth >= 1
    decreases depth, Left(agent, agents), 1, 0
  {
    if Stops(g, s, agent, depth) then g.score(s) else Best(g, s, agent, depth, agents, |g.actions(s, agent)|)
  }

  /** The value after the k-th action. */
  ghost function Child<S(!new), A>(g: Game<S, A>, s: S, agent: nat, depth: nat, agents: nat, k: nat): real
    requires Playable(g) && agent < agents && depth >= 1 && (agent == 0 ==> depth >= 2) && k < |g.actions(s, agent)|
    decreases depth, Left(agent, agents), 0, 0
  {
    Value(g, g.next(s, agent, g.actions(s, agent)[k]), NextAgent(agent, agents),
      if agent == 0 then depth - 1 else depth, agents)
  }

  /** The best of the first k actions for the agent to move. */
  ghost function Best<S(!new), A>(g: Game<S, A>, s: S, agent: nat, depth: nat, agents: nat, k: nat): real
    requires Playable(g) && agent < agents && depth >= 1 && (agent == 0 ==> depth >= 2)
    requires 1 <= k <= |g.actions(s, agent)|
    decreases depth, Left(agent, agents), 0, k
  {
    var last := Child(g, s, agent, depth, agents, k - 1);
    if k == 1 then last
    else
      var before := Best(g, s, agent, depth, agents, k - 1);
      if Better(agent, last, before) then last else before
  }

  /** The value is one of the children's values: the greatest for agent 0, the least for the others. */
  lemma {:induction false} BestIsOptimal<S(!new), A>(g: Game<S, A>, s: S, agent: nat, depth: nat, agents: nat, k: nat)
    requires Playable(g) && agent < agents && depth >= 1 && (agent == 0 ==> depth >= 2)
    requires 1 <= k <= |g.actions(s, agent)|
    ensures exists i :: 0 <= i < k && Best(g, s, agent, depth, agents, k) == Child(g, s, agent, depth, agents, i)
    ensures forall i :: 0 <= i < k ==>
      if agent == 0 then Child(g, s, agent, depth, agents, i) <= Best(g, s, agent, depth, agents, k)
      else Best(g, s, agent, depth, agents, k) <= Child(g, s, agent, depth, agents, i)
    decreases k
  {
    var best := Best(g, s, agent, depth, agents, k);
    if k > 1 {
      BestIsOptimal(g, s, agent, depth, agents, k - 1);
      var i :| 0 <= i < k - 1 && Best(g, s, agent, depth, agents, k - 1) == Child(g, s, agent, depth, agents, i);
      assert best == Child(g, s, agent, depth, agents, i) || best == Child(g, s, agent, depth, agents, k - 1);
    } else {
      assert best == Child(g, s, agent, depth, agents, 0);
    }
  }

  lemma {:induction false} ValueBounded<S(!new), A>(g: Game<S, A>, s: S, agent: nat, depth: nat, agents: nat)
    requires Playable(g) && agent < agents && depth >= 1
    ensures -BOUND <= Value(g, s, agent, depth, agents) <= BOUND
    decreases depth, Left(agent, agents)
  {
    if !Stops(g, s, agent, depth) {
      var n := |g.actions(s, agent)|;
      BestIsOptimal(g, s, agent, depth, agents, n);
      var i :| 0 <= i < n && Best(g, s, agent, depth, agents, n) == Child(g, s, agent, depth, agents, i);
      ValueBounded(g, g.next(s, agent, g.actions(s, agent)[i]), NextAgent(agent, agents),
        if agent == 0 then depth - 1 else depth, agents);
    }
  }

  // ---- What the value is a value of ----

  /** q follows p by a legal action in an unfinished game, and the next agent moves. */
  ghost predicate Moves<S(!new), A>(g: Game<S, A>, agents: nat, p: (S, nat), q: (S, nat)) {
    && !g.over(p.0)
    && q.1 == (if p.1 + 1 == agents then 0 else p.1 + 1)
    && exists k :: 0 <= k < |g.actions(p.0, p.1)| && q.0 == g.next(p.0, p.1, g.actions(p.0, p.1)[k])
  }

  /** A line of play: positions with the agent to move, each following the one before. */
  ghost predicate Play<S(!new), A>(g: Game<S, A>, agents: nat, line: seq<(S, nat)>) {
    line != [] && forall i :: 0 <= i < |line| - 1 ==> Moves(g, agents, line[i], line[i + 1])
  }

  /** How often agent 0 moves in it. */
  function Turns<S>(line: seq<(S, nat)>): nat {
    if |line| <= 1 then 0 else (if line[0].1 == 0 then 1 else 0) + Turns(line[1..])
  }

  /** The value is the score at the end of a line of play that goes on until the game is over or
      agent 0, to move again, has moved depth - 1 times. */
  lemma {:induction false} PrincipalLine<S(!new), A>(g: Game<S, A>, s: S, agent: nat, depth: nat, agents: nat)
    returns (line: seq<(S, nat)>)
    requires Playable(g) && agent < agents && depth >= 1
    ensures Play(g, agents, line) && line[0] == (s, agent) && Turns(line) <= depth - 1
    ensures var (end, mover) := line[|line| - 1];
      && Value(g, s, agent, depth, agents) == g.score(end)
      && (g.over(end) || (mover == 0 && Turns(line) == depth - 1))
    decreases depth, Left(agent, agents)
  {
    if Stops(g, s, agent, depth) {
      line := [(s, agent)];
    } else {
      var n := |g.actions(s, agent)|;
      BestIsOptimal(g, s, agent, depth, agents, n);
      var k :| 0 <= k < n && Best(g, s, agent, depth, agents, n) == Child(g, s, agent, depth, agents, k);
      var rest := PrincipalLine(g, g.next(s, agent, g.actions(s, agent)[k]), NextAgent(agent, agents),
        if agent == 0 then depth - 1 else depth, agents);
      line := [(s, agent)] + rest;
      FirstMove(g, agents, s, agent, k, rest);
    }
  }

  lemma FirstMove<S(!new), A>(g: Game<S, A>, agents: nat, s: S, agent: nat, k: nat, rest: seq<(S, nat)>)
    requires agent < agents && !g.over(s) && k < |g.actions(s, agent)| && Play(g, agents, rest)
    requires rest[0] == (g.next(s, agent, g.actions(s, agent)[k]), NextAgent(agent, agents))
    ensures Play(g, agents, [(s, agent)] + rest)
    ensures Turns([(s, agent)] + rest) == Turns(rest) + if agent == 0 then 1 else 0
  {
    var line := [(s, agent)] + rest;
    assert line[1..] == rest;
    assert Moves(g, agents, (s, agent), rest[0]);
    hide Moves;
    forall i | 0 <= i < |line| - 1 ensures Moves(g, agents, line[i], line[i + 1]) {
      if i > 0 {
        assert line[i] == rest[i - 1] && line[i + 1] == rest[i - 1 + 1];
      }
    }
  }

  // ---- Minimax ----

  /** MinimaxAgent.recursiveGetAction computes the value. currentDepth is the depth before the
      decrement at agent 0. */
  method MinimaxValue<S(!new), A>(g: Game<S, A>, s: S, agent: nat, depth: nat, agents: nat) returns (ans: real)
    requires Playable(g) && agent < agents && depth >= 1
    ensures ans == Value(g, s, agent, depth, agents)
    decreases depth, Left(agent, agents)
  {
    if g.over(s) {
      return g.score(s);
    }
    var currentDepth := depth;
    if agent == 0 {
      currentDepth := currentDepth - 1;
      if currentDepth == 0 {
        return g.score(s);
      }
    }
    var actions := g.actions(s, agent);
    var currentList: seq<real> := [];
    for k := 0 to |actions|
      invariant |currentList| == k
      invariant forall i :: 0 <= i < k ==> currentList[i] == Child(g, s, agent, depth, agents, i)
    {
      var score := MinimaxValue(g, g.next(s, agent, actions[k]), NextAgent(agent, agents), currentDepth, agents);
      currentList := currentList + [score];
    }
    ans := currentList[0];
    for k := 0 to |currentList|
      invariant ans == if k == 0 then currentList[0] else Best(g, s, agent, depth, agents, k)
    {
      if Better(agent, currentList[k], ans) {
        ans := currentList[k];
      }
    }
  }

  /** The first action among those of greatest value, when agent 0 opens with `depth` turns. */
  ghost predicate BestAction<S(!new), A>(g: Game<S, A>, s: S, depth: nat, agents: nat, k: nat)
    requires Playable(g) && agents >= 2 && depth >= 1 && k < |g.actions(s, 0)|
  {
    forall i :: 0 <= i < |g.actions(s, 0)| ==>
      if i < k then RootChild(g, s, depth, agents, i) < RootChild(g, s, depth, agents, k)
      else RootChild(g, s, depth, agents, i) <= RootChild(g, s, depth, agents, k)
  }

  /** The value after the i-th action at the root, where agent 1 moves next at full depth. */
  ghost function RootChild<S(!new), A>(g: Game<S, A>, s: S, depth: nat, agents: nat, i: nat): real
    requires Playable(g) && agents >= 2 && depth >= 1 && i < |g.actions(s, 0)|
  {
    Value(g, g.next(s, 0, g.actions(s, 0)[i]), 1, depth, agents)
  }

  ghost predicate IsChoice<S(!new), A>(g: Game<S, A>, s: S, depth: nat, agents: nat, action: A)
    requires Playable(g) && agents >= 2 && depth >= 1
  {
    exists k: nat :: k < |g.actions(s, 0)| && action == g.actions(s, 0)[k] && BestAction(g, s, depth, agents, k)
  }

  /** There is only one such action, so the two agents agree. */
  lemma ChoiceUnique<S(!new), A>(g: Game<S, A>, s: S, depth: nat, agents: nat, a: A, b: A)
    requires Playable(g) && agents >= 2 && depth >= 1 && IsChoice(g, s, depth, agents, a)
    requires IsChoice(g, s, depth, agents, b)
    ensures a == b
  {
    var j: nat :| j < |g.actions(s, 0)| && a == g.actions(s, 0)[j] && BestAction(g, s, depth, agents, j);
    var k: nat :| k < |g.actions(s, 0)| && b == g.actions(s, 0)[k] && BestAction(g, s, depth, agents, k);
    var x, y := RootChild(g, s, depth, agents, j), RootChild(g, s, depth, agents, k);
    assert if j < k then x < y else x <= y;
    assert if k < j then y < x else y <= x;
  }

  /** The chosen action attains the minimax value of the position with one turn more, unless the
      game is over. */
  lemma ChoiceAttainsValue<S(!new), A>(g: Game<S, A>, s: S, depth: nat, agents: nat, action: A)
    requires Playable(g) && agents >= 2 && depth >= 1 && IsChoice(g, s, depth, agents, action) && !g.over(s)
    ensures Value(g, g.next(s, 0, action), 1, depth, agents) == Value(g, s, 0, depth + 1, agents)
  {
    var n := |g.actions(s, 0)|;
    var k: nat :| k < n && action == g.actions(s, 0)[k] && BestAction(g, s, depth, agents, k);
    BestIsOptimal(g, s, 0, depth + 1, agents, n);
    var i :| 0 <= i < n && Best(g, s, 0, depth + 1, agents, n) == Child(g, s, 0, depth + 1, agents, i);
    assert RootChild(g, s, depth, agents, i) <= RootChild(g, s, depth, agents, k);
    assert RootChild(g, s, depth, agents, k) == Child(g, s, 0, depth + 1, agents, k);
  }

  /** MinimaxAgent.getAction. */
  method MinimaxAction<S(!new), A>(g: Game<S, A>, s: S, depth: nat, agents: nat) returns (action: A)
    requires Playable(g) && agents >= 2 && depth >= 1 && g.actions(s, 0) != []
    ensures IsChoice(g, s, depth, agents, action)
  {
    var actions := g.actions(s, 0);
    var finalList: seq<(A, real)> := [];
    for k := 0 to |actions|
      invariant |finalList| == k
      invariant forall i :: 0 <= i < k ==> finalList[i] == (actions[i], RootChild(g, s, depth, agents, i))
    {
      var score := MinimaxValue(g, g.next(s, 0, actions[k]), 1, depth, agents);
      finalList := finalList + [(actions[k], score)];
    }
    var ans := finalList[0];
    ghost var choice: nat := 0;
    for k := 0 to |finalList|
      invariant choice < |actions| && (choice < k || choice == 0) && ans == finalList[choice]
      invariant forall i :: 0 <= i < k ==> if i < choice then finalList[i].1 < ans.1 else finalList[i].1 <= ans.1
      invariant forall i :: 0 <= i < choice ==> finalList[i].1 < ans.1
    {
      if finalList[k].1 > ans.1 {
        ans := finalList[k];
        choice := k;
      }
    }
    action := ans.0;
    assert BestAction(g, s, depth, agents, choice);
  }

  // ---- Alpha-beta ----

  predicate AboveBeta(x: real, beta: Option<real>) {
    beta.Some? && x > beta.value
  }

  predicate BelowAlpha(x: real, alpha: Option<real>) {
    alpha.Some? && x < alpha.value
  }

  /** The window (alpha, beta) is not empty. */
  predicate Window(alpha: Option<real>, beta: Option<real>) {
    alpha.Some? && beta.Some? ==> alpha.value <= beta.value
  }

  /** What the pruned answer r says about the value v: a strict bound outside the window, the
      value itself inside. */
  predicate Bounds(r: real, v: real, alpha: Option<real>, beta: Option<real>) {
    if AboveBeta(r, beta) then v >= r
    else if BelowAlpha(r, alpha) then v <= r
    else v == r
  }

  /** The answer lies inside the window exactly when the value does, and then they are equal. */
  lemma BoundsMeaning(r: real, v: real, alpha: Option<real>, beta: Option<real>)
    requires Bounds(r, v, alpha, beta) && Window(alpha, beta)
    ensures beta.Some? ==> (r > beta.value <==> v > beta.value) && (r > beta.value ==> v >= r)
    ensures alpha.Some? ==> (r < alpha.value <==> v < alpha.value) && (r < alpha.value ==> v <= r)
    ensures (alpha.None? || alpha.value <= v) && (beta.None? || v <= beta.value) ==> r == v
  {
  }

  function Raise(alpha: Option<real>, x: real): Option<real> {
    if alpha.None? || alpha.value < x then Some(x) else alpha
  }

  function Lower(beta: Option<real>, x: real): Option<real> {
    if beta.None? || beta.value > x then Some(x) else beta
  }

  function Max(x: real, y: real): real { if x > y then x else y }
  function Min(x: real, y: real): real { if x < y then x else y }

  /** Progress of a maximising node: ans stands for the best value so far, exactly once it
      reaches the original alpha and as an upper bound below it. */
  predicate MaxSoFar(ans: real, best: real, k: nat, alpha: Option<real>, raised: Option<real>) {
    && raised == (if k == 0 then alpha else Raise(alpha, ans))
    && (k == 0 ==> ans == -BOUND)
    && (k > 0 ==> if BelowAlpha(ans, alpha) then best <= ans else best == ans)
  }

  predicate MinSoFar(ans: real, best: real, k: nat, beta: Option<real>, lowered: Option<real>) {
    && lowered == (if k == 0 then beta else Lower(beta, ans))
    && (k == 0 ==> ans == BOUND)
    && (k > 0 ==> if AboveBeta(ans, beta) then best >= ans else best == ans)
  }

  lemma MaxStep(ans: real, best: real, k: nat, alpha: Option<real>, raised: Option<real>, beta: Option<real>, r: real,
                v: real)
    requires MaxSoFar(ans, best, k, alpha, raised) && Bounds(r, v, raised, beta)
    requires Window(alpha, beta) && (k > 0 ==> !AboveBeta(ans, beta)) && -BOUND <= v
    requires k == 0 ==> r >= -BOUND
    ensures var after, next := Max(ans, r), if k == 0 || v > best then v else best;
            if AboveBeta(after, beta) then next >= after
            else MaxSoFar(after, next, k + 1, alpha, Raise(raised, after)) && Window(Raise(raised, after), beta)
  {
  }

  lemma MinStep(ans: real, best: real, k: nat, beta: Option<real>, lowered: Option<real>, alpha: Option<real>, r: real,
                v: real)
    requires MinSoFar(ans, best, k, beta, lowered) && Bounds(r, v, alpha, lowered)
    requires Window(alpha, beta) && (k > 0 ==> !BelowAlpha(ans, alpha)) && v <= BOUND
    requires k == 0 ==> r <= BOUND
    ensures var after, next := Min(ans, r), if k == 0 || v < best then v else best;
            if BelowAlpha(after, alpha) then next <= after
            else MinSoFar(after, next, k + 1, beta, Lower(lowered, after)) && Window(alpha, Lower(lowered, after))
  {
  }

  /** More actions can only improve the best for the agent to move. */
  lemma {:induction false} BestImproves<S(!new), A>(g: Game<S, A>, s: S, agent: nat, depth: nat, agents: nat, j: nat,
                                                    k: nat)
    requires Playable(g) && agent < agents && depth >= 1 && (agent == 0 ==> depth >= 2)
    requires 1 <= j <= k <= |g.actions(s, agent)|
    ensures !Better(agent, Best(g, s, agent, depth, agents, j), Best(g, s, agent, depth, agents, k))
    decreases k
  {
    if j < k {
      BestImproves(g, s, agent, depth, agents, j, k - 1);
    }
  }

  /** AlphaBetaAgent.recursiveGetAction: exact inside the window, a correct strict bound outside. */
  method AlphaBetaValue<S(!new), A>(g: Game<S, A>, s: S, agent: nat, depth: nat, agents: nat, alpha0: Option<real>,
                                    beta0: Option<real>)
    returns (ans: real)
    requires Playable(g) && agent < agents && depth >= 1 && Window(alpha0, beta0)
    ensures Bounds(ans, Value(g, s, agent, depth, agents), alpha0, beta0)
    ensures -BOUND <= ans <= BOUND
    decreases depth, Left(agent, agents)
  {
    hide Playable, Bounds, MaxSoFar, MinSoFar, Window, Raise, Lower, Best;
    var alpha, beta := alpha0, beta0;
    ScoreBounded(g, s);
    ExactIsBounds(g.score(s), alpha0, beta0);
    if g.over(s) {
      return g.score(s);
    }
    var currentDepth := depth;
    if agent == 0 {
      currentDepth := currentDepth - 1;
      if currentDepth == 0 {
        return g.score(s);
      }
    }
    var actions := g.actions(s, agent);
    ans := if agent == 0 then -BOUND else BOUND;
    ghost var best := 0.0;
    StartSoFar(alpha0, beta0);
    for k := 0 to |actions|
      invariant -BOUND <= ans <= BOUND && Window(alpha, beta)
      invariant k > 0 ==> best == Best(g, s, agent, depth, agents, k)
      invariant agent == 0 ==>
        beta == beta0 && MaxSoFar(ans, best, k, alpha0, alpha) && (k > 0 ==> !AboveBeta(ans, beta))
      invariant agent != 0 ==>
        alpha == alpha0 && MinSoFar(ans, best, k, beta0, beta) && (k > 0 ==> !BelowAlpha(ans, alpha))
    {
      var score := AlphaBetaValue(g, g.next(s, agent, actions[k]), NextAgent(agent, agents), currentDepth, agents,
        alpha, beta);
      ghost var v := Child(g, s, agent, depth, agents, k);
      ValueBounded(g, g.next(s, agent, actions[k]), NextAgent(agent, agents), currentDepth, agents);
      BestOneMore(g, s, agent, depth, agents, k);
      BestImproves(g, s, agent, depth, agents, k + 1, |actions|);
      if agent == 0 {
        MaxStep(ans, best, k, alpha0, alpha, beta, score, v);
        best := if k == 0 || v > best then v else best;
        ans := Max(ans, score);
        if AboveBeta(ans, beta) {
          PrunedAbove(ans, Value(g, s, agent, depth, agents), alpha0, beta0);
          return;
        }
        alpha := Raise(alpha, ans);
      } else {
        MinStep(ans, best, k, beta0, beta, alpha, score, v);
        best := if k == 0 || v < best then v else best;
        ans := Min(ans, score);
        if BelowAlpha(ans, alpha) {
          PrunedBelow(ans, Value(g, s, agent, depth, agents), alpha0, beta0);
          return;
        }
        beta := Lower(beta, ans);
      }
    }
    SomeAction(g, s, agent);
    if agent == 0 {
      MaxDone(ans, best, |actions|, alpha0, alpha, beta0);
    } else {
      MinDone(ans, best, |actions|, beta0, beta, alpha0);
    }
  }

  lemma ScoreBounded<S(!new), A>(g: Game<S, A>, s: S)
    requires Playable(g)
    ensures -BOUND <= g.score(s) <= BOUND
  {
  }

  lemma SomeAction<S(!new), A>(g: Game<S, A>, s: S, agent: nat)
    requires Playable(g) && !g.over(s)
    ensures g.actions(s, agent) != []
  {
  }

  lemma ExactIsBounds(v: real, alpha: Option<real>, beta: Option<real>)
    ensures Bounds(v, v, alpha, beta)
  {
  }

  lemma StartSoFar(alpha: Option<real>, beta: Option<real>)
    ensures MaxSoFar(-BOUND, 0.0, 0, alpha, alpha) && MinSoFar(BOUND, 0.0, 0, beta, beta)
  {
  }

  lemma BestOneMore<S(!new), A>(g: Game<S, A>, s: S, agent: nat, depth: nat, agents: nat, k: nat)
    requires Playable(g) && agent < agents && depth >= 1 && (agent == 0 ==> depth >= 2) && k < |g.actions(s, agent)|
    ensures var last := Child(g, s, agent, depth, agents, k);
            Best(g, s, agent, depth, agents, k + 1) ==
            if k == 0 || Better(agent, last, Best(g, s, agent, depth, agents, k)) then last
              else Best(g, s, agent, depth, agents, k)
  {
  }

  lemma PrunedAbove(r: real, v: real, alpha: Option<real>, beta: Option<real>)
    requires AboveBeta(r, beta) && v >= r
    ensures Bounds(r, v, alpha, beta)
  {
  }

  lemma PrunedBelow(r: real, v: real, alpha: Option<real>, beta: Option<real>)
    requires Window(alpha, beta) && BelowAlpha(r, alpha) && v <= r
    ensures Bounds(r, v, alpha, beta)
  {
  }

  lemma MaxDone(ans: real, best: real, k: nat, alpha: Option<real>, raised: Option<real>, beta: Option<real>)
    requires k > 0 && MaxSoFar(ans, best, k, alpha, raised) && !AboveBeta(ans, beta)
    ensures Bounds(ans, best, alpha, beta)
  {
  }

  lemma MinDone(ans: real, best: real, k: nat, beta: Option<real>, lowered: Option<real>, alpha: Option<real>)
    requires k > 0 && MinSoFar(ans, best, k, beta, lowered) && !BelowAlpha(ans, alpha)
    ensures Bounds(ans, best, alpha, beta)
  {
  }

  /** AlphaBetaAgent.getAction chooses the action that minimax chooses, ties included. */
  method AlphaBetaAction<S(!new), A>(g: Game<S, A>, s: S, depth: nat, agents: nat) returns (action: A)
    requires Playable(g) && agents >= 2 && depth >= 1 && g.actions(s, 0) != []
    ensures IsChoice(g, s, depth, agents, action)
  {
    hide Playable;
    var actions := g.actions(s, 0);
    var ans := -BOUND;
    var bestMove: Option<A> := None;
    var alpha: Option<real> := None;
    var beta: Option<real> := None;
    ghost var choice: nat := 0;
    for k := 0 to |actions|
      invariant k == 0 ==> bestMove == None && ans == -BOUND && alpha == None && choice == 0
      invariant k > 0 ==> choice < k && bestMove == Some(actions[choice]) && alpha == Some(ans)
      invariant k > 0 ==> ans == RootChild(g, s, depth, agents, choice)
      invariant forall i :: 0 <= i < k ==>
        if i < choice then RootChild(g, s, depth, agents, i) < ans else RootChild(g, s, depth, agents, i) <= ans
    {
      if bestMove.None? {
        bestMove := Some(actions[k]);
      }
      var score := AlphaBetaValue(g, g.next(s, 0, actions[k]), 1, depth, agents, alpha, beta);
      ghost var v := RootChild(g, s, depth, agents, k);
      ValueBounded(g, g.next(s, 0, actions[k]), 1, depth, agents);
      if score > ans {
        bestMove := Some(actions[k]);
        choice := k;
      }
      ans := Max(ans, score);
      alpha := Raise(alpha, ans);
    }
    action := bestMove.value;
    assert BestAction(g, s, depth, agents, choice);
  }
}

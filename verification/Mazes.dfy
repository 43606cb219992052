/** Shortest paths in wall-enclosed mazes: breadth-first search for a path, the table of all
    distances, and the nearest food. */
module Mazes {
  import opened Wrappers
  import opened Sequences

  type Pos = (int, int)
  datatype Direction = North | South | East | West

  function Step(p: Pos, d: Direction): Pos {
    match d
    case North => (p.0, p.1 + 1)
    case South => (p.0, p.1 - 1)
    case East => (p.0 + 1, p.1)
    case West => (p.0 - 1, p.1)
  }

  predicate Adjacent(p: Pos, q: Pos) {
    q == Step(p, North) || q == Step(p, South) || q == Step(p, East) || q == Step(p, West)
  }

  /** Two cells are adjacent when they differ by one in one coordinate. */
  lemma AdjacentMeaning(p: Pos, q: Pos)
    ensures Adjacent(p, q) <==>
      (q.0 == p.0 && (q.1 == p.1 + 1 || q.1 == p.1 - 1)) || (q.1 == p.1 && (q.0 == p.0 + 1 || q.0 == p.0 - 1))
  {
  }

  /** walls[x][y] says whether there is a wall at (x, y). */
  datatype Maze = Maze(walls: seq<seq<bool>>) {
    predicate Inside(p: Pos) {
      0 <= p.0 < |walls| && 0 <= p.1 < |walls[p.0]|
    }

    predicate IsOpen(p: Pos) {
      Inside(p) && !walls[p.0][p.1]
    }

    /** The grid is a rectangle, and the cells on its border are walls. */
    predicate Enclosed() {
      && (forall x :: 0 <= x < |walls| ==> |walls[x]| == |walls[0]|)
      && (forall x, y :: 0 <= x < |walls| && 0 <= y < |walls[x]| && !walls[x][y] ==>
        0 < x < |walls| - 1 && 0 < y < |walls[x]| - 1)
    }
  }

  lemma StepInside(m: Maze, p: Pos, d: Direction)
    requires m.Enclosed() && m.IsOpen(p)
    ensures m.Inside(Step(p, d))
  {
    assert |m.walls[p.0]| == |m.walls[0]|;
    assert !m.walls[p.0][p.1];
    var q := Step(p, d);
    assert |m.walls[q.0]| == |m.walls[0]|;
  }

  // ---- Walks and distances ----

  /** There is a walk of n steps over open cells from s to t. */
  ghost predicate Walk(m: Maze, s: Pos, t: Pos, n: nat)
    decreases n
  {
    && m.IsOpen(t)
    && if n == 0 then s == t
       else
         var k: nat := n - 1;
         exists mid :: Walk(m, s, mid, k) && Adjacent(mid, t)
  }

  ghost predicate IsDistance(m: Maze, s: Pos, t: Pos, n: nat) {
    Walk(m, s, t, n) && forall k: nat :: Walk(m, s, t, k) ==> n <= k
  }

  lemma WalkStep(m: Maze, s: Pos, mid: Pos, t: Pos, n: nat)
    requires Walk(m, s, mid, n) && Adjacent(mid, t) && m.IsOpen(t)
    ensures Walk(m, s, t, n + 1)
  {
    var k: nat := n + 1;
    assert Walk(m, s, mid, n);
  }

  lemma WalkEndsOpen(m: Maze, s: Pos, t: Pos, n: nat)
    requires Walk(m, s, t, n)
    ensures m.IsOpen(t)
  {
  }

  lemma WalkBack(m: Maze, s: Pos, t: Pos, n: nat) returns (mid: Pos)
    requires Walk(m, s, t, n) && n > 0
    ensures m.IsOpen(t) && Walk(m, s, mid, n - 1) && Adjacent(mid, t)
  {
    var k: nat := n - 1;
    mid :| Walk(m, s, mid, k) && Adjacent(mid, t);
  }

  /** The numbers of the cells expanded so far bound those of all their neighbours. */
  ghost predicate Spreads(m: Maze, depth: map<Pos, nat>, closed: set<Pos>) {
    forall u, v :: u in closed && m.IsOpen(v) && Adjacent(u, v) ==> u in depth && v in depth && depth[v] <= depth[u] + 1
  }

  /** If every numbered cell that is not expanded has number `bound` or more, then a cell within
      k <= bound steps has number k or less. */
  lemma {:induction false} Reached(m: Maze, s: Pos, depth: map<Pos, nat>, closed: set<Pos>, bound: nat, t: Pos, k: nat)
    requires s in depth && depth[s] == 0 && Spreads(m, depth, closed)
    requires forall v :: v in depth && v !in closed ==> depth[v] >= bound
    requires Walk(m, s, t, k) && k <= bound
    ensures t in depth && depth[t] <= k
    decreases k
  {
    if k > 0 {
      var mid := WalkBack(m, s, t, k);
      Reached(m, s, depth, closed, bound, mid, k - 1);
      assert mid in closed;
    }
  }

  lemma ExactDepth(m: Maze, s: Pos, depth: map<Pos, nat>, closed: set<Pos>, t: Pos)
    requires s in depth && depth[s] == 0 && Spreads(m, depth, closed)
    requires t in depth && Walk(m, s, t, depth[t])
    requires forall v :: v in depth && v !in closed ==> depth[v] >= depth[t]
    ensures IsDistance(m, s, t, depth[t])
  {
    forall k: nat | Walk(m, s, t, k) ensures depth[t] <= k {
      if k < depth[t] { Reached(m, s, depth, closed, depth[t], t, k); }
    }
  }

  lemma NotReached(m: Maze, s: Pos, depth: map<Pos, nat>, closed: set<Pos>, t: Pos)
    requires s in depth && depth[s] == 0 && Spreads(m, depth, closed)
    requires depth.Keys <= closed && t !in depth
    ensures forall k: nat :: !Walk(m, s, t, k)
  {
    forall k: nat ensures !Walk(m, s, t, k) {
      if Walk(m, s, t, k) { Reached(m, s, depth, closed, k, t, k); }
    }
  }

  // ---- breadthFirstSearch and mazeDistance ----

  /** getSuccessors: the open neighbours with the action that leads there. */
  function Successors(m: Maze, p: Pos): (r: seq<(Pos, Direction)>)
    requires m.Enclosed() && m.IsOpen(p)
    ensures forall q, d :: (q, d) in r <==> q == Step(p, d) && m.IsOpen(q)
  {
    StepInside(m, p, North); StepInside(m, p, South); StepInside(m, p, East); StepInside(m, p, West);
    Successor(m, p, North) + Successor(m, p, South) + Successor(m, p, East) + Successor(m, p, West)
  }

  function Successor(m: Maze, p: Pos, d: Direction): seq<(Pos, Direction)>
    requires m.Inside(Step(p, d))
  {
    var q := Step(p, d);
    if m.walls[q.0][q.1] then [] else [(q, d)]
  }

  /** The actions lead from s over open cells to t. */
  predicate Leads(m: Maze, s: Pos, actions: seq<Direction>, t: Pos)
    decreases |actions|
  {
    if actions == [] then s == t
    else m.IsOpen(Step(s, actions[0])) && Leads(m, Step(s, actions[0]), actions[1..], t)
  }

  type Parents = map<Pos, (Pos, Direction)>

  /** North raises the second coordinate and South lowers it, East raises the first and West lowers it:
      the end of a list of actions is where their numbers say. */
  lemma {:induction false} Displacement(m: Maze, s: Pos, actions: seq<Direction>, t: Pos)
    requires Leads(m, s, actions, t)
    ensures t.0 + multiset(actions)[West] == s.0 + multiset(actions)[East]
    ensures t.1 + multiset(actions)[South] == s.1 + multiset(actions)[North]
    decreases |actions|
  {
    if actions != [] {
      assert actions == [actions[0]] + actions[1..];
      Displacement(m, Step(s, actions[0]), actions[1..], t);
    }
  }

  ghost predicate ParentsOk(m: Maze, start: Pos, parents: Parents, depth: map<Pos, nat>) {
    forall v :: v in depth && v != start ==>
      && v in parents && m.IsOpen(v)
      && parents[v].0 in depth && depth[v] == depth[parents[v].0] + 1
      && Step(parents[v].0, parents[v].1) == v
  }

  /** The queue holds the cells visited but not popped, by depth, over two levels. */
  ghost predicate Layered(fringe: seq<Pos>, depth: map<Pos, nat>, base: nat) {
    && NoRepeats(fringe)
    && (forall i :: 0 <= i < |fringe| ==> fringe[i] in depth && base <= depth[fringe[i]] <= base + 1)
    && (forall i, j :: 0 <= i < j < |fringe| ==>
      fringe[i] in depth && fringe[j] in depth && depth[fringe[i]] <= depth[fringe[j]])
  }

  /** popped: taken from the queue; closed: with all their neighbours visited. */
  ghost predicate Searched(m: Maze, start: Pos, visited: seq<Pos>, fringe: seq<Pos>, parents: Parents,
                           depth: map<Pos, nat>, popped: set<Pos>, closed: set<Pos>, base: nat) {
    && start in depth && depth[start] == 0
    && (forall v :: v in depth ==> Walk(m, start, v, depth[v]))
    && (forall v :: v in depth <==> v in visited)
    && (forall v :: v in depth <==> v in popped || v in fringe)
    && (forall v :: v in fringe ==> v !in popped)
    && (forall v :: v in popped ==> v in depth && depth[v] <= base)
    && Layered(fringe, depth, base)
    && ParentsOk(m, start, parents, depth)
    && closed <= popped && Spreads(m, depth, closed)
  }

  lemma PushLayered(fringe: seq<Pos>, depth: map<Pos, nat>, base: nat, v: Pos)
    requires Layered(fringe, depth, base) && v !in depth
    ensures Layered(fringe + [v], depth[v := base + 1], base)
  {
    assert forall i :: 0 <= i < |fringe| ==> fringe[i] in depth && fringe[i] != v;
  }

  lemma PopLayered(fringe: seq<Pos>, depth: map<Pos, nat>, base: nat)
    requires Layered(fringe, depth, base) && fringe != []
    ensures fringe[0] in depth && base <= depth[fringe[0]] && fringe[0] !in fringe[1..]
    ensures Layered(fringe[1..], depth, depth[fringe[0]])
  {
  }

  lemma VisitKeeps(m: Maze, start: Pos, visited: seq<Pos>, fringe: seq<Pos>, parents: Parents,
                   depth: map<Pos, nat>, popped: set<Pos>, closed: set<Pos>, base: nat, current: Pos, v: Pos,
                   d: Direction)
    requires Searched(m, start, visited, fringe, parents, depth, popped, closed, base)
    requires current in depth && depth[current] == base && v == Step(current, d) && m.IsOpen(v) && v !in visited
    ensures Searched(m, start, visited + [v], fringe + [v], parents[v := (current, d)], depth[v := base + 1], popped,
      closed, base)
  {
    hide Layered, Walk;
    PushLayered(fringe, depth, base, v);
    assert Adjacent(current, v);
    WalkStep(m, start, current, v, base);
  }

  lemma PopKeeps(m: Maze, start: Pos, visited: seq<Pos>, fringe: seq<Pos>, parents: Parents,
                 depth: map<Pos, nat>, popped: set<Pos>, base: nat)
    requires Searched(m, start, visited, fringe, parents, depth, popped, popped, base) && fringe != []
    ensures fringe[0] in depth && fringe[0] !in popped && m.IsOpen(fringe[0])
    ensures Searched(m, start, visited, fringe[1..], parents, depth, popped + {fringe[0]}, popped, depth[fringe[0]])
  {
    hide Spreads, ParentsOk, Layered, Walk;
    var current := fringe[0];
    PopLayered(fringe, depth, base);
    WalkEndsOpen(m, start, current, depth[current]);
    assert fringe == [current] + fringe[1..];
  }

  /** The popped cell is at its true distance. */
  lemma PoppedExact(m: Maze, start: Pos, visited: seq<Pos>, fringe: seq<Pos>, parents: Parents,
                    depth: map<Pos, nat>, popped: set<Pos>, base: nat)
    requires Searched(m, start, visited, fringe, parents, depth, popped, popped, base) && fringe != []
    ensures fringe[0] in depth && IsDistance(m, start, fringe[0], depth[fringe[0]])
  {
    hide Spreads, ParentsOk, IsDistance, Walk;
    forall v | v in depth && v !in popped ensures depth[v] >= depth[fringe[0]] {
      var i :| 0 <= i < |fringe| && fringe[i] == v;
    }
    ExactDepth(m, start, depth, popped, fringe[0]);
  }

  lemma InLayer(fringe: seq<Pos>, depth: map<Pos, nat>, base: nat, v: Pos)
    requires Layered(fringe, depth, base)
    ensures v in fringe ==> v in depth && depth[v] <= base + 1
  {
  }

  lemma ClosedKeeps(m: Maze, start: Pos, visited: seq<Pos>, fringe: seq<Pos>, parents: Parents,
                    depth: map<Pos, nat>, popped: set<Pos>, closed: set<Pos>, base: nat, current: Pos)
    requires Searched(m, start, visited, fringe, parents, depth, popped, closed, base)
    requires current in popped && depth[current] == base && popped == closed + {current}
    requires forall d :: m.IsOpen(Step(current, d)) ==> Step(current, d) in visited
    ensures Searched(m, start, visited, fringe, parents, depth, popped, popped, base)
  {
    hide Walk, ParentsOk, Layered;
    forall v | v in depth ensures depth[v] <= base + 1 {
      InLayer(fringe, depth, base, v);
    }
  }

  method Expand(m: Maze, start: Pos, current: Pos, visited: seq<Pos>, fringe: seq<Pos>, parents: Parents,
                ghost depth: map<Pos, nat>, ghost popped: set<Pos>, ghost closed: set<Pos>)
      returns (visited': seq<Pos>, fringe': seq<Pos>, parents': Parents, ghost depth': map<Pos, nat>)
    requires m.Enclosed() && m.IsOpen(current) && current in depth && current in popped && popped == closed + {current}
    requires Searched(m, start, visited, fringe, parents, depth, popped, closed, depth[current])
    ensures current in depth' && depth'[current] == depth[current]
    ensures Searched(m, start, visited', fringe', parents', depth', popped, popped, depth[current])
  {
    hide Searched, Successors;
    visited', fringe', parents', depth' := visited, fringe, parents, depth;
    var successors := Successors(m, current);
    for i := 0 to |successors|
      invariant current in depth' && depth'[current] == depth[current]
      invariant Searched(m, start, visited', fringe', parents', depth', popped, closed, depth[current])
      invariant forall j :: 0 <= j < i ==> successors[j].0 in visited'
    {
      var (node, action) := successors[i];
      assert successors[i] in successors;
      if node !in visited' {
        VisitKeeps(m, start, visited', fringe', parents', depth', popped, closed, depth[current], current, node,
          action);
        parents' := parents'[node := (current, action)];
        fringe' := fringe' + [node];
        visited' := visited' + [node];
        depth' := depth'[node := depth[current] + 1];
      }
    }
    forall d | m.IsOpen(Step(current, d)) ensures Step(current, d) in visited' {
      assert (Step(current, d), d) in successors;
    }
    ClosedKeeps(m, start, visited', fringe', parents', depth', popped, closed, depth[current], current);
  }

  lemma StartSearched(m: Maze, start: Pos)
    requires m.IsOpen(start)
    ensures Searched(m, start, [start], [start], map[], map[start := 0], {}, {}, 0)
  {
  }

  lemma ParentOf(m: Maze, start: Pos, visited: seq<Pos>, fringe: seq<Pos>, parents: Parents,
                 depth: map<Pos, nat>, popped: set<Pos>, closed: set<Pos>, base: nat, v: Pos)
    requires Searched(m, start, visited, fringe, parents, depth, popped, closed, base) && v in depth && v != start
    ensures v in parents && m.IsOpen(v) && parents[v].0 in depth
    ensures depth[v] == depth[parents[v].0] + 1 && Step(parents[v].0, parents[v].1) == v
  {
  }

  lemma LeadsBack(m: Maze, p: Pos, d: Direction, back: seq<Direction>, goal: Pos)
    requires m.IsOpen(Step(p, d)) && Leads(m, Step(p, d), Reverse(back), goal)
    ensures Leads(m, p, Reverse(back + [d]), goal)
  {
    assert (back + [d])[..|back|] == back;
    assert Reverse(back + [d]) == [d] + Reverse(back);
  }

  /** The loop over the parents, from the goal back to the start. */
  method PathTo(m: Maze, start: Pos, goal: Pos, parents: Parents, ghost visited: seq<Pos>, ghost fringe: seq<Pos>,
                ghost depth: map<Pos, nat>, ghost popped: set<Pos>, ghost closed: set<Pos>, ghost base: nat)
      returns (actions: seq<Direction>)
    requires Searched(m, start, visited, fringe, parents, depth, popped, closed, base) && goal in depth
    requires depth[start] == 0
    ensures |actions| == depth[goal] && Leads(m, start, actions, goal)
  {
    hide Searched, Leads;
    var ans: seq<Direction> := [];
    var state := goal;
    assert Leads(m, goal, Reverse(ans), goal) by { LeadsNowhere(m, goal); }
    while state != start
      invariant state in depth && |ans| + depth[state] == depth[goal]
      invariant Leads(m, state, Reverse(ans), goal)
      decreases depth[state]
    {
      ParentOf(m, start, visited, fringe, parents, depth, popped, closed, base, state);
      var p := parents[state];
      LeadsBack(m, p.0, p.1, ans, goal);
      ans := ans + [p.1];
      state := p.0;
    }
    actions := Reverse(ans);
  }

  lemma LeadsNowhere(m: Maze, p: Pos)
    ensures Leads(m, p, Reverse([]), p)
  {
  }

  /** The set of open cells; its subsets bound the number of turns of the search loops. */
  ghost function OpenCells(m: Maze): (r: set<Pos>)
    ensures forall p :: p in r <==> m.IsOpen(p)
  {
    set x, y | 0 <= x < |m.walls| && 0 <= y < |m.walls[x]| && !m.walls[x][y] :: (x, y)
  }

  lemma PoppedOpen(m: Maze, start: Pos, visited: seq<Pos>, fringe: seq<Pos>, parents: Parents,
                   depth: map<Pos, nat>, popped: set<Pos>, base: nat)
    requires Searched(m, start, visited, fringe, parents, depth, popped, popped, base)
    ensures popped <= OpenCells(m)
  {
    forall v | v in popped ensures v in OpenCells(m) {
      assert Walk(m, start, v, depth[v]);
    }
  }

  lemma NothingLeft(m: Maze, start: Pos, visited: seq<Pos>, parents: Parents, depth: map<Pos, nat>, popped: set<Pos>,
                    base: nat, goal: Pos)
    requires Searched(m, start, visited, [], parents, depth, popped, popped, base) && goal !in popped
    ensures forall k: nat :: !Walk(m, start, goal, k)
  {
    hide Walk, ParentsOk, Spreads, Layered;
    NotReached(m, start, depth, popped, goal);
  }

  /** None where the Python search pops from an empty queue. */
  method BreadthFirstSearch(m: Maze, start: Pos, goal: Pos) returns (actions: Option<seq<Direction>>)
    requires m.Enclosed() && m.IsOpen(start)
    ensures actions.None? ==> forall k: nat :: !Walk(m, start, goal, k)
    ensures actions.Some? ==> Leads(m, start, actions.value, goal) && IsDistance(m, start, goal, |actions.value|)
  {
    hide Searched, Leads, Walk, IsDistance;
    var fringe, visited: seq<Pos>, parents: Parents := [start], [start], map[];
    ghost var depth: map<Pos, nat>, popped: set<Pos>, base: nat := map[start := 0], {}, 0;
    StartSearched(m, start);
    while true
      invariant Searched(m, start, visited, fringe, parents, depth, popped, popped, base)
      invariant goal !in popped
      decreases OpenCells(m) - popped
    {
      if fringe == [] {
        NothingLeft(m, start, visited, parents, depth, popped, base, goal);
        return None;
      }
      var current := fringe[0];
      PopKeeps(m, start, visited, fringe, parents, depth, popped, base);
      PoppedExact(m, start, visited, fringe, parents, depth, popped, base);
      PoppedOpen(m, start, visited, fringe, parents, depth, popped, base);
      fringe := fringe[1..];
      if current == goal {
        StartDepth(m, start, visited, fringe, parents, depth, popped + {current}, popped, depth[current]);
        var path := PathTo(m, start, goal, parents, visited, fringe, depth, popped + {current}, popped, depth[current]);
        return Some(path);
      }
      assert current in OpenCells(m) - popped;
      ghost var next := depth[current];
      visited, fringe, parents, depth :=
        Expand(m, start, current, visited, fringe, parents, depth, popped + {current}, popped);
      popped, base := popped + {current}, next;
    }
  }

  lemma StartDepth(m: Maze, start: Pos, visited: seq<Pos>, fringe: seq<Pos>, parents: Parents,
                   depth: map<Pos, nat>, popped: set<Pos>, closed: set<Pos>, base: nat)
    requires Searched(m, start, visited, fringe, parents, depth, popped, closed, base)
    ensures start in depth && depth[start] == 0
  {
  }

  method MazeDistance(m: Maze, point1: Pos, point2: Pos) returns (distance: Option<nat>)
    requires m.Enclosed() && m.IsOpen(point1) && m.IsOpen(point2)
    ensures distance.Some? ==> IsDistance(m, point1, point2, distance.value)
    ensures distance.None? ==> forall k: nat :: !Walk(m, point1, point2, k)
  {
    var path := BreadthFirstSearch(m, point1, point2);
    distance := if path.Some? then Some(|path.value|) else None;
  }

  // ---- computeDistances ----

  const UNREACHED: nat := 1000000000

  type Entry = (int, Pos)

  /** The queue's entries all have priority base or more; a cell that was reached and not closed
      waits with its current number. */
  ghost predicate Relaxed(m: Maze, source: Pos, dist: map<Pos, nat>, queue: seq<Entry>, popped: set<Pos>,
                          closed: set<Pos>, base: nat) {
    && source in dist && dist[source] == 0
    && (forall v :: v in dist <==> m.IsOpen(v))
    && (forall v :: v in dist ==> dist[v] <= UNREACHED)
    && (forall v :: v in dist && dist[v] < UNREACHED ==> Walk(m, source, v, dist[v]))
    && (forall e :: e in queue ==> e.1 in dist && base <= e.0 && dist[e.1] <= e.0 < UNREACHED)
    && (forall v :: v in dist && v !in popped && dist[v] < UNREACHED ==> (dist[v], v) in queue)
    && (forall v :: v in popped ==> v in dist && dist[v] <= base)
    && closed <= popped && Spreads(m, dist, closed)
  }

  lemma RelaxStart(m: Maze, source: Pos, dist: map<Pos, nat>)
    requires m.IsOpen(source) && forall v :: v in dist <==> m.IsOpen(v)
    requires forall v :: v in dist ==> dist[v] == if v == source then 0 else UNREACHED
    ensures Relaxed(m, source, dist, [(0, source)], {}, {}, 0)
  {
  }

  /** Stands for the heap: removes an entry of least priority, the one pushed first. */
  method PopMin(queue: seq<Entry>) returns (e: Entry, rest: seq<Entry>)
    requires queue != []
    ensures e in queue && forall f :: f in queue ==> e.0 <= f.0
    ensures |rest| < |queue|
    ensures forall f :: f in queue <==> f == e || f in rest
  {
    var i := 0;
    for k := 1 to |queue|
      invariant 0 <= i < k && forall j :: 0 <= j < k ==> queue[i].0 <= queue[j].0
    {
      if queue[k].0 < queue[i].0 { i := k; }
    }
    e := queue[i];
    rest := queue[..i] + queue[i + 1..];
    assert queue == queue[..i] + [e] + queue[i + 1..];
  }

  lemma PopRelaxed(m: Maze, source: Pos, dist: map<Pos, nat>, queue: seq<Entry>, closed: set<Pos>, base: nat, e: Entry,
                   rest: seq<Entry>)
    requires Relaxed(m, source, dist, queue, closed, closed, base)
    requires e in queue && (forall f :: f in queue ==> e.0 <= f.0) && forall f :: f in queue <==> f == e || f in rest
    ensures e.0 >= 0 && e.1 in dist
    ensures e.1 in closed ==> Relaxed(m, source, dist, rest, closed, closed, e.0)
    ensures e.1 !in closed ==> dist[e.1] == e.0 && Relaxed(m, source, dist, rest, closed + {e.1}, closed, e.0)
  {
    hide Walk, Spreads;
    if e.1 !in closed {
      assert (dist[e.1], e.1) in queue;
    }
  }

  lemma RelaxKeeps(m: Maze, source: Pos, dist: map<Pos, nat>, queue: seq<Entry>, popped: set<Pos>, closed: set<Pos>,
                   base: nat, node: Pos, other: Pos)
    requires Relaxed(m, source, dist, queue, popped, closed, base)
    requires node in popped && dist[node] == base && Adjacent(node, other) && m.IsOpen(other) && base + 1 < dist[other]
    ensures Relaxed(m, source, dist[other := base + 1], queue + [(base + 1, other)], popped, closed, base)
  {
    hide Walk;
    WalkStep(m, source, node, other, base);
    assert other !in popped;
  }

  lemma ClosedRelaxed(m: Maze, source: Pos, dist: map<Pos, nat>, queue: seq<Entry>, popped: set<Pos>, closed: set<Pos>,
                      base: nat, node: Pos)
    requires Relaxed(m, source, dist, queue, popped, closed, base)
    requires node in popped && dist[node] == base && popped == closed + {node}
    requires forall v :: m.IsOpen(v) && Adjacent(node, v) ==> v in dist && dist[v] <= base + 1
    ensures Relaxed(m, source, dist, queue, popped, popped, base)
  {
    hide Walk;
  }

  /** The neighbours without a wall, in the order up, down, right, left. */
  function AdjacentCells(m: Maze, p: Pos): (r: seq<Pos>)
    requires m.Enclosed() && m.IsOpen(p)
    ensures forall q :: q in r <==> m.IsOpen(q) && Adjacent(p, q)
  {
    StepInside(m, p, North); StepInside(m, p, South); StepInside(m, p, East); StepInside(m, p, West);
    OpenCell(m, Step(p, North)) + OpenCell(m, Step(p, South)) + OpenCell(m, Step(p, East)) + OpenCell(m, Step(p, West))
  }

  function OpenCell(m: Maze, q: Pos): seq<Pos>
    requires m.Inside(q)
  {
    if m.walls[q.0][q.1] then [] else [q]
  }

  method RelaxNeighbours(m: Maze, source: Pos, node: Pos, dist: map<Pos, nat>, queue: seq<Entry>,
                         ghost popped: set<Pos>, ghost closed: set<Pos>)
                         returns (dist': map<Pos, nat>, queue': seq<Entry>)
    requires m.Enclosed() && m.IsOpen(node) && node in dist && node in popped && popped == closed + {node}
    requires Relaxed(m, source, dist, queue, popped, closed, dist[node])
    ensures Relaxed(m, source, dist', queue', popped, popped, dist[node])
  {
    hide Relaxed, AdjacentCells;
    dist', queue' := dist, queue;
    var nodeDist := dist[node];
    var adjacent := AdjacentCells(m, node);
    for i := 0 to |adjacent|
      invariant node in dist' && dist'[node] == nodeDist
      invariant Relaxed(m, source, dist', queue', popped, closed, nodeDist)
      invariant forall j :: 0 <= j < i ==> adjacent[j] in dist' && dist'[adjacent[j]] <= nodeDist + 1
    {
      var other := adjacent[i];
      assert other in adjacent;
      DistanceOf(m, source, dist', queue', popped, closed, nodeDist, other);
      var newDist := nodeDist + 1;
      if newDist < dist'[other] {
        RelaxKeeps(m, source, dist', queue', popped, closed, nodeDist, node, other);
        dist' := dist'[other := newDist];
        queue' := queue' + [(newDist, other)];
      }
    }
    forall v | m.IsOpen(v) && Adjacent(node, v) ensures v in dist' && dist'[v] <= nodeDist + 1 {
      assert v in adjacent;
    }
    ClosedRelaxed(m, source, dist', queue', popped, closed, nodeDist, node);
  }

  lemma DistanceOf(m: Maze, source: Pos, dist: map<Pos, nat>, queue: seq<Entry>, popped: set<Pos>, closed: set<Pos>,
                   base: nat, v: Pos)
    requires Relaxed(m, source, dist, queue, popped, closed, base)
    ensures v in dist <==> m.IsOpen(v)
  {
  }

  /** The table entry: the distance, or 1000000000 where there is no shorter walk. */
  ghost predicate TableEntry(m: Maze, source: Pos, target: Pos, d: nat) {
    if d < 1000000000 then IsDistance(m, source, target, d)
    else d == 1000000000 && forall k: nat :: k < 1000000000 ==> !Walk(m, source, target, k)
  }

  lemma FinishedTable(m: Maze, source: Pos, dist: map<Pos, nat>, closed: set<Pos>, base: nat, target: Pos)
    requires Relaxed(m, source, dist, [], closed, closed, base) && m.IsOpen(target)
    ensures target in dist && TableEntry(m, source, target, dist[target])
  {
    hide Walk, Spreads;
    if dist[target] < UNREACHED {
      assert forall v :: v in dist && v !in closed ==> dist[v] >= UNREACHED;
      ExactDepth(m, source, dist, closed, target);
    } else {
      forall k: nat | k < UNREACHED ensures !Walk(m, source, target, k) {
        if Walk(m, source, target, k) { Reached(m, source, dist, closed, UNREACHED, target, k); }
      }
    }
  }

  method DistancesFrom(m: Maze, allNodes: seq<Pos>, source: Pos) returns (dist: map<Pos, nat>)
    requires m.Enclosed() && m.IsOpen(source) && forall v :: v in allNodes <==> m.IsOpen(v)
    ensures forall v :: v in dist <==> m.IsOpen(v)
    ensures forall v :: m.IsOpen(v) ==> TableEntry(m, source, v, dist[v])
  {
    hide Relaxed, TableEntry;
    dist := map[];
    for i := 0 to |allNodes|
      invariant forall v :: v in dist <==> v in allNodes[..i]
      invariant forall v :: v in dist ==> dist[v] == UNREACHED
    {
      dist := dist[allNodes[i] := UNREACHED];
    }
    assert allNodes[..|allNodes|] == allNodes;
    var queue: seq<Entry> := [(0, source)];
    dist := dist[source := 0];
    var closed: set<Pos> := {};
    ghost var base: nat := 0;
    RelaxStart(m, source, dist);
    while queue != []
      invariant Relaxed(m, source, dist, queue, closed, closed, base)
      decreases OpenCells(m) - closed, |queue|
    {
      var e, rest := PopMin(queue);
      PopRelaxed(m, source, dist, queue, closed, base, e, rest);
      DistanceOf(m, source, dist, queue, closed, closed, base, e.1);
      queue := rest;
      base := e.0;
      if e.1 !in closed {
        assert e.1 in OpenCells(m) - closed;
        dist, queue := RelaxNeighbours(m, source, e.1, dist, queue, closed + {e.1}, closed);
        closed := closed + {e.1};
      }
    }
    forall v | m.IsOpen(v) ensures v in dist && TableEntry(m, source, v, dist[v]) {
      FinishedTable(m, source, dist, closed, base, v);
    }
    forall v ensures v in dist <==> m.IsOpen(v) {
      DistanceOf(m, source, dist, queue, closed, closed, base, v);
    }
  }

  /** walls.asList(False). */
  method AllNodes(m: Maze) returns (nodes: seq<Pos>)
    ensures forall v :: v in nodes <==> m.IsOpen(v)
  {
    nodes := [];
    for x := 0 to |m.walls|
      invariant forall v :: v in nodes <==> m.IsOpen(v) && v.0 < x
    {
      for y := 0 to |m.walls[x]|
        invariant forall v :: v in nodes <==> m.IsOpen(v) && (v.0 < x || (v.0 == x && v.1 < y))
      {
        if !m.walls[x][y] {
          nodes := nodes + [(x, y)];
        }
      }
    }
  }

  type Table = map<(Pos, Pos), nat>

  /** The table has the entries of all open targets for the sources done so far. */
  ghost predicate TableOk(m: Maze, done: seq<Pos>, distances: Table) {
    && (forall target, source :: (target, source) in distances <==> m.IsOpen(target) && source in done)
    && (forall target, source :: (target, source) in distances ==>
      TableEntry(m, source, target, distances[(target, source)]))
  }

  /** The innermost loop, which copies the distances from one source. */
  method AddColumn(m: Maze, allNodes: seq<Pos>, done: seq<Pos>, source: Pos, dist: map<Pos, nat>, distances: Table)
    returns (more: Table)
    requires forall v :: v in allNodes <==> m.IsOpen(v)
    requires forall v :: v in dist <==> m.IsOpen(v)
    requires forall v :: m.IsOpen(v) ==> TableEntry(m, source, v, dist[v])
    requires TableOk(m, done, distances)
    ensures TableOk(m, done + [source], more)
  {
    hide TableEntry;
    more := distances;
    for j := 0 to |allNodes|
      invariant forall t, s :: (t, s) in more <==> (t, s) in distances || (t in allNodes[..j] && s == source)
      invariant forall t, s :: (t, s) in more ==> TableEntry(m, s, t, more[(t, s)])
    {
      var target := allNodes[j];
      assert target in allNodes;
      more := more[(target, source) := dist[target]];
    }
    assert allNodes[..|allNodes|] == allNodes;
  }

  /** For all pairs of open cells, the distance from the second to the first. */
  method ComputeDistances(m: Maze) returns (distances: Table)
    requires m.Enclosed()
    ensures forall target, source :: (target, source) in distances <==> m.IsOpen(target) && m.IsOpen(source)
    ensures forall target, source :: (target, source) in distances ==>
      TableEntry(m, source, target, distances[(target, source)])
  {
    hide TableEntry;
    var allNodes := AllNodes(m);
    distances := map[];
    for i := 0 to |allNodes|
      invariant TableOk(m, allNodes[..i], distances)
    {
      hide TableOk;
      var source := allNodes[i];
      assert source in allNodes;
      var dist := DistancesFrom(m, allNodes, source);
      distances := AddColumn(m, allNodes, allNodes[..i], source, dist, distances);
      assert allNodes[..i + 1] == allNodes[..i] + [source];
    }
    assert allNodes[..|allNodes|] == allNodes;
  }

  /** The table and the breadth-first search agree. */
  lemma TableAgrees(m: Maze, source: Pos, target: Pos, d: nat, n: nat)
    requires TableEntry(m, source, target, d) && IsDistance(m, source, target, n)
    ensures d == if n < 1000000000 then n else 1000000000
  {
  }

  // ---- closestFood ----

  /** getLegalNeighbors; the list of directions holds Stop, so the cell itself is among them. */
  function LegalNeighbors(m: Maze, p: Pos): (r: seq<Pos>)
    requires m.Enclosed() && m.IsOpen(p)
    ensures forall q :: q in r <==> q == p || (m.IsOpen(q) && Adjacent(p, q))
  {
    StepInside(m, p, North); StepInside(m, p, South); StepInside(m, p, East); StepInside(m, p, West);
    OpenCell(m, Step(p, West)) + OpenCell(m, p) + OpenCell(m, Step(p, East)) + OpenCell(m, Step(p, North)) +
      OpenCell(m, Step(p, South))
  }

  type Item = (Pos, nat)

  /** The fringe is sorted over two levels; a cell may be in it several times. */
  ghost predicate Items(fringe: seq<Item>, depth: map<Pos, nat>, base: nat) {
    && (forall e :: e in fringe ==> e.0 in depth && depth[e.0] <= e.1 && base <= e.1 <= base + 1)
    && (forall i, j :: 0 <= i < j < |fringe| ==> fringe[i].1 <= fringe[j].1)
  }

  lemma PopItems(fringe: seq<Item>, depth: map<Pos, nat>, base: nat)
    requires Items(fringe, depth, base) && fringe != []
    ensures fringe[0].0 in depth && depth[fringe[0].0] <= fringe[0].1 && base <= fringe[0].1 <= base + 1
    ensures Items(fringe[1..], depth, fringe[0].1)
    ensures forall e :: e in fringe ==> fringe[0].1 <= e.1
    ensures forall e :: e in fringe ==> e == fringe[0] || e in fringe[1..]
  {
  }

  lemma PushItems(fringe: seq<Item>, depth: map<Pos, nat>, base: nat, q: Pos)
    requires Items(fringe, depth, base) && (q in depth ==> depth[q] <= base + 1)
    ensures Items(fringe + [(q, base + 1)], if q in depth then depth else depth[q := base + 1], base)
  {
    assert forall e :: e in fringe ==> e.0 in depth;
  }

  /** popped: expanded; closed: with all neighbours pushed. */
  ghost predicate Fringe(m: Maze, start: Pos, fringe: seq<Item>, depth: map<Pos, nat>, popped: set<Pos>,
                         closed: set<Pos>, base: nat) {
    && start in depth && depth[start] == 0
    && (forall v :: v in depth ==> Walk(m, start, v, depth[v]) && depth[v] <= base + 1)
    && Items(fringe, depth, base)
    && (forall v :: v in depth && v !in popped ==> (v, depth[v]) in fringe)
    && (forall v :: v in popped ==> v in depth && depth[v] <= base)
    && closed <= popped && Spreads(m, depth, closed)
  }

  /** The first item, if its cell is not expanded yet, carries the cell's distance, and no cell
      that is not expanded is closer. */
  lemma FirstIsNearest(m: Maze, start: Pos, fringe: seq<Item>, depth: map<Pos, nat>, popped: set<Pos>, base: nat)
    requires Fringe(m, start, fringe, depth, popped, popped, base) && fringe != [] && fringe[0].0 !in popped
    ensures var (p, k) := fringe[0];
            && p in depth && depth[p] == k && IsDistance(m, start, p, k)
            && forall v, n: nat :: v !in popped && Walk(m, start, v, n) ==> k <= n
  {
    hide Spreads, IsDistance, Items, Walk;
    var (p, k) := fringe[0];
    PopItems(fringe, depth, base);
    forall v | v in depth && v !in popped ensures depth[v] >= k {
      assert (v, depth[v]) in fringe;
    }
    ExactDepth(m, start, depth, popped, p);
    forall v, n: nat | v !in popped && Walk(m, start, v, n) ensures k <= n {
      if n < k { Reached(m, start, depth, popped, k, v, n); }
    }
  }

  lemma PopFringe(m: Maze, start: Pos, fringe: seq<Item>, depth: map<Pos, nat>, popped: set<Pos>, base: nat)
    requires Fringe(m, start, fringe, depth, popped, popped, base) && fringe != []
    ensures var (p, k) := fringe[0];
            && p in depth && m.IsOpen(p) && depth[p] <= k
            && (if p in popped then Fringe(m, start, fringe[1..], depth, popped, popped, k)
                else depth[p] == k ==> Fringe(m, start, fringe[1..], depth, popped + {p}, popped, k))
  {
    hide Spreads, Items, Walk;
    var (p, k) := fringe[0];
    PopItems(fringe, depth, base);
    WalkEndsOpen(m, start, p, depth[p]);
    forall v | v in depth && v !in popped + {p} ensures (v, depth[v]) in fringe[1..] {
      assert (v, depth[v]) in fringe;
    }
  }

  lemma PushKeeps(m: Maze, start: Pos, fringe: seq<Item>, depth: map<Pos, nat>, popped: set<Pos>, closed: set<Pos>,
                  base: nat, p: Pos, q: Pos)
    requires Fringe(m, start, fringe, depth, popped, closed, base) && p in popped && depth[p] == base
    requires q == p || (Adjacent(p, q) && m.IsOpen(q))
    ensures Fringe(m, start, fringe + [(q, base + 1)], if q in depth then depth else depth[q := base + 1], popped,
      closed, base)
  {
    hide Items, Walk, Adjacent;
    PushItems(fringe, depth, base, q);
    if q !in depth { WalkStep(m, start, p, q, base); }
  }

  lemma FringeClosed(m: Maze, start: Pos, fringe: seq<Item>, depth: map<Pos, nat>, popped: set<Pos>, closed: set<Pos>,
                     base: nat, p: Pos)
    requires Fringe(m, start, fringe, depth, popped, closed, base) && p in popped && depth[p] == base
    requires popped == closed + {p}
    requires forall q :: m.IsOpen(q) && Adjacent(p, q) ==> q in depth
    ensures Fringe(m, start, fringe, depth, popped, popped, base)
  {
    hide Walk;
  }

  method PushNeighbours(m: Maze, start: Pos, p: Pos, k: nat, fringe: seq<Item>,
                        ghost depth: map<Pos, nat>, ghost popped: set<Pos>, ghost closed: set<Pos>)
      returns (fringe': seq<Item>, ghost depth': map<Pos, nat>)
    requires m.Enclosed() && m.IsOpen(p) && p in depth && depth[p] == k && p in popped && popped == closed + {p}
    requires Fringe(m, start, fringe, depth, popped, closed, k)
    ensures Fringe(m, start, fringe', depth', popped, popped, k)
  {
    hide Fringe, LegalNeighbors;
    fringe', depth' := fringe, depth;
    var nbrs := LegalNeighbors(m, p);
    for i := 0 to |nbrs|
      invariant p in depth' && depth'[p] == k
      invariant Fringe(m, start, fringe', depth', popped, closed, k)
      invariant forall j :: 0 <= j < i ==> nbrs[j] in depth'
    {
      assert nbrs[i] in nbrs;
      PushKeeps(m, start, fringe', depth', popped, closed, k, p, nbrs[i]);
      fringe' := fringe' + [(nbrs[i], k + 1)];
      if nbrs[i] !in depth' {
        depth' := depth'[nbrs[i] := k + 1];
      }
    }
    forall q | m.IsOpen(q) && Adjacent(p, q) ensures q in depth' {
      assert q in nbrs;
    }
    FringeClosed(m, start, fringe', depth', popped, closed, k, p);
  }

  predicate HasFood(m: Maze, food: seq<seq<bool>>, p: Pos)
    requires |food| == |m.walls| && forall x :: 0 <= x < |food| ==> |food[x]| == |m.walls[x]|
  {
    m.IsOpen(p) && food[p.0][p.1]
  }

  /** The least distance to a cell with food, or None if no such cell can be reached. */
  method ClosestFood(m: Maze, pos: Pos, food: seq<seq<bool>>) returns (distance: Option<nat>)
    requires m.Enclosed() && m.IsOpen(pos)
    requires |food| == |m.walls| && forall x :: 0 <= x < |food| ==> |food[x]| == |m.walls[x]|
    ensures distance.Some? ==> exists q :: HasFood(m, food, q) && IsDistance(m, pos, q, distance.value)
    ensures forall q, n: nat :: HasFood(m, food, q) && Walk(m, pos, q, n) ==> distance.Some? && distance.value <= n
  {
    hide Fringe, IsDistance, Walk;
    var fringe: seq<Item>, expanded: set<Pos> := [(pos, 0)], {};
    ghost var depth: map<Pos, nat>, base: nat := map[pos := 0], 0;
    FringeStart(m, pos);
    while fringe != []
      invariant Fringe(m, pos, fringe, depth, expanded, expanded, base)
      invariant forall q :: q in expanded ==> !HasFood(m, food, q)
      decreases OpenCells(m) - expanded, |fringe|
    {
      var (p, dist) := fringe[0];
      PopFringe(m, pos, fringe, depth, expanded, base);
      if p !in expanded { FirstIsNearest(m, pos, fringe, depth, expanded, base); }
      fringe := fringe[1..];
      base := dist;
      if p !in expanded {
        if food[p.0][p.1] {
          return Some(dist);
        }
        assert p in OpenCells(m) - expanded;
        fringe, depth := PushNeighbours(m, pos, p, dist, fringe, depth, expanded + {p}, expanded);
        expanded := expanded + {p};
      }
    }
    forall q, n: nat | HasFood(m, food, q) ensures !Walk(m, pos, q, n) {
      FringeEnds(m, pos, depth, expanded, base, q, n);
    }
    return None;
  }

  lemma FringeStart(m: Maze, start: Pos)
    requires m.IsOpen(start)
    ensures Fringe(m, start, [(start, 0)], map[start := 0], {}, {}, 0)
  {
  }

  lemma FringeEnds(m: Maze, start: Pos, depth: map<Pos, nat>, popped: set<Pos>, base: nat, q: Pos, n: nat)
    requires Fringe(m, start, [], depth, popped, popped, base) && q !in popped
    ensures !Walk(m, start, q, n)
  {
    hide Walk, Spreads;
    NotReached(m, start, depth, popped, q);
  }
}

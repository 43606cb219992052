/** A MapReduce job can always be finished: from every world that a run reaches, whatever was lost
    or crashed, timeouts, answers, writes and reports lead to Done. */
module JobProgress {
  import opened Wrappers
  import opened Sequences
  import opened Sequential
  import opened Coordinator
  import opened MapReduce

  /** The run can go on to the world u. */
  ghost predicate Continues(j: Job, events: seq<Event>, u: World) {
    exists more :: Reaches(j, events + more, u)
  }

  lemma ContinueStart(j: Job, events: seq<Event>, w: World)
    requires Reaches(j, events, w)
    ensures Continues(j, events, w)
  {
    assert events + [] == events;
  }

  lemma ContinueStep(j: Job, events: seq<Event>, w: World, e: Event, u: World)
    requires Continues(j, events, w) && Step(j, w, e, u)
    ensures Continues(j, events, u)
  {
    hide Step;
    var more :| Reaches(j, events + more, w);
    var longer := events + (more + [e]);
    assert longer[..|longer| - 1] == events + more && longer[|longer| - 1] == e;
    assert Reaches(j, longer, u);
  }

  lemma ContinuesOk(j: Job, events: seq<Event>, w: World)
    requires Continues(j, events, w)
    ensures CoordOk(j, w) && DiskOk(j, w)
  {
    hide CoordOk, DiskOk, Reaches;
    var more :| Reaches(j, events + more, w);
    RunKeeps(j, events + more, w);
  }

  // ---- Timeouts and requests ----

  /** A timeout frees the named task if it is assigned, and touches nothing else. */
  lemma TimeoutFrees(c: State, id: int, level: Level)
    ensures var d := Expire(c, id, level);
      && d.nMap == c.nMap && d.nReduce == c.nReduce
      && d.mapTasks.Keys == c.mapTasks.Keys && d.reduceTasks.Keys == c.reduceTasks.Keys
      && (forall i :: i in c.mapTasks ==>
        if i == id && level == MapLevel && c.mapTasks[i].status == Assigned
        then d.mapTasks[i] == Task(c.mapTasks[i].source, Free) else d.mapTasks[i] == c.mapTasks[i])
      && (forall i :: i in c.reduceTasks ==>
        if i == id && level != MapLevel && c.reduceTasks[i].status == Assigned
        then d.reduceTasks[i] == Task(c.reduceTasks[i].source, Free) else d.reduceTasks[i] == c.reduceTasks[i])
  {
  }

  /** An uncompleted map task can be made free by waiting for its timeout. */
  lemma FreeMap(j: Job, events: seq<Event>, w: World, i: int) returns (u: World)
    requires Continues(j, events, w) && i in w.coord.mapTasks && w.coord.mapTasks[i].status != Completed
    ensures Continues(j, events, u) && u == w.(coord := u.coord)
    ensures IsFree(u.coord.mapTasks, i) && u.coord.nMap == w.coord.nMap && u.coord.nReduce == w.coord.nReduce
  {
    TimeoutFrees(w.coord, i, MapLevel);
    u := w.(coord := Expire(w.coord, i, MapLevel));
    ContinueStep(j, events, w, TimeUp(i, MapLevel), u);
  }

  lemma FreeReduce(j: Job, events: seq<Event>, w: World, i: int) returns (u: World)
    requires Continues(j, events, w) && i in w.coord.reduceTasks && w.coord.reduceTasks[i].status != Completed
    ensures Continues(j, events, u) && u == w.(coord := u.coord)
    ensures IsFree(u.coord.reduceTasks, i) && u.coord.nMap == w.coord.nMap && u.coord.nReduce == w.coord.nReduce
  {
    TimeoutFrees(w.coord, i, ReduceLevel);
    u := w.(coord := Expire(w.coord, i, ReduceLevel));
    ContinueStep(j, events, w, TimeUp(i, ReduceLevel), u);
  }

  /** A free map task can be handed out. */
  lemma TakeMap(j: Job, events: seq<Event>, w: World, i: int) returns (u: World, r: Reply)
    requires Continues(j, events, w) && w.coord.nMap != 0 && IsFree(w.coord.mapTasks, i)
    ensures Continues(j, events, u) && r in u.replies && r.id == i && r.level == MapLevel && u.finished == w.finished
    ensures i in u.coord.mapTasks && u.coord.mapTasks[i].status == Assigned && u.coord.nMap == w.coord.nMap
  {
    r := Reply(i, MapLevel, w.coord.mapTasks[i].source, w.coord.nReduce);
    var d := w.coord.(mapTasks := Assign(w.coord.mapTasks, i));
    assert AskStep(w.coord, None, d, r);
    u := w.(coord := d, replies := w.replies + {r});
    assert AskEvent(w, None, u);
    ContinueStep(j, events, w, Ask(None), u);
  }

  lemma TakeReduce(j: Job, events: seq<Event>, w: World, i: int) returns (u: World, r: Reply)
    requires Continues(j, events, w) && w.coord.nMap == 0 && IsFree(w.coord.reduceTasks, i)
    ensures Continues(j, events, u) && r in u.replies && r.id == i && r.level == ReduceLevel && u.finished == w.finished
    ensures i in u.coord.reduceTasks && u.coord.reduceTasks[i].status == Assigned
    ensures u.coord.nMap == w.coord.nMap && u.coord.nReduce == w.coord.nReduce
  {
    r := Reply(i, ReduceLevel, w.coord.reduceTasks[i].source, w.coord.nReduce);
    var d := w.coord.(reduceTasks := Assign(w.coord.reduceTasks, i));
    assert AskStep(w.coord, None, d, r);
    u := w.(coord := d, replies := w.replies + {r});
    assert AskEvent(w, None, u);
    ContinueStep(j, events, w, Ask(None), u);
  }

  /** Every request is answered. */
  lemma SomeAnswer(c: State, report: Report) returns (d: State, reply: Reply)
    requires Reportable(c, report)
    ensures AskStep(c, report, d, reply)
    ensures d.nMap == Reported(c, report).nMap && d.nReduce == Reported(c, report).nReduce
  {
    var r := Reported(c, report);
    d := r;
    if r.nMap != 0 {
      if HasFree(r.mapTasks) {
        var i :| i in r.mapTasks && r.mapTasks[i].status == Free;
        reply := Reply(i, MapLevel, r.mapTasks[i].source, r.nReduce);
        d := r.(mapTasks := Assign(r.mapTasks, i));
      } else {
        reply := Reply(-1, NoLevel, NoSource, -1);
      }
    } else {
      if HasFree(r.reduceTasks) {
        var i :| i in r.reduceTasks && r.reduceTasks[i].status == Free;
        reply := Reply(i, ReduceLevel, r.reduceTasks[i].source, r.nReduce);
        d := r.(reduceTasks := Assign(r.reduceTasks, i));
      } else {
        reply := Reply(-2, NoLevel, NoSource, -2);
      }
    }
  }

  /** A finished task is reported with the next request. */
  lemma ReportBack(j: Job, events: seq<Event>, w: World, id: int, level: Level) returns (u: World)
    requires Continues(j, events, w) && (id, level) in w.finished && Reportable(w.coord, Some((id, level)))
    ensures Continues(j, events, u)
    ensures u.coord.nMap == TaskDone(w.coord, id, level).nMap && u.coord.nReduce == TaskDone(w.coord, id, level).nReduce
  {
    var d, reply := SomeAnswer(w.coord, Some((id, level)));
    u := w.(coord := d, replies := w.replies + {reply});
    assert AskEvent(w, Some((id, level)), u);
    ContinueStep(j, events, w, Ask(Some((id, level))), u);
  }

  // ---- Carrying out a map task ----

  /** All files of a map answer can be written. */
  lemma {:induction false} WriteFiles(j: Job, events: seq<Event>, w: World, r: Reply, b: nat) returns (u: World)
    requires Continues(j, events, w) && r in w.replies && r.level == MapLevel && r.source.InputFile? && b <= r.nRed
    ensures Continues(j, events, u) && u == w.(disk := u.disk)
    ensures forall k :: 0 <= k < b ==> (r.id, k) in u.disk
    decreases b
  {
    if b == 0 {
      u := w;
    } else {
      var v := WriteFiles(j, events, w, r, b - 1);
      var k: nat := b - 1;
      u := v.(disk := v.disk[(r.id, k) := InBucket(j.hash, j.mapf(r.source.name), r.nRed, k)]);
      ContinueStep(j, events, v, WriteFile(r, k), u);
    }
  }

  lemma MapAnswerComplete(j: Job, w: World, r: Reply)
    requires CoordOk(j, w) && r in w.replies && r.level == MapLevel
    ensures r.source.InputFile? && r.nRed == j.buckets
  {
    hide Ok;
    assert GoodReply(j, w.coord, r);
  }

  lemma RunMap(j: Job, events: seq<Event>, w: World, r: Reply) returns (u: World)
    requires Continues(j, events, w) && r in w.replies && r.level == MapLevel
    ensures Continues(j, events, u) && (r.id, MapLevel) in u.finished && u.coord == w.coord
  {
    hide CoordOk, DiskOk, Continues;
    ContinuesOk(j, events, w);
    MapAnswerComplete(j, w, r);
    var v := WriteFiles(j, events, w, r, j.buckets);
    u := v.(finished := v.finished + {(r.id, MapLevel)});
    ContinueStep(j, events, v, MapFinished(r), u);
  }

  lemma SomeUncompleted(tasks: Tasks) returns (i: int)
    requires |Uncompleted(tasks)| > 0
    ensures i in tasks && tasks[i].status != Completed
  {
    i := NonEmpty(Uncompleted(tasks));
  }

  lemma Counts(j: Job, w: World)
    requires CoordOk(j, w)
    ensures w.coord.nMap == |Uncompleted(w.coord.mapTasks)| && w.coord.nReduce == |Uncompleted(w.coord.reduceTasks)|
  {
  }

  lemma CompleteMap(j: Job, events: seq<Event>, w: World) returns (u: World)
    requires Continues(j, events, w) && w.coord.nMap > 0
    ensures Continues(j, events, u) && u.coord.nMap == w.coord.nMap - 1
  {
    hide CoordOk, DiskOk, Continues, AskStep, Uncompleted;
    ContinuesOk(j, events, w);
    Counts(j, w);
    var i := SomeUncompleted(w.coord.mapTasks);
    var a := FreeMap(j, events, w, i);
    var b, r := TakeMap(j, events, a, i);
    var c := RunMap(j, events, b, r);
    u := ReportBack(j, events, c, i, MapLevel);
  }

  // ---- Carrying out a reduce task ----

  /** The lines of an output file exist. */
  lemma {:induction false} SomeOutput(reducef: Reducer, kvs: seq<KeyValue>, keys: seq<string>)
    returns (lines: seq<Line>)
    requires NoRepeats(keys)
    ensures NoRepeats(lines) && |lines| == |keys|
    ensures forall line: Line :: line in lines <==>
      line.0 in keys && line.1 == reducef(line.0, Values(kvs, line.0))
    decreases |keys|
  {
    hide Values;
    if keys == [] {
      lines := [];
    } else {
      var front, key := keys[..|keys| - 1], keys[|keys| - 1];
      var before := SomeOutput(reducef, kvs, front);
      lines := before + [(key, reducef(key, Values(kvs, key)))];
      assert keys == front + [key];
    }
  }

  lemma {:induction false} SomeKeys(kvs: seq<KeyValue>) returns (keys: seq<string>)
    ensures NoRepeats(keys) && forall key :: key in keys <==> Emitted(kvs, key)
  {
    if kvs == [] {
      keys := [];
    } else {
      var front, last := kvs[..|kvs| - 1], kvs[|kvs| - 1];
      keys := SomeKeys(front);
      assert kvs == front + [last];
      forall key ensures Emitted(kvs, key) <==> Emitted(front, key) || last.key == key {
        EmittedAppend(front, last, key);
      }
      if last.key !in keys {
        keys := keys + [last.key];
      }
    }
  }

  lemma OutputExists(reducef: Reducer, kvs: seq<KeyValue>) returns (lines: seq<Line>)
    ensures IsOutput(reducef, kvs, lines)
  {
    hide Emitted, Values;
    var keys := SomeKeys(kvs);
    lines := SomeOutput(reducef, kvs, keys);
  }

  lemma RunReduce(j: Job, events: seq<Event>, w: World, r: Reply) returns (u: World)
    requires Continues(j, events, w) && r in w.replies && r.level == ReduceLevel
    ensures Continues(j, events, u) && (r.id, ReduceLevel) in u.finished && u.coord == w.coord
  {
    hide CoordOk, DiskOk, Continues, IsOutput;
    ContinuesOk(j, events, w);
    InputsReady(j, w, r);
    var lines := OutputExists(j.reducef, ReadAll(w.disk, |j.files|, r.id));
    u := w.(outs := w.outs[r.id := lines], finished := w.finished + {(r.id, ReduceLevel)});
    assert ReduceEvent(j, w, r, u);
    ContinueStep(j, events, w, ReduceRan(r), u);
  }

  lemma CompleteReduce(j: Job, events: seq<Event>, w: World) returns (u: World)
    requires Continues(j, events, w) && w.coord.nMap == 0 && w.coord.nReduce > 0
    ensures Continues(j, events, u) && u.coord.nMap == 0 && u.coord.nReduce == w.coord.nReduce - 1
  {
    hide CoordOk, DiskOk, Continues, AskStep, Uncompleted;
    ContinuesOk(j, events, w);
    Counts(j, w);
    var i := SomeUncompleted(w.coord.reduceTasks);
    var a := FreeReduce(j, events, w, i);
    var b, r := TakeReduce(j, events, a, i);
    var c := RunReduce(j, events, b, r);
    u := ReportBack(j, events, c, i, ReduceLevel);
  }

  // ---- The result ----

  lemma {:induction false} Finish(j: Job, events: seq<Event>, w: World) returns (u: World)
    requires Continues(j, events, w)
    ensures Continues(j, events, u) && u.coord.nReduce == 0
    decreases if w.coord.nMap > 0 then w.coord.nMap else 0, if w.coord.nReduce > 0 then w.coord.nReduce else 0
  {
    hide CoordOk, DiskOk, Continues, Uncompleted;
    ContinuesOk(j, events, w);
    Counts(j, w);
    if w.coord.nReduce == 0 {
      u := w;
    } else if w.coord.nMap > 0 {
      var v := CompleteMap(j, events, w);
      u := Finish(j, events, v);
    } else {
      var v := CompleteReduce(j, events, w);
      u := Finish(j, events, v);
    }
  }

  /** From every world a run reaches, some continuation of the run reaches Done. */
  lemma AlwaysFinishes(j: Job, events: seq<Event>, w: World)
    requires Reaches(j, events, w)
    ensures exists more, u :: Reaches(j, events + more, u) && u.coord.nReduce == 0
  {
    hide Reaches;
    ContinueStart(j, events, w);
    var u := Finish(j, events, w);
    var more :| Reaches(j, events + more, u);
  }
}

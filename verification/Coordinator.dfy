/** The MapReduce coordinator: handing out tasks, timeouts, and late or repeated reports. */
module Coordinator {
  import opened Wrappers
  import opened Sequences

  datatype Status = Free | Assigned | Completed
  datatype Level = MapLevel | ReduceLevel | NoLevel

  /** A map task names its input file, a reduce task the number of map tasks. */
  datatype Source = InputFile(name: string) | MapCount(count: nat) | NoSource

  datatype Task = Task(source: Source, status: Status)
  datatype Reply = Reply(id: int, level: Level, source: Source, nRed: int)

  type Tasks = map<int, Task>
  type Report = Option<(int, Level)>

  datatype State = State(mapTasks: Tasks, reduceTasks: Tasks, nMap: int, nReduce: int)

  /** The numbers from lo to lo + n - 1. */
  function Range(lo: int, n: nat): (s: set<int>)
    ensures forall i :: i in s <==> lo <= i < lo + n
    ensures |s| == n
  {
    if n == 0 then {} else Range(lo, n - 1) + {lo + n - 1}
  }

  /** The first n map tasks, numbered from 1. */
  function MapTasks(files: seq<string>, n: nat): Tasks
    requires n <= |files|
  {
    map i | i in Range(1, n) :: Task(InputFile(files[i - 1]), Free)
  }

  /** The first n reduce tasks, numbered from 0. */
  function ReduceTasks(nMap: nat, n: nat): Tasks {
    map i | i in Range(0, n) :: Task(MapCount(nMap), Free)
  }

  /** MakeCoordinator. */
  function Make(files: seq<string>, nReduce: nat): State {
    State(MapTasks(files, |files|), ReduceTasks(|files|, nReduce), |files|, nReduce)
  }

  /** taskDone: completing a task counts once, however often it is reported. */
  function TaskDone(c: State, id: int, level: Level): State
    requires if level == MapLevel then id in c.mapTasks else id in c.reduceTasks
  {
    if level == MapLevel then
      if c.mapTasks[id].status == Completed then c
      else c.(mapTasks := c.mapTasks[id := c.mapTasks[id].(status := Completed)], nMap := c.nMap - 1)
    else
      if c.reduceTasks[id].status == Completed then c
      else c.(reduceTasks := c.reduceTasks[id := c.reduceTasks[id].(status := Completed)], nReduce := c.nReduce - 1)
  }

  /** checkProgress: a task still assigned after its time becomes free again. */
  function Expire(c: State, id: int, level: Level): State {
    if level == MapLevel then
      if id in c.mapTasks && c.mapTasks[id].status == Assigned
        then c.(mapTasks := c.mapTasks[id := c.mapTasks[id].(status := Free)]) else c
    else
      if id in c.reduceTasks && c.reduceTasks[id].status == Assigned
        then c.(reduceTasks := c.reduceTasks[id := c.reduceTasks[id].(status := Free)]) else c
  }

  ghost predicate HasFree(tasks: Tasks) {
    exists id :: id in tasks && tasks[id].status == Free
  }

  predicate IsFree(tasks: Tasks, id: int) {
    id in tasks && tasks[id].status == Free
  }

  function Assign(tasks: Tasks, id: int): Tasks
    requires id in tasks
  {
    tasks[id := tasks[id].(status := Assigned)]
  }

  ghost predicate Reportable(c: State, report: Report) {
    report.Some? ==>
      if report.value.1 == MapLevel then report.value.0 in c.mapTasks else report.value.0 in c.reduceTasks
  }

  function Reported(c: State, report: Report): State
    requires report.Some? ==>
      if report.value.1 == MapLevel then report.value.0 in c.mapTasks else report.value.0 in c.reduceTasks
  {
    if report.Some? then TaskDone(c, report.value.0, report.value.1) else c
  }

  /** AskForTask; which free task is handed out is open. */
  ghost predicate AskStep(c: State, report: Report, d: State, reply: Reply)
    requires Reportable(c, report)
  {
    var r := Reported(c, report);
    if r.nMap != 0 then
      if HasFree(r.mapTasks) then
        IsFree(r.mapTasks, reply.id) && d == r.(mapTasks := Assign(r.mapTasks, reply.id)) &&
        reply == Reply(reply.id, MapLevel, r.mapTasks[reply.id].source, r.nReduce)
      else d == r && reply == Reply(-1, NoLevel, NoSource, -1)
    else
      if HasFree(r.reduceTasks) then
        IsFree(r.reduceTasks, reply.id) && d == r.(reduceTasks := Assign(r.reduceTasks, reply.id)) &&
        reply == Reply(reply.id, ReduceLevel, r.reduceTasks[reply.id].source, r.nReduce)
      else d == r && reply == Reply(-2, NoLevel, NoSource, -2)
  }

  /** The answer in the four cases: a free map task while any map task is uncompleted, else a free
      reduce task, with -1 and -2 for nothing free. */
  lemma AnswerCases(c: State, report: Report, d: State, reply: Reply)
    requires Reportable(c, report) && AskStep(c, report, d, reply)
    ensures var r := Reported(c, report);
      && (reply.level == MapLevel <==> r.nMap != 0 && exists i :: IsFree(r.mapTasks, i))
      && (reply.level == ReduceLevel <==> r.nMap == 0 && exists i :: IsFree(r.reduceTasks, i))
      && (reply.level == MapLevel ==>
        IsFree(r.mapTasks, reply.id) && d.mapTasks == r.mapTasks[reply.id := Task(reply.source, Assigned)] &&
        reply.source == r.mapTasks[reply.id].source && reply.nRed == r.nReduce)
      && (reply.level == ReduceLevel ==>
        IsFree(r.reduceTasks, reply.id) && d.reduceTasks == r.reduceTasks[reply.id := Task(reply.source, Assigned)] &&
        reply.source == r.reduceTasks[reply.id].source)
      && (reply.level == NoLevel ==> d == r && reply.id == if r.nMap != 0 then -1 else -2)
  {
    var r := Reported(c, report);
    if HasFree(r.mapTasks) {
      var i :| i in r.mapTasks && r.mapTasks[i].status == Free;
      assert IsFree(r.mapTasks, i);
    }
    if HasFree(r.reduceTasks) {
      var i :| i in r.reduceTasks && r.reduceTasks[i].status == Free;
      assert IsFree(r.reduceTasks, i);
    }
  }

  class Coordinator {
    var mapTasks: Tasks
    var reduceTasks: Tasks
    var nMap: int
    var nReduce: int

    function View(): State
      reads this
    {
      State(mapTasks, reduceTasks, nMap, nReduce)
    }

    constructor (files: seq<string>, nReduce: nat)
      ensures View() == Make(files, nReduce)
    {
      this.mapTasks, this.reduceTasks := map[], map[];
      this.nMap, this.nReduce := |files|, nReduce;
      new;
      this.mapTasks := NewMapTasks(files);
      this.reduceTasks := NewReduceTasks(|files|, nReduce);
    }

    method AskForTask(report: Report) returns (reply: Reply)
      requires Reportable(View(), report)
      modifies this
      ensures AskStep(old(View()), report, View(), reply)
    {
      if report.Some? {
        ReportDone(report.value.0, report.value.1);
      }
      if nMap != 0 {
        var i := FindFree(mapTasks);
        if i.None? {
          return Reply(-1, NoLevel, NoSource, -1);
        }
        mapTasks := mapTasks[i.value := mapTasks[i.value].(status := Assigned)];
        return Reply(i.value, MapLevel, mapTasks[i.value].source, nReduce);
      } else {
        var i := FindFree(reduceTasks);
        if i.None? {
          return Reply(-2, NoLevel, NoSource, -2);
        }
        reduceTasks := reduceTasks[i.value := reduceTasks[i.value].(status := Assigned)];
        return Reply(i.value, ReduceLevel, reduceTasks[i.value].source, nReduce);
      }
    }

    method ReportDone(id: int, level: Level)
      requires if level == MapLevel then id in mapTasks else id in reduceTasks
      modifies this
      ensures View() == TaskDone(old(View()), id, level)
    {
      var task := if level == MapLevel then mapTasks[id] else reduceTasks[id];
      if task.status == Completed {
        return;
      }
      task := task.(status := Completed);
      if level == MapLevel {
        mapTasks := mapTasks[id := task];
        nMap := nMap - 1;
      } else {
        reduceTasks := reduceTasks[id := task];
        nReduce := nReduce - 1;
      }
    }

    method CheckProgress(id: int, level: Level)
      modifies this
      ensures View() == Expire(old(View()), id, level)
      ensures nMap == old(nMap) && nReduce == old(nReduce)
      ensures mapTasks == if level == MapLevel && id in old(mapTasks) && old(mapTasks)[id].status == Assigned
                          then old(mapTasks)[id := Task(old(mapTasks)[id].source, Free)] else old(mapTasks)
      ensures reduceTasks == if level != MapLevel && id in old(reduceTasks) && old(reduceTasks)[id].status == Assigned
                             then old(reduceTasks)[id := Task(old(reduceTasks)[id].source, Free)] else old(reduceTasks)
    {
      if level == MapLevel {
        if id in mapTasks && mapTasks[id].status == Assigned {
          mapTasks := mapTasks[id := mapTasks[id].(status := Free)];
        }
      } else {
        if id in reduceTasks && reduceTasks[id].status == Assigned {
          reduceTasks := reduceTasks[id := reduceTasks[id].(status := Free)];
        }
      }
    }

    method Done() returns (done: bool)
      ensures done <==> nReduce == 0
    {
      done := nReduce == 0;
    }
  }

  lemma MapTasksStep(files: seq<string>, i: nat)
    requires i <= |files|
    ensures MapTasks(files, 0) == map[]
    ensures i < |files| ==> MapTasks(files, i + 1) == MapTasks(files, i)[i + 1 := Task(InputFile(files[i]), Free)]
  {
  }

  lemma ReduceTasksStep(nMap: nat, i: nat)
    ensures ReduceTasks(nMap, 0) == map[]
    ensures ReduceTasks(nMap, i + 1) == ReduceTasks(nMap, i)[i := Task(MapCount(nMap), Free)]
  {
  }

  method NewMapTasks(files: seq<string>) returns (tasks: Tasks)
    ensures tasks == MapTasks(files, |files|)
  {
    hide MapTasks;
    tasks := map[];
    MapTasksStep(files, 0);
    for i := 0 to |files|
      invariant tasks == MapTasks(files, i)
    {
      MapTasksStep(files, i);
      tasks := tasks[i + 1 := Task(InputFile(files[i]), Free)];
    }
  }

  method NewReduceTasks(nMap: nat, nReduce: nat) returns (tasks: Tasks)
    ensures tasks == ReduceTasks(nMap, nReduce)
  {
    hide ReduceTasks;
    tasks := map[];
    ReduceTasksStep(nMap, 0);
    for i := 0 to nReduce
      invariant tasks == ReduceTasks(nMap, i)
    {
      ReduceTasksStep(nMap, i);
      tasks := tasks[i := Task(MapCount(nMap), Free)];
    }
  }

  /** The search over a map of tasks; the order of Go's map iteration is open. */
  method FindFree(tasks: Tasks) returns (i: Option<int>)
    ensures i.None? <==> !HasFree(tasks)
    ensures i.Some? ==> IsFree(tasks, i.value)
  {
    var rest: set<int> := tasks.Keys;
    while rest != {}
      invariant rest <= tasks.Keys
      invariant forall id :: id in tasks && id !in rest ==> tasks[id].status != Free
    {
      ghost var some := NonEmpty(rest);
      var id :| id in rest;
      if tasks[id].status == Free {
        return Some(id);
      }
      rest := rest - {id};
    }
    return None;
  }

  // ---- What every step keeps ----

  ghost function Uncompleted(tasks: Tasks): set<int> {
    set id | id in tasks && tasks[id].status != Completed
  }

  /** handed: everything that was ever handed out; files and buckets: their original numbers. */
  ghost predicate Ok(c: State, handed: set<(int, Level)>, files: seq<string>, buckets: nat) {
    && (forall i :: i in c.mapTasks <==> 1 <= i <= |files|)
    && (forall i :: i in c.reduceTasks <==> 0 <= i < buckets)
    && (forall i :: i in c.mapTasks ==> c.mapTasks[i].source == InputFile(files[i - 1]))
    && (forall i :: i in c.reduceTasks ==> c.reduceTasks[i].source == MapCount(|files|))
    && c.nMap == |Uncompleted(c.mapTasks)| && c.nReduce == |Uncompleted(c.reduceTasks)|
    && (forall i :: i in c.mapTasks && c.mapTasks[i].status != Free ==> (i, MapLevel) in handed)
    && (forall i :: i in c.reduceTasks && c.reduceTasks[i].status != Free ==> (i, ReduceLevel) in handed)
    && (forall i :: (i, MapLevel) in handed ==> i in c.mapTasks)
    && (forall i :: (i, ReduceLevel) in handed ==> i in c.reduceTasks && c.nMap == 0)
  }

  /** A completed task stays completed. */
  ghost predicate KeepsCompleted(c: State, d: State) {
    && (forall i :: i in c.mapTasks && c.mapTasks[i].status == Completed ==>
      i in d.mapTasks && d.mapTasks[i].status == Completed)
    && (forall i :: i in c.reduceTasks && c.reduceTasks[i].status == Completed ==>
      i in d.reduceTasks && d.reduceTasks[i].status == Completed)
  }

  lemma MakeFacts(files: seq<string>, buckets: nat)
    ensures var c := Make(files, buckets);
            && c.nMap == |files| && c.nReduce == buckets
            && (forall i :: i in c.mapTasks <==> 1 <= i <= |files|)
            && (forall i :: i in c.reduceTasks <==> 0 <= i < buckets)
            && (forall i :: i in c.mapTasks ==> c.mapTasks[i] == Task(InputFile(files[i - 1]), Free))
            && (forall i :: i in c.reduceTasks ==> c.reduceTasks[i] == Task(MapCount(|files|), Free))
  {
  }

  lemma MakeOk(files: seq<string>, buckets: nat)
    ensures Ok(Make(files, buckets), {}, files, buckets)
  {
    hide Make, Range;
    MakeFacts(files, buckets);
    var c := Make(files, buckets);
    assert Uncompleted(c.mapTasks) == Range(1, |files|);
    assert Uncompleted(c.reduceTasks) == Range(0, buckets);
  }

  lemma UncompletedUpdate(tasks: Tasks, id: int, status: Status)
    requires id in tasks && tasks[id].status != Completed
    ensures var after := Uncompleted(tasks[id := tasks[id].(status := status)]);
            if status == Completed then |after| == |Uncompleted(tasks)| - 1 else after == Uncompleted(tasks)
  {
    var after := Uncompleted(tasks[id := tasks[id].(status := status)]);
    assert after == if status == Completed then Uncompleted(tasks) - {id} else Uncompleted(tasks);
  }

  /** While a map task is uncompleted, no reduce task has been touched. */
  lemma MapPhase(c: State, handed: set<(int, Level)>, files: seq<string>, buckets: nat)
    requires Ok(c, handed, files, buckets) && c.nMap != 0
    ensures c.nReduce == buckets
  {
    assert Uncompleted(c.reduceTasks) == Range(0, buckets);
  }

  lemma MapReportKeeps(c: State, handed: set<(int, Level)>, files: seq<string>, buckets: nat, id: int)
    requires Ok(c, handed, files, buckets) && (id, MapLevel) in handed
    ensures id in c.mapTasks && Ok(TaskDone(c, id, MapLevel), handed, files, buckets)
    ensures KeepsCompleted(c, TaskDone(c, id, MapLevel))
  {
    if c.mapTasks[id].status != Completed { UncompletedUpdate(c.mapTasks, id, Completed); }
  }

  lemma ReduceReportKeeps(c: State, handed: set<(int, Level)>, files: seq<string>, buckets: nat, id: int)
    requires Ok(c, handed, files, buckets) && (id, ReduceLevel) in handed
    ensures id in c.reduceTasks && Ok(TaskDone(c, id, ReduceLevel), handed, files, buckets)
    ensures KeepsCompleted(c, TaskDone(c, id, ReduceLevel))
  {
    if c.reduceTasks[id].status != Completed { UncompletedUpdate(c.reduceTasks, id, Completed); }
  }

  lemma NoChange(c: State)
    ensures KeepsCompleted(c, c)
  {
  }

  lemma ReportKeeps(c: State, handed: set<(int, Level)>, files: seq<string>, buckets: nat, report: Report)
    requires Ok(c, handed, files, buckets)
    requires report.Some? ==> report.value in handed && report.value.1 != NoLevel
    ensures Reportable(c, report)
    ensures Ok(Reported(c, report), handed, files, buckets) && KeepsCompleted(c, Reported(c, report))
  {
    hide Ok, KeepsCompleted, TaskDone;
    NoChange(c);
    if report.Some? {
      if report.value.1 == MapLevel {
        MapReportKeeps(c, handed, files, buckets, report.value.0);
      } else {
        ReduceReportKeeps(c, handed, files, buckets, report.value.0);
      }
    }
  }

  lemma MapAnswerKeeps(c: State, handed: set<(int, Level)>, files: seq<string>, buckets: nat, id: int)
    requires Ok(c, handed, files, buckets) && c.nMap != 0 && IsFree(c.mapTasks, id)
    ensures Ok(c.(mapTasks := Assign(c.mapTasks, id)), handed + {(id, MapLevel)}, files, buckets)
    ensures KeepsCompleted(c, c.(mapTasks := Assign(c.mapTasks, id)))
    ensures 1 <= id <= |files| && c.mapTasks[id].source == InputFile(files[id - 1]) && c.nReduce == buckets
  {
    MapPhase(c, handed, files, buckets);
    UncompletedUpdate(c.mapTasks, id, Assigned);
  }

  lemma ReduceAnswerKeeps(c: State, handed: set<(int, Level)>, files: seq<string>, buckets: nat, id: int)
    requires Ok(c, handed, files, buckets) && c.nMap == 0 && IsFree(c.reduceTasks, id)
    ensures Ok(c.(reduceTasks := Assign(c.reduceTasks, id)), handed + {(id, ReduceLevel)}, files, buckets)
    ensures KeepsCompleted(c, c.(reduceTasks := Assign(c.reduceTasks, id)))
    ensures 0 <= id < buckets && c.reduceTasks[id].source == MapCount(|files|)
  {
    UncompletedUpdate(c.reduceTasks, id, Assigned);
  }

  lemma WaitKeeps(c: State, handed: set<(int, Level)>, files: seq<string>, buckets: nat, id: int)
    requires Ok(c, handed, files, buckets)
    ensures Ok(c, handed + {(id, NoLevel)}, files, buckets) && KeepsCompleted(c, c)
  {
  }

  lemma KeepsCompletedTwice(c: State, r: State, d: State)
    requires KeepsCompleted(c, r) && KeepsCompleted(r, d)
    ensures KeepsCompleted(c, d)
  {
  }

  /** Every answer to a worker keeps the books; a map answer carries the original number of
      buckets, and a reduce answer is given only when every map task is completed. */
  lemma AskKeeps(c: State, handed: set<(int, Level)>, files: seq<string>, buckets: nat, report: Report, d: State,
                 reply: Reply)
    requires Ok(c, handed, files, buckets)
    requires report.Some? ==> report.value in handed && report.value.1 != NoLevel
    requires Reportable(c, report) && AskStep(c, report, d, reply)
    ensures Ok(d, handed + {(reply.id, reply.level)}, files, buckets) && KeepsCompleted(c, d)
    ensures reply.level == MapLevel ==>
      1 <= reply.id <= |files| && reply.source == InputFile(files[reply.id - 1]) && reply.nRed == buckets
    ensures reply.level == ReduceLevel ==>
      0 <= reply.id < buckets && reply.source == MapCount(|files|) &&
      forall i :: 1 <= i <= |files| ==> i in d.mapTasks && d.mapTasks[i].status == Completed
  {
    hide Ok, KeepsCompleted, Uncompleted, TaskDone, HasFree;
    var r := Reported(c, report);
    ReportKeeps(c, handed, files, buckets, report);
    if reply.level == MapLevel {
      MapAnswerKeeps(r, handed, files, buckets, reply.id);
    } else if reply.level == ReduceLevel {
      ReduceAnswerKeeps(r, handed, files, buckets, reply.id);
      AllMapsDone(r, handed, files, buckets);
    } else {
      WaitKeeps(r, handed, files, buckets, reply.id);
    }
    KeepsCompletedTwice(c, r, d);
  }

  lemma AllMapsDone(c: State, handed: set<(int, Level)>, files: seq<string>, buckets: nat)
    requires Ok(c, handed, files, buckets) && c.nMap == 0
    ensures forall i :: 1 <= i <= |files| ==> i in c.mapTasks && c.mapTasks[i].status == Completed
  {
    assert Uncompleted(c.mapTasks) == {};
    forall i | 1 <= i <= |files| ensures i in c.mapTasks && c.mapTasks[i].status == Completed {
      assert i !in Uncompleted(c.mapTasks);
    }
  }

  lemma AllReducesDone(c: State, handed: set<(int, Level)>, files: seq<string>, buckets: nat)
    requires Ok(c, handed, files, buckets) && c.nReduce == 0
    ensures forall i :: 0 <= i < buckets ==> i in c.reduceTasks && c.reduceTasks[i].status == Completed
  {
    assert Uncompleted(c.reduceTasks) == {};
    forall i | 0 <= i < buckets ensures i in c.reduceTasks && c.reduceTasks[i].status == Completed {
      assert i !in Uncompleted(c.reduceTasks);
    }
  }

  lemma MapExpireKeeps(c: State, handed: set<(int, Level)>, files: seq<string>, buckets: nat, id: int)
    requires Ok(c, handed, files, buckets)
    ensures Ok(Expire(c, id, MapLevel), handed, files, buckets) && KeepsCompleted(c, Expire(c, id, MapLevel))
  {
    if id in c.mapTasks && c.mapTasks[id].status == Assigned { UncompletedUpdate(c.mapTasks, id, Free); }
  }

  lemma ExpireKeeps(c: State, handed: set<(int, Level)>, files: seq<string>, buckets: nat, id: int, level: Level)
    requires Ok(c, handed, files, buckets)
    ensures Ok(Expire(c, id, level), handed, files, buckets) && KeepsCompleted(c, Expire(c, id, level))
  {
    if level == MapLevel {
      MapExpireKeeps(c, handed, files, buckets, id);
    } else {
      if id in c.reduceTasks && c.reduceTasks[id].status == Assigned { UncompletedUpdate(c.reduceTasks, id, Free); }
    }
  }
}

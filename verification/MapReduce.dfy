/** The MapReduce workers, and whole runs of workers with the coordinator: what a finished run has
    put on disk is what the sequential program computes. */
module MapReduce {
  import opened Wrappers
  import opened Coordinator
  import opened Sequential
  import opened Sequences

  /** The intermediate files by map task and bucket. */
  type Disk = map<(int, int), seq<KeyValue>>

  /** The pairs whose key hashes to bucket b, in order. */
  function InBucket(hash: string -> nat, kvs: seq<KeyValue>, nred: nat, b: nat): seq<KeyValue>
    requires nred > 0
  {
    if kvs == [] then []
    else
      var last := kvs[|kvs| - 1];
      InBucket(hash, kvs[..|kvs| - 1], nred, b) + if hash(last.key) % nred == b then [last] else []
  }

  method WriteInFile(hash: string -> nat, kva: seq<KeyValue>, nred: nat) returns (files: seq<seq<KeyValue>>)
    requires nred > 0
    ensures |files| == nred && forall b: nat :: b < nred ==> files[b] == InBucket(hash, kva, nred, b)
  {
    files := seq(nred, b requires 0 <= b < nred => []);
    for k := 0 to |kva|
      invariant |files| == nred && forall b: nat :: b < nred ==> files[b] == InBucket(hash, kva[..k], nred, b)
    {
      var hashed := hash(kva[k].key) % nred;
      assert kva[..k + 1][..k] == kva[..k];
      files := files[hashed := files[hashed] + [kva[k]]];
    }
    assert kva[..|kva|] == kva;
  }

  lemma {:induction false} InBucketJoin(hash: string -> nat, a: seq<KeyValue>, c: seq<KeyValue>, nred: nat, b: nat)
    requires nred > 0
    ensures InBucket(hash, a + c, nred, b) == InBucket(hash, a, nred, b) + InBucket(hash, c, nred, b)
  {
    if c == [] {
      assert a + c == a;
    } else {
      assert (a + c)[..|a + c| - 1] == a + c[..|c| - 1];
      InBucketJoin(hash, a, c[..|c| - 1], nred, b);
    }
  }

  /** Every key is in exactly one bucket, with all its values in order. */
  lemma {:induction false} BucketValues(hash: string -> nat, kvs: seq<KeyValue>, nred: nat, b: nat, key: string)
    requires nred > 0
    ensures Values(InBucket(hash, kvs, nred, b), key) == if hash(key) % nred == b then Values(kvs, key) else []
    ensures Emitted(InBucket(hash, kvs, nred, b), key) <==> hash(key) % nred == b && Emitted(kvs, key)
  {
    if kvs != [] {
      var front, last := kvs[..|kvs| - 1], kvs[|kvs| - 1];
      BucketValues(hash, front, nred, b, key);
      EmittedAppend(front, last, key);
      assert kvs == front + [last];
      assert Values(front, key) + [] == Values(front, key);
      if hash(last.key) % nred != b {
        assert InBucket(hash, kvs, nred, b) == InBucket(hash, front, nred, b);
      } else {
        EmittedAppend(InBucket(hash, front, nred, b), last, key);
        ValuesAppend(InBucket(hash, front, nred, b), last, key);
      }
    }
  }

  lemma EmittedAppend(a: seq<KeyValue>, kv: KeyValue, key: string)
    ensures Emitted(a + [kv], key) <==> Emitted(a, key) || kv.key == key
  {
    assert (a + [kv])[|a|] == kv;
    if Emitted(a, key) {
      var i :| 0 <= i < |a| && a[i].key == key;
      assert (a + [kv])[i] == a[i];
    }
  }

  // ---- processReduce ----

  predicate AllPresent(disk: Disk, nMap: int, r: int) {
    forall i :: 1 <= i <= nMap ==> (i, r) in disk
  }

  /** The contents of the files of bucket r, map task by map task. */
  function ReadAll(disk: Disk, nMap: nat, r: int): seq<KeyValue>
    requires AllPresent(disk, nMap, r)
  {
    if nMap == 0 then [] else ReadAll(disk, nMap - 1, r) + disk[(nMap, r)]
  }

  /** input maps the emitted keys to their values in order. */
  ghost predicate Collects(kvs: seq<KeyValue>, input: map<string, seq<string>>) {
    && (forall key :: key in input <==> Emitted(kvs, key))
    && (forall key :: key in input ==> input[key] == Values(kvs, key))
  }

  /** One output line for every emitted key, in the open order of Go's map iteration. */
  ghost predicate IsOutput(reducef: Reducer, kvs: seq<KeyValue>, lines: seq<Line>) {
    NoRepeats(lines) && forall line :: line in lines <==>
      Emitted(kvs, line.0) && line.1 == reducef(line.0, Values(kvs, line.0))
  }

  lemma CollectsAppend(kvs: seq<KeyValue>, input: map<string, seq<string>>, kv: KeyValue)
    requires Collects(kvs, input)
    ensures Collects(kvs + [kv], input[kv.key := (if kv.key in input then input[kv.key] else []) + [kv.value]])
  {
    if kv.key !in input { NoValues(kvs, kv.key); }
    forall key: string ensures Values(kvs + [kv], key) == Values(kvs, key) + (if kv.key == key then [kv.value] else [])
      && (Emitted(kvs + [kv], key) <==> Emitted(kvs, key) || kv.key == key)
    {
      ValuesAppend(kvs, kv, key);
      EmittedAppend(kvs, kv, key);
    }
  }

  method CollectFile(read: seq<KeyValue>, input: map<string, seq<string>>, file: seq<KeyValue>)
    returns (output: map<string, seq<string>>)
    requires Collects(read, input)
    ensures Collects(read + file, output)
  {
    output := input;
    assert read + file[..0] == read;
    for k := 0 to |file|
      invariant Collects(read + file[..k], output)
    {
      hide Collects;
      CollectsAppend(read + file[..k], output, file[k]);
      assert read + file[..k + 1] == read + file[..k] + [file[k]];
      var values := if file[k].key in output then output[file[k].key] else [];
      output := output[file[k].key := values + [file[k].value]];
    }
    assert file[..|file|] == file;
  }

  /** One line per key of the collected input, in any order. */
  method WriteOutput(reducef: Reducer, input: map<string, seq<string>>) returns (lines: seq<Line>)
    ensures NoRepeats(lines) && forall line :: line in lines <==>
      line.0 in input && line.1 == reducef(line.0, input[line.0])
  {
    lines := [];
    var rest := input.Keys;
    while rest != {}
      invariant rest <= input.Keys && NoRepeats(lines)
      invariant forall line :: line in lines <==>
        line.0 in input && line.0 !in rest && line.1 == reducef(line.0, input[line.0])
    {
      ghost var some := NonEmpty(rest);
      var key :| key in rest;
      lines := lines + [(key, reducef(key, input[key]))];
      rest := rest - {key};
    }
  }

  method ProcessReduce(disk: Disk, reducef: Reducer, nMap: nat, r: int) returns (output: Option<seq<Line>>)
    ensures output.None? <==> !AllPresent(disk, nMap, r)
    ensures output.Some? ==> IsOutput(reducef, ReadAll(disk, nMap, r), output.value)
  {
    var input: map<string, seq<string>> := map[];
    for i := 0 to nMap
      invariant AllPresent(disk, i, r) && Collects(ReadAll(disk, i, r), input)
    {
      if (i + 1, r) !in disk {
        return None;
      }
      input := CollectFile(ReadAll(disk, i, r), input, disk[(i + 1, r)]);
    }
    var lines := WriteOutput(reducef, input);
    return Some(lines);
  }

  // ---- Whole runs ----

  datatype Job = Job(files: seq<string>, buckets: nat, hash: string -> nat,
                     mapf: string -> seq<KeyValue>, reducef: Reducer)

  /** replies: all answers ever given, some of them lost; finished: what some worker has
      carried out and may report, now, later, or more than once. */
  datatype World = World(coord: State, replies: set<Reply>, finished: set<(int, Level)>, disk: Disk,
    outs: map<int, seq<Line>>)

  datatype Event =
    | Ask(report: Report)
    | TimeUp(id: int, level: Level)
    | WriteFile(reply: Reply, b: nat)
    | MapFinished(reply: Reply)
    | ReduceRan(reply: Reply)

  ghost predicate AskEvent(w: World, report: Report, u: World) {
    && (report.Some? ==> report.value in w.finished)
    && Reportable(w.coord, report)
    && exists reply ::
      AskStep(w.coord, report, u.coord, reply) && u == w.(coord := u.coord, replies := w.replies + {reply})
  }

  ghost predicate ReduceEvent(j: Job, w: World, reply: Reply, u: World)
    requires reply.source.MapCount? && reply.source.count >= 0
  {
    if !AllPresent(w.disk, reply.source.count, reply.id) then u == w
    else
      && reply.id in u.outs && IsOutput(j.reducef, ReadAll(w.disk, reply.source.count, reply.id), u.outs[reply.id])
      && u == w.(outs := w.outs[reply.id := u.outs[reply.id]], finished := w.finished + {(reply.id, ReduceLevel)})
  }

  /** One step of a run. Workers may crash after any step, answers may be lost, and each file is
      written as a whole. */
  ghost predicate Step(j: Job, w: World, e: Event, u: World) {
    match e
    case Ask(report) => AskEvent(w, report, u)
    case TimeUp(id, level) => u == w.(coord := Expire(w.coord, id, level))
    case WriteFile(r, b) =>
      r in w.replies && r.level == MapLevel && r.source.InputFile? && b < r.nRed &&
      u == w.(disk := w.disk[(r.id, b) := InBucket(j.hash, j.mapf(r.source.name), r.nRed, b)])
    case MapFinished(r) =>
      r in w.replies && r.level == MapLevel && (forall b :: 0 <= b < r.nRed ==> (r.id, b) in w.disk) &&
      u == w.(finished := w.finished + {(r.id, MapLevel)})
    case ReduceRan(r) =>
      r in w.replies && r.level == ReduceLevel && r.source.MapCount? && r.source.count >= 0 && ReduceEvent(j, w, r, u)
  }

  ghost predicate Reaches(j: Job, events: seq<Event>, w: World) {
    if events == [] then w == World(Make(j.files, j.buckets), {}, {}, map[], map[])
    else
      var front, last := events[..|events| - 1], events[|events| - 1];
      exists v :: Reaches(j, front, v) && Step(j, v, last, w)
  }

  /** Everything the map function emits, file by file. */
  function All(j: Job): seq<KeyValue> {
    Concat(Mapped(j.mapf, j.files))
  }

  ghost predicate MapsDone(j: Job, c: State) {
    forall i :: 1 <= i <= |j.files| ==> i in c.mapTasks && c.mapTasks[i].status == Completed
  }

  /** A map answer carries the original number of buckets; a reduce answer is out only when all
      map tasks are completed. */
  ghost predicate GoodReply(j: Job, c: State, r: Reply) {
    && (r.level == MapLevel ==>
      1 <= r.id <= |j.files| && r.source == InputFile(j.files[r.id - 1]) && r.nRed == j.buckets)
    && (r.level == ReduceLevel ==> 0 <= r.id < j.buckets && r.source == MapCount(|j.files|) && MapsDone(j, c))
  }

  ghost function Handed(replies: set<Reply>): set<(int, Level)> {
    set r | r in replies :: (r.id, r.level)
  }

  ghost predicate CoordOk(j: Job, w: World) {
    && Ok(w.coord, Handed(w.replies), j.files, j.buckets)
    && (forall r :: r in w.replies ==> GoodReply(j, w.coord, r))
    && (forall f :: f in w.finished ==> f in Handed(w.replies) && f.1 != NoLevel)
    && (forall i :: i in w.coord.mapTasks && w.coord.mapTasks[i].status == Completed ==> (i, MapLevel) in w.finished)
    && (forall i :: i in w.coord.reduceTasks && w.coord.reduceTasks[i].status == Completed ==>
      (i, ReduceLevel) in w.finished)
  }

  ghost predicate Written(disk: Disk, buckets: nat, i: int) {
    forall b :: 0 <= b < buckets ==> (i, b) in disk
  }

  ghost predicate DiskOk(j: Job, w: World) {
    && (forall i, b :: (i, b) in w.disk ==>
          1 <= i <= |j.files| && 0 <= b < j.buckets &&
          w.disk[(i, b)] == InBucket(j.hash, j.mapf(j.files[i - 1]), j.buckets, b))
    && (forall i :: (i, MapLevel) in w.finished ==> Written(w.disk, j.buckets, i))
    && (forall r :: (r, ReduceLevel) in w.finished ==> r in w.outs)
    && (forall r :: r in w.outs ==>
      0 <= r < j.buckets && IsOutput(j.reducef, InBucket(j.hash, All(j), j.buckets, r), w.outs[r]))
  }

  // ---- Every step keeps it ----

  /** Only a report completes a task. */
  lemma CompletedByReport(c: State, report: Report, d: State, reply: Reply)
    requires Reportable(c, report) && AskStep(c, report, d, reply)
    ensures forall i :: i in d.mapTasks && d.mapTasks[i].status == Completed ==>
      (i in c.mapTasks && c.mapTasks[i].status == Completed) || report == Some((i, MapLevel))
    ensures forall i :: i in d.reduceTasks && d.reduceTasks[i].status == Completed ==>
      (i in c.reduceTasks && c.reduceTasks[i].status == Completed) ||
        (report.Some? && report.value.0 == i && report.value.1 != MapLevel)
  {
    hide HasFree;
  }

  lemma MapsStayDone(j: Job, c: State, d: State)
    requires MapsDone(j, c) && KeepsCompleted(c, d)
    ensures MapsDone(j, d)
  {
  }

  lemma RepliesStayGood(j: Job, c: State, d: State, replies: set<Reply>)
    requires KeepsCompleted(c, d) && forall r :: r in replies ==> GoodReply(j, c, r)
    ensures forall r :: r in replies ==> GoodReply(j, d, r)
  {
    hide KeepsCompleted, MapsDone;
    if MapsDone(j, c) { MapsStayDone(j, c, d); }
  }

  lemma HandedGrows(replies: set<Reply>, reply: Reply)
    ensures Handed(replies + {reply}) == Handed(replies) + {(reply.id, reply.level)}
  {
    forall h | h in Handed(replies) ensures h in Handed(replies + {reply}) {
      var r :| r in replies && h == (r.id, r.level);
      assert r in replies + {reply};
    }
    assert reply in replies + {reply};
  }

  lemma AskEventKeeps(j: Job, w: World, report: Report, u: World)
    requires CoordOk(j, w) && AskEvent(w, report, u)
    ensures CoordOk(j, u)
  {
    hide Ok, KeepsCompleted, AskStep, MapsDone, Handed;
    var reply :| AskStep(w.coord, report, u.coord, reply) && u == w.(coord := u.coord, replies := w.replies + {reply});
    AskKeeps(w.coord, Handed(w.replies), j.files, j.buckets, report, u.coord, reply);
    HandedGrows(w.replies, reply);
    RepliesStayGood(j, w.coord, u.coord, w.replies);
    AskReplyGood(j, w.coord, Handed(w.replies), report, u.coord, reply);
    CompletedByReport(w.coord, report, u.coord, reply);
  }

  lemma AskReplyGood(j: Job, c: State, handed: set<(int, Level)>, report: Report, d: State, reply: Reply)
    requires Ok(c, handed, j.files, j.buckets)
    requires report.Some? ==> report.value in handed && report.value.1 != NoLevel
    requires Reportable(c, report) && AskStep(c, report, d, reply)
    ensures GoodReply(j, d, reply)
  {
    hide Ok, KeepsCompleted, AskStep;
    AskKeeps(c, handed, j.files, j.buckets, report, d, reply);
  }

  lemma TimeUpKeeps(j: Job, w: World, id: int, level: Level)
    requires CoordOk(j, w)
    ensures CoordOk(j, w.(coord := Expire(w.coord, id, level)))
  {
    hide Ok, KeepsCompleted, MapsDone, Handed;
    ExpireKeeps(w.coord, Handed(w.replies), j.files, j.buckets, id, level);
    RepliesStayGood(j, w.coord, Expire(w.coord, id, level), w.replies);
  }

  lemma FinishKeeps(j: Job, w: World, r: Reply)
    requires CoordOk(j, w) && r in w.replies && r.level != NoLevel
    ensures CoordOk(j, w.(finished := w.finished + {(r.id, r.level)}))
  {
    hide Ok;
    assert (r.id, r.level) in Handed(w.replies);
  }

  /** What a reduce task reads is its bucket of everything that was emitted. */
  lemma {:induction false} ReadsBucket(j: Job, disk: Disk, n: nat, r: nat)
    requires n <= |j.files| && r < j.buckets && AllPresent(disk, n, r)
    requires forall i, b :: (i, b) in disk ==>
      1 <= i <= |j.files| && 0 <= b < j.buckets &&
        disk[(i, b)] == InBucket(j.hash, j.mapf(j.files[i - 1]), j.buckets, b)
    ensures ReadAll(disk, n, r) == InBucket(j.hash, Concat(Mapped(j.mapf, j.files[..n])), j.buckets, r)
  {
    if n > 0 {
      ReadsBucket(j, disk, n - 1, r);
      var emitted := Mapped(j.mapf, j.files[..n]);
      assert emitted[..n - 1] == Mapped(j.mapf, j.files[..n - 1]);
      InBucketJoin(j.hash, Concat(emitted[..n - 1]), emitted[n - 1], j.buckets, r);
    }
  }

  /** A reduce task that was handed out finds all its files. */
  lemma InputsReady(j: Job, w: World, r: Reply)
    requires CoordOk(j, w) && DiskOk(j, w) && r in w.replies && r.level == ReduceLevel
    ensures r.source == MapCount(|j.files|) && AllPresent(w.disk, |j.files|, r.id)
  {
    hide Ok, IsOutput;
    assert GoodReply(j, w.coord, r);
    forall i | 1 <= i <= |j.files| ensures (i, r.id) in w.disk {
      assert (i, MapLevel) in w.finished;
    }
  }

  lemma ReduceKeeps(j: Job, w: World, r: Reply, u: World)
    requires CoordOk(j, w) && DiskOk(j, w) && r in w.replies && r.level == ReduceLevel
    requires r.source == MapCount(|j.files|)
    requires ReduceEvent(j, w, r, u)
    ensures CoordOk(j, u) && DiskOk(j, u)
  {
    hide CoordOk, IsOutput, AllPresent, Written;
    InputsReady(j, w, r);
    FinishKeeps(j, w, r);
    CoordOkOfCoord(j, w.(finished := w.finished + {(r.id, r.level)}), u);
    assert 0 <= r.id < j.buckets by { BucketOfReply(j, w, r); }
    ReadsBucket(j, w.disk, |j.files|, r.id);
    assert j.files[..|j.files|] == j.files;
  }

  lemma BucketOfReply(j: Job, w: World, r: Reply)
    requires CoordOk(j, w) && r in w.replies && r.level == ReduceLevel
    ensures 0 <= r.id < j.buckets
  {
    assert GoodReply(j, w.coord, r);
  }

  lemma CoordOkOfCoord(j: Job, w: World, u: World)
    requires CoordOk(j, w) && u.coord == w.coord && u.replies == w.replies && u.finished == w.finished
    ensures CoordOk(j, u)
  {
    hide Ok, Handed, GoodReply;
  }

  lemma WriteKeeps(j: Job, w: World, r: Reply, b: nat, u: World)
    requires CoordOk(j, w) && DiskOk(j, w)
    requires r.source.InputFile? && b < r.nRed && Step(j, w, WriteFile(r, b), u)
    ensures CoordOk(j, u) && DiskOk(j, u)
  {
    hide Ok, IsOutput;
    CoordOkOfCoord(j, w, u);
    assert GoodReply(j, w.coord, r);
    forall i | (i, MapLevel) in u.finished ensures Written(u.disk, j.buckets, i) {
      assert Written(w.disk, j.buckets, i);
    }
  }

  lemma MapFinishedKeeps(j: Job, w: World, r: Reply, u: World)
    requires CoordOk(j, w) && DiskOk(j, w) && Step(j, w, MapFinished(r), u)
    ensures CoordOk(j, u) && DiskOk(j, u)
  {
    hide Ok, IsOutput;
    FinishKeeps(j, w, r);
    assert GoodReply(j, w.coord, r);
    assert Written(u.disk, j.buckets, r.id);
  }

  lemma StepKeeps(j: Job, w: World, e: Event, u: World)
    requires CoordOk(j, w) && DiskOk(j, w) && Step(j, w, e, u)
    ensures CoordOk(j, u) && DiskOk(j, u)
  {
    hide CoordOk, IsOutput, AskEvent, Expire, Written;
    match e
    case Ask(report) => AskEventKeeps(j, w, report, u); AskDisk(w, report, u);
    case TimeUp(id, level) => TimeUpKeeps(j, w, id, level);
    case WriteFile(r, b) => WriteKeeps(j, w, r, b, u);
    case MapFinished(r) => MapFinishedKeeps(j, w, r, u);
    case ReduceRan(r) => InputsReady(j, w, r); ReduceKeeps(j, w, r, u);
  }

  lemma AskDisk(w: World, report: Report, u: World)
    requires AskEvent(w, report, u)
    ensures u.disk == w.disk && u.outs == w.outs && u.finished == w.finished
  {
  }

  lemma StartOk(j: Job)
    ensures var w := World(Make(j.files, j.buckets), {}, {}, map[], map[]); CoordOk(j, w) && DiskOk(j, w)
  {
    hide Ok;
    MakeOk(j.files, j.buckets);
    assert Handed({}) == {};
  }

  lemma {:induction false} RunKeeps(j: Job, events: seq<Event>, w: World)
    requires Reaches(j, events, w)
    ensures CoordOk(j, w) && DiskOk(j, w)
  {
    hide CoordOk, DiskOk, Step;
    if events == [] {
      StartOk(j);
    } else {
      var front := events[..|events| - 1];
      var v :| Reaches(j, front, v) && Step(j, v, events[|events| - 1], w);
      RunKeeps(j, front, v);
      StepKeeps(j, v, events[|events| - 1], w);
    }
  }

  /** In every run the counters are the numbers of uncompleted tasks, a map answer carries the
      original number of buckets, and whoever holds a reduce answer finds all its input files. */
  lemma RunBooks(j: Job, events: seq<Event>, w: World)
    requires Reaches(j, events, w)
    ensures w.coord.nMap == |Uncompleted(w.coord.mapTasks)| && w.coord.nReduce == |Uncompleted(w.coord.reduceTasks)|
    ensures forall r :: r in w.replies && r.level == MapLevel ==> r.nRed == j.buckets
    ensures forall r :: r in w.replies && r.level == ReduceLevel ==>
      MapsDone(j, w.coord) && r.source == MapCount(|j.files|) && AllPresent(w.disk, |j.files|, r.id)
  {
    hide Reaches, DiskOk, MapsDone, AllPresent;
    RunKeeps(j, events, w);
    forall r | r in w.replies && r.level == ReduceLevel
      ensures MapsDone(j, w.coord) && r.source == MapCount(|j.files|) && AllPresent(w.disk, |j.files|, r.id)
    {
      InputsReady(j, w, r);
      assert GoodReply(j, w.coord, r);
    }
  }

  /** In every run, a task once completed stays completed. */
  lemma CompletedForGood(j: Job, events: seq<Event>, w: World, e: Event, u: World)
    requires Reaches(j, events, w) && Step(j, w, e, u)
    ensures KeepsCompleted(w.coord, u.coord)
  {
    hide Reaches, DiskOk, AskStep, Ok, KeepsCompleted;
    RunKeeps(j, events, w);
    NoChange(w.coord);
    match e
    case Ask(report) =>
      var reply :| AskStep(w.coord, report, u.coord, reply);
      AskKeeps(w.coord, Handed(w.replies), j.files, j.buckets, report, u.coord, reply);
    case TimeUp(id, level) => ExpireKeeps(w.coord, Handed(w.replies), j.files, j.buckets, id, level);
    case _ =>
  }

  // ---- A finished run ----

  /** When Done answers true, every output file is there and holds its bucket's lines. */
  lemma FinishedRun(j: Job, events: seq<Event>, w: World)
    requires Reaches(j, events, w) && w.coord.nReduce == 0
    ensures forall b: nat :: b < j.buckets ==>
      b in w.outs && IsOutput(j.reducef, InBucket(j.hash, All(j), j.buckets, b), w.outs[b])
  {
    hide Ok, Step, Reaches, IsOutput;
    RunKeeps(j, events, w);
    AllReducesDone(w.coord, Handed(w.replies), j.files, j.buckets);
  }

  /** The result of the reduce function does not depend on the order of the values. */
  ghost predicate OrderFree(reducef: Reducer) {
    forall key: string, a: seq<string>, b: seq<string> :: multiset(a) == multiset(b) ==>
      reducef(key, a) == reducef(key, b)
  }

  ghost predicate SequentialLine(reducef: Reducer, groups: seq<Group>, line: Line) {
    exists g :: 0 <= g < |groups| && groups[g].key == line.0 && reducef(groups[g].key, groups[g].values) == line.1
  }

  /** Reduce task b gets exactly the keys of bucket b, and for each the same values as the
      sequential program, up to order. */
  lemma SameInputs(j: Job, b: nat, groups: seq<Group>)
    requires b < j.buckets && Groups(All(j), groups)
    ensures forall key :: Emitted(InBucket(j.hash, All(j), j.buckets, b), key) <==>
      Listed(groups, key) && j.hash(key) % j.buckets == b
    ensures forall g :: 0 <= g < |groups| && j.hash(groups[g].key) % j.buckets == b ==>
      multiset(Values(InBucket(j.hash, All(j), j.buckets, b), groups[g].key)) == multiset(groups[g].values)
  {
    forall key ensures Emitted(InBucket(j.hash, All(j), j.buckets, b), key) <==>
      Listed(groups, key) && j.hash(key) % j.buckets == b {
      BucketValues(j.hash, All(j), j.buckets, b, key);
      EmittedIffListed(All(j), groups, key);
    }
    forall g | 0 <= g < |groups| && j.hash(groups[g].key) % j.buckets == b
      ensures multiset(Values(InBucket(j.hash, All(j), j.buckets, b), groups[g].key)) == multiset(groups[g].values)
    {
      BucketValues(j.hash, All(j), j.buckets, b, groups[g].key);
    }
  }

  lemma EmittedIffListed(kvs: seq<KeyValue>, groups: seq<Group>, key: string)
    requires Groups(kvs, groups)
    ensures Emitted(kvs, key) <==> Listed(groups, key)
  {
  }

  lemma LineInBucket(reducef: Reducer, kvs: seq<KeyValue>, lines: seq<Line>, groups: seq<Group>, line: Line, here: bool)
    requires IsOutput(reducef, kvs, lines) && OrderFree(reducef)
    requires Emitted(kvs, line.0) <==> Listed(groups, line.0) && here
    requires forall g, h :: 0 <= g < h < |groups| ==> groups[g].key != groups[h].key
    requires here ==> forall g :: 0 <= g < |groups| && groups[g].key == line.0 ==>
      multiset(Values(kvs, line.0)) == multiset(groups[g].values)
    ensures line in lines <==> here && SequentialLine(reducef, groups, line)
  {
    hide Emitted, Values;
  }

  lemma LineListed(reducef: Reducer, groups: seq<Group>, lines: seq<Line>, line: Line)
    requires LinesOf(reducef, groups, lines)
    ensures line in lines <==> SequentialLine(reducef, groups, line)
  {
    if SequentialLine(reducef, groups, line) {
      var g :| 0 <= g < |groups| && groups[g].key == line.0 && reducef(groups[g].key, groups[g].values) == line.1;
      assert lines[g] == line;
    }
  }

  /** A run that reaches Done has written, over all output files, exactly the lines of the
      sequential program, each key in the file of its bucket only. */
  lemma SameAsSequential(j: Job, events: seq<Event>, w: World, lines: seq<Line>)
    requires Reaches(j, events, w) && w.coord.nReduce == 0 && j.buckets > 0 && OrderFree(j.reducef)
    requires IsSequentialOutput(j.mapf, j.reducef, j.files, lines)
    ensures forall b: nat :: b < j.buckets ==> b in w.outs
    ensures forall b: nat, line :: b < j.buckets ==>
      (line in w.outs[b] <==> b == j.hash(line.0) % j.buckets && line in lines)
  {
    hide Reaches, Emitted, InBucket, Values, OrderFree, LinesOf, SequentialLine;
    FinishedRun(j, events, w);
    var groups :| Groups(All(j), groups) && LinesOf(j.reducef, groups, lines);
    forall b: nat, line | b < j.buckets
      ensures line in w.outs[b] <==> b == j.hash(line.0) % j.buckets && line in lines
    {
      SameInputs(j, b, groups);
      LineListed(j.reducef, groups, lines, line);
      LineInBucket(j.reducef, InBucket(j.hash, All(j), j.buckets, b), w.outs[b], groups, line,
        j.hash(line.0) % j.buckets == b);
    }
  }
}

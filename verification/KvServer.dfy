/** The key/value server of kvraft: applying committed operations, each command id at most once. */
module KvServer {
  import opened Linearizability
  import opened KvModel
  import opened Wrappers

  datatype Op = Op(operationType: string, key: string, value: string, commandId: int)

  type Database = map<string, string>
  type Outcomes = map<int, string>

  datatype ServerState = ServerState(database: Database, outcomes: Outcomes)

  predicate Recognised(op: Op) {
    op.operationType == "Get" || op.operationType == "Put" || op.operationType == "Append"
  }

  /** What a recognised operation does when it is applied for the first time. */
  function Perform(db: Database, op: Op): Database {
    if op.operationType == "Put" then db[op.key := op.value]
    else if op.operationType == "Append" then db[op.key := if op.key in db then db[op.key] + op.value else op.value]
    else db
  }

  function Outcome(db: Database, op: Op): string {
    if op.operationType == "Get" && op.key !in db then "ErrNoKey" else "OK"
  }

  /** One committed entry, with the duplicate check. */
  function ApplyOp(s: ServerState, op: Op): ServerState {
    if op.commandId in s.outcomes || !Recognised(op) then s
    else ServerState(Perform(s.database, op), s.outcomes[op.commandId := Outcome(s.database, op)])
  }

  function ApplyLog(log: seq<Op>): ServerState {
    if log == [] then ServerState(map[], map[])
    else ApplyOp(ApplyLog(log[..|log| - 1]), log[|log| - 1])
  }

  class Server {
    var database: Database
    var outcomes: Outcomes
    ghost var applied: seq<Op>

    ghost predicate Valid()
      reads this
    {
      ServerState(database, outcomes) == ApplyLog(applied)
    }

    constructor ()
      ensures Valid() && applied == []
    {
      database, outcomes, applied := map[], map[], [];
    }

    /** One round of readApplyChannel. */
    method Read(op: Op)
      requires Valid()
      modifies this
      ensures Valid() && applied == old(applied) + [op]
    {
      applied := applied + [op];
      assert applied[..|applied| - 1] == old(applied);
      if op.commandId in outcomes {
        return;
      }
      if op.operationType == "Get" {
        if op.key !in database {
          outcomes := outcomes[op.commandId := "ErrNoKey"];
        } else {
          outcomes := outcomes[op.commandId := "OK"];
        }
      } else if op.operationType == "Put" {
        outcomes := outcomes[op.commandId := "OK"];
        database := database[op.key := op.value];
      } else if op.operationType == "Append" {
        if op.key in database {
          database := database[op.key := database[op.key] + op.value];
        } else {
          database := database[op.key := op.value];
        }
        outcomes := outcomes[op.commandId := "OK"];
      }
    }

    /** The duplicate check of PutAppend: an operation is handed to Raft only if no entry with its
        id was applied here; otherwise the recorded outcome is the answer. */
    method PutAppend(op: Op, isLeader: bool) returns (reply: Option<string>, started: bool)
      requires Valid()
      ensures !isLeader ==> reply == Some("ErrWrongLeader") && !started
      ensures isLeader ==> (started <==> reply.None?) && (started <==> op.commandId !in Ids(FirstOnly(applied)))
      ensures isLeader && !started ==>
        op.commandId in ApplyLog(applied).outcomes && reply.value == ApplyLog(applied).outcomes[op.commandId]
    {
      ExactlyOnce(applied);
      if !isLeader {
        return Some("ErrWrongLeader"), false;
      }
      if op.commandId in outcomes {
        return Some(outcomes[op.commandId]), false;
      }
      return None, true;
    }
  }

  /** What PutAppend sees in one round of waiting. */
  datatype Poll = Poll(outcomes: Outcomes, stillLeader: bool)

  /** Round k is the first in which the outcome is there or leadership is lost. */
  predicate EndsWaiting(polls: seq<Poll>, id: int, k: int) {
    && 0 <= k < |polls| && (id in polls[k].outcomes || !polls[k].stillLeader)
    && forall i :: 0 <= i < k ==> id !in polls[i].outcomes && polls[i].stillLeader
  }

  /** The waiting loop of PutAppend over the rounds seen so far: the first round that ends it
      decides, and lost leadership hides an outcome. */
  method Await(id: int, polls: seq<Poll>) returns (reply: Option<string>)
    ensures reply.None? <==> forall k :: 0 <= k < |polls| ==> id !in polls[k].outcomes && polls[k].stillLeader
    ensures reply.Some? ==> exists k :: (EndsWaiting(polls, id, k) &&
      reply.value == if polls[k].stillLeader then polls[k].outcomes[id] else "ErrWrongLeader")
  {
    for k := 0 to |polls|
      invariant forall i :: 0 <= i < k ==> id !in polls[i].outcomes && polls[i].stillLeader
    {
      assert id in polls[k].outcomes || !polls[k].stillLeader ==> EndsWaiting(polls, id, k);
      if !polls[k].stillLeader {
        return Some("ErrWrongLeader");
      }
      if id in polls[k].outcomes {
        return Some(polls[k].outcomes[id]);
      }
    }
    return None;
  }

  // ---- Exactly once ----

  function Ids(log: seq<Op>): set<int> {
    set i | 0 <= i < |log| :: log[i].commandId
  }

  /** Entry i is the first of one of the three kinds with its command id. */
  predicate IsFirst(log: seq<Op>, i: nat)
    requires i < |log|
  {
    && log[i].operationType in {"Get", "Put", "Append"}
    && forall j :: 0 <= j < i && log[j].operationType in {"Get", "Put", "Append"} ==>
      log[j].commandId != log[i].commandId
  }

  /** The first entries of the log, in order: later repeats of a command id and entries of any
      other kind are gone. */
  function FirstOnly(log: seq<Op>): seq<Op> {
    if log == [] then []
    else FirstOnly(log[..|log| - 1]) + if IsFirst(log, |log| - 1) then [log[|log| - 1]] else []
  }

  lemma IdsAppend(log: seq<Op>, op: Op)
    ensures Ids(log + [op]) == Ids(log) + {op.commandId}
  {
    assert (log + [op])[|log|] == op;
    forall x | x in Ids(log) ensures x in Ids(log + [op]) {
      var i :| 0 <= i < |log| && log[i].commandId == x;
      assert (log + [op])[i] == log[i];
    }
  }

  /** FirstOnly keeps exactly one entry for each recognised command id. */
  lemma {:induction false} FirstOnlyOnce(log: seq<Op>)
    ensures forall i, j :: 0 <= i < j < |FirstOnly(log)| ==> FirstOnly(log)[i].commandId != FirstOnly(log)[j].commandId
    ensures forall i :: 0 <= i < |log| && Recognised(log[i]) ==> log[i].commandId in Ids(FirstOnly(log))
    ensures forall x :: x in FirstOnly(log) ==> x in log && Recognised(x)
  {
    if log != [] {
      hide FirstOnly, IsFirst, Recognised;
      var before, last := log[..|log| - 1], log[|log| - 1];
      var front := FirstOnly(before);
      FirstOnlyOnce(before);
      LastIsNew(log);
      IdsAppend(front, last);
      assert FirstOnly(log) == front || FirstOnly(log) == front + [last];
      assert forall i :: 0 <= i < |before| ==> before[i] == log[i];
      forall i | 0 <= i < |front| ensures front[i].commandId in Ids(front) {}
    }
  }

  /** The last entry is kept exactly when the server recognises it and its id is not kept yet. */
  lemma LastIsNew(log: seq<Op>)
    requires log != []
    requires var front := log[..|log| - 1];
      && (forall i :: 0 <= i < |front| && Recognised(front[i]) ==> front[i].commandId in Ids(FirstOnly(front)))
      && (forall x :: x in FirstOnly(front) ==> x in front && Recognised(x))
    ensures var front, last := log[..|log| - 1], log[|log| - 1];
      FirstOnly(log) ==
      FirstOnly(front) + if Recognised(last) && last.commandId !in Ids(FirstOnly(front)) then [last] else []
  {
    var front, last := log[..|log| - 1], log[|log| - 1];
    assert forall j :: 0 <= j < |front| ==> front[j] == log[j];
    if Recognised(last) && last.commandId in Ids(FirstOnly(front)) {
      var i :| 0 <= i < |FirstOnly(front)| && FirstOnly(front)[i].commandId == last.commandId;
      assert FirstOnly(front)[i] in FirstOnly(front);
      var j :| 0 <= j < |front| && front[j] == FirstOnly(front)[i];
      assert log[j].commandId == last.commandId;
      assert !IsFirst(log, |log| - 1);
    }
  }

  /** Repeats change nothing: database and outcomes are those of the log without them, and the
      recorded outcomes are exactly those of the kept entries. */
  lemma {:induction false} ExactlyOnce(log: seq<Op>)
    ensures ApplyLog(log) == ApplyLog(FirstOnly(log))
    ensures ApplyLog(log).outcomes.Keys == Ids(FirstOnly(log))
  {
    hide FirstOnly, IsFirst, Recognised, ApplyLog, Perform, Outcome;
    if log == [] {
      NoneIsFirst();
    } else {
      var front, last := log[..|log| - 1], log[|log| - 1];
      ExactlyOnce(front);
      FirstOnlyOnce(front);
      LastIsNew(log);
      IdsAppend(FirstOnly(front), last);
      assert log == front + [last];
      ApplyLogAppend(front, last);
      ApplyLogAppend(FirstOnly(front), last);
      assert FirstOnly(log) == FirstOnly(front) || FirstOnly(log) == FirstOnly(front) + [last];
    }
  }

  lemma NoneIsFirst()
    ensures FirstOnly([]) == [] && Ids([]) == {} && ApplyLog([]).outcomes.Keys == {}
  {
  }

  /** An operation that was applied before changes nothing. */
  lemma AlreadyApplied(log: seq<Op>, op: Op)
    requires Recognised(op) && op in log
    ensures ApplyOp(ApplyLog(log), op) == ApplyLog(log)
  {
    hide Recognised, Ids, FirstOnly;
    ExactlyOnce(log);
    FirstOnlyOnce(log);
    var i :| 0 <= i < |log| && log[i] == op;
    assert op.commandId in ApplyLog(log).outcomes;
  }

  lemma ApplyLogAppend(log: seq<Op>, op: Op)
    ensures ApplyLog(log + [op]) == ApplyOp(ApplyLog(log), op)
  {
    assert (log + [op])[..|log|] == log;
  }

  /** A retry loop submits the same operation any number of times. Wherever a repeat is committed,
      and whatever else is committed in between, taking it out changes nothing. */
  lemma {:induction false} RetryHarmless(log: seq<Op>, op: Op, later: seq<Op>)
    requires Recognised(op) && op in log
    ensures ApplyLog(log + [op] + later) == ApplyLog(log + later)
    decreases |later|
  {
    hide Recognised, ApplyOp, ApplyLog;
    if later == [] {
      assert log + [op] + later == log + [op] && log + later == log;
      ApplyLogAppend(log, op);
      AlreadyApplied(log, op);
    } else {
      var front, last := later[..|later| - 1], later[|later| - 1];
      RetryHarmless(log, op, front);
      assert log + [op] + later == log + [op] + front + [last] && log + later == log + front + [last];
      ApplyLogAppend(log + [op] + front, last);
      ApplyLogAppend(log + front, last);
    }
  }

  /** Every retry is answered with the outcome of the first application. */
  lemma {:induction false} OutcomeOfFirst(log: seq<Op>, op: Op, later: seq<Op>)
    requires Recognised(op) && op.commandId !in ApplyLog(log).outcomes
    ensures var outcomes := ApplyLog(log + [op] + later).outcomes;
            op.commandId in outcomes && outcomes[op.commandId] == Outcome(ApplyLog(log).database, op)
    decreases |later|
  {
    if later == [] {
      assert log + [op] + later == log + [op];
      ApplyLogAppend(log, op);
    } else {
      var front, last := later[..|later| - 1], later[|later| - 1];
      OutcomeOfFirst(log, op, front);
      assert log + [op] + later == log + [op] + front + [last];
      ApplyLogAppend(log + [op] + front, last);
    }
  }

  // ---- What each kind of operation does ----

  /** No entry of one of the three kinds has this command id. */
  predicate Unused(log: seq<Op>, id: int) {
    forall i :: 0 <= i < |log| && log[i].operationType in {"Get", "Put", "Append"} ==> log[i].commandId != id
  }

  lemma UnusedMeansNoOutcome(log: seq<Op>, id: int)
    ensures Unused(log, id) <==> id !in ApplyLog(log).outcomes
  {
    hide ApplyLog;
    ExactlyOnce(log);
    FirstOnlyOnce(log);
    if id in Ids(FirstOnly(log)) {
      var k :| 0 <= k < |FirstOnly(log)| && FirstOnly(log)[k].commandId == id;
      assert FirstOnly(log)[k] in FirstOnly(log);
      var i :| 0 <= i < |log| && log[i] == FirstOnly(log)[k];
      assert !Unused(log, id);
    }
  }

  /** The first entry with its id, by kind: a put replaces the value, an append adds to what the key
      reads, a get finds the key or not; other keys and other outcomes stay. An entry of any other
      kind does nothing. */
  lemma FirstTime(log: seq<Op>, op: Op)
    requires Unused(log, op.commandId)
    ensures var s, u := ApplyLog(log), ApplyLog(log + [op]);
      && (op.operationType == "Put" ==>
        u == ServerState(s.database[op.key := op.value], s.outcomes[op.commandId := "OK"]))
      && (op.operationType == "Append" ==>
        u == ServerState(s.database[op.key := Lookup(s.database, op.key) + op.value],
          s.outcomes[op.commandId := "OK"]))
      && (op.operationType == "Get" ==>
        u == ServerState(s.database,
          s.outcomes[op.commandId := if op.key in s.database then "OK" else "ErrNoKey"]))
      && (op.operationType !in {"Get", "Put", "Append"} ==> u == s)
  {
    hide ApplyLog, Unused;
    UnusedMeansNoOutcome(log, op.commandId);
    ApplyLogAppend(log, op);
    assert "" + op.value == op.value;
  }

  /** A key is in the database exactly when something was put or appended to it. */
  lemma {:induction false} KeyPresent(log: seq<Op>, key: string)
    ensures key in ApplyLog(log).database <==>
            exists i :: 0 <= i < |log| && log[i].operationType in {"Put", "Append"} && log[i].key == key &&
              IsFirst(log, i)
  {
    if log != [] {
      var front, last := log[..|log| - 1], log[|log| - 1];
      KeyPresent(front, key);
      assert log == front + [last];
      assert forall i: nat :: i < |front| ==> (front[i] == log[i] && (IsFirst(front, i) <==> IsFirst(log, i)));
      UnusedMeansNoOutcome(front, last.commandId);
      assert IsFirst(log, |log| - 1) <==>
        last.operationType in {"Get", "Put", "Append"} && Unused(front, last.commandId);
    }
  }

  // ---- What the database holds, in terms of the model that the checker uses ----

  function AsOperation(op: Op): KvOperation {
    Operation(0, KvInput(if op.operationType == "Get" then 0 else if op.operationType == "Put" then 1 else 2, op.key,
      op.value), 0, KvOutput(""), 0)
  }

  function AsHistory(log: seq<Op>): seq<KvOperation> {
    seq(|log|, i requires 0 <= i < |log| => AsOperation(log[i]))
  }

  /** Performing an operation and stepping the model agree on what a key reads. */
  lemma PerformIsStep(db: Database, st: Store, op: Op, key: string)
    requires Recognised(op) && Lookup(db, key) == Lookup(st, key) && Lookup(db, op.key) == Lookup(st, op.key)
    ensures Lookup(Perform(db, op), key) == Lookup(StoreStep(st, AsOperation(op).input, KvOutput("")).1, key)
  {
  }

  lemma HistoryStep(log: seq<Op>)
    requires log != []
    ensures StateAfter(WholeStore(), AsHistory(log)) ==
            StoreStep(StateAfter(WholeStore(), AsHistory(log[..|log| - 1])), AsOperation(log[|log| - 1]).input,
              KvOutput("")).1
  {
    assert AsHistory(log)[..|log| - 1] == AsHistory(log[..|log| - 1]);
  }

  lemma {:induction false} DistinctLogIsModel(log: seq<Op>, key: string)
    requires forall i, j :: 0 <= i < j < |log| ==> log[i].commandId != log[j].commandId
    requires forall i :: 0 <= i < |log| ==> Recognised(log[i])
    ensures Lookup(ApplyLog(log).database, key) == Lookup(StateAfter(WholeStore(), AsHistory(log)), key)
    ensures ApplyLog(log).outcomes.Keys == Ids(log)
  {
    hide Recognised, Perform, Lookup, StoreStep, AsOperation, AsHistory, StateAfter, WholeStore, Outcome;
    if log == [] {
      EmptyLogIsModel(key);
    } else {
      var front, last := log[..|log| - 1], log[|log| - 1];
      DistinctLogIsModel(front, key);
      DistinctLogIsModel(front, last.key);
      assert log == front + [last];
      IdsAppend(front, last);
      assert last.commandId !in Ids(front);
      PerformIsStep(ApplyLog(front).database, StateAfter(WholeStore(), AsHistory(front)), last, key);
      HistoryStep(log);
    }
  }

  lemma EmptyLogIsModel(key: string)
    ensures Lookup(ApplyLog([]).database, key) == Lookup(StateAfter(WholeStore(), AsHistory([])), key)
  {
  }

  /** After any committed log the database reads like the checker's store model run on the
      log without repeats. */
  lemma DatabaseFollowsModel(log: seq<Op>, key: string)
    ensures Lookup(ApplyLog(log).database, key) == Lookup(StateAfter(WholeStore(), AsHistory(FirstOnly(log))), key)
  {
    ExactlyOnce(log);
    FirstOnlyOnce(log);
    forall i | 0 <= i < |FirstOnly(log)| ensures Recognised(FirstOnly(log)[i]) {
      assert FirstOnly(log)[i] in FirstOnly(log);
    }
    DistinctLogIsModel(FirstOnly(log), key);
  }

  /** Any key reads, after any committed log, what the first entries wrote: the last value put,
      followed by what was appended since. */
  lemma DatabaseHoldsWritten(log: seq<Op>, key: string)
    ensures Lookup(ApplyLog(log).database, key) == Written(AsHistory(FirstOnly(log)), key)
  {
    DatabaseFollowsModel(log, key);
    StoreHoldsWritten(AsHistory(FirstOnly(log)), key);
  }
}

/** Raft peers: the election handlers of raft.go, and the runs of a group of peers with crashes,
    restarts from the persister, and lost and reordered RPCs. */
module Raft {

  datatype Role = Follower | Candidate | Leader

  datatype LogEntry = LogEntry(command: int, term: int)

  /** What persist saves. */
  datatype Saved = Saved(currentTerm: int, votesGiven: map<int, nat>, log: seq<LogEntry>, lastIncludedIndex: int,
    lastIncludedTerm: int)

  datatype VoteArgs = VoteArgs(term: int, candidateId: nat, lastLogIndex: int, lastLogTerm: int)
  datatype VoteReply = VoteReply(term: int, granted: bool)

  /** The fields of one peer that elections read or write, with its persister. The log starts
      with a dummy entry. */
  datatype PeerState = PeerState(
    currentTerm: int, votesGiven: map<int, nat>, log: seq<LogEntry>, role: Role, votesReceived: int,
    lastIncludedIndex: int, lastIncludedTerm: int, saved: Saved)

  function Persist(s: PeerState): PeerState {
    s.(saved := Saved(s.currentTerm, s.votesGiven, s.log, s.lastIncludedIndex, s.lastIncludedTerm))
  }

  /** Term and index of the last log entry; 0 when only the dummy is left. */
  function LastLog(s: PeerState): (int, int) {
    if |s.log| > 1 then (s.log[|s.log| - 1].term, |s.log| - 1 + s.lastIncludedIndex) else (0, 0)
  }

  /** The RequestVote handler. The reply carries the term from before the call. */
  function RequestVote(s: PeerState, args: VoteArgs): (PeerState, VoteReply) {
    if args.term < s.currentTerm then (Persist(s), VoteReply(s.currentTerm, false))
    else
      var t := s.(role := if args.term > s.currentTerm then Follower else s.role, currentTerm := args.term);
      var (lastLogTerm, lastLogIndex) := LastLog(t);
      if args.term in t.votesGiven && t.votesGiven[args.term] != args.candidateId
        then (Persist(t), VoteReply(s.currentTerm, false))
      else if args.lastLogTerm < lastLogTerm then (Persist(t), VoteReply(s.currentTerm, false))
      else if args.lastLogTerm == lastLogTerm && args.lastLogIndex < lastLogIndex
        then (Persist(t), VoteReply(s.currentTerm, false))
      else (Persist(t.(votesGiven := t.votesGiven[args.term := args.candidateId])), VoteReply(s.currentTerm, true))
  }

  /** startElections: become candidate of the next term and vote for oneself. */
  function StartElection(s: PeerState, me: nat): PeerState {
    Persist(s.(role := Candidate, currentTerm := s.currentTerm + 1,
               votesGiven := s.votesGiven[s.currentTerm + 1 := me])).(votesReceived := 1)
  }

  /** The arguments it sends to every other peer. */
  function ElectionArgs(s: PeerState, me: nat): VoteArgs {
    var (lastLogTerm, lastLogIndex) := LastLog(s);
    VoteArgs(s.currentTerm, me, lastLogIndex, lastLogTerm)
  }

  /** sendRequestVote after the reply came in. As written, a granted vote is counted before its
      term is compared; with ownTermOnly it is counted only in the term it was asked for. */
  function VoteReplied(s: PeerState, n: nat, ownTermOnly: bool, args: VoteArgs, reply: VoteReply): PeerState {
    if reply.term > s.currentTerm then s.(role := Follower)
    else if reply.granted && (ownTermOnly ==> args.term == s.currentTerm) then
      var t := s.(votesReceived := s.votesReceived + 1);
      if t.votesReceived > n / 2 && t.role == Candidate && args.term == t.currentTerm then t.(role := Leader) else t
    else s
  }

  /** Make on a restarted peer: volatile state is fresh, the rest is read back. */
  function Restart(s: PeerState): PeerState {
    PeerState(s.saved.currentTerm, s.saved.votesGiven, s.saved.log, Follower, 0, s.saved.lastIncludedIndex,
              if s.saved.lastIncludedTerm == 0 then -1 else s.saved.lastIncludedTerm, s.saved)
  }

  /** The effect of the AppendEntry handler on term and role; the log may become anything. */
  function AppendEntry(s: PeerState, term: int, log: seq<LogEntry>): PeerState {
    if term < s.currentTerm then Persist(s) else Persist(s.(role := Follower, currentTerm := term, log := log))
  }

  /** A reply to AppendEntry with a higher term. */
  function AppendReplied(s: PeerState, term: int): PeerState {
    if term > s.currentTerm then Persist(s.(role := Follower, currentTerm := term)) else Persist(s)
  }

  /** The InstallSnapshot handler: it steps down but keeps its own term. */
  function InstallSnapshot(s: PeerState, term: int, log: seq<LogEntry>, index: int, indexTerm: int): PeerState {
    var t := if term >= s.currentTerm then s.(role := Follower) else s;
    t.(log := log, lastIncludedIndex := index, lastIncludedTerm := indexTerm)
  }

  /** Start, Snapshot and log compaction: they persist, and leave term, votes and role alone. */
  function LogChanged(s: PeerState, log: seq<LogEntry>, index: int, indexTerm: int): PeerState {
    Persist(s.(log := log, lastIncludedIndex := index, lastIncludedTerm := indexTerm))
  }

  // ---- A peer as the object whose methods update it ----

  class Peer {
    const me: nat
    const n: nat
    var currentTerm: int
    var votesGiven: map<int, nat>
    var log: seq<LogEntry>
    var role: Role
    var votesReceived: int
    var lastIncludedIndex: int
    var lastIncludedTerm: int
    var saved: Saved
    var commitIndex: int
    var lastApplied: int
    var nextIndex: seq<int>
    var matchIndex: seq<int>

    function View(): PeerState
      reads this
    {
      PeerState(currentTerm, votesGiven, log, role, votesReceived, lastIncludedIndex, lastIncludedTerm, saved)
    }

    /** Make after a crash: `before` is the peer's last state, of which only `saved` survived. */
    constructor (me: nat, n: nat, saved: Saved, ghost before: PeerState)
      requires before.saved == saved
      ensures this.me == me && this.n == n && View() == Restart(before)
      ensures currentTerm == saved.currentTerm && votesGiven == saved.votesGiven && log == saved.log
      ensures lastIncludedIndex == saved.lastIncludedIndex && role == Follower && votesReceived == 0
      ensures lastIncludedTerm == if saved.lastIncludedTerm == 0 then -1 else saved.lastIncludedTerm
      ensures commitIndex == lastApplied == 0 && |nextIndex| == |matchIndex| == n
      ensures forall i :: 0 <= i < n ==> nextIndex[i] == matchIndex[i] == 0
    {
      commitIndex, lastApplied := 0, 0;
      nextIndex, matchIndex := seq(n, _ => 0), seq(n, _ => 0);
      this.me, this.n := me, n;
      role, votesReceived := Follower, 0;
      currentTerm, votesGiven, log := saved.currentTerm, saved.votesGiven, saved.log;
      lastIncludedIndex := saved.lastIncludedIndex;
      lastIncludedTerm := if saved.lastIncludedTerm == 0 then -1 else saved.lastIncludedTerm;
      this.saved := saved;
    }

    method DoPersist()
      modifies this`saved
      ensures View() == Persist(old(View()))
    {
      saved := Saved(currentTerm, votesGiven, log, lastIncludedIndex, lastIncludedTerm);
    }

    method HandleRequestVote(args: VoteArgs) returns (reply: VoteReply)
      modifies this
      ensures (View(), reply) == RequestVote(old(View()), args)
    {
      var before := currentTerm;
      if args.term < currentTerm {
        DoPersist();
        return VoteReply(before, false);
      }
      if args.term > currentTerm && role != Follower {
        role := Follower;
      }
      currentTerm := args.term;
      if currentTerm in votesGiven && votesGiven[currentTerm] != args.candidateId {
        DoPersist();
        return VoteReply(before, false);
      }
      var lastLogTerm, lastLogIndex := 0, 0;
      if |log| > 1 {
        lastLogTerm := log[|log| - 1].term;
        lastLogIndex := |log| - 1 + lastIncludedIndex;
      }
      if args.lastLogTerm < lastLogTerm {
        DoPersist();
        return VoteReply(before, false);
      }
      if args.lastLogTerm == lastLogTerm && args.lastLogIndex < lastLogIndex {
        DoPersist();
        return VoteReply(before, false);
      }
      votesGiven := votesGiven[currentTerm := args.candidateId];
      DoPersist();
      return VoteReply(before, true);
    }

    method StartElections() returns (args: VoteArgs)
      modifies this
      ensures View() == StartElection(old(View()), me)
      ensures args == ElectionArgs(View(), me)
      ensures currentTerm == old(currentTerm) + 1 && role == Candidate && votesReceived == 1 && log == old(log)
      ensures votesGiven == old(votesGiven)[currentTerm := me] && saved.votesGiven == votesGiven
    {
      role := Candidate;
      currentTerm := currentTerm + 1;
      votesGiven := votesGiven[currentTerm := me];
      DoPersist();
      votesReceived := 1;
      var lastLogTerm, lastLogIndex := 0, 0;
      if |log| > 1 {
        lastLogTerm := log[|log| - 1].term;
        lastLogIndex := |log| - 1 + lastIncludedIndex;
      }
      return VoteArgs(currentTerm, me, lastLogIndex, lastLogTerm);
    }

    /** A new leader forgets what it believed about the other peers' logs. */
    method HandleVoteReply(args: VoteArgs, reply: VoteReply)
      requires |nextIndex| == |matchIndex| == n
      modifies this
      ensures View() == VoteReplied(old(View()), n, false, args, reply)
      ensures currentTerm == old(currentTerm) && votesGiven == old(votesGiven) && log == old(log) && saved == old(saved)
      ensures reply.term > old(currentTerm) ==> role == Follower && votesReceived == old(votesReceived)
      ensures reply.term <= old(currentTerm) ==>
        votesReceived == old(votesReceived) + (if reply.granted then 1 else 0) &&
        role == if reply.granted && 2 * votesReceived > n && old(role) == Candidate && args.term == currentTerm
                then Leader else old(role)
      ensures |nextIndex| == |matchIndex| == n && commitIndex == old(commitIndex) && lastApplied == old(lastApplied)
      ensures if old(role) == Candidate && role == Leader
              then forall i :: 0 <= i < n ==> nextIndex[i] == |log| + lastIncludedIndex && matchIndex[i] == 0
              else nextIndex == old(nextIndex) && matchIndex == old(matchIndex)
    {
      if reply.term > currentTerm {
        role := Follower;
        return;
      }
      if reply.granted {
        votesReceived := votesReceived + 1;
        if votesReceived > n / 2 && role == Candidate && args.term == currentTerm {
          role := Leader;
          for i := 0 to n
            invariant |nextIndex| == |matchIndex| == n && role == Leader
            invariant View() == VoteReplied(old(View()), n, false, args, reply)
            invariant commitIndex == old(commitIndex) && lastApplied == old(lastApplied)
            invariant forall k :: 0 <= k < i ==> nextIndex[k] == |log| + lastIncludedIndex && matchIndex[k] == 0
          {
            nextIndex := nextIndex[i := |log| + lastIncludedIndex];
            matchIndex := matchIndex[i := 0];
          }
        }
      }
    }

    // ---- The log by absolute index, and committing ----

    function LastIndex(): int
      reads this
    {
      |log| - 1 + lastIncludedIndex
    }

    /** The entry with an absolute index that is still in the log. */
    function EntryAt(i: int): LogEntry
      requires lastIncludedIndex <= i <= LastIndex()
      reads this
    {
      log[i - lastIncludedIndex]
    }

    /** Start: the leader appends the command and says where. */
    method Start(command: int) returns (index: int, term: int, isLeader: bool)
      requires log != []
      modifies this`log, this`lastIncludedTerm, this`saved
      ensures term == currentTerm && isLeader == (role == Leader)
      ensures !isLeader ==> index == -1 && saved == old(saved)
      ensures log == old(log) + if isLeader then [LogEntry(command, currentTerm)] else []
      ensures isLeader ==>
        index == LastIndex() == old(LastIndex()) + 1 && EntryAt(index) == LogEntry(command, currentTerm)
      ensures isLeader ==> saved == Persist(View()).saved
      ensures lastIncludedTerm == if old(lastIncludedTerm) == 0 then -1 else old(lastIncludedTerm)
    {
      index, term, isLeader := -1, currentTerm, true;
      if lastIncludedTerm == 0 {
        lastIncludedTerm := -1;
      }
      if role != Leader {
        isLeader := false;
        return;
      }
      index := |log| + lastIncludedIndex;
      log := log + [LogEntry(command, currentTerm)];
      DoPersist();
    }

    /** Snapshot: the entries up to index are dropped, the later ones keep their places. Taken
        again at the same index it reads the term of the dummy entry. */
    method Snapshot(index: int)
      requires lastIncludedIndex <= index <= LastIndex()
      modifies this`log, this`lastIncludedIndex, this`lastIncludedTerm, this`saved
      ensures lastIncludedIndex == index && lastIncludedTerm == old(EntryAt(index)).term
      ensures LastIndex() == old(LastIndex()) && EntryAt(index) == LogEntry(0, 0)
      ensures forall i :: index < i <= LastIndex() ==> EntryAt(i) == old(EntryAt(i))
      ensures saved == Persist(View()).saved
    {
      ghost var was, first := log, lastIncludedIndex;
      lastIncludedTerm := log[index - lastIncludedIndex].term;
      log := log[index - lastIncludedIndex + 1..];
      log := [LogEntry(0, 0)] + log;
      lastIncludedIndex := index;
      DoPersist();
      SnapshotLog(was, index - first, log);
      forall i | index < i <= LastIndex() ensures EntryAt(i) == old(EntryAt(i)) {
        assert log[i - index] == was[index - first + (i - index)];
      }
    }

    /** A majority of the peers, this one among them, of which every other is known to have index i. */
    ghost predicate MajorityHas(i: int)
      reads this`matchIndex
    {
      exists q: set<nat> :: (me in q && 2 * |q| > n &&
        forall j :: j in q && j != me ==> j < |matchIndex| && matchIndex[j] >= i)
    }

    /** Index i lies after what is committed, all entries from it on carry the current term (or a
        later one), and a majority of the peers is known to have it. */
    ghost predicate Committable(i: int)
      reads this
    {
      && commitIndex < i <= LastIndex() && lastIncludedIndex <= i
      && (forall k :: i <= k <= LastIndex() ==> EntryAt(k).term >= currentTerm)
      && MajorityHas(i)
    }

    /** The count of the inner loop exceeds half the group exactly when such a majority exists. */
    lemma CountedMajority(i: int)
      ensures 1 + Matched(matchIndex, me, i, |matchIndex|) > n / 2 <==> MajorityHas(i)
    {
      var all := Holders(matchIndex, me, i, |matchIndex|);
      MatchedCounts(matchIndex, me, i, |matchIndex|);
      if 2 * (|all| + 1) > n {
        assert |all + {me}| == |all| + 1;
      }
      forall q: set<nat> | me in q && 2 * |q| > n &&
        (forall j :: j in q && j != me ==> j < |matchIndex| && matchIndex[j] >= i)
        ensures 2 * (|all| + 1) > n
      {
        SubsetSize(q - {me}, all);
      }
    }

    /** The whole log is of the current term, no index in it is committable, and what is committed
        ends before the log begins. */
    ghost predicate ScanLeavesLog()
      reads this
    {
      && commitIndex < lastIncludedIndex - 1
      && (forall k :: lastIncludedIndex <= k <= LastIndex() ==> EntryAt(k).term >= currentTerm)
      && forall i :: !Committable(i)
    }

    /** updateCommitIndex: the greatest committable index, or no change. It panics exactly when the
        scan leaves the log, which a dummy entry of an older term in front rules out. */
    method UpdateCommitIndex() returns (panics: bool)
      requires log != [] && |matchIndex| == n
      modifies this`commitIndex
      ensures panics <==> old(ScanLeavesLog())
      ensures old(log[0]).term < currentTerm ==> !panics
      ensures old(commitIndex) <= commitIndex
      ensures var c := commitIndex; c != old(commitIndex) ==>
        old(lastIncludedIndex <= c <= LastIndex() && MajorityHas(c) &&
          forall k :: c <= k <= LastIndex() ==> EntryAt(k).term >= currentTerm)
      ensures forall i ::
        (old(commitIndex < i <= LastIndex() && lastIncludedIndex <= i && MajorityHas(i) &&
          forall k :: i <= k <= LastIndex() ==> EntryAt(k).term >= currentTerm)
        ==> i <= commitIndex)
    {
      hide MajorityHas;
      forall i ensures 1 + Matched(matchIndex, me, i, |matchIndex|) > n / 2 <==> MajorityHas(i) {
        CountedMajority(i);
      }
      assert forall i :: Committable(i) <==>
        commitIndex < i <= LastIndex() && lastIncludedIndex <= i && MajorityHas(i) &&
        forall k :: i <= k <= LastIndex() ==> EntryAt(k).term >= currentTerm;
      var posInd := LastIndex();
      var found := false;
      while posInd > commitIndex
        invariant posInd <= LastIndex() && (lastIncludedIndex - 1 <= posInd || posInd <= commitIndex)
        invariant commitIndex < lastIncludedIndex - 1 ==> lastIncludedIndex - 1 <= posInd
        invariant forall k :: posInd < k <= LastIndex() && lastIncludedIndex <= k ==> EntryAt(k).term >= currentTerm
        invariant forall i :: posInd < i ==> !Committable(i)
        invariant !found
      {
        if posInd < lastIncludedIndex {
          assert log[0] == EntryAt(lastIncludedIndex);
          return true;
        }
        if log[posInd - lastIncludedIndex].term < currentTerm {
          assert EntryAt(posInd).term < currentTerm;
          break;
        }
        var cnt := 1;
        for ind := 0 to |matchIndex|
          invariant cnt == 1 + Matched(matchIndex, me, posInd, ind)
        {
          if ind != me && matchIndex[ind] >= posInd {
            cnt := cnt + 1;
          }
        }
        if cnt > n / 2 {
          assert Committable(posInd);
          found := true;
          break;
        }
        posInd := posInd - 1;
      }
      panics := false;
      if !found {
        return;
      }
      commitIndex := posInd;
    }

    /** sendApply, in one piece: the messages go out in order, without gaps or repeats. */
    method SendApply(newIndex: int) returns (messages: seq<(int, int)>)
      requires log != [] && newIndex <= LastIndex() && 0 <= lastIncludedIndex
      modifies this`lastApplied
      ensures var first := if old(lastApplied) < lastIncludedIndex then lastIncludedIndex else old(lastApplied);
              && lastApplied == (if newIndex > first then newIndex else first)
              && |messages| == lastApplied - first
              && forall k :: 0 <= k < |messages| ==> messages[k] == (EntryAt(first + 1 + k).command, first + 1 + k)
    {
      messages := [];
      if lastApplied < lastIncludedIndex {
        lastApplied := lastIncludedIndex;
      }
      ghost var first := lastApplied;
      while lastApplied + 1 <= newIndex
        invariant first <= lastApplied && (lastApplied <= newIndex || lastApplied == first)
        invariant |messages| == lastApplied - first
        invariant forall k :: 0 <= k < |messages| ==> messages[k] == (EntryAt(first + 1 + k).command, first + 1 + k)
      {
        messages := messages + [(log[lastApplied - lastIncludedIndex + 1].command, lastApplied + 1)];
        lastApplied := lastApplied + 1;
      }
    }
  }

  lemma SnapshotLog(was: seq<LogEntry>, k: nat, log: seq<LogEntry>)
    requires k < |was| && log == [LogEntry(0, 0)] + was[k + 1..]
    ensures |log| == |was| - k && log[0] == LogEntry(0, 0)
    ensures forall i :: 0 < i < |log| ==> log[i] == was[k + i]
  {
  }

  /** How many of the first `upTo` peers other than me have index i. */
  function Matched(matchIndex: seq<int>, me: nat, i: int, upTo: nat): nat
    requires upTo <= |matchIndex|
  {
    if upTo == 0 then 0
    else Matched(matchIndex, me, i, upTo - 1) + if upTo - 1 != me && matchIndex[upTo - 1] >= i then 1 else 0
  }

  /** The peers it counts. */
  function Holders(matchIndex: seq<int>, me: nat, i: int, upTo: nat): set<nat>
    requires upTo <= |matchIndex|
  {
    set j: nat | j < upTo && j != me && matchIndex[j] >= i
  }

  lemma {:induction false} MatchedCounts(matchIndex: seq<int>, me: nat, i: int, upTo: nat)
    requires upTo <= |matchIndex|
    ensures Matched(matchIndex, me, i, upTo) == |Holders(matchIndex, me, i, upTo)|
  {
    if upTo > 0 {
      var k: nat := upTo - 1;
      MatchedCounts(matchIndex, me, i, k);
      assert Holders(matchIndex, me, i, upTo) ==
        Holders(matchIndex, me, i, k) + if k != me && matchIndex[k] >= i then {k} else {};
    }
  }

  lemma {:induction false} SubsetSize<T>(a: set<T>, b: set<T>)
    requires a <= b
    ensures |a| <= |b|
    decreases |a|
  {
    if a != {} {
      var x :| x in a;
      SubsetSize(a - {x}, b - {x});
    }
  }

  // ---- Runs of a group of peers ----

  /** A RequestVote call under way to peer `to`, and its answer on the way back. */
  datatype Request = Request(args: VoteArgs, to: nat)
  datatype Answer = Answer(request: Request, reply: VoteReply)

  /** The peers, the RPCs in flight, and (for the proof) the granted answers consumed in the
      term they were asked for. */
  datatype System = System(peers: seq<PeerState>, requests: set<Request>, answers: set<Answer>, counted: set<Request>)

  const FRESH_PEER := PeerState(0, map[], [LogEntry(0, 0)], Follower, 0, 0, -1, Saved(0, map[], [LogEntry(0, 0)], 0, 0))

  function Init(n: nat): System {
    System(seq(n, _ => FRESH_PEER), {}, {}, {})
  }

  datatype Event =
    | Timeout(i: nat)
    | DeliverRequest(request: Request)
    | LoseRequest(request: Request)
    | DeliverAnswer(answer: Answer)
    | LoseAnswer(answer: Answer)
    | AppendEntries(i: nat, term: int, log: seq<LogEntry>)
    | AppendAnswered(i: nat, term: int)
    | Install(i: nat, term: int, log: seq<LogEntry>, index: int, indexTerm: int)
    | ChangeLog(i: nat, log: seq<LogEntry>, index: int, indexTerm: int)
    | CrashAndRestart(i: nat)

  function SetPeer(s: System, i: nat, p: PeerState): System
    requires i < |s.peers|
  {
    s.(peers := s.peers[i := p])
  }

  function RequestsOf(args: VoteArgs, me: nat, n: nat): set<Request> {
    set j: nat | j < n && j != me :: Request(args, j)
  }

  /** One atomic step. An RPC is delivered at most once; an event that does not apply does nothing. */
  function Apply(s: System, ownTermOnly: bool, e: Event): System {
    var n := |s.peers|;
    match e
    case Timeout(i) =>
      if i < n then
        var p := StartElection(s.peers[i], i);
        SetPeer(s, i, p).(requests := s.requests + RequestsOf(ElectionArgs(p, i), i, n))
      else s
    case DeliverRequest(r) =>
      if r in s.requests && r.to < n then
        var (p, reply) := RequestVote(s.peers[r.to], r.args);
        SetPeer(s, r.to, p).(requests := s.requests - {r}, answers := s.answers + {Answer(r, reply)})
      else s
    case LoseRequest(r) => s.(requests := s.requests - {r})
    case DeliverAnswer(a) =>
      var i := a.request.args.candidateId;
      if a in s.answers && i < n then
        SetPeer(s, i, VoteReplied(s.peers[i], n, ownTermOnly, a.request.args, a.reply)).(
          answers := s.answers - {a},
          counted := s.counted +
          if a.reply.granted && a.request.args.term == s.peers[i].currentTerm then {a.request} else {})
      else s
    case LoseAnswer(a) => s.(answers := s.answers - {a})
    case AppendEntries(i, term, log) => if i < n then SetPeer(s, i, AppendEntry(s.peers[i], term, log)) else s
    case AppendAnswered(i, term) => if i < n then SetPeer(s, i, AppendReplied(s.peers[i], term)) else s
    case Install(i, term, log, index, indexTerm) =>
      if i < n then SetPeer(s, i, InstallSnapshot(s.peers[i], term, log, index, indexTerm)) else s
    case ChangeLog(i, log, index, indexTerm) =>
      if i < n then SetPeer(s, i, LogChanged(s.peers[i], log, index, indexTerm)) else s
    case CrashAndRestart(i) => if i < n then SetPeer(s, i, Restart(s.peers[i])) else s
  }

  function After(n: nat, ownTermOnly: bool, events: seq<Event>): System {
    if events == [] then Init(n)
    else Apply(After(n, ownTermOnly, events[..|events| - 1]), ownTermOnly, events[|events| - 1])
  }

  /** Peer i leads term t after the first k events of the run. */
  ghost predicate LedAt(n: nat, ownTermOnly: bool, events: seq<Event>, k: nat, i: nat, t: int)
    requires k <= |events|
  {
    var s := After(n, ownTermOnly, events[..k]);
    i < |s.peers| && s.peers[i].role == Leader && s.peers[i].currentTerm == t
  }

  /** In the whole run, each term has at most one leader, at whatever moments. */
  ghost predicate ElectionSafe(n: nat, ownTermOnly: bool, events: seq<Event>) {
    forall k: nat, l: nat, i: nat, j: nat, t: int ::
      (k <= |events| && l <= |events| && LedAt(n, ownTermOnly, events, k, i, t) &&
        LedAt(n, ownTermOnly, events, l, j, t)
      ==> i == j)
  }
}

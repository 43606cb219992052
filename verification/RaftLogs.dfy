/** Which logs win votes (section 5.4.1 of the extended Raft paper): when a vote is granted, what a
    leader's log was when it asked, and when the rule fails. */
module RaftLogs {
  import opened Raft
  import opened RaftElections

  /** A log that ends with term and index (t, i) is at least as up-to-date as one that ends with (u, j). */
  predicate AtLeast(t: int, i: int, u: int, j: int) {
    t > u || (t == u && i >= j)
  }

  /** The voter's side: the term is not old, the vote of that term is not another candidate's, and
      the candidate's last entry is at least as up-to-date as the voter's. A voter with only the
      dummy entry in its log compares with (0, 0). */
  lemma VoteGrantedIff(v: PeerState, args: VoteArgs)
    ensures RequestVote(v, args).1.granted <==>
      && args.term >= v.currentTerm
      && (args.term in v.votesGiven ==> v.votesGiven[args.term] == args.candidateId)
      && if |v.log| > 1
         then AtLeast(args.lastLogTerm, args.lastLogIndex, v.log[|v.log| - 1].term, |v.log| - 1 + v.lastIncludedIndex)
         else AtLeast(args.lastLogTerm, args.lastLogIndex, 0, 0)
  {
  }

  /** What else the handler does: the term moves up to that of the call, a higher term ends any
      candidacy or leadership, the vote is recorded exactly when granted, everything is saved, and
      the reply carries the old term. */
  lemma VoteChanges(v: PeerState, args: VoteArgs)
    ensures var (u, reply) := RequestVote(v, args);
      && u.currentTerm == (if args.term > v.currentTerm then args.term else v.currentTerm)
      && u.role == (if args.term > v.currentTerm then Follower else v.role)
      && u.votesGiven == (if reply.granted then v.votesGiven[args.term := args.candidateId] else v.votesGiven)
      && u.log == v.log && u.votesReceived == v.votesReceived
      && u.saved == Saved(u.currentTerm, u.votesGiven, v.log, v.lastIncludedIndex, v.lastIncludedTerm)
      && reply.term == v.currentTerm
  {
  }

  /** Between two peers with entries in their logs: the voter grants the call of a fresh candidate
      exactly when its own log does not end with a later term, nor with the same term at a greater
      absolute index. */
  lemma CandidateGranted(c: PeerState, me: nat, v: PeerState)
    requires |c.log| > 1 && |v.log| > 1
    ensures var args := ElectionArgs(StartElection(c, me), me);
      RequestVote(v, args).1.granted <==>
      && c.currentTerm + 1 >= v.currentTerm
      && (c.currentTerm + 1 in v.votesGiven ==> v.votesGiven[c.currentTerm + 1] == me)
      && AtLeast(c.log[|c.log| - 1].term, |c.log| - 1 + c.lastIncludedIndex,
                 v.log[|v.log| - 1].term, |v.log| - 1 + v.lastIncludedIndex)
  {
  }

  // ---- When the rule holds ----

  /** Term and index of the last entry a peer has or has compacted into its snapshot. */
  function LastTerm(v: PeerState): int {
    if |v.log| > 1 then v.log[|v.log| - 1].term else v.lastIncludedTerm
  }

  function LastIndex(v: PeerState): int {
    if |v.log| > 1 then |v.log| - 1 + v.lastIncludedIndex else v.lastIncludedIndex
  }

  /** The peer grants no candidate whose log is behind its own, snapshot included. */
  ghost predicate Guards(v: PeerState) {
    forall args :: RequestVote(v, args).1.granted ==>
      AtLeast(args.lastLogTerm, args.lastLogIndex, LastTerm(v), LastIndex(v))
  }

  /** It does so exactly when an entry is left in its log, or there is no entry to forget: a peer
      that has compacted its whole log grants as if it had never had one. */
  lemma GuardsIff(v: PeerState)
    ensures Guards(v) <==> |v.log| > 1 || AtLeast(0, 0, LastTerm(v), LastIndex(v))
  {
    if |v.log| > 1 || AtLeast(0, 0, LastTerm(v), LastIndex(v)) {
      forall args | RequestVote(v, args).1.granted
        ensures AtLeast(args.lastLogTerm, args.lastLogIndex, LastTerm(v), LastIndex(v))
      {
        VoteGrantedIff(v, args);
      }
    } else {
      var t := v.currentTerm;
      var args := VoteArgs(t, if t in v.votesGiven then v.votesGiven[t] else 0, 0, 0);
      VoteGrantedIff(v, args);
      assert RequestVote(v, args).1.granted;
    }
  }

  /** For example: a peer that has compacted five entries, the last of term 2, grants a peer that
      never had any. */
  lemma CompactedExample()
    ensures var v := FRESH_PEER.(currentTerm := 2, lastIncludedIndex := 5, lastIncludedTerm := 2);
      var args := ElectionArgs(StartElection(FRESH_PEER.(currentTerm := 2), 0), 0);
      args == VoteArgs(3, 0, 0, 0) && RequestVote(v, args).1.granted && !Guards(v)
  {
    GuardsIff(FRESH_PEER.(currentTerm := 2, lastIncludedIndex := 5, lastIncludedTerm := 2));
  }

  // ---- The calls and grants of a run ----

  /** At event k of the run, peer i starts the election for which it sends args. */
  ghost predicate AskedAt(n: nat, own: bool, events: seq<Event>, k: nat, args: VoteArgs)
    requires k < |events|
  {
    var s, i := After(n, own, events[..k]), args.candidateId;
    events[k] == Timeout(i) && i < |s.peers| && args == ElectionArgs(StartElection(s.peers[i], i), i)
  }

  /** At event k of the run, the call r is delivered and granted. */
  ghost predicate GrantedAt(n: nat, own: bool, events: seq<Event>, k: nat, r: Request)
    requires k < |events|
  {
    var s := After(n, own, events[..k]);
    events[k] == DeliverRequest(r) && r in s.requests && r.to < |s.peers| &&
    RequestVote(s.peers[r.to], r.args).1.granted
  }

  ghost predicate WasAsked(n: nat, own: bool, events: seq<Event>, args: VoteArgs) {
    exists k: nat :: k < |events| && AskedAt(n, own, events, k, args)
  }

  ghost predicate WasGranted(n: nat, own: bool, events: seq<Event>, r: Request) {
    exists k: nat :: k < |events| && GrantedAt(n, own, events, k, r)
  }

  lemma StillAsked(n: nat, own: bool, events: seq<Event>, args: VoteArgs)
    requires events != [] && WasAsked(n, own, events[..|events| - 1], args)
    ensures WasAsked(n, own, events, args)
  {
    hide After;
    var front := events[..|events| - 1];
    var k: nat :| k < |front| && AskedAt(n, own, front, k, args);
    assert front[..k] == events[..k];
    assert AskedAt(n, own, events, k, args);
  }

  lemma StillGranted(n: nat, own: bool, events: seq<Event>, r: Request)
    requires events != [] && WasGranted(n, own, events[..|events| - 1], r)
    ensures WasGranted(n, own, events, r)
  {
    hide After;
    var front := events[..|events| - 1];
    var k: nat :| k < |front| && GrantedAt(n, own, front, k, r);
    assert front[..k] == events[..k];
    assert GrantedAt(n, own, events, k, r);
  }

  /** Every call under way was sent by a candidate, and every granted answer was granted. */
  ghost predicate Traced(n: nat, own: bool, events: seq<Event>, s: System) {
    && (forall r :: r in s.requests ==> WasAsked(n, own, events, r.args))
    && (forall a :: a in s.answers ==> WasAsked(n, own, events, a.request.args))
    && (forall a :: a in s.answers && a.reply.granted ==> WasGranted(n, own, events, a.request))
    && (forall r :: r in s.counted ==> WasAsked(n, own, events, r.args) && WasGranted(n, own, events, r))
  }

  lemma {:induction false} RunTraced(n: nat, own: bool, events: seq<Event>)
    ensures Traced(n, own, events, After(n, own, events))
  {
    if events != [] {
      var k: nat := |events| - 1;
      var front, e := events[..k], events[k];
      RunTraced(n, own, front);
      StepTraced(n, own, events, After(n, own, front));
    }
  }

  lemma TraceGrows(n: nat, own: bool, events: seq<Event>, s: System)
    requires events != [] && Traced(n, own, events[..|events| - 1], s)
    ensures Traced(n, own, events, s)
  {
    hide WasAsked, WasGranted;
    forall args | WasAsked(n, own, events[..|events| - 1], args) ensures WasAsked(n, own, events, args) {
      StillAsked(n, own, events, args);
    }
    forall r | WasGranted(n, own, events[..|events| - 1], r) ensures WasGranted(n, own, events, r) {
      StillGranted(n, own, events, r);
    }
  }

  lemma StepTraced(n: nat, own: bool, events: seq<Event>, s: System)
    requires events != [] && s == After(n, own, events[..|events| - 1]) && Traced(n, own, events[..|events| - 1], s)
    ensures Traced(n, own, events, Apply(s, own, events[|events| - 1]))
  {
    hide WasAsked, WasGranted, StartElection, RequestVote, VoteReplied, ElectionArgs, After;
    TraceGrows(n, own, events, s);
    var k: nat := |events| - 1;
    match events[k]
    case Timeout(i) =>
      if i < |s.peers| { NewAsked(n, own, events, s, i); }
    case DeliverRequest(r) =>
      if r in s.requests && r.to < |s.peers| && RequestVote(s.peers[r.to], r.args).1.granted {
        NewGranted(n, own, events, s, r);
      }
    case _ =>
  }

  lemma NewAsked(n: nat, own: bool, events: seq<Event>, s: System, i: nat)
    requires events != [] && s == After(n, own, events[..|events| - 1])
    requires events[|events| - 1] == Timeout(i) && i < |s.peers|
    ensures WasAsked(n, own, events, ElectionArgs(StartElection(s.peers[i], i), i))
  {
    hide After;
    var k: nat := |events| - 1;
    assert AskedAt(n, own, events, k, ElectionArgs(StartElection(s.peers[i], i), i));
  }

  lemma NewGranted(n: nat, own: bool, events: seq<Event>, s: System, r: Request)
    requires events != [] && s == After(n, own, events[..|events| - 1])
    requires events[|events| - 1] == DeliverRequest(r) && r in s.requests && r.to < |s.peers|
    requires RequestVote(s.peers[r.to], r.args).1.granted
    ensures WasGranted(n, own, events, r)
  {
    hide After, RequestVote;
    var k: nat := |events| - 1;
    assert GrantedAt(n, own, events, k, r);
  }

  // ---- What a leader's log was ----

  /** What a vote compares: with an entry in the voter's log, the candidate's last term and absolute
      index are no smaller than the voter's; a candidate with only the dummy entry sends (0, 0). */
  predicate NotBehind(c: PeerState, v: PeerState) {
    |v.log| > 1 ==>
      AtLeast(if |c.log| > 1 then c.log[|c.log| - 1].term else 0,
              if |c.log| > 1 then |c.log| - 1 + c.lastIncludedIndex else 0,
              v.log[|v.log| - 1].term, |v.log| - 1 + v.lastIncludedIndex)
  }

  /** Peer i started its election of term t at event m, peer v granted it at event k, and what i's
      log was at m is not behind what v's log was at k. */
  ghost predicate Backed(n: nat, own: bool, events: seq<Event>, m: nat, k: nat, i: nat, t: int, v: nat)
    requires m < k < |events|
  {
    var s, u := After(n, own, events[..m]), After(n, own, events[..k]);
    && events[m] == Timeout(i) && i < |s.peers| && s.peers[i].currentTerm + 1 == t
    && events[k].DeliverRequest? && events[k].request.to == v < |u.peers|
    && events[k].request.args.candidateId == i && events[k].request.args.term == t
    && RequestVote(u.peers[v], events[k].request.args).1.granted
    && NotBehind(s.peers[i], u.peers[v])
  }

  ghost predicate Supported(n: nat, own: bool, events: seq<Event>, i: nat, t: int, v: nat) {
    exists m: nat, k: nat :: m < k < |events| && Backed(n, own, events, m, k, i, t, v)
  }

  lemma AskedLogs(c: PeerState, i: nat, args: VoteArgs, v: PeerState)
    requires args == ElectionArgs(StartElection(c, i), i) && RequestVote(v, args).1.granted
    ensures args.candidateId == i && args.term == c.currentTerm + 1 && NotBehind(c, v)
  {
    VoteGrantedIff(v, args);
  }

  lemma GrantBacks(n: nat, own: bool, events: seq<Event>, r: Request)
    requires WasGranted(n, own, events, r)
    ensures Supported(n, own, events, r.args.candidateId, r.args.term, r.to)
  {
    hide After, RequestVote, NotBehind, StartElection, ElectionArgs;
    var k: nat :| k < |events| && GrantedAt(n, own, events, k, r);
    RunTraced(n, own, events[..k]);
    var m: nat :| m < k && AskedAt(n, own, events[..k], m, r.args);
    assert events[..k][..m] == events[..m];
    var s, u := After(n, own, events[..m]), After(n, own, events[..k]);
    AskedLogs(s.peers[r.args.candidateId], r.args.candidateId, r.args, u.peers[r.to]);
    assert Backed(n, own, events, m, k, r.args.candidateId, r.args.term, r.to);
  }

  /** In every run with own-term counting, and in every run of at most three peers: a leader has a
      majority, itself included, that granted it when their logs were not ahead of its own. */
  lemma LeaderWasUpToDate(n: nat, own: bool, events: seq<Event>, i: nat, t: int)
    requires (own || n <= 3) && LedAt(n, own, events, |events|, i, t)
    ensures exists voters: set<nat> :: (i in voters && 2 * |voters| > n &&
      forall v :: v in voters ==> v < n && (v == i || Supported(n, own, events, i, t, v)))
  {
    hide After, CallsUnique, CountsHonest, Supported, WasAsked, WasGranted;
    assert events[..|events|] == events;
    var s := After(n, own, events);
    RunKeeps(n, own, events);
    RunTraced(n, own, events);
    SupportersVoted(s, n, i, t);
    var voters := Supporters(s, i) + {i};
    forall v | v in voters && v != i ensures Supported(n, own, events, i, t, v) {
      var r :| r in s.counted && r.args.candidateId == i && r.args.term == t && r.to == v;
      GrantBacks(n, own, events, r);
    }
    assert |voters| == |Supporters(s, i)| + 1;
  }
}

/** Election safety over all runs: what every step keeps, and why it rules out two leaders. */
module RaftElections {
  import opened Raft

  // ---- What one peer keeps ----

  /** Votes are only recorded for terms up to the current one and are on disk, and a candidate
      or leader has voted for itself. */
  ghost predicate PeerOk(p: PeerState, me: nat) {
    && (forall t :: t in p.votesGiven ==> t <= p.currentTerm)
    && p.saved.currentTerm == p.currentTerm && p.saved.votesGiven == p.votesGiven
    && (p.role != Follower ==> p.currentTerm in p.votesGiven && p.votesGiven[p.currentTerm] == me)
  }

  ghost predicate Voted(p: PeerState, term: int, who: nat) {
    term in p.votesGiven && p.votesGiven[term] == who
  }

  /** A vote once given is never changed, and the term never decreases. */
  ghost predicate Moves(p: PeerState, q: PeerState) {
    p.currentTerm <= q.currentTerm && forall t, who :: Voted(p, t, who) ==> Voted(q, t, who)
  }

  /** A leader or candidate of the new state was one already, in the same term, with the same count. */
  ghost predicate KeepsRole(p: PeerState, q: PeerState) {
    q.role != Follower ==> q.role == p.role && q.currentTerm == p.currentTerm && q.votesReceived == p.votesReceived
  }

  lemma RequestVoteKeeps(p: PeerState, me: nat, args: VoteArgs)
    requires PeerOk(p, me) && args.candidateId != me
    ensures var (q, reply) := RequestVote(p, args);
            && PeerOk(q, me) && Moves(p, q) && KeepsRole(p, q)
            && (reply.granted ==> Voted(q, args.term, args.candidateId))
  {
  }

  lemma StartElectionKeeps(p: PeerState, me: nat)
    requires PeerOk(p, me)
    ensures var q := StartElection(p, me); PeerOk(q, me) && Moves(p, q) && q.role == Candidate && q.votesReceived == 1
  {
  }

  lemma VoteRepliedKeeps(p: PeerState, me: nat, n: nat, own: bool, args: VoteArgs, reply: VoteReply)
    requires PeerOk(p, me)
    ensures var q := VoteReplied(p, n, own, args, reply); PeerOk(q, me) && Moves(p, q) && q.currentTerm == p.currentTerm
  {
  }

  lemma OtherStepsKeep(p: PeerState, me: nat, term: int, log: seq<LogEntry>, index: int, indexTerm: int)
    requires PeerOk(p, me)
    ensures var q := AppendEntry(p, term, log); PeerOk(q, me) && Moves(p, q) && KeepsRole(p, q)
    ensures var q := AppendReplied(p, term); PeerOk(q, me) && Moves(p, q) && KeepsRole(p, q)
    ensures var q := InstallSnapshot(p, term, log, index, indexTerm); PeerOk(q, me) && Moves(p, q) && KeepsRole(p, q)
    ensures var q := LogChanged(p, log, index, indexTerm); PeerOk(q, me) && Moves(p, q) && KeepsRole(p, q)
    ensures var q := Restart(p); PeerOk(q, me) && Moves(p, q) && KeepsRole(p, q)
  {
  }

  /** Hearing of a leader of its own or a later term, or of a later term in any answer, makes a peer a
      follower; so does a crash, which leaves only what was saved. */
  lemma StepsDown(p: PeerState, term: int, log: seq<LogEntry>, index: int, indexTerm: int)
    ensures term >= p.currentTerm ==>
      AppendEntry(p, term, log).role == InstallSnapshot(p, term, log, index, indexTerm).role == Follower &&
      AppendEntry(p, term, log).currentTerm == term && AppendEntry(p, term, log).log == log
    ensures var q := InstallSnapshot(p, term, log, index, indexTerm);
      q.currentTerm == p.currentTerm && q.log == log && q.lastIncludedIndex == index && q.lastIncludedTerm == indexTerm
    ensures term > p.currentTerm ==>
      AppendReplied(p, term).role == Follower && AppendReplied(p, term).currentTerm == term
    ensures var q := Restart(p);
      && q.role == Follower && q.votesReceived == 0 && q.log == p.saved.log
      && q.currentTerm == p.saved.currentTerm && q.votesGiven == p.saved.votesGiven
  {
  }

  /** What the network and a failing peer can do in one step: lose any call or answer, change any log,
      forget everything that was not saved. */
  lemma FailuresHappen(s: System, own: bool, i: nat, r: Request, a: Answer, log: seq<LogEntry>, index: int, term: int)
    requires i < |s.peers|
    ensures Apply(s, own, LoseRequest(r)) == s.(requests := s.requests - {r})
    ensures Apply(s, own, LoseAnswer(a)) == s.(answers := s.answers - {a})
    ensures Apply(s, own, CrashAndRestart(i)).peers == s.peers[i := Restart(s.peers[i])]
    ensures Apply(s, own, AppendEntries(i, term, log)).peers == s.peers[i := AppendEntry(s.peers[i], term, log)]
    ensures var p := Apply(s, own, ChangeLog(i, log, index, term)).peers[i];
      p.log == log && p.lastIncludedIndex == index && p.lastIncludedTerm == term
  {
  }

  // ---- What the group keeps ----

  /** A call goes from its candidate to another peer, for a term the candidate has reached. */
  ghost predicate GoodRequest(s: System, r: Request) {
    var c := r.args.candidateId;
    c < |s.peers| && r.to < |s.peers| && r.to != c && r.args.term <= s.peers[c].currentTerm
  }

  /** Same candidate, same term, same peer asked. */
  ghost predicate SameCall(a: Request, b: Request) {
    a.args.candidateId == b.args.candidateId && a.args.term == b.args.term && a.to == b.to
  }

  ghost predicate Granted(s: System, r: Request) {
    r.to < |s.peers| && Voted(s.peers[r.to], r.args.term, r.args.candidateId)
  }

  ghost predicate CallsOk(s: System) {
    && (forall r :: r in s.requests ==> GoodRequest(s, r))
    && (forall a :: a in s.answers ==> GoodRequest(s, a.request) && (a.reply.granted ==> Granted(s, a.request)))
    && (forall r :: r in s.counted ==> GoodRequest(s, r) && Granted(s, r))
  }

  /** Each call has at most one request, answer or counted answer. */
  ghost predicate CallsUnique(s: System) {
    && (forall r, q :: r in s.requests && q in s.requests && SameCall(r, q) ==> r == q)
    && (forall a, b :: a in s.answers && b in s.answers && SameCall(a.request, b.request) ==> a == b)
    && (forall r, q :: r in s.counted && q in s.counted && SameCall(r, q) ==> r == q)
    && (forall r, a :: r in s.requests && a in s.answers ==> !SameCall(r, a.request))
    && (forall r, q :: r in s.requests && q in s.counted ==> !SameCall(r, q))
    && (forall a, q :: a in s.answers && q in s.counted ==> !SameCall(a.request, q))
  }

  /** The peers whose votes for peer i were counted in its current term. */
  ghost function Supporters(s: System, i: nat): set<nat>
    requires i < |s.peers|
  {
    set r | r in s.counted && r.args.candidateId == i && r.args.term == s.peers[i].currentTerm :: r.to
  }

  /** A leader's counted supporters and itself are a majority. */
  ghost predicate LeadersWon(s: System) {
    forall i: nat :: i < |s.peers| && s.peers[i].role == Leader ==> 2 * (|Supporters(s, i)| + 1) > |s.peers|
  }

  /** With votes counted only in their own term, a count never exceeds the supporters and oneself. */
  ghost predicate CountsHonest(s: System) {
    forall i: nat :: i < |s.peers| && s.peers[i].role != Follower ==> s.peers[i].votesReceived <= |Supporters(s, i)| + 1
  }

  ghost predicate GroupOk(s: System, n: nat) {
    && |s.peers| == n
    && (forall i: nat :: i < n ==> PeerOk(s.peers[i], i))
    && CallsOk(s) && CallsUnique(s)
    && LeadersWon(s)
  }

  // ---- Two leaders in one term need two disjoint majorities ----

  lemma SupportersVoted(s: System, n: nat, i: nat, t: int)
    requires GroupOk(s, n) && i < n && s.peers[i].role == Leader && s.peers[i].currentTerm == t
    ensures forall v :: v in Supporters(s, i) + {i} ==> v < n && Voted(s.peers[v], t, i)
    ensures i !in Supporters(s, i)
  {
    forall v | v in Supporters(s, i) ensures v < n && v != i && Voted(s.peers[v], t, i) {
      var r :| r in s.counted && r.args.candidateId == i && r.args.term == t && r.to == v;
      assert GoodRequest(s, r) && Granted(s, r);
    }
  }

  lemma {:induction false} SubsetOfRange(a: set<nat>, n: nat)
    requires forall x :: x in a ==> x < n
    ensures |a| <= n
  {
    if n == 0 {
      assert a == {};
    } else {
      SubsetOfRange(a - {n - 1}, n - 1);
      assert a <= (a - {n - 1}) + {n - 1};
      if n - 1 in a {
        assert a == (a - {n - 1}) + {n - 1};
      } else {
        assert a == a - {n - 1};
      }
    }
  }

  /** Every peer of u is where the same peer of s may have moved to. */
  ghost predicate AllMove(s: System, u: System) {
    |s.peers| == |u.peers| && forall i: nat :: i < |s.peers| ==> Moves(s.peers[i], u.peers[i])
  }

  /** A leader of a term and a leader of the same term at the same or a later moment would need
      two disjoint majorities: the votes of the first are still recorded. */
  lemma MajoritiesMeet(s: System, u: System, n: nat, i: nat, j: nat, t: int)
    requires GroupOk(s, n) && GroupOk(u, n) && AllMove(s, u) && i < n && j < n
    requires s.peers[i].role == Leader && s.peers[i].currentTerm == t
    requires u.peers[j].role == Leader && u.peers[j].currentTerm == t
    ensures i == j
  {
    hide PeerOk, CallsOk, CallsUnique, Supporters, Moves, Voted;
    SupportersVoted(s, n, i, t);
    SupportersVoted(u, n, j, t);
    var a, b := Supporters(s, i) + {i}, Supporters(u, j) + {j};
    assert 2 * |a| > n && 2 * |b| > n;
    SubsetOfRange(a + b, n);
    assert a !! b ==> |a + b| == |a| + |b|;
    var v :| v in a && v in b;
    VoteKept(s.peers[v], u.peers[v], t, i, j);
  }

  /** A peer's vote of a term is for one candidate only, then and later. */
  lemma VoteKept(p: PeerState, q: PeerState, t: int, i: nat, j: nat)
    requires Moves(p, q) && Voted(p, t, i) && Voted(q, t, j)
    ensures i == j
  {
    assert Voted(q, t, i);
  }

  // ---- Every step keeps it ----

  /** Peer i changes to p; the calls under way and counted stay as they are. */
  lemma PeerMoves(s: System, n: nat, i: nat, p: PeerState)
    requires GroupOk(s, n) && i < n && PeerOk(p, i) && Moves(s.peers[i], p)
    requires KeepsRole(s.peers[i], p)
    ensures GroupOk(SetPeer(s, i, p), n)
    ensures CountsHonest(s) ==> CountsHonest(SetPeer(s, i, p))
  {
    var u := SetPeer(s, i, p);
    CallsStayOk(s, i, p);
    forall k: nat | k < n && u.peers[k].role != Follower ensures Supporters(u, k) == Supporters(s, k) {
    }
  }

  lemma CallsStayOk(s: System, i: nat, p: PeerState)
    requires CallsOk(s) && i < |s.peers| && Moves(s.peers[i], p)
    ensures CallsOk(SetPeer(s, i, p))
  {
    var u := SetPeer(s, i, p);
    forall r | GoodRequest(s, r) ensures GoodRequest(u, r) {}
    forall r | Granted(s, r) ensures Granted(u, r) {}
  }

  lemma FewerRequests(s: System, n: nat, requests: set<Request>, answers: set<Answer>)
    requires GroupOk(s, n) && requests <= s.requests && answers <= s.answers
    ensures var u := s.(requests := requests, answers := answers);
      GroupOk(u, n) && (CountsHonest(s) ==> CountsHonest(u))
  {
    var u := s.(requests := requests, answers := answers);
    forall k: nat | k < n ensures Supporters(u, k) == Supporters(s, k) {}
    forall r | GoodRequest(s, r) ensures GoodRequest(u, r) {}
    forall r | Granted(s, r) ensures Granted(u, r) {}
  }

  lemma TimeoutKeeps(s: System, n: nat, own: bool, i: nat)
    requires GroupOk(s, n) && i < n
    ensures var u := Apply(s, own, Timeout(i)); GroupOk(u, n) && (CountsHonest(s) ==> CountsHonest(u))
  {
    var p := StartElection(s.peers[i], i);
    var asked := RequestsOf(ElectionArgs(p, i), i, n);
    StartElectionKeeps(s.peers[i], i);
    CallsStayOk(s, i, p);
    var mid := SetPeer(s, i, p);
    var u := Apply(s, own, Timeout(i));
    assert u == mid.(requests := s.requests + asked);
    forall k: nat | k < n && k != i ensures Supporters(u, k) == Supporters(s, k) {}
    forall r | GoodRequest(mid, r) ensures GoodRequest(u, r) {}
    forall r | Granted(mid, r) ensures Granted(u, r) {}
    NewCalls(s, i, p, asked);
  }

  /** Calls of a new term do not clash with any earlier call. */
  lemma NewCalls(s: System, i: nat, p: PeerState, asked: set<Request>)
    requires CallsOk(s) && CallsUnique(s) && i < |s.peers| && p.currentTerm > s.peers[i].currentTerm
    requires asked == RequestsOf(ElectionArgs(p, i), i, |s.peers|)
    ensures CallsUnique(SetPeer(s, i, p).(requests := s.requests + asked))
    ensures forall r :: r in asked ==> GoodRequest(SetPeer(s, i, p).(requests := s.requests + asked), r)
  {
    forall f, q | f in asked && GoodRequest(s, q) ensures !SameCall(f, q) && !SameCall(q, f) {}
  }

  lemma DeliverRequestKeeps(s: System, n: nat, own: bool, r: Request)
    requires GroupOk(s, n) && r in s.requests
    ensures var u := Apply(s, own, DeliverRequest(r)); GroupOk(u, n) && (CountsHonest(s) ==> CountsHonest(u))
  {
    hide RequestVote, PeerOk, Moves, KeepsRole, Supporters, CallsUnique;
    var (p, reply) := RequestVote(s.peers[r.to], r.args);
    assert GoodRequest(s, r);
    RequestVoteKeeps(s.peers[r.to], r.to, r.args);
    PeerMoves(s, n, r.to, p);
    var mid := SetPeer(s, r.to, p);
    var u := Apply(s, own, DeliverRequest(r));
    assert u == mid.(requests := s.requests - {r}, answers := s.answers + {Answer(r, reply)});
    SameSupporters(mid, u, n);
    forall q | GoodRequest(mid, q) ensures GoodRequest(u, q) {}
    forall q | Granted(mid, q) ensures Granted(u, q) {}
    AnswerReplacesRequest(mid, r, reply);
    CallsUniqueOf(mid.(requests := mid.requests - {r}, answers := mid.answers + {Answer(r, reply)}), u);
  }

  lemma AnswerReplacesRequest(s: System, r: Request, reply: VoteReply)
    requires CallsUnique(s) && r in s.requests
    ensures CallsUnique(s.(requests := s.requests - {r}, answers := s.answers + {Answer(r, reply)}))
  {
  }

  /** The answer is counted in its term: one supporter more for candidate i. */
  lemma SupporterAdded(s: System, n: nat, a: Answer, p: PeerState)
    requires GroupOk(s, n) && a in s.answers && a.reply.granted
    requires var i := a.request.args.candidateId;
             i < n && a.request.args.term == s.peers[i].currentTerm == p.currentTerm
    ensures var i := a.request.args.candidateId;
            var u := SetPeer(s, i, p).(answers := s.answers - {a}, counted := s.counted + {a.request});
            && |Supporters(u, i)| == |Supporters(s, i)| + 1
            && forall k: nat :: k < n && k != i ==> Supporters(u, k) == Supporters(s, k)
  {
    var i := a.request.args.candidateId;
    var u := SetPeer(s, i, p).(answers := s.answers - {a}, counted := s.counted + {a.request});
    assert Supporters(u, i) == Supporters(s, i) + {a.request.to};
    forall q | q in s.counted && q.args.candidateId == i && q.args.term == s.peers[i].currentTerm
      ensures q.to != a.request.to {
      assert !SameCall(a.request, q);
    }
  }

  lemma CountedReplacesAnswer(s: System, a: Answer)
    requires CallsUnique(s) && a in s.answers
    ensures CallsUnique(s.(answers := s.answers - {a}, counted := s.counted + {a.request}))
  {
  }

  lemma DeliverAnswerCalls(s: System, n: nat, own: bool, a: Answer)
    requires GroupOk(s, n) && a in s.answers
    ensures var u := Apply(s, own, DeliverAnswer(a));
            && a.request.args.candidateId < n == |u.peers| && CallsOk(u) && CallsUnique(u)
            && forall i: nat :: i < n ==> PeerOk(u.peers[i], i)
  {
    hide Supporters, CountsHonest, LeadersWon, VoteReplied, PeerOk;
    var i := a.request.args.candidateId;
    assert GoodRequest(s, a.request);
    var p := VoteReplied(s.peers[i], n, own, a.request.args, a.reply);
    VoteRepliedKeeps(s.peers[i], i, n, own, a.request.args, a.reply);
    CallsStayOk(s, i, p);
    var u := Apply(s, own, DeliverAnswer(a));
    forall q | GoodRequest(SetPeer(s, i, p), q) ensures GoodRequest(u, q) {}
    forall q | Granted(SetPeer(s, i, p), q) ensures Granted(u, q) {}
    CountedReplacesAnswer(s, a);
    CallsUniqueOf(if a.reply.granted && a.request.args.term == s.peers[i].currentTerm
                  then s.(answers := s.answers - {a}, counted := s.counted + {a.request})
                  else s.(answers := s.answers - {a}), u);
  }

  lemma DeliverAnswerCounts(s: System, n: nat, own: bool, a: Answer)
    requires GroupOk(s, n) && a in s.answers && a.request.args.candidateId < n
    requires own ==> CountsHonest(s)
    requires own || n <= 3
    ensures var u := Apply(s, own, DeliverAnswer(a)); LeadersWon(u) && (own ==> CountsHonest(u))
  {
    hide CallsOk, CallsUnique, PeerOk, Supporters;
    var i := a.request.args.candidateId;
    var p := VoteReplied(s.peers[i], n, own, a.request.args, a.reply);
    var u := Apply(s, own, DeliverAnswer(a));
    if a.reply.granted && a.request.args.term == s.peers[i].currentTerm {
      SupporterAdded(s, n, a, p);
    } else {
      SameSupporters(s, u, n);
    }
  }

  lemma SameSupporters(s: System, u: System, n: nat)
    requires |s.peers| == n == |u.peers| && u.counted == s.counted
    requires forall k: nat :: k < n ==> u.peers[k].currentTerm == s.peers[k].currentTerm
    ensures forall k: nat :: k < n ==> Supporters(u, k) == Supporters(s, k)
  {
    forall k: nat | k < n ensures Supporters(u, k) == Supporters(s, k) {}
  }

  lemma DeliverAnswerKeeps(s: System, n: nat, own: bool, a: Answer)
    requires GroupOk(s, n) && a in s.answers
    requires own ==> CountsHonest(s)
    requires own || n <= 3
    ensures var u := Apply(s, own, DeliverAnswer(a)); GroupOk(u, n) && (own ==> CountsHonest(u))
  {
    hide CallsOk, CallsUnique, PeerOk, LeadersWon, CountsHonest, Apply;
    DeliverAnswerCalls(s, n, own, a);
    DeliverAnswerCounts(s, n, own, a);
  }

  lemma CallsUniqueOf(s: System, u: System)
    requires CallsUnique(s) && u.requests == s.requests && u.answers == s.answers && u.counted == s.counted
    ensures CallsUnique(u)
  {
  }

  lemma AtPeer(s: System, n: nat)
    requires GroupOk(s, n)
    ensures |s.peers| == n && forall i: nat :: i < n ==> PeerOk(s.peers[i], i)
  {
  }

  ghost predicate Keeps(s: System, n: nat, own: bool, u: System) {
    (GroupOk(s, n) ==> GroupOk(u, n)) && (own && CountsHonest(s) ==> CountsHonest(u))
  }

  /** The steps of one peer that are not about votes. */
  lemma OtherEventKeeps(s: System, n: nat, own: bool, e: Event)
    requires GroupOk(s, n) && !e.Timeout? && !e.DeliverRequest? && !e.LoseRequest? && !e.DeliverAnswer?
    requires !e.LoseAnswer?
    ensures Keeps(s, n, own, Apply(s, own, e))
  {
    hide GroupOk, PeerOk, CountsHonest, Moves, KeepsRole, AppendEntry, AppendReplied, InstallSnapshot, LogChanged,
      Restart;
    AtPeer(s, n);
    if e.i < n {
      var p := s.peers[e.i];
      match e
      case AppendEntries(i, term, log) => OtherStepsKeep(p, i, term, log, 0, 0);
        PeerMoves(s, n, i, AppendEntry(p, term, log));
      case AppendAnswered(i, term) => OtherStepsKeep(p, i, term, [], 0, 0); PeerMoves(s, n, i, AppendReplied(p, term));
      case Install(i, term, log, index, indexTerm) =>
        OtherStepsKeep(p, i, term, log, index, indexTerm);
        PeerMoves(s, n, i, InstallSnapshot(p, term, log, index, indexTerm));
      case ChangeLog(i, log, index, indexTerm) =>
        OtherStepsKeep(p, i, 0, log, index, indexTerm);
        PeerMoves(s, n, i, LogChanged(p, log, index, indexTerm));
      case CrashAndRestart(i) => OtherStepsKeep(p, i, 0, [], 0, 0); PeerMoves(s, n, i, Restart(p));
    }
  }

  lemma StepKeeps(s: System, n: nat, own: bool, e: Event)
    requires GroupOk(s, n) && (own ==> CountsHonest(s)) && (own || n <= 3)
    ensures GroupOk(Apply(s, own, e), n) && (own ==> CountsHonest(Apply(s, own, e)))
  {
    hide GroupOk, PeerOk, CountsHonest, StartElection, RequestVote, VoteReplied;
    AtPeer(s, n);
    match e
    case Timeout(i) => if i < n { TimeoutKeeps(s, n, own, i); }
    case DeliverRequest(r) => if r in s.requests { DeliverRequestKeeps(s, n, own, r); }
    case LoseRequest(r) => FewerRequests(s, n, s.requests - {r}, s.answers);
    case DeliverAnswer(a) => if a in s.answers { DeliverAnswerKeeps(s, n, own, a); }
    case LoseAnswer(a) => FewerRequests(s, n, s.requests, s.answers - {a});
    case _ => OtherEventKeeps(s, n, own, e);
  }

  lemma {:induction false} RunKeeps(n: nat, own: bool, events: seq<Event>)
    requires own || n <= 3
    ensures GroupOk(After(n, own, events), n) && (own ==> CountsHonest(After(n, own, events)))
  {
    if events != [] {
      RunKeeps(n, own, events[..|events| - 1]);
      StepKeeps(After(n, own, events[..|events| - 1]), n, own, events[|events| - 1]);
    }
  }

  // ---- Whole runs ----

  lemma SelfMoves(p: PeerState)
    ensures Moves(p, p)
  {
  }

  /** In every step, every peer's term grows or stays, and its votes are kept. */
  lemma StepMoves(s: System, n: nat, own: bool, e: Event)
    requires GroupOk(s, n)
    ensures AllMove(s, Apply(s, own, e))
  {
    hide PeerOk, Moves, StartElection, RequestVote, VoteReplied, AppendEntry, AppendReplied, InstallSnapshot,
      LogChanged, Restart, CallsUnique, LeadersWon;
    AtPeer(s, n);
    forall i: nat | i < n ensures Moves(s.peers[i], s.peers[i]) {
      SelfMoves(s.peers[i]);
    }
    match e
    case Timeout(i) => if i < n { StartElectionKeeps(s.peers[i], i); }
    case DeliverRequest(r) =>
      if r in s.requests {
        assert GoodRequest(s, r);
        RequestVoteKeeps(s.peers[r.to], r.to, r.args);
      }
    case DeliverAnswer(a) =>
      var i := a.request.args.candidateId;
      if i < n { VoteRepliedKeeps(s.peers[i], i, n, own, a.request.args, a.reply); }
    case LoseRequest(_) =>
    case LoseAnswer(_) =>
    case AppendEntries(i, term, log) => if i < n { OtherStepsKeep(s.peers[i], i, term, log, 0, 0); }
    case AppendAnswered(i, term) => if i < n { OtherStepsKeep(s.peers[i], i, term, [], 0, 0); }
    case Install(i, term, log, index, indexTerm) =>
      if i < n { OtherStepsKeep(s.peers[i], i, term, log, index, indexTerm); }
    case ChangeLog(i, log, index, indexTerm) => if i < n { OtherStepsKeep(s.peers[i], i, 0, log, index, indexTerm); }
    case CrashAndRestart(i) => if i < n { OtherStepsKeep(s.peers[i], i, 0, [], 0, 0); }
  }

  lemma MovesTwice(s: System, u: System, v: System)
    requires AllMove(s, u) && AllMove(u, v)
    ensures AllMove(s, v)
  {
    forall i: nat | i < |s.peers| ensures Moves(s.peers[i], v.peers[i]) {
      assert Moves(s.peers[i], u.peers[i]) && Moves(u.peers[i], v.peers[i]);
    }
  }

  lemma {:induction false} RunMoves(n: nat, own: bool, events: seq<Event>, k: nat, l: nat)
    requires (own || n <= 3) && k <= l <= |events|
    ensures AllMove(After(n, own, events[..k]), After(n, own, events[..l]))
    decreases l
  {
    hide AllMove, GroupOk, CountsHonest, Apply;
    if k == l {
      AllStay(After(n, own, events[..k]));
    } else {
      assert events[..l][..l - 1] == events[..l - 1];
      RunMoves(n, own, events, k, l - 1);
      RunKeeps(n, own, events[..l - 1]);
      StepMoves(After(n, own, events[..l - 1]), n, own, events[l - 1]);
      MovesTwice(After(n, own, events[..k]), After(n, own, events[..l - 1]), After(n, own, events[..l]));
    }
  }

  lemma AllStay(s: System)
    ensures AllMove(s, s)
  {
  }

  /** Two leaders of one term, at any two moments of a run, are the same peer. */
  lemma OneLeaderPerTerm(n: nat, own: bool, events: seq<Event>, k: nat, l: nat, i: nat, j: nat, t: int)
    requires (own || n <= 3) && k <= |events| && l <= |events|
    requires LedAt(n, own, events, k, i, t) && LedAt(n, own, events, l, j, t)
    ensures i == j
  {
    hide AllMove, After, CountsHonest, CallsOk, CallsUnique, LeadersWon, PeerOk;
    var s, u := After(n, own, events[..k]), After(n, own, events[..l]);
    RunKeeps(n, own, events[..k]);
    RunKeeps(n, own, events[..l]);
    if k <= l {
      RunMoves(n, own, events, k, l);
      MajoritiesMeet(s, u, n, i, j, t);
    } else {
      RunMoves(n, own, events, l, k);
      MajoritiesMeet(u, s, n, j, i, t);
    }
  }

  lemma RunIsSafe(n: nat, own: bool, events: seq<Event>)
    requires own || n <= 3
    ensures ElectionSafe(n, own, events)
  {
    hide LedAt;
    forall k: nat, l: nat, i: nat, j: nat, t: int
      | k <= |events| && l <= |events| && LedAt(n, own, events, k, i, t) && LedAt(n, own, events, l, j, t)
      ensures i == j
    {
      OneLeaderPerTerm(n, own, events, k, l, i, j, t);
    }
  }

  /** Counting a granted vote only in the term it was asked for makes elections safe for any
      number of peers, in every run. */
  lemma OwnTermVotesAreSafe(n: nat, events: seq<Event>)
    ensures ElectionSafe(n, true, events)
  {
    RunIsSafe(n, true, events);
  }
}

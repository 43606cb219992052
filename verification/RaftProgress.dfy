/** Elections can always succeed: whatever has happened, some continuation of the run elects a
    leader, for every group of two or more peers. A single peer never becomes leader. */
module RaftProgress {
  import opened Raft
  import opened RaftLogs
  import opened Sequences

  /** The run can go on to the state s. */
  ghost predicate Continues(n: nat, own: bool, events: seq<Event>, s: System) {
    exists more :: After(n, own, events + more) == s
  }

  lemma ContinueStart(n: nat, own: bool, events: seq<Event>)
    ensures Continues(n, own, events, After(n, own, events))
  {
    assert events + [] == events;
  }

  lemma ContinueStep(n: nat, own: bool, events: seq<Event>, s: System, e: Event)
    requires Continues(n, own, events, s)
    ensures Continues(n, own, events, Apply(s, own, e))
  {
    hide Apply;
    var more :| After(n, own, events + more) == s;
    assert (events + (more + [e]))[..|events + more|] == events + more;
    assert After(n, own, events + (more + [e])) == Apply(s, own, e);
  }

  lemma {:induction false} PeersCount(n: nat, own: bool, events: seq<Event>)
    ensures |After(n, own, events).peers| == n
  {
    hide StartElection, RequestVote, VoteReplied;
    if events != [] {
      PeersCount(n, own, events[..|events| - 1]);
    }
  }

  // ---- Choosing the candidate and its term ----

  /** Voter v does not refuse candidate c for its log. */
  predicate LogEnough(c: PeerState, v: PeerState) {
    AtLeast(LastLog(c).0, LastLog(c).1, LastLog(v).0, LastLog(v).1)
  }

  /** Some peer's log is enough for all. */
  lemma {:induction false} Foremost(peers: seq<PeerState>) returns (c: nat)
    requires peers != []
    ensures c < |peers| && forall j :: 0 <= j < |peers| ==> LogEnough(peers[c], peers[j])
  {
    var k := |peers| - 1;
    if k == 0 {
      c := 0;
    } else {
      c := Foremost(peers[..k]);
      assert forall j :: 0 <= j < k ==> peers[..k][j] == peers[j];
      if !LogEnough(peers[c], peers[k]) {
        c := k;
      }
    }
  }

  /** The peer has neither reached nor voted in a term after t. */
  predicate Within(v: PeerState, t: int) {
    v.currentTerm <= t && forall x :: x in v.votesGiven ==> x <= t
  }

  lemma {:induction false} SomeBound(terms: set<int>) returns (t: int)
    ensures forall x :: x in terms ==> x <= t
    decreases |terms|
  {
    if terms == {} {
      t := 0;
    } else {
      var x := NonEmpty(terms);
      t := SomeBound(terms - {x});
      assert forall y :: y in terms ==> y == x || y in terms - {x};
      t := if x > t then x else t;
    }
  }

  lemma {:induction false} TermBound(peers: seq<PeerState>) returns (t: int)
    ensures forall j :: 0 <= j < |peers| ==> Within(peers[j], t)
  {
    if peers == [] {
      t := 0;
    } else {
      var k := |peers| - 1;
      t := TermBound(peers[..k]);
      var b := SomeBound(peers[k].votesGiven.Keys + {peers[k].currentTerm});
      t := if b > t then b else t;
      assert forall j :: 0 <= j < k ==> Within(peers[..k][j], t) && peers[..k][j] == peers[j];
    }
  }

  /** The call of candidate c, as it stands, to peer j. */
  function CallTo(c: PeerState, i: nat, j: nat): Request {
    Request(VoteArgs(c.currentTerm, i, LastLog(c).1, LastLog(c).0), j)
  }

  /** Election after election, the candidate passes any term. */
  lemma {:induction false} PassTerm(n: nat, own: bool, events: seq<Event>, s: System, c: nat, t: int)
    returns (u: System)
    requires Continues(n, own, events, s) && |s.peers| == n && c < n
    ensures Continues(n, own, events, u) && |u.peers| == n && u.peers == s.peers[c := u.peers[c]]
    ensures LastLog(u.peers[c]) == LastLog(s.peers[c]) && u.peers[c].currentTerm > t
    ensures u.peers[c].role == Candidate && u.peers[c].votesReceived == 1
    ensures forall j: nat :: j < n && j != c ==> CallTo(u.peers[c], c, j) in u.requests
    decreases t - s.peers[c].currentTerm
  {
    ContinueStep(n, own, events, s, Timeout(c));
    u := Apply(s, own, Timeout(c));
    var p := u.peers[c];
    forall j: nat | j < n && j != c ensures CallTo(p, c, j) in u.requests {
      assert Request(ElectionArgs(p, c), j) in RequestsOf(ElectionArgs(p, c), c, n);
    }
    if p.currentTerm <= t {
      u := PassTerm(n, own, events, u, c, t);
    }
  }

  // ---- Collecting the votes ----

  /** Peer c is candidate or leader with the votes of itself and the peers before k; the peers from
      k on have still to be asked and will not refuse. */
  ghost predicate Collecting(s: System, n: nat, c: nat, k: nat) {
    && |s.peers| == n && c < n && k <= n
    && s.peers[c].votesReceived == (if c < k then k else k + 1)
    && (if s.peers[c].votesReceived > 1 && s.peers[c].votesReceived > n / 2
        then s.peers[c].role == Leader else s.peers[c].role == Candidate)
    && forall j: nat :: k <= j < n && j != c ==>
      CallTo(s.peers[c], c, j) in s.requests && Within(s.peers[j], s.peers[c].currentTerm - 1) &&
      LogEnough(s.peers[c], s.peers[j])
  }

  lemma Grants(v: PeerState, c: PeerState, i: nat)
    requires Within(v, c.currentTerm - 1) && LogEnough(c, v)
    ensures var (u, reply) := RequestVote(v, CallTo(c, i, 0).args); reply.granted && reply.term < c.currentTerm
  {
  }

  lemma CollectOne(n: nat, own: bool, events: seq<Event>, s: System, c: nat, k: nat) returns (u: System)
    requires Continues(n, own, events, s) && Collecting(s, n, c, k) && k < n
    ensures Continues(n, own, events, u) && Collecting(u, n, c, k + 1)
  {
    hide RequestVote, VoteReplied, LogEnough, LastLog;
    if k == c {
      u := s;
    } else {
      var r := CallTo(s.peers[c], c, k);
      Grants(s.peers[k], s.peers[c], c);
      var (p, reply) := RequestVote(s.peers[k], r.args);
      ContinueStep(n, own, events, s, DeliverRequest(r));
      var m := Apply(s, own, DeliverRequest(r));
      assert Answer(r, reply) in m.answers && m.peers == s.peers[k := p];
      ContinueStep(n, own, events, m, DeliverAnswer(Answer(r, reply)));
      u := Apply(m, own, DeliverAnswer(Answer(r, reply)));
      assert u.peers == m.peers[c := VoteReplied(s.peers[c], n, own, r.args, reply)];
      VoteCounted(s.peers[c], n, own, r.args, reply);
      forall j: nat | k + 1 <= j < n && j != c
        ensures CallTo(u.peers[c], c, j) in u.requests && LogEnough(u.peers[c], u.peers[j])
        ensures Within(u.peers[j], u.peers[c].currentTerm - 1)
      {
        assert u.peers[j] == s.peers[j];
        LogEnoughAgain(s.peers[c], u.peers[c], s.peers[j]);
      }
    }
  }

  /** A grant of the current term is counted, and makes a candidate with a majority leader. */
  lemma VoteCounted(c: PeerState, n: nat, own: bool, args: VoteArgs, reply: VoteReply)
    requires reply.granted && reply.term <= c.currentTerm == args.term
    ensures var d := VoteReplied(c, n, own, args, reply);
      && d.currentTerm == c.currentTerm && d.votesReceived == c.votesReceived + 1 && LastLog(d) == LastLog(c)
      && d.role == if c.role == Candidate && 2 * d.votesReceived > n then Leader else c.role
  {
  }

  lemma LogEnoughAgain(c: PeerState, d: PeerState, v: PeerState)
    requires LogEnough(c, v) && LastLog(c) == LastLog(d)
    ensures LogEnough(d, v)
  {
  }

  lemma {:induction false} CollectAll(n: nat, own: bool, events: seq<Event>, s: System, c: nat, k: nat)
    returns (u: System)
    requires Continues(n, own, events, s) && Collecting(s, n, c, k)
    ensures Continues(n, own, events, u) && Collecting(u, n, c, n)
    decreases n - k
  {
    hide Continues, Collecting;
    CollectingBounds(s, n, c, k);
    if k == n {
      u := s;
    } else {
      u := CollectOne(n, own, events, s, c, k);
      u := CollectAll(n, own, events, u, c, k + 1);
    }
  }

  lemma CollectingBounds(s: System, n: nat, c: nat, k: nat)
    requires Collecting(s, n, c, k)
    ensures k <= n
  {
  }

  // ---- The result ----

  /** The run can go on so that some peer leads. */
  ghost predicate CanElect(n: nat, own: bool, events: seq<Event>) {
    exists more, i: nat, t: int :: LedAt(n, own, events + more, |events + more|, i, t)
  }

  lemma ElectionPossible(n: nat, own: bool, events: seq<Event>)
    requires n >= 2
    ensures CanElect(n, own, events)
  {
    hide After, Apply, LogEnough, LastLog;
    var s := After(n, own, events);
    PeersCount(n, own, events);
    ContinueStart(n, own, events);
    var c := Foremost(s.peers);
    var t := TermBound(s.peers);
    var u := PassTerm(n, own, events, s, c, t);
    forall j: nat | j < n && j != c
      ensures Within(u.peers[j], u.peers[c].currentTerm - 1) && LogEnough(u.peers[c], u.peers[j])
    {
      assert u.peers[j] == s.peers[j] && Within(s.peers[j], t);
      LogEnoughAgain(s.peers[c], u.peers[c], s.peers[j]);
    }
    var v := CollectAll(n, own, events, u, c, 0);
    var more :| After(n, own, events + more) == v;
    assert (events + more)[..|events + more|] == events + more;
    assert LedAt(n, own, events + more, |events + more|, c, v.peers[c].currentTerm);
  }

  /** In a group of one nobody is asked, so no answer ever makes it leader. */
  lemma {:induction false} LonePeerNeverLeads(n: nat, own: bool, events: seq<Event>)
    requires n <= 1
    ensures var s := After(n, own, events);
      |s.peers| == n && s.requests == {} && s.answers == {} && forall i :: 0 <= i < n ==> s.peers[i].role != Leader
  {
    hide RequestVote, ElectionArgs;
    if events != [] {
      LonePeerNeverLeads(n, own, events[..|events| - 1]);
    }
  }

  /** A leader can be elected after whatever has happened exactly in groups of two or more. */
  lemma ElectableIffTwo(n: nat, own: bool)
    ensures (forall events :: CanElect(n, own, events)) <==> n >= 2
  {
    hide After;
    if n >= 2 {
      forall events ensures CanElect(n, own, events) {
        ElectionPossible(n, own, events);
      }
    } else {
      forall more, i: nat, t: int ensures !LedAt(n, own, [] + more, |[] + more|, i, t) {
        LonePeerNeverLeads(n, own, ([] + more)[..|[] + more|]);
      }
      assert !CanElect(n, own, []);
    }
  }
}

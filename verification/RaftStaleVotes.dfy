/** Elections exactly as written: safe in every run for at most three peers, and for no larger
    group, because votes granted for an earlier term are counted as well. */
module RaftStaleVotes {
  import opened Raft
  import opened RaftElections

  ghost predicate Reached(n: nat, s: System) {
    exists events :: After(n, false, events) == s
  }

  lemma ReachStep(n: nat, s: System, e: Event)
    requires Reached(n, s)
    ensures Reached(n, Apply(s, false, e))
  {
    var events :| After(n, false, events) == s;
    assert (events + [e])[..|events|] == events;
    assert After(n, false, events + [e]) == Apply(s, false, e);
  }

  /** No log has an entry yet. */
  ghost predicate Calm(s: System, n: nat) {
    |s.peers| == n && forall i :: 0 <= i < n ==> |s.peers[i].log| == 1
  }

  /** Peer j has neither reached nor voted in a term after t. */
  ghost predicate Within(s: System, j: nat, t: int)
    requires j < |s.peers|
  {
    s.peers[j].currentTerm <= t && forall x :: x in s.peers[j].votesGiven ==> x <= t
  }

  function Ask(t: int, c: nat, j: nat): Request {
    Request(VoteArgs(t, c, 0, 0), j)
  }

  /** A granted answer to candidate c's call of term t by peer j, written at a term up to `upTo`. */
  ghost predicate HasGrant(s: System, t: int, c: nat, j: nat, upTo: int) {
    exists a :: a in s.answers && a.request == Ask(t, c, j) && a.reply.granted && a.reply.term <= upTo
  }

  lemma Elect(n: nat, s: System, i: nat) returns (u: System)
    requires Reached(n, s) && Calm(s, n) && i < n
    ensures Reached(n, u) && Calm(u, n)
    ensures u.peers == s.peers[i := u.peers[i]] && u.answers == s.answers && s.requests <= u.requests
    ensures u.peers[i].currentTerm == s.peers[i].currentTerm + 1 && u.peers[i].role == Candidate
    ensures u.peers[i].votesReceived == 1
    ensures forall j: nat :: j < n && j != i ==> Ask(u.peers[i].currentTerm, i, j) in u.requests
    ensures forall j: nat, t {:trigger Within(u, j, t)} :: j < n && j != i && Within(s, j, t) ==> Within(u, j, t)
  {
    ReachStep(n, s, Timeout(i));
    u := Apply(s, false, Timeout(i));
    var args := ElectionArgs(u.peers[i], i);
    assert args == VoteArgs(u.peers[i].currentTerm, i, 0, 0);
    forall j: nat | j < n && j != i ensures Ask(args.term, i, j) in u.requests {
      assert Request(args, j) in RequestsOf(args, i, n);
    }
  }

  /** Peer j receives the call of a term it has not reached, and grants it. */
  lemma Grant(n: nat, s: System, before: int, t: int, c: nat, j: nat) returns (u: System)
    requires Reached(n, s) && Calm(s, n) && j < n && Ask(t, c, j) in s.requests && Within(s, j, before) && before < t
    ensures Reached(n, u) && Calm(u, n)
    ensures u.peers == s.peers[j := u.peers[j]] && u.requests == s.requests - {Ask(t, c, j)} && s.answers <= u.answers
    ensures u.peers[j].currentTerm == t && Within(u, j, t)
    ensures HasGrant(u, t, c, j, t)
  {
    ReachStep(n, s, DeliverRequest(Ask(t, c, j)));
    u := Apply(s, false, DeliverRequest(Ask(t, c, j)));
    assert Answer(Ask(t, c, j), VoteReply(s.peers[j].currentTerm, true)) in u.answers;
  }

  /** All peers from k on grant candidate c's call of term t. */
  lemma {:induction false} GrantAll(n: nat, s: System, before: int, t: int, c: nat, k: nat) returns (u: System)
    requires Reached(n, s) && Calm(s, n) && k <= n
    requires before < t && forall j: nat :: k <= j < n ==> Ask(t, c, j) in s.requests && Within(s, j, before)
    ensures Reached(n, u) && Calm(u, n)
    ensures u.peers[..k] == s.peers[..k] && s.answers <= u.answers
    ensures forall j: nat :: k <= j < n ==> Within(u, j, t)
    ensures forall j: nat :: k <= j < n ==> HasGrant(u, t, c, j, t)
    decreases n - k
  {
    if k == n {
      u := s;
    } else {
      var m := Grant(n, s, before, t, c, k);
      u := GrantAll(n, m, before, t, c, k + 1);
      assert u.peers[k] == u.peers[..k + 1][k] == m.peers[..k + 1][k] == m.peers[k];
      assert u.peers[..k] == u.peers[..k + 1][..k] == m.peers[..k + 1][..k] == m.peers[..k] == s.peers[..k];
      StillGranted(m, u, t, c, k, t);
    }
  }

  lemma StillGranted(s: System, u: System, t: int, c: nat, j: nat, upTo: int)
    requires HasGrant(s, t, c, j, upTo) && s.answers <= u.answers
    ensures HasGrant(u, t, c, j, upTo)
  {
  }

  /** One stale grant is delivered and counted. */
  lemma CountOne(n: nat, s: System, t: int, c: nat, j: nat) returns (u: System)
    requires Reached(n, s) && Calm(s, n) && c < n
    requires s.peers[c].role == Candidate && t < s.peers[c].currentTerm && HasGrant(s, t, c, j, t)
    ensures Reached(n, u) && Calm(u, n)
    ensures u.peers == s.peers[c := s.peers[c].(votesReceived := s.peers[c].votesReceived + 1)]
    ensures u.requests == s.requests
    ensures forall a :: a in s.answers && a.request != Ask(t, c, j) ==> a in u.answers
  {
    var a :| a in s.answers && a.request == Ask(t, c, j) && a.reply.granted && a.reply.term <= t;
    ReachStep(n, s, DeliverAnswer(a));
    u := Apply(s, false, DeliverAnswer(a));
  }

  lemma OtherGrantStays(s: System, u: System, t: int, c: nat, j: nat, k: nat)
    requires HasGrant(s, t, c, j, t) && j != k
    requires forall a :: a in s.answers && a.request != Ask(t, c, k) ==> a in u.answers
    ensures HasGrant(u, t, c, j, t)
  {
    var b :| b in s.answers && b.request == Ask(t, c, j) && b.reply.granted && b.reply.term <= t;
    assert b in u.answers;
  }

  /** The stale grants of term t, from peer k on, are counted by the candidate of a later term. */
  lemma {:induction false} CountAll(n: nat, s: System, t: int, c: nat, k: nat) returns (u: System)
    requires Reached(n, s) && Calm(s, n) && c < n && k <= n
    requires s.peers[c].role == Candidate && t < s.peers[c].currentTerm
    requires forall j: nat :: k <= j < n ==> HasGrant(s, t, c, j, t)
    ensures Reached(n, u) && Calm(u, n)
    ensures u.peers == s.peers[c := s.peers[c].(votesReceived := s.peers[c].votesReceived + n - k)]
    ensures u.requests == s.requests
    ensures forall a :: a in s.answers && a.request.args.candidateId != c ==> a in u.answers
    decreases n - k
  {
    hide HasGrant, Reached;
    if k == n {
      u := s;
    } else {
      var m := CountOne(n, s, t, c, k);
      forall j: nat | k + 1 <= j < n ensures HasGrant(m, t, c, j, t) {
        OtherGrantStays(s, m, t, c, j, k);
      }
      u := CountAll(n, m, t, c, k + 1);
    }
  }

  /** One honest vote of its own term then makes the candidate a leader. */
  lemma Win(n: nat, s: System, c: nat, j: nat) returns (u: System)
    requires Reached(n, s) && Calm(s, n) && c < n && j < n && c != j
    requires s.peers[c].role == Candidate && 2 * (s.peers[c].votesReceived + 1) > n
    requires Ask(s.peers[c].currentTerm, c, j) in s.requests && Within(s, j, s.peers[c].currentTerm - 1)
    ensures Reached(n, u) && Calm(u, n)
    ensures u.peers[c].role == Leader && u.peers[c].currentTerm == s.peers[c].currentTerm
    ensures forall i :: 0 <= i < n && i != c && i != j ==> u.peers[i] == s.peers[i]
    ensures u.requests == s.requests - {Ask(s.peers[c].currentTerm, c, j)}
  {
    var t := s.peers[c].currentTerm;
    var m := Grant(n, s, t - 1, t, c, j);
    var a :| a in m.answers && a.request == Ask(t, c, j) && a.reply.granted && a.reply.term <= t;
    ReachStep(n, m, DeliverAnswer(a));
    u := Apply(m, false, DeliverAnswer(a));
  }

  /** Peers 0 and 1 are candidates of term 3; the other peers' grants for terms 1 and 2 are
      still on their way. */
  lemma GrantsUnderWay(n: nat) returns (s: System)
    requires n >= 4
    ensures Reached(n, s) && Calm(s, n)
    ensures forall c: nat :: c < 2 ==>
      s.peers[c].role == Candidate && s.peers[c].currentTerm == 3 && s.peers[c].votesReceived == 1 &&
      Ask(3, c, 2 + c) in s.requests && Within(s, 2 + c, 2)
    ensures forall j: nat :: 2 <= j < n ==> HasGrant(s, 1, 0, j, 1)
    ensures forall j: nat :: 2 <= j < n ==> HasGrant(s, 2, 1, j, 2)
  {
    hide HasGrant, Reached;
    ReachStart(n);
    var a := Elect(n, Init(n), 0);
    var b := GrantAll(n, a, 0, 1, 0, 2);
    FirstTwo(a, b, n);
    var c := Elect(n, b, 1);
    var d := Elect(n, c, 1);
    var e := GrantAll(n, d, 1, 2, 1, 2);
    FirstTwo(d, e, n);
    var f := Elect(n, e, 0);
    var g := Elect(n, f, 0);
    s := Elect(n, g, 1);
    assert Within(s, 2, 2) && Within(s, 3, 2);
    forall j: nat | 2 <= j < n ensures HasGrant(s, 1, 0, j, 1) {
      StillGranted(b, s, 1, 0, j, 1);
    }
    forall j: nat | 2 <= j < n ensures HasGrant(s, 2, 1, j, 2) {
      StillGranted(e, s, 2, 1, j, 2);
    }
  }

  lemma ReachStart(n: nat)
    ensures Reached(n, Init(n)) && Calm(Init(n), n)
  {
    assert After(n, false, []) == Init(n);
  }

  lemma FirstTwo(s: System, u: System, n: nat)
    requires |s.peers| == n == |u.peers| && n >= 2 && u.peers[..2] == s.peers[..2]
    ensures u.peers[0] == s.peers[0] && u.peers[1] == s.peers[1]
  {
    assert u.peers[0] == u.peers[..2][0] && u.peers[1] == u.peers[..2][1];
  }

  /** Both candidates count all stale grants. */
  lemma TwoCandidates(n: nat) returns (s: System)
    requires n >= 4
    ensures Reached(n, s) && Calm(s, n)
    ensures forall c: nat :: c < 2 ==>
      s.peers[c].role == Candidate && s.peers[c].currentTerm == 3 && s.peers[c].votesReceived == n - 1 &&
      Ask(3, c, 2 + c) in s.requests && Within(s, 2 + c, 2)
  {
    hide HasGrant, Reached;
    var h := GrantsUnderWay(n);
    var x := CountAll(n, h, 1, 0, 2);
    forall j: nat | 2 <= j < n ensures HasGrant(x, 2, 1, j, 2) {
      GrantStays(h, x, 2, 1, j, 0);
    }
    s := CountAll(n, x, 2, 1, 2);
  }

  lemma GrantStays(s: System, u: System, t: int, c: nat, j: nat, other: nat)
    requires HasGrant(s, t, c, j, t) && c != other
    requires forall a :: a in s.answers && a.request.args.candidateId != other ==> a in u.answers
    ensures HasGrant(u, t, c, j, t)
  {
  }

  /** With four or more peers some run elects two leaders in one term, even at the same moment. */
  lemma TwoLeaders(n: nat) returns (events: seq<Event>, t: int)
    requires n >= 4
    ensures LedAt(n, false, events, |events|, 0, t) && LedAt(n, false, events, |events|, 1, t)
  {
    var a := TwoCandidates(n);
    var b := Win(n, a, 0, 2);
    assert Ask(3, 1, 3) != Ask(3, 0, 2);
    var s := Win(n, b, 1, 3);
    assert s.peers[0].role == Leader && s.peers[1].role == Leader && s.peers[0].currentTerm == s.peers[1].currentTerm;
    events :| After(n, false, events) == s;
    t := s.peers[0].currentTerm;
    assert events[..|events|] == events;
  }

  /** Elections as written are safe in every run exactly for at most three peers. */
  lemma AsWrittenSafeIffThree(n: nat)
    ensures (forall events :: ElectionSafe(n, false, events)) <==> n <= 3
  {
    hide LedAt;
    if n <= 3 {
      forall events ensures ElectionSafe(n, false, events) {
        RunIsSafe(n, false, events);
      }
    } else {
      var events, t := TwoLeaders(n);
      assert !ElectionSafe(n, false, events);
    }
  }
}

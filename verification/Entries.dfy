/** The event list of a history: one call entry and one return entry per operation, sorted by time
    with calls before returns at equal times. */
module Entries {
  import opened Linearizability
  import opened Sequences

  datatype EntryKind = CallEntry | ReturnEntry

  datatype Value<+I, +O> = NoValue | Input(input: I) | Output(output: O)

  datatype Entry<+I, +O> = Entry(kind: EntryKind, value: Value<I, O>, id: nat, time: int, clientId: int)

  function CallOf<I, O>(ops: seq<Operation<I, O>>, i: nat): Entry<I, O>
    requires i < |ops|
  {
    Entry(CallEntry, Input(ops[i].input), i, ops[i].call, ops[i].clientId)
  }

  function ReturnOf<I, O>(ops: seq<Operation<I, O>>, i: nat): Entry<I, O>
    requires i < |ops|
  {
    Entry(ReturnEntry, Output(ops[i].output), i, ops[i].ret, ops[i].clientId)
  }

  /** The entries of a history in the order in which they are collected, before sorting. */
  function Collected<I, O>(ops: seq<Operation<I, O>>): seq<Entry<I, O>> {
    seq(2 * |ops|, k requires 0 <= k < 2 * |ops| =>
      if k % 2 == 0 then CallOf(ops, k / 2) else ReturnOf(ops, k / 2))
  }

  predicate Less<I, O>(a: Entry<I, O>, b: Entry<I, O>) {
    if a.time != b.time then a.time < b.time else a.kind == CallEntry && b.kind == ReturnEntry
  }

  predicate Sorted<I, O>(es: seq<Entry<I, O>>) {
    forall i, j :: 0 <= i < j < |es| ==> !Less(es[j], es[i])
  }

  /** es is some order that sorting the entries of ops may produce. */
  ghost predicate EventList<I, O>(ops: seq<Operation<I, O>>, es: seq<Entry<I, O>>) {
    multiset(es) == multiset(Collected(ops)) && Sorted(es)
  }

  /** The entry is placed after everything not later and before everything later. */
  lemma InsertionPoint<I, O>(s: seq<Entry<I, O>>, at: nat, e: Entry<I, O>, k: nat)
    requires Sorted(s) && at <= |s| && k < |s|
    requires at > 0 ==> !Less(e, s[at - 1])
    requires at < |s| ==> Less(e, s[at])
    ensures if k < at then !Less(e, s[k]) else !Less(s[k], e)
  {
    if k < at - 1 { assert !Less(s[at - 1], s[k]); }
    if k > at { assert !Less(s[k], s[at]); }
  }

  lemma InsertSorted<I, O>(s: seq<Entry<I, O>>, at: nat, e: Entry<I, O>)
    requires Sorted(s) && at <= |s|
    requires at > 0 ==> !Less(e, s[at - 1])
    requires at < |s| ==> Less(e, s[at])
    ensures Sorted(InsertAt(s, at, e))
  {
    forall i, j | 0 <= i < j < |InsertAt(s, at, e)| ensures !Less(InsertAt(s, at, e)[j], InsertAt(s, at, e)[i]) {
      InsertedPair(s, at, e, i, j);
    }
  }

  lemma InsertedPair<I, O>(s: seq<Entry<I, O>>, at: nat, e: Entry<I, O>, i: nat, j: nat)
    requires Sorted(s) && at <= |s| && i < j <= |s|
    requires at > 0 ==> !Less(e, s[at - 1])
    requires at < |s| ==> Less(e, s[at])
    ensures !Less(InsertAt(s, at, e)[j], InsertAt(s, at, e)[i])
  {
    hide Less, InsertAt;
    InsertAtAt(s, at, e, i);
    InsertAtAt(s, at, e, j);
    if i == at { InsertionPoint(s, at, e, j - 1); }
    if j == at { InsertionPoint(s, at, e, i); }
  }

  /** Stands for sort.Sort: callers rely only on its contract, so any sorting order of equal
      entries is covered. */
  method SortByTime<I, O>(entries: seq<Entry<I, O>>) returns (sorted: seq<Entry<I, O>>)
    ensures multiset(sorted) == multiset(entries)
    ensures Sorted(sorted)
  {
    sorted := [];
    for k := 0 to |entries|
      invariant multiset(sorted) == multiset(entries[..k])
      invariant Sorted(sorted)
    {
      var at := |sorted|;
      while at > 0 && Less(entries[k], sorted[at - 1])
        invariant 0 <= at <= |sorted|
        invariant at < |sorted| ==> Less(entries[k], sorted[at])
      {
        at := at - 1;
      }
      InsertSorted(sorted, at, entries[k]);
      hide Sorted;
      assert entries[..k + 1] == entries[..k] + [entries[k]];
      InsertAtMultiset(sorted, at, entries[k]);
      sorted := InsertAt(sorted, at, entries[k]);
    }
    assert entries[..|entries|] == entries;
  }

  method MakeEntries<I, O>(history: seq<Operation<I, O>>) returns (entries: seq<Entry<I, O>>)
    ensures EventList(history, entries)
  {
    entries := [];
    var id := 0;
    for k := 0 to |history|
      invariant id == k
      invariant entries == Collected(history[..k])
    {
      var elem := history[k];
      entries := entries + [Entry(CallEntry, Input(elem.input), id, elem.call, elem.clientId)];
      entries := entries + [Entry(ReturnEntry, Output(elem.output), id, elem.ret, elem.clientId)];
      id := id + 1;
    }
    assert history[..|history|] == history;
    entries := SortByTime(entries);
  }

  /** cp and rp give the positions of each operation's call and return in the event list. */
  ghost predicate Timeline<I, O>(ops: seq<Operation<I, O>>, es: seq<Entry<I, O>>, cp: seq<nat>, rp: seq<nat>) {
    && |es| == 2 * |ops| && |cp| == |ops| && |rp| == |ops|
    && (forall i :: 0 <= i < |ops| ==>
      cp[i] < rp[i] < |es| && es[cp[i]] == CallOf(ops, i) && es[rp[i]] == ReturnOf(ops, i))
    && (forall k :: 0 <= k < |es| ==>
      es[k].id < |ops| && k == if es[k].kind == CallEntry then cp[es[k].id] else rp[es[k].id])
    && (forall i, j :: 0 <= i < |ops| && 0 <= j < |ops| ==> (rp[j] < cp[i] <==> ops[j].ret < ops[i].call))
  }

  lemma {:induction false} CountAtMostOne<T>(s: seq<T>, x: T)
    requires NoRepeats(s)
    ensures multiset(s)[x] <= 1
  {
    if s != [] {
      var front, last := s[..|s| - 1], s[|s| - 1];
      assert s == front + [last];
      CountAtMostOne(front, x);
      assert last !in front;
    }
  }

  lemma CountTwice<T>(s: seq<T>, i: nat, j: nat)
    requires i < j < |s| && s[i] == s[j]
    ensures multiset(s)[s[i]] >= 2
  {
    assert s == s[..j] + [s[j]] + s[j + 1..];
    assert s[i] in s[..j];
  }

  lemma PermutationNoRepeats<T>(a: seq<T>, b: seq<T>)
    requires multiset(a) == multiset(b) && NoRepeats(b)
    ensures NoRepeats(a)
  {
    forall i, j | 0 <= i < j < |a| ensures a[i] != a[j] {
      CountAtMostOne(b, a[i]);
      if a[i] == a[j] {
        CountTwice(a, i, j);
      }
    }
  }

  lemma Locate<T>(s: seq<T>, x: T) returns (k: nat)
    requires x in multiset(s)
    ensures k < |s| && s[k] == x
  {
    assert x in s;
    k :| k < |s| && s[k] == x;
  }

  lemma CollectedHolds<I, O>(ops: seq<Operation<I, O>>, i: nat)
    requires i < |ops|
    ensures CallOf(ops, i) in Collected(ops) && ReturnOf(ops, i) in Collected(ops)
  {
    assert Collected(ops)[2 * i] == CallOf(ops, i);
    assert Collected(ops)[2 * i + 1] == ReturnOf(ops, i);
  }

  /** Each operation's call and return can be located in the event list. */
  lemma {:induction false} LocateAll<I, O>(ops: seq<Operation<I, O>>, es: seq<Entry<I, O>>, n: nat)
    returns (cp: seq<nat>, rp: seq<nat>)
    requires EventList(ops, es) && n <= |ops|
    ensures |cp| == |rp| == n
    ensures forall j :: 0 <= j < n ==> cp[j] < |es| && es[cp[j]] == CallOf(ops, j)
    ensures forall j :: 0 <= j < n ==> rp[j] < |es| && es[rp[j]] == ReturnOf(ops, j)
  {
    if n == 0 {
      cp, rp := [], [];
    } else {
      cp, rp := LocateAll(ops, es, n - 1);
      CollectedHolds(ops, n - 1);
      var c := Locate(es, CallOf(ops, n - 1));
      var r := Locate(es, ReturnOf(ops, n - 1));
      cp, rp := cp + [c], rp + [r];
    }
  }

  lemma CollectedKnown<I, O>(ops: seq<Operation<I, O>>, e: Entry<I, O>)
    requires e in Collected(ops)
    ensures e.id < |ops| && e == if e.kind == CallEntry then CallOf(ops, e.id) else ReturnOf(ops, e.id)
  {
    var k :| 0 <= k < |Collected(ops)| && Collected(ops)[k] == e;
  }

  lemma OrderedByTime<I, O>(es: seq<Entry<I, O>>, c: nat, r: nat)
    requires Sorted(es) && c < |es| && r < |es|
    requires es[c].kind == CallEntry && es[r].kind == ReturnEntry
    ensures r < c <==> es[r].time < es[c].time
  {
    if r < c { assert !Less(es[c], es[r]); } else { assert r != c && !Less(es[r], es[c]); }
  }

  /** Every event list has a timeline, and in it a return precedes a call exactly when the
      operation returned before the other one was called. */
  lemma EventListTimeline<I, O>(ops: seq<Operation<I, O>>, es: seq<Entry<I, O>>) returns (cp: seq<nat>, rp: seq<nat>)
    requires WellTimed(ops) && EventList(ops, es)
    ensures Timeline(ops, es, cp, rp)
  {
    var all := Collected(ops);
    assert |multiset(es)| == |es| && |multiset(all)| == |all|;
    PermutationNoRepeats(es, all);
    cp, rp := LocateAll(ops, es, |ops|);
    forall i, j | 0 <= i < |ops| && 0 <= j < |ops|
      ensures rp[j] != cp[i] && (rp[j] < cp[i] <==> ops[j].ret < ops[i].call)
    {
      OrderedByTime(es, cp[i], rp[j]);
    }
    forall k | 0 <= k < |es|
      ensures es[k].id < |ops| && k == if es[k].kind == CallEntry then cp[es[k].id] else rp[es[k].id]
    {
      assert es[k] in multiset(es);
      CollectedKnown(ops, es[k]);
    }
  }
}

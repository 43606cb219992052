/** What the visualization shows: the history's operations, and the recorded partial
    linearizations, longest first, replayed with their states. */
module Visualization {
  import opened Wrappers
  import opened Linearizability
  import opened Entries
  import opened Search
  import opened CheckSingle
  import opened Sequences

  datatype HistoryElement = HistoryElement(clientId: int, start: int, end: int, description: string)

  /** One step of a shown linearization: the operation's id and a description of the state. */
  type Step = (nat, string)

  datatype Data = Data(history: seq<HistoryElement>, linearizations: seq<seq<Step>>, largest: map<nat, nat>)

  // ---- The operations ----

  function Shown<I, O>(o: Operation<I, O>, describe: (I, O) -> string): HistoryElement {
    HistoryElement(o.clientId, o.call, o.ret, describe(o.input, o.output))
  }

  /** The entry at position k belongs to one operation. */
  lemma EntryAt<I, O>(ops: seq<Operation<I, O>>, es: seq<Entry<I, O>>, cp: seq<nat>, rp: seq<nat>, k: nat)
    requires Timeline(ops, es, cp, rp) && k < |es|
    ensures |cp| == |rp| == |ops| && |es| == 2 * |ops| && es[k].id < |ops|
    ensures es[k] == if es[k].kind == CallEntry then CallOf(ops, es[k].id) else ReturnOf(ops, es[k].id)
    ensures es[k].kind == ReturnEntry ==> cp[es[k].id] < k
    ensures forall i: nat :: i < |ops| ==> (cp[i] == k <==> es[k].kind == CallEntry && i == es[k].id)
    ensures forall i: nat :: i < |ops| ==> (rp[i] == k <==> es[k].kind == ReturnEntry && i == es[k].id)
    ensures forall i: nat :: i < |ops| && rp[i] <= k ==> cp[i] < k
  {
  }

  lemma AllBefore<I, O>(ops: seq<Operation<I, O>>, es: seq<Entry<I, O>>, cp: seq<nat>, rp: seq<nat>)
    requires Timeline(ops, es, cp, rp)
    ensures |cp| == |rp| == |ops| && |es| == 2 * |ops|
    ensures forall i: nat :: i < |ops| ==> cp[i] < |es| && rp[i] < |es|
  {
  }

  /** The values and the history elements collected from the entries of a partition. */
  method CollectValues<I, O>(history: seq<Entry<I, O>>, describe: (I, O) -> string, ghost ops: seq<Operation<I, O>>)
    returns (callValue: map<nat, Value<I, O>>, returnValue: map<nat, Value<I, O>>, elements: seq<HistoryElement>)
    requires WellTimed(ops) && EventList(ops, history)
    ensures forall i: nat :: i < |ops| ==> i in callValue && callValue[i] == Input(ops[i].input)
    ensures forall i: nat :: i < |ops| ==> i in returnValue && returnValue[i] == Output(ops[i].output)
    ensures |elements| == |ops| && forall i: nat :: i < |ops| ==> elements[i] == Shown(ops[i], describe)
  {
    hide EventList, WellTimed, Timeline;
    ghost var cp, rp := EventListTimeline(ops, history);
    AllBefore(ops, history, cp, rp);
    callValue, returnValue := map[], map[];
    elements := seq(|history| / 2, _ => HistoryElement(0, 0, 0, ""));
    for k := 0 to |history|
      invariant |elements| == |ops|
      invariant forall i: nat :: i < |ops| && cp[i] < k ==> i in callValue && callValue[i] == Input(ops[i].input)
      invariant forall i: nat :: i < |ops| && cp[i] < k ==>
        elements[i].clientId == ops[i].clientId && elements[i].start == ops[i].call
      invariant forall i: nat :: i < |ops| && rp[i] < k ==> i in returnValue && returnValue[i] == Output(ops[i].output)
      invariant forall i: nat :: i < |ops| && rp[i] < k ==> elements[i] == Shown(ops[i], describe)
    {
      var elem := history[k];
      EntryAt(ops, history, cp, rp, k);
      match elem.kind
      case CallEntry =>
        elements := elements[elem.id := elements[elem.id].(clientId := elem.clientId, start := elem.time)];
        callValue := callValue[elem.id := elem.value];
      case ReturnEntry =>
        var description := describe(callValue[elem.id].input, elem.value.output);
        elements := elements[elem.id := elements[elem.id].(end := elem.time, description := description)];
        returnValue := returnValue[elem.id := elem.value];
    }
  }

  // ---- The distinct records, longest first ----

  /** The records turned into a set of sequences, in the open order of Go's map iteration. */
  method UniqueRecords(longest: array<Option<seq<nat>>>) returns (partials: seq<seq<nat>>)
    ensures NoRepeats(partials)
    ensures forall p :: p in partials <==> Some(p) in longest[..]
  {
    partials := [];
    for i := 0 to longest.Length
      invariant NoRepeats(partials)
      invariant forall p :: p in partials <==> Some(p) in longest[..i]
    {
      assert longest[..i + 1] == longest[..i] + [longest[i]];
      if longest[i].Some? && longest[i].value !in partials {
        partials := partials + [longest[i].value];
      }
    }
    assert longest[..longest.Length] == longest[..];
  }

  predicate LongestFirst(s: seq<seq<nat>>) {
    forall i, j :: 0 <= i < j < |s| ==> |s[i]| >= |s[j]|
  }

  lemma InsertByLength(s: seq<seq<nat>>, at: nat, p: seq<nat>)
    requires LongestFirst(s) && at <= |s|
    requires at > 0 ==> |s[at - 1]| >= |p|
    requires at < |s| ==> |p| > |s[at]|
    ensures LongestFirst(InsertAt(s, at, p))
  {
    var t := InsertAt(s, at, p);
    assert |t| == |s| + 1;
    forall i, j | 0 <= i < j < |t| ensures |t[i]| >= |t[j]| {
      hide InsertAt;
      InsertAtAt(s, at, p, i);
      InsertAtAt(s, at, p, j);
    }
  }

  /** Stands for sort.Slice: the order of sequences of equal length is open to callers. */
  method SortByLength(partials: seq<seq<nat>>) returns (s: seq<seq<nat>>)
    ensures multiset(s) == multiset(partials) && LongestFirst(s)
  {
    hide InsertAt;
    s := [];
    for k := 0 to |partials|
      invariant multiset(s) == multiset(partials[..k]) && LongestFirst(s)
    {
      var at := |s|;
      while at > 0 && |partials[k]| > |s[at - 1]|
        invariant 0 <= at <= |s|
        invariant at < |s| ==> |partials[k]| > |s[at]|
      {
        at := at - 1;
      }
      InsertByLength(s, at, partials[k]);
      InsertAtMultiset(s, at, partials[k]);
      assert partials[..k + 1] == partials[..k] + [partials[k]];
      s := InsertAt(s, at, partials[k]);
    }
    assert partials[..|partials|] == partials;
  }

  // ---- Replaying one of them ----

  lemma {:induction false} PrefixAccepted<S, I, O>(m: Model<S, I, O>, order: seq<Operation<I, O>>, k: nat)
    requires Legal(m, order) && k <= |order|
    ensures Legal(m, order[..k])
  {
    if k < |order| {
      assert order[..|order| - 1][..k] == order[..k];
      PrefixAccepted(m, order[..|order| - 1], k);
    } else {
      assert order[..k] == order;
    }
  }

  lemma PartialInRange<S, I, O>(m: Model<S, I, O>, ops: seq<Operation<I, O>>, partial: seq<nat>)
    requires IsPartialLinearization(m, ops, partial)
    ensures InRange(partial, |ops|) && forall k :: 0 <= k <= |partial| ==> InRange(partial[..k], |ops|)
  {
  }

  lemma EmptyReplay<S, I, O>(m: Model<S, I, O>, ops: seq<Operation<I, O>>)
    ensures StateAfter(m, Named(ops, [])) == m.init
  {
  }

  /** The j-th step of a partial linearization is accepted in the state before it. */
  lemma ReplayStep<S, I, O>(m: Model<S, I, O>, ops: seq<Operation<I, O>>, partial: seq<nat>, j: nat)
    requires IsPartialLinearization(m, ops, partial) && j < |partial|
    requires InRange(partial[..j], |ops|) && InRange(partial[..j + 1], |ops|)
    ensures var o := ops[partial[j]];
            m.step(StateAfter(m, Named(ops, partial[..j])), o.input, o.output) ==
              (true, StateAfter(m, Named(ops, partial[..j + 1])))
  {
    hide Legal, StateAfter, RespectsRealTime, NoRepeats;
    PrefixAccepted(m, Named(ops, partial), j + 1);
    var order := Named(ops, partial[..j + 1]);
    assert Named(ops, partial)[..j + 1] == order;
    assert order[..j] == Named(ops, partial[..j]);
    LastAccepted(m, order);
  }

  lemma LastAccepted<S, I, O>(m: Model<S, I, O>, order: seq<Operation<I, O>>)
    requires Legal(m, order) && order != []
    ensures var last := order[|order| - 1];
            m.step(StateAfter(m, order[..|order| - 1]), last.input, last.output) == (true, StateAfter(m, order))
  {
  }

  /** The ids along a shown linearization. */
  function Ids(l: seq<Step>): (r: seq<nat>)
    ensures |r| == |l| && forall k :: 0 <= k < |l| ==> r[k] == l[k].0
  {
    seq(|l|, k requires 0 <= k < |l| => l[k].0)
  }

  /** l shows the partial linearization with a description of the state after each step. */
  ghost predicate Replayed<S, I, O>(m: Model<S, I, O>, describeState: S -> string, ops: seq<Operation<I, O>>,
                                    partial: seq<nat>, l: seq<Step>)
  {
    && Ids(l) == partial && (forall k :: 0 <= k <= |partial| ==> InRange(partial[..k], |ops|))
    && forall k :: 0 <= k < |l| ==> l[k].1 == describeState(StateAfter(m, Named(ops, partial[..k + 1])))
  }

  /** Replays one partial linearization. The source panics when a step is refused; here that is the
      outcome None, and the contract says it cannot happen. */
  method Replay<S, I, O>(m: Model<S, I, O>, describeState: S -> string, ghost ops: seq<Operation<I, O>>,
                         callValue: map<nat, Value<I, O>>, returnValue: map<nat, Value<I, O>>, partial: seq<nat>)
    returns (l: Option<seq<Step>>)
    requires IsPartialLinearization(m, ops, partial)
    requires forall i: nat :: i < |ops| ==> i in callValue && callValue[i] == Input(ops[i].input)
    requires forall i: nat :: i < |ops| ==> i in returnValue && returnValue[i] == Output(ops[i].output)
    ensures l.Some? && Replayed(m, describeState, ops, partial, l.value)
  {
    hide StateAfter, Named, IsPartialLinearization;
    PartialInRange(m, ops, partial);
    var steps: seq<Step> := [];
    var state := m.init;
    assert partial[..0] == [];
    EmptyReplay(m, ops);
    for j := 0 to |partial|
      invariant |steps| == j && state == StateAfter(m, Named(ops, partial[..j]))
      invariant forall k :: 0 <= k < j ==> steps[k].0 == partial[k]
      invariant forall k :: 0 <= k < j ==> steps[k].1 == describeState(StateAfter(m, Named(ops, partial[..k + 1])))
    {
      var histId := partial[j];
      ReplayStep(m, ops, partial, j);
      var (ok, next) := m.step(state, callValue[histId].input, returnValue[histId].output);
      state := next;
      if !ok {
        return None;
      }
      steps := steps + [(histId, describeState(state))];
    }
    assert Ids(steps) == partial;
    return Some(steps);
  }

  // ---- The index of the largest linearization of each operation ----

  /** Among the first i sequences, size and index give for each id a longest one that holds it,
      and the first of those. */
  ghost predicate LargestSoFar(sorted: seq<seq<nat>>, i: nat, size: map<nat, nat>, index: map<nat, nat>)
    requires i <= |sorted|
  {
    && size.Keys == index.Keys
    && (forall k :: 0 <= k < i ==> forall h :: h in sorted[k] ==> h in index)
    && (forall h :: h in index ==> index[h] < i && h in sorted[index[h]] && size[h] == |sorted[index[h]]|)
    && (forall h, k :: h in index && 0 <= k < index[h] ==> h !in sorted[k])
  }

  /** The updates for the i-th sequence. */
  method UpdateLargest(partial: seq<nat>, i: nat, size0: map<nat, nat>, index0: map<nat, nat>)
    returns (size: map<nat, nat>, index: map<nat, nat>)
    requires size0.Keys == index0.Keys && forall h :: h in size0 ==> size0[h] >= |partial|
    ensures size.Keys == index.Keys
    ensures forall h :: h in index <==> h in index0 || h in partial
    ensures forall h :: h in index ==> index[h] == if h in index0 then index0[h] else i
    ensures forall h :: h in size ==> size[h] == if h in index0 then size0[h] else |partial|
  {
    size, index := size0, index0;
    for j := 0 to |partial|
      invariant size.Keys == index.Keys
      invariant forall h :: h in index <==> h in index0 || h in partial[..j]
      invariant forall h :: h in index ==> index[h] == if h in index0 then index0[h] else i
      invariant forall h :: h in size ==> size[h] == if h in index0 then size0[h] else |partial|
    {
      var histId := partial[j];
      assert partial[..j + 1] == partial[..j] + [histId];
      if (if histId in size then size[histId] else 0) < |partial| {
        size := size[histId := |partial|];
        index := index[histId := i];
      }
    }
    assert partial[..|partial|] == partial;
  }

  lemma LargestGrows(sorted: seq<seq<nat>>, i: nat, size0: map<nat, nat>, index0: map<nat, nat>,
                     size: map<nat, nat>, index: map<nat, nat>)
    requires i < |sorted| && LongestFirst(sorted) && LargestSoFar(sorted, i, size0, index0)
    requires size.Keys == index.Keys
    requires forall h :: h in index <==> h in index0 || h in sorted[i]
    requires forall h :: h in index ==> index[h] == if h in index0 then index0[h] else i
    requires forall h :: h in size ==> size[h] == if h in index0 then size0[h] else |sorted[i]|
    ensures LargestSoFar(sorted, i + 1, size, index)
  {
  }

  // ---- The whole partition ----

  /** What is shown for the given partial linearizations: all of them, longest first, each replayed,
      and for each id the first that holds it. */
  ghost predicate Shows<S, I, O>(m: Model<S, I, O>, describeState: S -> string, ops: seq<Operation<I, O>>,
                                 partials: seq<seq<nat>>, sorted: seq<seq<nat>>, data: Data)
  {
    && multiset(sorted) == multiset(partials) && LongestFirst(sorted)
    && |data.linearizations| == |sorted|
    && (forall i :: 0 <= i < |sorted| ==> Replayed(m, describeState, ops, sorted[i], data.linearizations[i]))
    && (exists size :: LargestSoFar(sorted, |sorted|, size, data.largest))
  }

  method ComputeData<S, I, O>(m: Model<S, I, O>, describe: (I, O) -> string, describeState: S -> string,
                              history: seq<Entry<I, O>>, partials: seq<seq<nat>>, ghost ops: seq<Operation<I, O>>)
    returns (panics: bool, data: Data)
    requires WellTimed(ops) && EventList(ops, history)
    requires forall p :: p in partials ==> IsPartialLinearization(m, ops, p)
    ensures !panics
    ensures |data.history| == |ops| && forall i: nat :: i < |ops| ==> data.history[i] == Shown(ops[i], describe)
    ensures exists sorted :: Shows(m, describeState, ops, partials, sorted, data)
  {
    hide WellTimed, EventList, IsPartialLinearization, Replayed, LargestSoFar, LongestFirst;
    var callValue, returnValue, elements := CollectValues(history, describe, ops);
    var sorted := SortByLength(partials);
    var size: map<nat, nat>, index: map<nat, nat> := map[], map[];
    var linearizations: seq<seq<Step>> := [];
    LargestOfNone(sorted);
    for i := 0 to |sorted|
      invariant |linearizations| == i
      invariant forall k :: 0 <= k < i ==> Replayed(m, describeState, ops, sorted[k], linearizations[k])
      invariant LargestSoFar(sorted, i, size, index)
    {
      SameElement(sorted, partials, i);
      var l := Replay(m, describeState, ops, callValue, returnValue, sorted[i]);
      if l.None? {
        return true, Data([], [], map[]);
      }
      SizesEnough(sorted, i, size, index);
      ghost var size0, index0 := size, index;
      size, index := UpdateLargest(sorted[i], i, size, index);
      LargestGrows(sorted, i, size0, index0, size, index);
      linearizations := linearizations + [l.value];
    }
    panics, data := false, Data(elements, linearizations, index);
    assert Shows(m, describeState, ops, partials, sorted, data);
  }

  lemma LargestOfNone(sorted: seq<seq<nat>>)
    ensures LargestSoFar(sorted, 0, map[], map[])
  {
  }

  lemma SameElement<T>(a: seq<T>, b: seq<T>, i: nat)
    requires multiset(a) == multiset(b) && i < |a|
    ensures a[i] in b
  {
    assert a[i] in multiset(b);
  }

  lemma SizesEnough(sorted: seq<seq<nat>>, i: nat, size: map<nat, nat>, index: map<nat, nat>)
    requires i < |sorted| && LongestFirst(sorted) && LargestSoFar(sorted, i, size, index)
    ensures size.Keys == index.Keys && forall h :: h in size ==> size[h] >= |sorted[i]|
  {
  }

  /** For each operation of any partial linearization, what is shown as its largest is a longest
      one among all partial linearizations that hold it. */
  ghost predicate ShowsLargest<S, I, O>(m: Model<S, I, O>, ops: seq<Operation<I, O>>, data: Data) {
    forall h: nat, p :: h < |ops| && IsPartialLinearization(m, ops, p) && h in p ==>
      h in data.largest && data.largest[h] < |data.linearizations| &&
      h in Ids(data.linearizations[data.largest[h]]) && |p| <= |data.linearizations[data.largest[h]]|
  }

  /** The shown index of h is that of a sequence at least as long as any that holds h. */
  lemma LargestOf(sorted: seq<seq<nat>>, size: map<nat, nat>, index: map<nat, nat>, r: seq<nat>, h: nat)
    requires LongestFirst(sorted) && LargestSoFar(sorted, |sorted|, size, index) && r in sorted && h in r
    ensures h in index && index[h] < |sorted| && h in sorted[index[h]] && |r| <= |sorted[index[h]]|
  {
    var i :| 0 <= i < |sorted| && sorted[i] == r;
  }

  lemma RecordsShown<S, I, O>(m: Model<S, I, O>, describeState: S -> string, ops: seq<Operation<I, O>>,
                              longest: seq<Option<seq<nat>>>, partials: seq<seq<nat>>, sorted: seq<seq<nat>>,
                              data: Data)
    requires RecordsLongest(m, ops, longest) && Shows(m, describeState, ops, partials, sorted, data)
    requires forall p :: p in partials <==> Some(p) in longest
    ensures ShowsLargest(m, ops, data)
  {
    hide IsPartialLinearization, LongestFirst, LargestSoFar;
    var size :| LargestSoFar(sorted, |sorted|, size, data.largest);
    forall h: nat, p | h < |ops| && IsPartialLinearization(m, ops, p) && h in p
      ensures h in data.largest && data.largest[h] < |data.linearizations|
      ensures h in Ids(data.linearizations[data.largest[h]]) && |p| <= |data.linearizations[data.largest[h]]|
    {
      var r := longest[h].value;
      assert longest[h] in longest && r in partials;
      assert r in multiset(sorted);
      LargestOf(sorted, size, data.largest, r, h);
      assert Replayed(m, describeState, ops, sorted[data.largest[h]], data.linearizations[data.largest[h]]);
    }
  }

  lemma RecordsArePartial<S, I, O>(m: Model<S, I, O>, ops: seq<Operation<I, O>>, longest: seq<Option<seq<nat>>>,
                                   partials: seq<seq<nat>>)
    requires RecordsLongest(m, ops, longest) && forall p :: p in partials <==> Some(p) in longest
    ensures forall p :: p in partials ==> IsPartialLinearization(m, ops, p)
  {
    forall p | p in partials ensures IsPartialLinearization(m, ops, p) {
      var i :| 0 <= i < |longest| && longest[i] == Some(p);
    }
  }

  /** Checking one partition with its visualization: no panic, and a longest partial linearization
      is shown for each operation. */
  method Visualize<S(==, !new), I(!new), O(!new)>(m: Model<S, I, O>, hash: set<nat> -> nat, describe: (I, O) -> string,
                                                  describeState: S -> string, history: seq<Entry<I, O>>,
                                                  ghost ops: seq<Operation<I, O>>)
    returns (ok: bool, panics: bool, data: Data)
    requires WellTimed(ops) && EventList(ops, history)
    ensures ok <==> Linearizable(m, ops)
    ensures !panics && ShowsLargest(m, ops, data)
    ensures |data.history| == |ops| && forall i: nat :: i < |ops| ==>
      data.history[i] ==
      HistoryElement(ops[i].clientId, ops[i].call, ops[i].ret, describe(ops[i].input, ops[i].output))
  {
    hide WellTimed, EventList, IsPartialLinearization, Linearizable, RecordsLongest, Shows, ShowsLargest;
    var longest;
    ok, longest := CheckSingle.CheckSingle(m, hash, history, true, ops);
    var partials := UniqueRecords(longest);
    RecordsArePartial(m, ops, longest[..], partials);
    panics, data := ComputeData(m, describe, describeState, history, partials, ops);
    ghost var sorted :| Shows(m, describeState, ops, partials, sorted, data);
    RecordsShown(m, describeState, ops, longest[..], partials, sorted, data);
  }
}

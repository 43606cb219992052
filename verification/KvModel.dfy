/** The key/value model: one string per key, histories partitioned by key, and why that is sound. */
module KvModel {
  import opened Linearizability

  datatype KvInput = KvInput(op: nat, key: string, value: string) // 0: get, 1: put, otherwise append
  datatype KvOutput = KvOutput(value: string)
  type KvOperation = Operation<KvInput, KvOutput>

  /** Step of the model of a single key. */
  function KvStep(state: string, inp: KvInput, out: KvOutput): (bool, string) {
    if inp.op == 0 then (out.value == state, state)
    else if inp.op == 1 then (true, inp.value)
    else (true, state + inp.value)
  }

  function OneKey(): Model<string, KvInput, KvOutput> {
    Model("", KvStep)
  }

  // ---- The whole store, as a client sees it: a missing key reads as "" ----

  type Store = map<string, string>

  function Lookup(store: Store, key: string): string {
    if key in store then store[key] else ""
  }

  function StoreStep(store: Store, inp: KvInput, out: KvOutput): (bool, Store) {
    match inp.op
    case 0 => (out.value == Lookup(store, inp.key), store)
    case 1 => (true, store[inp.key := inp.value])
    case _ => (true, store[inp.key := Lookup(store, inp.key) + inp.value])
  }

  function WholeStore(): Model<Store, KvInput, KvOutput> {
    Model(map[], StoreStep)
  }

  /** The operations on one key, in the order of the history. */
  function OnKey(history: seq<KvOperation>, key: string): seq<KvOperation> {
    if history == [] then []
    else
      var front, last := history[..|history| - 1], history[|history| - 1];
      if last.input.key == key then OnKey(front, key) + [last] else OnKey(front, key)
  }

  lemma NothingOnKey(key: string)
    ensures OnKey([], key) == []
  {
  }

  lemma OnKeyAppend(front: seq<KvOperation>, last: KvOperation, key: string)
    ensures OnKey(front + [last], key) ==
      if last.input.key == key then OnKey(front, key) + [last] else OnKey(front, key)
  {
    assert (front + [last])[..|front|] == front;
  }

  // ---- What a legal order is: every get reads what was written ----

  /** The place after the last put on the key; 0 when there is none. */
  function AfterLastPut(order: seq<KvOperation>, key: string): (p: nat)
    ensures p <= |order|
    ensures p > 0 ==> order[p - 1].input.op == 1 && order[p - 1].input.key == key
    ensures forall q :: p <= q < |order| ==> !(order[q].input.op == 1 && order[q].input.key == key)
  {
    if order == [] then 0
    else
      var last := order[|order| - 1].input;
      if last.op == 1 && last.key == key then |order| else AfterLastPut(order[..|order| - 1], key)
  }

  /** The values appended to the key, joined in order. */
  function Appended(order: seq<KvOperation>, key: string): string {
    if order == [] then ""
    else
      var last := order[|order| - 1].input;
      Appended(order[..|order| - 1], key) + if last.op >= 2 && last.key == key then last.value else ""
  }

  /** The last put value of the key, "" if there is none, followed by everything appended since. */
  function Written(order: seq<KvOperation>, key: string): string {
    var p := AfterLastPut(order, key);
    (if p == 0 then "" else order[p - 1].input.value) + Appended(order[p..], key)
  }

  lemma LastPutSnoc(front: seq<KvOperation>, last: KvOperation, key: string)
    ensures AfterLastPut(front + [last], key) ==
      if last.input.op == 1 && last.input.key == key then |front| + 1 else AfterLastPut(front, key)
  {
    assert (front + [last])[..|front|] == front;
  }

  lemma AppendedSnoc(front: seq<KvOperation>, last: KvOperation, key: string)
    ensures Appended(front + [last], key) ==
      Appended(front, key) + if last.input.op >= 2 && last.input.key == key then last.input.value else ""
    ensures Appended([], key) == ""
  {
    assert (front + [last])[..|front|] == front;
  }

  lemma WrittenAppend(front: seq<KvOperation>, last: KvOperation, key: string)
    ensures Written(front + [last], key) ==
      if last.input.key != key || last.input.op == 0 then Written(front, key)
      else if last.input.op == 1 then last.input.value
      else Written(front, key) + last.input.value
  {
    hide Appended, AfterLastPut;
    var order, p := front + [last], AfterLastPut(front, key);
    LastPutSnoc(front, last, key);
    AppendedSnoc(front[p..], last, key);
    assert order[p..] == front[p..] + [last] && order[|order|..] == [];
  }

  /** The store holds for each key what was written to it. */
  lemma {:induction false} StoreHoldsWritten(order: seq<KvOperation>, key: string)
    ensures Lookup(StateAfter(WholeStore(), order), key) == Written(order, key)
  {
    if order != [] {
      var front, last := order[..|order| - 1], order[|order| - 1];
      assert order == front + [last];
      StoreHoldsWritten(front, key);
      WrittenAppend(front, last, key);
    }
  }

  /** Every get in the order answers the last value put on its key before it, with the values
      appended after that. */
  predicate GetsReadWritten(order: seq<KvOperation>) {
    forall i :: 0 <= i < |order| && order[i].input.op == 0 ==>
      order[i].output.value == Written(order[..i], order[i].input.key)
  }

  lemma GetsReadLast(front: seq<KvOperation>, last: KvOperation)
    ensures GetsReadWritten(front + [last]) <==>
            GetsReadWritten(front) &&
            (last.input.op == 0 ==> last.output.value == Written(front, last.input.key))
  {
    var order := front + [last];
    assert forall i :: 0 <= i <= |front| ==> order[..i] == front[..i];
    assert front[..|front|] == front && order[|front|] == last;
    assert forall i :: 0 <= i < |front| ==> order[i] == front[i];
  }

  /** An order is accepted by the store model exactly when its gets read what was written. */
  lemma {:induction false} LegalIffGetsReadWritten(order: seq<KvOperation>)
    ensures Legal(WholeStore(), order) <==> GetsReadWritten(order)
  {
    if order != [] {
      var front, last := order[..|order| - 1], order[|order| - 1];
      assert order == front + [last];
      LegalIffGetsReadWritten(front);
      GetsReadLast(front, last);
      StoreHoldsWritten(front, last.input.key);
    }
  }

  /** A history of the store is linearizable exactly when its operations can be ordered in real
      time such that every get reads what was written. */
  lemma StoreLinearizable(history: seq<KvOperation>)
    ensures Linearizable(WholeStore(), history) <==>
            exists order :: multiset(order) == multiset(history) && RespectsRealTime(order) && GetsReadWritten(order)
  {
    hide Legal, GetsReadWritten, RespectsRealTime, WholeStore;
    if Linearizable(WholeStore(), history) {
      var order :| IsLinearization(WholeStore(), history, order);
      LegalIffGetsReadWritten(order);
    }
    forall order | multiset(order) == multiset(history) && RespectsRealTime(order) && GetsReadWritten(order)
      ensures IsLinearization(WholeStore(), history, order)
    {
      LegalIffGetsReadWritten(order);
    }
  }

  // ---- A store order is legal exactly when it is legal key by key ----

  lemma {:induction false} StoreStateByKey(order: seq<KvOperation>, key: string)
    ensures Lookup(StateAfter(WholeStore(), order), key) == StateAfter(OneKey(), OnKey(order, key))
  {
    if order != [] {
      var front, last := order[..|order| - 1], order[|order| - 1];
      StoreStateByKey(front, key);
      if last.input.key == key {
        assert OnKey(order, key)[..|OnKey(order, key)| - 1] == OnKey(front, key);
      }
    }
  }

  lemma LegalLast(front: seq<KvOperation>, last: KvOperation, key: string)
    ensures Legal(OneKey(), OnKey(front + [last], key)) <==>
            Legal(OneKey(), OnKey(front, key)) &&
            (last.input.key == key ==> KvStep(StateAfter(OneKey(), OnKey(front, key)), last.input, last.output).0)
  {
    OnKeyAppend(front, last, key);
    if last.input.key == key {
      assert (OnKey(front, key) + [last])[..|OnKey(front, key)|] == OnKey(front, key);
    }
  }

  /** Every per-key projection of the order is legal. */
  ghost predicate LegalByKey(order: seq<KvOperation>) {
    forall key :: Legal(OneKey(), OnKey(order, key))
  }

  lemma LegalByKeyLast(front: seq<KvOperation>, last: KvOperation)
    ensures LegalByKey(front + [last]) <==>
            LegalByKey(front) && KvStep(StateAfter(OneKey(), OnKey(front, last.input.key)), last.input, last.output).0
  {
    forall key ensures Legal(OneKey(), OnKey(front + [last], key)) ==> Legal(OneKey(), OnKey(front, key)) {
      LegalLast(front, last, key);
    }
    if LegalByKey(front) && KvStep(StateAfter(OneKey(), OnKey(front, last.input.key)), last.input, last.output).0 {
      forall key ensures Legal(OneKey(), OnKey(front + [last], key)) {
        LegalLast(front, last, key);
      }
    }
    LegalLast(front, last, last.input.key);
  }

  lemma {:induction false} StoreLegalByKey(order: seq<KvOperation>)
    ensures Legal(WholeStore(), order) <==> LegalByKey(order)
  {
    if order == [] {
      forall key ensures OnKey(order, key) == [] {}
    } else {
      var front, last := order[..|order| - 1], order[|order| - 1];
      assert order == front + [last];
      StoreLegalByKey(front);
      StoreStateByKey(front, last.input.key);
      LegalByKeyLast(front, last);
    }
  }

  // ---- Restricting to a key keeps multiplicities and real-time order ----

  /** The order of the history is kept. */
  lemma {:induction false} OnKeyJoin(a: seq<KvOperation>, b: seq<KvOperation>, key: string)
    ensures OnKey(a + b, key) == OnKey(a, key) + OnKey(b, key)
  {
    hide OnKey;
    if b == [] {
      NothingOnKey(key);
      assert a + b == a;
    } else {
      var front, last := b[..|b| - 1], b[|b| - 1];
      OnKeyJoin(a, front, key);
      assert a + b == (a + front) + [last] && b == front + [last];
      OnKeyAppend(a + front, last, key);
      OnKeyAppend(front, last, key);
    }
  }

  lemma {:induction false} OnKeyCount(history: seq<KvOperation>, key: string, x: KvOperation)
    ensures multiset(OnKey(history, key))[x] == if x.input.key == key then multiset(history)[x] else 0
  {
    if history != [] {
      var front, last := history[..|history| - 1], history[|history| - 1];
      assert history == front + [last];
      OnKeyCount(front, key, x);
    }
  }

  lemma OnKeyMembers(history: seq<KvOperation>, key: string)
    ensures forall x :: x in OnKey(history, key) <==> x in history && x.input.key == key
  {
    forall x ensures x in OnKey(history, key) <==> x in history && x.input.key == key {
      OnKeyCount(history, key, x);
      assert x in OnKey(history, key) <==> x in multiset(OnKey(history, key));
      assert x in history <==> x in multiset(history);
    }
  }

  lemma {:induction false} OnKeyRealTime(order: seq<KvOperation>, key: string)
    requires RespectsRealTime(order)
    ensures RespectsRealTime(OnKey(order, key))
  {
    if order != [] {
      var front, last := order[..|order| - 1], order[|order| - 1];
      OnKeyRealTime(front, key);
      OnKeyMembers(front, key);
      var r := OnKey(front, key);
      forall i | 0 <= i < |r| ensures !(last.ret < r[i].call) {
        assert r[i] in front;
      }
    }
  }

  lemma OnKeyMultiset(a: seq<KvOperation>, b: seq<KvOperation>, key: string)
    requires multiset(a) == multiset(b)
    ensures multiset(OnKey(a, key)) == multiset(OnKey(b, key))
  {
    forall x ensures multiset(OnKey(a, key))[x] == multiset(OnKey(b, key))[x] {
      OnKeyCount(a, key, x);
      OnKeyCount(b, key, x);
    }
  }

  // ---- Linearization points ----

  /** An operation with the instant at which it takes effect. */
  datatype Pointed = Pointed(op: KvOperation, at: int)

  function Ops(s: seq<Pointed>): (r: seq<KvOperation>)
    ensures |r| == |s|
    ensures forall k :: 0 <= k < |s| ==> r[k] == s[k].op
  {
    seq(|s|, k requires 0 <= k < |s| => s[k].op)
  }

  /** Each operation takes effect between its call and its return, in the order of the sequence. */
  predicate Witnessed(s: seq<Pointed>) {
    && (forall k :: 0 <= k < |s| ==> s[k].op.call <= s[k].at <= s[k].op.ret)
    && (forall i, j :: 0 <= i < j < |s| ==> s[i].at <= s[j].at)
  }

  lemma WitnessedRealTime(s: seq<Pointed>)
    requires Witnessed(s)
    ensures RespectsRealTime(Ops(s))
  {
    var r := Ops(s);
    forall i, j | 0 <= i < j < |r| ensures !(r[j].ret < r[i].call) {
      assert s[i].at <= s[j].at;
    }
  }

  /** The points given by the latest call so far. */
  function LatestCall(order: seq<KvOperation>): (s: seq<Pointed>)
    ensures |s| == |order|
  {
    if order == [] then []
    else
      var front, last := LatestCall(order[..|order| - 1]), order[|order| - 1];
      front + [Pointed(last,
        if front == [] || front[|front| - 1].at < last.call then last.call else front[|front| - 1].at)]
  }

  lemma {:induction false} LatestCallIsCall(order: seq<KvOperation>) returns (k: nat)
    requires order != []
    ensures k < |order| && LatestCall(order)[|order| - 1].at == order[k].call
  {
    var front := LatestCall(order[..|order| - 1]);
    if front == [] || front[|front| - 1].at < order[|order| - 1].call {
      k := |order| - 1;
    } else {
      k := LatestCallIsCall(order[..|order| - 1]);
    }
  }

  /** An order that respects real time has linearization points. */
  lemma {:induction false} RealTimeWitnessed(order: seq<KvOperation>)
    requires WellTimed(order) && RespectsRealTime(order)
    ensures Witnessed(LatestCall(order)) && Ops(LatestCall(order)) == order
  {
    if order != [] {
      var front, last := order[..|order| - 1], order[|order| - 1];
      RealTimeWitnessed(front);
      assert order == front + [last];
      var s := LatestCall(order);
      var k := LatestCallIsCall(order);
      assert s[..|front|] == LatestCall(front);
      assert k < |front| ==> !(last.ret < order[k].call);
    }
  }

  /** Merges two witnessed sequences by their points. */
  function Merge(a: seq<Pointed>, b: seq<Pointed>): (r: seq<Pointed>)
    ensures |r| == |a| + |b|
    decreases |a| + |b|
  {
    if a == [] then b
    else if b == [] then a
    else if a[|a| - 1].at > b[|b| - 1].at then Merge(a[..|a| - 1], b) + [a[|a| - 1]]
    else Merge(a, b[..|b| - 1]) + [b[|b| - 1]]
  }

  lemma MergeStep(a: seq<Pointed>, b: seq<Pointed>)
    ensures a == [] ==> Merge(a, b) == b
    ensures b == [] ==> Merge(a, b) == a
    ensures a != [] && b != [] && a[|a| - 1].at > b[|b| - 1].at ==> Merge(a, b) == Merge(a[..|a| - 1], b) + [a[|a| - 1]]
    ensures a != [] && b != [] && a[|a| - 1].at <= b[|b| - 1].at ==>
      Merge(a, b) == Merge(a, b[..|b| - 1]) + [b[|b| - 1]]
  {
  }

  lemma LastInMultiset(s: seq<Pointed>)
    requires s != []
    ensures multiset(s) == multiset(s[..|s| - 1]) + multiset{s[|s| - 1]}
  {
    assert s == s[..|s| - 1] + [s[|s| - 1]];
  }

  lemma {:induction false} MergeMultiset(a: seq<Pointed>, b: seq<Pointed>)
    ensures multiset(Merge(a, b)) == multiset(a) + multiset(b)
    decreases |a| + |b|
  {
    hide Merge;
    MergeStep(a, b);
    if a != [] && b != [] {
      if a[|a| - 1].at > b[|b| - 1].at {
        MergeMultiset(a[..|a| - 1], b);
        LastInMultiset(a);
      } else {
        MergeMultiset(a, b[..|b| - 1]);
        LastInMultiset(b);
      }
    }
  }

  lemma MergeMember(a: seq<Pointed>, b: seq<Pointed>, x: Pointed)
    ensures x in Merge(a, b) <==> x in a || x in b
  {
    MergeMultiset(a, b);
    assert x in Merge(a, b) <==> x in multiset(Merge(a, b));
    assert x in a <==> x in multiset(a);
    assert x in b <==> x in multiset(b);
  }

  lemma WitnessedAppend(s: seq<Pointed>, x: Pointed)
    requires Witnessed(s) && x.op.call <= x.at <= x.op.ret
    requires forall y :: y in s ==> y.at <= x.at
    ensures Witnessed(s + [x])
  {
    assert forall k :: 0 <= k < |s| ==> s[k] in s;
  }

  lemma WitnessedFront(s: seq<Pointed>)
    requires Witnessed(s) && s != []
    ensures var x := s[|s| - 1];
            Witnessed(s[..|s| - 1]) && x.op.call <= x.at <= x.op.ret && forall y :: y in s ==> y.at <= x.at
  {
  }

  lemma {:induction false} MergeWitnessed(a: seq<Pointed>, b: seq<Pointed>)
    requires Witnessed(a) && Witnessed(b)
    ensures Witnessed(Merge(a, b))
    decreases |a| + |b|
  {
    hide Merge, Witnessed;
    MergeStep(a, b);
    if a != [] && b != [] {
      WitnessedFront(a);
      WitnessedFront(b);
      var x, y := a[|a| - 1], b[|b| - 1];
      var fa, fb := if x.at > y.at then a[..|a| - 1] else a, if x.at > y.at then b else b[..|b| - 1];
      MergeWitnessed(fa, fb);
      forall z | z in Merge(fa, fb) ensures z.at <= if x.at > y.at then x.at else y.at {
        MergeMember(fa, fb, z);
        assert z in a || z in b;
      }
      WitnessedAppend(Merge(fa, fb), if x.at > y.at then x else y);
    }
  }

  lemma OpsAppend(s: seq<Pointed>, x: Pointed)
    ensures Ops(s + [x]) == Ops(s) + [x.op]
  {
  }

  /** Merging a sequence of one key into a sequence without that key disturbs no key. */
  lemma {:induction false} MergeOnKey(a: seq<Pointed>, b: seq<Pointed>, kb: string, key: string)
    requires forall x :: x in a ==> x.op.input.key != kb
    requires forall x :: x in b ==> x.op.input.key == kb
    ensures OnKey(Ops(Merge(a, b)), key) == if key == kb then Ops(b) else OnKey(Ops(a), key)
    decreases |a| + |b|
  {
    hide OnKey, Ops, Merge;
    MergeStep(a, b);
    if a == [] {
      SingleKey(b, kb, key);
      AbsentKey(a, key);
    } else if b == [] {
      AbsentKey(a, kb);
    } else {
      var x, y := a[|a| - 1], b[|b| - 1];
      assert x in a && y in b;
      if x.at > y.at {
        MergeOnKey(a[..|a| - 1], b, kb, key);
        OnKeyOfLast(Merge(a[..|a| - 1], b), x, key);
        OnKeyOfLast(a[..|a| - 1], x, key);
        assert a == a[..|a| - 1] + [x];
      } else {
        MergeOnKey(a, b[..|b| - 1], kb, key);
        OnKeyOfLast(Merge(a, b[..|b| - 1]), y, key);
        OpsAppend(b[..|b| - 1], y);
        assert b == b[..|b| - 1] + [y];
      }
    }
  }

  lemma OnKeyOfLast(s: seq<Pointed>, x: Pointed, key: string)
    ensures OnKey(Ops(s + [x]), key) ==
      if x.op.input.key == key then OnKey(Ops(s), key) + [x.op] else OnKey(Ops(s), key)
  {
    OpsAppend(s, x);
    OnKeyAppend(Ops(s), x.op, key);
  }

  lemma {:induction false} SingleKey(b: seq<Pointed>, kb: string, key: string)
    requires forall x :: x in b ==> x.op.input.key == kb
    ensures OnKey(Ops(b), key) == if key == kb then Ops(b) else []
  {
    if b != [] {
      var front, y := b[..|b| - 1], b[|b| - 1];
      SingleKey(front, kb, key);
      assert b == front + [y];
      OpsAppend(front, y);
      OnKeyAppend(Ops(front), y.op, key);
    }
  }

  lemma {:induction false} AbsentKey(a: seq<Pointed>, kb: string)
    requires forall x :: x in a ==> x.op.input.key != kb
    ensures OnKey(Ops(a), kb) == []
  {
    if a != [] {
      var front, y := a[..|a| - 1], a[|a| - 1];
      AbsentKey(front, kb);
      assert a == front + [y];
      OpsAppend(front, y);
      OnKeyAppend(Ops(front), y.op, kb);
    }
  }

  // ---- Locality ----

  /** A witnessed order of exactly the operations on the given keys, legal for each key. */
  ghost predicate Combined(history: seq<KvOperation>, keys: set<string>, c: seq<Pointed>) {
    && Witnessed(c)
    && (forall x :: multiset(Ops(c))[x] == if x.input.key in keys then multiset(history)[x] else 0)
    && LegalByKey(Ops(c))
  }

  lemma CombineKey(history: seq<KvOperation>, keys: set<string>, c: seq<Pointed>, key: string) returns (d: seq<Pointed>)
    requires WellTimed(history) && Combined(history, keys, c) && key !in keys
    requires Linearizable(OneKey(), OnKey(history, key))
    ensures Combined(history, keys + {key}, d)
  {
    var order :| IsLinearization(OneKey(), OnKey(history, key), order);
    SamePermutationWellTimed(history, key, order);
    RealTimeWitnessed(order);
    var b := LatestCall(order);
    d := Merge(c, b);
    MergeWitnessed(c, b);
    KeysOfCombined(history, keys, c, key);
    forall x | x in b ensures x.op.input.key == key {
      var k :| 0 <= k < |b| && b[k] == x;
      assert order[k] == x.op && order[k] in order;
    }
    forall k ensures Legal(OneKey(), OnKey(Ops(d), k)) {
      MergeOnKey(c, b, key, k);
    }
    forall x ensures multiset(Ops(d))[x] == if x.input.key in keys + {key} then multiset(history)[x] else 0 {
      MergeCount(c, b, x);
      OnKeyCount(history, key, x);
    }
  }

  lemma SamePermutationWellTimed(history: seq<KvOperation>, key: string, order: seq<KvOperation>)
    requires WellTimed(history) && multiset(order) == multiset(OnKey(history, key))
    ensures WellTimed(order) && forall x :: x in order ==> x.input.key == key
  {
    OnKeyMembers(history, key);
    forall x | x in order ensures x in history && x.input.key == key {
      assert x in multiset(order);
    }
    forall i | 0 <= i < |order| ensures order[i].call <= order[i].ret {
      assert order[i] in history;
    }
  }

  lemma KeysOfCombined(history: seq<KvOperation>, keys: set<string>, c: seq<Pointed>, key: string)
    requires Combined(history, keys, c) && key !in keys
    ensures forall x :: x in c ==> x.op.input.key != key
  {
    forall x | x in c ensures x.op.input.key != key {
      var k :| 0 <= k < |c| && c[k] == x;
      assert Ops(c)[k] == x.op;
      assert x.op in multiset(Ops(c));
    }
  }

  lemma {:induction false} MergeCount(a: seq<Pointed>, b: seq<Pointed>, x: KvOperation)
    ensures multiset(Ops(Merge(a, b)))[x] == multiset(Ops(a))[x] + multiset(Ops(b))[x]
    decreases |a| + |b|
  {
    if a != [] && b != [] {
      var u, v := a[|a| - 1], b[|b| - 1];
      if u.at > v.at {
        var fa := a[..|a| - 1];
        MergeCount(fa, b, x);
        OpsAppend(Merge(fa, b), u);
        assert a == fa + [u];
        OpsAppend(fa, u);
      } else {
        var fb := b[..|b| - 1];
        MergeCount(a, fb, x);
        OpsAppend(Merge(a, fb), v);
        assert b == fb + [v];
        OpsAppend(fb, v);
      }
    }
  }

  lemma {:induction false} CombineKeys(history: seq<KvOperation>, keys: set<string>) returns (c: seq<Pointed>)
    requires WellTimed(history)
    requires forall key :: key in keys ==> Linearizable(OneKey(), OnKey(history, key))
    ensures Combined(history, keys, c)
    decreases |keys|
  {
    if keys == {} {
      c := [];
      forall key ensures OnKey(Ops(c), key) == [] {}
    } else {
      var key :| key in keys;
      c := CombineKeys(history, keys - {key});
      c := CombineKey(history, keys - {key}, c, key);
      assert keys - {key} + {key} == keys;
    }
  }

  function Keys(history: seq<KvOperation>): set<string> {
    set x | x in history :: x.input.key
  }

  /** Locality: the whole store is linearizable exactly when every key is. */
  lemma Locality(history: seq<KvOperation>)
    requires WellTimed(history)
    ensures Linearizable(WholeStore(), history) <==>
            forall key :: key in Keys(history) ==> Linearizable(OneKey(), OnKey(history, key))
  {
    if Linearizable(WholeStore(), history) {
      var order :| IsLinearization(WholeStore(), history, order);
      StoreLegalByKey(order);
      forall key ensures Linearizable(OneKey(), OnKey(history, key)) {
        OnKeyMultiset(order, history, key);
        OnKeyRealTime(order, key);
        assert IsLinearization(OneKey(), OnKey(history, key), OnKey(order, key));
      }
    }
    if forall key :: key in Keys(history) ==> Linearizable(OneKey(), OnKey(history, key)) {
      var c := CombineKeys(history, Keys(history));
      WitnessedRealTime(c);
      StoreLegalByKey(Ops(c));
      forall x ensures multiset(Ops(c))[x] == multiset(history)[x] {
        assert x in multiset(history) <==> x in history;
      }
      assert IsLinearization(WholeStore(), history, Ops(c));
    }
  }
}

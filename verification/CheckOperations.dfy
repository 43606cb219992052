/** Checking a history of the key/value store: partition by key and check each part. */
module CheckOperations {
  import opened Linearizability
  import opened Entries
  import opened CheckSingle
  import opened KvModel
  import opened Sequences

  lemma OnKeyEmpty(history: seq<KvOperation>, key: string)
    requires key !in Keys(history)
    ensures OnKey(history, key) == []
  {
    OnKeyMembers(history, key);
    forall x | x in history ensures x.input.key in Keys(history) {}
    assert forall k :: 0 <= k < |OnKey(history, key)| ==> OnKey(history, key)[k] in OnKey(history, key);
  }

  predicate InOrder(keys: seq<string>) {
    forall i, j :: 0 <= i < j < |keys| ==> !Before(keys[j], keys[i])
  }

  lemma InsertInOrder(s: seq<string>, at: nat, key: string)
    requires InOrder(s) && at <= |s|
    requires at > 0 ==> !Before(key, s[at - 1])
    requires at < |s| ==> Before(key, s[at])
    ensures InOrder(InsertAt(s, at, key))
  {
    var t := InsertAt(s, at, key);
    assert |t| == |s| + 1;
    forall i, j | 0 <= i < j < |t| ensures !Before(t[j], t[i]) {
      hide InsertAt;
      InsertAtAt(s, at, key, i);
      InsertAtAt(s, at, key, j);
      if j == at && i < at - 1 { NotBeforeTransitive(s[i], s[at - 1], key); }
      if i == at {
        BeforeAsymmetric(key, s[at]);
        if j > at + 1 { NotBeforeTransitive(key, s[at], s[j - 1]); }
      }
    }
  }

  /** Stands for sort.Strings. */
  method SortStrings(keys: seq<string>) returns (s: seq<string>)
    ensures multiset(s) == multiset(keys) && InOrder(s)
  {
    hide InOrder, InsertAt;
    s := [];
    assert InOrder(s) by { NothingOutOfOrder(); }
    for k := 0 to |keys|
      invariant multiset(s) == multiset(keys[..k]) && InOrder(s)
    {
      var at := |s|;
      while at > 0 && Before(keys[k], s[at - 1])
        invariant 0 <= at <= |s|
        invariant at < |s| ==> Before(keys[k], s[at])
      {
        at := at - 1;
      }
      InsertInOrder(s, at, keys[k]);
      InsertAtMultiset(s, at, keys[k]);
      assert keys[..k + 1] == keys[..k] + [keys[k]];
      s := InsertAt(s, at, keys[k]);
    }
    assert keys[..|keys|] == keys;
  }

  lemma NothingOutOfOrder()
    ensures InOrder([])
  {
  }

  /** The operations of each key in history order, one part per key, in the order of the keys. */
  ghost predicate IsPartition(history: seq<KvOperation>, parts: seq<seq<KvOperation>>, keys: seq<string>) {
    && |parts| == |keys| && NoRepeats(keys) && InOrder(keys)
    && (forall key :: key in keys <==> key in Keys(history))
    && (forall k :: 0 <= k < |keys| ==> parts[k] == OnKey(history, keys[k]))
  }

  /** KvModel.Partition. */
  method Partition(history: seq<KvOperation>) returns (parts: seq<seq<KvOperation>>)
    ensures exists keys :: IsPartition(history, parts, keys)
  {
    var m: map<string, seq<KvOperation>> := map[];
    for k := 0 to |history|
      invariant forall key :: key in m <==> key in Keys(history[..k])
      invariant forall key :: key in m ==> m[key] == OnKey(history[..k], key)
    {
      var v := history[k];
      var key := v.input.key;
      assert history[..k + 1] == history[..k] + [v];
      forall other
        ensures OnKey(history[..k + 1], other) ==
        if key == other then OnKey(history[..k], other) + [v] else OnKey(history[..k], other) {
        OnKeyAppend(history[..k], v, other);
      }
      if key !in m { OnKeyEmpty(history[..k], key); }
      m := m[key := (if key in m then m[key] else []) + [v]];
    }
    assert history[..|history|] == history;
    var keys: seq<string> := CollectKeys(m);
    ghost var collected := keys;
    keys := SortStrings(keys);
    SameKeys(collected, keys);
    parts := [];
    for k := 0 to |keys|
      invariant |parts| == k && forall j :: 0 <= j < k ==> parts[j] == OnKey(history, keys[j])
    {
      assert keys[k] in keys;
      parts := parts + [m[keys[k]]];
    }
    assert IsPartition(history, parts, keys);
  }

  /** The keys of the map, in the open order of Go's map iteration. */
  method CollectKeys(m: map<string, seq<KvOperation>>) returns (keys: seq<string>)
    ensures NoRepeats(keys) && forall key :: key in keys <==> key in m
  {
    keys := [];
    var rest := m.Keys;
    while rest != {}
      invariant rest <= m.Keys && NoRepeats(keys)
      invariant forall key :: key in keys <==> key in m && key !in rest
    {
      ghost var some := NonEmpty(rest);
      var key :| key in rest;
      keys, rest := keys + [key], rest - {key};
    }
  }

  lemma SameKeys(a: seq<string>, b: seq<string>)
    requires multiset(a) == multiset(b) && NoRepeats(a)
    ensures NoRepeats(b) && forall key :: key in b <==> key in a
  {
    PermutationNoRepeats(b, a);
    assert forall key :: key in a <==> key in multiset(a);
    assert forall key :: key in b <==> key in multiset(b);
  }

  lemma OnKeyWellTimed(history: seq<KvOperation>, key: string)
    requires WellTimed(history)
    ensures WellTimed(OnKey(history, key))
  {
    OnKeyMembers(history, key);
    var r := OnKey(history, key);
    forall i | 0 <= i < |r| ensures r[i].call <= r[i].ret {
      assert r[i] in history;
    }
  }

  /** CheckOperations on the key/value model, with the parts checked one after the other: the
      answer is Ok exactly when the whole history is linearizable for the whole store. */
  method Check(hash: set<nat> -> nat, history: seq<KvOperation>) returns (ok: bool)
    requires history != [] && WellTimed(history)
    ensures ok <==> Linearizable(WholeStore(), history)
  {
    hide Linearizable, WellTimed, RecordsLongest, EventList;
    var parts := Partition(history);
    ghost var keys :| IsPartition(history, parts, keys);
    var l: seq<seq<Entry<KvInput, KvOutput>>> := [];
    for k := 0 to |parts|
      invariant |l| == k && forall j :: 0 <= j < k ==> EventList(parts[j], l[j])
    {
      var entries := MakeEntries(parts[k]);
      l := l + [entries];
    }
    Locality(history);
    ok := true;
    var count := 0;
    while count < |l|
      invariant 0 <= count <= |l|
      invariant ok <==> forall j :: 0 <= j < count ==> Linearizable(OneKey(), parts[j])
    {
      OnKeyWellTimed(history, keys[count]);
      var result, longest := CheckSingle.CheckSingle(OneKey(), hash, l[count], false, parts[count]);
      ok := ok && result;
      count := count + 1;
      if !ok {
        assert exists j :: 0 <= j < |keys| && keys[j] in Keys(history) && !Linearizable(OneKey(), parts[j]);
        return;
      }
    }
    forall key | key in Keys(history) ensures Linearizable(OneKey(), OnKey(history, key)) {
      var j :| 0 <= j < |keys| && keys[j] == key;
    }
  }
}

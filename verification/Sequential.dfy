/** The sequential MapReduce program: collect all intermediate pairs, sort them by key, and reduce
    each run of equal keys. */
module Sequential {
  import opened Sequences

  datatype KeyValue = KeyValue(key: string, value: string)
  datatype Group = Group(key: string, values: seq<string>)

  /** An output line: a key and the result of the reduce function. */
  type Line = (string, string)

  type Reducer = (string, seq<string>) -> string

  /** The values emitted for a key, in order. */
  function Values(kvs: seq<KeyValue>, key: string): seq<string> {
    if kvs == [] then []
    else
      var last := kvs[|kvs| - 1];
      Values(kvs[..|kvs| - 1], key) + if last.key == key then [last.value] else []
  }

  predicate Emitted(kvs: seq<KeyValue>, key: string) {
    exists i :: 0 <= i < |kvs| && kvs[i].key == key
  }

  function Concat<T>(parts: seq<seq<T>>): seq<T> {
    if parts == [] then [] else Concat(parts[..|parts| - 1]) + parts[|parts| - 1]
  }

  predicate Listed(groups: seq<Group>, key: string) {
    exists i :: 0 <= i < |groups| && groups[i].key == key
  }

  /** groups has each emitted key once, with all its values in some order. */
  ghost predicate Groups(kvs: seq<KeyValue>, groups: seq<Group>) {
    && (forall i, j :: 0 <= i < j < |groups| ==> groups[i].key != groups[j].key)
    && (forall i :: 0 <= i < |groups| ==> Emitted(kvs, groups[i].key))
    && (forall k :: 0 <= k < |kvs| ==> Listed(groups, kvs[k].key))
    && (forall i :: 0 <= i < |groups| ==> multiset(groups[i].values) == multiset(Values(kvs, groups[i].key)))
  }

  lemma {:induction false} ValuesJoin(a: seq<KeyValue>, b: seq<KeyValue>, key: string)
    ensures Values(a + b, key) == Values(a, key) + Values(b, key)
  {
    if b == [] {
      assert a + b == a;
    } else {
      var front, last := b[..|b| - 1], b[|b| - 1];
      ValuesJoin(a, front, key);
      assert (a + b)[..|a + b| - 1] == a + front;
    }
  }

  lemma ValuesAppend(a: seq<KeyValue>, kv: KeyValue, key: string)
    ensures Values(a + [kv], key) == Values(a, key) + if kv.key == key then [kv.value] else []
  {
    assert (a + [kv])[..|a + [kv]| - 1] == a;
  }

  /** How often a value is listed under a key depends only on the multiset of pairs. */
  lemma {:induction false} CountValues(kvs: seq<KeyValue>, key: string, v: string)
    ensures multiset(Values(kvs, key))[v] == multiset(kvs)[KeyValue(key, v)]
  {
    if kvs != [] {
      var front, last := kvs[..|kvs| - 1], kvs[|kvs| - 1];
      CountValues(front, key, v);
      assert kvs == front + [last];
    }
  }

  lemma OrderDoesNotMatter(a: seq<KeyValue>, b: seq<KeyValue>, key: string)
    requires multiset(a) == multiset(b)
    ensures multiset(Values(a, key)) == multiset(Values(b, key))
  {
    forall v: string ensures multiset(Values(a, key))[v] == multiset(Values(b, key))[v] {
      CountValues(a, key, v);
      CountValues(b, key, v);
    }
  }

  lemma SameEmitted(a: seq<KeyValue>, b: seq<KeyValue>, i: nat) returns (k: nat)
    requires multiset(a) == multiset(b) && i < |a|
    ensures k < |b| && b[k] == a[i]
  {
    assert a[i] in multiset(b);
    k :| k < |b| && b[k] == a[i];
  }

  lemma GroupsOfPermutation(a: seq<KeyValue>, b: seq<KeyValue>, groups: seq<Group>)
    requires multiset(a) == multiset(b) && Groups(a, groups)
    ensures Groups(b, groups)
  {
    forall i | 0 <= i < |groups|
      ensures Emitted(b, groups[i].key) && multiset(groups[i].values) == multiset(Values(b, groups[i].key)) {
      var k :| 0 <= k < |a| && a[k].key == groups[i].key;
      var l := SameEmitted(a, b, k);
      OrderDoesNotMatter(a, b, groups[i].key);
    }
    forall k | 0 <= k < |b| ensures Listed(groups, b[k].key) {
      var l := SameEmitted(b, a, k);
      assert Listed(groups, a[l].key);
    }
  }

  // ---- Sorting by key ----

  predicate Ascending(s: seq<KeyValue>) {
    forall i, j :: 0 <= i < j < |s| ==> !Before(s[j].key, s[i].key)
  }

  lemma AscendingEmpty()
    ensures Ascending([])
  {
  }

  lemma AscendingInsert(s: seq<KeyValue>, at: nat, e: KeyValue)
    requires Ascending(s) && at <= |s|
    requires at > 0 ==> !Before(e.key, s[at - 1].key)
    requires at < |s| ==> Before(e.key, s[at].key)
    ensures Ascending(InsertAt(s, at, e))
  {
    forall i, j | 0 <= i < j < |InsertAt(s, at, e)|
      ensures !Before(InsertAt(s, at, e)[j].key, InsertAt(s, at, e)[i].key) {
      hide InsertAt;
      InsertAtAt(s, at, e, i);
      InsertAtAt(s, at, e, j);
      if j == at && i < at - 1 { NotBeforeTransitive(s[i].key, s[at - 1].key, e.key); }
      if i == at {
        BeforeAsymmetric(e.key, s[at].key);
        if j > at + 1 { NotBeforeTransitive(e.key, s[at].key, s[j - 1].key); }
      }
    }
  }

  /** Stands for sort.Sort, which is not stable: callers rely only on the contract. */
  method SortByKey(kvs: seq<KeyValue>) returns (s: seq<KeyValue>)
    ensures multiset(s) == multiset(kvs) && Ascending(s)
  {
    hide Ascending, InsertAt;
    s := [];
    AscendingEmpty();
    for k := 0 to |kvs|
      invariant multiset(s) == multiset(kvs[..k]) && Ascending(s)
    {
      var at := |s|;
      while at > 0 && Before(kvs[k].key, s[at - 1].key)
        invariant 0 <= at <= |s|
        invariant at < |s| ==> Before(kvs[k].key, s[at].key)
      {
        at := at - 1;
      }
      AscendingInsert(s, at, kvs[k]);
      InsertAtMultiset(s, at, kvs[k]);
      assert kvs[..k + 1] == kvs[..k] + [kvs[k]];
      s := InsertAt(s, at, kvs[k]);
    }
    assert kvs[..|kvs|] == kvs;
  }

  // ---- The grouping loop ----

  /** In a sorted list, a key that ends at position i does not come back. */
  lemma RunsDoNotReturn(s: seq<KeyValue>, a: nat, b: nat, c: nat)
    requires Ascending(s) && a <= b <= c < |s| && s[a].key == s[c].key
    ensures s[b].key == s[a].key
  {
    if a < b < c { BeforeTotal(s[a].key, s[b].key); }
  }

  /** s[i..j] is one maximal run of a key. */
  ghost predicate IsRun(s: seq<KeyValue>, i: nat, j: nat) {
    && i < j <= |s|
    && (forall k :: i <= k < j ==> s[k].key == s[i].key)
    && (forall k :: 0 <= k < |s| && (k < i || j <= k) ==> s[k].key != s[i].key)
  }

  /** i is where the next run starts: no key is on both sides. */
  ghost predicate Boundary(s: seq<KeyValue>, i: nat) {
    i <= |s| && forall a, b :: 0 <= a < i <= b < |s| ==> s[a].key != s[b].key
  }

  lemma RunFound(s: seq<KeyValue>, i: nat, j: nat)
    requires Ascending(s) && Boundary(s, i) && i < j <= |s|
    requires forall k :: i <= k < j ==> s[k].key == s[i].key
    requires j == |s| || s[j].key != s[i].key
    ensures IsRun(s, i, j) && Boundary(s, j)
  {
    forall k | j <= k < |s| ensures s[k].key != s[i].key {
      if s[k].key == s[i].key { RunsDoNotReturn(s, i, j, k); }
    }
    forall a, b | 0 <= a < j <= b < |s| ensures s[a].key != s[b].key {
      if a < i { assert s[a].key != s[b].key; } else { assert s[a].key == s[i].key; }
    }
  }

  lemma {:induction false} NoValues(kvs: seq<KeyValue>, key: string)
    requires !Emitted(kvs, key)
    ensures Values(kvs, key) == []
  {
    if kvs != [] {
      var front := kvs[..|kvs| - 1];
      assert forall i :: 0 <= i < |front| ==> front[i] == kvs[i];
      NoValues(front, key);
    }
  }

  /** What has been emitted and listed up to i, from what has been emitted and listed up to j. */
  lemma PrefixEmitted(s: seq<KeyValue>, i: nat, j: nat, key: string)
    requires i <= j <= |s| && Emitted(s[..i], key)
    ensures Emitted(s[..j], key)
  {
    var k :| 0 <= k < i && s[..i][k].key == key;
    assert s[..j][k] == s[k];
  }

  /** The values of an earlier key do not change with the run, the run's key has its values. */
  lemma RunValues(s: seq<KeyValue>, i: nat, j: nat, key: string)
    requires IsRun(s, i, j)
    requires key == s[i].key || Emitted(s[..i], key)
    ensures key != s[i].key ==> Values(s[..j], key) == Values(s[..i], key)
    ensures key == s[i].key ==> !Emitted(s[..i], key) && Values(s[..j], key) == Values(s[i..j], key)
  {
    assert s[..j] == s[..i] + s[i..j];
    ValuesJoin(s[..i], s[i..j], key);
    NoValues(if key == s[i].key then s[..i] else s[i..j], key);
  }

  /** Adding the run and its group. */
  lemma GroupAdded(s: seq<KeyValue>, i: nat, j: nat, groups: seq<Group>)
    requires IsRun(s, i, j) && Groups(s[..i], groups)
    ensures Groups(s[..j], groups + [Group(s[i].key, Values(s[i..j], s[i].key))])
  {
    hide Values;
    var u, v, key := s[..i], s[..j], s[i].key;
    var more := groups + [Group(key, Values(s[i..j], key))];
    RunValues(s, i, j, key);
    assert v[i] == s[i];
    forall g | 0 <= g < |groups|
      ensures Emitted(v, groups[g].key) && multiset(groups[g].values) == multiset(Values(v, groups[g].key)) &&
              groups[g].key != key {
      assert Emitted(u, groups[g].key);
      PrefixEmitted(s, i, j, groups[g].key);
      RunValues(s, i, j, groups[g].key);
    }
    forall k | 0 <= k < |v| ensures Listed(more, v[k].key) {
      if k < i {
        assert v[k] == u[k];
        var g :| 0 <= g < |groups| && groups[g].key == u[k].key;
        assert more[g] == groups[g];
      } else {
        assert more[|groups|].key == v[k].key;
      }
    }
  }

  /** One line per group, in order. */
  ghost predicate LinesOf(reducef: Reducer, groups: seq<Group>, lines: seq<Line>) {
    |lines| == |groups| && forall g :: 0 <= g < |groups| ==>
      lines[g] == (groups[g].key, reducef(groups[g].key, groups[g].values))
  }

  lemma RunsStart(reducef: Reducer, s: seq<KeyValue>)
    ensures Boundary(s, 0) && Groups(s[..0], []) && LinesOf(reducef, [], [])
  {
  }

  lemma LinesAppend(reducef: Reducer, groups: seq<Group>, lines: seq<Line>, group: Group)
    requires LinesOf(reducef, groups, lines)
    ensures LinesOf(reducef, groups + [group], lines + [(group.key, reducef(group.key, group.values))])
  {
  }

  /** The loop that reduces each run of equal keys and writes its line. */
  method ReduceRuns(reducef: Reducer, s: seq<KeyValue>) returns (lines: seq<Line>)
    requires Ascending(s)
    ensures exists groups :: Groups(s, groups) && LinesOf(reducef, groups, lines)
  {
    hide Groups, Ascending, Boundary, Values, LinesOf;
    lines := [];
    ghost var groups: seq<Group> := [];
    var i := 0;
    RunsStart(reducef, s);
    while i < |s|
      invariant 0 <= i <= |s| && Boundary(s, i)
      invariant Groups(s[..i], groups) && LinesOf(reducef, groups, lines)
    {
      var j := i + 1;
      while j < |s| && s[j].key == s[i].key
        invariant i < j <= |s|
        invariant forall k :: i <= k < j ==> s[k].key == s[i].key
      {
        j := j + 1;
      }
      var values := CollectRun(s, i, j);
      RunFound(s, i, j);
      GroupAdded(s, i, j, groups);
      var output := reducef(s[i].key, values);
      LinesAppend(reducef, groups, lines, Group(s[i].key, values));
      groups := groups + [Group(s[i].key, values)];
      lines := lines + [(s[i].key, output)];
      i := j;
    }
    assert s[..|s|] == s;
    assert Groups(s, groups) && LinesOf(reducef, groups, lines);
  }

  method CollectRun(s: seq<KeyValue>, i: nat, j: nat) returns (values: seq<string>)
    requires i < j <= |s| && forall k :: i <= k < j ==> s[k].key == s[i].key
    ensures values == Values(s[i..j], s[i].key)
  {
    values := [];
    for k := i to j
      invariant values == Values(s[i..k], s[i].key)
    {
      assert s[i..k + 1] == s[i..k] + [s[k]];
      ValuesAppend(s[i..k], s[k], s[i].key);
      values := values + [s[k].value];
    }
  }

  /** What the map function emits for each file, in order. */
  function Mapped(mapf: string -> seq<KeyValue>, files: seq<string>): (r: seq<seq<KeyValue>>)
    ensures |r| == |files| && forall i :: 0 <= i < |files| ==> r[i] == mapf(files[i])
  {
    seq(|files|, i requires 0 <= i < |files| => mapf(files[i]))
  }

  /** The lines are those of a reduction of each emitted key with all its values. */
  ghost predicate IsSequentialOutput(mapf: string -> seq<KeyValue>, reducef: Reducer, files: seq<string>,
                                     lines: seq<Line>) {
    exists groups :: Groups(Concat(Mapped(mapf, files)), groups) && LinesOf(reducef, groups, lines)
  }

  method Run(mapf: string -> seq<KeyValue>, reducef: Reducer, files: seq<string>) returns (lines: seq<Line>)
    ensures IsSequentialOutput(mapf, reducef, files, lines)
  {
    hide Groups, LinesOf;
    var intermediate: seq<KeyValue> := [];
    for f := 0 to |files|
      invariant intermediate == Concat(Mapped(mapf, files[..f]))
    {
      assert files[..f + 1][..f] == files[..f];
      assert Mapped(mapf, files[..f + 1])[..f] == Mapped(mapf, files[..f]);
      intermediate := intermediate + mapf(files[f]);
    }
    assert files[..|files|] == files;
    var s := SortByKey(intermediate);
    lines := ReduceRuns(reducef, s);
    ghost var groups :| Groups(s, groups) && LinesOf(reducef, groups, lines);
    GroupsOfPermutation(s, intermediate, groups);
  }
}

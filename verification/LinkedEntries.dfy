/** The doubly linked event list that the checker rewrites in place. */
module LinkedEntries {
  import opened Linearizability
  import opened Entries
  import opened Sequences

  /** A node is a call when matching is not null (and then matching is its return node),
      otherwise a return. The list head carries no value and id -1. */
  class Node<I, O> {
    const value: Value<I, O>
    const matching: Node?<I, O>
    const id: int
    var next: Node?<I, O>
    var prev: Node?<I, O>

    constructor (value: Value<I, O>, matching: Node?<I, O>, id: int)
      ensures this.value == value && this.matching == matching && this.id == id
      ensures next == null && prev == null
    {
      this.value, this.matching, this.id := value, matching, id;
      next, prev := null, null;
    }
  }

  /** chain is a doubly linked list: pointers to the right and to the left agree with it. */
  ghost predicate Linked<I, O>(chain: seq<Node<I, O>>)
    reads chain
  {
    && |chain| > 0 && NoRepeats(chain)
    && (forall k {:trigger chain[k].next} :: 0 <= k < |chain| - 1 ==> chain[k].next == chain[k + 1])
    && chain[|chain| - 1].next == null
    && (forall k {:trigger chain[k].prev} :: 0 < k < |chain| ==> chain[k].prev == chain[k - 1])
  }

  lemma InsertAtNoRepeats<T>(s: seq<T>, k: nat, x: T)
    requires k <= |s| && NoRepeats(s) && x !in s
    ensures NoRepeats(InsertAt(s, k, x))
  {
  }

  /** Inserts n just before mark, which stands at position k of the chain. */
  method InsertBefore<I, O>(n: Node<I, O>, mark: Node?<I, O>, ghost chain: seq<Node<I, O>>, ghost k: nat)
    returns (r: Node<I, O>)
    requires n.next == null && n !in chain
    requires if mark == null then chain == [] && k == 0
             else Linked(chain) && k < |chain| && chain[k] == mark && (k == 0 ==> mark.prev == null)
    modifies n, chain
    ensures r == n && (k == 0 ==> n.prev == old(n.prev))
    ensures Linked(InsertAt(chain, k, n))
  {
    if mark != null {
      var beforeMark := mark.prev;
      assert k > 0 ==> beforeMark == chain[k - 1];
      mark.prev := n;
      n.next := mark;
      if beforeMark != null {
        n.prev := beforeMark;
        beforeMark.next := n;
      }
    }
    InsertAtNoRepeats(chain, k, n);
    ghost var longer := InsertAt(chain, k, n);
    assert |longer| == |chain| + 1;
    forall i: nat | i <= |chain|
      ensures longer[i].next == (if i < |chain| then longer[i + 1] else null) &&
              (i > 0 ==> longer[i].prev == longer[i - 1]) {
      hide InsertAt, NoRepeats;
      InsertAtAt(chain, k, n, i);
      if i > 0 { InsertAtAt(chain, k, n, i - 1); }
      if i < |chain| { InsertAtAt(chain, k, n, i + 1); }
    }
    return n;
  }

  method Length<I, O>(first: Node?<I, O>, ghost chain: seq<Node<I, O>>) returns (l: nat)
    requires if first == null then chain == [] else Linked(chain) && chain[0] == first
    ensures l == |chain|
  {
    l := 0;
    var n := first;
    while n != null
      invariant l <= |chain|
      invariant n == if l < |chain| then chain[l] else null
      decreases |chain| - l
    {
      n := n.next;
      l := l + 1;
    }
  }

  /** The node carries an entry at position k; a call node points to the node of its return. */
  ghost predicate Carries<I, O>(n: Node<I, O>, e: Entry<I, O>, returned: Node?<I, O>) {
    n.id == e.id && n.value == e.value && n.matching == if e.kind == CallEntry then returned else null
  }

  /** The entry at position k is carried by the k-i-th of the nodes. */
  ghost predicate CarriedFrom<I, O>(nodes: seq<Node<I, O>>, es: seq<Entry<I, O>>, rp: seq<nat>, i: nat, k: nat)
    requires i <= k < |es| && i + |nodes| == |es|
  {
    && es[k].id < |rp|
    && (es[k].kind == CallEntry ==> i <= rp[es[k].id] < |es|)
    && Carries(nodes[k - i], es[k], At(nodes, rp[es[k].id] - i))
  }

  /** The nodes carry the entries from position i on. */
  ghost predicate RepresentsFrom<I, O>(nodes: seq<Node<I, O>>, es: seq<Entry<I, O>>, rp: seq<nat>, i: nat) {
    i + |nodes| == |es| && forall k :: i <= k < |es| ==> CarriedFrom(nodes, es, rp, i, k)
  }

  ghost predicate Represents<I, O>(nodes: seq<Node<I, O>>, es: seq<Entry<I, O>>, rp: seq<nat>) {
    RepresentsFrom(nodes, es, rp, 0)
  }

  lemma RepresentsGrows<I, O>(nodes: seq<Node<I, O>>, es: seq<Entry<I, O>>, rp: seq<nat>, i: nat, n: Node<I, O>)
    requires i < |es| && RepresentsFrom(nodes, es, rp, i + 1)
    requires es[i].id < |rp|
    requires es[i].kind == CallEntry ==> i < rp[es[i].id] < |es|
    requires Carries(n, es[i], At(nodes, rp[es[i].id] - i - 1))
    ensures RepresentsFrom(InsertAt(nodes, 0, n), es, rp, i)
  {
    var r := InsertAt(nodes, 0, n);
    forall k | i <= k < |es| ensures CarriedFrom(r, es, rp, i, k) {
      if k > i {
        assert CarriedFrom(nodes, es, rp, i + 1, k);
      }
    }
  }

  /** Only the returns from position i on have been recorded. */
  ghost predicate Recorded<I, O>(matched: map<nat, Node<I, O>>, nodes: seq<Node<I, O>>, rp: seq<nat>, i: nat) {
    forall id: nat :: (id in matched <==> id < |rp| && rp[id] >= i) &&
                      (id in matched ==> rp[id] - i < |nodes| && matched[id] == nodes[rp[id] - i])
  }

  lemma ReturnAt<I, O>(ops: seq<Operation<I, O>>, es: seq<Entry<I, O>>, cp: seq<nat>, rp: seq<nat>, i: nat, id: nat)
    requires Timeline(ops, es, cp, rp) && i < |es| && id < |rp|
    ensures rp[id] == i <==> es[i].kind == ReturnEntry && es[i].id == id
  {
    assert es[rp[id]] == ReturnOf(ops, id);
  }

  lemma RecordedGrows<I, O>(matched: map<nat, Node<I, O>>, after: map<nat, Node<I, O>>, nodes: seq<Node<I, O>>,
                            e: Entry<I, O>, rp: seq<nat>, i: nat, n: Node<I, O>)
    requires forall id: nat :: id < |rp| ==> (rp[id] == i <==> e.kind == ReturnEntry && e.id == id)
    requires e.id < |rp|
    requires Recorded(matched, nodes, rp, i + 1)
    requires after == if e.kind == ReturnEntry then matched[e.id := n] else matched
    ensures Recorded(after, InsertAt(nodes, 0, n), rp, i)
  {
    var r := InsertAt(nodes, 0, n);
    assert forall k :: 0 <= k < |nodes| ==> r[k + 1] == nodes[k];
  }

  /** The list built so far: the nodes of the entries from position i on. */
  ghost predicate Rooted<I, O>(root: Node?<I, O>, nodes: seq<Node<I, O>>)
    reads root, nodes
  {
    if root == null then nodes == [] else Linked(nodes) && nodes[0] == root && root.prev == null
  }

  method MakeLinkedEntries<I, O>(entries: seq<Entry<I, O>>, ghost ops: seq<Operation<I, O>>, ghost cp: seq<nat>,
                                 ghost rp: seq<nat>)
    returns (root: Node?<I, O>, ghost nodes: seq<Node<I, O>>)
    requires Timeline(ops, entries, cp, rp)
    ensures Represents(nodes, entries, rp)
    ensures forall k :: 0 <= k < |nodes| ==> fresh(nodes[k])
    ensures Rooted(root, nodes)
  {
    root, nodes := null, [];
    var matched: map<nat, Node<I, O>> := map[];
    for i := |entries| downto 0
      invariant RepresentsFrom(nodes, entries, rp, i)
      invariant Recorded(matched, nodes, rp, i)
      invariant forall k :: 0 <= k < |nodes| ==> fresh(nodes[k])
      invariant Rooted(root, nodes)
    {
      hide *;
      root, matched, nodes := AddEntry(root, matched, nodes, entries, ops, cp, rp, i);
    }
  }

  /** One round of the loop of MakeLinkedEntries. */
  method AddEntry<I, O>(root: Node?<I, O>, matched: map<nat, Node<I, O>>, ghost nodes: seq<Node<I, O>>,
                        entries: seq<Entry<I, O>>, ghost ops: seq<Operation<I, O>>, ghost cp: seq<nat>,
                        ghost rp: seq<nat>, i: nat)
    returns (entry: Node<I, O>, recorded: map<nat, Node<I, O>>, ghost grown: seq<Node<I, O>>)
    requires Timeline(ops, entries, cp, rp) && i < |entries|
    requires RepresentsFrom(nodes, entries, rp, i + 1) && Recorded(matched, nodes, rp, i + 1) && Rooted(root, nodes)
    modifies nodes
    ensures fresh(entry) && grown == InsertAt(nodes, 0, entry)
    ensures RepresentsFrom(grown, entries, rp, i) && Recorded(recorded, grown, rp, i) && Rooted(entry, grown)
  {
    var elem := entries[i];
    assert elem.kind == CallEntry ==> rp[elem.id] > i && elem.id in matched by {
      assert elem == entries[cp[elem.id]] || elem.kind == ReturnEntry;
    }
    recorded := matched;
    if elem.kind == ReturnEntry {
      entry := new Node(elem.value, null, elem.id);
      recorded := recorded[elem.id := entry];
    } else {
      entry := new Node(elem.value, if elem.id in matched then matched[elem.id] else null, elem.id);
    }
    RepresentsGrows(nodes, entries, rp, i, entry);
    forall id: nat | id < |rp| ensures rp[id] == i <==> elem.kind == ReturnEntry && elem.id == id {
      ReturnAt(ops, entries, cp, rp, i, id);
    }
    RecordedGrows(matched, recorded, nodes, elem, rp, i, entry);
    grown := InsertAt(nodes, 0, entry);
    entry := InsertBefore(entry, root, nodes, 0);
  }

  function Cut<T>(s: seq<T>, k: nat): (r: seq<T>)
    requires k < |s|
    ensures |r| == |s| - 1
    ensures forall i :: 0 <= i < |r| ==> r[i] == s[if i < k then i else i + 1]
  {
    s[..k] + s[k + 1..]
  }

  function Without<T>(s: seq<T>, a: nat, b: nat): seq<T>
    requires a < b < |s|
  {
    Cut(Cut(s, a), b - 1)
  }

  function At<I, O>(chain: seq<Node<I, O>>, k: int): Node?<I, O> {
    if 0 <= k < |chain| then chain[k] else null
  }

  /** The pointers of all nodes but chain[k] skip over chain[k]. */
  ghost predicate LinkedAround<I, O>(chain: seq<Node<I, O>>, k: nat)
    requires 0 < k < |chain|
    reads chain
  {
    && NoRepeats(chain)
    && (forall i {:trigger chain[i].next} :: 0 <= i < |chain| && i != k ==>
          chain[i].next == At(chain, if i == k - 1 then k + 1 else i + 1))
    && (forall i {:trigger chain[i].prev} :: 0 < i < |chain| && i != k ==>
          chain[i].prev == chain[if i == k + 1 then k - 1 else i - 1])
  }

  lemma SkippingIsCutting<I, O>(chain: seq<Node<I, O>>, k: nat)
    requires 0 < k < |chain| && LinkedAround(chain, k)
    ensures Linked(Cut(chain, k))
  {
    var r := Cut(chain, k);
    forall i | 0 <= i < |r| - 1 ensures r[i].next == r[i + 1] {
      assert r[i] == chain[if i < k then i else i + 1];
    }
    assert r[|r| - 1] == chain[if k + 1 == |chain| then k - 1 else |chain| - 1];
  }

  lemma CuttingIsSkipping<I, O>(chain: seq<Node<I, O>>, k: nat)
    requires 0 < k < |chain| && NoRepeats(chain) && Linked(Cut(chain, k))
    ensures LinkedAround(chain, k)
  {
    var r := Cut(chain, k);
    forall i | 0 <= i < |chain| && i != k ensures chain[i].next == At(chain, if i == k - 1 then k + 1 else i + 1) {
      assert r[if i < k then i else i - 1] == chain[i];
    }
    forall i | 0 < i < |chain| && i != k ensures chain[i].prev == chain[if i == k + 1 then k - 1 else i - 1] {
      assert r[if i < k then i else i - 1] == chain[i];
    }
  }

  /** chain[k] was cut out of chain and still remembers its neighbours. */
  ghost predicate Remembers<I, O>(chain: seq<Node<I, O>>, k: nat)
    requires 0 < k < |chain|
    reads chain[k]
  {
    chain[k].prev == chain[k - 1] && chain[k].next == At(chain, k + 1)
  }

  /** The first (entry) and second (match) half of lift: neighbours are joined around n. */
  method CutOut<I, O>(n: Node<I, O>, ghost chain: seq<Node<I, O>>, ghost k: nat)
    requires Linked(chain) && 0 < k < |chain| && n == chain[k]
    modifies chain
    ensures Linked(Cut(chain, k)) && Remembers(chain, k)
    ensures chain[0].prev == old(chain[0].prev)
  {
    n.prev.next := n.next;
    if n.next != null {
      n.next.prev := n.prev;
    }
    SkippingIsCutting(chain, k);
  }

  /** The halves of unlift: the neighbours that n remembers are pointed back at n. */
  method PutBack<I, O>(n: Node<I, O>, ghost chain: seq<Node<I, O>>, ghost k: nat)
    requires 0 < k < |chain| && NoRepeats(chain) && n == chain[k]
    requires Linked(Cut(chain, k)) && Remembers(chain, k)
    modifies chain
    ensures Linked(chain)
    ensures n.next == old(n.next) && n.prev == old(n.prev)
    ensures chain[0].prev == old(chain[0].prev)
  {
    CuttingIsSkipping(chain, k);
    n.prev.next := n;
    if n.next != null {
      n.next.prev := n;
    }
  }

  /** The pair chain[a], chain[b] was lifted out of chain: first chain[a] was cut out, then its
      match out of the rest, and both still remember their neighbours of that moment. */
  ghost predicate Lifted<I, O>(chain: seq<Node<I, O>>, a: nat, b: nat)
    requires 0 < a < b < |chain|
    reads chain[a], chain[b]
  {
    assert Cut(chain, a)[b - 1] == chain[b];
    Remembers(chain, a) && Remembers(Cut(chain, a), b - 1)
  }

  lemma BothRemember<I, O>(chain: seq<Node<I, O>>, a: nat, b: nat)
    requires 0 < a < b < |chain|
    requires Remembers(chain, a) && Remembers(Cut(chain, a), b - 1)
    ensures Lifted(chain, a, b)
  {
  }

  lemma CutFacts<T>(chain: seq<T>, a: nat, b: nat)
    requires 0 < a < b < |chain| && NoRepeats(chain)
    ensures var mid := Cut(chain, a);
            && NoRepeats(mid) && chain[a] !in mid && (forall x :: x in mid ==> x in chain)
            && mid[b - 1] == chain[b] && Without(chain, a, b) == Cut(mid, b - 1)
  {
  }

  method Lift<I, O>(entry: Node<I, O>, ghost chain: seq<Node<I, O>>, ghost a: nat, ghost b: nat)
    requires Linked(chain) && 0 < a < b < |chain|
    requires entry == chain[a] && entry.matching == chain[b]
    modifies chain
    ensures Linked(Without(chain, a, b))
    ensures Lifted(chain, a, b)
    ensures chain[0].prev == old(chain[0].prev)
  {
    ghost var mid := Cut(chain, a);
    assert NoRepeats(chain);
    hide *;
    CutFacts(chain, a, b);
    CutOut(entry, chain, a);
    CutOut(entry.matching, mid, b - 1);
    BothRemember(chain, a, b);
  }

  /** Restores every pointer that Lift changed: Linked determines next and prev of each node. */
  method Unlift<I, O>(entry: Node<I, O>, ghost chain: seq<Node<I, O>>, ghost a: nat, ghost b: nat)
    requires 0 < a < b < |chain| && NoRepeats(chain)
    requires entry == chain[a] && entry.matching == chain[b]
    requires Linked(Without(chain, a, b)) && Lifted(chain, a, b)
    modifies chain
    ensures Linked(chain)
    ensures chain[0].prev == old(chain[0].prev)
  {
    ghost var mid := Cut(chain, a);
    assert Remembers(chain, a) && Remembers(mid, b - 1);
    hide *;
    CutFacts(chain, a, b);
    PutBack(entry.matching, mid, b - 1);
    PutBack(entry, chain, a);
  }
}

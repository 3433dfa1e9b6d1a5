/**
 * The doubly-linked list of list.c: a header (`head`, `tail`, `count`) over
 * nodes linked by `next` and `previous`.  The abstract value of a list is the
 * sequence of the data it holds, kept in the ghost field `Contents`; the pure
 * function InsertOrdered is the meaning of `insert_ordered` and is shared with
 * the scheduling engine, which keeps its queues as sequences.
 */
module LinkedList {
  import opened Wrappers

  // ---------------------------------------------------------------------------
  // Sequence semantics of the ordered insertion
  // ---------------------------------------------------------------------------

  /** Where `insert_ordered` puts `x`: the index of the first element `e` with
      `cmp(x, e) > 0`, or `|s|` when there is none. */
  function InsertionPoint<T>(s: seq<T>, x: T, cmp: (T, T) -> int): (k: nat)
    ensures k <= |s|
  {
    if s == [] || cmp(x, s[0]) > 0 then 0 else 1 + InsertionPoint(s[1..], x, cmp)
  }

  /** The walk passes every element before InsertionPoint and stops at the
      element there. */
  lemma {:induction false} InsertionPointWalk<T>(s: seq<T>, x: T, cmp: (T, T) -> int)
    ensures var k := InsertionPoint(s, x, cmp);
      && (forall j :: 0 <= j < k ==> cmp(x, s[j]) <= 0)
      && (k < |s| ==> cmp(x, s[k]) > 0)
  {
    if s != [] && cmp(x, s[0]) <= 0 {
      InsertionPointWalk(s[1..], x, cmp);
      var k := InsertionPoint(s, x, cmp);
      forall j | 0 < j < k ensures cmp(x, s[j]) <= 0 {
        assert s[j] == s[1..][j - 1];
      }
    }
  }

  /** The contents of a list after `insert_ordered(l, x, cmp)`: `x` goes in
      front of the first element `e` with `cmp(x, e) > 0`, or at the end. */
  function InsertOrdered<T>(s: seq<T>, x: T, cmp: (T, T) -> int): (r: seq<T>)
    ensures |r| == |s| + 1
  {
    if s == [] || cmp(x, s[0]) > 0 then [x] + s
    else [s[0]] + InsertOrdered(s[1..], x, cmp)
  }

  /** The insertion adds `x` and loses nothing. */
  lemma {:induction false} InsertOrderedPermutes<T>(s: seq<T>, x: T, cmp: (T, T) -> int)
    ensures multiset(InsertOrdered(s, x, cmp)) == multiset(s) + multiset{x}
  {
    if s != [] && cmp(x, s[0]) <= 0 {
      InsertOrderedPermutes(s[1..], x, cmp);
      calc {
        multiset(InsertOrdered(s, x, cmp));
        multiset([s[0]] + InsertOrdered(s[1..], x, cmp));
        multiset([s[0]]) + multiset(InsertOrdered(s[1..], x, cmp));
        multiset([s[0]]) + multiset(s[1..]) + multiset{x};
        { assert s == [s[0]] + s[1..]; }
        multiset(s) + multiset{x};
      }
    }
  }

  /** The insertion puts `x` at InsertionPoint and shifts the rest. */
  lemma {:induction false} InsertOrderedSplice<T>(s: seq<T>, x: T, cmp: (T, T) -> int)
    ensures var k := InsertionPoint(s, x, cmp);
      InsertOrdered(s, x, cmp) == s[..k] + [x] + s[k..]
  {
    var k := InsertionPoint(s, x, cmp);
    if s == [] || cmp(x, s[0]) > 0 {
      assert s[..k] == [] && s[k..] == s;
    } else {
      InsertOrderedSplice(s[1..], x, cmp);
      assert s[1..][..k - 1] == s[1..k] && s[1..][k - 1..] == s[k..];
      assert [s[0]] + s[1..k] == s[..k];
    }
  }

  /** The elements after an insertion are the old ones and the new one. */
  lemma InsertOrderedMembers<T>(s: seq<T>, x: T, cmp: (T, T) -> int, y: T)
    ensures y in InsertOrdered(s, x, cmp) <==> y in s || y == x
  {
    InsertOrderedPermutes(s, x, cmp);
    assert y in InsertOrdered(s, x, cmp) <==> y in multiset(InsertOrdered(s, x, cmp));
  }

  /** The walk of `insert_ordered` stops at the first element it may not pass:
      any index with the two properties of InsertionPoint is InsertionPoint. */
  lemma {:induction false} InsertionPointUnique<T>(s: seq<T>, x: T, cmp: (T, T) -> int, k: nat)
    requires k <= |s|
    requires forall j :: 0 <= j < k ==> cmp(x, s[j]) <= 0
    requires k < |s| ==> cmp(x, s[k]) > 0
    ensures k == InsertionPoint(s, x, cmp)
  {
    if k > 0 {
      assert cmp(x, s[0]) <= 0;
      InsertionPointUnique(s[1..], x, cmp, k - 1);
    }
  }

  /** `s` is in ascending order of `key`. */
  ghost predicate SortedByKey<T>(s: seq<T>, key: T -> int)
  {
    forall i, j :: 0 <= i < j < |s| ==> key(s[i]) <= key(s[j])
  }

  /** `x` put into `s` at position `k`, position by position. */
  lemma SpliceIndex<T>(s: seq<T>, k: nat, x: T)
    requires k <= |s|
    ensures var r := s[..k] + [x] + s[k..];
      && |r| == |s| + 1 && r[k] == x
      && (forall i :: 0 <= i < k ==> r[i] == s[i])
      && (forall i :: k < i < |r| ==> r[i] == s[i - 1])
  {
  }

  /** A comparator that subtracts keys (`compare_arrival`, `compare_srt`)
      places `x` after every element whose key is at most its own (so equal
      keys keep their insertion order) and before every element whose key is
      larger. */
  lemma InsertionPointByKey<T>(s: seq<T>, x: T, cmp: (T, T) -> int, key: T -> int)
    requires SortedByKey(s, key)
    requires forall j :: 0 <= j < |s| ==> cmp(x, s[j]) == key(s[j]) - key(x)
    ensures var k := InsertionPoint(s, x, cmp);
      && (forall j :: 0 <= j < k ==> key(s[j]) <= key(x))
      && (forall j :: k <= j < |s| ==> key(x) < key(s[j]))
  {
    var k := InsertionPoint(s, x, cmp);
    InsertionPointWalk(s, x, cmp);
    forall j | k <= j < |s| ensures key(x) < key(s[j]) {
      assert key(s[k]) <= key(s[j]);
    }
  }

  /** Such a comparator keeps a sorted list sorted. */
  lemma InsertOrderedByKey<T>(s: seq<T>, x: T, cmp: (T, T) -> int, key: T -> int)
    requires SortedByKey(s, key)
    requires forall j :: 0 <= j < |s| ==> cmp(x, s[j]) == key(s[j]) - key(x)
    ensures SortedByKey(InsertOrdered(s, x, cmp), key)
  {
    var k := InsertionPoint(s, x, cmp);
    InsertionPointByKey(s, x, cmp, key);
    SpliceIndex(s, k, x);
    var r := s[..k] + [x] + s[k..];
    InsertOrderedSplice(s, x, cmp);
    forall i, j | 0 <= i < j < |r| ensures key(r[i]) <= key(r[j]) {
      if j < k {
        assert r[i] == s[i] && r[j] == s[j];
      } else if j == k {
        assert r[i] == s[i];
      } else if i < k {
        assert r[i] == s[i] && r[j] == s[j - 1];
      } else if i == k {
        assert r[j] == s[j - 1];
      } else {
        assert r[i] == s[i - 1] && r[j] == s[j - 1];
      }
    }
  }

  /** Only the answers of the comparator against the list's own elements
      matter: two comparators that agree there insert at the same place. */
  lemma InsertOrderedCongruent<T>(s: seq<T>, x: T, cmp1: (T, T) -> int, cmp2: (T, T) -> int)
    requires forall j :: 0 <= j < |s| ==> cmp1(x, s[j]) == cmp2(x, s[j])
    ensures InsertionPoint(s, x, cmp1) == InsertionPoint(s, x, cmp2)
    ensures InsertOrdered(s, x, cmp1) == InsertOrdered(s, x, cmp2)
  {
    InsertionPointWalk(s, x, cmp1);
    InsertionPointUnique(s, x, cmp2, InsertionPoint(s, x, cmp1));
    InsertOrderedSplice(s, x, cmp1);
    InsertOrderedSplice(s, x, cmp2);
  }

  /** No element occurs twice. */
  ghost predicate Distinct<T>(s: seq<T>)
  {
    forall i, j :: 0 <= i < j < |s| ==> s[i] != s[j]
  }

  /** `x` put into `s` at position `k`, position by position; a new element
      put anywhere into a sequence without repetitions leaves none. */
  lemma DistinctSplice<T>(s: seq<T>, k: nat, x: T)
    requires Distinct(s) && k <= |s| && x !in s
    ensures var r := s[..k] + [x] + s[k..];
      && |r| == |s| + 1 && r[k] == x
      && (forall i :: 0 <= i < k ==> r[i] == s[i])
      && (forall i :: k < i < |r| ==> r[i] == s[i - 1])
      && Distinct(r)
  {
    SpliceIndex(s, k, x);
    var r := s[..k] + [x] + s[k..];
    forall i, j | 0 <= i < j < |r| ensures r[i] != r[j] {
      if j < k {
        assert r[i] == s[i] && r[j] == s[j];
      } else if j == k {
        assert r[i] == s[i];
      } else if i < k {
        assert r[i] == s[i] && r[j] == s[j - 1];
      } else if i == k {
        assert r[j] == s[j - 1];
      } else {
        assert r[i] == s[i - 1] && r[j] == s[j - 1];
      }
    }
  }

  /** Inserting an element that is not there yet keeps a list free of
      repetitions. */
  lemma InsertOrderedDistinct<T>(s: seq<T>, x: T, cmp: (T, T) -> int)
    requires Distinct(s) && x !in s
    ensures Distinct(InsertOrdered(s, x, cmp))
  {
    InsertOrderedSplice(s, x, cmp);
    DistinctSplice(s, InsertionPoint(s, x, cmp), x);
  }

  // ---------------------------------------------------------------------------
  // The linked representation
  // ---------------------------------------------------------------------------

  class Node<T> {
    const data: T
    var next: Node?<T>
    var previous: Node?<T>

    /** `create_node`: a node holding `data` and linked to nothing. */
    constructor (data: T)
      ensures this.data == data && next == null && previous == null
    {
      this.data := data;
      next := null;
      previous := null;
    }
  }

  class List<T> {
    var head: Node?<T>
    var tail: Node?<T>
    var count: int

    /** The nodes reachable from `head`, in order. */
    ghost var nodes: seq<Node<T>>
    /** The data of those nodes: the abstract value of the list. */
    ghost var Contents: seq<T>
    ghost var Repr: set<object>

    /** `count` is the number of nodes reachable from `head`, `tail` is the last
        of them, and `next`/`previous` link each node to its neighbours. */
    ghost predicate Valid()
      reads this, Repr
    {
      && this in Repr
      && |Contents| == |nodes|
      && (forall i :: 0 <= i < |nodes| ==> nodes[i] in Repr && nodes[i].data == Contents[i])
      && count == |nodes|
      && (nodes == [] ==> head == null && tail == null)
      && (nodes != [] ==> head == nodes[0] && tail == nodes[|nodes| - 1])
      && (forall i :: 0 <= i < |nodes| - 1 ==> nodes[i].next == nodes[i + 1])
      && (nodes != [] ==> nodes[|nodes| - 1].next == null)
      && (forall i :: 0 < i < |nodes| ==> nodes[i].previous == nodes[i - 1])
      && (nodes != [] ==> nodes[0].previous == null)
      && Distinct(nodes)
    }

    /** `create_list`: an empty list with no head, no tail and count 0. */
    constructor ()
      ensures Valid() && fresh(Repr)
      ensures Contents == [] && head == null && tail == null && count == 0
    {
      head, tail, count := null, null, 0;
      nodes, Contents := [], [];
      Repr := {this};
    }
  }

  /** `empty`: a null list or one without a head. */
  predicate Empty<T>(l: List?<T>)
    requires l != null ==> l.Valid()
    reads l, if l != null then l.Repr else {}
    ensures Empty(l) <==> l == null || l.Contents == []
  {
    l == null || l.head == null
  }

  /** `front`: the data at the head, or nothing for a null or empty list. */
  function Front<T>(l: List?<T>): (r: Option<T>)
    requires l != null ==> l.Valid()
    reads l, if l != null then l.Repr else {}
    ensures r.None? <==> l == null || l.Contents == []
    ensures r.Some? ==> l != null && r.value == l.Contents[0]
  {
    if l == null || l.head == null then None else Some(l.head.data)
  }

  /** `back`: the data at the tail, or nothing for a null or empty list. */
  function Back<T>(l: List?<T>): (r: Option<T>)
    requires l != null ==> l.Valid()
    reads l, if l != null then l.Repr else {}
    ensures r.None? <==> l == null || l.Contents == []
    ensures r.Some? ==> l != null && r.value == l.Contents[|l.Contents| - 1]
  {
    if l == null || l.tail == null then None else Some(l.tail.data)
  }

  /** `clear_list`: drops every node.  Freeing the nodes (and, with
      `erase_data`, their data) is memory management and has no counterpart. */
  method ClearList<T>(l: List?<T>, eraseData: bool)
    requires l != null ==> l.Valid()
    modifies if l != null then {l} else {}
    ensures l != null ==> l.Valid() && l.Repr == old(l.Repr)
    ensures l != null ==> l.Contents == [] && l.head == null && l.tail == null && l.count == 0
  {
    if l == null {
      return;
    }
    l.head, l.tail, l.count := null, null, 0;
    l.nodes, l.Contents := [], [];
  }

  /** `push_front`: `x` becomes the first element; the others keep their order. */
  method PushFront<T>(l: List?<T>, x: T) returns (r: List?<T>)
    requires l != null ==> l.Valid()
    modifies if l != null then l.Repr else {}
    ensures r == l
    ensures l != null ==> l.Valid() && fresh(l.Repr - old(l.Repr))
    ensures l != null ==> l.Contents == [x] + old(l.Contents) && l.count == old(l.count) + 1
  {
    if l == null {
      return null;
    }
    var n := new Node(x);
    if l.head == null {
      LinkOnly(l, n);
    } else {
      LinkFirst(l, n);
    }
    r := l;
  }

  /** `push_back`: `x` becomes the last element; the others keep their order. */
  method PushBack<T>(l: List?<T>, x: T) returns (r: List?<T>)
    requires l != null ==> l.Valid()
    modifies if l != null then l.Repr else {}
    ensures r == l
    ensures l != null ==> l.Valid() && fresh(l.Repr - old(l.Repr))
    ensures l != null ==> l.Contents == old(l.Contents) + [x] && l.count == old(l.count) + 1
  {
    if l == null {
      return null;
    }
    var n := new Node(x);
    if l.tail == null {
      LinkOnly(l, n);
    } else {
      LinkLast(l, l.tail, n);
    }
    r := l;
  }

  /** `pop_front`: removes the head; a null or empty list is left alone. */
  method PopFront<T>(l: List?<T>) returns (r: List?<T>)
    requires l != null ==> l.Valid()
    modifies if l != null then l.Repr else {}
    ensures r == l
    ensures l != null ==> l.Valid() && l.Repr == old(l.Repr)
    ensures l != null && old(l.Contents) == [] ==> l.Contents == [] && l.count == 0
    ensures l != null && old(l.Contents) != [] ==>
      l.Contents == old(l.Contents)[1..] && l.count == old(l.count) - 1
  {
    if l == null || l.count == 0 {
      return l;
    }
    assert |l.nodes| > 1 ==> l.nodes[0].next == l.nodes[1];
    l.head := l.head.next;
    if l.head == null {
      l.tail := null;
    } else {
      l.head.previous := null;
    }
    l.count := l.count - 1;
    ghost var ns := l.nodes;
    l.nodes, l.Contents := l.nodes[1..], l.Contents[1..];
    forall i | 0 < i < |l.nodes|
      ensures l.nodes[i].previous == l.nodes[i - 1]
    {
      assert ns[i + 1] != ns[1];
    }
    r := l;
  }

  /** `pop_back`: removes the tail; a null or empty list is left alone. */
  method PopBack<T>(l: List?<T>) returns (r: List?<T>)
    requires l != null ==> l.Valid()
    modifies if l != null then l.Repr else {}
    ensures r == l
    ensures l != null ==> l.Valid() && l.Repr == old(l.Repr)
    ensures l != null && old(l.Contents) == [] ==> l.Contents == [] && l.count == 0
    ensures l != null && old(l.Contents) != [] ==>
      l.Contents == old(l.Contents)[..|old(l.Contents)| - 1] && l.count == old(l.count) - 1
  {
    if l == null || l.count == 0 {
      return l;
    }
    assert |l.nodes| > 1 ==> l.nodes[|l.nodes| - 1].previous == l.nodes[|l.nodes| - 2];
    l.tail := l.tail.previous;
    if l.tail == null {
      l.head := null;
    } else {
      l.tail.next := null;
    }
    l.count := l.count - 1;
    ghost var ns := l.nodes;
    l.nodes, l.Contents := l.nodes[..|l.nodes| - 1], l.Contents[..|l.Contents| - 1];
    forall i | 0 <= i < |l.nodes| - 1
      ensures l.nodes[i].next == l.nodes[i + 1]
    {
      assert ns[i] != ns[|ns| - 2];
    }
    r := l;
  }

  /** `insert_ordered`: walks from the head past every element `e` with
      `compare(x, e) <= 0` and links a new node for `x` in front of the first
      element it may not pass, or at the tail. */
  method InsertOrderedInto<T>(l: List?<T>, x: T, compare: (T, T) -> int) returns (r: List?<T>)
    requires l != null ==> l.Valid()
    modifies if l != null then l.Repr else {}
    ensures r == l
    ensures l != null ==> l.Valid() && fresh(l.Repr - old(l.Repr))
    ensures l != null ==>
      l.Contents == InsertOrdered(old(l.Contents), x, compare) && l.count == old(l.count) + 1
  {
    if l == null {
      return null;
    }
    var n := new Node(x);
    LinkOrdered(l, n, compare);
    r := l;
  }

  /** Inserting before every element is prepending. */
  lemma InsertOrderedFront<T>(s: seq<T>, x: T, cmp: (T, T) -> int)
    requires InsertionPoint(s, x, cmp) == 0
    ensures InsertOrdered(s, x, cmp) == [x] + s
  {
  }

  /** Inserting after every element is appending. */
  lemma InsertOrderedBack<T>(s: seq<T>, x: T, cmp: (T, T) -> int)
    requires InsertionPoint(s, x, cmp) == |s|
    ensures InsertOrdered(s, x, cmp) == s + [x]
  {
    InsertOrderedSplice(s, x, cmp);
    assert s[..|s|] == s && s[|s|..] == [];
  }

  /** The body of `insert_ordered` once the node exists: the walk, then one of
      the four ways of linking the node. */
  method LinkOrdered<T>(l: List<T>, n: Node<T>, compare: (T, T) -> int)
    requires l.Valid() && n !in l.Repr && n.next == null && n.previous == null
    modifies l.Repr, n
    ensures l.Valid() && l.Repr == old(l.Repr) + {n}
    ensures l.Contents == InsertOrdered(old(l.Contents), n.data, compare)
    ensures l.count == old(l.count) + 1
  {
    ghost var s := l.Contents;
    if l.head == null {
      InsertOrderedFront(s, n.data, compare);
      LinkOnly(l, n);
    } else {
      var ant, aux, k := FindPlace(l, n.data, compare);
      if ant == null {
        InsertOrderedFront(s, n.data, compare);
        LinkFirst(l, n);
      } else if aux == null {
        InsertOrderedBack(s, n.data, compare);
        LinkLast(l, ant, n);
      } else {
        InsertOrderedSplice(s, n.data, compare);
        LinkBetween(l, ant, aux, n, k);
      }
    }
  }

  /** The walk of `insert_ordered`: `aux` ends on the first node whose data
      `x` may not pass (null at the end of the list) and `ant` on the node
      before it (null at the head). */
  method FindPlace<T>(l: List<T>, x: T, compare: (T, T) -> int)
    returns (ant: Node?<T>, aux: Node?<T>, ghost k: nat)
    requires l.Valid()
    ensures k == InsertionPoint(l.Contents, x, compare)
    ensures aux == (if k < |l.nodes| then l.nodes[k] else null)
    ensures ant == (if k == 0 then null else l.nodes[k - 1])
  {
    ant := null;
    aux := l.head;
    k := 0;
    while aux != null && compare(x, aux.data) <= 0
      invariant 0 <= k <= |l.nodes|
      invariant aux == (if k < |l.nodes| then l.nodes[k] else null)
      invariant ant == (if k == 0 then null else l.nodes[k - 1])
      invariant forall j :: 0 <= j < k ==> compare(x, l.Contents[j]) <= 0
      decreases |l.nodes| - k
    {
      ant := aux;
      aux := aux.next;
      k := k + 1;
    }
    InsertionPointUnique(l.Contents, x, compare, k);
  }

  /** `insert_ordered` on an empty list: `n` becomes head and tail. */
  method LinkOnly<T>(l: List<T>, n: Node<T>)
    requires l.Valid() && l.nodes == [] && n !in l.Repr
    requires n.next == null && n.previous == null
    modifies l
    ensures l.Valid() && l.Repr == old(l.Repr) + {n}
    ensures l.nodes == [n] && l.Contents == [n.data] && l.count == 1
  {
    l.head, l.tail, l.count := n, n, 0;
    l.count := l.count + 1;
    l.nodes, l.Contents := [n], [n.data];
    l.Repr := l.Repr + {n};
  }

  /** The first branch of `insert_ordered`'s linking step: `n` becomes the head. */
  method LinkFirst<T>(l: List<T>, n: Node<T>)
    requires l.Valid() && l.nodes != [] && n !in l.Repr
    requires n.next == null && n.previous == null
    modifies l.Repr, n
    ensures l.Valid() && l.Repr == old(l.Repr) + {n}
    ensures l.nodes == [n] + old(l.nodes) && l.Contents == [n.data] + old(l.Contents)
    ensures l.count == old(l.count) + 1
  {
    ghost var ns, cs := l.nodes, l.Contents;
    DistinctSplice(ns, 0, n);
    ghost var ms := ns[..0] + [n] + ns[0..];
    assert ms == [n] + ns;
    var first := l.head;
    n.next := first;
    first.previous := n;
    l.head, l.count := n, l.count + 1;
    l.nodes, l.Contents := ms, [n.data] + cs;
    l.Repr := l.Repr + {n};
    forall i | 1 < i < |ms|
      ensures ms[i].previous == ms[i - 1]
    {
      assert ms[i] != first;
    }
  }

  /** The second branch of `insert_ordered`'s linking step, when the walk
      ran off the end: `n` goes after `ant`, the last node, and becomes the tail. */
  method LinkLast<T>(l: List<T>, ant: Node<T>, n: Node<T>)
    requires l.Valid() && l.nodes != [] && n !in l.Repr
    requires n.next == null
    requires ant == l.nodes[|l.nodes| - 1]
    modifies l.Repr, n
    ensures l.Valid() && l.Repr == old(l.Repr) + {n}
    ensures l.nodes == old(l.nodes) + [n]
    ensures l.Contents == old(l.Contents) + [n.data]
    ensures l.count == old(l.count) + 1
  {
    ghost var ns, cs := l.nodes, l.Contents;
    DistinctSplice(ns, |ns|, n);
    ghost var ms := ns[..|ns|] + [n] + ns[|ns|..];
    assert ms == ns + [n];
    n.previous := ant;
    ant.next := n;
    l.tail, l.count := n, l.count + 1;
    l.nodes, l.Contents := ms, cs + [n.data];
    l.Repr := l.Repr + {n};
    forall i | 0 <= i < |ns| - 1
      ensures ms[i].next == ms[i + 1]
    {
      assert ms[i] != ant;
    }
  }

  /** The third branch of `insert_ordered`'s linking step, when the walk
      stopped at `aux`, the `k`-th node: `n` goes between `ant`, its
      predecessor, and `aux`. */
  method LinkBetween<T>(l: List<T>, ant: Node<T>, aux: Node<T>, n: Node<T>, ghost k: nat)
    requires l.Valid() && 0 < k < |l.nodes| && n !in l.Repr
    requires ant == l.nodes[k - 1] && aux == l.nodes[k]
    modifies l.Repr, n
    ensures l.Valid() && l.Repr == old(l.Repr) + {n}
    ensures l.nodes == old(l.nodes)[..k] + [n] + old(l.nodes)[k..]
    ensures l.Contents == old(l.Contents)[..k] + [n.data] + old(l.Contents)[k..]
    ensures l.count == old(l.count) + 1
  {
    ghost var ns, cs := l.nodes, l.Contents;
    DistinctSplice(ns, k, n);
    ghost var ms := ns[..k] + [n] + ns[k..];
    Relink(ant, aux, n);
    l.count := l.count + 1;
    l.nodes, l.Contents := ms, cs[..k] + [n.data] + cs[k..];
    l.Repr := l.Repr + {n};
    forall i | 0 <= i < |ms| - 1
      ensures ms[i].next == ms[i + 1]
    {
      assert i != k - 1 && i != k ==> ms[i] != ant;
    }
    forall i | 0 < i < |ms|
      ensures ms[i].previous == ms[i - 1]
    {
      assert i != k && i != k + 1 ==> ms[i] != aux;
    }
  }

  /** The pointer writes of the third branch: `n` between `ant` and `aux`. */
  method Relink<T>(ant: Node<T>, aux: Node<T>, n: Node<T>)
    requires ant != aux && n != ant && n != aux
    modifies ant, aux, n
    ensures ant.next == n && n.previous == ant && n.next == aux && aux.previous == n
    ensures ant.previous == old(ant.previous) && aux.next == old(aux.next)
  {
    n.previous := ant;
    ant.next := n;
    n.next := aux;
    aux.previous := n;
  }
}

/**
 The doubly linked list under most of the server's queues (adlist.c): nodes on
 the heap, joined by `prev` and `next`. The ghost field `spine` is the list of
 nodes from head to tail, and `Valid` says that the pointers follow it.
 */
module Adlist {
  import opened Sds

  class Node<T> {
    var value: T
    var prev: Node?<T>
    var next: Node?<T>

    /** listInitNode */
    constructor (v: T)
      ensures value == v && prev == null && next == null
    {
      value, prev, next := v, null, null;
    }
  }

  ghost predicate Distinct<T>(s: seq<Node<T>>) {
    forall i, j :: 0 <= i < j < |s| ==> s[i] != s[j]
  }

  ghost function PrevOf<T>(s: seq<Node<T>>, i: int): Node?<T>
    requires 0 <= i < |s|
  {
    if i == 0 then null else s[i - 1]
  }

  ghost function NextOf<T>(s: seq<Node<T>>, i: int): Node?<T>
    requires 0 <= i < |s|
  {
    if i == |s| - 1 then null else s[i + 1]
  }

  ghost predicate Linked<T>(s: seq<Node<T>>)
    reads s
  {
    forall i {:trigger s[i].prev} {:trigger s[i].next} ::
      0 <= i < |s| ==> s[i].prev == PrevOf(s, i) && s[i].next == NextOf(s, i)
  }

  ghost function ValuesOf<T>(s: seq<Node<T>>): seq<T>
    reads s
  {
    seq(|s|, i requires 0 <= i < |s| reads s => s[i].value)
  }

  /** The pointers after node `i` has been bypassed. */
  ghost predicate Bypassed<T>(s: seq<Node<T>>, i: int)
    requires 0 <= i < |s|
    reads s
  {
    forall k {:trigger s[k].prev} {:trigger s[k].next} :: 0 <= k < |s| && k != i ==>
      && s[k].prev == PrevOf(s, if k == i + 1 then i else k)
      && s[k].next == NextOf(s, if k == i - 1 then i else k)
  }

  /** `t` is `s` without its element `i`. */
  ghost predicate Removed<T>(s: seq<T>, i: int, t: seq<T>) {
    && 0 <= i < |s| && |t| == |s| - 1
    && forall k :: 0 <= k < |t| ==> t[k] == s[if k < i then k else k + 1]
  }

  lemma CutRemoves<T>(s: seq<T>, i: int)
    requires 0 <= i < |s|
    ensures Removed(s, i, s[..i] + s[i + 1..])
  {
  }

  lemma BypassedNode<T>(s: seq<Node<T>>, i: int, t: seq<Node<T>>, k: int)
    requires Removed(s, i, t) && Bypassed(s, i) && 0 <= k < |t|
    ensures t[k].prev == PrevOf(t, k) && t[k].next == NextOf(t, k)
  {
    hide Bypassed;
    var j := if k < i then k else k + 1;
    assert t[k] == s[j];
    BypassedAt(s, i, j);
    if k > 0 {
      assert t[k - 1] == s[if k - 1 < i then k - 1 else k];
    }
    if k + 1 < |t| {
      assert t[k + 1] == s[if k + 1 < i then k + 1 else k + 2];
    }
  }

  lemma BypassedIsLinked<T>(s: seq<Node<T>>, i: int, t: seq<Node<T>>)
    requires Removed(s, i, t) && Bypassed(s, i)
    ensures Linked(t)
  {
    hide Bypassed, Removed, PrevOf, NextOf;
    forall k | 0 <= k < |t| ensures t[k].prev == PrevOf(t, k) && t[k].next == NextOf(t, k) {
      BypassedNode(s, i, t, k);
    }
  }

  lemma BypassedAt<T>(s: seq<Node<T>>, i: int, k: int)
    requires 0 <= i < |s| && 0 <= k < |s| && k != i && Bypassed(s, i)
    ensures s[k].prev == PrevOf(s, if k == i + 1 then i else k)
    ensures s[k].next == NextOf(s, if k == i - 1 then i else k)
  {
  }

  lemma LinkedAt<T>(s: seq<Node<T>>, k: int)
    requires Linked(s) && 0 <= k < |s|
    ensures s[k].prev == PrevOf(s, k) && s[k].next == NextOf(s, k)
  {
  }

  /** No other position holds the node at `i`. */
  ghost predicate Apart<T>(s: seq<Node<T>>, i: int)
    requires 0 <= i < |s|
  {
    forall k :: 0 <= k < |s| && k != i ==> s[k] != s[i]
  }

  lemma ApartAll<T>(s: seq<Node<T>>)
    requires Distinct(s)
    ensures forall i :: 0 <= i < |s| ==> Apart(s, i)
  {
  }

  /** The pointers after a node has been put in before position `k`. */
  ghost predicate Spliced<T>(s: seq<Node<T>>, k: int, node: Node<T>)
    requires 0 <= k <= |s|
    reads s, node
  {
    && (forall j {:trigger s[j].prev} {:trigger s[j].next} :: 0 <= j < |s| ==>
          && s[j].prev == (if j == k then node else PrevOf(s, j))
          && s[j].next == (if j == k - 1 then node else NextOf(s, j)))
    && node.prev == (if k == 0 then null else s[k - 1])
    && node.next == (if k == |s| then null else s[k])
  }

  lemma SplicedIsLinked<T>(s: seq<Node<T>>, k: int, node: Node<T>)
    requires 0 <= k <= |s| && Spliced(s, k, node)
    ensures Linked(s[..k] + [node] + s[k..])
  {
    var t := s[..k] + [node] + s[k..];
    forall j | 0 <= j < |t| ensures t[j].prev == PrevOf(t, j) && t[j].next == NextOf(t, j) {
      if j < k {
        assert t[j] == s[j];
      } else if j > k {
        assert t[j] == s[j - 1];
      }
    }
  }

  lemma DistinctWithout<T>(s: seq<Node<T>>, i: int)
    requires 0 <= i < |s| && Distinct(s)
    ensures Distinct(s[..i] + s[i + 1..])
  {
  }

  lemma DistinctWith<T>(s: seq<Node<T>>, k: int, node: Node<T>)
    requires 0 <= k <= |s| && Distinct(s) && node !in s
    ensures Distinct(s[..k] + [node] + s[k..])
  {
  }

  class List<T> {
    var head: Node?<T>
    var tail: Node?<T>
    var len: nat
    ghost var spine: seq<Node<T>>

    ghost predicate Valid()
      reads this, spine
    {
      && len == |spine|
      && Distinct(spine)
      && Linked(spine)
      && head == (if spine == [] then null else spine[0])
      && tail == (if spine == [] then null else spine[|spine| - 1])
    }

    ghost function Values(): seq<T>
      reads this, spine
    {
      ValuesOf(spine)
    }

    constructor ()
      ensures Valid() && spine == []
    {
      head, tail, len, spine := null, null, 0, [];
    }

    /** listLinkNodeHead */
    method LinkNodeHead(node: Node<T>)
      requires Valid() && node !in spine
      modifies this, node`prev, node`next, spine`prev
      ensures Valid() && spine == [node] + old(spine)
    {
      if len == 0 {
        head, tail := node, node;
        node.prev, node.next := null, null;
      } else {
        node.prev := null;
        node.next := head;
        head.prev := node;
        head := node;
      }
      spine := [node] + spine;
      len := len + 1;
    }

    /** listLinkNodeTail */
    method LinkNodeTail(node: Node<T>)
      requires Valid() && node !in spine
      modifies this, node`prev, node`next, spine`next
      ensures Valid() && spine == old(spine) + [node]
    {
      if len == 0 {
        head, tail := node, node;
        node.prev, node.next := null, null;
      } else {
        node.prev := tail;
        node.next := null;
        tail.next := node;
        tail := node;
      }
      spine := spine + [node];
      len := len + 1;
    }

    method AddNodeHead(value: T)
      requires Valid()
      modifies this, spine`prev
      ensures Valid() && Values() == [value] + old(Values())
      ensures |spine| == |old(spine)| + 1 && fresh(spine[0]) && spine[1..] == old(spine)
    {
      var node := new Node(value);
      LinkNodeHead(node);
    }

    method AddNodeTail(value: T)
      requires Valid()
      modifies this, spine`next
      ensures Valid() && Values() == old(Values()) + [value]
      ensures |spine| == |old(spine)| + 1 && fresh(spine[|spine| - 1]) && spine[..|spine| - 1] == old(spine)
    {
      var node := new Node(value);
      LinkNodeTail(node);
    }

    /** The neighbours of node `i` are joined. */
    method Bypass(node: Node<T>, ghost s: seq<Node<T>>, ghost i: nat)
      requires i < |s| && s[i] == node && Linked(s)
      requires Apart(s, i) && (i > 0 ==> Apart(s, i - 1)) && (i + 1 < |s| ==> Apart(s, i + 1))
      modifies `head, `tail, s`prev, s`next
      ensures Bypassed(s, i) && node.prev == null && node.next == null
      ensures head == (if i == 0 then NextOf(s, i) else old(head))
      ensures tail == (if i == |s| - 1 then PrevOf(s, i) else old(tail))
    {
      LinkedAt(s, i);
      if node.prev != null {
        node.prev.next := node.next;
      } else {
        head := node.next;
      }
      if node.next != null {
        node.next.prev := node.prev;
      } else {
        tail := node.prev;
      }
      node.next := null;
      node.prev := null;
    }

    /** listUnlinkNode; `i` is where the node stands. */
    method UnlinkNode(node: Node<T>, ghost i: nat)
      requires Valid() && i < |spine| && spine[i] == node
      modifies this, spine`prev, spine`next
      ensures Valid() && spine == old(spine[..i] + spine[i + 1..])
      ensures node.prev == null && node.next == null
    {
      hide Linked, Distinct, Bypassed, Apart;
      ghost var s := spine;
      ApartAll(s);
      Bypass(node, s, i);
      len := len - 1;
      CutRemoves(s, i);
      BypassedIsLinked(s, i, s[..i] + s[i + 1..]);
      DistinctWithout(s, i);
      spine := s[..i] + s[i + 1..];
    }

    /** A new node is put in before position `k`. */
    method Splice(at: Node<T>, node: Node<T>, after: bool, ghost s: seq<Node<T>>, ghost k: nat)
      requires 0 < |s| && k <= |s| && Linked(s) && node !in s
      requires if after then k > 0 && s[k - 1] == at else k < |s| && s[k] == at
      requires (k > 0 ==> Apart(s, k - 1)) && (k < |s| ==> Apart(s, k))
      requires head == s[0] && tail == s[|s| - 1]
      modifies `head, `tail, node`prev, node`next, s`prev, s`next
      ensures Spliced(s, k, node)
      ensures head == if k == 0 then node else s[0]
      ensures tail == if k == |s| then node else s[|s| - 1]
    {
      LinkedAt(s, if after then k - 1 else k);
      if after {
        node.prev := at;
        node.next := at.next;
        if tail == at {
          tail := node;
        }
      } else {
        node.next := at;
        node.prev := at.prev;
        if head == at {
          head := node;
        }
      }
      if node.prev != null {
        node.prev.next := node;
      }
      if node.next != null {
        node.next.prev := node;
      }
    }

    /** listInsertNode; `i` is where the old node stands. */
    method InsertNode(at: Node<T>, value: T, after: bool, ghost i: nat)
      requires Valid() && i < |spine| && spine[i] == at
      modifies this, spine`prev, spine`next
      ensures Valid()
      ensures var k := if after then i + 1 else i;
              |spine| == |old(spine)| + 1 && spine == old(spine)[..k] + [spine[k]] + old(spine)[k..]
              && fresh(spine[k]) && spine[k].value == value
    {
      hide Linked, Distinct, Spliced, Apart;
      var node := new Node(value);
      ghost var s := spine;
      ghost var k := if after then i + 1 else i;
      ApartAll(s);
      Splice(at, node, after, s, k);
      len := len + 1;
      SplicedIsLinked(s, k, node);
      DistinctWith(s, k, node);
      spine := s[..k] + [node] + s[k..];
      assert spine[k] == node;
    }

    /** listIndex: from the head, or with a negative index from the tail. */
    method Index(index: int) returns (n: Node?<T>)
      requires Valid()
      ensures n == if 0 <= index < |spine| then spine[index]
                   else if -|spine| <= index < 0 then spine[|spine| + index]
                   else null
    {
      if index < 0 {
        var i := -index - 1;
        n := tail;
        ghost var at := |spine| - 1;
        while i > 0 && n != null
          invariant i >= 0 && -1 <= at < |spine| && at - i == |spine| + index
          invariant n == if at < 0 then null else spine[at]
          decreases i
        {
          LinkedAt(spine, at);
          n := n.prev;
          at := at - 1;
          i := i - 1;
        }
      } else {
        var i := index;
        n := head;
        ghost var at := 0;
        while i > 0 && n != null
          invariant i >= 0 && 0 <= at <= |spine| && at + i == index
          invariant n == if at == |spine| then null else spine[at]
          decreases i
        {
          LinkedAt(spine, at);
          n := n.next;
          at := at + 1;
          i := i - 1;
        }
      }
    }

    /** listRotateTailToHead */
    method RotateTailToHead()
      requires Valid()
      modifies this, spine`prev, spine`next
      ensures Valid()
      ensures spine == if |old(spine)| <= 1 then old(spine)
                       else [old(spine)[|old(spine)| - 1]] + old(spine)[..|old(spine)| - 1]
    {
      if len <= 1 {
        return;
      }
      ghost var s := spine;
      ghost var m := |s| - 1;
      LinkedAt(s, m);
      var last := tail;
      tail := last.prev;
      tail.next := null;
      head.prev := last;
      last.prev := null;
      last.next := head;
      head := last;
      spine := [s[m]] + s[..m];
    }

    /** listRotateHeadToTail */
    method RotateHeadToTail()
      requires Valid()
      modifies this, spine`prev, spine`next
      ensures Valid()
      ensures spine == if |old(spine)| <= 1 then old(spine) else old(spine)[1..] + [old(spine)[0]]
    {
      if len <= 1 {
        return;
      }
      ghost var s := spine;
      LinkedAt(s, 0);
      var first := head;
      head := first.next;
      head.prev := null;
      tail.next := first;
      first.next := null;
      first.prev := tail;
      tail := first;
      spine := s[1..] + [s[0]];
    }

    /** listJoin: the other list gives up all its nodes. */
    method Join(other: List<T>)
      requires Valid() && other.Valid() && other != this
      requires forall i, j :: 0 <= i < |spine| && 0 <= j < |other.spine| ==> spine[i] != other.spine[j]
      modifies this, other, spine`next, other.spine`prev
      ensures Valid() && spine == old(spine) + old(other.spine)
      ensures other.Valid() && other.spine == []
    {
      if other.len == 0 {
        return;
      }
      other.head.prev := tail;
      if tail != null {
        tail.next := other.head;
      } else {
        head := other.head;
      }
      tail := other.tail;
      len := len + other.len;
      spine := spine + other.spine;
      other.head, other.tail, other.len := null, null, 0;
      other.spine := [];
    }
  }

  /** listIter */
  class Iter<T> {
    var next: Node?<T>
    const forward: bool

    /** listRewind and listRewindTail */
    constructor (list: List<T>, forward: bool)
      ensures next == (if forward then list.head else list.tail) && this.forward == forward
    {
      next := if forward then list.head else list.tail;
      this.forward := forward;
    }

    /** listNext: the following node is fixed before the current one is handed out. */
    method Next() returns (current: Node?<T>)
      modifies this
      ensures current == old(next)
      ensures next == if current == null then null else if forward then current.next else current.prev
    {
      current := next;
      if current != null {
        next := if forward then current.next else current.prev;
      }
    }
  }

  function Filter<T>(s: seq<T>, keep: T -> bool): seq<T>
    decreases |s|
  {
    if s == [] then [] else Filter(s[..|s| - 1], keep) + if keep(s[|s| - 1]) then [s[|s| - 1]] else []
  }

  /** The first of the nodes still to come, and the one after it. */
  lemma Ahead<T>(spine: seq<Node<T>>, kept: seq<Node<T>>, s: seq<Node<T>>, i: int)
    requires 0 <= i < |s| && spine == kept + s[i..]
    ensures |kept| < |spine| && spine[|kept|] == s[i]
    ensures NextOf(spine, |kept|) == if i + 1 == |s| then null else s[i + 1]
  {
  }

  lemma FilterNext<T>(vals: seq<T>, keep: T -> bool, i: nat)
    requires i < |vals|
    ensures Filter(vals[..i + 1], keep) == Filter(vals[..i], keep) + if keep(vals[i]) then [vals[i]] else []
  {
    assert vals[..i + 1][..i] == vals[..i];
  }

  /** The nodes hold these values. */
  ghost predicate Holds<T>(s: seq<Node<T>>, vals: seq<T>)
    reads s
  {
    |vals| == |s| && forall k :: 0 <= k < |s| ==> s[k].value == vals[k]
  }

  /** In the midst of a traversal: nodes kept so far, then those from `i` on, the iterator one ahead. */
  ghost predicate Midway<T>(list: List<T>, iter: Iter<T>, node: Node?<T>, s: seq<Node<T>>, i: int, kept: seq<Node<T>>)
    reads list, list.spine, iter
  {
    && list.Valid() && 0 <= i <= |s|
    && list.spine == kept + s[i..]
    && node == (if i == |s| then null else s[i])
    && (i < |s| ==> iter.forward && iter.next == if i + 1 == |s| then null else s[i + 1])
  }

  ghost predicate Inside<T>(s: seq<Node<T>>, nodes: set<Node<T>>) {
    forall n :: n in s ==> n in nodes
  }

  /** One turn of a traversal: the node is deleted or kept, and the iterator moves on. */
  method VisitOne<T>(list: List<T>, iter: Iter<T>, node: Node<T>, delete: bool,
                     ghost s: seq<Node<T>>, ghost i: nat, ghost kept: seq<Node<T>>, ghost now: seq<Node<T>>,
                     ghost nodes: set<Node<T>>, ghost vals: seq<T>)
    returns (next: Node?<T>)
    requires i < |s| && Midway(list, iter, node, s, i, kept)
    requires now == if delete then kept else kept + [node]
    requires Holds(s, vals) && Inside(list.spine, nodes)
    modifies list, iter, nodes`prev, nodes`next
    ensures Holds(s, vals)
    ensures Midway(list, iter, next, s, i + 1, now)
  {
    hide Linked, Distinct, NextOf, Holds, Inside;
    Settle(list, node, delete, s, i, kept, now, nodes, vals);
    if i + 1 < |s| {
      Ahead(list.spine, now, s, i + 1);
      LinkedAt(list.spine, |now|);
    }
    next := iter.Next();
  }

  method Settle<T>(list: List<T>, node: Node<T>, delete: bool,
                   ghost s: seq<Node<T>>, ghost i: nat, ghost kept: seq<Node<T>>, ghost now: seq<Node<T>>,
                   ghost nodes: set<Node<T>>, ghost vals: seq<T>)
    requires list.Valid() && i < |s| && list.spine == kept + s[i..] && node == s[i]
    requires now == if delete then kept else kept + [node]
    requires Holds(s, vals) && Inside(list.spine, nodes)
    modifies list, nodes`prev, nodes`next
    ensures list.Valid() && list.spine == now + s[i + 1..] && Holds(s, vals)
  {
    hide Linked, Distinct, NextOf, Holds, Inside;
    ParseAhead(list.spine, kept, s, i);
    if delete {
      RemoveStays(list, node, |kept|, s, vals, nodes);
    }
  }

  lemma ParseAhead<T>(spine: seq<Node<T>>, kept: seq<Node<T>>, s: seq<Node<T>>, i: int)
    requires 0 <= i < |s| && spine == kept + s[i..]
    ensures |kept| < |spine| && spine[|kept|] == s[i]
    ensures spine[..|kept|] + spine[|kept| + 1..] == kept + s[i + 1..]
    ensures spine == (kept + [s[i]]) + s[i + 1..]
  {
    assert s[i..] == [s[i]] + s[i + 1..];
  }

  /** listUnlinkNode changes no value. */
  method RemoveStays<T>(list: List<T>, node: Node<T>, ghost i: nat, ghost s: seq<Node<T>>, ghost vals: seq<T>,
                        ghost nodes: set<Node<T>>)
    requires list.Valid() && i < |list.spine| && list.spine[i] == node && Holds(s, vals)
    requires Inside(list.spine, nodes)
    modifies list, nodes`prev, nodes`next
    ensures list.Valid() && list.spine == old(list.spine[..i] + list.spine[i + 1..]) && Holds(s, vals)
  {
    list.UnlinkNode(node, i);
  }

  /** The nodes among the first `i` whose values are kept. */
  ghost function Kept<T>(s: seq<Node<T>>, vals: seq<T>, keep: T -> bool, i: nat): seq<Node<T>>
    requires i <= |s| == |vals|
    decreases i
  {
    if i == 0 then [] else Kept(s, vals, keep, i - 1) + if keep(vals[i - 1]) then [s[i - 1]] else []
  }

  lemma {:induction false} KeptInside<T>(s: seq<Node<T>>, vals: seq<T>, keep: T -> bool, i: nat, nodes: set<Node<T>>)
    requires i <= |s| == |vals| && Inside(s, nodes)
    ensures Inside(Kept(s, vals, keep, i) + s[i..], nodes)
    decreases i
  {
    if i > 0 {
      KeptInside(s, vals, keep, i - 1, nodes);
    }
  }

  lemma AllInside<T>(s: seq<Node<T>>, nodes: set<Node<T>>)
    requires nodes == set n | n in s
    ensures Inside(s, nodes)
  {
  }

  lemma TakeNext<T>(vals: seq<T>, i: int)
    requires 0 <= i < |vals|
    ensures vals[..i + 1] == vals[..i] + [vals[i]]
  {
  }

  lemma {:induction false} KeptValues<T>(s: seq<Node<T>>, vals: seq<T>, keep: T -> bool, i: nat)
    requires i <= |s| && Holds(s, vals)
    ensures Holds(Kept(s, vals, keep, i), Filter(vals[..i], keep))
    decreases i
  {
    if i > 0 {
      KeptValues(s, vals, keep, i - 1);
      FilterNext(vals, keep, i - 1);
    }
  }

  /** The body of the traversal: look at the value, then delete the node or leave it. */
  method VisitStep<T>(list: List<T>, iter: Iter<T>, node: Node<T>, keep: T -> bool,
                      ghost s: seq<Node<T>>, ghost i: nat, ghost nodes: set<Node<T>>, ghost vals: seq<T>)
    returns (value: T, next: Node?<T>)
    requires i < |s| == |vals| && Midway(list, iter, node, s, i, Kept(s, vals, keep, i))
    requires Holds(s, vals) && Inside(s, nodes)
    modifies list, iter, nodes`prev, nodes`next
    ensures value == vals[i] && Holds(s, vals)
    ensures Midway(list, iter, next, s, i + 1, Kept(s, vals, keep, i + 1))
  {
    hide Midway, Kept, Holds, Inside;
    ghost var kept := Kept(s, vals, keep, i);
    NotDone(list, iter, node, s, i, kept);
    KeptInside(s, vals, keep, i, nodes);
    KeptNext(s, vals, keep, i);
    HeldAt(s, vals, i);
    value := node.value;
    next := VisitOne(list, iter, node, !keep(value), s, i, kept, Kept(s, vals, keep, i + 1), nodes, vals);
  }

  /**
   A traversal that deletes some or all nodes as they are returned visits every
   original element once, in order, and leaves those not deleted.
   */
  method VisitAndDelete<T>(list: List<T>, keep: T -> bool) returns (visited: seq<T>)
    requires list.Valid()
    modifies list, list.spine`prev, list.spine`next
    ensures list.Valid()
    ensures visited == old(list.Values())
    ensures list.Values() == Filter(old(list.Values()), keep)
  {
    hide Linked, Distinct, NextOf, Filter, Midway, Kept, ValuesOf, Holds, Inside;
    ghost var s, vals := list.spine, list.Values();
    ValuesHold(s, vals);
    ghost var nodes := set n | n in s;
    AllInside(s, nodes);
    var iter := new Iter(list, true);
    visited := [];
    ghost var i := 0;
    var node := iter.Next();
    StartMidway(list, iter, node, vals, keep);
    while node != null
      invariant 0 <= i <= |s| && Midway(list, iter, node, s, i, Kept(s, vals, keep, i))
      invariant |s| == |vals| && visited == vals[..i] && Holds(s, vals)
      decreases |s| - i
    {
      NotDone(list, iter, node, s, i, Kept(s, vals, keep, i));
      TakeNext(vals, i);
      var value, next := VisitStep(list, iter, node, keep, s, i, nodes, vals);
      visited := visited + [value];
      node := next;
      i := i + 1;
    }
    Finished(list, iter, s, i, Kept(s, vals, keep, i));
    KeptValues(s, vals, keep, |s|);
    assert vals[..|s|] == vals;
    ValuesHold(list.spine, Filter(vals, keep));
  }

  lemma ValuesHold<T>(s: seq<Node<T>>, vals: seq<T>)
    ensures Holds(s, vals) <==> ValuesOf(s) == vals
    ensures |ValuesOf(s)| == |s|
  {
  }

  lemma HeldAt<T>(s: seq<Node<T>>, vals: seq<T>, i: int)
    requires Holds(s, vals) && 0 <= i < |s|
    ensures |s| == |vals| && s[i].value == vals[i]
  {
  }

  lemma StartMidway<T>(list: List<T>, iter: Iter<T>, node: Node?<T>, vals: seq<T>, keep: T -> bool)
    requires list.Valid() && iter.forward && node == list.head && |vals| == |list.spine|
    requires iter.next == if node == null then null else node.next
    ensures Midway(list, iter, node, list.spine, 0, Kept(list.spine, vals, keep, 0))
  {
    assert [] + list.spine[0..] == list.spine;
    if node != null {
      LinkedAt(list.spine, 0);
    }
  }

  lemma KeptNext<T>(s: seq<Node<T>>, vals: seq<T>, keep: T -> bool, i: nat)
    requires i < |s| == |vals|
    ensures Kept(s, vals, keep, i + 1) == if keep(vals[i]) then Kept(s, vals, keep, i) + [s[i]] else Kept(s, vals, keep, i)
  {
  }

  lemma Finished<T>(list: List<T>, iter: Iter<T>, s: seq<Node<T>>, i: int, kept: seq<Node<T>>)
    requires Midway(list, iter, null, s, i, kept)
    ensures i == |s| && list.Valid() && list.spine == kept
  {
    if i == |s| {
      assert kept + s[i..] == kept;
    }
  }

  lemma NotDone<T>(list: List<T>, iter: Iter<T>, node: Node<T>, s: seq<Node<T>>, i: int, kept: seq<Node<T>>)
    requires Midway(list, iter, node, s, i, kept)
    ensures 0 <= i < |s| && node == s[i] && list.spine == kept + s[i..]
  {
  }

  // ----- from tail to head -----

  function Reversed<T>(s: seq<T>): seq<T> {
    seq(|s|, i requires 0 <= i < |s| => s[|s| - 1 - i])
  }

  /** In the midst of a traversal from the tail: the nodes up to `m`, then those kept, the iterator one ahead. */
  ghost predicate MidwayBack<T>(list: List<T>, iter: Iter<T>, node: Node?<T>, s: seq<Node<T>>, m: int, kept: seq<Node<T>>)
    reads list, list.spine, iter
  {
    && list.Valid() && 0 <= m <= |s|
    && list.spine == s[..m] + kept
    && node == (if m == 0 then null else s[m - 1])
    && (m > 0 ==> !iter.forward && iter.next == if m == 1 then null else s[m - 2])
  }

  /** The nodes from `m` on whose values are kept. */
  ghost function KeptFrom<T>(s: seq<Node<T>>, vals: seq<T>, keep: T -> bool, m: nat): seq<Node<T>>
    requires m <= |s| == |vals|
    decreases |s| - m
  {
    if m == |s| then [] else (if keep(vals[m]) then [s[m]] else []) + KeptFrom(s, vals, keep, m + 1)
  }

  lemma {:induction false} KeptFromInside<T>(s: seq<Node<T>>, vals: seq<T>, keep: T -> bool, m: nat, nodes: set<Node<T>>)
    requires m <= |s| == |vals| && Inside(s, nodes)
    ensures Inside(s[..m] + KeptFrom(s, vals, keep, m), nodes)
    decreases |s| - m
  {
    if m < |s| {
      KeptFromInside(s, vals, keep, m + 1, nodes);
    }
  }

  lemma {:induction false} FilterFirst<T>(x: T, vals: seq<T>, keep: T -> bool)
    ensures Filter([x] + vals, keep) == (if keep(x) then [x] else []) + Filter(vals, keep)
    decreases |vals|
  {
    var all := [x] + vals;
    if vals == [] {
      assert all[..0] == [];
    } else {
      assert all[..|all| - 1] == [x] + vals[..|vals| - 1];
      FilterFirst(x, vals[..|vals| - 1], keep);
    }
  }

  lemma {:induction false} KeptFromValues<T>(s: seq<Node<T>>, vals: seq<T>, keep: T -> bool, m: nat)
    requires m <= |s| && Holds(s, vals)
    ensures Holds(KeptFrom(s, vals, keep, m), Filter(vals[m..], keep))
    decreases |s| - m
  {
    if m < |s| {
      KeptFromValues(s, vals, keep, m + 1);
      FilterFirst(vals[m], vals[m + 1..], keep);
      assert vals[m..] == [vals[m]] + vals[m + 1..];
    }
  }

  lemma ParseBack<T>(spine: seq<Node<T>>, kept: seq<Node<T>>, s: seq<Node<T>>, m: int)
    requires 0 < m <= |s| && spine == s[..m] + kept
    ensures m <= |spine| && spine[m - 1] == s[m - 1]
    ensures spine[..m - 1] + spine[m..] == s[..m - 1] + kept
    ensures spine == s[..m - 1] + ([s[m - 1]] + kept)
    ensures PrevOf(spine, m - 1) == if m == 1 then null else s[m - 2]
  {
    assert s[..m] == s[..m - 1] + [s[m - 1]];
  }

  lemma NotDoneBack<T>(list: List<T>, iter: Iter<T>, node: Node<T>, s: seq<Node<T>>, m: int, kept: seq<Node<T>>)
    requires MidwayBack(list, iter, node, s, m, kept)
    ensures 0 < m <= |s| && node == s[m - 1] && list.Valid() && list.spine == s[..m] + kept
    ensures !iter.forward && iter.next == if m == 1 then null else s[m - 2]
  {
  }

  lemma FinishedBack<T>(list: List<T>, iter: Iter<T>, s: seq<Node<T>>, m: int, kept: seq<Node<T>>)
    requires MidwayBack(list, iter, null, s, m, kept)
    ensures m == 0 && list.Valid() && list.spine == kept
  {
    if m == 0 {
      assert s[..0] + kept == kept;
    }
  }

  lemma StartMidwayBack<T>(list: List<T>, iter: Iter<T>, node: Node?<T>, vals: seq<T>, keep: T -> bool)
    requires list.Valid() && !iter.forward && node == list.tail && |vals| == |list.spine|
    requires iter.next == if node == null then null else node.prev
    ensures MidwayBack(list, iter, node, list.spine, |vals|, KeptFrom(list.spine, vals, keep, |vals|))
  {
    assert list.spine[..|vals|] + [] == list.spine;
    if node != null {
      LinkedAt(list.spine, |vals| - 1);
    }
  }

  /** One turn: the node is deleted or kept, and the iterator moves on. */
  method VisitOneBack<T>(list: List<T>, iter: Iter<T>, node: Node<T>, delete: bool,
                         ghost s: seq<Node<T>>, ghost m: nat, ghost kept: seq<Node<T>>, ghost now: seq<Node<T>>,
                         ghost nodes: set<Node<T>>, ghost vals: seq<T>)
    returns (next: Node?<T>)
    requires 0 < m <= |s| && MidwayBack(list, iter, node, s, m, kept)
    requires now == if delete then kept else [node] + kept
    requires Holds(s, vals) && Inside(list.spine, nodes)
    modifies list, iter, nodes`prev, nodes`next
    ensures Holds(s, vals)
    ensures MidwayBack(list, iter, next, s, m - 1, now)
  {
    hide Linked, Distinct, PrevOf, Holds, Inside;
    SettleBack(list, node, delete, s, m, kept, now, nodes, vals);
    if m > 1 {
      ParseBack(list.spine, now, s, m - 1);
      LinkedAt(list.spine, m - 2);
    }
    next := iter.Next();
  }

  method SettleBack<T>(list: List<T>, node: Node<T>, delete: bool,
                       ghost s: seq<Node<T>>, ghost m: nat, ghost kept: seq<Node<T>>, ghost now: seq<Node<T>>,
                       ghost nodes: set<Node<T>>, ghost vals: seq<T>)
    requires list.Valid() && 0 < m <= |s| && list.spine == s[..m] + kept && node == s[m - 1]
    requires now == if delete then kept else [node] + kept
    requires Holds(s, vals) && Inside(list.spine, nodes)
    modifies list, nodes`prev, nodes`next
    ensures list.Valid() && list.spine == s[..m - 1] + now && Holds(s, vals)
  {
    hide Linked, Distinct, PrevOf, Holds, Inside;
    ParseBack(list.spine, kept, s, m);
    if delete {
      RemoveStays(list, node, m - 1, s, vals, nodes);
    }
  }

  /** The body of the traversal: look at the value, then delete the node or leave it. */
  method VisitStepBack<T>(list: List<T>, iter: Iter<T>, node: Node<T>, keep: T -> bool,
                          ghost s: seq<Node<T>>, ghost m: nat, ghost nodes: set<Node<T>>, ghost vals: seq<T>)
    returns (value: T, next: Node?<T>)
    requires 0 < m <= |s| == |vals| && MidwayBack(list, iter, node, s, m, KeptFrom(s, vals, keep, m))
    requires Holds(s, vals) && Inside(s, nodes)
    modifies list, iter, nodes`prev, nodes`next
    ensures value == vals[m - 1] && Holds(s, vals)
    ensures MidwayBack(list, iter, next, s, m - 1, KeptFrom(s, vals, keep, m - 1))
  {
    hide MidwayBack, KeptFrom, Holds, Inside;
    ghost var kept := KeptFrom(s, vals, keep, m);
    NotDoneBack(list, iter, node, s, m, kept);
    KeptFromInside(s, vals, keep, m, nodes);
    KeptFromNext(s, vals, keep, m - 1);
    HeldAt(s, vals, m - 1);
    value := node.value;
    next := VisitOneBack(list, iter, node, !keep(value), s, m, kept, KeptFrom(s, vals, keep, m - 1), nodes, vals);
  }

  lemma KeptFromNext<T>(s: seq<Node<T>>, vals: seq<T>, keep: T -> bool, m: nat)
    requires m < |s| == |vals|
    ensures KeptFrom(s, vals, keep, m)
            == if keep(vals[m]) then [s[m]] + KeptFrom(s, vals, keep, m + 1) else KeptFrom(s, vals, keep, m + 1)
  {
  }

  lemma ReversedNext<T>(vals: seq<T>, m: int)
    requires 0 < m <= |vals|
    ensures Reversed(vals[m - 1..]) == Reversed(vals[m..]) + [vals[m - 1]]
  {
  }

  /** The same from tail to head: every original element is visited once, in reverse order. */
  method VisitBackAndDelete<T>(list: List<T>, keep: T -> bool) returns (visited: seq<T>)
    requires list.Valid()
    modifies list, list.spine`prev, list.spine`next
    ensures list.Valid()
    ensures visited == Reversed(old(list.Values()))
    ensures list.Values() == Filter(old(list.Values()), keep)
  {
    hide Linked, Distinct, PrevOf, Filter, MidwayBack, KeptFrom, ValuesOf, Holds, Inside, Reversed;
    ghost var s, vals := list.spine, list.Values();
    ValuesHold(s, vals);
    ghost var nodes := set n | n in s;
    AllInside(s, nodes);
    var iter := new Iter(list, false);
    visited := [];
    ghost var m := |s|;
    var node := iter.Next();
    StartMidwayBack(list, iter, node, vals, keep);
    NothingReversed(vals);
    while node != null
      invariant 0 <= m <= |s| && MidwayBack(list, iter, node, s, m, KeptFrom(s, vals, keep, m))
      invariant |s| == |vals| && visited == Reversed(vals[m..]) && Holds(s, vals)
      decreases m
    {
      NotDoneBack(list, iter, node, s, m, KeptFrom(s, vals, keep, m));
      ReversedNext(vals, m);
      var value, next := VisitStepBack(list, iter, node, keep, s, m, nodes, vals);
      visited := visited + [value];
      node := next;
      m := m - 1;
    }
    FinishedBack(list, iter, s, m, KeptFrom(s, vals, keep, m));
    KeptFromValues(s, vals, keep, 0);
    assert vals[0..] == vals;
    ValuesHold(list.spine, Filter(vals, keep));
  }

  lemma NothingReversed<T>(vals: seq<T>)
    ensures Reversed(vals[|vals|..]) == []
  {
  }

  /** The values copied one by one; None as soon as one copy fails. */
  function CopyAll<T>(vals: seq<T>, dup: T -> Option<T>, i: nat): Option<seq<T>>
    requires i <= |vals|
    decreases i
  {
    if i == 0 then Some([])
    else
      var before := CopyAll(vals, dup, i - 1);
      if before.None? || dup(vals[i - 1]).None? then None else Some(before.value + [dup(vals[i - 1]).value])
  }

  lemma {:induction false} CopyFails<T>(vals: seq<T>, dup: T -> Option<T>, i: nat, n: nat)
    requires i <= n <= |vals| && CopyAll(vals, dup, i) == None
    ensures CopyAll(vals, dup, n) == None
    decreases n
  {
    if i < n {
      CopyFails(vals, dup, i, n - 1);
    }
  }

  /** Without a dup method the values themselves are copied. */
  lemma {:induction false} CopySame<T>(vals: seq<T>, dup: T -> Option<T>, i: nat)
    requires i <= |vals| && forall x :: dup(x) == Some(x)
    ensures CopyAll(vals, dup, i) == Some(vals[..i])
    decreases i
  {
    if i > 0 {
      CopySame(vals, dup, i - 1);
      TakeNext(vals, i - 1);
    }
  }

  /** In the midst of copying: `i` values copied, the iterator one ahead of the node. */
  ghost predicate Copying<T>(c: List<T>, orig: List<T>, iter: Iter<T>, node: Node?<T>, i: nat, dup: T -> Option<T>)
    reads c, c.spine, orig, orig.spine, iter
  {
    && c.Valid() && orig.Valid() && i <= |orig.spine|
    && node == (if i == |orig.spine| then null else orig.spine[i])
    && (i < |orig.spine| ==> iter.forward && iter.next == NextOf(orig.spine, i))
    && CopyAll(orig.Values(), dup, i) == Some(c.Values())
  }

  method CopyOne<T>(c: List<T>, ghost orig: List<T>, iter: Iter<T>, node: Node<T>, ghost i: nat, dup: T -> Option<T>)
    returns (next: Node?<T>, ok: bool)
    requires Copying(c, orig, iter, node, i, dup)
    requires c != orig && forall k :: 0 <= k < |c.spine| ==> c.spine[k] !in orig.spine
    modifies c, c.spine`next, iter
    ensures ok == dup(node.value).Some? && i < |orig.spine|
    ensures !ok ==> CopyAll(orig.Values(), dup, |orig.spine|) == None
    ensures ok ==> Copying(c, orig, iter, next, i + 1, dup)
    ensures ok ==> |c.spine| == |old(c.spine)| + 1 && c.spine[..|old(c.spine)|] == old(c.spine)
                   && fresh(c.spine[|old(c.spine)|])
    ensures orig.Values() == old(orig.Values())
  {
    hide Linked, Distinct, NextOf, ValuesOf, CopyAll;
    ghost var s, vals := orig.spine, orig.Values();
    ValuesHold(s, vals);
    HeldAt(s, vals, i);
    CopyNext(vals, dup, i);
    var value := dup(node.value);
    ok := value.Some?;
    next := null;
    if !ok {
      CopyFails(vals, dup, i + 1, |s|);
      return;
    }
    NextIs(s, i);
    c.AddNodeTail(value.value);
    ValuesHold(s, vals);
    StepAhead(orig, i + 1);
    next := iter.Next();
  }

  /** listDup: a new list of copied values, or null; the original is left alone. */
  method Dup<T>(orig: List<T>, dup: T -> Option<T>) returns (copy: List?<T>)
    requires orig.Valid()
    ensures copy == null <==> CopyAll(orig.Values(), dup, |orig.spine|) == None
    ensures copy != null ==> fresh(copy) && copy.Valid()
                             && CopyAll(orig.Values(), dup, |orig.spine|) == Some(copy.Values())
  {
    hide Linked, Distinct, NextOf, ValuesOf, CopyAll;
    var c := new List<T>();
    NoValues<T>();
    ghost var s := orig.spine;
    CopyNone(orig.Values(), dup);
    var iter := new Iter(orig, true);
    var node := iter.Next();
    ghost var i := 0;
    StepAhead(orig, 0);
    while node != null
      invariant i <= |s| && Copying(c, orig, iter, node, i, dup)
      invariant fresh(c) && fresh(iter) && forall k :: 0 <= k < |c.spine| ==> fresh(c.spine[k])
      decreases |s| - i
    {
      var ok;
      node, ok := CopyOne(c, orig, iter, node, i, dup);
      if !ok {
        return null;
      }
      i := i + 1;
    }
    copy := c;
  }

  /** listDup of a list without a dup method: the same values in nodes of its own. */
  method DupPlain<T>(orig: List<T>) returns (copy: List<T>)
    requires orig.Valid()
    ensures fresh(copy) && copy.Valid() && copy.Values() == orig.Values()
  {
    hide Linked, Distinct, CopyAll, ValuesOf;
    var same: T -> Option<T> := x => Some(x);
    ghost var vals := orig.Values();
    ValuesHold(orig.spine, vals);
    CopySame(vals, same, |vals|);
    assert vals[..|vals|] == vals;
    var c := Dup(orig, same);
    copy := c;
  }

  lemma NoValues<T>()
    ensures ValuesOf<T>([]) == []
  {
  }

  lemma CopyNone<T>(vals: seq<T>, dup: T -> Option<T>)
    ensures CopyAll(vals, dup, 0) == Some([])
  {
  }

  lemma CopyNext<T>(vals: seq<T>, dup: T -> Option<T>, i: nat)
    requires i < |vals| && CopyAll(vals, dup, i).Some?
    ensures CopyAll(vals, dup, i + 1)
         == if dup(vals[i]).None? then None else Some(CopyAll(vals, dup, i).value + [dup(vals[i]).value])
  {
  }

  lemma NextIs<T>(s: seq<Node<T>>, i: int)
    requires 0 <= i < |s|
    ensures NextOf(s, i) == if i + 1 == |s| then null else s[i + 1]
  {
  }

  /** Following the pointers of an unchanged list. */
  lemma StepAhead<T>(list: List<T>, i: int)
    requires list.Valid() && 0 <= i <= |list.spine|
    ensures i < |list.spine| ==> list.spine[i].next == NextOf(list.spine, i)
  {
    if i < |list.spine| {
      LinkedAt(list.spine, i);
    }
  }
}

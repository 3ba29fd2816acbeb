/** adlist.c: the doubly linked list on the heap, against the sequence of its nodes. */
module Adlist {
  import opened Keyspace

  class ListNode<V> {
    var prev: ListNode?<V>
    var next: ListNode?<V>
    var value: V

    constructor (value: V)
      ensures this.value == value && prev == null && next == null
    {
      this.value := value;
      prev := null;
      next := null;
    }
  }

  // ---------- Chains ----------

  function NodeBefore<V>(nodes: seq<ListNode<V>>, i: nat): ListNode?<V>
    requires i < |nodes|
  {
    if i == 0 then null else nodes[i - 1]
  }

  function NodeAfter<V>(nodes: seq<ListNode<V>>, i: nat): ListNode?<V>
    requires i < |nodes|
  {
    if i + 1 == |nodes| then null else nodes[i + 1]
  }

  function FirstNode<V>(nodes: seq<ListNode<V>>): ListNode?<V> {
    if nodes == [] then null else nodes[0]
  }

  function LastNode<V>(nodes: seq<ListNode<V>>): ListNode?<V> {
    if nodes == [] then null else nodes[|nodes| - 1]
  }

  predicate Distinct<V>(nodes: seq<ListNode<V>>) {
    forall i, j :: 0 <= i < j < |nodes| ==> nodes[i] != nodes[j]
  }

  lemma Differ<V>(nodes: seq<ListNode<V>>, i: nat, j: nat)
    requires Distinct(nodes) && i < |nodes| && j < |nodes| && i != j
    ensures nodes[i] != nodes[j]
  {
  }

  ghost predicate Linked<V>(nodes: seq<ListNode<V>>, i: nat)
    requires i < |nodes|
    reads nodes
  {
    nodes[i].prev == NodeBefore(nodes, i) && nodes[i].next == NodeAfter(nodes, i)
  }

  /** Each node once; the forward and the backward chain are mirror images. */
  ghost predicate Chained<V>(nodes: seq<ListNode<V>>)
    reads nodes
  {
    Distinct(nodes) && forall i: nat :: i < |nodes| ==> Linked(nodes, i)
  }

  function ValuesOf<V>(nodes: seq<ListNode<V>>): (vs: seq<V>)
    reads nodes
    ensures |vs| == |nodes| && forall i :: 0 <= i < |nodes| ==> vs[i] == nodes[i].value
  {
    if nodes == [] then [] else [nodes[0].value] + ValuesOf(nodes[1..])
  }

  function Inserted<V>(nodes: seq<ListNode<V>>, p: nat, node: ListNode<V>): seq<ListNode<V>>
    requires p <= |nodes|
  {
    nodes[..p] + [node] + nodes[p..]
  }

  lemma InsertedIs<V>(nodes: seq<ListNode<V>>, p: nat, node: ListNode<V>)
    requires p <= |nodes|
    ensures |Inserted(nodes, p, node)| == |nodes| + 1
    ensures forall i :: 0 <= i <= |nodes| ==>
      Inserted(nodes, p, node)[i] == if i < p then nodes[i] else if i == p then node else nodes[i - 1]
  {
  }

  function Removed<V>(nodes: seq<ListNode<V>>, p: nat): seq<ListNode<V>>
    requires p < |nodes|
  {
    nodes[..p] + nodes[p + 1..]
  }

  lemma RemovedIs<V>(nodes: seq<ListNode<V>>, p: nat)
    requires p < |nodes|
    ensures |Removed(nodes, p)| == |nodes| - 1
    ensures forall i :: 0 <= i < |nodes| - 1 ==> Removed(nodes, p)[i] == if i < p then nodes[i] else nodes[i + 1]
  {
  }

  function Rotated<V>(nodes: seq<ListNode<V>>): (r: seq<ListNode<V>>)
    ensures |r| == |nodes|
    ensures forall i :: 0 <= i < |r| ==> r[i] == nodes[if i == 0 then |nodes| - 1 else i - 1]
  {
    if nodes == [] then [] else [nodes[|nodes| - 1]] + nodes[..|nodes| - 1]
  }

  /** In a list, a node is the last exactly if it is at the last place, and likewise the first. */
  lemma SameNode<V>(nodes: seq<ListNode<V>>, p: nat)
    requires Distinct(nodes) && p < |nodes|
    ensures nodes[p] == nodes[|nodes| - 1] <==> p == |nodes| - 1
    ensures nodes[p] == nodes[0] <==> p == 0
  {
  }

  lemma InsertedDistinct<V>(nodes: seq<ListNode<V>>, p: nat, node: ListNode<V>)
    requires p <= |nodes| && Distinct(nodes) && node !in nodes
    ensures Distinct(Inserted(nodes, p, node))
  {
    var r := Inserted(nodes, p, node);
    InsertedIs(nodes, p, node);
    forall i, j | 0 <= i < j < |r|
      ensures r[i] != r[j]
    {
      var m, n := if i < p then i else i - 1, if j < p then j else j - 1;
      if i != p && j != p {
        Differ(nodes, m, n);
      }
    }
  }

  lemma InsertedEnds<V>(nodes: seq<ListNode<V>>, p: nat, node: ListNode<V>)
    requires p <= |nodes|
    ensures |Inserted(nodes, p, node)| == |nodes| + 1
    ensures FirstNode(Inserted(nodes, p, node)) == if p == 0 then node else nodes[0]
    ensures LastNode(Inserted(nodes, p, node)) == if p == |nodes| then node else nodes[|nodes| - 1]
  {
  }

  lemma InsertedLast<V>(nodes: seq<ListNode<V>>, node: ListNode<V>)
    ensures Inserted(nodes, |nodes|, node) == nodes + [node]
  {
  }

  lemma RemovedEnds<V>(nodes: seq<ListNode<V>>, p: nat)
    requires p < |nodes|
    ensures |Removed(nodes, p)| == |nodes| - 1
    ensures FirstNode(Removed(nodes, p)) == if p == 0 then NodeAfter(nodes, p) else nodes[0]
    ensures LastNode(Removed(nodes, p)) == if p == |nodes| - 1 then NodeBefore(nodes, p) else nodes[|nodes| - 1]
  {
  }

  lemma ChainedAt<V>(nodes: seq<ListNode<V>>, p: nat)
    requires Chained(nodes) && p < |nodes|
    ensures Distinct(nodes) && Linked(nodes, p)
  {
  }

  lemma RemovedDistinct<V>(nodes: seq<ListNode<V>>, p: nat)
    requires p < |nodes| && Distinct(nodes)
    ensures Distinct(Removed(nodes, p))
  {
    var r := Removed(nodes, p);
    RemovedIs(nodes, p);
    forall i, j | 0 <= i < j < |r|
      ensures r[i] != r[j]
    {
      Differ(nodes, if i < p then i else i + 1, if j < p then j else j + 1);
    }
  }

  lemma RotatedDistinct<V>(nodes: seq<ListNode<V>>)
    requires Distinct(nodes)
    ensures Distinct(Rotated(nodes))
  {
    hide Rotated;
  }

  datatype Direction = FromHead | FromTail

  class LinkedList<V(==)> {
    var head: ListNode?<V>
    var tail: ListNode?<V>
    var len: nat
    /** The match method, if one is set: does a value match a key? */
    var matcher: Option<(V, V) -> bool>
    /** The dup method, if one is set; it may fail. */
    var dup: Option<V -> Option<V>>
    ghost var Nodes: seq<ListNode<V>>

    ghost predicate Valid()
      reads this, Nodes
    {
      Chained(Nodes) && len == |Nodes| && head == FirstNode(Nodes) && tail == LastNode(Nodes)
    }

    ghost function Values(): seq<V>
      reads this, Nodes
    {
      ValuesOf(Nodes)
    }

    /** listCreate. */
    constructor ()
      ensures Valid() && Nodes == [] && Values() == [] && matcher == None && dup == None
    {
      head := null;
      tail := null;
      len := 0;
      matcher := None;
      dup := None;
      Nodes := [];
    }

    /** listSetDupMethod and listSetMatchMethod. */
    method SetMethods(dup: Option<V -> Option<V>>, matcher: Option<(V, V) -> bool>)
      requires Valid()
      modifies this`dup, this`matcher
      ensures Valid() && Values() == old(Values()) && this.dup == dup && this.matcher == matcher
    {
      this.dup := dup;
      this.matcher := matcher;
    }

    /** listAddNodeHead. */
    method AddNodeHead(value: V) returns (node: ListNode<V>)
      requires Valid()
      modifies this`head, this`tail, this`len, this`Nodes, Nodes
      ensures Valid() && fresh(node) && Nodes == Inserted(old(Nodes), 0, node) && node.value == value
      ensures forall n :: n in old(Nodes) ==> n.value == old(n.value)
    {
      hide Distinct;
      ghost var nodes := Nodes;
      node := new ListNode(value);
      if len == 0 {
        head := node;
        tail := node;
      } else {
        node.next := head;
        head.prev := node;
        head := node;
      }
      len := len + 1;
      Nodes := Inserted(nodes, 0, node);
      InsertedDistinct(nodes, 0, node);
      InsertedIs(nodes, 0, node);
      forall i: nat | i < |Nodes|
        ensures Linked(Nodes, i)
      {
        if i > 0 {
          assert old(Linked(nodes, i - 1));
          if i > 1 {
            Differ(nodes, 0, i - 1);
          }
        }
      }
    }

    /** listAddNodeTail. */
    method AddNodeTail(value: V) returns (node: ListNode<V>)
      requires Valid()
      modifies this`head, this`tail, this`len, this`Nodes, Nodes
      ensures Valid() && fresh(node) && Nodes == Inserted(old(Nodes), |old(Nodes)|, node) && node.value == value
      ensures forall n :: n in old(Nodes) ==> n.value == old(n.value)
    {
      hide Distinct;
      ghost var nodes := Nodes;
      node := new ListNode(value);
      if len == 0 {
        head := node;
        tail := node;
      } else {
        node.prev := tail;
        tail.next := node;
        tail := node;
      }
      len := len + 1;
      Nodes := Inserted(nodes, |nodes|, node);
      InsertedDistinct(nodes, |nodes|, node);
      InsertedIs(nodes, |nodes|, node);
      forall i: nat | i < |Nodes|
        ensures Linked(Nodes, i)
      {
        if i < |nodes| {
          assert old(Linked(nodes, i));
          if i + 1 < |nodes| {
            Differ(nodes, |nodes| - 1, i);
          }
        }
      }
    }

    /** The end of listInsertNode: the neighbours a new node names learn of it. */
    method Splice(node: ListNode<V>, ghost at: nat)
      requires Chained(Nodes) && at <= |Nodes| && node !in Nodes
      requires node.prev == if at == 0 then null else Nodes[at - 1]
      requires node.next == if at == |Nodes| then null else Nodes[at]
      modifies this`len, this`Nodes, Nodes
      ensures Chained(Nodes) && Nodes == Inserted(old(Nodes), at, node) && len == old(len) + 1
      ensures forall n :: n in old(Nodes) ==> n.value == old(n.value)
    {
      hide Distinct;
      ghost var nodes := Nodes;
      if node.prev != null {
        node.prev.next := node;
      }
      if node.next != null {
        node.next.prev := node;
      }
      len := len + 1;
      Nodes := Inserted(nodes, at, node);
      InsertedDistinct(nodes, at, node);
      InsertedIs(nodes, at, node);
      forall i: nat | i < |Nodes|
        ensures Linked(Nodes, i)
      {
        if i != at {
          var m := if i < at then i else i - 1;
          assert old(Linked(nodes, m));
          if at > 0 && m != at - 1 {
            Differ(nodes, m, at - 1);
          }
          if at < |nodes| && m != at {
            Differ(nodes, m, at);
          }
        }
      }
    }

    /** listInsertNode: right after or right before a node of the list, which is the p-th. */
    method InsertNode(oldNode: ListNode<V>, value: V, after: bool, ghost p: nat) returns (node: ListNode<V>)
      requires Valid() && p < |Nodes| && Nodes[p] == oldNode
      modifies this`head, this`tail, this`len, this`Nodes, Nodes
      ensures Valid() && fresh(node) && node.value == value
      ensures Nodes == Inserted(old(Nodes), if after then p + 1 else p, node)
      ensures forall n :: n in old(Nodes) ==> n.value == old(n.value)
    {
      hide Distinct, Chained, Inserted;
      ChainedAt(Nodes, p);
      SameNode(Nodes, p);
      node := new ListNode(value);
      if after {
        node.prev := oldNode;
        node.next := oldNode.next;
        if tail == oldNode {
          tail := node;
        }
      } else {
        node.next := oldNode;
        node.prev := oldNode.prev;
        if head == oldNode {
          head := node;
        }
      }
      InsertedEnds(Nodes, if after then p + 1 else p, node);
      Splice(node, if after then p + 1 else p);
    }

    /** The part of listDelNode that concerns the neighbours: each learns of the other. */
    method Bypass(node: ListNode<V>, ghost p: nat)
      requires Chained(Nodes) && p < |Nodes| && Nodes[p] == node
      modifies this`Nodes, Nodes
      ensures Chained(Nodes) && Nodes == Removed(old(Nodes), p)
      ensures forall n :: n in old(Nodes) ==> n.value == old(n.value)
      ensures node.next == old(node.next) && node.prev == old(node.prev)
    {
      hide Distinct;
      ghost var nodes := Nodes;
      assert Linked(nodes, p);
      if p > 0 {
        Differ(nodes, p - 1, p);
      }
      if p + 1 < |nodes| {
        Differ(nodes, p, p + 1);
      }
      if node.prev != null {
        node.prev.next := node.next;
      }
      if node.next != null {
        node.next.prev := node.prev;
      }
      Nodes := Removed(nodes, p);
      RemovedDistinct(nodes, p);
      RemovedIs(nodes, p);
      forall i: nat | i < |Nodes|
        ensures Linked(Nodes, i)
      {
        var m := if i < p then i else i + 1;
        assert old(Linked(nodes, m));
        if p > 0 && m != p - 1 {
          Differ(nodes, m, p - 1);
        }
        if p + 1 < |nodes| && m != p + 1 {
          Differ(nodes, m, p + 1);
        }
      }
    }

    /** listDelNode: unlinks a node of the list, which is the p-th; the node itself keeps its links. */
    method DelNode(node: ListNode<V>, ghost p: nat)
      requires Valid() && p < |Nodes| && Nodes[p] == node
      modifies this`head, this`tail, this`len, this`Nodes, Nodes
      ensures Valid() && Nodes == Removed(old(Nodes), p)
      ensures forall n :: n in old(Nodes) ==> n.value == old(n.value)
      ensures node.next == old(node.next) && node.prev == old(node.prev)
    {
      hide Distinct, Chained, Removed;
      ChainedAt(Nodes, p);
      RemovedEnds(Nodes, p);
      Bypass(node, p);
      if node.prev == null {
        head := node.next;
      }
      if node.next == null {
        tail := node.prev;
      }
      len := len - 1;
    }

    /** listRotate: the last node becomes the first. */
    method Rotate()
      requires Valid()
      modifies this`head, this`tail, Nodes, this`Nodes
      ensures Valid()
      ensures Nodes == Rotated(old(Nodes))
      ensures forall n :: n in old(Nodes) ==> n.value == old(n.value)
    {
      hide Distinct;
      var last := tail;
      if len <= 1 {
        assert Rotated(Nodes) == Nodes;
        return;
      }
      ghost var nodes, n := Nodes, |Nodes|;
      assert Linked(nodes, n - 1);
      Differ(nodes, n - 2, n - 1);
      Differ(nodes, 0, n - 1);
      tail := last.prev;
      tail.next := null;
      head.prev := last;
      last.prev := null;
      last.next := head;
      head := last;
      Nodes := Rotated(nodes);
      RotatedDistinct(nodes);
      forall i: nat | i < n
        ensures Linked(Nodes, i)
      {
        if i > 0 {
          assert old(Linked(nodes, i - 1));
          if i - 1 != n - 2 {
            Differ(nodes, i - 1, n - 2);
          }
          if i - 1 != 0 {
            Differ(nodes, i - 1, 0);
          }
          Differ(nodes, i - 1, n - 1);
        }
      }
    }

    /** listIndex: from 0 at the head, from -1 at the tail. */
    method Index(index: int) returns (n: ListNode?<V>)
      requires Valid()
      ensures n == if 0 <= index < |Nodes| then Nodes[index]
                   else if -|Nodes| <= index < 0 then Nodes[|Nodes| + index]
                   else null
    {
      if index < 0 {
        var left := -index - 1;
        n := tail;
        ghost var at := |Nodes| - 1;
        while left != 0 && n != null
          invariant 0 <= left && -1 <= at < |Nodes| && at - left == |Nodes| + index
          invariant n == if at >= 0 then Nodes[at] else null
          decreases left
        {
          assert Linked(Nodes, at);
          n := n.prev;
          left := left - 1;
          at := at - 1;
        }
      } else {
        var left := index;
        n := head;
        ghost var at := 0;
        while left != 0 && n != null
          invariant 0 <= left && 0 <= at <= |Nodes| && at + left == index
          invariant n == if at < |Nodes| then Nodes[at] else null
          decreases left
        {
          assert Linked(Nodes, at);
          n := n.next;
          left := left - 1;
          at := at + 1;
        }
      }
    }

    /** What a search compares: the match method if there is one, and the values themselves if not. */
    predicate Matches(value: V, key: V)
      reads this`matcher
    {
      if matcher.Some? then matcher.value(value, key) else key == value
    }

    /** listSearchKey: the first match from the head. */
    method SearchKey(key: V) returns (node: ListNode?<V>)
      requires Valid()
      ensures node == null ==> forall i :: 0 <= i < |Nodes| ==> !Matches(Nodes[i].value, key)
      ensures node != null ==>
        exists p :: 0 <= p < |Nodes| && Nodes[p] == node && Matches(node.value, key) &&
                    forall i :: 0 <= i < p ==> !Matches(Nodes[i].value, key)
    {
      hide Chained;
      var iter := new ListIter(this, FromHead);
      ghost var at: nat := 0;
      node := iter.Next(Nodes, at);
      while node != null
        invariant Valid() && fresh(iter) && 0 <= at <= |Nodes|
        invariant node == if at < |Nodes| then Nodes[at] else null
        invariant at < |Nodes| ==> iter.Stands(Nodes, FromHead, at + 1)
        invariant forall i :: 0 <= i < at ==> !Matches(Nodes[i].value, key)
        decreases |Nodes| - at
      {
        if Matches(node.value, key) {
          return;
        }
        at := at + 1;
        node := iter.Next(Nodes, at);
      }
    }

    method NextToCopy(iter: ListIter<V>, ghost nodes: seq<ListNode<V>>, ghost created: set<ListNode<V>>, ghost at: nat,
                      ghost copies: seq<V>) returns (node: ListNode?<V>)
      requires Chained(nodes) && InCopy(this, iter, nodes, created, at, copies)
      modifies iter`next
      ensures at < |nodes| ==> node == nodes[at] && InCopy(this, iter, nodes, created, at + 1, copies)
      ensures at == |nodes| ==> node == null && InCopy(this, iter, nodes, created, at, copies)
    {
      hide Chained;
      node := iter.Next(nodes, at);
    }

    /** Appends the copy of a value to a list under construction, all of whose nodes are new. */
    method AppendCopy(iter: ListIter<V>, ghost nodes: seq<ListNode<V>>, ghost created: set<ListNode<V>>, ghost at: nat,
                      ghost copies: seq<V>, value: V) returns (ghost created': set<ListNode<V>>)
      requires InCopy(this, iter, nodes, created, at, copies)
      modifies this`head, this`tail, this`len, this`Nodes, created
      ensures fresh(created' - created) && InCopy(this, iter, nodes, created', at, copies + [value])
    {
      hide Chained;
      ghost var before := Nodes;
      var added := AddNodeTail(value);
      InsertedLast(before, added);
      created' := created + {added};
    }

    /** listDup: a list of new nodes with the copies of all values in order, or nothing if one of them cannot be
        copied. The original is not touched. */
    method Duplicate() returns (copy: LinkedList?<V>)
      requires Valid()
      ensures copy == null ==> exists i :: 0 <= i < |Values()| && CopyOf(dup, Values()[i]).None?
      ensures copy != null ==> fresh(copy) && copy.Valid() && copy.dup == dup && copy.matcher == matcher
      ensures copy != null ==> fresh(copy.Nodes) && AreCopies(dup, Values(), |Values()|, copy.Values())
    {
      hide Chained, LinkedList.Valid, LinkedList.Values, AreCopies, CopyOf, ListIter.Stands, Inserted, ValuesOf, InCopy;
      ghost var nodes, values := Nodes, Values();
      NodesOfValid(this);
      var made := new LinkedList();
      made.SetMethods(dup, matcher);
      var iter := new ListIter(this, FromHead);
      ghost var at: nat, created: set<ListNode<V>>, copies: seq<V> := 0, {}, [];
      CopiesStart(dup, values);
      CopyStarts(made, iter, nodes);
      while true
        invariant Chained(nodes) && Values() == values && at <= |nodes| && fresh(made) && fresh(iter) && fresh(created)
        invariant made.dup == dup && made.matcher == matcher
        invariant InCopy(made, iter, nodes, created, at, copies) && AreCopies(dup, values, at, copies)
        decreases |nodes| - at
      {
        var node := made.NextToCopy(iter, nodes, created, at, copies);
        if node == null {
          break;
        }
        var value := CopyOf(dup, node.value);
        if value.None? {
          assert CopyOf(dup, Values()[at]).None?;
          return null;
        }
        created := made.AppendCopy(iter, nodes, created, at + 1, copies, value.value);
        CopiesGrow(dup, values, at, copies, value.value);
        copies := copies + [value.value];
        at := at + 1;
      }
      assert fresh(made.Nodes) && made.Valid() && made.Values() == copies by {
        CopyEnds(made, iter, nodes, created, at, copies);
      }
      copy := made;
    }
  }

  /** What a copied value is: what the dup method makes of it if there is one. */
  function CopyOf<V>(dup: Option<V -> Option<V>>, value: V): Option<V> {
    if dup.Some? then dup.value(value) else Some(value)
  }

  /** A copy under construction: its nodes are all among the created ones, it holds the copies made so far, and the
      iterator has at nodes of the original behind it. */
  ghost predicate InCopy<V>(made: LinkedList<V>, iter: ListIter<V>, nodes: seq<ListNode<V>>, created: set<ListNode<V>>,
                            at: nat, copies: seq<V>)
    reads made, made.Nodes, iter
  {
    made.Valid() && made.Values() == copies && iter.direction == FromHead && iter.Stands(nodes, FromHead, at) &&
    forall i :: 0 <= i < |made.Nodes| ==> made.Nodes[i] in created
  }

  /** The copies of the first values, in order. */
  predicate AreCopies<V(==)>(dup: Option<V -> Option<V>>, values: seq<V>, n: nat, copies: seq<V>) {
    n == |copies| <= |values| && forall i :: 0 <= i < n ==> CopyOf(dup, values[i]) == Some(copies[i])
  }

  lemma CopyStarts<V>(made: LinkedList<V>, iter: ListIter<V>, nodes: seq<ListNode<V>>)
    requires made.Valid() && made.Nodes == [] && iter.direction == FromHead && iter.Stands(nodes, FromHead, 0)
    ensures InCopy(made, iter, nodes, {}, 0, [])
  {
  }

  lemma CopyEnds<V>(made: LinkedList<V>, iter: ListIter<V>, nodes: seq<ListNode<V>>, created: set<ListNode<V>>, at: nat,
                    copies: seq<V>)
    requires InCopy(made, iter, nodes, created, at, copies)
    ensures made.Valid() && made.Values() == copies
    ensures forall i :: 0 <= i < |made.Nodes| ==> made.Nodes[i] in created
  {
  }

  lemma CopiesStart<V>(dup: Option<V -> Option<V>>, values: seq<V>)
    ensures AreCopies(dup, values, 0, [])
  {
  }

  lemma CopiesGrow<V>(dup: Option<V -> Option<V>>, values: seq<V>, n: nat, copies: seq<V>, copy: V)
    requires AreCopies(dup, values, n, copies) && n < |values| && CopyOf(dup, values[n]) == Some(copy)
    ensures AreCopies(dup, values, n + 1, copies + [copy])
  {
    hide CopyOf;
  }

  lemma NodesOfValid<V>(list: LinkedList<V>)
    requires list.Valid()
    ensures Chained(list.Nodes) && |list.Values()| == |list.Nodes|
    ensures forall i :: 0 <= i < |list.Nodes| ==> list.Values()[i] == list.Nodes[i].value
  {
  }

  // ---------- Iterators ----------

  /** Node k in the order of a direction. */
  function Nth<V>(nodes: seq<ListNode<V>>, direction: Direction, k: nat): ListNode<V>
    requires k < |nodes|
  {
    if direction.FromHead? then nodes[k] else nodes[|nodes| - 1 - k]
  }

  class ListIter<V(==)> {
    var next: ListNode?<V>
    var direction: Direction

    /** The iterator has k nodes of the list behind it. */
    ghost predicate Stands(nodes: seq<ListNode<V>>, direction: Direction, k: nat)
      reads this
    {
      this.direction == direction && k <= |nodes| &&
      next == if k < |nodes| then Nth(nodes, direction, k) else null
    }

    /** listGetIterator. */
    constructor (list: LinkedList<V>, direction: Direction)
      requires list.Valid()
      ensures Stands(list.Nodes, direction, 0)
    {
      this.direction := direction;
      next := if direction.FromHead? then list.head else list.tail;
    }

    /** listNext: the node the iterator stands at, moving on from it; it stays at the end. */
    method Next(ghost nodes: seq<ListNode<V>>, ghost k: nat) returns (current: ListNode?<V>)
      requires Chained(nodes) && Stands(nodes, direction, k)
      modifies this`next
      ensures k < |nodes| ==> current == Nth(nodes, direction, k) && Stands(nodes, direction, k + 1)
      ensures k == |nodes| ==> current == null && Stands(nodes, direction, k)
    {
      current := next;
      if current != null {
        assert Linked(nodes, if direction.FromHead? then k else |nodes| - 1 - k);
        if direction.FromHead? {
          next := current.next;
        } else {
          next := current.prev;
        }
      }
    }
  }

  // ---------- Iterating while deleting ----------

  /** The nodes of a list in the order of a direction. */
  function InOrder<V>(nodes: seq<ListNode<V>>, direction: Direction): (r: seq<ListNode<V>>)
    ensures |r| == |nodes|
    ensures forall k :: 0 <= k < |r| ==> r[k] == Nth(nodes, direction, k)
  {
    seq(|nodes|, k requires 0 <= k < |nodes| => Nth(nodes, direction, k))
  }

  lemma OrderIsList<V>(nodes: seq<ListNode<V>>, direction: Direction)
    ensures forall k :: 0 <= k < |nodes| ==> InOrder(nodes, direction)[k] in nodes
  {
  }

  /** The place in the list of node k in the order of a direction. */
  function PlaceOf<V>(nodes: seq<ListNode<V>>, direction: Direction, k: nat): nat
    requires k < |nodes|
  {
    if direction.FromHead? then k else |nodes| - 1 - k
  }

  lemma RemovedInOrder<V>(nodes: seq<ListNode<V>>, direction: Direction, k: nat)
    requires k < |nodes|
    ensures var r := InOrder(nodes, direction);
            InOrder(Removed(nodes, PlaceOf(nodes, direction, k)), direction) == r[..k] + r[k + 1..]
  {
    var p := PlaceOf(nodes, direction, k);
    RemovedIs(nodes, p);
    var a, r := InOrder(Removed(nodes, p), direction), InOrder(nodes, direction);
    forall i | 0 <= i < |a|
      ensures a[i] == (r[..k] + r[k + 1..])[i]
    {
      assert a[i] == Nth(Removed(nodes, p), direction, i);
    }
  }

  /** Deleting the node just returned leaves the iterator where it stands, one place nearer to the start. */
  lemma IteratorSurvives<V>(iter: ListIter<V>, nodes: seq<ListNode<V>>, direction: Direction, k: nat)
    requires k < |nodes| && iter.Stands(nodes, direction, k + 1)
    ensures iter.Stands(Removed(nodes, PlaceOf(nodes, direction, k)), direction, k)
  {
    RemovedIs(nodes, PlaceOf(nodes, direction, k));
  }

  /** Which nodes a walk is to delete. */
  function DropsOf<V>(nodes: seq<ListNode<V>>, drop: V -> bool): (d: seq<bool>)
    reads nodes
    ensures |d| == |nodes| && forall i :: 0 <= i < |d| ==> d[i] == drop(nodes[i].value)
  {
    if nodes == [] then [] else [drop(nodes[0].value)] + DropsOf(nodes[1..], drop)
  }

  function Kept<V>(nodes: seq<ListNode<V>>, drops: seq<bool>): seq<ListNode<V>>
    requires |nodes| == |drops|
  {
    if nodes == [] then []
    else (if drops[0] then [] else [nodes[0]]) + Kept(nodes[1..], drops[1..])
  }

  /** One turn of a walk on the sequences: order is what is visited, now what the list holds in that order, with k
      nodes of the one and q nodes of the other behind the iterator. */
  lemma KeptStep<V>(order: seq<ListNode<V>>, drops: seq<bool>, now: seq<ListNode<V>>, k: nat, q: nat)
    requires |order| == |drops| && k < |order| && q < |now| && now[q..] == order[k..]
    requires now[..q] + Kept(order[k..], drops[k..]) == Kept(order, drops)
    ensures now[q] == order[k]
    ensures var now' := if drops[k] then now[..q] + now[q + 1..] else now;
            var q' := if drops[k] then q else q + 1;
            now'[q'..] == order[k + 1..] && now'[..q'] + Kept(order[k + 1..], drops[k + 1..]) == Kept(order, drops)
  {
    hide Kept;
    KeptFrom(order, drops, k);
    assert now[q] == now[q..][0] == order[k..][0];
    assert now[q..][1..] == now[q + 1..] && order[k..][1..] == order[k + 1..];
    var rest := Kept(order[k + 1..], drops[k + 1..]);
    if drops[k] {
      assert (now[..q] + now[q + 1..])[..q] == now[..q];
      assert (now[..q] + now[q + 1..])[q..] == now[q + 1..];
    } else {
      assert now[..q + 1] == now[..q] + [order[k]];
      assert (now[..q] + [order[k]]) + rest == now[..q] + ([order[k]] + rest);
    }
  }

  lemma KeptNothing<V>(nodes: seq<ListNode<V>>, drops: seq<bool>)
    requires nodes == [] && drops == []
    ensures Kept(nodes, drops) == []
  {
  }

  lemma KeptFrom<V>(order: seq<ListNode<V>>, drops: seq<bool>, k: nat)
    requires |order| == |drops| && k < |order|
    ensures Kept(order[k..], drops[k..]) ==
            if drops[k] then Kept(order[k + 1..], drops[k + 1..]) else [order[k]] + Kept(order[k + 1..], drops[k + 1..])
  {
    assert order[k..][1..] == order[k + 1..] && drops[k..][1..] == drops[k + 1..];
    assert [] + Kept(order[k + 1..], drops[k + 1..]) == Kept(order[k + 1..], drops[k + 1..]);
  }

  /** A walk in the middle: of the nodes in order, k are visited, and q of those are still in the list. */
  ghost predicate Halfway<V>(list: LinkedList<V>, iter: ListIter<V>, order: seq<ListNode<V>>, drops: seq<bool>,
                                 footprint: set<ListNode<V>>, k: nat, q: nat)
    reads list, list.Nodes, iter
  {
    list.Valid() && k <= |order| == |drops| && q <= |list.Nodes| && iter.Stands(list.Nodes, iter.direction, q) &&
    InOrder(list.Nodes, iter.direction)[q..] == order[k..] &&
    InOrder(list.Nodes, iter.direction)[..q] + Kept(order[k..], drops[k..]) == Kept(order, drops) &&
    forall i :: 0 <= i < |list.Nodes| ==> list.Nodes[i] in footprint
  }

  /** The node at the iterator, deleted if it is to be dropped. */
  method VisitOne<V(==)>(list: LinkedList<V>, iter: ListIter<V>, drop: V -> bool, ghost q: nat,
                         ghost footprint: set<ListNode<V>>)
    returns (node: ListNode?<V>, dropped: bool)
    requires forall i :: 0 <= i < |list.Nodes| ==> list.Nodes[i] in footprint
    requires list.Valid() && iter.Stands(list.Nodes, iter.direction, q)
    modifies list`head, list`tail, list`len, list`Nodes, footprint, iter`next
    ensures list.Valid() && (node == null <==> q == |old(list.Nodes)|)
    ensures node == null ==> list.Nodes == old(list.Nodes) && iter.next == old(iter.next)
    ensures node != null ==> node == InOrder(old(list.Nodes), iter.direction)[q] && dropped == drop(old(node.value))
    ensures var r := InOrder(old(list.Nodes), iter.direction);
            node != null ==> InOrder(list.Nodes, iter.direction) == if dropped then r[..q] + r[q + 1..] else r
    ensures node != null ==> iter.Stands(list.Nodes, iter.direction, if dropped then q else q + 1)
    ensures forall i :: 0 <= i < |list.Nodes| ==> list.Nodes[i] in footprint
    ensures forall n :: n in footprint ==> n.value == old(n.value)
  {
    hide Chained;
    dropped := false;
    node := iter.Next(list.Nodes, q);
    if node != null && drop(node.value) {
      dropped := true;
      IteratorSurvives(iter, list.Nodes, iter.direction, q);
      RemovedInOrder(list.Nodes, iter.direction, q);
      RemovedIs(list.Nodes, PlaceOf(list.Nodes, iter.direction, q));
      list.DelNode(node, PlaceOf(list.Nodes, iter.direction, q));
    }
  }

  /** One turn of a walk. */
  method Turn<V(==)>(list: LinkedList<V>, iter: ListIter<V>, drop: V -> bool, ghost order: seq<ListNode<V>>,
                     ghost drops: seq<bool>, ghost footprint: set<ListNode<V>>, ghost k: nat, ghost q: nat)
    returns (node: ListNode?<V>, dropped: bool)
    requires Halfway(list, iter, order, drops, footprint, k, q)
    requires forall i :: 0 <= i < |order| ==> order[i] in footprint && drop(order[i].value) == drops[i]
    modifies list`head, list`tail, list`len, list`Nodes, footprint, iter`next
    ensures node == null <==> k == |order|
    ensures node == null ==> Halfway(list, iter, order, drops, footprint, k, q)
    ensures node != null ==>
      node == order[k] && Halfway(list, iter, order, drops, footprint, k + 1, if dropped then q else q + 1)
    ensures forall n :: n in footprint ==> n.value == old(n.value)
  {
    hide Chained, Kept, InOrder, LinkedList.Valid, ListIter.Stands;
    ghost var now := InOrder(list.Nodes, iter.direction);
    node, dropped := VisitOne(list, iter, drop, q, footprint);
    if node != null {
      assert now[q] == now[q..][0] == order[k..][0];
      KeptStep(order, drops, now, k, q);
    }
  }

  /** The usage pattern of listNext: a walk in either direction that deletes some of the nodes as they are returned
      still returns every node once, in order, and what is left is what was not deleted. */
  method VisitAndDelete<V(==)>(list: LinkedList<V>, direction: Direction, drop: V -> bool) returns (visited: seq<ListNode<V>>)
    requires list.Valid()
    modifies list`head, list`tail, list`len, list`Nodes, list.Nodes
    ensures list.Valid()
    ensures visited == InOrder(old(list.Nodes), direction)
    ensures InOrder(list.Nodes, direction) ==
            Kept(InOrder(old(list.Nodes), direction), old(DropsOf(InOrder(list.Nodes, direction), drop)))
  {
    hide Chained, Kept, InOrder, LinkedList.Valid, ListIter.Stands, Halfway;
    ghost var order := InOrder(list.Nodes, direction);
    OrderIsList(list.Nodes, direction);
    ghost var drops := DropsOf(order, drop);
    visited := [];
    var iter := new ListIter(list, direction);
    ghost var k: nat, q: nat := 0, 0;
    ghost var footprint := set n | n in list.Nodes;
    WalkStarts(list, iter, order, drops, footprint);
    while true
      invariant Halfway(list, iter, order, drops, footprint, k, q) && fresh(iter) && iter.direction == direction
      invariant k <= |order| && visited == order[..k]
      invariant forall i :: 0 <= i < |order| ==> order[i] in footprint && drop(order[i].value) == drops[i]
      decreases |order| - k
    {
      var node, dropped := Turn(list, iter, drop, order, drops, footprint, k, q);
      if node == null {
        break;
      }
      visited := visited + [node];
      k := k + 1;
      q := if dropped then q else q + 1;
    }
    WalkEnds(list, iter, order, drops, footprint, q);
  }

  lemma WalkStarts<V>(list: LinkedList<V>, iter: ListIter<V>, order: seq<ListNode<V>>, drops: seq<bool>,
                          footprint: set<ListNode<V>>)
    requires list.Valid() && iter.Stands(list.Nodes, iter.direction, 0) && order == InOrder(list.Nodes, iter.direction)
    requires |drops| == |order| && forall n :: n in list.Nodes ==> n in footprint
    ensures Halfway(list, iter, order, drops, footprint, 0, 0)
  {
    hide Chained, Kept, InOrder;
    assert [] + Kept(order, drops) == Kept(order, drops) && order[0..] == order && drops[0..] == drops;
  }

  lemma WalkEnds<V>(list: LinkedList<V>, iter: ListIter<V>, order: seq<ListNode<V>>, drops: seq<bool>,
                        footprint: set<ListNode<V>>, q: nat)
    requires Halfway(list, iter, order, drops, footprint, |order|, q)
    ensures list.Valid() && InOrder(list.Nodes, iter.direction) == Kept(order, drops)
  {
    hide Chained, Kept, InOrder;
    var now := InOrder(list.Nodes, iter.direction);
    KeptNothing(order[|order|..], drops[|order|..]);
    assert |now[q..]| == 0;
    assert now[..q] == now && now + [] == now;
  }
}

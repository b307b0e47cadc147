/** The doubly linked list with exposed nodes. `nodes` is the list as a sequence of
    node objects: the operations are stated on it, so that node handles kept by
    callers stay meaningful. */
module Adlist {
  import opened Basics

  class ListNode<T> {
    var prev: ListNode?<T>
    var next: ListNode?<T>
    const value: T

    constructor (v: T)
      ensures value == v && prev == null && next == null
    {
      value := v;
      prev, next := null, null;
    }
  }

  function At<T>(nodes: seq<ListNode<T>>, i: int): ListNode?<T> {
    if 0 <= i < |nodes| then nodes[i] else null
  }

  /** Each node points to the next and back. */
  ghost predicate Chain<T>(nodes: seq<ListNode<T>>)
    reads nodes
  {
    forall i, j :: 0 <= i < |nodes| && 0 <= j < |nodes| && j == i + 1 ==>
      nodes[i].next == nodes[j] && nodes[j].prev == nodes[i]
  }

  ghost predicate Linked<T>(nodes: seq<ListNode<T>>)
    reads nodes
  {
    (nodes != [] ==> nodes[0].prev == null && nodes[|nodes| - 1].next == null) && Chain(nodes)
  }

  lemma ChainConcat<T>(a: seq<ListNode<T>>, b: seq<ListNode<T>>)
    requires Chain(a) && Chain(b)
    requires a != [] && b != [] ==> a[|a| - 1].next == b[0] && b[0].prev == a[|a| - 1]
    ensures Chain(a + b)
  {
  }

  lemma ChainPart<T>(s: seq<ListNode<T>>, i: nat, j: nat)
    requires Chain(s) && i <= j <= |s|
    ensures Chain(s[i..j])
  {
  }

  /** Distinct parts make a distinct whole. */
  lemma DistinctConcat<T>(a: seq<T>, b: seq<T>)
    requires Distinct(a) && Distinct(b) && forall i, j :: 0 <= i < |a| && 0 <= j < |b| ==> a[i] != b[j]
    ensures Distinct(a + b)
  {
  }

  predicate Distinct<T(==)>(nodes: seq<T>) {
    forall i, j :: 0 <= i < j < |nodes| ==> nodes[i] != nodes[j]
  }

  function Values<T>(nodes: seq<ListNode<T>>): (r: seq<T>)
    ensures |r| == |nodes|
  {
    seq(|nodes|, i requires 0 <= i < |nodes| => nodes[i].value)
  }

  /** The first element becomes the last. */
  function Turned<T>(s: seq<T>): seq<T> {
    if |s| <= 1 then s else s[1..] + [s[0]]
  }

  /** The sequence without its element `k`. */
  function Without<T>(s: seq<T>, k: nat): seq<T>
    requires k < |s|
  {
    s[..k] + s[k + 1..]
  }

  /** The ends of what is before `p` and of what is from `q` on. */
  lemma AtParts<T>(s: seq<ListNode<T>>, p: nat, q: nat)
    requires p <= q <= |s|
    ensures At(s[..p], p - 1) == At(s, p - 1) && At(s[q..], 0) == At(s, q)
    ensures p > 0 ==> At(s[..p], 0) == At(s, 0)
    ensures q < |s| ==> At(s[q..], |s| - q - 1) == At(s, |s| - 1)
    ensures At(s, -1) == null && At(s, |s|) == null
    ensures At(s, p - 1) == null <==> p == 0
    ensures At(s, q) == null <==> q == |s|
  {
  }

  lemma Neighbours<T>(nodes: seq<ListNode<T>>, k: nat)
    requires Linked(nodes) && k < |nodes|
    ensures nodes[k].prev == At(nodes, k - 1) && nodes[k].next == At(nodes, k + 1)
  {
    assert k > 0 ==> nodes[k - 1] == nodes[k - 1];
    assert k + 1 < |nodes| ==> nodes[k + 1] == nodes[k + 1];
  }

  lemma NoNodes<T>()
    ensures Linked<T>([]) && Distinct<ListNode<T>>([]) && Owned<T>([], {}) && At<T>([], 0) == At<T>([], -1) == null
  {
  }

  lemma Parts<T>(s: seq<ListNode<T>>)
    requires Linked(s)
    ensures Chain(s) && (s != [] ==> s[0].prev == null && s[|s| - 1].next == null)
  {
  }

  /** A list cut in two. */
  lemma Cut<T>(s: seq<ListNode<T>>, p: nat)
    requires Linked(s) && p <= |s|
    ensures Chain(s[..p]) && Chain(s[p..])
    ensures p > 0 ==> s[..p][0].prev == null
    ensures p < |s| ==> s[p..][|s| - p - 1].next == null
  {
    assert s[0..p] == s[..p] && s[p..|s|] == s[p..];
    ChainPart(s, 0, p);
    ChainPart(s, p, |s|);
  }

  lemma OneMore<T>(s: seq<T>, p: nat, x: T)
    requires Distinct(s) && x !in s && p <= |s|
    ensures Distinct(s[..p] + [x] + s[p..]) && Distinct(s[..p] + [x])
    ensures Without(s[..p] + [x] + s[p..], p) == s
  {
    var t := s[..p] + [x] + s[p..];
    assert forall i :: 0 <= i < |t| && i != p ==> t[i] == s[if i < p then i else i - 1];
    assert forall i :: 0 <= i <= p ==> (s[..p] + [x])[i] == t[i];
  }

  lemma OneLess<T>(s: seq<T>, k: nat)
    requires Distinct(s) && k < |s|
    ensures Distinct(s[..k] + s[k + 1..])
  {
    var t := s[..k] + s[k + 1..];
    assert forall i :: 0 <= i < |t| ==> t[i] == s[if i < k then i else i + 1];
  }

  /** The nodes that meet are no others of the two parts. */
  lemma Separate<T>(a: seq<ListNode<T>>, b: seq<ListNode<T>>)
    requires Distinct(a + b)
    ensures forall i :: 0 <= i < |a| - 1 ==> a[i] != a[|a| - 1]
    ensures forall j :: 0 < j < |b| ==> b[j] != b[0]
    ensures b != [] ==> forall i :: 0 <= i < |a| ==> a[i] != b[0]
    ensures a != [] ==> forall j :: 0 <= j < |b| ==> b[j] != a[|a| - 1]
  {
    assert forall i :: 0 <= i < |a| ==> a[i] == (a + b)[i];
    assert forall j :: 0 <= j < |b| ==> b[j] == (a + b)[|a| + j];
  }

  /** Makes `left` and `right` neighbours: the chain ending in one is followed by the
      chain starting with the other. */
  method LinkUp<T>(left: ListNode?<T>, right: ListNode?<T>, ghost a: seq<ListNode<T>>, ghost b: seq<ListNode<T>>)
    requires left == At(a, |a| - 1) && right == At(b, 0) && Chain(a) && Chain(b) && Distinct(a + b)
    requires a != [] ==> a[0].prev == null
    requires b != [] ==> b[|b| - 1].next == null
    modifies (if left != null then {left} else {}), (if right != null then {right} else {})
    ensures Linked(a + b)
  {
    Separate(a, b);
    hide Distinct;
    if left != null {
      left.next := right;
    }
    if right != null {
      right.prev := left;
    }
    ChainConcat(a, b);
  }

  /** A single node between two chains. */
  method LinkIn<T>(left: ListNode?<T>, node: ListNode<T>, right: ListNode?<T>, ghost a: seq<ListNode<T>>, ghost b: seq<ListNode<T>>)
    requires left == At(a, |a| - 1) && right == At(b, 0) && node.next == null && Chain(a) && Chain(b)
    requires Distinct(a + [node] + b) && Distinct(a + [node])
    requires a != [] ==> a[0].prev == null
    requires b != [] ==> b[|b| - 1].next == null
    modifies (if left != null then {left} else {}), node, (if right != null then {right} else {})
    ensures Linked(a + [node] + b)
  {
    hide Chain, Distinct;
    Single(node);
    Apart(a, node, b);
    LinkUp(left, node, a, [node]);
    LinkUp(node, right, a + [node], b);
  }

  lemma Apart<T>(a: seq<T>, x: T, b: seq<T>)
    requires Distinct(a + [x] + b)
    ensures x !in b && (a != [] ==> a[|a| - 1] !in b)
  {
    var t := a + [x] + b;
    assert t[|a|] == x;
    assert forall j :: 0 <= j < |b| ==> b[j] == t[|a| + 1 + j];
    if a != [] {
      assert t[|a| - 1] == a[|a| - 1];
    }
  }

  lemma Single<T>(node: ListNode<T>)
    ensures Chain([node])
  {
  }

  ghost predicate Owned<T>(nodes: seq<ListNode<T>>, repr: set<ListNode<T>>) {
    forall i :: 0 <= i < |nodes| ==> nodes[i] in repr
  }

  lemma OwnedParts<T>(s: seq<ListNode<T>>, repr: set<ListNode<T>>, p: nat)
    requires Owned(s, repr) && p <= |s|
    ensures Owned(s[..p], repr) && Owned(s[p..], repr)
    ensures p > 0 ==> s[p - 1] in repr
    ensures p < |s| ==> s[p] in repr
  {
  }

  /** Nodes of two owners belong to whoever owns both. */
  lemma OwnedConcat<T>(a: seq<ListNode<T>>, b: seq<ListNode<T>>, ra: set<ListNode<T>>, rb: set<ListNode<T>>, repr: set<ListNode<T>>)
    requires Owned(a, ra) && Owned(b, rb) && ra <= repr && rb <= repr
    ensures Owned(a + b, repr)
  {
  }

  lemma OwnedApart<T>(a: seq<ListNode<T>>, b: seq<ListNode<T>>, ra: set<ListNode<T>>, rb: set<ListNode<T>>)
    requires Owned(a, ra) && Owned(b, rb) && ra !! rb
    ensures forall i, j :: 0 <= i < |a| && 0 <= j < |b| ==> a[i] != b[j]
  {
  }

  /** The ends of a list made of two parts, and who owns the nodes where they meet. */
  lemma EndsOfConcat<T>(a: seq<ListNode<T>>, b: seq<ListNode<T>>, ra: set<ListNode<T>>, rb: set<ListNode<T>>)
    requires Owned(a, ra) && Owned(b, rb)
    ensures At(a + b, 0) == (if At(a, |a| - 1) == null then At(b, 0) else At(a, 0))
    ensures At(a + b, |a + b| - 1) == (if At(b, 0) == null then At(a, |a| - 1) else At(b, |b| - 1))
    ensures At(b, 0) == null <==> At(b, |b| - 1) == null
    ensures At(a, |a| - 1) != null ==> At(a, |a| - 1) in ra
    ensures At(b, 0) != null ==> At(b, 0) in rb
  {
  }

  lemma OwnedEnds<T>(a: seq<ListNode<T>>, b: seq<ListNode<T>>, repr: set<ListNode<T>>)
    requires Owned(a, repr) && Owned(b, repr)
    ensures At(a, |a| - 1) != null ==> At(a, |a| - 1) in repr
    ensures At(b, 0) != null ==> At(b, 0) in repr
  {
  }

  lemma AtIs<T>(s: seq<ListNode<T>>, k: nat)
    requires k < |s|
    ensures At(s, k) == s[k]
  {
  }

  lemma EndsOfInsert<T>(a: seq<ListNode<T>>, x: ListNode<T>, b: seq<ListNode<T>>)
    ensures At(a + [x] + b, 0) == (if At(a, |a| - 1) == null then x else At(a, 0))
    ensures At(a + [x] + b, |a + [x] + b| - 1) == (if At(b, 0) == null then x else At(b, |b| - 1))
  {
  }

  lemma NotOwned<T>(s: seq<ListNode<T>>, repr: set<ListNode<T>>, x: ListNode<T>)
    requires Owned(s, repr) && x !in repr
    ensures x !in s
  {
  }

  lemma OwnedOne<T>(x: ListNode<T>)
    ensures Owned([x], {x})
  {
  }

  class List<T> {
    var head: ListNode?<T>
    var tail: ListNode?<T>
    var len: nat
    ghost var nodes: seq<ListNode<T>>
    ghost var repr: set<ListNode<T>>     // the nodes the list has or had

    ghost predicate Valid()
      reads this, repr
    {
      && Owned(nodes, repr)
      && head == At(nodes, 0) && tail == At(nodes, |nodes| - 1) && len == |nodes|
      && Distinct(nodes) && Linked(nodes)
    }

    lemma Ends()
      requires Valid()
      ensures head == At(nodes, 0) && tail == At(nodes, |nodes| - 1) && len == |nodes|
    {
    }

    constructor ()
      ensures Valid() && nodes == [] && repr == {}
    {
      head, tail, len, nodes, repr := null, null, 0, [], {};
    }

    method AddNodeHead(value: T)
      requires Valid()
      modifies this, repr
      ensures Valid() && head != null && nodes == [head] + old(nodes)
      ensures fresh(head) && head.value == value && repr == old(repr) + {head}
    {
      var node := new ListNode(value);
      if len == 0 {
        head, tail := node, node;
      } else {
        node.next := head;
        head.prev := node;
        head := node;
      }
      len := len + 1;
      nodes, repr := [node] + nodes, repr + {node};
    }

    method AddNodeTail(value: T)
      requires Valid()
      modifies this, repr
      ensures Valid() && tail != null && nodes == old(nodes) + [tail]
      ensures fresh(tail) && tail.value == value && repr == old(repr) + {tail}
    {
      var node := new ListNode(value);
      if len == 0 {
        head, tail := node, node;
      } else {
        node.prev := tail;
        tail.next := node;
        tail := node;
      }
      len := len + 1;
      nodes, repr := nodes + [node], repr + {node};
    }

    /** A new node before or after the `k`-th. */
    method InsertNode(at: ListNode<T>, value: T, after: bool, ghost k: nat)
      requires Valid() && k < |nodes| && nodes[k] == at
      modifies this, repr
      ensures Valid() && |nodes| == old(|nodes|) + 1
      ensures var p := if after then k + 1 else k;
              fresh(nodes[p]) && nodes[p].value == value && Without(nodes, p) == old(nodes) && repr == old(repr) + {nodes[p]}
    {
      hide Linked, Distinct, Chain, Without, Owned, At;
      Neighbours(nodes, k);
      ghost var p := if after then k + 1 else k;
      ghost var a, b := nodes[..p], nodes[p..];
      Cut(nodes, p);
      OwnedParts(nodes, repr, p);
      OwnedEnds(a, b, repr);
      AtParts(nodes, p, p);
      AtIs(nodes, k);
      var node := new ListNode(value);
      var left := if after then at else at.prev;
      var right := if after then at.next else at;
      EndsOfInsert(a, node, b);
      if left == null {
        head := node;
      }
      if right == null {
        tail := node;
      }
      assert node !in repr;
      NotOwned(nodes, repr, node);
      OneMore(nodes, p, node);
      OwnedOne(node);
      OwnedConcat(a, [node], repr, {node}, repr + {node});
      OwnedConcat(a + [node], b, repr + {node}, repr, repr + {node});
      len := len + 1;
      nodes, repr := a + [node] + b, repr + {node};
      LinkIn(left, node, right, a, b);
    }

    /** Removes the very node given; all others stay, in order. */
    method DelNode(node: ListNode<T>, ghost k: nat)
      requires Valid() && k < |nodes| && nodes[k] == node
      modifies this, repr
      ensures Valid() && nodes == Without(old(nodes), k) && repr == old(repr)
    {
      hide Linked, Distinct, Chain, Owned, At;
      Neighbours(nodes, k);
      ghost var a, b := nodes[..k], nodes[k + 1..];
      AtParts(nodes, k, k + 1);
      Cut(nodes, k);
      Cut(nodes, k + 1);
      OwnedParts(nodes, repr, k);
      OwnedParts(nodes, repr, k + 1);
      OwnedConcat(a, b, repr, repr, repr);
      EndsOfConcat(a, b, repr, repr);
      var left, right := node.prev, node.next;
      OneLess(nodes, k);
      if left == null {
        head := right;
      }
      if right == null {
        tail := left;
      }
      len := len - 1;
      nodes := a + b;
      LinkUp(left, right, a, b);
    }

    /** Head becomes tail: the same nodes, one place on. */
    method RotateHeadToTail()
      requires Valid()
      modifies this, repr
      ensures Valid() && repr == old(repr)
      ensures nodes == Turned(old(nodes))
    {
      if len <= 1 { return; }
      Neighbours(nodes, 0);
      var first := head;
      head := first.next;
      head.prev := null;
      tail.next := first;
      first.next := null;
      first.prev := tail;
      tail := first;
      nodes := nodes[1..] + [nodes[0]];
    }

    method RotateTailToHead()
      requires Valid()
      modifies this, repr
      ensures Valid() && repr == old(repr)
      ensures nodes == if |old(nodes)| <= 1 then old(nodes)
                       else [old(nodes)[|old(nodes)| - 1]] + old(nodes)[..|old(nodes)| - 1]
    {
      if len <= 1 { return; }
      Neighbours(nodes, |nodes| - 1);
      var last := tail;
      tail := last.prev;
      tail.next := null;
      head.prev := last;
      last.prev := null;
      last.next := head;
      head := last;
      ghost var n := |nodes| - 1;
      nodes := [nodes[n]] + nodes[..n];
    }

    /** The fields of two lists whose nodes were joined. */
    method TakeOver(o: List<T>)
      requires o != this
      modifies this, o
      ensures head == (if old(tail) == null then old(o.head) else old(head))
      ensures tail == (if old(o.tail) == null then old(tail) else old(o.tail))
      ensures len == old(len) + old(o.len) && nodes == old(nodes) + old(o.nodes) && repr == old(repr) + old(o.repr)
      ensures o.head == o.tail == null && o.len == 0 && o.nodes == [] && o.repr == {}
    {
      if tail == null {
        head := o.head;
      }
      if o.tail != null {
        tail := o.tail;
      }
      len := len + o.len;
      nodes, repr := nodes + o.nodes, repr + o.repr;
      o.head, o.tail, o.len, o.nodes, o.repr := null, null, 0, [], {};
    }

    /** Appends the nodes of `o`, which is left empty. */
    method Join(o: List<T>)
      requires Valid() && o.Valid() && o != this
      requires repr !! o.repr
      modifies this, repr, o, o.repr
      ensures Valid() && nodes == old(nodes) + old(o.nodes) && repr == old(repr) + old(o.repr)
      ensures o.Valid() && o.nodes == [] && o.repr == {}
    {
      hide Linked, Distinct, Chain, Owned, At;
      ghost var a, b := nodes, o.nodes;
      EndsOfConcat(a, b, repr, o.repr);
      OwnedConcat(a, b, repr, o.repr, repr + o.repr);
      OwnedApart(a, b, repr, o.repr);
      Parts(a);
      Parts(b);
      DistinctConcat(a, b);
      LinkUp(tail, o.head, a, b);
      TakeOver(o);
      NoNodes<T>();
    }

    /** Zero-based from the head; negative from the tail, -1 being the last. */
    method Index(index: int) returns (n: ListNode?<T>)
      requires Valid()
      ensures n == At(nodes, if index < 0 then |nodes| + index else index)
    {
      var left := if index < 0 then -index - 1 else index;
      ghost var at := if index < 0 then |nodes| - 1 else 0;
      n := if index < 0 then tail else head;
      while left != 0 && n != null
        invariant left >= 0 && -1 <= at <= |nodes| && n == At(nodes, at)
        invariant n != null || left == 0 ==> at == if index < 0 then |nodes| + index + left else index - left
        invariant n == null && left > 0 ==> !(0 <= (if index < 0 then |nodes| + index else index) < |nodes|)
        decreases left
      {
        left := left - 1;
        n := if index < 0 then n.prev else n.next;
        at := if index < 0 then at - 1 else at + 1;
      }
    }

    /** The first node that matches, or none. */
    method SearchKey(matches: T -> bool) returns (n: ListNode?<T>)
      requires Valid()
      ensures n == null ==> forall i :: 0 <= i < |nodes| ==> !matches(nodes[i].value)
      ensures n != null ==> exists i :: 0 <= i < |nodes| && nodes[i] == n && matches(n.value)
                                        && forall j :: 0 <= j < i ==> !matches(nodes[j].value)
    {
      n := head;
      ghost var at := 0;
      while n != null
        invariant 0 <= at <= |nodes| && n == At(nodes, at)
        invariant forall j :: 0 <= j < at ==> !matches(nodes[j].value)
        decreases |nodes| - at
      {
        if matches(n.value) { return; }
        n := n.next;
        at := at + 1;
      }
    }

    /** A new list with new nodes for copies of the values, or none if a value cannot be
        copied. A list without a copying method shares its values. */
    method Dup(dup: T -> Option<T>) returns (copy: List?<T>)
      requires Valid()
      ensures copy == null <==> exists i :: 0 <= i < |nodes| && dup(nodes[i].value).None?
      ensures copy != null ==> fresh(copy) && fresh(copy.repr) && copy.Valid() && |copy.nodes| == |nodes|
      ensures copy != null ==> forall i :: 0 <= i < |nodes| ==> Some(copy.nodes[i].value) == dup(nodes[i].value)
    {
      hide Linked, Distinct;
      var l := new List();
      var n := head;
      ghost var at := 0;
      while n != null
        invariant 0 <= at <= |nodes| && n == At(nodes, at) && l.Valid() && fresh(l) && fresh(l.repr)
        invariant Valid() && nodes == old(nodes)
        invariant |l.nodes| == at && forall i :: 0 <= i < at ==> Some(l.nodes[i].value) == dup(nodes[i].value)
        decreases |nodes| - at
      {
        Neighbours(nodes, at);
        var value := dup(n.value);
        if value.None? {
          return null;
        }
        l.AddNodeTail(value.value);
        n := n.next;
        at := at + 1;
      }
      copy := l;
    }

    /** All nodes gone. */
    method Empty()
      requires Valid()
      modifies this
      ensures Valid() && nodes == []
    {
      head, tail, len, nodes := null, null, 0, [];
    }
  }

  /** The iterator keeps the next node, so the node just returned may be deleted. */
  class Iterator<T> {
    var next: ListNode?<T>
    const fromHead: bool

    /** Positioned before the `p`-th node from its own end. */
    ghost predicate Before(l: List<T>, p: nat)
      reads this, l
    {
      p <= |l.nodes| && next == At(l.nodes, if fromHead then p else |l.nodes| - 1 - p)
    }

    constructor (l: List<T>, fromHead: bool)
      requires l.Valid()
      ensures this.fromHead == fromHead && Before(l, 0)
    {
      next := if fromHead then l.head else l.tail;
      this.fromHead := fromHead;
    }

    method Next(l: List<T>, ghost p: nat) returns (n: ListNode?<T>)
      requires l.Valid() && Before(l, p)
      modifies this
      ensures n == null <==> p == |l.nodes|
      ensures n != null ==> n == At(l.nodes, if fromHead then p else |l.nodes| - 1 - p) && Before(l, p + 1)
    {
      n := next;
      if n != null {
        next := if fromHead then n.next else n.prev;
      }
    }

    /** Deleting the node just returned leaves the iterator where it was: the nodes
        still to come are the same. */
    method DelReturned(l: List<T>, n: ListNode<T>, ghost p: nat)
      requires l.Valid() && 0 < p && Before(l, p) && n == At(l.nodes, if fromHead then p - 1 else |l.nodes| - p)
      modifies l, l.repr
      ensures l.Valid() && Before(l, p - 1)
      ensures l.nodes == Without(old(l.nodes), if fromHead then p - 1 else |old(l.nodes)| - p)
    {
      l.DelNode(n, if fromHead then p - 1 else |l.nodes| - p);
    }
  }
}

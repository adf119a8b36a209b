/** The singly linked list that holds options, pending connections and more. */
module CoapList {
  import opened Basics

  /** What `strncmp(a, b, n) == 0` means for two C strings. */
  predicate Match(a: seq<byte>, b: seq<byte>, n: nat) {
    Cut(a, n) == Cut(b, n)
  }

  function Cut(s: seq<byte>, n: nat): seq<byte> {
    if |s| <= n then s else s[..n]
  }

  datatype Item<D> = Item(key: seq<byte>, data: D)

  /** The first item at or after `from` whose key matches. */
  function FirstMatch<D>(items: seq<Item<D>>, key: seq<byte>, n: nat, from: nat): (k: nat)
    requires from <= |items|
    ensures from <= k <= |items|
    ensures k < |items| ==> Match(items[k].key, key, n)
    decreases |items| - from
  {
    if from < |items| && !Match(items[from].key, key, n) then FirstMatch(items, key, n, from + 1) else from
  }

  function Found<D>(items: seq<Item<D>>, key: seq<byte>, n: nat): Option<D> {
    var k := FirstMatch(items, key, n, 0);
    if k < |items| then Some(items[k].data) else None
  }

  function Without<D>(items: seq<Item<D>>, k: nat): seq<Item<D>>
    requires k < |items|
  {
    items[..k] + items[k + 1..]
  }

  function Deleted<D>(items: seq<Item<D>>, key: seq<byte>, n: nat): seq<Item<D>> {
    var k := FirstMatch(items, key, n, 0);
    if k < |items| then Without(items, k) else items
  }

  /** Where a new item goes: before the first one only if it sorts below it; otherwise past every
    * item from the second on that it does not sort below. Without an order it always goes second.
    */
  function Place<D>(items: seq<Item<D>>, data: D, ordered: bool, order: (D, D) -> int): (k: nat)
    ensures k <= |items|
  {
    if |items| == 0 then 0
    else if ordered && order(data, items[0].data) < 0 then 0
    else Pass(items, data, ordered, order, 1)
  }

  function Pass<D>(items: seq<Item<D>>, data: D, ordered: bool, order: (D, D) -> int, from: nat): (k: nat)
    requires from <= |items|
    ensures from <= k <= |items|
    decreases |items| - from
  {
    if from < |items| && ordered && order(data, items[from].data) >= 0
    then Pass(items, data, ordered, order, from + 1) else from
  }

  function Inserted<D>(items: seq<Item<D>>, x: Item<D>, ordered: bool, order: (D, D) -> int): seq<Item<D>> {
    var k := Place(items, x.data, ordered, order);
    items[..k] + [x] + items[k..]
  }

  /** In a list without an order a new item does not go to the end, but in second place. */
  lemma UnorderedGoesSecond<D>(items: seq<Item<D>>, x: Item<D>, order: (D, D) -> int)
    ensures Inserted(items, x, false, order) == if items == [] then [x] else [items[0], x] + items[1..]
  {
    if items != [] {
      assert items[..1] == [items[0]];
    }
  }

  class Node<D> {
    var next: Node?<D>
    const key: seq<byte>
    const data: D

    constructor (key: seq<byte>, data: D)
      ensures this.key == key && this.data == data && next == null
    {
      this.key, this.data, next := key, data, null;
    }
  }

  ghost function At<D>(nodes: seq<Node<D>>, k: nat): Node?<D> {
    if k < |nodes| then nodes[k] else null
  }

  ghost function Items<D>(nodes: seq<Node<D>>): (items: seq<Item<D>>)
    ensures |items| == |nodes|
    ensures forall i :: 0 <= i < |nodes| ==> items[i] == Item(nodes[i].key, nodes[i].data)
  {
    seq(|nodes|, i requires 0 <= i < |nodes| => Item(nodes[i].key, nodes[i].data))
  }

  ghost predicate Distinct<D>(nodes: seq<Node<D>>) {
    forall i, j :: 0 <= i < j < |nodes| ==> nodes[i] != nodes[j]
  }

  /** Every node points to the one after it, and the last to nothing. */
  ghost predicate Chained<D>(nodes: seq<Node<D>>)
    reads nodes
  {
    forall i :: 0 <= i < |nodes| ==> nodes[i].next == At(nodes, i + 1)
  }

  // The sequence of nodes with one put in, or one taken out, at place `k`.
  ghost function Holding<D>(nodes: seq<Node<D>>, k: nat, node: Node<D>): (now: seq<Node<D>>)
    requires k <= |nodes|
    ensures |now| == |nodes| + 1
  {
    nodes[..k] + [node] + nodes[k..]
  }

  ghost function Skipping<D>(nodes: seq<Node<D>>, k: nat): (now: seq<Node<D>>)
    requires k < |nodes|
    ensures |now| == |nodes| - 1
  {
    nodes[..k] + nodes[k + 1..]
  }

  lemma HoldingAt<D>(nodes: seq<Node<D>>, k: nat, node: Node<D>, i: nat)
    requires k <= |nodes| && i <= |nodes|
    ensures Holding(nodes, k, node)[i] == if i < k then nodes[i] else if i == k then node else nodes[i - 1]
  {
  }

  lemma HoldingNext<D>(nodes: seq<Node<D>>, k: nat, node: Node<D>, i: nat)
    requires k <= |nodes| && i <= |nodes|
    ensures At(Holding(nodes, k, node), i + 1) ==
      if i + 1 < k then nodes[i + 1] else if i + 1 == k then node else At(nodes, i)
  {
  }

  lemma SkippingAt<D>(nodes: seq<Node<D>>, k: nat, i: nat)
    requires k < |nodes| && i < |nodes| - 1
    ensures Skipping(nodes, k)[i] == if i < k then nodes[i] else nodes[i + 1]
  {
  }

  lemma SkippingLater<D>(nodes: seq<Node<D>>, k: nat, i: nat)
    requires k < |nodes|
    ensures k != i ==> At(Skipping(nodes, k), if k < i then i - 1 else i) == At(nodes, i)
  {
  }

  lemma Apart<D>(nodes: seq<Node<D>>, i: nat, j: nat)
    requires Distinct(nodes) && i < |nodes| && j < |nodes| && i != j
    ensures nodes[i] != nodes[j]
  {
  }

  lemma HoldingDistinct<D>(nodes: seq<Node<D>>, k: nat, node: Node<D>)
    requires k <= |nodes| && Distinct(nodes) && node !in nodes
    ensures Distinct(Holding(nodes, k, node))
    ensures Items(Holding(nodes, k, node)) == Items(nodes)[..k] + [Item(node.key, node.data)] + Items(nodes)[k..]
    ensures var now := Holding(nodes, k, node); forall i :: 0 <= i < |now| ==> now[i] == node || now[i] in nodes
  {
  }

  lemma SkippingDistinct<D>(nodes: seq<Node<D>>, k: nat)
    requires k < |nodes| && Distinct(nodes)
    ensures Distinct(Skipping(nodes, k))
    ensures Items(Skipping(nodes, k)) == Without(Items(nodes), k)
    ensures var now := Skipping(nodes, k); forall i :: 0 <= i < |now| ==> now[i] in nodes
  {
  }

  class List<D> {
    var first: Node?<D>
    var current: Node?<D>
    var upcoming: Node?<D>
    const ordered: bool
    const order: (D, D) -> int
    /** The nodes in order, and the place among them where the iterator will go on. */
    ghost var nodes: seq<Node<D>>
    ghost var position: nat

    ghost predicate Valid()
      reads this, nodes
    {
      first == At(nodes, 0) && Distinct(nodes) && Chained(nodes)
    }

    ghost function Contents(): seq<Item<D>>
      reads this
    {
      Items(nodes)
    }

    /** The iterator's prefetched node is still in the list. */
    ghost predicate Iterating()
      reads this
    {
      position <= |nodes| && upcoming == At(nodes, position)
    }

    constructor (ordered: bool, order: (D, D) -> int)
      ensures Valid() && Contents() == [] && nodes == []
      ensures this.ordered == ordered && this.order == order
    {
      first, current, upcoming := null, null, null;
      this.ordered, this.order := ordered, order;
      nodes, position := [], 0;
    }

    /** `coap_list_node_insert` */
    method Insert(key: seq<byte>, data: D)
      requires Valid()
      modifies this`first, this`nodes, nodes
      ensures Valid()
      ensures Contents() == Inserted(old(Contents()), Item(key, data), ordered, order)
      ensures forall i :: 0 <= i < |nodes| ==> nodes[i] in old(nodes) || fresh(nodes[i])
    {
      hide Valid, Distinct, Chained, Items, Place;
      var node := new Node(key, data);
      Grown(node);
      var p, k := FindPlace(node);
      Link(p, node, k);
    }

    lemma Grown(node: Node<D>)
      requires node !in nodes && Valid()
      ensures |Items(nodes)| == |nodes|
    {
    }

    /** The tests and the loop that look for the node to insert after. */
    method FindPlace(node: Node<D>) returns (p: Node?<D>, ghost k: nat)
      requires Valid()
      ensures k == Place(Contents(), node.data, ordered, order)
      ensures if k == 0 then p == null else k <= |nodes| && p == nodes[k - 1]
    {
      hide Distinct;
      ghost var items := Contents();
      if first == null {
        return null, 0;
      }
      var q := first;
      if ordered && order(node.data, q.data) < 0 {
        return null, 0;
      }
      p := q;
      q := q.next;
      k := 1;
      while q != null && ordered && order(node.data, q.data) >= 0
        invariant 1 <= k <= |nodes| && p == nodes[k - 1] && q == At(nodes, k)
        invariant Pass(items, node.data, ordered, order, 1) == Pass(items, node.data, ordered, order, k)
        decreases |nodes| - k
      {
        p := q;
        q := q.next;
        k := k + 1;
      }
    }

    /** `node` is spliced in after `p`, or at the front. */
    method Link(p: Node?<D>, node: Node<D>, ghost k: nat)
      requires Valid() && node !in nodes && k <= |nodes|
      requires if k == 0 then p == null else p == nodes[k - 1]
      modifies this`first, this`nodes, nodes, node
      ensures Valid()
      ensures Contents() == old(Contents())[..k] + [Item(node.key, node.data)] + old(Contents())[k..]
      ensures forall i :: 0 <= i < |nodes| ==> nodes[i] == node || nodes[i] in old(nodes)
    {
      hide Distinct, Items, Holding, Chained;
      HoldingDistinct(nodes, k, node);
      Relink(p, node, k);
    }

    method Relink(p: Node?<D>, node: Node<D>, ghost k: nat)
      requires Valid() && node !in nodes && k <= |nodes|
      requires if k == 0 then p == null else p == nodes[k - 1]
      modifies this`first, this`nodes, nodes, node
      ensures nodes == Holding(old(nodes), k, node) && first == At(nodes, 0) && Chained(nodes)
    {
      hide Distinct, Items, Holding;
      ghost var was := nodes;
      if p == null {
        node.next := first;
        first := node;
      } else {
        node.next := p.next;
        p.next := node;
      }
      nodes := Holding(nodes, k, node);
      forall i | 0 <= i < |nodes|
        ensures nodes[i].next == At(nodes, i + 1)
      {
        HoldingAt(was, k, node, i);
        HoldingNext(was, k, node, i);
        if i < k - 1 {
          Apart(was, i, k - 1);
        } else if i > k > 0 {
          Apart(was, i - 1, k - 1);
        }
      }
      HoldingAt(was, k, node, 0);
    }

    /** `coap_list_node_get`, with somewhere to put the result. */
    method Get(key: seq<byte>, n: nat) returns (r: Option<D>)
      requires Valid()
      ensures r == Found(Contents(), key, n)
    {
      ghost var k := 0;
      var p := first;
      while p != null
        invariant k <= |nodes| && p == At(nodes, k)
        invariant FirstMatch(Contents(), key, n, 0) == FirstMatch(Contents(), key, n, k)
        decreases |nodes| - k
      {
        if Match(p.key, key, n) {
          return Some(p.data);
        }
        p := p.next;
        k := k + 1;
      }
      return None;
    }

    /** `coap_list_node_delete`. The iterator survives unless its prefetched node is the one deleted. */
    method Delete(key: seq<byte>, n: nat) returns (ok: bool)
      requires Valid()
      modifies this`first, this`nodes, this`position, nodes
      ensures Valid()
      ensures var k := FirstMatch(old(Contents()), key, n, 0);
        && ok == (k < |old(nodes)|)
        && nodes == (if ok then Skipping(old(nodes), k) else old(nodes))
        && (old(Iterating()) && k != old(position) ==>
              Iterating() && position == old(position) - (if k < old(position) then 1 else 0))
      ensures Contents() == Deleted(old(Contents()), key, n)
      ensures forall i :: 0 <= i < |nodes| ==> nodes[i] in old(nodes)
    {
      hide Distinct, Skipping, Match;
      if first == null {
        return false;
      }
      var q := first;
      if Match(q.key, key, n) {
        Unlink(null, q, 0);
        return true;
      }
      ghost var k := 1;
      var p := q.next;
      while p != null
        invariant 1 <= k <= |nodes| && p == At(nodes, k) && q == nodes[k - 1]
        invariant FirstMatch(Contents(), key, n, 0) == FirstMatch(Contents(), key, n, k)
        decreases |nodes| - k
      {
        if Match(p.key, key, n) {
          Unlink(q, p, k);
          return true;
        }
        q := p;
        p := p.next;
        k := k + 1;
      }
      return false;
    }

    /** `p`, which comes after `q`, is taken out of the list. */
    method Unlink(q: Node?<D>, p: Node<D>, ghost k: nat)
      requires Valid() && k < |nodes| && p == nodes[k]
      requires if k == 0 then q == null else q == nodes[k - 1]
      modifies this`first, this`nodes, this`position, nodes
      ensures Valid() && nodes == Skipping(old(nodes), k) && Contents() == Without(old(Contents()), k)
      ensures forall i :: 0 <= i < |nodes| ==> nodes[i] in old(nodes)
      ensures old(Iterating()) && k != old(position) ==>
        Iterating() && position == old(position) - (if k < old(position) then 1 else 0)
    {
      hide Distinct, Items, Skipping, Chained;
      SkippingDistinct(nodes, k);
      SkippingLater(nodes, k, position);
      Bypass(q, p, k);
      if k < position {
        position := position - 1;
      }
    }

    method Bypass(q: Node?<D>, p: Node<D>, ghost k: nat)
      requires Valid() && k < |nodes| && p == nodes[k]
      requires if k == 0 then q == null else q == nodes[k - 1]
      modifies this`first, this`nodes, nodes
      ensures nodes == Skipping(old(nodes), k) && first == At(nodes, 0) && Chained(nodes)
    {
      hide Distinct, Items, Skipping;
      ghost var was := nodes;
      if q == null {
        first := p.next;
      } else {
        q.next := p.next;
      }
      nodes := Skipping(nodes, k);
      forall i | 0 <= i < |nodes|
        ensures nodes[i].next == At(nodes, i + 1)
      {
        SkippingAt(was, k, i);
        if i + 1 < |nodes| {
          SkippingAt(was, k, i + 1);
        }
        if i < k - 1 {
          Apart(was, i, k - 1);
        } else if i >= k > 0 {
          Apart(was, i + 1, k - 1);
        }
      }
      if nodes != [] {
        SkippingAt(was, k, 0);
      }
    }

    /** `coap_list_first` */
    method First() returns (more: bool)
      requires Valid()
      modifies this`current, this`upcoming, this`position
      ensures Valid() && more == (nodes != [])
      ensures more ==> current == nodes[0] && position == 1 && Iterating()
    {
      more := first != null;
      if more {
        current := first;
        upcoming := first.next;
        position := 1;
      }
    }

    /** `coap_list_next`: goes to the prefetched node, which must still be there, and prefetches again. */
    method Next() returns (more: bool)
      requires Valid() && Iterating()
      modifies this`current, this`upcoming, this`position
      ensures Valid() && current == At(nodes, old(position)) && more == (old(position) < |nodes|)
      ensures more ==> position == old(position) + 1 && Iterating()
    {
      current := upcoming;
      more := current != null;
      if more {
        upcoming := current.next;
        position := position + 1;
      }
    }

    /** `coap_list_this` */
    function This(): (r: Item<D>)
      requires current != null
      reads this
    {
      Item(current.key, current.data)
    }
  }
}

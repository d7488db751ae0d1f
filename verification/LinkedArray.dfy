/** Indexed arrays kept as a circular doubly-linked list with a roving `lastref` pointer (array.c). */
module LinkedArray {
  import opened Entries
  import opened Options

  class Node {
    var ind: int
    var value: Text
    var next: Node?
    var prev: Node?

    constructor (i: int, v: Text)
      ensures ind == i && value == v && next == null && prev == null
    {
      ind, value, next, prev := i, v, null, null;
    }
  }

  /** Position k follows position j on a ring of n nodes. */
  ghost predicate Follows(j: int, k: int, n: int) { k == j + 1 || (j == n - 1 && k == 0) }

  /** The nodes are distinct and linked both ways in the order of the list, the last back to the first. */
  ghost predicate Ring(ns: seq<Node>)
    reads ns`next, ns`prev
  {
    && ns != []
    && (forall j, k :: 0 <= j < k < |ns| ==> ns[j] != ns[k])
    && (forall j, k :: 0 <= j < |ns| && 0 <= k < |ns| && Follows(j, k, |ns|) ==>
          ns[j].next == ns[k] && ns[k].prev == ns[j])
  }

  /** The nodes after the head carry the entries, in order. */
  ghost predicate Carries(ns: seq<Node>, es: seq<Entry>)
    reads ns`ind, ns`value
  {
    && |ns| == |es| + 1
    && forall j :: 0 <= j < |es| ==> ns[j + 1].ind == es[j].ind && ns[j + 1].value == es[j].value
  }

  lemma CarriesInsert(ns: seq<Node>, es: seq<Entry>, k: nat, node: Node)
    requires Carries(ns, es) && k <= |es|
    ensures |ns| == |es| + 1 && Carries(InsertAt(ns, k + 1, node), InsertAt(es, k, Entry(node.ind, node.value)))
  {
    hide InsertAt;
  }

  lemma HighestInsert(es: seq<Entry>, k: nat, e: Entry)
    requires k <= |es|
    ensures Highest(InsertAt(es, k, e)) == if k == |es| then e.ind else Highest(es)
  {}

  lemma CarriesDelete(ns: seq<Node>, es: seq<Entry>, k: nat)
    requires Carries(ns, es) && k < |es|
    ensures |ns| == |es| + 1 && Carries(DeleteAt(ns, k + 1), DeleteAt(es, k))
  {
    hide DeleteAt;
  }

  lemma HighestDelete(es: seq<Entry>, k: nat)
    requires Sorted(es) && k < |es|
    ensures es[k].ind == Highest(es) <==> k == |es| - 1
    ensures Highest(DeleteAt(es, k)) ==
            if k < |es| - 1 then Highest(es) else if k > 0 then es[k - 1].ind else -1
  {}

  /** The nodes of a null-terminated chain, as `array_shift` returns it. */
  ghost predicate Chain(ns: seq<Node>)
    reads ns`next
  {
    && ns != []
    && (forall j, k :: 0 <= j < k < |ns| && k == j + 1 ==> ns[j].next == ns[k])
    && ns[|ns| - 1].next == null
  }

  /** A chain of nodes that carry the given entries, in order. */
  ghost predicate ChainOf(ns: seq<Node>, es: seq<Entry>)
    reads ns`next, ns`ind, ns`value
  {
    && Chain(ns)
    && |ns| == |es|
    && forall j :: 0 <= j < |es| ==> ns[j].ind == es[j].ind && ns[j].value == es[j].value
  }

  /** The head and the nodes from position p on. */
  function Kept<T>(s: seq<T>, p: nat): (t: seq<T>)
    requires 0 < p < |s|
    ensures |t| == |s| - p + 1 && t[0] == s[0]
    ensures forall j :: 0 < j < |t| ==> t[j] == s[j + p - 1]
  {
    [s[0]] + s[p..]
  }

  lemma Apart(ns: seq<Node>, p: nat)
    requires Ring(ns) && 0 < p < |ns|
    ensures forall x <- ns[1..p] :: x !in Kept(ns, p)
  {
    hide Kept;
  }

  lemma CarriesKept(ns: seq<Node>, es: seq<Entry>, n: nat)
    requires Carries(ns, es) && 0 < n < |es|
    ensures |ns| == |es| + 1 && Carries(Kept(ns, n + 1), es[n..])
  {
    hide Kept;
  }

  lemma CarriesChain(ns: seq<Node>, es: seq<Entry>, n: nat)
    requires Carries(ns, es) && 0 < n < |es| && Chain(ns[1..n + 1])
    ensures ChainOf(ns[1..n + 1], es[..n])
  {
    hide Chain;
  }

  /** Slice the nodes in front of the p-th out of the ring. */
  method Slice(ghost ns: seq<Node>, ghost p: nat, head: Node, ae: Node)
    requires Ring(ns) && 1 < p < |ns| && ns[p] == ae && ns[0] == head
    modifies ns`next, ns`prev
    ensures Ring(Kept(ns, p)) && Chain(ns[1..p])
  {
    hide Kept;
    assert ae.prev == ns[p - 1];
    ae.prev.next := null;
    head.next := ae;
    ae.prev := head;
  }

  /** Detach the whole list from its head. */
  method SliceAll(ghost ns: seq<Node>, head: Node, last: Node)
    requires Ring(ns) && |ns| > 1 && ns[|ns| - 1] == last && ns[0] == head
    modifies ns`next, ns`prev
    ensures Ring([head]) && Chain(ns[1..])
  {
    last.next := null;
    head.next, head.prev := head, head;
  }

  /** Add `delta` to the index of every node from the p-th to the end of the ring. */
  method RenumberFrom(ghost ns: seq<Node>, ghost p: nat, head: Node, first: Node, delta: int)
    requires Ring(ns) && 0 < p <= |ns| && ns[0] == head && first == ns[if p == |ns| then 0 else p]
    modifies ns`ind
    ensures Ring(ns)
    ensures forall j :: 0 <= j < |ns| ==> ns[j].ind == old(ns[j].ind) + if j < p then 0 else delta
  {
    var ae := first;
    ghost var q := p;
    while ae != head
      invariant p <= q <= |ns| && ae == ns[if q == |ns| then 0 else q]
      invariant forall j :: 0 <= j < |ns| ==> ns[j].ind == old(ns[j].ind) + if p <= j < q then delta else 0
      decreases |ns| - q
    {
      ae.ind := ae.ind + delta;
      assert ae.next == ns[if q + 1 == |ns| then 0 else q + 1];
      ae := ae.next;
      q := q + 1;
    }
  }

  /** `ADD_BEFORE`: link a node in front of the p-th; in front of the head is at the end. */
  method AddBefore(ghost ns: seq<Node>, ghost p: nat, ae: Node, node: Node)
    requires Ring(ns) && p < |ns| && ns[p] == ae && node !in ns
    modifies ns`next, ns`prev, node`next, node`prev
    ensures var k := if p == 0 then |ns| else p; Ring(InsertAt(ns, k, node))
  {
    hide InsertAt;
    assert ae.prev == ns[if p == 0 then |ns| - 1 else p - 1];
    ae.prev.next := node;
    node.prev := ae.prev;
    ae.prev := node;
    node.next := ae;
  }

  /** `ADD_AFTER`: link a node behind the p-th. */
  method AddAfter(ghost ns: seq<Node>, ghost p: nat, ae: Node, node: Node)
    requires Ring(ns) && p < |ns| && ns[p] == ae && node !in ns
    modifies ns`next, ns`prev, node`next, node`prev
    ensures Ring(InsertAt(ns, p + 1, node))
  {
    hide InsertAt;
    assert ae.next == ns[if p + 1 == |ns| then 0 else p + 1];
    ae.next.prev := node;
    node.next := ae.next;
    node.prev := ae;
    ae.next := node;
  }

  lemma Gone(ns: seq<Node>, p: nat)
    requires Ring(ns) && p < |ns|
    ensures ns[p] !in DeleteAt(ns, p)
  {}

  /** Unlink the p-th node, which keeps its own links. */
  method Unlink(ghost ns: seq<Node>, ghost p: nat, ae: Node)
    requires Ring(ns) && 0 < p < |ns| && ns[p] == ae
    modifies ns`next, ns`prev
    ensures Ring(DeleteAt(ns, p))
    ensures ae.next == old(ae.next) && ae.prev == old(ae.prev)
  {
    hide DeleteAt;
    assert ae.next == ns[if p + 1 == |ns| then 0 else p + 1] && ae.prev == ns[p - 1];
    ae.next.prev := ae.prev;
    ae.prev.next := ae.next;
  }

  class LinkedArray {
    var maxIndex: int
    var numElements: int
    var head: Node
    var lastref: Node?
    ghost var nodes: seq<Node>
    ghost var entries: seq<Entry>

    /** `max_index` and `num_elements` are exact, and `lastref` is null or a live element, never the head. */
    ghost predicate Valid()
      reads this, nodes
    {
      && Linked()
      && Sorted(entries)
      && numElements == |entries|
      && maxIndex == Highest(entries)
      && (lastref != null ==> lastref in nodes && lastref != head)
    }

    ghost predicate Linked()
      reads this`head, this`nodes, this`entries, nodes
    {
      Ring(nodes) && nodes[0] == head && head.ind == -1 && Carries(nodes, entries)
    }

    ghost function Contents(): Entries.Contents
      reads this`entries
    {
      MapOf(entries)
    }

    constructor ()
      ensures Valid() && fresh(nodes) && entries == [] && Contents() == map[] && lastref == null
    {
      maxIndex, numElements, lastref := -1, 0, null;
      var h := new Node(-1, None);
      head := h;
      nodes, entries := [h], [];
      new;
      head.prev, head.next := head, head;
    }

    /** `array_flush`. */
    method Flush()
      requires Valid()
      modifies this, head
      ensures Valid() && entries == [] && head == old(head) && nodes == [head]
    {
      head.next, head.prev := head, head;
      maxIndex, numElements, lastref := -1, 0, null;
      nodes, entries := [head], [];
    }

    /** What the links and fields of element q's node are. */
    lemma At(q: nat)
      requires Linked() && q < |entries|
      ensures |nodes| == |entries| + 1 && nodes[0] == head && nodes[q + 1] != head
      ensures nodes[q + 1].ind == entries[q].ind && nodes[q + 1].value == entries[q].value
      ensures nodes[q + 1].next == nodes[if q + 1 == |entries| then 0 else q + 2]
      ensures nodes[q + 1].prev == nodes[q]
    {}

    /** The element whose node is n. */
    ghost function Position(n: Node): (q: nat)
      requires Linked() && n in nodes && n != head
      reads this`head, this`nodes, this`entries, nodes
      ensures q < |entries| && |nodes| == |entries| + 1 && nodes[q + 1] == n
    {
      var p :| 0 <= p < |nodes| && nodes[p] == n;
      p - 1
    }

    lemma SameNode(q: nat, p: nat)
      requires Linked() && q < |entries| && p < |entries|
      ensures |nodes| == |entries| + 1 && (nodes[q + 1] == nodes[p + 1] <==> q == p)
    {}

    lemma Ends()
      requires Linked()
      ensures |nodes| == |entries| + 1 && nodes[0] == head && head.ind == -1
      ensures head.next == nodes[if entries == [] then 0 else 1] && head.prev == nodes[|entries|]
    {}

    /** `num_elements++` and `SET_LASTREF` for a node just linked as element k. */
    method Adopt(node: Node, ghost k: nat)
      requires k <= |entries| && node !in nodes
      requires Carries(nodes, entries) && nodes[0] == head && head.ind == -1 && Ring(InsertAt(nodes, k + 1, node))
      requires Sorted(entries) && numElements == |entries| && node.ind >= 0
      requires (k > 0 ==> entries[k - 1].ind < node.ind) && (k < |entries| ==> node.ind < entries[k].ind)
      requires maxIndex == if k == |entries| then node.ind else Highest(entries)
      modifies this
      ensures Valid() && nodes == InsertAt(old(nodes), k + 1, node) && lastref == node
      ensures Contents() == old(Contents())[node.ind := node.value]
      ensures head == old(head)
    {
      hide InsertAt, MapOf, Ring, Carries, Sorted, Highest;
      CarriesInsert(nodes, entries, k, node);
      HighestInsert(entries, k, Entry(node.ind, node.value));
      InsertSorted(entries, k, Entry(node.ind, node.value));
      numElements := numElements + 1;
      lastref := node;
      entries := InsertAt(entries, k, Entry(node.ind, node.value));
      nodes := InsertAt(nodes, k + 1, node);
    }

    method InsertBefore(ae: Node, node: Node, ghost q: nat)
      requires Valid() && q < |entries| && ae == nodes[q + 1] && node !in nodes
      requires 0 <= node.ind < entries[q].ind && (q > 0 ==> entries[q - 1].ind < node.ind)
      modifies this, nodes, node
      ensures Valid() && nodes == InsertAt(old(nodes), q + 1, node) && lastref == node
      ensures node.ind == old(node.ind) && Contents() == old(Contents()[node.ind := node.value])
      ensures head == old(head)
    {
      hide InsertAt, MapOf;
      AddBefore(nodes, q + 1, ae, node);
      Adopt(node, q);
    }

    method InsertAfter(ae: Node, node: Node, ghost q: nat)
      requires Valid() && q <= |entries| && ae == nodes[q] && node !in nodes && node.ind >= 0
      requires q < |entries| && node.ind < entries[q].ind && (q > 0 ==> entries[q - 1].ind < node.ind)
      modifies this, nodes, node
      ensures Valid() && nodes == InsertAt(old(nodes), q + 1, node) && lastref == node
      ensures node.ind == old(node.ind) && Contents() == old(Contents()[node.ind := node.value])
      ensures head == old(head)
    {
      hide InsertAt, MapOf;
      AddAfter(nodes, q, ae, node);
      Adopt(node, q);
    }

    method Append(node: Node)
      requires Valid() && node !in nodes && node.ind > maxIndex
      modifies this, nodes, node
      ensures Valid() && nodes == InsertAt(old(nodes), |old(nodes)|, node) && lastref == node
      ensures node.ind == old(node.ind) && Contents() == old(Contents()[node.ind := node.value])
      ensures head == old(head)
    {
      hide InsertAt, MapOf;
      AddBefore(nodes, 0, head, node);
      maxIndex := node.ind;
      Adopt(node, |entries|);
    }

    method Replace(ae: Node, v: Text, ghost q: nat)
      requires Valid() && q < |entries| && nodes[q + 1] == ae
      modifies this, ae
      ensures Valid() && nodes == old(nodes) && lastref == ae && ae.ind == old(ae.ind)
      ensures Contents() == old(Contents())[ae.ind := v]
      ensures head == old(head)
    {
      hide MapOf;
      ReplaceSorted(entries, q, v);
      ae.value := v;
      lastref := ae;
      entries := entries[q := Entry(ae.ind, v)];
    }

    /** Where a search for i starts and which way it goes: the index halving rule around `lastref`. */
    method Start(i: int) returns (start: Node, direction: int, ghost q: nat)
      requires Valid() && entries != [] && entries[0].ind <= i <= maxIndex
      ensures q < |entries| && nodes[q + 1] == start
      ensures direction == 1 || direction == -1
      ensures direction == 1 ==> entries[q].ind <= i
      ensures direction == -1 ==> i < entries[q].ind
    {
      Ends();
      if lastref != null {
        start := lastref;
        ghost var p :| 0 <= p < |nodes| && nodes[p] == start;
        q := p - 1;
      } else {
        start, q := head.next, 0;
      }
      At(q);
      if i < start.ind / 2 {
        start, direction, q := head.next, 1, 0;
      } else if i >= start.ind {
        direction := 1;
      } else {
        direction := -1;
      }
    }

    /** `array_insert`: the map gains or changes the one key, and the failure return is never reached. */
    method Insert(i: int, v: Text) returns (r: int)
      requires Valid() && i >= 0
      modifies this, nodes
      ensures Valid() && r == 0
      ensures Contents() == old(Contents())[i := v]
      ensures lastref != null && lastref.ind == i
      ensures head == old(head) && forall n <- nodes :: n in old(nodes) || fresh(n)
    {
      hide MapOf, InsertAt, Ring, Carries, Linked;
      var node := new Node(i, v);
      Ends();
      if i > maxIndex {
        Append(node);
        return 0;
      }
      At(0);
      if i < head.next.ind {
        InsertAfter(head, node, 0);
        return 0;
      }
      r := Place(i, v, node);
    }

    /** The search of `array_insert` between the first and the last element. */
    method Place(i: int, v: Text, node: Node) returns (r: int)
      requires Valid() && entries != [] && entries[0].ind <= i <= maxIndex
      requires node !in nodes && node.ind == i && node.value == v
      modifies this, nodes, node
      ensures Valid() && r == 0
      ensures Contents() == old(Contents())[i := v]
      ensures lastref != null && lastref.ind == i
      ensures head == old(head) && forall n <- nodes :: n in old(nodes) || n == node
    {
      hide MapOf, InsertAt, Ring, Carries, Linked, Sorted;
      NonNegative(entries);
      var ae, direction, q := Start(i);
      At(q);
      if q > 0 { InOrder(entries, q - 1, q); }
      if q + 1 < |entries| { InOrder(entries, q, q + 1); }
      while ae != head
        invariant unchanged(this) && unchanged(old(nodes)) && unchanged(node) && Valid() && |nodes| == |entries| + 1
        invariant 0 <= q < |entries| && nodes[q + 1] == ae
        invariant direction == 1 ==> q > 0 ==> entries[q - 1].ind < i
        invariant direction == -1 ==> q + 1 < |entries| ==> i < entries[q + 1].ind
        invariant direction == -1 ==> q + 1 == |entries| ==> i < entries[q].ind
        decreases if direction == 1 then |entries| - q else q
      {
        At(q);
        if ae.ind == i {
          Replace(ae, v, q);
          return 0;
        } else if direction == 1 && ae.ind > i {
          InsertBefore(ae, node, q);
          return 0;
        } else if direction == -1 && ae.ind < i {
          InsertAfter(ae, node, q + 1);
          return 0;
        }
        ae := if direction == 1 then ae.next else ae.prev;
        q := if direction == 1 then q + 1 else q - 1;
      }
      At(q);
      assert false;
    }

    /** Unlink element q and keep the count, the highest index and `lastref` right. */
    method Detach(ae: Node, ghost q: nat)
      requires Valid() && q < |entries| && nodes[q + 1] == ae
      modifies this, nodes
      ensures Valid() && nodes == DeleteAt(old(nodes), q + 1) && ae !in nodes
      ensures Contents() == old(Contents()) - {ae.ind}
      ensures head == old(head) && ae.ind == old(ae.ind) && ae.value == old(ae.value)
    {
      hide DeleteAt, MapOf, Sorted, Highest, Ring, Carries;
      At(q);
      Gone(nodes, q + 1);
      HighestDelete(entries, q);
      DeleteSorted(entries, q);
      UnlinkElement(ae, q);
      numElements := numElements - 1;
      if ae.ind == maxIndex {
        maxIndex := ae.prev.ind;
      }
      if ae.next != head {
        lastref := ae.next;
      } else if ae.prev != head {
        lastref := ae.prev;
      } else {
        lastref := null;
      }
    }

    method UnlinkElement(ae: Node, ghost q: nat)
      requires Linked() && q < |entries| && nodes[q + 1] == ae
      modifies nodes, this`nodes, this`entries
      ensures Linked() && nodes == DeleteAt(old(nodes), q + 1) && entries == DeleteAt(old(entries), q)
      ensures ae.ind == old(ae.ind) && ae.value == old(ae.value)
      ensures ae.prev == nodes[q] && ae.prev.ind == if q == 0 then -1 else old(entries)[q - 1].ind
      ensures ae.next == nodes[if q == |entries| then 0 else q + 1]
    {
      hide DeleteAt, Ring;
      At(q);
      if q > 0 { At(q - 1); }
      Unlink(nodes, q + 1, ae);
      CarriesDelete(nodes, entries, q);
      entries := DeleteAt(entries, q);
      nodes := DeleteAt(nodes, q + 1);
    }

    /** `array_remove`: the element with index i, if any, is unlinked and returned. */
    method Remove(i: int) returns (e: Node?)
      requires Valid()
      modifies this, nodes
      ensures Valid()
      ensures e == null <==> i !in old(Contents())
      ensures e != null ==> e.ind == i && e.value == old(Contents())[i] && e !in nodes
      ensures Contents() == old(Contents()) - {i}
      ensures head == old(head) && forall n <- nodes :: n in old(nodes)
    {
      hide MapOf, Sorted, DeleteAt, Ring, Carries, Linked;
      if numElements == 0 {
        AbsentBetween(entries, 0, i);
        return null;
      }
      Ends();
      At(0);
      if i > maxIndex || i < head.next.ind {
        AbsentBetween(entries, if i > maxIndex then |entries| else 0, i);
        return null;
      }
      var ae, direction, q := Start(i);
      At(q);
      while ae != head
        invariant unchanged(this) && unchanged(old(nodes)) && Valid() && |nodes| == |entries| + 1
        invariant 0 <= q < |entries| && nodes[q + 1] == ae
        invariant direction == 1 ==> entries[q].ind <= i
        invariant direction == -1 ==> i <= entries[q].ind
        decreases if direction == 1 then |entries| - q else q
      {
        At(q);
        if ae.ind == i {
          MapAt(entries, q);
          Detach(ae, q);
          return ae;
        }
        ae := if direction == 1 then ae.next else ae.prev;
        ghost var q0 := q;
        q := if direction == 1 then q + 1 else q - 1;
        At(q);
        if direction == 1 && ae.ind > i {
          AbsentBetween(entries, q, i);
          break;
        } else if direction == -1 && ae.ind < i {
          AbsentBetween(entries, q0, i);
          break;
        }
      }
      At(q);
      return null;
    }

    /** `array_reference`: the value at i; a miss leaves `lastref` on a neighbour of i. */
    method Reference(i: int) returns (v: Text)
      requires Valid()
      modifies this`lastref
      ensures Valid()
      ensures v == if i in Contents() then Contents()[i] else None
      ensures entries != [] && entries[0].ind <= i <= maxIndex ==>
                lastref != null && Beside(entries, lastref.ind, i)
    {
      hide MapOf, Ring, Carries, Linked;
      if numElements == 0 {
        AbsentBetween(entries, 0, i);
        return None;
      }
      Ends();
      At(0);
      if i > maxIndex || i < head.next.ind {
        AbsentBetween(entries, if i > maxIndex then |entries| else 0, i);
        return None;
      }
      v := Find(i);
    }

    /** The search of `array_reference` between the first and the last element. */
    method Find(i: int) returns (v: Text)
      requires Valid() && entries != [] && entries[0].ind <= i <= maxIndex
      modifies this`lastref
      ensures Valid()
      ensures v == if i in Contents() then Contents()[i] else None
      ensures lastref != null && Beside(entries, lastref.ind, i)
    {
      hide MapOf, Sorted, Ring, Carries, Linked, Beside;
      var start, direction, q := Start(i);
      var ae := start;
      At(q);
      while ae != head
        invariant unchanged(this) && 0 <= q < |entries| && nodes[q + 1] == ae
        invariant direction == 1 ==> entries[q].ind <= i
        invariant direction == -1 ==> i <= entries[q].ind
        decreases if direction == 1 then |entries| - q else q
      {
        At(q);
        if ae.ind == i {
          MapAt(entries, q);
          BesideItself(entries, i);
          lastref := ae;
          return ae.value;
        }
        ae := if direction == 1 then ae.next else ae.prev;
        q := if direction == 1 then q + 1 else q - 1;
        At(q);
        if direction == 1 && ae.ind > i {
          AbsentBetween(entries, q, i);
          BesideGap(entries, q, i);
          start := ae;
          break;
        } else if direction == -1 && ae.ind < i {
          AbsentBetween(entries, q + 1, i);
          BesideGap(entries, q + 1, i);
          start := ae;
          break;
        }
      }
      At(q);
      lastref := start;
      return None;
    }

    /** `array_shift`: the n lowest elements leave, as a chain or disposed of; the others move down by n. */
    method Shift(n: int, dispose: bool) returns (ret: Node?)
      requires Valid()
      modifies this, nodes
      ensures Valid() && entries == Shifted(old(entries), n)
      ensures head == old(head) && forall x <- nodes :: x in old(nodes)
      ensures ret == null <==> dispose || old(entries) == [] || n <= 0
      ensures ret != null ==>
                var m := if n < |old(entries)| then n else |old(entries)|;
                |old(nodes)| == |old(entries)| + 1 && ret == old(nodes)[1] &&
                ChainOf(old(nodes)[1..m + 1], old(entries)[..m])
    {
      hide Ring, Carries, Linked, Sorted, ChainOf;
      Ends();
      if numElements == 0 || n <= 0 {
        return null;
      }
      At(0);
      lastref := null;
      var first := head.next;
      var ae, i := first, 0;
      while ae != head && i < n
        modifies {}
        invariant 0 <= i <= |entries| && i <= n && ae == nodes[if i == |entries| then 0 else i + 1]
        decreases n - i
      {
        At(i);
        ae, i := ae.next, i + 1;
      }
      if i < |entries| { At(i); }
      if ae == head {
        if dispose {
          Flush();
          return null;
        }
        Release(first);
        assert old(nodes)[1..|old(entries)| + 1] == old(nodes)[1..] && old(entries)[..|old(entries)|] == old(entries);
        return first;
      }
      ShiftKept(ae, n);
      return if dispose then null else first;
    }

    /** Every element leaves the array as one chain. */
    method Release(first: Node)
      requires Valid() && entries != [] && first == nodes[1] && lastref == null
      modifies this, nodes
      ensures Valid() && entries == [] && head == old(head) && nodes == [head]
      ensures ChainOf(old(nodes)[1..], old(entries))
    {
      hide Ring, Chain;
      Ends();
      At(0);
      var ae := first;
      ghost var q := 0;
      while ae.next != head
        modifies {}
        invariant 0 <= q < |entries| && ae == nodes[q + 1] && ae.next != null
        decreases |entries| - q
      {
        At(q);
        At(q + 1);
        ae, q := ae.next, q + 1;
      }
      At(q);
      if q + 1 < |entries| { At(q + 1); }
      SliceAll(nodes, head, ae);
      maxIndex, numElements := -1, 0;
      nodes, entries := [head], [];
    }

    /** The elements from the n-th on are kept and renumbered. */
    method ShiftKept(ae: Node, n: nat)
      requires Valid() && 0 < n < |entries| && ae == nodes[n + 1] && lastref == null
      modifies this, nodes
      ensures Valid() && entries == Shifted(old(entries), n)
      ensures head == old(head) && nodes == Kept(old(nodes), n + 1)
      ensures ChainOf(old(nodes)[1..n + 1], old(entries)[..n])
    {
      hide Kept, Shifted, Raised, Ring, Carries, Linked, Chain, Sorted;
      ShiftedSorted(entries, n);
      RaisedIsShifted(entries, n);
      Ends();
      ghost var out := nodes[1..n + 1];
      SliceFront(ae, n);
      assert forall j :: 0 <= j < n ==> out[j] !in nodes;
      RenumberElements(ae, 0, 0 - n);
      numElements := numElements - n;
    }

    method SliceFront(ae: Node, ghost n: nat)
      requires Linked() && 0 < n < |entries| && ae == nodes[n + 1]
      modifies this`nodes, this`entries, nodes`next, nodes`prev
      ensures Linked() && entries == old(entries)[n..] && nodes == Kept(old(nodes), n + 1) && ae == nodes[1]
      ensures ChainOf(old(nodes)[1..n + 1], old(entries)[..n])
      ensures forall x <- old(nodes)[1..n + 1] :: x !in nodes
    {
      hide Kept, Chain, Ring, Carries, ChainOf;
      At(n);
      Apart(nodes, n + 1);
      Slice(nodes, n + 1, head, ae);
      CarriesKept(nodes, entries, n);
      CarriesChain(nodes, entries, n);
      nodes, entries := Kept(nodes, n + 1), entries[n..];
    }

    /** Move the indices of the elements from the k-th on by delta and take the new highest index. */
    method RenumberElements(ae: Node, ghost k: nat, delta: int)
      requires Linked() && entries != [] && k <= |entries| && ae == nodes[if k == |entries| then 0 else k + 1]
      modifies this`entries, this`maxIndex, nodes`ind
      ensures Linked() && entries == Raised(old(entries), k, delta) && maxIndex == Highest(entries)
    {
      hide Raised, Ring;
      RenumberFrom(nodes, k + 1, head, ae, delta);
      entries := Raised(entries, k, delta);
      Ends();
      At(|entries| - 1);
      maxIndex := head.prev.ind;
    }

    /** Link a node for element 0 in front of the others. */
    method LinkFront(ae: Node, s: Text) returns (node: Node)
      requires Linked() && ae == nodes[if entries == [] then 0 else 1]
      modifies this`nodes, this`entries, nodes
      ensures Linked() && entries == Pushed(s, old(entries)) && nodes == InsertAt(old(nodes), 1, node) && fresh(node)
      ensures ae == nodes[if |entries| == 1 then 0 else 2]
    {
      hide InsertAt;
      node := new Node(0, s);
      AddBefore(nodes, if entries == [] then 0 else 1, ae, node);
      nodes, entries := InsertAt(nodes, 1, node), Pushed(s, entries);
    }

    /** `array_rshift`: every index goes up by n and a given value becomes element 0. */
    method RShift(n: int, s: Text) returns (r: int)
      requires Valid()
      modifies this, nodes
      ensures Valid() && entries == RShifted(old(entries), n, s)
      ensures r == |entries|
      ensures head == old(head) && forall x <- nodes :: x in old(nodes) || fresh(x)
    {
      hide RShifted, Raised, Pushed, Ring, Carries, Linked, Sorted, Highest, InsertAt;
      if numElements == 0 && s == None {
        RShiftedNothing(entries, n, s);
        return 0;
      } else if n <= 0 {
        RShiftedNothing(entries, n, s);
        return numElements;
      }
      Ends();
      RShiftedSorted(entries, n, s);
      RaisedIsRShifted(entries, n, s);
      var ae := head.next;
      if s == None {
        RenumberElements(ae, 0, n);
        lastref := null;
        return numElements;
      }
      var node := LinkFront(ae, s);
      numElements := numElements + 1;
      if numElements == 1 {
        RShiftedEmpty(n, s);
        maxIndex := 0;
        return 1;
      }
      RenumberElements(ae, 1, n);
      lastref := null;
      return numElements;
    }

    /** Link a node behind all others, as `array_copy` does, without touching the counts. */
    method LinkLast(node: Node)
      requires Linked() && node !in nodes
      modifies this`nodes, this`entries, nodes`next, nodes`prev, node`next, node`prev
      ensures Linked() && entries == old(entries) + [Entry(node.ind, node.value)]
      ensures nodes == InsertAt(old(nodes), |old(nodes)|, node)
    {
      hide InsertAt;
      AddBefore(nodes, 0, head, node);
      CarriesInsert(nodes, entries, |entries|, node);
      nodes, entries := InsertAt(nodes, |nodes|, node), InsertAt(entries, |entries|, Entry(node.ind, node.value));
      assert entries == old(entries) + [Entry(node.ind, node.value)];
    }

    /** One element of `array_copy`, which becomes the last reference if the original is. */
    method AppendCopy(i: int, v: Text, isLast: bool)
      requires Linked()
      modifies this`nodes, this`entries, this`lastref, nodes`next, nodes`prev
      ensures Linked() && entries == old(entries) + [Entry(i, v)]
      ensures |nodes| == |old(nodes)| + 1 && nodes[..|old(nodes)|] == old(nodes) && fresh(nodes[|old(nodes)|])
      ensures lastref == if isLast then nodes[|old(nodes)|] else old(lastref)
    {
      hide Linked, Ring, Carries;
      var node := new Node(i, v);
      LinkLast(node);
      if isLast {
        lastref := node;
      }
    }

    /** `array_copy`: a separate array with the same entries, whose last reference is the copy of this one's. */
    method Copy() returns (c: LinkedArray)
      requires Valid()
      ensures c.Valid() && c.entries == entries && fresh(c) && fresh(c.nodes)
      ensures entries == [] ==> c.lastref == null
      ensures entries != [] ==>
                c.lastref != null && c.lastref.ind == if lastref != null then lastref.ind else entries[0].ind
    {
      hide InsertAt, Ring, Carries, Linked, Sorted;
      c := new LinkedArray();
      c.maxIndex, c.numElements := maxIndex, numElements;
      Ends();
      var from := if lastref != null then lastref else head.next;
      ghost var p: nat := if lastref != null then Position(lastref) else 0;
      var ae := head.next;
      ghost var q := 0;
      while ae != head
        invariant 0 <= q <= |entries| && ae == nodes[if q == |entries| then 0 else q + 1]
        invariant c.Linked() && c.entries == entries[..q] && fresh(c) && fresh(c.nodes)
        invariant c.maxIndex == maxIndex && c.numElements == numElements
        invariant q <= p ==> c.lastref == null
        invariant q > p ==> |c.nodes| == q + 1 && c.lastref == c.nodes[p + 1]
        decreases |entries| - q
      {
        At(q);
        SameNode(q, p);
        c.Ends();
        c.AppendCopy(ae.ind, ae.value, ae == from);
        assert entries[..q + 1] == entries[..q] + [entries[q]];
        ae, q := ae.next, q + 1;
      }
      if q < |entries| { At(q); }
      assert entries[..q] == entries;
      if entries != [] {
        At(p);
        c.At(p);
      }
    }
  }
}

/** lib/data_struct/include/data_struct/corelist.h: intrusive circular doubly linked lists, linked
    and unlinked in place. */
module CoreList {

  class ListHead<T(0)> {
    var prev: ListHead<T>
    var next: ListHead<T>
    var owner: T  // what container_of computes from the address of an embedded node

    /** init_list_head: a list of its own. */
    constructor (owner: T)
      ensures prev == this && next == this && this.owner == owner
    {
      prev, next := this, this;
      this.owner := owner;
    }
  }

  /** Neighbours point at each other all the way round from the head, and no node is met twice. */
  ghost predicate IsList<T(0)>(head: ListHead<T>, nodes: seq<ListHead<T>>)
    reads head, nodes
  {
    var n := |nodes|;
    (if n == 0 then head.next == head && head.prev == head
     else head.next == nodes[0] && nodes[0].prev == head && nodes[n - 1].next == head && head.prev == nodes[n - 1]) &&
    (forall i, j :: 0 <= i < n && j == i + 1 < n ==> nodes[i].next == nodes[j] && nodes[j].prev == nodes[i]) &&
    head !in nodes && (forall i, j :: 0 <= i < j < n ==> nodes[i] != nodes[j])
  }

  method ListAddBetween<T(0)>(node: ListHead<T>, prev: ListHead<T>, next: ListHead<T>)
    requires node != prev && node != next
    modifies node`prev, node`next, prev`next, next`prev
    ensures node.prev == prev && node.next == next && prev.next == node && next.prev == node
    ensures prev != next ==> prev.prev == old(prev.prev) && next.next == old(next.next)
  {
    node.prev := prev;
    prev.next := node;
    node.next := next;
    next.prev := node;
  }

  /** list_add_tail: the node becomes the last. */
  method ListAddTail<T(0)>(node: ListHead<T>, head: ListHead<T>, ghost nodes: seq<ListHead<T>>)
    requires IsList(head, nodes) && node != head && node !in nodes
    modifies node`prev, node`next, head`prev, head`next, nodes`prev, nodes`next
    ensures IsList(head, nodes + [node])
  {
    ListAddBetween(node, head.prev, head);
  }

  method ListDelBetween<T(0)>(prev: ListHead<T>, next: ListHead<T>)
    modifies prev`next, next`prev
    ensures prev.next == next && next.prev == prev
    ensures prev != next ==> prev.prev == old(prev.prev) && next.next == old(next.next)
  {
    prev.next := next;
    next.prev := prev;
  }

  function Cut<T>(s: seq<T>, k: nat): (r: seq<T>)
    requires k < |s|
    ensures |r| == |s| - 1 && forall i :: 0 <= i < |r| ==> r[i] == s[if i < k then i else i + 1]
  {
    s[..k] + s[k + 1..]
  }

  /** list_del: the node leaves its list, wherever it stands, and becomes a list of its own. */
  method ListDel<T(0)>(entry: ListHead<T>, ghost head: ListHead<T>, ghost nodes: seq<ListHead<T>>, ghost k: nat)
    requires IsList(head, nodes) && k < |nodes| && nodes[k] == entry
    modifies head`prev, head`next, nodes`prev, nodes`next
    ensures IsList(head, Cut(nodes, k)) && entry.next == entry && entry.prev == entry
  {
    ghost var before := if k == 0 then head else nodes[k - 1];
    ghost var after := if k == |nodes| - 1 then head else nodes[k + 1];
    assert entry.prev == before && entry.next == after;
    ListDelBetween(entry.prev, entry.next);
    entry.next := entry;
    entry.prev := entry;
  }

  /** list_empty */
  method ListEmpty<T(0)>(head: ListHead<T>, ghost nodes: seq<ListHead<T>>) returns (empty: bool)
    requires IsList(head, nodes)
    ensures empty <==> nodes == []
  {
    empty := head.next == head;
  }
}

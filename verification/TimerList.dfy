/** The intrusive lists behind every slot and the pending list: the nodes live inside the
    coroutines, one each, and a node that has been popped keeps its old next pointer. */
module TimerList {
  import opened WheelModel

  /** Which list of the timer a list is. */
  datatype Place = Pending | Slot(wheel: nat, index: nat)

  class ListNode {
    var next: ListNode?
    var delay: nat
    ghost var call: nat             // the call of coroutine_sleep it stands for
    ghost var home: LinkedList?     // the list it is in

    constructor ()
      ensures home == null
    {
      next, delay, home := null, 0, null;
    }
  }

  /** The nodes know the only list they are in, so lists with different names share none. */
  ghost predicate AllValid(lists: set<LinkedList>, all: set<ListNode>)
    reads lists, all
  {
    forall l | l in lists :: l.Valid(all)
  }

  lemma NodeInOneList(lists: set<LinkedList>, all: set<ListNode>, n: ListNode, l: LinkedList, m: LinkedList, i: nat, j: nat)
    requires AllValid(lists, all) && l in lists && m in lists
    requires i < |l.nodes| && j < |m.nodes| && l.nodes[i] == n == m.nodes[j]
    ensures l == m && i == j
  {
    assert l.Valid(all) && m.Valid(all);
    assert l.nodes[i].home == l && m.nodes[j].home == m;
  }

  lemma AllValidMore(lists: set<LinkedList>, all: set<ListNode>, n: ListNode)
    requires AllValid(lists, all)
    ensures AllValid(lists, all + {n})
  {
    forall l | l in lists ensures l.Valid(all + {n}) {
      assert l.Valid(all);
    }
  }

  /** Writing the delay of a node that is in no list. */
  method SetDelay(node: ListNode, delay: nat, ghost lists: set<LinkedList>, ghost all: set<ListNode>)
    requires AllValid(lists, all) && node in all && node.home == null
    modifies node`delay
    ensures AllValid(lists, all) && node.delay == delay
  {
    node.delay := delay;
    assert forall l | l in lists :: old(l.Valid(all));
  }

  /** The node of a coroutine that makes the given call. */
  method SetCall(node: ListNode, delay: nat, ghost call: nat, ghost lists: set<LinkedList>, ghost all: set<ListNode>)
    requires AllValid(lists, all) && node in all && node.home == null
    modifies node`delay, node`call
    ensures AllValid(lists, all) && node.delay == delay && node.call == call
  {
    node.delay := delay;
    node.call := call;
    assert forall l | l in lists :: old(l.Valid(all));
  }

  class LinkedList {
    ghost const place: Place
    var head: ListNode?
    var tail: ListNode?
    ghost var nodes: seq<ListNode>
    ghost var events: seq<Event>    // what the nodes stand for

    ghost predicate Valid(all: set<ListNode>)
      reads this, all
    {
      && |events| == |nodes|
      && (forall i | 0 <= i < |nodes| :: nodes[i] in all && nodes[i].home == this)
      && (forall i | 0 <= i < |nodes| :: events[i] == Event(nodes[i].call, nodes[i].delay))
      && (forall i, j | 0 <= i < j < |nodes| :: nodes[i] != nodes[j])
      && (forall i {:trigger nodes[i].next} | 0 <= i < |nodes| - 1 :: nodes[i].next == nodes[i + 1])
      && (if nodes == [] then head == null && tail == null
          else head == nodes[0] && tail == nodes[|nodes| - 1] && nodes[|nodes| - 1].next == null)
    }

    constructor (ghost place: Place)
      ensures this.place == place && nodes == [] && events == [] && Valid({})
    {
      this.place := place;
      head, tail, nodes, events := null, null, [], [];
    }

    /** push_back of a node that is in no list, whatever its next pointer says. */
    method PushBack(node: ListNode, ghost lists: set<LinkedList>, ghost all: set<ListNode>)
      requires AllValid(lists, all) && this in lists && node in all && node.home == null
      modifies this, all`next, node`home
      ensures AllValid(lists, all) && node.home == this
      ensures nodes == old(nodes) + [node] && events == old(events) + [Event(node.call, node.delay)]
    {
      assert Valid(all);
      Append(node, all);
      forall l | l in lists && l != this ensures l.Valid(all) {
        assert old(l.Valid(all));
      }
    }

    /** The pointer writes of push_back reach no node of another list. */
    method Append(node: ListNode, ghost all: set<ListNode>)
      requires Valid(all) && node in all && node.home == null
      modifies this, all`next, node`home
      ensures Valid(all) && node.home == this
      ensures nodes == old(nodes) + [node] && events == old(events) + [Event(node.call, node.delay)]
      ensures forall n | n in all && n != node && old(n.home) != this :: n.next == old(n.next)
    {
      if head == null {
        head := node;
        tail := head;
      } else {
        tail.next := node;
        tail := tail.next;
      }
      tail.next := null;
      node.home := this;
      nodes, events := nodes + [node], events + [Event(node.call, node.delay)];
    }

    /** pop_front: nothing from an empty list, otherwise the first node. */
    method PopFront(ghost lists: set<LinkedList>, ghost all: set<ListNode>) returns (ret: ListNode?)
      requires AllValid(lists, all) && this in lists
      modifies this, all`home
      ensures AllValid(lists, all)
      ensures old(nodes) == [] ==> ret == null && nodes == [] && events == []
      ensures old(nodes) != [] ==>
                && ret == old(nodes)[0] && nodes == old(nodes)[1..] && events == old(events)[1..]
                && ret in all && ret.home == null && old(events)[0] == Event(ret.call, ret.delay)
      ensures forall n | n in all && n != ret :: n.home == old(n.home)
    {
      assert Valid(all);
      ret := Behead(all);
      forall l | l in lists && l != this ensures l.Valid(all) {
        assert old(l.Valid(all));
      }
    }

    method Behead(ghost all: set<ListNode>) returns (ret: ListNode?)
      requires Valid(all)
      modifies this, all`home
      ensures Valid(all)
      ensures old(nodes) == [] ==> ret == null && nodes == [] && events == []
      ensures old(nodes) != [] ==>
                && ret == old(nodes)[0] && nodes == old(nodes)[1..] && events == old(events)[1..]
                && ret in all && ret.home == null && old(ret.home) == this && old(events)[0] == Event(ret.call, ret.delay)
      ensures forall n | n in all && n != ret :: n.home == old(n.home)
    {
      if head == null {
        return null;
      }
      ret := head;
      assert |nodes| > 1 ==> nodes[0].next == nodes[1];
      head := head.next;
      if head == null {
        tail := null;
      }
      ret.home := null;
      nodes, events := nodes[1..], events[1..];
    }
  }
}

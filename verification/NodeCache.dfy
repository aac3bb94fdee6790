/** The per-thread node cache of src/memory/ts_linked_list.cpp: a stack of released nodes
    linked through their own next fields, kept below a limit. Only its thread touches it. */
module NodeCache {
  import opened Basics

  class CacheNode {
    var next: CacheNode?
    var released: bool

    constructor ()
      ensures !released && next == null
    {
      next, released := null, false;
    }
  }

  class NodeCache {
    var head: CacheNode?
    var count: int
    ghost var nodes: seq<CacheNode>     // from the top down

    ghost predicate Valid()
      reads this, nodes
    {
      && count == |nodes|
      && (forall i, j | 0 <= i < j < |nodes| :: nodes[i] != nodes[j])
      && head == (if nodes == [] then null else nodes[0])
      && (forall i {:trigger nodes[i].next} | 0 <= i < |nodes| ::
            nodes[i].next == if i + 1 < |nodes| then nodes[i + 1] else null)
      && forall i | 0 <= i < |nodes| :: nodes[i].released
    }

    constructor ()
      ensures Valid() && nodes == []
    {
      head, count, nodes := null, 0, [];
    }

    method Push(node: CacheNode)
      requires Valid() && node !in nodes && node.released
      modifies this, node`next
      ensures Valid() && nodes == [node] + old(nodes)
    {
      node.next := head;
      head := node;
      count := count + 1;
      nodes := [node] + nodes;
    }

    method Pop() returns (ret: CacheNode?)
      requires Valid()
      modifies this
      ensures Valid()
      ensures if old(nodes) == [] then ret == null && nodes == []
              else ret == old(nodes)[0] && nodes == old(nodes)[1..] && ret !in nodes
    {
      if head == null {
        return null;
      }
      ret := head;
      assert nodes[0].next == if 1 < |nodes| then nodes[1] else null;
      head := head.next;
      count := count - 1;
      nodes := nodes[1..];
    }

    /** get: the last node released, or a new one when there is none. */
    method Get() returns (node: CacheNode)
      requires Valid() && |nodes| < CACHE_COUNT
      modifies this, nodes`next, nodes`released
      ensures Valid() && |nodes| < CACHE_COUNT && !node.released && node.next == null && node !in nodes
      ensures if old(nodes) == [] then fresh(node) && nodes == [] else node == old(nodes)[0] && nodes == old(nodes)[1..]
    {
      var got := Pop();
      if got == null {
        node := new CacheNode();
      } else {
        node := got;
      }
      node.released := false;
      node.next := null;
    }

    /** release: the node is kept; when the cache is full, the batch at the top is deleted,
        the node just released first. */
    method Release(node: CacheNode) returns (ghost deleted: seq<CacheNode>)
      requires Valid() && |nodes| < CACHE_COUNT && node !in nodes
      modifies this, node
      ensures Valid() && |nodes| < CACHE_COUNT && node.released
      ensures deleted + nodes == [node] + old(nodes)
      ensures |deleted| == if old(|nodes|) + 1 < CACHE_COUNT then 0 else BATCH_RELEASE_COUNT
    {
      node.released := true;
      Push(node);
      deleted := [];
      if count >= CACHE_COUNT {
        deleted := BatchRelease();
      }
    }

    /** batch_release deletes up to 64 nodes from the top. */
    method BatchRelease() returns (ghost deleted: seq<CacheNode>)
      requires Valid()
      modifies this
      ensures Valid() && deleted + nodes == old(nodes)
      ensures |deleted| == if old(|nodes|) < BATCH_RELEASE_COUNT then old(|nodes|) else BATCH_RELEASE_COUNT
    {
      deleted := [];
      for i := 0 to BATCH_RELEASE_COUNT
        invariant Valid() && deleted + nodes == old(nodes) && |deleted| == i
      {
        var node := Pop();
        if node == null {
          break;
        }
        deleted := deleted + [node];
      }
    }
  }
}

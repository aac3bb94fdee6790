/** The intrusive heap of src/basic_struct/min_heap.h: a vector of pointers to nodes that
    know their own position. */
module MinHeap {
  import opened Order
  import opened HeapOrder

  class HeapNode<K(0)> {
    var key: K
    var index: int

    constructor ()
    {
    }
  }

  ghost function KeysOf<K(0)>(data: seq<HeapNode<K>>): (k: seq<K>)
    reads data
    ensures |k| == |data| && forall i | 0 <= i < |k| :: k[i] == data[i].key
  {
    seq(|data|, i requires 0 <= i < |data| reads data => data[i].key)
  }

  ghost function Members<T>(s: seq<T>): set<T> {
    set x | x in s
  }

  lemma SwapMembers<T>(s: seq<T>, i: nat, j: nat)
    requires i < |s| && j < |s|
    ensures Members(Swap(s, i, j)) == Members(s)
  {
    var s' := Swap(s, i, j);
    assert s == Swap(s', i, j);
    assert forall x | x in s :: x in s';
    assert forall x | x in s' :: x in s;
  }

  class IntrusiveHeap<K(!new, 0)> {
    const lt: (K, K) -> bool
    var data: seq<HeapNode<K>>
    ghost var nodes: set<HeapNode<K>>   // the members

    /** data_[i]->heap_index_ == i for each. */
    ghost predicate Indexed()
      reads this`data, this`nodes, nodes`index
    {
      Members(data) == nodes && forall j | 0 <= j < |data| :: data[j].index == j
    }

    ghost predicate Valid()
      reads this`data, this`nodes, nodes
    {
      StrictWeakOrder(lt) && Indexed() && Heap(lt, KeysOf(data))
    }

    constructor (lt: (K, K) -> bool)
      ensures this.lt == lt && data == [] && nodes == {} && (StrictWeakOrder(lt) ==> Valid())
    {
      this.lt, data, nodes := lt, [], {};
    }

    method SwapNode(i: nat, j: nat)
      requires Indexed() && i < |data| && j < |data|
      modifies this`data, nodes`index
      ensures Indexed() && data == Swap(old(data), i, j) && KeysOf(data) == Swap(old(KeysOf(data)), i, j)
    {
      SwapMembers(data, i, j);
      data := data[i := data[j]][j := data[i]];
      data[i].index := i;
      data[j].index := j;
    }

    method SiftUp(i0: nat)
      requires StrictWeakOrder(lt) && Indexed() && i0 < |data| && HeapUp(lt, KeysOf(data), i0)
      modifies this`data, nodes`index
      ensures Valid() && |data| == |old(data)|
    {
      var i: nat := i0;
      while i > 0
        invariant Indexed() && i < |data| == |old(data)| && HeapUp(lt, KeysOf(data), i)
      {
        var p := Parent(i);
        if !lt(data[i].key, data[p].key) {
          break;
        }
        UpRound(lt, KeysOf(data), i);
        SwapNode(i, p);
        i := p;
      }
      UpDone(lt, KeysOf(data), i);
    }

    /** The child the key at i has to change places with, or i itself. */
    method Smallest(i: nat) returns (smallest: nat)
      requires StrictWeakOrder(lt) && i < |data|
      ensures smallest == i ==> forall j | 0 < j < |data| && Parent(j) == i :: !lt(data[j].key, data[i].key)
      ensures smallest != i ==> LeastChild(lt, KeysOf(data), i, smallest)
    {
      var n := |data|;
      var l, r := i * 2 + 1, i * 2 + 2;
      smallest := i;
      if l < n && lt(data[l].key, data[smallest].key) {
        smallest := l;
      }
      if r < n && lt(data[r].key, data[smallest].key) {
        smallest := r;
      }
      ParentBelow(i);
    }

    /** One round of sift_down: i' == i when the key has found its place. */
    method SinkOnce(i: nat, ghost i0: nat) returns (i': nat)
      requires StrictWeakOrder(lt) && Indexed() && i0 <= i < |data| && HeapDown(lt, KeysOf(data), i, i0)
      modifies this`data, nodes`index
      ensures Indexed() && |data| == |old(data)| && i <= i' < |data|
      ensures i' == i ==> data == old(data) && HeapUp(lt, KeysOf(data), i0)
      ensures i' != i ==> HeapDown(lt, KeysOf(data), i', i0) && (i0 > 0 ==> Ordered(lt, KeysOf(data), i0))
    {
      i' := Smallest(i);
      if i' == i {
        DownDone(lt, KeysOf(data), i, i0);
      } else {
        ParentBelow(i');
        DownRound(lt, KeysOf(data), i, i0, i');
        SwapNode(i, i');
      }
    }

    method SiftDown(i0: nat)
      requires StrictWeakOrder(lt) && Indexed() && i0 < |data| && HeapBut(lt, KeysOf(data), i0)
      modifies this`data, nodes`index
      ensures Indexed() && |data| == |old(data)| && HeapUp(lt, KeysOf(data), i0)
      ensures i0 == 0 || old(Ordered(lt, KeysOf(data), i0)) ==> Heap(lt, KeysOf(data))
    {
      var i: nat := i0;
      ghost var fits := i0 > 0 && Ordered(lt, KeysOf(data), i0);
      while true
        invariant Indexed() && i0 <= i < |data| && |data| == |old(data)|
        invariant HeapDown(lt, KeysOf(data), i, i0) && (fits ==> Ordered(lt, KeysOf(data), i0))
        decreases |data| - i
      {
        var smallest := SinkOnce(i, i0);
        if smallest == i {
          break;
        }
        i := smallest;
      }
      assert HeapUp(lt, KeysOf(data), i0);
      if i0 == 0 || fits {
        UpDone(lt, KeysOf(data), i0);
      }
    }

    method Push(x: HeapNode<K>)
      requires Valid() && x !in nodes && x.index == -1
      modifies this`data, this`nodes, nodes`index, x`index
      ensures Valid() && nodes == old(nodes) + {x} && |data| == |old(data)| + 1
    {
      var idx := |data|;
      Appended(lt, KeysOf(data), x.key);
      ghost var k := KeysOf(data) + [x.key];
      data := data + [x];
      nodes := nodes + {x};
      x.index := idx;
      assert KeysOf(data) == k;
      SiftUp(idx);
    }

    /** A key that no other is less than. */
    method Top() returns (x: HeapNode<K>)
      requires Valid() && data != []
      ensures x in nodes && x == data[0] && forall y | y in nodes :: !lt(y.key, x.key)
    {
      x := data[0];
      LeastOfAll();
    }

    lemma LeastOfAll()
      requires Valid() && data != []
      ensures forall y | y in nodes :: !lt(y.key, data[0].key)
    {
      forall y | y in nodes ensures !lt(y.key, data[0].key) {
        var j :| 0 <= j < |data| && data[j] == y;
        RootIsLeast(lt, KeysOf(data), j);
      }
    }

    /** update, after the key of x alone has changed in any way. */
    method Update(x: HeapNode<K>)
      requires StrictWeakOrder(lt) && Indexed() && x in nodes
      requires 0 <= x.index < |data| && HeapBut(lt, KeysOf(data), x.index)
      modifies this`data, nodes`index
      ensures Valid() && |data| == |old(data)|
    {
      var idx: nat := x.index;
      assert data[idx] == x;
      ParentBelow(idx);
      var above := lt(x.key, data[Parent(idx)].key);
      assert above <==> !Ordered(lt, KeysOf(data), idx);
      if above {
        BridgeUp(lt, KeysOf(data), idx);
        SiftUp(idx);
      } else {
        SiftDown(idx);
      }
    }

    /** The two steps of a caller: a new key, then update. */
    method ChangeKey(x: HeapNode<K>, key: K)
      requires Valid() && x in nodes
      modifies this`data, nodes`index, x`key
      ensures Valid() && |data| == |old(data)| && x.key == key
    {
      ghost var k := KeysOf(data);
      ghost var i :| 0 <= i < |data| && data[i] == x;
      AfterChange(lt, k, i, key);
      x.key := key;
      assert KeysOf(data) == k[i := key];
      Update(x);
    }

    /** Takes the node at idx out: the last one takes its place, unless it is the last. */
    method TakeOut(idx: nat)
      requires Valid() && idx < |data|
      modifies this`data, this`nodes, nodes`index
      ensures Indexed() && |data| == |old(data)| - 1
      ensures nodes == old(nodes) - {old(data[idx])} && old(data[idx]).index == -1
      ensures if idx < |data| then HeapBut(lt, KeysOf(data), idx) else Heap(lt, KeysOf(data))
    {
      ghost var k := KeysOf(data);
      var last := |data| - 1;
      var removed := data[idx];
      if idx != last {
        SwapNode(idx, last);
      }
      data := data[..last];
      nodes := nodes - {removed};
      removed.index := -1;
      PrefixHeap(lt, k, last);
      if idx < last {
        AfterChange(lt, k[..last], idx, k[last]);
        assert KeysOf(data) == k[..last][idx := k[last]];
      } else {
        assert KeysOf(data) == k[..last];
      }
    }

    /** remove_at: sift down, then up. */
    method RemoveAt(idx: nat)
      requires Valid() && idx < |data|
      modifies this`data, this`nodes, nodes`index
      ensures Valid() && |data| == |old(data)| - 1
      ensures nodes == old(nodes) - {old(data[idx])} && old(data[idx]).index == -1
    {
      TakeOut(idx);
      if idx < |data| {
        SiftDown(idx);
        SiftUp(idx);
      }
    }

    /** pop: what comes out is not greater than anything that stays. */
    method PopLeast() returns (ret: HeapNode<K>)
      requires Valid() && data != []
      modifies this`data, this`nodes, nodes`index
      ensures Valid() && ret == old(data[0]) && ret in old(nodes) && nodes == old(nodes) - {ret} && ret.index == -1
      ensures |data| == |old(data)| - 1 && forall y | y in nodes :: !lt(y.key, ret.key)
    {
      LeastOfAll();
      ret := data[0];
      RemoveAt(0);
    }
  }

  /** Popping until nothing is left gives all members, each once, in order. */
  method Drain<K(!new, 0)>(h: IntrusiveHeap<K>) returns (out: seq<HeapNode<K>>)
    requires h.Valid()
    modifies h`data, h`nodes, h.nodes`index
    ensures h.Valid() && h.nodes == {} && Members(out) == old(h.nodes) && |out| == old(|h.data|)
    ensures forall i, j | 0 <= i < j < |out| :: out[i] != out[j] && !h.lt(out[j].key, out[i].key)
  {
    out := [];
    while h.data != []
      invariant h.Valid() && Members(out) + h.nodes == old(h.nodes) && |out| + |h.data| == old(|h.data|)
      invariant forall x, y | x in out && y in h.nodes :: x != y && !h.lt(y.key, x.key)
      invariant forall i, j | 0 <= i < j < |out| :: out[i] != out[j] && !h.lt(out[j].key, out[i].key)
      decreases |h.data|
    {
      var x := h.PopLeast();
      out := out + [x];
    }
  }
}

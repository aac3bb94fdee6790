/** Heap order on sequences of keys, and what the swaps of src/basic_struct/min_heap.h do
    to it. */
module HeapOrder {
  import opened Order

  /** C++ division truncates: the parent of 0 is 0. */
  function Parent(i: nat): nat {
    if i == 0 then 0 else (i - 1) / 2
  }

  lemma ParentBelow(i: nat)
    ensures i > 0 ==> Parent(i) < i
    ensures forall j: nat :: Parent(j) == i && j > 0 <==> j == 2 * i + 1 || j == 2 * i + 2
  {
  }

  function Swap<T>(s: seq<T>, i: nat, j: nat): (s': seq<T>)
    requires i < |s| && j < |s|
    ensures |s'| == |s|
  {
    s[i := s[j]][j := s[i]]
  }

  /** The key at j is not less than the one above. */
  predicate Ordered<K>(lt: (K, K) -> bool, k: seq<K>, j: nat)
    requires j < |k|
  {
    !lt(k[j], k[Parent(j)])
  }

  predicate Heap<K>(lt: (K, K) -> bool, k: seq<K>) {
    forall j | 0 < j < |k| :: Ordered(lt, k, j)
  }

  /** The children of i are not less than i's parent. */
  predicate Bridged<K>(lt: (K, K) -> bool, k: seq<K>, i: nat)
    requires i < |k|
  {
    i > 0 ==> forall j | 0 < j < |k| && Parent(j) == i :: !lt(k[j], k[Parent(i)])
  }

  /** A heap but for the key at i, which may be anything. */
  predicate HeapBut<K>(lt: (K, K) -> bool, k: seq<K>, i: nat)
    requires i < |k|
  {
    (forall j | 0 < j < |k| && j != i && Parent(j) != i :: Ordered(lt, k, j)) && Bridged(lt, k, i)
  }

  /** A heap but for the key at i being perhaps less than its parent. */
  predicate HeapUp<K>(lt: (K, K) -> bool, k: seq<K>, i: nat)
    requires i < |k|
  {
    (forall j | 0 < j < |k| && j != i :: Ordered(lt, k, j)) && Bridged(lt, k, i)
  }

  /** While the key that started at i0 sinks and is at i now. */
  predicate HeapDown<K>(lt: (K, K) -> bool, k: seq<K>, i: nat, i0: nat)
    requires i < |k| && i0 < |k|
  {
    && (forall j | 0 < j < |k| && j != i0 && Parent(j) != i :: Ordered(lt, k, j))
    && Bridged(lt, k, i) && Bridged(lt, k, i0) && (i != i0 && i0 > 0 ==> Ordered(lt, k, i0))
  }

  /** However one key of a heap changes, it is a heap but for that key. */
  lemma AfterChange<K(!new)>(lt: (K, K) -> bool, k: seq<K>, i: nat, v: K)
    requires StrictWeakOrder(lt) && Heap(lt, k) && i < |k|
    ensures HeapBut(lt, k[i := v], i)
  {
    var k' := k[i := v];
    forall j | 0 < j < |k| && j != i && Parent(j) != i ensures Ordered(lt, k', j) {
      assert Ordered(lt, k, j);
    }
    forall j | 0 < j < |k| && Parent(j) == i && i > 0 ensures !lt(k'[j], k'[Parent(i)]) {
      ParentBelow(j);
      ParentBelow(i);
      assert Ordered(lt, k, j) && Ordered(lt, k, i);
      NotGreater(lt, k[Parent(i)], k[i], k[j]);
    }
  }

  lemma PrefixHeap<K>(lt: (K, K) -> bool, k: seq<K>, n: nat)
    requires Heap(lt, k) && n <= |k|
    ensures Heap(lt, k[..n])
  {
    forall j | 0 < j < n ensures Ordered(lt, k[..n], j) {
      assert Ordered(lt, k, j);
    }
  }

  /** Appending a key gives a heap but for that key. */
  lemma Appended<K>(lt: (K, K) -> bool, k: seq<K>, v: K)
    requires Heap(lt, k)
    ensures HeapUp(lt, k + [v], |k|)
  {
    forall j | 0 < j < |k| ensures Ordered(lt, k + [v], j) {
      assert Ordered(lt, k, j);
    }
  }

  /** One round of sift_up. */
  lemma UpRound<K(!new)>(lt: (K, K) -> bool, k: seq<K>, i: nat)
    requires StrictWeakOrder(lt) && 0 < i < |k| && HeapUp(lt, k, i) && lt(k[i], k[Parent(i)])
    ensures HeapUp(lt, Swap(k, i, Parent(i)), Parent(i))
  {
    var p, k' := Parent(i), Swap(k, i, Parent(i));
    ParentBelow(i);
    ParentBelow(p);
    forall j | 0 < j < |k| && j != p ensures Ordered(lt, k', j) {
      if j != i {
        assert Ordered(lt, k, j);
        if Parent(j) == p {
          NotGreater(lt, k[i], k[p], k[j]);
        }
      }
    }
    forall j | 0 < j < |k| && Parent(j) == p && p > 0 ensures !lt(k'[j], k'[Parent(p)]) {
      ParentBelow(j);
      assert Ordered(lt, k, p);
      if j != i {
        assert Ordered(lt, k, j);
        NotGreater(lt, k[Parent(p)], k[p], k[j]);
      }
    }
  }

  lemma UpDone<K>(lt: (K, K) -> bool, k: seq<K>, i: nat)
    requires i < |k| && HeapUp(lt, k, i) && (i > 0 ==> !lt(k[i], k[Parent(i)]))
    ensures Heap(lt, k)
  {
    forall j | 0 < j < |k| ensures Ordered(lt, k, j) {
    }
  }

  /** A key less than its parent is less than its children. */
  lemma BridgeUp<K(!new)>(lt: (K, K) -> bool, k: seq<K>, i: nat)
    requires StrictWeakOrder(lt) && i < |k| && HeapBut(lt, k, i) && lt(k[i], k[Parent(i)])
    ensures HeapUp(lt, k, i)
  {
    ParentBelow(i);
    forall j | 0 < j < |k| && j != i ensures Ordered(lt, k, j) {
      if Parent(j) == i {
        ParentBelow(j);
        NotGreater(lt, k[i], k[Parent(i)], k[j]);
      }
    }
  }

  /** c is a child of i with a key that is less than i's and not greater than its sibling's. */
  predicate LeastChild<K>(lt: (K, K) -> bool, k: seq<K>, i: nat, c: nat) {
    && 0 < c < |k| && i < |k| && Parent(c) == i && lt(k[c], k[i])
    && forall j | 0 < j < |k| && Parent(j) == i :: !lt(k[j], k[c])
  }

  /** One round of sift_down. */
  lemma DownRound<K(!new)>(lt: (K, K) -> bool, k: seq<K>, i: nat, i0: nat, c: nat)
    requires StrictWeakOrder(lt) && i0 <= i < |k| && HeapDown(lt, k, i, i0) && LeastChild(lt, k, i, c)
    ensures HeapDown(lt, Swap(k, i, c), c, i0)
  {
    var k' := Swap(k, i, c);
    ParentBelow(i);
    ParentBelow(c);
    ParentBelow(i0);
    forall j | 0 < j < |k| && j != i0 && Parent(j) != c ensures Ordered(lt, k', j) {
      DownOrdered(lt, k, i, i0, c, j);
    }
    forall j | 0 < j < |k| && Parent(j) == c ensures !lt(k'[j], k'[Parent(c)]) {
      ParentBelow(j);
      assert Ordered(lt, k, j);
    }
    if i0 > 0 {
      DownTop(lt, k, i, i0, c);
    }
  }

  lemma DownOrdered<K(!new)>(lt: (K, K) -> bool, k: seq<K>, i: nat, i0: nat, c: nat, j: nat)
    requires StrictWeakOrder(lt) && i0 <= i < |k| && HeapDown(lt, k, i, i0) && LeastChild(lt, k, i, c)
    requires 0 < j < |k| && j != i0 && Parent(j) != c
    ensures Ordered(lt, Swap(k, i, c), j)
  {
    ParentBelow(j);
    ParentBelow(i);
    if j == c || Parent(j) == i {
    } else if j == i {
      assert !lt(k[c], k[Parent(i)]);
    } else {
      assert Ordered(lt, k, j);
    }
  }

  lemma DownTop<K(!new)>(lt: (K, K) -> bool, k: seq<K>, i: nat, i0: nat, c: nat)
    requires StrictWeakOrder(lt) && 0 < i0 <= i < |k| && HeapDown(lt, k, i, i0) && LeastChild(lt, k, i, c)
    ensures Ordered(lt, Swap(k, i, c), i0) && Bridged(lt, Swap(k, i, c), i0)
  {
    var k' := Swap(k, i, c);
    ParentBelow(i0);
    ParentBelow(c);
    if i == i0 {
      assert !lt(k[c], k[Parent(i0)]);
    }
    forall j | 0 < j < |k| && Parent(j) == i0 ensures !lt(k'[j], k'[Parent(i0)]) {
      ParentBelow(j);
      if i == i0 {
        if j == c {
          DownBridge(lt, k, i0, c);
        }
      } else {
        assert !lt(k[j], k[Parent(i0)]);
        if j == i {
          assert !lt(k[c], k[Parent(i)]) && Ordered(lt, k, i0);
          NotGreater(lt, k[Parent(i0)], k[i0], k[c]);
        }
      }
    }
  }

  lemma DownBridge<K(!new)>(lt: (K, K) -> bool, k: seq<K>, i: nat, c: nat)
    requires StrictWeakOrder(lt) && 0 < i < |k| && Bridged(lt, k, i) && LeastChild(lt, k, i, c)
    ensures !lt(k[i], k[Parent(i)])
  {
    assert !lt(k[c], k[Parent(i)]);
    NotGreater(lt, k[Parent(i)], k[c], k[i]);
  }

  lemma DownDone<K>(lt: (K, K) -> bool, k: seq<K>, i: nat, i0: nat)
    requires i < |k| && i0 < |k| && HeapDown(lt, k, i, i0)
    requires forall j | 0 < j < |k| && Parent(j) == i :: !lt(k[j], k[i])
    ensures HeapUp(lt, k, i0)
  {
    forall j | 0 < j < |k| && j != i0 ensures Ordered(lt, k, j) {
    }
  }

  lemma {:induction false} RootIsLeast<K(!new)>(lt: (K, K) -> bool, k: seq<K>, j: nat)
    requires StrictWeakOrder(lt) && Heap(lt, k) && j < |k|
    ensures !lt(k[j], k[0])
  {
    if j > 0 {
      ParentBelow(j);
      RootIsLeast(lt, k, Parent(j));
      assert Ordered(lt, k, j);
      NotGreater(lt, k[0], k[Parent(j)], k[j]);
    }
  }
}

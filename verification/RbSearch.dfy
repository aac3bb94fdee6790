/** Searching a tree under a strict weak order, and what a search says about the whole. */
module RbSearch {
  import opened Order
  import opened RbShape
  import opened RbFix

  ghost predicate Sorted<K>(lt: (K, K) -> bool, s: seq<K>) {
    forall i, j | 0 <= i < j < |s| :: lt(s[i], s[j])
  }

  ghost function Contents<N, K>(t: Tree<N, K>): set<K> {
    set k | k in Keys(t)
  }

  /** No key in s counts as equal to v. */
  ghost predicate Absent<K>(lt: (K, K) -> bool, s: set<K>, v: K) {
    forall k | k in s :: !Equivalent(lt, k, v)
  }

  /** The context is one a search for v descends: everything left of the hole is below v,
      everything right of it above. */
  ghost predicate Around<N, K>(lt: (K, K) -> bool, ctx: Ctx<N, K>, v: K) {
    (forall k | k in LeftKeys(ctx) :: lt(k, v)) && (forall k | k in RightKeys(ctx) :: lt(v, k))
  }

  lemma MiddleSorted<K>(lt: (K, K) -> bool, a: seq<K>, b: seq<K>, c: seq<K>)
    requires Sorted(lt, a + b + c)
    ensures Sorted(lt, b)
  {
    assert forall i | 0 <= i < |b| :: (a + b + c)[|a| + i] == b[i];
  }

  lemma SortedParts<N, K>(lt: (K, K) -> bool, ctx: Ctx<N, K>, t: Tree<N, K>)
    requires Sorted(lt, Keys(Plug(ctx, t)))
    ensures Sorted(lt, Keys(t))
  {
    PlugKeys(ctx, t);
    MiddleSorted(lt, LeftKeys(ctx), Keys(t), RightKeys(ctx));
  }

  lemma NodeSorted<N, K>(lt: (K, K) -> bool, t: Tree<N, K>)
    requires t.Node? && Sorted(lt, Keys(t))
    ensures forall k | k in Keys(t.left) :: lt(k, t.k)
    ensures forall k | k in Keys(t.right) :: lt(t.k, k)
  {
    var s, p := Keys(t), |Keys(t.left)|;
    assert s[p] == t.k;
    forall k | k in Keys(t.left) ensures lt(k, t.k) {
      var i :| 0 <= i < p && Keys(t.left)[i] == k;
      assert s[i] == k;
    }
    forall k | k in Keys(t.right) ensures lt(t.k, k) {
      var i :| 0 <= i < |Keys(t.right)| && Keys(t.right)[i] == k;
      assert s[p + 1 + i] == k;
    }
  }

  /** One step of a search down to side d. */
  lemma Descend<N, K(!new)>(lt: (K, K) -> bool, ctx: Ctx<N, K>, t: Tree<N, K>, d: Dir, v: K)
    requires StrictWeakOrder(lt) && Sorted(lt, Keys(Plug(ctx, t))) && t.Node? && Around(lt, ctx, v)
    requires if d == L then lt(v, t.k) else lt(t.k, v)
    ensures var ctx' := Frame(d, ctx, t.n, t.c, t.k, Kid(Flip(d), t));
            Around(lt, ctx', v) && Plug(ctx', Kid(d, t)) == Plug(ctx, t)
  {
    SortedParts(lt, ctx, t);
    NodeSorted(lt, t);
  }

  /** A search that falls off the tree has ruled out every key. */
  lemma NotFound<N, K>(lt: (K, K) -> bool, ctx: Ctx<N, K>, v: K)
    requires Around(lt, ctx, v)
    ensures Absent(lt, Contents(Plug(ctx, Leaf)), v)
  {
    PlugKeys(ctx, Leaf);
  }

  lemma KeyInTree<N, K>(lt: (K, K) -> bool, ctx: Ctx<N, K>, t: Tree<N, K>, v: K)
    requires t.Node? && Equivalent(lt, v, t.k)
    ensures t.k in Contents(Plug(ctx, t)) && !Absent(lt, Contents(Plug(ctx, t)), v)
  {
    PlugKeys(ctx, t);
  }

  /** Putting v where the search for it fell off keeps the order and adds just v. */
  lemma Added<N, K>(lt: (K, K) -> bool, ctx: Ctx<N, K>, v: K, t: Tree<N, K>)
    requires Around(lt, ctx, v) && Sorted(lt, Keys(Plug(ctx, Leaf))) && Keys(t) == [v]
    ensures Sorted(lt, Keys(Plug(ctx, t)))
    ensures Contents(Plug(ctx, t)) == Contents(Plug(ctx, Leaf)) + {v}
  {
    PlugKeys(ctx, t);
    PlugKeys(ctx, Leaf);
    var l, r := LeftKeys(ctx), RightKeys(ctx);
    var s, s' := Keys(Plug(ctx, Leaf)), Keys(Plug(ctx, t));
    assert s == l + r && s' == l + [v] + r;
    forall i, j | 0 <= i < j < |s'| ensures lt(s'[i], s'[j]) {
      if i == |l| {
        assert s'[j] in r;
      } else if j == |l| {
        assert s'[i] in l;
      } else {
        assert s'[i] == s[if i < |l| then i else i - 1] && s'[j] == s[if j < |l| then j else j - 1];
      }
    }
  }

  lemma DroppedSorted<K>(lt: (K, K) -> bool, s: seq<K>, s': seq<K>, p: nat)
    requires Sorted(lt, s) && p < |s| && s' == s[..p] + s[p + 1..]
    ensures Sorted(lt, s')
  {
    forall i, j | 0 <= i < j < |s'| ensures lt(s'[i], s'[j]) {
      assert s'[i] == s[if i < p then i else i + 1] && s'[j] == s[if j < p then j else j + 1];
    }
  }

  lemma DroppedMembers<K(!new)>(lt: (K, K) -> bool, s: seq<K>, s': seq<K>, p: nat, v: K, k: K)
    requires StrictWeakOrder(lt) && Sorted(lt, s) && p < |s| && Equivalent(lt, v, s[p])
    requires s' == s[..p] + s[p + 1..]
    ensures k in s' <==> k in s && !Equivalent(lt, k, v)
  {
    if k in s {
      var i :| 0 <= i < |s| && s[i] == k;
      DroppedAt(lt, s, s', p, v, i);
    }
  }

  /** Taking out the node a search for v stopped at keeps the order and removes exactly
      the keys equivalent to v. */
  lemma Dropped<N, K(!new)>(lt: (K, K) -> bool, before: Tree<N, K>, after: Tree<N, K>, p: nat, v: K)
    requires StrictWeakOrder(lt) && Sorted(lt, Keys(before)) && p < |Keys(before)|
    requires Equivalent(lt, v, Keys(before)[p])
    requires Keys(after) == Keys(before)[..p] + Keys(before)[p + 1..]
    ensures Sorted(lt, Keys(after))
    ensures Contents(after) == set k | k in Contents(before) && !Equivalent(lt, k, v)
  {
    DroppedSorted(lt, Keys(before), Keys(after), p);
    forall k ensures k in Contents(after) <==> k in Contents(before) && !Equivalent(lt, k, v) {
      DroppedMembers(lt, Keys(before), Keys(after), p, v, k);
    }
  }

  lemma DroppedAt<K(!new)>(lt: (K, K) -> bool, s: seq<K>, s': seq<K>, p: nat, v: K, i: nat)
    requires StrictWeakOrder(lt) && Sorted(lt, s) && p < |s| && i < |s| && Equivalent(lt, v, s[p])
    requires s' == s[..p] + s[p + 1..]
    ensures s[i] in s' <==> i != p
    ensures Equivalent(lt, s[i], v) <==> i == p
  {
    if i == p {
      forall j | 0 <= j < |s'| ensures s'[j] != s[p] {
        assert s'[j] == s[if j < p then j else j + 1];
        assert lt(s'[j], s[p]) || lt(s[p], s'[j]);
      }
    } else {
      assert s'[if i < p then i else i - 1] == s[i];
      assert lt(s[i], s[p]) || lt(s[p], s[i]);
      assert Equivalent(lt, s[i], v) ==> Equivalent(lt, s[i], s[p]);
    }
  }

  /** The key of an outermost node comes before or after all others. */
  lemma Outermost<N, K>(lt: (K, K) -> bool, d: Dir, inner: Ctx<N, K>, u: Tree<N, K>)
    requires Spine(d, inner) && u.Node? && Kid(d, u).Leaf? && Sorted(lt, Keys(Plug(inner, u)))
    ensures u.k in Contents(Plug(inner, u))
    ensures forall k | k in Contents(Plug(inner, u)) :: k == u.k || (if d == L then lt(u.k, k) else lt(k, u.k))
  {
    EndKey(d, inner, u);
    var s := Keys(Plug(inner, u));
    var p := if d == L then 0 else |s| - 1;
    assert s[p] == u.k;
    forall k | k in s ensures k == u.k || (if d == L then lt(u.k, k) else lt(k, u.k)) {
      var i :| 0 <= i < |s| && s[i] == k;
    }
  }

  /** Keys in order are all different. */
  lemma {:induction false} CountKeys<K(!new)>(lt: (K, K) -> bool, s: seq<K>)
    requires StrictWeakOrder(lt) && Sorted(lt, s)
    ensures |set k | k in s| == |s|
  {
    if s != [] {
      var last, rest := s[|s| - 1], s[..|s| - 1];
      CountKeys(lt, rest);
      assert forall i | 0 <= i < |rest| :: lt(rest[i], last);
      assert (set k | k in s) == (set k | k in rest) + {last};
    }
  }
}

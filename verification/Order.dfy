/** What a comparer has to be. */
module Order {
  ghost predicate StrictWeakOrder<K(!new)>(lt: (K, K) -> bool) {
    && (forall a :: !lt(a, a))
    && (forall a, b, c :: lt(a, b) && lt(b, c) ==> lt(a, c))
    && (forall a, b, c :: Equivalent(lt, a, b) && Equivalent(lt, b, c) ==> Equivalent(lt, a, c))
  }

  predicate Equivalent<K>(lt: (K, K) -> bool, a: K, b: K) {
    !lt(a, b) && !lt(b, a)
  }

  /** Not greater is transitive. */
  lemma NotGreater<K(!new)>(lt: (K, K) -> bool, a: K, b: K, c: K)
    requires StrictWeakOrder(lt) && !lt(b, a) && !lt(c, b)
    ensures !lt(c, a)
  {
    if lt(c, a) {
      if !lt(a, b) && !lt(b, c) {
        assert Equivalent(lt, a, b) && Equivalent(lt, b, c);
      }
    }
  }
}

/** The chunked vector of src/basic_struct/chunked_vector.h: a flat sequence cut into blocks
    of b elements. */
module ChunkedVector {
  import opened Basics

  function Min(a: nat, b: nat): nat {
    if a < b then a else b
  }

  /** The index of the first element of block i. */
  function Start(i: nat, b: Pos): nat {
    if i == 0 then 0 else Start(i - 1, b) + b
  }

  /** Block i of the sequence s. */
  function Chunk<T>(s: seq<T>, b: Pos, i: nat): (c: seq<T>)
    ensures |c| == Min(Start(i + 1, b), |s|) - Min(Start(i, b), |s|) <= b
  {
    s[Min(Start(i, b), |s|)..Min(Start(i + 1, b), |s|)]
  }

  /** The blocks are the chunks of s, perhaps followed by empty blocks. */
  ghost predicate Chunked<T>(blocks: seq<seq<T>>, s: seq<T>, b: Pos) {
    |s| <= Start(|blocks|, b) && forall i | 0 <= i < |blocks| :: blocks[i] == Chunk(s, b, i)
  }

  function BlockCount(n: nat, b: Pos): nat {
    (n + b - 1) / b
  }

  lemma {:induction false} StartIs(i: nat, b: Pos)
    ensures Start(i, b) == i * b
  {
    if i > 0 {
      StartIs(i - 1, b);
      assert i * b == (i - 1) * b + b;
    }
  }

  lemma Div(n: nat, b: Pos)
    ensures n == Start(n / b, b) + n % b && n % b < b
  {
    StartIs(n / b, b);
  }

  lemma {:induction false} Mono(i: nat, j: nat, b: Pos)
    requires i <= j
    ensures Start(i, b) <= Start(j, b) && (i < j ==> Start(i, b) + b <= Start(j, b))
    decreases j
  {
    if i < j {
      Mono(i, j - 1, b);
    }
  }

  lemma Uniquely(n: nat, b: Pos, q: nat)
    requires Start(q, b) <= n < Start(q, b) + b
    ensures n / b == q && n % b == n - Start(q, b)
  {
    Div(n, b);
    if n / b < q {
      Mono(n / b, q, b);
    } else if q < n / b {
      Mono(q, n / b, b);
    }
  }

  /** Element n is, or would be, number r of block q. */
  predicate Splits(n: nat, b: Pos, q: nat, r: nat) {
    n == Start(q, b) + r && r < b
  }

  lemma Split(n: nat, b: Pos) returns (q: nat, r: nat)
    ensures Splits(n, b, q, r)
  {
    q, r := n / b, n % b;
    Div(n, b);
  }

  lemma CountIs(n: nat, b: Pos, q: nat, r: nat)
    requires Splits(n, b, q, r)
    ensures BlockCount(n, b) == if r == 0 then q else q + 1
  {
    Uniquely(n + b - 1, b, if r == 0 then q else q + 1);
  }

  lemma NextCount(n: nat, b: Pos, q: nat, r: nat)
    requires Splits(n, b, q, r)
    ensures BlockCount(n + 1, b) == q + 1
  {
    Uniquely(n + b, b, q + 1);
  }

  /** As many blocks as are needed and no more. */
  lemma Needed(n: nat, b: Pos)
    ensures var c := BlockCount(n, b); n <= Start(c, b) && (c > 0 ==> Start(c - 1, b) < n)
  {
    Div(n, b);
    CountIs(n, b, n / b, n % b);
  }

  lemma InBounds(size: nat, n: nat, b: Pos, q: nat, r: nat)
    requires size < n && Splits(size, b, q, r)
    ensures q < BlockCount(n, b)
  {
    Needed(n, b);
    if BlockCount(n, b) <= q {
      Mono(BlockCount(n, b), q, b);
    }
  }

  lemma MoreNeeded(m: nat, n: nat, b: Pos)
    requires m <= n
    ensures BlockCount(m, b) <= BlockCount(n, b)
  {
    Needed(m, b);
    Needed(n, b);
    if BlockCount(m, b) > BlockCount(n, b) {
      Mono(BlockCount(n, b), BlockCount(m, b) - 1, b);
    }
  }

  /** With exactly the blocks needed, all but the last are full and the last is not empty. */
  lemma AllButLastFull<T>(blocks: seq<seq<T>>, s: seq<T>, b: Pos, i: nat)
    requires Chunked(blocks, s, b) && |blocks| == BlockCount(|s|, b) && i < |blocks|
    ensures if i < |blocks| - 1 then |blocks[i]| == b else 0 < |blocks[i]|
  {
    Needed(|s|, b);
    if i < |blocks| - 1 {
      Mono(i + 1, |blocks| - 1, b);
      Mono(i, i + 1, b);
    }
  }

  /** Where element k is. */
  lemma Locate<T>(blocks: seq<seq<T>>, s: seq<T>, b: Pos, k: nat, q: nat, r: nat)
    requires Chunked(blocks, s, b) && k < |s| && Splits(k, b, q, r)
    ensures q < |blocks| && r < |blocks[q]| && blocks[q][r] == s[k]
  {
    if q >= |blocks| {
      Mono(|blocks|, q, b);
    }
    assert blocks[q] == Chunk(s, b, q);
  }

  /** Appending inside block q changes that block alone. */
  lemma Extend<T>(s: seq<T>, more: seq<T>, b: Pos, q: nat, i: nat)
    requires Start(q, b) <= |s| && |s| + |more| <= Start(q + 1, b)
    ensures Chunk(s + more, b, i) == if i == q then Chunk(s, b, q) + more else Chunk(s, b, i)
  {
    if i < q {
      Mono(i, q, b);
    } else if q < i {
      Mono(q, i, b);
    }
  }

  lemma EmptyChunk<T>(s: seq<T>, b: Pos, i: nat)
    requires |s| <= Start(i, b)
    ensures Chunk(s, b, i) == []
  {
  }

  /** Cutting off inside block q leaves the blocks before it alone. */
  lemma CutBefore<T>(s: seq<T>, n: nat, b: Pos, q: nat, i: nat)
    requires Start(q, b) <= n <= |s| && i < q
    ensures Chunk(s[..n], b, i) == Chunk(s, b, i)
  {
    Mono(i + 1, q, b);
    assert s[..n][Start(i, b)..Start(i + 1, b)] == s[Start(i, b)..Start(i + 1, b)];
  }

  lemma SliceTwice<T>(s: seq<T>, lo: nat, n: nat, hi: nat)
    requires lo <= n <= hi <= |s|
    ensures s[..n][lo..n] == s[lo..hi][..n - lo]
  {
  }

  /** and cuts block q. */
  lemma CutAt<T>(s: seq<T>, n: nat, b: Pos, q: nat, r: nat)
    requires n < |s| && Splits(n, b, q, r)
    ensures r < |Chunk(s, b, q)| && Chunk(s[..n], b, q) == Chunk(s, b, q)[..r]
    ensures n + 1 == |s| ==> |Chunk(s, b, q)| == r + 1
  {
    var lo, hi := Start(q, b), Min(Start(q + 1, b), |s|);
    assert lo + r == n <= hi;
    SliceTwice(s, lo, n, hi);
  }

  /** std::vector::resize. */
  function Resized<T>(s: seq<T>, n: nat, v: T): (s': seq<T>)
    ensures |s'| == n
  {
    if n <= |s| then s[..n] else s + seq(n - |s|, _ => v)
  }

  lemma ResizedTwice<T>(s: seq<T>, m: nat, n: nat, v: T)
    requires |s| <= m <= n
    ensures Resized(s, n, v) == Resized(s, m, v) + seq(n - m, _ => v)
  {
  }

  class ChunkedVector<T> {
    const b: Pos                 // BlockSize
    var blocks: seq<seq<T>>
    var total: nat
    ghost var flat: seq<T>       // the elements in order

    ghost predicate Valid()
      reads this
    {
      total == |flat| && |blocks| == BlockCount(total, b) && Chunked(blocks, flat, b)
    }

    constructor (b: Pos)
      ensures Valid() && flat == [] && this.b == b
    {
      this.b := b;
      blocks, total, flat := [], 0, [];
      Needed(0, b);
    }

    /** operator[]. */
    method At(index: nat) returns (v: T)
      requires Valid() && index < total
      ensures v == flat[index]
    {
      var q, r := index / b, index % b;
      Div(index, b);
      Locate(blocks, flat, b, index, q, r);
      v := blocks[q][r];
    }

    method PushBack(v: T)
      requires Valid()
      modifies this
      ensures Valid() && flat == old(flat) + [v]
    {
      ghost var q, r := Split(total, b);
      PushFacts(v, q, r);
      if |blocks| == 0 || |blocks[|blocks| - 1]| == b {
        blocks := blocks + [[]];
      }
      var last := |blocks| - 1;
      blocks := blocks[last := blocks[last] + [v]];
      total := total + 1;
      flat := flat + [v];
    }

    method PopBack()
      requires Valid()
      modifies this
      ensures Valid() && flat == if old(flat) == [] then [] else old(flat)[..|old(flat)| - 1]
    {
      if total == 0 {
        return;
      }
      ghost var q, r := Split(total - 1, b);
      CutFacts(total - 1, q, r);
      NextCount(total - 1, b, q, r);
      CountIs(total - 1, b, q, r);
      var last := |blocks| - 1;
      blocks := blocks[last := blocks[last][..|blocks[last]| - 1]];
      total := total - 1;
      flat := flat[..total];
      if blocks[last] == [] {
        blocks := blocks[..last];
      }
    }

    /** Where the first n elements end. */
    lemma CutFacts(n: nat, q: nat, r: nat)
      requires Valid() && n < total && Splits(n, b, q, r)
      ensures q < |blocks| && r < |blocks[q]| && (n == total - 1 ==> |blocks[q]| == r + 1)
      ensures forall i | 0 <= i < q :: Chunk(flat[..n], b, i) == blocks[i]
      ensures Chunk(flat[..n], b, q) == blocks[q][..r]
    {
      Locate(blocks, flat, b, n, q, r);
      forall i | 0 <= i < q ensures Chunk(flat[..n], b, i) == blocks[i] {
        CutBefore(flat, n, b, q, i);
        assert blocks[i] == Chunk(flat, b, i);
      }
      assert blocks[q] == Chunk(flat, b, q);
      CutAt(flat, n, b, q, r);
    }

    /** resize: cuts off after n elements, or pads with value up to n. */
    method Resize(n: nat, value: T)
      requires Valid()
      modifies this
      ensures Valid() && flat == Resized(old(flat), n, value)
    {
      if n == total {
        return;
      }
      if n < total {
        Shrink(n, value);
      } else {
        Grow(n, value);
      }
    }

    method Shrink(n: nat, value: T)
      requires Valid() && n < total
      modifies this
      ensures Valid() && flat == old(flat)[..n]
    {
      var last, rest := n / b, n % b;
      Div(n, b);
      CutFacts(n, last, rest);
      CountIs(n, b, last, rest);
      var newCount := BlockCount(n, b);
      if |blocks| != 0 {
        blocks := blocks[last := Resized(blocks[last], rest, value)];
      }
      if newCount < |blocks| {
        blocks := Resized(blocks, newCount, []);
      }
      total := n;
      flat := flat[..n];
    }

    method Grow(n: nat, value: T)
      requires Valid() && n > total
      modifies this
      ensures Valid() && flat == Resized(old(flat), n, value)
    {
      var newCount := BlockCount(n, b);
      MoreNeeded(total, n, b);
      AddBlocks(newCount);
      ghost var q;
      var size;
      size, q := FillFirst(n, value);
      while size + b <= n
        invariant old(total) <= size <= n && (size < n ==> Splits(size, b, q, 0)) && |blocks| == newCount
        invariant flat == Resized(old(flat), size, value) && Chunked(blocks, flat, b)
        decreases n - size
      {
        InBounds(size, n, b, q, 0);
        Uniquely(size, b, q);
        Fill(size / b, b, 0, size, size + b, value, old(flat));
        size, q := size + b, q + 1;
      }
      if size < n {
        InBounds(size, n, b, q, 0);
        Uniquely(size, b, q);
        Uniquely(n, b, q);
        Fill(size / b, n % b, 0, size, n, value, old(flat));
      }
      Needed(n, b);
      total := n;
    }

    /** Fills the last block there was, or the first new one. */
    method FillFirst(n: nat, value: T) returns (size: nat, ghost next: nat)
      requires |flat| == total < n && |blocks| == BlockCount(n, b) && Chunked(blocks, flat, b)
      modifies this`blocks, this`flat
      ensures total <= size <= n && (size < n ==> Splits(size, b, next, 0)) && |blocks| == old(|blocks|)
      ensures flat == Resized(old(flat), size, value) && Chunked(blocks, flat, b)
    {
      size := total;
      var q, r := size / b, size % b;
      Div(size, b);
      InBounds(size, n, b, q, r);
      next := q + 1;
      if q < |blocks| {
        var fill := Min(b - r, n - size);
        Fill(q, r + fill, r, size, size + fill, value, old(flat));
        size := size + fill;
      }
    }

    method AddBlocks(newCount: nat)
      requires Valid() && newCount >= |blocks|
      modifies this`blocks
      ensures |blocks| == newCount && Chunked(blocks, flat, b)
    {
      forall i | |blocks| <= i < newCount ensures Chunk(flat, b, i) == [] {
        Mono(|blocks|, i, b);
        EmptyChunk(flat, b, i);
      }
      Mono(|blocks|, newCount, b);
      if |blocks| < newCount {
        blocks := Resized(blocks, newCount, []);
      }
    }

    /** blocks_[q].resize(k, value), where `size` of the elements of `was` and the padding are
        there already, ending with r elements in block q. */
    method Fill(q: nat, k: nat, ghost r: nat, ghost size: nat, ghost size': nat, value: T, ghost was: seq<T>)
      requires |was| <= size <= size' && flat == Resized(was, size, value) && Chunked(blocks, flat, b)
      requires q < |blocks| && Splits(size, b, q, r) && k == r + (size' - size) <= b
      modifies this`blocks, this`flat
      ensures flat == Resized(was, size', value) && Chunked(blocks, flat, b) && |blocks| == old(|blocks|)
    {
      ghost var more := seq(size' - size, _ => value);
      FillFacts(q, r, more);
      ResizedTwice(was, size, size', value);
      assert Resized(blocks[q], k, value) == blocks[q] + more;
      blocks := blocks[q := Resized(blocks[q], k, value)];
      flat := flat + more;
    }

    lemma FillFacts(q: nat, r: nat, more: seq<T>)
      requires Chunked(blocks, flat, b) && q < |blocks| && Splits(|flat|, b, q, r) && r + |more| <= b
      ensures |blocks[q]| == r && |flat| + |more| <= Start(|blocks|, b)
      ensures forall i | 0 <= i < |blocks| :: Chunk(flat + more, b, i) == if i == q then blocks[q] + more else blocks[i]
    {
      Mono(q + 1, |blocks|, b);
      assert blocks[q] == Chunk(flat, b, q);
      forall i | 0 <= i < |blocks|
        ensures Chunk(flat + more, b, i) == if i == q then blocks[q] + more else blocks[i]
      {
        Extend(flat, more, b, q, i);
      }
    }

    lemma PushFacts(v: T, q: nat, r: nat)
      requires Valid() && Splits(total, b, q, r)
      ensures |blocks| == (if r == 0 then q else q + 1) && BlockCount(total + 1, b) == q + 1
      ensures |blocks| == 0 || |blocks[|blocks| - 1]| == b <==> r == 0
      ensures r == 0 ==> Chunk(flat, b, q) == []
      ensures total + 1 <= Start(q + 1, b)
      ensures forall i | 0 <= i <= q :: Chunk(flat + [v], b, i) == if i == q then Chunk(flat, b, q) + [v] else Chunk(flat, b, i)
    {
      CountIs(total, b, q, r);
      NextCount(total, b, q, r);
      forall i | 0 <= i <= q
        ensures Chunk(flat + [v], b, i) == if i == q then Chunk(flat, b, q) + [v] else Chunk(flat, b, i)
      {
        Extend(flat, [v], b, q, i);
      }
      if r == 0 {
        EmptyChunk(flat, b, q);
      }
      if |blocks| > 0 {
        assert blocks[|blocks| - 1] == Chunk(flat, b, |blocks| - 1);
      }
    }
  }
}

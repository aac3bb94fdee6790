/** What it means for memory to hold a tree with parent pointers and a shared sentinel, and
    what single pointer updates do to it. */
module RbMemory {
  import opened RbShape

  /** The fields of one node object. */
  datatype Cell<N, K> = Cell(key: K, color: Color, left: N, right: N, parent: N)

  type Memory<!N, K> = map<N, Cell<N, K>>

  function SetKid<N, K>(cell: Cell<N, K>, d: Dir, child: N): Cell<N, K> {
    if d == L then cell.(left := child) else cell.(right := child)
  }

  function WithColor<N, K>(m: Memory<N, K>, n: N, c: Color): Memory<N, K>
    requires n in m
  {
    m[n := m[n].(color := c)]
  }

  function Root<N, K>(t: Tree<N, K>, nil: N): N {
    if t.Leaf? then nil else t.n
  }

  function Holder<N, K>(ctx: Ctx<N, K>, nil: N): N {
    if ctx.Top? then nil else ctx.n
  }

  function CellFor<N, K>(k: K, c: Color, d: Dir, child: N, other: N, parent: N): Cell<N, K> {
    if d == L then Cell(k, c, child, other, parent) else Cell(k, c, other, child, parent)
  }

  /** Memory m holds the tree t below the node p. */
  ghost predicate Linked<N, K>(m: Memory<N, K>, nil: N, t: Tree<N, K>, p: N) {
    match t
    case Leaf => true
    case Node(l, n, c, k, r) =>
      && n != nil && n in m && m[n] == Cell(k, c, Root(l, nil), Root(r, nil), p)
      && Linked(m, nil, l, n) && Linked(m, nil, r, n)
  }

  /** Memory m holds the context ctx around a subtree rooted at `child`. */
  ghost predicate LinkedCtx<N, K>(m: Memory<N, K>, nil: N, ctx: Ctx<N, K>, child: N) {
    match ctx
    case Top => true
    case Frame(d, up, n, c, k, sib) =>
      && n != nil && n in m && m[n] == CellFor(k, c, d, child, Root(sib, nil), Holder(up, nil))
      && Linked(m, nil, sib, n) && LinkedCtx(m, nil, up, n)
  }

  lemma {:induction false} PlugLinked<N, K>(m: Memory<N, K>, nil: N, ctx: Ctx<N, K>, t: Tree<N, K>)
    ensures Linked(m, nil, Plug(ctx, t), nil) <==>
            Linked(m, nil, t, Holder(ctx, nil)) && LinkedCtx(m, nil, ctx, Root(t, nil))
    decreases ctx
  {
    match ctx
    case Top =>
    case Frame(d, up, n, c, k, sib) => PlugLinked(m, nil, up, Mk(d, t, n, c, k, sib));
  }

  /** m and m' agree on the given nodes. */
  ghost predicate Same<N, K>(m: Memory<N, K>, m': Memory<N, K>, nodes: set<N>) {
    forall n | n in nodes && n in m :: n in m' && m'[n] == m[n]
  }

  ghost predicate SameExcept<N, K>(m: Memory<N, K>, m': Memory<N, K>, touched: set<N>) {
    m'.Keys == m.Keys && forall n | n in m && n !in touched :: m'[n] == m[n]
  }

  lemma {:induction false} LinkedSame<N, K>(m: Memory<N, K>, m': Memory<N, K>, nil: N, t: Tree<N, K>, p: N)
    requires Linked(m, nil, t, p) && Same(m, m', Nodes(t))
    ensures Linked(m', nil, t, p)
  {
    match t
    case Leaf =>
    case Node(l, n, c, k, r) =>
      LinkedSame(m, m', nil, l, n);
      LinkedSame(m, m', nil, r, n);
  }

  lemma {:induction false} LinkedCtxSame<N, K>(m: Memory<N, K>, m': Memory<N, K>, nil: N, ctx: Ctx<N, K>, child: N)
    requires LinkedCtx(m, nil, ctx, child) && Same(m, m', CtxNodes(ctx))
    ensures LinkedCtx(m', nil, ctx, child)
  {
    match ctx
    case Top =>
    case Frame(d, up, n, c, k, sib) =>
      LinkedSame(m, m', nil, sib, n);
      LinkedCtxSame(m, m', nil, up, n);
  }

  /** Moving a subtree below another node takes one parent write, at its root. */
  lemma Reparent<N, K>(m: Memory<N, K>, m': Memory<N, K>, nil: N, t: Tree<N, K>, p: N, q: N)
    requires Linked(m, nil, t, p) && Distinct(t)
    requires t.Node? ==> t.n in m' && m'[t.n] == m[t.n].(parent := q)
    requires t.Node? ==> Same(m, m', Nodes(t) - {t.n})
    ensures Linked(m', nil, t, q)
  {
    if t.Node? {
      LinkedSame(m, m', nil, t.left, t.n);
      LinkedSame(m, m', nil, t.right, t.n);
    }
  }

  /** Hanging another subtree into a context takes one child write, at its holder. */
  lemma Rehang<N, K>(m: Memory<N, K>, m': Memory<N, K>, nil: N, ctx: Ctx<N, K>, child: N, child': N)
    requires LinkedCtx(m, nil, ctx, child) && DistinctCtx(ctx)
    requires ctx.Frame? ==> ctx.n in m' && ctx.n in m && m'[ctx.n] == SetKid(m[ctx.n], ctx.d, child')
    requires ctx.Frame? ==> Same(m, m', CtxNodes(ctx) - {ctx.n})
    ensures LinkedCtx(m', nil, ctx, child')
  {
    if ctx.Frame? {
      LinkedSame(m, m', nil, ctx.sib, ctx.n);
      LinkedCtxSame(m, m', nil, ctx.up, ctx.n);
    }
  }

  // ----- whole trees -----

  /** Memory m holds the whole tree t, and the sentinel is as the constructor made it; only
      the sentinel's parent may be anything. */
  ghost predicate Holds<N, K>(m: Memory<N, K>, nil: N, t: Tree<N, K>) {
    && nil in m && m[nil].color == Black && m[nil].left == nil && m[nil].right == nil
    && nil !in Nodes(t) && Nodes(t) <= m.Keys
    && Distinct(t) && Linked(m, nil, t, nil)
  }

  /** What memory says about a subtree and its context. */
  lemma Focus<N, K>(m: Memory<N, K>, nil: N, ctx: Ctx<N, K>, t: Tree<N, K>)
    requires Holds(m, nil, Plug(ctx, t))
    ensures Linked(m, nil, t, Holder(ctx, nil)) && LinkedCtx(m, nil, ctx, Root(t, nil))
    ensures Distinct(t) && DistinctCtx(ctx) && CtxNodes(ctx) !! Nodes(t)
    ensures nil !in CtxNodes(ctx) && nil !in Nodes(t)
    ensures CtxNodes(ctx) <= m.Keys && Nodes(t) <= m.Keys
  {
    PlugLinked(m, nil, ctx, t);
    PlugDistinct(ctx, t);
    PlugNodes(ctx, t);
  }

  lemma Unfocus<N, K>(m: Memory<N, K>, nil: N, ctx: Ctx<N, K>, t: Tree<N, K>)
    requires nil in m && m[nil].color == Black && m[nil].left == nil && m[nil].right == nil
    requires Linked(m, nil, t, Holder(ctx, nil)) && LinkedCtx(m, nil, ctx, Root(t, nil))
    requires Distinct(t) && DistinctCtx(ctx) && CtxNodes(ctx) !! Nodes(t)
    requires nil !in CtxNodes(ctx) && nil !in Nodes(t) && CtxNodes(ctx) <= m.Keys && Nodes(t) <= m.Keys
    ensures Holds(m, nil, Plug(ctx, t))
  {
    PlugLinked(m, nil, ctx, t);
    PlugDistinct(ctx, t);
    PlugNodes(ctx, t);
  }

  /** Writing the colour of a node changes just that colour. */
  lemma Recolor<N, K>(m: Memory<N, K>, nil: N, ctx: Ctx<N, K>, t: Tree<N, K>, c: Color)
    requires Holds(m, nil, Plug(ctx, t)) && t.Node?
    ensures t.n in m && Holds(WithColor(m, t.n, c), nil, Plug(ctx, t.(c := c)))
  {
    Focus(m, nil, ctx, t);
    var m' := WithColor(m, t.n, c);
    LinkedSame(m, m', nil, t.left, t.n);
    LinkedSame(m, m', nil, t.right, t.n);
    LinkedCtxSame(m, m', nil, ctx, t.n);
    Unfocus(m', nil, ctx, t.(c := c));
  }

  /** The pointer writes of a rotation at x towards side d, and no others, lead from m to m'. */
  ghost predicate Rotated<N, K>(m: Memory<N, K>, m': Memory<N, K>, d: Dir, ctx: Ctx<N, K>, x: N, y: N, b: Tree<N, K>, nil: N)
    requires x in m && y in m && (b.Node? ==> b.n in m) && (ctx.Frame? ==> ctx.n in m)
  {
    && SameExcept(m, m', {x, y, Root(b, nil), Holder(ctx, nil)})
    && (nil in m ==> m'[nil] == m[nil])
    && m'[x] == SetKid(m[x], Flip(d), Root(b, nil)).(parent := y)
    && m'[y] == SetKid(m[y], d, x).(parent := Holder(ctx, nil))
    && (b.Node? ==> m'[b.n] == m[b.n].(parent := x))
    && (ctx.Frame? ==> m'[ctx.n] == SetKid(m[ctx.n], ctx.d, y))
  }

  /** n is none of the nodes of three subtrees and a context. */
  ghost predicate Outside<N, K>(n: N, ctx: Ctx<N, K>, a: Tree<N, K>, b: Tree<N, K>, c: Tree<N, K>) {
    n !in Nodes(a) && n !in Nodes(b) && n !in Nodes(c) && n !in CtxNodes(ctx)
  }

  /** Two neighbouring nodes x and y with three subtrees around them, in a context. */
  ghost predicate Apart<N, K>(nil: N, ctx: Ctx<N, K>, a: Tree<N, K>, x: N, b: Tree<N, K>, y: N, c: Tree<N, K>) {
    && Distinct(a) && Distinct(b) && Distinct(c) && DistinctCtx(ctx)
    && x != y && x != nil && y != nil
    && Outside(x, ctx, a, b, c) && Outside(y, ctx, a, b, c) && Outside(nil, ctx, a, b, c)
    && Nodes(a) !! Nodes(b) && Nodes(a) !! Nodes(c) && Nodes(b) !! Nodes(c)
    && Nodes(a) !! CtxNodes(ctx) && Nodes(b) !! CtxNodes(ctx) && Nodes(c) !! CtxNodes(ctx)
  }

  ghost predicate Within<N, K>(m: Memory<N, K>, ctx: Ctx<N, K>, a: Tree<N, K>, b: Tree<N, K>, c: Tree<N, K>) {
    CtxNodes(ctx) <= m.Keys && Nodes(a) <= m.Keys && Nodes(b) <= m.Keys && Nodes(c) <= m.Keys
  }

  /** Memory holds them with x above y, or with y above x. */
  ghost predicate HoldsPair<N, K>(m: Memory<N, K>, nil: N, d: Dir, ctx: Ctx<N, K>, low: Dir,
                                  a: Tree<N, K>, x: N, cx: Color, kx: K, b: Tree<N, K>, y: N, cy: Color, ky: K, c: Tree<N, K>)
  {
    && x in m && y in m
    && if low == d then
         && Linked(m, nil, a, x) && Linked(m, nil, b, x) && Linked(m, nil, c, y) && LinkedCtx(m, nil, ctx, y)
         && m[x] == CellFor(kx, cx, d, Root(a, nil), Root(b, nil), y)
         && m[y] == CellFor(ky, cy, d, x, Root(c, nil), Holder(ctx, nil))
       else
         && Linked(m, nil, a, x) && Linked(m, nil, b, y) && Linked(m, nil, c, y) && LinkedCtx(m, nil, ctx, x)
         && m[x] == CellFor(kx, cx, d, Root(a, nil), y, Holder(ctx, nil))
         && m[y] == CellFor(ky, cy, d, Root(b, nil), Root(c, nil), x)
  }

  lemma RotateSubtrees<N, K>(m: Memory<N, K>, m': Memory<N, K>, nil: N, d: Dir, ctx: Ctx<N, K>,
                             a: Tree<N, K>, x: N, b: Tree<N, K>, y: N, c: Tree<N, K>)
    requires Apart(nil, ctx, a, x, b, y, c) && x in m && y in m
    requires Linked(m, nil, a, x) && Linked(m, nil, b, y) && Linked(m, nil, c, y) && LinkedCtx(m, nil, ctx, x)
    requires Rotated(m, m', d, ctx, x, y, b, nil)
    ensures Linked(m', nil, a, x) && Linked(m', nil, b, x) && Linked(m', nil, c, y) && LinkedCtx(m', nil, ctx, y)
  {
    LinkedSame(m, m', nil, a, x);
    LinkedSame(m, m', nil, c, y);
    Reparent(m, m', nil, b, y, x);
    Rehang(m, m', nil, ctx, x, y);
  }

  lemma RotateLinks<N, K>(m: Memory<N, K>, m': Memory<N, K>, nil: N, d: Dir, ctx: Ctx<N, K>,
                          a: Tree<N, K>, x: N, cx: Color, kx: K, b: Tree<N, K>, y: N, cy: Color, ky: K, c: Tree<N, K>)
    requires Apart(nil, ctx, a, x, b, y, c) && nil in m
    requires HoldsPair(m, nil, d, ctx, Flip(d), a, x, cx, kx, b, y, cy, ky, c)
    requires Rotated(m, m', d, ctx, x, y, b, nil)
    ensures HoldsPair(m', nil, d, ctx, d, a, x, cx, kx, b, y, cy, ky, c) && m'[nil] == m[nil]
  {
    RotateSubtrees(m, m', nil, d, ctx, a, x, b, y, c);
  }

  lemma MkNodes<N, K>(d: Dir, t: Tree<N, K>, n: N, c: Color, k: K, sib: Tree<N, K>)
    ensures Nodes(Mk(d, t, n, c, k, sib)) == Nodes(t) + {n} + Nodes(sib)
    ensures Distinct(Mk(d, t, n, c, k, sib)) <==>
            Distinct(t) && Distinct(sib) && n !in Nodes(t) && n !in Nodes(sib) && Nodes(t) !! Nodes(sib)
  {
  }

  lemma MkLinked<N, K>(m: Memory<N, K>, nil: N, d: Dir, t: Tree<N, K>, n: N, c: Color, k: K, sib: Tree<N, K>, p: N)
    ensures Linked(m, nil, Mk(d, t, n, c, k, sib), p) <==>
            && n != nil && n in m && m[n] == CellFor(k, c, d, Root(t, nil), Root(sib, nil), p)
            && Linked(m, nil, t, n) && Linked(m, nil, sib, n)
  {
  }

  lemma PairAbove<N, K>(m: Memory<N, K>, nil: N, d: Dir, ctx: Ctx<N, K>,
                        a: Tree<N, K>, x: N, cx: Color, kx: K, b: Tree<N, K>, y: N, cy: Color, ky: K, c: Tree<N, K>)
    requires Holds(m, nil, Plug(ctx, Mk(d, a, x, cx, kx, Mk(d, b, y, cy, ky, c))))
    ensures Apart(nil, ctx, a, x, b, y, c) && HoldsPair(m, nil, d, ctx, Flip(d), a, x, cx, kx, b, y, cy, ky, c)
    ensures Within(m, ctx, a, b, c)
  {
    var low := Mk(d, b, y, cy, ky, c);
    var high := Mk(d, a, x, cx, kx, low);
    assert Root(high, nil) == x && Root(low, nil) == y;
    MkNodes(d, a, x, cx, kx, low);
    MkNodes(d, b, y, cy, ky, c);
    MkLinked(m, nil, d, a, x, cx, kx, low, Holder(ctx, nil));
    MkLinked(m, nil, d, b, y, cy, ky, c, x);
    Focus(m, nil, ctx, high);
    FocusPair(m, nil, ctx, high, low, a, x, b, y, c);
  }

  lemma {:induction false} SetsApart<N>(o: set<N>, h: set<N>, l: set<N>, a: set<N>, x: N, b: set<N>, y: N, c: set<N>, nil: N, all: set<N>)
    requires h == a + {x} + l && l == b + {y} + c
    requires x !in a && x !in l && a !! l && y !in b && y !in c && b !! c
    requires o !! h && nil !in o && nil !in h && o <= all && h <= all
    ensures x != y && x != nil && y != nil
    ensures x !in a && x !in b && x !in c && x !in o
    ensures y !in a && y !in b && y !in c && y !in o
    ensures nil !in a && nil !in b && nil !in c && nil !in o
    ensures a !! b && a !! c && b !! c && a !! o && b !! o && c !! o
    ensures a <= all && b <= all && c <= all
  {
  }

  lemma {:induction false} FocusPair<N, K>(m: Memory<N, K>, nil: N, ctx: Ctx<N, K>, high: Tree<N, K>, low: Tree<N, K>,
                        a: Tree<N, K>, x: N, b: Tree<N, K>, y: N, c: Tree<N, K>)
    requires Distinct(high) && Distinct(low) && Distinct(a) && Distinct(b) && Distinct(c) && DistinctCtx(ctx)
    requires Nodes(high) == Nodes(a) + {x} + Nodes(low) && Nodes(low) == Nodes(b) + {y} + Nodes(c)
    requires x !in Nodes(a) && x !in Nodes(low) && Nodes(a) !! Nodes(low)
    requires y !in Nodes(b) && y !in Nodes(c) && Nodes(b) !! Nodes(c)
    requires CtxNodes(ctx) !! Nodes(high) && nil !in CtxNodes(ctx) && nil !in Nodes(high)
    requires CtxNodes(ctx) <= m.Keys && Nodes(high) <= m.Keys
    ensures Apart(nil, ctx, a, x, b, y, c) && Within(m, ctx, a, b, c)
  {
    SetsApart(CtxNodes(ctx), Nodes(high), Nodes(low), Nodes(a), x, Nodes(b), y, Nodes(c), nil, m.Keys);
  }

  lemma {:induction false} SetsJoined<N>(o: set<N>, a: set<N>, x: N, b: set<N>, y: N, c: set<N>, nil: N, all: set<N>)
    requires x != y && x != nil && y != nil && x in all && y in all
    requires x !in a && x !in b && x !in c && x !in o
    requires y !in a && y !in b && y !in c && y !in o
    requires nil !in a && nil !in b && nil !in c && nil !in o
    requires a !! b && a !! c && b !! c && a !! o && b !! o && c !! o
    requires a <= all && b <= all && c <= all
    ensures var l := a + {x} + b; y !in l && l !! c
    ensures var h := a + {x} + b + {y} + c; o !! h && nil !in h && h <= all
  {
  }

  lemma PairBelow<N, K>(m: Memory<N, K>, nil: N, d: Dir, ctx: Ctx<N, K>,
                        a: Tree<N, K>, x: N, cx: Color, kx: K, b: Tree<N, K>, y: N, cy: Color, ky: K, c: Tree<N, K>)
    requires nil in m && m[nil].color == Black && m[nil].left == nil && m[nil].right == nil
    requires Apart(nil, ctx, a, x, b, y, c) && HoldsPair(m, nil, d, ctx, d, a, x, cx, kx, b, y, cy, ky, c)
    requires Within(m, ctx, a, b, c)
    ensures Holds(m, nil, Plug(ctx, Mk(d, Mk(d, a, x, cx, kx, b), y, cy, ky, c)))
  {
    var low := Mk(d, a, x, cx, kx, b);
    var high := Mk(d, low, y, cy, ky, c);
    assert Root(high, nil) == y && Root(low, nil) == x;
    MkNodes(d, a, x, cx, kx, b);
    MkNodes(d, low, y, cy, ky, c);
    MkLinked(m, nil, d, a, x, cx, kx, b, y);
    MkLinked(m, nil, d, low, y, cy, ky, c, Holder(ctx, nil));
    SetsJoined(CtxNodes(ctx), Nodes(a), x, Nodes(b), y, Nodes(c), nil, m.Keys);
    Unfocus(m, nil, ctx, high);
  }

  /** A rotation preserves the tree up to its shape. */
  lemma Rotate<N, K>(m: Memory<N, K>, m': Memory<N, K>, nil: N, d: Dir, ctx: Ctx<N, K>, t: Tree<N, K>)
    requires Holds(m, nil, Plug(ctx, t)) && t.Node? && Kid(Flip(d), t).Node?
    requires var y := Kid(Flip(d), t);
             && t.n in m && y.n in m && (Kid(d, y).Node? ==> Kid(d, y).n in m) && (ctx.Frame? ==> ctx.n in m)
             && Rotated(m, m', d, ctx, t.n, y.n, Kid(d, y), nil)
    ensures Holds(m', nil, Plug(ctx, RotateTree(d, t))) && m'[nil] == m[nil]
  {
    var y := Kid(Flip(d), t);
    var a, b, c := Kid(d, t), Kid(d, y), Kid(Flip(d), y);
    assert t == Mk(d, a, t.n, t.c, t.k, Mk(d, b, y.n, y.c, y.k, c));
    PairAbove(m, nil, d, ctx, a, t.n, t.c, t.k, b, y.n, y.c, y.k, c);
    RotateLinks(m, m', nil, d, ctx, a, t.n, t.c, t.k, b, y.n, y.c, y.k, c);
    PairBelow(m', nil, d, ctx, a, t.n, t.c, t.k, b, y.n, y.c, y.k, c);
  }

  lemma {:induction false} PlugRoot<N, K>(ctx: Ctx<N, K>, t: Tree<N, K>, t': Tree<N, K>, nil: N)
    ensures ctx.Frame? ==> Root(Plug(ctx, t), nil) == Root(Plug(ctx, t'), nil)
    decreases ctx
  {
    if ctx.Frame? {
      PlugRoot(ctx.up, Mk(ctx.d, t, ctx.n, ctx.c, ctx.k, ctx.sib), Mk(ctx.d, t', ctx.n, ctx.c, ctx.k, ctx.sib), nil);
    }
  }

  /** What a rotation reads: the nodes involved are all different, and the holder of x can
      tell on which side x hangs. */
  lemma RotationFacts<N, K>(m: Memory<N, K>, nil: N, d: Dir, ctx: Ctx<N, K>, t: Tree<N, K>)
    requires Holds(m, nil, Plug(ctx, t)) && t.Node? && Kid(Flip(d), t).Node?
    ensures var x, y, b := t.n, Kid(Flip(d), t).n, Kid(d, Kid(Flip(d), t));
            && x in m && y in m && x != y && x != nil && y != nil
            && m[x].parent == Holder(ctx, nil)
            && (if d == L then m[x].right == y && m[y].left == Root(b, nil) else m[x].left == y && m[y].right == Root(b, nil))
            && (b.Node? ==> b.n in m && b.n != x && b.n != y && b.n != nil)
            && (ctx.Frame? ==> ctx.n in m && ctx.n != x && ctx.n != y && ctx.n != nil && (b.Node? ==> ctx.n != b.n))
            && (ctx.Frame? ==> (m[ctx.n].left == x <==> ctx.d == L))
  {
    var y := Kid(Flip(d), t);
    var a, b, c := Kid(d, t), Kid(d, y), Kid(Flip(d), y);
    assert t == Mk(d, a, t.n, t.c, t.k, Mk(d, b, y.n, y.c, y.k, c));
    PairAbove(m, nil, d, ctx, a, t.n, t.c, t.k, b, y.n, y.c, y.k, c);
    if ctx.Frame? {
      Side(m, nil, ctx, t);
    }
  }

  lemma Side<N, K>(m: Memory<N, K>, nil: N, ctx: Ctx<N, K>, t: Tree<N, K>)
    requires Holds(m, nil, Plug(ctx, t)) && t.Node? && ctx.Frame?
    ensures ctx.n in m && (m[ctx.n].left == t.n <==> ctx.d == L) && (m[ctx.n].right == t.n <==> ctx.d == R)
  {
    Focus(m, nil, ctx, t);
  }

  lemma ReplaceKeys<N, K>(ctx: Ctx<N, K>, t: Tree<N, K>, t': Tree<N, K>)
    requires Keys(t) == Keys(t') && Nodes(t) == Nodes(t')
    ensures Keys(Plug(ctx, t)) == Keys(Plug(ctx, t')) && Nodes(Plug(ctx, t)) == Nodes(Plug(ctx, t'))
  {
    PlugKeys(ctx, t);
    PlugKeys(ctx, t');
    PlugNodes(ctx, t);
    PlugNodes(ctx, t');
  }

  /** Rotations keep the keys in order and the nodes. */
  lemma RotateKeys<N, K>(d: Dir, t: Tree<N, K>)
    requires t.Node? && Kid(Flip(d), t).Node?
    ensures Keys(RotateTree(d, t)) == Keys(t) && Nodes(RotateTree(d, t)) == Nodes(t)
  {
  }

  ghost predicate SameElements<N, K>(t: Tree<N, K>, t': Tree<N, K>) {
    Keys(t) == Keys(t') && Nodes(t) == Nodes(t')
  }

  /** The cell above a subtree, and the colours of the roots involved. */
  lemma CellAbove<N, K>(m: Memory<N, K>, nil: N, ctx: Ctx<N, K>, t: Tree<N, K>)
    requires Holds(m, nil, Plug(ctx, t))
    ensures Root(t, nil) in m && m[Root(t, nil)].color == ColorOf(t)
    ensures Holder(ctx, nil) in m && m[Holder(ctx, nil)].color == CtxColor(ctx)
    ensures t.Node? ==> t.n != nil && m[t.n] == Cell(t.k, t.c, Root(t.left, nil), Root(t.right, nil), Holder(ctx, nil))
    ensures ctx.Frame? ==>
              && ctx.n != nil && m[ctx.n] == CellFor(ctx.k, ctx.c, ctx.d, Root(t, nil), Root(ctx.sib, nil), Holder(ctx.up, nil))
              && Root(ctx.sib, nil) in m && m[Root(ctx.sib, nil)].color == ColorOf(ctx.sib)
              && (ctx.sib.Node? ==> ctx.sib.n != nil)
              && (t.Node? && ctx.sib.Node? ==> t.n != ctx.sib.n) && (t.Node? ==> t.n != ctx.n)
  {
    Focus(m, nil, ctx, t);
  }

  // ----- attaching and detaching nodes -----

  /** A new red leaf hung into an empty place. */
  lemma Attach<N, K>(m: Memory<N, K>, m': Memory<N, K>, nil: N, ctx: Ctx<N, K>, n: N, k: K)
    requires Holds(m, nil, Plug(ctx, Leaf)) && n !in m
    requires m'.Keys == m.Keys + {n} && m'[n] == Cell(k, Red, nil, nil, Holder(ctx, nil))
    requires ctx.Frame? ==> ctx.n in m && m'[ctx.n] == SetKid(m[ctx.n], ctx.d, n)
    requires forall u | u in m && (ctx.Frame? ==> u != ctx.n) :: m'[u] == m[u]
    ensures Holds(m', nil, Plug(ctx, Node(Leaf, n, Red, k, Leaf)))
  {
    Focus(m, nil, ctx, Leaf);
    Rehang(m, m', nil, ctx, nil, n);
    Unfocus(m', nil, ctx, Node(Leaf, n, Red, k, Leaf));
  }

  /** The writes of transplant: v takes the place of whatever hung in the context. */
  ghost predicate Transplanted<N, K>(m: Memory<N, K>, m': Memory<N, K>, nil: N, ctx: Ctx<N, K>, v: N) {
    && v in m && (ctx.Frame? ==> ctx.n in m && ctx.n != v)
    && SameExcept(m, m', {v, Holder(ctx, nil)})
    && m'[v] == m[v].(parent := Holder(ctx, nil))
    && (ctx.Frame? ==> m'[ctx.n] == SetKid(m[ctx.n], ctx.d, v))
    && (nil in m && nil != v ==> m'[nil] == m[nil])
  }

  /** Transplanting an only child into its parent's place takes the parent out. */
  lemma SpliceOut<N, K>(m: Memory<N, K>, m': Memory<N, K>, nil: N, ctx: Ctx<N, K>, t: Tree<N, K>, d: Dir)
    requires Holds(m, nil, Plug(ctx, t)) && t.Node? && Kid(Flip(d), t).Leaf?
    requires Transplanted(m, m', nil, ctx, Root(Kid(d, t), nil))
    ensures Holds(m', nil, Plug(ctx, Kid(d, t))) && m'[Root(Kid(d, t), nil)].parent == Holder(ctx, nil)
    ensures t.n !in Nodes(Plug(ctx, Kid(d, t))) && t.n in m' && m'[t.n] == m[t.n]
    ensures Nodes(Plug(ctx, t)) == Nodes(Plug(ctx, Kid(d, t))) + {t.n}
  {
    Focus(m, nil, ctx, t);
    var v := Kid(d, t);
    assert Nodes(t) == Nodes(v) + {t.n};
    Reparent(m, m', nil, v, t.n, Holder(ctx, nil));
    Rehang(m, m', nil, ctx, t.n, Root(v, nil));
    Unfocus(m', nil, ctx, v);
    PlugNodes(ctx, v);
    PlugNodes(ctx, t);
  }

  /** What transplant reads of a node with an only child. */
  lemma SpliceReads<N, K>(m: Memory<N, K>, nil: N, ctx: Ctx<N, K>, t: Tree<N, K>, d: Dir)
    requires Holds(m, nil, Plug(ctx, t)) && t.Node?
    ensures var x := Root(Kid(d, t), nil);
            && t.n in m && x in m && t.n != x && t.n != nil && m[t.n].parent == Holder(ctx, nil)
            && (ctx.Frame? ==> ctx.n in m && ctx.n != nil && ctx.n != x && (m[ctx.n].left == t.n <==> ctx.d == L))
  {
    Focus(m, nil, ctx, t);
    if ctx.Frame? {
      Side(m, nil, ctx, t);
    }
  }

  /** The first node of z's right subtree has parent z exactly when it is z's right child. */
  lemma ParentIsZ<N, K>(nil: N, inner: Ctx<N, K>, outer: Ctx<N, K>, u: Tree<N, K>)
    requires Distinct(Plug(Compose(inner, outer), u)) && outer.Frame?
    ensures Holder(Compose(inner, outer), nil) == Holder(inner, outer.n)
    ensures inner.Frame? ==> inner.n != outer.n
  {
    PlugDistinct(Compose(inner, outer), u);
    ComposeHolder(inner, outer);
  }

  /** Two views of the same trees: the hole below z's right child, and z's right subtree. */
  lemma TwoViews<N, K>(inner: Ctx<N, K>, ctx: Ctx<N, K>, t: Tree<N, K>, u: Tree<N, K>, v: Tree<N, K>, nil: N)
    requires t.Node? && t.right == Plug(inner, u) && inner.Frame?
    ensures var c := Compose(inner, Frame(R, ctx, t.n, t.c, t.k, t.left));
            var rest := Plug(inner, v);
            && c.Frame? && c.n == inner.n && Plug(c, u) == Plug(ctx, t)
            && Plug(c, v) == Plug(ctx, t.(right := rest)) && rest.Node?
            && Root(Plug(c, v), nil) == Root(Plug(c, u), nil)
  {
    var c := Compose(inner, Frame(R, ctx, t.n, t.c, t.k, t.left));
    PlugCompose(inner, Frame(R, ctx, t.n, t.c, t.k, t.left), u);
    PlugCompose(inner, Frame(R, ctx, t.n, t.c, t.k, t.left), v);
    PlugIsNode(inner, v);
    PlugRoot(c, u, v, nil);
  }

  lemma {:induction false} ComposeHolder<N, K>(inner: Ctx<N, K>, outer: Ctx<N, K>)
    requires outer.Frame? && DistinctCtx(Compose(inner, outer))
    ensures outer.n in CtxNodes(Compose(inner, outer))
    ensures inner.Frame? ==> inner.n in CtxNodes(Compose(inner, outer)) && inner.n != outer.n
  {
    if inner.Frame? {
      ComposeHolder(inner.up, outer);
    }
  }

  /** Node y has been prepared to take the place of z: it already carries z's right subtree. */
  ghost predicate Ready<N, K>(m: Memory<N, K>, nil: N, ctx: Ctx<N, K>, zl: Tree<N, K>, z: N, rest: Tree<N, K>, y: N) {
    && nil in m && m[nil].color == Black && m[nil].left == nil && m[nil].right == nil
    && Apart(nil, ctx, zl, z, rest, y, Leaf) && Within(m, ctx, zl, rest, Leaf) && z in m && y in m
    && Linked(m, nil, zl, z) && Linked(m, nil, rest, y) && LinkedCtx(m, nil, ctx, z)
    && m[z].left == Root(zl, nil) && m[z].parent == Holder(ctx, nil)
    && m[y].right == Root(rest, nil)
  }

  /** The remaining writes of deleteNode: y takes z's place, left subtree and colour. */
  ghost predicate TookPlace<N, K>(m: Memory<N, K>, m': Memory<N, K>, nil: N, ctx: Ctx<N, K>, zl: Tree<N, K>, z: N, y: N)
    requires z in m && y in m && (zl.Node? ==> zl.n in m) && (ctx.Frame? ==> ctx.n in m)
  {
    && SameExcept(m, m', {y, Root(zl, nil), Holder(ctx, nil)})
    && m'[y] == Cell(m[y].key, m[z].color, Root(zl, nil), m[y].right, Holder(ctx, nil))
    && (zl.Node? ==> m'[zl.n] == m[zl.n].(parent := y))
    && (ctx.Frame? ==> m'[ctx.n] == SetKid(m[ctx.n], ctx.d, y))
    && (nil in m ==> m'[nil] == m[nil])
  }

  /** y is z's right child: it already carries the right subtree. Only the sentinel's parent
      can change. */
  lemma ReadyNear<N, K>(m: Memory<N, K>, m': Memory<N, K>, nil: N, ctx: Ctx<N, K>, t: Tree<N, K>)
    requires Holds(m, nil, Plug(ctx, t)) && t.Node? && t.right.Node? && t.right.left.Leaf?
    requires m'.Keys == m.Keys && forall n | n in m :: m'[n] == m[n] || (n == nil && m'[n] == m[n].(parent := t.right.n))
    ensures Ready(m', nil, ctx, t.left, t.n, t.right.right, t.right.n)
    ensures m'[t.n].color == t.c && m'[t.right.n].key == t.right.k
  {
    Focus(m, nil, ctx, t);
    LinkedSame(m, m', nil, t.left, t.n);
    LinkedSame(m, m', nil, t.right.right, t.right.n);
    LinkedCtxSame(m, m', nil, ctx, t.n);
  }

  /** y has left its place further down and is given z's right subtree. */
  lemma ReadyFar<N, K>(m: Memory<N, K>, m': Memory<N, K>, nil: N, ctx: Ctx<N, K>, t: Tree<N, K>, y: N)
    requires Holds(m, nil, Plug(ctx, t)) && t.Node? && t.right.Node?
    requires y in m && y != nil && y !in Nodes(Plug(ctx, t))
    requires t.right.n in m && SameExcept(m, m', {y, t.right.n})
    requires m'[y] == m[y].(right := t.right.n) && m'[t.right.n] == m[t.right.n].(parent := y)
    ensures Ready(m', nil, ctx, t.left, t.n, t.right, y)
    ensures m'[t.n].color == t.c && m'[y].key == m[y].key
  {
    Focus(m, nil, ctx, t);
    PlugNodes(ctx, t);
    LinkedSame(m, m', nil, t.left, t.n);
    Reparent(m, m', nil, t.right, t.n, y);
    LinkedCtxSame(m, m', nil, ctx, t.n);
  }

  /** A node outside the tree can be given back. */
  lemma Forget<N, K>(m: Memory<N, K>, m': Memory<N, K>, nil: N, t: Tree<N, K>, z: N)
    requires Holds(m, nil, t) && z !in Nodes(t) && z != nil
    requires m'.Keys == m.Keys - {z} && forall n | n in m' :: m'[n] == m[n]
    ensures Holds(m', nil, t)
  {
    LinkedSame(m, m', nil, t, nil);
  }

  /** What the second transplant reads. */
  lemma ReadyReads<N, K>(m: Memory<N, K>, nil: N, ctx: Ctx<N, K>, zl: Tree<N, K>, z: N, rest: Tree<N, K>, y: N)
    requires Ready(m, nil, ctx, zl, z, rest, y) && zl.Node?
    ensures z in m && y in m && nil in m && y != nil && z != nil && z != y && zl.n in m && zl.n != y && zl.n != nil && zl.n != z
    ensures m[z].parent == Holder(ctx, nil) && m[z].left == zl.n
    ensures ctx.Frame? ==> ctx.n in m && ctx.n != nil && ctx.n != y && ctx.n != z && ctx.n != zl.n
    ensures ctx.Frame? ==> (m[ctx.n].left == z <==> ctx.d == L)
  {
    if ctx.Frame? {
      RightOrLeft(m, nil, ctx, z);
    }
  }

  lemma RightOrLeft<N, K>(m: Memory<N, K>, nil: N, ctx: Ctx<N, K>, z: N)
    requires LinkedCtx(m, nil, ctx, z) && ctx.Frame? && z != nil && z !in CtxNodes(ctx)
    ensures m[ctx.n].left == z <==> ctx.d == L
  {
  }

  /** transplant(z, y) and the three writes after it. */
  lemma ThenTookPlace<N, K>(m0: Memory<N, K>, m1: Memory<N, K>, m2: Memory<N, K>, nil: N, ctx: Ctx<N, K>,
                            zl: Tree<N, K>, z: N, y: N)
    requires z in m0 && zl.Node? && zl.n in m0 && nil in m0 && zl.n != y && zl.n != nil && y != nil
    requires ctx.Frame? ==> ctx.n != zl.n
    requires Transplanted(m0, m1, nil, ctx, y) && SameExcept(m1, m2, {y, zl.n})
    requires m2[y] == m1[y].(left := zl.n, color := m0[z].color) && m2[zl.n] == m1[zl.n].(parent := y)
    ensures TookPlace(m0, m2, nil, ctx, zl, z, y)
  {
  }

  lemma TakePlace<N, K>(m: Memory<N, K>, m': Memory<N, K>, nil: N, ctx: Ctx<N, K>, zl: Tree<N, K>, z: N,
                        rest: Tree<N, K>, y: N)
    requires Ready(m, nil, ctx, zl, z, rest, y) && zl.Node?
    requires zl.n in m && (ctx.Frame? ==> ctx.n in m) && TookPlace(m, m', nil, ctx, zl, z, y)
    ensures Holds(m', nil, Plug(ctx, Node(zl, y, m[z].color, m[y].key, rest)))
  {
    Reparent(m, m', nil, zl, z, y);
    LinkedSame(m, m', nil, rest, y);
    Rehang(m, m', nil, ctx, z, y);
    var t := Node(zl, y, m[z].color, m[y].key, rest);
    JoinedSets(CtxNodes(ctx), Nodes(zl), Nodes(rest), y, nil, m.Keys);
    Unfocus(m', nil, ctx, t);
  }

  lemma {:induction false} JoinedSets<N>(o: set<N>, a: set<N>, b: set<N>, y: N, nil: N, all: set<N>)
    requires y !in o && nil !in a && nil !in b && y != nil && o !! a && o !! b
    requires a <= all && b <= all && y in all
    ensures o !! a + {y} + b && nil !in a + {y} + b && a + {y} + b <= all
  {
  }

  /** The colours of both children of a node, the sentinel counting as black. */
  lemma KidColors<N, K>(m: Memory<N, K>, nil: N, ctx: Ctx<N, K>, t: Tree<N, K>)
    requires Holds(m, nil, Plug(ctx, t)) && t.Node?
    ensures t.n in m && m[t.n].left in m && m[t.n].right in m
    ensures m[m[t.n].left].color == ColorOf(t.left) && m[m[t.n].right].color == ColorOf(t.right)
  {
    Focus(m, nil, ctx, t);
  }

  lemma {:induction false} RootInCtx<N, K>(ctx: Ctx<N, K>, t: Tree<N, K>, nil: N)
    ensures ctx.Frame? ==> Root(Plug(ctx, t), nil) in CtxNodes(ctx)
    decreases ctx
  {
    if ctx.Frame? && ctx.up.Frame? {
      RootInCtx(ctx.up, Mk(ctx.d, t, ctx.n, ctx.c, ctx.k, ctx.sib), nil);
    }
  }

  /** A subtree is the whole tree exactly when its root is the root of the whole. */
  lemma RootIsTop<N, K>(m: Memory<N, K>, nil: N, ctx: Ctx<N, K>, t: Tree<N, K>)
    requires Holds(m, nil, Plug(ctx, t))
    ensures Root(t, nil) == Root(Plug(ctx, t), nil) <==> ctx.Top?
  {
    Focus(m, nil, ctx, t);
    RootInCtx(ctx, t, nil);
  }
}

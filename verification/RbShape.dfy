/** The shapes behind src/basic_struct/red_black_tree.h: trees of nodes, contexts that
    single out a subtree, and the red-black conditions on both. Everything is stated once
    for both directions. */
module RbShape {

  datatype Color = Red | Black

  datatype Dir = L | R

  /** A tree whose inner nodes name the node object n that holds the key k. */
  datatype Tree<N, K> = Leaf | Node(left: Tree<N, K>, n: N, c: Color, k: K, right: Tree<N, K>)

  /** A tree with a hole: the hole is the d-child of n, whose other child is `sib`. */
  datatype Ctx<N, K> = Top | Frame(d: Dir, up: Ctx<N, K>, n: N, c: Color, k: K, sib: Tree<N, K>)

  function Flip(d: Dir): Dir {
    if d == L then R else L
  }

  /** The node (n, c, k) with `t` on side d and `sib` on the other side. */
  function Mk<N, K>(d: Dir, t: Tree<N, K>, n: N, c: Color, k: K, sib: Tree<N, K>): Tree<N, K> {
    if d == L then Node(t, n, c, k, sib) else Node(sib, n, c, k, t)
  }

  function Kid<N, K>(d: Dir, t: Tree<N, K>): Tree<N, K>
    requires t.Node?
  {
    if d == L then t.left else t.right
  }

  /** The rotation of t towards side d: the root's other child takes its place. */
  function RotateTree<N, K>(d: Dir, t: Tree<N, K>): Tree<N, K>
    requires t.Node? && Kid(Flip(d), t).Node?
  {
    var y := Kid(Flip(d), t);
    Mk(d, Mk(d, Kid(d, t), t.n, t.c, t.k, Kid(d, y)), y.n, y.c, y.k, Kid(Flip(d), y))
  }

  function Plug<N, K>(ctx: Ctx<N, K>, t: Tree<N, K>): Tree<N, K>
    decreases ctx
  {
    match ctx
    case Top => t
    case Frame(d, up, n, c, k, sib) => Plug(up, Mk(d, t, n, c, k, sib))
  }

  /** The context `inner` placed into the hole of `outer`. */
  function Compose<N, K>(inner: Ctx<N, K>, outer: Ctx<N, K>): Ctx<N, K>
    decreases inner
  {
    match inner
    case Top => outer
    case Frame(d, up, n, c, k, sib) => Frame(d, Compose(up, outer), n, c, k, sib)
  }

  lemma {:induction false} PlugCompose<N, K>(inner: Ctx<N, K>, outer: Ctx<N, K>, t: Tree<N, K>)
    ensures Plug(Compose(inner, outer), t) == Plug(outer, Plug(inner, t))
    decreases inner
  {
    match inner
    case Top =>
    case Frame(d, up, n, c, k, sib) => PlugCompose(up, outer, Mk(d, t, n, c, k, sib));
  }

  lemma {:induction false} PlugIsNode<N, K>(ctx: Ctx<N, K>, t: Tree<N, K>)
    ensures t.Node? || ctx.Frame? ==> Plug(ctx, t).Node?
    decreases ctx
  {
    if ctx.Frame? {
      PlugIsNode(ctx.up, Mk(ctx.d, t, ctx.n, ctx.c, ctx.k, ctx.sib));
    }
  }

  // ----- nodes -----

  ghost function Nodes<N, K>(t: Tree<N, K>): set<N> {
    match t
    case Leaf => {}
    case Node(l, n, _, _, r) => Nodes(l) + {n} + Nodes(r)
  }

  ghost function CtxNodes<N, K>(ctx: Ctx<N, K>): set<N> {
    match ctx
    case Top => {}
    case Frame(_, up, n, _, _, sib) => CtxNodes(up) + {n} + Nodes(sib)
  }

  ghost predicate Distinct<N, K>(t: Tree<N, K>) {
    match t
    case Leaf => true
    case Node(l, n, _, _, r) => Distinct(l) && Distinct(r) && n !in Nodes(l) + Nodes(r) && Nodes(l) !! Nodes(r)
  }

  ghost predicate DistinctCtx<N, K>(ctx: Ctx<N, K>) {
    match ctx
    case Top => true
    case Frame(_, up, n, _, _, sib) =>
      DistinctCtx(up) && Distinct(sib) && n !in CtxNodes(up) + Nodes(sib) && CtxNodes(up) !! Nodes(sib)
  }

  lemma {:induction false} PlugNodes<N, K>(ctx: Ctx<N, K>, t: Tree<N, K>)
    ensures Nodes(Plug(ctx, t)) == CtxNodes(ctx) + Nodes(t)
    decreases ctx
  {
    match ctx
    case Top =>
    case Frame(d, up, n, c, k, sib) => PlugNodes(up, Mk(d, t, n, c, k, sib));
  }

  lemma {:induction false} PlugDistinct<N, K>(ctx: Ctx<N, K>, t: Tree<N, K>)
    ensures Distinct(Plug(ctx, t)) <==> DistinctCtx(ctx) && Distinct(t) && CtxNodes(ctx) !! Nodes(t)
    decreases ctx
  {
    match ctx
    case Top =>
    case Frame(d, up, n, c, k, sib) => PlugDistinct(up, Mk(d, t, n, c, k, sib));
  }

  // ----- keys in order -----

  function Keys<N, K>(t: Tree<N, K>): seq<K> {
    match t
    case Leaf => []
    case Node(l, _, _, k, r) => Keys(l) + [k] + Keys(r)
  }

  /** The keys to the left and to the right of the hole. */
  function LeftKeys<N, K>(ctx: Ctx<N, K>): seq<K> {
    match ctx
    case Top => []
    case Frame(d, up, _, _, k, sib) => if d == L then LeftKeys(up) else LeftKeys(up) + Keys(sib) + [k]
  }

  function RightKeys<N, K>(ctx: Ctx<N, K>): seq<K> {
    match ctx
    case Top => []
    case Frame(d, up, _, _, k, sib) => if d == R then RightKeys(up) else [k] + Keys(sib) + RightKeys(up)
  }

  lemma Regroup<K>(a: seq<K>, b: seq<K>, c: seq<K>, d: seq<K>, e: seq<K>)
    ensures a + (b + c + d) + e == a + b + (c + d + e)
    ensures a + (b + c + d) + e == (a + b + c) + d + e
  {
  }

  lemma {:induction false} PlugKeys<N, K>(ctx: Ctx<N, K>, t: Tree<N, K>)
    ensures Keys(Plug(ctx, t)) == LeftKeys(ctx) + Keys(t) + RightKeys(ctx)
    decreases ctx
  {
    match ctx
    case Top =>
    case Frame(d, up, n, c, k, sib) =>
      PlugKeys(up, Mk(d, t, n, c, k, sib));
      Regroup(LeftKeys(up), Keys(t), [k], Keys(sib), RightKeys(up));
      Regroup(LeftKeys(up), Keys(sib), [k], Keys(t), RightKeys(up));
  }

  lemma MkElements<N, K>(d: Dir, t: Tree<N, K>, n: N, c: Color, k: K, sib: Tree<N, K>)
    ensures Nodes(Mk(d, t, n, c, k, sib)) == Nodes(t) + {n} + Nodes(sib)
    ensures Keys(Mk(d, t, n, c, k, sib)) == if d == L then Keys(t) + [k] + Keys(sib) else Keys(sib) + [k] + Keys(t)
  {
  }

  // ----- the red-black conditions -----

  function ColorOf<N, K>(t: Tree<N, K>): Color {
    if t.Leaf? then Black else t.c
  }

  function Weight(c: Color): nat {
    if c == Black then 1 else 0
  }

  /** Black nodes on the leftmost path; on every path when the tree is balanced. */
  function BlackHeight<N, K>(t: Tree<N, K>): nat {
    match t
    case Leaf => 0
    case Node(l, _, c, _, _) => BlackHeight(l) + Weight(c)
  }

  /** No red node has a red child and all paths have equally many black nodes. */
  predicate RedBlack<N, K>(t: Tree<N, K>) {
    match t
    case Leaf => true
    case Node(l, _, c, _, r) =>
      && RedBlack(l) && RedBlack(r) && BlackHeight(l) == BlackHeight(r)
      && (c == Red ==> ColorOf(l) == Black && ColorOf(r) == Black)
  }

  /** As RedBlack, but the root may be red with red children. */
  predicate RedBlackBelow<N, K>(t: Tree<N, K>) {
    match t
    case Leaf => true
    case Node(l, _, _, _, r) => RedBlack(l) && RedBlack(r) && BlackHeight(l) == BlackHeight(r)
  }

  function CtxColor<N, K>(ctx: Ctx<N, K>): Color {
    if ctx.Top? then Black else ctx.c
  }

  /** The context meets the conditions around a subtree of black height b. */
  predicate CtxOk<N, K>(ctx: Ctx<N, K>, b: nat) {
    match ctx
    case Top => true
    case Frame(_, up, _, c, _, sib) =>
      && RedBlack(sib) && BlackHeight(sib) == b
      && (c == Red ==> ColorOf(sib) == Black && up.Frame? && up.c == Black)
      && CtxOk(up, b + Weight(c))
  }

  lemma {:induction false} PlugRedBlack<N, K>(ctx: Ctx<N, K>, t: Tree<N, K>)
    requires RedBlack(t) && CtxOk(ctx, BlackHeight(t)) && (ColorOf(t) == Red ==> CtxColor(ctx) == Black)
    requires ctx.Top? ==> ColorOf(t) == Black
    ensures RedBlack(Plug(ctx, t)) && ColorOf(Plug(ctx, t)) == Black
    decreases ctx
  {
    match ctx
    case Top =>
    case Frame(d, up, n, c, k, sib) => PlugRedBlack(up, Mk(d, t, n, c, k, sib));
  }

  lemma {:induction false} UnplugRedBlack<N, K>(ctx: Ctx<N, K>, t: Tree<N, K>)
    requires RedBlack(Plug(ctx, t)) && ColorOf(Plug(ctx, t)) == Black
    ensures RedBlack(t) && CtxOk(ctx, BlackHeight(t)) && (ColorOf(t) == Red ==> ctx.Frame? && ctx.c == Black)
    decreases ctx
  {
    match ctx
    case Top =>
    case Frame(d, up, n, c, k, sib) => UnplugRedBlack(up, Mk(d, t, n, c, k, sib));
  }

  function Blacken<N, K>(t: Tree<N, K>): Tree<N, K> {
    if t.Leaf? then t else t.(c := Black)
  }

  // ----- height -----

  function Max(a: nat, b: nat): nat {
    if a < b then b else a
  }

  function Height<N, K>(t: Tree<N, K>): nat {
    match t
    case Leaf => 0
    case Node(l, _, _, _, r) => 1 + Max(Height(l), Height(r))
  }

  function Depth<N, K>(ctx: Ctx<N, K>): nat {
    if ctx.Top? then 0 else 1 + Depth(ctx.up)
  }

  function Pow2(n: nat): nat {
    if n == 0 then 1 else 2 * Pow2(n - 1)
  }

  lemma {:induction false} PlugHeight<N, K>(ctx: Ctx<N, K>, t: Tree<N, K>)
    ensures Height(Plug(ctx, t)) >= Depth(ctx) + Height(t)
    decreases ctx
  {
    match ctx
    case Top =>
    case Frame(d, up, n, c, k, sib) => PlugHeight(up, Mk(d, t, n, c, k, sib));
  }

  lemma {:induction false} HeightByBlackHeight<N, K>(t: Tree<N, K>)
    requires RedBlack(t)
    ensures Height(t) <= 2 * BlackHeight(t) + (if ColorOf(t) == Red then 1 else 0)
  {
    match t
    case Leaf =>
    case Node(l, _, _, _, r) =>
      HeightByBlackHeight(l);
      HeightByBlackHeight(r);
  }

  lemma {:induction false} SizeByBlackHeight<N, K>(t: Tree<N, K>)
    requires RedBlack(t)
    ensures Pow2(BlackHeight(t)) <= |Keys(t)| + 1
  {
    match t
    case Leaf =>
    case Node(l, _, _, _, r) =>
      SizeByBlackHeight(l);
      SizeByBlackHeight(r);
  }

  lemma {:induction false} Pow2Mono(m: nat, n: nat)
    requires m <= n
    ensures Pow2(m) <= Pow2(n)
    decreases n
  {
    if m < n {
      Pow2Mono(m, n - 1);
    }
  }

  lemma {:induction false} Pow2Double(n: nat)
    ensures Pow2(2 * n) == Pow2(n) * Pow2(n)
  {
    if n > 0 {
      Pow2Double(n - 1);
      assert Pow2(2 * n) == 2 * (2 * Pow2(2 * n - 2));
    }
  }

  lemma SquareMono(a: nat, b: nat)
    requires a <= b
    ensures a * a <= b * b
  {
  }

  /** A red-black tree with a black root and n keys has height at most 2 * log2(n + 1). */
  lemma HeightIsLogarithmic<N, K>(t: Tree<N, K>)
    requires RedBlack(t) && ColorOf(t) == Black
    ensures Pow2(Height(t)) <= (|Keys(t)| + 1) * (|Keys(t)| + 1)
  {
    var b := BlackHeight(t);
    HeightByBlackHeight(t);
    SizeByBlackHeight(t);
    Pow2Mono(Height(t), 2 * b);
    Pow2Double(b);
    SquareMono(Pow2(b), |Keys(t)| + 1);
  }
}

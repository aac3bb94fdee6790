/** Why the fix-up loops of the red-black tree restore its conditions: each case once, for
    both directions, on trees alone. */
module RbFix {
  import opened RbShape

  lemma MkRedBlack<N, K>(d: Dir, t: Tree<N, K>, n: N, c: Color, k: K, sib: Tree<N, K>)
    requires RedBlack(t) && RedBlack(sib) && BlackHeight(t) == BlackHeight(sib)
    requires c == Red ==> ColorOf(t) == Black && ColorOf(sib) == Black
    ensures RedBlack(Mk(d, t, n, c, k, sib)) && BlackHeight(Mk(d, t, n, c, k, sib)) == BlackHeight(t) + Weight(c)
  {
  }

  lemma BlackenOk<N, K>(t: Tree<N, K>)
    requires RedBlack(t)
    ensures RedBlack(Blacken(t)) && (ColorOf(t) == Red ==> BlackHeight(Blacken(t)) == BlackHeight(t) + 1)
  {
  }

  // ----- insertion -----

  /** The loop invariant of fixInsert: everything is in order around the red node t, except
      that its parent may be red too. */
  predicate InsertFocus<N, K>(ctx: Ctx<N, K>, t: Tree<N, K>) {
    t.Node? && t.c == Red && RedBlack(t) && CtxOk(ctx, BlackHeight(t))
  }

  /** When the parent is red there is a black grandparent. */
  predicate RedParent<N, K>(ctx: Ctx<N, K>) {
    ctx.Frame? && ctx.c == Red && ctx.up.Frame? && ctx.up.c == Black
  }

  lemma RedParentHasGrandparent<N, K>(ctx: Ctx<N, K>, t: Tree<N, K>)
    requires InsertFocus(ctx, t) && CtxColor(ctx) == Red
    ensures RedParent(ctx)
  {
  }

  /** The subtree of the grandparent, as it is. */
  function Grand<N, K>(ctx: Ctx<N, K>, t: Tree<N, K>): Tree<N, K>
    requires RedParent(ctx)
  {
    Mk(ctx.up.d, Mk(ctx.d, t, ctx.n, ctx.c, ctx.k, ctx.sib), ctx.up.n, ctx.up.c, ctx.up.k, ctx.up.sib)
  }

  /** Red uncle: parent and uncle become black, the grandparent red. */
  function Recolored<N, K>(ctx: Ctx<N, K>, t: Tree<N, K>): Tree<N, K>
    requires RedParent(ctx)
  {
    Mk(ctx.up.d, Mk(ctx.d, t, ctx.n, Black, ctx.k, ctx.sib), ctx.up.n, Red, ctx.up.k, Blacken(ctx.up.sib))
  }

  lemma RecoloredOk<N, K>(ctx: Ctx<N, K>, t: Tree<N, K>)
    requires InsertFocus(ctx, t) && RedParent(ctx) && ColorOf(ctx.up.sib) == Red
    ensures InsertFocus(ctx.up.up, Recolored(ctx, t))
    ensures Keys(Recolored(ctx, t)) == Keys(Grand(ctx, t)) && Nodes(Recolored(ctx, t)) == Nodes(Grand(ctx, t))
    ensures Depth(ctx.up.up) < Depth(ctx)
  {
    assert CtxOk(ctx.up, BlackHeight(t) + Weight(ctx.c));
    BlackenOk(ctx.up.sib);
    MkRedBlack(ctx.d, t, ctx.n, Black, ctx.k, ctx.sib);
    MkRedBlack(ctx.up.d, Mk(ctx.d, t, ctx.n, Black, ctx.k, ctx.sib), ctx.up.n, Red, ctx.up.k, Blacken(ctx.up.sib));
  }

  /** Black uncle, t on the inner side: after the rotation at the parent, the old parent is
      the red node on the outer side. */
  function InnerCtx<N, K>(ctx: Ctx<N, K>, t: Tree<N, K>): Ctx<N, K>
    requires RedParent(ctx) && t.Node?
  {
    Frame(ctx.up.d, ctx.up, t.n, t.c, t.k, Kid(Flip(ctx.up.d), t))
  }

  function InnerTree<N, K>(ctx: Ctx<N, K>, t: Tree<N, K>): Tree<N, K>
    requires RedParent(ctx) && t.Node?
  {
    Mk(ctx.up.d, ctx.sib, ctx.n, ctx.c, ctx.k, Kid(ctx.up.d, t))
  }

  lemma InnerOk<N, K>(ctx: Ctx<N, K>, t: Tree<N, K>)
    requires InsertFocus(ctx, t) && RedParent(ctx) && ctx.d == Flip(ctx.up.d)
    ensures var ctx', t' := InnerCtx(ctx, t), InnerTree(ctx, t);
            && InsertFocus(ctx', t') && RedParent(ctx') && ctx'.d == ctx'.up.d && ctx'.up == ctx.up
            && Mk(ctx'.d, t', ctx'.n, ctx'.c, ctx'.k, ctx'.sib)
               == RotateTree(ctx.up.d, Mk(ctx.d, t, ctx.n, ctx.c, ctx.k, ctx.sib))
            && Depth(ctx') == Depth(ctx)
  {
  }

  /** Black uncle, t on the outer side: parent black, grandparent red, rotate at the
      grandparent away from t. Afterwards t's parent is black. */
  function OuterPainted<N, K>(ctx: Ctx<N, K>, t: Tree<N, K>): Tree<N, K>
    requires RedParent(ctx)
  {
    Mk(ctx.up.d, Mk(ctx.d, t, ctx.n, Black, ctx.k, ctx.sib), ctx.up.n, Red, ctx.up.k, ctx.up.sib)
  }

  function OuterCtx<N, K>(ctx: Ctx<N, K>, t: Tree<N, K>): Ctx<N, K>
    requires RedParent(ctx)
  {
    Frame(ctx.d, ctx.up.up, ctx.n, Black, ctx.k,
          Mk(ctx.d, ctx.sib, ctx.up.n, Red, ctx.up.k, ctx.up.sib))
  }

  lemma OuterOk<N, K>(ctx: Ctx<N, K>, t: Tree<N, K>)
    requires InsertFocus(ctx, t) && RedParent(ctx) && ctx.d == ctx.up.d && ColorOf(ctx.up.sib) == Black
    ensures var ctx' := OuterCtx(ctx, t);
            && InsertFocus(ctx', t) && CtxColor(ctx') == Black
            && Mk(ctx'.d, t, ctx'.n, ctx'.c, ctx'.k, ctx'.sib) == RotateTree(Flip(ctx.d), OuterPainted(ctx, t))
            && Depth(ctx') < Depth(ctx)
  {
    var b := BlackHeight(t);
    assert RedBlack(ctx.sib) && BlackHeight(ctx.sib) == b && ColorOf(ctx.sib) == Black && CtxOk(ctx.up, b);
    assert RedBlack(ctx.up.sib) && BlackHeight(ctx.up.sib) == b && CtxOk(ctx.up.up, b + 1);
    MkRedBlack(ctx.d, ctx.sib, ctx.up.n, Red, ctx.up.k, ctx.up.sib);
  }

  lemma OuterKeys<N, K>(ctx: Ctx<N, K>, t: Tree<N, K>)
    requires RedParent(ctx)
    ensures Keys(OuterPainted(ctx, t)) == Keys(Grand(ctx, t)) && Nodes(OuterPainted(ctx, t)) == Nodes(Grand(ctx, t))
  {
  }

  /** When the loop ends, blackening the root completes the tree. */
  lemma InsertDone<N, K>(ctx: Ctx<N, K>, t: Tree<N, K>)
    requires InsertFocus(ctx, t) && CtxColor(ctx) == Black
    ensures RedBlack(Blacken(Plug(ctx, t))) && Plug(ctx, t).Node?
  {
    if ctx.Frame? {
      PlugRedBlack(ctx, t);
      PlugIsNode(ctx, t);
    }
  }

  // ----- deletion -----

  /** The loop invariant of fixDelete: every path through t has one black node too few, and
      t may be red below a red parent or above red children. */
  predicate DeleteFocus<N, K>(ctx: Ctx<N, K>, t: Tree<N, K>) {
    RedBlackBelow(t) && CtxOk(ctx, BlackHeight(t) + 1)
  }

  /** The sibling of a node that is one black short is a real node. */
  lemma SiblingIsReal<N, K>(ctx: Ctx<N, K>, t: Tree<N, K>)
    requires DeleteFocus(ctx, t) && ctx.Frame?
    ensures ctx.sib.Node?
  {
  }

  /** Red sibling: it changes colours with the parent and is rotated above it. */
  function RedSiblingPainted<N, K>(ctx: Ctx<N, K>, t: Tree<N, K>): Tree<N, K>
    requires ctx.Frame? && ctx.sib.Node?
  {
    Mk(ctx.d, t, ctx.n, Red, ctx.k, ctx.sib.(c := Black))
  }

  function RedSiblingCtx<N, K>(ctx: Ctx<N, K>): Ctx<N, K>
    requires ctx.Frame? && ctx.sib.Node?
  {
    Frame(ctx.d, Frame(ctx.d, ctx.up, ctx.sib.n, Black, ctx.sib.k, Kid(Flip(ctx.d), ctx.sib)),
          ctx.n, Red, ctx.k, Kid(ctx.d, ctx.sib))
  }

  lemma RedSiblingOk<N, K>(ctx: Ctx<N, K>, t: Tree<N, K>)
    requires DeleteFocus(ctx, t) && ColorOf(t) == Black && ctx.Frame? && ColorOf(ctx.sib) == Red
    ensures var ctx' := RedSiblingCtx(ctx);
            && DeleteFocus(ctx', t) && ctx'.sib.Node? && ctx'.sib.c == Black && ctx'.c == Red
            && Plug(ctx', t) == Plug(ctx.up, RotateTree(ctx.d, RedSiblingPainted(ctx, t)))
            && ctx'.d == ctx.d && ctx'.n == ctx.n
  {
  }

  /** Black sibling with black children: it becomes red, and its parent is the next x. */
  function BothBlack<N, K>(ctx: Ctx<N, K>, t: Tree<N, K>): Tree<N, K>
    requires ctx.Frame? && ctx.sib.Node?
  {
    Mk(ctx.d, t, ctx.n, ctx.c, ctx.k, ctx.sib.(c := Red))
  }

  lemma BothBlackOk<N, K>(ctx: Ctx<N, K>, t: Tree<N, K>)
    requires DeleteFocus(ctx, t) && ColorOf(t) == Black && ctx.Frame? && ctx.sib.Node? && ctx.sib.c == Black
    requires ColorOf(ctx.sib.left) == Black && ColorOf(ctx.sib.right) == Black
    ensures DeleteFocus(ctx.up, BothBlack(ctx, t))
  {
  }

  /** Black sibling, only the near child red: rotate the sibling away, so that the far child
      is red. */
  function NearRedPainted<N, K>(ctx: Ctx<N, K>): Tree<N, K>
    requires ctx.Frame? && ctx.sib.Node?
  {
    Mk(ctx.d, Blacken(Kid(ctx.d, ctx.sib)), ctx.sib.n, Red, ctx.sib.k, Kid(Flip(ctx.d), ctx.sib))
  }

  lemma NearRedOk<N, K>(ctx: Ctx<N, K>, t: Tree<N, K>)
    requires DeleteFocus(ctx, t) && ColorOf(t) == Black && ctx.Frame? && ctx.sib.Node? && ctx.sib.c == Black
    requires ColorOf(Kid(ctx.d, ctx.sib)) == Red && ColorOf(Kid(Flip(ctx.d), ctx.sib)) == Black
    ensures var sib' := RotateTree(Flip(ctx.d), NearRedPainted(ctx));
            && DeleteFocus(ctx.(sib := sib'), t) && sib'.c == Black && ColorOf(Kid(Flip(ctx.d), sib')) == Red
  {
    var near, far := Kid(ctx.d, ctx.sib), Kid(Flip(ctx.d), ctx.sib);
    assert RedBlack(near) && RedBlack(far) && BlackHeight(near) == BlackHeight(far);
    var low := Mk(Flip(ctx.d), far, ctx.sib.n, Red, ctx.sib.k, Kid(Flip(ctx.d), near));
    MkRedBlack(Flip(ctx.d), far, ctx.sib.n, Red, ctx.sib.k, Kid(Flip(ctx.d), near));
    MkRedBlack(Flip(ctx.d), low, near.n, Black, near.k, Kid(ctx.d, near));
  }

  /** Black sibling, far child red: the sibling takes the parent's colour and place. */
  function FarRedPainted<N, K>(ctx: Ctx<N, K>, t: Tree<N, K>): Tree<N, K>
    requires ctx.Frame? && ctx.sib.Node?
  {
    Mk(ctx.d, t, ctx.n, Black, ctx.k,
       Mk(ctx.d, Kid(ctx.d, ctx.sib), ctx.sib.n, ctx.c, ctx.sib.k, Blacken(Kid(Flip(ctx.d), ctx.sib))))
  }

  lemma FarRedOk<N, K>(ctx: Ctx<N, K>, t: Tree<N, K>)
    requires DeleteFocus(ctx, t) && ColorOf(t) == Black && ctx.Frame? && ctx.sib.Node? && ctx.sib.c == Black
    requires ColorOf(Kid(Flip(ctx.d), ctx.sib)) == Red
    ensures var whole := Plug(ctx.up, RotateTree(ctx.d, FarRedPainted(ctx, t)));
            RedBlack(whole) && ColorOf(whole) == Black
  {
    var near, far := Kid(ctx.d, ctx.sib), Kid(Flip(ctx.d), ctx.sib);
    assert RedBlack(near) && RedBlack(far) && BlackHeight(near) == BlackHeight(far);
    var low := Mk(ctx.d, t, ctx.n, Black, ctx.k, near);
    MkRedBlack(ctx.d, t, ctx.n, Black, ctx.k, near);
    BlackenOk(far);
    MkRedBlack(ctx.d, low, ctx.sib.n, ctx.c, ctx.sib.k, Blacken(far));
    PlugRedBlack(ctx.up, RotateTree(ctx.d, FarRedPainted(ctx, t)));
  }

  lemma FarRedKeys<N, K>(ctx: Ctx<N, K>, t: Tree<N, K>)
    requires ctx.Frame? && ctx.sib.Node?
    ensures var whole := Mk(ctx.d, t, ctx.n, ctx.c, ctx.k, ctx.sib);
            Keys(FarRedPainted(ctx, t)) == Keys(whole) && Nodes(FarRedPainted(ctx, t)) == Nodes(whole)
  {
    var sib' := Mk(ctx.d, Kid(ctx.d, ctx.sib), ctx.sib.n, ctx.c, ctx.sib.k, Blacken(Kid(Flip(ctx.d), ctx.sib)));
    var near, far := Kid(ctx.d, ctx.sib), Kid(Flip(ctx.d), ctx.sib);
    assert ctx.sib == Mk(ctx.d, near, ctx.sib.n, ctx.sib.c, ctx.sib.k, far);
    assert Keys(Blacken(far)) == Keys(far) && Nodes(Blacken(far)) == Nodes(far);
    MkElements(ctx.d, near, ctx.sib.n, ctx.sib.c, ctx.sib.k, far);
    MkElements(ctx.d, near, ctx.sib.n, ctx.c, ctx.sib.k, Blacken(far));
    MkElements(ctx.d, t, ctx.n, ctx.c, ctx.k, ctx.sib);
    MkElements(ctx.d, t, ctx.n, Black, ctx.k, sib');
  }

  /** The painted tree with the far child in focus, before and after that child is painted. */
  lemma FarRedPlug<N, K>(ctx: Ctx<N, K>, t: Tree<N, K>)
    requires ctx.Frame? && ctx.sib.Node? && Kid(Flip(ctx.d), ctx.sib).Node?
    ensures var far := Kid(Flip(ctx.d), ctx.sib);
            var fctx := Frame(Flip(ctx.d), Frame(Flip(ctx.d), ctx.up, ctx.n, Black, ctx.k, t),
                              ctx.sib.n, ctx.c, ctx.sib.k, Kid(ctx.d, ctx.sib));
            && Plug(fctx, far.(c := Black)) == Plug(ctx.up, FarRedPainted(ctx, t))
            && Plug(fctx, far) == Plug(ctx.up, Mk(ctx.d, t, ctx.n, Black, ctx.k, ctx.sib.(c := ctx.c)))
  {
  }

  lemma BothBlackKeys<N, K>(ctx: Ctx<N, K>, t: Tree<N, K>)
    requires ctx.Frame? && ctx.sib.Node?
    ensures Keys(Plug(ctx.up, BothBlack(ctx, t))) == Keys(Plug(ctx, t))
    ensures Nodes(Plug(ctx.up, BothBlack(ctx, t))) == Nodes(Plug(ctx, t))
  {
    var whole := Mk(ctx.d, t, ctx.n, ctx.c, ctx.k, ctx.sib);
    MkElements(ctx.d, t, ctx.n, ctx.c, ctx.k, ctx.sib);
    MkElements(ctx.d, t, ctx.n, ctx.c, ctx.k, ctx.sib.(c := Red));
    assert Keys(ctx.sib.(c := Red)) == Keys(ctx.sib) && Nodes(ctx.sib.(c := Red)) == Nodes(ctx.sib);
    PlugKeys(ctx.up, whole);
    PlugKeys(ctx.up, BothBlack(ctx, t));
    PlugNodes(ctx.up, whole);
    PlugNodes(ctx.up, BothBlack(ctx, t));
  }

  /** When the loop ends, blackening x completes the tree. */
  lemma DeleteDone<N, K>(ctx: Ctx<N, K>, t: Tree<N, K>)
    requires DeleteFocus(ctx, t) && (ctx.Top? || ColorOf(t) == Red)
    ensures RedBlack(Plug(ctx, Blacken(t))) && ColorOf(Plug(ctx, Blacken(t))) == Black
  {
    PlugRedBlack(ctx, Blacken(t));
  }

  // ----- taking out a node with two children -----

  /** Once t's root is out, either all is well or the paths through x are one black short. */
  predicate Repairable<N, K>(c: Color, ctx: Ctx<N, K>, t: Tree<N, K>) {
    if c == Black then DeleteFocus(ctx, t) else RedBlack(Plug(ctx, t)) && ColorOf(Plug(ctx, t)) == Black
  }

  /** The context of an outermost node of a tree: turns to side d only. */
  predicate Spine<N, K>(d: Dir, ctx: Ctx<N, K>) {
    ctx.Frame? ==> ctx.d == d && Spine(d, ctx.up)
  }

  lemma {:induction false} SpineKeys<N, K>(d: Dir, ctx: Ctx<N, K>)
    requires Spine(d, ctx)
    ensures (if d == L then LeftKeys(ctx) else RightKeys(ctx)) == []
  {
    if ctx.Frame? {
      SpineKeys(d, ctx.up);
    }
  }

  /** The context of z's successor, and the same context after y took z's place. */
  function SuccessorCtx<N, K>(inner: Ctx<N, K>, outer: Ctx<N, K>, zl: Tree<N, K>, z: N, c: Color, k: K): Ctx<N, K> {
    Compose(inner, Frame(R, outer, z, c, k, zl))
  }

  lemma SuccessorPlug<N, K>(inner: Ctx<N, K>, outer: Ctx<N, K>, zl: Tree<N, K>, z: N, c: Color, k: K, t: Tree<N, K>)
    ensures Plug(SuccessorCtx(inner, outer, zl, z, c, k), t) == Plug(outer, Node(zl, z, c, k, Plug(inner, t)))
  {
    PlugCompose(inner, Frame(R, outer, z, c, k, zl), t);
  }

  /** Which node and key sit above does not matter to the conditions. */
  lemma {:induction false} SuccessorCtxOk<N, K>(inner: Ctx<N, K>, outer: Ctx<N, K>, zl: Tree<N, K>, c: Color,
                                                z: N, kz: K, y: N, ky: K, b: nat)
    requires CtxOk(SuccessorCtx(inner, outer, zl, z, c, kz), b)
    ensures CtxOk(SuccessorCtx(inner, outer, zl, y, c, ky), b)
    ensures CtxColor(SuccessorCtx(inner, outer, zl, y, c, ky)) == CtxColor(SuccessorCtx(inner, outer, zl, z, c, kz))
    decreases inner
  {
    if inner.Frame? {
      SuccessorCtxOk(inner.up, outer, zl, c, z, kz, y, ky, b + Weight(inner.c));
    }
  }

  /** Taking the leftmost node y out of z's right subtree and putting it in z's place leaves
      one black node too few on the paths through y's right child if y was black, and a
      good tree otherwise. */
  lemma SuccessorOk<N, K>(inner: Ctx<N, K>, outer: Ctx<N, K>, zl: Tree<N, K>, z: N, cz: Color, kz: K, y: Tree<N, K>)
    requires y.Node? && y.left.Leaf?
    requires var whole := Plug(outer, Node(zl, z, cz, kz, Plug(inner, y))); RedBlack(whole) && ColorOf(whole) == Black
    ensures var after := Plug(outer, Node(zl, y.n, cz, y.k, Plug(inner, y.right)));
            var ctx := SuccessorCtx(inner, outer, zl, y.n, cz, y.k);
            Plug(ctx, y.right) == after && Repairable(y.c, ctx, y.right)
  {
    SuccessorPlug(inner, outer, zl, z, cz, kz, y);
    SuccessorPlug(inner, outer, zl, y.n, cz, y.k, y.right);
    UnplugRedBlack(SuccessorCtx(inner, outer, zl, z, cz, kz), y);
    SuccessorCtxOk(inner, outer, zl, cz, z, kz, y.n, y.k, BlackHeight(y));
    SuccessorCtxFrame(inner, outer, zl, y.n, cz, y.k);
    RightChildOk(SuccessorCtx(inner, outer, zl, y.n, cz, y.k), y);
  }

  lemma RightChildOk<N, K>(ctx: Ctx<N, K>, y: Tree<N, K>)
    requires y.Node? && RedBlack(y) && ctx.Frame? && CtxOk(ctx, BlackHeight(y)) && (y.c == Red ==> ctx.c == Black)
    ensures Repairable(y.c, ctx, y.right)
  {
    if y.c == Red {
      PlugRedBlack(ctx, y.right);
    }
  }

  lemma SuccessorCtxFrame<N, K>(inner: Ctx<N, K>, outer: Ctx<N, K>, zl: Tree<N, K>, y: N, c: Color, k: K)
    ensures SuccessorCtx(inner, outer, zl, y, c, k).Frame?
  {
  }

  /** Keys when the key k of a subtree disappears. */
  lemma {:induction false} KeyDropped<N, K>(ctx: Ctx<N, K>, t: Tree<N, K>, t': Tree<N, K>, a: seq<K>, k: K, b: seq<K>)
    requires Keys(t) == a + [k] + b && Keys(t') == a + b
    ensures var p, s := |LeftKeys(ctx)| + |a|, Keys(Plug(ctx, t));
            p < |s| && s[p] == k && Keys(Plug(ctx, t')) == s[..p] + s[p + 1..]
  {
    PlugKeys(ctx, t);
    PlugKeys(ctx, t');
    DropMiddle(LeftKeys(ctx), a, k, b, RightKeys(ctx), Keys(Plug(ctx, t)), Keys(Plug(ctx, t')));
  }

  lemma {:induction false} DropMiddle<K>(l: seq<K>, a: seq<K>, k: K, b: seq<K>, r: seq<K>, s: seq<K>, s': seq<K>)
    requires s == l + (a + [k] + b) + r && s' == l + (a + b) + r
    ensures var p := |l| + |a|; p < |s| && s[p] == k && s' == s[..p] + s[p + 1..]
  {
    var p := |l| + |a|;
    assert s[..p] == l + a && s[p + 1..] == b + r;
  }

  /** The key of an outermost node is the first or last one. */
  lemma EndKey<N, K>(d: Dir, inner: Ctx<N, K>, y: Tree<N, K>)
    requires Spine(d, inner) && y.Node? && Kid(d, y).Leaf?
    ensures var rest := Keys(Plug(inner, Kid(Flip(d), y)));
            Keys(Plug(inner, y)) == if d == L then [y.k] + rest else rest + [y.k]
  {
    SpineKeys(d, inner);
    PlugKeys(inner, y);
    PlugKeys(inner, Kid(Flip(d), y));
  }

  ghost predicate NodeOut<N, K>(ctx: Ctx<N, K>, t: Tree<N, K>, after: Tree<N, K>)
    requires t.Node?
  {
    Nodes(Plug(ctx, t)) == Nodes(after) + {t.n} && t.n !in Nodes(after)
  }

  ghost predicate KeyOut<N, K>(ctx: Ctx<N, K>, t: Tree<N, K>, after: Tree<N, K>)
    requires t.Node?
  {
    var s, p := Keys(Plug(ctx, t)), |LeftKeys(ctx)| + |Keys(t.left)|;
    p < |s| && s[p] == t.k && Keys(after) == s[..p] + s[p + 1..]
  }

  /** `after` has the nodes and keys of Plug(ctx, t) except for those of t's root. */
  ghost predicate TakenOut<N, K>(ctx: Ctx<N, K>, t: Tree<N, K>, after: Tree<N, K>)
    requires t.Node?
  {
    NodeOut(ctx, t, after) && KeyOut(ctx, t, after)
  }

  /** The tree after the first node y of z's right subtree has moved to z's place. */
  function Moved<N, K>(inner: Ctx<N, K>, ctx: Ctx<N, K>, t: Tree<N, K>, y: Tree<N, K>): Tree<N, K>
    requires t.Node? && y.Node?
  {
    Plug(ctx, Node(t.left, y.n, t.c, y.k, Plug(inner, y.right)))
  }

  lemma SuccessorNodes<N, K>(inner: Ctx<N, K>, ctx: Ctx<N, K>, t: Tree<N, K>, y: Tree<N, K>)
    requires t.Node? && t.right == Plug(inner, y) && y.Node? && y.left.Leaf? && Distinct(Plug(ctx, t))
    ensures NodeOut(ctx, t, Moved(inner, ctx, t, y))
  {
    var zr' := Plug(inner, y.right);
    var t' := Node(t.left, y.n, t.c, y.k, zr');
    PlugNodes(ctx, t);
    PlugNodes(ctx, t');
    PlugNodes(inner, y);
    PlugNodes(inner, y.right);
    PlugDistinct(ctx, t);
    assert Nodes(y) == {y.n} + Nodes(y.right);
    assert Nodes(t) == Nodes(t.left) + {t.n} + Nodes(t.right) && Nodes(t') == Nodes(t.left) + {y.n} + Nodes(zr');
    MovedNode(CtxNodes(ctx), Nodes(t.left), t.n, CtxNodes(inner), y.n, Nodes(y.right), Nodes(t.right), Nodes(zr'));
  }

  lemma {:induction false} MovedNode<N>(o: set<N>, zl: set<N>, z: N, i: set<N>, y: N, yr: set<N>, zr: set<N>, zr': set<N>)
    requires zr == i + ({y} + yr) && zr' == i + yr
    requires z !in o && z !in zl && z !in zr
    ensures o + (zl + {z} + zr) == o + (zl + {y} + zr') + {z} && z !in o + (zl + {y} + zr')
  {
  }

  lemma SuccessorKeys<N, K>(inner: Ctx<N, K>, ctx: Ctx<N, K>, t: Tree<N, K>, y: Tree<N, K>)
    requires t.Node? && t.right == Plug(inner, y) && Spine(L, inner) && y.Node? && y.left.Leaf?
    ensures KeyOut(ctx, t, Moved(inner, ctx, t, y))
  {
    var t' := Node(t.left, y.n, t.c, y.k, Plug(inner, y.right));
    EndKey(L, inner, y);
    assert Keys(t') == Keys(t.left) + Keys(t.right);
    KeyDropped(ctx, t, t', Keys(t.left), t.k, Keys(t.right));
  }

  /** Taking out a node with at most one child. */
  lemma SpliceOk<N, K>(ctx: Ctx<N, K>, t: Tree<N, K>, d: Dir)
    requires t.Node? && Kid(Flip(d), t).Leaf? && RedBlack(Plug(ctx, t)) && ColorOf(Plug(ctx, t)) == Black
    ensures Repairable(t.c, ctx, Kid(d, t))
  {
    UnplugRedBlack(ctx, t);
    if t.c == Red {
      PlugRedBlack(ctx, Kid(d, t));
    }
  }

  lemma SpliceTakesOut<N, K>(ctx: Ctx<N, K>, t: Tree<N, K>, d: Dir)
    requires t.Node? && Kid(Flip(d), t).Leaf? && Distinct(Plug(ctx, t))
    ensures TakenOut(ctx, t, Plug(ctx, Kid(d, t)))
  {
    assert Keys(Kid(d, t)) == Keys(t.left) + Keys(t.right);
    KeyDropped(ctx, t, Kid(d, t), Keys(t.left), t.k, Keys(t.right));
    SpliceNodes(ctx, t, d);
  }

  lemma SpliceNodes<N, K>(ctx: Ctx<N, K>, t: Tree<N, K>, d: Dir)
    requires t.Node? && Kid(Flip(d), t).Leaf? && Distinct(Plug(ctx, t))
    ensures NodeOut(ctx, t, Plug(ctx, Kid(d, t)))
  {
    PlugNodes(ctx, t);
    PlugNodes(ctx, Kid(d, t));
    PlugDistinct(ctx, t);
    assert Nodes(t) == Nodes(Kid(d, t)) + {t.n};
  }

  lemma SuccessorTakesOut<N, K>(inner: Ctx<N, K>, ctx: Ctx<N, K>, t: Tree<N, K>, y: Tree<N, K>)
    requires t.Node? && t.right == Plug(inner, y) && Spine(L, inner) && y.Node? && y.left.Leaf?
    requires Distinct(Plug(ctx, t))
    ensures TakenOut(ctx, t, Moved(inner, ctx, t, y))
  {
    SuccessorNodes(inner, ctx, t, y);
    SuccessorKeys(inner, ctx, t, y);
  }

  /** What decreases along fixDelete: the depth of x, and a red x ends the loop. */
  function Rank<N, K>(ctx: Ctx<N, K>, t: Tree<N, K>): nat {
    if ColorOf(t) == Red then 0 else 1 + Depth(ctx)
  }
}

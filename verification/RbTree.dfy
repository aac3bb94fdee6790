/** The red-black tree of src/basic_struct/red_black_tree.h, pointer by pointer. */
module RbTree {
  import opened Basics
  import opened Order
  import opened RbShape
  import opened RbMemory
  import opened RbFix
  import opened RbSearch

  /** A node object. The sentinel is one too; its key is never read. */
  class RbNode<K(0)> {
    var data: K
    var color: Color
    var left: RbNode<K>
    var right: RbNode<K>
    var parent: RbNode<K>

    constructor Sentinel()
      ensures color == Black && left == this && right == this && parent == this
    {
      color := Black;
      left := this;
      right := this;
      parent := this;
    }

    constructor (key: K, nil: RbNode<K>, up: RbNode<K>)
      ensures data == key && color == Red && left == nil && right == nil && parent == up
    {
      data := key;
      color := Red;
      left := nil;
      right := nil;
      parent := up;
    }
  }

  /** The contents of a set of node objects as a value. */
  ghost function Mem<K(0)>(repr: set<RbNode<K>>): Memory<RbNode<K>, K>
    reads repr
  {
    map n | n in repr :: Cell(n.data, n.color, n.left, n.right, n.parent)
  }

  /** What the tree below the sentinel nil must be, as a value: its nodes are the given
      ones, it meets the red-black conditions and its keys ascend strictly. */
  ghost predicate Good<N, K(!new)>(lt: (K, K) -> bool, nil: N, repr: set<N>, t: Tree<N, K>) {
    && repr == Nodes(t) + {nil}
    && RedBlack(t) && ColorOf(t) == Black
    && StrictWeakOrder(lt) && Sorted(lt, Keys(t))
  }

  /** prev is the node a search for v came from, and v belongs on the side it went to. */
  predicate FellOff<N(==), K>(lt: (K, K) -> bool, nil: N, ctx: Ctx<N, K>, v: K, prev: N) {
    prev == Holder(ctx, nil) && (ctx.Frame? ==> (ctx.d == L <==> lt(v, ctx.k)))
  }

  /** A good tree with a new red leaf n is ready for fixInsert. */
  lemma NewLeafFocus<N, K(!new)>(lt: (K, K) -> bool, nil: N, repr: set<N>, ctx: Ctx<N, K>, n: N, v: K)
    requires Good(lt, nil, repr, Plug(ctx, Leaf))
    ensures InsertFocus(ctx, Node(Leaf, n, Red, v, Leaf))
  {
    UnplugRedBlack<N, K>(ctx, Leaf);
  }

  /** A good tree whose new leaf hangs where the search for its key fell off is good again
      once the red-black conditions hold. */
  lemma NewLeafGood<N, K(!new)>(lt: (K, K) -> bool, nil: N, repr: set<N>, ctx: Ctx<N, K>, n: N, v: K, done: Tree<N, K>)
    requires Good(lt, nil, repr, Plug(ctx, Leaf)) && Around(lt, ctx, v)
    requires SameElements(Plug(ctx, Node(Leaf, n, Red, v, Leaf)), done) && RedBlack(done) && ColorOf(done) == Black
    ensures Good(lt, nil, repr + {n}, done) && Contents(done) == Contents(Plug(ctx, Leaf)) + {v}
  {
    var leaf := Node(Leaf, n, Red, v, Leaf);
    PlugNodes(ctx, leaf);
    PlugNodes<N, K>(ctx, Leaf);
    Added(lt, ctx, v, leaf);
  }

  /** A good tree without the node a search for v stopped at. */
  lemma StillGood<N, K(!new)>(lt: (K, K) -> bool, nil: N, repr: set<N>, ctx: Ctx<N, K>, t: Tree<N, K>, after: Tree<N, K>, v: K)
    requires Good(lt, nil, repr, Plug(ctx, t)) && t.Node? && Equivalent(lt, v, t.k) && t.n != nil
    requires TakenOut(ctx, t, after) && RedBlack(after) && ColorOf(after) == Black
    ensures Good(lt, nil, repr - {t.n}, after)
    ensures Contents(after) == set k | k in Contents(Plug(ctx, t)) && !Equivalent(lt, k, v)
  {
    Dropped(lt, Plug(ctx, t), after, |LeftKeys(ctx)| + |Keys(t.left)|, v);
  }

  lemma TakenOutSame<N, K>(ctx: Ctx<N, K>, t: Tree<N, K>, after: Tree<N, K>, done: Tree<N, K>)
    requires t.Node? && TakenOut(ctx, t, after) && SameElements(after, done)
    ensures TakenOut(ctx, t, done)
  {
  }

  /** The number of keys bounds the height of a good tree. */
  lemma StepsAreFew<N, K(!new)>(lt: (K, K) -> bool, nil: N, repr: set<N>, t: Tree<N, K>)
    requires Good(lt, nil, repr, t)
    ensures Pow2(Height(t)) <= (|Contents(t)| + 1) * (|Contents(t)| + 1)
  {
    HeightIsLogarithmic(t);
    CountKeys(lt, Keys(t));
    assert Contents(t) == set k | k in Keys(t);
  }

  /** The parent of a subtree inside the right subtree of y. */
  lemma {:induction false} ParentInside<N, K>(m: Memory<N, K>, nil: N, inner: Ctx<N, K>, ctx: Ctx<N, K>, zl: Tree<N, K>,
                                              y: N, c: Color, k: K, t: Tree<N, K>)
    requires Holds(m, nil, Plug(ctx, Node(zl, y, c, k, Plug(inner, t))))
    ensures var ctx' := SuccessorCtx(inner, ctx, zl, y, c, k);
            && Plug(ctx', t) == Plug(ctx, Node(zl, y, c, k, Plug(inner, t)))
            && Holder(ctx', nil) == Holder(inner, y)
            && (t.Node? ==> t.n != nil && t.n in m && m[t.n].parent == Holder(ctx', nil))
  {
    SuccessorPlug(inner, ctx, zl, y, c, k, t);
    CellAbove(m, nil, SuccessorCtx(inner, ctx, zl, y, c, k), t);
  }

  class RBTree<K(==, !new, 0)> {
    const lt: (K, K) -> bool
    var root: RbNode<K>
    var nil: RbNode<K>
    ghost var repr: set<RbNode<K>>     // the sentinel and every node of the tree
    ghost var tree: Tree<RbNode<K>, K>

    /** Memory holds the tree t at root_. */
    ghost predicate Represents(t: Tree<RbNode<K>, K>)
      reads this`root, this`nil, this`repr, repr
    {
      Holds(Mem(repr), nil, t) && root == Root(t, nil)
    }

    constructor (lt: (K, K) -> bool)
      ensures this.lt == lt && fresh(repr) && tree == Leaf && Represents(tree)
      ensures StrictWeakOrder(lt) ==> Valid()
    {
      this.lt := lt;
      var sentinel := new RbNode<K>.Sentinel();
      nil := sentinel;
      root := sentinel;
      repr := {sentinel};
      tree := Leaf;
    }

    /** The assignment of a colour, seen as a change of the tree in memory. */
    method Paint(x: RbNode<K>, c: Color, ghost ctx: Ctx<RbNode<K>, K>, ghost t: Tree<RbNode<K>, K>)
      requires Represents(Plug(ctx, t)) && t.Node? && t.n == x
      modifies repr`color
      ensures Represents(Plug(ctx, t.(c := c)))
    {
      ghost var m0 := Mem(repr);
      Recolor(m0, nil, ctx, t, c);
      x.color := c;
      assert Mem(repr) == WithColor(m0, x, c);
      PlugRoot(ctx, t, t.(c := c), nil);
    }

    // ----- rotations -----

    method LeftRotate(x: RbNode<K>, ghost ctx: Ctx<RbNode<K>, K>, ghost t: Tree<RbNode<K>, K>)
      requires Represents(Plug(ctx, t)) && t.Node? && t.n == x && t.right.Node?
      modifies this`root, repr`left, repr`right, repr`parent
      ensures Represents(Plug(ctx, RotateTree(L, t)))
      ensures Mem(repr)[nil] == old(Mem(repr)[nil])
    {
      ghost var m0 := Mem(repr);
      RotationFacts(m0, nil, L, ctx, t);
      RotateLeftPointers(x, ctx, t.right.left);
      Rotate(m0, Mem(repr), nil, L, ctx, t);
      PlugRoot(ctx, t, RotateTree(L, t), nil);
    }

    method RotateLeftPointers(x: RbNode<K>, ghost ctx: Ctx<RbNode<K>, K>, ghost b: Tree<RbNode<K>, K>)
      requires x in repr && x.right in repr && x.right != x && x != nil && x.right != nil
      requires x.right.left == Root(b, nil) && x.parent == Holder(ctx, nil)
      requires b.Node? ==> b.n in repr && b.n != x && b.n != x.right && b.n != nil
      requires ctx.Frame? ==> ctx.n in repr && ctx.n != x && ctx.n != x.right && ctx.n != nil && (b.Node? ==> ctx.n != b.n)
      requires ctx.Frame? ==> (ctx.n.left == x <==> ctx.d == L)
      modifies this`root, repr`left, repr`right, repr`parent
      ensures Rotated(old(Mem(repr)), Mem(repr), L, ctx, x, old(x.right), b, nil)
      ensures root == if ctx.Top? then old(x.right) else old(root)
    {
      var y := x.right;
      x.right := y.left;
      if y.left != nil {
        y.left.parent := x;
      }
      y.parent := x.parent;
      if x.parent == nil {
        root := y;
      } else if x == x.parent.left {
        x.parent.left := y;
      } else {
        x.parent.right := y;
      }
      y.left := x;
      x.parent := y;
    }

    method RightRotate(y: RbNode<K>, ghost ctx: Ctx<RbNode<K>, K>, ghost t: Tree<RbNode<K>, K>)
      requires Represents(Plug(ctx, t)) && t.Node? && t.n == y && t.left.Node?
      modifies this`root, repr`left, repr`right, repr`parent
      ensures Represents(Plug(ctx, RotateTree(R, t)))
      ensures Mem(repr)[nil] == old(Mem(repr)[nil])
    {
      ghost var m0 := Mem(repr);
      RotationFacts(m0, nil, R, ctx, t);
      RotateRightPointers(y, ctx, t.left.right);
      Rotate(m0, Mem(repr), nil, R, ctx, t);
      PlugRoot(ctx, t, RotateTree(R, t), nil);
    }

    method RotateRightPointers(y: RbNode<K>, ghost ctx: Ctx<RbNode<K>, K>, ghost b: Tree<RbNode<K>, K>)
      requires y in repr && y.left in repr && y.left != y && y != nil && y.left != nil
      requires y.left.right == Root(b, nil) && y.parent == Holder(ctx, nil)
      requires b.Node? ==> b.n in repr && b.n != y && b.n != y.left && b.n != nil
      requires ctx.Frame? ==> ctx.n in repr && ctx.n != y && ctx.n != y.left && ctx.n != nil && (b.Node? ==> ctx.n != b.n)
      requires ctx.Frame? ==> (ctx.n.left == y <==> ctx.d == L)
      modifies this`root, repr`left, repr`right, repr`parent
      ensures Rotated(old(Mem(repr)), Mem(repr), R, ctx, y, old(y.left), b, nil)
      ensures root == if ctx.Top? then old(y.left) else old(root)
    {
      var x := y.left;
      y.left := x.right;
      if x.right != nil {
        x.right.parent := y;
      }
      x.parent := y.parent;
      if y.parent == nil {
        root := x;
      } else if y == y.parent.left {
        y.parent.left := x;
      } else {
        y.parent.right := x;
      }
      x.right := y;
      y.parent := x;
    }

    // ----- insertion fix-up -----

    /** Red uncle y: recolour and move up to the grandparent. */
    method RecolorUncle(z: RbNode<K>, y: RbNode<K>, ghost ctx: Ctx<RbNode<K>, K>, ghost t: Tree<RbNode<K>, K>)
      returns (z': RbNode<K>)
      requires Represents(Plug(ctx, t)) && InsertFocus(ctx, t) && t.n == z
      requires RedParent(ctx) && ctx.up.sib.Node? && ctx.up.sib.n == y && y.color == Red
      modifies repr`color
      ensures Represents(Plug(ctx.up.up, Recolored(ctx, t))) && InsertFocus(ctx.up.up, Recolored(ctx, t))
      ensures z' == Recolored(ctx, t).n
      ensures SameElements(Plug(ctx, t), Plug(ctx.up.up, Recolored(ctx, t)))
    {
      CellAbove(Mem(repr), nil, ctx, t);
      ghost var pt := Mk(ctx.d, t, ctx.n, ctx.c, ctx.k, ctx.sib);
      CellAbove(Mem(repr), nil, ctx.up, pt);
      RecoloredOk(ctx, t);
      ReplaceKeys(ctx.up.up, Grand(ctx, t), Recolored(ctx, t));
      Paint(z.parent, Black, ctx.up, pt);
      ghost var up := ctx.up.up;
      ghost var pt' := pt.(c := Black);
      ghost var uncle := ctx.up.sib;
      Paint(y, Black, Frame(Flip(ctx.up.d), up, ctx.up.n, ctx.up.c, ctx.up.k, pt'), uncle);
      Paint(z.parent.parent, Red, up, Mk(ctx.up.d, pt', ctx.up.n, ctx.up.c, ctx.up.k, uncle.(c := Black)));
      z' := z.parent.parent;
    }

    /** Black uncle, z a left child of a left child: recolour and rotate. */
    method RotateGrandparentRight(z: RbNode<K>, ghost ctx: Ctx<RbNode<K>, K>, ghost t: Tree<RbNode<K>, K>)
      returns (z': RbNode<K>, ghost ctx': Ctx<RbNode<K>, K>, ghost t': Tree<RbNode<K>, K>)
      requires Represents(Plug(ctx, t)) && InsertFocus(ctx, t) && t.n == z
      requires RedParent(ctx) && ctx.d == ctx.up.d == L && ColorOf(ctx.up.sib) == Black
      modifies this`root, repr`left, repr`right, repr`parent, repr`color
      ensures Represents(Plug(ctx', t')) && InsertFocus(ctx', t') && t'.n == z'
      ensures SameElements(Plug(ctx, t), Plug(ctx', t')) && Depth(ctx') < Depth(ctx)
    {
      z', ctx', t' := z, OuterCtx(ctx, t), t;
      CellAbove(Mem(repr), nil, ctx, t);
      ghost var pt := Mk(ctx.d, t, ctx.n, ctx.c, ctx.k, ctx.sib);
      CellAbove(Mem(repr), nil, ctx.up, pt);
      OuterOk(ctx, t);
      OuterKeys(ctx, t);
      RotateKeys(R, OuterPainted(ctx, t));
      ReplaceKeys(ctx.up.up, Grand(ctx, t), RotateTree(R, OuterPainted(ctx, t)));
      Paint(z.parent, Black, ctx.up, pt);
      Paint(z.parent.parent, Red, ctx.up.up, Mk(ctx.up.d, pt.(c := Black), ctx.up.n, ctx.up.c, ctx.up.k, ctx.up.sib));
      RightRotate(z.parent.parent, ctx.up.up, OuterPainted(ctx, t));
    }

    /** One round of fixInsert when z's parent is a left child. */
    method FixInsertLeft(z: RbNode<K>, ghost ctx: Ctx<RbNode<K>, K>, ghost t: Tree<RbNode<K>, K>)
      returns (z': RbNode<K>, ghost ctx': Ctx<RbNode<K>, K>, ghost t': Tree<RbNode<K>, K>)
      requires Represents(Plug(ctx, t)) && InsertFocus(ctx, t) && t.n == z
      requires RedParent(ctx) && ctx.up.d == L
      modifies this`root, repr`left, repr`right, repr`parent, repr`color
      ensures Represents(Plug(ctx', t')) && InsertFocus(ctx', t') && t'.n == z'
      ensures SameElements(Plug(ctx, t), Plug(ctx', t')) && Depth(ctx') < Depth(ctx)
    {
      CellAbove(Mem(repr), nil, ctx, t);
      ghost var pt := Mk(ctx.d, t, ctx.n, ctx.c, ctx.k, ctx.sib);
      CellAbove(Mem(repr), nil, ctx.up, pt);
      var y := z.parent.parent.right;
      if y.color == Red {
        z' := RecolorUncle(z, y, ctx, t);
        ctx', t' := ctx.up.up, Recolored(ctx, t);
      } else {
        z', ctx', t' := z, ctx, t;
        if z == z.parent.right {
          InnerOk(ctx, t);
          RotateKeys(L, pt);
          ReplaceKeys(ctx.up, pt, RotateTree(L, pt));
          z' := z.parent;
          LeftRotate(z', ctx.up, pt);
          ctx', t' := InnerCtx(ctx, t), InnerTree(ctx, t);
        }
        z', ctx', t' := RotateGrandparentRight(z', ctx', t');
      }
    }

    /** Black uncle, z a right child of a right child: recolour and rotate. */
    method RotateGrandparentLeft(z: RbNode<K>, ghost ctx: Ctx<RbNode<K>, K>, ghost t: Tree<RbNode<K>, K>)
      returns (z': RbNode<K>, ghost ctx': Ctx<RbNode<K>, K>, ghost t': Tree<RbNode<K>, K>)
      requires Represents(Plug(ctx, t)) && InsertFocus(ctx, t) && t.n == z
      requires RedParent(ctx) && ctx.d == ctx.up.d == R && ColorOf(ctx.up.sib) == Black
      modifies this`root, repr`left, repr`right, repr`parent, repr`color
      ensures Represents(Plug(ctx', t')) && InsertFocus(ctx', t') && t'.n == z'
      ensures SameElements(Plug(ctx, t), Plug(ctx', t')) && Depth(ctx') < Depth(ctx)
    {
      z', ctx', t' := z, OuterCtx(ctx, t), t;
      CellAbove(Mem(repr), nil, ctx, t);
      ghost var pt := Mk(ctx.d, t, ctx.n, ctx.c, ctx.k, ctx.sib);
      CellAbove(Mem(repr), nil, ctx.up, pt);
      OuterOk(ctx, t);
      OuterKeys(ctx, t);
      RotateKeys(L, OuterPainted(ctx, t));
      ReplaceKeys(ctx.up.up, Grand(ctx, t), RotateTree(L, OuterPainted(ctx, t)));
      Paint(z.parent, Black, ctx.up, pt);
      Paint(z.parent.parent, Red, ctx.up.up, Mk(ctx.up.d, pt.(c := Black), ctx.up.n, ctx.up.c, ctx.up.k, ctx.up.sib));
      LeftRotate(z.parent.parent, ctx.up.up, OuterPainted(ctx, t));
    }

    /** One round of fixInsert when z's parent is a right child. */
    method FixInsertRight(z: RbNode<K>, ghost ctx: Ctx<RbNode<K>, K>, ghost t: Tree<RbNode<K>, K>)
      returns (z': RbNode<K>, ghost ctx': Ctx<RbNode<K>, K>, ghost t': Tree<RbNode<K>, K>)
      requires Represents(Plug(ctx, t)) && InsertFocus(ctx, t) && t.n == z
      requires RedParent(ctx) && ctx.up.d == R
      modifies this`root, repr`left, repr`right, repr`parent, repr`color
      ensures Represents(Plug(ctx', t')) && InsertFocus(ctx', t') && t'.n == z'
      ensures SameElements(Plug(ctx, t), Plug(ctx', t')) && Depth(ctx') < Depth(ctx)
    {
      CellAbove(Mem(repr), nil, ctx, t);
      ghost var pt := Mk(ctx.d, t, ctx.n, ctx.c, ctx.k, ctx.sib);
      CellAbove(Mem(repr), nil, ctx.up, pt);
      var y := z.parent.parent.left;
      if y.color == Red {
        z' := RecolorUncle(z, y, ctx, t);
        ctx', t' := ctx.up.up, Recolored(ctx, t);
      } else {
        z', ctx', t' := z, ctx, t;
        if z == z.parent.left {
          InnerOk(ctx, t);
          RotateKeys(R, pt);
          ReplaceKeys(ctx.up, pt, RotateTree(R, pt));
          z' := z.parent;
          RightRotate(z', ctx.up, pt);
          ctx', t' := InnerCtx(ctx, t), InnerTree(ctx, t);
        }
        z', ctx', t' := RotateGrandparentLeft(z', ctx', t');
      }
    }

    /** One round of fixInsert. */
    method FixInsertRound(z: RbNode<K>, ghost ctx: Ctx<RbNode<K>, K>, ghost t: Tree<RbNode<K>, K>)
      returns (z': RbNode<K>, ghost ctx': Ctx<RbNode<K>, K>, ghost t': Tree<RbNode<K>, K>)
      requires Represents(Plug(ctx, t)) && InsertFocus(ctx, t) && t.n == z && RedParent(ctx)
      modifies this`root, repr`left, repr`right, repr`parent, repr`color
      ensures Represents(Plug(ctx', t')) && InsertFocus(ctx', t') && t'.n == z'
      ensures z' in repr && z'.parent in repr && z'.parent.color == CtxColor(ctx')
      ensures SameElements(Plug(ctx, t), Plug(ctx', t')) && Depth(ctx') < Depth(ctx)
    {
      CellAbove(Mem(repr), nil, ctx, t);
      CellAbove(Mem(repr), nil, ctx.up, Mk(ctx.d, t, ctx.n, ctx.c, ctx.k, ctx.sib));
      if z.parent == z.parent.parent.left {
        z', ctx', t' := FixInsertLeft(z, ctx, t);
      } else {
        z', ctx', t' := FixInsertRight(z, ctx, t);
      }
      CellAbove(Mem(repr), nil, ctx', t');
    }

    /** fixInsert: from a tree that is in order except perhaps for a red z below a red parent. */
    method FixInsert(z0: RbNode<K>, ghost ctx0: Ctx<RbNode<K>, K>, ghost t0: Tree<RbNode<K>, K>)
      returns (ghost done: Tree<RbNode<K>, K>)
      requires Represents(Plug(ctx0, t0)) && InsertFocus(ctx0, t0) && t0.n == z0
      modifies this`root, repr`left, repr`right, repr`parent, repr`color
      ensures Represents(done) && RedBlack(done) && ColorOf(done) == Black
      ensures SameElements(Plug(ctx0, t0), done)
    {
      var z := z0;
      ghost var ctx, t := ctx0, t0;
      CellAbove(Mem(repr), nil, ctx, t);
      while z.parent.color == Red
        invariant Represents(Plug(ctx, t)) && InsertFocus(ctx, t) && t.n == z
        invariant z in repr && z.parent in repr && z.parent.color == CtxColor(ctx)
        invariant SameElements(Plug(ctx0, t0), Plug(ctx, t))
        decreases Depth(ctx)
      {
        RedParentHasGrandparent(ctx, t);
        z, ctx, t := FixInsertRound(z, ctx, t);
      }
      InsertDone(ctx, t);
      ghost var whole := Plug(ctx, t);
      done := whole.(c := Black);
      Paint(root, Black, Top, whole);
    }

    // ----- deletion fix-up -----

    /** x, which may be the sentinel, is the root of the subtree t, and its parent is right. */
    ghost predicate FocusedOn(x: RbNode<K>, ctx: Ctx<RbNode<K>, K>, t: Tree<RbNode<K>, K>)
      reads this`root, this`nil, this`repr, repr, x
    {
      Represents(Plug(ctx, t)) && x == Root(t, nil) && x.parent == Holder(ctx, nil)
    }

    /** Red sibling of a left child x. */
    method RedSiblingLeft(x: RbNode<K>, ghost ctx: Ctx<RbNode<K>, K>, ghost t: Tree<RbNode<K>, K>)
      returns (w: RbNode<K>, ghost ctx': Ctx<RbNode<K>, K>)
      requires FocusedOn(x, ctx, t) && DeleteFocus(ctx, t) && ColorOf(t) == Black
      requires ctx.Frame? && ctx.d == L && ColorOf(ctx.sib) == Red
      modifies this`root, repr`left, repr`right, repr`parent, repr`color
      ensures ctx' == RedSiblingCtx(ctx) && FocusedOn(x, ctx', t) && DeleteFocus(ctx', t)
      ensures ctx'.d == L && ctx'.sib.Node? && ctx'.sib.c == Black && ctx'.c == Red && w == ctx'.sib.n
      ensures SameElements(Plug(ctx, t), Plug(ctx', t))
    {
      CellAbove(Mem(repr), nil, ctx, t);
      ghost var whole := Mk(ctx.d, t, ctx.n, ctx.c, ctx.k, ctx.sib);
      RedSiblingOk(ctx, t);
      RotateKeys(L, RedSiblingPainted(ctx, t));
      ReplaceKeys(ctx.up, whole, RotateTree(L, RedSiblingPainted(ctx, t)));
      w := x.parent.right;
      Paint(w, Black, Frame(Flip(ctx.d), ctx.up, ctx.n, ctx.c, ctx.k, t), ctx.sib);
      Paint(x.parent, Red, ctx.up, Mk(ctx.d, t, ctx.n, ctx.c, ctx.k, ctx.sib.(c := Black)));
      LeftRotate(x.parent, ctx.up, RedSiblingPainted(ctx, t));
      ctx' := RedSiblingCtx(ctx);
      CellAbove(Mem(repr), nil, ctx', t);
      w := x.parent.right;
    }

    /** Black sibling w of a left child x, near child red, far child black. */
    method NearRedLeft(x: RbNode<K>, w: RbNode<K>, ghost ctx: Ctx<RbNode<K>, K>, ghost t: Tree<RbNode<K>, K>)
      returns (w': RbNode<K>, ghost ctx': Ctx<RbNode<K>, K>)
      requires FocusedOn(x, ctx, t) && DeleteFocus(ctx, t) && ColorOf(t) == Black
      requires ctx.Frame? && ctx.d == L && ctx.sib.Node? && ctx.sib.c == Black && w == ctx.sib.n
      requires ColorOf(ctx.sib.left) == Red && ColorOf(ctx.sib.right) == Black
      modifies this`root, repr`left, repr`right, repr`parent, repr`color
      ensures FocusedOn(x, ctx', t) && DeleteFocus(ctx', t) && ctx'.Frame? && ctx' == ctx.(sib := ctx'.sib)
      ensures ctx'.sib.Node? && ctx'.sib.c == Black && ColorOf(ctx'.sib.right) == Red && w' == ctx'.sib.n
      ensures SameElements(Plug(ctx, t), Plug(ctx', t))
    {
      ghost var sctx := Frame(Flip(ctx.d), ctx.up, ctx.n, ctx.c, ctx.k, t);
      CellAbove(Mem(repr), nil, ctx, t);
      CellAbove(Mem(repr), nil, sctx, ctx.sib);
      NearRedOk(ctx, t);
      ghost var sib' := RotateTree(R, NearRedPainted(ctx));
      RotateKeys(R, NearRedPainted(ctx));
      ReplaceKeys(sctx, ctx.sib, sib');
      Paint(w.left, Black, Frame(ctx.d, sctx, ctx.sib.n, ctx.sib.c, ctx.sib.k, ctx.sib.right), ctx.sib.left);
      Paint(w, Red, sctx, Mk(ctx.d, Blacken(ctx.sib.left), ctx.sib.n, ctx.sib.c, ctx.sib.k, ctx.sib.right));
      RightRotate(w, sctx, NearRedPainted(ctx));
      ctx' := ctx.(sib := sib');
      CellAbove(Mem(repr), nil, ctx', t);
      w' := x.parent.right;
    }

    /** The colours of the last case: w takes the parent's, parent and far child are black. */
    method FarRedPaintLeft(x: RbNode<K>, w: RbNode<K>, ghost ctx: Ctx<RbNode<K>, K>, ghost t: Tree<RbNode<K>, K>)
      requires FocusedOn(x, ctx, t)
      requires ctx.Frame? && ctx.d == L && ctx.sib.Node? && w == ctx.sib.n && ColorOf(ctx.sib.right) == Red
      modifies repr`color
      ensures Represents(Plug(ctx.up, FarRedPainted(ctx, t))) && x.parent == ctx.n
    {
      ghost var sctx := Frame(Flip(ctx.d), ctx.up, ctx.n, ctx.c, ctx.k, t);
      CellAbove(Mem(repr), nil, ctx, t);
      CellAbove(Mem(repr), nil, sctx, ctx.sib);
      Paint(w, x.parent.color, sctx, ctx.sib);
      Paint(x.parent, Black, ctx.up, Mk(ctx.d, t, ctx.n, ctx.c, ctx.k, ctx.sib.(c := ctx.c)));
      ghost var pctx := Frame(Flip(ctx.d), ctx.up, ctx.n, Black, ctx.k, t);
      FarRedPlug(ctx, t);
      Paint(w.right, Black, Frame(Flip(ctx.d), pctx, ctx.sib.n, ctx.c, ctx.sib.k, ctx.sib.left), ctx.sib.right);
    }

    /** Black sibling w of a left child x, far child red: the last case. */
    method FarRedLeft(x: RbNode<K>, w: RbNode<K>, ghost ctx: Ctx<RbNode<K>, K>, ghost t: Tree<RbNode<K>, K>)
      returns (x': RbNode<K>, ghost t': Tree<RbNode<K>, K>)
      requires FocusedOn(x, ctx, t) && DeleteFocus(ctx, t) && ColorOf(t) == Black
      requires ctx.Frame? && ctx.d == L && ctx.sib.Node? && ctx.sib.c == Black && w == ctx.sib.n
      requires ColorOf(ctx.sib.right) == Red
      modifies this`root, repr`left, repr`right, repr`parent, repr`color
      ensures FocusedOn(x', Top, t') && RedBlack(t') && ColorOf(t') == Black
      ensures SameElements(Plug(ctx, t), t')
    {
      FarRedOk(ctx, t);
      FarRedKeys(ctx, t);
      ghost var painted := FarRedPainted(ctx, t);
      RotateKeys(L, painted);
      ReplaceKeys(ctx.up, Mk(ctx.d, t, ctx.n, ctx.c, ctx.k, ctx.sib), RotateTree(L, painted));
      FarRedPaintLeft(x, w, ctx, t);
      LeftRotate(x.parent, ctx.up, painted);
      t' := Plug(ctx.up, RotateTree(L, painted));
      PlugIsNode(ctx.up, RotateTree(L, painted));
      CellAbove(Mem(repr), nil, Top, t');
      x' := root;
    }

    /** Black sibling w of a left child x, both its children black. */
    method BothBlackLeft(x: RbNode<K>, w: RbNode<K>, ghost ctx: Ctx<RbNode<K>, K>, ghost t: Tree<RbNode<K>, K>)
      returns (x': RbNode<K>)
      requires FocusedOn(x, ctx, t) && DeleteFocus(ctx, t) && ColorOf(t) == Black && ctx.Frame? && ctx.d == L
      requires ctx.sib.Node? && ctx.sib.c == Black && w == ctx.sib.n
      requires ColorOf(ctx.sib.left) == Black && ColorOf(ctx.sib.right) == Black
      modifies repr`color
      ensures FocusedOn(x', ctx.up, BothBlack(ctx, t)) && DeleteFocus(ctx.up, BothBlack(ctx, t))
      ensures SameElements(Plug(ctx, t), Plug(ctx.up, BothBlack(ctx, t)))
      ensures ctx.c == Red ==> ColorOf(BothBlack(ctx, t)) == Red
    {
      CellAbove(Mem(repr), nil, ctx, t);
      BothBlackOk(ctx, t);
      BothBlackKeys(ctx, t);
      Paint(w, Red, Frame(Flip(ctx.d), ctx.up, ctx.n, ctx.c, ctx.k, t), ctx.sib);
      CellAbove(Mem(repr), nil, ctx.up, BothBlack(ctx, t));
      x' := x.parent;
    }

    /** The cases of fixDelete with a black sibling w of a left child x. */
    method BlackSiblingLeft(x: RbNode<K>, w0: RbNode<K>, ghost ctx: Ctx<RbNode<K>, K>, ghost t: Tree<RbNode<K>, K>)
      returns (x': RbNode<K>, ghost ctx': Ctx<RbNode<K>, K>, ghost t': Tree<RbNode<K>, K>)
      requires FocusedOn(x, ctx, t) && DeleteFocus(ctx, t) && ColorOf(t) == Black && ctx.Frame? && ctx.d == L
      requires ctx.sib.Node? && ctx.sib.c == Black && w0 == ctx.sib.n
      modifies this`root, repr`left, repr`right, repr`parent, repr`color
      ensures FocusedOn(x', ctx', t') && DeleteFocus(ctx', t')
      ensures SameElements(Plug(ctx, t), Plug(ctx', t'))
      ensures ctx'.Top? || (ctx' == ctx.up && (ctx.c == Red ==> ColorOf(t') == Red))
    {
      var w := w0;
      ghost var sctx := Frame(Flip(ctx.d), ctx.up, ctx.n, ctx.c, ctx.k, t);
      CellAbove(Mem(repr), nil, ctx, t);
      KidColors(Mem(repr), nil, sctx, ctx.sib);
      if w.left.color == Black && w.right.color == Black {
        x' := BothBlackLeft(x, w, ctx, t);
        ctx', t' := ctx.up, BothBlack(ctx, t);
      } else {
        ctx' := ctx;
        if w.right.color == Black {
          w, ctx' := NearRedLeft(x, w, ctx, t);
        }
        x', t' := FarRedLeft(x, w, ctx', t);
        ctx' := Top;
      }
    }

    /** One round of fixDelete when x is a left child. */
    method FixDeleteLeft(x: RbNode<K>, ghost ctx: Ctx<RbNode<K>, K>, ghost t: Tree<RbNode<K>, K>)
      returns (x': RbNode<K>, ghost ctx': Ctx<RbNode<K>, K>, ghost t': Tree<RbNode<K>, K>)
      requires FocusedOn(x, ctx, t) && DeleteFocus(ctx, t) && ColorOf(t) == Black && ctx.Frame? && ctx.d == L
      modifies this`root, repr`left, repr`right, repr`parent, repr`color
      ensures FocusedOn(x', ctx', t') && DeleteFocus(ctx', t')
      ensures SameElements(Plug(ctx, t), Plug(ctx', t')) && Rank(ctx', t') < Rank(ctx, t)
    {
      SiblingIsReal(ctx, t);
      CellAbove(Mem(repr), nil, ctx, t);
      var w := x.parent.right;
      ctx' := ctx;
      if w.color == Red {
        w, ctx' := RedSiblingLeft(x, ctx, t);
      }
      x', ctx', t' := BlackSiblingLeft(x, w, ctx', t);
    }

    /** Red sibling of a right child x. */
    method RedSiblingRight(x: RbNode<K>, ghost ctx: Ctx<RbNode<K>, K>, ghost t: Tree<RbNode<K>, K>)
      returns (w: RbNode<K>, ghost ctx': Ctx<RbNode<K>, K>)
      requires FocusedOn(x, ctx, t) && DeleteFocus(ctx, t) && ColorOf(t) == Black
      requires ctx.Frame? && ctx.d == R && ColorOf(ctx.sib) == Red
      modifies this`root, repr`left, repr`right, repr`parent, repr`color
      ensures ctx' == RedSiblingCtx(ctx) && FocusedOn(x, ctx', t) && DeleteFocus(ctx', t)
      ensures ctx'.d == R && ctx'.sib.Node? && ctx'.sib.c == Black && ctx'.c == Red && w == ctx'.sib.n
      ensures SameElements(Plug(ctx, t), Plug(ctx', t))
    {
      CellAbove(Mem(repr), nil, ctx, t);
      ghost var whole := Mk(ctx.d, t, ctx.n, ctx.c, ctx.k, ctx.sib);
      RedSiblingOk(ctx, t);
      RotateKeys(R, RedSiblingPainted(ctx, t));
      ReplaceKeys(ctx.up, whole, RotateTree(R, RedSiblingPainted(ctx, t)));
      w := x.parent.left;
      Paint(w, Black, Frame(Flip(ctx.d), ctx.up, ctx.n, ctx.c, ctx.k, t), ctx.sib);
      Paint(x.parent, Red, ctx.up, Mk(ctx.d, t, ctx.n, ctx.c, ctx.k, ctx.sib.(c := Black)));
      RightRotate(x.parent, ctx.up, RedSiblingPainted(ctx, t));
      ctx' := RedSiblingCtx(ctx);
      CellAbove(Mem(repr), nil, ctx', t);
      w := x.parent.left;
    }

    /** Black sibling w of a right child x, near child red, far child black. */
    method NearRedRight(x: RbNode<K>, w: RbNode<K>, ghost ctx: Ctx<RbNode<K>, K>, ghost t: Tree<RbNode<K>, K>)
      returns (w': RbNode<K>, ghost ctx': Ctx<RbNode<K>, K>)
      requires FocusedOn(x, ctx, t) && DeleteFocus(ctx, t) && ColorOf(t) == Black
      requires ctx.Frame? && ctx.d == R && ctx.sib.Node? && ctx.sib.c == Black && w == ctx.sib.n
      requires ColorOf(ctx.sib.right) == Red && ColorOf(ctx.sib.left) == Black
      modifies this`root, repr`left, repr`right, repr`parent, repr`color
      ensures FocusedOn(x, ctx', t) && DeleteFocus(ctx', t) && ctx'.Frame? && ctx' == ctx.(sib := ctx'.sib)
      ensures ctx'.sib.Node? && ctx'.sib.c == Black && ColorOf(ctx'.sib.left) == Red && w' == ctx'.sib.n
      ensures SameElements(Plug(ctx, t), Plug(ctx', t))
    {
      ghost var sctx := Frame(Flip(ctx.d), ctx.up, ctx.n, ctx.c, ctx.k, t);
      CellAbove(Mem(repr), nil, ctx, t);
      CellAbove(Mem(repr), nil, sctx, ctx.sib);
      NearRedOk(ctx, t);
      ghost var sib' := RotateTree(L, NearRedPainted(ctx));
      RotateKeys(L, NearRedPainted(ctx));
      ReplaceKeys(sctx, ctx.sib, sib');
      Paint(w.right, Black, Frame(ctx.d, sctx, ctx.sib.n, ctx.sib.c, ctx.sib.k, ctx.sib.left), ctx.sib.right);
      Paint(w, Red, sctx, Mk(ctx.d, Blacken(ctx.sib.right), ctx.sib.n, ctx.sib.c, ctx.sib.k, ctx.sib.left));
      LeftRotate(w, sctx, NearRedPainted(ctx));
      ctx' := ctx.(sib := sib');
      CellAbove(Mem(repr), nil, ctx', t);
      w' := x.parent.left;
    }

    /** The colours of the last case: w takes the parent's, parent and far child are black. */
    method FarRedPaintRight(x: RbNode<K>, w: RbNode<K>, ghost ctx: Ctx<RbNode<K>, K>, ghost t: Tree<RbNode<K>, K>)
      requires FocusedOn(x, ctx, t)
      requires ctx.Frame? && ctx.d == R && ctx.sib.Node? && w == ctx.sib.n && ColorOf(ctx.sib.left) == Red
      modifies repr`color
      ensures Represents(Plug(ctx.up, FarRedPainted(ctx, t))) && x.parent == ctx.n
    {
      ghost var sctx := Frame(Flip(ctx.d), ctx.up, ctx.n, ctx.c, ctx.k, t);
      CellAbove(Mem(repr), nil, ctx, t);
      CellAbove(Mem(repr), nil, sctx, ctx.sib);
      Paint(w, x.parent.color, sctx, ctx.sib);
      Paint(x.parent, Black, ctx.up, Mk(ctx.d, t, ctx.n, ctx.c, ctx.k, ctx.sib.(c := ctx.c)));
      ghost var pctx := Frame(Flip(ctx.d), ctx.up, ctx.n, Black, ctx.k, t);
      FarRedPlug(ctx, t);
      Paint(w.left, Black, Frame(Flip(ctx.d), pctx, ctx.sib.n, ctx.c, ctx.sib.k, ctx.sib.right), ctx.sib.left);
    }

    /** Black sibling w of a right child x, far child red: the last case. */
    method FarRedRight(x: RbNode<K>, w: RbNode<K>, ghost ctx: Ctx<RbNode<K>, K>, ghost t: Tree<RbNode<K>, K>)
      returns (x': RbNode<K>, ghost t': Tree<RbNode<K>, K>)
      requires FocusedOn(x, ctx, t) && DeleteFocus(ctx, t) && ColorOf(t) == Black
      requires ctx.Frame? && ctx.d == R && ctx.sib.Node? && ctx.sib.c == Black && w == ctx.sib.n
      requires ColorOf(ctx.sib.left) == Red
      modifies this`root, repr`left, repr`right, repr`parent, repr`color
      ensures FocusedOn(x', Top, t') && RedBlack(t') && ColorOf(t') == Black
      ensures SameElements(Plug(ctx, t), t')
    {
      FarRedOk(ctx, t);
      FarRedKeys(ctx, t);
      ghost var painted := FarRedPainted(ctx, t);
      RotateKeys(R, painted);
      ReplaceKeys(ctx.up, Mk(ctx.d, t, ctx.n, ctx.c, ctx.k, ctx.sib), RotateTree(R, painted));
      FarRedPaintRight(x, w, ctx, t);
      RightRotate(x.parent, ctx.up, painted);
      t' := Plug(ctx.up, RotateTree(R, painted));
      PlugIsNode(ctx.up, RotateTree(R, painted));
      CellAbove(Mem(repr), nil, Top, t');
      x' := root;
    }

    /** Black sibling w of a right child x, both its children black. */
    method BothBlackRight(x: RbNode<K>, w: RbNode<K>, ghost ctx: Ctx<RbNode<K>, K>, ghost t: Tree<RbNode<K>, K>)
      returns (x': RbNode<K>)
      requires FocusedOn(x, ctx, t) && DeleteFocus(ctx, t) && ColorOf(t) == Black && ctx.Frame? && ctx.d == R
      requires ctx.sib.Node? && ctx.sib.c == Black && w == ctx.sib.n
      requires ColorOf(ctx.sib.left) == Black && ColorOf(ctx.sib.right) == Black
      modifies repr`color
      ensures FocusedOn(x', ctx.up, BothBlack(ctx, t)) && DeleteFocus(ctx.up, BothBlack(ctx, t))
      ensures SameElements(Plug(ctx, t), Plug(ctx.up, BothBlack(ctx, t)))
      ensures ctx.c == Red ==> ColorOf(BothBlack(ctx, t)) == Red
    {
      CellAbove(Mem(repr), nil, ctx, t);
      BothBlackOk(ctx, t);
      BothBlackKeys(ctx, t);
      Paint(w, Red, Frame(Flip(ctx.d), ctx.up, ctx.n, ctx.c, ctx.k, t), ctx.sib);
      CellAbove(Mem(repr), nil, ctx.up, BothBlack(ctx, t));
      x' := x.parent;
    }

    /** The cases of fixDelete with a black sibling w of a right child x. */
    method BlackSiblingRight(x: RbNode<K>, w0: RbNode<K>, ghost ctx: Ctx<RbNode<K>, K>, ghost t: Tree<RbNode<K>, K>)
      returns (x': RbNode<K>, ghost ctx': Ctx<RbNode<K>, K>, ghost t': Tree<RbNode<K>, K>)
      requires FocusedOn(x, ctx, t) && DeleteFocus(ctx, t) && ColorOf(t) == Black && ctx.Frame? && ctx.d == R
      requires ctx.sib.Node? && ctx.sib.c == Black && w0 == ctx.sib.n
      modifies this`root, repr`left, repr`right, repr`parent, repr`color
      ensures FocusedOn(x', ctx', t') && DeleteFocus(ctx', t')
      ensures SameElements(Plug(ctx, t), Plug(ctx', t'))
      ensures ctx'.Top? || (ctx' == ctx.up && (ctx.c == Red ==> ColorOf(t') == Red))
    {
      var w := w0;
      ghost var sctx := Frame(Flip(ctx.d), ctx.up, ctx.n, ctx.c, ctx.k, t);
      CellAbove(Mem(repr), nil, ctx, t);
      KidColors(Mem(repr), nil, sctx, ctx.sib);
      if w.right.color == Black && w.left.color == Black {
        x' := BothBlackRight(x, w, ctx, t);
        ctx', t' := ctx.up, BothBlack(ctx, t);
      } else {
        ctx' := ctx;
        if w.left.color == Black {
          w, ctx' := NearRedRight(x, w, ctx, t);
        }
        x', t' := FarRedRight(x, w, ctx', t);
        ctx' := Top;
      }
    }

    /** One round of fixDelete when x is a right child. */
    method FixDeleteRight(x: RbNode<K>, ghost ctx: Ctx<RbNode<K>, K>, ghost t: Tree<RbNode<K>, K>)
      returns (x': RbNode<K>, ghost ctx': Ctx<RbNode<K>, K>, ghost t': Tree<RbNode<K>, K>)
      requires FocusedOn(x, ctx, t) && DeleteFocus(ctx, t) && ColorOf(t) == Black && ctx.Frame? && ctx.d == R
      modifies this`root, repr`left, repr`right, repr`parent, repr`color
      ensures FocusedOn(x', ctx', t') && DeleteFocus(ctx', t')
      ensures SameElements(Plug(ctx, t), Plug(ctx', t')) && Rank(ctx', t') < Rank(ctx, t)
    {
      SiblingIsReal(ctx, t);
      CellAbove(Mem(repr), nil, ctx, t);
      var w := x.parent.left;
      ctx' := ctx;
      if w.color == Red {
        w, ctx' := RedSiblingRight(x, ctx, t);
      }
      x', ctx', t' := BlackSiblingRight(x, w, ctx', t);
    }

    /** One round of fixDelete. */
    method FixDeleteRound(x: RbNode<K>, ghost ctx: Ctx<RbNode<K>, K>, ghost t: Tree<RbNode<K>, K>)
      returns (x': RbNode<K>, ghost ctx': Ctx<RbNode<K>, K>, ghost t': Tree<RbNode<K>, K>)
      requires FocusedOn(x, ctx, t) && DeleteFocus(ctx, t) && ColorOf(t) == Black && ctx.Frame?
      modifies this`root, repr`left, repr`right, repr`parent, repr`color
      ensures FocusedOn(x', ctx', t') && DeleteFocus(ctx', t')
      ensures SameElements(Plug(ctx, t), Plug(ctx', t')) && Rank(ctx', t') < Rank(ctx, t)
    {
      SiblingIsReal(ctx, t);
      CellAbove(Mem(repr), nil, ctx, t);
      if x == x.parent.left {
        x', ctx', t' := FixDeleteLeft(x, ctx, t);
      } else {
        x', ctx', t' := FixDeleteRight(x, ctx, t);
      }
    }

    /** The last statement of fixDelete; x may be the sentinel. */
    method FixDeleteEnd(x: RbNode<K>, ghost ctx: Ctx<RbNode<K>, K>, ghost t: Tree<RbNode<K>, K>)
      requires FocusedOn(x, ctx, t)
      modifies repr`color
      ensures Represents(Plug(ctx, Blacken(t)))
    {
      CellAbove(Mem(repr), nil, ctx, t);
      if x == nil {
        ghost var m := Mem(repr);
        x.color := Black;
        assert Mem(repr) == m;
      } else {
        Paint(x, Black, ctx, t);
      }
    }

    /** The loop test of fixDelete, in terms of the tree. */
    lemma LoopTest(x: RbNode<K>, ctx: Ctx<RbNode<K>, K>, t: Tree<RbNode<K>, K>)
      requires FocusedOn(x, ctx, t)
      ensures x in repr && x.color == ColorOf(t) && (x == root <==> ctx.Top?)
    {
      CellAbove(Mem(repr), nil, ctx, t);
      RootIsTop(Mem(repr), nil, ctx, t);
    }

    /** fixDelete: from a tree with one black node too few on the paths through x. */
    method FixDelete(x0: RbNode<K>, ghost ctx0: Ctx<RbNode<K>, K>, ghost t0: Tree<RbNode<K>, K>)
      returns (ghost done: Tree<RbNode<K>, K>)
      requires FocusedOn(x0, ctx0, t0) && DeleteFocus(ctx0, t0)
      modifies this`root, repr`left, repr`right, repr`parent, repr`color
      ensures Represents(done) && RedBlack(done) && ColorOf(done) == Black
      ensures SameElements(Plug(ctx0, t0), done)
    {
      var x := x0;
      ghost var ctx, t := ctx0, t0;
      LoopTest(x, ctx, t);
      while x != root && x.color == Black
        invariant FocusedOn(x, ctx, t) && DeleteFocus(ctx, t)
        invariant x in repr && x.color == ColorOf(t) && (x == root <==> ctx.Top?)
        invariant SameElements(Plug(ctx0, t0), Plug(ctx, t))
        decreases Rank(ctx, t)
      {
        x, ctx, t := FixDeleteRound(x, ctx, t);
        LoopTest(x, ctx, t);
      }
      DeleteDone(ctx, t);
      done := Plug(ctx, Blacken(t));
      ReplaceKeys(ctx, t, Blacken(t));
      FixDeleteEnd(x, ctx, t);
    }

    // ----- the public operations -----

    ghost predicate Valid()
      reads this`root, this`nil, this`repr, this`tree, repr
    {
      Represents(tree) && Good(lt, nil, repr, tree)
    }

    /** findNode's loop, which insert repeats: down to a node equivalent to val or to an
        empty place. With n keys it takes at most 2 * log2(n + 1) steps. */
    method Search(val: K) returns (cur: RbNode<K>, prev: RbNode<K>, ghost ctx: Ctx<RbNode<K>, K>, ghost t: Tree<RbNode<K>, K>, ghost steps: nat)
      requires Valid()
      ensures Plug(ctx, t) == tree && cur == Root(t, nil) && Around(lt, ctx, val)
      ensures cur in repr && (t.Node? <==> cur != nil) && (t.Node? ==> cur.data == t.k && Equivalent(lt, val, t.k))
      ensures t.Leaf? ==> FellOff(lt, nil, ctx, val, prev)
      ensures Pow2(steps) <= (|Contents(tree)| + 1) * (|Contents(tree)| + 1)
    {
      StepsAreFew(lt, nil, repr, tree);
      cur, prev := root, nil;
      ctx, t, steps := Top, tree, 0;
      CellAbove(Mem(repr), nil, ctx, t);
      while cur != nil
        invariant Plug(ctx, t) == tree && cur == Root(t, nil) && cur in repr && Around(lt, ctx, val)
        invariant t.Node? <==> cur != nil
        invariant t.Node? ==> cur.data == t.k && cur.left == Root(t.left, nil) && cur.right == Root(t.right, nil)
        invariant FellOff(lt, nil, ctx, val, prev)
        invariant steps == Depth(ctx)
        decreases t
      {
        if lt(val, cur.data) {
          Descend(lt, ctx, t, L, val);
          prev, cur := cur, cur.left;
          ctx, t := Frame(L, ctx, t.n, t.c, t.k, t.right), t.left;
        } else if lt(cur.data, val) {
          Descend(lt, ctx, t, R, val);
          prev, cur := cur, cur.right;
          ctx, t := Frame(R, ctx, t.n, t.c, t.k, t.left), t.right;
        } else {
          PlugHeight(ctx, t);
          Pow2Mono(steps, Height(tree));
          return;
        }
        steps := steps + 1;
        CellAbove(Mem(repr), nil, ctx, t);
      }
      PlugHeight(ctx, t);
      Pow2Mono(steps, Height(tree));
    }

    method Find(val: K) returns (found: Option<K>)
      requires Valid()
      ensures found.Some? ==> found.value in Contents(tree) && Equivalent(lt, val, found.value)
      ensures found.None? <==> Absent(lt, Contents(tree), val)
    {
      ghost var ctx, t, steps;
      var n, p;
      n, p, ctx, t, steps := Search(val);
      if n == nil {
        NotFound(lt, ctx, val);
        found := None;
      } else {
        KeyInTree(lt, ctx, t, val);
        found := Some(n.data);
      }
    }

    /** insert returns true and adds val exactly when no equivalent key is present. */
    method Insert(val: K) returns (added: bool)
      requires Valid()
      modifies this`root, this`repr, this`tree, repr`left, repr`right, repr`parent, repr`color
      ensures Valid() && old(repr) <= repr && fresh(repr - old(repr))
      ensures added <==> Absent(lt, old(Contents(tree)), val)
      ensures added ==> Contents(tree) == old(Contents(tree)) + {val}
      ensures !added ==> Contents(tree) == old(Contents(tree))
    {
      ghost var ctx, t, steps;
      var cur, parent;
      cur, parent, ctx, t, steps := Search(val);
      assert Valid() && Contents(tree) == old(Contents(tree));
      if cur != nil {
        KeyInTree(lt, ctx, t, val);
        return false;
      }
      NotFound(lt, ctx, val);
      InsertBelow(val, parent, ctx, t);
      added := true;
    }

    /** The part of insert after its loop. */
    method InsertBelow(val: K, parent: RbNode<K>, ghost ctx: Ctx<RbNode<K>, K>, ghost hole: Tree<RbNode<K>, K>)
      requires Valid() && tree == Plug(ctx, hole) && hole.Leaf? && Around(lt, ctx, val)
      requires FellOff(lt, nil, ctx, val, parent)
      modifies this`root, this`repr, this`tree, repr`left, repr`right, repr`parent, repr`color
      ensures Valid() && old(repr) <= repr && fresh(repr - old(repr))
      ensures Contents(tree) == old(Contents(tree)) + {val}
    {
      ghost var before := repr;
      var node := InsertPointers(val, parent, ctx);
      NewLeafFocus(lt, nil, before, ctx, node, val);
      ghost var done := FixInsert(node, ctx, Node(Leaf, node, Red, val, Leaf));
      Accept(before, ctx, node, val, done);
    }

    /** The tree after the fix-up is the new tree. */
    ghost method Accept(before: set<RbNode<K>>, ctx: Ctx<RbNode<K>, K>, node: RbNode<K>, val: K, done: Tree<RbNode<K>, K>)
      requires Good(lt, nil, before, Plug(ctx, Leaf)) && Around(lt, ctx, val) && repr == before + {node}
      requires Represents(done) && RedBlack(done) && ColorOf(done) == Black
      requires SameElements(Plug(ctx, Node(Leaf, node, Red, val, Leaf)), done)
      modifies this`tree
      ensures Valid() && Contents(tree) == Contents(Plug(ctx, Leaf)) + {val}
    {
      NewLeafGood(lt, nil, before, ctx, node, val, done);
      tree := done;
    }

    /** Makes the new node and hangs it below its parent. */
    method InsertPointers(val: K, parent: RbNode<K>, ghost ctx: Ctx<RbNode<K>, K>) returns (node: RbNode<K>)
      requires Represents(Plug(ctx, Leaf)) && FellOff(lt, nil, ctx, val, parent)
      modifies this`root, this`repr, repr`left, repr`right
      ensures fresh(node) && repr == old(repr) + {node}
      ensures Represents(Plug(ctx, Node(Leaf, node, Red, val, Leaf)))
    {
      node := new RbNode<K>(val, nil, parent);
      ghost var m0 := Mem(repr);
      CellAbove(m0, nil, ctx, Leaf);
      PlugRoot(ctx, Leaf, Node(Leaf, node, Red, val, Leaf), nil);
      if parent == nil {
        root := node;
      } else if lt(node.data, parent.data) {
        parent.left := node;
      } else {
        parent.right := node;
      }
      repr := repr + {node};
      Attach(m0, Mem(repr), nil, ctx, node, val);
    }

    // ----- outermost nodes -----

    /** leftMost: down the left children, at most as many steps as the subtree is high. */
    method LeftMost(node: RbNode<K>, ghost ctx: Ctx<RbNode<K>, K>, ghost t: Tree<RbNode<K>, K>)
      returns (n: RbNode<K>, ghost inner: Ctx<RbNode<K>, K>, ghost u: Tree<RbNode<K>, K>, ghost steps: nat)
      requires Represents(Plug(ctx, t)) && t.Node? && t.n == node
      ensures Plug(inner, u) == t && Spine(L, inner) && u.Node? && u.n == n && u.left.Leaf?
      ensures n in repr && n.color == u.c && n.right in repr && n.right == Root(u.right, nil)
      ensures steps < Height(t)
    {
      n, inner, u, steps := node, Top, t, 0;
      CellAbove(Mem(repr), nil, ctx, t);
      CellAbove(Mem(repr), nil, Frame(L, ctx, t.n, t.c, t.k, t.right), t.left);
      while n.left != nil
        invariant Plug(inner, u) == t && Spine(L, inner) && u.Node? && u.n == n && steps == Depth(inner)
        invariant n in repr && n.left == Root(u.left, nil) && (u.left.Node? <==> n.left != nil)
        decreases u
      {
        inner, u := Frame(L, inner, u.n, u.c, u.k, u.right), u.left;
        PlugCompose(inner, ctx, u);
        CellAbove(Mem(repr), nil, Compose(inner, ctx), u);
        CellAbove(Mem(repr), nil, Frame(L, Compose(inner, ctx), u.n, u.c, u.k, u.right), u.left);
        n := n.left;
        steps := steps + 1;
      }
      PlugHeight(inner, u);
      PlugCompose(inner, ctx, u);
      KidColors(Mem(repr), nil, Compose(inner, ctx), u);
      CellAbove(Mem(repr), nil, Compose(inner, ctx), u);
    }

    /** rightMost, likewise. */
    method RightMost(node: RbNode<K>, ghost ctx: Ctx<RbNode<K>, K>, ghost t: Tree<RbNode<K>, K>)
      returns (n: RbNode<K>, ghost inner: Ctx<RbNode<K>, K>, ghost u: Tree<RbNode<K>, K>, ghost steps: nat)
      requires Represents(Plug(ctx, t)) && t.Node? && t.n == node
      ensures Plug(inner, u) == t && Spine(R, inner) && u.Node? && u.n == n && u.right.Leaf?
      ensures n in repr && n.data == u.k && n.right == nil
      ensures steps < Height(t)
    {
      n, inner, u, steps := node, Top, t, 0;
      CellAbove(Mem(repr), nil, ctx, t);
      CellAbove(Mem(repr), nil, Frame(R, ctx, t.n, t.c, t.k, t.left), t.right);
      while n.right != nil
        invariant Plug(inner, u) == t && Spine(R, inner) && u.Node? && u.n == n && steps == Depth(inner)
        invariant n in repr && n.right == Root(u.right, nil) && (u.right.Node? <==> n.right != nil)
        decreases u
      {
        inner, u := Frame(R, inner, u.n, u.c, u.k, u.left), u.right;
        PlugCompose(inner, ctx, u);
        CellAbove(Mem(repr), nil, Compose(inner, ctx), u);
        CellAbove(Mem(repr), nil, Frame(R, Compose(inner, ctx), u.n, u.c, u.k, u.left), u.right);
        n := n.right;
        steps := steps + 1;
      }
      PlugHeight(inner, u);
      PlugCompose(inner, ctx, u);
      CellAbove(Mem(repr), nil, Compose(inner, ctx), u);
    }

    /** minimum: nothing for the empty tree, otherwise the key before all others. */
    method Minimum() returns (found: Option<K>)
      requires Valid()
      ensures found.None? <==> Contents(tree) == {}
      ensures found.Some? ==> found.value in Contents(tree)
      ensures found.Some? ==> forall k | k in Contents(tree) :: k == found.value || lt(found.value, k)
    {
      CellAbove(Mem(repr), nil, Top, tree);
      if root == nil {
        return None;
      }
      ghost var inner, u, steps;
      var n;
      n, inner, u, steps := LeftMost(root, Top, tree);
      NodeInMemory(inner, u);
      Outermost(lt, L, inner, u);
      found := Some(n.data);
    }

    /** maximum, likewise. */
    method Maximum() returns (found: Option<K>)
      requires Valid()
      ensures found.None? <==> Contents(tree) == {}
      ensures found.Some? ==> found.value in Contents(tree)
      ensures found.Some? ==> forall k | k in Contents(tree) :: k == found.value || lt(k, found.value)
    {
      CellAbove(Mem(repr), nil, Top, tree);
      if root == nil {
        return None;
      }
      ghost var inner, u, steps;
      var n;
      n, inner, u, steps := RightMost(root, Top, tree);
      NodeInMemory(inner, u);
      Outermost(lt, R, inner, u);
      found := Some(n.data);
    }

    lemma NodeInMemory(ctx: Ctx<RbNode<K>, K>, t: Tree<RbNode<K>, K>)
      requires Represents(Plug(ctx, t)) && t.Node?
      ensures t.n in repr && t.n.data == t.k
    {
      CellAbove(Mem(repr), nil, ctx, t);
    }

    // ----- erase -----

    /** transplant: v, perhaps the sentinel, takes the place of u. */
    method Transplant(u: RbNode<K>, v: RbNode<K>, ghost ctx: Ctx<RbNode<K>, K>)
      requires u in repr && v in repr && nil in repr && u.parent == Holder(ctx, nil)
      requires ctx.Frame? ==> ctx.n in repr && ctx.n != nil && ctx.n != v && (ctx.n.left == u <==> ctx.d == L)
      requires u != v && u != nil
      modifies this`root, repr`left, repr`right, repr`parent
      ensures Transplanted(old(Mem(repr)), Mem(repr), nil, ctx, v)
      ensures root == if ctx.Top? then v else old(root)
    {
      if u.parent == nil {
        root := v;
      } else if u == u.parent.left {
        u.parent.left := v;
      } else {
        u.parent.right := v;
      }
      v.parent := u.parent;
    }

    /** A node with at most one child, on side d, is replaced by that child. */
    method Splice(z: RbNode<K>, x: RbNode<K>, ghost d: Dir, ghost ctx: Ctx<RbNode<K>, K>, ghost t: Tree<RbNode<K>, K>)
      requires Represents(Plug(ctx, t)) && t.Node? && t.n == z && Kid(Flip(d), t).Leaf? && x == Root(Kid(d, t), nil)
      modifies this`root, repr`left, repr`right, repr`parent
      ensures FocusedOn(x, ctx, Kid(d, t))
      ensures z in repr && x in repr && z.data == old(z.data) && z != nil && z !in Nodes(Plug(ctx, Kid(d, t)))
      ensures Nodes(Plug(ctx, t)) == Nodes(Plug(ctx, Kid(d, t))) + {z}
    {
      ghost var m0 := Mem(repr);
      SpliceReads(m0, nil, ctx, t, d);
      Transplant(z, x, ctx);
      SpliceOut(m0, Mem(repr), nil, ctx, t, d);
      PlugRoot(ctx, t, Kid(d, t), nil);
    }

    /** Takes the first node y of z's right subtree out of its place and gives it z's right
        subtree; x is what hung below y. */
    method DetachSuccessor(z: RbNode<K>, y: RbNode<K>, ghost inner: Ctx<RbNode<K>, K>, ghost u: Tree<RbNode<K>, K>,
                           ghost ctx: Ctx<RbNode<K>, K>, ghost t: Tree<RbNode<K>, K>)
      requires Represents(Plug(ctx, t)) && t.Node? && t.n == z && t.right == Plug(inner, u)
      requires u.Node? && u.n == y && u.left.Leaf? && y in repr && y.right in repr
      modifies this`root, repr`left, repr`right, repr`parent
      ensures Ready(Mem(repr), nil, ctx, t.left, z, Plug(inner, u.right), y)
      ensures z.color == t.c && y.data == u.k && Root(u.right, nil) in repr
      ensures Root(u.right, nil) == nil ==> nil.parent == Holder(inner, y)
      ensures root == old(root)
    {
      ghost var outer := Frame(R, ctx, z, t.c, t.k, t.left);
      CellAbove(Mem(repr), nil, ctx, t);
      PlugCompose(inner, outer, u);
      ParentIsZ(nil, inner, outer, u);
      CellAbove(Mem(repr), nil, Compose(inner, outer), u);
      if y.parent == z {
        DetachNear(y, ctx, t);
      } else {
        DetachFar(z, y, inner, u, ctx, t);
      }
    }

    method DetachNear(y: RbNode<K>, ghost ctx: Ctx<RbNode<K>, K>, ghost t: Tree<RbNode<K>, K>)
      requires Represents(Plug(ctx, t)) && t.Node? && t.right.Node? && t.right.n == y && t.right.left.Leaf?
      modifies repr`parent
      ensures Ready(Mem(repr), nil, ctx, t.left, t.n, t.right.right, y)
      ensures t.n.color == t.c && y.data == t.right.k && Root(t.right.right, nil) in repr
      ensures Root(t.right.right, nil) == nil ==> nil.parent == y
    {
      ghost var m0 := Mem(repr);
      ghost var below := Frame(R, ctx, t.n, t.c, t.k, t.left);
      CellAbove(m0, nil, below, t.right);
      CellAbove(m0, nil, Frame(R, below, y, t.right.c, t.right.k, t.right.left), t.right.right);
      var x := y.right;
      x.parent := y;
      ReadyNear(m0, Mem(repr), nil, ctx, t);
    }

    method DetachFar(z: RbNode<K>, y: RbNode<K>, ghost inner: Ctx<RbNode<K>, K>, ghost u: Tree<RbNode<K>, K>,
                     ghost ctx: Ctx<RbNode<K>, K>, ghost t: Tree<RbNode<K>, K>)
      requires Represents(Plug(ctx, t)) && t.Node? && t.n == z && t.right == Plug(inner, u) && inner.Frame?
      requires u.Node? && u.n == y && u.left.Leaf? && y in repr && y.data == u.k && y.right == Root(u.right, nil)
      modifies this`root, repr`left, repr`right, repr`parent
      ensures Ready(Mem(repr), nil, ctx, t.left, z, Plug(inner, u.right), y)
      ensures z.color == t.c && y.data == u.k && Root(u.right, nil) in repr
      ensures Root(u.right, nil) == nil ==> nil.parent == inner.n
      ensures root == old(root)
    {
      SpliceBelow(z, y, inner, u, ctx, t);
      GiveRight(z, y, ctx, t.(right := Plug(inner, u.right)));
    }

    method SpliceBelow(z: RbNode<K>, y: RbNode<K>, ghost inner: Ctx<RbNode<K>, K>, ghost u: Tree<RbNode<K>, K>,
                       ghost ctx: Ctx<RbNode<K>, K>, ghost t: Tree<RbNode<K>, K>)
      requires Represents(Plug(ctx, t)) && t.Node? && t.n == z && t.right == Plug(inner, u) && inner.Frame?
      requires u.Node? && u.n == y && u.left.Leaf? && y in repr && y.right == Root(u.right, nil)
      modifies this`root, repr`left, repr`right, repr`parent
      ensures var t' := t.(right := Plug(inner, u.right));
              t'.right.Node? && Represents(Plug(ctx, t')) && y !in Nodes(Plug(ctx, t'))
      ensures y != nil && y.data == old(y.data) && root == old(root) && Root(u.right, nil) in repr
      ensures Root(u.right, nil) == nil ==> nil.parent == inner.n
    {
      ghost var c := Compose(inner, Frame(R, ctx, z, t.c, t.k, t.left));
      TwoViews(inner, ctx, t, u, u.right, nil);
      Splice(y, y.right, R, c, u);
    }

    /** y, which is not in the tree, is given z's right subtree. */
    method GiveRight(z: RbNode<K>, y: RbNode<K>, ghost ctx: Ctx<RbNode<K>, K>, ghost t: Tree<RbNode<K>, K>)
      requires Represents(Plug(ctx, t)) && t.Node? && t.n == z && t.right.Node?
      requires y in repr && y != nil && y !in Nodes(Plug(ctx, t))
      modifies repr`right, repr`parent
      ensures Ready(Mem(repr), nil, ctx, t.left, z, t.right, y)
      ensures z.color == t.c && y.data == old(y.data) && nil.parent == old(nil.parent)
    {
      ghost var m := Mem(repr);
      CellAbove(m, nil, ctx, t);
      CellAbove(m, nil, Frame(R, ctx, z, t.c, t.k, t.left), t.right);
      PlugNodes(ctx, t);
      HangRight(z, y);
      assert Mem(repr)[nil] == m[nil] && Mem(repr)[y].key == m[y].key;
      ReadyFar(m, Mem(repr), nil, ctx, t, y);
    }

    method HangRight(z: RbNode<K>, y: RbNode<K>)
      requires z in repr && y in repr && z.right in repr && z.right != y
      modifies repr`right, repr`parent
      ensures SameExcept(old(Mem(repr)), Mem(repr), {y, old(z.right)})
      ensures Mem(repr)[y] == old(Mem(repr)[y]).(right := old(z.right))
      ensures Mem(repr)[old(z.right)] == old(Mem(repr)[z.right]).(parent := y)
    {
      y.right := z.right;
      y.right.parent := y;
    }

    /** The last writes for two children: y takes z's place, left subtree and colour. */
    method PutInPlace(z: RbNode<K>, y: RbNode<K>, ghost ctx: Ctx<RbNode<K>, K>, ghost t: Tree<RbNode<K>, K>,
                      ghost rest: Tree<RbNode<K>, K>)
      requires t.Node? && t.n == z && t.left.Node? && t.c == z.color && root == Root(Plug(ctx, t), nil)
      requires Ready(Mem(repr), nil, ctx, t.left, z, rest, y)
      modifies this`root, repr`left, repr`right, repr`parent, repr`color
      ensures Represents(Plug(ctx, Node(t.left, y, t.c, old(y.data), rest)))
      ensures nil.parent == old(nil.parent)
    {
      ghost var m0 := Mem(repr);
      ReadyReads(m0, nil, ctx, t.left, z, rest, y);
      PutPointers(z, y, ctx, t.left);
      TakePlace(m0, Mem(repr), nil, ctx, t.left, z, rest, y);
      PlugRoot(ctx, t, Node(t.left, y, t.c, y.data, rest), nil);
    }

    method PutPointers(z: RbNode<K>, y: RbNode<K>, ghost ctx: Ctx<RbNode<K>, K>, ghost zl: Tree<RbNode<K>, K>)
      requires z in repr && y in repr && nil in repr && zl.Node? && zl.n in repr && z.left == zl.n
      requires z != y && z != nil && y != nil && zl.n != y && zl.n != z && zl.n != nil && z.parent == Holder(ctx, nil)
      requires ctx.Frame? ==> ctx.n in repr && ctx.n != nil && ctx.n != y && ctx.n != z && ctx.n != zl.n
      requires ctx.Frame? ==> (ctx.n.left == z <==> ctx.d == L)
      modifies this`root, repr`left, repr`right, repr`parent, repr`color
      ensures TookPlace(old(Mem(repr)), Mem(repr), nil, ctx, zl, z, y)
      ensures root == if ctx.Top? then y else old(root)
    {
      ghost var m0 := Mem(repr);
      Transplant(z, y, ctx);
      ghost var m1 := Mem(repr);
      assert m1[z] == m0[z];
      TakeLeft(z, y);
      ThenTookPlace(m0, m1, Mem(repr), nil, ctx, zl, z, y);
    }

    method TakeLeft(z: RbNode<K>, y: RbNode<K>)
      requires z in repr && y in repr && z.left in repr && z.left != y && z != y
      modifies repr`left, repr`parent, repr`color
      ensures SameExcept(old(Mem(repr)), Mem(repr), {y, old(z.left)})
      ensures Mem(repr)[y] == old(Mem(repr)[y]).(left := old(z.left), color := old(z.color))
      ensures Mem(repr)[old(z.left)] == old(Mem(repr)[z.left]).(parent := y)
    {
      y.left := z.left;
      y.left.parent := y;
      y.color := z.color;
    }

    /** The two-children case of deleteNode, once y = leftMost(z->_right) is known. */
    method MoveSuccessor(z: RbNode<K>, y: RbNode<K>, ghost inner: Ctx<RbNode<K>, K>, ghost u: Tree<RbNode<K>, K>,
                         ghost ctx: Ctx<RbNode<K>, K>, ghost t: Tree<RbNode<K>, K>) returns (x: RbNode<K>)
      requires Represents(Plug(ctx, t)) && t.Node? && t.n == z && t.right == Plug(inner, u) && t.left.Node?
      requires u.Node? && u.n == y && u.left.Leaf? && y in repr && y.right in repr && y.right == Root(u.right, nil)
      modifies this`root, repr`left, repr`right, repr`parent, repr`color
      ensures FocusedOn(x, SuccessorCtx(inner, ctx, t.left, y, t.c, u.k), u.right)
    {
      x := y.right;
      DetachSuccessor(z, y, inner, u, ctx, t);
      PutInPlace(z, y, ctx, t, Plug(inner, u.right));
      ParentInside(Mem(repr), nil, inner, ctx, t.left, y, t.c, u.k, u.right);
    }

    /** deleteNode up to the fix-up, when z has two children. */
    method UnlinkTwo(z: RbNode<K>, ghost ctx: Ctx<RbNode<K>, K>, ghost t: Tree<RbNode<K>, K>)
      returns (x: RbNode<K>, c: Color, ghost ctx': Ctx<RbNode<K>, K>, ghost t': Tree<RbNode<K>, K>)
      requires Represents(Plug(ctx, t)) && RedBlack(Plug(ctx, t)) && ColorOf(Plug(ctx, t)) == Black
      requires t.Node? && t.n == z && t.left.Node? && t.right.Node?
      modifies this`root, repr`left, repr`right, repr`parent, repr`color
      ensures FocusedOn(x, ctx', t') && TakenOut(ctx, t, Plug(ctx', t')) && Repairable(c, ctx', t')
    {
      CellAbove(Mem(repr), nil, ctx, t);
      ghost var inner, u, steps;
      var y;
      y, inner, u, steps := LeftMost(z.right, Frame(R, ctx, z, t.c, t.k, t.left), t.right);
      SuccessorTakesOut(inner, ctx, t, u);
      SuccessorOk(inner, ctx, t.left, z, t.c, t.k, u);
      ctx', t' := SuccessorCtx(inner, ctx, t.left, y, t.c, u.k), u.right;
      c := y.color;
      x := MoveSuccessor(z, y, inner, u, ctx, t);
    }

    /** deleteNode up to the fix-up. */
    method Unlink(z: RbNode<K>, ghost ctx: Ctx<RbNode<K>, K>, ghost t: Tree<RbNode<K>, K>)
      returns (x: RbNode<K>, c: Color, ghost ctx': Ctx<RbNode<K>, K>, ghost t': Tree<RbNode<K>, K>)
      requires Represents(Plug(ctx, t)) && RedBlack(Plug(ctx, t)) && ColorOf(Plug(ctx, t)) == Black
      requires t.Node? && t.n == z
      modifies this`root, repr`left, repr`right, repr`parent, repr`color
      ensures FocusedOn(x, ctx', t') && TakenOut(ctx, t, Plug(ctx', t')) && Repairable(c, ctx', t')
    {
      CellAbove(Mem(repr), nil, ctx, t);
      CellAbove(Mem(repr), nil, Frame(L, ctx, z, t.c, t.k, t.right), t.left);
      c := z.color;
      if z.left == nil {
        SpliceTakesOut(ctx, t, R);
        SpliceOk(ctx, t, R);
        x, ctx', t' := z.right, ctx, t.right;
        Splice(z, z.right, R, ctx, t);
      } else if z.right == nil {
        SpliceTakesOut(ctx, t, L);
        SpliceOk(ctx, t, L);
        x, ctx', t' := z.left, ctx, t.left;
        Splice(z, z.left, L, ctx, t);
      } else {
        x, c, ctx', t' := UnlinkTwo(z, ctx, t);
      }
    }

    /** deleteNode. */
    method DeleteNode(z: RbNode<K>, ghost ctx: Ctx<RbNode<K>, K>, ghost t: Tree<RbNode<K>, K>)
      returns (ghost done: Tree<RbNode<K>, K>)
      requires Represents(Plug(ctx, t)) && RedBlack(Plug(ctx, t)) && ColorOf(Plug(ctx, t)) == Black
      requires t.Node? && t.n == z
      modifies this`root, repr`left, repr`right, repr`parent, repr`color
      ensures Represents(done) && RedBlack(done) && ColorOf(done) == Black && TakenOut(ctx, t, done)
    {
      ghost var ctx', t';
      var x, c;
      x, c, ctx', t' := Unlink(z, ctx, t);
      done := Plug(ctx', t');
      if c == Black {
        done := FixDelete(x, ctx', t');
        TakenOutSame(ctx, t, Plug(ctx', t'), done);
      }
    }

    /** The node z, out of the tree, is given back. */
    ghost method Release(z: RbNode<K>, val: K, ctx: Ctx<RbNode<K>, K>, t: Tree<RbNode<K>, K>, done: Tree<RbNode<K>, K>)
      requires Good(lt, nil, repr, Plug(ctx, t)) && t.Node? && t.n == z && z != nil && Equivalent(lt, val, t.k)
      requires Represents(done) && RedBlack(done) && ColorOf(done) == Black && TakenOut(ctx, t, done)
      modifies this`repr, this`tree
      ensures Represents(tree) && Good(lt, nil, repr, tree) && repr == old(repr) - {z}
      ensures Contents(tree) == set k | k in Contents(Plug(ctx, t)) && !Equivalent(lt, k, val)
    {
      StillGood(lt, nil, repr, ctx, t, done, val);
      var m := Mem(repr);
      repr, tree := repr - {z}, done;
      Forget(m, Mem(repr), nil, done, z);
    }

    /** erase returns true and removes exactly the key equivalent to val when there is one. */
    method Erase(val: K) returns (erased: bool)
      requires Valid()
      modifies this`root, this`repr, this`tree, repr`left, repr`right, repr`parent, repr`color
      ensures Valid() && repr <= old(repr)
      ensures erased <==> !Absent(lt, old(Contents(tree)), val)
      ensures Contents(tree) == set k | k in old(Contents(tree)) && !Equivalent(lt, k, val)
    {
      ghost var ctx, t, steps;
      var z, p;
      z, p, ctx, t, steps := Search(val);
      if z == nil {
        NotFound(lt, ctx, val);
        return false;
      }
      KeyInTree(lt, ctx, t, val);
      EraseFound(z, val, ctx, t);
      erased := true;
    }

    method EraseFound(z: RbNode<K>, val: K, ghost ctx: Ctx<RbNode<K>, K>, ghost t: Tree<RbNode<K>, K>)
      requires Represents(Plug(ctx, t)) && Good(lt, nil, repr, Plug(ctx, t))
      requires t.Node? && t.n == z && z != nil && Equivalent(lt, val, t.k)
      modifies this`root, this`repr, this`tree, repr`left, repr`right, repr`parent, repr`color
      ensures Represents(tree) && Good(lt, nil, repr, tree) && repr == old(repr) - {z}
      ensures Contents(tree) == set k | k in Contents(Plug(ctx, t)) && !Equivalent(lt, k, val)
    {
      ghost var done := DeleteNode(z, ctx, t);
      Release(z, val, ctx, t, done);
    }
  }
}

/** The red-black tree of tree.h: intrusive nodes with parent links, changed in place. */
module RedBlackTree {
  import opened OrderedSet
  import opened RbModel
  import opened RbLinks
  import opened TreeNode

  /** A search for k at node t.n keeps below k what it leaves on the left, and above k what it leaves on the right. */
  lemma SidesOfFocus<K(!new)>(cmp: (K, K) -> int, p: Path<Node<K>>, t: Tree<Node<K>>, k: K)
    requires Lawful(cmp) && t.Br? && Sorted(cmp, Whole(p, t))
    ensures cmp(k, t.n.key) < 0 ==> Above(cmp, After(InL(p, t.c, t.n, t.r)), k)
    ensures cmp(k, t.n.key) > 0 ==> Below(cmp, Before(InR(p, t.c, t.l, t.n)), k)
  {
    FocusSplit(p, t);
    SidesOfKey(cmp, Before(p) + InOrder(t.l), t.n, InOrder(t.r) + After(p), k);
  }

  class Head<K(!new)> {
    var root: Node?<K>
    const cmp: (K, K) -> int
    ghost var mem: Mem<K>
    ghost var tree: Tree<Node<K>>

    /** The nodes of the tree in ascending order. */
    ghost function Order(): seq<Node<K>>
      reads this
    {
      InOrder(tree)
    }

    /** The nodes form a red-black tree. */
    ghost predicate Shape()
      reads this, mem.Keys
    {
      Holds() && Focus(mem, root, Top, tree, root) && mem.Keys == Nodes(tree) && RedBlack(tree)
    }

    ghost predicate Valid()
      reads this, mem.Keys
    {
      Lawful(cmp) && Shape() && Sorted(cmp, Order())
    }

    constructor (cmp: (K, K) -> int)
      requires Lawful(cmp)
      ensures Valid() && Order() == [] && this.cmp == cmp
    {
      this.cmp := cmp;
      root, mem, tree := null, map[], Leaf;
    }

    ghost predicate Holds()
      reads this, mem.Keys
    {
      forall n :: n in mem ==> mem[n] == Cell(n.left, n.right, n.parent, n.color)
    }

    method SetLeft(n: Node<K>, v: Node?<K>)
      requires Holds() && n in mem
      modifies this`mem, n`left
      ensures Holds() && mem == old(mem)[n := old(mem[n]).(left := v)]
    {
      n.left := v;
      mem := mem[n := mem[n].(left := v)];
    }

    method SetRight(n: Node<K>, v: Node?<K>)
      requires Holds() && n in mem
      modifies this`mem, n`right
      ensures Holds() && mem == old(mem)[n := old(mem[n]).(right := v)]
    {
      n.right := v;
      mem := mem[n := mem[n].(right := v)];
    }

    method SetParent(n: Node<K>, v: Node?<K>)
      requires Holds() && n in mem
      modifies this`mem, n`parent
      ensures Holds() && mem == old(mem)[n := old(mem[n]).(parent := v)]
    {
      n.parent := v;
      mem := mem[n := mem[n].(parent := v)];
    }

    method SetColor(n: Node<K>, c: Color, ghost p: Path<Node<K>>, ghost t: Tree<Node<K>>)
      requires Holds() && Focus(mem, root, p, t, n)
      modifies this`mem, n`color
      ensures Holds() && mem.Keys == old(mem.Keys)
      ensures Focus(mem, root, p, t.(c := c), n) && Whole(p, t.(c := c)) == Whole(p, t)
    {
      n.color := c;
      mem := mem[n := mem[n].(color := c)];
      Paint(old(mem), root, p, t, n, c);
    }

    /** The left child of n gets a colour. */
    method SetLeftColor(n: Node<K>, c: Color, ghost p: Path<Node<K>>, ghost t: Tree<Node<K>>)
      requires Holds() && Focus(mem, root, p, t, n) && t.l.Br?
      modifies this`mem, mem.Keys
      ensures Holds() && mem.Keys == old(mem.Keys)
      ensures var t' := t.(l := t.l.(c := c)); Focus(mem, root, p, t', n) && Whole(p, t') == Whole(p, t)
    {
      ghost var q := InL(p, t.c, t.n, t.r);
      Down(mem, root, p, t, n);
      SetColor(n.left, c, q, t.l);
      Up(mem, root, q, t.l.(c := c), t.l.n);
    }

    method SetRightColor(n: Node<K>, c: Color, ghost p: Path<Node<K>>, ghost t: Tree<Node<K>>)
      requires Holds() && Focus(mem, root, p, t, n) && t.r.Br?
      modifies this`mem, mem.Keys
      ensures Holds() && mem.Keys == old(mem.Keys)
      ensures var t' := t.(r := t.r.(c := c)); Focus(mem, root, p, t', n) && Whole(p, t') == Whole(p, t)
    {
      ghost var q := InR(p, t.c, t.l, t.n);
      Down(mem, root, p, t, n);
      SetColor(n.right, c, q, t.r);
      Up(mem, root, q, t.r.(c := c), t.r.n);
    }

    method ReplaceChild(par: Node?<K>, x: Node<K>, y: Node?<K>, ghost p: Path<Node<K>>)
      requires Holds() && par == Parent(p)
      requires !p.Top? ==> p.n in mem && (p.InL? <==> mem[p.n].left == x)
      modifies this, par
      ensures Holds() && mem == Relink(old(mem), p, y) && root == NewRoot(old(root), p, y)
    {
      if par != null {
        if x == par.left {
          SetLeft(par, y);
        } else {
          SetRight(par, y);
        }
      } else {
        root := y;
      }
    }

    /** tmp takes the place of elm below its parent. */
    method MoveUp(elm: Node<K>, tmp: Node<K>, ghost p: Path<Node<K>>)
      requires Holds() && elm in mem && tmp in mem && Hangs(mem, p, elm, tmp, null)
      modifies this, mem.Keys
      ensures Holds() && mem == TakePlace(old(mem), p, elm, tmp) && root == NewRoot(old(root), p, tmp)
    {
      SetParent(tmp, elm.parent);
      ReplaceChild(tmp.parent, elm, tmp, p);
    }

    method MoveLeftChild(elm: Node<K>, tmp: Node<K>)
      requires Holds() && elm in mem && tmp in mem && elm != tmp && (mem[tmp].left != null ==> mem[tmp].left in mem)
      modifies this`mem, mem.Keys
      ensures Holds() && mem == HandOverLeft(old(mem), elm, tmp)
    {
      SetRight(elm, tmp.left);
      if elm.right != null {
        SetParent(tmp.left, elm);
      }
    }

    method MoveRightChild(elm: Node<K>, tmp: Node<K>)
      requires Holds() && elm in mem && tmp in mem && elm != tmp && (mem[tmp].right != null ==> mem[tmp].right in mem)
      modifies this`mem, mem.Keys
      ensures Holds() && mem == HandOverRight(old(mem), elm, tmp)
    {
      SetLeft(elm, tmp.right);
      if elm.left != null {
        SetParent(tmp.right, elm);
      }
    }

    method LinkLeft(elm: Node<K>, ghost p: Path<Node<K>>) returns (tmp: Node<K>)
      requires Holds() && elm in mem && CanRotL(mem, p, elm)
      modifies this, mem.Keys
      ensures Holds() && tmp == old(mem)[elm].right
      ensures mem == RotLMem(old(mem), p, elm) && root == NewRoot(old(root), p, tmp)
    {
      tmp := elm.right;
      MoveLeftChild(elm, tmp);
      MoveUp(elm, tmp, p);
      SetLeft(tmp, elm);
      SetParent(elm, tmp);
    }

    method LinkRight(elm: Node<K>, ghost p: Path<Node<K>>) returns (tmp: Node<K>)
      requires Holds() && elm in mem && CanRotR(mem, p, elm)
      modifies this, mem.Keys
      ensures Holds() && tmp == old(mem)[elm].left
      ensures mem == RotRMem(old(mem), p, elm) && root == NewRoot(old(root), p, tmp)
    {
      tmp := elm.left;
      MoveRightChild(elm, tmp);
      MoveUp(elm, tmp, p);
      SetRight(tmp, elm);
      SetParent(elm, tmp);
    }

    method RotateLeft(elm: Node<K>, ghost p: Path<Node<K>>, ghost t: Tree<Node<K>>) returns (tmp: Node<K>)
      requires Holds() && Focus(mem, root, p, t, elm) && t.r.Br?
      modifies this, mem.Keys
      ensures Holds() && mem.Keys == old(mem.Keys)
      ensures tmp == t.r.n && Focus(mem, root, p, RotL(t), tmp) && Whole(p, RotL(t)) == Whole(p, t)
    {
      RotLKeeps(p, t);
      LeftRotatable(mem, root, p, t, elm);
      RotateLeftFocus(mem, root, p, t, elm);
      tmp := LinkLeft(elm, p);
    }

    method RotateRight(elm: Node<K>, ghost p: Path<Node<K>>, ghost t: Tree<Node<K>>) returns (tmp: Node<K>)
      requires Holds() && Focus(mem, root, p, t, elm) && t.l.Br?
      modifies this, mem.Keys
      ensures Holds() && mem.Keys == old(mem.Keys)
      ensures tmp == t.l.n && Focus(mem, root, p, RotR(t), tmp) && Whole(p, RotR(t)) == Whole(p, t)
    {
      RotRKeeps(p, t);
      RightRotatable(mem, root, p, t, elm);
      RotateRightFocus(mem, root, p, t, elm);
      tmp := LinkRight(elm, p);
    }

    // ---- RB_INSERT_COLOR

    /** Red parent and red uncle: both become black, the grandparent red. */
    method InsertRecolor(gparent: Node<K>, ghost p: Path<Node<K>>, ghost t: Tree<Node<K>>)
      requires Holds() && Focus(mem, root, p, t, gparent) && t.l.Br? && t.r.Br?
      modifies this, mem.Keys
      ensures Holds() && mem.Keys == old(mem.Keys)
      ensures Focus(mem, root, p, Recolored(t), gparent) && Whole(p, Recolored(t)) == Whole(p, t)
    {
      SetRightColor(gparent, Black, p, t);
      ghost var t1 := t.(r := t.r.(c := Black));
      SetLeftColor(gparent, Black, p, t1);
      SetColor(gparent, Red, p, t1.(l := t.l.(c := Black)));
    }

    /** Left parent, elm its right child: a left rotation makes the parent the outer child. */
    method TurnOutwardLeft(elm: Node<K>, parent: Node<K>, ghost p: Path<Node<K>>, ghost t: Tree<Node<K>>)
      requires Holds() && Focus(mem, root, p, t, elm) && p.InR? && p.n == parent && p.c == Red && InsertInv(p, t)
      modifies this, mem.Keys
      ensures Holds() && mem.Keys == old(mem.Keys)
      ensures var q, u := InL(p.up, Red, t.n, t.r), Br(Red, p.l, p.n, t.l);
        Focus(mem, root, q, u, parent) && InsertInv(q, u) && Whole(q, u) == Whole(p, t)
    {
      ghost var t1 := Filled(p, t);
      InsertTurnOutward(p, t);
      Up(mem, root, p, t, elm);
      var tmp := RotateLeft(parent, p.up, t1);
      Down(mem, root, p.up, RotL(t1), elm);
    }

    method LiftParentRight(elm: Node<K>, parent: Node<K>, gparent: Node<K>, ghost p: Path<Node<K>>,
        ghost t: Tree<Node<K>>)
      requires Holds() && Focus(mem, root, p, t, elm) && InsertInv(p, t)
      requires p.InL? && p.n == parent && p.c == Red && p.up.InL? && p.up.n == gparent && RootColor(p.up.r) == Black
      modifies this, mem.Keys
      ensures Holds() && mem.Keys == old(mem.Keys)
      ensures var q := InL(p.up.up, Black, p.n, Br(Red, p.r, p.up.n, p.up.r));
        Focus(mem, root, q, t, elm) && InsertInv(q, t) && Whole(q, t) == Whole(p, t)
    {
      InsertRotateRight(p, t);
      ghost var t1 := Filled(p, t);
      Up(mem, root, p, t, elm);
      SetColor(parent, Black, p.up, t1);
      ghost var t2 := Filled(p.up, t1.(c := Black));
      Up(mem, root, p.up, t1.(c := Black), parent);
      SetColor(gparent, Red, p.up.up, t2);
      var tmp := RotateRight(gparent, p.up.up, t2.(c := Red));
      Down(mem, root, p.up.up, RotR(t2.(c := Red)), parent);
    }

    /** One pass of the fix-up loop where the parent is a left child. */
    method InsertFixLeft(elm: Node<K>, parent: Node<K>, gparent: Node<K>, ghost p: Path<Node<K>>,
        ghost t: Tree<Node<K>>)
      returns (elm': Node<K>, ghost p': Path<Node<K>>, ghost t': Tree<Node<K>>)
      requires Holds() && Focus(mem, root, p, t, elm) && InsertInv(p, t)
      requires !p.Top? && p.n == parent && p.c == Red && p.up.InL? && p.up.n == gparent
      modifies this, mem.Keys
      ensures Holds() && mem.Keys == old(mem.Keys)
      ensures Focus(mem, root, p', t', elm') && InsertInv(p', t') && Whole(p', t') == Whole(p, t)
      ensures Depth(p') < Depth(p)
    {
      p', t' := p, t;
      Up(mem, root, p, t, elm);
      var tmp := gparent.right;
      if tmp != null && tmp.color == Red {
        Up(mem, root, p.up, Filled(p, t), parent);
        RecolorInv(p, t);
        p', t' := p.up.up, Filled(p.up, Filled(p, t));
        InsertRecolor(gparent, p', t');
        elm', t' := gparent, Recolored(t');
        return;
      }
      var parent' := parent;
      elm' := elm;
      if parent.right == elm {
        TurnOutwardLeft(elm, parent, p, t);
        p', t' := InL(p.up, Red, t.n, t.r), Br(Red, p.l, p.n, t.l);
        elm', parent' := parent, elm;
      }
      LiftParentRight(elm', parent', gparent, p', t');
      p' := InL(p'.up.up, Black, p'.n, Br(Red, p'.r, p'.up.n, p'.up.r));
    }

    method TurnOutwardRight(elm: Node<K>, parent: Node<K>, ghost p: Path<Node<K>>, ghost t: Tree<Node<K>>)
      requires Holds() && Focus(mem, root, p, t, elm) && p.InL? && p.n == parent && p.c == Red && InsertInv(p, t)
      modifies this, mem.Keys
      ensures Holds() && mem.Keys == old(mem.Keys)
      ensures var q, u := InR(p.up, Red, t.l, t.n), Br(Red, t.r, p.n, p.r);
        Focus(mem, root, q, u, parent) && InsertInv(q, u) && Whole(q, u) == Whole(p, t)
    {
      ghost var t1 := Filled(p, t);
      InsertTurnOutward(p, t);
      Up(mem, root, p, t, elm);
      var tmp := RotateRight(parent, p.up, t1);
      Down(mem, root, p.up, RotR(t1), elm);
    }

    method LiftParentLeft(elm: Node<K>, parent: Node<K>, gparent: Node<K>, ghost p: Path<Node<K>>,
        ghost t: Tree<Node<K>>)
      requires Holds() && Focus(mem, root, p, t, elm) && InsertInv(p, t)
      requires p.InR? && p.n == parent && p.c == Red && p.up.InR? && p.up.n == gparent && RootColor(p.up.l) == Black
      modifies this, mem.Keys
      ensures Holds() && mem.Keys == old(mem.Keys)
      ensures var q := InR(p.up.up, Black, Br(Red, p.up.l, p.up.n, p.l), p.n);
        Focus(mem, root, q, t, elm) && InsertInv(q, t) && Whole(q, t) == Whole(p, t)
    {
      InsertRotateLeft(p, t);
      ghost var t1 := Filled(p, t);
      Up(mem, root, p, t, elm);
      SetColor(parent, Black, p.up, t1);
      ghost var t2 := Filled(p.up, t1.(c := Black));
      Up(mem, root, p.up, t1.(c := Black), parent);
      SetColor(gparent, Red, p.up.up, t2);
      var tmp := RotateLeft(gparent, p.up.up, t2.(c := Red));
      Down(mem, root, p.up.up, RotL(t2.(c := Red)), parent);
    }

    /** One pass of the fix-up loop where the parent is a right child. */
    method InsertFixRight(elm: Node<K>, parent: Node<K>, gparent: Node<K>, ghost p: Path<Node<K>>,
        ghost t: Tree<Node<K>>)
      returns (elm': Node<K>, ghost p': Path<Node<K>>, ghost t': Tree<Node<K>>)
      requires Holds() && Focus(mem, root, p, t, elm) && InsertInv(p, t)
      requires !p.Top? && p.n == parent && p.c == Red && p.up.InR? && p.up.n == gparent
      modifies this, mem.Keys
      ensures Holds() && mem.Keys == old(mem.Keys)
      ensures Focus(mem, root, p', t', elm') && InsertInv(p', t') && Whole(p', t') == Whole(p, t)
      ensures Depth(p') < Depth(p)
    {
      p', t' := p, t;
      Up(mem, root, p, t, elm);
      var tmp := gparent.left;
      if tmp != null && tmp.color == Red {
        Up(mem, root, p.up, Filled(p, t), parent);
        RecolorInv(p, t);
        p', t' := p.up.up, Filled(p.up, Filled(p, t));
        InsertRecolor(gparent, p', t');
        elm', t' := gparent, Recolored(t');
        return;
      }
      var parent' := parent;
      elm' := elm;
      if parent.left == elm {
        TurnOutwardRight(elm, parent, p, t);
        p', t' := InR(p.up, Red, t.l, t.n), Br(Red, t.r, p.n, p.r);
        elm', parent' := parent, elm;
      }
      LiftParentLeft(elm', parent', gparent, p', t');
      p' := InR(p'.up.up, Black, Br(Red, p'.up.l, p'.up.n, p'.l), p'.n);
    }

    method InsertFix(elm: Node<K>, parent: Node<K>, ghost p: Path<Node<K>>, ghost t: Tree<Node<K>>)
      returns (elm': Node<K>, ghost p': Path<Node<K>>, ghost t': Tree<Node<K>>)
      requires Holds() && Focus(mem, root, p, t, elm) && InsertInv(p, t) && !p.Top? && p.n == parent && p.c == Red
      modifies this, mem.Keys
      ensures Holds() && mem.Keys == old(mem.Keys)
      ensures Focus(mem, root, p', t', elm') && InsertInv(p', t') && Whole(p', t') == Whole(p, t)
      ensures Depth(p') < Depth(p)
    {
      RedParent(p, t);
      Up(mem, root, p, t, elm);
      var gparent := parent.parent;
      if parent == gparent.left {
        elm', p', t' := InsertFixLeft(elm, parent, gparent, p, t);
      } else {
        elm', p', t' := InsertFixRight(elm, parent, gparent, p, t);
      }
    }

    method InsertColor(x: Node<K>, ghost p0: Path<Node<K>>, ghost t0: Tree<Node<K>>) returns (ghost t: Tree<Node<K>>)
      requires Holds() && Focus(mem, root, p0, t0, x) && InsertInv(p0, t0)
      modifies this, mem.Keys
      ensures Holds() && mem.Keys == old(mem.Keys)
      ensures Focus(mem, root, Top, t, root) && RedBlack(t) && InOrder(t) == Whole(p0, t0)
    {
      var elm, parent := x, x.parent;
      ghost var p := p0;
      t := t0;
      while parent != null && parent.color == Red
        invariant Holds() && mem.Keys == old(mem.Keys)
        invariant Focus(mem, root, p, t, elm) && InsertInv(p, t) && Whole(p, t) == Whole(p0, t0) && parent == elm.parent
        decreases Depth(p)
      {
        elm, p, t := InsertFix(elm, parent, p, t);
        parent := elm.parent;
      }
      t := BlackenRoot(elm, p, t);
    }

    /** The root is painted black. */
    method BlackenRoot(elm: Node<K>, ghost p: Path<Node<K>>, ghost t: Tree<Node<K>>) returns (ghost t': Tree<Node<K>>)
      requires Holds() && Focus(mem, root, p, t, elm) && InsertInv(p, t) && (p.Top? || PColor(p) == Black)
      modifies this`mem, mem.Keys
      ensures Holds() && mem.Keys == old(mem.Keys)
      ensures Focus(mem, root, Top, t', root) && RedBlack(t') && InOrder(t') == Whole(p, t)
    {
      if !p.Top? {
        PlugRedBlack(p, t);
      }
      UpToRoot(mem, root, p, t, elm);
      SetColor(root, Black, Top, Plug(p, t));
      t' := Plug(p, t).(c := Black);
    }

    // ---- RB_REMOVE_COLOR

    /** Left node short, red sibling. */
    method RedSiblingRight(elm: Node?<K>, parent: Node<K>, tmp: Node<K>, ghost p: Path<Node<K>>, ghost t: Tree<Node<K>>)
      requires Holds() && Focus(mem, root, p, t, elm) && RemoveInv(p, t)
      requires p.InL? && p.n == parent && p.r.Br? && p.r.n == tmp && p.r.c == Red
      modifies this, mem.Keys
      ensures Holds() && mem.Keys == old(mem.Keys)
      ensures var q := InL(InL(p.up, Black, p.r.n, p.r.r), Red, p.n, p.r.l);
        Focus(mem, root, q, t, elm) && RemoveInv(q, t) && Whole(q, t) == Whole(p, t) && q.r.Br? && q.r.c == Black
    {
      RemoveRedSibling(p, t);
      ghost var t1 := Filled(p, t);
      Up(mem, root, p, t, elm);
      SetRightColor(parent, Black, p.up, t1);
      ghost var t2 := t1.(r := t1.r.(c := Black));
      SetColor(parent, Red, p.up, t2);
      ghost var t3 := t2.(c := Red);
      var top := RotateLeft(parent, p.up, t3);
      Down(mem, root, p.up, RotL(t3), top);
      Down(mem, root, InL(p.up, Black, p.r.n, p.r.r), RotL(t3).l, parent);
    }

    /** Left node short, black sibling with a red left and a black right child. */
    method RedNephewOutRight(elm: Node?<K>, parent: Node<K>, tmp: Node<K>, ghost p: Path<Node<K>>,
        ghost t: Tree<Node<K>>)
      requires Holds() && Focus(mem, root, p, t, elm) && RemoveInv(p, t)
      requires p.InL? && p.n == parent && p.r.Br? && p.r.n == tmp && p.r.c == Black
      requires RootColor(p.r.l) == Red && RootColor(p.r.r) == Black
      modifies this, mem.Keys
      ensures Holds() && mem.Keys == old(mem.Keys)
      ensures var q := p.(r := RotR(Br(Red, p.r.l.(c := Black), p.r.n, p.r.r)));
        Focus(mem, root, q, t, elm) && RemoveInv(q, t) && Whole(q, t) == Whole(p, t)
    {
      RemoveTurnOutward(p, t);
      ghost var t1 := Filled(p, t);
      Up(mem, root, p, t, elm);
      Down(mem, root, p.up, t1, parent);
      ghost var q1 := InR(p.up, p.c, t, p.n);
      SetLeftColor(tmp, Black, q1, p.r);
      ghost var w := p.r.(l := p.r.l.(c := Black));
      SetColor(tmp, Red, q1, w);
      var oleft := RotateRight(tmp, q1, w.(c := Red));
      ghost var w' := RotR(w.(c := Red));
      Up(mem, root, q1, w', oleft);
      Down(mem, root, p.up, Filled(q1, w'), parent);
    }

    /** Left node short, black sibling with a red right child: the last step. */
    method RedNephewLastRight(elm: Node?<K>, parent: Node<K>, tmp: Node<K>, ghost p: Path<Node<K>>,
        ghost t: Tree<Node<K>>)
      returns (ghost t': Tree<Node<K>>)
      requires Holds() && Focus(mem, root, p, t, elm) && RemoveInv(p, t) && RootColor(t) == Black
      requires p.InL? && p.n == parent && p.r.Br? && p.r.n == tmp && p.r.c == Black && RootColor(p.r.r) == Red
      modifies this, mem.Keys
      ensures Holds() && mem.Keys == old(mem.Keys)
      ensures Focus(mem, root, p.up, t', tmp) && RbAt(p.up, t') && Whole(p.up, t') == Whole(p, t)
    {
      RemoveLast(p, t);
      ghost var t1 := Filled(p, t);
      Up(mem, root, p, t, elm);
      SetRightColor(parent, parent.color, p.up, t1);
      ghost var t2 := t1.(r := t1.r.(c := p.c));
      SetColor(parent, Black, p.up, t2);
      ghost var t3 := t2.(c := Black);
      Down(mem, root, p.up, t3, parent);
      ghost var q := InR(p.up, Black, t, p.n);
      if tmp.right != null {
        SetRightColor(tmp, Black, q, t3.r);
      }
      ghost var w := t3.r.(r := Blacken(t3.r.r));
      Up(mem, root, q, w, tmp);
      var top := RotateLeft(parent, p.up, Filled(q, w));
      t' := RotL(Filled(q, w));
    }

    /** Right node short, red sibling. */
    method RedSiblingLeft(elm: Node?<K>, parent: Node<K>, tmp: Node<K>, ghost p: Path<Node<K>>, ghost t: Tree<Node<K>>)
      requires Holds() && Focus(mem, root, p, t, elm) && RemoveInv(p, t)
      requires p.InR? && p.n == parent && p.l.Br? && p.l.n == tmp && p.l.c == Red
      modifies this, mem.Keys
      ensures Holds() && mem.Keys == old(mem.Keys)
      ensures var q := InR(InR(p.up, Black, p.l.l, p.l.n), Red, p.l.r, p.n);
        Focus(mem, root, q, t, elm) && RemoveInv(q, t) && Whole(q, t) == Whole(p, t) && q.l.Br? && q.l.c == Black
    {
      RemoveRedSibling(p, t);
      ghost var t1 := Filled(p, t);
      Up(mem, root, p, t, elm);
      SetLeftColor(parent, Black, p.up, t1);
      ghost var t2 := t1.(l := t1.l.(c := Black));
      SetColor(parent, Red, p.up, t2);
      ghost var t3 := t2.(c := Red);
      var top := RotateRight(parent, p.up, t3);
      Down(mem, root, p.up, RotR(t3), top);
      Down(mem, root, InR(p.up, Black, p.l.l, p.l.n), RotR(t3).r, parent);
    }

    /** Right node short, black sibling with a red right and a black left child. */
    method RedNephewOutLeft(elm: Node?<K>, parent: Node<K>, tmp: Node<K>, ghost p: Path<Node<K>>,
        ghost t: Tree<Node<K>>)
      requires Holds() && Focus(mem, root, p, t, elm) && RemoveInv(p, t)
      requires p.InR? && p.n == parent && p.l.Br? && p.l.n == tmp && p.l.c == Black
      requires RootColor(p.l.r) == Red && RootColor(p.l.l) == Black
      modifies this, mem.Keys
      ensures Holds() && mem.Keys == old(mem.Keys)
      ensures var q := p.(l := RotL(Br(Red, p.l.l, p.l.n, p.l.r.(c := Black))));
        Focus(mem, root, q, t, elm) && RemoveInv(q, t) && Whole(q, t) == Whole(p, t)
    {
      RemoveTurnOutward(p, t);
      ghost var t1 := Filled(p, t);
      Up(mem, root, p, t, elm);
      Down(mem, root, p.up, t1, parent);
      ghost var q1 := InL(p.up, p.c, p.n, t);
      SetRightColor(tmp, Black, q1, p.l);
      ghost var w := p.l.(r := p.l.r.(c := Black));
      SetColor(tmp, Red, q1, w);
      var oright := RotateLeft(tmp, q1, w.(c := Red));
      ghost var w' := RotL(w.(c := Red));
      Up(mem, root, q1, w', oright);
      Down(mem, root, p.up, Filled(q1, w'), parent);
    }

    /** Right node short, black sibling with a red left child: the last step. */
    method RedNephewLastLeft(elm: Node?<K>, parent: Node<K>, tmp: Node<K>, ghost p: Path<Node<K>>,
        ghost t: Tree<Node<K>>)
      returns (ghost t': Tree<Node<K>>)
      requires Holds() && Focus(mem, root, p, t, elm) && RemoveInv(p, t) && RootColor(t) == Black
      requires p.InR? && p.n == parent && p.l.Br? && p.l.n == tmp && p.l.c == Black && RootColor(p.l.l) == Red
      modifies this, mem.Keys
      ensures Holds() && mem.Keys == old(mem.Keys)
      ensures Focus(mem, root, p.up, t', tmp) && RbAt(p.up, t') && Whole(p.up, t') == Whole(p, t)
    {
      RemoveLast(p, t);
      ghost var t1 := Filled(p, t);
      Up(mem, root, p, t, elm);
      SetLeftColor(parent, parent.color, p.up, t1);
      ghost var t2 := t1.(l := t1.l.(c := p.c));
      SetColor(parent, Black, p.up, t2);
      ghost var t3 := t2.(c := Black);
      Down(mem, root, p.up, t3, parent);
      ghost var q := InL(p.up, Black, p.n, t);
      if tmp.left != null {
        SetLeftColor(tmp, Black, q, t3.l);
      }
      ghost var w := t3.l.(l := Blacken(t3.l.l));
      Up(mem, root, q, w, tmp);
      var top := RotateRight(parent, p.up, Filled(q, w));
      t' := RotR(Filled(q, w));
    }

    /** The focus is moved up to the root of a red-black tree. */
    ghost method FinishAtRoot(p: Path<Node<K>>, t: Tree<Node<K>>, x: Node?<K>) returns (t': Tree<Node<K>>)
      requires Focus(mem, root, p, t, x) && RbAt(p, t)
      ensures Focus(mem, root, Top, t', root) && RemoveInv(Top, t') && Whole(Top, t') == Whole(p, t)
    {
      PlugRedBlack(p, t);
      UpToRoot(mem, root, p, t, x);
      t' := Plug(p, t);
    }

    /** One pass of the removal loop where the short node is a left child. */
    method RemoveFixLeft(elm: Node?<K>, parent: Node<K>, ghost p: Path<Node<K>>, ghost t: Tree<Node<K>>)
      returns (last: bool, elm': Node?<K>, ghost p': Path<Node<K>>, ghost t': Tree<Node<K>>)
      requires Holds() && Focus(mem, root, p, t, elm) && RemoveInv(p, t) && RootColor(t) == Black && p.InL? &&
        p.n == parent
      modifies this, mem.Keys
      ensures Holds() && mem.Keys == old(mem.Keys)
      ensures Focus(mem, root, p', t', elm') && RemoveInv(p', t') && Whole(p', t') == Whole(p, t)
      ensures if last then elm' == root && p'.Top? else elm' != null && (RootColor(t') == Red || Depth(p') < Depth(p))
    {
      p', t' := p, t;
      ShortSibling(p, t);
      var tmp := parent.right;
      if tmp.color == Red {
        RedSiblingRight(elm, parent, tmp, p, t);
        p' := InL(InL(p.up, Black, p.r.n, p.r.r), Red, p.n, p.r.l);
        tmp := parent.right;
      }
      last, elm', p', t' := RemoveBlackSiblingRight(elm, parent, tmp, p', t');
    }

    method RemoveBlackSiblingRight(elm: Node?<K>, parent: Node<K>, tmp0: Node<K>, ghost p: Path<Node<K>>,
        ghost t: Tree<Node<K>>)
      returns (last: bool, elm': Node?<K>, ghost p': Path<Node<K>>, ghost t': Tree<Node<K>>)
      requires Holds() && Focus(mem, root, p, t, elm) && RemoveInv(p, t) && RootColor(t) == Black
      requires p.InL? && p.n == parent && p.r.Br? && p.r.n == tmp0 && p.r.c == Black
      modifies this, mem.Keys
      ensures Holds() && mem.Keys == old(mem.Keys)
      ensures Focus(mem, root, p', t', elm') && RemoveInv(p', t') && Whole(p', t') == Whole(p, t)
      ensures if last then elm' == root && p'.Top? else elm' != null && p' == p.up && RootColor(t') == p.c
    {
      var tmp := tmp0;
      p', t' := p, t;
      assert Rep(mem, p.r, tmp, parent);
      if (tmp.left == null || tmp.left.color == Black) && (tmp.right == null || tmp.right.color == Black) {
        RemoveRecolor(p, t);
        Up(mem, root, p, t, elm);
        SetRightColor(parent, Red, p.up, Filled(p, t));
        last, elm', p', t' := false, parent, p.up, Br(p.c, t, p.n, p.r.(c := Red));
      } else {
        if tmp.right == null || tmp.right.color == Black {
          RedNephewOutRight(elm, parent, tmp, p, t);
          p' := p.(r := RotR(Br(Red, p.r.l.(c := Black), p.r.n, p.r.r)));
          tmp := parent.right;
        }
        t' := RedNephewLastRight(elm, parent, tmp, p', t);
        t' := FinishAtRoot(p'.up, t', tmp);
        last, elm', p' := true, root, Top;
      }
    }

    /** One pass of the removal loop where the short node is a right child. */
    method RemoveFixRight(elm: Node?<K>, parent: Node<K>, ghost p: Path<Node<K>>, ghost t: Tree<Node<K>>)
      returns (last: bool, elm': Node?<K>, ghost p': Path<Node<K>>, ghost t': Tree<Node<K>>)
      requires Holds() && Focus(mem, root, p, t, elm) && RemoveInv(p, t) && RootColor(t) == Black && p.InR? &&
        p.n == parent
      modifies this, mem.Keys
      ensures Holds() && mem.Keys == old(mem.Keys)
      ensures Focus(mem, root, p', t', elm') && RemoveInv(p', t') && Whole(p', t') == Whole(p, t)
      ensures if last then elm' == root && p'.Top? else elm' != null && (RootColor(t') == Red || Depth(p') < Depth(p))
    {
      p', t' := p, t;
      ShortSibling(p, t);
      var tmp := parent.left;
      if tmp.color == Red {
        RedSiblingLeft(elm, parent, tmp, p, t);
        p' := InR(InR(p.up, Black, p.l.l, p.l.n), Red, p.l.r, p.n);
        tmp := parent.left;
      }
      last, elm', p', t' := RemoveBlackSiblingLeft(elm, parent, tmp, p', t');
    }

    method RemoveBlackSiblingLeft(elm: Node?<K>, parent: Node<K>, tmp0: Node<K>, ghost p: Path<Node<K>>,
        ghost t: Tree<Node<K>>)
      returns (last: bool, elm': Node?<K>, ghost p': Path<Node<K>>, ghost t': Tree<Node<K>>)
      requires Holds() && Focus(mem, root, p, t, elm) && RemoveInv(p, t) && RootColor(t) == Black
      requires p.InR? && p.n == parent && p.l.Br? && p.l.n == tmp0 && p.l.c == Black
      modifies this, mem.Keys
      ensures Holds() && mem.Keys == old(mem.Keys)
      ensures Focus(mem, root, p', t', elm') && RemoveInv(p', t') && Whole(p', t') == Whole(p, t)
      ensures if last then elm' == root && p'.Top? else elm' != null && p' == p.up && RootColor(t') == p.c
    {
      var tmp := tmp0;
      p', t' := p, t;
      assert Rep(mem, p.l, tmp, parent);
      if (tmp.left == null || tmp.left.color == Black) && (tmp.right == null || tmp.right.color == Black) {
        RemoveRecolor(p, t);
        Up(mem, root, p, t, elm);
        SetLeftColor(parent, Red, p.up, Filled(p, t));
        last, elm', p', t' := false, parent, p.up, Br(p.c, p.l.(c := Red), p.n, t);
      } else {
        if tmp.left == null || tmp.left.color == Black {
          RedNephewOutLeft(elm, parent, tmp, p, t);
          p' := p.(l := RotL(Br(Red, p.l.l, p.l.n, p.l.r.(c := Black))));
          tmp := parent.left;
        }
        t' := RedNephewLastLeft(elm, parent, tmp, p', t);
        t' := FinishAtRoot(p'.up, t', tmp);
        last, elm', p' := true, root, Top;
      }
    }

    method RemoveFix(elm: Node?<K>, parent: Node?<K>, ghost p: Path<Node<K>>, ghost t: Tree<Node<K>>)
      returns (last: bool, elm': Node?<K>, ghost p': Path<Node<K>>, ghost t': Tree<Node<K>>)
      requires Holds() && Focus(mem, root, p, t, elm) && RemoveInv(p, t) && RootColor(t) == Black
      requires elm != root && parent == Parent(p)
      modifies this, mem.Keys
      ensures Holds() && mem.Keys == old(mem.Keys)
      ensures Focus(mem, root, p', t', elm') && RemoveInv(p', t') && Whole(p', t') == Whole(p, t)
      ensures if last then elm' == root && p'.Top? else elm' != null && (RootColor(t') == Red || Depth(p') < Depth(p))
    {
      ShortSibling(p, t);
      if parent.left == elm {
        last, elm', p', t' := RemoveFixLeft(elm, parent, p, t);
      } else {
        last, elm', p', t' := RemoveFixRight(elm, parent, p, t);
      }
    }

    method RemoveColor(parent0: Node?<K>, elm0: Node?<K>, ghost p0: Path<Node<K>>, ghost t0: Tree<Node<K>>)
      returns (ghost t: Tree<Node<K>>)
      requires Holds() && Focus(mem, root, p0, t0, elm0) && RemoveInv(p0, t0) && parent0 == Parent(p0)
      modifies this, mem.Keys
      ensures Holds() && mem.Keys == old(mem.Keys)
      ensures Focus(mem, root, Top, t, root) && RedBlack(t) && InOrder(t) == Whole(p0, t0)
    {
      var parent, elm := parent0, elm0;
      ghost var p := p0;
      t := t0;
      while (elm == null || elm.color == Black) && elm != root
        invariant Holds() && mem.Keys == old(mem.Keys)
        invariant Focus(mem, root, p, t, elm) && RemoveInv(p, t) && Whole(p, t) == Whole(p0, t0) && parent == Parent(p)
        decreases if RootColor(t) == Red then 0 else 1 + Depth(p)
      {
        var last;
        last, elm, p, t := RemoveFix(elm, parent, p, t);
        if last {
          break;
        }
        parent := elm.parent;
      }
      t := BlackenShort(elm, p, t);
    }

    /** The node that ends the loop is painted black. */
    method BlackenShort(elm: Node?<K>, ghost p: Path<Node<K>>, ghost t: Tree<Node<K>>) returns (ghost t': Tree<Node<K>>)
      requires Holds() && Focus(mem, root, p, t, elm) && RemoveInv(p, t) && (p.Top? || RootColor(t) == Red)
      modifies this`mem, mem.Keys
      ensures Holds() && mem.Keys == old(mem.Keys)
      ensures Focus(mem, root, Top, t', root) && RedBlack(t') && InOrder(t') == Whole(p, t)
    {
      t' := t;
      if elm != null {
        SetColor(elm, Black, p, t);
        t' := t.(c := Black);
      }
      PlugRedBlack(p, t');
      UpToRoot(mem, root, p, t', elm);
      t' := Plug(p, t');
    }

    // ---- searching

    /** Where a search for key k stands: what lies before the focus is below k, what lies after it is above k. */
    ghost predicate Searching(p: Path<Node<K>>, t: Tree<Node<K>>, x: Node?<K>, k: K)
      reads this
    {
      && Focus(mem, root, p, t, x) && RbAt(p, t) && Whole(p, t) == Order()
      && Below(cmp, Before(p), k) && Above(cmp, After(p), k)
    }

    /** One comparison sends the search to one side. */
    lemma SearchStep(p: Path<Node<K>>, t: Tree<Node<K>>, x: Node<K>, k: K)
      requires Lawful(cmp) && Sorted(cmp, Order()) && Searching(p, t, x, k)
      ensures t.Br? && t.n == x && x in mem
      ensures cmp(k, x.key) < 0 ==> Searching(InL(p, t.c, t.n, t.r), t.l, mem[x].left, k)
      ensures cmp(k, x.key) > 0 ==> Searching(InR(p, t.c, t.l, t.n), t.r, mem[x].right, k)
    {
      Down(mem, root, p, t, x);
      RbDown(p, t);
      SidesOfFocus(cmp, p, t, k);
      assert Before(InL(p, t.c, t.n, t.r)) == Before(p) && After(InR(p, t.c, t.l, t.n)) == After(p);
    }

    /** A search that ends in an empty hole: the set has no equal key, and the new node fits into the gap. */
    lemma SearchFailed(p: Path<Node<K>>, elm: Node<K>)
      requires Lawful(cmp) && Sorted(cmp, Order()) && Searching(p, Leaf, null, elm.key)
      ensures Order() == Before(p) + After(p) && Lookup(cmp, Order(), elm.key) == null
      ensures Inserted(cmp, Order(), elm) == Before(p) + [elm] + After(p)
      ensures elm !in Order() && Sorted(cmp, Before(p) + [elm] + After(p))
    {
      assert Order() == Before(p) + After(p);
      AtGap(cmp, Before(p), After(p), elm);
      GapFits(cmp, Before(p), elm, After(p));
    }

    /** A search that ends at an equal key: this is the node the set has for the key. */
    lemma SearchFound(p: Path<Node<K>>, t: Tree<Node<K>>, x: Node<K>, k: K)
      requires Lawful(cmp) && Sorted(cmp, Order()) && Searching(p, t, x, k) && cmp(k, x.key) == 0
      ensures Lookup(cmp, Order(), k) == x
      ensures var i := |Before(p) + InOrder(t.l)|; i < |Order()| && Order()[i] == x && Below(cmp, Order()[..i], k)
    {
      FocusSplit(p, t);
      var s, r := Before(p) + InOrder(t.l), InOrder(t.r) + After(p);
      SidesOfKey(cmp, s, x, r, k);
      AtNode(cmp, s, x, r, k);
      assert Order()[|s|] == x && Order()[..|s|] == s;
    }

    lemma SearchEnd(p: Path<Node<K>>, t: Tree<Node<K>>, x: Node?<K>, elm: Node<K>)
      requires Lawful(cmp) && Sorted(cmp, Order()) && Searching(p, t, x, elm.key)
      requires x != null ==> cmp(elm.key, x.key) == 0
      ensures Lookup(cmp, Order(), elm.key) == x
    {
      if x == null {
        SearchFailed(p, elm);
      } else {
        SearchFound(p, t, x, elm.key);
      }
    }

    lemma NearestEnd(p: Path<Node<K>>, t: Tree<Node<K>>, x: Node?<K>, elm: Node<K>)
      requires Lawful(cmp) && Sorted(cmp, Order()) && Searching(p, t, x, elm.key)
      requires x != null ==> cmp(elm.key, x.key) == 0
      ensures LeastNotBelow(elm.key, if x == null then First(After(p)) else x)
    {
      if x == null {
        SearchFailed(p, elm);
        assert Order()[..|Before(p)|] == Before(p);
      } else {
        SearchFound(p, t, x, elm.key);
      }
    }

    method Find(elm: Node<K>) returns (r: Node?<K>)
      requires Valid()
      ensures r == Lookup(cmp, Order(), elm.key)
    {
      var tmp := root;
      ghost var p, t: Tree<Node<K>> := Top, tree;
      assert Whole(p, t) == Order();
      while tmp != null
        invariant Searching(p, t, tmp, elm.key)
        decreases t
      {
        SearchStep(p, t, tmp, elm.key);
        var comp := cmp(elm.key, tmp.key);
        if comp < 0 {
          tmp := tmp.left;
          p, t := InL(p, t.c, t.n, t.r), t.l;
        } else if comp > 0 {
          tmp := tmp.right;
          p, t := InR(p, t.c, t.l, t.n), t.r;
        } else {
          break;
        }
      }
      SearchEnd(p, t, tmp, elm);
      return tmp;
    }

    /** The least node that is not below the key, or null if there is none. */
    method NFind(elm: Node<K>) returns (res: Node?<K>)
      requires Valid()
      ensures LeastNotBelow(elm.key, res)
    {
      var tmp := root;
      ghost var p, t: Tree<Node<K>> := Top, tree;
      assert Whole(p, t) == Order();
      res := null;
      while tmp != null
        invariant Searching(p, t, tmp, elm.key)
        invariant res == First(After(p))
        decreases t
      {
        SearchStep(p, t, tmp, elm.key);
        var comp := cmp(elm.key, tmp.key);
        if comp < 0 {
          res := tmp;
          tmp := tmp.left;
          p, t := InL(p, t.c, t.n, t.r), t.l;
        } else if comp > 0 {
          tmp := tmp.right;
          p, t := InR(p, t.c, t.l, t.n), t.r;
        } else {
          res := tmp;
          break;
        }
      }
      NearestEnd(p, t, tmp, elm);
    }

    ghost predicate LeastNotBelow(k: K, res: Node?<K>)
      reads this
    {
      if res == null then Below(cmp, Order(), k)
      else exists i :: 0 <= i < |Order()| && res == Order()[i] && cmp(k, res.key) <= 0 && Below(cmp, Order()[..i], k)
    }

    method MinMax(val: int) returns (parent: Node?<K>)
      requires Valid()
      ensures Order() == [] ==> parent == null
      ensures Order() != [] ==> parent == if val < 0 then Order()[0] else Order()[|Order()| - 1]
    {
      var tmp := root;
      ghost var p, t: Tree<Node<K>> := Top, tree;
      assert Whole(p, t) == Order();
      parent := null;
      while tmp != null
        invariant Focus(mem, root, p, t, tmp) && Whole(p, t) == Order() && parent == Parent(p)
        invariant val < 0 ==> Before(p) == [] && (p.Top? || (p.InL? && parent == After(p)[0]))
        invariant val >= 0 ==> After(p) == [] && (p.Top? || (p.InR? && parent == Before(p)[|Before(p)| - 1]))
        decreases t
      {
        parent := tmp;
        Down(mem, root, p, t, tmp);
        FocusSplit(p, t);
        if val < 0 {
          tmp := tmp.left;
          p, t := InL(p, t.c, t.n, t.r), t.l;
        } else {
          tmp := tmp.right;
          p, t := InR(p, t.c, t.l, t.n), t.r;
        }
      }
      assert Order() == Before(p) + After(p);
    }

    // ---- walking

    /** A node of the tree is in focus somewhere, and the path and tree there split the order at it. */
    lemma LocateNode(elm: Node<K>) returns (p: Path<Node<K>>, t: Tree<Node<K>>)
      requires Focus(mem, root, Top, tree, root) && RedBlack(tree) && elm in Order()
      ensures Focus(mem, root, p, t, elm) && RbAt(p, t) && t.Br? && t.n == elm
      ensures Order() == (Before(p) + InOrder(t.l)) + [elm] + (InOrder(t.r) + After(p)) == Whole(p, t)
    {
      NodesInOrder(tree);
      PlugInOrder(Top, tree);
      p, t := Locate(mem, root, Top, tree, root, elm);
      FocusSplit(p, t);
    }

    lemma LocateAt(i: nat) returns (p: Path<Node<K>>, t: Tree<Node<K>>)
      requires Valid() && i < |Order()|
      ensures Focus(mem, root, p, t, Order()[i]) && RbAt(p, t) && t.Br? && Whole(p, t) == Order()
      ensures |Before(p)| + |InOrder(t.l)| == i
    {
      p, t := LocateNode(Order()[i]);
      SortedIndex(cmp, Order(), i, |Before(p) + InOrder(t.l)|);
    }

    method Next(x: Node<K>, ghost i: nat) returns (elm: Node?<K>)
      requires Valid() && i < |Order()| && Order()[i] == x
      ensures elm == At(Order(), i + 1)
    {
      ghost var p, t := LocateAt(i);
      FocusSplit(p, t);
      Down(mem, root, p, t, x);
      if x.right != null {
        p, t := InR(p, t.c, t.l, t.n), t.r;
        elm := Leftmost(x.right, p, t);
      } else if x.parent != null && x == x.parent.left {
        elm := x.parent;
        assert p.InL? && After(p)[0] == p.n;
      } else {
        elm := ClimbRight(x, p, t);
      }
    }

    /** From a subtree down to its first node. */
    method Leftmost(x: Node<K>, ghost p0: Path<Node<K>>, ghost t0: Tree<Node<K>>) returns (elm: Node<K>)
      requires Holds() && Focus(mem, root, p0, t0, x)
      ensures |Before(p0)| < |Whole(p0, t0)| && elm == Whole(p0, t0)[|Before(p0)|]
    {
      elm := x;
      ghost var p, t := p0, t0;
      while elm.left != null
        invariant Focus(mem, root, p, t, elm) && Whole(p, t) == Whole(p0, t0) && Before(p) == Before(p0)
        decreases t
      {
        Down(mem, root, p, t, elm);
        elm := elm.left;
        p, t := InL(p, t.c, t.n, t.r), t.l;
      }
      Down(mem, root, p, t, elm);
      FocusSplit(p, t);
    }

    /** Up from a right child until the way leaves a left child; what comes then is the next node. */
    method ClimbRight(x: Node<K>, ghost p0: Path<Node<K>>, ghost t0: Tree<Node<K>>) returns (elm: Node?<K>)
      requires Holds() && Focus(mem, root, p0, t0, x)
      ensures elm == First(After(p0))
    {
      elm := x;
      ghost var p, t := p0, t0;
      while elm.parent != null && elm == elm.parent.right
        invariant elm != null && Focus(mem, root, p, t, elm) && After(p) == After(p0)
        decreases p
      {
        Up(mem, root, p, t, elm);
        elm := elm.parent;
        p, t := p.up, Filled(p, t);
      }
      assert !p.InR?;
      elm := elm.parent;
    }

    method Prev(x: Node<K>, ghost i: nat) returns (elm: Node?<K>)
      requires Valid() && i < |Order()| && Order()[i] == x
      ensures elm == At(Order(), i - 1)
    {
      ghost var p, t := LocateAt(i);
      FocusSplit(p, t);
      Down(mem, root, p, t, x);
      if x.left != null {
        p, t := InL(p, t.c, t.n, t.r), t.l;
        elm := Rightmost(x.left, p, t);
      } else if x.parent != null && x == x.parent.right {
        elm := x.parent;
        assert p.InR? && Last(Before(p)) == p.n;
      } else {
        elm := ClimbLeft(x, p, t);
      }
    }

    method Rightmost(x: Node<K>, ghost p0: Path<Node<K>>, ghost t0: Tree<Node<K>>) returns (elm: Node<K>)
      requires Holds() && Focus(mem, root, p0, t0, x)
      ensures |Before(p0)| + |InOrder(t0)| > 0 && elm == Whole(p0, t0)[|Before(p0)| + |InOrder(t0)| - 1]
    {
      elm := x;
      ghost var p, t := p0, t0;
      while elm.right != null
        invariant Focus(mem, root, p, t, elm) && Whole(p, t) == Whole(p0, t0) && After(p) == After(p0)
        decreases t
      {
        Down(mem, root, p, t, elm);
        elm := elm.right;
        p, t := InR(p, t.c, t.l, t.n), t.r;
      }
      Down(mem, root, p, t, elm);
      FocusSplit(p, t);
    }

    method ClimbLeft(x: Node<K>, ghost p0: Path<Node<K>>, ghost t0: Tree<Node<K>>) returns (elm: Node?<K>)
      requires Holds() && Focus(mem, root, p0, t0, x)
      ensures elm == Last(Before(p0))
    {
      elm := x;
      ghost var p, t := p0, t0;
      while elm.parent != null && elm == elm.parent.left
        invariant elm != null && Focus(mem, root, p, t, elm) && Before(p) == Before(p0)
        decreases p
      {
        Up(mem, root, p, t, elm);
        elm := elm.parent;
        p, t := p.up, Filled(p, t);
      }
      assert !p.InL?;
      elm := elm.parent;
    }

    /** Going on and back again from any node but the last. */
    method NextThenPrev(x: Node<K>, ghost i: nat) returns (y: Node?<K>)
      requires Valid() && i + 1 < |Order()| && Order()[i] == x
      ensures y == x
    {
      y := Next(x, i);
      y := Prev(y, i + 1);
    }

    /** Going back and on again from any node but the first. */
    method PrevThenNext(x: Node<K>, ghost i: nat) returns (y: Node?<K>)
      requires Valid() && 0 < i < |Order()| && Order()[i] == x
      ensures y == x
    {
      y := Prev(x, i);
      y := Next(y, i - 1);
    }

    /** Before the pass number k of a loop over the nodes of s. */
    ghost predicate Walking(x: Node?<K>, visited: seq<Node<K>>, s: seq<Node<K>>, k: nat)
      reads this, mem.Keys
    {
      Valid() && Order() == s && k <= |s| && x == At(s, k) && visited == s[..k]
    }

    method Walk(x: Node<K>, visited: seq<Node<K>>, ghost s: seq<Node<K>>, ghost k: nat)
      returns (y: Node?<K>, visited': seq<Node<K>>)
      requires Walking(x, visited, s, k)
      ensures Walking(y, visited', s, k + 1)
    {
      visited' := visited + [x];
      assert visited' == s[..k + 1];
      y := Next(x, k);
    }

    lemma WalkStart(x: Node?<K>)
      requires Valid() && x == At(Order(), 0)
      ensures Walking(x, [], Order(), 0)
    {
    }

    lemma WalkEnd(visited: seq<Node<K>>, s: seq<Node<K>>, k: nat)
      requires Walking(null, visited, s, k)
      ensures visited == s
    {
    }

    /** RB_FOREACH: the nodes the loop visits. */
    method Foreach() returns (visited: seq<Node<K>>)
      requires Valid()
      ensures visited == Order()
    {
      ghost var s, k := Order(), 0;
      visited := [];
      var x := MinMax(-1);
      WalkStart(x);
      while x != null
        invariant Walking(x, visited, s, k)
        decreases |s| - k
      {
        x, visited := Walk(x, visited, s, k);
        k := k + 1;
      }
      WalkEnd(visited, s, k);
    }

    /** Before a pass of a loop that comes backwards to the node before index i. */
    ghost predicate WalkingBack(x: Node?<K>, visited: seq<Node<K>>, s: seq<Node<K>>, i: nat)
      reads this, mem.Keys
    {
      Valid() && Order() == s && i <= |s| && x == At(s, i - 1) && visited + Reversed(s[..i]) == Reversed(s)
    }

    method WalkBack(x: Node<K>, visited: seq<Node<K>>, ghost s: seq<Node<K>>, ghost i: nat)
      returns (y: Node?<K>, visited': seq<Node<K>>)
      requires i > 0 && WalkingBack(x, visited, s, i)
      ensures WalkingBack(y, visited', s, i - 1)
    {
      VisitedBack(visited, s, i);
      visited' := visited + [x];
      y := Prev(x, i - 1);
    }

    lemma WalkBackStart(x: Node?<K>)
      requires Valid() && x == At(Order(), |Order()| - 1)
      ensures WalkingBack(x, [], Order(), |Order()|)
    {
      VisitedEnds(Order());
    }

    lemma WalkBackEnd(visited: seq<Node<K>>, s: seq<Node<K>>, i: nat)
      requires WalkingBack(null, visited, s, i)
      ensures visited == Reversed(s)
    {
      VisitedEnds(s);
    }

    /** RB_FOREACH_REVERSE: the nodes the loop visits are those of RB_FOREACH backwards. */
    method ForeachReverse() returns (visited: seq<Node<K>>)
      requires Valid()
      ensures visited == Reversed(Order())
    {
      ghost var s, i := Order(), |Order()|;
      visited := [];
      var x := MinMax(1);
      WalkBackStart(x);
      while x != null
        invariant 0 <= i && WalkingBack(x, visited, s, i)
        decreases i
      {
        x, visited := WalkBack(x, visited, s, i);
        i := i - 1;
      }
      WalkBackEnd(visited, s, i);
    }

    // ---- RB_INSERT

    /** The search of an insertion: an equal node, or the empty hole where the new node belongs. */
    method InsertSearch(elm: Node<K>) returns (tmp: Node?<K>, parent: Node?<K>, comp: int, ghost p: Path<Node<K>>)
      requires Valid()
      ensures tmp == Lookup(cmp, Order(), elm.key)
      ensures tmp == null ==> Searching(p, Leaf, null, elm.key) && parent == Parent(p)
      ensures tmp == null ==> (p.InL? ==> comp < 0) && (p.InR? ==> comp > 0)
    {
      tmp, parent, comp := root, null, 0;
      ghost var t: Tree<Node<K>> := tree;
      p := Top;
      assert Whole(p, t) == Order();
      while tmp != null
        invariant Searching(p, t, tmp, elm.key) && parent == Parent(p)
        invariant (p.InL? ==> comp < 0) && (p.InR? ==> comp > 0)
        decreases t
      {
        SearchStep(p, t, tmp, elm.key);
        parent := tmp;
        comp := cmp(elm.key, parent.key);
        if comp < 0 {
          tmp := tmp.left;
          p, t := InL(p, t.c, t.n, t.r), t.l;
        } else if comp > 0 {
          tmp := tmp.right;
          p, t := InR(p, t.c, t.l, t.n), t.r;
        } else {
          break;
        }
      }
      SearchEnd(p, t, tmp, elm);
    }

    /** The new node is set up red and linked below its parent. */
    method LinkNew(elm: Node<K>, parent: Node?<K>, comp: int, ghost p: Path<Node<K>>)
      requires Holds() && Focus(mem, root, p, Leaf, null) && elm !in PNodes(p) && parent == Parent(p)
      requires (p.InL? ==> comp < 0) && (p.InR? ==> comp > 0)
      modifies this, mem.Keys, elm
      ensures Holds() && mem.Keys == old(mem.Keys) + {elm}
      ensures Focus(mem, root, p, Br(Red, Leaf, elm, Leaf), elm)
    {
      HangLeaf(mem, root, p, elm);
      Set(elm, parent);
      HangBelow(elm, parent, comp, p);
    }

    /** RB_SET, for a node that is not in the tree yet. */
    method Set(elm: Node<K>, parent: Node?<K>)
      requires Holds()
      modifies this`mem, elm
      ensures Holds() && mem == old(mem)[elm := Cell(null, null, parent, Red)]
    {
      elm.parent := parent;
      elm.left, elm.right := null, null;
      elm.color := Red;
      mem := mem[elm := Cell(null, null, parent, Red)];
    }

    method HangBelow(elm: Node<K>, parent: Node?<K>, comp: int, ghost p: Path<Node<K>>)
      requires Holds() && parent == Parent(p) && (!p.Top? ==> p.n in mem)
      requires (p.InL? ==> comp < 0) && (p.InR? ==> comp > 0)
      modifies this, mem.Keys
      ensures Holds() && mem == Relink(old(mem), p, elm) && root == NewRoot(old(root), p, elm)
    {
      if parent != null {
        if comp < 0 {
          SetLeft(parent, elm);
        } else {
          SetRight(parent, elm);
        }
      } else {
        root := elm;
      }
    }

    /** The new node is linked at the gap and the tree is balanced again. */
    method InsertAt(elm: Node<K>, parent: Node?<K>, comp: int, ghost p: Path<Node<K>>) returns (ghost t: Tree<Node<K>>)
      requires Holds() && Focus(mem, root, p, Leaf, null) && RbAt(p, Leaf) && elm !in PNodes(p)
      requires parent == Parent(p) && (p.InL? ==> comp < 0) && (p.InR? ==> comp > 0)
      modifies this, mem.Keys, elm
      ensures Holds() && mem.Keys == old(mem.Keys) + {elm}
      ensures Focus(mem, root, Top, t, root) && RedBlack(t) && InOrder(t) == Before(p) + [elm] + After(p)
    {
      LinkNew(elm, parent, comp, p);
      InsertStart(p, elm);
      t := InsertColor(elm, p, Br(Red, Leaf, elm, Leaf));
    }

    lemma NotOnPath(p: Path<Node<K>>, elm: Node<K>)
      requires elm !in Before(p) + After(p)
      ensures elm !in PNodes(p)
    {
      PNodesInOrder(p);
      assert elm !in Before(p) && elm !in After(p);
    }

    lemma InsertStart(p: Path<Node<K>>, elm: Node<K>)
      requires RbAt(p, Leaf)
      ensures InsertInv(p, Br(Red, Leaf, elm, Leaf)) &&
        Whole(p, Br(Red, Leaf, elm, Leaf)) == Before(p) + [elm] + After(p)
    {
      assert InOrder(Br(Red, Leaf, elm, Leaf)) == [elm];
    }

    method InsertNew(elm: Node<K>, parent: Node?<K>, comp: int, ghost p: Path<Node<K>>)
      requires Shape() && Focus(mem, root, p, Leaf, null) && RbAt(p, Leaf)
      requires Order() == Before(p) + After(p) && elm !in Before(p) + After(p)
      requires parent == Parent(p) && (p.InL? ==> comp < 0) && (p.InR? ==> comp > 0)
      modifies this, mem.Keys, elm
      ensures Shape() && Order() == Before(p) + [elm] + After(p)
    {
      NotOnPath(p, elm);
      ghost var t0 := tree;
      ghost var t := InsertAt(elm, parent, comp, p);
      NodesWith(t0, t, Before(p), elm, After(p));
      tree := t;
    }

    /** An equal node is returned and nothing changes, or the new node is in its place. */
    method Insert(elm: Node<K>) returns (r: Node?<K>)
      requires Valid()
      modifies this, mem.Keys, elm
      ensures Valid()
      ensures r == Lookup(cmp, old(Order()), elm.key)
      ensures r != null ==> tree == old(tree) && mem == old(mem) && root == old(root)
      ensures r == null ==> elm !in old(Order()) && Order() == Inserted(cmp, old(Order()), elm)
    {
      var parent, comp;
      ghost var p;
      r, parent, comp, p := InsertSearch(elm);
      if r == null {
        SearchFailed(p, elm);
        InsertNew(elm, parent, comp, p);
      }
    }

    // ---- RB_REMOVE

    /** The only child of elm takes the place of elm. */
    method CutOutNode(elm: Node<K>, child: Node?<K>, parent: Node?<K>, ghost p: Path<Node<K>>, ghost t: Tree<Node<K>>)
      requires Holds() && Focus(mem, root, p, t, elm) && (t.l.Leaf? || t.r.Leaf?)
      requires parent == Parent(p) && child == if t.l.Leaf? then elm.right else elm.left
      modifies this, mem.Keys
      ensures Holds() && mem.Keys == old(mem.Keys)
      ensures Focus(mem, root, p, OnlyChild(t), child)
      ensures mem[elm] == old(mem)[elm] && elm !in Nodes(OnlyChild(t)) && elm !in PNodes(p)
    {
      CutOutFocus(mem, root, p, t, elm);
      LinkChild(elm, child, parent, p);
    }

    method LinkChild(elm: Node<K>, child: Node?<K>, parent: Node?<K>, ghost p: Path<Node<K>>)
      requires Holds() && parent == Parent(p) && (child != null ==> child in mem)
      requires !p.Top? ==> p.n in mem && p.n != child && (p.InL? <==> mem[p.n].left == elm)
      modifies this, mem.Keys
      ensures Holds() && mem == Relink(Reparent(old(mem), child, parent), p, child)
      ensures root == NewRoot(old(root), p, child)
    {
      if child != null {
        SetParent(child, parent);
      }
      ReplaceChild(parent, elm, child, p);
    }

    /** All links of n are copied from old'. */
    method CopyLinks(n: Node<K>, old': Node<K>)
      requires Holds() && n in mem && old' in mem
      modifies this`mem, n
      ensures Holds() && mem == old(mem)[n := old(mem)[old']]
    {
      n.left, n.right, n.parent, n.color := old'.left, old'.right, old'.parent, old'.color;
      mem := mem[n := mem[old']];
    }

    /** Node elm takes the place of old', which has a left child. */
    method TakeOver(old': Node<K>, elm: Node<K>, ghost p: Path<Node<K>>, ghost t: Tree<Node<K>>)
      requires Holds() && Focus(mem, root, p, t, old') && t.l.Br?
      requires elm in mem && elm !in Nodes(t) && elm !in PNodes(p)
      modifies this, mem.Keys
      ensures Holds() && mem.Keys == old(mem.Keys)
      ensures Focus(mem, root, p, t.(n := elm), elm)
    {
      TakeOverFocus(mem, root, p, t, old', elm);
      assert Rep(mem, t.l, mem[old'].left, old') && Rep(mem, t.r, mem[old'].right, old');
      TakeAllLinks(old', elm, p);
    }

    method TakeAllLinks(old': Node<K>, elm: Node<K>, ghost p: Path<Node<K>>)
      requires Holds() && elm in mem && old' in mem && elm != old' && mem[old'].parent == Parent(p)
      requires mem[old'].left in mem && (mem[old'].right != null ==> mem[old'].right in mem) && mem[old'].left != old'
      requires !p.Top? ==> p.n in mem && p.n != elm && p.n != old' && (p.InL? <==> mem[p.n].left == old')
      modifies this, mem.Keys
      ensures Holds() && mem == TakeOverMem(old(mem), p, old', elm) && root == NewRoot(old(root), p, elm)
    {
      TakeLinks(old', elm, p);
      AdoptChildren(old', elm);
    }

    method TakeLinks(old': Node<K>, elm: Node<K>, ghost p: Path<Node<K>>)
      requires Holds() && elm in mem && old' in mem && elm != old' && mem[old'].parent == Parent(p)
      requires !p.Top? ==> p.n in mem && p.n != elm && (p.InL? <==> mem[p.n].left == old')
      modifies this, mem.Keys
      ensures Holds() && mem == Relink(old(mem)[elm := old(mem)[old']], p, elm) && root == NewRoot(old(root), p, elm)
    {
      CopyLinks(elm, old');
      ReplaceChild(old'.parent, old', elm, p);
    }

    method AdoptChildren(old': Node<K>, elm: Node<K>)
      requires Holds() && old' in mem && mem[old'].left in mem && (mem[old'].right != null ==> mem[old'].right in mem)
      requires mem[old'].left != old'
      modifies this`mem, mem.Keys
      ensures Holds() && mem == Reparent(Reparent(old(mem), old(mem)[old'].left, elm), old(mem)[old'].right, elm)
    {
      SetParent(old'.left, elm);
      if old'.right != null {
        SetParent(old'.right, elm);
      }
    }

    /** The colour of the node that left its place decides whether the tree has to be balanced. */
    method Rebalance(color: Color, parent: Node?<K>, child: Node?<K>, ghost p: Path<Node<K>>, ghost t: Tree<Node<K>>)
      returns (ghost t': Tree<Node<K>>)
      requires Holds() && Focus(mem, root, p, t, child) && parent == Parent(p)
      requires if color == Black then RemoveInv(p, t) else RbAt(p, t)
      modifies this, mem.Keys
      ensures Holds() && mem.Keys == old(mem.Keys)
      ensures Focus(mem, root, Top, t', root) && RedBlack(t') && InOrder(t') == Whole(p, t)
    {
      if color == Black {
        t' := RemoveColor(parent, child, p, t);
      } else {
        PlugRedBlack(p, t);
        UpToRoot(mem, root, p, t, child);
        t' := Plug(p, t);
      }
    }

    /** The first node of the right subtree of old'. */
    method RightMinimum(old': Node<K>, ghost p: Path<Node<K>>, ghost t0: Tree<Node<K>>)
      returns (elm: Node<K>, ghost rel: Path<Node<K>>, ghost t: Tree<Node<K>>)
      requires Holds() && Focus(mem, root, p, t0, old') && RbAt(p, t0) && t0.r.Br?
      ensures var b := InR(p, t0.c, t0.l, old');
        Focus(mem, root, Join(rel, b), t, elm) && LeftBelow(rel, b, t, InOrder(t0.r))
      ensures t.Br? && t.l.Leaf? && t.n == elm && elm.left == null
    {
      Down(mem, root, p, t0, old');
      RbDown(p, t0);
      ghost var b := InR(p, t0.c, t0.l, old');
      elm := old'.right;
      rel, t := Top, t0.r;
      var left := elm.left;
      while left != null
        invariant Focus(mem, root, Join(rel, b), t, elm) && LeftBelow(rel, b, t, InOrder(t0.r)) && left == elm.left
        decreases t
      {
        Down(mem, root, Join(rel, b), t, elm);
        LeftBelowStep(rel, b, t, InOrder(t0.r));
        elm := left;
        rel, t := InL(rel, t.c, t.n, t.r), t.l;
        left := elm.left;
      }
    }

    /** Removal of a node with at most one child. */
    method RemoveOuter(old': Node<K>, ghost p: Path<Node<K>>, ghost t: Tree<Node<K>>) returns (ghost t': Tree<Node<K>>)
      requires Holds() && Focus(mem, root, p, t, old') && RbAt(p, t) && (t.l.Leaf? || t.r.Leaf?)
      modifies this, mem.Keys
      ensures Holds() && mem.Keys == old(mem.Keys)
      ensures Focus(mem, root, Top, t', root) && RedBlack(t') && InOrder(t') == Whole(p, OnlyChild(t))
    {
      CutOut(p, t);
      var child := if old'.left == null then old'.right else old'.left;
      var parent, color := old'.parent, old'.color;
      CutOutNode(old', child, parent, p, t);
      t' := Rebalance(color, parent, child, p, OnlyChild(t));
    }

    /** Removal of a node with two children: the next node is cut out and takes its place. */
    method RemoveInner(old': Node<K>, ghost p: Path<Node<K>>, ghost t0: Tree<Node<K>>) returns (ghost t': Tree<Node<K>>)
      requires Holds() && Focus(mem, root, p, t0, old') && RbAt(p, t0) && t0.l.Br? && t0.r.Br?
      modifies this, mem.Keys
      ensures Holds() && mem.Keys == old(mem.Keys)
      ensures Focus(mem, root, Top, t', root) && RedBlack(t')
      ensures InOrder(t') == (Before(p) + InOrder(t0.l)) + (InOrder(t0.r) + After(p))
    {
      var elm;
      ghost var rel, t;
      elm, rel, t := RightMinimum(old', p, t0);
      SuccessorOrder(rel, p, t0.c, t0.l, t0.r, t);
      var child, parent, color := Succeed(old', elm, p, t0.c, t0.l, rel, t);
      t' := Rebalance(color, parent, child, Join(rel, InR(p, t0.c, t0.l, elm)), t.r);
    }

    /** The node elm is cut out below the right subtree of old' and takes the place of old'. */
    method Succeed(old': Node<K>, elm: Node<K>, ghost p: Path<Node<K>>, ghost c: Color, ghost l: Tree<Node<K>>,
                   ghost rel: Path<Node<K>>, ghost t: Tree<Node<K>>)
      returns (child: Node?<K>, parent: Node?<K>, color: Color)
      requires Holds() && Focus(mem, root, Join(rel, InR(p, c, l, old')), t, elm) && l.Br? && t.l.Leaf?
      requires RbAt(Join(rel, InR(p, c, l, old')), t)
      modifies this, mem.Keys
      ensures Holds() && mem.Keys == old(mem.Keys)
      ensures var q := Join(rel, InR(p, c, l, elm));
        && Focus(mem, root, q, t.r, child) && parent == Parent(q)
        && if color == Black then RemoveInv(q, t.r) else RbAt(q, t.r)
    {
      ghost var b := InR(p, c, l, old');
      child, parent, color := elm.right, elm.parent, elm.color;
      CutOut(Join(rel, b), t);
      JoinEnd(rel, b);
      JoinRename(rel, p, c, l, old', elm, if color == Black then BH(t.r) + 1 else BH(t.r));
      CutOutNode(elm, child, parent, Join(rel, b), t);
      if elm.parent == old' {
        parent := elm;
      }
      HandOver(old', elm, p, c, l, rel, t.r, child);
    }

    method HandOver(old': Node<K>, elm: Node<K>, ghost p: Path<Node<K>>, ghost c: Color, ghost l: Tree<Node<K>>,
                    ghost rel: Path<Node<K>>, ghost t: Tree<Node<K>>, ghost child: Node?<K>)
      requires Holds() && Focus(mem, root, Join(rel, InR(p, c, l, old')), t, child) && l.Br?
      requires elm in mem && elm !in Nodes(t) && elm !in PNodes(Join(rel, InR(p, c, l, old')))
      modifies this, mem.Keys
      ensures Holds() && mem.Keys == old(mem.Keys)
      ensures Focus(mem, root, Join(rel, InR(p, c, l, elm)), t, child)
    {
      ghost var b, b' := InR(p, c, l, old'), InR(p, c, l, elm);
      JoinUp(mem, root, rel, b, t, child);
      ghost var r := Plug(rel, t);
      Up(mem, root, b, r, Hole(mem, root, b));
      JoinNodes(rel, b, t);
      TakeOver(old', elm, p, Br(c, l, old', r));
      Down(mem, root, p, Br(c, l, elm, r), elm);
      JoinDown(mem, root, rel, b', t, mem[elm].right);
    }

    method Remove(elm: Node<K>) returns (r: Node<K>)
      requires Valid() && elm in Order()
      modifies this, mem.Keys
      ensures Valid() && r == elm
      ensures Order() == Removed(cmp, old(Order()), elm.key)
      ensures mem.Keys == old(mem.Keys) - {elm}
      ensures var s := old(Order()); exists i :: 0 <= i < |s| && s[i] == elm && Order() == s[..i] + s[i + 1..]
    {
      ghost var p, t := LocateNode(elm);
      ghost var s, z := Before(p) + InOrder(t.l), InOrder(t.r) + After(p);
      WithoutNode(cmp, s, elm, z);
      RemoveAt(elm, p, t);
      r := elm;
    }

    /** RB_REMOVE of the node at index i. */
    method RemoveNode(x: Node<K>, ghost i: nat)
      requires Valid() && i < |Order()| && Order()[i] == x
      modifies this, mem.Keys
      ensures Valid() && mem.Keys <= old(mem.Keys) && Order() == old(Order())[..i] + old(Order())[i + 1..]
    {
      ghost var s := Order();
      var r := Remove(x);
      ghost var j :| 0 <= j < |s| && s[j] == x && Order() == s[..j] + s[j + 1..];
      SortedIndex(cmp, s, i, j);
    }

    /** The next node is looked up before the body may remove this one. */
    method SafePass(x: Node<K>, drop: set<Node<K>>, ghost s: seq<Node<K>>, ghost k: nat) returns (y: Node?<K>)
      requires Valid() && k < |s| && x == s[k] && Order() == Dropping(s, drop, k)
      modifies this, mem.Keys
      ensures Valid() && mem.Keys <= old(mem.Keys) && y == At(s, k + 1) && Order() == Dropping(s, drop, k + 1)
    {
      DroppingNext(s, drop, k);
      ghost var i := |Order()| - (|s| - k);
      y := Next(x, i);
      if x in drop {
        RemoveNode(x, i);
      }
    }

    /** Before the pass number k of the safe loop over the nodes of s. */
    ghost predicate SafeAt(x: Node?<K>, drop: set<Node<K>>, visited: seq<Node<K>>, s: seq<Node<K>>, k: nat)
      reads this, mem.Keys
    {
      Valid() && k <= |s| && x == At(s, k) && visited == s[..k] && Order() == Dropping(s, drop, k)
    }

    /** A pass of the safe loop at the node s[k]. */
    method SafeVisit(x: Node<K>, drop: set<Node<K>>, visited: seq<Node<K>>, ghost s: seq<Node<K>>, ghost k: nat)
      returns (y: Node?<K>, visited': seq<Node<K>>)
      requires SafeAt(x, drop, visited, s, k)
      modifies this, mem.Keys
      ensures mem.Keys <= old(mem.Keys) && SafeAt(y, drop, visited', s, k + 1)
    {
      visited' := visited + [x];
      assert visited' == s[..k + 1];
      y := SafePass(x, drop, s, k);
    }

    /** RB_FOREACH_SAFE, with a body that removes the nodes in drop from the tree when it comes to them. */
    method ForeachSafe(drop: set<Node<K>>) returns (visited: seq<Node<K>>)
      requires Valid()
      modifies this, mem.Keys
      ensures Valid() && visited == old(Order()) && Order() == Without(old(Order()), drop)
    {
      ghost var s, k := Order(), 0;
      visited := [];
      var x := MinMax(-1);
      SafeStart(x, drop);
      while x != null
        invariant mem.Keys <= old(mem.Keys) && SafeAt(x, drop, visited, s, k)
        decreases |s| - k
      {
        x, visited := SafeVisit(x, drop, visited, s, k);
        k := k + 1;
      }
      SafeEnd(drop, visited, s, k);
    }

    lemma SafeStart(x: Node?<K>, drop: set<Node<K>>)
      requires Valid() && x == At(Order(), 0)
      ensures SafeAt(x, drop, [], Order(), 0)
    {
      DroppingEnds(Order(), drop);
    }

    lemma SafeEnd(drop: set<Node<K>>, visited: seq<Node<K>>, s: seq<Node<K>>, k: nat)
      requires SafeAt(null, drop, visited, s, k)
      ensures visited == s && Order() == Without(s, drop)
    {
      DroppingEnds(s, drop);
    }

    /** Whatever was inserted and removed before: the height h of a tree of n nodes has 2^h <= (n + 1)^2. */
    lemma Balanced()
      requires Valid()
      ensures Pow2(Height(tree)) <= (|Order()| + 1) * (|Order()| + 1)
    {
      HeightBound(tree);
    }

    method RemoveAt(elm: Node<K>, ghost p: Path<Node<K>>, ghost t: Tree<Node<K>>)
      requires Shape() && Focus(mem, root, p, t, elm) && RbAt(p, t)
      requires Order() == (Before(p) + InOrder(t.l)) + [elm] + (InOrder(t.r) + After(p))
      modifies this, mem.Keys
      ensures Shape() && Order() == (Before(p) + InOrder(t.l)) + (InOrder(t.r) + After(p))
      ensures mem.Keys == old(mem.Keys) - {elm}
    {
      ghost var t0 := tree;
      OnlyOnce(p, t);
      ghost var t' := Detach(elm, p, t);
      NodesWith(t', t0, Before(p) + InOrder(t.l), elm, InOrder(t.r) + After(p));
      NodesInOrder(t');
      tree := t';
      Forget(elm);
    }

    method Detach(elm: Node<K>, ghost p: Path<Node<K>>, ghost t: Tree<Node<K>>) returns (ghost t': Tree<Node<K>>)
      requires Holds() && Focus(mem, root, p, t, elm) && RbAt(p, t)
      modifies this, mem.Keys
      ensures Holds() && mem.Keys == old(mem.Keys) && Focus(mem, root, Top, t', root) && RedBlack(t')
      ensures InOrder(t') == (Before(p) + InOrder(t.l)) + (InOrder(t.r) + After(p))
    {
      Down(mem, root, p, t, elm);
      if elm.left == null || elm.right == null {
        t' := RemoveOuter(elm, p, t);
        OnlyChildOrder(p, t);
      } else {
        t' := RemoveInner(elm, p, t);
      }
    }

    /** The removed node is no longer one of the nodes of the tree. */
    ghost method Forget(elm: Node<K>)
      requires Holds() && Focus(mem, root, Top, tree, root) && elm !in Nodes(tree)
      modifies this`mem
      ensures Holds() && Focus(mem, root, Top, tree, root) && mem.Keys == old(mem.Keys) - {elm}
    {
      mem := map n | n in mem && n != elm :: mem[n];
      Frame(old(mem), mem, tree, root, null);
    }
  }
}

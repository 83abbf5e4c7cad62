/** Which red-black tree a set of linked nodes holds, and what single link writes make of it. */
module RbLinks {
  import opened TreeNode
  import opened RbModel

  /** The link fields of one node. */
  datatype Cell<K> = Cell(left: Node?<K>, right: Node?<K>, parent: Node?<K>, color: Color)

  /** The link fields of all nodes of a tree. */
  type Mem<K> = map<Node<K>, Cell<K>>

  // ---- what tree the memory holds

  /** Pointer x is the root of tree t, whose parent link is par. */
  ghost predicate Rep<K>(m: Mem<K>, t: Tree<Node<K>>, x: Node?<K>, par: Node?<K>)
    ensures Rep(m, t, x, par) ==> (x == null <==> t.Leaf?)
    ensures Rep(m, t, x, par) && x != null ==>
      x == t.n && x in Nodes(t) && x in m && m[x].parent == par && m[x].color == RootColor(t)
  {
    match t
    case Leaf => x == null
    case Br(c, l, n, r) =>
      && x == n && n in m && m[n].color == c && m[n].parent == par
      && Rep(m, l, m[n].left, n) && Rep(m, r, m[n].right, n)
  }

  ghost function Parent<K>(p: Path<Node<K>>): Node?<K> {
    if p.Top? then null else p.n
  }

  /** The nodes along and beside path p are linked, from the head down to a hole that holds pointer x. */
  ghost predicate PRep<K>(m: Mem<K>, p: Path<Node<K>>, root: Node?<K>, x: Node?<K>)
    ensures PRep(m, p, root, x) && !p.Top? ==> p.n in m && p.n in PNodes(p) && root != null && root in PNodes(p)
  {
    match p
    case Top => root == x
    case InL(up, c, n, r) =>
      && n in m && m[n].left == x && m[n].color == c && m[n].parent == Parent(up)
      && Rep(m, r, m[n].right, n) && PRep(m, up, root, n)
    case InR(up, c, l, n) =>
      && n in m && m[n].right == x && m[n].color == c && m[n].parent == Parent(up)
      && Rep(m, l, m[n].left, n) && PRep(m, up, root, n)
  }

  /** The memory holds the whole tree Plug(p, t), and pointer x is where t sits. */
  ghost predicate Focus<K>(m: Mem<K>, root: Node?<K>, p: Path<Node<K>>, t: Tree<Node<K>>, x: Node?<K>) {
    Rep(m, t, x, Parent(p)) && PRep(m, p, root, x) && ZSep(p, t)
  }

  /** Both memories have the same cells for the nodes in s. */
  ghost predicate Same<K>(m: Mem<K>, m': Mem<K>, s: set<Node<K>>) {
    forall n :: n in s && n in m ==> n in m' && m'[n] == m[n]
  }

  lemma {:induction false} Frame<K>(m: Mem<K>, m': Mem<K>, t: Tree<Node<K>>, x: Node?<K>, par: Node?<K>)
    requires Rep(m, t, x, par) && Same(m, m', Nodes(t))
    ensures Rep(m', t, x, par)
  {
    if t.Br? {
      Frame(m, m', t.l, m[x].left, x);
      Frame(m, m', t.r, m[x].right, x);
    }
  }

  lemma {:induction false} PathFrame<K>(m: Mem<K>, m': Mem<K>, p: Path<Node<K>>, root: Node?<K>, x: Node?<K>)
    requires PRep(m, p, root, x) && Same(m, m', PNodes(p))
    ensures PRep(m', p, root, x)
    decreases p
  {
    match p
    case Top =>
    case InL(up, _, n, r) =>
      Frame(m, m', r, m[n].right, n);
      PathFrame(m, m', up, root, n);
    case InR(up, _, l, n) =>
      Frame(m, m', l, m[n].left, n);
      PathFrame(m, m', up, root, n);
  }

  // ---- moving the focus

  lemma Up<K>(m: Mem<K>, root: Node?<K>, p: Path<Node<K>>, t: Tree<Node<K>>, x: Node?<K>)
    requires Focus(m, root, p, t, x) && !p.Top?
    ensures Focus(m, root, p.up, Filled(p, t), p.n)
    ensures Whole(p.up, Filled(p, t)) == Whole(p, t)
  {
    SepUp(p, t);
    WholeDown(p.up, Filled(p, t));
  }

  lemma Down<K>(m: Mem<K>, root: Node?<K>, p: Path<Node<K>>, t: Tree<Node<K>>, x: Node?<K>)
    requires Focus(m, root, p, t, x) && t.Br?
    ensures x in m && Focus(m, root, InL(p, t.c, t.n, t.r), t.l, m[x].left)
    ensures Focus(m, root, InR(p, t.c, t.l, t.n), t.r, m[x].right)
    ensures Whole(InL(p, t.c, t.n, t.r), t.l) == Whole(p, t) == Whole(InR(p, t.c, t.l, t.n), t.r)
  {
    SepDown(p, t);
    WholeDown(p, t);
  }

  /** The focus can be moved up to the root. */
  lemma {:induction false} UpToRoot<K>(m: Mem<K>, root: Node?<K>, p: Path<Node<K>>, t: Tree<Node<K>>, x: Node?<K>)
    requires Focus(m, root, p, t, x)
    ensures Focus(m, root, Top, Plug(p, t), root) && InOrder(Plug(p, t)) == Whole(p, t)
    decreases p
  {
    PlugInOrder(p, t);
    if !p.Top? {
      Up(m, root, p, t, x);
      UpToRoot(m, root, p.up, Filled(p, t), p.n);
    }
  }

  /** The pointer in the hole of path p. */
  ghost function Hole<K>(m: Mem<K>, root: Node?<K>, p: Path<Node<K>>): Node?<K>
    requires !p.Top? ==> p.n in m
  {
    if p.Top? then root else if p.InL? then m[p.n].left else m[p.n].right
  }

  lemma {:induction false} JoinUp<K>(m: Mem<K>, root: Node?<K>, rel: Path<Node<K>>, b: Path<Node<K>>,
      t: Tree<Node<K>>, x: Node?<K>)
    requires Focus(m, root, Join(rel, b), t, x)
    ensures !b.Top? ==> b.n in m
    ensures Focus(m, root, b, Plug(rel, t), Hole(m, root, b))
    decreases rel
  {
    if !rel.Top? {
      Up(m, root, Join(rel, b), t, x);
      JoinUp(m, root, rel.up, b, Filled(rel, t), rel.n);
    }
  }

  lemma {:induction false} JoinDown<K>(m: Mem<K>, root: Node?<K>, rel: Path<Node<K>>, b: Path<Node<K>>,
      t: Tree<Node<K>>, x: Node?<K>)
    requires Focus(m, root, b, Plug(rel, t), x)
    ensures !Join(rel, b).Top? ==> Join(rel, b).n in m
    ensures Focus(m, root, Join(rel, b), t, Hole(m, root, Join(rel, b)))
    decreases rel
  {
    if !rel.Top? {
      JoinDown(m, root, rel.up, b, Filled(rel, t), x);
      Down(m, root, Join(rel.up, b), Filled(rel, t), rel.n);
    }
  }

  /** A node of the tree can be brought into focus. */
  lemma {:induction false} Locate<K>(m: Mem<K>, root: Node?<K>, p: Path<Node<K>>, t: Tree<Node<K>>, x: Node?<K>,
      elm: Node<K>)
    returns (p': Path<Node<K>>, t': Tree<Node<K>>)
    requires Focus(m, root, p, t, x) && RbAt(p, t) && elm in Nodes(t)
    ensures Focus(m, root, p', t', elm) && RbAt(p', t') && t'.Br? && t'.n == elm && Whole(p', t') == Whole(p, t)
    decreases t
  {
    if t.n == elm {
      return p, t;
    }
    Down(m, root, p, t, x);
    RbDown(p, t);
    if elm in Nodes(t.l) {
      p', t' := Locate(m, root, InL(p, t.c, t.n, t.r), t.l, m[x].left, elm);
    } else {
      p', t' := Locate(m, root, InR(p, t.c, t.l, t.n), t.r, m[x].right, elm);
    }
  }

  // ---- local changes

  lemma Paint<K>(m: Mem<K>, root: Node?<K>, p: Path<Node<K>>, t: Tree<Node<K>>, x: Node<K>, c: Color)
    requires Focus(m, root, p, t, x)
    ensures Focus(m[x := m[x].(color := c)], root, p, t.(c := c), x)
  {
    var m' := m[x := m[x].(color := c)];
    Frame(m, m', t.l, m[x].left, x);
    Frame(m, m', t.r, m[x].right, x);
    PathFrame(m, m', p, root, x);
  }

  ghost function Reparent<K>(m: Mem<K>, x: Node?<K>, par: Node?<K>): Mem<K>
    requires x != null ==> x in m
  {
    if x == null then m else m[x := m[x].(parent := par)]
  }

  lemma ReparentRep<K>(m: Mem<K>, t: Tree<Node<K>>, x: Node?<K>, par: Node?<K>, par': Node?<K>)
    requires Rep(m, t, x, par) && Sep(t)
    ensures Rep(Reparent(m, x, par'), t, x, par')
  {
    if t.Br? {
      Frame(m, Reparent(m, x, par'), t.l, m[x].left, x);
      Frame(m, Reparent(m, x, par'), t.r, m[x].right, x);
    }
  }

  /** The pointer to the hole of p is replaced by y; without a parent that pointer is the root of the head. */
  ghost function Relink<K>(m: Mem<K>, p: Path<Node<K>>, y: Node?<K>): Mem<K>
    requires !p.Top? ==> p.n in m
  {
    match p
    case Top => m
    case InL(_, _, n, _) => m[n := m[n].(left := y)]
    case InR(_, _, _, n) => m[n := m[n].(right := y)]
  }

  ghost function NewRoot<K>(root: Node?<K>, p: Path<Node<K>>, y: Node?<K>): Node?<K> {
    if p.Top? then y else root
  }

  lemma RelinkPath<K>(m: Mem<K>, root: Node?<K>, p: Path<Node<K>>, x: Node?<K>, y: Node?<K>)
    requires PRep(m, p, root, x) && PSep(p)
    ensures PRep(Relink(m, p, y), p, NewRoot(root, p, y), y)
  {
    var m' := Relink(m, p, y);
    match p
    case Top =>
    case InL(up, _, n, r) =>
      Frame(m, m', r, m[n].right, n);
      PathFrame(m, m', up, root, n);
    case InR(up, _, l, n) =>
      Frame(m, m', l, m[n].left, n);
      PathFrame(m, m', up, root, n);
  }

  /** A new red leaf hung into an empty hole. */
  lemma HangLeaf<K>(m: Mem<K>, root: Node?<K>, p: Path<Node<K>>, elm: Node<K>)
    requires Focus(m, root, p, Leaf, null) && elm !in PNodes(p)
    ensures !p.Top? ==> p.n in m
    ensures var m1 := m[elm := Cell(null, null, Parent(p), Red)];
      Focus(Relink(m1, p, elm), NewRoot(root, p, elm), p, Br(Red, Leaf, elm, Leaf), elm)
  {
    var m1 := m[elm := Cell(null, null, Parent(p), Red)];
    PathFrame(m, m1, p, root, null);
    RelinkPath(m1, root, p, null, elm);
  }

  /** A node with at most one child is cut out: its child takes its place. */
  lemma CutOutFocus<K>(m: Mem<K>, root: Node?<K>, p: Path<Node<K>>, t: Tree<Node<K>>, elm: Node<K>)
    requires Focus(m, root, p, t, elm) && (t.l.Leaf? || t.r.Leaf?)
    ensures elm in m && elm !in Nodes(OnlyChild(t)) && elm !in PNodes(p) && (!p.Top? ==> p.n in m)
    ensures var u := if t.l.Leaf? then m[elm].right else m[elm].left;
      && (u != null ==> u in m)
      && Focus(Relink(Reparent(m, u, Parent(p)), p, u), NewRoot(root, p, u), p, OnlyChild(t), u)
  {
    var u := if t.l.Leaf? then m[elm].right else m[elm].left;
    var m1 := Reparent(m, u, Parent(p));
    ReparentRep(m, OnlyChild(t), u, elm, Parent(p));
    PathFrame(m, m1, p, root, elm);
    RelinkPath(m1, root, p, elm, u);
    Frame(m1, Relink(m1, p, u), OnlyChild(t), u, Parent(p));
  }

  /** Node elm takes over all links of old. */
  ghost function TakeOverMem<K>(m: Mem<K>, p: Path<Node<K>>, old': Node<K>, elm: Node<K>): Mem<K>
    requires elm in m && old' in m && (!p.Top? ==> p.n in m)
    requires (m[old'].left != null ==> m[old'].left in m) && (m[old'].right != null ==> m[old'].right in m)
  {
    var m1 := Relink(m[elm := m[old']], p, elm);
    Reparent(Reparent(m1, m[old'].left, elm), m[old'].right, elm)
  }

  lemma TakeOverFocus<K>(m: Mem<K>, root: Node?<K>, p: Path<Node<K>>, t: Tree<Node<K>>, old': Node<K>, elm: Node<K>)
    requires Focus(m, root, p, t, old') && elm in m && elm !in Nodes(t) && elm !in PNodes(p)
    ensures old' in m && (!p.Top? ==> p.n in m)
    ensures (m[old'].left != null ==> m[old'].left in m) && (m[old'].right != null ==> m[old'].right in m)
    ensures Focus(TakeOverMem(m, p, old', elm), NewRoot(root, p, elm), p, t.(n := elm), elm)
  {
    var a, b := m[old'].left, m[old'].right;
    var m' := TakeOverMem(m, p, old', elm);
    ReparentRep(m, t.l, a, old', elm);
    Frame(Reparent(m, a, elm), m', t.l, a, elm);
    ReparentRep(m, t.r, b, old', elm);
    Frame(Reparent(m, b, elm), m', t.r, b, elm);
    TakeOverPath(m, root, p, t, old', elm);
  }

  /** Whatever takes over is not on the path, and the path above changes at its last link only. */
  lemma TakeOverPath<K>(m: Mem<K>, root: Node?<K>, p: Path<Node<K>>, t: Tree<Node<K>>, old': Node<K>, elm: Node<K>)
    requires Focus(m, root, p, t, old') && elm in m && elm !in Nodes(t) && elm !in PNodes(p)
    requires old' in m && (!p.Top? ==> p.n in m)
    requires (m[old'].left != null ==> m[old'].left in m) && (m[old'].right != null ==> m[old'].right in m)
    ensures PRep(TakeOverMem(m, p, old', elm), p, NewRoot(root, p, elm), elm)
  {
    assert Rep(m, t.l, m[old'].left, old') && Rep(m, t.r, m[old'].right, old');
    RelinkPath(m, root, p, old', elm);
    PathFrame(Relink(m, p, elm), TakeOverMem(m, p, old', elm), p, NewRoot(root, p, elm), elm);
  }

  // ---- rotations

  /** The two links that hand the left child of tmp over to elm. */
  ghost function HandOverLeft<K>(m: Mem<K>, elm: Node<K>, tmp: Node<K>): Mem<K>
    requires elm in m && tmp in m && (m[tmp].left != null ==> m[tmp].left in m)
  {
    Reparent(m[elm := m[elm].(right := m[tmp].left)], m[tmp].left, elm)
  }

  ghost function HandOverRight<K>(m: Mem<K>, elm: Node<K>, tmp: Node<K>): Mem<K>
    requires elm in m && tmp in m && (m[tmp].right != null ==> m[tmp].right in m)
  {
    Reparent(m[elm := m[elm].(left := m[tmp].right)], m[tmp].right, elm)
  }

  /** The two links that put tmp in the place of elm below path p. */
  ghost function TakePlace<K>(m: Mem<K>, p: Path<Node<K>>, elm: Node<K>, tmp: Node<K>): Mem<K>
    requires elm in m && tmp in m && (!p.Top? ==> p.n in m)
  {
    Relink(m[tmp := m[tmp].(parent := m[elm].parent)], p, tmp)
  }

  /** The parent of elm, if any, is at the end of path p and is neither tmp nor the child b that changes hands. */
  ghost predicate Hangs<K>(m: Mem<K>, p: Path<Node<K>>, elm: Node<K>, tmp: Node?<K>, b: Node?<K>)
    requires elm in m
  {
    && m[elm].parent == Parent(p)
    && (!p.Top? ==> p.n in m && p.n != elm && p.n != tmp && p.n != b && (p.InL? <==> m[p.n].left == elm))
  }

  ghost predicate CanRotL<K>(m: Mem<K>, p: Path<Node<K>>, elm: Node<K>)
    requires elm in m
  {
    var tmp := m[elm].right;
    && tmp in m && tmp != elm && Hangs(m, p, elm, tmp, m[tmp].left)
    && m[tmp].left != elm && m[tmp].left != tmp && (m[tmp].left != null ==> m[tmp].left in m)
  }

  ghost predicate CanRotR<K>(m: Mem<K>, p: Path<Node<K>>, elm: Node<K>)
    requires elm in m
  {
    var tmp := m[elm].left;
    && tmp in m && tmp != elm && Hangs(m, p, elm, tmp, m[tmp].right)
    && m[tmp].right != elm && m[tmp].right != tmp && (m[tmp].right != null ==> m[tmp].right in m)
  }

  /** The memory after a left rotation at elm. */
  ghost function RotLMem<K>(m: Mem<K>, p: Path<Node<K>>, elm: Node<K>): Mem<K>
    requires elm in m && CanRotL(m, p, elm)
  {
    var tmp := m[elm].right;
    var m1 := TakePlace(HandOverLeft(m, elm, tmp), p, elm, tmp);
    var m2 := m1[tmp := m1[tmp].(left := elm)];
    m2[elm := m2[elm].(parent := tmp)]
  }

  ghost function RotRMem<K>(m: Mem<K>, p: Path<Node<K>>, elm: Node<K>): Mem<K>
    requires elm in m && CanRotR(m, p, elm)
  {
    var tmp := m[elm].left;
    var m1 := TakePlace(HandOverRight(m, elm, tmp), p, elm, tmp);
    var m2 := m1[tmp := m1[tmp].(right := elm)];
    m2[elm := m2[elm].(parent := tmp)]
  }

  lemma LeftRotatable<K>(m: Mem<K>, root: Node?<K>, p: Path<Node<K>>, t: Tree<Node<K>>, elm: Node<K>)
    requires Focus(m, root, p, t, elm) && t.r.Br?
    ensures elm in m && CanRotL(m, p, elm) && m[elm].right == t.r.n
  {
    RotLKeeps(p, t);
    assert Rep(m, t.r, m[elm].right, elm) && Rep(m, t.r.l, m[t.r.n].left, t.r.n);
  }

  lemma RightRotatable<K>(m: Mem<K>, root: Node?<K>, p: Path<Node<K>>, t: Tree<Node<K>>, elm: Node<K>)
    requires Focus(m, root, p, t, elm) && t.l.Br?
    ensures elm in m && CanRotR(m, p, elm) && m[elm].left == t.l.n
  {
    RotRKeeps(p, t);
    assert Rep(m, t.l, m[elm].left, elm) && Rep(m, t.l.r, m[t.l.n].right, t.l.n);
  }

  lemma RotLTree<K>(m: Mem<K>, root: Node?<K>, p: Path<Node<K>>, t: Tree<Node<K>>, elm: Node<K>)
    requires Focus(m, root, p, t, elm) && t.r.Br? && elm in m && CanRotL(m, p, elm)
    ensures Rep(RotLMem(m, p, elm), RotL(t), t.r.n, Parent(p))
  {
    var tmp, b := t.r.n, t.r.l;
    var m', u := RotLMem(m, p, elm), m[tmp].left;
    RotLKeeps(p, t);
    assert Rep(m, t.r, m[elm].right, elm) && Rep(m, b, u, tmp);
    Frame(m, m', t.l, m[elm].left, elm);
    Frame(m, m', t.r.r, m[tmp].right, tmp);
    ReparentRep(m, b, u, tmp, elm);
    Frame(Reparent(m, u, elm), m', b, u, elm);
  }

  lemma RotRTree<K>(m: Mem<K>, root: Node?<K>, p: Path<Node<K>>, t: Tree<Node<K>>, elm: Node<K>)
    requires Focus(m, root, p, t, elm) && t.l.Br? && elm in m && CanRotR(m, p, elm)
    ensures Rep(RotRMem(m, p, elm), RotR(t), t.l.n, Parent(p))
  {
    var tmp, b := t.l.n, t.l.r;
    var m', u := RotRMem(m, p, elm), m[tmp].right;
    RotRKeeps(p, t);
    assert Rep(m, t.l, m[elm].left, elm) && Rep(m, b, u, tmp);
    Frame(m, m', t.r, m[elm].right, elm);
    Frame(m, m', t.l.l, m[tmp].left, tmp);
    ReparentRep(m, b, u, tmp, elm);
    Frame(Reparent(m, u, elm), m', b, u, elm);
  }

  /** A rotation touches the path above it at its last link only. */
  lemma RotPath<K>(m: Mem<K>, m': Mem<K>, root: Node?<K>, p: Path<Node<K>>, elm: Node<K>, tmp: Node<K>)
    requires PRep(m, p, root, elm) && PSep(p) && Same(Relink(m, p, tmp), m', PNodes(p))
    ensures PRep(m', p, NewRoot(root, p, tmp), tmp)
  {
    RelinkPath(m, root, p, elm, tmp);
    PathFrame(Relink(m, p, tmp), m', p, NewRoot(root, p, tmp), tmp);
  }

  lemma RotateLeftFocus<K>(m: Mem<K>, root: Node?<K>, p: Path<Node<K>>, t: Tree<Node<K>>, elm: Node<K>)
    requires Focus(m, root, p, t, elm) && t.r.Br? && elm in m && CanRotL(m, p, elm)
    ensures Focus(RotLMem(m, p, elm), NewRoot(root, p, t.r.n), p, RotL(t), t.r.n)
  {
    RotLKeeps(p, t);
    RotLTree(m, root, p, t, elm);
    assert Rep(m, t.r, m[elm].right, elm) && Rep(m, t.r.l, m[t.r.n].left, t.r.n);
    RotPath(m, RotLMem(m, p, elm), root, p, elm, t.r.n);
  }

  lemma RotateRightFocus<K>(m: Mem<K>, root: Node?<K>, p: Path<Node<K>>, t: Tree<Node<K>>, elm: Node<K>)
    requires Focus(m, root, p, t, elm) && t.l.Br? && elm in m && CanRotR(m, p, elm)
    ensures Focus(RotRMem(m, p, elm), NewRoot(root, p, t.l.n), p, RotR(t), t.l.n)
  {
    RotRKeeps(p, t);
    RotRTree(m, root, p, t, elm);
    assert Rep(m, t.l, m[elm].left, elm) && Rep(m, t.l.r, m[t.l.n].right, t.l.n);
    RotPath(m, RotRMem(m, p, elm), root, p, elm, t.l.n);
  }
}

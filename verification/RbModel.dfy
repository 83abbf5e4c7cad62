/** Red-black trees as values: the shape, the colours and the fix-up steps, without pointers. */
module RbModel {
  import opened TreeNode

  datatype Tree<N> = Leaf | Br(c: Color, l: Tree<N>, n: N, r: Tree<N>)

  /** The way from the root down to a hole: each step keeps what lies beside it. */
  datatype Path<N> =
    | Top
    | InL(up: Path<N>, c: Color, n: N, r: Tree<N>)
    | InR(up: Path<N>, c: Color, l: Tree<N>, n: N)

  ghost function Plug<N>(p: Path<N>, t: Tree<N>): Tree<N>
    decreases p
  {
    match p
    case Top => t
    case InL(up, c, n, r) => Plug(up, Br(c, t, n, r))
    case InR(up, c, l, n) => Plug(up, Br(c, l, n, t))
  }

  // ---- in-order sequences

  ghost function InOrder<N>(t: Tree<N>): seq<N> {
    match t
    case Leaf => []
    case Br(_, l, n, r) => InOrder(l) + [n] + InOrder(r)
  }

  ghost function Before<N>(p: Path<N>): seq<N> {
    match p
    case Top => []
    case InL(up, _, _, _) => Before(up)
    case InR(up, _, l, n) => Before(up) + InOrder(l) + [n]
  }

  ghost function After<N>(p: Path<N>): seq<N> {
    match p
    case Top => []
    case InL(up, _, n, r) => [n] + InOrder(r) + After(up)
    case InR(up, _, _, _) => After(up)
  }

  /** The in-order sequence of the whole tree, seen from a hole filled with t. */
  ghost function Whole<N>(p: Path<N>, t: Tree<N>): seq<N> {
    Before(p) + InOrder(t) + After(p)
  }

  lemma WholeDown<N>(p: Path<N>, t: Tree<N>)
    requires t.Br?
    ensures Whole(InL(p, t.c, t.n, t.r), t.l) == Whole(p, t) == Whole(InR(p, t.c, t.l, t.n), t.r)
  {
  }

  lemma {:induction false} PlugInOrder<N>(p: Path<N>, t: Tree<N>)
    ensures InOrder(Plug(p, t)) == Whole(p, t)
    decreases p
  {
    match p
    case Top =>
      assert [] + InOrder(t) + [] == InOrder(t);
    case InL(up, c, n, r) =>
      PlugInOrder(up, Br(c, t, n, r));
      WholeDown(up, Br(c, t, n, r));
    case InR(up, c, l, n) =>
      PlugInOrder(up, Br(c, l, n, t));
      WholeDown(up, Br(c, l, n, t));
  }

  /** What lies before and after a node in focus. */
  lemma FocusSplit<N>(p: Path<N>, t: Tree<N>)
    requires t.Br?
    ensures Whole(p, t) == (Before(p) + InOrder(t.l)) + [t.n] + (InOrder(t.r) + After(p))
    ensures After(InL(p, t.c, t.n, t.r)) == [t.n] + (InOrder(t.r) + After(p))
    ensures Before(InR(p, t.c, t.l, t.n)) == (Before(p) + InOrder(t.l)) + [t.n]
  {
  }

  // ---- node sets

  ghost function Nodes<N>(t: Tree<N>): set<N> {
    match t
    case Leaf => {}
    case Br(_, l, n, r) => Nodes(l) + {n} + Nodes(r)
  }

  ghost function PNodes<N>(p: Path<N>): set<N> {
    match p
    case Top => {}
    case InL(up, _, n, r) => PNodes(up) + {n} + Nodes(r)
    case InR(up, _, l, n) => PNodes(up) + {n} + Nodes(l)
  }

  ghost predicate Sep<N>(t: Tree<N>) {
    t.Br? ==> Sep(t.l) && Sep(t.r) && t.n !in Nodes(t.l) && t.n !in Nodes(t.r) && Nodes(t.l) !! Nodes(t.r)
  }

  ghost predicate PSep<N>(p: Path<N>) {
    match p
    case Top => true
    case InL(up, _, n, r) => PSep(up) && Sep(r) && n !in PNodes(up) && n !in Nodes(r) && PNodes(up) !! Nodes(r)
    case InR(up, _, l, n) => PSep(up) && Sep(l) && n !in PNodes(up) && n !in Nodes(l) && PNodes(up) !! Nodes(l)
  }

  /** No node occurs twice in the tree that t completes. */
  ghost predicate ZSep<N>(p: Path<N>, t: Tree<N>) {
    PSep(p) && Sep(t) && PNodes(p) !! Nodes(t)
  }

  /** The tree and the path that are left when a hole is filled one step up. */
  ghost function Filled<N>(p: Path<N>, t: Tree<N>): Tree<N>
    requires !p.Top?
  {
    match p
    case InL(_, c, n, r) => Br(c, t, n, r)
    case InR(_, c, l, n) => Br(c, l, n, t)
  }

  lemma SepUp<N>(p: Path<N>, t: Tree<N>)
    requires ZSep(p, t) && !p.Top?
    ensures ZSep(p.up, Filled(p, t))
    ensures p.n !in PNodes(p.up) && p.n !in Nodes(t)
  {
    assert Nodes(Filled(p, t)) <= Nodes(t) + PNodes(p);
  }

  lemma SepDown<N>(p: Path<N>, t: Tree<N>)
    requires ZSep(p, t) && t.Br?
    ensures ZSep(InL(p, t.c, t.n, t.r), t.l) && ZSep(InR(p, t.c, t.l, t.n), t.r)
  {
  }

  // ---- rotations

  ghost function RotL<N>(t: Tree<N>): Tree<N>
    requires t.Br? && t.r.Br?
  {
    Br(t.r.c, Br(t.c, t.l, t.n, t.r.l), t.r.n, t.r.r)
  }

  ghost function RotR<N>(t: Tree<N>): Tree<N>
    requires t.Br? && t.l.Br?
  {
    Br(t.l.c, t.l.l, t.l.n, Br(t.c, t.l.r, t.n, t.r))
  }

  lemma RotRKeeps<N>(p: Path<N>, t: Tree<N>)
    requires t.Br? && t.l.Br?
    ensures Whole(p, RotR(t)) == Whole(p, t)
    ensures ZSep(p, t) <==> ZSep(p, RotR(t))
    ensures ZSep(p, t) ==> Sep(t.l) && Sep(RotR(t).r)
    ensures Nodes(t) == Nodes(RotR(t)) == Nodes(t.l.l) + {t.l.n} + Nodes(t.l.r) + {t.n} + Nodes(t.r)
  {
    assert Nodes(t.l) == Nodes(t.l.l) + {t.l.n} + Nodes(t.l.r);
    assert Nodes(RotR(t).r) == Nodes(t.l.r) + {t.n} + Nodes(t.r);
    assert InOrder(RotR(t)) == InOrder(t);
    assert Sep(t) ==> Sep(t.l) && Sep(RotR(t).r);
    assert Sep(RotR(t)) ==> Sep(t.l) && Sep(RotR(t).r);
  }

  lemma RotLKeeps<N>(p: Path<N>, t: Tree<N>)
    requires t.Br? && t.r.Br?
    ensures Whole(p, RotL(t)) == Whole(p, t)
    ensures ZSep(p, t) <==> ZSep(p, RotL(t))
    ensures ZSep(p, t) ==> Sep(t.r) && Sep(RotL(t).l)
    ensures Nodes(t) == Nodes(RotL(t)) == Nodes(t.l) + {t.n} + Nodes(t.r.l) + {t.r.n} + Nodes(t.r.r)
  {
    RotRKeeps(p, RotL(t));
  }

  // ---- red-black invariants

  ghost function RootColor<N>(t: Tree<N>): Color {
    if t.Br? then t.c else Black
  }

  /** Black nodes on a way down to a leaf. */
  ghost function BH<N>(t: Tree<N>): nat {
    if t.Leaf? then 0 else BH(t.l) + if t.c == Black then 1 else 0
  }

  /** Every way down from t passes the same number of black nodes. */
  ghost predicate Bal<N>(t: Tree<N>) {
    t.Br? ==> Bal(t.l) && Bal(t.r) && BH(t.l) == BH(t.r)
  }

  /** No red node has a red child. */
  ghost predicate NoRR<N>(t: Tree<N>) {
    t.Br? ==> NoRR(t.l) && NoRR(t.r) && (t.c == Red ==> RootColor(t.l) == Black && RootColor(t.r) == Black)
  }

  /** What a red-black tree is: black root, no red-red edge, equal black heights. */
  ghost predicate RedBlack<N>(t: Tree<N>) {
    RootColor(t) == Black && NoRR(t) && Bal(t)
  }

  /** The path balances a hole of black height h. */
  ghost predicate PBal<N>(p: Path<N>, h: nat) {
    match p
    case Top => true
    case InL(up, c, _, r) => Bal(r) && BH(r) == h && PBal(up, h + if c == Black then 1 else 0)
    case InR(up, c, l, _) => Bal(l) && BH(l) == h && PBal(up, h + if c == Black then 1 else 0)
  }

  /** The colour a hole has above it; the root may not be red, as if the head were red. */
  ghost function PColor<N>(p: Path<N>): Color {
    if p.Top? then Red else p.c
  }

  ghost predicate PNoRR<N>(p: Path<N>) {
    match p
    case Top => true
    case InL(up, c, _, r) => NoRR(r) && (c == Red ==> RootColor(r) == Black && PColor(up) == Black) && PNoRR(up)
    case InR(up, c, l, _) => NoRR(l) && (c == Red ==> RootColor(l) == Black && PColor(up) == Black) && PNoRR(up)
  }

  lemma {:induction false} PlugRedBlack<N>(p: Path<N>, t: Tree<N>)
    requires Bal(t) && NoRR(t) && PBal(p, BH(t)) && PNoRR(p)
    requires RootColor(t) == Black || PColor(p) == Black
    ensures RedBlack(Plug(p, t))
    decreases p
  {
    match p
    case Top =>
    case InL(up, c, n, r) => PlugRedBlack(up, Br(c, t, n, r));
    case InR(up, c, l, n) => PlugRedBlack(up, Br(c, l, n, t));
  }

  /** The whole tree is red-black, seen from a place in it. */
  ghost predicate RbAt<N>(p: Path<N>, t: Tree<N>) {
    && Bal(t) && NoRR(t) && PBal(p, BH(t)) && PNoRR(p)
    && (RootColor(t) == Black || PColor(p) == Black)
  }

  lemma RbDown<N>(p: Path<N>, t: Tree<N>)
    requires RbAt(p, t) && t.Br?
    ensures RbAt(InL(p, t.c, t.n, t.r), t.l) && RbAt(InR(p, t.c, t.l, t.n), t.r)
  {
  }

  ghost function Sibling<N>(p: Path<N>): Tree<N>
    requires !p.Top?
  {
    if p.InL? then p.r else p.l
  }

  lemma PathStep<N>(p: Path<N>, h: nat)
    requires !p.Top? && PBal(p, h) && PNoRR(p)
    ensures Bal(Sibling(p)) && NoRR(Sibling(p)) && BH(Sibling(p)) == h
    ensures PBal(p.up, h + if p.c == Black then 1 else 0) && PNoRR(p.up)
    ensures p.c == Red ==> RootColor(Sibling(p)) == Black && PColor(p.up) == Black
  {
  }

  // ---- insertion: t is a red node whose parent may be red too

  ghost predicate InsertInv<N>(p: Path<N>, t: Tree<N>) {
    t.Br? && t.c == Red && Bal(t) && NoRR(t) && PBal(p, BH(t)) && PNoRR(p)
  }

  ghost function Depth<N>(p: Path<N>): nat {
    if p.Top? then 0 else 1 + Depth(p.up)
  }

  /** A red parent has a parent, which is black. */
  lemma RedParent<N>(p: Path<N>, t: Tree<N>)
    requires InsertInv(p, t) && !p.Top? && p.c == Red
    ensures !p.up.Top? && p.up.c == Black
  {
  }

  ghost function Recolored<N>(t: Tree<N>): Tree<N>
    requires t.Br? && t.l.Br? && t.r.Br?
  {
    Br(Red, t.l.(c := Black), t.n, t.r.(c := Black))
  }

  lemma RecolorInv<N>(p: Path<N>, t: Tree<N>)
    requires InsertInv(p, t) && !p.Top? && p.c == Red
    requires !p.up.Top? && RootColor(Sibling(p.up)) == Red
    ensures InsertInv(p.up.up, Recolored(Filled(p.up, Filled(p, t))))
  {
    PathStep(p, BH(t));
    PathStep(p.up, BH(t));
  }

  /** Rotating the grandparent right lifts the parent, painted black, over the grandparent, painted red. */
  lemma InsertRotateRight<N>(p: Path<N>, t: Tree<N>)
    requires InsertInv(p, t) && p.InL? && p.c == Red && p.up.InL? && RootColor(p.up.r) == Black
    ensures InsertInv(InL(p.up.up, Black, p.n, Br(Red, p.r, p.up.n, p.up.r)), t)
  {
    PathStep(p, BH(t));
    PathStep(p.up, BH(t));
  }

  lemma InsertRotateLeft<N>(p: Path<N>, t: Tree<N>)
    requires InsertInv(p, t) && p.InR? && p.c == Red && p.up.InR? && RootColor(p.up.l) == Black
    ensures InsertInv(InR(p.up.up, Black, Br(Red, p.up.l, p.up.n, p.l), p.n), t)
  {
    PathStep(p, BH(t));
    PathStep(p.up, BH(t));
  }

  /** Turning an inner child outward: the parent becomes the red node below. */
  lemma InsertTurnOutward<N>(p: Path<N>, t: Tree<N>)
    requires InsertInv(p, t) && !p.Top? && p.c == Red
    ensures p.InR? ==> InsertInv(InL(p.up, Red, t.n, t.r), Br(Red, p.l, p.n, t.l))
    ensures p.InL? ==> InsertInv(InR(p.up, Red, t.l, t.n), Br(Red, t.r, p.n, p.r))
  {
    PathStep(p, BH(t));
  }

  // ---- removal: every way down through t is one black node short

  ghost function Blacken<N>(t: Tree<N>): Tree<N> {
    if t.Leaf? then t else t.(c := Black)
  }

  ghost predicate RemoveInv<N>(p: Path<N>, t: Tree<N>) {
    Bal(t) && NoRR(Blacken(t)) && PBal(p, BH(t) + 1) && PNoRR(p)
  }

  /** The node that is short has a sibling. */
  lemma ShortSibling<N>(p: Path<N>, t: Tree<N>)
    requires RemoveInv(p, t) && !p.Top?
    ensures Sibling(p).Br? && BH(Sibling(p)) == BH(t) + 1 && Bal(Sibling(p)) && NoRR(Sibling(p)) && PNoRR(p.up)
    ensures PBal(p.up, BH(t) + 1 + if p.c == Black then 1 else 0)
    ensures p.c == Red ==> RootColor(Sibling(p)) == Black && PColor(p.up) == Black
    ensures RootColor(Sibling(p)) == Red ==> p.c == Black && Sibling(p).l.Br? && Sibling(p).r.Br?
    ensures RootColor(Sibling(p)) == Black ==> BH(Sibling(p).l) == BH(t)
  {
    PathStep(p, BH(t) + 1);
    assert BH(Sibling(p).l) == BH(Sibling(p).r);
  }

  /** A red sibling is rotated over the parent, which makes the new sibling black. */
  lemma RemoveRedSibling<N>(p: Path<N>, t: Tree<N>)
    requires RemoveInv(p, t) && !p.Top? && RootColor(Sibling(p)) == Red
    ensures Sibling(p).Br?
    ensures p.InL? ==> var q := InL(InL(p.up, Black, p.r.n, p.r.r), Red, p.n, p.r.l);
      RemoveInv(q, t) && RootColor(q.r) == Black && q.r.Br?
    ensures p.InR? ==> var q := InR(InR(p.up, Black, p.l.l, p.l.n), Red, p.l.r, p.n);
      RemoveInv(q, t) && RootColor(q.l) == Black && q.l.Br?
  {
    ShortSibling(p, t);
    assert Bal(Sibling(p).l) && Bal(Sibling(p).r) && NoRR(Sibling(p).l) && NoRR(Sibling(p).r);
  }

  /** With two black nephews the sibling turns red and the parent is short. */
  lemma RemoveRecolor<N>(p: Path<N>, t: Tree<N>)
    requires RemoveInv(p, t) && !p.Top? && RootColor(t) == Black && RootColor(Sibling(p)) == Black && Sibling(p).Br?
    requires RootColor(Sibling(p).l) == Black && RootColor(Sibling(p).r) == Black
    ensures p.InL? ==> RemoveInv(p.up, Br(p.c, t, p.n, p.r.(c := Red)))
    ensures p.InR? ==> RemoveInv(p.up, Br(p.c, p.l.(c := Red), p.n, t))
  {
    ShortSibling(p, t);
  }

  /** A red near nephew is turned into a red far nephew. */
  lemma RemoveTurnOutward<N>(p: Path<N>, t: Tree<N>)
    requires RemoveInv(p, t) && !p.Top? && RootColor(Sibling(p)) == Black && Sibling(p).Br?
    ensures p.InL? && RootColor(p.r.l) == Red && RootColor(p.r.r) == Black ==>
      RemoveInv(p.(r := RotR(Br(Red, p.r.l.(c := Black), p.r.n, p.r.r))), t)
    ensures p.InR? && RootColor(p.l.r) == Red && RootColor(p.l.l) == Black ==>
      RemoveInv(p.(l := RotL(Br(Red, p.l.l, p.l.n, p.l.r.(c := Black)))), t)
  {
    ShortSibling(p, t);
  }

  /** With a red far nephew one rotation makes up for the missing black node. */
  lemma RemoveLast<N>(p: Path<N>, t: Tree<N>)
    requires RemoveInv(p, t) && !p.Top? && RootColor(t) == Black && RootColor(Sibling(p)) == Black && Sibling(p).Br?
    ensures p.InL? && RootColor(p.r.r) == Red ==> RbAt(p.up, Br(p.c, Br(Black, t, p.n, p.r.l), p.r.n, Blacken(p.r.r)))
    ensures p.InR? && RootColor(p.l.l) == Red ==> RbAt(p.up, Br(p.c, Blacken(p.l.l), p.l.n, Br(Black, p.l.r, p.n, t)))
  {
    ShortSibling(p, t);
  }

  /** Cutting out a node with at most one child. */
  ghost function OnlyChild<N>(t: Tree<N>): Tree<N>
    requires t.Br?
  {
    if t.l.Leaf? then t.r else t.l
  }

  lemma CutOut<N>(p: Path<N>, t: Tree<N>)
    requires RbAt(p, t) && t.Br? && (t.l.Leaf? || t.r.Leaf?)
    ensures if t.c == Black then RemoveInv(p, OnlyChild(t)) else RbAt(p, OnlyChild(t))
  {
    assert NoRR(t.l) && NoRR(t.r);
  }

  lemma OnlyChildOrder<N>(p: Path<N>, t: Tree<N>)
    requires t.Br? && (t.l.Leaf? || t.r.Leaf?)
    ensures Whole(p, OnlyChild(t)) == (Before(p) + InOrder(t.l)) + (InOrder(t.r) + After(p))
  {
  }

  lemma OnlyOnce<N>(p: Path<N>, t: Tree<N>)
    requires ZSep(p, t) && t.Br?
    ensures t.n !in (Before(p) + InOrder(t.l)) + (InOrder(t.r) + After(p))
  {
    PNodesInOrder(p);
    NodesInOrder(t.l);
    NodesInOrder(t.r);
  }

  // ---- a path below a path

  ghost function Join<N>(rel: Path<N>, b: Path<N>): Path<N>
    decreases rel
  {
    match rel
    case Top => b
    case InL(up, c, n, r) => InL(Join(up, b), c, n, r)
    case InR(up, c, l, n) => InR(Join(up, b), c, l, n)
  }

  lemma {:induction false} JoinNodes<N>(rel: Path<N>, b: Path<N>, t: Tree<N>)
    ensures PNodes(Join(rel, b)) == PNodes(rel) + PNodes(b)
    ensures Nodes(Plug(rel, t)) == PNodes(rel) + Nodes(t)
    decreases rel
  {
    if !rel.Top? {
      JoinNodes(rel.up, b, Filled(rel, t));
    }
  }

  lemma {:induction false} JoinOrder<N>(rel: Path<N>, b: Path<N>)
    ensures Before(Join(rel, b)) == Before(b) + Before(rel)
    ensures After(Join(rel, b)) == After(rel) + After(b)
    decreases rel
  {
    if !rel.Top? {
      JoinOrder(rel.up, b);
    }
  }

  /** Going left all the way below b in a tree with the order s. */
  ghost predicate LeftBelow<N>(rel: Path<N>, b: Path<N>, t: Tree<N>, s: seq<N>) {
    RbAt(Join(rel, b), t) && Before(rel) == [] && s == Whole(rel, t)
  }

  lemma LeftBelowStep<N>(rel: Path<N>, b: Path<N>, t: Tree<N>, s: seq<N>)
    requires LeftBelow(rel, b, t, s) && t.Br?
    ensures LeftBelow(InL(rel, t.c, t.n, t.r), b, t.l, s)
  {
    RbDown(Join(rel, b), t);
    WholeDown(rel, t);
  }

  lemma {:induction false} JoinRename<N>(rel: Path<N>, p: Path<N>, c: Color, l: Tree<N>, x: N, y: N, h: nat)
    requires PBal(Join(rel, InR(p, c, l, x)), h) && PNoRR(Join(rel, InR(p, c, l, x)))
    ensures PBal(Join(rel, InR(p, c, l, y)), h) && PNoRR(Join(rel, InR(p, c, l, y)))
    ensures PColor(Join(rel, InR(p, c, l, y))) == PColor(Join(rel, InR(p, c, l, x)))
    decreases rel
  {
    if !rel.Top? {
      JoinRename(rel.up, p, c, l, x, y, h + if rel.c == Black then 1 else 0);
    }
  }

  lemma JoinEnd<N>(rel: Path<N>, b: Path<N>)
    requires PSep(Join(rel, b)) && !b.Top?
    ensures !Join(rel, b).Top? && (Join(rel, b).n == b.n <==> rel.Top?)
  {
    if !rel.Top? {
      JoinNodes(rel.up, b, Leaf);
    }
  }

  /** The order once the leftmost node of the right subtree, t.n, stands where x was. */
  lemma SuccessorOrder<N>(rel: Path<N>, p: Path<N>, c: Color, l: Tree<N>, r: Tree<N>, t: Tree<N>)
    requires Before(rel) == [] && InOrder(r) == Whole(rel, t) && t.Br? && t.l.Leaf?
    ensures Whole(Join(rel, InR(p, c, l, t.n)), t.r) == (Before(p) + InOrder(l)) + (InOrder(r) + After(p))
  {
    var b := InR(p, c, l, t.n);
    var s, m, z, w := Before(p) + InOrder(l), InOrder(t.r), After(rel), After(p);
    JoinOrder(rel, b);
    assert Before(Join(rel, b)) == s + [t.n] && After(Join(rel, b)) == z + w;
    assert InOrder(t) == [t.n] + m;
    assert Whole(rel, t) == InOrder(t) + z;
    Regroup(s, [t.n], m, z, w);
  }

  lemma Regroup<N>(s: seq<N>, x: seq<N>, m: seq<N>, z: seq<N>, w: seq<N>)
    ensures (s + x) + m + (z + w) == s + ((x + m + z) + w)
  {
    assert (x + m + z) + w == x + (m + (z + w));
    assert s + (x + (m + (z + w))) == (s + x) + (m + (z + w));
  }

  lemma {:induction false} NodesInOrder<N>(t: Tree<N>)
    ensures forall n :: n in Nodes(t) <==> n in InOrder(t)
  {
    if t.Br? {
      NodesInOrder(t.l);
      NodesInOrder(t.r);
    }
  }

  ghost function Elements<N>(s: seq<N>): set<N> {
    set n | n in s
  }

  lemma ElementsWith<N>(b: seq<N>, n: N, a: seq<N>)
    ensures Elements(b + [n] + a) == Elements(b + a) + {n}
  {
    assert forall x :: x in b + [n] + a <==> x in b || x == n || x in a;
    assert forall x :: x in b + a <==> x in b || x in a;
  }

  lemma NodesAreElements<N>(t: Tree<N>)
    ensures Nodes(t) == Elements(InOrder(t))
  {
    NodesInOrder(t);
  }

  /** One node more in the order is one node more in the tree. */
  lemma NodesWith<N>(t: Tree<N>, t': Tree<N>, b: seq<N>, n: N, a: seq<N>)
    requires InOrder(t) == b + a && InOrder(t') == b + [n] + a
    ensures Nodes(t') == Nodes(t) + {n}
  {
    NodesAreElements(t);
    NodesAreElements(t');
    ElementsWith(b, n, a);
  }

  lemma {:induction false} PNodesInOrder<N>(p: Path<N>)
    ensures forall n :: n in PNodes(p) <==> n in Before(p) || n in After(p)
    decreases p
  {
    if !p.Top? {
      PNodesInOrder(p.up);
      NodesInOrder(if p.InL? then p.r else p.l);
    }
  }

  // ---- height

  ghost function Height<N>(t: Tree<N>): nat {
    if t.Leaf? then 0 else 1 + if Height(t.l) < Height(t.r) then Height(t.r) else Height(t.l)
  }

  ghost function Pow2(n: nat): nat {
    if n == 0 then 1 else 2 * Pow2(n - 1)
  }

  lemma {:induction false} Pow2Sum(a: nat, b: nat)
    ensures Pow2(a + b) == Pow2(a) * Pow2(b)
  {
    if a > 0 {
      Pow2Sum(a - 1, b);
    }
  }

  lemma {:induction false} Pow2Monotone(a: nat, b: nat)
    requires a <= b
    ensures 1 <= Pow2(a) <= Pow2(b)
    decreases b
  {
    if b > 0 {
      Pow2Monotone(if a == b then a - 1 else a, b - 1);
    }
  }

  lemma {:induction false} BlackHeightBounds<N>(t: Tree<N>)
    requires Bal(t) && NoRR(t)
    ensures Height(t) <= 2 * BH(t) + if RootColor(t) == Red then 1 else 0
    ensures Pow2(BH(t)) <= |InOrder(t)| + 1
  {
    if t.Br? {
      BlackHeightBounds(t.l);
      BlackHeightBounds(t.r);
    }
  }

  /** A red-black tree with n nodes has height h with 2^h <= (n + 1)^2, that is h <= 2 lg (n + 1). */
  lemma HeightBound<N>(t: Tree<N>)
    requires RedBlack(t)
    ensures Pow2(Height(t)) <= (|InOrder(t)| + 1) * (|InOrder(t)| + 1)
  {
    var b, n := Pow2(BH(t)), |InOrder(t)| + 1;
    BlackHeightBounds(t);
    Pow2Monotone(Height(t), BH(t) + BH(t));
    Pow2Sum(BH(t), BH(t));
    Squares(b, n);
  }

  lemma Squares(b: nat, n: nat)
    requires b <= n
    ensures b * b <= n * n
  {
  }
}

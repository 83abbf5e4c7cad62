/** The splay tree of tree.h: every operation splays the tree in place, around a header node on the stack. */
module SplayTree {
  import opened TreeNode
  import opened OrderedSet
  import opened SplayModel

  datatype Cell<K> = Cell(left: Node?<K>, right: Node?<K>)

  type Mem<K> = map<Node<K>, Cell<K>>

  // ---- what trees the memory holds

  ghost predicate Rep<K>(m: Mem<K>, t: Tree<Node<K>>, x: Node?<K>)
    ensures Rep(m, t, x) ==> (x == null <==> t.Leaf?) && (x != null ==> x == t.n && x in m && x in Nodes(t))
  {
    match t
    case Leaf => x == null
    case Br(l, n, r) => x == n && n in m && Rep(m, l, m[n].left) && Rep(m, r, m[n].right)
  }

  /** The node whose right link is the hole of the left tree; the header if that tree is empty. */
  ghost function LEnd<K>(h: Node<K>, e: LeftEdge<Node<K>>): Node<K> {
    if e.LNil? then h else e.n
  }

  ghost function REnd<K>(h: Node<K>, e: RightEdge<Node<K>>): Node<K> {
    if e.RNil? then h else e.n
  }

  /** The left tree hangs on the right link of the header. */
  ghost predicate LRep<K>(m: Mem<K>, h: Node<K>, e: LeftEdge<Node<K>>)
    ensures LRep(m, h, e) ==> LEnd(h, e) in m && (e.LLink? ==> e.n in LNodes(e))
  {
    match e
    case LNil => h in m
    case LLink(up, l, n) => LRep(m, h, up) && n in m && m[LEnd(h, up)].right == n && Rep(m, l, m[n].left)
  }

  /** The right tree hangs on the left link of the header. */
  ghost predicate RRep<K>(m: Mem<K>, h: Node<K>, e: RightEdge<Node<K>>)
    ensures RRep(m, h, e) ==> REnd(h, e) in m && (e.RLink? ==> e.n in RNodes(e))
  {
    match e
    case RNil => h in m
    case RLink(up, n, r) => RRep(m, h, up) && n in m && m[REnd(h, up)].left == n && Rep(m, r, m[n].right)
  }

  /** The three trees of a splay in progress; x is the root of the middle one. */
  ghost predicate Parts<K>(m: Mem<K>, h: Node<K>, a: LeftEdge<Node<K>>, t: Tree<Node<K>>, b: RightEdge<Node<K>>,
      x: Node?<K>) {
    Rep(m, t, x) && LRep(m, h, a) && RRep(m, h, b) && Apart(h, a, t, b)
  }

  ghost predicate Same<K>(m: Mem<K>, m': Mem<K>, s: set<Node<K>>) {
    forall n :: n in s && n in m ==> n in m' && m'[n] == m[n]
  }

  lemma {:induction false} Frame<K>(m: Mem<K>, m': Mem<K>, t: Tree<Node<K>>, x: Node?<K>)
    requires Rep(m, t, x) && Same(m, m', Nodes(t))
    ensures Rep(m', t, x)
  {
    if t.Br? {
      Frame(m, m', t.l, m[x].left);
      Frame(m, m', t.r, m[x].right);
    }
  }

  lemma {:induction false} LFrame<K>(m: Mem<K>, m': Mem<K>, h: Node<K>, e: LeftEdge<Node<K>>)
    requires LRep(m, h, e) && Same(m, m', LNodes(e)) && h in m && h in m' && m'[h].right == m[h].right
    ensures LRep(m', h, e)
  {
    if e.LLink? {
      LFrame(m, m', h, e.up);
      Frame(m, m', e.l, m[e.n].left);
    }
  }

  lemma {:induction false} RFrame<K>(m: Mem<K>, m': Mem<K>, h: Node<K>, e: RightEdge<Node<K>>)
    requires RRep(m, h, e) && Same(m, m', RNodes(e)) && h in m && h in m' && m'[h].left == m[h].left
    ensures RRep(m', h, e)
  {
    if e.RLink? {
      RFrame(m, m', h, e.up);
      Frame(m, m', e.r, m[e.n].right);
    }
  }

  // ---- rotations and links

  ghost function RotRMem<K>(m: Mem<K>, x: Node<K>, tmp: Node<K>): Mem<K>
    requires x in m && tmp in m
  {
    var m1 := m[x := m[x].(left := m[tmp].right)];
    m1[tmp := m1[tmp].(right := x)]
  }

  ghost function RotLMem<K>(m: Mem<K>, x: Node<K>, tmp: Node<K>): Mem<K>
    requires x in m && tmp in m
  {
    var m1 := m[x := m[x].(right := m[tmp].left)];
    m1[tmp := m1[tmp].(left := x)]
  }

  lemma RotateRightParts<K>(m: Mem<K>, h: Node<K>, a: LeftEdge<Node<K>>, t: Tree<Node<K>>, b: RightEdge<Node<K>>,
      x: Node<K>)
    requires Parts(m, h, a, t, b, x) && h in m && t.l.Br?
    ensures x in m && t.l.n in m && m[x].left == t.l.n && Parts(RotRMem(m, x, t.l.n), h, a, RotR(t), b, t.l.n)
  {
    var tmp := t.l.n;
    RotRKeeps(h, a, t, b);
    assert Rep(m, t.l, m[x].left);
    var m' := RotRMem(m, x, tmp);
    assert Nodes(t.l) == Nodes(t.l.l) + {tmp} + Nodes(t.l.r);
    Frame(m, m', t.l.l, m[tmp].left);
    Frame(m, m', t.l.r, m[tmp].right);
    Frame(m, m', t.r, m[x].right);
    LFrame(m, m', h, a);
    RFrame(m, m', h, b);
  }

  lemma RotateRightWithin<K>(m: Mem<K>, h: Node<K>, a: LeftEdge<Node<K>>, t: Tree<Node<K>>, b: RightEdge<Node<K>>,
      x: Node<K>)
    requires Parts(m, h, a, t, b, x) && t.l.Br? && x in m && t.l.n in m
    ensures OnlyWithin(m, RotRMem(m, x, t.l.n), All(h, a, t, b))
    ensures All(h, a, RotR(t), b) == All(h, a, t, b) && Whole(a, RotR(t), b) == Whole(a, t, b)
  {
    RotRKeeps(h, a, t, b);
    assert t.l.n in Nodes(t.l);
  }

  lemma RotateLeftParts<K>(m: Mem<K>, h: Node<K>, a: LeftEdge<Node<K>>, t: Tree<Node<K>>, b: RightEdge<Node<K>>,
      x: Node<K>)
    requires Parts(m, h, a, t, b, x) && h in m && t.r.Br?
    ensures x in m && t.r.n in m && m[x].right == t.r.n && Parts(RotLMem(m, x, t.r.n), h, a, RotL(t), b, t.r.n)
  {
    var tmp := t.r.n;
    RotLKeeps(h, a, t, b);
    assert Rep(m, t.r, m[x].right);
    var m' := RotLMem(m, x, tmp);
    assert Nodes(t.r) == Nodes(t.r.l) + {tmp} + Nodes(t.r.r);
    Frame(m, m', t.r.l, m[tmp].left);
    Frame(m, m', t.r.r, m[tmp].right);
    Frame(m, m', t.l, m[x].left);
    LFrame(m, m', h, a);
    RFrame(m, m', h, b);
  }

  lemma RotateLeftWithin<K>(m: Mem<K>, h: Node<K>, a: LeftEdge<Node<K>>, t: Tree<Node<K>>, b: RightEdge<Node<K>>,
      x: Node<K>)
    requires Parts(m, h, a, t, b, x) && t.r.Br? && x in m && t.r.n in m
    ensures OnlyWithin(m, RotLMem(m, x, t.r.n), All(h, a, t, b))
    ensures All(h, a, RotL(t), b) == All(h, a, t, b) && Whole(a, RotL(t), b) == Whole(a, t, b)
  {
    RotLKeeps(h, a, t, b);
    assert t.r.n in Nodes(t.r);
  }

  /** A write to the hole at the end of the left tree leaves the tree as it is. */
  lemma LHoleFilled<K>(m: Mem<K>, h: Node<K>, e: LeftEdge<Node<K>>, v: Node?<K>)
    requires LRep(m, h, e) && h in m && LSep(e) && h !in LNodes(e)
    ensures LEnd(h, e) in m && LRep(m[LEnd(h, e) := m[LEnd(h, e)].(right := v)], h, e)
  {
    if e.LLink? {
      var m' := m[e.n := m[e.n].(right := v)];
      LFrame(m, m', h, e.up);
      Frame(m, m', e.l, m[e.n].left);
    }
  }

  lemma RHoleFilled<K>(m: Mem<K>, h: Node<K>, e: RightEdge<Node<K>>, v: Node?<K>)
    requires RRep(m, h, e) && h in m && RSep(e) && h !in RNodes(e)
    ensures REnd(h, e) in m && RRep(m[REnd(h, e) := m[REnd(h, e)].(left := v)], h, e)
  {
    if e.RLink? {
      var m' := m[e.n := m[e.n].(left := v)];
      RFrame(m, m', h, e.up);
      Frame(m, m', e.r, m[e.n].right);
    }
  }

  /** The root of the middle tree and its right subtree become the new end of the right tree. */
  lemma LinkRightParts<K>(m: Mem<K>, h: Node<K>, a: LeftEdge<Node<K>>, t: Tree<Node<K>>, b: RightEdge<Node<K>>,
      x: Node<K>)
    requires Parts(m, h, a, t, b, x) && h in m
    ensures x in m && REnd(h, b) in m && REnd(h, b) != x
    ensures var e := REnd(h, b);
      Parts(m[e := m[e].(left := x)], h, a, t.l, RLink(b, x, t.r), m[x].left)
  {
    var e := REnd(h, b);
    var m' := m[e := m[e].(left := x)];
    LinkRightKeeps(h, a, t, b);
    Frame(m, m', t.l, m[x].left);
    Frame(m, m', t.r, m[x].right);
    LFrame(m, m', h, a);
    RHoleFilled(m, h, b, x);
  }

  lemma LinkLeftParts<K>(m: Mem<K>, h: Node<K>, a: LeftEdge<Node<K>>, t: Tree<Node<K>>, b: RightEdge<Node<K>>,
      x: Node<K>)
    requires Parts(m, h, a, t, b, x) && h in m
    ensures x in m && LEnd(h, a) in m && LEnd(h, a) != x
    ensures var e := LEnd(h, a);
      Parts(m[e := m[e].(right := x)], h, LLink(a, t.l, x), t.r, b, m[x].right)
  {
    var e := LEnd(h, a);
    var m' := m[e := m[e].(right := x)];
    LinkLeftKeeps(h, a, t, b);
    Frame(m, m', t.l, m[x].left);
    Frame(m, m', t.r, m[x].right);
    RFrame(m, m', h, b);
    LHoleFilled(m, h, a, x);
  }

  // ---- assembly

  lemma {:induction false} LFillRep<K>(m: Mem<K>, h: Node<K>, e: LeftEdge<Node<K>>, t: Tree<Node<K>>)
    requires LRep(m, h, e) && h in m && Rep(m, t, m[LEnd(h, e)].right)
    ensures Rep(m, LFill(e, t), m[h].right)
    decreases e
  {
    if e.LLink? {
      LFillRep(m, h, e.up, Br(e.l, e.n, t));
    }
  }

  lemma {:induction false} RFillRep<K>(m: Mem<K>, h: Node<K>, e: RightEdge<Node<K>>, t: Tree<Node<K>>)
    requires RRep(m, h, e) && h in m && Rep(m, t, m[REnd(h, e)].left)
    ensures Rep(m, RFill(e, t), m[h].left)
    decreases e
  {
    if e.RLink? {
      RFillRep(m, h, e.up, Br(t, e.n, e.r));
    }
  }

  /** The four link writes of the assembly, in their order; the header may be the end of either tree. */
  ghost function AssembleMem<K>(m: Mem<K>, x: Node<K>, h: Node<K>, left: Node<K>, right: Node<K>): Mem<K>
    requires x in m && h in m && left in m && right in m
  {
    var m1 := m[left := m[left].(right := m[x].left)];
    var m2 := m1[right := m1[right].(left := m1[x].right)];
    var m3 := m2[x := m2[x].(left := m2[h].right)];
    m3[x := m3[x].(right := m3[h].left)]
  }

  lemma AssembleRep<K>(m: Mem<K>, h: Node<K>, a: LeftEdge<Node<K>>, t: Tree<Node<K>>, b: RightEdge<Node<K>>, x: Node<K>)
    requires Parts(m, h, a, t, b, x) && h in m
    ensures x in m && LEnd(h, a) in m && REnd(h, b) in m
    ensures Rep(AssembleMem(m, x, h, LEnd(h, a), REnd(h, b)), Assembled(a, t, b), x)
  {
    var left, right := LEnd(h, a), REnd(h, b);
    var m1 := m[left := m[left].(right := m[x].left)];
    var m2 := m1[right := m1[right].(left := m1[x].right)];
    assert left != x && right != x;
    HoleFilled(m, m2, h, a, t, b, x);
    LFillRep(m2, h, a, t.l);
    RFillRep(m2, h, b, t.r);
    LFillKeeps(a, t.l);
    RFillKeeps(b, t.r);
    HangBoth(m2, h, LFill(a, t.l), RFill(b, t.r), x);
  }

  /** The root takes over what hangs on the header. */
  lemma HangBoth<K>(m: Mem<K>, h: Node<K>, l: Tree<Node<K>>, r: Tree<Node<K>>, x: Node<K>)
    requires h in m && x in m && x != h && Rep(m, l, m[h].right) && Rep(m, r, m[h].left) && x !in Nodes(l) &&
      x !in Nodes(r)
    ensures var m3 := m[x := m[x].(left := m[h].right)]; Rep(m3[x := m3[x].(right := m3[h].left)], Br(l, x, r), x)
  {
    var m3 := m[x := m[x].(left := m[h].right)];
    var m' := m3[x := m3[x].(right := m3[h].left)];
    Frame(m, m', l, m[h].right);
    Frame(m, m', r, m[h].left);
  }

  /** The subtrees of the root fill the holes at the ends of the left and the right tree. */
  lemma HoleFilled<K>(m: Mem<K>, m2: Mem<K>, h: Node<K>, a: LeftEdge<Node<K>>, t: Tree<Node<K>>,
      b: RightEdge<Node<K>>, x: Node<K>)
    requires Parts(m, h, a, t, b, x) && h in m && x in m && LEnd(h, a) in m && REnd(h, b) in m
    requires var m1 := m[LEnd(h, a) := m[LEnd(h, a)].(right := m[x].left)];
      m2 == m1[REnd(h, b) := m1[REnd(h, b)].(left := m[x].right)]
    ensures LRep(m2, h, a) && RRep(m2, h, b) && h in m2
    ensures Rep(m2, t.l, m2[LEnd(h, a)].right) && Rep(m2, t.r, m2[REnd(h, b)].left)
  {
    var m1 := m[LEnd(h, a) := m[LEnd(h, a)].(right := m[x].left)];
    Frame(m, m2, t.l, m[x].left);
    Frame(m, m2, t.r, m[x].right);
    LHoleFilled(m, h, a, m[x].left);
    LFrame(m1, m2, h, a);
    RFrame(m, m1, h, b);
    RHoleFilled(m1, h, b, m[x].right);
  }

  // ---- new roots

  lemma HangAbove<K>(m: Mem<K>, t: Tree<Node<K>>, x: Node<K>, elm: Node<K>)
    requires Rep(m, t, x) && Sep(t) && elm !in m && elm !in Nodes(t)
    ensures x in m
    ensures var t', m1 := Br(t.l, elm, t.(l := Leaf)), m[elm := Cell(m[x].left, x)];
      Rep(m1[x := m1[x].(left := null)], t', elm) && Sep(t') && Nodes(t') == Nodes(t) + {elm}
  {
    var u, m1 := t.(l := Leaf), m[elm := Cell(m[x].left, x)];
    var m' := m1[x := m1[x].(left := null)];
    Frame(m, m', t.l, m[x].left);
    Frame(m, m', t.r, m[x].right);
    assert Nodes(u) == {t.n} + Nodes(t.r) && Sep(u);
  }

  lemma HangBelow<K>(m: Mem<K>, t: Tree<Node<K>>, x: Node<K>, elm: Node<K>)
    requires Rep(m, t, x) && Sep(t) && elm !in m && elm !in Nodes(t)
    ensures x in m
    ensures var t', m1 := Br(t.(r := Leaf), elm, t.r), m[elm := Cell(x, m[x].right)];
      Rep(m1[x := m1[x].(right := null)], t', elm) && Sep(t') && Nodes(t') == Nodes(t) + {elm}
  {
    var u, m1 := t.(r := Leaf), m[elm := Cell(x, m[x].right)];
    var m' := m1[x := m1[x].(right := null)];
    Frame(m, m', t.l, m[x].left);
    Frame(m, m', t.r, m[x].right);
    assert Nodes(u) == {t.n} + Nodes(t.l) && Sep(u);
  }

  /** A tree with an empty right link and a tree of later nodes are joined at the root. */
  lemma HangRight<K>(m: Mem<K>, t: Tree<Node<K>>, x: Node<K>, r: Tree<Node<K>>, tmp: Node?<K>)
    requires Rep(m, t, x) && Sep(t) && t.r.Leaf? && Rep(m, r, tmp) && Sep(r) && Nodes(t) !! Nodes(r)
    ensures x in m
    ensures var t' := t.(r := r);
      && Rep(m[x := m[x].(right := tmp)], t', x) && Sep(t')
      && Nodes(t') == Nodes(t) + Nodes(r) && InOrder(t') == InOrder(t) + InOrder(r)
  {
    var m' := m[x := m[x].(right := tmp)];
    Frame(m, m', t.l, m[x].left);
    Frame(m, m', r, tmp);
  }

  /** All nodes of a splay in progress. */
  ghost function All<K>(h: Node<K>, a: LeftEdge<Node<K>>, t: Tree<Node<K>>, b: RightEdge<Node<K>>): set<Node<K>> {
    LNodes(a) + Nodes(t) + RNodes(b) + {h}
  }

  /** The memory m' differs from m at nodes of s at most. */
  ghost predicate OnlyWithin<K>(m: Mem<K>, m': Mem<K>, s: set<Node<K>>) {
    m'.Keys == m.Keys && forall n :: n in m && n !in s ==> m'[n] == m[n]
  }

  // ---- what comparisons tell

  /** Key k divides what the root of the middle tree divides. */
  ghost predicate Divided<K>(cmp: (K, K) -> int, a: LeftEdge<Node<K>>, t: Tree<Node<K>>, b: RightEdge<Node<K>>, k: K) {
    t.Br? && Below(cmp, LOrder(a) + InOrder(t.l), k) && Above(cmp, InOrder(t.r) + ROrder(b), k)
  }

  /** One pass with the key below the root: the search ends at t', or t' is left to be searched. */
  ghost predicate LessPass<K>(cmp: (K, K) -> int, k: K, t: Tree<Node<K>>, b: RightEdge<Node<K>>,
                              last: bool, t': Tree<Node<K>>, b': RightEdge<Node<K>>) {
    if last then
      b' == b && t'.Br? && t'.l.Leaf? && (t' == t || cmp(k, t'.n.key) < 0)
    else
      t.Br? && t.l.Br? &&
      if t' == t.l then b' == RLink(b, t.n, t.r)
      else cmp(k, t.l.n.key) < 0 && t' == t.l.l && b' == RLink(b, t.l.n, Br(t.l.r, t.n, t.r))
  }

  ghost predicate GreaterPass<K>(cmp: (K, K) -> int, k: K, t: Tree<Node<K>>, a: LeftEdge<Node<K>>,
                                 last: bool, t': Tree<Node<K>>, a': LeftEdge<Node<K>>) {
    if last then
      a' == a && t'.Br? && t'.r.Leaf? && (t' == t || cmp(k, t'.n.key) > 0)
    else
      t.Br? && t.r.Br? &&
      if t' == t.r then a' == LLink(a, t.l, t.n)
      else cmp(k, t.r.n.key) > 0 && t' == t.r.r && a' == LLink(a, Br(t.l, t.n, t.r.l), t.r.n)
  }

  lemma LessPassDivides<K(!new)>(cmp: (K, K) -> int, k: K, a: LeftEdge<Node<K>>, t: Tree<Node<K>>,
      b: RightEdge<Node<K>>,
                                 last: bool, t': Tree<Node<K>>, b': RightEdge<Node<K>>)
    requires Lawful(cmp) && t.Br? && Sorted(cmp, Whole(a, t, b)) && cmp(k, t.n.key) < 0
    requires LessPass(cmp, k, t, b, last, t', b') && Whole(a, t', b') == Whole(a, t, b)
    requires Below(cmp, LOrder(a), k)
    ensures if last then Divided(cmp, a, t', b', k) else Above(cmp, ROrder(b'), k)
  {
    AroundRoot(cmp, a, t, b, k);
    if last {
      AroundRoot(cmp, a, t', b', k);
      assert LOrder(a) + InOrder(t'.l) == LOrder(a);
    } else if t' != t.l {
      RotROrder(t);
      AroundRoot(cmp, a, RotR(t), b, k);
    }
  }

  lemma GreaterPassDivides<K(!new)>(cmp: (K, K) -> int, k: K, a: LeftEdge<Node<K>>, t: Tree<Node<K>>,
      b: RightEdge<Node<K>>,
                                    last: bool, t': Tree<Node<K>>, a': LeftEdge<Node<K>>)
    requires Lawful(cmp) && t.Br? && Sorted(cmp, Whole(a, t, b)) && cmp(k, t.n.key) > 0
    requires GreaterPass(cmp, k, t, a, last, t', a') && Whole(a', t', b) == Whole(a, t, b)
    requires Above(cmp, ROrder(b), k)
    ensures if last then Divided(cmp, a', t', b, k) else Below(cmp, LOrder(a'), k)
  {
    AroundRoot(cmp, a, t, b, k);
    if last {
      AroundRoot(cmp, a', t', b, k);
      assert InOrder(t'.r) + ROrder(b) == ROrder(b);
    } else if t' != t.r {
      RotLOrder(t);
      AroundRoot(cmp, a, RotL(t), b, k);
    }
  }

  lemma AroundRoot<K(!new)>(cmp: (K, K) -> int, a: LeftEdge<Node<K>>, t: Tree<Node<K>>, b: RightEdge<Node<K>>, k: K)
    requires Lawful(cmp) && t.Br? && Sorted(cmp, Whole(a, t, b))
    ensures cmp(k, t.n.key) <= 0 ==> Above(cmp, InOrder(t.r) + ROrder(b), k)
    ensures cmp(k, t.n.key) < 0 ==> Above(cmp, ROrder(RLink(b, t.n, t.r)), k)
    ensures cmp(k, t.n.key) >= 0 ==> Below(cmp, LOrder(a) + InOrder(t.l), k)
    ensures cmp(k, t.n.key) > 0 ==> Below(cmp, LOrder(LLink(a, t.l, t.n)), k)
  {
    WholeSplit(a, t, b);
    SidesOfKey(cmp, LOrder(a) + InOrder(t.l), t.n, InOrder(t.r) + ROrder(b), k);
  }

  /** Memory m' has the header node on top of m, and differs from m at nodes of s at most. */
  ghost predicate WithHeader<K>(m: Mem<K>, m': Mem<K>, node: Node<K>, s: set<Node<K>>) {
    node !in m && m'.Keys == m.Keys + {node} && forall n :: n in m && n !in s ==> m'[n] == m[n]
  }

  lemma HeaderStays<K>(m: Mem<K>, m1: Mem<K>, m2: Mem<K>, node: Node<K>, s: set<Node<K>>)
    requires WithHeader(m, m1, node, s) && OnlyWithin(m1, m2, s + {node})
    ensures WithHeader(m, m2, node, s)
  {
  }

  lemma HeaderGone<K>(m: Mem<K>, m1: Mem<K>, m2: Mem<K>, node: Node<K>, s: set<Node<K>>)
    requires WithHeader(m, m1, node, s) && m2 == m1 - {node}
    ensures OnlyWithin(m, m2, s)
  {
  }

  // ---- what a splayed tree tells about the set

  ghost predicate SplayedTo<K>(cmp: (K, K) -> int, t: Tree<Node<K>>, k: K) {
    t.Br? && Below(cmp, InOrder(t.l), k) && Above(cmp, InOrder(t.r), k)
  }

  lemma RootEqual<K(!new)>(cmp: (K, K) -> int, t: Tree<Node<K>>, k: K)
    requires SplayedTo(cmp, t, k) && cmp(k, t.n.key) == 0
    ensures Lookup(cmp, InOrder(t), k) == t.n
    ensures Removed(cmp, InOrder(t), k) == InOrder(t.l) + InOrder(t.r)
  {
    AtNode(cmp, InOrder(t.l), t.n, InOrder(t.r), k);
  }

  /** A node with the key that was splayed for is the root. */
  lemma PresentIsRoot<K(!new)>(cmp: (K, K) -> int, t: Tree<Node<K>>, k: K, n: Node<K>)
    requires SplayedTo(cmp, t, k) && n in InOrder(t) && cmp(k, n.key) == 0
    ensures n == t.n
  {
    assert InOrder(t) == InOrder(t.l) + [t.n] + InOrder(t.r);
  }

  lemma GapBeforeRoot<N>(t: Tree<N>, n: N)
    requires t.Br?
    ensures var a, b := InOrder(t.l), [t.n] + InOrder(t.r);
      InOrder(t) == a + b && InOrder(Br(t.l, n, t.(l := Leaf))) == a + [n] + b
  {
    var b := [t.n] + InOrder(t.r);
    assert InOrder(t.(l := Leaf)) == [] + [t.n] + InOrder(t.r) == b;
  }

  lemma GapAfterRoot<N>(t: Tree<N>, n: N)
    requires t.Br?
    ensures var a, b := InOrder(t.l) + [t.n], InOrder(t.r);
      InOrder(t) == a + b && InOrder(Br(t.(r := Leaf), n, t.r)) == a + [n] + b
  {
    var a := InOrder(t.l) + [t.n];
    assert InOrder(t.(r := Leaf)) == a + [] == a;
  }

  lemma RootAbove<K(!new)>(cmp: (K, K) -> int, t: Tree<Node<K>>, n: Node<K>)
    requires Lawful(cmp) && Sorted(cmp, InOrder(t)) && SplayedTo(cmp, t, n.key) && cmp(n.key, t.n.key) < 0
    ensures Lookup(cmp, InOrder(t), n.key) == null && n !in InOrder(t) && Removed(cmp, InOrder(t), n.key) == InOrder(t)
    ensures var t' := Br(t.l, n, t.(l := Leaf)); InOrder(t') == Inserted(cmp, InOrder(t), n) && Sorted(cmp, InOrder(t'))
  {
    var a, b := InOrder(t.l), [t.n] + InOrder(t.r);
    GapBeforeRoot(t, n);
    AtGap(cmp, a, b, n);
    GapFits(cmp, a, n, b);
  }

  lemma RootBelow<K(!new)>(cmp: (K, K) -> int, t: Tree<Node<K>>, n: Node<K>)
    requires Lawful(cmp) && Sorted(cmp, InOrder(t)) && SplayedTo(cmp, t, n.key) && cmp(n.key, t.n.key) > 0
    ensures Lookup(cmp, InOrder(t), n.key) == null && n !in InOrder(t) && Removed(cmp, InOrder(t), n.key) == InOrder(t)
    ensures var t' := Br(t.(r := Leaf), n, t.r); InOrder(t') == Inserted(cmp, InOrder(t), n) && Sorted(cmp, InOrder(t'))
  {
    var a, b := InOrder(t.l) + [t.n], InOrder(t.r);
    GapAfterRoot(t, n);
    AtGap(cmp, a, b, n);
    GapFits(cmp, a, n, b);
  }

  lemma RightAbove<K(!new)>(cmp: (K, K) -> int, k: K, t: Tree<Node<K>>)
    requires SplayedTo(cmp, t, k) && t.r.Br?
    ensures !Below(cmp, InOrder(t), k)
  {
    NotEmpty(t.r);
    assert InOrder(t)[|InOrder(t.l)| + 1] == InOrder(t.r)[0];
  }

  /** In a tree with nothing but keys below k, splaying towards k leaves the right link of the root empty. */
  lemma NoRight<K(!new)>(cmp: (K, K) -> int, k: K, t: Tree<Node<K>>)
    requires SplayedTo(cmp, t, k) && Below(cmp, InOrder(t), k)
    ensures t.r.Leaf?
  {
    if t.r.Br? {
      RightAbove(cmp, k, t);
    }
  }

  lemma SortedPart<K(!new)>(cmp: (K, K) -> int, t: Tree<Node<K>>)
    requires t.Br? && Sorted(cmp, InOrder(t))
    ensures Sorted(cmp, InOrder(t.l)) && Sorted(cmp, InOrder(t.l) + InOrder(t.r))
  {
    var a, w := InOrder(t.l), InOrder(t);
    SortedWithout(cmp, a, t.n, InOrder(t.r));
    assert forall i :: 0 <= i < |a| ==> a[i] == w[i];
  }

  class Head<K(!new)> {
    var root: Node?<K>
    const cmp: (K, K) -> int
    ghost var mem: Mem<K>
    ghost var tree: Tree<Node<K>>

    ghost predicate Holds()
      reads this, mem.Keys
    {
      forall n :: n in mem ==> mem[n] == Cell(n.left, n.right)
    }

    method SetLeft(n: Node<K>, v: Node?<K>)
      requires Holds() && n in mem
      modifies this`mem, n`left
      ensures Holds() && mem == old(mem)[n := old(mem[n]).(left := v)]
    {
      n.left := v;
      mem := mem[n := mem[n].(left := v)];
    }

    method SetRight(n: Node<K>, v: Node?<K>)
      requires Holds() && n in mem
      modifies this`mem, n`right
      ensures Holds() && mem == old(mem)[n := old(mem[n]).(right := v)]
    {
      n.right := v;
      mem := mem[n := mem[n].(right := v)];
    }

    // ---- the macros

    method TurnRight(tmp: Node<K>)
      requires Holds() && root != null && root in mem && tmp in mem
      modifies this`root, this`mem, mem.Keys
      ensures Holds() && mem == RotRMem(old(mem), old(root), tmp) && root == tmp
    {
      SetLeft(root, tmp.right);
      SetRight(tmp, root);
      root := tmp;
    }

    method RotateRight(tmp: Node<K>, ghost h: Node<K>, ghost a: LeftEdge<Node<K>>, ghost t: Tree<Node<K>>,
        ghost b: RightEdge<Node<K>>)
      requires Holds() && Parts(mem, h, a, t, b, root) && h in mem && t.Br? && t.l.Br? && tmp == t.l.n
      modifies this`root, this`mem, mem.Keys
      ensures Holds() && OnlyWithin(old(mem), mem, All(h, a, t, b)) && root == tmp
      ensures Parts(mem, h, a, RotR(t), b, root)
      ensures All(h, a, RotR(t), b) == All(h, a, t, b) && Whole(a, RotR(t), b) == Whole(a, t, b)
    {
      ghost var m, x := mem, root;
      RotateRightParts(m, h, a, t, b, x);
      TurnRight(tmp);
      RotateRightWithin(m, h, a, t, b, x);
    }

    method TurnLeft(tmp: Node<K>)
      requires Holds() && root != null && root in mem && tmp in mem
      modifies this`root, this`mem, mem.Keys
      ensures Holds() && mem == RotLMem(old(mem), old(root), tmp) && root == tmp
    {
      SetRight(root, tmp.left);
      SetLeft(tmp, root);
      root := tmp;
    }

    method RotateLeft(tmp: Node<K>, ghost h: Node<K>, ghost a: LeftEdge<Node<K>>, ghost t: Tree<Node<K>>,
        ghost b: RightEdge<Node<K>>)
      requires Holds() && Parts(mem, h, a, t, b, root) && h in mem && t.Br? && t.r.Br? && tmp == t.r.n
      modifies this`root, this`mem, mem.Keys
      ensures Holds() && OnlyWithin(old(mem), mem, All(h, a, t, b)) && root == tmp
      ensures Parts(mem, h, a, RotL(t), b, root)
      ensures All(h, a, RotL(t), b) == All(h, a, t, b) && Whole(a, RotL(t), b) == Whole(a, t, b)
    {
      ghost var m, x := mem, root;
      RotateLeftParts(m, h, a, t, b, x);
      TurnLeft(tmp);
      RotateLeftWithin(m, h, a, t, b, x);
    }

    method AppendToRight(right: Node<K>) returns (right': Node<K>)
      requires Holds() && root != null && root in mem && right in mem && right != root
      modifies this`root, this`mem, mem.Keys
      ensures Holds() && mem == old(mem)[right := old(mem[right]).(left := old(root))]
      ensures right' == old(root) && root == mem[right'].left
    {
      SetLeft(right, root);
      right' := root;
      root := root.left;
    }

    /** SPLAY_LINKLEFT: the root goes to the end of the right tree. */
    method LinkToRight(right: Node<K>, ghost h: Node<K>, ghost a: LeftEdge<Node<K>>, ghost t: Tree<Node<K>>,
        ghost b: RightEdge<Node<K>>)
      returns (right': Node<K>)
      requires Holds() && Parts(mem, h, a, t, b, root) && h in mem && t.Br? && right == REnd(h, b)
      modifies this`root, this`mem, mem.Keys
      ensures Holds() && OnlyWithin(old(mem), mem, All(h, a, t, b))
      ensures Parts(mem, h, a, t.l, RLink(b, t.n, t.r), root) && right' == REnd(h, RLink(b, t.n, t.r))
      ensures All(h, a, t.l, RLink(b, t.n, t.r)) == All(h, a, t, b) &&
        Whole(a, t.l, RLink(b, t.n, t.r)) == Whole(a, t, b)
    {
      LinkRightKeeps(h, a, t, b);
      LinkRightParts(mem, h, a, t, b, root);
      right' := AppendToRight(right);
    }

    method AppendToLeft(left: Node<K>) returns (left': Node<K>)
      requires Holds() && root != null && root in mem && left in mem && left != root
      modifies this`root, this`mem, mem.Keys
      ensures Holds() && mem == old(mem)[left := old(mem[left]).(right := old(root))]
      ensures left' == old(root) && root == mem[left'].right
    {
      SetRight(left, root);
      left' := root;
      root := root.right;
    }

    /** SPLAY_LINKRIGHT: the root goes to the end of the left tree. */
    method LinkToLeft(left: Node<K>, ghost h: Node<K>, ghost a: LeftEdge<Node<K>>, ghost t: Tree<Node<K>>,
        ghost b: RightEdge<Node<K>>)
      returns (left': Node<K>)
      requires Holds() && Parts(mem, h, a, t, b, root) && h in mem && t.Br? && left == LEnd(h, a)
      modifies this`root, this`mem, mem.Keys
      ensures Holds() && OnlyWithin(old(mem), mem, All(h, a, t, b))
      ensures Parts(mem, h, LLink(a, t.l, t.n), t.r, b, root) && left' == LEnd(h, LLink(a, t.l, t.n))
      ensures All(h, LLink(a, t.l, t.n), t.r, b) == All(h, a, t, b) &&
        Whole(LLink(a, t.l, t.n), t.r, b) == Whole(a, t, b)
    {
      LinkLeftKeeps(h, a, t, b);
      LinkLeftParts(mem, h, a, t, b, root);
      left' := AppendToLeft(left);
    }

    method AssembleLinks(node: Node<K>, left: Node<K>, right: Node<K>)
      requires Holds() && root != null && root in mem && node in mem && left in mem && right in mem
      modifies this`mem, mem.Keys
      ensures Holds() && mem == AssembleMem(old(mem), root, node, left, right)
    {
      SetRight(left, root.left);
      SetLeft(right, root.right);
      SetLeft(root, node.right);
      SetRight(root, node.left);
    }

    method Assemble(node: Node<K>, left: Node<K>, right: Node<K>, ghost a: LeftEdge<Node<K>>, ghost t: Tree<Node<K>>,
        ghost b: RightEdge<Node<K>>)
      requires Holds() && Parts(mem, node, a, t, b, root) && node in mem && t.Br? && left == LEnd(node, a) &&
        right == REnd(node, b)
      modifies this`mem, mem.Keys
      ensures Holds() && OnlyWithin(old(mem), mem, All(node, a, t, b))
      ensures Rep(mem, Assembled(a, t, b), root)
    {
      AssembleRep(mem, node, a, t, b, root);
      AssembleLinks(node, left, right);
    }

    // ---- SPLAY

    /** A pass of the loop where the key is below the root. */
    method StepLess(k: K, right: Node<K>, ghost h: Node<K>, ghost a: LeftEdge<Node<K>>, ghost t: Tree<Node<K>>,
        ghost b: RightEdge<Node<K>>)
      returns (last: bool, right': Node<K>, ghost t': Tree<Node<K>>, ghost b': RightEdge<Node<K>>)
      requires Holds() && Parts(mem, h, a, t, b, root) && h in mem && t.Br? && right == REnd(h, b)
      modifies this`root, this`mem, mem.Keys
      ensures Holds() && OnlyWithin(old(mem), mem, All(h, a, t, b)) && All(h, a, t', b') == All(h, a, t, b)
      ensures Parts(mem, h, a, t', b', root) && t'.Br? && right' == REnd(h, b') && Whole(a, t', b') == Whole(a, t, b)
      ensures LessPass(cmp, k, t, b, last, t', b')
    {
      last, right', t', b' := true, right, t, b;
      var tmp := root.left;
      if tmp == null {
        return;
      }
      assert Rep(mem, t.l, tmp);
      if cmp(k, tmp.key) < 0 {
        RotateRight(tmp, h, a, t, b);
        t' := RotR(t);
        if root.left == null {
          return;
        }
      }
      right' := LinkToRight(right, h, a, t', b);
      last, t', b' := false, t'.l, RLink(b, t'.n, t'.r);
    }

    /** A pass of the loop where the key is above the root. */
    method StepGreater(k: K, left: Node<K>, ghost h: Node<K>, ghost a: LeftEdge<Node<K>>, ghost t: Tree<Node<K>>,
        ghost b: RightEdge<Node<K>>)
      returns (last: bool, left': Node<K>, ghost a': LeftEdge<Node<K>>, ghost t': Tree<Node<K>>)
      requires Holds() && Parts(mem, h, a, t, b, root) && h in mem && t.Br? && left == LEnd(h, a)
      modifies this`root, this`mem, mem.Keys
      ensures Holds() && OnlyWithin(old(mem), mem, All(h, a, t, b)) && All(h, a', t', b) == All(h, a, t, b)
      ensures Parts(mem, h, a', t', b, root) && t'.Br? && left' == LEnd(h, a') && Whole(a', t', b) == Whole(a, t, b)
      ensures GreaterPass(cmp, k, t, a, last, t', a')
    {
      last, left', a', t' := true, left, a, t;
      var tmp := root.right;
      if tmp == null {
        return;
      }
      assert Rep(mem, t.r, tmp);
      if cmp(k, tmp.key) > 0 {
        RotateLeft(tmp, h, a, t, b);
        t' := RotL(t);
        if root.right == null {
          return;
        }
      }
      left' := LinkToLeft(left, h, a, t', b);
      last, t', a' := false, t'.r, LLink(a, t'.l, t'.n);
    }

    /** A splay in progress: nodes and order are those of t0, and k lies between the left and the right tree. */
    ghost predicate Splaying(node: Node<K>, t0: Tree<Node<K>>, left: Node<K>, right: Node<K>,
                             a: LeftEdge<Node<K>>, t: Tree<Node<K>>, b: RightEdge<Node<K>>)
      reads this, mem.Keys
    {
      && Holds() && node in mem && All(node, a, t, b) == Nodes(t0) + {node}
      && Parts(mem, node, a, t, b, root) && t.Br? && Whole(a, t, b) == InOrder(t0)
      && left == LEnd(node, a) && right == REnd(node, b)
    }

    method SplayStep(k: K, comp: int, node: Node<K>, ghost t0: Tree<Node<K>>, left: Node<K>, right: Node<K>,
                     ghost a: LeftEdge<Node<K>>, ghost t: Tree<Node<K>>, ghost b: RightEdge<Node<K>>)
      returns (last: bool, left': Node<K>, right': Node<K>, ghost a': LeftEdge<Node<K>>, ghost t': Tree<Node<K>>,
               ghost b': RightEdge<Node<K>>)
      requires Splaying(node, t0, left, right, a, t, b) && comp == cmp(k, t.n.key) && comp != 0
      modifies this`root, this`mem, mem.Keys
      ensures Splaying(node, t0, left', right', a', t', b') && OnlyWithin(old(mem), mem, Nodes(t0) + {node})
      ensures comp < 0 ==> a' == a && LessPass(cmp, k, t, b, last, t', b')
      ensures comp > 0 ==> b' == b && GreaterPass(cmp, k, t, a, last, t', a')
    {
      left', right', a', t', b' := left, right, a, t, b;
      if comp < 0 {
        last, right', t', b' := StepLess(k, right, node, a, t, b);
      } else {
        last, left', a', t' := StepGreater(k, left, node, a, t, b);
      }
    }

    /** The splay loop: afterwards key k divides the three trees at the root. */
    method SplayLoop(k: K, node: Node<K>, ghost t0: Tree<Node<K>>)
      returns (left: Node<K>, right: Node<K>, ghost a: LeftEdge<Node<K>>, ghost t: Tree<Node<K>>,
               ghost b: RightEdge<Node<K>>)
      requires Holds() && Parts(mem, node, LNil, t0, RNil, root) && node in mem && t0.Br?
      requires Lawful(cmp) && Sorted(cmp, InOrder(t0))
      modifies this`root, this`mem, mem.Keys
      ensures Splaying(node, t0, left, right, a, t, b) && OnlyWithin(old(mem), mem, Nodes(t0) + {node})
      ensures Divided(cmp, a, t, b, k)
    {
      left, right := node, node;
      a, t, b := LNil, t0, RNil;
      assert Whole(a, t, b) == InOrder(t0);
      var comp, last := cmp(k, root.key), false;
      while comp != 0 && !last
        invariant Splaying(node, t0, left, right, a, t, b) && OnlyWithin(old(mem), mem, Nodes(t0) + {node})
        invariant comp == cmp(k, t.n.key)
        invariant if last then Divided(cmp, a, t, b, k) else Below(cmp, LOrder(a), k) && Above(cmp, ROrder(b), k)
        decreases !last, t
      {
        ghost var a1, t1, b1 := a, t, b;
        last, left, right, a, t, b := SplayStep(k, comp, node, t0, left, right, a, t, b);
        if comp < 0 {
          LessPassDivides(cmp, k, a, t1, b1, last, t, b);
        } else {
          GreaterPassDivides(cmp, k, a1, t1, b, last, t, a);
        }
        comp := cmp(k, root.key);
      }
      AroundRoot(cmp, a, t, b, k);
    }

    /** The stack node that the left and the right tree hang on. */
    method NewHeader(k: K, ghost t0: Tree<Node<K>>) returns (node: Node<K>)
      requires Holds() && Rep(mem, t0, root) && Sep(t0) && t0.Br? && Nodes(t0) <= mem.Keys
      modifies this`mem
      ensures fresh(node) && WithHeader(old(mem), mem, node, Nodes(t0)) && root == old(root)
      ensures Splaying(node, t0, node, node, LNil, t0, RNil)
    {
      node := new Node(k);
      mem := mem[node := Cell(null, null)];
      Frame(old(mem), mem, t0, root);
      assert [] + InOrder(t0) + [] == InOrder(t0);
    }

    /** The trees are assembled below the root, and the header is forgotten. */
    method Finish(node: Node<K>, left: Node<K>, right: Node<K>, ghost t0: Tree<Node<K>>,
                  ghost a: LeftEdge<Node<K>>, ghost t: Tree<Node<K>>, ghost b: RightEdge<Node<K>>, ghost m0: Mem<K>)
      requires Splaying(node, t0, left, right, a, t, b) && WithHeader(m0, mem, node, Nodes(t0)) && Nodes(t0) <= m0.Keys
      modifies this`mem, mem.Keys
      ensures Holds() && Rep(mem, Assembled(a, t, b), root) && OnlyWithin(m0, mem, Nodes(t0))
    {
      ghost var m1 := mem;
      Assemble(node, left, right, a, t, b);
      AssembledKeeps(node, a, t, b);
      HeaderStays(m0, m1, mem, node, Nodes(t0));
      HeaderGone(m0, mem, mem - {node}, node, Nodes(t0));
      Forget(node, Assembled(a, t, b));
    }

    ghost method Forget(node: Node<K>, t: Tree<Node<K>>)
      requires Holds() && Rep(mem, t, root) && node !in Nodes(t)
      modifies this`mem
      ensures Holds() && Rep(mem, t, root) && mem == old(mem) - {node}
    {
      mem := mem - {node};
      Frame(old(mem), mem, t, root);
    }

    lemma Result(node: Node<K>, left: Node<K>, right: Node<K>, t0: Tree<Node<K>>,
                 a: LeftEdge<Node<K>>, t: Tree<Node<K>>, b: RightEdge<Node<K>>)
      requires Splaying(node, t0, left, right, a, t, b) && node !in Nodes(t0)
      ensures var t' := Assembled(a, t, b); Sep(t') && InOrder(t') == InOrder(t0) && Nodes(t') == Nodes(t0)
    {
      AssembledKeeps(node, a, t, b);
    }

    /** Splays the tree t0 that the root holds; other nodes of the memory are not touched. */
    method Splay(k: K, ghost t0: Tree<Node<K>>) returns (ghost t': Tree<Node<K>>)
      requires Holds() && Rep(mem, t0, root) && Sep(t0) && t0.Br? && Nodes(t0) <= mem.Keys
      requires Lawful(cmp) && Sorted(cmp, InOrder(t0))
      modifies this`root, this`mem, mem.Keys
      ensures Holds() && Rep(mem, t', root) && Sep(t') && OnlyWithin(old(mem), mem, Nodes(t0))
      ensures InOrder(t') == InOrder(t0) && Nodes(t') == Nodes(t0)
      ensures SplayedTo(cmp, t', k)
    {
      var node := NewHeader(k, t0);
      ghost var m1 := mem;
      var left, right;
      ghost var a, t, b;
      left, right, a, t, b := SplayLoop(k, node, t0);
      HeaderStays(old(mem), m1, mem, node, Nodes(t0));
      Result(node, left, right, t0, a, t, b);
      AssembledKeeps(node, a, t, b);
      Finish(node, left, right, t0, a, t, b, old(mem));
      t' := Assembled(a, t, b);
    }

    // ---- SPLAY_MINMAX

    method MinPass(node: Node<K>, right: Node<K>, ghost t0: Tree<Node<K>>, ghost t: Tree<Node<K>>,
        ghost b: RightEdge<Node<K>>)
      returns (last: bool, right': Node<K>, ghost t': Tree<Node<K>>, ghost b': RightEdge<Node<K>>)
      requires Splaying(node, t0, node, right, LNil, t, b)
      modifies this`root, this`mem, mem.Keys
      ensures Splaying(node, t0, node, right', LNil, t', b') && OnlyWithin(old(mem), mem, Nodes(t0) + {node})
      ensures if last then t'.l.Leaf? else t.l.Br? && t' == t.l.l
    {
      last, right', t', b' := true, right, t, b;
      var tmp := root.left;
      if tmp == null {
        return;
      }
      RotateRight(tmp, node, LNil, t, b);
      t' := RotR(t);
      if root.left == null {
        return;
      }
      right' := LinkToRight(right, node, LNil, t', b);
      last, t', b' := false, t'.l, RLink(b, t'.n, t'.r);
    }

    method MaxPass(node: Node<K>, left: Node<K>, ghost t0: Tree<Node<K>>, ghost a: LeftEdge<Node<K>>,
        ghost t: Tree<Node<K>>)
      returns (last: bool, left': Node<K>, ghost a': LeftEdge<Node<K>>, ghost t': Tree<Node<K>>)
      requires Splaying(node, t0, left, node, a, t, RNil)
      modifies this`root, this`mem, mem.Keys
      ensures Splaying(node, t0, left', node, a', t', RNil) && OnlyWithin(old(mem), mem, Nodes(t0) + {node})
      ensures if last then t'.r.Leaf? else t.r.Br? && t' == t.r.r
    {
      last, left', a', t' := true, left, a, t;
      var tmp := root.right;
      if tmp == null {
        return;
      }
      RotateLeft(tmp, node, a, t, RNil);
      t' := RotL(t);
      if root.right == null {
        return;
      }
      left' := LinkToLeft(left, node, a, t', RNil);
      last, t', a' := false, t'.r, LLink(a, t'.l, t'.n);
    }

    /** With val == 0 the loop would never end. */
    method SplayMinMax(val: int, ghost t0: Tree<Node<K>>) returns (ghost t': Tree<Node<K>>)
      requires Holds() && Rep(mem, t0, root) && Sep(t0) && t0.Br? && Nodes(t0) <= mem.Keys && val != 0
      modifies this`root, this`mem, mem.Keys
      ensures Holds() && Rep(mem, t', root) && Sep(t') && OnlyWithin(old(mem), mem, Nodes(t0))
      ensures InOrder(t') == InOrder(t0) && Nodes(t') == Nodes(t0)
      ensures t'.Br? && (val < 0 ==> t'.l.Leaf?) && (val > 0 ==> t'.r.Leaf?)
    {
      var node := NewHeader(root.key, t0);
      ghost var m1 := mem;
      var left, right, last := node, node, false;
      ghost var a: LeftEdge<Node<K>>, t, b: RightEdge<Node<K>> := LNil, t0, RNil;
      while !last
        invariant Splaying(node, t0, left, right, a, t, b) && OnlyWithin(m1, mem, Nodes(t0) + {node})
        invariant val < 0 ==> a.LNil? && (last ==> t.l.Leaf?)
        invariant val > 0 ==> b.RNil? && (last ==> t.r.Leaf?)
        decreases !last, t
      {
        if val < 0 {
          last, right, t, b := MinPass(node, right, t0, t, b);
        } else {
          last, left, a, t := MaxPass(node, left, t0, a, t);
        }
      }
      HeaderStays(old(mem), m1, mem, node, Nodes(t0));
      Result(node, left, right, t0, a, t, b);
      Finish(node, left, right, t0, a, t, b, old(mem));
      t' := Assembled(a, t, b);
    }

    // ---- operations

    /** The nodes of the tree in ascending order. */
    ghost function Order(): seq<Node<K>>
      reads this
    {
      InOrder(tree)
    }

    ghost predicate Shape()
      reads this, mem.Keys
    {
      Holds() && Rep(mem, tree, root) && Sep(tree) && mem.Keys == Nodes(tree)
    }

    ghost predicate Valid()
      reads this, mem.Keys
    {
      Lawful(cmp) && Shape() && Sorted(cmp, Order())
    }

    constructor (cmp: (K, K) -> int)
      requires Lawful(cmp)
      ensures Valid() && Order() == [] && this.cmp == cmp
    {
      this.cmp := cmp;
      root, mem, tree := null, map[], Leaf;
    }

    /** Splays the whole tree towards key k. */
    method SplayAll(k: K)
      requires Valid() && root != null
      modifies this, mem.Keys
      ensures Valid() && Order() == old(Order()) && mem.Keys == old(mem.Keys)
      ensures SplayedTo(cmp, tree, k)
    {
      tree := Splay(k, tree);
    }

    method Find(elm: Node<K>) returns (r: Node?<K>)
      requires Valid()
      modifies this, mem.Keys
      ensures Valid() && Order() == old(Order()) && mem.Keys == old(mem.Keys)
      ensures r == Lookup(cmp, Order(), elm.key)
    {
      if root == null {
        return null;
      }
      SplayAll(elm.key);
      var comp := cmp(elm.key, root.key);
      if comp == 0 {
        RootEqual(cmp, tree, elm.key);
        return root;
      } else if comp < 0 {
        RootAbove(cmp, tree, elm);
      } else {
        RootBelow(cmp, tree, elm);
      }
      return null;
    }

    // ---- SPLAY_INSERT

    /** The root and its right subtree go below the new node. */
    method LinkAbove(elm: Node<K>)
      requires Shape() && tree.Br? && elm !in mem
      modifies this, mem.Keys, elm
      ensures Shape() && mem.Keys == old(mem.Keys) + {elm}
      ensures tree == Br(old(tree).l, elm, old(tree).(l := Leaf))
    {
      HangAbove(mem, tree, root, elm);
      elm.left := root.left;
      elm.right := root;
      mem := mem[elm := Cell(elm.left, elm.right)];
      SetLeft(root, null);
      tree := Br(tree.l, elm, tree.(l := Leaf));
      root := elm;
    }

    /** The root and its left subtree go below the new node. */
    method LinkBelow(elm: Node<K>)
      requires Shape() && tree.Br? && elm !in mem
      modifies this, mem.Keys, elm
      ensures Shape() && mem.Keys == old(mem.Keys) + {elm}
      ensures tree == Br(old(tree).(r := Leaf), elm, old(tree).r)
    {
      HangBelow(mem, tree, root, elm);
      elm.right := root.right;
      elm.left := root;
      mem := mem[elm := Cell(elm.left, elm.right)];
      SetRight(root, null);
      tree := Br(tree.(r := Leaf), elm, tree.r);
      root := elm;
    }

    method Insert(elm: Node<K>) returns (r: Node?<K>)
      requires Valid()
      modifies this, mem.Keys, elm
      ensures Valid() && mem.Keys <= old(mem.Keys) + {elm}
      ensures r == Lookup(cmp, old(Order()), elm.key)
      ensures Order() == if r == null then Inserted(cmp, old(Order()), elm) else old(Order())
    {
      if root == null {
        elm.left, elm.right := null, null;
        mem, tree := map[elm := Cell(null, null)], Br(Leaf, elm, Leaf);
        root := elm;
        return null;
      }
      SplayAll(elm.key);
      r := InsertSplayed(elm);
    }

    method InsertSplayed(elm: Node<K>) returns (r: Node?<K>)
      requires Valid() && SplayedTo(cmp, tree, elm.key)
      modifies this, mem.Keys, elm
      ensures Valid() && mem.Keys <= old(mem.Keys) + {elm}
      ensures r == Lookup(cmp, old(Order()), elm.key)
      ensures Order() == if r == null then Inserted(cmp, old(Order()), elm) else old(Order())
    {
      NodesInOrder(tree);
      var comp := cmp(elm.key, root.key);
      if comp < 0 {
        RootAbove(cmp, tree, elm);
        LinkAbove(elm);
      } else if comp > 0 {
        RootBelow(cmp, tree, elm);
        LinkBelow(elm);
      } else {
        RootEqual(cmp, tree, elm.key);
        return root;
      }
      return null;
    }

    // ---- SPLAY_REMOVE

    /** The subtrees of the root are joined: the left one, splayed, takes the right one below its root. */
    method JoinSubtrees(k: K, ghost t0: Tree<Node<K>>) returns (ghost t': Tree<Node<K>>)
      requires Lawful(cmp) && Holds() && Rep(mem, t0, root) && Sep(t0) && Nodes(t0) <= mem.Keys
      requires SplayedTo(cmp, t0, k) && t0.l.Br? && Sorted(cmp, InOrder(t0.l))
      modifies this`root, this`mem, mem.Keys
      ensures Holds() && Rep(mem, t', root) && Sep(t') && mem.Keys == old(mem.Keys)
      ensures Nodes(t') == Nodes(t0) - {t0.n} && InOrder(t') == InOrder(t0.l) + InOrder(t0.r)
    {
      ghost var m0 := mem;
      var tmp := root.right;
      root := root.left;
      ghost var t := Splay(k, t0.l);
      NoRight(cmp, k, t);
      Frame(m0, mem, t0.r, tmp);
      HangRight(mem, t, root, t0.r, tmp);
      SetRight(root, tmp);
      t' := t.(r := t0.r);
    }

    /** The root is dropped. */
    method DropRoot(k: K)
      requires Lawful(cmp) && Shape() && SplayedTo(cmp, tree, k) && Sorted(cmp, InOrder(tree.l))
      modifies this, mem.Keys
      ensures Shape() && mem.Keys == old(mem.Keys) - {old(root)}
      ensures Order() == InOrder(old(tree).l) + InOrder(old(tree).r)
    {
      ghost var x := root;
      if root.left == null {
        root := root.right;
        assert InOrder(tree.l) + InOrder(tree.r) == InOrder(tree.r);
        tree := tree.r;
      } else {
        ghost var t := JoinSubtrees(k, tree);
        tree := t;
      }
      Forget(x, tree);
    }

    /** Returns elm itself when a node with an equal key was removed, which need not be elm. */
    method Remove(elm: Node<K>) returns (r: Node?<K>)
      requires Valid()
      modifies this, mem.Keys
      ensures Valid() && mem.Keys <= old(mem.Keys)
      ensures r == if Lookup(cmp, old(Order()), elm.key) == null then null else elm
      ensures Order() == Removed(cmp, old(Order()), elm.key)
    {
      if root == null {
        return null;
      }
      SplayAll(elm.key);
      var comp := cmp(elm.key, root.key);
      if comp == 0 {
        RootEqual(cmp, tree, elm.key);
        SortedPart(cmp, tree);
        DropRoot(elm.key);
        return elm;
      } else if comp < 0 {
        RootAbove(cmp, tree, elm);
      } else {
        RootBelow(cmp, tree, elm);
      }
      return null;
    }

    // ---- SPLAY_NEXT, SPLAY_MIN_MAX and the loop

    /** SPLAY_MIN and SPLAY_MAX: the first or the last node, or null in an empty tree. */
    method MinMax(val: int) returns (r: Node?<K>)
      requires Valid() && val != 0
      modifies this, mem.Keys
      ensures Valid() && Order() == old(Order()) && mem.Keys == old(mem.Keys)
      ensures r == if val < 0 then First(Order()) else Last(Order())
    {
      if root == null {
        return null;
      }
      tree := SplayMinMax(val, tree);
      return root;
    }

    /** The next node in order; the walk splays the tree at every step. */
    method Next(x: Node<K>, ghost i: nat) returns (elm: Node?<K>)
      requires Valid() && i < |Order()| && Order()[i] == x
      modifies this, mem.Keys
      ensures Valid() && Order() == old(Order()) && mem.Keys == old(mem.Keys)
      ensures elm == At(Order(), i + 1)
    {
      SplayAll(x.key);
      RootIs(i);
      if x.right != null {
        elm := Leftmost(x.right, tree.r);
      } else {
        elm := null;
      }
    }

    /** Splaying towards a node of the tree makes it the root. */
    lemma RootIs(i: nat)
      requires Valid() && i < |Order()| && SplayedTo(cmp, tree, Order()[i].key)
      ensures root == tree.n == Order()[i] && i == |InOrder(tree.l)|
      ensures tree.r.Br? <==> i + 1 < |Order()|
      ensures InOrder(tree.r) == Order()[i + 1..]
    {
      var a, n, b := InOrder(tree.l), Order()[i], InOrder(tree.r);
      assert cmp(n.key, n.key) == 0;
      assert n in a || n == tree.n || n in b;
      SortedIndex(cmp, Order(), i, |a|);
      NotEmpty(tree.r);
    }

    method Leftmost(x: Node<K>, ghost t0: Tree<Node<K>>) returns (elm: Node<K>)
      requires Holds() && Rep(mem, t0, x)
      ensures |InOrder(t0)| > 0 && elm == InOrder(t0)[0]
    {
      elm := x;
      ghost var t := t0;
      while elm.left != null
        invariant Rep(mem, t, elm) && elm in mem && |InOrder(t)| > 0 && InOrder(t)[0] == InOrder(t0)[0]
        decreases t
      {
        elm := elm.left;
        t := t.l;
        NotEmpty(t);
      }
    }

    /** Before the pass number k of a loop over the nodes of s. */
    ghost predicate Walking(x: Node?<K>, visited: seq<Node<K>>, s: seq<Node<K>>, k: nat)
      reads this, mem.Keys
    {
      Valid() && Order() == s && k <= |s| && x == At(s, k) && visited == s[..k]
    }

    method Walk(x: Node<K>, visited: seq<Node<K>>, ghost s: seq<Node<K>>, ghost k: nat)
      returns (y: Node?<K>, visited': seq<Node<K>>)
      requires Walking(x, visited, s, k)
      modifies this, mem.Keys
      ensures Walking(y, visited', s, k + 1) && mem.Keys == old(mem.Keys)
    {
      visited' := visited + [x];
      assert visited' == s[..k + 1];
      y := Next(x, k);
    }

    lemma WalkStart(x: Node?<K>)
      requires Valid() && x == At(Order(), 0)
      ensures Walking(x, [], Order(), 0)
    {
    }

    lemma WalkEnd(visited: seq<Node<K>>, s: seq<Node<K>>, k: nat)
      requires Walking(null, visited, s, k)
      ensures visited == s
    {
    }

    /** SPLAY_FOREACH: the nodes the loop visits, although every step rebuilds the tree. */
    method Foreach() returns (visited: seq<Node<K>>)
      requires Valid()
      modifies this, mem.Keys
      ensures Valid() && Order() == old(Order()) && visited == Order()
    {
      ghost var s, k, nodes := Order(), 0, mem.Keys;
      visited := [];
      var x := MinMax(-1);
      WalkStart(x);
      while x != null
        invariant mem.Keys == nodes && Walking(x, visited, s, k)
        decreases |s| - k
      {
        x, visited := Walk(x, visited, s, k);
        k := k + 1;
      }
      WalkEnd(visited, s, k);
    }

    // ---- any sequence of operations

    method Apply(op: Op<K>) returns (r: Node?<K>)
      requires Valid()
      modifies this, mem.Keys, op.n
      ensures Valid() && mem.Keys <= old(mem.Keys) + {op.n}
      ensures (Order(), r) == Step(cmp, old(Order()), op)
    {
      match op
      case InsertOp(n) => r := Insert(n);
      case RemoveOp(n) => r := Remove(n);
      case FindOp(n) => r := Find(n);
    }

    /** Every sequence of operations does and returns what the ordered set does and returns. */
    method ApplyAll(ops: seq<Op<K>>) returns (results: seq<Node?<K>>)
      requires Valid()
      modifies this, mem.Keys, set op | op in ops :: op.n
      ensures Valid() && (Order(), results) == Run(cmp, old(Order()), ops)
    {
      results := [];
      for i := 0 to |ops|
        invariant Valid() && mem.Keys <= old(mem.Keys) + set op | op in ops :: op.n
        invariant (Order(), results) == Run(cmp, old(Order()), ops[..i])
      {
        var r := Apply(ops[i]);
        results := results + [r];
        assert ops[..i + 1][..i] == ops[..i];
      }
      assert ops[..|ops|] == ops;
    }
  }
}

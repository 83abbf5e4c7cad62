/** Top-down splaying on values: the tree still to be searched between the two trees that grow beside it. */
module SplayModel {

  datatype Tree<N> = Leaf | Br(l: Tree<N>, n: N, r: Tree<N>)

  /** The left tree, from its root down its right edge to the hole at the end. */
  datatype LeftEdge<N> = LNil | LLink(up: LeftEdge<N>, l: Tree<N>, n: N)

  /** The right tree, from its root down its left edge to the hole at the end. */
  datatype RightEdge<N> = RNil | RLink(up: RightEdge<N>, n: N, r: Tree<N>)

  ghost function InOrder<N>(t: Tree<N>): seq<N> {
    match t
    case Leaf => []
    case Br(l, n, r) => InOrder(l) + [n] + InOrder(r)
  }

  lemma NotEmpty<N>(t: Tree<N>)
    ensures InOrder(t) == [] <==> t.Leaf?
  {
  }

  ghost function LOrder<N>(e: LeftEdge<N>): seq<N> {
    match e
    case LNil => []
    case LLink(up, l, n) => LOrder(up) + InOrder(l) + [n]
  }

  ghost function ROrder<N>(e: RightEdge<N>): seq<N> {
    match e
    case RNil => []
    case RLink(up, n, r) => [n] + InOrder(r) + ROrder(up)
  }

  ghost function Whole<N>(a: LeftEdge<N>, t: Tree<N>, b: RightEdge<N>): seq<N> {
    LOrder(a) + InOrder(t) + ROrder(b)
  }

  lemma WholeSplit<N>(a: LeftEdge<N>, t: Tree<N>, b: RightEdge<N>)
    requires t.Br?
    ensures Whole(a, t, b) == (LOrder(a) + InOrder(t.l)) + [t.n] + (InOrder(t.r) + ROrder(b))
    ensures ROrder(RLink(b, t.n, t.r)) == [t.n] + (InOrder(t.r) + ROrder(b))
    ensures LOrder(LLink(a, t.l, t.n)) == (LOrder(a) + InOrder(t.l)) + [t.n]
  {
  }

  // ---- node sets

  ghost function Nodes<N>(t: Tree<N>): set<N> {
    match t
    case Leaf => {}
    case Br(l, n, r) => Nodes(l) + {n} + Nodes(r)
  }

  ghost function LNodes<N>(e: LeftEdge<N>): set<N> {
    match e
    case LNil => {}
    case LLink(up, l, n) => LNodes(up) + Nodes(l) + {n}
  }

  ghost function RNodes<N>(e: RightEdge<N>): set<N> {
    match e
    case RNil => {}
    case RLink(up, n, r) => RNodes(up) + Nodes(r) + {n}
  }

  ghost predicate Sep<N>(t: Tree<N>) {
    t.Br? ==> Sep(t.l) && Sep(t.r) && t.n !in Nodes(t.l) && t.n !in Nodes(t.r) && Nodes(t.l) !! Nodes(t.r)
  }

  ghost predicate LSep<N>(e: LeftEdge<N>) {
    e.LLink? ==> LSep(e.up) && Sep(e.l) && e.n !in LNodes(e.up) && e.n !in Nodes(e.l) && LNodes(e.up) !! Nodes(e.l)
  }

  ghost predicate RSep<N>(e: RightEdge<N>) {
    e.RLink? ==> RSep(e.up) && Sep(e.r) && e.n !in RNodes(e.up) && e.n !in Nodes(e.r) && RNodes(e.up) !! Nodes(e.r)
  }

  /** The three trees and the header node h have no node in common. */
  ghost predicate Apart<N>(h: N, a: LeftEdge<N>, t: Tree<N>, b: RightEdge<N>) {
    && LSep(a) && Sep(t) && RSep(b) && LNodes(a) !! Nodes(t) && LNodes(a) !! RNodes(b) && Nodes(t) !! RNodes(b)
    && h !in LNodes(a) && h !in Nodes(t) && h !in RNodes(b)
  }

  // ---- the steps

  ghost function RotR<N>(t: Tree<N>): Tree<N>
    requires t.Br? && t.l.Br?
  {
    Br(t.l.l, t.l.n, Br(t.l.r, t.n, t.r))
  }

  ghost function RotL<N>(t: Tree<N>): Tree<N>
    requires t.Br? && t.r.Br?
  {
    Br(Br(t.l, t.n, t.r.l), t.r.n, t.r.r)
  }

  lemma RotROrder<N>(t: Tree<N>)
    requires t.Br? && t.l.Br?
    ensures InOrder(RotR(t)) == InOrder(t)
  {
    assert InOrder(t.l) == InOrder(t.l.l) + [t.l.n] + InOrder(t.l.r);
    assert InOrder(RotR(t).r) == InOrder(t.l.r) + [t.n] + InOrder(t.r);
    Regroup(InOrder(t.l.l), [t.l.n], InOrder(t.l.r), [t.n], InOrder(t.r));
  }

  lemma RotLOrder<N>(t: Tree<N>)
    requires t.Br? && t.r.Br?
    ensures InOrder(RotL(t)) == InOrder(t)
  {
    RotROrder(RotL(t));
  }

  lemma Regroup<N>(a: seq<N>, x: seq<N>, b: seq<N>, y: seq<N>, c: seq<N>)
    ensures (a + x + b) + y + c == a + x + (b + y + c)
  {
  }

  lemma RotRKeeps<N>(h: N, a: LeftEdge<N>, t: Tree<N>, b: RightEdge<N>)
    requires t.Br? && t.l.Br?
    ensures InOrder(RotR(t)) == InOrder(t) && Nodes(RotR(t)) == Nodes(t)
    ensures Sep(RotR(t)) <==> Sep(t)
    ensures Apart(h, a, t, b) <==> Apart(h, a, RotR(t), b)
    ensures Sep(t) ==> Sep(t.l)
  {
    RotROrder(t);
    assert Nodes(t.l) == Nodes(t.l.l) + {t.l.n} + Nodes(t.l.r);
    assert Nodes(RotR(t).r) == Nodes(t.l.r) + {t.n} + Nodes(t.r);
    RotRSep(t);
  }

  lemma RotRSep<N>(t: Tree<N>)
    requires t.Br? && t.l.Br?
    ensures Sep(RotR(t)) <==> Sep(t)
    ensures Sep(t) ==> Sep(t.l)
  {
    var x, y := t.l, RotR(t).r;
    assert Nodes(x) == Nodes(x.l) + {x.n} + Nodes(x.r) && Nodes(y) == Nodes(x.r) + {t.n} + Nodes(t.r);
    assert Sep(x) <==> Sep(x.l) && Sep(x.r) && x.n !in Nodes(x.l) && x.n !in Nodes(x.r) && Nodes(x.l) !! Nodes(x.r);
    assert Sep(y) <==> Sep(x.r) && Sep(t.r) && t.n !in Nodes(x.r) && t.n !in Nodes(t.r) && Nodes(x.r) !! Nodes(t.r);
  }

  lemma RotLKeeps<N>(h: N, a: LeftEdge<N>, t: Tree<N>, b: RightEdge<N>)
    requires t.Br? && t.r.Br?
    ensures InOrder(RotL(t)) == InOrder(t) && Nodes(RotL(t)) == Nodes(t)
    ensures Apart(h, a, t, b) <==> Apart(h, a, RotL(t), b)
    ensures Sep(t) ==> Sep(t.r)
  {
    RotRKeeps(h, a, RotL(t), b);
    assert RotR(RotL(t)) == t;
  }

  lemma LinkRightKeeps<N>(h: N, a: LeftEdge<N>, t: Tree<N>, b: RightEdge<N>)
    requires t.Br?
    ensures Whole(a, t.l, RLink(b, t.n, t.r)) == Whole(a, t, b)
    ensures LNodes(a) + Nodes(t) + RNodes(b) == LNodes(a) + Nodes(t.l) + RNodes(RLink(b, t.n, t.r))
    ensures Apart(h, a, t, b) ==> Apart(h, a, t.l, RLink(b, t.n, t.r))
  {
  }

  lemma LinkLeftKeeps<N>(h: N, a: LeftEdge<N>, t: Tree<N>, b: RightEdge<N>)
    requires t.Br?
    ensures Whole(LLink(a, t.l, t.n), t.r, b) == Whole(a, t, b)
    ensures LNodes(a) + Nodes(t) + RNodes(b) == LNodes(LLink(a, t.l, t.n)) + Nodes(t.r) + RNodes(b)
    ensures Apart(h, a, t, b) ==> Apart(h, LLink(a, t.l, t.n), t.r, b)
  {
  }

  // ---- the final assembly

  ghost function LFill<N>(e: LeftEdge<N>, t: Tree<N>): Tree<N>
    decreases e
  {
    if e.LNil? then t else LFill(e.up, Br(e.l, e.n, t))
  }

  ghost function RFill<N>(e: RightEdge<N>, t: Tree<N>): Tree<N>
    decreases e
  {
    if e.RNil? then t else RFill(e.up, Br(t, e.n, e.r))
  }

  lemma {:induction false} LFillKeeps<N>(e: LeftEdge<N>, t: Tree<N>)
    ensures InOrder(LFill(e, t)) == LOrder(e) + InOrder(t)
    ensures Nodes(LFill(e, t)) == LNodes(e) + Nodes(t)
    ensures LSep(e) && Sep(t) && LNodes(e) !! Nodes(t) ==> Sep(LFill(e, t))
    decreases e
  {
    if e.LLink? {
      LFillKeeps(e.up, Br(e.l, e.n, t));
      assert LOrder(e.up) + (InOrder(e.l) + [e.n] + InOrder(t)) == LOrder(e) + InOrder(t);
    }
  }

  lemma {:induction false} RFillKeeps<N>(e: RightEdge<N>, t: Tree<N>)
    ensures InOrder(RFill(e, t)) == InOrder(t) + ROrder(e)
    ensures Nodes(RFill(e, t)) == RNodes(e) + Nodes(t)
    ensures RSep(e) && Sep(t) && RNodes(e) !! Nodes(t) ==> Sep(RFill(e, t))
    decreases e
  {
    if e.RLink? {
      var u := Br(t, e.n, e.r);
      RFillKeeps(e.up, u);
      assert InOrder(u) == InOrder(t) + [e.n] + InOrder(e.r) && Nodes(u) == Nodes(t) + {e.n} + Nodes(e.r);
      assert (InOrder(t) + [e.n] + InOrder(e.r)) + ROrder(e.up) == InOrder(t) + ROrder(e);
    }
  }

  ghost function Assembled<N>(a: LeftEdge<N>, t: Tree<N>, b: RightEdge<N>): Tree<N>
    requires t.Br?
  {
    Br(LFill(a, t.l), t.n, RFill(b, t.r))
  }

  lemma AssembledKeeps<N>(h: N, a: LeftEdge<N>, t: Tree<N>, b: RightEdge<N>)
    requires t.Br?
    ensures InOrder(Assembled(a, t, b)) == Whole(a, t, b)
    ensures Nodes(Assembled(a, t, b)) == LNodes(a) + Nodes(t) + RNodes(b)
    ensures Apart(h, a, t, b) ==> Sep(Assembled(a, t, b))
    ensures InOrder(Assembled(a, t, b).l) == LOrder(a) + InOrder(t.l)
    ensures InOrder(Assembled(a, t, b).r) == InOrder(t.r) + ROrder(b)
  {
    LFillKeeps(a, t.l);
    RFillKeeps(b, t.r);
    WholeSplit(a, t, b);
    AssembledSep(h, a, t, b);
  }

  lemma AssembledSep<N>(h: N, a: LeftEdge<N>, t: Tree<N>, b: RightEdge<N>)
    requires t.Br?
    ensures Apart(h, a, t, b) ==> Sep(Assembled(a, t, b))
  {
    LFillKeeps(a, t.l);
    RFillKeeps(b, t.r);
  }

  lemma {:induction false} NodesInOrder<N>(t: Tree<N>)
    ensures forall n :: n in Nodes(t) <==> n in InOrder(t)
  {
    if t.Br? {
      NodesInOrder(t.l);
      NodesInOrder(t.r);
    }
  }
}

/** The nodes that the tree macros link, and the order that their `cmp` parameter puts on the keys. */
module TreeNode {

  datatype Color = Black | Red

  /** A node with the link fields of RB_ENTRY; SPLAY_ENTRY has the first two of them only. */
  class Node<K> {
    var left: Node?<K>
    var right: Node?<K>
    var parent: Node?<K>
    var color: Color
    const key: K

    constructor (key: K)
      ensures this.key == key && left == null && right == null && parent == null
    {
      this.key := key;
      left, right, parent, color := null, null, null, Black;
    }
  }

  /** `cmp` orders the keys like a C comparison function: the sign of the result is that of a total preorder. */
  ghost predicate Lawful<K(!new)>(cmp: (K, K) -> int) {
    && (forall x, y :: cmp(x, y) < 0 <==> cmp(y, x) > 0)
    && (forall x, y, z :: cmp(x, y) <= 0 && cmp(y, z) <= 0 ==> cmp(x, z) <= 0)
  }

  lemma BelowTransitive<K(!new)>(cmp: (K, K) -> int, x: K, y: K, z: K)
    requires Lawful(cmp)
    requires (cmp(x, y) < 0 && cmp(y, z) <= 0) || (cmp(x, y) <= 0 && cmp(y, z) < 0)
    ensures cmp(x, z) < 0 && cmp(z, x) > 0
  {
    assert cmp(z, x) <= 0 ==> cmp(y, x) <= 0 || cmp(z, y) <= 0;
    assert cmp(y, x) > 0 || cmp(z, y) > 0;
  }

  ghost function First<K>(s: seq<Node<K>>): Node?<K> {
    if s == [] then null else s[0]
  }

  ghost function Last<K>(s: seq<Node<K>>): Node?<K> {
    if s == [] then null else s[|s| - 1]
  }

  /** The node at index i, or null outside the sequence. */
  ghost function At<K>(s: seq<Node<K>>, i: int): Node?<K> {
    if 0 <= i < |s| then s[i] else null
  }

  // ---- key order

  ghost predicate Sorted<K>(cmp: (K, K) -> int, s: seq<Node<K>>) {
    forall i, j :: 0 <= i < j < |s| ==> cmp(s[i].key, s[j].key) < 0
  }

  /** Every node of s comes before key k. */
  ghost predicate Below<K>(cmp: (K, K) -> int, s: seq<Node<K>>, k: K) {
    forall i :: 0 <= i < |s| ==> cmp(k, s[i].key) > 0
  }

  /** Every node of s comes after key k. */
  ghost predicate Above<K>(cmp: (K, K) -> int, s: seq<Node<K>>, k: K) {
    forall i :: 0 <= i < |s| ==> cmp(k, s[i].key) < 0
  }

  /** The key of a node bounds what lies beside the node. */
  lemma SidesOfKey<K(!new)>(cmp: (K, K) -> int, s: seq<Node<K>>, n: Node<K>, r: seq<Node<K>>, k: K)
    requires Lawful(cmp) && Sorted(cmp, s + [n] + r)
    ensures cmp(k, n.key) >= 0 ==> Below(cmp, s, k)
    ensures cmp(k, n.key) <= 0 ==> Above(cmp, r, k)
  {
    var w := s + [n] + r;
    forall i | 0 <= i < |s| ensures cmp(k, n.key) >= 0 ==> cmp(k, s[i].key) > 0 {
      assert w[i] == s[i] && w[|s|] == n;
      if cmp(k, n.key) >= 0 {
        BelowTransitive(cmp, s[i].key, n.key, k);
      }
    }
    forall i | 0 <= i < |r| ensures cmp(k, n.key) <= 0 ==> cmp(k, r[i].key) < 0 {
      assert w[|s| + 1 + i] == r[i] && w[|s|] == n;
      if cmp(k, n.key) <= 0 {
        BelowTransitive(cmp, k, n.key, r[i].key);
      }
    }
  }

  lemma SortedWith<K(!new)>(cmp: (K, K) -> int, s: seq<Node<K>>, n: Node<K>, r: seq<Node<K>>)
    requires Lawful(cmp) && Sorted(cmp, s + r) && Below(cmp, s, n.key) && Above(cmp, r, n.key)
    ensures Sorted(cmp, s + [n] + r)
  {
    var w, v := s + [n] + r, s + r;
    forall i, j | 0 <= i < j < |w| ensures cmp(w[i].key, w[j].key) < 0 {
      assert i != |s| && j != |s| ==>
        w[i] == v[if i < |s| then i else i - 1] && w[j] == v[if j < |s| then j else j - 1];
    }
  }

  /** A node with key k fits between what is below k and what is above k, and is not there yet. */
  lemma GapFits<K(!new)>(cmp: (K, K) -> int, s: seq<Node<K>>, elm: Node<K>, r: seq<Node<K>>)
    requires Lawful(cmp) && Sorted(cmp, s + r) && Below(cmp, s, elm.key) && Above(cmp, r, elm.key)
    ensures Sorted(cmp, s + [elm] + r)
    ensures forall n :: n in s + r ==> cmp(elm.key, n.key) != 0
    ensures elm !in s + r
  {
    SortedWith(cmp, s, elm, r);
    assert cmp(elm.key, elm.key) == 0;
  }

  lemma SortedWithout<K(!new)>(cmp: (K, K) -> int, s: seq<Node<K>>, n: Node<K>, r: seq<Node<K>>)
    requires Sorted(cmp, s + [n] + r)
    ensures Sorted(cmp, s + r)
  {
    var w, v := s + [n] + r, s + r;
    forall i, j | 0 <= i < j < |v| ensures cmp(v[i].key, v[j].key) < 0 {
      assert v[i] == w[if i < |s| then i else i + 1] && v[j] == w[if j < |s| then j else j + 1];
    }
  }

  lemma SortedIndex<K(!new)>(cmp: (K, K) -> int, s: seq<Node<K>>, i: nat, j: nat)
    requires Lawful(cmp) && Sorted(cmp, s) && i < |s| && j < |s| && s[i] == s[j]
    ensures i == j
  {
  }
}

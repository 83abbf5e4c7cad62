/** What an ordered set does, on the ascending sequence of its nodes: the specification of both trees. */
module OrderedSet {
  import opened TreeNode

  /** The node with a key equal to k, or null. */
  ghost function Lookup<K(!new)>(cmp: (K, K) -> int, s: seq<Node<K>>, k: K): Node?<K> {
    if s == [] then null
    else if cmp(k, s[0].key) == 0 then s[0]
    else Lookup(cmp, s[1..], k)
  }

  ghost function Inserted<K(!new)>(cmp: (K, K) -> int, s: seq<Node<K>>, n: Node<K>): seq<Node<K>> {
    if s == [] || cmp(n.key, s[0].key) < 0 then [n] + s
    else [s[0]] + Inserted(cmp, s[1..], n)
  }

  ghost function Removed<K(!new)>(cmp: (K, K) -> int, s: seq<Node<K>>, k: K): seq<Node<K>> {
    if s == [] then []
    else if cmp(k, s[0].key) == 0 then s[1..]
    else [s[0]] + Removed(cmp, s[1..], k)
  }

  ghost function Reversed<T>(s: seq<T>): seq<T> {
    if s == [] then [] else Reversed(s[1..]) + [s[0]]
  }

  /** The elements of s that are not in drop, in their order. */
  ghost function Without<T>(s: seq<T>, drop: set<T>): seq<T> {
    if s == [] then []
    else Without(s[..|s| - 1], drop) + if s[|s| - 1] in drop then [] else [s[|s| - 1]]
  }

  lemma {:induction false} WithoutMeaning<T>(s: seq<T>, drop: set<T>)
    ensures forall x :: x in Without(s, drop) <==> x in s && x !in drop
  {
    if s != [] {
      WithoutMeaning(s[..|s| - 1], drop);
      assert forall x :: x in s <==> x in s[..|s| - 1] || x == s[|s| - 1];
    }
  }

  /** What is left of s when its first k elements were dropped or kept. */
  ghost function Dropping<T>(s: seq<T>, drop: set<T>, k: nat): seq<T>
    requires k <= |s|
  {
    Without(s[..k], drop) + s[k..]
  }

  lemma DroppingEnds<T>(s: seq<T>, drop: set<T>)
    ensures Dropping(s, drop, 0) == s && Dropping(s, drop, |s|) == Without(s, drop) && s[..0] == [] && s[..|s|] == s
  {
    assert s[..|s|] == s;
  }

  /** One element more is dropped or kept. */
  lemma DroppingNext<T>(s: seq<T>, drop: set<T>, k: nat)
    requires k < |s|
    ensures var now := Dropping(s, drop, k); var i := |now| - (|s| - k);
      && 0 <= i < |now| && now[i] == s[k] && (k + 1 < |s| ==> now[i + 1] == s[k + 1])
      && Dropping(s, drop, k + 1) == if s[k] in drop then now[..i] + now[i + 1..] else now
  {
    assert s[..k + 1][..k] == s[..k] && s[k..] == [s[k]] + s[k + 1..];
  }

  lemma {:induction false} ReversedEnd<T>(s: seq<T>)
    requires s != []
    ensures Reversed(s) == [s[|s| - 1]] + Reversed(s[..|s| - 1])
  {
    if |s| > 1 {
      ReversedEnd(s[1..]);
      assert s[1..][..|s| - 2] == s[..|s| - 1][1..];
    }
  }

  /** A loop that comes from the end to the element at i - 1 has visited the rest backwards. */
  lemma VisitedBack<T>(visited: seq<T>, s: seq<T>, i: nat)
    requires 0 < i <= |s| && visited + Reversed(s[..i]) == Reversed(s)
    ensures (visited + [s[i - 1]]) + Reversed(s[..i - 1]) == Reversed(s)
  {
    ReversedEnd(s[..i]);
    assert s[..i][..i - 1] == s[..i - 1];
    Rejoin(visited, s[i - 1], Reversed(s[..i - 1]));
  }

  lemma Rejoin<T>(v: seq<T>, x: T, r: seq<T>)
    ensures v + ([x] + r) == (v + [x]) + r
  {
  }

  lemma VisitedEnds<T>(s: seq<T>)
    ensures [] + Reversed(s[..|s|]) == Reversed(s) && Reversed(s[..0]) == []
  {
    assert s[..|s|] == s;
  }

  // ---- what they mean

  lemma {:induction false} LookupMeaning<K(!new)>(cmp: (K, K) -> int, s: seq<Node<K>>, k: K)
    ensures Lookup(cmp, s, k) == null <==> forall n :: n in s ==> cmp(k, n.key) != 0
    ensures Lookup(cmp, s, k) != null ==> Lookup(cmp, s, k) in s && cmp(k, Lookup(cmp, s, k).key) == 0
  {
    if s != [] {
      LookupMeaning(cmp, s[1..], k);
      assert forall n :: n in s <==> n == s[0] || n in s[1..];
    }
  }

  // ---- at a place where the key divides the sequence

  lemma AtGap<K(!new)>(cmp: (K, K) -> int, a: seq<Node<K>>, b: seq<Node<K>>, n: Node<K>)
    requires Below(cmp, a, n.key) && Above(cmp, b, n.key)
    ensures Lookup(cmp, a + b, n.key) == null
    ensures Inserted(cmp, a + b, n) == a + [n] + b
    ensures Removed(cmp, a + b, n.key) == a + b
  {
    GapIsFilled(cmp, a, b, n);
    forall i | 0 <= i < |a + b| ensures cmp(n.key, (a + b)[i].key) != 0 {
    }
    NoneEqual(cmp, a + b, n.key);
  }

  lemma {:induction false} GapIsFilled<K(!new)>(cmp: (K, K) -> int, a: seq<Node<K>>, b: seq<Node<K>>, n: Node<K>)
    requires Below(cmp, a, n.key) && Above(cmp, b, n.key)
    ensures Inserted(cmp, a + b, n) == a + [n] + b
  {
    if a != [] {
      GapIsFilled(cmp, a[1..], b, n);
      assert (a + b)[0] == a[0] && (a + b)[1..] == a[1..] + b;
      assert [a[0]] + (a[1..] + [n] + b) == a + [n] + b;
    } else {
      assert a + b == b;
    }
  }

  lemma {:induction false} NoneEqual<K(!new)>(cmp: (K, K) -> int, s: seq<Node<K>>, k: K)
    requires forall i :: 0 <= i < |s| ==> cmp(k, s[i].key) != 0
    ensures Lookup(cmp, s, k) == null && Removed(cmp, s, k) == s
  {
    if s != [] {
      NoneEqual(cmp, s[1..], k);
    }
  }

  lemma {:induction false} AtNode<K(!new)>(cmp: (K, K) -> int, a: seq<Node<K>>, n: Node<K>, b: seq<Node<K>>, k: K)
    requires Below(cmp, a, k) && cmp(k, n.key) == 0
    ensures Lookup(cmp, a + [n] + b, k) == n
    ensures Removed(cmp, a + [n] + b, k) == a + b
  {
    var s := a + [n] + b;
    if a != [] {
      AtNode(cmp, a[1..], n, b, k);
      assert s[1..] == a[1..] + [n] + b && [a[0]] + (a[1..] + b) == a + b;
    } else {
      assert s[1..] == b;
    }
  }

  /** What remains when a node is taken out of an ascending sequence. */
  lemma WithoutNode<K(!new)>(cmp: (K, K) -> int, s: seq<Node<K>>, n: Node<K>, z: seq<Node<K>>)
    requires Lawful(cmp) && Sorted(cmp, s + [n] + z)
    ensures Sorted(cmp, s + z) && Removed(cmp, s + [n] + z, n.key) == s + z
    ensures var w := s + [n] + z; w[|s|] == n && w[..|s|] == s && w[|s| + 1..] == z
  {
    SortedWithout(cmp, s, n, z);
    SidesOfKey(cmp, s, n, z, n.key);
    AtNode(cmp, s, n, z, n.key);
  }

  // ---- sequences of operations

  datatype Op<K> = InsertOp(n: Node<K>) | RemoveOp(n: Node<K>) | FindOp(n: Node<K>)

  /** The set after one operation, and what the operation returns. */
  ghost function Step<K(!new)>(cmp: (K, K) -> int, s: seq<Node<K>>, op: Op<K>): (seq<Node<K>>, Node?<K>) {
    var found := Lookup(cmp, s, op.n.key);
    match op
    case InsertOp(n) => (if found == null then Inserted(cmp, s, n) else s, found)
    case RemoveOp(n) => (Removed(cmp, s, n.key), if found == null then null else n)
    case FindOp(n) => (s, found)
  }

  ghost function Run<K(!new)>(cmp: (K, K) -> int, s: seq<Node<K>>, ops: seq<Op<K>>): (seq<Node<K>>, seq<Node?<K>>) {
    if ops == [] then (s, [])
    else
      var (s1, results) := Run(cmp, s, ops[..|ops| - 1]);
      var (s2, r) := Step(cmp, s1, ops[|ops| - 1]);
      (s2, results + [r])
  }

  /** The place where key k divides an ascending sequence. */
  lemma {:induction false} Divide<K(!new)>(cmp: (K, K) -> int, s: seq<Node<K>>, k: K) returns (i: nat)
    requires Lawful(cmp) && Sorted(cmp, s)
    ensures i <= |s| && Below(cmp, s[..i], k)
    ensures i < |s| ==>
      cmp(k, s[i].key) <= 0 && Above(cmp, s[i + 1..], k) && (cmp(k, s[i].key) < 0 ==> Above(cmp, s[i..], k))
  {
    i := 0;
    while i < |s| && cmp(k, s[i].key) > 0
      invariant i <= |s| && Below(cmp, s[..i], k)
    {
      i := i + 1;
    }
    if i < |s| {
      AboveFrom(cmp, s, i, k);
    }
  }

  lemma AboveFrom<K(!new)>(cmp: (K, K) -> int, s: seq<Node<K>>, i: nat, k: K)
    requires Lawful(cmp) && Sorted(cmp, s) && i < |s| && cmp(k, s[i].key) <= 0
    ensures Above(cmp, s[i + 1..], k) && (cmp(k, s[i].key) < 0 ==> Above(cmp, s[i..], k))
  {
    assert s == s[..i] + [s[i]] + s[i + 1..];
    SidesOfKey(cmp, s[..i], s[i], s[i + 1..], k);
    assert s[i..] == [s[i]] + s[i + 1..];
  }

  lemma Members<T>(a: seq<T>, x: T, b: seq<T>)
    ensures forall y :: y in a + [x] + b <==> y in a + b || y == x
  {
    assert forall y :: y in a + [x] + b <==> y in a || y == x || y in b;
    assert forall y :: y in a + b <==> y in a || y in b;
  }

  /** Inserting a new key keeps the order and adds the node. */
  lemma InsertMeaning<K(!new)>(cmp: (K, K) -> int, s: seq<Node<K>>, n: Node<K>)
    requires Lawful(cmp) && Sorted(cmp, s) && Lookup(cmp, s, n.key) == null
    ensures Sorted(cmp, Inserted(cmp, s, n))
    ensures forall x :: x in Inserted(cmp, s, n) <==> x in s || x == n
  {
    LookupMeaning(cmp, s, n.key);
    var i := Divide(cmp, s, n.key);
    var a, b := s[..i], s[i..];
    assert i < |s| ==> s[i] in s;
    assert s == a + b;
    AtGap(cmp, a, b, n);
    GapFits(cmp, a, n, b);
    Members(a, n, b);
  }

  /** Removing a key keeps the order and drops exactly the node with that key. */
  lemma RemoveMeaning<K(!new)>(cmp: (K, K) -> int, s: seq<Node<K>>, k: K)
    requires Lawful(cmp) && Sorted(cmp, s)
    ensures Sorted(cmp, Removed(cmp, s, k))
    ensures forall x :: x in Removed(cmp, s, k) <==> x in s && cmp(k, x.key) != 0
  {
    var i := Divide(cmp, s, k);
    if i < |s| && cmp(k, s[i].key) == 0 {
      RemovePresent(cmp, s[..i], s[i], s[i + 1..], s, k);
    } else {
      RemoveAbsent(cmp, s[..i], s[i..], s, k);
    }
  }

  lemma RemovePresent<K(!new)>(cmp: (K, K) -> int, a: seq<Node<K>>, n: Node<K>, b: seq<Node<K>>, s: seq<Node<K>>, k: K)
    requires s == a + [n] + b && Sorted(cmp, s) && Below(cmp, a, k) && Above(cmp, b, k) && cmp(k, n.key) == 0
    ensures Sorted(cmp, Removed(cmp, s, k))
    ensures forall x :: x in Removed(cmp, s, k) <==> x in s && cmp(k, x.key) != 0
  {
    AtNode(cmp, a, n, b, k);
    SortedWithout(cmp, a, n, b);
    Members(a, n, b);
  }

  lemma {:induction false} RemoveAbsent<K(!new)>(cmp: (K, K) -> int, a: seq<Node<K>>, b: seq<Node<K>>,
      s: seq<Node<K>>, k: K)
    requires s == a + b && Below(cmp, a, k) && Above(cmp, b, k)
    ensures Removed(cmp, s, k) == s
    ensures forall x :: x in s ==> cmp(k, x.key) != 0
  {
    if a == [] {
      assert s == b;
      NoneEqual(cmp, b, k);
    } else {
      RemoveAbsent(cmp, a[1..], b, s[1..], k);
    }
  }
}

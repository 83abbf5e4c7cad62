/** One allocation for an instance, its descriptors, the padding and the chunks of memory that they describe. */
module BufferLayout {
  import opened Wrappers

  function Pow2(n: nat): (p: nat)
    ensures p >= 1
  {
    if n == 0 then 1 else 2 * Pow2(n - 1)
  }

  // ---- the operators & and ~ on unsigned numbers

  function And(x: nat, y: nat): nat {
    if x == 0 || y == 0 then 0 else 2 * And(x / 2, y / 2) + (x % 2) * (y % 2)
  }

  /** ~x, for a number of w bits. */
  function Not(w: nat, x: nat): int {
    Pow2(w) - 1 - x
  }

  lemma ProductLess(q: nat, u: nat, m: nat)
    requires q < u
    ensures q * m + m <= u * m
  {
    assert u * m == q * m + (u - q) * m;
    assert (u - q) * m == m + (u - q - 1) * m;
  }

  lemma QuotientIsUnique(m: nat, q: nat, r: nat, d: nat, e: nat)
    requires q * m + r == d * m + e && r < m && e < m
    ensures q == d && r == e
  {
    if q < d {
      ProductLess(q, d, m);
    } else if d < q {
      ProductLess(d, q, m);
    }
  }

  lemma DivisionIsUnique(x: nat, m: nat, q: nat, r: nat)
    requires m > 0 && x == q * m + r && r < m
    ensures x / m == q && x % m == r
  {
    QuotientIsUnique(m, q, r, x / m, x % m);
  }

  lemma ModuloDouble(x: nat, m: nat)
    requires m > 0
    ensures x % (2 * m) == 2 * ((x / 2) % m) + x % 2
  {
    var q, r := (x / 2) / m, (x / 2) % m;
    assert x / 2 == q * m + r;
    assert x == q * (2 * m) + (2 * r + x % 2);
    DivisionIsUnique(x, 2 * m, q, 2 * r + x % 2);
  }

  lemma {:induction false} AndAllOnes(x: nat, w: nat)
    requires x < Pow2(w)
    ensures And(x, Pow2(w) - 1) == x
  {
    if x > 0 {
      assert (Pow2(w) - 1) / 2 == Pow2(w - 1) - 1 && (Pow2(w) - 1) % 2 == 1;
      AndAllOnes(x / 2, w - 1);
    }
  }

  lemma {:induction false} Pow2Monotone(k: nat, w: nat)
    requires k <= w
    ensures Pow2(k) <= Pow2(w)
  {
    if k < w {
      Pow2Monotone(k, w - 1);
    }
  }

  /** Masking with ~(A - 1), for any power of two A, clears what A leaves over. */
  lemma {:induction false} MaskClears(x: nat, k: nat, w: nat)
    requires k <= w && x < Pow2(w)
    ensures Not(w, Pow2(k) - 1) >= 0
    ensures And(x, Not(w, Pow2(k) - 1)) == x - x % Pow2(k)
  {
    Pow2Monotone(k, w);
    if k == 0 {
      AndAllOnes(x, w);
      assert x % 1 == 0;
    } else {
      var m := Pow2(w - 1) - Pow2(k - 1);
      Pow2Monotone(k - 1, w - 1);
      assert Not(w, Pow2(k) - 1) == 2 * m;
      MaskClears(x / 2, k - 1, w - 1);
      ModuloDouble(x, Pow2(k - 1));
      AndEven(x, m);
      assert And(x, 2 * m) == 2 * (x / 2 - (x / 2) % Pow2(k - 1));
    }
  }

  lemma AndEven(x: nat, m: nat)
    ensures And(x, 2 * m) == 2 * And(x / 2, m)
  {
    assert (2 * m) / 2 == m && (2 * m) % 2 == 0;
  }

  /** (x + A - 1) & ~(A - 1) */
  function RoundUp(x: nat, k: nat, w: nat): nat
    requires k <= w && x + Pow2(k) - 1 < Pow2(w)
  {
    MaskClears(x + Pow2(k) - 1, k, w);
    And(x + Pow2(k) - 1, Not(w, Pow2(k) - 1))
  }

  /** It is the least multiple of A that is not below x. */
  lemma RoundUpIsLeast(x: nat, k: nat, w: nat)
    requires k <= w && x + Pow2(k) - 1 < Pow2(w)
    ensures var r := RoundUp(x, k, w); r % Pow2(k) == 0 && x <= r < x + Pow2(k)
  {
    MaskClears(x + Pow2(k) - 1, k, w);
    RemainderCleared(x + Pow2(k) - 1, Pow2(k));
  }

  lemma RemainderCleared(y: nat, m: nat)
    requires m > 0
    ensures 0 <= y % m < m && y % m <= y && (y - y % m) % m == 0
  {
    DivisionIsUnique(y - y % m, m, y / m, 0);
  }

  // ---- the layout

  /** What the compiler has decided: the size of an instance, the offset of its first descriptor, the size of a
      descriptor, the strictest alignment, which is 2 to the power `align`, and the width of std::size_t. */
  datatype Layout = Layout(instanceSize: nat, firstOffset: nat, descriptorSize: nat, align: nat, width: nat)

  /** A descriptor lies within the instance. */
  ghost predicate Possible(l: Layout) {
    l.firstOffset + l.descriptorSize <= l.instanceSize && l.align <= l.width && l.descriptorSize > 0
  }

  function HeaderSize(l: Layout, extra: nat): nat {
    l.instanceSize + extra * l.descriptorSize
  }

  /** The sizes are numbers of the machine. */
  ghost predicate Representable(l: Layout, extra: nat) {
    l.align <= l.width && HeaderSize(l, extra) + Pow2(l.align) - 1 < Pow2(l.width)
  }

  function AlignmentPadding(l: Layout, extra: nat): nat
    requires Representable(l, extra)
  {
    RoundUpIsLeast(HeaderSize(l, extra), l.align, l.width);
    RoundUp(HeaderSize(l, extra), l.align, l.width) - HeaderSize(l, extra)
  }

  ghost function Sum(lens: seq<nat>): nat {
    if lens == [] then 0 else Sum(lens[..|lens| - 1]) + lens[|lens| - 1]
  }

  ghost function Extra(lens: seq<nat>): nat {
    if lens == [] then 0 else |lens| - 1
  }

  /** The size that is asked of the allocator. */
  ghost function AllocationSize(l: Layout, lens: seq<nat>): nat
    requires Representable(l, Extra(lens))
  {
    HeaderSize(l, Extra(lens)) + AlignmentPadding(l, Extra(lens)) + Sum(lens)
  }

  /** A descriptor; no base is the null pointer. */
  datatype Descriptor = Descriptor(base: Option<nat>, len: nat)

  /** Where the descriptors of an instance at this address begin, where they end, and where the first chunk begins. */
  ghost function FirstDescriptor(l: Layout, at: nat): nat {
    at + l.firstOffset
  }

  ghost function DescriptorsEnd(l: Layout, at: nat, n: nat): nat {
    FirstDescriptor(l, at) + n * l.descriptorSize
  }

  ghost function FirstBase(l: Layout, at: nat, n: nat): nat
    requires n > 0 && Representable(l, n - 1)
  {
    DescriptorsEnd(l, at, n) + AlignmentPadding(l, n - 1)
  }

  ghost function Base(l: Layout, at: nat, lens: seq<nat>, i: nat): nat
    requires lens != [] && Representable(l, |lens| - 1) && i <= |lens|
  {
    FirstBase(l, at, |lens|) + Sum(lens[..i])
  }

  /** What the descriptors of an instance have to be. Without any memory all of them are null. Otherwise each has the
      length of its chunk; the first chunk begins behind the descriptors and the padding, and every other where the one
      before ends. */
  ghost predicate LaidOut(l: Layout, at: nat, lens: seq<nat>, ds: seq<Descriptor>)
    requires Representable(l, Extra(lens))
  {
    if Sum(lens) == 0 then
      |ds| == Extra(lens) + 1 && forall i :: 0 <= i < |ds| ==> ds[i] == Descriptor(None, 0)
    else
      && |ds| == |lens| && (forall i :: 0 <= i < |lens| ==> ds[i].base.Some? && ds[i].len == lens[i])
      && ds[0].base.value == at + l.firstOffset + |lens| * l.descriptorSize + AlignmentPadding(l, |lens| - 1)
      && forall i :: 0 < i < |lens| ==> ds[i].base.value == ds[i - 1].base.value + ds[i - 1].len
  }

  class Instance {
    var count: nat
    var descriptors: array<Descriptor>

    /** The instance at an address. */
    constructor (l: Layout, at: nat, lens: seq<nat>)
      requires Representable(l, Extra(lens))
      ensures fresh(descriptors) && count == descriptors.Length
      ensures LaidOut(l, at, lens, descriptors[..])
    {
      count := if |lens| == 0 then 1 else |lens|;
      descriptors := new Descriptor[if |lens| == 0 then 1 else |lens|](i => Descriptor(None, 0));
      new;
      if |lens| == 0 {
        descriptors[0] := Descriptor(None, 0);
      } else {
        var total := SetLengths(lens);
        if total == 0 {
          SetNull();
        } else {
          SetBases(l, at, lens);
        }
      }
    }

    method SetLengths(lens: seq<nat>) returns (total: nat)
      requires descriptors.Length == |lens|
      modifies descriptors
      ensures total == Sum(lens)
      ensures forall j :: 0 <= j < |lens| ==> descriptors[j].len == lens[j]
    {
      total := 0;
      var i := 0;
      while i < |lens|
        invariant 0 <= i <= |lens| && total == Sum(lens[..i])
        invariant forall j :: 0 <= j < i ==> descriptors[j].len == lens[j]
      {
        assert lens[..i + 1][..i] == lens[..i];
        descriptors[i] := Descriptor(descriptors[i].base, lens[i]);
        total := total + lens[i];
        i := i + 1;
      }
      assert lens[..i] == lens;
    }

    method SetNull()
      modifies descriptors
      ensures forall j :: 0 <= j < descriptors.Length ==> descriptors[j] == Descriptor(None, 0)
    {
      var i := 0;
      while i < descriptors.Length
        invariant 0 <= i <= descriptors.Length
        invariant forall j :: 0 <= j < i ==> descriptors[j] == Descriptor(None, 0)
      {
        descriptors[i] := Descriptor(None, 0);
        i := i + 1;
      }
    }

    method SetBases(l: Layout, at: nat, lens: seq<nat>)
      requires lens != [] && descriptors.Length == |lens| && Representable(l, |lens| - 1)
      requires forall j :: 0 <= j < |lens| ==> descriptors[j].len == lens[j]
      modifies descriptors
      ensures forall j :: 0 <= j < |lens| ==> descriptors[j].base.Some? && descriptors[j].len == lens[j]
      ensures descriptors[0].base.value ==
        at + l.firstOffset + |lens| * l.descriptorSize + AlignmentPadding(l, |lens| - 1)
      ensures forall j :: 0 < j < |lens| ==>
        descriptors[j].base.value == descriptors[j - 1].base.value + descriptors[j - 1].len
    {
      var n := |lens|;
      var end := at + l.firstOffset + n * l.descriptorSize;
      descriptors[0] := Descriptor(Some(end + AlignmentPadding(l, n - 1)), descriptors[0].len);
      var i := 1;
      while i < n
        invariant 1 <= i <= n
        invariant forall j :: 0 <= j < n ==> descriptors[j].len == lens[j]
        invariant forall j :: 0 <= j < i ==> descriptors[j].base.Some?
        invariant descriptors[0].base.value == end + AlignmentPadding(l, n - 1)
        invariant forall j :: 0 < j < i ==>
          descriptors[j].base.value == descriptors[j - 1].base.value + descriptors[j - 1].len
      {
        descriptors[i] := Descriptor(Some(descriptors[i - 1].base.value + descriptors[i - 1].len), descriptors[i].len);
        i := i + 1;
      }
    }
  }

  // ---- where the chunks are

  lemma {:induction false} SumSplits(lens: seq<nat>, i: nat, j: nat)
    requires i <= j <= |lens|
    ensures Sum(lens[..i]) <= Sum(lens[..j])
    decreases j
  {
    if i < j {
      assert lens[..j][..j - 1] == lens[..j - 1];
      SumSplits(lens, i, j - 1);
    }
  }

  /** What the compiler puts after the last field of an instance. */
  ghost function Tail(l: Layout): nat
    requires Possible(l)
  {
    l.instanceSize - l.firstOffset - l.descriptorSize
  }

  lemma FirstBaseIs(l: Layout, at: nat, n: nat)
    requires n > 0 && Possible(l) && Representable(l, n - 1)
    ensures FirstBase(l, at, n) == at + RoundUp(HeaderSize(l, n - 1), l.align, l.width) - Tail(l)
  {
    assert n * l.descriptorSize == (n - 1) * l.descriptorSize + l.descriptorSize;
  }

  lemma BasesFit(l: Layout, at: nat, lens: seq<nat>, i: nat)
    requires Possible(l) && i < |lens| && Representable(l, |lens| - 1)
    ensures DescriptorsEnd(l, at, |lens|) <= Base(l, at, lens, 0) <= Base(l, at, lens, i)
    ensures Base(l, at, lens, i) + lens[i] == Base(l, at, lens, i + 1) <= at + AllocationSize(l, lens)
  {
    assert lens[..0] == [] && lens[..|lens|] == lens;
    assert lens[..i + 1][..i] == lens[..i];
    SumSplits(lens, i + 1, |lens|);
    FirstBaseIs(l, at, |lens|);
  }

  lemma BasesApart(l: Layout, at: nat, lens: seq<nat>, i: nat, j: nat)
    requires i < j < |lens| && Representable(l, |lens| - 1)
    ensures Base(l, at, lens, i) + lens[i] <= Base(l, at, lens, j)
  {
    assert lens[..i + 1][..i] == lens[..i];
    SumSplits(lens, i + 1, j);
  }

  lemma BasesEnd(l: Layout, at: nat, lens: seq<nat>)
    requires lens != [] && Possible(l) && Representable(l, |lens| - 1)
    ensures Base(l, at, lens, |lens|) + Tail(l) == at + AllocationSize(l, lens)
    ensures Base(l, at, lens, |lens|) == at + AllocationSize(l, lens) <==> Tail(l) == 0
  {
    assert lens[..|lens|] == lens;
    FirstBaseIs(l, at, |lens|);
  }

  lemma MultiplesDiffer(a: nat, b: nat, m: nat)
    requires m > 0 && a % m == 0 && b % m == 0 && b <= a
    ensures (a - b) % m == 0
  {
    var q, u := a / m, b / m;
    assert a == q * m && b == u * m;
    if q < u {
      ProductLess(q, u, m);
    } else {
      assert q * m - u * m == (q - u) * m;
      DivisionIsUnique(a - b, m, q - u, 0);
    }
  }

  lemma ModuloShift(a: nat, t: nat, m: nat)
    requires m > 0 && a % m == 0 && t <= a
    ensures (a - t) % m == 0 <==> t % m == 0
  {
    if t % m == 0 {
      MultiplesDiffer(a, t, m);
    }
    if (a - t) % m == 0 {
      MultiplesDiffer(a, a - t, m);
    }
  }

  lemma AlignedSum(a: nat, b: nat, m: nat)
    requires m > 0 && a % m == 0 && b % m == 0
    ensures (a + b) % m == 0
  {
    assert a + b == (a / m + b / m) * m;
    DivisionIsUnique(a + b, m, a / m + b / m, 0);
  }

  lemma BasesAligned(l: Layout, at: nat, lens: seq<nat>)
    requires lens != [] && Possible(l) && Representable(l, |lens| - 1) && at % Pow2(l.align) == 0
    ensures Base(l, at, lens, 0) % Pow2(l.align) == 0 <==> Tail(l) % Pow2(l.align) == 0
  {
    var header := HeaderSize(l, |lens| - 1);
    var up := RoundUp(header, l.align, l.width);
    assert lens[..0] == [];
    FirstBaseIs(l, at, |lens|);
    RoundUpIsLeast(header, l.align, l.width);
    AlignedSum(at, up, Pow2(l.align));
    ModuloShift(at + up, Tail(l), Pow2(l.align));
  }

  /** uv_buf::from() */
  function From(l: Layout, base: nat): int
    requires Representable(l, 0)
  {
    base - AlignmentPadding(l, 0) - l.descriptorSize
  }

  lemma MultiplesApart(a: nat, b: nat, m: nat)
    requires m > 0 && a % m == 0 && b % m == 0 && a < b
    ensures a + m <= b
  {
    assert a == (a / m) * m && b == (b / m) * m;
    if a / m < b / m {
      ProductLess(a / m, b / m, m);
    } else if b / m < a / m {
      ProductLess(b / m, a / m, m);
    }
  }

  /** A number more does not change what is rounded up if and only if it fits into what the rounding has added. */
  lemma RoundUpSame(x: nat, more: nat, k: nat, w: nat)
    requires k <= w && x + more + Pow2(k) - 1 < Pow2(w)
    ensures RoundUp(x + more, k, w) == RoundUp(x, k, w) <==> more <= RoundUp(x, k, w) - x
  {
    var r, s, m := RoundUp(x, k, w), RoundUp(x + more, k, w), Pow2(k);
    RoundUpIsLeast(x, k, w);
    RoundUpIsLeast(x + more, k, w);
    if x + more <= r {
      if r < s {
        MultiplesApart(r, s, m);
      } else if s < r {
        MultiplesApart(s, r, m);
      }
    }
  }

  lemma HeaderGrows(l: Layout, extra: nat, more: nat)
    requires Representable(l, 0) && Representable(l, extra) && more == extra * l.descriptorSize
    ensures RoundUp(HeaderSize(l, extra), l.align, l.width) == RoundUp(HeaderSize(l, 0), l.align, l.width) <==>
      more <= AlignmentPadding(l, 0)
  {
    var x := HeaderSize(l, 0);
    assert HeaderSize(l, extra) == x + more;
    RoundUpSame(x, more, l.align, l.width);
  }

  lemma FromFirstBase(l: Layout, at: nat, n: nat)
    requires n > 0 && Possible(l) && Representable(l, 0) && Representable(l, n - 1)
    ensures From(l, FirstBase(l, at, n)) == FirstDescriptor(l, at) <==>
      RoundUp(HeaderSize(l, n - 1), l.align, l.width) == RoundUp(HeaderSize(l, 0), l.align, l.width)
  {
    FirstBaseIs(l, at, n);
    FirstBaseIs(l, at, 1);
  }

  lemma FromExact(l: Layout, at: nat, n: nat, more: nat)
    requires n > 0 && Possible(l) && Representable(l, 0) && Representable(l, n - 1)
    requires more == (n - 1) * l.descriptorSize
    ensures From(l, FirstBase(l, at, n)) == FirstDescriptor(l, at) <==> more <= AlignmentPadding(l, 0)
    ensures n == 1 ==> more == 0
  {
    FromFirstBase(l, at, n);
    HeaderGrows(l, n - 1, more);
  }

  lemma BaseZero(l: Layout, at: nat, lens: seq<nat>)
    requires lens != [] && Representable(l, |lens| - 1)
    ensures Base(l, at, lens, 0) == FirstBase(l, at, |lens|)
  {
    assert lens[..0] == [];
  }

  lemma FromBase(l: Layout, at: nat, lens: seq<nat>)
    requires lens != [] && Possible(l) && Representable(l, 0) && Representable(l, |lens| - 1)
    ensures From(l, Base(l, at, lens, 0)) == FirstDescriptor(l, at) <==>
      (|lens| - 1) * l.descriptorSize <= AlignmentPadding(l, 0)
    ensures |lens| == 1 ==> From(l, Base(l, at, lens, 0)) == FirstDescriptor(l, at)
  {
    BaseZero(l, at, lens);
    FromExact(l, at, |lens|, (|lens| - 1) * l.descriptorSize);
  }

  /** An instance of 64 bytes with a descriptor of 16 bytes at the given offset, and an alignment of 16 bytes. */
  ghost predicate Example(l: Layout, firstOffset: nat) {
    l == Layout(64, firstOffset, 16, 4, 64)
  }

  lemma ExampleIsPossible(l: Layout, firstOffset: nat)
    requires Example(l, firstOffset) && firstOffset <= 48
    ensures Possible(l) && Representable(l, 0) && Representable(l, 1) && l.descriptorSize % Pow2(l.align) == 0
    ensures Tail(l) == 48 - firstOffset
    ensures 32 < firstOffset < 48 ==> Tail(l) % Pow2(l.align) != 0
    ensures firstOffset == 48 ==> Tail(l) % Pow2(l.align) == 0
  {
    var k, w := l.align, l.width;
    assert Pow2(k) == 16;
    DivisionIsUnique(16, Pow2(k), 1, 0);
    DivisionIsUnique(0, Pow2(k), 0, 0);
    if 32 < firstOffset {
      DivisionIsUnique(48 - firstOffset, Pow2(k), 0, 48 - firstOffset);
    }
    assert Pow2(k + 3) == 2 * Pow2(k + 2) == 4 * Pow2(k + 1) == 8 * Pow2(k);
    Pow2Monotone(k + 3, w);
  }

  // ---- main results, on the descriptors that are stored

  /** In an instance that has been laid out, a descriptor has a base if and only if there is any memory. */
  lemma BasesIfMemory(l: Layout, at: nat, lens: seq<nat>, ds: seq<Descriptor>, i: nat)
    requires Representable(l, Extra(lens)) && LaidOut(l, at, lens, ds) && i < |ds|
    ensures ds[i].base.Some? <==> exists j :: 0 <= j < |lens| && lens[j] > 0
    ensures i < |lens| ==> ds[i].len == lens[i]
  {
    SumPositive(lens);
  }

  lemma {:induction false} SumPositive(lens: seq<nat>)
    ensures Sum(lens) > 0 <==> exists j :: 0 <= j < |lens| && lens[j] > 0
  {
    if lens != [] {
      var n := |lens| - 1;
      SumPositive(lens[..n]);
      if j :| 0 <= j < n && lens[..n][j] > 0 {
        assert lens[j] > 0;
      }
      if j :| 0 <= j < |lens| && lens[j] > 0 {
        assert j < n ==> lens[..n][j] > 0;
      }
    }
  }

  lemma {:induction false} StoredBase(l: Layout, at: nat, lens: seq<nat>, ds: seq<Descriptor>, i: nat)
    requires lens != [] && Representable(l, |lens| - 1) && LaidOut(l, at, lens, ds) && i < |ds| && ds[i].base.Some?
    ensures Sum(lens) > 0 && |ds| == |lens| && ds[i].base.value == Base(l, at, lens, i)
  {
    if i > 0 {
      StoredBase(l, at, lens, ds, i - 1);
      assert lens[..i][..i - 1] == lens[..i - 1];
    } else {
      assert lens[..0] == [];
    }
  }

  /** The chunks lie between the descriptors and the end of the allocation, each has the length that was asked for, and
      ends where the next begins. */
  lemma ChunksFit(l: Layout, at: nat, lens: seq<nat>, ds: seq<Descriptor>, i: nat)
    requires lens != [] && Possible(l) && Representable(l, |lens| - 1) && LaidOut(l, at, lens, ds)
    requires i < |ds| && ds[i].base.Some?
    ensures |ds| == |lens| && ds[i].len == lens[i] && DescriptorsEnd(l, at, |ds|) <= ds[i].base.value
    ensures ds[i].base.value + ds[i].len <= at + AllocationSize(l, lens)
    ensures i + 1 < |ds| ==> ds[i + 1].base == Some(ds[i].base.value + ds[i].len)
  {
    StoredBase(l, at, lens, ds, i);
    BasesFit(l, at, lens, i);
  }

  /** No chunk overlaps another one. */
  lemma ChunksApart(l: Layout, at: nat, lens: seq<nat>, ds: seq<Descriptor>, i: nat, j: nat)
    requires lens != [] && Representable(l, |lens| - 1) && LaidOut(l, at, lens, ds)
    requires i < j < |ds| && ds[i].base.Some?
    ensures ds[j].base.Some? && ds[i].base.value + ds[i].len <= ds[j].base.value
  {
    StoredBase(l, at, lens, ds, i);
    StoredBase(l, at, lens, ds, j);
    BasesApart(l, at, lens, i, j);
  }

  /** The last chunk ends exactly at the end of the allocation if and only if the compiler puts nothing after the last
      field. */
  lemma ChunksEnd(l: Layout, at: nat, lens: seq<nat>, ds: seq<Descriptor>)
    requires lens != [] && Possible(l) && Representable(l, |lens| - 1) && LaidOut(l, at, lens, ds)
    requires |ds| > 0 && ds[|ds| - 1].base.Some?
    ensures var end := ds[|ds| - 1].base.value + ds[|ds| - 1].len;
      && end + Tail(l) == at + AllocationSize(l, lens)
      && (end == at + AllocationSize(l, lens) <==> Tail(l) == 0)
  {
    var n := |ds| - 1;
    StoredBase(l, at, lens, ds, n);
    BasesFit(l, at, lens, n);
    BasesEnd(l, at, lens);
  }

  /** In an allocation with the strictest alignment the memory has it too, if and only if what the compiler puts after
      the last field is a multiple of it. */
  lemma ChunksAligned(l: Layout, at: nat, lens: seq<nat>, ds: seq<Descriptor>)
    requires lens != [] && Possible(l) && Representable(l, |lens| - 1) && LaidOut(l, at, lens, ds)
    requires at % Pow2(l.align) == 0 && |ds| > 0 && ds[0].base.Some?
    ensures ds[0].base.value % Pow2(l.align) == 0 <==> Tail(l) % Pow2(l.align) == 0
  {
    StoredBase(l, at, lens, ds, 0);
    BasesAligned(l, at, lens);
  }

  /** The descriptor of a buffer of one chunk is recovered from its base. With more chunks the descriptors are
      recovered from the base of the first if and only if the additional ones fit into the padding that one of them
      would leave. */
  lemma FromRecovers(l: Layout, at: nat, lens: seq<nat>, ds: seq<Descriptor>)
    requires lens != [] && Possible(l) && Representable(l, 0) && Representable(l, |lens| - 1)
    requires LaidOut(l, at, lens, ds) && |ds| > 0 && ds[0].base.Some?
    ensures From(l, ds[0].base.value) == FirstDescriptor(l, at) <==>
      (|lens| - 1) * l.descriptorSize <= AlignmentPadding(l, 0)
    ensures |lens| == 1 ==> From(l, ds[0].base.value) == FirstDescriptor(l, at)
  {
    StoredBase(l, at, lens, ds, 0);
    FromBase(l, at, lens);
  }

  /** If a descriptor is a multiple of the strictest alignment long, they are never recovered from several chunks. */
  lemma FromNeverRecovers(l: Layout, at: nat, lens: seq<nat>, ds: seq<Descriptor>)
    requires |lens| > 1 && Possible(l) && Representable(l, 0) && Representable(l, |lens| - 1)
    requires LaidOut(l, at, lens, ds) && |ds| > 0 && ds[0].base.Some?
    requires l.descriptorSize % Pow2(l.align) == 0
    ensures From(l, ds[0].base.value) != FirstDescriptor(l, at)
  {
    FromRecovers(l, at, lens, ds);
    RoundUpIsLeast(HeaderSize(l, 0), l.align, l.width);
    MultiplesApart(0, l.descriptorSize, Pow2(l.align));
    ProductLess(0, |lens| - 1, l.descriptorSize);
  }

  /** With the descriptor at the end of the instance, a buffer of two chunks is laid out well and not recovered. */
  lemma TwoChunksNotRecovered(lens: seq<nat>, ds: seq<Descriptor>, l: Layout)
    requires |lens| == 2 && Example(l, 48) && Representable(l, 1) && LaidOut(l, 0, lens, ds)
    requires |ds| > 0 && ds[0].base.Some?
    ensures Possible(l) && Representable(l, 0) && |ds| == 2 && ds[1].base.Some?
    ensures ds[0].base.value % Pow2(l.align) == 0 && ds[1].base.value + ds[1].len == AllocationSize(l, lens)
    ensures From(l, ds[0].base.value) != FirstDescriptor(l, 0)
  {
    ExampleIsPossible(l, 48);
    StoredBase(l, 0, lens, ds, 0);
    DivisionIsUnique(0, Pow2(l.align), 0, 0);
    ChunksAligned(l, 0, lens, ds);
    ChunksEnd(l, 0, lens, ds);
    FromNeverRecovers(l, 0, lens, ds);
  }

  /** With eight bytes after it, the memory of a buffer is not aligned and ends before the allocation does. */
  lemma TailNotAligned(lens: seq<nat>, ds: seq<Descriptor>, l: Layout)
    requires |lens| == 1 && Example(l, 40) && Representable(l, 0) && LaidOut(l, 0, lens, ds)
    requires |ds| > 0 && ds[0].base.Some?
    ensures ds[0].base.value % Pow2(l.align) != 0 && ds[0].base.value + ds[0].len < AllocationSize(l, lens)
  {
    ExampleIsPossible(l, 40);
    StoredBase(l, 0, lens, ds, 0);
    ChunksAligned(l, 0, lens, ds);
    ChunksEnd(l, 0, lens, ds);
  }
}

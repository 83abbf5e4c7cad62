/** Buffers that come back: the destruction of a buffer with a sink callback, and a pool that such callbacks feed. */
module BufferPool {
  import opened Wrappers

  /** What a sink callback does with the variable that it is given: it may move it somewhere, or copy it. */
  datatype Sink = Sink(moves: bool, copies: nat)

  /** The references that stay after a sink callback. */
  ghost function Kept(sink: Option<Sink>): nat {
    if sink.None? then 0 else sink.value.copies + if sink.value.moves then 1 else 0
  }

  class Buffer {
    var refs: int
    var deleted: bool

    constructor ()
      ensures refs == 1 && !deleted
    {
      refs, deleted := 1, false;
    }

    /** A callback with a variable for the buffer; says whether the variable still refers to it. */
    method RunSink(sink: Sink) returns (stays: bool)
      modifies this`refs
      ensures refs == old(refs) + sink.copies && stays == !sink.moves
    {
      refs := refs + sink.copies;
      stays := !sink.moves;
    }

    /** The buffer lives on if and only if the sink keeps a reference, and then with exactly the references it keeps. */
    method Destroy(sink: Option<Sink>)
      requires refs == 0 && !deleted
      modifies this
      ensures refs == Kept(sink) && (deleted <==> Kept(sink) == 0)
    {
      match sink {
        case Some(s) =>
          refs := 1;
          var stays := RunSink(s);
          if stays {
            refs := refs - 1;
            if refs == 0 {
              deleted := true;
            }
          }
        case None =>
          deleted := true;
      }
    }

    method Unref(sink: Option<Sink>)
      requires refs > 0 && !deleted
      modifies this
      ensures old(refs) > 1 ==> refs == old(refs) - 1 && !deleted
      ensures old(refs) == 1 ==> refs == Kept(sink) && (deleted <==> Kept(sink) == 0)
    {
      refs := refs - 1;
      if refs == 0 {
        Destroy(sink);
      }
    }
  }

  // ---- the pool

  datatype Item = Item(len: nat, refs: nat, deleted: bool)

  /** The buffers made so far, by their number; the numbers of the spare ones; those that have been handed out and not
      come back; the greatest number of them there ever was at one time; and whether the pool is being destroyed. */
  datatype Pool = Pool(size: nat, items: seq<Item>, spare: seq<nat>, out: set<nat>, peak: nat, destroying: bool)

  ghost function Max(a: nat, b: nat): nat {
    if a < b then b else a
  }

  ghost function HandedOut(s: Pool, i: nat): Pool {
    s.(out := s.out + {i}, peak := Max(s.peak, |s.out + {i}|))
  }

  /** get(): the spare buffer that came back last, or a new one. */
  ghost function Got(s: Pool): Pool {
    if s.spare == [] then HandedOut(s.(items := s.items + [Item(s.size, 1, false)]), |s.items|)
    else HandedOut(s.(spare := s.spare[..|s.spare| - 1]), s.spare[|s.spare| - 1])
  }

  ghost function Referred(s: Pool, i: nat): Pool
    requires i < |s.items|
  {
    s.(items := s.items[i := s.items[i].(refs := s.items[i].refs + 1)])
  }

  ghost function Resized(s: Pool, i: nat, len: nat): Pool
    requires i < |s.items|
  {
    s.(items := s.items[i := s.items[i].(len := len)])
  }

  /** The sink callback of the items: it moves the buffer into the pool, unless the pool is being destroyed. */
  ghost function PoolSink(s: Pool): Option<Sink> {
    Some(Sink(!s.destroying, 0))
  }

  /** A reference is given back. What the last one leaves is what the sink callback keeps: nothing, and then the
      buffer is deleted, or the reference of the pool, and then its length is restored. */
  ghost function Released(s: Pool, i: nat): Pool
    requires i < |s.items| && s.items[i].refs > 0
  {
    var x, kept := s.items[i], Kept(PoolSink(s));
    if x.refs > 1 then s.(items := s.items[i := x.(refs := x.refs - 1)])
    else if kept == 0 then s.(items := s.items[i := x.(refs := kept, deleted := true)], out := s.out - {i})
    else s.(items := s.items[i := x.(refs := kept, len := s.size)], spare := s.spare + [i], out := s.out - {i})
  }

  /** The destructor of the pool deletes the spare buffers. */
  ghost function Emptied(s: Pool): Pool {
    s.(destroying := true, spare := [], items := seq(|s.items|, i requires 0 <= i < |s.items| =>
      if i in s.spare then Deleted(s.items[i]) else s.items[i]))
  }

  ghost function Deleted(x: Item): Item {
    x.(refs := 0, deleted := true)
  }

  ghost function Filled(size: nat, n: nat): Pool {
    Pool(size, seq(n, i => Item(size, 1, false)), seq(n, i => i), {}, 0, false)
  }

  class BufferPool {
    var poolDestroying: bool
    const bufSize: nat
    var items: seq<Item>
    var numTotalItems: nat
    var spareItems: seq<nat>
    ghost var out: set<nat>
    ghost var peak: nat

    ghost function Value(): Pool
      reads this
    {
      Pool(bufSize, items, spareItems, out, peak, poolDestroying)
    }

    ghost predicate Valid()
      reads this
    {
      numTotalItems == |items|
    }

    constructor (size: nat, n: nat)
      ensures Valid() && Value() == Filled(size, n) && bufSize == size && |items| == |spareItems| == n
      ensures forall i :: 0 <= i < n ==> items[i] == Item(size, 1, false) && spareItems[i] == i
    {
      poolDestroying, bufSize, items, numTotalItems, spareItems, out, peak := false, size, [], 0, [], {}, 0;
      new;
      var left := n;
      while left > 0
        invariant 0 <= left <= n && Valid() && Value() == Filled(size, n - left)
      {
        var i := NewItem();
        spareItems := spareItems + [i];
        left := left - 1;
      }
    }

    method NewItem() returns (i: nat)
      requires Valid()
      modifies this`items, this`numTotalItems
      ensures Valid() && i == old(|items|) && items == old(items) + [Item(bufSize, 1, false)]
    {
      i := |items|;
      items, numTotalItems := items + [Item(bufSize, 1, false)], numTotalItems + 1;
    }

    method Get() returns (i: nat)
      requires Valid()
      modifies this
      ensures Valid() && Value() == Got(old(Value())) && i in out
    {
      if |spareItems| == 0 {
        i := NewItem();
      } else {
        i := spareItems[|spareItems| - 1];
        spareItems := spareItems[..|spareItems| - 1];
      }
      out := out + {i};
      peak := Max(peak, |out|);
    }

    /** The sink callback of the items; says whether it has moved the buffer into the pool. */
    method SinkCb(i: nat) returns (moved: bool)
      requires i < |items|
      modifies this`items, this`spareItems
      ensures moved == !poolDestroying
      ensures items == if moved then old(items)[i := old(items[i]).(len := bufSize)] else old(items)
      ensures spareItems == if moved then old(spareItems) + [i] else old(spareItems)
    {
      if poolDestroying {
        return false;
      }
      items := items[i := items[i].(len := bufSize)];
      spareItems := spareItems + [i];
      moved := true;
    }

    /** A variable that refers to an item is destroyed. */
    method Release(i: nat)
      requires Valid() && i < |items| && items[i].refs > 0 && !items[i].deleted
      modifies this
      ensures Valid() && Value() == Released(old(Value()), i)
    {
      items := items[i := items[i].(refs := items[i].refs - 1)];
      if items[i].refs == 0 {
        items := items[i := items[i].(refs := 1)];
        out := out - {i};
        var moved := SinkCb(i);
        if !moved {
          items := items[i := items[i].(refs := 0, deleted := true)];
        }
      }
    }

    /** The destructor: the sink callbacks of the spare buffers take none of them back. */
    method Destruct()
      requires Valid() && forall k :: 0 <= k < |spareItems| ==> spareItems[k] < |items|
      modifies this
      ensures Valid() && Value() == Emptied(old(Value()))
    {
      poolDestroying := true;
      ghost var was := items;
      var spare, k := spareItems, 0;
      spareItems := [];
      while k < |spare|
        invariant 0 <= k <= |spare| && |items| == |was| && Valid() && poolDestroying && spareItems == []
        invariant forall i :: 0 <= i < |was| ==> items[i] == if i in spare[..k] then Deleted(was[i]) else was[i]
        invariant out == old(out) && peak == old(peak)
      {
        var moved := SinkCb(spare[k]);
        items := items[spare[k] := items[spare[k]].(refs := 0, deleted := true)];
        k := k + 1;
      }
      assert spare[..k] == spare;
    }
  }

  // ---- runs

  /** The client refers to buffers that have been handed out to it, and to no others. */
  datatype Step = Get | Refer(i: nat) | Resize(i: nat, len: nat) | Release(i: nat)

  ghost predicate Enabled(s: Pool, a: Step) {
    match a
    case Get => true
    case Refer(i) => i in s.out && i < |s.items|
    case Resize(i, _) => i in s.out && i < |s.items|
    case Release(i) => i in s.out && i < |s.items| && s.items[i].refs > 0
  }

  ghost function Apply(s: Pool, a: Step): Pool
    requires Enabled(s, a)
  {
    match a
    case Get => Got(s)
    case Refer(i) => Referred(s, i)
    case Resize(i, len) => Resized(s, i, len)
    case Release(i) => Released(s, i)
  }

  ghost predicate Runs(s: Pool, run: seq<Step>, s': Pool)
    decreases run
  {
    if run == [] then s' == s
    else Enabled(s, run[0]) && Runs(Apply(s, run[0]), run[1..], s')
  }

  /** A spare buffer has one reference, the pool's, and its full length; a buffer that is out has some; a buffer is the
      one or the other. */
  ghost predicate Fine(s: Pool, i: nat)
    requires i < |s.items|
  {
    && !s.items[i].deleted
    && (i in s.out <==> i !in s.spare)
    && (i in s.spare ==> s.items[i].refs == 1 && s.items[i].len == s.size)
    && (i in s.out ==> s.items[i].refs > 0)
  }

  ghost predicate Distinct(q: seq<nat>) {
    forall j, k :: 0 <= j < k < |q| ==> q[j] != q[k]
  }

  ghost predicate Inv(initial: nat, s: Pool) {
    && !s.destroying
    && (forall i :: 0 <= i < |s.items| ==> Fine(s, i))
    && (forall i :: i in s.spare || i in s.out ==> i < |s.items|)
    && Distinct(s.spare)
    && |s.items| == |s.spare| + |s.out|
    && |s.items| == Max(initial, s.peak) && |s.out| <= s.peak
  }

  lemma GotSpareKeeps(initial: nat, s: Pool)
    requires Inv(initial, s) && s.spare != []
    ensures Inv(initial, Got(s))
  {
    var n, t := |s.spare| - 1, Got(s);
    assert s.spare == s.spare[..n] + [s.spare[n]];
    assert Fine(s, s.spare[n]) && s.spare[n] in s.spare;
    assert forall i :: i in t.spare ==> i in s.spare;
    forall i | 0 <= i < |t.items| ensures Fine(t, i) {
      assert Fine(s, i);
    }
  }

  lemma GotNewKeeps(initial: nat, s: Pool)
    requires Inv(initial, s) && s.spare == []
    ensures Inv(initial, Got(s))
  {
    var t := Got(s);
    assert |s.items| !in s.out;
    forall i | 0 <= i < |t.items| ensures Fine(t, i) {
      assert i < |s.items| ==> Fine(s, i);
    }
  }

  lemma ReleasedKeeps(initial: nat, s: Pool, i: nat)
    requires Inv(initial, s) && Enabled(s, Release(i))
    ensures Inv(initial, Released(s, i))
  {
    var t := Released(s, i);
    assert Fine(s, i);
    forall k | 0 <= k < |t.items| ensures Fine(t, k) {
      assert Fine(s, k);
    }
  }

  lemma StepKeeps(initial: nat, s: Pool, a: Step)
    requires Inv(initial, s) && Enabled(s, a)
    ensures Inv(initial, Apply(s, a))
  {
    match a
    case Get =>
      if s.spare == [] {
        GotNewKeeps(initial, s);
      } else {
        GotSpareKeeps(initial, s);
      }
    case Release(i) => ReleasedKeeps(initial, s, i);
    case _ =>
      forall k | 0 <= k < |s.items| ensures Fine(Apply(s, a), k) {
        assert Fine(s, k);
      }
  }

  lemma {:induction false} RunKeeps(initial: nat, s: Pool, run: seq<Step>, s': Pool)
    requires Inv(initial, s) && Runs(s, run, s')
    ensures Inv(initial, s')
    decreases run
  {
    if run != [] {
      StepKeeps(initial, s, run[0]);
      RunKeeps(initial, Apply(s, run[0]), run[1..], s');
    }
  }

  lemma EveryRun(size: nat, n: nat, run: seq<Step>, s: Pool)
    requires Runs(Filled(size, n), run, s)
    ensures Inv(n, s)
  {
    var t := Filled(size, n);
    forall i | 0 <= i < n ensures Fine(t, i) {
      assert t.spare[i] == i;
    }
    RunKeeps(n, t, run, s);
  }

  // ---- what the operations do

  /** The buffer that is handed out is the one that came back last; or, if none is spare, a new one with its full length
      and one reference. Nothing else changes. */
  lemma GetEffects(s: Pool) returns (i: nat)
    ensures var t := Got(s);
      && t.out == s.out + {i} && t.size == s.size && t.destroying == s.destroying
      && (if s.spare != [] then s.spare == t.spare + [i] && t.items == s.items
          else t.spare == [] && i == |s.items| && t.items == s.items + [Item(s.size, 1, false)])
      && t.peak == if s.peak < |t.out| then |t.out| else s.peak
  {
    i := if s.spare == [] then |s.items| else s.spare[|s.spare| - 1];
    assert s.spare != [] ==> s.spare == s.spare[..|s.spare| - 1] + [i];
  }

  /** The destructor deletes the spare buffers and leaves those that are handed out. */
  lemma DestructEffects(s: Pool, i: nat)
    requires i < |s.items|
    ensures var t := Emptied(s);
      && |t.items| == |s.items| && t.spare == [] && t.out == s.out && t.destroying
      && t.items[i] == if i in s.spare then Item(s.items[i].len, 0, true) else s.items[i]
  {
  }

  /** A reference given back is one less. The last one, while the pool is there, brings the buffer back behind the other
      spare ones with its full length; while the pool is being destroyed it deletes the buffer. */
  lemma ReleaseEffects(s: Pool, i: nat)
    requires i < |s.items| && s.items[i].refs > 0
    ensures var t, x := Released(s, i), s.items[i];
      && |t.items| == |s.items| && (forall k :: 0 <= k < |s.items| && k != i ==> t.items[k] == s.items[k])
      && (x.refs > 1 ==> t.items[i] == x.(refs := x.refs - 1) && t.spare == s.spare && t.out == s.out)
      && (x.refs == 1 ==> t.out == s.out - {i})
      && (x.refs == 1 && !s.destroying ==> t.items[i] == Item(s.size, 1, x.deleted) && t.spare == s.spare + [i])
      && (x.refs == 1 && s.destroying ==> t.items[i] == Item(x.len, 0, true) && t.spare == s.spare)
      && t.size == s.size && t.peak == s.peak && t.destroying == s.destroying
  {
  }

  // ---- main results

  /** In every run of a pool that started with n buffers: every buffer is spare or handed out, never both; the spare
      ones are distinct and nobody else refers to them; and there are exactly as many buffers as there were at first or
      as were ever handed out at one time, whichever is more. */
  lemma PoolLaw(size: nat, n: nat, run: seq<Step>, s: Pool)
    requires Runs(Filled(size, n), run, s)
    ensures |s.items| == |s.spare| + |s.out| == Max(n, s.peak)
    ensures Distinct(s.spare) && forall i :: i in s.spare ==> i !in s.out
    ensures forall i :: i in s.spare ==> i < |s.items| && s.items[i] == Item(s.size, 1, false)
    ensures forall i :: i in s.out ==> i < |s.items| && s.items[i].refs > 0 && !s.items[i].deleted
  {
    EveryRun(size, n, run, s);
    forall i | i in s.spare || i in s.out ensures i < |s.items| && Fine(s, i) {
    }
  }

  /** If all buffers have come back, the destructor deletes every one of them. */
  lemma DestructorDeletesAll(size: nat, n: nat, run: seq<Step>, s: Pool)
    requires Runs(Filled(size, n), run, s) && s.out == {}
    ensures var t := Emptied(s); t.spare == [] && forall i :: 0 <= i < |t.items| ==> t.items[i].deleted
  {
    EveryRun(size, n, run, s);
    forall i | 0 <= i < |s.items| ensures i in s.spare {
      assert Fine(s, i);
    }
  }
}

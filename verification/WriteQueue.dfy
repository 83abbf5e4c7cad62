/** The number of bytes on their way to a file: what the write and sendfile requests add to it and take off it. */
module WriteQueue {
  import opened Wrappers

  /** The arithmetic of std::size_t. */
  const WORD := 0x1_0000_0000_0000_0000

  type Size = n: nat | n < WORD

  ghost function Plus(a: Size, b: Size): Size {
    (a + b) % WORD
  }

  ghost function Minus(a: Size, b: Size): Size {
    (a - b) % WORD
  }

  /** A request: whether it is out, the file it writes to if it is one, and the size recorded when it was run. */
  datatype Request = Request(out: bool, target: Option<nat>, pending: Size)

  /** The write_queue_size of every file, the requests, and the lengths of the chunks of every buffer. */
  datatype State = State(queues: seq<Size>, requests: seq<Request>, bufs: seq<seq<Size>>)

  ghost function SumLens(lens: seq<Size>): Size {
    if lens == [] then 0 else Plus(SumLens(lens[..|lens| - 1]), lens[|lens| - 1])
  }

  ghost function Added(s: State, f: Option<nat>, size: Size): State
    requires f.Some? ==> f.value < |s.queues|
  {
    if f.Some? then s.(queues := s.queues[f.value := Plus(s.queues[f.value], size)]) else s
  }

  ghost function TakenOff(s: State, f: Option<nat>, size: Size): State
    requires f.Some? ==> f.value < |s.queues|
  {
    if f.Some? then s.(queues := s.queues[f.value := Minus(s.queues[f.value], size)]) else s
  }

  /** run(): the request records the target and the size, and is out if libuv accepts it. */
  ghost function Ran(s: State, r: nat, target: Option<nat>, size: Size, accepted: bool): State
    requires r < |s.requests| && (target.Some? ==> target.value < |s.queues|)
  {
    var t := Added(s.(requests := s.requests[r := Request(accepted, target, size)]), target, size);
    if accepted then t else TakenOff(t, target, size)
  }

  /** The callback takes the recorded size off, whatever was written. */
  ghost function Done(s: State, r: nat): State
    requires r < |s.requests| && (s.requests[r].target.Some? ==> s.requests[r].target.value < |s.queues|)
  {
    TakenOff(s.(requests := s.requests[r := s.requests[r].(out := false)]), s.requests[r].target, s.requests[r].pending)
  }

  /** What a try_write() returns if it does not proceed. */
  const UV_EAGAIN := -4088

  class Files {
    var queues: seq<Size>
    var requests: seq<Request>
    var bufs: seq<seq<Size>>

    ghost function Value(): State
      reads this
    {
      State(queues, requests, bufs)
    }

    constructor (files: nat)
      ensures Value() == State(seq(files, i => 0), [], [])
    {
      queues, requests, bufs := seq(files, i => 0), [], [];
    }

    method Add(f: Option<nat>, size: Size)
      requires f.Some? ==> f.value < |queues|
      modifies this`queues
      ensures Value() == Added(old(Value()), f, size)
    {
      if f.Some? {
        queues := queues[f.value := (queues[f.value] + size) % WORD];
      }
    }

    method TakeOff(f: Option<nat>, size: Size)
      requires f.Some? ==> f.value < |queues|
      modifies this`queues
      ensures Value() == TakenOff(old(Value()), f, size)
    {
      if f.Some? {
        queues := queues[f.value := (queues[f.value] - size) % WORD];
      }
    }

    /** An asynchronous write of all the chunks of a buffer. */
    method RunWrite(r: nat, f: nat, buf: nat, result: int) returns (ret: int)
      requires r < |requests| && f < |queues| && buf < |bufs|
      modifies this
      ensures ret == result
      ensures Value() == Ran(old(Value()), r, Some(f), old(SumLens(bufs[buf])), result >= 0)
      ensures requests[r].out <==> result >= 0
      ensures queues == if result >= 0
        then old(queues)[f := (old(queues)[f] + Length(bufs[buf])) % WORD] else old(queues)
    {
      var size: Size, i := 0, 0;
      while i < |bufs[buf]|
        invariant 0 <= i <= |bufs[buf]| && size == SumLens(bufs[buf][..i])
      {
        assert bufs[buf][..i + 1][..i] == bufs[buf][..i];
        size := (size + bufs[buf][i]) % WORD;
        i := i + 1;
      }
      assert bufs[buf][..i] == bufs[buf];
      SumIsLength(bufs[buf]);
      Modulo(Length(bufs[buf]), queues[f]);
      ret := Run(r, Some(f), size, result);
    }

    /** An asynchronous sendfile; the target has a queue only if it is a file. */
    method Run(r: nat, target: Option<nat>, size: Size, result: int) returns (ret: int)
      requires r < |requests| && (target.Some? ==> target.value < |queues|)
      modifies this`queues, this`requests
      ensures ret == result && Value() == Ran(old(Value()), r, target, size, result >= 0)
      ensures requests[r].out <==> result >= 0
      ensures queues == if result >= 0 && target.Some?
        then old(queues)[target.value := (old(queues)[target.value] + size) % WORD] else old(queues)
    {
      requests := requests[r := Request(result >= 0, target, size)];
      Add(target, size);
      ret := result;
      if ret < 0 {
        TakeOff(target, size);
      }
    }

    method WriteCb(r: nat)
      requires r < |requests| && (requests[r].target.Some? ==> requests[r].target.value < |queues|)
      modifies this
      ensures Value() == Done(old(Value()), r)
    {
      requests := requests[r := requests[r].(out := false)];
      TakeOff(requests[r].target, requests[r].pending);
    }

    /** A try_write() proceeds to write synchronously, or refuses. */
    method TryWrite(f: nat, result: int) returns (ret: int, proceeds: bool)
      requires f < |queues|
      ensures proceeds <==> queues[f] == 0
      ensures ret == if proceeds then result else UV_EAGAIN
    {
      proceeds := queues[f] == 0;
      ret := if proceeds then result else UV_EAGAIN;
    }
  }

  // ---- runs

  /** A new request or buffer; requests of either kind; their completion; and the client changing a buffer's length. */
  datatype Step =
    | NewRequest
    | NewBuffer(lens: seq<Size>)
    | SetLen(buf: nat, chunk: nat, len: Size)
    | RunWrite(r: nat, f: nat, buf: nat, accepted: bool)
    | RunSendfile(r: nat, target: Option<nat>, length: Size, accepted: bool)
    | Complete(r: nat)

  /** A request is not run again while it is out. */
  ghost predicate Enabled(s: State, a: Step) {
    match a
    case NewRequest | NewBuffer(_) => true
    case SetLen(buf, chunk, _) => buf < |s.bufs| && chunk < |s.bufs[buf]|
    case RunWrite(r, f, buf, _) => r < |s.requests| && !s.requests[r].out && f < |s.queues| && buf < |s.bufs|
    case RunSendfile(r, target, _, _) =>
      r < |s.requests| && !s.requests[r].out && (target.Some? ==> target.value < |s.queues|)
    case Complete(r) =>
      r < |s.requests| && s.requests[r].out && (s.requests[r].target.Some? ==> s.requests[r].target.value < |s.queues|)
  }

  ghost function Apply(s: State, a: Step): State
    requires Enabled(s, a)
  {
    match a
    case NewRequest => s.(requests := s.requests + [Request(false, None, 0)])
    case NewBuffer(lens) => s.(bufs := s.bufs + [lens])
    case SetLen(buf, chunk, len) => s.(bufs := s.bufs[buf := s.bufs[buf][..chunk] + [len] + s.bufs[buf][chunk + 1..]])
    case RunWrite(r, f, buf, accepted) => Ran(s, r, Some(f), SumLens(s.bufs[buf]), accepted)
    case RunSendfile(r, target, length, accepted) => Ran(s, r, target, length, accepted)
    case Complete(r) => Done(s, r)
  }

  ghost predicate Runs(s: State, run: seq<Step>, s': State)
    decreases run
  {
    if run == [] then s' == s
    else Enabled(s, run[0]) && Runs(Apply(s, run[0]), run[1..], s')
  }

  ghost function Initial(files: nat): State {
    State(seq(files, i => 0), [], [])
  }

  // ---- the sum

  ghost function Share(r: Request, f: nat): Size {
    if r.out && r.target == Some(f) then r.pending else 0
  }

  /** The sizes recorded by the requests that are out to a file. */
  ghost function Outstanding(rs: seq<Request>, f: nat): nat {
    if rs == [] then 0 else Share(rs[0], f) + Outstanding(rs[1..], f)
  }

  lemma {:induction false} Replaced(rs: seq<Request>, i: nat, r: Request, f: nat)
    requires i < |rs|
    ensures Outstanding(rs[i := r], f) == Outstanding(rs, f) - Share(rs[i], f) + Share(r, f)
    ensures Outstanding(rs, f) >= Share(rs[i], f)
  {
    if i > 0 {
      Replaced(rs[1..], i - 1, r, f);
      assert rs[i := r][1..] == rs[1..][i - 1 := r];
    } else {
      assert rs[i := r][1..] == rs[1..];
    }
  }

  lemma {:induction false} OneMore(rs: seq<Request>, r: Request, f: nat)
    ensures Outstanding(rs + [r], f) == Outstanding(rs, f) + Share(r, f)
  {
    if rs != [] {
      OneMore(rs[1..], r, f);
      assert (rs + [r])[1..] == rs[1..] + [r];
    }
  }

  ghost predicate Inv(s: State) {
    forall f :: 0 <= f < |s.queues| ==> s.queues[f] == Outstanding(s.requests, f) % WORD
  }

  lemma Modulo(a: nat, b: Size)
    ensures Plus(a % WORD, b) == (a + b) % WORD
    ensures b <= a ==> Minus(a % WORD, b) == (a - b) % WORD
  {
    assert a == (a / WORD) * WORD + a % WORD;
    SameRemainder(a % WORD + b, a / WORD);
    SameRemainder(a % WORD - b, a / WORD);
  }

  lemma SameRemainder(x: int, q: nat)
    ensures (x + q * WORD) % WORD == x % WORD
  {
    assert x == (x / WORD) * WORD + x % WORD;
  }

  lemma AddThenTakeOff(s: State, f: Option<nat>, size: Size)
    requires f.Some? ==> f.value < |s.queues|
    ensures TakenOff(Added(s, f, size), f, size).queues == s.queues
  {
  }

  lemma RanKeeps(s: State, r: nat, target: Option<nat>, size: Size, accepted: bool)
    requires Inv(s) && r < |s.requests| && !s.requests[r].out && (target.Some? ==> target.value < |s.queues|)
    ensures Inv(Ran(s, r, target, size, accepted))
  {
    var q := Request(accepted, target, size);
    var t := s.(requests := s.requests[r := q]);
    AddThenTakeOff(t, target, size);
    var u := Ran(s, r, target, size, accepted);
    forall f | 0 <= f < |s.queues| ensures u.queues[f] == Outstanding(t.requests, f) % WORD {
      Replaced(s.requests, r, q, f);
      Modulo(Outstanding(s.requests, f), size);
    }
  }

  lemma DoneKeeps(s: State, r: nat)
    requires Inv(s) && Enabled(s, Complete(r))
    ensures Inv(Done(s, r))
  {
    var q := s.requests[r].(out := false);
    forall f | 0 <= f < |s.queues| ensures Done(s, r).queues[f] == Outstanding(s.requests[r := q], f) % WORD {
      Replaced(s.requests, r, q, f);
      Modulo(Outstanding(s.requests, f), s.requests[r].pending);
    }
  }

  lemma StepKeeps(s: State, a: Step)
    requires Inv(s) && Enabled(s, a)
    ensures Inv(Apply(s, a))
  {
    match a
    case NewRequest =>
      forall f | 0 <= f < |s.queues| ensures Apply(s, a).queues[f] == Outstanding(Apply(s, a).requests, f) % WORD {
        OneMore(s.requests, Request(false, None, 0), f);
      }
    case NewBuffer(_) =>
    case SetLen(_, _, _) =>
    case RunWrite(r, f, buf, accepted) => RanKeeps(s, r, Some(f), SumLens(s.bufs[buf]), accepted);
    case RunSendfile(r, target, length, accepted) => RanKeeps(s, r, target, length, accepted);
    case Complete(r) => DoneKeeps(s, r);
  }

  lemma {:induction false} RunKeeps(s: State, run: seq<Step>, s': State)
    requires Inv(s) && Runs(s, run, s')
    ensures Inv(s')
    decreases run
  {
    if run != [] {
      StepKeeps(s, run[0]);
      RunKeeps(Apply(s, run[0]), run[1..], s');
    }
  }

  // ---- what the operations do

  /** A request that is run is out if and only if libuv has accepted it. Then it has recorded its target and its size,
      and the size is in the queue of the target; if not, no queue has changed. */
  lemma RunEffects(s: State, r: nat, target: Option<nat>, size: Size, accepted: bool)
    requires r < |s.requests| && (target.Some? ==> target.value < |s.queues|)
    ensures var t := Ran(s, r, target, size, accepted);
      && |t.requests| == |s.requests| && (t.requests[r].out <==> accepted)
      && (accepted ==> t.requests[r].target == target && t.requests[r].pending == size)
      && (forall i :: 0 <= i < |s.requests| && i != r ==> t.requests[i] == s.requests[i])
      && |t.queues| == |s.queues| && t.bufs == s.bufs
      && forall f :: 0 <= f < |s.queues| ==>
        t.queues[f] == if accepted && target == Some(f) then (s.queues[f] + size) % WORD else s.queues[f]
  {
    AddThenTakeOff(s.(requests := s.requests[r := Request(accepted, target, size)]), target, size);
  }

  /** The same, for a write and a sendfile: the size is the length of all the chunks, or the one given. */
  lemma RunStepEffects(s: State, a: Step)
    requires Enabled(s, a) && (a.RunWrite? || a.RunSendfile?)
    ensures var t := Apply(s, a);
      var target := if a.RunWrite? then Some(a.f) else a.target;
      var size := if a.RunWrite? then Length(s.bufs[a.buf]) else a.length;
      && |t.requests| == |s.requests| && (t.requests[a.r].out <==> a.accepted)
      && (a.accepted ==> t.requests[a.r].target == target && t.requests[a.r].pending == size % WORD)
      && (!a.accepted ==> t.queues == s.queues)
      && (a.accepted && target.Some? ==> t.queues == s.queues[target.value := (s.queues[target.value] + size) % WORD])
      && (a.accepted && target.None? ==> t.queues == s.queues)
  {
    if a.RunWrite? {
      SumIsLength(s.bufs[a.buf]);
      Modulo(Length(s.bufs[a.buf]), s.queues[a.f]);
      RunEffects(s, a.r, Some(a.f), SumLens(s.bufs[a.buf]), a.accepted);
    } else {
      RunEffects(s, a.r, a.target, a.length, a.accepted);
    }
  }

  /** A completed request is not out any more, and exactly what it has recorded leaves the queue of its target. */
  lemma CompleteEffects(s: State, r: nat)
    requires Enabled(s, Complete(r))
    ensures var t, x := Apply(s, Complete(r)), s.requests[r];
      && t.requests == s.requests[r := x.(out := false)] && |t.queues| == |s.queues| && t.bufs == s.bufs
      && forall f :: 0 <= f < |s.queues| ==>
        t.queues[f] == if x.target == Some(f) then (s.queues[f] - x.pending) % WORD else s.queues[f]
  {
  }

  // ---- main results

  ghost function Length(lens: seq<Size>): nat {
    if lens == [] then 0 else lens[0] + Length(lens[1..])
  }

  lemma {:induction false} LengthAppend(lens: seq<Size>, n: Size)
    ensures Length(lens + [n]) == Length(lens) + n
  {
    if lens != [] {
      LengthAppend(lens[1..], n);
      assert (lens + [n])[1..] == lens[1..] + [n];
    }
  }

  /** The size that a write records is the length of its buffer, in the arithmetic of the machine. */
  lemma {:induction false} SumIsLength(lens: seq<Size>)
    ensures SumLens(lens) == Length(lens) % WORD
  {
    if lens != [] {
      var n := |lens| - 1;
      SumIsLength(lens[..n]);
      LengthAppend(lens[..n], lens[n]);
      assert lens[..n] + [lens[n]] == lens;
      Modulo(Length(lens[..n]), lens[n]);
    }
  }

  /** In every run of any number of requests, with failures, partial writes and buffers changed while they are written:
      the queue size of a file is the sum of the sizes recorded by the requests that are out to it. */
  lemma QueueIsSum(files: nat, run: seq<Step>, s: State, f: nat)
    requires Runs(Initial(files), run, s) && f < |s.queues|
    ensures s.queues[f] == Outstanding(s.requests, f) % WORD
    ensures Outstanding(s.requests, f) < WORD ==> s.queues[f] == Outstanding(s.requests, f)
  {
    RunKeeps(Initial(files), run, s);
  }

  lemma {:induction false} SumIsZero(rs: seq<Request>, f: nat)
    ensures Outstanding(rs, f) == 0 <==> forall i :: 0 <= i < |rs| ==> Share(rs[i], f) == 0
  {
    if rs != [] {
      SumIsZero(rs[1..], f);
      assert forall i :: 0 <= i < |rs[1..]| ==> rs[1..][i] == rs[i + 1];
    }
  }

  ghost predicate RecordedNothing(s: State, f: nat) {
    forall i :: 0 <= i < |s.requests| ==> Share(s.requests[i], f) == 0
  }

  /** A try_write() proceeds if and only if the sizes recorded by the requests that are out to the file add up to 0 in
      the arithmetic of the machine; that is, below the word size, if and only if each of them is 0. */
  lemma TryWriteProceeds(files: nat, run: seq<Step>, s: State, f: nat)
    requires Runs(Initial(files), run, s) && f < |s.queues|
    ensures s.queues[f] == 0 <==> Outstanding(s.requests, f) % WORD == 0
    ensures Outstanding(s.requests, f) < WORD ==> (s.queues[f] == 0 <==> RecordedNothing(s, f))
  {
    QueueIsSum(files, run, s, f);
    SumIsZero(s.requests, f);
  }

  /** So it is not true that it proceeds only when no request is out: a write of an empty buffer does not hold it up. */
  lemma EmptyWriteIsNotSeen() returns (run: seq<Step>, s: State)
    ensures Runs(Initial(1), run, s) && |s.queues| == 1 && s.queues[0] == 0
    ensures |s.requests| == 1 && s.requests[0].out && s.requests[0].target == Some(0)
  {
    var s0 := Initial(1);
    var s1 := s0.(requests := [Request(false, None, 0)]);
    var s2 := s1.(bufs := [[0]]);
    s := State([0], [Request(true, Some(0), 0)], [[0]]);
    run := [NewRequest, NewBuffer([0]), RunWrite(0, 0, 0, true)];
    assert Apply(s0, run[0]) == s1 && Apply(s1, run[1]) == s2;
    assert SumLens([0]) == 0;
    assert Apply(s2, run[2]) == s;
    assert run[1..] == [run[1], run[2]] && run[1..][1..] == [run[2]] && [run[2]][1..] == [];
    assert Runs(s2, [run[2]], s);
    assert Runs(s1, run[1..], s);
    assert Runs(s0, run, s);
  }

  /** And two sendfiles whose lengths add up to the word size are not seen either, though both recorded bytes. */
  lemma WrappedSizesAreNotSeen() returns (run: seq<Step>, s: State)
    ensures Runs(Initial(1), run, s) && |s.queues| == 1 && s.queues[0] == 0
    ensures |s.requests| == 2 && forall i :: 0 <= i < 2 ==>
      s.requests[i].out && s.requests[i].target == Some(0) && s.requests[i].pending > 0
  {
    var idle, most := Request(false, None, 0), WORD - 1;
    var s1, s2 := State([0], [idle], []), State([0], [idle, idle], []);
    var more;
    more, s := TwoSendfiles(idle, most);
    run := [NewRequest, NewRequest] + more;
    assert Apply(Initial(1), NewRequest) == s1 && Apply(s1, NewRequest) == s2;
    assert run[1..] == [NewRequest] + more && run[1..][1..] == more;
    assert Runs(s1, run[1..], s);
  }

  lemma TwoSendfiles(idle: Request, most: Size) returns (run: seq<Step>, s: State)
    requires idle == Request(false, None, 0) && most == WORD - 1
    ensures s == State([0], [Request(true, Some(0), most), Request(true, Some(0), 1)], [])
    ensures Runs(State([0], [idle, idle], []), run, s)
  {
    var first, second := RunSendfile(0, Some(0), most, true), RunSendfile(1, Some(0), 1, true);
    var s2, s3 := State([0], [idle, idle], []), State([most], [Request(true, Some(0), most), idle], []);
    run, s := [first, second], State([0], [Request(true, Some(0), most), Request(true, Some(0), 1)], []);
    assert Apply(s2, first) == s3 && Apply(s3, second) == s;
    assert run[1..] == [second] && [second][1..] == [];
    assert Runs(s3, [second], s);
  }
}

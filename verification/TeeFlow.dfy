/** The program that copies its input to a file at standard output and from there to any number of other files: its
    water marks, the counter of the bytes on their way to the other files, and the pool of buffers. */
module TeeFlow {
  import opened ReadCommand
  import opened Wrappers

  const BUFFER_SIZE := 8192
  const UPPER_LIMIT := 128 * BUFFER_SIZE
  const LOWER_LIMIT := 16 * BUFFER_SIZE

  /** A buffer of the pool: the length of its data and the references on it. One of them is the pool's; `lost` of them
      went into reads that libuv did not accept, and nobody gives them back. */
  datatype Buf = Buf(len: nat, refs: int, lost: nat)

  /** A write request that is out: its buffer, the size recorded when it was run, and the number of the file that it
      writes to, or none for standard output. */
  datatype Write = Write(buf: nat, size: nat, file: Option<nat>)

  /** The stored read command; the pool; the buffer of the read that is out; the buffer that a running callback has as
      its parameter; the writes that are out to standard output and to the other files; file_write_queues_size; and the
      bytes of the writes to the other files that failed. */
  datatype Tee = Tee(cmd: RdCmd, pool: seq<Buf>, reading: Option<nat>, param: Option<nat>,
                     outq: seq<Write>, fileq: seq<Write>, queues: int, leaked: nat)

  ghost function Sizes(q: seq<Write>): nat {
    if q == [] then 0 else q[0].size + Sizes(q[1..])
  }

  ghost function Count(q: seq<Write>, b: nat): nat {
    if q == [] then 0 else (if q[0].buf == b then 1 else 0) + Count(q[1..], b)
  }

  ghost function WithoutAt(q: seq<Write>, k: nat): seq<Write>
    requires k < |q|
  {
    q[..k] + q[k + 1..]
  }

  /** out.write_queue_size() + file_write_queues_size */
  ghost function Total(s: Tee): int {
    Sizes(s.outq) + s.queues
  }

  // ---- what the callbacks do, piece by piece

  ghost function Ref(pool: seq<Buf>, b: nat, n: int): seq<Buf>
    requires b < |pool|
  {
    pool[b := pool[b].(refs := pool[b].refs + n)]
  }

  /** The first buffer that nobody but the pool refers to, or the end of the pool. */
  ghost function Spare(pool: seq<Buf>, from: nat): nat
    requires from <= |pool|
    decreases |pool| - from
  {
    if from == |pool| || pool[from].refs == 1 then from else Spare(pool, from + 1)
  }

  /** alloc_cb(): a spare buffer with its capacity restored, or a new one, with a reference for the reader. */
  ghost function Allocated(s: Tee, accepted: bool): Tee {
    var b := Spare(s.pool, 0);
    var lost := if accepted then 0 else 1;
    if b < |s.pool| then
      s.(pool := s.pool[b := Buf(BUFFER_SIZE, 2, lost)], reading := if accepted then Some(b) else s.reading)
    else
      s.(pool := s.pool + [Buf(BUFFER_SIZE, 2, lost)], reading := if accepted then Some(b) else s.reading)
  }

  /** The running callback has a buffer. */
  ghost predicate Has(s: Tee) {
    s.param.Some? && s.param.value < |s.pool|
  }

  ghost function SetLen(s: Tee, n: nat): Tee
    requires Has(s)
  {
    s.(pool := s.pool[s.param.value := s.pool[s.param.value].(len := n)])
  }

  ghost function StartWrite(s: Tee): Tee
    requires Has(s)
  {
    s.(pool := Ref(s.pool, s.param.value, 1),
       outq := s.outq + [Write(s.param.value, s.pool[s.param.value].len, None)])
  }

  ghost function StartFileWrite(s: Tee, file: nat): Tee
    requires Has(s)
  {
    var len := s.pool[s.param.value].len;
    s.(pool := Ref(s.pool, s.param.value, 1), fileq := s.fileq + [Write(s.param.value, len, Some(file))],
       queues := s.queues + len)
  }

  /** The end of a callback: its parameter gives back its reference. */
  ghost function Drop(s: Tee): Tee
    requires Has(s)
  {
    s.(pool := Ref(s.pool, s.param.value, -1), param := None)
  }

  ghost function TakeRead(s: Tee): Tee {
    s.(reading := None, param := s.reading)
  }

  ghost function TakeWrite(s: Tee, k: nat): Tee
    requires k < |s.outq|
  {
    s.(param := Some(s.outq[k].buf), outq := WithoutAt(s.outq, k))
  }

  ghost function TakeFileWrite(s: Tee, k: nat): Tee
    requires k < |s.fileq|
  {
    s.(param := Some(s.fileq[k].buf), fileq := WithoutAt(s.fileq, k))
  }

  ghost function Pausing(s: Tee): Tee {
    s.(cmd := Next(s.cmd, Pause(Total(s) >= UPPER_LIMIT, 0)))
  }

  ghost function Resuming(s: Tee, startRet: int): Tee {
    s.(cmd := Next(s.cmd, Resume(Total(s) <= LOWER_LIMIT, startRet)))
  }

  /** read_resume(): a file asks for a buffer before the command returns; anything else only later. */
  ghost function AfterResume(s: Tee, startRet: int, direct: bool): Tee {
    var t := Resuming(s, startRet);
    if direct && s.cmd == Paused && Total(s) <= LOWER_LIMIT then Allocated(t, startRet >= 0) else t
  }

  // ---- the callbacks

  ghost function Consumed(s: Tee, nread: int, initiated: bool): Tee
    requires Has(s)
  {
    if nread < 0 then s.(cmd := Stopped)
    else if nread == 0 then s
    else if initiated then StartWrite(SetLen(s, nread))
    else SetLen(s, nread).(cmd := Stopped)
  }

  /** The callback of the reader. */
  ghost function DidRead(s: Tee, nread: int, initiated: bool): Tee
    requires s.reading.Some? && s.reading.value < |s.pool|
  {
    Drop(Pausing(Consumed(TakeRead(s), nread, initiated)))
  }

  /** write_to_files(): one write for each file, which libuv accepts or not. */
  ghost function Dispatched(s: Tee, accepted: seq<bool>): (u: Tee)
    requires Has(s)
    ensures Has(u) && u.param == s.param
    decreases accepted
  {
    if accepted == [] then s
    else
      var n := |accepted| - 1;
      var t := Dispatched(s, accepted[..n]);
      if accepted[n] then StartFileWrite(t, n) else t
  }

  /** write_to_stdout_cb() */
  ghost function DidWrite(s: Tee, k: nat, ok: bool, accepted: seq<bool>, startRet: int, direct: bool): Tee
    requires k < |s.outq| && s.outq[k].buf < |s.pool|
  {
    var t := TakeWrite(s, k);
    Drop(AfterResume(if ok then Dispatched(t, accepted) else t.(cmd := Stopped), startRet, direct))
  }

  /** file_write_queues_size without the bytes of the buffer of the callback. */
  ghost function OffCounter(s: Tee): Tee
    requires Has(s)
  {
    s.(queues := s.queues - s.pool[s.param.value].len)
  }

  /** What a failed write leaves in the counter for ever. */
  ghost function Leaking(s: Tee, size: nat): Tee {
    s.(leaked := s.leaked + size)
  }

  /** write_to_file_cb(): a failed write is not taken off the counter, and resumes nothing. */
  ghost function DidWriteFile(s: Tee, k: nat, ok: bool, startRet: int, direct: bool): Tee
    requires k < |s.fileq| && s.fileq[k].buf < |s.pool|
  {
    var t := TakeFileWrite(s, k);
    Drop(if ok then AfterResume(OffCounter(t), startRet, direct)
         else Leaking(t, s.fileq[k].size))
  }

  /** outQueue is the write queue size of the file at standard output; the ghost fields stand for what libuv holds. */
  class Program {
    const input: Io
    const files: nat
    var pool: seq<Buf>
    var outQueue: int
    var queues: int
    ghost var reading: Option<nat>
    ghost var param: Option<nat>
    ghost var outq: seq<Write>
    ghost var fileq: seq<Write>
    ghost var leaked: nat

    ghost function Value(): Tee
      reads this, input
    {
      Tee(input.rdcmdState, pool, reading, param, outq, fileq, queues, leaked)
    }

    ghost predicate Valid()
      reads this
    {
      outQueue == Sizes(outq)
    }

    constructor (io: Io, n: nat)
      ensures Valid() && input == io && files == n
      ensures Value() == Initial().(cmd := io.rdcmdState)
    {
      input, files, pool, outQueue, queues := io, n, [], 0, 0;
      reading, param, outq, fileq, leaked := None, None, [], [], 0;
    }

    method AllocCb(accepted: bool) returns (b: nat)
      requires Valid()
      modifies this
      ensures Valid() && Value() == Allocated(old(Value()), accepted)
      ensures b < |pool| && (accepted ==> reading == Some(b))
    {
      b := 0;
      while b < |pool| && pool[b].refs != 1
        invariant b <= |pool| && Spare(pool, 0) == Spare(pool, b)
      {
        b := b + 1;
      }
      var lost := if accepted then 0 else 1;
      if b < |pool| {
        pool := pool[b := Buf(BUFFER_SIZE, 2, lost)];
      } else {
        pool := pool + [Buf(BUFFER_SIZE, 2, lost)];
      }
      reading := if accepted then Some(b) else reading;
    }

    /** A new reference on a buffer, or, with a negative number, one given back. */
    method AddRef(b: nat, n: int)
      requires b < |pool|
      modifies this`pool
      ensures pool == Ref(old(pool), b, n)
    {
      pool := pool[b := pool[b].(refs := pool[b].refs + n)];
    }

    method Consume(b: nat, nread: int, initiated: bool)
      requires Valid() && param == Some(b) && b < |pool|
      modifies this, input
      ensures Valid() && Value() == Consumed(old(Value()), nread, initiated)
    {
      if nread < 0 {
        var _ := input.ReadStop(0);
      } else if nread > 0 {
        pool := pool[b := pool[b].(len := nread)];
        if initiated {
          AddRef(b, 1);
          StartedWrite(b);
        } else {
          var _ := input.ReadStop(0);
        }
      }
    }

    method ReadCb(b: nat, nread: int, initiated: bool)
      requires Valid() && reading == Some(b) && b < |pool|
      modifies this, input
      ensures Valid() && Value() == DidRead(old(Value()), nread, initiated)
    {
      reading, param := None, Some(b);
      Consume(b, nread, initiated);
      var _ := input.ReadPause(outQueue + queues >= UPPER_LIMIT, 0);
      AddRef(b, -1);
      param := None;
    }

    method StartedWrite(b: nat)
      requires Valid() && b < |pool|
      modifies this`outQueue, this`outq
      ensures Valid() && outq == old(outq) + [Write(b, pool[b].len, None)]
    {
      Append(outq, Write(b, pool[b].len, None), 0);
      outQueue, outq := outQueue + pool[b].len, outq + [Write(b, pool[b].len, None)];
    }

    method WriteToFiles(b: nat, accepted: seq<bool>)
      requires Valid() && param == Some(b) && b < |pool|
      modifies this
      ensures Valid() && Value() == Dispatched(old(Value()), accepted)
    {
      ghost var was := Value();
      var i := 0;
      while i < |accepted|
        invariant i <= |accepted| && Valid() && param == Some(b) && b < |pool|
        invariant Value() == Dispatched(was, accepted[..i])
      {
        assert accepted[..i + 1][..i] == accepted[..i];
        if accepted[i] {
          AddRef(b, 1);
          queues, fileq := queues + pool[b].len, fileq + [Write(b, pool[b].len, Some(i))];
        }
        i := i + 1;
      }
      assert accepted[..i] == accepted;
    }

    /** The end of a completion callback. */
    method TryResume(b: nat, startRet: int, direct: bool)
      requires Valid() && param == Some(b) && b < |pool|
      modifies this, input
      ensures Valid() && Value() == Drop(AfterResume(old(Value()), startRet, direct))
    {
      var asks := direct && input.rdcmdState == Paused && outQueue + queues <= LOWER_LIMIT;
      var _ := input.ReadResume(outQueue + queues <= LOWER_LIMIT, startRet);
      if asks {
        var _ := AllocCb(startRet >= 0);
      }
      AddRef(b, -1);
      param := None;
    }

    /** Before the callback the size recorded by the request has been taken off the write queue of the file. */
    method WriteToStdoutCb(ghost k: nat, b: nat, ok: bool, accepted: seq<bool>, startRet: int,
                           direct: bool)
      requires k < |outq| && outq[k].buf == b < |pool| && outQueue == Sizes(WithoutAt(outq, k))
      modifies this, input
      ensures Valid() && Value() == DidWrite(old(Value()), k, ok, accepted, startRet, direct)
    {
      param, outq := Some(b), WithoutAt(outq, k);
      if !ok {
        var _ := input.ReadStop(0);
      } else {
        WriteToFiles(b, accepted);
      }
      TryResume(b, startRet, direct);
    }

    method WriteToFileCb(ghost k: nat, b: nat, ok: bool, startRet: int, direct: bool)
      requires Valid() && k < |fileq| && fileq[k].buf == b < |pool|
      modifies this, input
      ensures Valid() && Value() == DidWriteFile(old(Value()), k, ok, startRet, direct)
    {
      leaked := leaked + if ok then 0 else fileq[k].size;
      param, fileq := Some(b), WithoutAt(fileq, k);
      if ok {
        queues := queues - pool[b].len;
        TryResume(b, startRet, direct);
      } else {
        AddRef(b, -1);
        param := None;
      }
    }
  }

  // ---- runs

  /** The input asks for a buffer, and its read is accepted or not; a read is done; a write is done, and the input, if
      it is resumed and is a file, directly asks for a buffer. */
  datatype Step =
    | Arm(accepted: bool)
    | ReadDone(nread: int, initiated: bool)
    | WriteDone(k: nat, ok: bool, dispatched: seq<bool>, startRet: int, direct: bool)
    | FileWriteDone(k: nat, ok: bool, startRet: int, direct: bool)

  /** With a number of output files; a read is only accepted in a reading state and when none is out. */
  ghost predicate Enabled(files: nat, s: Tee, a: Step) {
    match a
    case Arm(accepted) => accepted ==> Reading(s.cmd) && s.reading == None
    case ReadDone(nread, _) => s.reading.Some? && s.reading.value < |s.pool| && nread <= s.pool[s.reading.value].len
    case WriteDone(k, _, dispatched, _, _) => k < |s.outq| && s.outq[k].buf < |s.pool| && |dispatched| == files
    case FileWriteDone(k, _, _, _) => k < |s.fileq| && s.fileq[k].buf < |s.pool|
  }

  ghost function Apply(files: nat, s: Tee, a: Step): Tee
    requires Enabled(files, s, a)
  {
    match a
    case Arm(accepted) => Allocated(s, accepted)
    case ReadDone(nread, initiated) => DidRead(s, nread, initiated)
    case WriteDone(k, ok, dispatched, startRet, direct) => DidWrite(s, k, ok, dispatched, startRet, direct)
    case FileWriteDone(k, ok, startRet, direct) => DidWriteFile(s, k, ok, startRet, direct)
  }

  ghost predicate Runs(files: nat, s: Tee, run: seq<Step>, s': Tee)
    decreases run
  {
    if run == [] then s' == s
    else Enabled(files, s, run[0]) && Runs(files, Apply(files, s, run[0]), run[1..], s')
  }

  ghost function Initial(): Tee {
    Tee(Started, [], None, None, [], [], 0, 0)
  }

  // ---- queues of writes

  lemma {:induction false} Append(q: seq<Write>, w: Write, b: nat)
    ensures Sizes(q + [w]) == Sizes(q) + w.size
    ensures Count(q + [w], b) == Count(q, b) + if w.buf == b then 1 else 0
  {
    if q != [] {
      Append(q[1..], w, b);
      assert (q + [w])[1..] == q[1..] + [w];
    }
  }

  lemma {:induction false} Remove(q: seq<Write>, k: nat, b: nat)
    requires k < |q|
    ensures Sizes(WithoutAt(q, k)) == Sizes(q) - q[k].size
    ensures Count(WithoutAt(q, k), b) == Count(q, b) - if q[k].buf == b then 1 else 0
  {
    if k > 0 {
      Remove(q[1..], k - 1, b);
      assert WithoutAt(q, k)[1..] == WithoutAt(q[1..], k - 1);
    } else {
      assert WithoutAt(q, 0) == q[1..];
    }
  }
}

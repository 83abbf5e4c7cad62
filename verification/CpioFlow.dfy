/** The water marks of a program that copies one stream to another. */
module CpioFlow {
  import opened ReadCommand
  import opened Wrappers

  const BUFFER_SIZE := 8192
  const UPPER_LIMIT := 128 * BUFFER_SIZE
  const LOWER_LIMIT := 16 * BUFFER_SIZE

  ghost function Sum(q: seq<nat>): nat {
    if q == [] then 0 else q[0] + Sum(q[1..])
  }

  lemma {:induction false} SumAppend(q: seq<nat>, n: nat)
    ensures Sum(q + [n]) == Sum(q) + n
  {
    if q != [] {
      SumAppend(q[1..], n);
      assert (q + [n])[1..] == q[1..] + [n];
    }
  }

  lemma {:induction false} SumUpdate(q: seq<nat>, k: nat, n: nat)
    requires k < |q|
    ensures Sum(q[k := n]) == Sum(q) - q[k] + n && q[k] <= Sum(q)
  {
    if k > 0 {
      SumUpdate(q[1..], k - 1, n);
      assert q[k := n][1..] == q[1..][k - 1 := n];
    } else {
      assert q[k := n][1..] == q[1..];
    }
  }

  lemma {:induction false} SumRemove(q: seq<nat>, k: nat)
    requires k < |q|
    ensures Sum(q[..k] + q[k + 1..]) == Sum(q) - q[k] && q[k] <= Sum(q)
  {
    if k > 0 {
      SumRemove(q[1..], k - 1);
      assert (q[..k] + q[k + 1..])[1..] == q[1..][..k - 1] + q[1..][k..];
    } else {
      assert q[..0] + q[1..] == q[1..];
    }
  }

  /** The stored read command; whether a read is out, which may also end after the reading has been stopped; and for
      each write request that is out the bytes that are still to be written. */
  datatype Cpio = Cpio(cmd: RdCmd, reading: bool, writes: seq<nat>)

  /** The write queue size of the output stream. */
  ghost function Queued(s: Cpio): nat {
    Sum(s.writes)
  }

  ghost function WithoutAt(q: seq<nat>, k: nat): seq<nat>
    requires k < |q|
  {
    q[..k] + q[k + 1..]
  }

  /** A read callback. With data it starts a write, of which `left` bytes stay in the queue, or fails to. */
  ghost function DidRead(s: Cpio, nread: int, initiated: bool, left: nat): Cpio {
    var r := s.(reading := false);
    if nread < 0 then r.(cmd := Stopped)
    else if nread == 0 then r
    else
      var t := if initiated then r.(writes := s.writes + [left]) else r.(cmd := Stopped);
      t.(cmd := Next(t.cmd, Pause(Queued(t) >= UPPER_LIMIT, 0)))
  }

  ghost function DidWrite(s: Cpio, k: nat, ok: bool, startRet: int): Cpio
    requires k < |s.writes|
  {
    var t := s.(writes := WithoutAt(s.writes, k));
    if ok then t.(cmd := Next(t.cmd, Resume(Queued(t) <= LOWER_LIMIT, startRet))) else t.(cmd := Stopped)
  }

  /** queueSize is what libuv keeps for the output stream. */
  class Program {
    const input: Io
    var queueSize: nat
    ghost var reading: bool
    ghost var writes: seq<nat>

    ghost function Value(): Cpio
      reads this, input
    {
      Cpio(input.rdcmdState, reading, writes)
    }

    ghost predicate Valid()
      reads this
    {
      queueSize == Sum(writes)
    }

    constructor (io: Io)
      ensures Valid() && input == io && !reading && writes == []
    {
      input, queueSize, reading, writes := io, 0, false, [];
    }

    method ReadCb(nread: int, initiated: bool, left: nat)
      requires Valid()
      modifies this, input
      ensures Valid() && Value() == DidRead(old(Value()), nread, initiated, left)
    {
      reading := false;
      if nread < 0 {
        var _ := input.ReadStop(0);
      } else if nread > 0 {
        if initiated {
          SumAppend(writes, left);
          queueSize, writes := queueSize + left, writes + [left];
        } else {
          var _ := input.ReadStop(0);
        }
        var _ := input.ReadPause(queueSize >= UPPER_LIMIT, 0);
      }
    }

    /** Before it calls back libuv has taken the request, and what is left of it, off the queue. */
    method WriteCb(ghost k: nat, ok: bool, startRet: int)
      requires k < |writes| && queueSize == Sum(WithoutAt(writes, k))
      modifies this, input
      ensures Valid() && Value() == DidWrite(old(Value()), k, ok, startRet)
    {
      writes := WithoutAt(writes, k);
      if !ok {
        var _ := input.ReadStop(0);
      } else {
        var _ := input.ReadResume(queueSize <= LOWER_LIMIT, startRet);
      }
    }
  }

  // ---- what the callbacks do

  /** With data that libuv accepts to write, a write of them goes out, and a reading input is paused at the upper
      mark; an end of the input, an error or a refused write stops the reading. */
  lemma ReadEffects(s: Cpio, nread: int, initiated: bool, left: nat)
    ensures var t := DidRead(s, nread, initiated, left);
      && !t.reading && t.writes == (if nread > 0 && initiated then s.writes + [left] else s.writes)
      && (nread < 0 || (nread > 0 && !initiated) ==> t.cmd == Stopped)
      && (nread == 0 ==> t.cmd == s.cmd)
      && (nread > 0 && initiated ==>
            t.cmd == if Reading(s.cmd) && Queued(t) >= UPPER_LIMIT then Paused else s.cmd)
  {
  }

  /** A completed write is off the queue. If it has succeeded, a paused input is resumed at the lower mark; if not, the
      reading is stopped. */
  lemma WriteEffects(s: Cpio, k: nat, ok: bool, startRet: int)
    requires k < |s.writes|
    ensures var t := DidWrite(s, k, ok, startRet);
      && t.writes == s.writes[..k] + s.writes[k + 1..] && t.reading == s.reading
      && (!ok ==> t.cmd == Stopped)
      && (ok && s.cmd == Paused && Queued(t) <= LOWER_LIMIT ==> t.cmd == if startRet < 0 then Unknown else Resumed)
      && (ok && !(s.cmd == Paused && Queued(t) <= LOWER_LIMIT) ==> t.cmd == s.cmd)
  {
  }

  // ---- runs

  /** A read goes out while libuv is told to read; it ends with the read callback; libuv writes some bytes; and it calls
      the write callbacks. */
  datatype Step =
    | Arm
    | Read(nread: int, initiated: bool, left: nat)
    | Progress(k: nat, left: nat)
    | Written(k: nat, ok: bool, startRet: int)

  ghost predicate Enabled(s: Cpio, a: Step) {
    match a
    case Arm => Reading(s.cmd) && !s.reading
    case Read(nread, _, left) => s.reading && nread <= BUFFER_SIZE && (nread >= 0 ==> left <= nread)
    case Progress(k, left) => k < |s.writes| && left <= s.writes[k]
    case Written(k, _, _) => k < |s.writes|
  }

  ghost function Apply(s: Cpio, a: Step): Cpio
    requires Enabled(s, a)
  {
    match a
    case Arm => s.(reading := true)
    case Read(nread, initiated, left) => DidRead(s, nread, initiated, left)
    case Progress(k, left) => s.(writes := s.writes[k := left])
    case Written(k, ok, startRet) => DidWrite(s, k, ok, startRet)
  }

  ghost predicate Runs(s: Cpio, run: seq<Step>, s': Cpio)
    decreases run
  {
    if run == [] then s' == s
    else Enabled(s, run[0]) && Runs(Apply(s, run[0]), run[1..], s')
  }

  ghost predicate Inv(s: Cpio) {
    && Queued(s) <= UPPER_LIMIT - 1 + BUFFER_SIZE
    && (Reading(s.cmd) || s.reading ==> Queued(s) <= UPPER_LIMIT - 1)
    && (s.cmd == Paused ==> s.writes != [] && !s.reading)
  }

  lemma StepKeeps(s: Cpio, a: Step)
    requires Inv(s) && Enabled(s, a)
    ensures Inv(Apply(s, a))
  {
    match a
    case Arm =>
    case Read(nread, initiated, left) => SumAppend(s.writes, left);
    case Progress(k, left) => SumUpdate(s.writes, k, left);
    case Written(k, ok, startRet) => SumRemove(s.writes, k);
  }

  lemma {:induction false} RunKeeps(s: Cpio, run: seq<Step>, s': Cpio)
    requires Inv(s) && Runs(s, run, s')
    ensures Inv(s')
    decreases run
  {
    if run != [] {
      StepKeeps(s, run[0]);
      RunKeeps(Apply(s, run[0]), run[1..], s');
    }
  }

  /** In every run the queue is bounded, and a paused input has no read out and a write completion to wait for. */
  lemma BoundedAndDue(run: seq<Step>, s: Cpio)
    requires Runs(Cpio(Started, false, []), run, s)
    ensures Queued(s) <= UPPER_LIMIT - 1 + BUFFER_SIZE
    ensures s.cmd == Paused ==> s.writes != [] && !s.reading
  {
    RunKeeps(Cpio(Started, false, []), run, s);
  }

  /** The last completion that is due leaves the pause: it resumes the reading, or stops it after a failure; reading
      goes on exactly if the write succeeded and libuv starts to read. */
  lemma LastCompletionLeavesPause(run: seq<Step>, s: Cpio, ok: bool, startRet: int)
    requires Runs(Cpio(Started, false, []), run, s) && s.cmd == Paused && |s.writes| == 1
    ensures var t := DidWrite(s, 0, ok, startRet);
      && t.cmd != Paused && (Reading(t.cmd) <==> ok && startRet >= 0)
  {
    assert WithoutAt(s.writes, 0) == [];
  }
}

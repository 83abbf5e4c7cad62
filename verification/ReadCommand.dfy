/** The read commands of an I/O endpoint: what each does, the documented table, and commands from many threads. */
module ReadCommand {
  import opened Wrappers

  /** The command that was executed last; Unknown is "no command". */
  datatype RdCmd = Unknown | Stopped | Paused | Started | Resumed

  ghost predicate Reading(c: RdCmd) {
    c == Started || c == Resumed
  }

  /** A call into libuv. */
  datatype UvCall = UvReadStart | UvReadStop

  const UV_EINVAL := -4071

  /** What the commands change: the stored state, the references on the handle, the status and the calls into libuv. */
  datatype Regs = Regs(cmd: RdCmd, refs: int, rdsize: nat, status: int, calls: seq<UvCall>)

  /** A command with the results that libuv is going to give: negative for failure. */
  datatype Command =
    | Start(size: nat, hasCallbacks: bool, startRet: int, stopRet: int)
    | Stop(stopRet: int)
    | Pause(condition: bool, stopRet: int)
    | Resume(condition: bool, startRet: int)

  class Io {
    var rdcmdState: RdCmd
    var refs: int
    var rdsize: nat
    var uvStatus: int
    var hasCallbacks: bool
    ghost var calls: seq<UvCall>

    ghost function Value(): Regs
      reads this
    {
      Regs(rdcmdState, refs, rdsize, uvStatus, calls)
    }

    /** An endpoint that one variable refers to. */
    constructor ()
      ensures Value() == Regs(Unknown, 1, 0, 0, []) && !hasCallbacks
    {
      rdcmdState, refs, rdsize, uvStatus, hasCallbacks, calls := Unknown, 1, 0, 0, false, [];
    }

    method UvStart(result: int) returns (r: int)
      modifies this`calls
      ensures r == result && calls == old(calls) + [UvReadStart]
    {
      calls := calls + [UvReadStart];
      r := result;
    }

    method UvStop(result: int) returns (r: int)
      modifies this`calls
      ensures r == result && calls == old(calls) + [UvReadStop]
    {
      calls := calls + [UvReadStop];
      r := result;
    }

    method ReadStart(size: nat, startRet: int, stopRet: int) returns (ret: int)
      modifies this
      ensures hasCallbacks == old(hasCallbacks)
      ensures (Value(), ret) == Exec(old(Value()), Start(size, hasCallbacks, startRet, stopRet))
    {
      if !hasCallbacks {
        uvStatus := UV_EINVAL;
        return UV_EINVAL;
      }
      var state0 := rdcmdState;
      rdcmdState := Started;
      refs := refs + 1;
      match state0 {
        case Unknown | Stopped | Paused =>
        case Started | Resumed =>
          uvStatus := UvStop(stopRet);
          refs := refs - 1;
      }
      rdsize := size;
      uvStatus := 0;
      ret := UvStart(startRet);
      if ret < 0 {
        uvStatus := ret;
        rdcmdState := Unknown;
        refs := refs - 1;
      }
    }

    method ReadStop(stopRet: int) returns (ret: int)
      modifies this
      ensures hasCallbacks == old(hasCallbacks)
      ensures (Value(), ret) == Exec(old(Value()), Stop(stopRet))
    {
      var state0 := rdcmdState;
      rdcmdState := Stopped;
      ret := UvStop(stopRet);
      uvStatus := ret;
      match state0 {
        case Unknown | Stopped | Paused =>
        case Started | Resumed => refs := refs - 1;
      }
    }

    method ReadPause(condition: bool, stopRet: int) returns (ret: int)
      modifies this
      ensures hasCallbacks == old(hasCallbacks)
      ensures (Value(), ret) == Exec(old(Value()), Pause(condition, stopRet))
    {
      if !condition {
        return 1;
      }
      ret := 2;
      match rdcmdState {
        case Unknown | Stopped | Paused =>
        case Started | Resumed =>
          rdcmdState := Paused;
          ret := UvStop(stopRet);
          uvStatus := ret;
          refs := refs - 1;
      }
    }

    method ReadResume(condition: bool, startRet: int) returns (ret: int)
      modifies this
      ensures hasCallbacks == old(hasCallbacks)
      ensures (Value(), ret) == Exec(old(Value()), Resume(condition, startRet))
    {
      if !condition {
        return 1;
      }
      ret := 2;
      match rdcmdState {
        case Unknown | Stopped | Started | Resumed =>
        case Paused =>
          rdcmdState := Resumed;
          refs := refs + 1;
          uvStatus := 0;
          ret := UvStart(startRet);
          if ret < 0 {
            uvStatus := ret;
            rdcmdState := Unknown;
            refs := refs - 1;
          }
      }
    }
  }

  // ---- the documented table

  /** The columns and the entries of the table in the documentation of read_resume(). */
  datatype Entry = DoStart | DoRestart | DoResume | DoStop | DoPause | Refused

  ghost function Table(previous: RdCmd, c: Command): Entry {
    match c
    case Start(_, hasCallbacks, _, _) =>
      if !hasCallbacks then Refused else if Reading(previous) then DoRestart else DoStart
    case Resume(condition, _) => if condition && previous == Paused then DoResume else Refused
    case Stop(_) => DoStop
    case Pause(condition, _) => if condition && Reading(previous) then DoPause else Refused
  }

  /** "Stop": libuv stops reading, and a reading handle gives its extra reference back. */
  ghost function Stopping(r: Regs, next: RdCmd, stopRet: int): Regs {
    Regs(next, if Reading(r.cmd) then r.refs - 1 else r.refs, r.rdsize, stopRet, r.calls + [UvReadStop])
  }

  /** "Start": libuv starts reading; if it does, the handle takes an extra reference, if not, there is no command. */
  ghost function Starting(r: Regs, next: RdCmd, size: nat, startRet: int): Regs {
    if startRet < 0 then Regs(Unknown, r.refs, size, startRet, r.calls + [UvReadStart])
    else Regs(next, r.refs + 1, size, 0, r.calls + [UvReadStart])
  }

  /** What the entries of the table mean: "restart" is "stop" and then "start", "pause" is "stop", and "resume" is
      "start". */
  ghost function Exec(r: Regs, c: Command): (Regs, int) {
    match Table(r.cmd, c)
    case DoStart => (Starting(r, Started, c.size, c.startRet), c.startRet)
    case DoRestart => (Starting(Stopping(r, Stopped, c.stopRet), Started, c.size, c.startRet), c.startRet)
    case DoResume => (Starting(r, Resumed, r.rdsize, c.startRet), c.startRet)
    case DoStop => (Stopping(r, Stopped, c.stopRet), c.stopRet)
    case DoPause => (Stopping(r, Paused, c.stopRet), c.stopRet)
    case Refused =>
      match c
      case Start(_, _, _, _) => (r.(status := UV_EINVAL), UV_EINVAL)
      case Pause(condition, _) => (r, if condition then 2 else 1)
      case Resume(condition, _) => (r, if condition then 2 else 1)
  }

  /** The stored state after a command; it depends on nothing but the stored state before. */
  ghost function Next(cmd: RdCmd, c: Command): RdCmd {
    Exec(Regs(cmd, 0, 0, 0, []), c).0.cmd
  }

  // ---- histories

  /** The endpoint after a history of commands. */
  ghost function After(r: Regs, h: seq<Command>): Regs {
    if h == [] then r else Exec(After(r, h[..|h| - 1]), h[|h| - 1]).0
  }

  /** The state a command leaves behind once it has been executed. */
  ghost function Leaves(c: Option<Command>): RdCmd {
    match c
    case None => Unknown
    case Some(Start(_, _, startRet, _)) => if startRet < 0 then Unknown else Started
    case Some(Resume(_, startRet)) => if startRet < 0 then Unknown else Resumed
    case Some(Stop(_)) => Stopped
    case Some(Pause(_, _)) => Paused
  }

  /** The last command of a history that the table does not refuse. */
  ghost function LastEffective(h: seq<Command>): Option<Command> {
    if h == [] then None
    else
      var before := LastEffective(h[..|h| - 1]);
      if Table(Leaves(before), h[|h| - 1]).Refused? then before else Some(h[|h| - 1])
  }

  ghost predicate Fresh(r: Regs) {
    r.cmd == Unknown && r.calls == []
  }

  /** Whether libuv is reading after these calls, the last of which gave the result `ok`. */
  ghost function LastCall(calls: seq<UvCall>): Option<UvCall> {
    if calls == [] then None else Some(calls[|calls| - 1])
  }

  /** Whatever the history and the results: the stored state is that of the last effective command, and the handle has
      its extra reference, and was last told to start by a call that succeeded, exactly in the two reading states. */
  lemma {:induction false} HistoryLaw(r: Regs, h: seq<Command>)
    requires Fresh(r)
    ensures var a := After(r, h);
      && a.cmd == Leaves(LastEffective(h))
      && a.refs == r.refs + (if Reading(a.cmd) then 1 else 0)
      && (Reading(a.cmd) ==> LastCall(a.calls) == Some(UvReadStart))
      && (a.cmd == Paused || a.cmd == Stopped ==> LastCall(a.calls) == Some(UvReadStop))
  {
    if h != [] {
      HistoryLaw(r, h[..|h| - 1]);
    }
  }

  /** What each command asks of libuv, stores and reports. A start stops a reading endpoint first, takes over the size,
      and without success there is no command any more. */
  lemma StartEffects(r: Regs, size: nat, startRet: int, stopRet: int)
    ensures var (t, ret) := Exec(r, Start(size, true, startRet, stopRet));
      && t.calls == r.calls + (if r.cmd == Started || r.cmd == Resumed then [UvReadStop] else []) + [UvReadStart]
      && ret == startRet && t.rdsize == size && t.status == (if startRet < 0 then startRet else 0)
      && t.cmd == (if startRet < 0 then Unknown else Started)
      && t.refs == r.refs - (if r.cmd == Started || r.cmd == Resumed then 1 else 0) + (if startRet < 0 then 0 else 1)
  {
    assert r.calls + [] == r.calls;
  }

  /** A stop always asks libuv to stop, and reports what libuv says; a reading endpoint gives its reference back. */
  lemma StopEffects(r: Regs, stopRet: int)
    ensures var (t, ret) := Exec(r, Stop(stopRet));
      && t == Regs(Stopped, if r.cmd == Started || r.cmd == Resumed then r.refs - 1 else r.refs, r.rdsize, stopRet,
                   r.calls + [UvReadStop])
      && ret == stopRet
  {
  }

  /** A pause does the same to a reading endpoint, if its condition holds; otherwise it changes nothing. */
  lemma PauseEffects(r: Regs, condition: bool, stopRet: int)
    ensures var (t, ret) := Exec(r, Pause(condition, stopRet));
      if condition && (r.cmd == Started || r.cmd == Resumed) then
        t == Regs(Paused, r.refs - 1, r.rdsize, stopRet, r.calls + [UvReadStop]) && ret == stopRet
      else t == r && ret == if condition then 2 else 1
  {
  }

  /** A refused command changes nothing but the status that a start without callbacks reports. */
  lemma RefusedChangesNothing(r: Regs, c: Command)
    requires Table(r.cmd, c).Refused?
    ensures var (r', ret) := Exec(r, c);
      r' == (if c.Start? then r.(status := UV_EINVAL) else r) && (ret == 1 || ret == 2 || ret == UV_EINVAL)
  {
  }

  /** In every state a resume acts if and only if its condition holds and the last effective command was a pause: then
      it asks libuv to start, and otherwise it changes nothing. */
  lemma ResumeOnlyAfterPause(r: Regs, condition: bool, startRet: int)
    ensures var (t, ret) := Exec(r, Resume(condition, startRet));
      && (condition && r.cmd == Paused <==> t.calls == r.calls + [UvReadStart])
      && (!(condition && r.cmd == Paused) ==> t == r && ret == if condition then 2 else 1)
      && (condition && r.cmd == Paused ==>
            ret == startRet && t.cmd == (if startRet < 0 then Unknown else Resumed) && t.rdsize == r.rdsize)
  {
    assert |r.calls + [UvReadStart]| != |r.calls|;
  }

  /** A resume undoes a pause: the state before, the pause and the resume read alike. */
  lemma PauseResume(r: Regs, stopRet: int, startRet: int)
    requires Reading(r.cmd)
    ensures var paused := Exec(r, Pause(true, stopRet)).0;
      var resumed := Exec(paused, Resume(true, startRet)).0;
      && paused.refs == r.refs - 1 && !Reading(paused.cmd) && resumed.rdsize == r.rdsize
      && (Reading(resumed.cmd) <==> startRet >= 0)
      && resumed.refs == r.refs - if startRet >= 0 then 0 else 1
  {
  }
}

/** Read commands issued by any number of threads: single memory accesses interleave, a spinlock guards the bodies. */
module CommandThreads {
  import opened ReadCommand
  import opened Wrappers

  /** Where a thread is inside the body of a command, with its local variables. */
  datatype Local = Local(at: nat, state0: RdCmd, ret: int)

  datatype Thread = Out | Waiting(c: Command) | InBody(c: Command, local: Local)

  /** The program point after the last access of a body. */
  const END := 11

  ghost function Go(l: Local, r: Regs, at: nat): (Local, Regs) {
    (l.(at := at), r)
  }

  ghost function CallStop(l: Local, r: Regs, at: nat, stopRet: int): (Local, Regs) {
    (l.(at := at, ret := stopRet), r.(calls := r.calls + [UvReadStop], status := stopRet))
  }

  ghost function CallStart(l: Local, r: Regs, fail: nat, startRet: int): (Local, Regs) {
    (l.(at := if startRet < 0 then fail else END, ret := startRet), r.(calls := r.calls + [UvReadStart]))
  }

  /** One access of read_start(). */
  ghost function StartAccess(c: Command, l: Local, r: Regs): (Local, Regs)
    requires c.Start?
  {
    match l.at
    case 0 => if !c.hasCallbacks then (l.(at := END, ret := UV_EINVAL), r.(status := UV_EINVAL))
              else (l.(at := 1, state0 := r.cmd), r)
    case 1 => Go(l, r.(cmd := Started), 2)
    case 2 => Go(l, r.(refs := r.refs + 1), if Reading(l.state0) then 3 else 5)
    case 3 => CallStop(l, r, 4, c.stopRet)
    case 4 => Go(l, r.(refs := r.refs - 1), 5)
    case 5 => Go(l, r.(rdsize := c.size), 6)
    case 6 => Go(l, r.(status := 0), 7)
    case 7 => CallStart(l, r, 8, c.startRet)
    case 8 => Go(l, r.(status := l.ret), 9)
    case 9 => Go(l, r.(cmd := Unknown), 10)
    case _ => Go(l, r.(refs := r.refs - 1), END)
  }

  ghost function StopAccess(c: Command, l: Local, r: Regs): (Local, Regs)
    requires c.Stop?
  {
    match l.at
    case 0 => (l.(at := 1, state0 := r.cmd), r)
    case 1 => Go(l, r.(cmd := Stopped), 2)
    case 2 => CallStop(l, r, if Reading(l.state0) then 3 else END, c.stopRet)
    case _ => Go(l, r.(refs := r.refs - 1), END)
  }

  ghost function PauseAccess(c: Command, l: Local, r: Regs): (Local, Regs)
    requires c.Pause?
  {
    match l.at
    case 0 => (l.(at := if Reading(r.cmd) then 1 else END, ret := 2), r)
    case 1 => Go(l, r.(cmd := Paused), 2)
    case 2 => CallStop(l, r, 3, c.stopRet)
    case _ => Go(l, r.(refs := r.refs - 1), END)
  }

  ghost function ResumeAccess(c: Command, l: Local, r: Regs): (Local, Regs)
    requires c.Resume?
  {
    match l.at
    case 0 => (l.(at := if r.cmd == Paused then 1 else END, ret := 2), r)
    case 1 => Go(l, r.(cmd := Resumed), 2)
    case 2 => Go(l, r.(refs := r.refs + 1), 3)
    case 3 => Go(l, r.(status := 0), 4)
    case 4 => CallStart(l, r, 5, c.startRet)
    case 5 => Go(l, r.(status := l.ret), 6)
    case 6 => Go(l, r.(cmd := Unknown), 7)
    case _ => Go(l, r.(refs := r.refs - 1), END)
  }

  /** One access of the thread that holds the lock. */
  ghost function Access(c: Command, l: Local, r: Regs): (res: (Local, Regs))
    requires l.at < END
    ensures l.at < res.0.at <= END
  {
    match c
    case Start(_, _, _, _) => StartAccess(c, l, r)
    case Stop(_) => StopAccess(c, l, r)
    case Pause(_, _) => PauseAccess(c, l, r)
    case Resume(_, _) => ResumeAccess(c, l, r)
  }

  /** The rest of a body, without interference. */
  ghost function Finish(c: Command, l: Local, r: Regs): (Regs, int)
    decreases END - l.at
  {
    if l.at >= END then (r, l.ret) else var (l', r') := Access(c, l, r); Finish(c, l', r')
  }

  /** A command that goes for the lock; the others return at once. */
  ghost predicate Locks(c: Command) {
    (c.Pause? || c.Resume?) ==> c.condition
  }

  lemma Advance(c: Command, l: Local, r: Regs) returns (l': Local, r': Regs)
    requires l.at < END
    ensures (l', r') == Access(c, l, r) && Finish(c, l, r) == Finish(c, l', r')
  {
    l', r' := Access(c, l, r).0, Access(c, l, r).1;
  }

  lemma StartBody(c: Command, l: Local, r: Regs)
    requires c.Start? && l.at == 0
    ensures Finish(c, l, r) == Exec(r, c)
  {
    var l1, r1 := Advance(c, l, r);
    if c.hasCallbacks {
      l1, r1 := Advance(c, l1, r1);
      l1, r1 := Advance(c, l1, r1);
      if Reading(r.cmd) {
        l1, r1 := Advance(c, l1, r1);
        l1, r1 := Advance(c, l1, r1);
      }
      StartTail(c, l1, r1);
    }
  }

  /** From the assignment of the read size on. */
  lemma StartTail(c: Command, l: Local, r: Regs)
    requires c.Start? && l.at == 5
    ensures Finish(c, l, r) ==
      if c.startRet < 0 then (Regs(Unknown, r.refs - 1, c.size, c.startRet, r.calls + [UvReadStart]), c.startRet)
      else (Regs(r.cmd, r.refs, c.size, 0, r.calls + [UvReadStart]), c.startRet)
  {
    var l1, r1 := Advance(c, l, r);
    l1, r1 := Advance(c, l1, r1);
    l1, r1 := Advance(c, l1, r1);
    if c.startRet < 0 {
      l1, r1 := Advance(c, l1, r1);
      l1, r1 := Advance(c, l1, r1);
      l1, r1 := Advance(c, l1, r1);
    }
  }

  lemma ResumeBody(c: Command, l: Local, r: Regs)
    requires c.Resume? && c.condition && l.at == 0
    ensures Finish(c, l, r) == Exec(r, c)
  {
    var l1, r1 := Advance(c, l, r);
    if r.cmd == Paused {
      l1, r1 := Advance(c, l1, r1);
      l1, r1 := Advance(c, l1, r1);
      l1, r1 := Advance(c, l1, r1);
      l1, r1 := Advance(c, l1, r1);
      if c.startRet < 0 {
        l1, r1 := Advance(c, l1, r1);
        l1, r1 := Advance(c, l1, r1);
        l1, r1 := Advance(c, l1, r1);
      }
    }
  }

  lemma StopPauseBody(c: Command, l: Local, r: Regs)
    requires (c.Stop? || (c.Pause? && c.condition)) && l.at == 0
    ensures Finish(c, l, r) == Exec(r, c)
  {
    var l1, r1 := Advance(c, l, r);
    if c.Stop? || Reading(r.cmd) {
      l1, r1 := Advance(c, l1, r1);
      l1, r1 := Advance(c, l1, r1);
      if Reading(r.cmd) {
        l1, r1 := Advance(c, l1, r1);
      }
    }
  }

  /** A body that nobody interferes with does what the table says. */
  lemma BodyIsExec(c: Command, l: Local, r: Regs)
    requires Locks(c) && l.at == 0
    ensures Finish(c, l, r) == Exec(r, c)
  {
    match c
    case Start(_, _, _, _) => StartBody(c, l, r);
    case Resume(_, _) => ResumeBody(c, l, r);
    case _ => StopPauseBody(c, l, r);
  }

  // ---- the threads

  /** The shared state, the flag of the spinlock, the threads; and, to state the law: which thread set the flag, the
      commands in the order in which they took effect, what each of them returned, and which thread gave it. */
  datatype Sys = Sys(r: Regs, locked: bool, threads: seq<Thread>, holder: Option<nat>,
                     history: seq<Command>, returned: seq<int>, callers: seq<nat>)

  datatype Step = Call(i: nat, c: Command) | TestAndSet(i: nat) | Touch(i: nat) | Unlock(i: nat)

  ghost predicate Enabled(s: Sys, a: Step) {
    && a.i < |s.threads|
    && var t := s.threads[a.i];
      match a
      case Call(_, _) => t.Out?
      case TestAndSet(_) => t.Waiting?
      case Touch(_) => t.InBody? && t.local.at < END
      case Unlock(_) => t.InBody? && t.local.at >= END
  }

  ghost function Apply(s: Sys, a: Step): Sys
    requires Enabled(s, a)
  {
    var t := s.threads[a.i];
    match a
    case Call(i, c) =>
      if Locks(c) then s.(threads := s.threads[i := Waiting(c)])
      else s.(history := s.history + [c], returned := s.returned + [1], callers := s.callers + [i])
    case TestAndSet(i) =>
      if s.locked then s
      else s.(locked := true, holder := Some(i), threads := s.threads[i := InBody(t.c, Local(0, Unknown, 0))])
    case Touch(i) =>
      var (l, r) := Access(t.c, t.local, s.r);
      s.(r := r, threads := s.threads[i := InBody(t.c, l)])
    case Unlock(i) =>
      Sys(s.r, false, s.threads[i := Out], None, s.history + [t.c], s.returned + [t.local.ret], s.callers + [i])
  }

  ghost predicate Runs(s: Sys, run: seq<Step>, s': Sys)
    decreases run
  {
    if run == [] then s' == s
    else Enabled(s, run[0]) && Runs(Apply(s, run[0]), run[1..], s')
  }

  ghost function Initial(r0: Regs, n: nat): Sys {
    Sys(r0, false, seq(n, i => Out), None, [], [], [])
  }

  /** What the commands of a history return when they are executed one after the other. */
  ghost function Returns(r: Regs, h: seq<Command>): seq<int> {
    if h == [] then [] else Returns(r, h[..|h| - 1]) + [Exec(After(r, h[..|h| - 1]), h[|h| - 1]).1]
  }

  /** The holder of the lock is the one thread inside a body. */
  ghost predicate Exclusive(s: Sys) {
    && s.locked == s.holder.Some?
    && (forall i :: 0 <= i < |s.threads| ==> (s.threads[i].InBody? <==> s.holder == Some(i)))
    && (s.holder.Some? ==> s.holder.value < |s.threads|)
    && (forall i :: 0 <= i < |s.threads| && s.threads[i].Waiting? ==> Locks(s.threads[i].c))
  }

  /** The holder will make of the shared state what its command makes of the state after the history; without a holder
      that is the shared state. */
  ghost predicate Agrees(r0: Regs, s: Sys)
    requires Exclusive(s)
  {
    var base := After(r0, s.history);
    && s.returned == Returns(r0, s.history)
    && match s.holder
       case None => s.r == base
       case Some(h) => Finish(s.threads[h].c, s.threads[h].local, s.r) == Exec(base, s.threads[h].c)
  }

  ghost predicate Inv(r0: Regs, s: Sys) {
    Exclusive(s) && Agrees(r0, s)
  }

  lemma HistoryGrows(r0: Regs, h: seq<Command>, c: Command)
    ensures After(r0, h + [c]) == Exec(After(r0, h), c).0
    ensures Returns(r0, h + [c]) == Returns(r0, h) + [Exec(After(r0, h), c).1]
  {
    assert (h + [c])[..|h|] == h;
  }

  lemma StepKeepsExclusive(s: Sys, a: Step)
    requires Exclusive(s) && Enabled(s, a)
    ensures Exclusive(Apply(s, a))
  {
  }

  lemma CallKeeps(r0: Regs, s: Sys, i: nat, c: Command)
    requires Inv(r0, s) && Enabled(s, Call(i, c))
    ensures Inv(r0, Apply(s, Call(i, c)))
  {
    var s' := Apply(s, Call(i, c));
    StepKeepsExclusive(s, Call(i, c));
    HistoryGrows(r0, s.history, c);
    if s.holder.Some? {
      assert s'.threads[s.holder.value] == s.threads[s.holder.value];
    }
    assert !Locks(c) ==> Exec(After(r0, s.history), c) == (After(r0, s.history), 1);
  }

  lemma TestAndSetKeeps(r0: Regs, s: Sys, i: nat)
    requires Inv(r0, s) && Enabled(s, TestAndSet(i))
    ensures Inv(r0, Apply(s, TestAndSet(i)))
  {
    StepKeepsExclusive(s, TestAndSet(i));
    if !s.locked {
      BodyIsExec(s.threads[i].c, Local(0, Unknown, 0), s.r);
    }
  }

  lemma TouchKeeps(r0: Regs, s: Sys, i: nat)
    requires Inv(r0, s) && Enabled(s, Touch(i))
    ensures Inv(r0, Apply(s, Touch(i)))
  {
    StepKeepsExclusive(s, Touch(i));
    var t := s.threads[i];
    var l, r := Advance(t.c, t.local, s.r);
    assert Apply(s, Touch(i)).threads[i] == InBody(t.c, l);
  }

  lemma UnlockKeeps(r0: Regs, s: Sys, i: nat)
    requires Inv(r0, s) && Enabled(s, Unlock(i))
    ensures Inv(r0, Apply(s, Unlock(i)))
  {
    StepKeepsExclusive(s, Unlock(i));
    HistoryGrows(r0, s.history, s.threads[i].c);
  }

  lemma StepKeeps(r0: Regs, s: Sys, a: Step)
    requires Inv(r0, s) && Enabled(s, a)
    ensures Inv(r0, Apply(s, a))
  {
    match a
    case Call(i, c) => CallKeeps(r0, s, i, c);
    case TestAndSet(i) => TestAndSetKeeps(r0, s, i);
    case Touch(i) => TouchKeeps(r0, s, i);
    case Unlock(i) => UnlockKeeps(r0, s, i);
  }

  lemma {:induction false} RunKeeps(r0: Regs, s: Sys, run: seq<Step>, s': Sys)
    requires Inv(r0, s) && Runs(s, run, s')
    ensures Inv(r0, s')
    decreases run
  {
    if run != [] {
      StepKeeps(r0, s, run[0]);
      RunKeeps(r0, Apply(s, run[0]), run[1..], s');
    }
  }

  // ---- whose commands they are

  /** The commands of a history that thread i has given. */
  ghost function Given(h: seq<Command>, callers: seq<nat>, i: nat): seq<Command>
    requires |h| == |callers|
  {
    if h == [] then []
    else Given(h[..|h| - 1], callers[..|h| - 1], i) + if callers[|h| - 1] == i then [h[|h| - 1]] else []
  }

  /** The command that a thread is still executing. */
  ghost function Pending(t: Thread): seq<Command> {
    if t.Out? then [] else [t.c]
  }

  ghost function CallOf(a: Step, i: nat): seq<Command> {
    if a.Call? && a.i == i then [a.c] else []
  }

  /** The calls that thread i makes in a run. */
  ghost function Calls(run: seq<Step>, i: nat): seq<Command> {
    if run == [] then [] else CallOf(run[0], i) + Calls(run[1..], i)
  }

  lemma GivenGrows(h: seq<Command>, callers: seq<nat>, c: Command, j: nat, i: nat)
    requires |h| == |callers|
    ensures Given(h + [c], callers + [j], i) == Given(h, callers, i) + if j == i then [c] else []
  {
    assert (h + [c])[..|h|] == h && (callers + [j])[..|h|] == callers;
  }

  /** What thread i has given and what it is still executing. */
  ghost function Mine(s: Sys, i: nat): seq<Command>
    requires |s.history| == |s.callers| && i < |s.threads|
  {
    Given(s.history, s.callers, i) + Pending(s.threads[i])
  }

  lemma CallGives(s: Sys, j: nat, c: Command, i: nat)
    requires |s.history| == |s.callers| && i < |s.threads| && Enabled(s, Call(j, c))
    ensures Mine(Apply(s, Call(j, c)), i) == Mine(s, i) + if i == j then [c] else []
  {
    var g, x := Given(s.history, s.callers, i), if i == j then [c] else [];
    if Locks(c) {
      Joined(g, Pending(s.threads[i]), g, Pending(Apply(s, Call(j, c)).threads[i]), x);
    } else {
      GivenGrows(s.history, s.callers, c, j, i);
      Joined(g, Pending(s.threads[i]), g + x, Pending(s.threads[i]), x);
    }
  }

  /** New calls are either given or pending. */
  lemma Joined<T>(given: seq<T>, pending: seq<T>, given': seq<T>, pending': seq<T>, x: seq<T>)
    requires x == [] || pending == []
    requires if given' == given then pending' == pending + x else given' == given + x && pending' == pending
    ensures given' + pending' == (given + pending) + x
  {
  }

  lemma UnlockGives(s: Sys, j: nat, i: nat)
    requires |s.history| == |s.callers| && i < |s.threads| && Enabled(s, Unlock(j))
    ensures Mine(Apply(s, Unlock(j)), i) == Mine(s, i)
  {
    GivenGrows(s.history, s.callers, s.threads[j].c, j, i);
  }

  lemma OtherGives(s: Sys, a: Step, i: nat)
    requires |s.history| == |s.callers| && i < |s.threads| && Enabled(s, a) && (a.TestAndSet? || a.Touch?)
    ensures var t := Apply(s, a); t.history == s.history && t.callers == s.callers && |t.threads| == |s.threads|
    ensures Mine(Apply(s, a), i) == Mine(s, i)
  {
  }

  lemma StepGives(s: Sys, a: Step, i: nat)
    requires |s.history| == |s.callers| && i < |s.threads| && Enabled(s, a)
    ensures var t := Apply(s, a); |t.history| == |t.callers| && |t.threads| == |s.threads| && s.history <= t.history
    ensures Mine(Apply(s, a), i) == Mine(s, i) + CallOf(a, i)
  {
    match a
    case Call(j, c) => CallGives(s, j, c, i);
    case Unlock(j) => UnlockGives(s, j, i);
    case _ => OtherGives(s, a, i);
  }

  lemma {:induction false} RunGives(s: Sys, run: seq<Step>, s': Sys, i: nat)
    requires |s.history| == |s.callers| && i < |s.threads| && Runs(s, run, s')
    ensures |s'.history| == |s'.callers| && i < |s'.threads| && s.history <= s'.history
    ensures Mine(s', i) == Mine(s, i) + Calls(run, i)
    decreases run
  {
    if run != [] {
      var t := Apply(s, run[0]);
      StepGives(s, run[0], i);
      RunGives(t, run[1..], s', i);
      Regroup(Mine(s', i), Mine(t, i), Mine(s, i), CallOf(run[0], i), Calls(run[1..], i));
    }
  }

  lemma Regroup<T>(end: seq<T>, mid: seq<T>, start: seq<T>, x: seq<T>, y: seq<T>)
    requires end == mid + y && mid == start + x
    ensures end == start + (x + y)
  {
  }

  // ---- main results

  /** The history consists of the calls that the threads have made, each thread's in the order in which it made them
      and without the one that it is still executing; and it only grows, so that what has returned before a command
      is called also stands before it. */
  lemma HistoryIsCalls(r0: Regs, n: nat, run: seq<Step>, s: Sys, more: seq<Step>, s': Sys, i: nat)
    requires i < n && Runs(Initial(r0, n), run, s) && Runs(s, more, s')
    ensures |s.history| == |s.callers| && i < |s.threads|
    ensures Given(s.history, s.callers, i) + Pending(s.threads[i]) == Calls(run, i)
    ensures s.history <= s'.history
  {
    RunGives(Initial(r0, n), run, s, i);
    RunGives(s, more, s', i);
  }

  /** Every interleaving of any number of threads amounts to a sequential history: the commands returned what they
      return in that order, whenever the lock is free the stored state is the one after that history, and the history
      consists of each thread's calls in the order in which it made them, but for the one it is still executing. */
  lemma Linearizable(r0: Regs, n: nat, run: seq<Step>, s: Sys)
    requires Runs(Initial(r0, n), run, s)
    ensures s.returned == Returns(r0, s.history)
    ensures !s.locked ==> s.r == After(r0, s.history)
    ensures |s.history| == |s.callers| && |s.threads| == n
    ensures forall i :: 0 <= i < n ==> Given(s.history, s.callers, i) + Pending(s.threads[i]) == Calls(run, i)
  {
    RunKeeps(r0, Initial(r0, n), run, s);
    SameThreads(Initial(r0, n), run, s);
    forall i | 0 <= i < n ensures Given(s.history, s.callers, i) + Pending(s.threads[i]) == Calls(run, i) {
      HistoryIsCalls(r0, n, run, s, [], s, i);
    }
  }

  lemma {:induction false} SameThreads(s: Sys, run: seq<Step>, s': Sys)
    requires |s.history| == |s.callers| && Runs(s, run, s')
    ensures |s'.history| == |s'.callers| && |s'.threads| == |s.threads|
    decreases run
  {
    if run != [] {
      SameThreads(Apply(s, run[0]), run[1..], s');
    }
  }

  /** With the history law: whenever the lock is free, the extra reference is held exactly in the reading states. */
  lemma ThreadsHistoryLaw(r0: Regs, n: nat, run: seq<Step>, s: Sys)
    requires Fresh(r0) && Runs(Initial(r0, n), run, s)
    requires !s.locked
    ensures s.r.cmd == Leaves(LastEffective(s.history))
    ensures s.r.refs == r0.refs + if Reading(s.r.cmd) then 1 else 0
  {
    Linearizable(r0, n, run, s);
    HistoryLaw(r0, s.history);
  }
}

/** What a request keeps alive while it is out, and what its callback gets. */
module RequestLifetime {
  import opened Counting
  import opened Ledger
  import opened Ownership
  import opened StepEffects
  import opened Wrappers

  /** The objects that an operation names. */
  ghost function Named(op: Operation): multiset<nat> {
    match op
    case Connect(stream) => multiset{stream}
    case Shutdown(stream) => multiset{stream}
    case Write(stream, buf) => multiset{stream} + multiset{buf}
    case Write2(pipe, buf, sent) => multiset{pipe} + multiset{buf} + multiset{sent}
    case FsWrite(file, buf) => multiset{file} + multiset{buf}
  }

  /** The buffer of an operation that writes. */
  ghost function BufferOf(op: Operation): Option<nat> {
    match op
    case Connect(_) => None
    case Shutdown(_) => None
    case Write(_, buf) => Some(buf)
    case Write2(_, buf, _) => Some(buf)
    case FsWrite(_, buf) => Some(buf)
  }

  /** The request has one reference on each of the named objects and one on itself; its callback will get the
      buffer, and the caller of the callback the rest. */
  ghost predicate Holds(x: Object, r: nat, op: Operation) {
    && x.kind == RequestObject && multiset(x.uses) == Named(op) + multiset{r}
    && ParamBuffer(x.uses) == BufferOf(op)
    && multiset(Guards(x.uses)) + One(BufferOf(op)) == Named(op) + multiset{r}
  }

  lemma Of2(q: seq<nat>, a: nat, b: nat)
    requires |q| == 2 && q[0] == a && q[1] == b
    ensures multiset(q) == multiset{a} + multiset{b}
  {
    assert q == [a] + [b];
  }

  lemma Of3(q: seq<nat>, a: nat, b: nat, c: nat)
    requires |q| == 3 && q[0] == a && q[1] == b && q[2] == c
    ensures multiset(q) == multiset{a} + multiset{b} + multiset{c}
  {
    Of2(q[..2], a, b);
    assert q == q[..2] + [c];
  }

  lemma Of4(q: seq<nat>, a: nat, b: nat, c: nat, d: nat)
    requires |q| == 4 && q[0] == a && q[1] == b && q[2] == c && q[3] == d
    ensures multiset(q) == multiset{a} + multiset{b} + multiset{c} + multiset{d}
  {
    Of3(q[..3], a, b, c);
    assert q == q[..3] + [d];
  }

  lemma TakenHolds(r: nat, op: Operation)
    ensures multiset(Taken(r, op)) == Named(op) + multiset{r}
  {
    var q := Taken(r, op);
    match op
    case Connect(stream) => Of2(q, stream, r);
    case Shutdown(stream) => Of2(q, stream, r);
    case Write(stream, buf) => Of3(q, stream, buf, r);
    case Write2(pipe, buf, sent) => Of4(q, pipe, buf, sent, r);
    case FsWrite(file, buf) => Of3(q, file, buf, r);
  }

  lemma TakenBuffer(r: nat, op: Operation)
    ensures ParamBuffer(Taken(r, op)) == BufferOf(op)
  {
  }

  /** A request that libuv accepts takes a reference for itself on everything that the operation names, and leaves
      variables, callbacks and what others use as they are. */
  lemma RunTakes(s: State, r: nat, op: Operation)
    requires WellFormed(s) && Enabled(s, Run(r, op, true))
    ensures var t := Apply(s, Run(r, op, true));
      && |t.objects| == |s.objects| && Holds(t.objects[r], r, op)
      && (forall i :: 0 <= i < |s.objects| && i != r ==> SameUses(t.objects[i], s.objects[i]))
      && t.vars == s.vars && t.frames == s.frames && t.lost == s.lost && !t.fault
  {
    var t := Apply(s, Run(r, op, true));
    assert t.objects[r].kind == RequestObject && t.objects[r].uses == Taken(r, op);
    TakerHolds(t.objects[r], r, op);
  }

  lemma TakerHolds(x: Object, r: nat, op: Operation)
    requires x.kind == RequestObject && x.uses == Taken(r, op)
    ensures Holds(x, r, op)
  {
    TakenHolds(r, op);
    TakenBuffer(r, op);
    HeldSplits(Taken(r, op));
  }

  // ---- until it is completed

  /** Only its completion changes what a request uses. */
  lemma StepUses(s: State, a: Step, r: nat)
    requires Shape(s) && WellFormed(s) && Enabled(s, a) && r < |s.objects|
    requires s.objects[r].kind == RequestObject && s.objects[r].uses != [] && !(a.Complete? && a.r == r)
    ensures var t := Apply(s, a);
      r < |t.objects| && t.objects[r].kind == RequestObject && t.objects[r].uses == s.objects[r].uses
  {
    assert KindsOf(s, s.objects[r]);
    if OfVariables(a) {
      VariableSteps(s, a);
    } else if OfCreation(a) {
      CreationSteps(s, a);
    } else if OfReading(a) {
      ReadingStepUses(s, a, r);
    } else if a.Return? {
      CallbackEnds(s);
    } else if a.Run? && a.accepted {
      RunTakes(s, a.r, a.op);
    }
  }

  lemma ReadingStepUses(s: State, a: Step, r: nat)
    requires Shape(s) && WellFormed(s) && Enabled(s, a) && OfReading(a)
    requires r < |s.objects| && s.objects[r].kind == RequestObject
    ensures var t := Apply(s, a);
      r < |t.objects| && t.objects[r].kind == RequestObject && t.objects[r].uses == s.objects[r].uses
  {
    match a
    case ReadStart(_) => StartAndStop(s, a);
    case ReadStop(_) => StartAndStop(s, a);
    case Allocate(h, _, _) =>
      assert KindsOf(s, s.objects[h]);
      Supplied(s, a);
    case ReadDone(h, nread, data) =>
      if s.objects[h].phase == Live {
        ReadEnds(s, h, nread, data);
      }
  }

  ghost predicate NotCompleted(run: seq<Step>, r: nat) {
    forall i :: 0 <= i < |run| && run[i].Complete? ==> run[i].r != r
  }

  lemma {:induction false} RunUses(s: State, run: seq<Step>, t: State, r: nat)
    requires Inv(s) && Runs(s, run, t) && NotCompleted(run, r) && r < |s.objects|
    requires s.objects[r].kind == RequestObject && s.objects[r].uses != []
    ensures r < |t.objects| && t.objects[r].kind == RequestObject && t.objects[r].uses == s.objects[r].uses
    decreases run
  {
    if run != [] {
      StepUses(s, run[0], r);
      StepKeeps(s, run[0]);
      RunUses(Apply(s, run[0]), run[1..], t, r);
    }
  }

  /** The run begins with a request that libuv accepts and that is not completed in it. */
  ghost predicate Outstanding(run: seq<Step>, r: nat, op: Operation) {
    run != [] && run[0] == Run(r, op, true) && NotCompleted(run, r)
  }

  lemma OutstandingHolds(before: seq<Step>, s: State, r: nat, op: Operation, run: seq<Step>, t: State)
    requires Runs(Initial(), before, s) && Outstanding(run, r, op) && Runs(s, run, t)
    ensures Inv(t) && r < |t.objects| && Holds(t.objects[r], r, op)
  {
    EveryRun(before, s);
    var rest := run[1..];
    assert forall i :: 0 <= i < |rest| ==> rest[i] == run[i + 1];
    HoldsAfterwards(s, r, op, rest, t);
  }

  lemma HoldsAfterwards(s: State, r: nat, op: Operation, rest: seq<Step>, t: State)
    requires Inv(s) && WellFormed(s) && Enabled(s, Run(r, op, true)) && NotCompleted(rest, r)
    requires Runs(Apply(s, Run(r, op, true)), rest, t)
    ensures Inv(t) && r < |t.objects| && Holds(t.objects[r], r, op)
  {
    var u := Apply(s, Run(r, op, true));
    RunTakes(s, r, op);
    StepKeeps(s, Run(r, op, true));
    HoldsSome(u.objects[r], r, op);
    RunUses(u, rest, t, r);
    RunKeeps(u, rest, t);
  }

  lemma HoldsSome(x: Object, r: nat, op: Operation)
    requires Holds(x, r, op)
    ensures x.uses != []
  {
    assert r in Named(op) + multiset{r};
  }

  lemma HeldLives(t: State, r: nat, o: nat)
    requires Inv(t) && r < |t.objects| && o in multiset(t.objects[r].uses)
    ensures o < |t.objects| && t.objects[o].phase == Live
  {
    HeldExists(t, r, o);
    OwesExists(t, multiset{}, o);
  }

  /** From the moment libuv accepts a request until it is completed, whatever variables are destroyed: everything
      that the operation names is live, and so is the request. */
  lemma LiveUntilCompleted(before: seq<Step>, s: State, r: nat, op: Operation, run: seq<Step>, t: State)
    requires Runs(Initial(), before, s) && Outstanding(run, r, op) && Runs(s, run, t)
    ensures forall o :: o in Named(op) + multiset{r} ==> o < |t.objects| && t.objects[o].phase == Live
  {
    OutstandingHolds(before, s, r, op, run, t);
    forall o | o in Named(op) + multiset{r} ensures o < |t.objects| && t.objects[o].phase == Live {
      HeldLives(t, r, o);
    }
  }

  // ---- in its callback

  /** The callback gets a variable for the request, and one for the buffer that the request was run on; its caller holds
      on to everything else, and the request is not out any more. */
  lemma CallbackGets(before: seq<Step>, s: State, r: nat, op: Operation, run: seq<Step>, t: State)
    requires Runs(Initial(), before, s) && Outstanding(run, r, op) && Runs(s, run, t) && Enabled(t, Complete(r, true))
    ensures WellFormed(t)
    ensures var u, n := Apply(t, Complete(r, true)), |t.frames|;
      && u.vars == t.vars + [Some(r), BufferOf(op)] && |u.frames| == n + 1 && u.frames[..n] == t.frames
      && u.frames[n].params == |t.vars| && u.frames[n].reader == None
      && multiset(u.frames[n].guards) + One(BufferOf(op)) == Named(op) + multiset{r}
      && r < |u.objects| && u.objects[r].uses == []
  {
    OutstandingHolds(before, s, r, op, run, t);
    OwesWellFormed(t, multiset{});
    HolderCalls(t, r, op);
  }

  lemma HolderCalls(t: State, r: nat, op: Operation)
    requires WellFormed(t) && Enabled(t, Complete(r, true)) && Holds(t.objects[r], r, op)
    ensures var u, n := Completed(t, r, true), |t.frames|;
      && u.vars == t.vars + [Some(r), BufferOf(op)] && |u.frames| == n + 1 && u.frames[..n] == t.frames
      && u.frames[n].params == |t.vars| && u.frames[n].reader == None
      && multiset(u.frames[n].guards) + One(BufferOf(op)) == Named(op) + multiset{r}
      && r < |u.objects| && u.objects[r].uses == []
  {
    CallbackBegins(t, r);
    assert t.vars + [Some(r)] + [BufferOf(op)] == t.vars + [Some(r), BufferOf(op)];
  }

  /** A callback ends only with its own return. */
  lemma StepFrames(s: State, a: Step, n: nat)
    requires WellFormed(s) && Enabled(s, a) && n < |s.frames| && n < |Apply(s, a).frames|
    ensures Apply(s, a).frames[n] == s.frames[n]
  {
  }

  /** In every state of the run more than n callbacks are running. */
  ghost predicate Within(s: State, run: seq<Step>, n: nat)
    decreases run
  {
    && |s.frames| > n
    && (run != [] ==> WellFormed(s) && Enabled(s, run[0]) && Within(Apply(s, run[0]), run[1..], n))
  }

  lemma {:induction false} FrameStays(s: State, run: seq<Step>, t: State, n: nat)
    requires Runs(s, run, t) && Within(s, run, n)
    ensures n < |s.frames| && n < |t.frames| && t.frames[n] == s.frames[n]
    decreases run
  {
    if run != [] {
      StepFrames(s, run[0], n);
      FrameStays(Apply(s, run[0]), run[1..], t, n);
    }
  }

  /** And until the callback returns, whatever happens inside it, everything but the buffer, which is its parameter, is
      still live. */
  lemma LiveUntilReturned(before: seq<Step>, s: State, r: nat, op: Operation, run: seq<Step>, t: State,
                          inside: seq<Step>, u: State)
    requires Runs(Initial(), before, s) && Outstanding(run, r, op) && Runs(s, run, t)
    requires Enabled(t, Complete(r, true)) && WellFormed(t)
    requires var called := Apply(t, Complete(r, true)); Runs(called, inside, u) && Within(called, inside, |t.frames|)
    ensures forall o :: o in Named(op) + multiset{r} - One(BufferOf(op)) ==>
      o < |u.objects| && u.objects[o].phase == Live
  {
    var called, n := Apply(t, Complete(r, true)), |t.frames|;
    OutstandingHolds(before, s, r, op, run, t);
    CallbackGets(before, s, r, op, run, t);
    StepKeeps(t, Complete(r, true));
    RunKeeps(called, inside, u);
    FrameStays(called, inside, u, n);
    forall o | o in Named(op) + multiset{r} - One(BufferOf(op)) ensures o < |u.objects| && u.objects[o].phase == Live {
      assert o in multiset(u.frames[n].guards);
      FrameExists(u.frames, n, o);
      OwesExists(u, multiset{}, o);
    }
  }
}

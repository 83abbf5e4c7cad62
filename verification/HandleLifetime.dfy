/** How long a handle lives that is read from: the read that is out from a file has no reference on it. */
module HandleLifetime {
  import opened Counting
  import opened Ledger
  import opened Ownership
  import opened Wrappers

  /** Somebody still has a reference on handle h: it is read from, or a variable, a request or a callback has one. */
  ghost predicate StillUsed(s: State, h: nat)
    requires h < |s.objects|
  {
    || s.objects[h].reading
    || (exists v :: 0 <= v < |s.vars| && s.vars[v] == Some(h))
    || (exists i :: 0 <= i < |s.objects| && h in s.objects[i].uses)
    || (exists k :: 0 <= k < |s.frames| && h in s.frames[k].guards)
  }

  lemma {:induction false} VarOf(vars: seq<Option<nat>>, o: nat)
    requires VarRefs(vars, o) > 0
    ensures exists v :: 0 <= v < |vars| && vars[v] == Some(o)
  {
    if vars[0] == Some(o) {
      assert 0 <= 0 < |vars|;
    } else {
      VarOf(vars[1..], o);
      var v :| 0 <= v < |vars[1..]| && vars[1..][v] == Some(o);
      assert vars[v + 1] == Some(o);
    }
  }

  lemma {:induction false} HolderOf(objects: seq<Object>, o: nat)
    requires ObjectRefs(objects, o) > 0
    ensures exists i: nat :: i < |objects| && HeldBy(i, objects[i], o) > 0
  {
    var n := |objects| - 1;
    if HeldBy(n, objects[n], o) == 0 {
      HolderOf(objects[..n], o);
      var i: nat :| i < n && HeldBy(i, objects[..n][i], o) > 0;
      assert objects[..n][i] == objects[i];
    }
  }

  lemma {:induction false} GuardOf(frames: seq<Frame>, o: nat)
    requires FrameRefs(frames, o) > 0
    ensures exists k :: 0 <= k < |frames| && o in frames[k].guards
  {
    var n := |frames| - 1;
    if Times(frames[n].guards, o) == 0 {
      GuardOf(frames[..n], o);
      var k :| 0 <= k < n && o in frames[..n][k].guards;
      assert frames[..n][k] == frames[k];
    }
  }

  lemma UsedLives(s: State, h: nat)
    requires Inv(s) && h < |s.objects| && StillUsed(s, h)
    ensures s.objects[h].phase == Live
  {
    if s.objects[h].reading {
      HeldExists(s, h, h);
    } else if v :| 0 <= v < |s.vars| && s.vars[v] == Some(h) {
      VarExists(s, v);
    } else if i :| 0 <= i < |s.objects| && h in s.objects[i].uses {
      HeldExists(s, i, h);
      assert Times(s.objects[i].uses, h) > 0;
    } else {
      var k :| 0 <= k < |s.frames| && h in s.frames[k].guards;
      FrameExists(s.frames, k, h);
      assert Times(s.frames[k].guards, h) > 0;
    }
    OwesExists(s, multiset{}, h);
  }

  lemma LiveIsUsed(s: State, h: nat)
    requires Inv(s) && h < |s.objects| && IsHandle(s.objects[h].kind) && s.objects[h].phase == Live
    ensures StillUsed(s, h)
  {
    assert Right(s, multiset{}, h) && s.lost[h] == 0;
    if VarRefs(s.vars, h) > 0 {
      VarOf(s.vars, h);
    } else if ObjectRefs(s.objects, h) > 0 {
      HolderOf(s.objects, h);
      var i: nat :| i < |s.objects| && HeldBy(i, s.objects[i], h) > 0;
      assert Right(s, multiset{}, i);
    } else {
      GuardOf(s.frames, h);
    }
  }

  /** A handle is live exactly as long as somebody has a reference on it; a read that is out from a file has none. */
  lemma HandleLives(s: State, h: nat)
    requires Inv(s) && h < |s.objects| && IsHandle(s.objects[h].kind)
    ensures s.objects[h].phase == Live <==> StillUsed(s, h)
  {
    if StillUsed(s, h) {
      UsedLives(s, h);
    }
    if s.objects[h].phase == Live {
      LiveIsUsed(s, h);
    }
  }

  /** The same, without the parameters and the caller of the callback that was called last. */
  ghost predicate UsedBeyond(s: State, h: nat)
    requires h < |s.objects| && s.frames != []
  {
    var n := |s.frames| - 1;
    || s.objects[h].reading
    || (exists v :: 0 <= v < |s.vars| && s.vars[v] == Some(h) && v != s.frames[n].params && v != s.frames[n].params + 1)
    || (exists i :: 0 <= i < |s.objects| && h in s.objects[i].uses)
    || (exists k :: 0 <= k < n && h in s.frames[k].guards)
  }

  lemma EndedUses(s: State, h: nat)
    requires WellFormed(s) && s.frames != [] && h < |s.objects|
    ensures StillUsed(Ended(s), h) <==> UsedBeyond(s, h)
  {
    var t, n := Ended(s), |s.frames| - 1;
    var p := s.frames[n].params;
    assert t.vars == s.vars[p := None][p + 1 := None] && t.frames == s.frames[..n];
    assert forall v :: 0 <= v < |s.vars| ==> t.vars[v] == if v == p || v == p + 1 then None else s.vars[v];
    assert forall k :: 0 <= k < n ==> t.frames[k] == s.frames[k];
    assert forall i :: 0 <= i < |s.objects| ==> t.objects[i].uses == s.objects[i].uses;
  }

  lemma ReturnFaults(s: State)
    requires Inv(s) && WellFormed(s) && Enabled(s, Return)
    ensures var reader := s.frames[|s.frames| - 1].reader;
      Returned(s).fault <==> reader.Some? && !UsedBeyond(s, reader.value)
  {
    var reader := s.frames[|s.frames| - 1].reader;
    EndedOwes(s);
    AlikeShape(s, Ended(s));
    if reader.Some? {
      HandleLives(Ended(s), reader.value);
      EndedUses(s, reader.value);
    }
  }

  /** A step uses a deleted handle if and only if it is the end of a read from one that nobody has a reference on any
      more, or the end of a read callback after which nobody has one. */
  lemma UsedAfterDeletion(run: seq<Step>, s: State, a: Step)
    requires Runs(Initial(), run, s) && Enabled(s, a)
    ensures WellFormed(s)
    ensures Apply(s, a).fault <==>
      match a
      case ReadDone(h, _, _) => !StillUsed(s, h)
      case Return =>
        var reader := s.frames[|s.frames| - 1].reader;
        reader.Some? && reader.value < |s.objects| && !UsedBeyond(s, reader.value)
      case _ => false
  {
    EveryRun(run, s);
    OwesWellFormed(s, multiset{});
    match a
    case ReadDone(h, _, _) => HandleLives(s, h);
    case Return => ReturnFaults(s);
    case _ =>
  }

  /** The client has a variable, other than the parameters of callbacks, for every handle with a read that is out or
      whose read callback is running. */
  ghost predicate HasVariables(s: State) {
    forall h: nat | h < |s.objects| && IsHandle(s.objects[h].kind) &&
        (s.objects[h].uses != [] || exists k :: 0 <= k < |s.frames| && s.frames[k].reader == Some(h)) ::
      exists v :: 0 <= v < |s.vars| && s.vars[v] == Some(h) && IsNoParameter(s, v)
  }

  ghost predicate IsNoParameter(s: State, v: int) {
    forall k :: 0 <= k < |s.frames| ==> v != s.frames[k].params && v != s.frames[k].params + 1
  }

  /** That is enough: no deleted handle is used. */
  lemma VariablesAreEnough(run: seq<Step>, s: State, a: Step)
    requires Runs(Initial(), run, s) && Enabled(s, a) && HasVariables(s)
    ensures WellFormed(s) && !Apply(s, a).fault
  {
    UsedAfterDeletion(run, s, a);
    EveryRun(run, s);
    if a.Return? && s.frames[|s.frames| - 1].reader.Some? {
      var h := s.frames[|s.frames| - 1].reader.value;
      var v :| 0 <= v < |s.vars| && s.vars[v] == Some(h) && IsNoParameter(s, v);
    }
  }

  // ---- without a variable

  lemma {:induction false} OneMoreStep(s0: State, run: seq<Step>, s: State, a: Step)
    requires Runs(s0, run, s) && WellFormed(s) && Enabled(s, a)
    ensures Runs(s0, run + [a], Apply(s, a))
    decreases run
  {
    if run != [] {
      OneMoreStep(Apply(s0, run[0]), run[1..], s, a);
      assert (run + [a])[1..] == run[1..] + [a];
    }
  }

  /** Step a of a run leads from s to t. */
  ghost predicate Leads(s: State, a: Step, t: State) {
    WellFormed(s) && Enabled(s, a) && Apply(s, a) == t
  }

  ghost function LoopWith(count: nat): Object {
    Object(LoopObject, count, Live, None, false, [], 0)
  }

  ghost function FileWith(count: nat, reading: bool, uses: seq<nat>): Object {
    Object(FileObject, count, Live, Some(0), reading, uses, 0)
  }

  ghost function BufferWith(count: nat): Object {
    Object(BufferObject, count, Live, None, false, [], 0)
  }

  /** A loop, a file and a buffer, and a variable for each. */
  ghost function Opened(file: Object, buffers: nat): State {
    State([LoopWith(2), file, BufferWith(buffers)], [Some(0), Some(1), Some(2)], [], multiset{}, false)
  }

  /** The file after its last reference: the instance is gone, and the buffer of its read is still waiting. */
  ghost function Deleted(uses: seq<nat>): Object {
    Object(FileObject, 0, Gone, None, false, uses, 1)
  }

  ghost function LoopOnly(): State {
    State([LoopWith(1)], [Some(0)], [], multiset{}, false)
  }

  ghost function Unbuffered(): State {
    State([LoopWith(2), FileWith(1, false, [])], [Some(0), Some(1)], [], multiset{}, false)
  }

  lemma NewLoopLeads()
    ensures Leads(Initial(), NewLoop, LoopOnly())
  {
    assert Created(Initial(), LoopObject) == LoopOnly();
  }

  lemma OpenLeads()
    ensures Leads(LoopOnly(), OpenHandle(0, true, true), Unbuffered())
  {
    var s := LoopOnly();
    var t := Created(s, FileObject);
    assert s.vars[0] == Some(0) && t.objects == [LoopWith(1), FileWith(1, false, []).(loop := None)];
    assert NewHandle(s, 0, true, true).objects == Unbuffered().objects;
  }

  lemma NewBufferLeads()
    ensures Leads(Unbuffered(), NewBuffer, Opened(FileWith(1, false, []), 1))
  {
    assert Created(Unbuffered(), BufferObject) == Opened(FileWith(1, false, []), 1);
  }

  lemma Starting()
    ensures Leads(Opened(FileWith(1, false, []), 1), ReadStart(1), Opened(FileWith(2, true, []), 1))
  {
    var s := Opened(FileWith(1, false, []), 1);
    assert s.vars[1] == Some(1);
    assert ReadStarted(s, 1) == Opened(FileWith(2, true, []), 1);
  }

  lemma Allocating()
    ensures Leads(Opened(FileWith(2, true, []), 1), Allocate(1, 2, true), Opened(FileWith(2, true, [2]), 2))
  {
    var s := Opened(FileWith(2, true, []), 1);
    assert s.vars[2] == Some(2);
    assert [] + [2] == [2];
    assert Allocated(s, 1, 2, true) == Opened(FileWith(2, true, [2]), 2);
  }

  /** The client has variables for everything, and a read is out from the file. */
  lemma ReadingIsReached() returns (run: seq<Step>)
    ensures Runs(Initial(), run, Opened(FileWith(2, true, [2]), 2))
  {
    var s3, s4 := Opened(FileWith(1, false, []), 1), Opened(FileWith(2, true, []), 1);
    NewLoopLeads();
    OpenLeads();
    NewBufferLeads();
    Starting();
    Allocating();
    OneMoreStep(Initial(), [], Initial(), NewLoop);
    OneMoreStep(Initial(), [] + [NewLoop], LoopOnly(), OpenHandle(0, true, true));
    run := [] + [NewLoop] + [OpenHandle(0, true, true)];
    OneMoreStep(Initial(), run, Unbuffered(), NewBuffer);
    OneMoreStep(Initial(), run + [NewBuffer], s3, ReadStart(1));
    OneMoreStep(Initial(), run + [NewBuffer] + [ReadStart(1)], s4, Allocate(1, 2, true));
    run := run + [NewBuffer] + [ReadStart(1)] + [Allocate(1, 2, true)];
  }

  ghost function LetGo(loops: nat, file: Object, buffers: nat): State {
    State([LoopWith(loops), file, BufferWith(buffers)], [Some(0), None, Some(2)], [], multiset{}, false)
  }

  lemma Stopping()
    ensures Leads(Opened(FileWith(2, true, [2]), 2), ReadStop(1), Opened(FileWith(1, false, [2]), 2))
  {
    var s := Opened(FileWith(2, true, [2]), 2);
    assert s.vars[1] == Some(1);
    assert ReadStopped(s, 1) == Opened(FileWith(1, false, [2]), 2);
  }

  lemma LettingGoLast()
    ensures Leads(Opened(FileWith(1, false, [2]), 2), Drop(1), LetGo(1, Deleted([2]), 2))
  {
    DroppedLast();
  }

  lemma DroppedLast()
    ensures Dropped(Opened(FileWith(1, false, [2]), 2), 1) == LetGo(1, Deleted([2]), 2)
  {
    var s, t := Opened(FileWith(1, false, [2]), 2), LetGo(1, Deleted([2]), 2);
    assert s.vars[1 := None] == t.vars;
    LastReference(SetVar(s, 1, None));
  }

  lemma LastReference(s: State)
    requires s.objects == [LoopWith(2), FileWith(1, false, [2]), BufferWith(2)]
    ensures UnrefObject(s, 1).objects == [LoopWith(1), Deleted([2]), BufferWith(2)]
  {
    assert Less(s, 1).objects == [LoopWith(2), Deleted([2]).(loop := Some(0)), BufferWith(2)];
  }

  lemma LettingGo()
    ensures Leads(Opened(FileWith(2, true, [2]), 2), Drop(1), LetGo(2, FileWith(1, true, [2]), 2))
  {
    var s, t := Opened(FileWith(2, true, [2]), 2), LetGo(2, FileWith(1, true, [2]), 2);
    assert SetVar(s, 1, None).vars == t.vars;
    assert UnrefObject(SetVar(s, 1, None), 1).objects == t.objects;
  }

  lemma Completing(nread: int)
    requires nread != 0
    ensures var s := LetGo(1, Deleted([2]), 2); Leads(s, ReadDone(1, nread, nread > 0), s.(fault := true))
  {
  }

  /** A file that is stopped and let go while a read is out is deleted, and the completion of the read uses it. */
  lemma DeletedBeforeCompletion(nread: int) returns (run: seq<Step>, s: State)
    requires nread != 0
    ensures Runs(Initial(), run, s) && s.fault && |s.objects| == 3 && s.objects[1] == Deleted([2])
  {
    var s7, a := LetGo(1, Deleted([2]), 2), ReadDone(1, nread, nread > 0);
    run := ReadingIsReached();
    Stopping();
    LettingGoLast();
    Completing(nread);
    OneMoreStep(Initial(), run, Opened(FileWith(2, true, [2]), 2), ReadStop(1));
    OneMoreStep(Initial(), run + [ReadStop(1)], Opened(FileWith(1, false, [2]), 2), Drop(1));
    run := run + [ReadStop(1)] + [Drop(1)];
    OneMoreStep(Initial(), run, s7, a);
    run, s := run + [a], s7.(fault := true);
  }

  /** The callback of the client runs for a file that nobody but its reading has a reference on. */
  ghost function InCallback(file: Object): State {
    State([LoopWith(2), file, BufferWith(2)], [Some(0), None, Some(2), Some(1), Some(2)], [Frame(3, [], Some(1))],
          multiset{}, false)
  }

  lemma CallingBack(nread: int)
    requires nread > 0
    ensures Leads(LetGo(2, FileWith(1, true, [2]), 2), ReadDone(1, nread, true), InCallback(FileWith(2, true, [])))
  {
    var s := LetGo(2, FileWith(1, true, [2]), 2);
    var t := LetGo(2, FileWith(1, true, []), 2);
    assert Rest([2]) == [];
    assert Unsupplied(s, 1, true) == t;
    assert Called(t, 1, Some(2), true) == InCallback(FileWith(2, true, []));
  }

  lemma StoppingInside()
    ensures Leads(InCallback(FileWith(2, true, [])), ReadStop(1), InCallback(FileWith(1, false, [])))
  {
    var s := InCallback(FileWith(2, true, []));
    assert s.vars[3] == Some(1);
    assert ReadStopped(s, 1) == InCallback(FileWith(1, false, []));
  }

  lemma LastReturn(run: seq<Step>, s: State, h: nat)
    requires Runs(Initial(), run, s) && Enabled(s, Return) && h < |s.objects|
    requires s.frames[|s.frames| - 1].reader == Some(h) && !UsedBeyond(s, h)
    ensures WellFormed(s) && Runs(Initial(), run + [Return], Returned(s))
    ensures Returned(s).fault && |Returned(s).objects| == |s.objects| && Returned(s).objects[h].phase == Gone
  {
    UsedAfterDeletion(run, s, Return);
    OneMoreStep(Initial(), run, s, Return);
  }

  lemma Returning()
    ensures var s := InCallback(FileWith(1, false, [])); WellFormed(s) && Enabled(s, Return) && !UsedBeyond(s, 1)
  {
    var s := InCallback(FileWith(1, false, []));
    assert forall v :: 0 <= v < |s.vars| && s.vars[v] == Some(1) ==> v == 3;
  }

  /** A file that nobody but its reading has a reference on, and whose callback stops the reading, is deleted with the
      parameter of the callback, and the caller of the callback uses it. */
  lemma DeletedInCallback(nread: int) returns (run: seq<Step>, s: State)
    requires nread > 0
    ensures Runs(Initial(), run, s) && s.fault && |s.objects| == 3 && s.objects[1].phase == Gone
  {
    var s5, s6 := Opened(FileWith(2, true, [2]), 2), LetGo(2, FileWith(1, true, [2]), 2);
    run := ReadingIsReached();
    LettingGo();
    CallingBack(nread);
    StoppingInside();
    Returning();
    OneMoreStep(Initial(), run, s5, Drop(1));
    OneMoreStep(Initial(), run + [Drop(1)], s6, ReadDone(1, nread, true));
    run := run + [Drop(1)] + [ReadDone(1, nread, true)];
    OneMoreStep(Initial(), run, InCallback(FileWith(2, true, [])), ReadStop(1));
    s := InCallback(FileWith(1, false, []));
    run := run + [ReadStop(1)];
    LastReturn(run, s, 1);
    run, s := run + [Return], Returned(s);
  }
}

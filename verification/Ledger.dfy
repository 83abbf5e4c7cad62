/** The ledger of references over whole runs. */
module Ledger {
  import opened Counting
  import opened Ownership
  import opened Wrappers

  lemma CreatedOwes(s: State, kind: Kind)
    requires Owes(s, multiset{})
    ensures Owes(Created(s, kind), multiset{})
  {
    var n, t := |s.objects|, Created(s, kind);
    forall o: nat ensures Right(t, multiset{}, o) {
      assert Right(s, multiset{}, o);
      VarAdded(s.vars, Some(n), o);
      ObjectAdded(s.objects, Object(kind, 1, Live, None, false, [], 0), o);
    }
  }

  lemma CopiedOwes(s: State, w: nat)
    requires Owes(s, multiset{}) && w < |s.vars|
    ensures Has(s, s.vars[w]) && Owes(Copied(s, w), multiset{})
  {
    var x := s.vars[w];
    VarLives(s, multiset{}, w);
    RefVarOwes(s, x, multiset{});
    AddVarOwes(RefVar(s, x), x, multiset{});
  }

  lemma CopyAssignedOwes(s: State, v: nat, w: nat)
    requires Owes(s, multiset{}) && v < |s.vars| && w < |s.vars|
    ensures Has(s, s.vars[v]) && Has(s, s.vars[w]) && Owes(CopyAssigned(s, v, w), multiset{})
  {
    VarLives(s, multiset{}, v);
    VarLives(s, multiset{}, w);
    if v != w {
      var t := RefVar(s, s.vars[w]);
      RefVarOwes(s, s.vars[w], multiset{});
      SetVarOwes(t, v, s.vars[w], multiset{});
      UnrefVarOwes(SetVar(t, v, s.vars[w]), s.vars[v], multiset{});
    }
  }

  lemma ClearVarOwes(s: State, v: nat, more: multiset<nat>)
    requires Owes(s, more) && v < |s.vars|
    ensures Owes(SetVar(s, v, None), more + One(s.vars[v]))
  {
    assert more + One(None) == more;
    SetVarOwes(s, v, None, more);
  }

  lemma MovedOwes(s: State, w: nat)
    requires Owes(s, multiset{}) && w < |s.vars|
    ensures Owes(Moved(s, w), multiset{})
  {
    ClearVarOwes(s, w, multiset{});
    AddVarOwes(SetVar(s, w, None), s.vars[w], multiset{});
  }

  lemma MoveAssignedOwes(s: State, v: nat, w: nat)
    requires Owes(s, multiset{}) && v < |s.vars| && w < |s.vars|
    ensures Has(s, s.vars[v]) && Owes(MoveAssigned(s, v, w), multiset{})
  {
    VarLives(s, multiset{}, v);
    if v != w {
      ClearVarOwes(s, w, multiset{});
      var t := SetVar(s, w, None);
      SetVarOwes(t, v, s.vars[w], multiset{});
      assert SetVar(t, v, s.vars[w]) == s.(vars := s.vars[v := s.vars[w]][w := None]);
      UnrefVarOwes(SetVar(t, v, s.vars[w]), s.vars[v], multiset{});
    }
  }

  lemma SwappedOwes(s: State, v: nat, w: nat)
    requires Owes(s, multiset{}) && v < |s.vars| && w < |s.vars|
    ensures Owes(Swapped(s, v, w), multiset{})
  {
    if v == w {
      assert Swapped(s, v, w) == s;
    } else {
      ClearVarOwes(s, v, multiset{});
      var t := SetVar(s, v, None);
      SetVarOwes(t, w, s.vars[v], multiset{});
      var u := SetVar(t, w, s.vars[v]);
      SetVarOwes(u, v, s.vars[w], multiset{});
      assert SetVar(u, v, s.vars[w]) == Swapped(s, v, w);
      assert multiset{} + One(None) == multiset{};
    }
  }

  lemma DroppedOwes(s: State, v: nat, more: multiset<nat>)
    requires Owes(s, more) && v < |s.vars|
    ensures Has(s, s.vars[v]) && Owes(Dropped(s, v), more)
  {
    VarLives(s, more, v);
    ClearVarOwes(s, v, more);
    UnrefVarOwes(SetVar(s, v, None), s.vars[v], more);
  }

  lemma RefersExists(s: State, o: nat, kind: Kind)
    requires Owes(s, multiset{}) && Refers(s, o, kind)
    ensures s.objects[o].count > 0
  {
    var v :| 0 <= v < |s.vars| && s.vars[v] == Some(o);
    VarLives(s, multiset{}, v);
  }

  lemma BookedOwes(t: State, n: nat, l: nat)
    requires Owes(t, multiset{}) && l < |t.objects| && t.objects[l].count > 0 && l != n < |t.objects| &&
      t.objects[n].loop == None
    requires Consistent(t.objects[n]) && IsHandle(t.objects[n].kind) && t.objects[l].kind == LoopObject
    requires t.objects[n].phase == Live
    ensures Owes(SetObject(RefObject(t, l), n, t.objects[n].(loop := Some(l))), multiset{})
  {
    RefOwes(t, l, multiset{});
    SetObjectOwes(RefObject(t, l), n, t.objects[n].(loop := Some(l)), multiset{}, multiset{} + multiset{l});
  }

  lemma NewHandleOwes(s: State, l: nat, file: bool, booked: bool)
    requires Owes(s, multiset{}) && Refers(s, l, LoopObject)
    ensures Owes(NewHandle(s, l, file, booked), multiset{})
  {
    var kind := if file then FileObject else HandleObject;
    RefersExists(s, l, LoopObject);
    CreatedOwes(s, kind);
    if booked {
      BookedOwes(Created(s, kind), |s.objects|, l);
    }
  }

  lemma ReadStartedOwes(s: State, h: nat)
    requires Owes(s, multiset{}) && RefersHandle(s, h) && !s.objects[h].reading
    ensures Owes(ReadStarted(s, h), multiset{})
  {
    RefersExists(s, h, s.objects[h].kind);
    RefOwes(s, h, multiset{});
    var t := RefObject(s, h);
    OwesConsistent(t, multiset{} + multiset{h}, h);
    SetObjectOwes(t, h, t.objects[h].(reading := true), multiset{}, multiset{} + multiset{h});
  }

  lemma ReadStoppedOwes(s: State, h: nat)
    requires Owes(s, multiset{}) && h < |s.objects| && s.objects[h].reading
    ensures Owes(ReadStopped(s, h), multiset{})
  {
    OwesConsistent(s, multiset{}, h);
    SetObjectOwes(s, h, s.objects[h].(reading := false), multiset{h}, multiset{});
    UnrefOwes(SetObject(s, h, s.objects[h].(reading := false)), h, multiset{h});
    assert multiset{h} - multiset{h} == multiset{};
  }

  lemma TakenExist(s: State, r: nat, op: Operation)
    requires Owes(s, multiset{}) && CanRun(s, r, op)
    ensures HasAll(s, Taken(r, op)) && forall i :: 0 <= i < |Taken(r, op)| ==> s.objects[Taken(r, op)[i]].count > 0
  {
    forall o: nat, kind | Refers(s, o, kind) ensures s.objects[o].count > 0 {
      RefersExists(s, o, kind);
    }
  }

  lemma RanOwes(s: State, r: nat, op: Operation, accepted: bool)
    requires Owes(s, multiset{}) && CanRun(s, r, op)
    ensures HasAll(s, Taken(r, op)) && Owes(Ran(s, r, op, accepted), multiset{})
  {
    var os := Taken(r, op);
    TakenExist(s, r, op);
    RefAllOwes(s, os, multiset{});
    if accepted {
      AcceptedOwes(RefAll(s, os), r, os);
    } else {
      UnrefAllOwes(RefAll(s, os), os, multiset{});
    }
  }

  lemma AcceptedOwes(t: State, r: nat, os: seq<nat>)
    requires Owes(t, multiset{} + multiset(os)) && r < |t.objects| && t.objects[r].uses == []
    ensures Owes(SetObject(t, r, t.objects[r].(uses := os)), multiset{})
  {
    OwesConsistent(t, multiset{} + multiset(os), r);
    SetObjectOwes(t, r, t.objects[r].(uses := os), multiset{}, multiset{} + multiset(os));
  }

  /** A request that is out also has a reference on itself. */
  ghost predicate OwnUse(s: State) {
    forall i :: 0 <= i < |s.objects| && s.objects[i].kind == RequestObject && s.objects[i].uses != [] ==>
      i in s.objects[i].uses
  }

  /** What a request has taken is what its caller holds on to and the buffer that becomes a parameter. */
  lemma HeldSplits(held: seq<nat>)
    ensures multiset(held) == multiset(Guards(held)) + One(ParamBuffer(held))
  {
    if |held| > 2 {
      var guards := [held[0]] + held[2..];
      assert held == [held[0]] + [held[1]] + held[2..];
      assert multiset(guards) == multiset{held[0]} + multiset(held[2..]);
    }
  }

  /** Two parameters come into being, and a frame that holds on to the rest. */
  lemma CalledOwes(s: State, x: Option<nat>, y: Option<nat>, f: Frame)
    requires Owes(s, multiset(f.guards) + One(y) + One(x))
    ensures Owes(s.(vars := s.vars + [x] + [y], frames := s.frames + [f]), multiset{})
  {
    AddVarOwes(s, x, multiset(f.guards) + One(y));
    var t := s.(vars := s.vars + [x]);
    AddVarOwes(t, y, multiset(f.guards));
    PushOwes(t.(vars := t.vars + [y]), f);
  }

  lemma CompletedOwes(s: State, r: nat, callback: bool)
    requires Owes(s, multiset{}) && OwnUse(s)
    requires r < |s.objects| && s.objects[r].kind == RequestObject && s.objects[r].uses != []
    ensures HasAll(s, s.objects[r].uses) && Owes(Completed(s, r, callback), multiset{})
  {
    HeldWellFormed(s, multiset{}, r);
    var held := s.objects[r].uses;
    OwesConsistent(s, multiset{}, r);
    SetObjectOwes(s, r, s.objects[r].(uses := []), multiset{} + multiset(held), multiset{});
    var t := SetObject(s, r, s.objects[r].(uses := []));
    if callback {
      HeldExists(s, r, r);
      OwesExists(s, multiset{}, r);
      RefOwes(t, r, multiset{} + multiset(held));
      HeldSplits(held);
      var owed := multiset(Guards(held)) + One(ParamBuffer(held)) + One(Some(r));
      assert multiset{} + multiset(held) + multiset{r} == owed;
      CalledOwes(RefObject(t, r), Some(r), ParamBuffer(held), Frame(|s.vars|, Guards(held), None));
    } else {
      UnrefAllOwes(t, held, multiset{});
    }
  }

  lemma PushOwes(s: State, f: Frame)
    requires Owes(s, multiset(f.guards))
    ensures Owes(s.(frames := s.frames + [f]), multiset{})
  {
    forall o: nat ensures Right(s.(frames := s.frames + [f]), multiset{}, o) {
      assert Right(s, multiset(f.guards), o);
      FrameAdded(s.frames, f, o);
    }
  }

  lemma PopOwes(s: State)
    requires Owes(s, multiset{}) && s.frames != []
    ensures Owes(s.(frames := s.frames[..|s.frames| - 1]), multiset{} + multiset(s.frames[|s.frames| - 1].guards))
  {
    var t, f := s.(frames := s.frames[..|s.frames| - 1]), s.frames[|s.frames| - 1].guards;
    forall o: nat ensures Right(t, multiset{} + multiset(f), o) {
      assert Right(s, multiset{}, o);
    }
  }

  lemma EndedOwes(s: State)
    requires Owes(s, multiset{}) && Params(s) && s.frames != []
    ensures HasFrame(s, s.frames[|s.frames| - 1]) && Owes(Ended(s), multiset{})
  {
    var f := s.frames[|s.frames| - 1];
    FrameWellFormed(s, multiset{}, |s.frames| - 1);
    PopOwes(s);
    var t := s.(frames := s.frames[..|s.frames| - 1]);
    DroppedOwes(t, f.params, multiset{} + multiset(f.guards));
    DroppedOwes(Dropped(t, f.params), f.params + 1, multiset{} + multiset(f.guards));
    UnrefAllOwes(DroppedBoth(t, f.params), f.guards, multiset{});
  }

  /** To use a deleted instance changes no reference. */
  lemma FaultOwes(s: State, more: multiset<nat>)
    requires Owes(s, more)
    ensures Owes(s.(fault := true), more)
  {
    forall o: nat ensures Right(s.(fault := true), more, o) {
      assert Right(s, more, o);
    }
  }

  lemma ReturnedOwes(s: State)
    requires Owes(s, multiset{}) && Params(s) && s.frames != []
    ensures HasFrame(s, s.frames[|s.frames| - 1]) && Owes(Returned(s), multiset{})
  {
    EndedOwes(s);
    FaultOwes(Ended(s), multiset{});
  }

  lemma AllocatedOwes(s: State, h: nat, b: nat, accepted: bool)
    requires Owes(s, multiset{}) && h < |s.objects| && Refers(s, b, BufferObject)
    ensures Owes(Allocated(s, h, b, accepted), multiset{})
  {
    RefersExists(s, b, BufferObject);
    RefOwes(s, b, multiset{});
    var t := RefObject(s, b);
    if accepted {
      OwesConsistent(t, multiset{} + multiset{b}, h);
      SetObjectOwes(t, h, t.objects[h].(uses := t.objects[h].uses + [b]), multiset{}, multiset{} + multiset{b});
    } else {
      var u := t.(lost := t.lost + multiset{b});
      forall o: nat ensures Right(u, multiset{}, o) {
        assert Right(t, multiset{} + multiset{b}, o);
      }
    }
  }

  /** The buffer of a read that is over is on its way to the callback, or has been given back. */
  lemma UnsuppliedOwes(s: State, h: nat, data: bool)
    requires Owes(s, multiset{}) && Kinds(s) && h < |s.objects| && IsHandle(s.objects[h].kind)
    requires s.objects[h].phase == Live && (data ==> s.objects[h].uses != [])
    ensures HasAll(s, s.objects[h].uses)
    ensures var t := Unsupplied(s, h, data);
      && Owes(t, if data then multiset{s.objects[h].uses[0]} else multiset{})
      && h < |t.objects| && t.objects[h].count > 0
  {
    var uses := s.objects[h].uses;
    var b := if uses == [] then multiset{} else multiset{uses[0]};
    HeldWellFormed(s, multiset{}, h);
    assert Right(s, multiset{}, h) && KindsOf(s, s.objects[h]);
    var t := SetObject(s, h, s.objects[h].(uses := Rest(uses)));
    UsesTakenOwes(s, h);
    if !data && uses != [] {
      OwesConsistent(s, multiset{}, uses[0]);
      UnrefOwes(t, uses[0], b);
      assert b - multiset{uses[0]} == multiset{};
    }
  }

  lemma UsesTakenOwes(s: State, h: nat)
    requires Owes(s, multiset{}) && h < |s.objects|
    ensures var uses := s.objects[h].uses;
      Owes(SetObject(s, h, s.objects[h].(uses := Rest(uses))), if uses == [] then multiset{} else multiset{uses[0]})
  {
    var uses := s.objects[h].uses;
    OwesConsistent(s, multiset{}, h);
    assert uses != [] ==> uses == [uses[0]] + Rest(uses);
    SetObjectOwes(s, h, s.objects[h].(uses := Rest(uses)), if uses == [] then multiset{} else multiset{uses[0]},
                  multiset{});
  }

  lemma ReadOwes(s: State, h: nat, nread: int, data: bool)
    requires Owes(s, multiset{}) && Kinds(s) && h < |s.objects| && CanEnd(s.objects[h], nread, data)
    ensures HasAll(s, s.objects[h].uses) && Owes(DidRead(s, h, nread, data), multiset{})
  {
    var x := s.objects[h];
    HeldWellFormed(s, multiset{}, h);
    if x.phase != Live {
      FaultOwes(s, multiset{});
    } else {
      UnsuppliedOwes(s, h, data);
      var onward := nread > 0 || x.kind == FileObject;
      CallOwes(Unsupplied(s, h, data), h, if data then Some(x.uses[0]) else None, onward);
    }
  }

  lemma CallOwes(s: State, h: nat, b: Option<nat>, onward: bool)
    requires Owes(s, One(b)) && h < |s.objects| && s.objects[h].count > 0
    ensures Owes(Called(s, h, b, onward), multiset{})
  {
    var f := Frame(|s.vars|, [], if onward then Some(h) else None);
    RefOwes(s, h, One(b));
    var t := RefObject(s, h);
    if b.Some? {
      assert One(b) + multiset{h} == multiset(f.guards) + One(b) + One(Some(h));
      CalledOwes(t, Some(h), b, f);
    } else {
      assert One(b) + multiset{h} == multiset{} + One(Some(h));
      AddVarOwes(t, Some(h), multiset{});
      var u := t.(vars := t.vars + [Some(h)]);
      CreatedOwes(u, BufferObject);
      PushOwes(Created(u, BufferObject), f);
    }
  }

  // ---- what refers to what

  /** Only handles are read from, and their reads use buffers, as do the references that are lost; and the callers of
      callbacks go on with handles. */
  ghost predicate Kinds(s: State) {
    && (forall i :: 0 <= i < |s.objects| ==> KindsOf(s, s.objects[i]))
    && (forall b :: b in s.lost ==> b < |s.objects| && s.objects[b].kind == BufferObject)
    && (forall k :: 0 <= k < |s.frames| && s.frames[k].reader.Some? ==>
          s.frames[k].reader.value < |s.objects| && IsHandle(s.objects[s.frames[k].reader.value].kind))
  }

  ghost predicate KindsOf(s: State, x: Object) {
    && (x.reading ==> IsHandle(x.kind))
    && (IsHandle(x.kind) ==> forall k :: 0 <= k < |x.uses| ==>
          x.uses[k] < |s.objects| && s.objects[x.uses[k]].kind == BufferObject)
  }

  ghost predicate Inv(s: State) {
    Owes(s, multiset{}) && Shape(s)
  }

  lemma StepOwes(s: State, a: Step)
    requires Inv(s) && WellFormed(s) && Enabled(s, a)
    ensures Owes(Apply(s, a), multiset{})
  {
    match a
    case NewLoop => CreatedOwes(s, LoopObject);
    case NewRequest => CreatedOwes(s, RequestObject);
    case NewBuffer => CreatedOwes(s, BufferObject);
    case OpenHandle(l, file, booked) => NewHandleOwes(s, l, file, booked);
    case Copy(w) => CopiedOwes(s, w);
    case CopyAssign(v, w) => CopyAssignedOwes(s, v, w);
    case Move(w) => MovedOwes(s, w);
    case MoveAssign(v, w) => MoveAssignedOwes(s, v, w);
    case Swap(v, w) => SwappedOwes(s, v, w);
    case Drop(v) => DroppedOwes(s, v, multiset{});
    case Run(r, op, accepted) => RanOwes(s, r, op, accepted);
    case Complete(r, callback) => CompletedOwes(s, r, callback);
    case Return => ReturnedOwes(s);
    case ReadStart(h) => ReadStartedOwes(s, h);
    case ReadStop(h) => ReadStoppedOwes(s, h);
    case Allocate(h, b, accepted) => AllocatedOwes(s, h, b, accepted);
    case ReadDone(h, nread, data) => ReadOwes(s, h, nread, data);
  }

  /** What is kept about kinds, uses and callbacks. */
  ghost predicate Shape(s: State) {
    OwnUse(s) && Params(s) && Kinds(s)
  }

  /** The objects of t are those of s, up to counts and bookings that have ended; variables and callbacks go on. */
  ghost predicate Alike(s: State, t: State) {
    && SameObjects(t, s) && |t.vars| >= |s.vars| && t.lost == s.lost
    && (t.frames == s.frames || (s.frames != [] && t.frames == s.frames[..|s.frames| - 1]))
  }

  lemma AlikeShape(s: State, t: State)
    requires Shape(s) && Alike(s, t)
    ensures Shape(t)
  {
    forall i | 0 <= i < |t.objects| ensures KindsOf(t, t.objects[i]) {
      assert KindsOf(s, s.objects[i]);
    }
  }

  ghost predicate OfVariables(a: Step) {
    a.Copy? || a.CopyAssign? || a.Move? || a.MoveAssign? || a.Swap? || a.Drop?
  }

  lemma VariableShape(s: State, a: Step)
    requires Shape(s) && WellFormed(s) && Enabled(s, a) && OfVariables(a)
    ensures Shape(Apply(s, a))
  {
    AlikeShape(s, Apply(s, a));
  }

  lemma ReturnShape(s: State)
    requires Shape(s) && WellFormed(s) && s.frames != []
    ensures Shape(Returned(s))
  {
    AlikeShape(s, Returned(s));
  }

  /** A new object, which uses nothing. */
  lemma AddedShape(s: State, t: State, x: Object)
    requires Shape(s) && x.uses == [] && !x.reading
    requires |t.objects| == |s.objects| + 1 && t.objects[|s.objects|] == x
    requires forall i :: 0 <= i < |s.objects| ==> SameUses(t.objects[i], s.objects[i])
    requires |t.vars| >= |s.vars| && t.frames == s.frames && t.lost == s.lost
    ensures Shape(t)
  {
    forall i | 0 <= i < |t.objects| ensures KindsOf(t, t.objects[i]) {
      assert i < |s.objects| ==> KindsOf(s, s.objects[i]);
    }
  }

  ghost predicate OfCreation(a: Step) {
    a.NewLoop? || a.NewRequest? || a.NewBuffer? || a.OpenHandle?
  }

  lemma CreationShape(s: State, a: Step)
    requires Shape(s) && WellFormed(s) && Enabled(s, a) && OfCreation(a)
    ensures Shape(Apply(s, a))
  {
    var t := Apply(s, a);
    AddedShape(s, t, t.objects[|s.objects|]);
  }

  /** One object changes what it uses, or whether it is read from. */
  lemma ChangedShape(s: State, h: nat, x: Object)
    requires Shape(s) && h < |s.objects| && x.kind == s.objects[h].kind && KindsOf(s, x)
    requires x.kind == RequestObject && x.uses != [] ==> h in x.uses
    ensures Shape(SetObject(s, h, x))
  {
    var t := SetObject(s, h, x);
    forall i | 0 <= i < |t.objects| ensures KindsOf(t, t.objects[i]) {
      assert i != h ==> KindsOf(s, s.objects[i]);
    }
  }

  lemma RunShape(s: State, r: nat, op: Operation, accepted: bool)
    requires Shape(s) && WellFormed(s) && CanRun(s, r, op) && HasAll(s, Taken(r, op))
    ensures Shape(Ran(s, r, op, accepted))
  {
    var t := RefAll(s, Taken(r, op));
    AlikeShape(s, t);
    if accepted {
      assert r in Taken(r, op) && KindsOf(t, t.objects[r]);
      ChangedShape(t, r, t.objects[r].(uses := Taken(r, op)));
    } else {
      AlikeShape(t, UnrefAll(t, Taken(r, op)));
    }
  }

  /** A callback begins. */
  lemma PushedShape(s: State, t: State, f: Frame)
    requires Shape(s) && t.objects == s.objects && t.lost == s.lost && |t.vars| >= |s.vars|
    requires t.frames == s.frames + [f] && f.params + 1 < |t.vars|
    requires f.reader.Some? ==> f.reader.value < |s.objects| && IsHandle(s.objects[f.reader.value].kind)
    ensures Shape(t)
  {
    forall i | 0 <= i < |t.objects| ensures KindsOf(t, t.objects[i]) {
      assert KindsOf(s, s.objects[i]);
    }
  }

  lemma CompleteShape(s: State, r: nat, callback: bool)
    requires Shape(s) && r < |s.objects| && s.objects[r].kind == RequestObject && HasAll(s, s.objects[r].uses)
    ensures Shape(Completed(s, r, callback))
  {
    var held := s.objects[r].uses;
    var t := SetObject(s, r, s.objects[r].(uses := []));
    assert KindsOf(s, s.objects[r]);
    ChangedShape(s, r, t.objects[r]);
    if callback {
      AlikeShape(t, RefObject(t, r));
      PushedShape(RefObject(t, r), Completed(s, r, true), Frame(|s.vars|, Guards(held), None));
    } else {
      AlikeShape(t, UnrefAll(t, held));
    }
  }

  lemma ReadingShape(s: State, h: nat, on: bool)
    requires Shape(s) && h < |s.objects| && IsHandle(s.objects[h].kind)
    ensures Shape(if on then ReadStarted(s, h) else ReadStopped(s, h))
  {
    var t := if on then RefObject(s, h) else s;
    AlikeShape(s, t);
    assert KindsOf(t, t.objects[h]);
    ChangedShape(t, h, t.objects[h].(reading := on));
    if !on {
      AlikeShape(SetObject(t, h, t.objects[h].(reading := on)), ReadStopped(s, h));
    }
  }

  lemma AllocateShape(s: State, h: nat, b: nat, accepted: bool)
    requires Shape(s) && h < |s.objects| && b < |s.objects| && s.objects[b].kind == BufferObject
    requires s.objects[h].reading
    ensures Shape(Allocated(s, h, b, accepted))
  {
    var t := RefObject(s, b);
    AlikeShape(s, t);
    assert KindsOf(t, t.objects[h]);
    if accepted {
      ChangedShape(t, h, t.objects[h].(uses := t.objects[h].uses + [b]));
    } else {
      var u := t.(lost := t.lost + multiset{b});
      forall i | 0 <= i < |u.objects| ensures KindsOf(u, u.objects[i]) {
        assert KindsOf(t, t.objects[i]);
      }
    }
  }

  lemma UnsuppliedShape(s: State, h: nat, data: bool)
    requires Shape(s) && h < |s.objects| && IsHandle(s.objects[h].kind) && HasAll(s, s.objects[h].uses)
    ensures var t := Unsupplied(s, h, data);
      Shape(t) && |t.objects| == |s.objects| && t.objects[h].kind == s.objects[h].kind && SameRest(t, s)
  {
    var t := SetObject(s, h, s.objects[h].(uses := Rest(s.objects[h].uses)));
    assert KindsOf(s, s.objects[h]);
    ChangedShape(s, h, t.objects[h]);
    AlikeShape(t, Unsupplied(s, h, data));
  }

  lemma CallShape(s: State, h: nat, b: Option<nat>, onward: bool)
    requires Shape(s) && h < |s.objects| && IsHandle(s.objects[h].kind)
    ensures Shape(Called(s, h, b, onward))
  {
    var f := Frame(|s.vars|, [], if onward then Some(h) else None);
    var t := RefObject(s, h);
    var u := t.(vars := t.vars + [Some(h)]);
    AlikeShape(s, u);
    if b.Some? {
      PushedShape(u, Called(s, h, b, onward), f);
    } else {
      var v := Created(u, BufferObject);
      AddedShape(u, v, v.objects[|u.objects|]);
      PushedShape(v, Called(s, h, b, onward), f);
    }
  }

  lemma ReadShape(s: State, h: nat, nread: int, data: bool)
    requires Shape(s) && h < |s.objects| && CanEnd(s.objects[h], nread, data) && HasAll(s, s.objects[h].uses)
    ensures Shape(DidRead(s, h, nread, data))
  {
    var x := s.objects[h];
    if x.phase != Live {
      AlikeShape(s, DidRead(s, h, nread, data));
    } else {
      UnsuppliedShape(s, h, data);
      var onward := nread > 0 || x.kind == FileObject;
      CallShape(Unsupplied(s, h, data), h, if data then Some(x.uses[0]) else None, onward);
    }
  }

  ghost predicate OfReading(a: Step) {
    a.ReadStart? || a.ReadStop? || a.Allocate? || a.ReadDone?
  }

  lemma ReadingStepShape(s: State, a: Step)
    requires Shape(s) && WellFormed(s) && Enabled(s, a) && OfReading(a)
    ensures Shape(Apply(s, a))
  {
    match a
    case ReadStart(h) => ReadingShape(s, h, true);
    case ReadStop(h) => ReadingShape(s, h, false);
    case Allocate(h, b, accepted) => AllocateShape(s, h, b, accepted);
    case ReadDone(h, nread, data) => ReadShape(s, h, nread, data);
  }

  lemma StepShape(s: State, a: Step)
    requires Shape(s) && WellFormed(s) && Enabled(s, a)
    ensures Shape(Apply(s, a))
  {
    if OfVariables(a) {
      VariableShape(s, a);
    } else if OfCreation(a) {
      CreationShape(s, a);
    } else if OfReading(a) {
      ReadingStepShape(s, a);
    } else if a.Run? {
      RunShape(s, a.r, a.op, a.accepted);
    } else if a.Complete? {
      CompleteShape(s, a.r, a.callback);
    } else {
      ReturnShape(s);
    }
  }

  lemma StepKeeps(s: State, a: Step)
    requires Inv(s) && WellFormed(s) && Enabled(s, a)
    ensures Inv(Apply(s, a))
  {
    StepOwes(s, a);
    StepShape(s, a);
  }

  lemma {:induction false} RunKeeps(s: State, run: seq<Step>, s': State)
    requires Inv(s) && Runs(s, run, s')
    ensures Inv(s')
    decreases run
  {
    if run != [] {
      StepKeeps(s, run[0]);
      RunKeeps(Apply(s, run[0]), run[1..], s');
    }
  }

  lemma EveryRun(run: seq<Step>, s: State)
    requires Runs(Initial(), run, s)
    ensures Inv(s)
  {
    forall o: nat ensures Right(Initial(), multiset{}, o) {
    }
    RunKeeps(Initial(), run, s);
  }

  // ---- main results

  /** The ledger: in every run the count of an object is the number of its variables, of its uses by requests that are
      out, by running callbacks and by handles booked on it, of the references that are lost, and one more while it is
      read from. The object is live
      exactly as long as that number is not 0, and has been destroyed exactly once when it is. */
  lemma CountIsReferences(run: seq<Step>, s: State, o: nat)
    requires Runs(Initial(), run, s) && o < |s.objects|
    ensures s.objects[o].count == VarRefs(s.vars, o) + ObjectRefs(s.objects, o) + FrameRefs(s.frames, o) + s.lost[o]
    ensures s.objects[o].phase == Live <==> References(s, o) > 0
    ensures s.objects[o].deaths == if References(s, o) > 0 then 0 else 1
  {
    EveryRun(run, s);
    assert Right(s, multiset{}, o);
  }

  /** No loop is destroyed before a handle that is booked on it is deleted; what a request that is out runs on, itself
      included, is live until its callback, and the buffer of a read that is out is; and so is a handle while it is read
      from. */
  lemma NothingDiesTooSoon(run: seq<Step>, s: State, i: nat)
    requires Runs(Initial(), run, s) && i < |s.objects|
    ensures s.objects[i].loop.Some? ==>
      s.objects[i].loop.value < |s.objects| && s.objects[s.objects[i].loop.value].phase == Live
    ensures forall k :: 0 <= k < |s.objects[i].uses| ==>
      s.objects[i].uses[k] < |s.objects| && s.objects[s.objects[i].uses[k]].phase == Live
    ensures s.objects[i].reading ==> s.objects[i].phase == Live
  {
    EveryRun(run, s);
    var x := s.objects[i];
    if x.loop.Some? {
      HeldExists(s, i, x.loop.value);
      OwesExists(s, multiset{}, x.loop.value);
    }
    forall k | 0 <= k < |x.uses| ensures x.uses[k] < |s.objects| && s.objects[x.uses[k]].phase == Live {
      assert Times(x.uses, x.uses[k]) > 0;
      HeldExists(s, i, x.uses[k]);
      OwesExists(s, multiset{}, x.uses[k]);
    }
    if x.reading {
      HeldExists(s, i, i);
      OwesExists(s, multiset{}, i);
    }
  }

  /** Whatever is referred to exists, so that no run gets stuck on a dangling reference. */
  lemma AlwaysWellFormed(run: seq<Step>, s: State)
    requires Runs(Initial(), run, s)
    ensures WellFormed(s)
  {
    EveryRun(run, s);
    OwesWellFormed(s, multiset{});
  }

  /** A variable never refers to a destroyed object. */
  lemma VariablesAreSafe(run: seq<Step>, s: State, v: nat)
    requires Runs(Initial(), run, s) && v < |s.vars| && s.vars[v].Some?
    ensures s.vars[v].value < |s.objects| && s.objects[s.vars[v].value].phase == Live
  {
    EveryRun(run, s);
    VarExists(s, v);
    OwesExists(s, multiset{}, s.vars[v].value);
  }

  /** Inside a callback its parameters are as good as any variables: the request can be run again, and others can be run
      on the buffer. */
  lemma ParametersCanBeUsed(s: State, r: nat, other: nat, file: nat)
    requires Enabled(s, Complete(r, true)) && WellFormed(s) && |s.objects[r].uses| > 2
    requires s.objects[s.objects[r].uses[1]].kind == BufferObject && Refers(s, file, FileObject)
    requires Refers(s, other, RequestObject) && other != r && s.objects[other].uses == []
    ensures var t, buf := Completed(s, r, true), s.objects[r].uses[1];
      CanRun(t, r, FsWrite(file, buf)) && CanRun(t, other, FsWrite(file, buf))
  {
    var t, n := Completed(s, r, true), |s.vars|;
    assert t.vars[n] == Some(r) && t.vars[n + 1] == Some(s.objects[r].uses[1]);
    forall o: nat, kind | Refers(s, o, kind) ensures Refers(t, o, kind) {
      var v :| 0 <= v < |s.vars| && s.vars[v] == Some(o);
      assert t.vars[v] == Some(o);
    }
  }

  // ---- what is undone

  /** Nothing dies where everything has more references than are given back. */
  lemma {:induction false} UnrefAllIs(s: State, os: seq<nat>, o: nat)
    requires HasAll(s, os) && o < |s.objects|
    requires forall i: nat :: i < |s.objects| && i in os ==> s.objects[i].count > Times(os, i)
    ensures UnrefAll(s, os).objects[o] == s.objects[o].(count := s.objects[o].count - Times(os, o))
  {
    if os != [] {
      var n := |os| - 1;
      assert os == os[..n] + [os[n]];
      forall i: nat ensures Times(os, i) == Times(os[..n], i) + Is(Some(os[n]), i) {
      }
      UnrefAllIs(s, os[..n], o);
      UnrefAllIs(s, os[..n], os[n]);
    }
  }

  lemma UndoneAt(s: State, os: seq<nat>, o: nat)
    requires HasAll(s, os) && o < |s.objects|
    requires forall i: nat :: i < |s.objects| && i in os ==> s.objects[i].count > 0
    ensures UnrefAll(RefAll(s, os), os).objects[o] == s.objects[o]
  {
    var t := RefAll(s, os);
    forall i: nat | i < |t.objects| && i in os ensures t.objects[i].count > Times(os, i) {
      RefAllIs(s, os, i);
    }
    RefAllIs(s, os, o);
    UnrefAllIs(t, os, o);
  }

  /** A request that libuv refuses leaves everything as it was: nothing is destroyed on the way. */
  lemma RefusedRunUndone(run: seq<Step>, s: State, r: nat, op: Operation)
    requires Runs(Initial(), run, s) && CanRun(s, r, op)
    ensures HasAll(s, Taken(r, op)) && Ran(s, r, op, false) == s
  {
    EveryRun(run, s);
    TakenExist(s, r, op);
    var os := Taken(r, op);
    var t := UnrefAll(RefAll(s, os), os);
    forall o: nat | o < |s.objects| ensures t.objects[o] == s.objects[o] {
      UndoneAt(s, os, o);
    }
    assert t.objects == s.objects;
  }

  // ---- a cleared callback

  lemma {:induction false} SameObjectRefs(a: seq<Object>, b: seq<Object>, o: nat)
    requires |a| == |b| && forall i :: 0 <= i < |a| ==> HeldBy(i, a[i], o) == HeldBy(i, b[i], o)
    ensures ObjectRefs(a, o) == ObjectRefs(b, o)
  {
    if a != [] {
      SameObjectRefs(a[..|a| - 1], b[..|b| - 1], o);
    }
  }

  /** The objects of a and b are what has become of the same objects, and everything else refers to them alike. */
  ghost predicate Twins(s: State, a: State, b: State) {
    && SameObjects(a, s) && SameObjects(b, s)
    && Owes(a, multiset{}) && Owes(b, multiset{})
    && (forall o: nat :: VarRefs(a.vars, o) == VarRefs(b.vars, o)) && a.frames == b.frames && a.lost == b.lost
  }

  /** What is no loop has the same references: bookings do not matter. */
  lemma TwinAt(s: State, a: State, b: State, o: nat)
    requires Twins(s, a, b) && o < |s.objects| && s.objects[o].kind != LoopObject
    ensures a.objects[o] == b.objects[o]
  {
    assert Right(a, multiset{}, o) && Right(b, multiset{}, o);
    forall i | 0 <= i < |s.objects| ensures HeldBy(i, a.objects[i], o) == HeldBy(i, b.objects[i], o) {
      assert Right(a, multiset{}, i) && Right(b, multiset{}, i);
    }
    SameObjectRefs(a.objects, b.objects, o);
  }

  /** The ledger settles the rest: with the handles, the bookings on the loops are the same. */
  lemma TwinsAgree(s: State, a: State, b: State)
    requires Twins(s, a, b)
    ensures a.objects == b.objects
  {
    forall i: nat | i < |s.objects| ensures a.objects[i].loop == b.objects[i].loop {
      assert Right(a, multiset{}, i) && Right(b, multiset{}, i);
      if s.objects[i].kind != LoopObject {
        TwinAt(s, a, b, i);
      }
    }
    forall o: nat | o < |s.objects| ensures a.objects[o] == b.objects[o] {
      SameObjectRefs(a.objects, b.objects, o);
      assert Right(a, multiset{}, o) && Right(b, multiset{}, o);
    }
  }

  lemma CallbackBegins(s: State, r: nat)
    requires r < |s.objects| && HasAll(s, s.objects[r].uses)
    ensures var t := Completed(s, r, true);
      && SameObjects(t, SetObject(s, r, s.objects[r].(uses := [])))
      && t.vars == s.vars + [Some(r)] + [ParamBuffer(s.objects[r].uses)] && t.lost == s.lost && t.fault == s.fault
      && t.frames == s.frames + [Frame(|s.vars|, Guards(s.objects[r].uses), None)]
  {
  }

  /** The end of a callback that does nothing. */
  lemma IdleIs(s: State, r: nat)
    requires WellFormed(s) && Enabled(s, Complete(r, true)) && WellFormed(Completed(s, r, true))
    ensures var t := SetObject(s, r, s.objects[r].(uses := [])); var idle := Returned(Completed(s, r, true));
      SameObjects(idle, t) && idle.frames == s.frames && idle.lost == s.lost && idle.fault == s.fault &&
      idle.vars == s.vars + [None] + [None]
  {
    CallbackBegins(s, r);
    var called := Completed(s, r, true);
    assert called.frames[..|called.frames| - 1] == s.frames;
    assert called.vars[|s.vars| := None][|s.vars| + 1 := None] == s.vars + [None] + [None];
    assert SameObjects(Ended(called), called);
  }

  lemma VoidsAdded(vars: seq<Option<nat>>, o: nat)
    ensures VarRefs(vars + [None] + [None], o) == VarRefs(vars, o)
  {
    VarAdded(vars, None, o);
    VarAdded(vars + [None], None, o);
  }

  lemma CallbackKeeps(s: State, r: nat, callback: bool)
    requires Inv(s) && Enabled(s, Complete(r, callback))
    ensures WellFormed(s) && Inv(Completed(s, r, callback)) && WellFormed(Completed(s, r, callback))
  {
    OwesWellFormed(s, multiset{});
    StepKeeps(s, Complete(r, callback));
    OwesWellFormed(Completed(s, r, callback), multiset{});
  }

  /** A callback that has been cleared while the request was out gives back what a callback that does nothing gives
      back. */
  lemma ClearedCallback(run: seq<Step>, s: State, r: nat)
    requires Runs(Initial(), run, s) && Enabled(s, Complete(r, false))
    ensures WellFormed(s) && WellFormed(Completed(s, r, true))
    ensures Returned(Completed(s, r, true)) ==
      Completed(s, r, false).(vars := Completed(s, r, false).vars + [None] + [None])
  {
    EveryRun(run, s);
    CallbackKeeps(s, r, true);
    CallbackKeeps(s, r, false);
    var idle, cleared := Returned(Completed(s, r, true)), Completed(s, r, false);
    IdleTwins(s, r);
    TwinsAgree(SetObject(s, r, s.objects[r].(uses := [])), idle, cleared);
    assert idle == State(cleared.objects, cleared.vars + [None] + [None], cleared.frames, cleared.lost, cleared.fault);
  }

  lemma IdleTwins(s: State, r: nat)
    requires WellFormed(s) && Enabled(s, Complete(r, true))
    requires Inv(Completed(s, r, true)) && WellFormed(Completed(s, r, true)) && Inv(Completed(s, r, false))
    ensures var idle, cleared := Returned(Completed(s, r, true)), Completed(s, r, false);
      && Twins(SetObject(s, r, s.objects[r].(uses := [])), idle, cleared)
      && idle.vars == cleared.vars + [None] + [None] && idle.fault == cleared.fault
  {
    var idle, cleared := Returned(Completed(s, r, true)), Completed(s, r, false);
    ReturnedOwes(Completed(s, r, true));
    IdleIs(s, r);
    forall o: nat ensures VarRefs(idle.vars, o) == VarRefs(cleared.vars, o) {
      VoidsAdded(s.vars, o);
    }
  }
}

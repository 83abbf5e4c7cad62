/** What each step does to the variables, the objects and the callbacks, without the functions that do it. Together with
    the ledger, which settles the counts, this says what the state is after every step. */
module StepEffects {
  import opened Counting
  import opened Ledger
  import opened Ownership
  import opened Wrappers

  /** Copying, moving, assigning, swapping and destroying variables: what the variables refer to afterwards. */
  ghost function VarsAfter(vars: seq<Option<nat>>, a: Step): seq<Option<nat>>
    requires OfVariables(a)
    requires match a
      case Copy(w) => w < |vars|
      case CopyAssign(v, w) => v < |vars| && w < |vars|
      case Move(w) => w < |vars|
      case MoveAssign(v, w) => v < |vars| && w < |vars|
      case Swap(v, w) => v < |vars| && w < |vars|
      case Drop(v) => v < |vars|
  {
    match a
    case Copy(w) => vars + [vars[w]]
    case CopyAssign(v, w) => vars[v := vars[w]]
    case Move(w) => vars[w := None] + [vars[w]]
    case MoveAssign(v, w) => if v == w then vars else vars[v := vars[w]][w := None]
    case Swap(v, w) => vars[v := vars[w]][w := vars[v]]
    case Drop(v) => vars[v := None]
  }

  /** A step on variables changes the variables as said, and otherwise counts, and with them bookings, only. */
  lemma VariableSteps(s: State, a: Step)
    requires WellFormed(s) && Enabled(s, a) && OfVariables(a)
    ensures var t := Apply(s, a);
      && t.vars == VarsAfter(s.vars, a)
      && SameObjects(t, s) && t.frames == s.frames && t.lost == s.lost && !t.fault
  {
    if a.CopyAssign? && a.v == a.w {
      assert s.vars[a.v := s.vars[a.w]] == s.vars;
    }
  }

  /** To assign a variable to itself changes nothing at all. */
  lemma SelfAssignment(s: State, v: nat)
    requires WellFormed(s) && !s.fault && v < |s.vars|
    ensures Apply(s, CopyAssign(v, v)) == s && Apply(s, MoveAssign(v, v)) == s && Apply(s, Swap(v, v)) == s
  {
    assert s.vars[v := s.vars[v]] == s.vars;
  }

  /** The count of an object goes up and down with the variables that refer to it; that of a loop also goes down with
      the handles booked on it. */
  lemma VariableCounts(run: seq<Step>, s: State, a: Step, o: nat)
    requires Runs(Initial(), run, s) && Enabled(s, a) && OfVariables(a) && o < |s.objects|
    requires s.objects[o].kind != LoopObject
    ensures WellFormed(s)
    ensures var t := Apply(s, a);
      |t.objects| == |s.objects| && t.objects[o].count == s.objects[o].count + VarRefs(t.vars, o) - VarRefs(s.vars, o)
  {
    AlwaysWellFormed(run, s);
    EveryRun(run, s);
    var t := Apply(s, a);
    VariableSteps(s, a);
    StepKeeps(s, a);
    SameUseRefs(s, t, o);
    assert Right(s, multiset{}, o) && Right(t, multiset{}, o);
  }

  /** Bookings apart, the same objects hold the same references. */
  lemma SameUseRefs(s: State, t: State, o: nat)
    requires SameObjects(t, s) && Owes(s, multiset{}) && Owes(t, multiset{})
    requires o < |s.objects| && s.objects[o].kind != LoopObject
    ensures ObjectRefs(t.objects, o) == ObjectRefs(s.objects, o)
  {
    forall i | 0 <= i < |s.objects| ensures HeldBy(i, s.objects[i], o) == HeldBy(i, t.objects[i], o) {
      assert Right(s, multiset{}, i) && Right(t, multiset{}, i);
    }
    SameObjectRefs(t.objects, s.objects, o);
  }

  // ---- new objects

  ghost function KindOf(a: Step): Kind
    requires OfCreation(a)
  {
    match a
    case NewLoop => LoopObject
    case NewRequest => RequestObject
    case NewBuffer => BufferObject
    case OpenHandle(_, file, _) => if file then FileObject else HandleObject
  }

  /** A new object is live and of the right kind, a new variable has the only reference on it, it uses nothing; and it
      is booked if it is a handle that has been opened. */
  lemma CreationSteps(s: State, a: Step)
    requires WellFormed(s) && Enabled(s, a) && OfCreation(a)
    ensures var t, n := Apply(s, a), |s.objects|;
      && t.vars == s.vars + [Some(n)] && |t.objects| == n + 1 && t.objects[n].kind == KindOf(a)
      && t.objects[n].phase == Live && t.objects[n].count == 1 && t.objects[n].deaths == 0
      && t.objects[n].uses == [] && !t.objects[n].reading
      && t.objects[n].loop == (if a.OpenHandle? && a.booked then Some(a.l) else None)
      && (forall i :: 0 <= i < n ==> SameUses(t.objects[i], s.objects[i]) && t.objects[i].loop == s.objects[i].loop)
      && t.frames == s.frames && t.lost == s.lost && !t.fault
  {
  }

  // ---- reading

  /** A start and a stop set and clear the mark of one handle. */
  lemma StartAndStop(s: State, a: Step)
    requires WellFormed(s) && Enabled(s, a) && (a.ReadStart? || a.ReadStop?)
    ensures var t := Apply(s, a);
      && |t.objects| == |s.objects| && t.objects[a.h].reading == a.ReadStart?
      && (forall i :: 0 <= i < |s.objects| && i != a.h ==> t.objects[i].reading == s.objects[i].reading)
      && (forall i :: 0 <= i < |s.objects| ==> t.objects[i].kind == s.objects[i].kind)
      && (forall i :: 0 <= i < |s.objects| ==> t.objects[i].uses == s.objects[i].uses)
      && t.vars == s.vars && t.frames == s.frames && t.lost == s.lost && !t.fault
  {
  }

  /** A buffer that has been supplied waits behind those that the handle has already, or is lost. */
  lemma Supplied(s: State, a: Step)
    requires WellFormed(s) && Enabled(s, a) && a.Allocate?
    ensures var t := Apply(s, a);
      && |t.objects| == |s.objects|
      && t.objects[a.h].uses == (if a.accepted then s.objects[a.h].uses + [a.b] else s.objects[a.h].uses)
      && t.lost == (if a.accepted then s.lost else s.lost + multiset{a.b})
      && (forall i :: 0 <= i < |s.objects| && i != a.h ==> t.objects[i].uses == s.objects[i].uses)
      && (forall i :: 0 <= i < |s.objects| ==>
            t.objects[i].kind == s.objects[i].kind && t.objects[i].reading == s.objects[i].reading)
      && t.vars == s.vars && t.frames == s.frames && !t.fault
  {
  }

  /** The read callback of a live handle gets a variable for the handle, and one for the buffer that has waited longest,
      or for a new one if there are no data; its caller holds on to nothing, and goes on with the handle of a file or of
      a read with data. */
  lemma ReadEnds(s: State, h: nat, nread: int, data: bool)
    requires WellFormed(s) && Enabled(s, ReadDone(h, nread, data)) && s.objects[h].phase == Live
    ensures var t, n, x := Apply(s, ReadDone(h, nread, data)), |s.vars|, s.objects[h];
      && t.vars == s.vars + [Some(h), Some(if data then x.uses[0] else |s.objects|)]
      && |t.objects| == |s.objects| + (if data then 0 else 1)
      && (!data ==> t.objects[|s.objects|].kind == BufferObject)
      && (x.uses != [] ==> x.uses == [x.uses[0]] + t.objects[h].uses) && (x.uses == [] ==> t.objects[h].uses == [])
      && (forall i :: 0 <= i < |s.objects| && i != h ==> t.objects[i].uses == s.objects[i].uses)
      && (forall i :: 0 <= i < |s.objects| ==>
            t.objects[i].kind == s.objects[i].kind && t.objects[i].reading == s.objects[i].reading)
      && t.frames == s.frames + [Frame(n, [], if nread > 0 || x.kind == FileObject then Some(h) else None)]
      && t.lost == s.lost && !t.fault
  {
    var t := Apply(s, ReadDone(h, nread, data));
    assert s.vars + [Some(h)] + [Some(if data then s.objects[h].uses[0] else |s.objects|)] ==
      s.vars + [Some(h), Some(if data then s.objects[h].uses[0] else |s.objects|)];
  }

  /** The end of a callback voids its two parameters and takes it off; every object uses what it used before. */
  lemma CallbackEnds(s: State)
    requires WellFormed(s) && Enabled(s, Return)
    ensures var t, f := Apply(s, Return), s.frames[|s.frames| - 1];
      && t.vars == s.vars[f.params := None][f.params + 1 := None]
      && t.frames == s.frames[..|s.frames| - 1] && SameObjects(t, s) && t.lost == s.lost
  {
  }
}

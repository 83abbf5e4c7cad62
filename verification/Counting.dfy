/** The count of every object against the references on it, piece by piece. */
module Counting {
  import opened Ownership
  import opened Wrappers

  ghost function Times(os: seq<nat>, o: nat): nat {
    multiset(os)[o]
  }

  ghost function Is(x: Option<nat>, o: nat): nat {
    if x == Some(o) then 1 else 0
  }

  /** The variables that refer to an object. */
  ghost function VarRefs(vars: seq<Option<nat>>, o: nat): nat {
    if vars == [] then 0 else Is(vars[0], o) + VarRefs(vars[1..], o)
  }

  /** The references of one object, number i, on another: of a handle that is read from on itself, of a handle on
      its loop, of a request that is out on everything that it uses, itself included, and of a handle with a read
      that is out on the buffer. */
  ghost function HeldBy(i: nat, x: Object, o: nat): nat {
    (if x.reading && i == o then 1 else 0) + Is(x.loop, o) + Times(x.uses, o)
  }

  ghost function ObjectRefs(objects: seq<Object>, o: nat): nat {
    if objects == [] then 0
    else ObjectRefs(objects[..|objects| - 1], o) + HeldBy(|objects| - 1, objects[|objects| - 1], o)
  }

  /** The references that the callers of the running callbacks hold on to. */
  ghost function FrameRefs(frames: seq<Frame>, o: nat): nat {
    if frames == [] then 0 else FrameRefs(frames[..|frames| - 1], o) + Times(frames[|frames| - 1].guards, o)
  }

  ghost function References(s: State, o: nat): nat {
    VarRefs(s.vars, o) + ObjectRefs(s.objects, o) + FrameRefs(s.frames, o) + s.lost[o]
  }

  lemma {:induction false} VarChanged(vars: seq<Option<nat>>, v: nat, x: Option<nat>, o: nat)
    requires v < |vars|
    ensures VarRefs(vars[v := x], o) == VarRefs(vars, o) - Is(vars[v], o) + Is(x, o)
    ensures VarRefs(vars, o) >= Is(vars[v], o)
  {
    if v > 0 {
      VarChanged(vars[1..], v - 1, x, o);
      assert vars[v := x][1..] == vars[1..][v - 1 := x];
    } else {
      assert vars[v := x][1..] == vars[1..];
    }
  }

  lemma {:induction false} VarAdded(vars: seq<Option<nat>>, x: Option<nat>, o: nat)
    ensures VarRefs(vars + [x], o) == VarRefs(vars, o) + Is(x, o)
  {
    if vars != [] {
      VarAdded(vars[1..], x, o);
      assert (vars + [x])[1..] == vars[1..] + [x];
    }
  }

  lemma {:induction false} ObjectChanged(objects: seq<Object>, i: nat, x: Object, o: nat)
    requires i < |objects|
    ensures ObjectRefs(objects[i := x], o) == ObjectRefs(objects, o) - HeldBy(i, objects[i], o) + HeldBy(i, x, o)
    ensures ObjectRefs(objects, o) >= HeldBy(i, objects[i], o)
  {
    var n := |objects| - 1;
    if i < n {
      ObjectChanged(objects[..n], i, x, o);
      assert objects[i := x][..n] == objects[..n][i := x];
    } else {
      assert objects[i := x][..n] == objects[..n];
    }
  }

  lemma ObjectAdded(objects: seq<Object>, x: Object, o: nat)
    ensures ObjectRefs(objects + [x], o) == ObjectRefs(objects, o) + HeldBy(|objects|, x, o)
  {
    assert (objects + [x])[..|objects|] == objects;
  }

  lemma FrameAdded(frames: seq<Frame>, f: Frame, o: nat)
    ensures FrameRefs(frames + [f], o) == FrameRefs(frames, o) + Times(f.guards, o)
  {
    assert (frames + [f])[..|frames|] == frames;
  }

  ghost function One(x: Option<nat>): multiset<nat> {
    if x.Some? then multiset{x.value} else multiset{}
  }

  ghost predicate Consistent(x: Object) {
    && (x.phase == Live <==> x.count != 0) && x.deaths == (if x.phase == Live then 0 else 1)
    && (x.loop.Some? ==> x.phase == Live && IsHandle(x.kind))
  }

  ghost predicate OnLoop(s: State, x: Object) {
    x.loop.Some? ==> x.loop.value < |s.objects| && s.objects[x.loop.value].kind == LoopObject
  }

  /** The count of object o is the number of references on it, some of which (`more`) are on their way from one owner to
      another; if it has a count it is live, and if not it has been destroyed once; and only a live handle is booked, on
      a loop. */
  ghost predicate Right(s: State, more: multiset<nat>, o: nat) {
    if o < |s.objects| then
      s.objects[o].count == References(s, o) + more[o] && Consistent(s.objects[o]) && OnLoop(s, s.objects[o])
    else References(s, o) + more[o] == 0
  }

  ghost predicate Owes(s: State, more: multiset<nat>) {
    forall o: nat :: Right(s, more, o)
  }

  lemma CountChanged(s: State, i: nat, x: Object, o: nat)
    requires i < |s.objects| && x.loop == s.objects[i].loop && x.reading == s.objects[i].reading &&
      x.uses == s.objects[i].uses
    ensures References(SetObject(s, i, x), o) == References(s, o)
  {
    ObjectChanged(s.objects, i, x, o);
  }

  lemma RefOwes(s: State, i: nat, more: multiset<nat>)
    requires Owes(s, more) && i < |s.objects| && s.objects[i].count > 0
    ensures Owes(RefObject(s, i), more + multiset{i})
  {
    forall o: nat ensures Right(RefObject(s, i), more + multiset{i}, o) {
      assert Right(s, more, o);
      CountChanged(s, i, RefObject(s, i).objects[i], o);
    }
  }

  lemma LessOwes(s: State, i: nat, more: multiset<nat>)
    requires Owes(s, more) && i in more
    requires i < |s.objects| && s.objects[i].count == 1 ==> s.objects[i].loop == None
    ensures i < |s.objects| && Owes(Less(s, i), more - multiset{i})
  {
    assert Right(s, more, i);
    forall o: nat ensures Right(Less(s, i), more - multiset{i}, o) {
      assert Right(s, more, o);
      CountChanged(s, i, Less(s, i).objects[i], o);
    }
  }

  /** The last reference on a handle sets its reference on the loop free. */
  lemma UnrefOwes(s: State, i: nat, more: multiset<nat>)
    requires Owes(s, more) && i in more
    ensures i < |s.objects| && Owes(UnrefObject(s, i), more - multiset{i})
  {
    assert Right(s, more, i);
    if s.objects[i].count == 1 && s.objects[i].loop.Some? {
      LastOwes(s, i, s.objects[i].loop.value, more);
    } else {
      LessOwes(s, i, more);
    }
  }

  lemma LastOwes(s: State, i: nat, l: nat, more: multiset<nat>)
    requires Owes(s, more) && i in more && i < |s.objects| && s.objects[i].count == 1 && s.objects[i].loop == Some(l)
    ensures l < |s.objects| && Owes(UnrefObject(s, i), more - multiset{i})
  {
    var y, rest := s.objects[i].(loop := None), more - multiset{i};
    assert Right(s, more, i);
    SetObjectOwes(s, i, y, more + multiset{l}, more);
    var t := Less(SetObject(s, i, y), i);
    LessOwes(SetObject(s, i, y), i, more + multiset{l});
    assert more + multiset{l} - multiset{i} == rest + multiset{l};
    assert Right(t, rest + multiset{l}, l);
    LessOwes(t, l, rest + multiset{l});
    assert rest + multiset{l} - multiset{l} == rest;
    UnbookedFirst(s, i);
  }

  /** It makes no difference whether the booking ends before or after the handle. */
  lemma UnbookedFirst(s: State, i: nat)
    requires i < |s.objects|
    ensures var t := Less(s, i);
      Less(SetObject(s, i, s.objects[i].(loop := None)), i) == SetObject(t, i, t.objects[i].(loop := None))
  {
  }

  lemma OwesConsistent(s: State, more: multiset<nat>, o: nat)
    requires Owes(s, more) && o < |s.objects|
    ensures Consistent(s.objects[o]) && OnLoop(s, s.objects[o])
  {
    assert Right(s, more, o);
  }

  lemma SetVarOwes(s: State, v: nat, x: Option<nat>, more: multiset<nat>)
    requires v < |s.vars| && Owes(s, more + One(x))
    ensures Owes(SetVar(s, v, x), more + One(s.vars[v]))
  {
    forall o: nat ensures Right(SetVar(s, v, x), more + One(s.vars[v]), o) {
      assert Right(s, more + One(x), o);
      VarChanged(s.vars, v, x, o);
    }
  }

  lemma AddVarOwes(s: State, x: Option<nat>, more: multiset<nat>)
    requires Owes(s, more + One(x))
    ensures Owes(s.(vars := s.vars + [x]), more)
  {
    forall o: nat ensures Right(s.(vars := s.vars + [x]), more, o) {
      assert Right(s, more + One(x), o);
      VarAdded(s.vars, x, o);
    }
  }

  /** An object changes what it holds. */
  lemma SetObjectOwes(s: State, i: nat, x: Object, gives: multiset<nat>, takes: multiset<nat>)
    requires i < |s.objects| && x.count == s.objects[i].count && x.kind == s.objects[i].kind
    requires Consistent(x) && OnLoop(s, x)
    requires forall o: nat :: HeldBy(i, x, o) + gives[o] == HeldBy(i, s.objects[i], o) + takes[o]
    requires Owes(s, takes)
    ensures Owes(SetObject(s, i, x), gives)
  {
    forall o: nat ensures Right(SetObject(s, i, x), gives, o) {
      assert Right(s, takes, o);
      ObjectChanged(s.objects, i, x, o);
    }
  }

  lemma {:induction false} RefAllIs(s: State, os: seq<nat>, o: nat)
    requires HasAll(s, os) && o < |s.objects|
    ensures RefAll(s, os).objects[o] == s.objects[o].(count := s.objects[o].count + Times(os, o))
  {
    if os != [] {
      RefAllIs(s, os[..|os| - 1], o);
      assert os == os[..|os| - 1] + [os[|os| - 1]];
    }
  }

  lemma {:induction false} RefAllOwes(s: State, os: seq<nat>, more: multiset<nat>)
    requires Owes(s, more) && HasAll(s, os)
    requires forall i :: 0 <= i < |os| ==> s.objects[os[i]].count > 0
    ensures Owes(RefAll(s, os), more + multiset(os))
  {
    if os == [] {
      assert more + multiset(os) == more;
    } else {
      var n := |os| - 1;
      RefAllOwes(s, os[..n], more);
      RefAllIs(s, os[..n], os[n]);
      RefOwes(RefAll(s, os[..n]), os[n], more + multiset(os[..n]));
      assert os == os[..n] + [os[n]];
      assert more + multiset(os[..n]) + multiset{os[n]} == more + multiset(os);
    }
  }

  lemma {:induction false} UnrefAllOwes(s: State, os: seq<nat>, more: multiset<nat>)
    requires Owes(s, more + multiset(os)) && HasAll(s, os)
    ensures Owes(UnrefAll(s, os), more)
  {
    if os != [] {
      var n := |os| - 1;
      assert os == os[..n] + [os[n]];
      assert more + multiset(os) == (more + multiset{os[n]}) + multiset(os[..n]);
      UnrefAllOwes(s, os[..n], more + multiset{os[n]});
      UnrefOwes(UnrefAll(s, os[..n]), os[n], more + multiset{os[n]});
      assert more + multiset{os[n]} - multiset{os[n]} == more;
    } else {
      assert more + multiset(os) == more;
    }
  }

  // ---- references exist

  lemma VarExists(s: State, v: nat)
    requires v < |s.vars|
    ensures s.vars[v].Some? ==> References(s, s.vars[v].value) >= 1
  {
    if s.vars[v].Some? {
      VarChanged(s.vars, v, None, s.vars[v].value);
    }
  }

  lemma HeldExists(s: State, i: nat, o: nat)
    requires i < |s.objects|
    ensures References(s, o) >= HeldBy(i, s.objects[i], o)
  {
    ObjectChanged(s.objects, i, s.objects[i], o);
  }

  lemma {:induction false} FrameExists(frames: seq<Frame>, k: nat, o: nat)
    requires k < |frames|
    ensures FrameRefs(frames, o) >= Times(frames[k].guards, o)
  {
    if k < |frames| - 1 {
      FrameExists(frames[..|frames| - 1], k, o);
    }
  }

  /** Whatever is referred to has a count, and is there. */
  lemma OwesExists(s: State, more: multiset<nat>, o: nat)
    requires Owes(s, more) && References(s, o) + more[o] > 0
    ensures o < |s.objects| && s.objects[o].count > 0 && s.objects[o].phase == Live
  {
    assert Right(s, more, o);
  }

  lemma VarLives(s: State, more: multiset<nat>, v: nat)
    requires Owes(s, more) && v < |s.vars|
    ensures Has(s, s.vars[v]) && (s.vars[v].Some? ==> s.objects[s.vars[v].value].count > 0)
  {
    VarExists(s, v);
    if s.vars[v].Some? {
      OwesExists(s, more, s.vars[v].value);
    }
  }

  lemma HeldWellFormed(s: State, more: multiset<nat>, i: nat)
    requires Owes(s, more) && i < |s.objects|
    ensures Has(s, s.objects[i].loop) && HasAll(s, s.objects[i].uses)
  {
    var x := s.objects[i];
    if x.loop.Some? {
      HeldExists(s, i, x.loop.value);
      OwesExists(s, more, x.loop.value);
    }
    forall k | 0 <= k < |x.uses| ensures x.uses[k] < |s.objects| {
      assert Times(x.uses, x.uses[k]) > 0;
      HeldExists(s, i, x.uses[k]);
      OwesExists(s, more, x.uses[k]);
    }
  }

  /** The parameters of the running callbacks are among the variables, and what their callers go on with exists. */
  ghost predicate Params(s: State) {
    forall k :: 0 <= k < |s.frames| ==> s.frames[k].params + 1 < |s.vars| && Has(s, s.frames[k].reader)
  }

  lemma FrameWellFormed(s: State, more: multiset<nat>, k: nat)
    requires Owes(s, more) && Params(s) && k < |s.frames|
    ensures HasFrame(s, s.frames[k])
  {
    var f := s.frames[k];
    VarLives(s, more, f.params);
    VarLives(s, more, f.params + 1);
    forall j | 0 <= j < |f.guards| ensures f.guards[j] < |s.objects| {
      assert Times(f.guards, f.guards[j]) > 0;
      FrameExists(s.frames, k, f.guards[j]);
      OwesExists(s, more, f.guards[j]);
    }
  }

  lemma OwesWellFormed(s: State, more: multiset<nat>)
    requires Owes(s, more) && Params(s)
    ensures WellFormed(s)
  {
    forall v | 0 <= v < |s.vars| ensures Has(s, s.vars[v]) {
      VarLives(s, more, v);
    }
    forall i | 0 <= i < |s.objects| ensures Has(s, s.objects[i].loop) && HasAll(s, s.objects[i].uses) {
      HeldWellFormed(s, more, i);
    }
    forall k | 0 <= k < |s.frames| ensures HasFrame(s, s.frames[k]) {
      FrameWellFormed(s, more, k);
    }
  }

  lemma RefVarOwes(s: State, x: Option<nat>, more: multiset<nat>)
    requires Owes(s, more) && Has(s, x) && (x.Some? ==> s.objects[x.value].count > 0)
    ensures Owes(RefVar(s, x), more + One(x))
  {
    if x.Some? {
      RefOwes(s, x.value, more);
    } else {
      assert more + One(x) == more;
    }
  }

  lemma UnrefVarOwes(s: State, x: Option<nat>, more: multiset<nat>)
    requires Owes(s, more + One(x)) && Has(s, x)
    ensures Owes(UnrefVar(s, x), more)
  {
    if x.Some? {
      UnrefOwes(s, x.value, more + One(x));
      assert more + One(x) - multiset{x.value} == more;
    } else {
      assert more + One(x) == more;
    }
  }
}

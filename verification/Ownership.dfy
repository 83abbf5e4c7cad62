/** Who owns a reference on what: the variables of the client, requests that are out, running callbacks, handles
    that are read from, and handles booked on their loop. */
module Ownership {
  import opened Wrappers

  /** A handle is one that libuv has initialised, or a file. */
  datatype Kind = LoopObject | HandleObject | FileObject | RequestObject | BufferObject

  ghost predicate IsHandle(kind: Kind) {
    kind == HandleObject || kind == FileObject
  }

  /** An object without references is deleted at once. */
  datatype Phase = Live | Gone

  /** An instance: its reference count; the loop it is booked on, and whether it is being read from, if it is a
      handle; the references that it has acquired for libuv, if it is a request that is out, or a handle with a read
      that is out; and how often it was destroyed. */
  datatype Object =
    Object(kind: Kind, count: int, phase: Phase, loop: Option<nat>, reading: bool, uses: seq<nat>, deaths: nat)

  /** A running callback: where its two parameters are among the variables, the references that its caller holds on to
      until it returns, and the handle that its caller goes on with, if it is one that reads. */
  datatype Frame = Frame(params: nat, guards: seq<nat>, reader: Option<nat>)

  /** All objects there ever were; all variables, void ones and parameters included; the running callbacks; and the
      references that nobody gives back. `fault` tells that a deleted instance has been used: a run ends there, for
      what happens then is not defined. */
  datatype State =
    State(objects: seq<Object>, vars: seq<Option<nat>>, frames: seq<Frame>, lost: multiset<nat>, fault: bool)

  // ---- references

  ghost predicate Has(s: State, x: Option<nat>) {
    x.Some? ==> x.value < |s.objects|
  }

  ghost function SetObject(s: State, o: nat, x: Object): State
    requires o < |s.objects|
  {
    s.(objects := s.objects[o := x])
  }

  ghost function RefObject(s: State, o: nat): State
    requires o < |s.objects|
  {
    s.(objects := s.objects[o := s.objects[o].(count := s.objects[o].count + 1)])
  }

  /** One reference less; the object is destroyed when its count comes down to 0. */
  ghost function Less(s: State, o: nat): State
    requires o < |s.objects|
  {
    var x := s.objects[o];
    var y := x.(count := x.count - 1);
    s.(objects := s.objects[o := if y.count != 0 then y else y.(phase := Gone, deaths := x.deaths + 1)])
  }

  /** unref(): with a handle that is booked on a loop goes its reference on the loop, and maybe the loop. */
  ghost function UnrefObject(s: State, o: nat): (t: State)
    requires o < |s.objects|
    ensures SameObjects(t, s) && SameRest(t, s)
  {
    var t, l := Less(s, o), s.objects[o].loop;
    if t.objects[o].count == 0 && l.Some? && l.value < |s.objects| then
      Less(SetObject(t, o, t.objects[o].(loop := None)), l.value)
    else t
  }

  ghost function RefVar(s: State, x: Option<nat>): (t: State)
    requires Has(s, x)
    ensures SameObjects(t, s) && SameRest(t, s)
  {
    if x.Some? then RefObject(s, x.value) else s
  }

  ghost function UnrefVar(s: State, x: Option<nat>): (t: State)
    requires Has(s, x)
    ensures SameObjects(t, s) && SameRest(t, s)
  {
    if x.Some? then UnrefObject(s, x.value) else s
  }

  ghost predicate HasAll(s: State, os: seq<nat>) {
    forall i :: 0 <= i < |os| ==> os[i] < |s.objects|
  }

  /** What references do not change: all but the booking, which ends with the handle. */
  ghost predicate SameUses(x: Object, y: Object) {
    && x.kind == y.kind && x.uses == y.uses && x.reading == y.reading && (y.phase == Gone ==> x.phase == Gone)
    && (x.loop == y.loop || (x.loop == None && x.phase == Gone))
  }

  ghost predicate SameObjects(s: State, t: State) {
    |s.objects| == |t.objects| && forall i :: 0 <= i < |s.objects| ==> SameUses(s.objects[i], t.objects[i])
  }

  ghost predicate SameRest(s: State, t: State) {
    s.vars == t.vars && s.frames == t.frames && s.lost == t.lost && s.fault == t.fault
  }

  ghost function RefAll(s: State, os: seq<nat>): (t: State)
    requires HasAll(s, os)
    ensures SameObjects(t, s) && SameRest(t, s)
  {
    if os == [] then s else RefObject(RefAll(s, os[..|os| - 1]), os[|os| - 1])
  }

  ghost function UnrefAll(s: State, os: seq<nat>): (t: State)
    requires HasAll(s, os)
    ensures SameObjects(t, s) && SameRest(t, s)
  {
    if os == [] then s else UnrefObject(UnrefAll(s, os[..|os| - 1]), os[|os| - 1])
  }

  // ---- variables

  /** A new object, in a new variable. */
  ghost function Created(s: State, kind: Kind): State {
    s.(objects := s.objects + [Object(kind, 1, Live, None, false, [], 0)], vars := s.vars + [Some(|s.objects|)])
  }

  ghost function SetVar(s: State, v: nat, x: Option<nat>): State
    requires v < |s.vars|
  {
    s.(vars := s.vars[v := x])
  }

  ghost function Var(s: State, v: nat): Option<nat> {
    if v < |s.vars| then s.vars[v] else None
  }

  ghost function Copied(s: State, w: nat): State
    requires Has(s, Var(s, w))
  {
    var t := RefVar(s, Var(s, w));
    t.(vars := t.vars + [Var(s, w)])
  }

  ghost function CopyAssigned(s: State, v: nat, w: nat): State
    requires v < |s.vars| && w < |s.vars| && Has(s, s.vars[v]) && Has(s, s.vars[w])
  {
    if v == w then s else UnrefVar(SetVar(RefVar(s, s.vars[w]), v, s.vars[w]), s.vars[v])
  }

  ghost function Moved(s: State, w: nat): State
    requires w < |s.vars|
  {
    s.(vars := s.vars[w := None] + [s.vars[w]])
  }

  ghost function MoveAssigned(s: State, v: nat, w: nat): State
    requires v < |s.vars| && w < |s.vars| && Has(s, s.vars[v])
  {
    if v == w then s else UnrefVar(s.(vars := s.vars[v := s.vars[w]][w := None]), s.vars[v])
  }

  ghost function Dropped(s: State, v: nat): (t: State)
    requires v < |s.vars| && Has(s, s.vars[v])
    ensures SameObjects(t, s) && SameRest(t, s.(vars := s.vars[v := None]))
  {
    UnrefVar(SetVar(s, v, None), s.vars[v])
  }

  /** Two variables, one after the other. */
  ghost function DroppedBoth(s: State, v: nat): (t: State)
    requires v + 1 < |s.vars| && Has(s, s.vars[v]) && Has(s, s.vars[v + 1])
    ensures SameObjects(t, s) && SameRest(t, s.(vars := s.vars[v := None][v + 1 := None]))
  {
    Dropped(Dropped(s, v), v + 1)
  }

  ghost function Swapped(s: State, v: nat, w: nat): State
    requires v < |s.vars| && w < |s.vars|
  {
    s.(vars := s.vars[v := s.vars[w]][w := s.vars[v]])
  }

  // ---- handles and loops

  /** A new handle; if libuv has initialised it, it is booked on its loop. */
  ghost function NewHandle(s: State, l: nat, file: bool, booked: bool): State
    requires l < |s.objects|
  {
    var t := Created(s, if file then FileObject else HandleObject);
    if booked then SetObject(RefObject(t, l), |s.objects|, t.objects[|s.objects|].(loop := Some(l))) else t
  }

  ghost function ReadStarted(s: State, h: nat): State
    requires h < |s.objects|
  {
    var t := RefObject(s, h);
    SetObject(t, h, t.objects[h].(reading := true))
  }

  ghost function ReadStopped(s: State, h: nat): State
    requires h < |s.objects|
  {
    UnrefObject(SetObject(s, h, s.objects[h].(reading := false)), h)
  }

  // ---- requests

  /** What the requests run on. The numbers are those of the objects. */
  datatype Operation =
    | Connect(stream: nat)
    | Shutdown(stream: nat)
    | Write(stream: nat, buf: nat)
    | Write2(pipe: nat, buf: nat, sent: nat)
    | FsWrite(file: nat, buf: nat)

  /** The references that run() takes, in that order. */
  ghost function Taken(r: nat, op: Operation): seq<nat> {
    match op
    case Connect(stream) => [stream, r]
    case Shutdown(stream) => [stream, r]
    case Write(stream, buf) => [stream, buf, r]
    case Write2(pipe, buf, sent) => [pipe, buf, sent, r]
    case FsWrite(file, buf) => [file, buf, r]
  }

  /** run(): if libuv does not accept the request, everything is given back. */
  ghost function Ran(s: State, r: nat, op: Operation, accepted: bool): State
    requires r < |s.objects| && HasAll(s, Taken(r, op))
  {
    var t := RefAll(s, Taken(r, op));
    if accepted then SetObject(t, r, t.objects[r].(uses := Taken(r, op))) else UnrefAll(t, Taken(r, op))
  }

  /** The buffer that the callback of a request gets as its second parameter, from what the request has taken. */
  ghost function ParamBuffer(held: seq<nat>): Option<nat> {
    if |held| > 2 then Some(held[1]) else None
  }

  /** What its caller holds on to. */
  ghost function Guards(held: seq<nat>): seq<nat> {
    if |held| > 2 then [held[0]] + held[2..] else held
  }

  /** The callback of libuv: the callback of the client gets a new variable for the request, and one that takes over the
      reference on the buffer; the other references are given back when it returns. Without a callback all of them are
      given back at once. */
  ghost function Completed(s: State, r: nat, callback: bool): State
    requires r < |s.objects| && HasAll(s, s.objects[r].uses)
  {
    var held := s.objects[r].uses;
    var t := SetObject(s, r, s.objects[r].(uses := []));
    if callback then
      RefObject(t, r).(vars := s.vars + [Some(r)] + [ParamBuffer(held)],
                       frames := s.frames + [Frame(|s.vars|, Guards(held), None)])
    else UnrefAll(t, held)
  }

  ghost predicate HasFrame(s: State, f: Frame) {
    f.params + 1 < |s.vars| && Has(s, s.vars[f.params]) && Has(s, s.vars[f.params + 1]) && HasAll(s, f.guards)
    && Has(s, f.reader)
  }

  /** The end of the callback that was called last: its parameters are destroyed, whatever they refer to by now. */
  ghost function Ended(s: State): (t: State)
    requires s.frames != [] && HasFrame(s, s.frames[|s.frames| - 1])
    ensures SameObjects(t, s) && t.lost == s.lost && t.fault == s.fault && t.frames == s.frames[..|s.frames| - 1]
    ensures var f := s.frames[|s.frames| - 1]; t.vars == s.vars[f.params := None][f.params + 1 := None]
  {
    var f := s.frames[|s.frames| - 1];
    UnrefAll(DroppedBoth(s.(frames := s.frames[..|s.frames| - 1]), f.params), f.guards)
  }

  /** Then its caller goes on: io_read_cb() moves the offset of the handle, and read_cb() looks at its command. */
  ghost function Returned(s: State): State
    requires s.frames != [] && HasFrame(s, s.frames[|s.frames| - 1])
  {
    var t, reader := Ended(s), s.frames[|s.frames| - 1].reader;
    if reader.Some? && t.objects[reader.value].phase != Live then t.(fault := true) else t
  }

  // ---- reading

  /** io_alloc_cb(): a reference on the buffer that the client supplies, for the callback that is to come; if libuv does
      not accept the read from a file, nobody gives it back. */
  ghost function Allocated(s: State, h: nat, b: nat, accepted: bool): State
    requires h < |s.objects| && b < |s.objects|
  {
    var t := RefObject(s, b);
    if accepted then SetObject(t, h, t.objects[h].(uses := t.objects[h].uses + [b]))
    else t.(lost := t.lost + multiset{b})
  }

  ghost function Rest(uses: seq<nat>): seq<nat> {
    if uses == [] then [] else uses[1..]
  }

  /** The buffer of a read that has got no data is given back before the callback. */
  ghost function Unsupplied(s: State, h: nat, data: bool): State
    requires h < |s.objects| && HasAll(s, s.objects[h].uses)
  {
    var uses := s.objects[h].uses;
    var t := SetObject(s, h, s.objects[h].(uses := Rest(uses)));
    if data || uses == [] then t else UnrefObject(t, uses[0])
  }

  /** io_read_cb(): the callback of the client gets a new variable for the handle, and one for the buffer with the data,
      or for a new one without. */
  ghost function Called(s: State, h: nat, b: Option<nat>, onward: bool): State
    requires h < |s.objects|
  {
    var t := RefObject(s, h);
    var u := t.(vars := t.vars + [Some(h)]);
    var v := if b.Some? then u.(vars := u.vars + [b]) else Created(u, BufferObject);
    v.(frames := v.frames + [Frame(|s.vars|, [], if onward then Some(h) else None)])
  }

  /** The end of a read. The caller of the callback will go on with the handle if it is a file or there are data. */
  ghost function DidRead(s: State, h: nat, nread: int, data: bool): State
    requires h < |s.objects| && HasAll(s, s.objects[h].uses) && (data ==> s.objects[h].uses != [])
  {
    var x := s.objects[h];
    if x.phase != Live then s.(fault := true)
    else Called(Unsupplied(s, h, data), h, if data then Some(x.uses[0]) else None, nread > 0 || x.kind == FileObject)
  }

  /** The same, as the program does it: with counts and pointers changed in place. */
  class Program {
    var objects: seq<Object>
    var vars: seq<Option<nat>>
    var frames: seq<Frame>
    ghost var lost: multiset<nat>
    ghost var fault: bool

    ghost function Value(): State
      reads this
    {
      State(objects, vars, frames, lost, fault)
    }

    /** The loops that handles are booked on exist. */
    ghost predicate Booked()
      reads this
    {
      forall i :: 0 <= i < |objects| ==> Has(Value(), objects[i].loop)
    }

    constructor ()
      ensures Value() == Initial()
    {
      objects, vars, frames, lost, fault := [], [], [], multiset{}, false;
    }

    method Ref(o: nat)
      requires o < |objects|
      modifies this`objects
      ensures Value() == RefObject(old(Value()), o)
    {
      objects := objects[o := objects[o].(count := objects[o].count + 1)];
    }

    method Unref(o: nat)
      requires o < |objects| && Booked()
      modifies this`objects
      ensures Value() == UnrefObject(old(Value()), o) && Booked()
    {
      var last := Release(o);
      if last {
        UnbookLoop(o);
      }
    }

    /** dec(), and the end of the instance with the last reference. */
    method Release(o: nat) returns (last: bool)
      requires o < |objects|
      modifies this`objects
      ensures Value() == Less(old(Value()), o) && last == (objects[o].count == 0)
    {
      var x := objects[o];
      last := x.count - 1 == 0;
      objects := objects[o := if last then x.(count := 0, phase := Gone, deaths := x.deaths + 1)
                              else x.(count := x.count - 1)];
    }

    /** A handle that is deleted gives its reference on the loop back. */
    method UnbookLoop(o: nat)
      requires o < |objects| && Booked()
      modifies this`objects
      ensures var x := old(objects[o]);
        Value() == if x.loop.None? then old(Value())
                   else Less(SetObject(old(Value()), o, x.(loop := None)), x.loop.value)
    {
      var l := objects[o].loop;
      if l.Some? {
        objects := objects[o := objects[o].(loop := None)];
        var _ := Release(l.value);
      }
    }

    method Create(kind: Kind) returns (o: nat)
      modifies this
      ensures Value() == Created(old(Value()), kind) && o == old(|objects|)
    {
      o := |objects|;
      objects, vars := objects + [Object(kind, 1, Live, None, false, [], 0)], vars + [Some(o)];
    }

    method Copy(w: nat)
      requires w < |vars| && Has(Value(), vars[w])
      modifies this
      ensures Value() == Copied(old(Value()), w) && vars == old(vars) + [old(vars)[w]]
    {
      if vars[w].Some? {
        Ref(vars[w].value);
      }
      vars := vars + [vars[w]];
    }

    method CopyAssign(v: nat, w: nat)
      requires v < |vars| && w < |vars| && Has(Value(), vars[v]) && Has(Value(), vars[w]) && Booked()
      modifies this
      ensures Value() == CopyAssigned(old(Value()), v, w) && vars == old(vars)[v := old(vars)[w]]
    {
      if v != w {
        if vars[w].Some? {
          Ref(vars[w].value);
        }
        var t := vars[v];
        vars := vars[v := vars[w]];
        if t.Some? {
          Unref(t.value);
        }
      }
    }

    method Move(w: nat)
      requires w < |vars|
      modifies this
      ensures Value() == Moved(old(Value()), w) && vars == old(vars)[w := None] + [old(vars)[w]]
    {
      var t := vars[w];
      vars := vars[w := None] + [t];
    }

    method MoveAssign(v: nat, w: nat)
      requires v < |vars| && w < |vars| && Has(Value(), vars[v]) && Booked()
      modifies this
      ensures Value() == MoveAssigned(old(Value()), v, w)
      ensures vars == if v == w then old(vars) else old(vars)[v := old(vars)[w]][w := None]
    {
      if v != w {
        var t := vars[v];
        vars := vars[v := vars[w]][w := None];
        if t.Some? {
          Unref(t.value);
        }
      }
    }

    method Drop(v: nat)
      requires v < |vars| && Has(Value(), vars[v]) && Booked()
      modifies this
      ensures Value() == Dropped(old(Value()), v) && Booked() && vars == old(vars)[v := None]
    {
      var t := vars[v];
      vars := vars[v := None];
      if t.Some? {
        Unref(t.value);
      }
    }

    method DropBoth(v: nat)
      requires v + 1 < |vars| && Has(Value(), vars[v]) && Has(Value(), vars[v + 1]) && Booked()
      modifies this
      ensures Value() == DroppedBoth(old(Value()), v) && Booked()
    {
      Drop(v);
      Drop(v + 1);
    }

    method RefEach(os: seq<nat>)
      requires HasAll(Value(), os)
      modifies this`objects
      ensures Value() == RefAll(old(Value()), os)
    {
      ghost var was := Value();
      var i := 0;
      while i < |os|
        invariant i <= |os| && |objects| == |was.objects| && Value() == RefAll(was, os[..i])
      {
        assert os[..i + 1][..i] == os[..i];
        Ref(os[i]);
        i := i + 1;
      }
      assert os[..i] == os;
    }

    method UnrefEach(os: seq<nat>)
      requires HasAll(Value(), os) && Booked()
      modifies this`objects
      ensures Value() == UnrefAll(old(Value()), os)
    {
      ghost var was := Value();
      var i := 0;
      while i < |os|
        invariant i <= |os| && |objects| == |was.objects| && Booked() && Value() == UnrefAll(was, os[..i])
      {
        assert os[..i + 1][..i] == os[..i];
        Unref(os[i]);
        i := i + 1;
      }
      assert os[..i] == os;
    }

    method Run(r: nat, op: Operation, result: int) returns (ret: int)
      requires r < |objects| && HasAll(Value(), Taken(r, op)) && Booked()
      modifies this
      ensures ret == result && Value() == Ran(old(Value()), r, op, result >= 0)
    {
      var os := Acquired(r, op);
      RefEach(os);
      ret := result;
      if ret < 0 {
        UnrefEach(os);
      } else {
        objects := objects[r := objects[r].(uses := os)];
      }
    }

    method Acquired(r: nat, op: Operation) returns (os: seq<nat>)
      ensures os == Taken(r, op)
    {
      match op
      case Connect(stream) => os := [stream, r];
      case Shutdown(stream) => os := [stream, r];
      case Write(stream, buf) => os := [stream, buf, r];
      case Write2(pipe, buf, sent) => os := [pipe, buf, sent, r];
      case FsWrite(file, buf) => os := [file, buf, r];
    }

    method Complete(r: nat, callback: bool)
      requires r < |objects| && HasAll(Value(), objects[r].uses) && Booked()
      modifies this
      ensures Value() == Completed(old(Value()), r, callback)
    {
      var held := objects[r].uses;
      objects := objects[r := objects[r].(uses := [])];
      if callback {
        Ref(r);
        var buf := if |held| > 2 then Some(held[1]) else None;
        var guards := if |held| > 2 then [held[0]] + held[2..] else held;
        frames := frames + [Frame(|vars|, guards, None)];
        vars := vars + [Some(r)] + [buf];
      } else {
        UnrefEach(held);
      }
    }

    method EndCallback(f: Frame)
      requires frames != [] && f == frames[|frames| - 1] && HasFrame(Value(), f) && Booked()
      modifies this
      ensures Value() == Ended(old(Value()))
    {
      frames := frames[..|frames| - 1];
      DropBoth(f.params);
      UnrefEach(f.guards);
    }

    method Return()
      requires frames != [] && HasFrame(Value(), frames[|frames| - 1]) && Booked()
      modifies this
      ensures Value() == Returned(old(Value()))
    {
      var f := frames[|frames| - 1];
      EndCallback(f);
      if f.reader.Some? && objects[f.reader.value].phase != Live {
        fault := true;
      }
    }

    method Allocate(h: nat, b: nat, accepted: bool)
      requires h < |objects| && b < |objects|
      modifies this
      ensures Value() == Allocated(old(Value()), h, b, accepted)
    {
      Ref(b);
      if accepted {
        objects := objects[h := objects[h].(uses := objects[h].uses + [b])];
      } else {
        lost := lost + multiset{b};
      }
    }

    /** The completion of a read that was made for the handle, which may be deleted by now. */
    method ReadDone(h: nat, nread: int, data: bool)
      requires h < |objects| && HasAll(Value(), objects[h].uses) && (data ==> objects[h].uses != []) && Booked()
      modifies this
      ensures Value() == DidRead(old(Value()), h, nread, data)
    {
      if objects[h].phase != Live {
        fault := true;
        return;
      }
      var x, n := objects[h], |vars|;
      objects := objects[h := x.(uses := if x.uses == [] then [] else x.uses[1..])];
      if !data && x.uses != [] {
        Unref(x.uses[0]);
      }
      Ref(h);
      vars := vars + [Some(h)];
      if data {
        vars := vars + [Some(x.uses[0])];
      } else {
        var _ := Create(BufferObject);
      }
      frames := frames + [Frame(n, [], if nread > 0 || x.kind == FileObject then Some(h) else None)];
    }

    method OpenHandle(l: nat, file: bool, booked: bool)
      requires l < |objects|
      modifies this
      ensures Value() == NewHandle(old(Value()), l, file, booked)
    {
      var h := Create(if file then FileObject else HandleObject);
      if booked {
        objects := objects[h := objects[h].(loop := Some(l))];
        Ref(l);
      }
    }

    method ReadStart(h: nat)
      requires h < |objects|
      modifies this
      ensures Value() == ReadStarted(old(Value()), h)
    {
      Ref(h);
      objects := objects[h := objects[h].(reading := true)];
    }

    method ReadStop(h: nat)
      requires h < |objects| && Booked()
      modifies this
      ensures Value() == ReadStopped(old(Value()), h)
    {
      objects := objects[h := objects[h].(reading := false)];
      Unref(h);
    }
  }

  // ---- runs

  datatype Step =
    | NewLoop | NewRequest | NewBuffer | OpenHandle(l: nat, file: bool, booked: bool)
    | Copy(w: nat) | CopyAssign(v: nat, w: nat) | Move(w: nat) | MoveAssign(v: nat, w: nat)
    | Swap(v: nat, w: nat) | Drop(v: nat)
    | Run(r: nat, op: Operation, accepted: bool) | Complete(r: nat, callback: bool) | Return
    | ReadStart(h: nat) | ReadStop(h: nat) | Allocate(h: nat, b: nat, accepted: bool)
    | ReadDone(h: nat, nread: int, data: bool)

  /** A variable refers to an object of this kind. */
  ghost predicate Refers(s: State, o: nat, kind: Kind) {
    o < |s.objects| && s.objects[o].kind == kind && exists v :: 0 <= v < |s.vars| && s.vars[v] == Some(o)
  }

  ghost predicate RefersHandle(s: State, h: nat) {
    Refers(s, h, HandleObject) || Refers(s, h, FileObject)
  }

  /** libuv calls back for a read: of a file once for each read that is out, also after the reading has been stopped; of
      another handle while it is read from, or for the buffer that it has asked for. A file without data, with the end
      of the file or an error, gives no buffer. */
  ghost predicate CanEnd(x: Object, nread: int, data: bool) {
    if x.kind == FileObject then x.uses != [] && nread != 0 && (data <==> nread > 0)
    else x.kind == HandleObject && (data <==> x.uses != []) && (nread > 0 ==> data) && (!data ==> x.reading)
  }

  /** A request is run on objects that the client has variables for, parameters of callbacks among them, and not while
      it is out. */
  ghost predicate CanRun(s: State, r: nat, op: Operation) {
    && Refers(s, r, RequestObject) && s.objects[r].uses == []
    && match op
       case Connect(stream) => Refers(s, stream, HandleObject)
       case Shutdown(stream) => Refers(s, stream, HandleObject)
       case Write(stream, buf) => Refers(s, stream, HandleObject) && Refers(s, buf, BufferObject)
       case Write2(pipe, buf, sent) =>
         Refers(s, pipe, HandleObject) && Refers(s, buf, BufferObject) && Refers(s, sent, HandleObject)
       case FsWrite(file, buf) => Refers(s, file, FileObject) && Refers(s, buf, BufferObject)
  }

  ghost predicate Enabled(s: State, a: Step) {
    && !s.fault
    && match a
       case NewLoop | NewRequest | NewBuffer => true
       case OpenHandle(l, _, _) => Refers(s, l, LoopObject)
       case Copy(w) => w < |s.vars|
       case CopyAssign(v, w) => v < |s.vars| && w < |s.vars|
       case Move(w) => w < |s.vars|
       case MoveAssign(v, w) => v < |s.vars| && w < |s.vars|
       case Swap(v, w) => v < |s.vars| && w < |s.vars|
       case Drop(v) => v < |s.vars|
       case Run(r, op, _) => CanRun(s, r, op)
       case Complete(r, _) => r < |s.objects| && s.objects[r].kind == RequestObject && s.objects[r].uses != []
       case Return => s.frames != []
       case ReadStart(h) => RefersHandle(s, h) && !s.objects[h].reading
       case ReadStop(h) => RefersHandle(s, h) && s.objects[h].reading
       case Allocate(h, b, accepted) =>
         && h < |s.objects| && s.objects[h].reading && Refers(s, b, BufferObject)
         && (!accepted ==> s.objects[h].kind == FileObject)
       case ReadDone(h, nread, data) => h < |s.objects| && CanEnd(s.objects[h], nread, data)
  }

  /** The objects that the variables, the requests and the callbacks refer to exist. */
  ghost predicate WellFormed(s: State) {
    && (forall v :: 0 <= v < |s.vars| ==> Has(s, s.vars[v]))
    && (forall i :: 0 <= i < |s.objects| ==> Has(s, s.objects[i].loop) && HasAll(s, s.objects[i].uses))
    && (forall k :: 0 <= k < |s.frames| ==> HasFrame(s, s.frames[k]))
  }

  ghost function Apply(s: State, a: Step): State
    requires Enabled(s, a) && WellFormed(s)
  {
    match a
    case NewLoop => Created(s, LoopObject)
    case NewRequest => Created(s, RequestObject)
    case NewBuffer => Created(s, BufferObject)
    case OpenHandle(l, file, booked) => NewHandle(s, l, file, booked)
    case Copy(w) => Copied(s, w)
    case CopyAssign(v, w) => CopyAssigned(s, v, w)
    case Move(w) => Moved(s, w)
    case MoveAssign(v, w) => MoveAssigned(s, v, w)
    case Swap(v, w) => Swapped(s, v, w)
    case Drop(v) => Dropped(s, v)
    case Run(r, op, accepted) => Ran(s, r, op, accepted)
    case Complete(r, callback) => Completed(s, r, callback)
    case Return => Returned(s)
    case ReadStart(h) => ReadStarted(s, h)
    case ReadStop(h) => ReadStopped(s, h)
    case Allocate(h, b, accepted) => Allocated(s, h, b, accepted)
    case ReadDone(h, nread, data) => DidRead(s, h, nread, data)
  }

  /** A run. What is referred to exists in every state of a run from the initial one, by Ledger.AlwaysWellFormed, so
      this condition excludes nothing. */
  ghost predicate Runs(s: State, run: seq<Step>, s': State)
    decreases run
  {
    if run == [] then s' == s
    else WellFormed(s) && Enabled(s, run[0]) && Runs(Apply(s, run[0]), run[1..], s')
  }

  ghost function Initial(): State {
    State([], [], [], multiset{}, false)
  }
}

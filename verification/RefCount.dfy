/** The atomic reference counter: its operations in isolation, and in every interleaving of any number of threads. */
module RefCount {

  datatype Outcome = Returned(value: int) | Threw

  /** The counter as one thread sees it when no other thread interferes. */
  class Counter {
    var count: int

    constructor ()
      ensures count == 1
    {
      count := 1;
    }

    method CompareExchangeWeak(expected: int, desired: int, spurious: bool) returns (ok: bool, seen: int)
      modifies this
      ensures ok <==> !spurious && old(count) == expected
      ensures count == if ok then desired else old(count)
      ensures seen == if ok then expected else old(count)
    {
      ok := !spurious && count == expected;
      seen := if ok then expected else count;
      if ok {
        count := desired;
      }
    }

    /** The exchange may fail spuriously any finite number of times. */
    method Inc(failures: nat) returns (r: Outcome)
      modifies this
      ensures old(count) == 0 ==> r == Threw && count == 0
      ensures old(count) != 0 ==> r == Returned(count) && count == old(count) + 1
    {
      var c, left, ok := count, failures, false;
      while !ok
        invariant ok ==> count == old(count) + 1 && old(count) != 0 && c == old(count)
        invariant !ok ==> count == old(count) && c == count
        decreases !ok, left
      {
        if c == 0 {
          return Threw;
        }
        ok, c := CompareExchangeWeak(c, c + 1, left > 0);
        left := if left > 0 then left - 1 else 0;
      }
      return Returned(c + 1);
    }

    method Dec() returns (r: int)
      modifies this
      ensures count == old(count) - 1 && r == count
    {
      var c := count;
      count := count - 1;
      return c - 1;
    }
  }

  // ---- interleavings

  /** Where a thread is inside inc(): before the test of the value it loaded, or before the exchange. */
  datatype Pc = Idle | Loaded(c: int) | Trying(c: int)

  /** A thread, the references it owns, how many times its inc() threw, and how many times while it owned one. */
  datatype Thread = Thread(owned: nat, pc: Pc, throws: nat, ownerThrows: nat)

  /** The counter, the threads, and how many dec() calls have returned 0. */
  datatype State = State(count: int, threads: seq<Thread>, zeros: nat)

  datatype Step =
    | Load(i: nat)
    | Test(i: nat)
    | Exchange(i: nat, spurious: bool)
    | Dec(i: nat)
    | Give(i: nat, j: nat)

  ghost predicate Enabled(s: State, a: Step) {
    && a.i < |s.threads|
    && var t := s.threads[a.i];
      match a
      case Load(_) => t.pc.Idle?
      case Test(_) => t.pc.Loaded?
      case Exchange(_, _) => t.pc.Trying?
      case Dec(_) => t.pc.Idle? && t.owned > 0
      case Give(i, j) => t.pc.Idle? && t.owned > 0 && j < |s.threads| && i != j
  }

  ghost function Apply(s: State, a: Step): State
    requires Enabled(s, a)
  {
    var t := s.threads[a.i];
    match a
    case Load(i) => s.(threads := s.threads[i := t.(pc := Loaded(s.count))])
    case Test(i) =>
      var t' := if t.pc.c == 0 then t.(pc := Idle, throws := t.throws + 1,
                                     ownerThrows := t.ownerThrows + if t.owned > 0 then 1 else 0)
                else t.(pc := Trying(t.pc.c));
      s.(threads := s.threads[i := t'])
    case Exchange(i, spurious) =>
      if !spurious && s.count == t.pc.c then
        s.(count := s.count + 1, threads := s.threads[i := t.(owned := t.owned + 1, pc := Idle)])
      else
        s.(threads := s.threads[i := t.(pc := Loaded(s.count))])
    case Dec(i) =>
      State(s.count - 1, s.threads[i := t.(owned := t.owned - 1)], s.zeros + if s.count - 1 == 0 then 1 else 0)
    case Give(i, j) =>
      var u := s.threads[j];
      s.(threads := s.threads[i := t.(owned := t.owned - 1)][j := u.(owned := u.owned + 1)])
  }

  /** A run: every step is enabled where it is taken. */
  ghost predicate Runs(s: State, run: seq<Step>, s': State)
    decreases run
  {
    if run == [] then s' == s
    else Enabled(s, run[0]) && Runs(Apply(s, run[0]), run[1..], s')
  }

  /** One of any number of threads has created the counted object; no other thread owns a reference. */
  ghost predicate Init(s: State) {
    && s.count == 1 && s.zeros == 0
    && exists i :: OnlyOwner(s.threads, i)
  }

  ghost predicate OnlyOwner(ts: seq<Thread>, i: int) {
    && 0 <= i < |ts| && ts[i] == Thread(1, Idle, 0, 0)
    && forall j :: 0 <= j < |ts| && j != i ==> ts[j] == Thread(0, Idle, 0, 0)
  }

  ghost function Owned(ts: seq<Thread>): nat {
    if ts == [] then 0 else ts[0].owned + Owned(ts[1..])
  }

  lemma {:induction false} OwnedUpdate(ts: seq<Thread>, i: nat, t: Thread)
    requires i < |ts|
    ensures Owned(ts[i := t]) == Owned(ts) - ts[i].owned + t.owned
    ensures Owned(ts) >= ts[i].owned
  {
    if i > 0 {
      OwnedUpdate(ts[1..], i - 1, t);
      assert ts[i := t][1..] == ts[1..][i - 1 := t];
    } else {
      assert ts[i := t][1..] == ts[1..];
    }
  }

  /** A thread has never thrown while it owned a reference, and a zero that it has loaded is not stale. */
  ghost predicate ThreadInv(t: Thread, count: int) {
    && t.ownerThrows == 0 && (t.pc.Trying? ==> t.pc.c != 0)
    && (t.pc == Loaded(0) ==> count == 0)
  }

  /** The count is the number of references owned, and it has hit 0 once exactly if it is 0. */
  ghost predicate Inv(s: State) {
    && s.count == Owned(s.threads) && s.zeros == (if s.count == 0 then 1 else 0)
    && forall i :: 0 <= i < |s.threads| ==> ThreadInv(s.threads[i], s.count)
  }

  lemma GiveKeeps(s: State, i: nat, j: nat)
    requires Inv(s) && Enabled(s, Give(i, j))
    ensures Inv(Apply(s, Give(i, j))) && Apply(s, Give(i, j)).count == s.count
  {
    var ts, t, u := s.threads, s.threads[i], s.threads[j];
    OwnedUpdate(ts, i, t.(owned := t.owned - 1));
    OwnedUpdate(ts[i := t.(owned := t.owned - 1)], j, u.(owned := u.owned + 1));
  }

  lemma StepKeeps(s: State, a: Step)
    requires Inv(s) && Enabled(s, a)
    ensures Inv(Apply(s, a))
    ensures s.count == 0 ==> Apply(s, a).count == 0
  {
    if a.Give? {
      GiveKeeps(s, a.i, a.j);
    } else {
      OwnedUpdate(s.threads, a.i, Apply(s, a).threads[a.i]);
    }
  }

  lemma {:induction false} NoneOwned(ts: seq<Thread>)
    requires forall j :: 0 <= j < |ts| ==> ts[j] == Thread(0, Idle, 0, 0)
    ensures Owned(ts) == 0
  {
    if ts != [] {
      NoneOwned(ts[1..]);
    }
  }

  lemma InitInv(s: State)
    requires Init(s)
    ensures Inv(s)
  {
    var i :| OnlyOwner(s.threads, i);
    OwnedUpdate(s.threads, i, Thread(0, Idle, 0, 0));
    NoneOwned(s.threads[i := Thread(0, Idle, 0, 0)]);
  }

  lemma {:induction false} RunKeeps(s: State, run: seq<Step>, s': State)
    requires Inv(s) && Runs(s, run, s')
    ensures Inv(s') && (s.count == 0 ==> s'.count == 0)
    decreases run
  {
    if run != [] {
      StepKeeps(s, run[0]);
      RunKeeps(Apply(s, run[0]), run[1..], s');
    }
  }

  /** In every interleaving: no thread has ever got the exception while it owned a reference, and none is about to;
      the count is the number of owned references, and exactly one dec() has returned 0 if the count is 0, none
      otherwise. */
  lemma EveryRun(s: State, run: seq<Step>, s': State)
    requires Init(s) && Runs(s, run, s')
    ensures forall i :: 0 <= i < |s'.threads| ==> s'.threads[i].ownerThrows == 0
    ensures forall i :: 0 <= i < |s'.threads| && s'.threads[i].pc == Loaded(0) ==>
      s'.threads[i].owned == 0 && s'.count == 0
    ensures s'.count == Owned(s'.threads) && s'.zeros == if s'.count == 0 then 1 else 0
  {
    InitInv(s);
    RunKeeps(s, run, s');
    forall i | 0 <= i < |s'.threads| ensures Owned(s'.threads) >= s'.threads[i].owned {
      OwnedUpdate(s'.threads, i, s'.threads[i]);
    }
  }

  /** Once the count is 0 it stays 0, whatever the threads still do. */
  lemma DeadStaysDead(s: State, run: seq<Step>, s1: State, more: seq<Step>, s2: State)
    requires Init(s) && Runs(s, run, s1) && Runs(s1, more, s2) && s1.count == 0
    ensures s2.count == 0 && s2.zeros == s1.zeros == 1
  {
    InitInv(s);
    RunKeeps(s, run, s1);
    RunKeeps(s1, more, s2);
  }

  // ---- every call is accounted for

  ghost function Going(t: Thread): nat {
    if t.pc.Idle? then 0 else 1
  }

  /** The calls of inc() that thread i makes in a run, its calls of dec(), and the references that it gives and gets. */
  ghost function Incs(run: seq<Step>, i: nat): nat {
    if run == [] then 0 else (if run[0] == Load(i) then 1 else 0) + Incs(run[1..], i)
  }

  ghost function Decs(run: seq<Step>, i: nat): nat {
    if run == [] then 0 else (if run[0] == Step.Dec(i) then 1 else 0) + Decs(run[1..], i)
  }

  ghost function Gives(run: seq<Step>, i: nat): nat {
    if run == [] then 0 else (if run[0].Give? && run[0].i == i then 1 else 0) + Gives(run[1..], i)
  }

  ghost function Gets(run: seq<Step>, i: nat): nat {
    if run == [] then 0 else (if run[0].Give? && run[0].j == i then 1 else 0) + Gets(run[1..], i)
  }

  lemma {:induction false} Account(s: State, run: seq<Step>, s': State, i: nat)
    requires Runs(s, run, s') && i < |s.threads|
    ensures i < |s'.threads|
    ensures var t, t' := s.threads[i], s'.threads[i];
      t'.owned + (t'.throws - t.throws) + Going(t') + Decs(run, i) + Gives(run, i) ==
      t.owned + Going(t) + Incs(run, i) + Gets(run, i)
    decreases run
  {
    if run != [] {
      Account(Apply(s, run[0]), run[1..], s', i);
    }
  }

  /** In every interleaving, whatever fails spuriously: of the calls of inc() that a thread makes, each that neither
      threw nor is still going on has given it a reference; and it owns these, with what it had and got, less what
      it has given back and away. */
  lemma EveryCallCounts(s: State, run: seq<Step>, s': State, i: nat)
    requires Init(s) && Runs(s, run, s') && i < |s.threads|
    ensures i < |s'.threads|
    ensures var t := s'.threads[i];
      t.owned == s.threads[i].owned + (Incs(run, i) - t.throws - Going(t)) + Gets(run, i) - Decs(run, i) - Gives(run, i)
  {
    Account(s, run, s', i);
  }

  /** And a call ends only by throwing at 0, or by the exchange of the value that it has loaded. */
  lemma CallEnds(s: State, a: Step)
    requires Enabled(s, a) && !s.threads[a.i].pc.Idle?
    ensures var t := s.threads[a.i]; var s' := Apply(s, a); var t' := s'.threads[a.i];
      && (t'.pc.Idle? ==>
            || (t.pc == Loaded(0) && s'.count == s.count && t'.owned == t.owned && t'.throws == t.throws + 1)
            || (t.pc == Trying(s.count) && s'.count == s.count + 1 && t'.owned == t.owned + 1 && t'.throws == t.throws))
      && (!t'.pc.Idle? ==> s'.count == s.count && t'.owned == t.owned && t'.throws == t.throws)
      && (!t'.pc.Idle? ==> t'.pc == if t.pc.Loaded? then Trying(t.pc.c) else Loaded(s.count))
  {
  }
}

/** A run of tee that ends in a pause for ever. */
module TeeStall {
  import opened ReadCommand
  import opened TeeFlow
  import opened TeeMarks
  import opened Wrappers

  lemma {:induction false} RunsOn(files: nat, s: Tee, run: seq<Step>, t: Tee, a: Step)
    requires Runs(files, s, run, t) && Enabled(files, t, a)
    ensures Runs(files, s, run + [a], Apply(files, t, a))
    decreases run
  {
    if run == [] {
      assert ([a])[1..] == [];
    } else {
      RunsOn(files, Apply(files, s, run[0]), run[1..], t, a);
      assert (run + [a])[1..] == run[1..] + [a];
    }
  }

  /** One file, and k buffers that were written to standard output and could not be written to the file. */
  ghost function Leaky(k: nat): Tee {
    Tee(if k < 128 then Started else Paused, if k == 0 then [] else [Buf(BUFFER_SIZE, 1, 0)], None, None, [], [],
        k * BUFFER_SIZE, k * BUFFER_SIZE)
  }

  ghost function Reading1(k: nat): Tee {
    Leaky(k).(pool := [Buf(BUFFER_SIZE, 2, 0)], reading := Some(0))
  }

  ghost function Writing1(k: nat): Tee {
    Leaky(k).(cmd := Leaky(k + 1).cmd, pool := [Buf(BUFFER_SIZE, 2, 0)], outq := [Write(0, BUFFER_SIZE, None)])
  }

  ghost function WritingFile1(k: nat): Tee {
    Writing1(k).(outq := [], fileq := [Write(0, BUFFER_SIZE, Some(0))], queues := (k + 1) * BUFFER_SIZE)
  }

  lemma CycleReads(k: nat)
    requires k < 128
    ensures Apply(1, Leaky(k), Arm(true)) == Reading1(k)
    ensures Apply(1, Reading1(k), ReadDone(BUFFER_SIZE, true)) == Writing1(k)
  {
    var t := Consumed(TakeRead(Reading1(k)), BUFFER_SIZE, true);
    assert t.outq == [Write(0, BUFFER_SIZE, None)] && t.pool == [Buf(BUFFER_SIZE, 3, 0)];
    assert Sizes(t.outq) == BUFFER_SIZE by {
      assert t.outq[1..] == [];
    }
    assert Total(t) == k * BUFFER_SIZE + BUFFER_SIZE == (k + 1) * BUFFER_SIZE;
    assert Drop(Pausing(t)).pool == [Buf(BUFFER_SIZE, 2, 0)];
  }

  lemma CycleWrites(k: nat)
    requires k < 128
    ensures Apply(1, Writing1(k), WriteDone(0, true, [true], 0, false)) == WritingFile1(k)
    ensures Apply(1, WritingFile1(k), FileWriteDone(0, false, 0, false)) == Leaky(k + 1)
  {
    var t := TakeWrite(Writing1(k), 0);
    assert [true][..0] == [] && Dispatched(t, []) == t;
    assert Dispatched(t, [true]) == StartFileWrite(t, 0);
  }

  /** A run and one more buffer: read, written to standard output, and not written to the file. */
  ghost function OneMore(run: seq<Step>): seq<Step> {
    run + [Arm(true)] + [ReadDone(BUFFER_SIZE, true)] + [WriteDone(0, true, [true], 0, false)] +
    [FileWriteDone(0, false, 0, false)]
  }

  lemma CycleRuns(run: seq<Step>, k: nat)
    requires k < 128 && Runs(1, Initial(), run, Leaky(k))
    ensures Runs(1, Initial(), OneMore(run), Leaky(k + 1))
  {
    CycleReads(k);
    CycleWrites(k);
    var run1 := run + [Arm(true)];
    RunsOn(1, Initial(), run, Leaky(k), Arm(true));
    var run2 := run1 + [ReadDone(BUFFER_SIZE, true)];
    RunsOn(1, Initial(), run1, Reading1(k), ReadDone(BUFFER_SIZE, true));
    var run3 := run2 + [WriteDone(0, true, [true], 0, false)];
    RunsOn(1, Initial(), run2, Writing1(k), WriteDone(0, true, [true], 0, false));
    RunsOn(1, Initial(), run3, WritingFile1(k), FileWriteDone(0, false, 0, false));
  }

  lemma {:induction false} Cycles(k: nat) returns (run: seq<Step>)
    requires k <= 128
    ensures Runs(1, Initial(), run, Leaky(k)) && OutputWorks(run)
  {
    if k == 0 {
      run := [];
    } else {
      var before := Cycles(k - 1);
      CycleRuns(before, k - 1);
      run := OneMore(before);
    }
  }

  /** The condition on failed writes is needed: with one file whose writes all fail, the program pauses its input for
      ever after 128 buffers, though standard output has taken all of them. */
  lemma StallExists() returns (run: seq<Step>, s: Tee)
    ensures Runs(1, Initial(), run, s) && s.cmd == Paused && NothingDue(s) && OutputWorks(run)
  {
    run := Cycles(128);
    s := Leaky(128);
  }
}

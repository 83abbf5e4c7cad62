/** What the water marks of tee guarantee over whole runs, and when a pause of its input ends. */
module TeeMarks {
  import opened ReadCommand
  import opened TeeFlow
  import opened TeePool
  import opened Wrappers

  // ---- the water marks

  /** Every byte at standard output may become a byte for each of the files. */
  ghost function Weight(files: nat): nat {
    if files == 0 then 1 else files
  }

  ghost function Potential(files: nat, s: Tee): int {
    Weight(files) * Sizes(s.outq) + s.queues
  }

  ghost predicate Counted(s: Tee) {
    s.queues == Sizes(s.fileq) + s.leaked
  }

  ghost predicate Flow(files: nat, s: Tee) {
    && Potential(files, s) <= Weight(files) * (UPPER_LIMIT - 1 + BUFFER_SIZE)
    && (Reading(s.cmd) || s.reading.Some? ==> Potential(files, s) <= Weight(files) * (UPPER_LIMIT - 1))
    && (s.cmd == Paused ==> Total(s) > LOWER_LIMIT && s.reading == None)
  }

  ghost predicate Inv(files: nat, s: Tee) {
    Kept(s) && s.param == None && Counted(s) && Flow(files, s)
  }

  lemma Scaled(w: nat, p: int, n: int, limit: int)
    ensures w * (p + n) == w * p + w * n
    ensures n <= limit ==> w * n <= w * limit
    ensures w >= 1 && p >= 0 ==> p <= w * p
  {
    if n <= limit {
      assert w * (limit - n) >= 0;
    }
    if w >= 1 && p >= 0 {
      assert (w - 1) * p >= 0;
    }
  }

  /** Below the upper mark the potential is below its own. */
  lemma Below(files: nat, s: Tee, limit: int)
    requires Total(s) <= limit && s.queues >= 0
    ensures Potential(files, s) <= Weight(files) * limit
    ensures Total(s) <= Potential(files, s)
  {
    var w := Weight(files);
    Scaled(w, Sizes(s.outq), s.queues, 0);
    Scaled(w, s.queues, 0, 0);
    Scaled(w, 0, Total(s), limit);
    Scaled(w, Sizes(s.outq), 0, 0);
  }

  lemma ConsumedKeeps(s: Tee, nread: int, initiated: bool)
    requires Kept(s) && Has(s) && s.pool[s.param.value].refs == 2 && nread <= BUFFER_SIZE && s.reading == None
    ensures var t := Consumed(s, nread, initiated);
      && Kept(t) && Has(t) && t.reading == None
      && t.queues == s.queues && t.fileq == s.fileq && t.leaked == s.leaked
      && Sizes(s.outq) <= Sizes(t.outq) <= Sizes(s.outq) + BUFFER_SIZE && (t.cmd == s.cmd || t.cmd == Stopped)
  {
    if nread > 0 {
      SetLenKeeps(s, nread);
      if initiated {
        StartWriteKeeps(SetLen(s, nread));
        Append(s.outq, Write(s.param.value, nread, None), 0);
      }
    }
  }

  /** The potential grows by one buffer at most, from below the upper mark. */
  lemma ReadPotential(files: nat, s: Tee, t: Tee)
    requires Flow(files, s) && s.reading.Some? && t.queues == s.queues >= 0
    requires Sizes(s.outq) <= Sizes(t.outq) <= Sizes(s.outq) + BUFFER_SIZE
    ensures Potential(files, t) <= Weight(files) * (UPPER_LIMIT - 1 + BUFFER_SIZE)
    ensures Total(t) < UPPER_LIMIT ==> Potential(files, t) <= Weight(files) * (UPPER_LIMIT - 1)
  {
    var w := Weight(files);
    Scaled(w, Sizes(s.outq), Sizes(t.outq) - Sizes(s.outq), BUFFER_SIZE);
    Scaled(w, UPPER_LIMIT - 1, BUFFER_SIZE, 0);
    if Total(t) < UPPER_LIMIT {
      Below(files, t, UPPER_LIMIT - 1);
    }
  }

  lemma ReadKeeps(files: nat, s: Tee, nread: int, initiated: bool)
    requires Inv(files, s) && Enabled(files, s, ReadDone(nread, initiated))
    ensures Inv(files, DidRead(s, nread, initiated))
  {
    TakeReadKeeps(s);
    ConsumedKeeps(TakeRead(s), nread, initiated);
    var t := Consumed(TakeRead(s), nread, initiated);
    ReadPotential(files, s, t);
    PausingKeeps(files, t);
  }

  /** The end of the callback of the reader: either the input is paused, or the total is below the upper mark. */
  lemma PausingKeeps(files: nat, s: Tee)
    requires Kept(s) && Has(s) && s.reading == None && Counted(s) && s.cmd != Paused
    requires Potential(files, s) <= Weight(files) * (UPPER_LIMIT - 1 + BUFFER_SIZE)
    requires Total(s) < UPPER_LIMIT ==> Potential(files, s) <= Weight(files) * (UPPER_LIMIT - 1)
    ensures Inv(files, Drop(Pausing(s)))
  {
    DropKeeps(Pausing(s));
  }

  /** Before a completion callback tries to resume. */
  ghost predicate Completing(files: nat, s: Tee) {
    && Kept(s) && Has(s) && s.param != s.reading && Counted(s) && (s.cmd == Paused ==> s.reading == None)
    && Potential(files, s) <= Weight(files) * (UPPER_LIMIT - 1 + BUFFER_SIZE)
    && (Reading(s.cmd) || s.reading.Some? ==> Potential(files, s) <= Weight(files) * (UPPER_LIMIT - 1))
  }

  /** The end of a completion callback: either nothing is resumed, or the total is below the lower mark. */
  lemma CompletionKeeps(files: nat, s: Tee, startRet: int, direct: bool)
    requires Completing(files, s)
    ensures Inv(files, Drop(AfterResume(s, startRet, direct)))
  {
    ResumedKeeps(s, startRet, direct);
    if Total(s) <= LOWER_LIMIT {
      Below(files, s, UPPER_LIMIT - 1);
    }
  }

  lemma {:induction false} DispatchedKeeps(s: Tee, accepted: seq<bool>)
    requires Kept(s) && Has(s) && Counted(s)
    ensures var t := Dispatched(s, accepted);
      && Kept(t) && Has(t) && t.param == s.param && Counted(t) && |t.pool| == |s.pool|
      && t.pool[s.param.value].len == s.pool[s.param.value].len
      && t.outq == s.outq && t.cmd == s.cmd && t.reading == s.reading && t.leaked == s.leaked
      && s.queues <= t.queues <= s.queues + |accepted| * s.pool[s.param.value].len
    decreases accepted
  {
    if accepted != [] {
      var n, len := |accepted| - 1, s.pool[s.param.value].len;
      assert (n + 1) * len == n * len + len;
      DispatchedKeeps(s, accepted[..n]);
      var t := Dispatched(s, accepted[..n]);
      if accepted[n] {
        StartFileWriteKeeps(t, n);
        Append(t.fileq, Write(s.param.value, len, Some(n)), 0);
      }
    }
  }

  /** A written buffer leaves standard output and turns into as many bytes for each file that accepts it. */
  lemma WritePotential(files: nat, s: Tee, t: Tee, size: nat, more: nat)
    requires Sizes(t.outq) == Sizes(s.outq) - size && t.queues == s.queues + more && more <= files * size
    ensures Potential(files, t) <= Potential(files, s)
  {
    var w := Weight(files);
    Scaled(w, Sizes(t.outq), size, 0);
    Scaled(size, files, w - files, 0);
  }

  /** What a completed write leaves at the beginning of its callback. */
  lemma TakeWriteFlow(files: nat, s: Tee, k: nat)
    requires Inv(files, s) && k < |s.outq|
    ensures var t := TakeWrite(s, k);
      && Kept(t) && Has(t) && t.param != t.reading && Counted(t)
      && t.pool[t.param.value].len == s.outq[k].size && Sizes(t.outq) == Sizes(s.outq) - s.outq[k].size
      && Potential(files, t) <= Potential(files, s)
  {
    Remove(s.outq, k, 0);
    TakeWriteKeeps(s, k);
    WritePotential(files, s, TakeWrite(s, k), s.outq[k].size, 0);
  }

  lemma TakeFileWriteFlow(s: Tee, k: nat)
    requires Kept(s) && s.param == None && k < |s.fileq|
    ensures var t := TakeFileWrite(s, k);
      && Kept(t) && Has(t) && t.param != t.reading
      && t.pool[t.param.value].len == s.fileq[k].size && Sizes(t.fileq) == Sizes(s.fileq) - s.fileq[k].size
  {
    Remove(s.fileq, k, 0);
    TakeFileWriteKeeps(s, k);
  }

  lemma WrittenKeeps(files: nat, s: Tee, k: nat, dispatched: seq<bool>, startRet: int, direct: bool)
    requires Inv(files, s) && Enabled(files, s, WriteDone(k, true, dispatched, startRet, direct))
    ensures Inv(files, DidWrite(s, k, true, dispatched, startRet, direct))
  {
    TakeWriteFlow(files, s, k);
    var t := TakeWrite(s, k);
    DispatchedKeeps(t, dispatched);
    var u := Dispatched(t, dispatched);
    WritePotential(files, s, u, s.outq[k].size, u.queues - s.queues);
    CompletionKeeps(files, u, startRet, direct);
  }

  lemma WriteFailedKeeps(files: nat, s: Tee, k: nat, dispatched: seq<bool>, startRet: int, direct: bool)
    requires Inv(files, s) && Enabled(files, s, WriteDone(k, false, dispatched, startRet, direct))
    ensures Inv(files, DidWrite(s, k, false, dispatched, startRet, direct))
  {
    TakeWriteFlow(files, s, k);
    CompletionKeeps(files, TakeWrite(s, k).(cmd := Stopped), startRet, direct);
  }

  lemma FileWrittenKeeps(files: nat, s: Tee, k: nat, startRet: int, direct: bool)
    requires Inv(files, s) && Enabled(files, s, FileWriteDone(k, true, startRet, direct))
    ensures Inv(files, DidWriteFile(s, k, true, startRet, direct))
  {
    var t := TakeFileWrite(s, k);
    CountedOff(files, s, k);
    CompletionKeeps(files, OffCounter(t), startRet, direct);
  }

  /** A successful write is taken off the counter. */
  lemma CountedOff(files: nat, s: Tee, k: nat)
    requires Inv(files, s) && k < |s.fileq|
    ensures Has(TakeFileWrite(s, k))
    ensures var t := TakeFileWrite(s, k); Completing(files, OffCounter(t))
  {
    TakeFileWriteFlow(s, k);
    var t := TakeFileWrite(s, k);
    assert forall c :: Uses(OffCounter(t), c) == Uses(t, c);
    assert Kept(OffCounter(t)) && Counted(OffCounter(t)) && Potential(files, OffCounter(t)) <= Potential(files, s);
  }

  lemma FileFailedKeeps(files: nat, s: Tee, k: nat, startRet: int, direct: bool)
    requires Inv(files, s) && Enabled(files, s, FileWriteDone(k, false, startRet, direct))
    ensures Inv(files, DidWriteFile(s, k, false, startRet, direct))
  {
    LeftInCounter(files, s, k);
    DropKeeps(Leaking(TakeFileWrite(s, k), s.fileq[k].size));
  }

  /** A failed write stays in the counter. */
  lemma LeftInCounter(files: nat, s: Tee, k: nat)
    requires Inv(files, s) && k < |s.fileq|
    ensures var t := Leaking(TakeFileWrite(s, k), s.fileq[k].size);
      Kept(t) && Has(t) && t.param != t.reading && Counted(t) && Flow(files, t)
  {
    TakeFileWriteFlow(s, k);
    var t := TakeFileWrite(s, k);
    assert forall c :: Uses(Leaking(t, s.fileq[k].size), c) == Uses(t, c);
  }

  lemma StepKeeps(files: nat, s: Tee, a: Step)
    requires Inv(files, s) && Enabled(files, s, a)
    ensures Inv(files, Apply(files, s, a))
  {
    match a
    case Arm(accepted) => AllocatedKeeps(s, accepted);
    case ReadDone(nread, initiated) => ReadKeeps(files, s, nread, initiated);
    case WriteDone(k, ok, dispatched, startRet, direct) =>
      if ok {
        WrittenKeeps(files, s, k, dispatched, startRet, direct);
      } else {
        WriteFailedKeeps(files, s, k, dispatched, startRet, direct);
      }
    case FileWriteDone(k, ok, startRet, direct) =>
      if ok {
        FileWrittenKeeps(files, s, k, startRet, direct);
      } else {
        FileFailedKeeps(files, s, k, startRet, direct);
      }
  }

  lemma {:induction false} RunKeeps(files: nat, s: Tee, run: seq<Step>, s': Tee)
    requires Inv(files, s) && Runs(files, s, run, s')
    ensures Inv(files, s')
    decreases run
  {
    if run != [] {
      StepKeeps(files, s, run[0]);
      RunKeeps(files, Apply(files, s, run[0]), run[1..], s');
    }
  }

  lemma EveryRun(files: nat, run: seq<Step>, s: Tee)
    requires Runs(files, Initial(), run, s)
    ensures Inv(files, s)
  {
    InitialInv(files);
    RunKeeps(files, Initial(), run, s);
  }

  lemma InitialInv(files: nat)
    ensures Inv(files, Initial())
  {
    Scaled(Weight(files), 0, 0, UPPER_LIMIT - 1);
    Scaled(Weight(files), 0, 0, UPPER_LIMIT - 1 + BUFFER_SIZE);
  }

  // ---- main results

  /** In every run, with any number of files: the bytes that wait are bounded, and the counter is what is out to the
      files and what failed writes have left in it. */
  lemma Bounded(files: nat, run: seq<Step>, s: Tee)
    requires Runs(files, Initial(), run, s)
    ensures Total(s) <= Weight(files) * (UPPER_LIMIT - 1 + BUFFER_SIZE)
    ensures s.queues == Sizes(s.fileq) + s.leaked
  {
    EveryRun(files, run, s);
    TotalBounded(files, s);
  }

  lemma TotalBounded(files: nat, s: Tee)
    requires Flow(files, s) && s.queues >= 0
    ensures Total(s) <= Weight(files) * (UPPER_LIMIT - 1 + BUFFER_SIZE)
  {
    Below(files, s, Total(s));
  }

  /** In every run a paused input has no read out, and a completion that does not stop the reading changes the command
      in a pause only: whatever it resumes, it never meets a read, and then only a read of its own is out. */
  lemma PausedHasNoRead(files: nat, run: seq<Step>, s: Tee, a: Step)
    requires Runs(files, Initial(), run, s) && Enabled(files, s, a) && (a.WriteDone? || a.FileWriteDone?)
    ensures s.cmd == Paused ==> s.reading == None
    ensures var t := Apply(files, s, a);
      t.cmd != s.cmd && t.cmd != Stopped ==>
        s.cmd == Paused && s.reading == None && (t.reading.Some? ==> a.direct && t.cmd == Resumed)
  {
    EveryRun(files, run, s);
    Completions(files, s, a);
  }

  /** In every run a buffer looks spare exactly when no read, no write and no failed read has it, and no write that is
      out sees the length of its buffer changed. */
  lemma PoolIsSafe(files: nat, run: seq<Step>, s: Tee, b: nat)
    requires Runs(files, Initial(), run, s) && b < |s.pool|
    ensures s.pool[b].refs == 1 <==> Uses(s, b) == 0 && s.pool[b].lost == 0
    ensures forall k :: 0 <= k < |s.outq| && s.outq[k].buf == b ==> s.outq[k].size == s.pool[b].len
    ensures forall k :: 0 <= k < |s.fileq| && s.fileq[k].buf == b ==> s.fileq[k].size == s.pool[b].len
  {
    EveryRun(files, run, s);
  }

  ghost predicate NothingDue(s: Tee) {
    s.outq == [] && s.fileq == []
  }

  ghost predicate Marks(s: Tee) {
    Counted(s) && (s.cmd == Paused ==> Total(s) > LOWER_LIMIT)
  }

  lemma EveryRunMarks(files: nat, run: seq<Step>, s: Tee)
    requires Runs(files, Initial(), run, s)
    ensures Marks(s)
  {
    EveryRun(files, run, s);
  }

  /** A paused input waits for nothing only if failed writes have left more than the lower mark in the counter. */
  lemma PausedIsDue(files: nat, run: seq<Step>, s: Tee)
    requires Runs(files, Initial(), run, s) && s.cmd == Paused && s.leaked <= LOWER_LIMIT
    ensures !NothingDue(s)
  {
    EveryRunMarks(files, run, s);
  }

  ghost function FailedBytes(s: Tee, a: Step): nat
    requires a.FileWriteDone? ==> a.k < |s.fileq|
  {
    if a.FileWriteDone? && !a.ok then s.fileq[a.k].size else 0
  }

  ghost predicate OutputFailed(a: Step) {
    a.WriteDone? && !a.ok
  }

  /** The end of a completion callback leaves a pause if and only if the total is below the lower mark. */
  lemma ResumeLeaves(s: Tee, startRet: int, direct: bool)
    requires Has(s) && Has(AfterResume(s, startRet, direct))
    ensures var t := Drop(AfterResume(s, startRet, direct));
      && t.leaked == s.leaked && Total(t) == Total(s)
      && (t.reading == s.reading || (s.cmd == Paused && direct && t.cmd == Resumed))
      && (if s.cmd == Paused then t.cmd == Paused <==> Total(s) > LOWER_LIMIT else t.cmd == s.cmd)
  {
  }

  lemma WriteCompletion(files: nat, s: Tee, a: Step)
    requires Inv(files, s) && Enabled(files, s, a) && a.WriteDone?
    ensures var t := Apply(files, s, a);
      && t.leaked == s.leaked
      && (t.reading == s.reading || (s.cmd == Paused && a.direct && t.cmd == Resumed))
      && (s.cmd != Paused && t.cmd != Stopped ==> t.cmd == s.cmd)
      && (s.cmd == Paused ==> (t.cmd == Paused <==> a.ok && Total(t) > LOWER_LIMIT))
  {
    var t := TakeWrite(s, a.k);
    TakeWriteFlow(files, s, a.k);
    if a.ok {
      DispatchedKeeps(t, a.dispatched);
      ResumeLeaves(Dispatched(t, a.dispatched), a.startRet, a.direct);
    } else {
      ResumeLeaves(t.(cmd := Stopped), a.startRet, a.direct);
    }
  }

  /** The callbacks of completions: what they add to the failed bytes, and when they leave a pause. */
  lemma Completions(files: nat, s: Tee, a: Step)
    requires Inv(files, s) && Enabled(files, s, a) && (a.WriteDone? || a.FileWriteDone?)
    ensures var t := Apply(files, s, a);
      && t.leaked == s.leaked + FailedBytes(s, a)
      && (t.reading == s.reading || (s.cmd == Paused && a.direct && t.cmd == Resumed))
      && (s.cmd != Paused && t.cmd != Stopped ==> t.cmd == s.cmd)
      && (s.cmd == Paused ==> (t.cmd == Paused <==> !OutputFailed(a) && Total(t) > LOWER_LIMIT))
  {
    if a.WriteDone? {
      WriteCompletion(files, s, a);
    } else if a.ok {
      ResumeLeaves(OffCounter(TakeFileWrite(s, a.k)), a.startRet, a.direct);
    }
  }

  /** The last completion that is due leaves the pause if and only if it is a failed write to standard output, which
      stops the reading, or the failed writes, with its own failure, have left no more than the lower mark. */
  lemma LastCompletion(files: nat, run: seq<Step>, s: Tee, a: Step)
    requires Runs(files, Initial(), run, s) && s.cmd == Paused
    requires Enabled(files, s, a) && (a.WriteDone? || a.FileWriteDone?) && NothingDue(Apply(files, s, a))
    ensures Apply(files, s, a).cmd != Paused <==> OutputFailed(a) || s.leaked + FailedBytes(s, a) <= LOWER_LIMIT
  {
    EveryRun(files, run, s);
    StepKeeps(files, s, a);
    Completions(files, s, a);
  }

  /** No write to a file of the run has failed. */
  ghost predicate FilesWork(run: seq<Step>) {
    forall i :: 0 <= i < |run| && run[i].FileWriteDone? ==> run[i].ok
  }

  lemma StepLeaks(files: nat, s: Tee, a: Step)
    requires Inv(files, s) && Enabled(files, s, a) && (a.FileWriteDone? ==> a.ok)
    ensures Apply(files, s, a).leaked == s.leaked
  {
    if a.WriteDone? || a.FileWriteDone? {
      Completions(files, s, a);
    }
  }

  lemma {:induction false} NothingLeaks(files: nat, s: Tee, run: seq<Step>, s': Tee)
    requires Inv(files, s) && Runs(files, s, run, s') && FilesWork(run)
    ensures s'.leaked == s.leaked
    decreases run
  {
    if run != [] {
      StepKeeps(files, s, run[0]);
      StepLeaks(files, s, run[0]);
      NothingLeaks(files, Apply(files, s, run[0]), run[1..], s');
    }
  }

  lemma NothingLeaked(files: nat, run: seq<Step>, s: Tee)
    requires Runs(files, Initial(), run, s) && FilesWork(run)
    ensures s.leaked == 0
  {
    InitialInv(files);
    NothingLeaks(files, Initial(), run, s);
  }

  /** So if no write to a file fails, the program never stalls. */
  lemma NoStall(files: nat, run: seq<Step>, s: Tee)
    requires Runs(files, Initial(), run, s) && FilesWork(run) && s.cmd == Paused
    ensures !NothingDue(s)
  {
    NothingLeaked(files, run, s);
    PausedIsDue(files, run, s);
  }

  /** A run without a failed write to standard output. */
  ghost predicate OutputWorks(run: seq<Step>) {
    forall i :: 0 <= i < |run| ==> !OutputFailed(run[i])
  }

  lemma PauseLasts(files: nat, s: Tee, a: Step)
    requires Inv(files, s) && s.cmd == Paused && s.leaked > LOWER_LIMIT && Enabled(files, s, a) && !OutputFailed(a)
    ensures Inv(files, Apply(files, s, a)) && Apply(files, s, a).cmd == Paused &&
      Apply(files, s, a).leaked > LOWER_LIMIT
  {
    StepKeeps(files, s, a);
    if a.WriteDone? || a.FileWriteDone? {
      Completions(files, s, a);
    }
  }

  lemma {:induction false} PauseLastsOn(files: nat, s: Tee, run: seq<Step>, s': Tee)
    requires Inv(files, s) && s.cmd == Paused && s.leaked > LOWER_LIMIT && Runs(files, s, run, s') && OutputWorks(run)
    ensures s'.cmd == Paused
    decreases run
  {
    if run != [] {
      PauseLasts(files, s, run[0]);
      PauseLastsOn(files, Apply(files, s, run[0]), run[1..], s');
    }
  }

  /** And if more than the lower mark has leaked, a pause lasts for ever, unless standard output fails. */
  lemma LeakedForEver(files: nat, run: seq<Step>, s: Tee, more: seq<Step>, s': Tee)
    requires Runs(files, Initial(), run, s) && s.cmd == Paused && s.leaked > LOWER_LIMIT
    requires Runs(files, s, more, s') && OutputWorks(more)
    ensures s'.cmd == Paused
  {
    EveryRun(files, run, s);
    PauseLastsOn(files, s, more, s');
  }
}

/** What the pool of tee keeps in and between the callbacks: who has a reference on which buffer. */
module TeePool {
  import opened ReadCommand
  import opened TeeFlow
  import opened Wrappers

  lemma Uncounted(q: seq<Write>, b: nat)
    requires Count(q, b) == 0
    ensures forall k :: 0 <= k < |q| ==> q[k].buf != b
  {
    forall k | 0 <= k < |q| ensures q[k].buf != b {
      Remove(q, k, b);
    }
  }

  ghost function One(o: Option<nat>, b: nat): nat {
    if o == Some(b) then 1 else 0
  }

  ghost function Uses(s: Tee, b: nat): nat {
    Count(s.outq, b) + Count(s.fileq, b) + One(s.reading, b) + One(s.param, b)
  }

  /** A write that is out has a buffer of the pool, whose length is still the size that the write recorded. */
  ghost predicate Fits(pool: seq<Buf>, q: seq<Write>) {
    forall k :: 0 <= k < |q| ==> q[k].buf < |pool| && pool[q[k].buf].len == q[k].size
  }

  ghost predicate Referred(s: Tee) {
    forall b :: 0 <= b < |s.pool| ==> s.pool[b].refs == 1 + s.pool[b].lost + Uses(s, b)
  }

  /** The buffer of a read that is out serves nothing else and has its full capacity. */
  ghost predicate ForReading(s: Tee) {
    s.reading.Some? ==> s.reading.value < |s.pool| && s.pool[s.reading.value] == Buf(BUFFER_SIZE, 2, 0)
  }

  ghost predicate PoolInv(s: Tee) {
    Fits(s.pool, s.outq) && Fits(s.pool, s.fileq) && Referred(s) && (s.param.Some? ==> s.param.value < |s.pool|)
  }

  lemma {:induction false} SpareIs(pool: seq<Buf>, from: nat)
    requires from <= |pool|
    ensures Spare(pool, from) <= |pool|
    ensures Spare(pool, from) < |pool| ==> pool[Spare(pool, from)].refs == 1
    ensures forall b :: from <= b < Spare(pool, from) ==> pool[b].refs != 1
    decreases |pool| - from
  {
    if from < |pool| {
      SpareIs(pool, from + 1);
    }
  }

  /** What the pool keeps between and inside the callbacks. */
  ghost predicate Kept(s: Tee) {
    PoolInv(s) && ForReading(s)
  }

  lemma AllocatedKeeps(s: Tee, accepted: bool)
    requires Kept(s) && (accepted ==> s.reading == None)
    ensures Kept(Allocated(s, accepted))
    ensures Has(s) && s.param != s.reading ==> Has(Allocated(s, accepted)) && s.param != Allocated(s, accepted).reading
  {
    SpareIs(s.pool, 0);
    var t, b := Allocated(s, accepted), Spare(s.pool, 0);
    if b < |s.pool| {
      assert Uses(s, b) == 0 && s.pool[b].lost == 0;
      Uncounted(s.outq, b);
      Uncounted(s.fileq, b);
    } else {
      Outside(s.pool, s.outq, b);
      Outside(s.pool, s.fileq, b);
    }
    forall c | 0 <= c < |t.pool| ensures t.pool[c].refs == 1 + t.pool[c].lost + Uses(t, c) {
      assert c != b ==> t.pool[c] == s.pool[c] && Uses(t, c) == Uses(s, c);
    }
  }

  lemma {:induction false} Outside(pool: seq<Buf>, q: seq<Write>, b: nat)
    requires Fits(pool, q) && b >= |pool|
    ensures Count(q, b) == 0
  {
    if q != [] {
      assert q[0].buf < |pool|;
      assert forall k :: 0 <= k < |q[1..]| ==> q[1..][k] == q[k + 1];
      Outside(pool, q[1..], b);
    }
  }

  lemma SetLenKeeps(s: Tee, n: nat)
    requires Kept(s) && Has(s) && s.pool[s.param.value].refs == 2
    ensures Kept(SetLen(s, n)) && SetLen(s, n).pool[s.param.value].refs == 2
  {
    var b := s.param.value;
    assert Uses(s, b) == 1;
    Uncounted(s.outq, b);
    Uncounted(s.fileq, b);
    assert forall c :: Uses(SetLen(s, n), c) == Uses(s, c);
  }

  lemma StartWriteKeeps(s: Tee)
    requires Kept(s) && Has(s)
    ensures Kept(StartWrite(s))
  {
    var t := StartWrite(s);
    forall c | 0 <= c < |t.pool| ensures t.pool[c].refs == 1 + t.pool[c].lost + Uses(t, c) {
      Append(s.outq, Write(s.param.value, s.pool[s.param.value].len, None), c);
    }
  }

  lemma StartFileWriteKeeps(s: Tee, file: nat)
    requires Kept(s) && Has(s)
    ensures Kept(StartFileWrite(s, file))
  {
    var t := StartFileWrite(s, file);
    forall c | 0 <= c < |t.pool| ensures t.pool[c].refs == 1 + t.pool[c].lost + Uses(t, c) {
      Append(s.fileq, Write(s.param.value, s.pool[s.param.value].len, Some(file)), c);
    }
  }

  lemma DropKeeps(s: Tee)
    requires Kept(s) && Has(s) && s.param != s.reading
    ensures Kept(Drop(s))
  {
    var t := Drop(s);
    forall c | 0 <= c < |t.pool| ensures t.pool[c].refs == 1 + t.pool[c].lost + Uses(t, c) {
      assert t.pool[c].lost == s.pool[c].lost;
    }
  }

  /** The end of a completion callback, with a resume that may ask for a buffer. */
  lemma ResumedKeeps(s: Tee, startRet: int, direct: bool)
    requires Kept(s) && Has(s) && s.param != s.reading && (s.cmd == Paused ==> s.reading == None)
    ensures Has(AfterResume(s, startRet, direct)) && Kept(Drop(AfterResume(s, startRet, direct)))
  {
    if s.cmd == Paused && Total(s) <= LOWER_LIMIT {
      AllocatedKeeps(Resuming(s, startRet), startRet >= 0);
    }
    DropKeeps(AfterResume(s, startRet, direct));
  }

  lemma TakeReadKeeps(s: Tee)
    requires Kept(s) && s.param == None
    ensures Kept(TakeRead(s))
  {
    assert forall c :: Uses(TakeRead(s), c) == Uses(s, c);
  }

  lemma TakeWriteKeeps(s: Tee, k: nat)
    requires Kept(s) && s.param == None && k < |s.outq|
    ensures Kept(TakeWrite(s, k)) && TakeWrite(s, k).param != s.reading
  {
    var t := TakeWrite(s, k);
    forall c ensures Uses(t, c) == Uses(s, c) {
      Remove(s.outq, k, c);
    }
    Remove(s.outq, k, s.outq[k].buf);
  }

  lemma TakeFileWriteKeeps(s: Tee, k: nat)
    requires Kept(s) && s.param == None && k < |s.fileq|
    ensures Kept(TakeFileWrite(s, k)) && TakeFileWrite(s, k).param != s.reading
  {
    var t := TakeFileWrite(s, k);
    forall c ensures Uses(t, c) == Uses(s, c) {
      Remove(s.fileq, k, c);
    }
    Remove(s.fileq, k, s.fileq[k].buf);
  }
}

/** What each callback of tee does to the queues, the counter, the pool and the read command, without the functions that
    do it. */
module TeeEffects {
  import opened ReadCommand
  import opened TeeFlow
  import opened TeePool
  import opened Wrappers

  // ---- write_to_files()

  ghost function Trues(accepted: seq<bool>): nat {
    if accepted == [] then 0 else Trues(accepted[..|accepted| - 1]) + if accepted[|accepted| - 1] then 1 else 0
  }

  /** The writes are those of buffer b with this size to the files that accepted one, one for each, in their order. */
  ghost predicate OneForEach(q: seq<Write>, b: nat, size: nat, accepted: seq<bool>) {
    && (forall j :: 0 <= j < |q| ==> IsTo(q[j], b, size, accepted))
    && (forall i :: 0 <= i < |accepted| && accepted[i] ==> Write(b, size, Some(i)) in q)
    && (forall j, k :: 0 <= j < k < |q| ==> Before(q[j], q[k]))
  }

  ghost predicate IsTo(w: Write, b: nat, size: nat, accepted: seq<bool>) {
    w.buf == b && w.size == size && w.file.Some? && w.file.value < |accepted| && accepted[w.file.value]
  }

  ghost predicate Before(v: Write, w: Write) {
    v.file.Some? && w.file.Some? && v.file.value < w.file.value
  }

  lemma OneForEachMore(q: seq<Write>, b: nat, size: nat, accepted: seq<bool>)
    requires accepted != [] && OneForEach(q, b, size, accepted[..|accepted| - 1])
    ensures var n := |accepted| - 1;
      OneForEach(if accepted[n] then q + [Write(b, size, Some(n))] else q, b, size, accepted)
  {
    var n := |accepted| - 1;
    var before, t := accepted[..n], if accepted[n] then q + [Write(b, size, Some(n))] else q;
    forall j | 0 <= j < |t| ensures IsTo(t[j], b, size, accepted) {
      assert j < |q| ==> IsTo(q[j], b, size, before);
    }
    forall i | 0 <= i < |accepted| && accepted[i] ensures Write(b, size, Some(i)) in t {
      assert i < n ==> before[i];
    }
    forall j, k | 0 <= j < k < |t| ensures Before(t[j], t[k]) {
      assert IsTo(q[j], b, size, before);
      assert k < |q| ==> Before(q[j], q[k]);
    }
  }

  /** The queue of the files is longer by these writes, and the counter and the references on the buffer say so. */
  ghost predicate Grown(s: Tee, t: Tee, more: seq<Write>)
    requires Has(s)
  {
    var b := s.param.value;
    var x := s.pool[b];
    && t.fileq == s.fileq + more
    && t.queues == s.queues + |more| * x.len && t.pool == s.pool[b := x.(refs := x.refs + |more|)]
    && t == s.(fileq := t.fileq, queues := t.queues, pool := t.pool)
  }

  lemma GrownMore(s: Tee, t: Tee, more: seq<Write>, n: nat)
    requires Has(s) && Grown(s, t, more)
    ensures Has(t) && Grown(s, StartFileWrite(t, n), more + [Write(s.param.value, s.pool[s.param.value].len, Some(n))])
  {
    var len, w := s.pool[s.param.value].len, Write(s.param.value, s.pool[s.param.value].len, Some(n));
    assert (|more| + 1) * len == |more| * len + len;
    assert s.fileq + (more + [w]) == (s.fileq + more) + [w];
  }

  /** Every file that accepts one gets one write of the buffer with its length, behind the writes that are out, in
      the order of the files; the counter grows by the length for each of them, and the buffer has a reference more
      for each. */
  lemma {:induction false} FanOut(s: Tee, accepted: seq<bool>) returns (more: seq<Write>)
    requires Has(s)
    ensures Grown(s, Dispatched(s, accepted), more)
    ensures |more| == Trues(accepted) && OneForEach(more, s.param.value, s.pool[s.param.value].len, accepted)
    decreases accepted
  {
    more := [];
    if accepted != [] {
      var n, b := |accepted| - 1, s.param.value;
      var before := FanOut(s, accepted[..n]);
      OneForEachMore(before, b, s.pool[b].len, accepted);
      GrownMore(s, Dispatched(s, accepted[..n]), before, n);
      more := if accepted[n] then before + [Write(b, s.pool[b].len, Some(n))] else before;
    }
  }

  // ---- the callbacks

  /** The callback of the reader: with data it writes exactly the bytes that were read; the end of the file, an error or
      a write that libuv does not accept stops the reading; and a reading input is paused at the upper mark. */
  lemma ReadEffects(s: Tee, nread: int, initiated: bool)
    requires s.reading.Some? && s.reading.value < |s.pool|
    ensures var t, b := DidRead(s, nread, initiated), s.reading.value; var x := s.pool[b];
      && t.reading == None && t.param == None
      && t.outq == (if nread > 0 && initiated then s.outq + [Write(b, nread, None)] else s.outq)
      && t.pool == s.pool[b := Buf(if nread > 0 then nread else x.len,
                                   if nread > 0 && initiated then x.refs else x.refs - 1, x.lost)]
      && (nread < 0 || (nread > 0 && !initiated) ==> t.cmd == Stopped)
      && (nread == 0 || (nread > 0 && initiated) ==>
            t.cmd == if Reading(s.cmd) && Total(t) >= UPPER_LIMIT then Paused else s.cmd)
      && t.fileq == s.fileq && t.queues == s.queues && t.leaked == s.leaked
  {
  }

  /** The end of a completion callback: a paused input is resumed at the lower mark, and not otherwise. */
  ghost predicate ResumedAt(before: RdCmd, t: Tee, startRet: int) {
    t.cmd == if before == Paused && Total(t) <= LOWER_LIMIT then (if startRet < 0 then Unknown else Resumed) else before
  }

  lemma ResumeEffects(s: Tee, startRet: int, direct: bool)
    requires Has(s) && Has(AfterResume(s, startRet, direct))
    ensures var t := Drop(AfterResume(s, startRet, direct));
      && ResumedAt(s.cmd, t, startRet) && t.param == None
      && t.outq == s.outq && t.fileq == s.fileq && t.queues == s.queues && t.leaked == s.leaked
      && (if direct && s.cmd == Paused && Total(s) <= LOWER_LIMIT && startRet >= 0 then t.reading.Some?
          else t.reading == s.reading)
  {
  }

  /** A completed write leaves standard output. If it has succeeded its buffer goes to every file that accepts it, and
      the input may be resumed; if not, the reading is stopped. */
  lemma WriteEffects(s: Tee, k: nat, ok: bool, accepted: seq<bool>, startRet: int, direct: bool)
    returns (more: seq<Write>)
    requires Kept(s) && s.param == None && k < |s.outq|
    ensures s.outq[k].buf < |s.pool|
    ensures var t, w := DidWrite(s, k, ok, accepted, startRet, direct), s.outq[k];
      && t.outq == s.outq[..k] + s.outq[k + 1..] && t.fileq == s.fileq + more && t.leaked == s.leaked
      && t.queues == s.queues + |more| * w.size && t.param == None
      && (if ok then OneForEach(more, w.buf, w.size, accepted) && |more| == Trues(accepted) else more == [])
      && (if ok then ResumedAt(s.cmd, t, startRet) else t.cmd == Stopped)
  {
    var t := TakeWrite(s, k);
    TakeWriteKeeps(s, k);
    assert t.pool[t.param.value].len == s.outq[k].size;
    if ok {
      more := FanOut(t, accepted);
      var u := Dispatched(t, accepted);
      HasAfterResume(u, startRet, direct);
      ResumeEffects(u, startRet, direct);
    } else {
      more := [];
      ResumeEffects(t.(cmd := Stopped), startRet, direct);
    }
  }

  lemma HasAfterResume(s: Tee, startRet: int, direct: bool)
    requires Has(s)
    ensures Has(AfterResume(s, startRet, direct))
  {
    SpareIs(s.pool, 0);
  }

  /** A completed write to a file: if it has succeeded, its size leaves the counter, and the input may be resumed;
      if not, it stays in the counter, and nothing is resumed. */
  lemma FileWriteEffects(s: Tee, k: nat, ok: bool, startRet: int, direct: bool)
    requires Kept(s) && s.param == None && k < |s.fileq|
    ensures s.fileq[k].buf < |s.pool|
    ensures var t, w := DidWriteFile(s, k, ok, startRet, direct), s.fileq[k];
      && t.fileq == s.fileq[..k] + s.fileq[k + 1..] && t.outq == s.outq && t.param == None
      && t.queues == s.queues - (if ok then w.size else 0) && t.leaked == s.leaked + (if ok then 0 else w.size)
      && (if ok then ResumedAt(s.cmd, t, startRet) else t.cmd == s.cmd && t.reading == s.reading)
  {
    var t := TakeFileWrite(s, k);
    TakeFileWriteKeeps(s, k);
    assert t.pool[t.param.value].len == s.fileq[k].size;
    if ok {
      HasAfterResume(OffCounter(t), startRet, direct);
      ResumeEffects(OffCounter(t), startRet, direct);
    }
  }

  /** alloc_cb(): the first buffer on which nobody but the pool has a reference, with its capacity restored; or, if
      there is none, a new one. The reader gets a reference on it, which is lost if the read is not accepted. */
  lemma AllocEffects(s: Tee, accepted: bool) returns (b: nat)
    ensures b <= |s.pool| && (b < |s.pool| ==> s.pool[b].refs == 1)
    ensures forall c :: 0 <= c < b ==> s.pool[c].refs != 1
    ensures var t, x := Allocated(s, accepted), Buf(BUFFER_SIZE, 2, if accepted then 0 else 1);
      && t.pool == (if b < |s.pool| then s.pool[b := x] else s.pool + [x])
      && t == s.(pool := t.pool, reading := if accepted then Some(b) else s.reading)
  {
    SpareIs(s.pool, 0);
    b := Spare(s.pool, 0);
  }
}

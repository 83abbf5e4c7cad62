/** Reading from a file endpoint: a chain of single uv_fs_read() requests, each armed by the callback of the one
    before. */
module FileReadChain {
  import opened ReadCommand
  import opened Wrappers

  type Byte = b: int | 0 <= b < 256

  const UV_EOF := -4095

  /** A uv_fs_read() that libuv has accepted: where it reads, the buffer it reads into and that buffer's length. */
  datatype Request = Request(offset: nat, buf: nat, len: nat)

  /** What one call of the read callback was given; buf is the buffer whose reference went with it. */
  datatype Chunk = Chunk(offset: nat, bytes: seq<Byte>, buf: nat)

  /** What the file endpoint stores, the requests libuv holds, and the ledger of the buffer references: the buffers
      allocated so far are 0..next, `handed` of them went to the callback, `released` were given back by the chain,
      `leaked` were lost with a request that libuv did not accept. The chunks are those delivered since the last
      read_start(), which began at `begin`; broken tells that the last attempt to arm the chain failed. */
  datatype Rd = Rd(cmd: RdCmd, size: nat, offset: nat, buf: Option<nat>, requests: seq<Request>,
                   next: nat, handed: nat, released: nat, leaked: nat,
                   begin: nat, chunks: seq<Chunk>, broken: bool)

  /** A command, with the length of the buffer that the allocation callback is going to return if the command asks for
      one and the result that uv_fs_read() is going to give; at is the starting offset, asked for or found. */
  datatype FileCommand =
    | FileStart(size: nat, at: nat, len: nat, ret: int)
    | FileStop
    | FilePause(condition: bool)
    | FileResume(condition: bool, len: nat, ret: int)

  ghost function AsCommand(c: FileCommand): Command {
    match c
    case FileStart(size, _, _, ret) => Start(size, true, ret, 0)
    case FileStop => Stop(0)
    case FilePause(condition) => Pause(condition, 0)
    case FileResume(condition, _, ret) => Resume(condition, ret)
  }

  /** A request for the bytes at the current offset, into a new buffer. */
  ghost function Armed(s: Rd, len: nat, ret: int): Rd {
    var t := s.(next := s.next + 1, buf := Some(s.next), broken := ret < 0);
    if ret < 0 then t.(leaked := s.leaked + 1)
    else t.(requests := s.requests + [Request(s.offset, s.next, len)])
  }

  /** A command: the stored state is the one of the command table; starting and resuming arm the chain. */
  ghost function Do(s: Rd, c: FileCommand): Rd {
    var t := s.(cmd := Next(s.cmd, AsCommand(c)));
    match Table(s.cmd, AsCommand(c))
    case DoStart => Armed(t.(size := c.size, offset := c.at, begin := c.at, chunks := []), c.len, c.ret)
    case DoRestart => Armed(t.(size := c.size, offset := c.at, begin := c.at, chunks := []), c.len, c.ret)
    case DoResume => Armed(t, c.len, c.ret)
    case _ => t
  }

  ghost function DoAll(s: Rd, cs: seq<FileCommand>): Rd {
    if cs == [] then s else Do(DoAll(s, cs[..|cs| - 1]), cs[|cs| - 1])
  }

  ghost function Without(rs: seq<Request>, i: nat): seq<Request>
    requires i < |rs|
  {
    rs[..i] + rs[i + 1..]
  }

  /** What the callback sees of a completed request: with data a chunk, with an error or at the end of file no
      buffer. */
  ghost function Delivered(s: Rd, i: nat, data: seq<Byte>): Rd
    requires i < |s.requests|
  {
    var t := s.(requests := Without(s.requests, i));
    if data == [] then t.(released := s.released + 1, buf := None)
    else t.(handed := s.handed + 1,
            chunks := s.chunks + if s.buf.Some? then [Chunk(s.offset, data, s.buf.value)] else [])
  }

  /** The end of read_cb(): a reading state arms the chain again. */
  ghost function Rearmed(s: Rd, len: nat, ret: int): Rd {
    if Reading(s.cmd) then Armed(s, len, ret) else s
  }

  /** The completion of request i with this data, the commands the callback gives, the advance of the offset past the
      data, and the next arming. */
  ghost function Completed(s: Rd, i: nat, data: seq<Byte>, inside: seq<FileCommand>, len: nat, ret: int): Rd
    requires i < |s.requests|
  {
    var t := DoAll(Delivered(s, i, data), inside);
    Rearmed(t.(offset := t.offset + |data|), len, ret)
  }

  class File {
    var rdcmdState: RdCmd
    var rdsize: nat
    var rdoffset: nat
    var uvBuf: Option<nat>
    var requests: seq<Request>
    ghost var next: nat
    ghost var handed: nat
    ghost var released: nat
    ghost var leaked: nat
    ghost var begin: nat
    ghost var chunks: seq<Chunk>
    ghost var broken: bool

    ghost function Value(): Rd
      reads this
    {
      Rd(rdcmdState, rdsize, rdoffset, uvBuf, requests, next, handed, released, leaked, begin, chunks, broken)
    }

    constructor ()
      ensures Value() == NewFile()
    {
      rdcmdState, rdsize, rdoffset, uvBuf, requests := Unknown, 0, 0, None, [];
      next, handed, released, leaked, begin, chunks, broken := 0, 0, 0, 0, 0, [], false;
    }

    /** io_alloc_cb() takes a reference for the callback that is to come; the buffer is known by its number. */
    method IoAlloc(buf: nat)
      requires buf == next
      modifies this`uvBuf, this`next
      ensures uvBuf == Some(buf) && next == old(next) + 1
    {
      uvBuf := Some(buf);
      next := next + 1;
    }

    method FileRead(buf: nat, len: nat, result: int) returns (ret: int)
      requires buf == next
      modifies this
      ensures Value() == Armed(old(Value()), len, result) && ret == result
    {
      IoAlloc(buf);
      ret := result;
      broken := ret < 0;
      if ret >= 0 {
        requests := requests + [Request(rdoffset, buf, len)];
      } else {
        leaked := leaked + 1;
      }
    }

    /** A negative offset stands for the current position in the file. */
    method UvReadStart(offset: int, position: nat, buf: nat, len: nat, result: int) returns (ret: int)
      requires buf == next
      modifies this
      ensures ret == result
      ensures Value() == Armed(old(Value()).(offset := if offset < 0 then position else offset), len, result)
    {
      rdoffset := if offset < 0 then position else offset;
      ret := FileRead(buf, len, result);
    }

    method ReadStart(size: nat, offset: int, position: nat, buf: nat, len: nat, result: int) returns (ret: int)
      requires buf == next
      modifies this
      ensures Value() == Do(old(Value()), FileStart(size, if offset < 0 then position else offset, len, result))
      ensures ret == result
    {
      rdcmdState := Started;
      rdsize := size;
      begin, chunks := if offset < 0 then position else offset, [];
      ret := UvReadStart(offset, position, buf, len, result);
      if ret < 0 {
        rdcmdState := Unknown;
      }
    }

    method ReadStop()
      modifies this
      ensures Value() == Do(old(Value()), FileStop)
    {
      rdcmdState := Stopped;
    }

    method ReadPause(condition: bool)
      modifies this
      ensures Value() == Do(old(Value()), FilePause(condition))
    {
      if condition {
        match rdcmdState {
          case Unknown | Stopped | Paused =>
          case Started | Resumed => rdcmdState := Paused;
        }
      }
    }

    method ReadResume(condition: bool, buf: nat, len: nat, result: int)
      requires buf == next
      modifies this
      ensures Value() == Do(old(Value()), FileResume(condition, len, result))
    {
      if condition {
        match rdcmdState {
          case Unknown | Stopped | Started | Resumed =>
          case Paused =>
            rdcmdState := Resumed;
            var ret := UvReadStart(rdoffset, 0, buf, len, result);
            if ret < 0 {
              rdcmdState := Unknown;
            }
        }
      }
    }

    /** The part of read_cb() that comes before the callback of the user: the request is done, and an unused buffer is
        given back. */
    method Deliver(i: nat, result: int, ghost data: seq<Byte>) returns (nread: int)
      requires i < |requests| && |data| == if result < 0 then 0 else result
      modifies this
      ensures Value() == Delivered(old(Value()), i, data)
      ensures nread == if result == 0 then UV_EOF else result
    {
      nread := if result == 0 then UV_EOF else result;
      requests := requests[..i] + requests[i + 1..];
      if nread < 0 {
        released := released + 1;
        uvBuf := None;
      } else {
        handed := handed + 1;
        chunks := chunks + if uvBuf.Some? then [Chunk(rdoffset, data, uvBuf.value)] else [];
      }
    }

    /** The part that comes after it. */
    method Advance(nread: int, buf: nat, len: nat, ret: int)
      requires buf == next
      modifies this
      ensures var n := if nread > 0 then nread else 0;
        Value() == Rearmed(old(Value()).(offset := old(rdoffset) + n), len, ret)
    {
      if nread > 0 {
        rdoffset := rdoffset + nread;
      }
      match rdcmdState {
        case Unknown | Stopped | Paused =>
        case Started | Resumed =>
          var _ := FileRead(buf, len, ret);
      }
    }

    /** A callback of the user that stops or pauses the reading, as those of tee and cpio do. */
    method UserCallback(stop: bool, pause: bool)
      modifies this
      ensures Value() == DoAll(old(Value()), InCallback(stop, pause))
    {
      InCallbackDoes(Value(), stop, pause);
      if stop {
        ReadStop();
      }
      ReadPause(pause);
    }

    method ReadCb(i: nat, result: int, ghost data: seq<Byte>, stop: bool, pause: bool, buf: nat, len: nat, ret: int)
      requires i < |requests| && |data| == (if result < 0 then 0 else result) && buf == next
      modifies this
      ensures Value() == Completed(old(Value()), i, data, InCallback(stop, pause), len, ret)
    {
      ghost var was := Value();
      var nread := Deliver(i, result, data);
      ghost var seen := Value();
      UserCallback(stop, pause);
      InCallbackDoes(seen, stop, pause);
      Advance(nread, buf, len, ret);
    }
  }

  ghost function InCallback(stop: bool, pause: bool): seq<FileCommand> {
    (if stop then [FileStop] else []) + [FilePause(pause)]
  }

  lemma InCallbackDoes(s: Rd, stop: bool, pause: bool)
    ensures DoAll(s, InCallback(stop, pause)) == Do(if stop then Do(s, FileStop) else s, FilePause(pause))
  {
    var cs := InCallback(stop, pause);
    var pre := cs[..|cs| - 1];
    assert pre == if stop then [FileStop] else [];
    if stop {
      assert pre[..0] == [];
      assert DoAll(s, pre) == Do(DoAll(s, []), FileStop);
    }
  }

  ghost function NewFile(): Rd {
    Rd(Unknown, 0, 0, None, [], 0, 0, 0, 0, 0, [], false)
  }

  // ---- runs

  /** A command outside the callback, or the completion of request i with a result. */
  datatype Step =
    | Command(c: FileCommand)
    | Complete(i: nat, result: int, inside: seq<FileCommand>, len: nat, ret: int)

  /** The bytes that a request with this result has read. */
  ghost function DataAt(file: seq<Byte>, offset: nat, result: int): seq<Byte> {
    if result > 0 && offset + result <= |file| then file[offset..offset + result] else []
  }

  /** What libuv may answer: an error, or a positive number of bytes that are there, or 0 at the end of the file. */
  ghost predicate Answers(file: seq<Byte>, r: Request, result: int) {
    result < 0 || (result <= r.len && if result == 0 then r.offset >= |file| else r.offset + result <= |file|)
  }

  ghost predicate Quiet(c: FileCommand) {
    c.FileStop? || c.FilePause?
  }

  /** A start, or a resume that libuv accepts, unless the command table refuses it. */
  ghost predicate Arms(s: Rd, c: FileCommand) {
    !Table(s.cmd, AsCommand(c)).Refused? && (c.FileStart? || (c.FileResume? && c.ret >= 0))
  }

  /** None of these commands arms the chain in the state in which it is given. */
  ghost predicate Gentle(s: Rd, cs: seq<FileCommand>) {
    cs == [] || (Gentle(s, cs[..|cs| - 1]) && !Arms(DoAll(s, cs[..|cs| - 1]), cs[|cs| - 1]))
  }

  ghost function Seen(file: seq<Byte>, s: Rd, i: nat, result: int): Rd
    requires i < |s.requests|
  {
    Delivered(s, i, DataAt(file, s.requests[i].offset, result))
  }

  /** A start or an effective resume is given only when no request is out. */
  ghost predicate Fits(s: Rd, c: FileCommand) {
    Quiet(c) || s.requests == [] || Table(s.cmd, AsCommand(c)).Refused?
  }

  /** Each of these commands fits the state in which it is given. */
  ghost predicate Orderly(s: Rd, cs: seq<FileCommand>) {
    cs == [] || (Orderly(s, cs[..|cs| - 1]) && Fits(DoAll(s, cs[..|cs| - 1]), cs[|cs| - 1]))
  }

  /** How the endpoint is to be used: commands fit; inside a callback with data none of them arms the chain; and inside
      one without data they may, if no request is out at its end in a reading state, which arms the chain again. */
  ghost predicate Enabled(file: seq<Byte>, s: Rd, a: Step) {
    match a
    case Command(c) => Fits(s, c)
    case Complete(i, result, inside, _, _) =>
      && i < |s.requests| && Answers(file, s.requests[i], result)
      && if result > 0 then Gentle(Seen(file, s, i, result), inside)
         else InOrderAtEnd(Seen(file, s, i, result), inside)
  }

  ghost predicate InOrderAtEnd(s: Rd, cs: seq<FileCommand>) {
    Orderly(s, cs) && (Reading(DoAll(s, cs).cmd) ==> DoAll(s, cs).requests == [])
  }

  ghost function Apply(file: seq<Byte>, s: Rd, a: Step): Rd
    requires a.Complete? ==> a.i < |s.requests|
  {
    match a
    case Command(c) => Do(s, c)
    case Complete(i, result, inside, len, ret) =>
      Completed(s, i, DataAt(file, s.requests[i].offset, result), inside, len, ret)
  }

  ghost predicate Runs(file: seq<Byte>, s: Rd, run: seq<Step>, s': Rd)
    decreases run
  {
    if run == [] then s' == s
    else Enabled(file, s, run[0]) && Runs(file, Apply(file, s, run[0]), run[1..], s')
  }

  // ---- what every run keeps

  ghost function Joined(cs: seq<Chunk>): seq<Byte> {
    if cs == [] then [] else Joined(cs[..|cs| - 1]) + cs[|cs| - 1].bytes
  }

  /** Each chunk starts where the one before ended, the first at `begin`; no buffer is handed over twice. */
  ghost predicate Contiguous(begin: nat, cs: seq<Chunk>, next: int) {
    cs != [] ==>
      && var last, before := cs[|cs| - 1], cs[..|cs| - 1];
      last.offset == begin + |Joined(before)| && last.buf < next && Contiguous(begin, before, last.buf)
  }

  /** At most one request, for the current offset and into the stored buffer; every allocated buffer is with the
      callback, given back, lost, or with the request. */
  ghost predicate Pending(s: Rd) {
    && |s.requests| <= 1
    && (s.requests != [] ==>
          !s.broken && s.requests[0].offset == s.offset && s.buf == Some(s.requests[0].buf) &&
          s.requests[0].buf == s.next - 1)
    && s.next == s.handed + s.released + s.leaked + |s.requests|
  }

  /** In a reading state there is a request unless the chain is broken. */
  ghost predicate OneRequest(s: Rd) {
    Pending(s) && (Reading(s.cmd) && !s.broken ==> s.requests != [])
  }

  /** The chunks are contiguous and are the bytes of the file from `begin` to the offset. */
  ghost predicate Faithful(file: seq<Byte>, begin: nat, offset: nat, cs: seq<Chunk>, next: int) {
    && Contiguous(begin, cs, next)
    && offset == begin + |Joined(cs)|
    && (cs != [] ==> offset <= |file| && Joined(cs) == file[begin..offset])
  }

  ghost predicate Inv(file: seq<Byte>, s: Rd) {
    OneRequest(s) && Faithful(file, s.begin, s.offset, s.chunks, s.next - |s.requests|)
  }

  /** While a callback runs: the same, whatever is stored as the command. */
  ghost predicate Between(file: seq<Byte>, s: Rd) {
    Pending(s) && Faithful(file, s.begin, s.offset, s.chunks, s.next - |s.requests|)
  }

  /** Between a completed request and the next arming. */
  ghost predicate NoRequest(file: seq<Byte>, s: Rd) {
    s.requests == [] && Between(file, s)
  }

  lemma {:induction false} ContiguousGrows(begin: nat, cs: seq<Chunk>, next: int, more: int)
    requires Contiguous(begin, cs, next) && next <= more
    ensures Contiguous(begin, cs, more)
  {
  }

  lemma QuietKeeps(s: Rd, c: FileCommand)
    requires Quiet(c) || Table(s.cmd, AsCommand(c)).Refused?
    ensures Do(s, c) == s.(cmd := Do(s, c).cmd) && (Reading(Do(s, c).cmd) ==> Reading(s.cmd))
  {
  }

  /** The same, up to the stored command, as arming the chain at the offset that the command asks for. */
  lemma ArmingCommand(s: Rd, c: FileCommand)
    requires !Quiet(c) && !Table(s.cmd, AsCommand(c)).Refused?
    ensures var t := if c.FileStart? then s.(size := c.size, offset := c.at, begin := c.at, chunks := []) else s;
      && Do(s, c) == Armed(t, c.len, c.ret).(cmd := Do(s, c).cmd)
  {
  }

  lemma FitsKeeps(file: seq<Byte>, s: Rd, c: FileCommand)
    requires Between(file, s) && Fits(s, c)
    ensures Between(file, Do(s, c))
    ensures Inv(file, s) ==> Inv(file, Do(s, c))
  {
    if Quiet(c) || Table(s.cmd, AsCommand(c)).Refused? {
      QuietKeeps(s, c);
    } else {
      ArmingCommand(s, c);
      var t := if c.FileStart? then s.(size := c.size, offset := c.at, begin := c.at, chunks := []) else s;
      ArmedKeeps(file, t, c.len, c.ret);
    }
  }

  lemma {:induction false} OrderlyKeeps(file: seq<Byte>, s: Rd, cs: seq<FileCommand>)
    requires Between(file, s) && Orderly(s, cs)
    ensures Between(file, DoAll(s, cs))
  {
    if cs != [] {
      OrderlyKeeps(file, s, cs[..|cs| - 1]);
      FitsKeeps(file, DoAll(s, cs[..|cs| - 1]), cs[|cs| - 1]);
    }
  }

  /** Commands that do not arm the chain change the stored command; a resume that libuv refuses also loses a buffer. */
  ghost predicate Unarmed(s: Rd, t: Rd) {
    && t == s.(cmd := t.cmd, buf := t.buf, next := t.next, leaked := t.leaked, broken := t.broken)
    && t.next - s.next == t.leaked - s.leaked >= 0
  }

  lemma UnarmedStep(s: Rd, t: Rd, c: FileCommand)
    requires Unarmed(s, t) && !Arms(t, c)
    ensures Unarmed(s, Do(t, c))
  {
  }

  lemma {:induction false} GentleAll(s: Rd, cs: seq<FileCommand>)
    requires Gentle(s, cs)
    ensures Unarmed(s, DoAll(s, cs))
  {
    if cs != [] {
      GentleAll(s, cs[..|cs| - 1]);
      UnarmedStep(s, DoAll(s, cs[..|cs| - 1]), cs[|cs| - 1]);
    }
  }

  lemma ChunkAppended(begin: nat, cs: seq<Chunk>, c: Chunk)
    requires Contiguous(begin, cs, c.buf) && c.offset == begin + |Joined(cs)|
    ensures Contiguous(begin, cs + [c], c.buf + 1) && Joined(cs + [c]) == Joined(cs) + c.bytes
  {
    assert (cs + [c])[..|cs|] == cs;
  }

  /** Chunks that are the bytes of the file up to an offset, and the next n bytes. */
  lemma ReadOn(file: seq<Byte>, begin: nat, offset: nat, cs: seq<Chunk>, buf: nat, n: nat)
    requires Faithful(file, begin, offset, cs, buf) && offset + n <= |file|
    ensures Faithful(file, begin, offset + n, cs + [Chunk(offset, file[offset..offset + n], buf)], buf + 1)
  {
    ChunkAppended(begin, cs, Chunk(offset, file[offset..offset + n], buf));
    assert Joined(cs) == file[begin..offset];
    assert file[begin..offset] + file[offset..offset + n] == file[begin..offset + n];
  }

  /** A completed request, and the offset moved past its data. */
  ghost function Moved(file: seq<Byte>, s: Rd, result: int): Rd
    requires s.next > 0
  {
    if result > 0 then
      var c := Chunk(s.offset, DataAt(file, s.offset, result), s.next - 1);
      s.(requests := [], offset := s.offset + result, handed := s.handed + 1, chunks := s.chunks + [c])
    else s.(requests := [], released := s.released + 1, buf := None)
  }

  lemma ArmedKeeps(file: seq<Byte>, s: Rd, len: nat, ret: int)
    requires NoRequest(file, s)
    ensures Inv(file, Armed(s, len, ret))
  {
    ContiguousGrows(s.begin, s.chunks, s.next, s.next + 1);
  }

  lemma DataMovedKeeps(file: seq<Byte>, s: Rd, n: nat)
    requires Inv(file, s) && s.requests != [] && n > 0 && s.offset + n <= |file|
    ensures NoRequest(file, Moved(file, s, n))
  {
    ReadOn(file, s.begin, s.offset, s.chunks, s.next - 1, n);
  }

  lemma MovedKeeps(file: seq<Byte>, s: Rd, result: int)
    requires Inv(file, s) && s.requests != [] && Answers(file, s.requests[0], result)
    ensures NoRequest(file, Moved(file, s, result))
  {
    if result > 0 {
      DataMovedKeeps(file, s, result);
    } else {
      ContiguousGrows(s.begin, s.chunks, s.next - 1, s.next);
    }
  }

  lemma MovedIs(file: seq<Byte>, s: Rd, result: int)
    requires OneRequest(s) && s.requests != [] && Answers(file, s.requests[0], result)
    ensures var seen, d := Seen(file, s, 0, result), DataAt(file, s.offset, result);
      seen.(offset := seen.offset + |d|) == Moved(file, s, result)
  {
    assert Without(s.requests, 0) == [];
  }

  lemma UnarmedKeeps(file: seq<Byte>, s: Rd, t: Rd)
    requires NoRequest(file, s) && Unarmed(s, t)
    ensures NoRequest(file, t)
  {
    ContiguousGrows(s.begin, s.chunks, s.next, t.next);
  }

  lemma RearmedKeeps(file: seq<Byte>, s: Rd, len: nat, ret: int)
    requires NoRequest(file, s)
    ensures Inv(file, Rearmed(s, len, ret))
  {
    ArmedKeeps(file, s, len, ret);
  }

  /** The one request completed, with a callback that does not arm the chain, up to the next arming. */
  lemma CompletedIs(file: seq<Byte>, s: Rd, a: Step) returns (u: Rd)
    requires OneRequest(s) && a.Complete? && Enabled(file, s, a) && a.result > 0
    ensures Unarmed(Moved(file, s, a.result), u) && Apply(file, s, a) == Rearmed(u, a.len, a.ret)
  {
    var seen, d := Seen(file, s, 0, a.result), DataAt(file, s.offset, a.result);
    var t := DoAll(seen, a.inside);
    MovedIs(file, s, a.result);
    GentleAll(seen, a.inside);
    u := t.(offset := t.offset + |d|);
    assert Apply(file, s, a) == Completed(s, 0, d, a.inside, a.len, a.ret);
  }

  lemma CompleteKeeps(file: seq<Byte>, s: Rd, a: Step)
    requires Inv(file, s) && a.Complete? && Enabled(file, s, a)
    ensures Inv(file, Apply(file, s, a))
  {
    MovedKeeps(file, s, a.result);
    if a.result > 0 {
      var u := CompletedIs(file, s, a);
      UnarmedKeeps(file, Moved(file, s, a.result), u);
      RearmedKeeps(file, u, a.len, a.ret);
    } else {
      EndKeeps(file, s, a);
    }
  }

  /** Without data the offset stays, and the commands inside are like commands outside. */
  lemma EndKeeps(file: seq<Byte>, s: Rd, a: Step)
    requires Inv(file, s) && a.Complete? && Enabled(file, s, a) && a.result <= 0
    ensures Inv(file, Apply(file, s, a))
  {
    var seen := Seen(file, s, 0, a.result);
    EndIs(file, s, a.result, a.inside);
    var t := DoAll(seen, a.inside);
    OrderlyKeeps(file, seen, a.inside);
    if Reading(t.cmd) {
      RearmedKeeps(file, t, a.len, a.ret);
    }
  }

  lemma EndIs(file: seq<Byte>, s: Rd, result: int, inside: seq<FileCommand>)
    requires Inv(file, s) && s.requests != [] && Answers(file, s.requests[0], result) && result <= 0
    ensures NoRequest(file, Seen(file, s, 0, result))
    ensures var t := DoAll(Seen(file, s, 0, result), inside); var d := DataAt(file, s.requests[0].offset, result);
      forall len: nat, ret :: Completed(s, 0, d, inside, len, ret) == Rearmed(t, len, ret)
  {
    MovedIs(file, s, result);
    MovedKeeps(file, s, result);
    var t := DoAll(Seen(file, s, 0, result), inside);
    assert t.(offset := t.offset + 0) == t;
  }

  lemma {:induction false} RunKeeps(file: seq<Byte>, s: Rd, run: seq<Step>, s': Rd)
    requires Inv(file, s) && Runs(file, s, run, s')
    ensures Inv(file, s')
    decreases run
  {
    if run != [] {
      match run[0] {
        case Command(c) => FitsKeeps(file, s, c);
        case Complete(_, _, _, _, _) => CompleteKeeps(file, s, run[0]);
      }
      RunKeeps(file, Apply(file, s, run[0]), run[1..], s');
    }
  }

  // ---- main results

  /** In every run, whatever is paused, resumed, stopped and started and whatever libuv answers: at most one request is
      out; the chunks since the last start are contiguous and are exactly the bytes of the file that they cover. */
  lemma EveryRun(file: seq<Byte>, run: seq<Step>, s: Rd)
    requires Runs(file, NewFile(), run, s)
    ensures |s.requests| <= 1
    ensures Contiguous(s.begin, s.chunks, s.next)
    ensures s.offset == s.begin + |Joined(s.chunks)|
    ensures s.chunks != [] ==> s.offset <= |file| && Joined(s.chunks) == file[s.begin..s.offset]
    ensures s.next == s.handed + s.released + s.leaked + |s.requests|
    ensures Reading(s.cmd) ==> (s.broken <==> s.requests == [])
  {
    RunKeeps(file, NewFile(), run, s);
    ContiguousGrows(s.begin, s.chunks, s.next - |s.requests|, s.next);
  }

  /** Pausing and resuming do not show in the data: of two runs over a file that started at the same offset, one has
      read a prefix of what the other has read, and both the same if they have come to the same offset. */
  lemma SameBytes(file: seq<Byte>, run1: seq<Step>, s1: Rd, run2: seq<Step>, s2: Rd)
    requires Runs(file, NewFile(), run1, s1) && Runs(file, NewFile(), run2, s2) && s1.begin == s2.begin
    ensures s1.offset <= s2.offset ==> Joined(s1.chunks) <= Joined(s2.chunks)
    ensures s1.offset == s2.offset ==> Joined(s1.chunks) == Joined(s2.chunks)
  {
    EveryRun(file, run1, s1);
    EveryRun(file, run2, s2);
  }

  // ---- what the operations do

  /** To arm the chain allocates the next buffer. If libuv accepts, a read of it at the current offset is out behind the
      others; if not, the buffer is lost and the chain is broken. */
  lemma ArmEffects(s: Rd, len: nat, ret: int)
    ensures var t := Armed(s, len, ret);
      && t.buf == Some(s.next) && t.next == s.next + 1 && t.broken == (ret < 0)
      && t.requests == (if ret < 0 then s.requests else s.requests + [Request(s.offset, s.next, len)])
      && t.leaked == s.leaked + (if ret < 0 then 1 else 0)
      && t.offset == s.offset && t.cmd == s.cmd && t.size == s.size && t.begin == s.begin && t.chunks == s.chunks
      && t.handed == s.handed && t.released == s.released
  {
  }

  /** A start stores the size and the offset, begins a new session there and arms the chain, and without success
      there is no command any more. */
  lemma StartEffects(s: Rd, size: nat, at: nat, len: nat, ret: int)
    ensures var t := Do(s, FileStart(size, at, len, ret));
      && t.cmd == (if ret < 0 then Unknown else Started) && t.size == size && t.offset == at && t.begin == at
      && t.chunks == [] && t.next == s.next + 1 && t.buf == Some(s.next)
      && t.requests == (if ret < 0 then s.requests else s.requests + [Request(at, s.next, len)])
  {
  }

  /** A stop and a pause of a reading endpoint store themselves and nothing else. A resume after a pause stores
      itself and arms the chain at the offset where it is, and without success there is no command any more.
      Otherwise a pause and a resume change nothing. */
  lemma CommandEffects(s: Rd, c: FileCommand)
    requires !c.FileStart?
    ensures c.FileStop? ==> Do(s, c) == s.(cmd := Stopped)
    ensures c.FilePause? ==>
      Do(s, c) == if c.condition && (s.cmd == Started || s.cmd == Resumed) then s.(cmd := Paused) else s
    ensures c.FileResume? && !(c.condition && s.cmd == Paused) ==> Do(s, c) == s
    ensures c.FileResume? && c.condition && s.cmd == Paused ==>
      var t := Do(s, c);
      && t.cmd == (if c.ret < 0 then Unknown else Resumed) && t.offset == s.offset && t.size == s.size
      && t.chunks == s.chunks && t.begin == s.begin && t.next == s.next + 1 && t.buf == Some(s.next)
      && t.requests == (if c.ret < 0 then s.requests else s.requests + [Request(s.offset, s.next, c.len)])
  {
  }

  /** The completion of the read that is out, with a callback that gives no commands: with data, one chunk more, of
      the bytes of the file at the offset, in the buffer of the read, and the offset behind them; without, the
      buffer is given back. In a reading state the next read goes out at the new offset, if libuv accepts it. */
  lemma CompletionEffects(file: seq<Byte>, s: Rd, result: int, len: nat, ret: int)
    requires OneRequest(s) && s.requests != [] && Answers(file, s.requests[0], result)
    ensures var t := Apply(file, s, Complete(0, result, [], len, ret)); var q := s.requests[0];
      && (result > 0 ==> t.chunks == s.chunks + [Chunk(q.offset, file[q.offset..q.offset + result], q.buf)])
      && (result > 0 ==> t.offset == s.offset + result && t.handed == s.handed + 1 && t.released == s.released)
      && (result <= 0 ==> t.chunks == s.chunks && t.offset == s.offset)
      && (result <= 0 ==> t.handed == s.handed && t.released == s.released + 1)
      && t.requests == (if Reading(s.cmd) && ret >= 0 then [Request(t.offset, s.next, len)] else [])
      && t.cmd == s.cmd && t.size == s.size && t.begin == s.begin
  {
    var seen := Seen(file, s, 0, result);
    assert seen.requests == [] && DoAll(seen, []) == seen;
  }

  // ---- the usage condition is exact

  /** Outside the callback, a command keeps what every run keeps if and only if it meets the condition. */
  lemma CommandExact(file: seq<Byte>, s: Rd, c: FileCommand)
    requires Inv(file, s)
    ensures Inv(file, Do(s, c)) <==> Enabled(file, s, Command(c))
  {
    if Enabled(file, s, Command(c)) {
      FitsKeeps(file, s, c);
    } else {
      ArmingCommand(s, c);
    }
  }

  /** While n bytes are being delivered: the chain has been armed at the offset before them, or the offset and the
      chunks do not belong together any more. */
  ghost predicate Spoilt(t: Rd, n: nat) {
    t.offset + n != t.begin + |Joined(t.chunks)| || (t.requests != [] && t.requests[0].offset == t.offset)
  }

  lemma SpoiltStays(t: Rd, n: nat, c: FileCommand)
    requires Spoilt(t, n) && n > 0
    ensures Spoilt(Do(t, c), n)
  {
    if Quiet(c) || Table(t.cmd, AsCommand(c)).Refused? {
      QuietKeeps(t, c);
    } else {
      ArmingCommand(t, c);
    }
  }

  lemma ArmingSpoils(t: Rd, n: nat, c: FileCommand)
    requires Arms(t, c) && n > 0 && t.requests == []
    ensures Spoilt(Do(t, c), n)
  {
    ArmingCommand(t, c);
  }

  lemma {:induction false} NotGentleSpoils(s: Rd, n: nat, cs: seq<FileCommand>)
    requires s.requests == [] && n > 0 && !Gentle(s, cs)
    ensures Spoilt(DoAll(s, cs), n)
  {
    var before, c := cs[..|cs| - 1], cs[|cs| - 1];
    if Gentle(s, before) {
      GentleAll(s, before);
      ArmingSpoils(DoAll(s, before), n, c);
    } else {
      NotGentleSpoils(s, n, before);
      SpoiltStays(DoAll(s, before), n, c);
    }
  }

  lemma SpoiltEnds(file: seq<Byte>, t: Rd, n: nat, len: nat, ret: int)
    requires Spoilt(t, n) && n > 0
    ensures !Inv(file, Rearmed(t.(offset := t.offset + n), len, ret))
  {
  }

  /** A request is out that is not the last attempt to arm the chain. */
  ghost predicate Overtaken(t: Rd) {
    |t.requests| > 1 || (t.requests != [] && t.requests[0].buf < t.next - 1)
  }

  lemma OvertakenStays(t: Rd, c: FileCommand)
    requires Overtaken(t)
    ensures Overtaken(Do(t, c))
  {
    if Quiet(c) || Table(t.cmd, AsCommand(c)).Refused? {
      QuietKeeps(t, c);
    } else {
      ArmingCommand(t, c);
    }
  }

  lemma {:induction false} NotOrderly(file: seq<Byte>, s: Rd, cs: seq<FileCommand>)
    requires Between(file, s) && !Orderly(s, cs)
    ensures Overtaken(DoAll(s, cs))
  {
    var before, c := cs[..|cs| - 1], cs[|cs| - 1];
    if Orderly(s, before) {
      OrderlyKeeps(file, s, before);
      ArmingCommand(DoAll(s, before), c);
    } else {
      NotOrderly(file, s, before);
      OvertakenStays(DoAll(s, before), c);
    }
  }

  lemma OvertakenEnds(file: seq<Byte>, t: Rd, len: nat, ret: int)
    requires Overtaken(t) || (Between(file, t) && Reading(t.cmd) && t.requests != [])
    ensures !Inv(file, Rearmed(t, len, ret))
  {
  }

  lemma EndExact(file: seq<Byte>, s: Rd, result: int, inside: seq<FileCommand>, len: nat, ret: int)
    requires Inv(file, s) && s.requests != [] && Answers(file, s.requests[0], result) && result <= 0
    ensures var a := Complete(0, result, inside, len, ret);
      Inv(file, Apply(file, s, a)) <==> Enabled(file, s, a)
  {
    var seen, a := Seen(file, s, 0, result), Complete(0, result, inside, len, ret);
    if Enabled(file, s, a) {
      CompleteKeeps(file, s, a);
    } else {
      EndIs(file, s, result, inside);
      if Orderly(seen, inside) {
        OrderlyKeeps(file, seen, inside);
      } else {
        NotOrderly(file, seen, inside);
      }
      OvertakenEnds(file, DoAll(seen, inside), len, ret);
    }
  }

  lemma DataExact(file: seq<Byte>, s: Rd, result: int, inside: seq<FileCommand>, len: nat, ret: int)
    requires Inv(file, s) && s.requests != [] && Answers(file, s.requests[0], result) && result > 0
    ensures var a := Complete(0, result, inside, len, ret);
      Inv(file, Apply(file, s, a)) <==> Enabled(file, s, a)
  {
    var seen, a := Seen(file, s, 0, result), Complete(0, result, inside, len, ret);
    if Gentle(seen, inside) {
      CompleteKeeps(file, s, a);
    } else {
      MovedIs(file, s, result);
      NotGentleSpoils(seen, result, inside);
      SpoiltEnds(file, DoAll(seen, inside), result, len, ret);
    }
  }

  /** Inside a callback, commands keep what every run keeps if and only if they meet the condition: with data none of
      them arms the chain; at the end of the file or with an error each of them fits, and no request is out at the end
      in a reading state. */
  lemma CallbackExact(file: seq<Byte>, s: Rd, result: int, inside: seq<FileCommand>, len: nat, ret: int)
    requires Inv(file, s) && s.requests != [] && Answers(file, s.requests[0], result)
    ensures var t := Apply(file, s, Complete(0, result, inside, len, ret)); var seen := Seen(file, s, 0, result);
      Inv(file, t) <==> if result > 0 then Gentle(seen, inside) else InOrderAtEnd(seen, inside)
  {
    if result > 0 {
      DataExact(file, s, result, inside, len, ret);
    } else {
      EndExact(file, s, result, inside, len, ret);
    }
  }

  // ---- a broken chain

  ghost predicate NeitherStartsNorPauses(run: seq<Step>) {
    forall i :: 0 <= i < |run| && run[i].Command? ==> !run[i].c.FileStart? && run[i].c != FilePause(true)
  }

  lemma {:induction false} BrokenStays(file: seq<Byte>, s: Rd, run: seq<Step>, s': Rd)
    requires s.requests == [] && s.cmd != Paused && Runs(file, s, run, s') && NeitherStartsNorPauses(run)
    ensures s' == s.(cmd := s'.cmd) && (s'.cmd == s.cmd || s'.cmd == Stopped)
    decreases run
  {
    if run != [] {
      var t := Apply(file, s, run[0]);
      BrokenStep(s, run[0].c);
      BrokenStays(file, t, run[1..], s');
    }
  }

  lemma BrokenStep(s: Rd, c: FileCommand)
    requires s.cmd != Paused && !c.FileStart? && c != FilePause(true)
    ensures Do(s, c) == s.(cmd := Do(s, c).cmd) && (Do(s, c).cmd == s.cmd || Do(s, c).cmd == Stopped)
  {
  }

  /** Where libuv has refused to arm the chain again, the state stays a reading one with no read out; and so it does,
      whatever is resumed, until a start or a pause, or a stop. */
  lemma BrokenLasts(file: seq<Byte>, run: seq<Step>, s: Rd, more: seq<Step>, s': Rd)
    requires Runs(file, NewFile(), run, s) && Reading(s.cmd) && s.broken
    requires Runs(file, s, more, s') && NeitherStartsNorPauses(more)
    ensures s.requests == [] && s' == s.(cmd := s'.cmd) && (s'.cmd == s.cmd || s'.cmd == Stopped)
  {
    EveryRun(file, run, s);
    BrokenStays(file, s, more, s');
  }

  /** A state in which the first chunk of a session is about to be delivered. */
  ghost function FirstRequest(len: nat): Rd {
    Do(NewFile(), FileStart(0, 0, len, 0))
  }

  /** The callbacks of tee and cpio, which stop and pause, meet the condition. */
  lemma InCallbackIsGentle(s: Rd, stop: bool, pause: bool)
    ensures Gentle(s, InCallback(stop, pause))
  {
    var cs := InCallback(stop, pause);
    assert cs[..|cs| - 1] == if stop then [FileStop] else [];
    assert Gentle(s, []);
    assert [FileStop][..0] == [];
    assert Gentle(s, [FileStop]);
  }

  /** For instance, a pause and a resume inside a callback read the same offset again, and two requests are out. */
  lemma ResumeInsideCallback(file: seq<Byte>, n: nat)
    requires 0 < n <= |file|
    ensures var inside := [FilePause(true), FileResume(true, n, 0)];
      var s := Apply(file, FirstRequest(n), Complete(0, n, inside, n, 0));
      && |s.requests| == 2 && s.requests[0].offset == 0 && s.requests[1].offset == n && |s.chunks| == 1
      && s.chunks[|s.chunks| - 1].offset == 0
  {
    var inside := [FilePause(true), FileResume(true, n, 0)];
    var s := Delivered(FirstRequest(n), 0, file[..n]);
    assert inside[..1] == [FilePause(true)] && inside[..1][..0] == [];
    assert DoAll(s, inside[..1]) == Do(DoAll(s, []), FilePause(true)) == s.(cmd := Paused);
    assert DoAll(s, inside) == Do(s.(cmd := Paused), FileResume(true, n, 0));
  }

  /** A start inside the callback at the end of the file, or with an error, leaves two requests for one offset. */
  lemma StartAtEnd(file: seq<Byte>, result: int, len: nat)
    requires Answers(file, Request(0, 0, len), result) && result <= 0
    ensures var s := Apply(file, FirstRequest(len), Complete(0, result, [FileStart(0, 0, len, 0)], len, 0));
      |s.requests| == 2 && s.requests[0].offset == s.requests[1].offset == 0
  {
    var seen := Delivered(FirstRequest(len), 0, []);
    var c := FileStart(0, 0, len, 0);
    StartedAgain(seen, len);
    assert [c][..0] == [] && DoAll(seen, []) == seen && DoAll(seen, [c]) == Do(seen, c);
    assert DataAt(file, 0, result) == [];
  }

  lemma StartedAgain(s: Rd, len: nat)
    requires Reading(s.cmd) && s.requests == []
    ensures var t := Do(s, FileStart(0, 0, len, 0));
      Reading(t.cmd) && t.offset == 0 && t.requests == [Request(0, s.next, len)]
  {
  }

  /** A chain breaks where libuv refuses the next read. */
  lemma ChainBreaks(file: seq<Byte>, n: nat)
    requires 0 < n <= |file|
    ensures var s := Apply(file, FirstRequest(n), Complete(0, n, [], n, -1));
      Reading(s.cmd) && s.broken && s.requests == [] && s.leaked == 1
  {
    assert DoAll(Delivered(FirstRequest(n), 0, file[..n]), []) == Delivered(FirstRequest(n), 0, file[..n]);
  }

  /** And outside: a pause and a resume while a request is out leave two of them, for one offset. */
  lemma ResumeWhileReading(s: Rd, len: nat)
    requires Reading(s.cmd) && |s.requests| == 1 && s.requests[0].offset == s.offset
    ensures var t := Do(Do(s, FilePause(true)), FileResume(true, len, 0));
      |t.requests| == 2 && t.requests[0].offset == t.requests[1].offset
  {
  }
}

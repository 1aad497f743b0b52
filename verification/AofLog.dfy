/**
 The append only file as bytes: what feeding, flushing, and a background rewrite by a
 child process do to the buffers, the pipe between the processes, and the file.
 */
module AofLog {
  import opened Options
  import opened Bytes

  datatype Policy = FsyncNo | FsyncAlways | FsyncEverySec
  datatype Mode = Off | On | WaitRewrite

  /** How far the child is: it asks the parent to stop sending, is answered, and finishes. */
  datatype Phase = Rewriting | Asked | Acked | Finished | Dead

  /**
   A rewrite in progress. `base` is the compact log the child writes, `buffer` the
   parent's aof_rewrite_buf_blocks, `pipe` what travels, `diff` the child's
   aof_child_diff, `temp` the file the child leaves when it finishes.
   */
  datatype Child = Child(
    base: ByteString, buffer: ByteString, pipe: ByteString, diff: ByteString,
    stopSending: bool, phase: Phase, temp: ByteString)

  /**
   The server's fields. `file` is the content under the configured name, `disk` lists
   every content that file has had since it was last replaced as a whole.
   */
  datatype Aof = Aof(
    mode: Mode, fdOpen: bool, buf: ByteString, file: ByteString, disk: seq<ByteString>,
    currentSize: nat, selectedDb: int, child: Option<Child>,
    postponedStart: int, delayedFsync: nat, lastFsync: int, lastWriteOk: bool,
    rewriteBaseSize: nat, rewriteScheduled: bool, lastRewriteOk: bool, exited: bool)

  // ---------- feeding ----------

  /** The end of feedAppendOnlyFile: the encoded command goes to up to two buffers. */
  function Append(st: Aof, dictid: int, bytes: ByteString): Aof {
    st.(selectedDb := dictid,
        buf := if st.mode.On? then st.buf + bytes else st.buf,
        child := match st.child
                 case None => None
                 case Some(c) => Some(c.(buffer := c.buffer + bytes)))
  }

  // ---------- flushing ----------

  /**
   One call of flushAppendOnlyFile: its argument, the clock, whether a background fsync
   is pending, and what write (-1 for an error) and ftruncate will answer.
   */
  datatype FlushCall = FlushCall(
    force: bool, unixtime: int, syncPending: bool, nwritten: int, truncateOk: bool,
    noFsyncOnRewrite: bool, rdbChild: bool)

  predicate Postpones(st: Aof, policy: Policy, call: FlushCall) {
    && policy.FsyncEverySec? && !call.force && call.syncPending
    && (st.postponedStart == 0 || call.unixtime - st.postponedStart < 2)
  }

  /** The number of bytes write reports: -1, or at most what it was given. */
  function Written(st: Aof, call: FlushCall): (n: int)
    ensures -1 <= n <= |st.buf|
  {
    if call.nwritten < 0 then -1 else if call.nwritten > |st.buf| then |st.buf| else call.nwritten
  }

  /** The file right after the write: a crash may come before anything else is done. */
  function MidFlush(st: Aof, call: FlushCall): ByteString {
    if Written(st, call) > 0 then st.file + st.buf[..Written(st, call)] else st.file
  }

  function SetFile(st: Aof, content: ByteString): Aof {
    st.(file := content, disk := st.disk + [content])
  }

  /** What a flush does not touch. */
  predicate SameOtherwise(st: Aof, r: Aof) {
    r.mode == st.mode && r.fdOpen == st.fdOpen && r.selectedDb == st.selectedDb && r.child == st.child
  }

  /** The write went as far as it did; either way it is no longer postponed. */
  function AfterWrite(st: Aof, call: FlushCall): (r: Aof)
    ensures SameOtherwise(st, r) && r.buf == st.buf && r.postponedStart == 0
  {
    SetFile(st, MidFlush(st, call)).(postponedStart := 0)
  }

  /** A failed or short write: undo it if ftruncate can, else account for what got out. */
  function AfterFailure(wrote: Aof, policy: Policy, n: int, truncateOk: bool): (r: Aof)
    requires -1 <= n <= |wrote.buf|
    ensures SameOtherwise(wrote, r) && r.postponedStart == wrote.postponedStart
  {
    var undone := n >= 0 && truncateOk;
    var left := if undone then SetFile(wrote, wrote.file[..Min(wrote.currentSize, |wrote.file|)]) else wrote;
    if policy.FsyncAlways? then left.(exited := true)
    else
      var failed := left.(lastWriteOk := false);
      if !undone && n > 0 then failed.(currentSize := wrote.currentSize + n, buf := wrote.buf[n..]) else failed
  }

  /** A full write: the buffer is empty again, and fsync may be due. */
  function AfterSuccess(wrote: Aof, policy: Policy, call: FlushCall): (r: Aof)
    ensures SameOtherwise(wrote, r) && r.postponedStart == wrote.postponedStart
  {
    var done := wrote.(lastWriteOk := true, currentSize := wrote.currentSize + |wrote.buf|, buf := []);
    if call.noFsyncOnRewrite && (wrote.child.Some? || call.rdbChild) then done
    else if policy.FsyncAlways? || (policy.FsyncEverySec? && call.unixtime > wrote.lastFsync)
    then done.(lastFsync := call.unixtime)
    else done
  }

  /** The single write and what its result asks for. */
  function WriteBuffer(st: Aof, policy: Policy, call: FlushCall): (r: Aof)
    ensures SameOtherwise(st, r) && r.postponedStart == 0
  {
    var n := Written(st, call);
    var wrote := AfterWrite(st, call);
    if n != |st.buf| then AfterFailure(wrote, policy, n, call.truncateOk) else AfterSuccess(wrote, policy, call)
  }

  /** The write, with the bookkeeping of one that could wait no longer. */
  function AttemptWrite(st: Aof, policy: Policy, call: FlushCall): (r: Aof)
    ensures SameOtherwise(st, r) && r.postponedStart == 0
  {
    var late := policy.FsyncEverySec? && !call.force && call.syncPending;
    WriteBuffer(if late then st.(delayedFsync := st.delayedFsync + 1) else st, policy, call)
  }

  /** flushAppendOnlyFile */
  function Flush(st: Aof, policy: Policy, call: FlushCall): (r: Aof)
    ensures SameOtherwise(st, r)
  {
    if st.buf == [] then st
    else if Postpones(st, policy, call) then
      if st.postponedStart == 0 then st.(postponedStart := call.unixtime) else st
    else AttemptWrite(st, policy, call)
  }

  // ---------- the rewrite, step by step ----------

  /** The parent sends part of its buffer, unless it was asked to stop. */
  function ParentSend(c: Child, n: nat): Child {
    var k := Min(n, |c.buffer|);
    if c.stopSending then c else c.(buffer := c.buffer[k..], pipe := c.pipe + c.buffer[..k])
  }

  /** The child reads part of the pipe: while it rewrites, and again after the answer. */
  function ChildRead(c: Child, n: nat): Child {
    var k := Min(n, |c.pipe|);
    if c.phase.Rewriting? || c.phase.Acked? then c.(pipe := c.pipe[k..], diff := c.diff + c.pipe[..k]) else c
  }

  function ChildAsk(c: Child): Child { if c.phase.Rewriting? then c.(phase := Asked) else c }

  /** The parent reads the question, stops sending, and answers. */
  function ParentStop(c: Child): Child { if c.phase.Asked? then c.(stopSending := true) else c }

  function ChildHear(c: Child): Child { if c.phase.Asked? && c.stopSending then c.(phase := Acked) else c }

  /** Having read the pipe empty after the answer, the child completes its file. */
  function ChildFinish(c: Child): Child {
    if c.phase.Acked? && c.pipe == [] then c.(phase := Finished, temp := c.base + c.diff) else c
  }

  /** A write error, a timeout or a signal ends the child at any time before that. */
  function ChildFail(c: Child): Child { if c.phase.Finished? then c else c.(phase := Dead) }

  datatype ChildStep = Send(n: nat) | Read(n: nat) | Ask | Stop | Hear | Finish | Fail

  function StepChild(c: Child, step: ChildStep): Child {
    match step
    case Send(n) => ParentSend(c, n)
    case Read(n) => ChildRead(c, n)
    case Ask => ChildAsk(c)
    case Stop => ParentStop(c)
    case Hear => ChildHear(c)
    case Finish => ChildFinish(c)
    case Fail => ChildFail(c)
  }

  /** The fork: nothing was fed since, and the next command fed will carry its SELECT. */
  function Fork(st: Aof, base: ByteString): Aof {
    st.(selectedDb := -1, child := Some(Child(base, [], [], [], false, Rewriting, [])))
  }

  /** What open, the write of the parent's buffer, and rename will answer. */
  datatype DoneCall = DoneCall(openOk: bool, diffOk: bool, renameOk: bool)

  function Cleanup(st: Aof): Aof {
    st.(child := None, rewriteScheduled := st.rewriteScheduled || st.mode.WaitRewrite?)
  }

  /** The rewritten file replaces the old one, whose pending bytes it already covers. */
  function SwapIn(st: Aof, content: ByteString): Aof {
    var renamed := st.(file := content, disk := [content]);
    var reopened := if !st.fdOpen then renamed
      else renamed.(selectedDb := -1, currentSize := |content|, rewriteBaseSize := |content|, buf := []);
    reopened.(lastRewriteOk := true, mode := if st.mode.WaitRewrite? then On else st.mode)
  }

  /** backgroundRewriteDoneHandler, once the child has finished or died. */
  function Done(st: Aof, call: DoneCall): Aof {
    match st.child
    case None => st
    case Some(c) =>
      if c.phase.Dead? then Cleanup(st.(lastRewriteOk := false))
      else if !c.phase.Finished? then st
      else if !call.openOk || !call.diffOk || !call.renameOk then Cleanup(st)
      else Cleanup(SwapIn(st, c.temp + c.buffer))
  }

  // ---------- what every step keeps ----------

  /** `fed` is what was fed since the fork: it is spread over three places, in order. */
  predicate HandsOver(c: Child, fed: ByteString) {
    && c.diff + c.pipe + c.buffer == fed
    && (c.phase.Acked? || c.phase.Finished? ==> c.stopSending)
    && (c.phase.Finished? ==> c.pipe == [] && c.temp == c.base + c.diff)
  }

  /** No interleaving of the two processes loses, repeats or reorders a byte. */
  lemma StepChildHandsOver(c: Child, step: ChildStep, fed: ByteString)
    requires HandsOver(c, fed)
    ensures HandsOver(StepChild(c, step), fed) && StepChild(c, step).base == c.base
  {
    match step {
      case Send(n) =>
        var k := Min(n, |c.buffer|);
        assert c.buffer == c.buffer[..k] + c.buffer[k..];
        assert c.diff + (c.pipe + c.buffer[..k]) + c.buffer[k..] == c.diff + c.pipe + c.buffer;
      case Read(n) =>
        var k := Min(n, |c.pipe|);
        assert c.pipe == c.pipe[..k] + c.pipe[k..];
        assert (c.diff + c.pipe[..k]) + c.pipe[k..] + c.buffer == c.diff + c.pipe + c.buffer;
      case _ =>
    }
  }

  function StepsChild(c: Child, steps: seq<ChildStep>): Child
    decreases |steps|
  {
    if steps == [] then c else StepsChild(StepChild(c, steps[0]), steps[1..])
  }

  /** A rewriting child can always finish, with everything that was fed until then in its file. */
  lemma ChildCanFinish(c: Child, fed: ByteString)
    requires HandsOver(c, fed) && c.phase == Rewriting && !c.stopSending
    ensures var steps := [Send(|c.buffer|), Ask, Stop, Hear, Read(|c.pipe| + |c.buffer|), Finish];
            var r := StepsChild(c, steps);
            r.phase == Finished && r.temp == c.base + fed && r.buffer == [] && r.pipe == []
  {
    var all := c.pipe + c.buffer;
    var sent := c.(buffer := [], pipe := all);
    assert c.buffer[..|c.buffer|] == c.buffer && c.buffer[|c.buffer|..] == [];
    assert ParentSend(c, |c.buffer|) == sent;
    var heard := sent.(phase := Acked, stopSending := true);
    assert all[..|all|] == all && all[|all|..] == [];
    var read := heard.(pipe := [], diff := c.diff + all);
    assert ChildRead(heard, |c.pipe| + |c.buffer|) == read;
    assert c.diff + all == fed;
    var a, b := [Ask, Stop, Hear, Read(|all|), Finish], [Stop, Hear, Read(|all|), Finish];
    assert ([Send(|c.buffer|)] + a)[1..] == a && a[1..] == b && b[1..] == [Hear, Read(|all|), Finish];
    assert [Send(|c.buffer|)] + a == [Send(|c.buffer|), Ask, Stop, Hear, Read(|all|), Finish];
    assert b[1..][1..] == [Read(|all|), Finish] && [Read(|all|), Finish][1..] == [Finish] && [Finish][1..] == [];
    hide ParentSend, ChildRead;
    assert StepsChild(read, [Finish]) == StepsChild(ChildFinish(read), []);
    assert StepsChild(heard, [Read(|all|), Finish]) == StepsChild(read, [Finish]);
    assert StepsChild(sent.(phase := Asked, stopSending := true), b[1..]) == StepsChild(heard, [Read(|all|), Finish]);
    assert StepsChild(sent.(phase := Asked), b) == StepsChild(sent.(phase := Asked, stopSending := true), b[1..]);
    assert StepsChild(sent, a) == StepsChild(sent.(phase := Asked), b);
  }

  lemma AppendHandsOver(c: Child, bytes: ByteString, fed: ByteString)
    requires HandsOver(c, fed)
    ensures HandsOver(c.(buffer := c.buffer + bytes), fed + bytes)
  {
    assert c.diff + c.pipe + (c.buffer + bytes) == c.diff + c.pipe + c.buffer + bytes;
  }

  /**
   `logged` is all that was fed while the log was on: the file holds a part of it and
   the buffer the rest, and the recorded size is the file's. Every content the file has
   had, between two system calls too, is a prefix of what was fed.
   */
  ghost predicate Conserves(st: Aof, logged: ByteString) {
    && (!st.exited ==> st.file + st.buf == logged && (st.fdOpen ==> st.currentSize == |st.file|))
    && (st.fdOpen <==> !st.mode.Off?) && (!st.mode.On? ==> st.buf == [])
    && st.file in st.disk && History(st.disk, logged)
  }

  /** Every content of the file was a prefix of what was fed. */
  ghost predicate History(disk: seq<ByteString>, logged: ByteString) {
    forall i :: 0 <= i < |disk| ==> disk[i] <= logged
  }

  lemma HistoryGrows(disk: seq<ByteString>, content: ByteString, logged: ByteString)
    requires History(disk, logged) && content <= logged
    ensures History(disk + [content], logged) && content in disk + [content]
  {
    assert (disk + [content])[|disk|] == content;
  }

  lemma AppendConserves(st: Aof, dictid: int, bytes: ByteString, logged: ByteString)
    requires Conserves(st, logged) && !st.exited
    ensures Conserves(Append(st, dictid, bytes), logged + if st.mode.On? then bytes else [])
  {
    assert st.file + (st.buf + bytes) == st.file + st.buf + bytes;
    assert logged + [] == logged;
  }

  /** The file only ever grows by bytes of the buffer, in order, or falls back. */
  lemma MidFlushIsPrefix(st: Aof, call: FlushCall, logged: ByteString)
    requires st.file + st.buf == logged
    ensures MidFlush(st, call) <= logged
    ensures Written(st, call) >= 0 ==> MidFlush(st, call) + st.buf[Written(st, call)..] == logged
  {
    var n := Written(st, call);
    if n >= 0 {
      assert st.buf == st.buf[..n] + st.buf[n..];
      assert st.file + st.buf[..n] + st.buf[n..] == logged;
      assert st.file + [] == st.file;
    }
  }

  /** A short write that ftruncate undoes. */
  lemma UndoneConserves(st: Aof, policy: Policy, call: FlushCall, logged: ByteString)
    requires Conserves(st, logged) && !st.exited && st.fdOpen && 0 <= Written(st, call) && call.truncateOk
    ensures var r := AfterFailure(AfterWrite(st, call), policy, Written(st, call), true);
            Conserves(r, logged) && (r.exited <==> policy.FsyncAlways?)
  {
    MidFlushIsPrefix(st, call, logged);
    hide History;
    var mid := MidFlush(st, call);
    assert st.file <= logged by { assert logged[..|st.file|] == st.file; }
    assert mid[..st.currentSize] == st.file && st.currentSize <= |mid|;
    HistoryGrows(st.disk, mid, logged);
    HistoryGrows(st.disk + [mid], st.file, logged);
  }

  /** An error, or a short write that stays: what got out is in the file, and no longer in the buffer. */
  lemma StayingConserves(st: Aof, policy: Policy, call: FlushCall, logged: ByteString)
    requires Conserves(st, logged) && !st.exited && st.fdOpen
    requires Written(st, call) < 0 || !call.truncateOk
    ensures var r := AfterFailure(AfterWrite(st, call), policy, Written(st, call), call.truncateOk);
            Conserves(r, logged) && (r.exited <==> policy.FsyncAlways?)
  {
    MidFlushIsPrefix(st, call, logged);
    hide History, Min;
    var mid := MidFlush(st, call);
    HistoryGrows(st.disk, mid, logged);
    assert Written(st, call) <= 0 ==> mid == st.file;
  }

  lemma FailureConserves(st: Aof, policy: Policy, call: FlushCall, logged: ByteString)
    requires Conserves(st, logged) && !st.exited && st.fdOpen && Written(st, call) != |st.buf|
    ensures var r := AfterFailure(AfterWrite(st, call), policy, Written(st, call), call.truncateOk);
            Conserves(r, logged) && (r.exited <==> policy.FsyncAlways?)
  {
    hide Conserves, AfterWrite, AfterFailure;
    if Written(st, call) >= 0 && call.truncateOk {
      UndoneConserves(st, policy, call, logged);
    } else {
      StayingConserves(st, policy, call, logged);
    }
  }

  lemma SuccessConserves(st: Aof, policy: Policy, call: FlushCall, logged: ByteString)
    requires Conserves(st, logged) && !st.exited && st.fdOpen && Written(st, call) == |st.buf|
    ensures var r := AfterSuccess(AfterWrite(st, call), policy, call);
            Conserves(r, logged) && !r.exited
  {
    MidFlushIsPrefix(st, call, logged);
    hide History;
    var mid := MidFlush(st, call);
    assert st.buf[|st.buf|..] == [] && mid + [] == mid && mid == logged;
    assert st.buf[..|st.buf|] == st.buf && st.file + [] == st.file;
    HistoryGrows(st.disk, mid, logged);
  }

  lemma AttemptWriteConserves(st: Aof, policy: Policy, call: FlushCall, logged: ByteString)
    requires Conserves(st, logged) && !st.exited && st.fdOpen
    ensures Conserves(AttemptWrite(st, policy, call), logged)
    ensures policy != FsyncAlways ==> !AttemptWrite(st, policy, call).exited
  {
    hide AfterFailure, AfterSuccess, AfterWrite;
    var late := policy.FsyncEverySec? && !call.force && call.syncPending;
    var writing := if late then st.(delayedFsync := st.delayedFsync + 1) else st;
    assert Conserves(writing, logged);
    if Written(writing, call) != |st.buf| {
      FailureConserves(writing, policy, call, logged);
    } else {
      SuccessConserves(writing, policy, call, logged);
    }
  }

  /**
   Flush conservation, for every result of write and ftruncate: a normal return leaves
   file and buffer together unchanged, and a crash at any point leaves a prefix.
   */
  lemma FlushConserves(st: Aof, policy: Policy, call: FlushCall, logged: ByteString)
    requires Conserves(st, logged) && !st.exited
    ensures Conserves(Flush(st, policy, call), logged)
    ensures policy != FsyncAlways ==> !Flush(st, policy, call).exited
  {
    hide AttemptWrite;
    if st.buf != [] && !Postpones(st, policy, call) {
      AttemptWriteConserves(st, policy, call, logged);
    }
  }

  // ---------- what one flush does, in terms of its inputs ----------

  lemma AfterWriteIs(st: Aof, call: FlushCall)
    ensures var r := AfterWrite(st, call);
            && r.file == MidFlush(st, call) && r.disk == st.disk + [r.file] && r.currentSize == st.currentSize
            && r.exited == st.exited && r.lastFsync == st.lastFsync && r.delayedFsync == st.delayedFsync
  {
    hide MidFlush;
  }

  lemma MidFlushIs(st: Aof, call: FlushCall)
    ensures call.nwritten >= |st.buf| ==> MidFlush(st, call) == st.file + st.buf && Written(st, call) == |st.buf|
    ensures call.nwritten <= 0 && st.buf != [] ==> MidFlush(st, call) == st.file && Written(st, call) < |st.buf|
    ensures 0 < call.nwritten < |st.buf| ==>
              MidFlush(st, call) == st.file + st.buf[..call.nwritten] && Written(st, call) == call.nwritten
  {
    assert st.buf[..|st.buf|] == st.buf && st.file + [] == st.file;
  }

  /** After a full write the buffer is empty, and fsync is called by its policy unless a busy child is respected. */
  lemma SuccessIs(wrote: Aof, policy: Policy, call: FlushCall)
    ensures var r := AfterSuccess(wrote, policy, call);
            var busy := call.noFsyncOnRewrite && (wrote.child != None || call.rdbChild);
            && r.buf == [] && r.file == wrote.file && r.disk == wrote.disk
            && r.currentSize == wrote.currentSize + |wrote.buf|
            && r.lastWriteOk && r.exited == wrote.exited && r.delayedFsync == wrote.delayedFsync
            && r.lastFsync ==
                 if !busy && (policy == FsyncAlways || (policy == FsyncEverySec && call.unixtime > wrote.lastFsync))
                 then call.unixtime else wrote.lastFsync
  {
  }

  /** A short write that cannot be undone stays; after an error, or one that is undone, the buffer is kept. */
  lemma FailureIs(wrote: Aof, policy: Policy, n: int, truncateOk: bool)
    requires -1 <= n <= |wrote.buf| && wrote.currentSize <= |wrote.file|
    ensures var r := AfterFailure(wrote, policy, n, truncateOk); var stays := n > 0 && !truncateOk;
            && r.file == (if n >= 0 && truncateOk then wrote.file[..wrote.currentSize] else wrote.file)
            && |r.disk| >= |wrote.disk| && r.delayedFsync == wrote.delayedFsync
            && (policy == FsyncAlways ==> r.exited)
            && (policy != FsyncAlways ==>
                  && r.exited == wrote.exited && !r.lastWriteOk
                  && r.buf == (if stays then wrote.buf[n..] else wrote.buf)
                  && r.currentSize == wrote.currentSize + if stays then n else 0)
  {
  }

  /** The call comes while an fsync is pending, and need not wait for it. */
  predicate Late(policy: Policy, call: FlushCall) { policy == FsyncEverySec && !call.force && call.syncPending }

  lemma FullWriteIs(st: Aof, policy: Policy, call: FlushCall)
    requires call.nwritten >= |st.buf|
    ensures var r := WriteBuffer(st, policy, call);
            var busy := call.noFsyncOnRewrite && (st.child != None || call.rdbChild);
            && r.buf == [] && r.file == st.file + st.buf && |r.disk| == |st.disk| + 1
            && r.currentSize == st.currentSize + |st.buf|
            && r.lastWriteOk && r.exited == st.exited && r.delayedFsync == st.delayedFsync
            && r.lastFsync ==
                 if !busy && (policy == FsyncAlways || (policy == FsyncEverySec && call.unixtime > st.lastFsync))
                 then call.unixtime else st.lastFsync
  {
    hide AfterWrite, AfterFailure, AfterSuccess, MidFlush, Written;
    MidFlushIs(st, call);
    AfterWriteIs(st, call);
    SuccessIs(AfterWrite(st, call), policy, call);
  }

  lemma FailedWriteIs(st: Aof, policy: Policy, call: FlushCall)
    requires st.buf != [] && st.currentSize == |st.file| && call.nwritten < |st.buf|
    ensures var r := WriteBuffer(st, policy, call); var stays := 0 < call.nwritten && !call.truncateOk;
            && |r.disk| > |st.disk|
            && r.file == (if stays then st.file + st.buf[..call.nwritten] else st.file)
            && (policy == FsyncAlways ==> r.exited)
            && (policy != FsyncAlways ==>
                  && r.exited == st.exited && !r.lastWriteOk
                  && r.buf == (if stays then st.buf[call.nwritten..] else st.buf)
                  && r.currentSize == |r.file|)
  {
    var n := if call.nwritten < 0 then -1 else call.nwritten;
    assert Written(st, call) == n;
    var w := AfterWrite(st, call);
    assert WriteBuffer(st, policy, call) == AfterFailure(w, policy, n, call.truncateOk);
    FallsBack(st, call);
    hide *;
    MidFlushIs(st, call);
    AfterWriteIs(st, call);
    FailureIs(w, policy, n, call.truncateOk);
  }

  lemma FallsBack(st: Aof, call: FlushCall)
    ensures |st.file| <= |MidFlush(st, call)| && MidFlush(st, call)[..|st.file|] == st.file
  {
  }

  lemma FlushIs(st: Aof, policy: Policy, call: FlushCall)
    requires st.buf != []
    ensures Flush(st, policy, call) ==
              if Late(policy, call) && st.postponedStart == 0 then st.(postponedStart := call.unixtime)
              else if Late(policy, call) && call.unixtime - st.postponedStart < 2 then st
              else AttemptWrite(st, policy, call)
  {
    hide AttemptWrite;
  }

  /**
   Something is left unwritten on purpose if and only if the policy is everysec, the call is
   not forced, an fsync is pending, and no postponement runs or it is younger than two
   seconds. In every other case a write that takes everything empties the buffer.
   */
  lemma FlushWaitsIff(st: Aof, policy: Policy, call: FlushCall)
    requires st.buf != [] && st.currentSize == |st.file|
    ensures var r := Flush(st, policy, call);
            var waits := && policy == FsyncEverySec && !call.force && call.syncPending
                         && (st.postponedStart == 0 || call.unixtime - st.postponedStart < 2);
            && (r.disk == st.disk <==> waits)
            && (waits ==> r == st.(postponedStart := if st.postponedStart == 0 then call.unixtime else st.postponedStart))
            && (!waits ==> r.postponedStart == 0)
            && (call.nwritten >= |st.buf| ==>
                  if waits then r.buf == st.buf && r.file == st.file
                  else r.buf == [] && r.file == st.file + st.buf && r.currentSize == st.currentSize + |st.buf|)
  {
    FlushIs(st, policy, call);
    hide AttemptWrite, Flush, Postpones, WriteBuffer;
    AttemptWritesMore(st, policy, call);
  }

  /** The write, whatever comes of it, is one more content of the file. */
  lemma AttemptWritesMore(st: Aof, policy: Policy, call: FlushCall)
    requires st.buf != [] && st.currentSize == |st.file|
    ensures var r := AttemptWrite(st, policy, call);
            && |r.disk| > |st.disk|
            && (call.nwritten >= |st.buf| ==>
                  r.buf == [] && r.file == st.file + st.buf && r.currentSize == st.currentSize + |st.buf|)
  {
    hide WriteBuffer;
    var writing := if Late(policy, call) then st.(delayedFsync := st.delayedFsync + 1) else st;
    if call.nwritten >= |st.buf| {
      FullWriteIs(writing, policy, call);
    } else {
      FailedWriteIs(writing, policy, call);
    }
  }

  lemma FlushMakesWrite(st: Aof, writing: Aof, policy: Policy, call: FlushCall)
    requires st.buf != [] && writing == st.(delayedFsync := st.delayedFsync + if Late(policy, call) then 1 else 0)
    requires !Late(policy, call) || (st.postponedStart != 0 && call.unixtime - st.postponedStart >= 2)
    ensures Flush(st, policy, call) == WriteBuffer(writing, policy, call)
  {
    hide WriteBuffer;
  }

  /** A short write that cannot be undone stays; an error, and one that is undone, leave file and buffer alone. */
  lemma FailedFlush(st: Aof, policy: Policy, call: FlushCall)
    requires st.buf != [] && st.currentSize == |st.file| && call.nwritten < |st.buf|
    requires policy != FsyncEverySec || call.force || !call.syncPending
             || (st.postponedStart != 0 && call.unixtime - st.postponedStart >= 2)
    ensures var r := Flush(st, policy, call); var stays := 0 < call.nwritten && !call.truncateOk;
            && r.file == (if stays then st.file + st.buf[..call.nwritten] else st.file)
            && (policy == FsyncAlways ==> r.exited)
            && (policy != FsyncAlways ==>
                  && r.exited == st.exited && !r.lastWriteOk
                  && r.buf == (if stays then st.buf[call.nwritten..] else st.buf)
                  && r.currentSize == |r.file|)
  {
    var writing := st.(delayedFsync := st.delayedFsync + if Late(policy, call) then 1 else 0);
    FlushMakesWrite(st, writing, policy, call);
    hide *;
    FailedWriteIs(writing, policy, call);
  }

  /** What a full write notes: its success, how late it was, and the fsync that its policy asks for. */
  lemma FlushBookkeeping(st: Aof, policy: Policy, call: FlushCall)
    requires st.buf != [] && call.nwritten >= |st.buf|
    requires policy != FsyncEverySec || call.force || !call.syncPending
             || (st.postponedStart != 0 && call.unixtime - st.postponedStart >= 2)
    ensures var r := Flush(st, policy, call);
            var busy := call.noFsyncOnRewrite && (st.child != None || call.rdbChild);
            var late := policy == FsyncEverySec && !call.force && call.syncPending;
            && r.lastWriteOk && r.exited == st.exited && r.delayedFsync == st.delayedFsync + (if late then 1 else 0)
            && r.lastFsync ==
                 if !busy && (policy == FsyncAlways || (policy == FsyncEverySec && call.unixtime > st.lastFsync))
                 then call.unixtime else st.lastFsync
  {
    var writing := st.(delayedFsync := st.delayedFsync + if Late(policy, call) then 1 else 0);
    FlushMakesWrite(st, writing, policy, call);
    hide Flush, WriteBuffer;
    FullWriteIs(writing, policy, call);
  }

  // ---------- the end of a rewrite ----------

  /** A rewrite that does not succeed leaves the old log exactly as it was. */
  lemma FailedRewriteTouchesNothing(st: Aof, call: DoneCall)
    requires st.child.Some? && (st.child.value.phase.Dead? || st.child.value.phase.Finished?)
    ensures var r := Done(st, call);
            r.child.None?
            && (st.child.value.phase.Dead? || !call.openOk || !call.diffOk || !call.renameOk ==>
                  r.file == st.file && r.buf == st.buf && r.disk == st.disk && r.currentSize == st.currentSize
                  && r.selectedDb == st.selectedDb && r.mode == st.mode
                  && r.rewriteBaseSize == st.rewriteBaseSize
                  && (r.lastRewriteOk <==> st.lastRewriteOk && !st.child.value.phase.Dead?)
                  && (r.rewriteScheduled <==> st.rewriteScheduled || st.mode.WaitRewrite?))
  {
  }

  /** A rewrite that succeeds puts base and everything fed since the fork in the file. */
  lemma SuccessfulRewriteHoldsEverything(st: Aof, call: DoneCall, fed: ByteString)
    requires st.child.Some? && st.child.value.phase.Finished? && HandsOver(st.child.value, fed)
    requires call.openOk && call.diffOk && call.renameOk && (st.fdOpen || st.buf == [])
    ensures var r := Done(st, call);
            && r.file == st.child.value.base + fed && r.disk == [r.file] && r.buf == []
            && (st.fdOpen ==> r.currentSize == r.rewriteBaseSize == |r.file| && r.selectedDb == -1)
            && (!st.fdOpen ==> r.currentSize == st.currentSize && r.rewriteBaseSize == st.rewriteBaseSize)
            && r.lastRewriteOk && r.rewriteScheduled == st.rewriteScheduled
            && r.mode == (if st.mode == Off then Off else On)
  {
    var c := st.child.value;
    assert c.diff + [] + c.buffer == c.diff + c.buffer;
    assert c.base + c.diff + c.buffer == c.base + (c.diff + c.buffer);
  }

  lemma SwapConserves(st: Aof, call: DoneCall, fed: ByteString, logged: ByteString)
    requires st.child.Some? && st.child.value.phase.Finished? && HandsOver(st.child.value, fed)
    requires call.openOk && call.diffOk && call.renameOk && Conserves(st, logged) && !st.exited
    ensures Conserves(Done(st, call), st.child.value.base + fed)
    ensures Done(st, call).child.None? && Done(st, call).file == st.child.value.base + fed
    ensures Done(st, call).mode.On? ==> Done(st, call).selectedDb == -1
  {
    SuccessfulRewriteHoldsEverything(st, call, fed);
    var r := Done(st, call);
    assert r.file + [] == r.file;
    assert r.disk[0] == r.file;
  }

  lemma DoneWithoutSwapConserves(st: Aof, call: DoneCall, logged: ByteString)
    requires Conserves(st, logged)
    requires st.child.Some? && st.child.value.phase.Finished? ==> !call.openOk || !call.diffOk || !call.renameOk
    ensures Conserves(Done(st, call), logged)
    ensures var r := Done(st, call);
            r.mode == st.mode && r.selectedDb == st.selectedDb && (r.child.None? || r == st)
  {
    hide SwapIn, History;
  }

  // ---------- runs ----------

  /** Everything that can happen to the log; a step that is not possible changes nothing. */
  datatype Op =
    | OpAppend(dictid: int, bytes: ByteString)
    | OpFlush(call: FlushCall)
    | OpFork(base: ByteString)
    | OpChild(step: ChildStep)
    | OpDone(done: DoneCall)

  function Perform(st: Aof, policy: Policy, op: Op): Aof {
    if st.exited then st
    else
      match op
      case OpAppend(dictid, bytes) => Append(st, dictid, bytes)
      case OpFlush(call) => Flush(st, policy, call)
      case OpFork(base) => if st.child.None? then Fork(st, base) else st
      case OpChild(step) => if st.child.Some? then st.(child := Some(StepChild(st.child.value, step))) else st
      case OpDone(call) => Done(st, call)
  }

  function PerformAll(st: Aof, policy: Policy, ops: seq<Op>): Aof
    decreases |ops|
  {
    if ops == [] then st else PerformAll(Perform(st, policy, ops[0]), policy, ops[1..])
  }

  /** The call leaves bytes in the buffer without an attempt to write them. */
  predicate LeavesWaiting(st: Aof, policy: Policy, op: Op) {
    op.OpFlush? && !st.exited && st.buf != [] && Postpones(st, policy, op.call)
  }

  predicate Attempts(st: Aof, policy: Policy, op: Op) {
    op.OpFlush? && !st.exited && st.buf != [] && !Postpones(st, policy, op.call)
  }

  ghost predicate NoAttempt(st: Aof, policy: Policy, ops: seq<Op>)
    decreases |ops|
  {
    ops != [] ==> !Attempts(st, policy, ops[0]) && NoAttempt(Perform(st, policy, ops[0]), policy, ops[1..])
  }

  lemma PerformKeepsPostponement(st: Aof, policy: Policy, op: Op)
    requires st.postponedStart != 0 && !Attempts(st, policy, op)
    ensures Perform(st, policy, op).postponedStart == st.postponedStart
  {
    hide AttemptWrite, StepChild;
  }

  /** Only an attempt to write ends a postponement. */
  lemma {:induction false} PostponementLasts(st: Aof, policy: Policy, ops: seq<Op>)
    requires st.postponedStart != 0 && NoAttempt(st, policy, ops)
    ensures PerformAll(st, policy, ops).postponedStart == st.postponedStart
    decreases |ops|
  {
    if ops != [] {
      PerformKeepsPostponement(st, policy, ops[0]);
      hide Perform, Attempts;
      PostponementLasts(Perform(st, policy, ops[0]), policy, ops[1..]);
    }
  }

  /** The clock of the flushes never goes back, and is later than `clock`. */
  predicate Ticking(ops: seq<Op>, clock: int)
    decreases |ops|
  {
    ops != [] ==>
      if ops[0].OpFlush? then clock <= ops[0].call.unixtime && Ticking(ops[1..], ops[0].call.unixtime)
      else Ticking(ops[1..], clock)
  }

  function LastTick(ops: seq<Op>, clock: int): int
    decreases |ops|
  {
    if ops == [] then clock else LastTick(ops[1..], if ops[0].OpFlush? then ops[0].call.unixtime else clock)
  }

  lemma PerformKeepsStart(st: Aof, policy: Policy, op: Op)
    ensures var r := Perform(st, policy, op);
            r.postponedStart == st.postponedStart || (op.OpFlush? && r.postponedStart in {0, op.call.unixtime})
  {
    hide AttemptWrite, StepChild;
  }

  /** A postponement never starts in the future. */
  lemma {:induction false} PostponedInThePast(st: Aof, policy: Policy, ops: seq<Op>, clock: int)
    requires 0 <= st.postponedStart <= clock && Ticking(ops, clock)
    ensures 0 <= PerformAll(st, policy, ops).postponedStart <= LastTick(ops, clock)
    decreases |ops|
  {
    if ops != [] {
      PerformKeepsStart(st, policy, ops[0]);
      hide Perform;
      var tick := if ops[0].OpFlush? then ops[0].call.unixtime else clock;
      PostponedInThePast(Perform(st, policy, ops[0]), policy, ops[1..], tick);
    }
  }

  /** An attempt to write forgets the postponement. */
  lemma AttemptClears(st: Aof, policy: Policy, op: Op)
    requires Attempts(st, policy, op)
    ensures Perform(st, policy, op).postponedStart == 0
  {
    hide AttemptWrite;
  }

  /** A call that leaves bytes waiting starts a postponement, or goes on with one for less than two seconds. */
  lemma LeavingStarts(st: Aof, policy: Policy, op: Op)
    requires LeavesWaiting(st, policy, op) && 0 <= st.postponedStart <= op.call.unixtime && 0 < op.call.unixtime
    ensures var r := Perform(st, policy, op);
            && 0 < r.postponedStart <= op.call.unixtime
            && op.call.unixtime - r.postponedStart < 2
  {
    hide AttemptWrite;
  }

  /**
   Bounded postponement, over every run whose clock is positive and never goes back: two
   calls that both leave bytes waiting, with no attempt to write them in between, are less
   than two seconds apart; and the next attempt forgets the postponement.
   */
  lemma BoundedPostponement(st: Aof, policy: Policy, before: seq<Op>, first: Op, between: seq<Op>, last: Op)
    requires st.postponedStart == 0 && Ticking(before, 1)
    requires first.OpFlush? && LastTick(before, 1) <= first.call.unixtime
    requires LeavesWaiting(PerformAll(st, policy, before), policy, first)
    requires var started := Perform(PerformAll(st, policy, before), policy, first);
             NoAttempt(started, policy, between)
             && var later := PerformAll(started, policy, between);
                LeavesWaiting(later, policy, last) || Attempts(later, policy, last)
    ensures var later := PerformAll(Perform(PerformAll(st, policy, before), policy, first), policy, between);
            if LeavesWaiting(later, policy, last) then last.call.unixtime - first.call.unixtime < 2
            else Perform(later, policy, last).postponedStart == 0
  {
    hide PerformAll, Perform;
    LastTickGrows(before, 1);
    PostponedInThePast(st, policy, before, 1);
    var there := PerformAll(st, policy, before);
    LeavingStarts(there, policy, first);
    var started := Perform(there, policy, first);
    PostponementLasts(started, policy, between);
    var later := PerformAll(started, policy, between);
    if LeavesWaiting(later, policy, last) {
      assert later.postponedStart == started.postponedStart <= first.call.unixtime;
    } else {
      AttemptClears(later, policy, last);
    }
  }

  lemma {:induction false} LastTickGrows(ops: seq<Op>, clock: int)
    requires Ticking(ops, clock)
    ensures clock <= LastTick(ops, clock)
    decreases |ops|
  {
    if ops != [] {
      LastTickGrows(ops[1..], if ops[0].OpFlush? then ops[0].call.unixtime else clock);
    }
  }
}

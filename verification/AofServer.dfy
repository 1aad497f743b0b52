/**
 The server side of the append only file: feedAppendOnlyFile, flushAppendOnlyFile and
 backgroundRewriteDoneHandler on the server's fields, proved to be the steps of AofLog.
 */
module AofServer {
  import opened Options
  import opened Bytes
  import opened Resp
  import opened Keyspace
  import opened AofFeed
  import opened AofLog

  /** The bytes of "*2\r\n$6\r\nSELECT\r\n$", where the length of the index follows. */
  const SELECT_FORMAT: ByteString :=
    [42, 50, 13, 10, 36, 54, 13, 10, 83, 69, 76, 69, 67, 84, 13, 10, 36]

  lemma SelectPrefix()
    ensures Header(STAR, 2) + EncodeBulk(SELECT_NAME) + [DOLLAR] == SELECT_FORMAT
  {
    SelectLiteral();
    hide Header, EncodeBulk;
    assert SELECT_CMD + [DOLLAR] == SELECT_FORMAT;
  }

  lemma EncodePair(a: ByteString, b: ByteString)
    ensures Encode([a, b]) == Header(STAR, 2) + EncodeBulk(a) + EncodeBulk(b)
  {
    hide EncodeBulk, Header;
    assert [a, b][1..] == [b] && [b][1..] == [];
    assert EncodeBulks([b]) == EncodeBulk(b) + EncodeBulks([]) == EncodeBulk(b);
    Associative(Header(STAR, 2), EncodeBulk(a), EncodeBulk(b));
  }

  lemma BulkAfterDollar(index: ByteString)
    ensures EncodeBulk(index) == [DOLLAR] + (Decimal(|index|) + CRLF + index + CRLF)
  {
    var digits := Decimal(|index|);
    Associative([DOLLAR], digits, CRLF);
    Associative([DOLLAR], digits + CRLF, index);
    Associative([DOLLAR], digits + CRLF + index, CRLF);
  }

  lemma SelectFormat(index: ByteString)
    ensures SELECT_FORMAT + Decimal(|index|) + CRLF + index + CRLF == Encode([SELECT_NAME, index])
  {
    SelectPrefix();
    EncodePair(SELECT_NAME, index);
    BulkAfterDollar(index);
    hide EncodeBulk, Header, Encode;
    var head, digits := Header(STAR, 2) + EncodeBulk(SELECT_NAME), Decimal(|index|);
    Associative(head, [DOLLAR], digits + CRLF + index + CRLF);
    Associative(SELECT_FORMAT, digits, CRLF);
    Associative(SELECT_FORMAT, digits + CRLF, index);
    Associative(SELECT_FORMAT, digits + CRLF + index, CRLF);
  }

  lemma EncodeTwo(first: Command, second: Command)
    ensures EncodeAll([first, second]) == Encode(first) + Encode(second)
  {
    assert [first, second][1..] == [second];
    EncodeOne(second);
  }

  lemma WriteOnlyGrows(st: Aof, call: FlushCall)
    ensures |AfterWrite(st, call).file| >= |st.file| && AfterWrite(st, call).currentSize == st.currentSize
  {
  }

  class LogServer {
    const srv: Server
    const policy: Policy

    var mode: Mode
    var fdOpen: bool
    var buf: ByteString
    var file: ByteString
    ghost var disk: seq<ByteString>
    var currentSize: nat
    var selectedDb: int
    var child: Option<Child>
    var postponedStart: int
    var delayedFsync: nat
    var lastFsync: int
    var lastWriteOk: bool
    var rewriteBaseSize: nat
    var rewriteScheduled: bool
    var lastRewriteOk: bool
    var exited: bool

    ghost function Current(): Aof
      reads this
    {
      Aof(mode, fdOpen, buf, file, disk, currentSize, selectedDb, child, postponedStart, delayedFsync,
          lastFsync, lastWriteOk, rewriteBaseSize, rewriteScheduled, lastRewriteOk, exited)
    }

    /** A server whose log is on, with an empty file. */
    constructor (srv: Server, policy: Policy)
      ensures this.srv == srv && this.policy == policy
      ensures Current() == Aof(On, true, [], [], [[]], 0, -1, None, 0, 0, 0, true, 0, false, true, false)
    {
      this.srv, this.policy := srv, policy;
      mode, fdOpen, buf, file, disk, currentSize, selectedDb := On, true, [], [], [[]], 0, -1;
      child, postponedStart, delayedFsync, lastFsync, lastWriteOk := None, 0, 0, 0, true;
      rewriteBaseSize, rewriteScheduled, lastRewriteOk, exited := 0, false, true, false;
    }

    /** The translation of SET with more than three arguments, by a scan for EX and PX. */
    method FeedSet(argv: Command, now: int) returns (bytes: ByteString)
      requires Executed(srv, argv, now) && srv.lookup(argv[0]) == Set && |argv| > 3
      ensures bytes == EncodeAll(Translate(srv, argv, now))
    {
      var ex: Option<ByteString>, px: Option<ByteString> := None, None;
      bytes := Encode(argv[..3]);
      ScanFindsTtl(argv[3..], NoTtl);
      var i := 3;
      while i < |argv|
        invariant 3 <= i <= |argv|
        invariant Scan(argv[i..], ex, px) == Scan(argv[3..], None, None)
      {
        if IsEx(argv[i]) {
          ex := Some(argv[i + 1]);
        }
        if IsPx(argv[i]) {
          px := Some(argv[i + 1]);
        }
        i := i + 1;
      }
      assert !(ex.Some? && px.Some?);
      EncodeOne(argv[..3]);
      if ex.Some? {
        EncodeTwo(argv[..3], ExpireAtCommand(Expire, argv[1], ex.value, now));
        bytes := bytes + Encode(ExpireAtCommand(Expire, argv[1], ex.value, now));
      }
      if px.Some? {
        EncodeTwo(argv[..3], ExpireAtCommand(Pexpire, argv[1], px.value, now));
        bytes := bytes + Encode(ExpireAtCommand(Pexpire, argv[1], px.value, now));
      }
    }

    /** The command in the form in which it goes to the log. */
    method FeedCommand(argv: Command, now: int) returns (bytes: ByteString)
      requires Executed(srv, argv, now)
      ensures bytes == EncodeAll(Translate(srv, argv, now))
    {
      var proc := srv.lookup(argv[0]);
      if proc == Expire || proc == Pexpire || proc == Expireat {
        bytes := Encode(ExpireAtCommand(proc, argv[1], argv[2], now));
        EncodeOne(ExpireAtCommand(proc, argv[1], argv[2], now));
      } else if proc == Setex || proc == Psetex {
        var plain := [SET_NAME, argv[1], argv[3]];
        bytes := Encode(plain) + Encode(ExpireAtCommand(proc, argv[1], argv[2], now));
        EncodeTwo(plain, ExpireAtCommand(proc, argv[1], argv[2], now));
      } else if proc == Set && |argv| > 3 {
        bytes := FeedSet(argv, now);
      } else {
        bytes := Encode(argv);
        EncodeOne(argv);
        assert proc == Set ==> argv[3..] == [] && argv[..3] == argv;
      }
    }

    /** The SELECT for a command of another database than the last one's. */
    method FeedSelect(dictid: nat) returns (bytes: ByteString, ghost select: seq<Command>)
      modifies `selectedDb
      ensures select == if dictid != old(selectedDb) then [SelectCommand(dictid)] else []
      ensures bytes == EncodeAll(select) && selectedDb == dictid
    {
      bytes, select := [], [];
      if dictid != selectedDb {
        var seldb := Decimal(dictid);
        bytes := SELECT_FORMAT + Decimal(|seldb|) + CRLF + seldb + CRLF;
        selectedDb := dictid;
        SelectFormat(seldb);
        EncodeOne(SelectCommand(dictid));
        select := [SelectCommand(dictid)];
      }
    }

    /** The encoded command goes to the log's buffer and to the diff of a running rewrite. */
    method FeedBuffers(bytes: ByteString)
      modifies `buf, `child
      ensures Current() == old(Current()).(
                buf := if mode.On? then old(buf) + bytes else old(buf),
                child := match old(child)
                         case None => None
                         case Some(c) => Some(c.(buffer := c.buffer + bytes)))
    {
      if mode == On {
        buf := buf + bytes;
      }
      if child.Some? {
        child := Some(child.value.(buffer := child.value.buffer + bytes));
      }
    }

    method FeedAppendOnlyFile(dictid: nat, argv: Command, now: int)
      requires Executed(srv, argv, now)
      modifies `selectedDb, `buf, `child
      ensures Current() == Append(old(Current()), dictid, EncodeAll(Feed(srv, old(selectedDb), Event(dictid, argv, now))))
    {
      hide EncodeAll, Translate, SelectCommand;
      var bytes, select := FeedSelect(dictid);
      var translated := FeedCommand(argv, now);
      EncodeAllConcat(select, Translate(srv, argv, now));
      FeedBuffers(bytes + translated);
    }

    method WriteFile(content: ByteString)
      modifies `file, `disk
      ensures Current() == SetFile(old(Current()), content)
    {
      file := content;
      disk := disk + [content];
    }

    /** The write itself, and the reset of the postponement. */
    method AofWrite(call: FlushCall) returns (nwritten: int)
      modifies `file, `disk, `postponedStart
      ensures nwritten == Written(old(Current()), call) && Current() == AfterWrite(old(Current()), call)
    {
      nwritten := if call.nwritten < 0 then -1 else if call.nwritten > |buf| then |buf| else call.nwritten;
      WriteFile(if nwritten > 0 then file + buf[..nwritten] else file);
      postponedStart := 0;
    }

    /** ftruncate takes a short write back; -1 says that nothing of it is left. */
    method UndoWrite(written: int, truncateOk: bool) returns (nwritten: int)
      requires currentSize <= |file|
      modifies `file, `disk
      ensures nwritten == if written != -1 && truncateOk then -1 else written
      ensures Current() ==
              if written != -1 && truncateOk then SetFile(old(Current()), old(file)[..currentSize]) else old(Current())
    {
      nwritten := written;
      if nwritten != -1 {
        if truncateOk {
          WriteFile(file[..currentSize]);
          nwritten := -1;
        }
      }
    }

    /** What got out and stays is accounted for. */
    method TrimBuffer(nwritten: nat)
      requires nwritten <= |buf|
      modifies `currentSize, `buf
      ensures Current() == old(Current()).(currentSize := old(currentSize) + nwritten, buf := old(buf)[nwritten..])
    {
      currentSize := currentSize + nwritten;
      buf := buf[nwritten..];
    }

    /** The branch of a failed or short write; `written` is -1 or what got out. */
    method HandleWriteError(written: int, truncateOk: bool)
      requires -1 <= written < |buf| && currentSize <= |file|
      modifies `file, `disk, `currentSize, `buf, `exited, `lastWriteOk
      ensures Current() == AfterFailure(old(Current()), policy, written, truncateOk)
    {
      var nwritten := UndoWrite(written, truncateOk);
      if policy == FsyncAlways {
        exited := true;
        return;
      }
      lastWriteOk := false;
      if nwritten > 0 {
        TrimBuffer(nwritten);
      }
    }

    /** When fsync is due, and when it was last done. */
    method SyncFile(call: FlushCall)
      modifies `lastFsync
      ensures Current() == old(Current()).(
                lastFsync := if policy.FsyncAlways? || (policy.FsyncEverySec? && call.unixtime > old(lastFsync))
                             then call.unixtime else old(lastFsync))
    {
      if policy == FsyncAlways {
        lastFsync := call.unixtime;
      } else if policy == FsyncEverySec && call.unixtime > lastFsync {
        lastFsync := call.unixtime;
      }
    }

    /** The branch of a full write: the buffer is empty again, and fsync may be due. */
    method HandleWritten(call: FlushCall)
      modifies `lastWriteOk, `currentSize, `buf, `lastFsync
      ensures Current() == AfterSuccess(old(Current()), policy, call)
    {
      lastWriteOk := true;
      currentSize := currentSize + |buf|;
      buf := [];
      if call.noFsyncOnRewrite && (child.Some? || call.rdbChild) {
        return;
      }
      SyncFile(call);
    }

    /** Whether a pending fsync lets the write wait; counts the writes that could not. */
    method PostponeFlush(call: FlushCall) returns (postponed: bool)
      modifies `postponedStart, `delayedFsync
      ensures postponed == Postpones(old(Current()), policy, call)
      ensures Current() ==
              if postponed then
                if old(postponedStart) == 0 then old(Current()).(postponedStart := call.unixtime) else old(Current())
              else if policy.FsyncEverySec? && !call.force && call.syncPending then
                old(Current()).(delayedFsync := old(delayedFsync) + 1)
              else old(Current())
    {
      var syncInProgress := policy == FsyncEverySec && call.syncPending;
      if policy == FsyncEverySec && !call.force {
        if syncInProgress {
          if postponedStart == 0 {
            postponedStart := call.unixtime;
            return true;
          } else if call.unixtime - postponedStart < 2 {
            return true;
          }
          delayedFsync := delayedFsync + 1;
        }
      }
      postponed := false;
    }

    method FlushAppendOnlyFile(call: FlushCall)
      requires currentSize <= |file|
      modifies this
      ensures Current() == Flush(old(Current()), policy, call)
    {
      hide AfterWrite, AfterFailure, AfterSuccess;
      if |buf| == 0 {
        return;
      }
      var postponed := PostponeFlush(call);
      if postponed {
        return;
      }
      ghost var writing := Current();
      assert currentSize <= |AfterWrite(writing, call).file| by { WriteOnlyGrows(writing, call); }
      var nwritten := AofWrite(call);
      if nwritten != |buf| {
        HandleWriteError(nwritten, call.truncateOk);
      } else {
        HandleWritten(call);
      }
    }

    /** The descriptor moves to the new file, which covers all that the buffer still held. */
    method UseNewFile()
      modifies `selectedDb, `currentSize, `rewriteBaseSize, `buf
      ensures Current() == old(Current()).(selectedDb := -1, currentSize := |file|, rewriteBaseSize := |file|, buf := [])
    {
      selectedDb := -1;
      currentSize := |file|;
      rewriteBaseSize := currentSize;
      buf := [];
    }

    method RenameOver(content: ByteString)
      modifies `file, `disk
      ensures Current() == old(Current()).(file := content, disk := [content])
    {
      file := content;
      disk := [content];
    }

    method RewriteSucceeded()
      modifies `lastRewriteOk, `mode
      ensures Current() == old(Current()).(lastRewriteOk := true, mode := if old(mode) == WaitRewrite then On else old(mode))
    {
      lastRewriteOk := true;
      if mode == WaitRewrite {
        mode := On;
      }
    }

    /** rename succeeded: the new file takes the place of the old one and of the buffer. */
    method SwitchFile(content: ByteString)
      modifies `file, `disk, `selectedDb, `currentSize, `rewriteBaseSize, `buf, `lastRewriteOk, `mode
      ensures Current() == SwapIn(old(Current()), content)
    {
      RenameOver(content);
      if fdOpen {
        UseNewFile();
      }
      RewriteSucceeded();
    }

    /** The cleanup label. */
    method CleanUp()
      modifies `child, `rewriteScheduled
      ensures Current() == Cleanup(old(Current()))
    {
      child := None;
      if mode == WaitRewrite {
        rewriteScheduled := true;
      }
    }

    /** Called when the child is gone: it finished with success, or died. */
    method BackgroundRewriteDoneHandler(call: DoneCall)
      requires child.Some? && (child.value.phase == Finished || child.value.phase == Dead)
      modifies this
      ensures Current() == Done(old(Current()), call)
    {
      hide SwapIn, Cleanup;
      if child.value.phase == Finished {
        if call.openOk && call.diffOk && call.renameOk {
          SwitchFile(child.value.temp + child.value.buffer);
        }
      } else {
        lastRewriteOk := false;
      }
      CleanUp();
    }
  }
}

/**
 What is not a well-formed stream: headers that are rejected, clients that are closed for
 them, reads that free a client, and clients whose bytes are only stored.
 */
module BadRequests {
  import opened Options
  import opened Bytes
  import opened Resp
  import opened QueryParser
  import opened RequestLoop

  /** Bytes of a line that strchr looks past. */
  predicate Clean(s: ByteString) { forall i :: 0 <= i < |s| ==> s[i] != CR && s[i] != 0 }

  /** The canonical form of a number in a range, which lies within 64 bits. */
  ghost predicate IsNumberIn(num: ByteString, low: int, high: int) {
    exists v: int :: low <= v <= high && INT64_MIN <= v <= INT64_MAX && num == SignedDecimal(v)
  }

  lemma NumberIff(num: ByteString, low: int, high: int)
    ensures IsNumberIn(num, low, high) <==> String2ll(num).Some? && low <= String2ll(num).value <= high
  {
    if String2ll(num).Some? {
      String2llExact(num, String2ll(num).value);
    }
    if v: int :| low <= v <= high && INT64_MIN <= v <= INT64_MAX && num == SignedDecimal(v) {
      String2llExact(num, v);
    }
  }

  /** A header line is found up to its CR. */
  lemma LineIsFound(first: byte, num: ByteString, rest: ByteString)
    requires first != CR && first != 0 && Clean(num)
    ensures var buf := [first] + num + CRLF + rest; var i := |num| + 1;
            FindCR(buf) == Some(i) && i + 2 <= |buf| && buf[0] == first && buf[1..i] == num && buf[i + 2..] == rest
  {
    var buf, i := [first] + num + CRLF + rest, |num| + 1;
    forall k | 0 <= k < i ensures buf[k] != CR && buf[k] != 0 {
      assert k > 0 ==> buf[k] == num[k - 1];
    }
    assert buf[i] == CR;
    FindCRAfter(buf, i);
  }

  // ---------- headers ----------

  /**
   A count that is no canonical number up to 1048576 is rejected and the buffer left alone;
   one that is not positive is an empty request, which is read to its end.
   */
  lemma CountIsChecked(p: Parse, maxBulk: int, num: ByteString, rest: ByteString)
    requires p.skipped == [] && p.multibulklen == 0 && p.bulklen == -1 && Clean(num)
    requires p.buf == [STAR] + num + CRLF + rest
    ensures !IsNumberIn(num, INT64_MIN, 1048576) ==> ReadCommand(p, maxBulk) == (p, Rejected)
    ensures IsNumberIn(num, INT64_MIN, 0) ==> ReadCommand(p, maxBulk) == (p.(buf := rest), Ready)
  {
    LineIsFound(STAR, num, rest);
    NumberIff(num, INT64_MIN, 1048576);
    NumberIff(num, INT64_MIN, 0);
    NumberIff(num, INT64_MIN, INT64_MAX);
    if String2ll(num).Some? {
      String2llExact(num, String2ll(num).value);
    }
    hide ReadArgs, FindCR, String2ll, IsNumberIn;
  }

  /** Without the end of a line the parser waits, up to 65536 bytes. */
  lemma EndlessCount(p: Parse, maxBulk: int)
    requires p.skipped == [] && p.multibulklen == 0 && p.bulklen == -1 && Clean(p.buf) && p.buf != [] && p.buf[0] == STAR
    ensures ReadCommand(p, maxBulk) == (p, if |p.buf| > 65536 then Rejected else Incomplete)
  {
    FindCRAfter(p.buf, |p.buf|);
  }

  /** So is a length line that starts otherwise than with a dollar, or has no canonical number up to the limit. */
  lemma LengthIsChecked(p: Parse, maxBulk: int, first: byte, num: ByteString, rest: ByteString)
    requires p.multibulklen > 0 && p.bulklen == -1 && first != CR && first != 0 && Clean(num)
    requires p.buf == [first] + num + CRLF + rest
    ensures first != DOLLAR || !IsNumberIn(num, 0, maxBulk) ==> ReadArgs(p, maxBulk) == (p.(skipped := []), Rejected)
    ensures first == DOLLAR && IsNumberIn(num, 0, maxBulk) ==>
              ReadBulkHeader(p, maxBulk).1 == Ready && ReadBulkHeader(p, maxBulk).0.buf == rest
              && num == SignedDecimal(ReadBulkHeader(p, maxBulk).0.bulklen)
  {
    LineIsFound(first, num, rest);
    NumberIff(num, 0, maxBulk);
    if String2ll(num).Some? {
      String2llExact(num, String2ll(num).value);
    }
    hide FindCR, String2ll, IsNumberIn, SignedDecimal;
    assert ReadBulkHeader(p, maxBulk).1 == Rejected ==>
      ReadArgs(p, maxBulk) == (Trim(ReadBulkHeader(p, maxBulk).0), Rejected);
  }

  lemma EndlessLength(p: Parse, maxBulk: int)
    requires p.multibulklen > 0 && p.bulklen == -1 && Clean(p.buf)
    ensures ReadArgs(p, maxBulk).1 == if |p.skipped| + |p.buf| > 65536 then Rejected else Incomplete
  {
    FindCRAfter(p.buf, |p.buf|);
  }

  // ---------- the client that sent them ----------

  /** A rejected request is not executed, and its client is closed after the reply. */
  lemma RejectionCloses(st: State, cfg: Config)
    requires Valid(st) && !Stopped(st, cfg) && st.querybuf != []
    requires st.reqtype == Multibulk || (st.reqtype == Unknown && st.querybuf[0] == STAR)
    requires ReadCommand(ToParse(st), cfg.maxBulk).1 == Rejected
    ensures var r := Process(st, cfg);
            && r.flags == st.flags.(closing := true) && r.executed == st.executed && r.gone == st.gone
            && r.querybuf == ReadCommand(ToParse(st), cfg.maxBulk).0.buf
  {
    hide ReadCommand;
    var begun := if st.reqtype == Unknown then st.(reqtype := Multibulk) else st;
    assert ToParse(begun) == ToParse(st);
    assert ProcessOne(st, cfg) == MultibulkOne(begun, cfg);
  }

  /** The first line of a request: with a bad count nothing more of the buffer is looked at. */
  lemma BadCountCloses(st: State, cfg: Config, num: ByteString, rest: ByteString)
    requires Valid(st) && !Stopped(st, cfg) && st.multibulklen == 0 && st.reqtype != Inline
    requires st.querybuf == [STAR] + num + CRLF + rest && Clean(num) && !IsNumberIn(num, INT64_MIN, 1048576)
    ensures var r := Process(st, cfg);
            r.flags == st.flags.(closing := true) && r.executed == st.executed && r.querybuf == st.querybuf
  {
    CountIsChecked(ToParse(st), cfg.maxBulk, num, rest);
    hide ReadCommand, Process, IsNumberIn;
    RejectionCloses(st, cfg);
  }

  /** A length line inside of a request. */
  lemma BadLengthCloses(st: State, cfg: Config, first: byte, num: ByteString, rest: ByteString)
    requires Valid(st) && !Stopped(st, cfg) && st.multibulklen > 0 && st.bulklen == -1
    requires st.querybuf == [first] + num + CRLF + rest && first != CR && first != 0 && Clean(num)
    requires first != DOLLAR || !IsNumberIn(num, 0, cfg.maxBulk)
    ensures var r := Process(st, cfg);
            r.flags == st.flags.(closing := true) && r.executed == st.executed && r.querybuf == st.querybuf
  {
    LengthIsChecked(ToParse(st), cfg.maxBulk, first, num, rest);
    assert ReadCommand(ToParse(st), cfg.maxBulk) == ReadArgs(ToParse(st), cfg.maxBulk);
    hide ReadCommand, ReadArgs, Process, IsNumberIn;
    RejectionCloses(st, cfg);
  }

  /**
   A request that was executed is forgotten, unless a module has blocked its client and will
   answer it; one that failed is kept for a client that is freed or closed.
   */
  lemma RequestIsReset(st: State, cfg: Config)
    requires st.argv != []
    ensures var r := Dispatch(st, cfg);
            r.executed == st.executed + [st.argv] &&
            match cfg.processCommand(st.executed, st.argv)
            case Failed(flags, gone) => r.gone == gone && r.flags.closing && r.argv == st.argv
            case Executed(flags) =>
              && r.flags == flags && r.gone == st.gone
              && (flags.blocked && flags.moduleBlocked ==> r.argv == st.argv && r.reqtype == st.reqtype)
              && (!flags.blocked || !flags.moduleBlocked ==>
                    r.argv == [] && r.multibulklen == 0 && r.bulklen == -1 && r.reqtype == Unknown)
  {
  }

  // ---------- reads ----------

  /** What read returned is either the end of the client, or nothing, or bytes for the buffer. */
  lemma ReadIs(st: State, cfg: Config, result: ReadResult)
    requires Valid(st) && Aligned(st, cfg) && !st.gone
    ensures var r := Read(st, cfg, result);
            match result
            case WouldBlock => r == st
            case ReadError => r == st.(gone := true)
            case EndOfFile => r == st.(gone := true)
            case Data(bytes) =>
              if |st.querybuf| + |bytes| > cfg.maxQuerybuf then
                r.gone && r.executed == st.executed && r.forwarded == st.forwarded
              else
                (st.flags.blocked || st.flags.closing || (st.flags.paused && !cfg.slave)) ==>
                  !r.gone && r.executed == st.executed && r.querybuf == st.querybuf + bytes && r.forwarded == st.forwarded
  {
    if result.Data? {
      hide ProcessOne;
    }
  }

  /** No command frees its own client. */
  ghost predicate NeverFrees(cfg: Config) {
    forall done, cmd :: cfg.processCommand(done, cmd).Failed? ==> !cfg.processCommand(done, cmd).gone
  }

  lemma OneStaysAlive(st: State, cfg: Config)
    requires Valid(st) && !Stopped(st, cfg) && st.querybuf != [] && NeverFrees(cfg)
    ensures !ProcessOne(st, cfg).0.gone
  {
    hide ReadCommand, Valid;
  }

  lemma {:induction false} ProcessStaysAlive(st: State, cfg: Config)
    requires Valid(st) && !st.gone && NeverFrees(cfg)
    ensures !Process(st, cfg).gone
    decreases |st.querybuf|
  {
    if st.querybuf != [] && !Stopped(st, cfg) {
      OneStaysAlive(st, cfg);
      hide ProcessOne, Valid, NeverFrees;
      if ProcessOne(st, cfg).1 {
        ProcessStaysAlive(ProcessOne(st, cfg).0, cfg);
      }
    }
  }

  /** Then a read frees it if and only if it failed, reported the end, or filled the buffer beyond its limit. */
  lemma FreedByReadIff(st: State, cfg: Config, result: ReadResult)
    requires Valid(st) && Aligned(st, cfg) && !st.gone && NeverFrees(cfg)
    ensures Read(st, cfg, result).gone
            <==> result == ReadError || result == EndOfFile
                 || (result.Data? && |st.querybuf| + |result.bytes| > cfg.maxQuerybuf)
  {
    if result.Data? && |st.querybuf| + |result.bytes| <= cfg.maxQuerybuf {
      var st1 := Received(st, cfg, result.bytes);
      assert Valid(st1);
      ProcessStaysAlive(st1, cfg);
      hide Process, Valid, NeverFrees;
    }
  }
}

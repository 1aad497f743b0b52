/**
 What the request loop promises over whole runs: however a stream of commands is cut
 into reads, exactly the commands that have fully arrived are executed, in order; and
 a replica forwards exactly the part of its master's stream that it has applied.
 */
module RequestTheorems {
  import opened Options
  import opened Bytes
  import opened Resp
  import opened QueryParser
  import opened RequestLoop

  // ---------- replication ----------

  /** The bytes a run of reads stores; none any more once the client is freed. */
  function Stored(st: State, cfg: Config, results: seq<ReadResult>): ByteString
    requires Valid(st) && Aligned(st, cfg)
    decreases |results|
  {
    if results == [] then []
    else
      (if !st.gone && results[0].Data? then results[0].bytes else [])
      + Stored(Read(st, cfg, results[0]), cfg, results[1..])
  }

  /** The stream received since offset `base`, split at the applied offset. */
  ghost predicate Forwards(st: State, base: int, stream: ByteString) {
    && base <= st.reploff <= st.readReploff == base + |stream|
    && st.forwarded == stream[..st.reploff - base]
    && st.pending == stream[st.reploff - base..]
  }

  lemma ReceivedForwards(st: State, cfg: Config, bytes: ByteString, base: int, stream: ByteString)
    requires cfg.master && Forwards(st, base, stream)
    ensures Forwards(Received(st, cfg, bytes), base, stream + bytes)
  {
    var i := st.reploff - base;
    assert (stream + bytes)[..i] == stream[..i];
    assert (stream + bytes)[i..] == stream[i..] + bytes;
  }

  /** Feeding the newly applied bytes to the slaves moves the split to the new offset. */
  lemma FeedForwards(st1: State, st2: State, cfg: Config, base: int, stream: ByteString)
    requires Forwards(st1, base, stream) && Steady(st1, st2) && Aligned(st1, cfg) && Valid(st2) && cfg.master
    ensures st1.reploff <= st2.reploff && Forwards(FeedSlaves(st1.reploff, st2, cfg), base, stream)
  {
    Slices(stream, st1.reploff - base, st2.reploff - base);
  }

  lemma ReadForwards(st: State, cfg: Config, result: ReadResult, base: int, stream: ByteString)
    requires Valid(st) && Aligned(st, cfg) && cfg.master && Forwards(st, base, stream)
    ensures var r := Read(st, cfg, result);
            st.reploff <= r.reploff
            && Forwards(r, base, stream + if !st.gone && result.Data? then result.bytes else [])
  {
    hide Process;
    if st.gone || !result.Data? {
      assert stream + [] == stream;
    } else {
      var st1 := Received(st, cfg, result.bytes);
      ReceivedForwards(st, cfg, result.bytes, base, stream);
      if |st1.querybuf| <= cfg.maxQuerybuf {
        hide Forwards;
        FeedForwards(st1, Process(st1, cfg), cfg, base, stream + result.bytes);
      }
    }
  }

  /**
   Over every run of reads from a master, whatever the bytes and however they are cut:
   the forwarded bytes are the stream up to reploff, the pending ones the rest.
   */
  lemma {:induction false} ReplicationForwarding(st: State, cfg: Config, results: seq<ReadResult>,
                                                 base: int, stream: ByteString)
    requires Valid(st) && Aligned(st, cfg) && cfg.master && Forwards(st, base, stream)
    ensures var r := ReadAll(st, cfg, results);
            st.reploff <= r.reploff && Forwards(r, base, stream + Stored(st, cfg, results))
    decreases |results|
  {
    if results == [] {
      assert stream + [] == stream;
    } else {
      var piece := if !st.gone && results[0].Data? then results[0].bytes else [];
      ReadForwards(st, cfg, results[0], base, stream);
      var next := Read(st, cfg, results[0]);
      ReplicationForwarding(next, cfg, results[1..], base, stream + piece);
      Associative(stream, piece, Stored(next, cfg, results[1..]));
    }
  }

  // ---------- chunk independence ----------

  function Flatten(chunks: seq<ByteString>): ByteString {
    if chunks == [] then [] else chunks[0] + Flatten(chunks[1..])
  }

  /** Every chunk is something read could return for the length asked at that moment. */
  ghost predicate CutToReads(st: State, cfg: Config, chunks: seq<ByteString>)
    requires Valid(st) && Aligned(st, cfg)
    decreases |chunks|
  {
    chunks != [] ==>
      && 0 < |chunks[0]| <= ReadLen(st)
      && CutToReads(Read(st, cfg, Data(chunks[0])), cfg, chunks[1..])
  }

  function DataOf(chunks: seq<ByteString>): (r: seq<ReadResult>)
    ensures |r| == |chunks|
  {
    seq(|chunks|, i requires 0 <= i < |chunks| => Data(chunks[i]))
  }

  /** Executing the commands in order never pauses, blocks or closes the client. */
  ghost predicate RunsThrough(cfg: Config, cmds: seq<Command>) {
    forall k :: 0 <= k < |cmds| ==> RunsOn(cfg, cfg.processCommand(cmds[..k], cmds[k]))
  }

  predicate RunsOn(cfg: Config, effect: Effect) {
    effect.Executed? && !effect.flags.blocked && !effect.flags.closing && (cfg.slave || !effect.flags.paused)
  }

  predicate Settings(cfg: Config) {
    cfg.maxBulk <= INT64_MAX && PROTO_INLINE_MAX_SIZE <= cfg.maxQuerybuf && cfg.maxBulk + 2 <= cfg.maxQuerybuf
  }

  ghost predicate Sendable(cfg: Config, cmds: seq<Command>) {
    Settings(cfg) && RunsThrough(cfg, cmds) && forall k :: 0 <= k < |cmds| ==> Fits(cmds[k], cfg.maxBulk)
  }

  /** The client has executed a prefix of `cmds`, is inside the next one, and `t` is to come. */
  ghost predicate Following(st: State, cfg: Config, cmds: seq<Command>, t: ByteString) {
    var k := |st.executed|;
    && Valid(st) && !Stopped(st, cfg) && !st.reqtype.Inline?
    && k <= |cmds| && st.executed == cmds[..k]
    && (if st.multibulklen == 0 then st.querybuf + t == EncodeAll(cmds[k..])
        else k < |cmds| && Inside(ToParse(st), cmds[k], EncodeAll(cmds[k + 1..]), t))
  }

  /** The next item of the stream is not complete in the buffer. */
  ghost predicate Waiting(st: State, cmds: seq<Command>) {
    var k := |st.executed|;
    if st.multibulklen == 0 then
      st.querybuf == [] || (k < |cmds| && |st.querybuf| < |Header(STAR, |cmds[k]|)|)
    else k < |cmds| && |st.argv| < |cmds[k]| && Starved(ToParse(st), cmds[k])
  }

  /** Consuming a whole command also consumes what its next argument needs. */
  lemma ConsumedEnough(p: Parse, cmd: Command, tail: ByteString, t: ByteString, rest: ByteString)
    requires Inside(p, cmd, tail, t) && rest + t == tail
    ensures p.bulklen != -1 ==> |rest| + p.bulklen + 2 <= |p.buf|
    ensures |rest| <= |p.buf|
  {
    assert |p.buf| + |t| == |ArgsLeft(cmd, |p.argv|, p.bulklen != -1)| + |tail|;
  }

  /** The bytes of a whole command in the stream. */
  lemma NextCommand(cmds: seq<Command>, k: nat)
    requires k < |cmds|
    ensures EncodeAll(cmds[k..]) == Encode(cmds[k]) + EncodeAll(cmds[k + 1..])
    ensures Encode(cmds[k]) == Header(STAR, |cmds[k]|) + ArgsLeft(cmds[k], 0, false)
  {
    assert cmds[k..][0] == cmds[k] && cmds[k..][1..] == cmds[k + 1..];
    assert cmds[k][0..] == cmds[k];
  }

  lemma HeaderIsRead(p: Parse, maxBulk: int, cmd: Command, tail: ByteString, t: ByteString)
    requires p.skipped == [] && p.argv == [] && p.multibulklen == 0 && p.bulklen == -1
    requires |p.buf| <= PROTO_INLINE_MAX_SIZE && Fits(cmd, maxBulk) && maxBulk <= INT64_MAX
    requires var h := |Header(STAR, |cmd|)|;
             && h <= |p.buf| && p.buf[0] == STAR && FindCR(p.buf) == Some(h - 2)
             && String2ll(p.buf[1..h - 2]) == Some(|cmd|) && p.buf[h..] + t == ArgsLeft(cmd, 0, false) + tail
    ensures var (q, o) := ReadCommand(p, maxBulk);
            match o
            case Rejected => false
            case Ready => q.argv == cmd && q.buf + t == tail
            case Incomplete => q.multibulklen != 0 && Inside(q, cmd, tail, t) && Starved(q, cmd)
  {
    hide String2ll, FindCR, ReadArgs, EncodeBulks;
    var h := |Header(STAR, |cmd|)|;
    var p' := Parse(p.buf[..h], p.buf[h..], [], |cmd|, -1);
    assert ReadCommand(p, maxBulk) == ReadArgs(p', maxBulk);
    assert Inside(p', cmd, tail, t);
    ReadArgsFollows(p', maxBulk, cmd, tail, t);
  }

  /** From between two commands: the header is awaited, or read and followed. */
  lemma ReadHeaderFollows(p: Parse, maxBulk: int, cmd: Command, tail: ByteString, t: ByteString)
    requires p.skipped == [] && p.argv == [] && p.multibulklen == 0 && p.bulklen == -1
    requires p.buf != [] && p.buf + t == Encode(cmd) + tail
    requires |p.buf| <= PROTO_INLINE_MAX_SIZE && Fits(cmd, maxBulk) && maxBulk <= INT64_MAX
    ensures p.buf[0] == STAR
    ensures var (q, o) := ReadCommand(p, maxBulk);
            match o
            case Rejected => false
            case Ready => q.argv == cmd && q.buf + t == tail
            case Incomplete =>
              if q.multibulklen == 0 then q == p && |p.buf| < |Header(STAR, |cmd|)|
              else Inside(q, cmd, tail, t) && Starved(q, cmd)
  {
    hide String2ll, EncodeAll, EncodeBulks, ReadArgs, FindCR;
    var header := Header(STAR, |cmd|);
    var h := |header|;
    var body := ArgsLeft(cmd, 0, false);
    assert cmd[0..] == cmd;
    Associative(header, body, tail);
    assert p.buf[0] == (p.buf + t)[0] == header[0];
    HeaderScan(STAR, |cmd|, body + tail, p.buf, t);
    if |p.buf| >= h {
      HeaderIsRead(p, maxBulk, cmd, tail, t);
    }
  }

  /** Running the command that was read moves on to the next one. */
  lemma DispatchFollows(st: State, cfg: Config, cmds: seq<Command>, t: ByteString)
    requires !Stopped(st, cfg) && Sendable(cfg, cmds)
    requires var k := |st.executed|;
             k < |cmds| && st.executed == cmds[..k] && st.argv == cmds[k]
             && st.querybuf + t == EncodeAll(cmds[k + 1..])
    ensures Following(Dispatch(st, cfg), cfg, cmds, t)
    ensures Dispatch(st, cfg).bulklen == -1
  {
    var k := |st.executed|;
    assert Fits(cmds[k], cfg.maxBulk);
    assert RunsOn(cfg, cfg.processCommand(cmds[..k], cmds[k]));
    assert cmds[..k + 1] == cmds[..k] + [cmds[k]];
  }

  /** The next command of the stream, read from wherever the client stands. */
  lemma ReadCommandFollows(st: State, cfg: Config, cmds: seq<Command>, t: ByteString)
    requires Following(st, cfg, cmds, t) && Sendable(cfg, cmds)
    requires Roomy(ToParse(st)) && st.querybuf != []
    ensures st.multibulklen == 0 ==> st.querybuf[0] == STAR
    ensures var k := |st.executed|;
            k < |cmds|
            && var (q, o) := ReadCommand(ToParse(st), cfg.maxBulk);
               |q.buf| <= |st.querybuf|
               && match o
                  case Rejected => false
                  case Ready => q.argv == cmds[k] && q.buf + t == EncodeAll(cmds[k + 1..])
                                && (st.bulklen != -1 ==> |q.buf| + st.bulklen + 2 <= |st.querybuf|)
                  case Incomplete =>
                    if q.multibulklen == 0 then q == ToParse(st) && |st.querybuf| < |Header(STAR, |cmds[k]|)|
                    else Inside(q, cmds[k], EncodeAll(cmds[k + 1..]), t) && Starved(q, cmds[k])
  {
    var k := |st.executed|;
    var p := ToParse(st);
    assert cmds[|cmds|..] == [];
    var tail := EncodeAll(cmds[k + 1..]);
    assert Fits(cmds[k], cfg.maxBulk);
    if st.multibulklen == 0 {
      NextCommand(cmds, k);
      ReadHeaderFollows(p, cfg.maxBulk, cmds[k], tail, t);
    } else {
      ReadArgsFollows(p, cfg.maxBulk, cmds[k], tail, t);
      var (q, o) := ReadArgs(p, cfg.maxBulk);
      if o == Ready {
        ConsumedEnough(p, cmds[k], tail, t, q.buf);
      }
    }
  }

  /** A command that has not fully arrived leaves the client inside it. */
  lemma IncompleteFollows(st: State, q: Parse, cfg: Config, cmds: seq<Command>, t: ByteString)
    requires Following(st, cfg, cmds, t) && |st.executed| < |cmds| && Valid(WithParse(st, q)) && q.skipped == []
    requires var cmd := cmds[|st.executed|];
             if q.multibulklen == 0 then q == ToParse(st) && |st.querybuf| < |Header(STAR, |cmd|)|
             else Inside(q, cmd, EncodeAll(cmds[|st.executed| + 1..]), t) && Starved(q, cmd)
    ensures Following(WithParse(st, q), cfg, cmds, t) && Waiting(WithParse(st, q), cmds)
  {
    assert ToParse(WithParse(st, q)) == q;
  }

  /** One turn of the request loop follows the stream by one command, or waits for more. */
  lemma ProcessOneFollows(st: State, cfg: Config, cmds: seq<Command>, t: ByteString)
    requires Following(st, cfg, cmds, t) && Sendable(cfg, cmds)
    requires Roomy(ToParse(st)) && st.querybuf != []
    ensures var (r, more) := ProcessOne(st, cfg);
            Following(r, cfg, cmds, t) && (if more then Roomy(ToParse(r)) else Waiting(r, cmds))
  {
    hide ReadCommand, EncodeAll, Inside, Starved, Header, Dispatch, Sendable, Waiting;
    var st1 := if st.reqtype.Unknown? then st.(reqtype := Multibulk) else st;
    ReadCommandFollows(st, cfg, cmds, t);
    var (q, o) := ReadCommand(ToParse(st1), cfg.maxBulk);
    assert ToParse(st1) == ToParse(st);
    assert ProcessOne(st, cfg) == MultibulkOne(st1, cfg);
    if o == Ready {
      DispatchFollows(WithParse(st1, q), cfg, cmds, t);
    } else {
      IncompleteFollows(st1, q, cfg, cmds, t);
    }
  }

  /** The request loop runs every command that has arrived and then waits. */
  lemma {:induction false} ProcessFollows(st: State, cfg: Config, cmds: seq<Command>, t: ByteString)
    requires Following(st, cfg, cmds, t) && Sendable(cfg, cmds) && Roomy(ToParse(st))
    ensures var r := Process(st, cfg);
            Following(r, cfg, cmds, t) && Waiting(r, cmds)
    decreases |st.querybuf|
  {
    if st.querybuf != [] {
      ProcessOneFollows(st, cfg, cmds, t);
      var (r, more) := ProcessOne(st, cfg);
      if more {
        ProcessFollows(r, cfg, cmds, t);
      }
    } else if st.multibulklen != 0 {
      assert st.bulklen == -1 || st.bulklen >= 0;
    }
  }

  lemma WaitingIsShort(st: State, cfg: Config, cmds: seq<Command>, t: ByteString)
    requires Following(st, cfg, cmds, t) && Waiting(st, cmds) && Sendable(cfg, cmds)
    ensures if st.bulklen == -1 then |st.querybuf| < 22 else |st.querybuf| < st.bulklen + 2 <= cfg.maxBulk + 2
  {
    var k := |st.executed|;
    if k < |cmds| {
      assert Fits(cmds[k], cfg.maxBulk);
      HeaderLength(STAR, |cmds[k]|);
      if |st.argv| < |cmds[k]| {
        HeaderLength(DOLLAR, |cmds[k][|st.argv|]|);
      }
    }
  }

  lemma AsksForBytes(st: State, cfg: Config, cmds: seq<Command>, t: ByteString)
    requires Following(st, cfg, cmds, t) && Waiting(st, cmds) && Sendable(cfg, cmds)
    ensures 0 < ReadLen(st) <= PROTO_IOBUF_LEN
  {
    WaitingIsShort(st, cfg, cmds, t);
  }

  /** A waiting client asks for a positive length, and whatever it gets is safe to parse. */
  lemma ReadStaysRoomy(st: State, cfg: Config, cmds: seq<Command>, chunk: ByteString, t: ByteString)
    requires Following(st, cfg, cmds, chunk + t) && Waiting(st, cmds) && Sendable(cfg, cmds)
    requires |chunk| <= ReadLen(st)
    ensures 0 < ReadLen(st) <= PROTO_IOBUF_LEN
    ensures var st1 := Received(st, cfg, chunk);
            Following(st1, cfg, cmds, t) && Roomy(ToParse(st1)) && |st1.querybuf| <= cfg.maxQuerybuf
  {
    WaitingIsShort(st, cfg, cmds, chunk + t);
    Associative(st.querybuf, chunk, t);
    var st1 := Received(st, cfg, chunk);
    if st.multibulklen == 0 && st.reqtype.Multibulk? {
      assert st1.querybuf[0] == st.querybuf[0];
    }
  }

  lemma LogsDoNotMatter(st: State, r: State, cfg: Config, cmds: seq<Command>, t: ByteString)
    requires Following(st, cfg, cmds, t) && Waiting(st, cmds)
    requires r == st.(forwarded := r.forwarded, pending := r.pending)
    ensures Following(r, cfg, cmds, t) && Waiting(r, cmds)
  {
    assert ToParse(r) == ToParse(st);
  }

  lemma ReadFollows(st: State, cfg: Config, cmds: seq<Command>, chunk: ByteString, t: ByteString)
    requires Following(st, cfg, cmds, chunk + t) && Waiting(st, cmds) && Sendable(cfg, cmds) && Aligned(st, cfg)
    requires 0 < |chunk| <= ReadLen(st)
    ensures var r := Read(st, cfg, Data(chunk));
            Following(r, cfg, cmds, t) && Waiting(r, cmds)
  {
    ReadStaysRoomy(st, cfg, cmds, chunk, t);
    var st1 := Received(st, cfg, chunk);
    ProcessFollows(st1, cfg, cmds, t);
    var r := Read(st, cfg, Data(chunk));
    assert r == Process(st1, cfg).(forwarded := r.forwarded, pending := r.pending);
    LogsDoNotMatter(Process(st1, cfg), r, cfg, cmds, t);
  }

  lemma ReadAllFirst(st: State, cfg: Config, chunks: seq<ByteString>)
    requires Valid(st) && Aligned(st, cfg) && chunks != []
    ensures ReadAll(st, cfg, DataOf(chunks)) == ReadAll(Read(st, cfg, Data(chunks[0])), cfg, DataOf(chunks[1..]))
  {
    assert DataOf(chunks)[1..] == DataOf(chunks[1..]);
  }

  lemma {:induction false} ReadAllFollows(st: State, cfg: Config, cmds: seq<Command>, chunks: seq<ByteString>, t: ByteString)
    requires Following(st, cfg, cmds, Flatten(chunks) + t) && Waiting(st, cmds) && Sendable(cfg, cmds)
    requires Aligned(st, cfg) && CutToReads(st, cfg, chunks)
    ensures var r := ReadAll(st, cfg, DataOf(chunks));
            Following(r, cfg, cmds, t) && Waiting(r, cmds)
    decreases |chunks|
  {
    if chunks == [] {
      assert [] + t == t;
    } else {
      Associative(chunks[0], Flatten(chunks[1..]), t);
      ReadAllFirst(st, cfg, chunks);
      ReadFollows(st, cfg, cmds, chunks[0], Flatten(chunks[1..]) + t);
      var next := Read(st, cfg, Data(chunks[0]));
      ReadAllFollows(next, cfg, cmds, chunks[1..], t);
    }
  }

  /** One byte per read. */
  function Singles(s: ByteString): (chunks: seq<ByteString>)
    ensures Flatten(chunks) == s
  {
    if s == [] then [] else [[s[0]]] + Singles(s[1..])
  }

  /** A waiting client never stops asking: any stream can reach it, byte by byte at worst. */
  lemma {:induction false} StreamCanArrive(st: State, cfg: Config, cmds: seq<Command>, s: ByteString, t: ByteString)
    requires Following(st, cfg, cmds, s + t) && Waiting(st, cmds) && Sendable(cfg, cmds) && Aligned(st, cfg)
    ensures CutToReads(st, cfg, Singles(s))
    decreases |s|
  {
    hide Waiting, Sendable, Read, ReadLen;
    if s != [] {
      assert [s[0]] + (s[1..] + t) == s + t;
      AsksForBytes(st, cfg, cmds, s + t);
      ReadFollows(st, cfg, cmds, [s[0]], s[1..] + t);
      StreamCanArrive(Read(st, cfg, Data([s[0]])), cfg, cmds, s[1..], t);
    }
  }

  /** What has been read of the current command: headers and arguments, as they were sent. */
  function Consumed(st: State): ByteString {
    if st.multibulklen == 0 then []
    else Header(STAR, |st.argv| + st.multibulklen) + EncodeBulks(st.argv)
         + if st.bulklen < 0 then [] else Header(DOLLAR, st.bulklen)
  }

  /** A command splits at any argument into what was consumed and what is left. */
  lemma CommandSplits(cmd: Command, n: nat, headerRead: bool)
    requires n <= |cmd| && (headerRead ==> n < |cmd|)
    ensures Encode(cmd) == Header(STAR, |cmd|) + EncodeBulks(cmd[..n])
                           + (if headerRead then Header(DOLLAR, |cmd[n]|) else [])
                           + ArgsLeft(cmd, n, headerRead)
  {
    var header, done, left := Header(STAR, |cmd|), EncodeBulks(cmd[..n]), ArgsLeft(cmd, n, headerRead);
    assert cmd == cmd[..n] + cmd[n..];
    EncodeBulksConcat(cmd[..n], cmd[n..]);
    Associative(header, done, EncodeBulks(cmd[n..]));
    if headerRead {
      NextBulk(cmd, n);
      Associative(header + done, Header(DOLLAR, |cmd[n]|), left);
    } else {
      assert header + done + [] == header + done;
    }
  }

  /** Inside a command: what was consumed of it and what is left make it up. */
  lemma ConsumedAndLeft(st: State, cmd: Command, tail: ByteString, t: ByteString)
    requires Inside(ToParse(st), cmd, tail, t) && st.multibulklen > 0 && st.bulklen >= -1
    ensures Encode(cmd) == Consumed(st) + ArgsLeft(cmd, |st.argv|, st.bulklen != -1)
  {
    hide EncodeBulks, Header, Encode, ArgsLeft;
    CommandSplits(cmd, |st.argv|, st.bulklen != -1);
  }

  /** The state accounts for every byte: what was read of the command, the buffer, the rest. */
  lemma ResumeInvariant(st: State, cfg: Config, cmds: seq<Command>, t: ByteString)
    requires Following(st, cfg, cmds, t)
    ensures Consumed(st) + st.querybuf + t == EncodeAll(cmds[|st.executed|..])
    ensures st.multibulklen != 0 ==> |st.argv| + st.multibulklen == |cmds[|st.executed|]|
  {
    var k := |st.executed|;
    hide EncodeAll, EncodeBulks, Header;
    if st.multibulklen == 0 {
      assert [] + st.querybuf == st.querybuf;
    } else {
      hide Consumed;
      var tail, left := EncodeAll(cmds[k + 1..]), ArgsLeft(cmds[k], |st.argv|, st.bulklen != -1);
      NextCommand(cmds, k);
      ConsumedAndLeft(st, cmds[k], tail, t);
      Associative(Consumed(st), st.querybuf, t);
      Associative(Consumed(st), left, tail);
    }
  }

  /** What is left of a command is more than its next item. */
  lemma LeftIsLonger(cmd: Command, n: nat, headerRead: bool)
    requires n < |cmd|
    ensures |ArgsLeft(cmd, n, headerRead)| >= if headerRead then |cmd[n]| + 2 else |Header(DOLLAR, |cmd[n]|)| + |cmd[n]| + 2
  {
    assert cmd[n..][0] == cmd[n];
  }

  /** Where a waiting client stands in bytes: less than one command past what it executed. */
  lemma WaitingPosition(st: State, cfg: Config, cmds: seq<Command>, t: ByteString)
    requires Following(st, cfg, cmds, t) && Waiting(st, cmds) && |st.executed| < |cmds|
    ensures |Consumed(st)| + |st.querybuf| < |Encode(cmds[|st.executed|])|
  {
    var k := |st.executed|;
    NextCommand(cmds, k);
    hide EncodeAll, EncodeBulks, Header;
    if st.multibulklen != 0 {
      hide Consumed;
      ConsumedAndLeft(st, cmds[k], EncodeAll(cmds[k + 1..]), t);
      LeftIsLonger(cmds[k], |st.argv|, st.bulklen != -1);
    }
  }

  lemma SizeOfPrefix(cmds: seq<Command>, k: nat)
    requires k <= |cmds|
    ensures |EncodeAll(cmds)| == |EncodeAll(cmds[..k])| + |EncodeAll(cmds[k..])|
    ensures k < |cmds| ==> |EncodeAll(cmds[..k + 1])| == |EncodeAll(cmds[..k])| + |Encode(cmds[k])|
  {
    assert cmds == cmds[..k] + cmds[k..];
    EncodeAllConcat(cmds[..k], cmds[k..]);
    if k < |cmds| {
      assert cmds[..k + 1] == cmds[..k] + [cmds[k]];
      EncodeAllConcat(cmds[..k], [cmds[k]]);
      assert EncodeAll([cmds[k]]) == Encode(cmds[k]) + EncodeAll([]);
    }
  }

  /** A waiting client holds no complete command that it has not executed. */
  lemma WaitingIsCaughtUp(st: State, cfg: Config, cmds: seq<Command>, arrived: ByteString, t: ByteString)
    requires Following(st, cfg, cmds, t) && Waiting(st, cmds)
    requires arrived + t == EncodeAll(cmds)
    ensures |st.executed| == Complete(cmds, |arrived|)
  {
    var k := |st.executed|;
    ResumeInvariant(st, cfg, cmds, t);
    SizeOfPrefix(cmds, k);
    if k < |cmds| {
      WaitingPosition(st, cfg, cmds, t);
    } else {
      assert cmds[k..] == [];
    }
    CompleteIsMaximal(cmds, |arrived|, k);
  }

  /** When nothing is to come, a waiting client has executed everything and holds nothing. */
  lemma AtTheEnd(st: State, cfg: Config, cmds: seq<Command>)
    requires Following(st, cfg, cmds, []) && Waiting(st, cmds)
    ensures st.executed == cmds && st.querybuf == [] && st.argv == [] && st.multibulklen == 0
  {
    var k := |st.executed|;
    ResumeInvariant(st, cfg, cmds, []);
    if k < |cmds| {
      WaitingPosition(st, cfg, cmds, []);
      NextCommand(cmds, k);
    } else {
      assert cmds[..|cmds|] == cmds && cmds[|cmds|..] == [];
    }
  }

  lemma FreshFollows(cfg: Config, offset: int, cmds: seq<Command>)
    ensures Following(Fresh(offset), cfg, cmds, EncodeAll(cmds)) && Waiting(Fresh(offset), cmds)
    ensures Aligned(Fresh(offset), cfg)
  {
    assert cmds[0..] == cmds && cmds[..0] == [];
    assert [] + EncodeAll(cmds) == EncodeAll(cmds);
  }

  /**
   Chunk independence: a fresh client that receives any prefix of a stream of commands,
   cut into reads in any way, has executed exactly the commands that are complete in it,
   was never rejected, and is empty again when the stream ends with a command.
   */
  lemma ChunkIndependence(cfg: Config, offset: int, cmds: seq<Command>, chunks: seq<ByteString>, t: ByteString)
    requires Sendable(cfg, cmds) && CutToReads(Fresh(offset), cfg, chunks)
    requires Flatten(chunks) + t == EncodeAll(cmds)
    ensures var r := ReadAll(Fresh(offset), cfg, DataOf(chunks));
            && r.executed == cmds[..Complete(cmds, |Flatten(chunks)|)]
            && !r.gone && !r.flags.closing
            && 0 < ReadLen(r) <= PROTO_IOBUF_LEN
            && (r.bulklen != -1 ==> |r.querybuf| < r.bulklen + 2)
            && (t == [] ==> r.executed == cmds && r.querybuf == [] && r.argv == [] && r.multibulklen == 0)
  {
    FreshFollows(cfg, offset, cmds);
    hide Fresh, Sendable, EncodeAll, CutToReads, Read, Flatten, Complete;
    var st := Fresh(offset);
    ReadAllFollows(st, cfg, cmds, chunks, t);
    var r := ReadAll(st, cfg, DataOf(chunks));
    WaitingIsCaughtUp(r, cfg, cmds, Flatten(chunks), t);
    AsksForBytes(r, cfg, cmds, t);
    WaitingIsShort(r, cfg, cmds, t);
    if t == [] {
      assert Flatten(chunks) + [] == Flatten(chunks);
      AtTheEnd(r, cfg, cmds);
    }
  }

  // ---------- the big argument ----------

  predicate AwaitsBigArg(st: State) {
    st.reqtype.Multibulk? && st.multibulklen != 0 && st.bulklen >= PROTO_MBULK_BIG_ARG
  }

  /**
   While a big argument is awaited no read goes past its CRLF, and the read that brings
   the last byte leaves exactly the argument in the buffer: it is taken over uncopied.
   */
  lemma BigArgumentIsExact(st: State, cfg: Config, cmds: seq<Command>, chunk: ByteString, t: ByteString)
    requires Following(st, cfg, cmds, chunk + t) && Waiting(st, cmds) && Sendable(cfg, cmds)
    requires AwaitsBigArg(st) && 0 < |chunk| <= ReadLen(st)
    ensures var p := ToParse(Received(st, cfg, chunk));
            var cmd := cmds[|st.executed|];
            && |p.buf| <= p.bulklen + 2
            && (|p.buf| == p.bulklen + 2 <==> ExactlyBigArg(p))
            && (ExactlyBigArg(p) ==>
                  TakeArg(p) == Parse([], [], cmd[..|p.argv| + 1], p.multibulklen - 1, -1))
  {
    ReadStaysRoomy(st, cfg, cmds, chunk, t);
    var k := |st.executed|;
    var p := ToParse(Received(st, cfg, chunk));
    if ExactlyBigArg(p) {
      TakeArgInside(p, cmds[k], EncodeAll(cmds[k + 1..]), t);
    }
  }
}

/**
 The request loop of a connected client, as a function of its state: every read from
 the socket appends to the query buffer, then complete requests are executed one by
 one. For the link to a master it also keeps the replication offsets.
 */
module RequestLoop {
  import opened Bytes
  import opened Resp
  import opened QueryParser

  datatype RequestType = Unknown | Inline | Multibulk

  datatype Flags = Flags(multi: bool, paused: bool, blocked: bool, moduleBlocked: bool, closing: bool)

  /** What processCommand did: C_OK, or C_ERR with the client freed or about to close. */
  datatype Effect = Executed(flags: Flags) | Failed(flags: Flags, gone: bool)

  /** What processInlineBuffer did; on success and on error it eats one byte at least. */
  datatype InlineResult = InlineMore | InlineArgs(argv: seq<ByteString>, more: nat) | InlineBad(more: nat)

  /** The server's settings, and the code this module does not see. */
  datatype Config = Config(
    master: bool, slave: bool, maxBulk: int, maxQuerybuf: nat,
    processInline: ByteString -> InlineResult,
    processCommand: (seq<Command>, Command) -> Effect)

  /**
   A client. `executed` lists the commands handed to processCommand, `forwarded` the
   bytes handed to replicationFeedSlavesFromMasterStream.
   */
  datatype State = State(
    querybuf: ByteString, argv: seq<ByteString>, multibulklen: nat, bulklen: int,
    reqtype: RequestType, flags: Flags, gone: bool,
    reploff: int, readReploff: int, pending: ByteString,
    executed: seq<Command>, forwarded: ByteString)

  predicate Stopped(st: State, cfg: Config) {
    st.gone || (!cfg.slave && st.flags.paused) || st.flags.blocked || st.flags.closing
  }

  /** Stopped for good, or until a module answers: by what the client's own commands did. */
  predicate Halted(st: State) { st.gone || st.flags.blocked || st.flags.closing }

  predicate Valid(st: State) {
    && st.bulklen >= -1
    && (!st.reqtype.Multibulk? ==> st.multibulklen == 0)
    && (st.multibulklen == 0 ==> st.bulklen == -1)
    && (st.multibulklen == 0 && !Halted(st) ==> st.argv == [])
    && (st.multibulklen == 0 && st.reqtype.Multibulk? && !Halted(st)
        ==> st.querybuf != [] && st.querybuf[0] == STAR)
  }

  function ToParse(st: State): Parse {
    Parse([], st.querybuf, st.argv, st.multibulklen, st.bulklen)
  }

  function WithParse(st: State, p: Parse): State {
    st.(querybuf := p.buf, argv := p.argv, multibulklen := p.multibulklen, bulklen := p.bulklen)
  }

  /** resetClient */
  function Reset(st: State): State {
    st.(argv := [], multibulklen := 0, bulklen := -1, reqtype := Unknown)
  }

  /** Runs the request in argv, unless it is empty, and prepares for the next one. */
  function Dispatch(st: State, cfg: Config): (r: State)
    ensures r.querybuf == st.querybuf && r.readReploff == st.readReploff
    ensures r.pending == st.pending && r.forwarded == st.forwarded
    ensures r.reploff == st.reploff || r.reploff == st.readReploff - |st.querybuf|
  {
    if st.argv == [] then Reset(st)
    else
      var ran := st.(executed := st.executed + [st.argv]);
      match cfg.processCommand(st.executed, st.argv)
      case Failed(flags, gone) => ran.(flags := flags.(closing := true), gone := gone)
      case Executed(flags) =>
        var applied := if cfg.master && !flags.multi then ran.(reploff := st.readReploff - |st.querybuf|) else ran;
        var flagged := applied.(flags := flags);
        if flags.blocked && flags.moduleBlocked then flagged else Reset(flagged)
  }

  /** One step keeps what the stream of a master is measured by. */
  ghost predicate Steady(st: State, r: State) {
    && |r.querybuf| <= |st.querybuf|
    && r.readReploff == st.readReploff && r.pending == st.pending && r.forwarded == st.forwarded
    && (r.reploff == st.reploff || st.readReploff - |st.querybuf| <= r.reploff <= st.readReploff - |r.querybuf|)
  }

  function InlineOne(st: State, cfg: Config): (r: (State, bool))
    requires Valid(st) && !Stopped(st, cfg) && st.querybuf != [] && st.reqtype.Inline?
    ensures Valid(r.0) && Steady(st, r.0) && (r.1 ==> |r.0.querybuf| < |st.querybuf|)
  {
    match cfg.processInline(st.querybuf)
    case InlineMore => (st, false)
    case InlineBad(more) =>
      (st.(querybuf := st.querybuf[Min(1 + more, |st.querybuf|)..], flags := st.flags.(closing := true)), false)
    case InlineArgs(argv, more) =>
      (Dispatch(st.(querybuf := st.querybuf[Min(1 + more, |st.querybuf|)..], argv := argv), cfg), true)
  }

  function MultibulkOne(st: State, cfg: Config): (r: (State, bool))
    requires Valid(st) && !Stopped(st, cfg) && st.reqtype.Multibulk?
    ensures Valid(r.0) && Steady(st, r.0) && (r.1 ==> |r.0.querybuf| < |st.querybuf|)
  {
    var (p, outcome) := ReadCommand(ToParse(st), cfg.maxBulk);
    var read := WithParse(st, p);
    match outcome
    case Incomplete => (read, false)
    case Rejected => (read.(flags := read.flags.(closing := true)), false)
    case Ready => (Dispatch(read, cfg), true)
  }

  /** One request from a non-empty buffer; false when the loop has to stop. */
  function ProcessOne(st: State, cfg: Config): (r: (State, bool))
    requires Valid(st) && !Stopped(st, cfg) && st.querybuf != []
    ensures Valid(r.0) && Steady(st, r.0) && (r.1 ==> |r.0.querybuf| < |st.querybuf|)
  {
    if st.reqtype.Unknown? then
      if st.querybuf[0] == STAR then MultibulkOne(st.(reqtype := Multibulk), cfg)
      else InlineOne(st.(reqtype := Inline), cfg)
    else if st.reqtype.Inline? then InlineOne(st, cfg)
    else MultibulkOne(st, cfg)
  }

  /** processInputBuffer */
  function Process(st: State, cfg: Config): (r: State)
    requires Valid(st)
    ensures Valid(r) && Steady(st, r)
    decreases |st.querybuf|
  {
    if st.querybuf == [] || Stopped(st, cfg) then st
    else
      var (next, more) := ProcessOne(st, cfg);
      if more then Process(next, cfg) else next
  }

  /** The length readQueryFromClient asks read for; an int, because nothing bounds it below. */
  function ReadLen(st: State): int {
    if st.reqtype.Multibulk? && st.multibulklen != 0 && st.bulklen != -1 && st.bulklen >= PROTO_MBULK_BIG_ARG
       && st.bulklen + 2 - |st.querybuf| < PROTO_IOBUF_LEN
    then st.bulklen + 2 - |st.querybuf| else PROTO_IOBUF_LEN
  }

  /** What read returned: EAGAIN, another error, end of file, or bytes. */
  datatype ReadResult = WouldBlock | ReadError | EndOfFile | Data(bytes: ByteString)

  /** On the link to a master, the bytes received and not yet applied are kept aside. */
  predicate Aligned(st: State, cfg: Config) {
    cfg.master ==> st.reploff + |st.querybuf| <= st.readReploff && |st.pending| == st.readReploff - st.reploff
  }

  /** What arrived is stored before anything else is looked at. */
  function Received(st: State, cfg: Config, bytes: ByteString): State {
    st.(querybuf := st.querybuf + bytes,
        pending := if cfg.master then st.pending + bytes else st.pending,
        readReploff := if cfg.master then st.readReploff + |bytes| else st.readReploff)
  }

  /** The newly applied bytes of a master's stream are forwarded and not kept any longer. */
  function FeedSlaves(prevOffset: int, st: State, cfg: Config): (r: State)
    requires Valid(st)
    requires cfg.master ==>
               && prevOffset <= st.reploff && st.reploff + |st.querybuf| <= st.readReploff
               && |st.pending| == st.readReploff - prevOffset
    ensures Valid(r) && Aligned(r, cfg)
  {
    if cfg.master && st.reploff != prevOffset then
      var applied := st.reploff - prevOffset;
      st.(forwarded := st.forwarded + st.pending[..applied], pending := st.pending[applied..])
    else st
  }

  /** readQueryFromClient; a freed client gets no more events. */
  function Read(st: State, cfg: Config, result: ReadResult): (r: State)
    requires Valid(st) && Aligned(st, cfg)
    ensures Valid(r) && Aligned(r, cfg)
  {
    if st.gone || result.WouldBlock? then st
    else if !result.Data? then st.(gone := true)
    else
      var st1 := Received(st, cfg, result.bytes);
      if |st1.querybuf| > cfg.maxQuerybuf then st1.(gone := true)
      else
        assert Valid(st1);
        var st2 := Process(st1, cfg);
        FeedSlaves(st1.reploff, st2, cfg)
  }

  function ReadAll(st: State, cfg: Config, results: seq<ReadResult>): (r: State)
    requires Valid(st) && Aligned(st, cfg)
    ensures Valid(r) && Aligned(r, cfg)
    decreases |results|
  {
    if results == [] then st else ReadAll(Read(st, cfg, results[0]), cfg, results[1..])
  }

  function Fresh(offset: int): State {
    State([], [], 0, -1, Unknown, Flags(false, false, false, false, false), false, offset, offset, [], [], [])
  }
}

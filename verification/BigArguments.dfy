/**
 The uncopied path of the parser. The read length is clamped so that a big argument is
 alone in the buffer when its last byte arrives: no big argument is ever copied.
 */
module BigArguments {
  import opened Bytes
  import opened Resp
  import opened QueryParser
  import opened RequestLoop
  import opened RequestTheorems

  /** Every big argument the loop takes from here is taken from a buffer that holds nothing else. */
  predicate ArgsUncopied(p: Parse, maxBulk: int)
    decreases p.multibulklen, if p.bulklen == -1 then 1 else 0
  {
    if p.multibulklen == 0 then true
    else if p.bulklen == -1 then
      var (q, outcome) := ReadBulkHeader(p, maxBulk);
      outcome == Ready ==> ArgsUncopied(q, maxBulk)
    else if p.bulklen < 0 || |p.buf| < p.bulklen + 2 then true
    else (p.bulklen >= PROTO_MBULK_BIG_ARG ==> ExactlyBigArg(p)) && ArgsUncopied(TakeArg(p), maxBulk)
  }

  predicate CommandUncopied(p: Parse, maxBulk: int) {
    if p.multibulklen != 0 then ArgsUncopied(p, maxBulk)
    else
      match FindCR(p.buf)
      case None => true
      case Some(i) =>
        if i + 2 > |p.buf| || i == 0 then true
        else
          var count := String2ll(p.buf[1..i]);
          count.Some? && 0 < count.value <= MAX_ARGC ==>
            ArgsUncopied(Parse(p.buf[..i + 2], p.buf[i + 2..], p.argv, count.value, -1), maxBulk)
  }

  /** The same for every request that the loop of processInputBuffer parses. */
  predicate Uncopied(st: State, cfg: Config)
    requires Valid(st)
    decreases |st.querybuf|
  {
    st.querybuf == [] || Stopped(st, cfg) ||
    var multibulk := st.reqtype.Multibulk? || (st.reqtype.Unknown? && st.querybuf[0] == STAR);
    var (next, more) := ProcessOne(st, cfg);
    (multibulk ==> CommandUncopied(ToParse(st), cfg.maxBulk)) && (more ==> Uncopied(next, cfg))
  }

  /** And for every read of a run. */
  ghost predicate ReadsUncopied(st: State, cfg: Config, chunks: seq<ByteString>)
    requires Valid(st) && Aligned(st, cfg)
    decreases |chunks|
  {
    chunks != [] ==>
      && Valid(Received(st, cfg, chunks[0])) && Uncopied(Received(st, cfg, chunks[0]), cfg)
      && ReadsUncopied(Read(st, cfg, Data(chunks[0])), cfg, chunks[1..])
  }

  /** Not enough bytes behind what is parsed next to complete a big argument there. */
  predicate Tight(p: Parse) {
    if p.bulklen == -1 then |p.buf| < PROTO_MBULK_BIG_ARG + 2
    else if p.bulklen < PROTO_MBULK_BIG_ARG then |p.buf| < p.bulklen + 2 + PROTO_MBULK_BIG_ARG + 2
    else p.skipped == [] && |p.buf| <= p.bulklen + 2
  }

  lemma {:induction false} TightArgs(p: Parse, maxBulk: int)
    requires Tight(p) && p.bulklen >= -1 && (p.multibulklen == 0 ==> p.bulklen == -1)
    ensures ArgsUncopied(p, maxBulk)
    ensures var (q, o) := ReadArgs(p, maxBulk); o == Ready ==> |q.buf| < PROTO_MBULK_BIG_ARG + 2
    decreases p.multibulklen, if p.bulklen == -1 then 1 else 0
  {
    if p.multibulklen == 0 {
    } else if p.bulklen == -1 {
      var (q, o) := ReadBulkHeader(p, maxBulk);
      if o == Ready {
        TightHeader(p, maxBulk);
        hide ReadBulkHeader;
        TightArgs(q, maxBulk);
      }
    } else if |p.buf| >= p.bulklen + 2 {
      TightArgs(TakeArg(p), maxBulk);
    }
  }

  /** A header is followed by too little to complete the big argument that it announces. */
  lemma TightHeader(p: Parse, maxBulk: int)
    requires Tight(p) && p.bulklen == -1
    ensures var (q, o) := ReadBulkHeader(p, maxBulk); o == Ready ==> Tight(q)
  {
    hide String2ll, FindCR;
  }

  lemma TightCommand(p: Parse, maxBulk: int)
    requires Tight(p) && p.skipped == [] && p.bulklen >= -1 && (p.multibulklen == 0 ==> p.bulklen == -1)
    requires p.multibulklen == 0 ==> p.buf != [] && p.buf[0] == STAR
    ensures CommandUncopied(p, maxBulk)
    ensures var (q, o) := ReadCommand(p, maxBulk); o == Ready ==> |q.buf| < PROTO_MBULK_BIG_ARG + 2
  {
    hide ReadArgs, ArgsUncopied, String2ll;
    if p.multibulklen != 0 {
      TightArgs(p, maxBulk);
    } else {
      var i := FindCR(p.buf);
      if i.Some? && i.value + 2 <= |p.buf| {
        var count := String2ll(p.buf[1..i.value]);
        if count.Some? && 0 < count.value <= MAX_ARGC {
          TightArgs(Parse(p.buf[..i.value + 2], p.buf[i.value + 2..], p.argv, count.value, -1), maxBulk);
        }
      }
    }
  }

  lemma TightOne(st: State, cfg: Config)
    requires Valid(st) && !Stopped(st, cfg) && st.querybuf != [] && Tight(ToParse(st))
    ensures st.reqtype.Multibulk? || (st.reqtype.Unknown? && st.querybuf[0] == STAR) ==>
              CommandUncopied(ToParse(st), cfg.maxBulk)
    ensures var (r, more) := ProcessOne(st, cfg); more ==> Tight(ToParse(r)) || Stopped(r, cfg)
  {
    hide ReadCommand, CommandUncopied, String2ll;
    if st.reqtype.Multibulk? || (st.reqtype.Unknown? && st.querybuf[0] == STAR) {
      TightCommand(ToParse(st), cfg.maxBulk);
      var st1 := st.(reqtype := Multibulk);
      assert ToParse(st1) == ToParse(st) && ProcessOne(st, cfg) == MultibulkOne(st1, cfg);
    }
  }

  lemma {:induction false} TightProcess(st: State, cfg: Config)
    requires Valid(st) && (Tight(ToParse(st)) || Stopped(st, cfg))
    ensures Uncopied(st, cfg)
    decreases |st.querybuf|
  {
    if st.querybuf != [] && !Stopped(st, cfg) {
      TightOne(st, cfg);
      hide ProcessOne, Tight, CommandUncopied;
      var (next, more) := ProcessOne(st, cfg);
      if more {
        TightProcess(next, cfg);
      }
    }
  }

  /** Whatever a waiting client reads, every big argument completed by it is alone in the buffer. */
  lemma ReadIsTight(st: State, cfg: Config, cmds: seq<Command>, chunk: ByteString, t: ByteString)
    requires Following(st, cfg, cmds, chunk + t) && Waiting(st, cmds) && Sendable(cfg, cmds)
    requires |chunk| <= ReadLen(st)
    ensures Valid(Received(st, cfg, chunk)) && Uncopied(Received(st, cfg, chunk), cfg)
  {
    WaitingIsShort(st, cfg, cmds, chunk + t);
    ReadStaysRoomy(st, cfg, cmds, chunk, t);
    var st1 := Received(st, cfg, chunk);
    assert Tight(ToParse(st1));
    TightProcess(st1, cfg);
  }

  lemma {:induction false} ReadsAreTight(st: State, cfg: Config, cmds: seq<Command>, chunks: seq<ByteString>, t: ByteString)
    requires Following(st, cfg, cmds, Flatten(chunks) + t) && Waiting(st, cmds) && Sendable(cfg, cmds)
    requires Aligned(st, cfg) && CutToReads(st, cfg, chunks)
    ensures ReadsUncopied(st, cfg, chunks)
    decreases |chunks|
  {
    if chunks != [] {
      Associative(chunks[0], Flatten(chunks[1..]), t);
      ReadIsTight(st, cfg, cmds, chunks[0], Flatten(chunks[1..]) + t);
      ReadFollows(st, cfg, cmds, chunks[0], Flatten(chunks[1..]) + t);
      hide Following, Waiting, Sendable, Read, Uncopied, Received;
      ReadsAreTight(Read(st, cfg, Data(chunks[0])), cfg, cmds, chunks[1..], t);
    }
  }

  /**
   Over every run on a stream of commands, cut in any way: each argument of at least
   PROTO_MBULK_BIG_ARG bytes is taken over uncopied, from a buffer that holds exactly it
   and its CRLF.
   */
  lemma BigArgumentsAreNeverCopied(cfg: Config, offset: int, cmds: seq<Command>, chunks: seq<ByteString>, t: ByteString)
    requires Sendable(cfg, cmds) && CutToReads(Fresh(offset), cfg, chunks)
    requires Flatten(chunks) + t == EncodeAll(cmds)
    ensures ReadsUncopied(Fresh(offset), cfg, chunks)
  {
    FreshFollows(cfg, offset, cmds);
    hide Fresh, Following, Waiting, Sendable, EncodeAll, CutToReads, ReadsUncopied, Flatten;
    ReadsAreTight(Fresh(offset), cfg, cmds, chunks, t);
  }
}

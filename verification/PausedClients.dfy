/**
 Clients under a pause of the whole server, which begins and ends between any two reads.
 A paused client stores what it receives and parses nothing. What that does to the read
 length of a big argument, over every run of reads and pauses.
 */
module PausedClients {
  import opened Bytes
  import opened Resp
  import opened QueryParser
  import opened RequestLoop
  import opened RequestTheorems

  datatype Event = Arrives(result: ReadResult) | Pauses(on: bool)

  function Next(st: State, cfg: Config, e: Event): (r: State)
    requires Valid(st) && Aligned(st, cfg)
    ensures Valid(r) && Aligned(r, cfg)
  {
    match e
    case Arrives(result) => Read(st, cfg, result)
    case Pauses(on) => st.(flags := st.flags.(paused := on))
  }

  function After(st: State, cfg: Config, events: seq<Event>): (r: State)
    requires Valid(st) && Aligned(st, cfg)
    ensures Valid(r) && Aligned(r, cfg)
    decreases |events|
  {
    if events == [] then st else After(Next(st, cfg, events[0]), cfg, events[1..])
  }

  /** read never gives more than it was asked for. */
  ghost predicate Permitted(st: State, cfg: Config, events: seq<Event>)
    requires Valid(st) && Aligned(st, cfg)
    decreases |events|
  {
    events != [] ==>
      && (events[0].Arrives? && events[0].result.Data? ==> 0 < |events[0].result.bytes| <= ReadLen(st))
      && Permitted(Next(st, cfg, events[0]), cfg, events[1..])
  }

  // ---------- when a client asks for nothing ----------

  /** A big argument is awaited, and the buffer does not hold all of it. */
  predicate Starving(st: State) { AwaitsBigArg(st) ==> |st.querybuf| < st.bulklen + 2 }

  predicate Clamped(st: State) { AwaitsBigArg(st) ==> |st.querybuf| <= st.bulklen + 2 }

  /** A big argument is all there, and has not been taken. */
  predicate Full(st: State) { AwaitsBigArg(st) && |st.querybuf| == st.bulklen + 2 }

  lemma {:induction false} ReadArgsStarves(p: Parse, maxBulk: int)
    requires p.bulklen >= -1 && (p.multibulklen == 0 ==> p.bulklen == -1)
    ensures var (q, o) := ReadArgs(p, maxBulk);
            (o == Incomplete && q.bulklen != -1 ==> |q.buf| < q.bulklen + 2) && (o == Rejected ==> q.bulklen == -1)
    decreases p.multibulklen, if p.bulklen == -1 then 1 else 0
  {
    if p.multibulklen == 0 {
    } else if p.bulklen == -1 {
      var (q, o) := ReadBulkHeader(p, maxBulk);
      if o == Ready {
        ReadArgsStarves(q, maxBulk);
      }
    } else if |p.buf| >= p.bulklen + 2 {
      ReadArgsStarves(TakeArg(p), maxBulk);
    }
  }

  lemma ReadCommandStarves(p: Parse, maxBulk: int)
    requires p.skipped == [] && p.bulklen >= -1 && (p.multibulklen == 0 ==> p.bulklen == -1)
    requires p.multibulklen == 0 ==> p.buf != [] && p.buf[0] == STAR
    ensures var (q, o) := ReadCommand(p, maxBulk);
            (o == Incomplete && q.bulklen != -1 ==> |q.buf| < q.bulklen + 2) && (o == Rejected ==> q.bulklen == -1)
  {
    hide ReadArgs, String2ll;
    if p.multibulklen != 0 {
      ReadArgsStarves(p, maxBulk);
    } else {
      var i := FindCR(p.buf);
      if i.Some? && i.value + 2 <= |p.buf| {
        var count := String2ll(p.buf[1..i.value]);
        if count.Some? && 0 < count.value <= MAX_ARGC {
          ReadArgsStarves(Parse(p.buf[..i.value + 2], p.buf[i.value + 2..], p.argv, count.value, -1), maxBulk);
        }
      }
    }
  }

  lemma MultibulkOneStarves(st: State, cfg: Config)
    requires Valid(st) && !Stopped(st, cfg) && st.reqtype.Multibulk?
    ensures Starving(MultibulkOne(st, cfg).0)
  {
    hide ReadCommand;
    ReadCommandStarves(ToParse(st), cfg.maxBulk);
  }

  /** Parsing never stops in front of a big argument that is all there. */
  lemma {:induction false} ProcessStarves(st: State, cfg: Config)
    requires Valid(st) && (Starving(st) || (st.querybuf != [] && !Stopped(st, cfg)))
    ensures Starving(Process(st, cfg))
    decreases |st.querybuf|
  {
    if st.querybuf != [] && !Stopped(st, cfg) {
      var (next, more) := ProcessOne(st, cfg);
      if st.reqtype.Multibulk? {
        MultibulkOneStarves(st, cfg);
      } else if st.reqtype.Unknown? && st.querybuf[0] == STAR {
        MultibulkOneStarves(st.(reqtype := Multibulk), cfg);
      }
      hide MultibulkOne, InlineOne;
      assert Starving(next) by { InlineNeverAwaits(st, cfg); }
      if more {
        ProcessStarves(next, cfg);
      }
    }
  }

  lemma InlineNeverAwaits(st: State, cfg: Config)
    requires Valid(st) && !Stopped(st, cfg) && st.querybuf != []
    ensures st.reqtype.Inline? || (st.reqtype.Unknown? && st.querybuf[0] != STAR) ==>
              Starving(ProcessOne(st, cfg).0)
  {
  }

  /** The event brings the last byte of an awaited big argument to a client that is stopped. */
  predicate Completes(st: State, cfg: Config, e: Event) {
    && e.Arrives? && e.result.Data? && !st.gone && Stopped(st, cfg) && AwaitsBigArg(st)
    && |st.querybuf| + |e.result.bytes| == st.bulklen + 2 <= cfg.maxQuerybuf
  }

  lemma StoppedStores(st: State, cfg: Config, bytes: ByteString)
    requires Valid(st) && Aligned(st, cfg) && Stopped(st, cfg) && !st.gone
    ensures Read(st, cfg, Data(bytes)) ==
            if |st.querybuf| + |bytes| > cfg.maxQuerybuf then Received(st, cfg, bytes).(gone := true)
            else Received(st, cfg, bytes)
  {
  }

  /** A read by a client that is not stopped leaves it starving or gone. */
  lemma ReadStarves(st: State, cfg: Config, bytes: ByteString)
    requires Valid(st) && Aligned(st, cfg) && !Stopped(st, cfg) && bytes != []
    ensures var r := Read(st, cfg, Data(bytes)); r.gone || Starving(r)
  {
    var st1 := Received(st, cfg, bytes);
    if |st1.querybuf| <= cfg.maxQuerybuf {
      assert Valid(st1);
      ProcessStarves(st1, cfg);
      hide Process;
    }
  }

  lemma NextFull(st: State, cfg: Config, e: Event)
    requires Valid(st) && Aligned(st, cfg) && Clamped(st)
    requires e.Arrives? && e.result.Data? ==> 0 < |e.result.bytes| <= ReadLen(st)
    ensures var r := Next(st, cfg, e);
            (st.gone ==> r.gone)
            && (!r.gone ==> Clamped(r) && (Full(r) <==> Full(st) || Completes(st, cfg, e)))
  {
    if e.Arrives? && e.result.Data? && !st.gone {
      if Stopped(st, cfg) {
        StoppedStores(st, cfg, e.result.bytes);
      } else {
        ReadStarves(st, cfg, e.result.bytes);
      }
      hide Read;
    }
  }

  /** At event `i` of the run the last byte of a big argument reached a stopped client. */
  ghost predicate CompletesAt(st: State, cfg: Config, events: seq<Event>, i: nat)
    requires Valid(st) && Aligned(st, cfg)
  {
    i < |events| && Completes(After(st, cfg, events[..i]), cfg, events[i])
  }

  lemma CompletesLater(st: State, cfg: Config, events: seq<Event>, i: nat)
    requires Valid(st) && Aligned(st, cfg) && events != []
    ensures CompletesAt(st, cfg, events, i) <==>
            if i == 0 then Completes(st, cfg, events[0])
            else CompletesAt(Next(st, cfg, events[0]), cfg, events[1..], i - 1)
  {
    if 0 < i < |events| {
      assert events[..i][0] == events[0] && events[..i][1..] == events[1..][..i - 1];
    }
  }

  lemma {:induction false} FullIff(st: State, cfg: Config, events: seq<Event>)
    requires Valid(st) && Aligned(st, cfg) && Clamped(st) && Permitted(st, cfg, events)
    ensures var r := After(st, cfg, events);
            (st.gone ==> r.gone)
            && (!r.gone ==> Clamped(r) && (Full(r) <==> Full(st) || exists i: nat :: CompletesAt(st, cfg, events, i)))
    decreases |events|
  {
    if events != [] {
      hide Completes, Full, Clamped, CompletesAt, Next;
      var next := Next(st, cfg, events[0]);
      NextFull(st, cfg, events[0]);
      if !next.gone {
        FullIff(next, cfg, events[1..]);
      } else {
        GoneStays(next, cfg, events[1..]);
      }
      CompletesLater(st, cfg, events, 0);
      if i: nat :| CompletesAt(st, cfg, events, i) {
        CompletesLater(st, cfg, events, i);
      }
      if i: nat :| CompletesAt(next, cfg, events[1..], i) {
        CompletesLater(st, cfg, events, i + 1);
      }
    }
  }

  lemma {:induction false} GoneStays(st: State, cfg: Config, events: seq<Event>)
    requires Valid(st) && Aligned(st, cfg) && st.gone
    ensures After(st, cfg, events).gone
    decreases |events|
  {
    if events != [] {
      GoneStays(Next(st, cfg, events[0]), cfg, events[1..]);
    }
  }

  /**
   Over every run of reads and pauses, of any bytes and with any commands: a connected
   client never asks for a negative length, and it asks for 0 bytes exactly when, at some
   read of the run, the last byte of a big argument reached it while it was stopped.
   */
  lemma ZeroReadIff(cfg: Config, offset: int, events: seq<Event>)
    requires Permitted(Fresh(offset), cfg, events)
    ensures var r := After(Fresh(offset), cfg, events);
            !r.gone ==>
              && 0 <= ReadLen(r) <= PROTO_IOBUF_LEN
              && (ReadLen(r) == 0 <==> exists i: nat :: CompletesAt(Fresh(offset), cfg, events, i))
  {
    FullIff(Fresh(offset), cfg, events);
    hide After, Permitted, CompletesAt;
  }

  // ---------- a run that drops an open connection ----------

  function Arrivals(chunks: seq<ByteString>): (events: seq<Event>)
    ensures |events| == |chunks| && forall i :: 0 <= i < |events| ==> events[i] == Arrives(Data(chunks[i]))
  {
    if chunks == [] then [] else [Arrives(Data(chunks[0]))] + Arrivals(chunks[1..])
  }

  lemma {:induction false} AfterConcat(st: State, cfg: Config, a: seq<Event>, b: seq<Event>)
    requires Valid(st) && Aligned(st, cfg)
    ensures After(st, cfg, a + b) == After(After(st, cfg, a), cfg, b)
    ensures Permitted(st, cfg, a + b) <==> Permitted(st, cfg, a) && Permitted(After(st, cfg, a), cfg, b)
    decreases |a|
  {
    hide Next;
    if a == [] {
      assert a + b == b;
    } else {
      assert (a + b)[0] == a[0] && (a + b)[1..] == a[1..] + b;
      AfterConcat(Next(st, cfg, a[0]), cfg, a[1..], b);
    }
  }

  lemma {:induction false} ArrivalsAreReads(st: State, cfg: Config, chunks: seq<ByteString>)
    requires Valid(st) && Aligned(st, cfg)
    ensures After(st, cfg, Arrivals(chunks)) == ReadAll(st, cfg, DataOf(chunks))
    ensures Permitted(st, cfg, Arrivals(chunks)) <==> CutToReads(st, cfg, chunks)
    decreases |chunks|
  {
    hide Read;
    if chunks != [] {
      ReadAllFirst(st, cfg, chunks);
      assert Arrivals(chunks)[1..] == Arrivals(chunks[1..]);
      ArrivalsAreReads(Read(st, cfg, Data(chunks[0])), cfg, chunks[1..]);
    }
  }

  lemma ReceivedTwice(st: State, cfg: Config, a: ByteString, b: ByteString)
    ensures Received(Received(st, cfg, a), cfg, b) == Received(st, cfg, a + b)
  {
    Associative(st.querybuf, a, b);
    Associative(st.pending, a, b);
  }

  lemma ReceivedNothing(st: State, cfg: Config)
    ensures Received(st, cfg, []) == st
  {
    assert st.querybuf + [] == st.querybuf && st.pending + [] == st.pending;
  }

  lemma SinglesArrive(s: ByteString)
    requires s != []
    ensures Arrivals(Singles(s)) == [Arrives(Data([s[0]]))] + Arrivals(Singles(s[1..]))
  {
    assert Singles(s) == [[s[0]]] + Singles(s[1..]);
    assert Singles(s)[1..] == Singles(s[1..]);
  }

  /** A stopped client takes what is left of a big argument byte by byte, and does nothing else. */
  lemma {:induction false} StoppedStoresAll(st: State, cfg: Config, s: ByteString)
    requires Valid(st) && Aligned(st, cfg) && Stopped(st, cfg) && !st.gone && AwaitsBigArg(st)
    requires |st.querybuf| + |s| <= st.bulklen + 2 <= cfg.maxQuerybuf
    ensures Permitted(st, cfg, Arrivals(Singles(s)))
    ensures After(st, cfg, Arrivals(Singles(s))) == Received(st, cfg, s)
    decreases |s|
  {
    if s == [] {
      ReceivedNothing(st, cfg);
    } else {
      var next := Received(st, cfg, [s[0]]);
      StoppedStores(st, cfg, [s[0]]);
      hide Read, Singles, Arrivals;
      assert Valid(next);
      StoppedStoresAll(next, cfg, s[1..]);
      SinglesArrive(s);
      ReceivedTwice(st, cfg, [s[0]], s[1..]);
      assert [s[0]] + s[1..] == s;
      var events := Arrivals(Singles(s));
      assert events[0] == Arrives(Data([s[0]])) && events[1..] == Arrivals(Singles(s[1..]));
    }
  }

  /** The two headers in front of the only, big argument of a command. */
  function Headers(arg: ByteString): ByteString { Header(STAR, 1) + Header(DOLLAR, |arg|) }

  lemma HeadersAreRead(cfg: Config, offset: int, arg: ByteString)
    requires Sendable(cfg, [[arg]]) && |arg| >= PROTO_MBULK_BIG_ARG
    ensures 0 < |Headers(arg)| <= PROTO_IOBUF_LEN && Headers(arg) + (arg + CRLF) == EncodeAll([[arg]])
    ensures var r := Read(Fresh(offset), cfg, Data(Headers(arg)));
            AwaitsBigArg(r) && r.querybuf == [] && r.bulklen == |arg| && r.executed == [] && !Stopped(r, cfg)
            && |arg| + 2 <= cfg.maxQuerybuf
            && Following(r, cfg, [[arg]], arg + CRLF) && Waiting(r, [[arg]])
  {
    var cmds, st, left := [[arg]], Fresh(offset), arg + CRLF;
    assert Fits(cmds[0], cfg.maxBulk) && |cmds[0][0]| == |arg|;
    HeaderLength(STAR, 1);
    HeaderLength(DOLLAR, |arg|);
    OneArgument(arg);
    assert cmds[0..] == cmds && cmds[..0] == [];
    assert [] + EncodeAll(cmds) == EncodeAll(cmds);
    ReadFollows(st, cfg, cmds, Headers(arg), left);
    var r := Read(st, cfg, Data(Headers(arg)));
    ResumeInvariant(r, cfg, cmds, left);
    AtTheArgument(r, cfg, arg);
  }

  lemma OneArgument(arg: ByteString)
    ensures Headers(arg) + (arg + CRLF) == EncodeAll([[arg]])
  {
    EncodeOne([arg]);
    assert [arg][1..] == [];
    assert EncodeBulks([arg]) == EncodeBulk(arg) + [] == EncodeBulk(arg);
    hide Header;
    Associative(Header(DOLLAR, |arg|), arg, CRLF);
    Associative(Header(STAR, 1), Header(DOLLAR, |arg|), arg + CRLF);
  }

  /** A client that waits exactly behind the headers is at the argument. */
  lemma AtTheArgument(r: State, cfg: Config, arg: ByteString)
    requires Following(r, cfg, [[arg]], arg + CRLF) && Waiting(r, [[arg]]) && |arg| >= PROTO_MBULK_BIG_ARG
    requires Consumed(r) + r.querybuf + (arg + CRLF) == EncodeAll([[arg]][|r.executed|..])
    ensures AwaitsBigArg(r) && r.querybuf == [] && r.bulklen == |arg| && r.executed == []
  {
    var cmds := [[arg]];
    OneArgument(arg);
    assert cmds[1..] == [] && EncodeAll(cmds[1..]) == [];
    assert |r.executed| == 0;
    assert cmds[0..] == cmds && r.executed == cmds[..0] == [];
    assert |Consumed(r)| + |r.querybuf| == |Headers(arg)|;
    if r.multibulklen != 0 {
      assert r.argv == [] && EncodeBulks(r.argv) == [];
      assert r.multibulklen == 1;
      if r.bulklen == -1 {
        assert false;
      }
    } else {
      assert false;
    }
  }

  /**
   The run: the headers of a big argument arrive, the server is paused, the argument
   arrives, and the next read of the open connection, asked for 0 bytes, gives none. The
   client is dropped with its command unexecuted. Without the pause the command runs.
   */
  lemma PausedBigArgumentIsDropped(cfg: Config, offset: int, arg: ByteString)
    requires Sendable(cfg, [[arg]]) && |arg| >= PROTO_MBULK_BIG_ARG && !cfg.slave
    ensures var headers, rest := [Arrives(Data(Headers(arg)))], Arrivals(Singles(arg + CRLF));
            var paused := headers + ([Pauses(true)] + rest);
            && Permitted(Fresh(offset), cfg, paused) && Permitted(Fresh(offset), cfg, headers + rest)
            && !After(Fresh(offset), cfg, paused).gone && ReadLen(After(Fresh(offset), cfg, paused)) == 0
            && After(Fresh(offset), cfg, paused + [Arrives(EndOfFile)]).gone
            && After(Fresh(offset), cfg, paused + [Arrives(EndOfFile)]).executed == []
            && After(Fresh(offset), cfg, headers + rest).executed == [[arg]]
  {
    var st, s := Fresh(offset), arg + CRLF;
    var headers, rest := [Arrives(Data(Headers(arg)))], Arrivals(Singles(s));
    HeadersAreRead(cfg, offset, arg);
    PausedHalf(cfg, offset, arg);
    UnpausedHalf(cfg, offset, arg);
  }

  lemma PausedHalf(cfg: Config, offset: int, arg: ByteString)
    requires Sendable(cfg, [[arg]]) && |arg| >= PROTO_MBULK_BIG_ARG && !cfg.slave
    ensures var paused := [Arrives(Data(Headers(arg)))] + ([Pauses(true)] + Arrivals(Singles(arg + CRLF)));
            var r := After(Fresh(offset), cfg, paused);
            && Permitted(Fresh(offset), cfg, paused) && !r.gone && ReadLen(r) == 0 && r.executed == []
            && After(Fresh(offset), cfg, paused + [Arrives(EndOfFile)]) == r.(gone := true)
  {
    hide Read, Headers, Arrivals, Singles, Following, Waiting, Sendable, EncodeAll, Fresh, Received;
    HeadersAreRead(cfg, offset, arg);
    FreshAsks(cfg, offset);
    var st, s := Fresh(offset), arg + CRLF;
    var first := Read(st, cfg, Data(Headers(arg)));
    var tail := [Pauses(true)] + Arrivals(Singles(s));
    var paused := [Arrives(Data(Headers(arg)))] + tail;
    PausedRest(first, cfg, s);
    assert paused[0] == Arrives(Data(Headers(arg))) && paused[1..] == tail;
    AfterConcat(st, cfg, paused, [Arrives(EndOfFile)]);
    EndOfFileDrops(After(st, cfg, paused), cfg);
  }

  /** At a big argument: the server is paused, then all of the argument arrives. */
  lemma PausedRest(st: State, cfg: Config, s: ByteString)
    requires Valid(st) && Aligned(st, cfg) && !st.gone && !cfg.slave
    requires AwaitsBigArg(st) && st.querybuf == [] && st.bulklen + 2 == |s| <= cfg.maxQuerybuf
    ensures var tail := [Pauses(true)] + Arrivals(Singles(s)); var r := After(st, cfg, tail);
            && Permitted(st, cfg, tail) && !r.gone && ReadLen(r) == 0 && r.executed == st.executed
  {
    hide Read, Arrivals, Singles;
    var tail := [Pauses(true)] + Arrivals(Singles(s));
    assert tail[0] == Pauses(true) && tail[1..] == Arrivals(Singles(s));
    StoppedStoresAll(st.(flags := st.flags.(paused := true)), cfg, s);
  }

  lemma EndOfFileDrops(st: State, cfg: Config)
    requires Valid(st) && Aligned(st, cfg) && !st.gone
    ensures After(st, cfg, [Arrives(EndOfFile)]) == st.(gone := true)
  {
    assert [Arrives(EndOfFile)][1..] == [];
  }

  lemma FreshAsks(cfg: Config, offset: int)
    ensures ReadLen(Fresh(offset)) == PROTO_IOBUF_LEN && Valid(Fresh(offset)) && Aligned(Fresh(offset), cfg)
  {
  }

  lemma FirstIsCut(st: State, cfg: Config, first: ByteString, rest: seq<ByteString>)
    requires Valid(st) && Aligned(st, cfg) && 0 < |first| <= ReadLen(st)
    requires CutToReads(Read(st, cfg, Data(first)), cfg, rest)
    ensures CutToReads(st, cfg, [first] + rest) && Flatten([first] + rest) == first + Flatten(rest)
  {
    hide Read;
    assert ([first] + rest)[1..] == rest;
  }

  lemma FirstArrives(first: ByteString, rest: seq<ByteString>)
    ensures Arrivals([first] + rest) == [Arrives(Data(first))] + Arrivals(rest)
  {
    assert ([first] + rest)[1..] == rest;
  }

  lemma UnpausedHalf(cfg: Config, offset: int, arg: ByteString)
    requires Sendable(cfg, [[arg]]) && |arg| >= PROTO_MBULK_BIG_ARG
    ensures var run := [Arrives(Data(Headers(arg)))] + Arrivals(Singles(arg + CRLF));
            Permitted(Fresh(offset), cfg, run) && After(Fresh(offset), cfg, run).executed == [[arg]]
  {
    hide Read, Following, Waiting, Sendable, Headers, EncodeAll, Singles, Arrivals, Fresh, ReadLen, CutToReads, Complete;
    HeadersAreRead(cfg, offset, arg);
    FreshAsks(cfg, offset);
    var st, s, cmds := Fresh(offset), arg + CRLF, [[arg]];
    var chunks := [Headers(arg)] + Singles(s);
    assert s + [] == s;
    StreamCanArrive(Read(st, cfg, Data(Headers(arg))), cfg, cmds, s, []);
    FirstIsCut(st, cfg, Headers(arg), Singles(s));
    FirstArrives(Headers(arg), Singles(s));
    ArrivalsAreReads(st, cfg, chunks);
    assert Flatten(chunks) + [] == Flatten(chunks) == EncodeAll(cmds);
    ChunkIndependence(cfg, offset, cmds, chunks, []);
  }
}

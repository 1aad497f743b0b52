/**
 loadAppendOnlyFile as a function of the file: commands are read with fgets and fread,
 replayed by a fake client, and a tail cut short by a crash is truncated away.
 */
module AofLoader {
  import opened Options
  import opened Bytes
  import opened Resp
  import opened Keyspace

  const LINE_MAX: nat := 127

  /** What fgets takes from the rest of the file: a line, or as much as its buffer holds. */
  function TakeLine(s: ByteString, max: nat): (line: ByteString)
    ensures |line| <= |s| && line == s[..|line|]
    ensures s != [] && max > 0 ==> line != []
    decreases |s|
  {
    if s == [] || max == 0 then []
    else if s[0] == LF then [LF]
    else [s[0]] + TakeLine(s[1..], max - 1)
  }

  /** fgets ran into the end of the file while it looked for the end of the line. */
  predicate HitEof(line: ByteString, s: ByteString) {
    |line| == |s| && |line| < LINE_MAX && (line == [] || line[|line| - 1] != LF)
  }

  /** One turn of the loading loop: a command, the end, or one of the three ways to fail. */
  datatype Found = Got(argv: Command, rest: ByteString) | AtEnd | ShortRead | ReadFailure | BadFormat

  /** One argument: its header line, its bytes and the two bytes after them. */
  datatype Bulk = Bulk(arg: ByteString, rest: ByteString) | ShortBulk | BadBulk

  function ReadBulk(s: ByteString): (r: Bulk)
    ensures r.Bulk? ==> |r.rest| < |s|
  {
    if s == [] then ShortBulk
    else
      var line := TakeLine(s, LINE_MAX);
      if line[0] != DOLLAR then BadBulk
      else
        var len := ToUnsigned(StrTol(line[1..]));
        var rest := s[|line|..];
        if len > |rest| || |rest| - len < 2 then ShortBulk else Bulk(rest[..len], rest[len + 2..])
  }

  function ReadBulks(s: ByteString, n: nat, argv: seq<ByteString>): (r: Found)
    ensures r.Got? ==> |r.rest| <= |s| && |r.argv| == |argv| + n
    ensures !r.AtEnd? && !r.ReadFailure?
    decreases n
  {
    if n == 0 then Got(argv, s)
    else
      match ReadBulk(s)
      case ShortBulk => ShortRead
      case BadBulk => BadFormat
      case Bulk(arg, rest) => ReadBulks(rest, n - 1, argv + [arg])
  }

  function ReadOne(s: ByteString): (r: Found)
    ensures r.Got? ==> |r.rest| < |s| && r.argv != []
    ensures r.AtEnd? <==> s == []
  {
    if s == [] then AtEnd
    else
      var line := TakeLine(s, LINE_MAX);
      if line[0] != STAR then BadFormat
      else if |line| == 1 || line[1] == 0 then if HitEof(line, s) then ShortRead else ReadFailure
      else
        var argc := Atoi(line[1..]);
        if argc < 1 then BadFormat else ReadBulks(s[|line|..], argc, [])
  }

  /** Settings, and what truncate and lseek will answer. */
  datatype Setup = Setup(loadTruncated: bool, fdOpen: bool, truncateOk: bool, seekOk: bool)

  datatype Fate = Loaded | EmptyFile | RdbPreamble | Exited

  /** `file` is what the file holds afterwards, `executed` what the fake client was given. */
  datatype Outcome = Outcome(fate: Fate, file: ByteString, executed: seq<Command>, session: Session)

  /** The uxeof label: keep the valid commands if the settings allow it. */
  function UnexpectedEof(setup: Setup, content: ByteString, validUpTo: nat, executed: seq<Command>, s: Session): Outcome
    requires validUpTo <= |content|
  {
    if !setup.loadTruncated || !setup.truncateOk then Outcome(Exited, content, executed, s)
    else Outcome(if setup.fdOpen && !setup.seekOk then Exited else Loaded, content[..validUpTo], executed, s)
  }

  function LoadLoop(srv: Server, setup: Setup, content: ByteString, pos: nat,
                    executed: seq<Command>, s: Session, now: int): (r: Outcome)
    requires pos <= |content| && InRange(s.ks)
    ensures InRange(r.session.ks) && |r.session.ks.dbs| == |s.ks.dbs|
    decreases |content| - pos
  {
    match ReadOne(content[pos..])
    case AtEnd =>
      if s.queue.Some? then UnexpectedEof(setup, content, pos, executed, s)
      else Outcome(Loaded, content, executed, s)
    case ShortRead => UnexpectedEof(setup, content, pos, executed, s)
    case ReadFailure => Outcome(Exited, content, executed, s)
    case BadFormat => Outcome(Exited, content, executed, s)
    case Got(argv, rest) =>
      if srv.lookup(argv[0]) == Unknown then Outcome(Exited, content, executed, s)
      else LoadLoop(srv, setup, content, |content| - |rest|, executed + [argv], Replay(srv, s, argv, now), now)
  }

  const REDIS_MAGIC: ByteString := [82, 69, 68, 73, 83]

  function Load(srv: Server, setup: Setup, content: ByteString, dbs: seq<Db>, now: int): (r: Outcome)
    requires |dbs| > 0
    ensures InRange(r.session.ks) && |r.session.ks.dbs| == |dbs|
  {
    var s := Session(Keys(dbs, 0), None);
    if content == [] then Outcome(EmptyFile, content, [], s)
    else if REDIS_MAGIC <= content then Outcome(RdbPreamble, content, [], s)
    else LoadLoop(srv, setup, content, 0, [], s, now)
  }

  // ---------- reading back what was encoded ----------

  predicate Storable(cmd: Command) {
    0 < |cmd| < 0x8000_0000 && forall i :: 0 <= i < |cmd| ==> |cmd[i]| <= INT64_MAX
  }

  lemma {:induction false} TakeLineStops(s: ByteString, k: nat, max: nat)
    requires k <= |s| && k <= max && (k < |s| ==> s[k] == LF && k < max)
    requires forall i :: 0 <= i < k ==> s[i] != LF
    ensures TakeLine(s, max) == if k < |s| then s[..k + 1] else s
    decreases k
  {
    if k > 0 {
      TakeLineStops(s[1..], k - 1, max - 1);
      assert k < |s| ==> s[..k + 1] == [s[0]] + s[1..][..k];
      assert s == [s[0]] + s[1..];
    } else if s != [] {
      assert s[..1] == [LF];
    }
  }

  lemma HeaderHasOneLF(prefix: byte, n: nat, i: nat)
    requires prefix != LF && i < |Header(prefix, n)|
    ensures Header(prefix, n)[i] == LF <==> i == |Header(prefix, n)| - 1
  {
    if 0 < i < |Header(prefix, n)| - 2 {
      assert Header(prefix, n)[i] == Decimal(n)[i - 1] && IsDigit(Decimal(n)[i - 1]);
    }
  }

  /** The line taken from a stream that begins with a header: the header, or all of a cut one. */
  lemma TakeHeader(prefix: byte, n: nat, rest: ByteString, s: ByteString, t: ByteString)
    requires prefix != LF && n <= INT64_MAX && s + t == Header(prefix, n) + rest
    ensures TakeLine(s, LINE_MAX) == if |s| < |Header(prefix, n)| then s else Header(prefix, n)
  {
    var header := Header(prefix, n);
    var h := |header|;
    HeaderLength(prefix, n);
    var k := if |s| < h - 1 then |s| else h - 1;
    forall i | 0 <= i < h && i < |s|
      ensures s[i] == LF <==> i == h - 1
    {
      assert s[i] == (s + t)[i] == (header + rest)[i] == header[i];
      HeaderHasOneLF(prefix, n, i);
    }
    TakeLineStops(s, k, LINE_MAX);
    if |s| >= h {
      Front(s, t, header, rest);
    }
  }

  lemma HeaderNumber(prefix: byte, n: nat)
    requires n <= INT64_MAX
    ensures StrTol(Header(prefix, n)[1..]) == n
  {
    assert Header(prefix, n)[1..] == Decimal(n) + CRLF;
    ValueOfDecimal(n);
    StrTolReads(Decimal(n), CRLF);
  }

  lemma BulkSplits(arg: ByteString, more: ByteString)
    ensures EncodeBulk(arg) + more == Header(DOLLAR, |arg|) + ((arg + CRLF) + more)
  {
    Associative(Header(DOLLAR, |arg|), arg, CRLF);
    Associative(Header(DOLLAR, |arg|), arg + CRLF, more);
  }

  /** A bulk is read as it was written when it is all there, and is short otherwise. */
  lemma ReadBulkFinds(arg: ByteString, more: ByteString, s: ByteString, t: ByteString)
    requires |arg| <= INT64_MAX && s + t == EncodeBulk(arg) + more
    ensures if |s| < |EncodeBulk(arg)| then ReadBulk(s) == ShortBulk
            else ReadBulk(s) == Bulk(arg, s[|EncodeBulk(arg)|..]) && s[|EncodeBulk(arg)|..] + t == more
  {
    var header := Header(DOLLAR, |arg|);
    var h, item := |header|, arg + CRLF;
    BulkSplits(arg, more);
    TakeHeader(DOLLAR, |arg|, item + more, s, t);
    if s != [] {
      assert s[0] == (s + t)[0] == header[0];
    }
    if |s| >= h {
      HeaderNumber(DOLLAR, |arg|);
      Front(s, t, header, item + more);
      var body := s[h..];
      if |body| >= |item| {
        Front(body, t, item, more);
        assert body[..|arg|] == body[..|item|][..|arg|] == arg;
        assert body[|item|..] == s[|EncodeBulk(arg)|..];
      }
    }
  }

  lemma ReadBulkWhole(arg: ByteString, more: ByteString)
    requires |arg| <= INT64_MAX
    ensures ReadBulk(EncodeBulk(arg) + more) == Bulk(arg, more)
  {
    var s := EncodeBulk(arg) + more;
    assert s + [] == s;
    ReadBulkFinds(arg, more, s, []);
    assert s[|EncodeBulk(arg)|..] == more;
  }

  lemma ReadBulksStep(s: ByteString, n: nat, argv: seq<ByteString>, arg: ByteString, rest: ByteString)
    requires n > 0 && ReadBulk(s) == Bulk(arg, rest)
    ensures ReadBulks(s, n, argv) == ReadBulks(rest, n - 1, argv + [arg])
  {
  }

  lemma FirstBulk(args: seq<ByteString>, rest: ByteString)
    requires args != []
    ensures EncodeBulks(args) + rest == EncodeBulk(args[0]) + (EncodeBulks(args[1..]) + rest)
  {
    Associative(EncodeBulk(args[0]), EncodeBulks(args[1..]), rest);
  }

  /** A list of bulks that has fully arrived is read as it was written. */
  lemma {:induction false} ReadBulksWhole(args: seq<ByteString>, rest: ByteString, argv: seq<ByteString>)
    requires forall i :: 0 <= i < |args| ==> |args[i]| <= INT64_MAX
    ensures ReadBulks(EncodeBulks(args) + rest, |args|, argv) == Got(argv + args, rest)
    decreases |args|
  {
    hide ReadBulk, EncodeBulk;
    if args == [] {
      assert [] + rest == rest && argv + [] == argv;
    } else {
      var more := EncodeBulks(args[1..]) + rest;
      FirstBulk(args, rest);
      ReadBulkWhole(args[0], more);
      ReadBulksStep(EncodeBulks(args) + rest, |args|, argv, args[0], more);
      ReadBulksWhole(args[1..], rest, argv + [args[0]]);
      MoveFirst(argv, args);
    }
  }

  /** A list of bulks cut anywhere before its end is a short read. */
  lemma {:induction false} ReadBulksCut(args: seq<ByteString>, s: ByteString, t: ByteString, argv: seq<ByteString>)
    requires forall i :: 0 <= i < |args| ==> |args[i]| <= INT64_MAX
    requires t != [] && s + t == EncodeBulks(args)
    ensures ReadBulks(s, |args|, argv) == ShortRead
    decreases |args|
  {
    hide ReadBulk, EncodeBulk;
    var arg, more := args[0], EncodeBulks(args[1..]);
    ReadBulkFinds(arg, more, s, t);
    if |s| >= |EncodeBulk(arg)| {
      var rest := s[|EncodeBulk(arg)|..];
      ReadBulksStep(s, |args|, argv, arg, rest);
      ReadBulksCut(args[1..], rest, t, argv + [arg]);
    }
  }

  lemma AtoiReads(s: ByteString)
    requires 0 <= StrTol(s) < 0x8000_0000
    ensures Atoi(s) == StrTol(s)
  {
  }

  lemma ReadOneWhole(cmd: Command, rest: ByteString)
    requires Storable(cmd)
    ensures ReadOne(Encode(cmd) + rest) == Got(cmd, rest)
  {
    var header, bulks := Header(STAR, |cmd|), EncodeBulks(cmd);
    var s := Encode(cmd) + rest;
    Associative(header, bulks, rest);
    assert s + [] == header + (bulks + rest);
    TakeHeader(STAR, |cmd|, bulks + rest, s, []);
    HeaderNumber(STAR, |cmd|);
    AtoiReads(header[1..]);
    assert header[1] == Decimal(|cmd|)[0];
    assert s[|header|..] == bulks + rest;
    ReadBulksWhole(cmd, rest, []);
    assert [] + cmd == cmd;
  }

  /** An argument count cut short is still a positive count. */
  lemma CutCount(n: nat, s: ByteString, t: ByteString)
    requires 0 < n < 0x8000_0000 && |s| >= 2 && t != [] && s + t == Header(STAR, n)
    ensures s[0] == STAR && s[1] != 0 && Atoi(s[1..]) >= 1
  {
    var digits := Decimal(n);
    ValueOfDecimal(n);
    CutHeader(n, s, t);
    var k := if |s| - 1 < |digits| then |s| - 1 else |digits|;
    hide Decimal, DigitsValue, StrTol, Atoi, Header;
    CutNumeral(digits, k);
    StrTolReads(digits[..k], s[1 + k..]);
    AtoiReads(s[1..]);
  }

  lemma CutHeader(n: nat, s: ByteString, t: ByteString)
    requires |s| >= 2 && t != [] && s + t == Header(STAR, n)
    ensures var digits := Decimal(n);
            var k := if |s| - 1 < |digits| then |s| - 1 else |digits|;
            && s[0] == STAR && s[1] == digits[0]
            && s[1..] == digits[..k] + s[1 + k..] && (s[1 + k..] != [] ==> s[1 + k] == CR)
  {
    var header, digits := Header(STAR, n), Decimal(n);
    assert s == header[..|s|];
    var k := if |s| - 1 < |digits| then |s| - 1 else |digits|;
    assert header[1..1 + k] == digits[..k];
    SliceOfPrefix(header, |s|, 1, 1 + k);
    assert s[1..] == s[1..1 + k] + s[1 + k..];
    assert s[1 + k..] != [] ==> s[1 + k] == header[1 + |digits|] == CR;
  }

  lemma ReadOneCut(cmd: Command, s: ByteString, t: ByteString)
    requires Storable(cmd) && s != [] && t != [] && s + t == Encode(cmd)
    ensures ReadOne(s) == ShortRead
  {
    var header, bulks := Header(STAR, |cmd|), EncodeBulks(cmd);
    TakeHeader(STAR, |cmd|, bulks, s, t);
    assert s[0] == (s + t)[0] == header[0];
    if |s| >= |header| {
      Front(s, t, header, bulks);
      HeaderNumber(STAR, |cmd|);
      AtoiReads(header[1..]);
      assert header[1] == Decimal(|cmd|)[0];
      ReadBulksCut(cmd, s[|header|..], t, []);
    } else {
      HeaderLength(STAR, |cmd|);
      if |s| >= 2 {
        assert s + header[|s|..] == header by {
          assert s == (s + t)[..|s|] == (header + bulks)[..|s|] == header[..|s|];
        }
        CutCount(|cmd|, s, header[|s|..]);
      } else {
        assert s == [STAR];
      }
    }
  }

  // ---------- recovery ----------

  ghost predicate Known(srv: Server, cmds: seq<Command>) {
    forall i :: 0 <= i < |cmds| ==> Storable(cmds[i]) && srv.lookup(cmds[i][0]) != Unknown
  }

  /** The end of the loop: no command left, or a cut one. */
  lemma LoadLoopEnds(srv: Server, setup: Setup, done: ByteString, left: ByteString,
                     t: ByteString, cmds: seq<Command>, executed: seq<Command>, s: Session, now: int)
    requires InRange(s.ks) && Known(srv, cmds) && left + t == EncodeAll(cmds)
    requires Complete(cmds, |left|) == 0
    ensures LoadLoop(srv, setup, done + left, |done|, executed, s, now)
            == if left == [] && s.queue.None? then Outcome(Loaded, done + left, executed, s)
               else UnexpectedEof(setup, done + left, |done|, executed, s)
  {
    assert (done + left)[|done|..] == left;
    if left != [] {
      CutFirst(cmds, left, t);
      assert Storable(cmds[0]);
      ReadOneCut(cmds[0], left, Encode(cmds[0])[|left|..]);
    }
  }

  /** One turn of the loop on a command that is all there. */
  lemma LoadLoopStep(srv: Server, setup: Setup, done: ByteString, cmd: Command, rest: ByteString,
                     executed: seq<Command>, s: Session, now: int)
    requires InRange(s.ks) && Storable(cmd) && srv.lookup(cmd[0]) != Unknown
    ensures LoadLoop(srv, setup, done + (Encode(cmd) + rest), |done|, executed, s, now)
            == LoadLoop(srv, setup, (done + Encode(cmd)) + rest, |done + Encode(cmd)|, executed + [cmd],
                        Replay(srv, s, cmd, now), now)
  {
    hide Encode, ReadOne, Replay, UnexpectedEof;
    ReadOneWhole(cmd, rest);
    var left := Encode(cmd) + rest;
    assert (done + left)[|done|..] == left;
    Associative(done, Encode(cmd), rest);
  }

  /**
   Loading `left`, the rest of a log file, after the commands `done` were replayed: all
   commands that are complete in it are replayed, then the file ends or is cut short.
   */
  lemma {:induction false} LoadLoopRecovers(srv: Server, setup: Setup, done: ByteString, left: ByteString,
                                            t: ByteString, cmds: seq<Command>,
                                            executed: seq<Command>, s: Session, now: int)
    requires InRange(s.ks) && Known(srv, cmds) && left + t == EncodeAll(cmds)
    ensures var k := Complete(cmds, |left|);
            var end := |EncodeAll(cmds[..k])|;
            var session := ReplayAll(srv, s, cmds[..k], now);
            && end <= |left|
            && LoadLoop(srv, setup, done + left, |done|, executed, s, now)
               == if end == |left| && session.queue.None? then Outcome(Loaded, done + left, executed + cmds[..k], session)
                  else UnexpectedEof(setup, done + left, |done| + end, executed + cmds[..k], session)
    decreases |cmds|
  {
    hide LoadLoop, Replay, Encode, UnexpectedEof;
    var k := Complete(cmds, |left|);
    if k == 0 {
      assert cmds[..0] == [] && executed + [] == executed;
      LoadLoopEnds(srv, setup, done, left, t, cmds, executed, s, now);
    } else {
      var first := Encode(cmds[0]);
      assert Storable(cmds[0]);
      Front(left, t, first, EncodeAll(cmds[1..]));
      var rest := left[|first|..];
      assert left == first + rest;
      LoadLoopStep(srv, setup, done, cmds[0], rest, executed, s, now);
      var next := Replay(srv, s, cmds[0], now);
      LoadLoopRecovers(srv, setup, done + first, rest, t, cmds[1..], executed + [cmds[0]], next, now);
      FirstOfPrefix(cmds, k);
      MoveFirst(executed, cmds[..k]);
      Associative(done, first, rest);
    }
  }

  lemma FirstOfPrefix(cmds: seq<Command>, k: nat)
    requires 0 < k <= |cmds|
    ensures cmds[..k][0] == cmds[0] && cmds[..k][1..] == cmds[1..][..k - 1]
    ensures EncodeAll(cmds[..k]) == Encode(cmds[0]) + EncodeAll(cmds[1..][..k - 1])
  {
    assert cmds[..k][1..] == cmds[1..][..k - 1];
  }

  lemma CutFirst(cmds: seq<Command>, left: ByteString, t: ByteString)
    requires cmds != [] && left + t == EncodeAll(cmds) && |left| < |Encode(cmds[0])|
    ensures left + Encode(cmds[0])[|left|..] == Encode(cmds[0])
  {
    var first, others := Encode(cmds[0]), EncodeAll(cmds[1..]);
    assert left == (left + t)[..|left|] == (first + others)[..|left|] == first[..|left|];
  }

  /** A log never looks like an RDB preamble. */
  lemma NoPreamble(cmds: seq<Command>, left: ByteString, t: ByteString)
    requires left + t == EncodeAll(cmds)
    ensures !(REDIS_MAGIC <= left)
  {
    if left != [] {
      assert left[0] == (left + t)[0] == Encode(cmds[0])[0];
    }
  }

  /**
   Crash recovery: whatever prefix of the written log reached the file, loading it with
   aof-load-truncated replays exactly the commands that are complete in it, and leaves
   the file equal to their encoding. Without the setting the load succeeds exactly when
   the file ends with a command and outside of MULTI.
   */
  lemma CrashRecovery(srv: Server, setup: Setup, cmds: seq<Command>, file: ByteString, dbs: seq<Db>, now: int)
    requires |dbs| > 0 && Known(srv, cmds) && file <= EncodeAll(cmds) && file != []
    ensures var k := Complete(cmds, |file|);
            var r := Load(srv, setup, file, dbs, now);
            var session := ReplayAll(srv, Session(Keys(dbs, 0), None), cmds[..k], now);
            && r.executed == cmds[..k] && r.session == session
            && (setup.loadTruncated && setup.truncateOk && (setup.fdOpen ==> setup.seekOk) ==>
                  r.fate == Loaded && r.file == EncodeAll(cmds[..k]))
            && (!setup.loadTruncated ==>
                  r.file == file && (r.fate == Loaded <==> file == EncodeAll(cmds[..k]) && session.queue.None?))
  {
    hide LoadLoop, Encode, ReplayAll, Load;
    var k := Complete(cmds, |file|);
    LoadOutcome(srv, setup, cmds, file, dbs, now);
    PrefixOfPrefix(cmds, k, file);
  }

  lemma LoadOutcome(srv: Server, setup: Setup, cmds: seq<Command>, file: ByteString, dbs: seq<Db>, now: int)
    requires |dbs| > 0 && Known(srv, cmds) && file <= EncodeAll(cmds) && file != []
    ensures var k := Complete(cmds, |file|);
            var end := |EncodeAll(cmds[..k])|;
            var session := ReplayAll(srv, Session(Keys(dbs, 0), None), cmds[..k], now);
            && end <= |file|
            && Load(srv, setup, file, dbs, now)
               == if end == |file| && session.queue.None? then Outcome(Loaded, file, cmds[..k], session)
                  else UnexpectedEof(setup, file, end, cmds[..k], session)
  {
    hide LoadLoop, Encode, ReplayAll, UnexpectedEof;
    var t := EncodeAll(cmds)[|file|..];
    assert file + t == EncodeAll(cmds);
    NoPreamble(cmds, file, t);
    LoadLoopRecovers(srv, setup, [], file, t, cmds, [], Session(Keys(dbs, 0), None), now);
    assert [] + file == file;
    EmptyFront(cmds[..Complete(cmds, |file|)]);
  }

  lemma EmptyFront<T>(s: seq<T>)
    ensures [] + s == s
  {
  }

  lemma PrefixOfPrefix(cmds: seq<Command>, k: nat, file: ByteString)
    requires k <= |cmds| && file <= EncodeAll(cmds) && |EncodeAll(cmds[..k])| <= |file|
    ensures file[..|EncodeAll(cmds[..k])|] == EncodeAll(cmds[..k])
    ensures file == EncodeAll(cmds[..k]) <==> |file| == |EncodeAll(cmds[..k])|
  {
    PrefixBytes(cmds, k);
    var kept := EncodeAll(cmds[..k]);
    assert file[..|kept|] == EncodeAll(cmds)[..|kept|] == kept;
    assert file[..|file|] == file;
  }

  lemma PrefixBytes(cmds: seq<Command>, k: nat)
    requires k <= |cmds|
    ensures EncodeAll(cmds[..k]) <= EncodeAll(cmds)
  {
    assert cmds == cmds[..k] + cmds[k..];
    EncodeAllConcat(cmds[..k], cmds[k..]);
  }

  /** A load that succeeds leaves the file equal to the encoding of what it executed. */
  lemma LoadedFile(srv: Server, setup: Setup, cmds: seq<Command>, file: ByteString, dbs: seq<Db>, now: int)
    requires |dbs| > 0 && Known(srv, cmds) && file <= EncodeAll(cmds) && file != []
    ensures var k := Complete(cmds, |file|);
            var r := Load(srv, setup, file, dbs, now);
            && r.executed == cmds[..k] && r.session == ReplayAll(srv, Session(Keys(dbs, 0), None), cmds[..k], now)
            && r.fate in {Loaded, Exited} && r.file <= EncodeAll(cmds)
            && (r.fate == Loaded ==> r.file == EncodeAll(cmds[..k]))
  {
    hide LoadLoop, Encode, ReplayAll, Load;
    var k := Complete(cmds, |file|);
    LoadOutcome(srv, setup, cmds, file, dbs, now);
    PrefixOfPrefix(cmds, k, file);
    PrefixBytes(cmds, k);
  }

  /** Loading a file that was loaded before and appended to since replays both parts. */
  lemma ReloadAppended(srv: Server, setup: Setup, log: seq<Command>, more: seq<Command>, dbs: seq<Db>, now: int)
    requires |dbs| > 0 && Known(srv, log) && Known(srv, more) && more != []
    requires setup.loadTruncated && setup.truncateOk && (setup.fdOpen ==> setup.seekOk)
    ensures var r := Load(srv, setup, EncodeAll(log) + EncodeAll(more), dbs, now);
            && r.fate == Loaded && r.file == EncodeAll(log) + EncodeAll(more) && r.executed == log + more
            && r.session == ReplayAll(srv, ReplayAll(srv, Session(Keys(dbs, 0), None), log, now), more, now)
  {
    hide LoadLoop, EncodeAll, ReplayAll, Load;
    var all := log + more;
    EncodeAllConcat(log, more);
    NotEmpty(log, more);
    assert all[..|all|] == all;
    CompleteIsMaximal(all, |EncodeAll(all)|, |all|);
    CrashRecovery(srv, setup, all, EncodeAll(all), dbs, now);
    ReplayAllConcat(srv, Session(Keys(dbs, 0), None), log, more, now);
  }

  lemma NotEmpty(log: seq<Command>, more: seq<Command>)
    requires more != []
    ensures EncodeAll(log + more) != []
  {
    EncodeAllConcat(log, more);
    assert Encode(more[0]) != [];
  }

  /**
   Commands logged after a load survive the next one: a crash leaves `file`, it is loaded,
   the server executes `more` and appends it, and the file is loaded again, at any times.
   The second load goes on from the first with the transaction that was open at the end of
   what the first one kept, followed by `more`, up to where that is inside of MULTI again.
   So it gives what the server had exactly if that amounts to `more` alone.
   */
  lemma AppendAfterLoad(srv: Server, setup: Setup, cmds: seq<Command>, file: ByteString, more: seq<Command>,
                        dbs: seq<Db>, now: int, at: int, again: int)
    requires |dbs| > 0 && Known(srv, cmds) && file <= EncodeAll(cmds) && file != []
    requires setup.loadTruncated && setup.truncateOk && (setup.fdOpen ==> setup.seekOk)
    requires Known(srv, more) && more != []
    requires AllTimeFree(srv, cmds) && AllTimeFree(srv, more)
    ensures var kept := cmds[..Complete(cmds, |file|)];
            var first := Load(srv, setup, file, dbs, now);
            var second := Load(srv, setup, first.file + EncodeAll(more), dbs, again);
            && first.fate == Loaded && first.executed == kept
            && second.fate == Loaded && second.file == first.file + EncodeAll(more) && second.executed == kept + more
            && second.session.ks == RunAll(srv, first.session.ks, ClosedPart(srv, OpenPart(srv, kept) + more), at)
            && (!OpenAtEnd(srv, kept) && !OpenAtEnd(srv, more) ==>
                  second.session.ks == RunAll(srv, first.session.ks, more, at))
  {
    hide LoadLoop, EncodeAll, ReplayAll, Load, RunAll, TimeFree, OpenAtEnd, ClosedPart;
    var kept := cmds[..Complete(cmds, |file|)];
    var start := Session(Keys(dbs, 0), None);
    CrashRecovery(srv, setup, cmds, file, dbs, now);
    var next := ClosedPart(srv, OpenPart(srv, kept) + more);
    ReplayAllTimeFree(srv, start, kept, now, at);
    ReloadAppended(srv, setup, kept, more, dbs, again);
    ReplayAllConcat(srv, start, kept, more, again);
    assert AllTimeFree(srv, kept + more);
    ReplayAllTimeFree(srv, start, kept + more, again, at);
    ReplayGoesOn(srv, start, kept, more, at);
    if !OpenAtEnd(srv, kept) && !OpenAtEnd(srv, more) {
      assert OpenPart(srv, kept) == [] && [] + more == more;
    }
  }

  lemma ReplayGoesOn(srv: Server, s: Session, kept: seq<Command>, more: seq<Command>, now: int)
    requires InRange(s.ks) && s.queue.None?
    ensures ReplayAll(srv, s, kept + more, now).ks
            == RunAll(srv, ReplayAll(srv, s, kept, now).ks, ClosedPart(srv, OpenPart(srv, kept) + more), now)
  {
    hide ReplayAll, RunAll, OpenAtEnd, ClosedPart, OpenPart;
    var closed, open := ClosedPart(srv, kept), OpenPart(srv, kept);
    assert kept + more == closed + (open + more);
    ClosedConcat(srv, closed, open + more);
    ReplayRunsClosedPart(srv, s, kept, now);
    ReplayRunsClosedPart(srv, s, kept + more, now);
    RunAllConcat(srv, s.ks, closed, ClosedPart(srv, open + more), now);
  }

  /**
   In particular commands without an EXEC survive if and only if no transaction was open at
   the end of what the first load kept, or they change nothing. With one open, its MULTI
   stays in the file and later commands are queued behind it.
   */
  lemma PlainAfterLoad(srv: Server, setup: Setup, cmds: seq<Command>, file: ByteString, more: seq<Command>,
                       dbs: seq<Db>, now: int, at: int, again: int)
    requires |dbs| > 0 && Known(srv, cmds) && file <= EncodeAll(cmds) && file != []
    requires setup.loadTruncated && setup.truncateOk && (setup.fdOpen ==> setup.seekOk)
    requires Known(srv, more) && more != [] && Plain(srv, more)
    requires AllTimeFree(srv, cmds) && AllTimeFree(srv, more)
    ensures var kept := cmds[..Complete(cmds, |file|)];
            var first := Load(srv, setup, file, dbs, now);
            var second := Load(srv, setup, first.file + EncodeAll(more), dbs, again);
            second.session.ks == RunAll(srv, first.session.ks, more, at)
            <==> !OpenAtEnd(srv, kept) || RunAll(srv, first.session.ks, more, at) == first.session.ks
  {
    hide LoadLoop, EncodeAll, ReplayAll, Load, TimeFree, OpenAtEnd, ClosedPart, OpenPart;
    var kept := cmds[..Complete(cmds, |file|)];
    AppendAfterLoad(srv, setup, cmds, file, more, dbs, now, at, again);
    PlainIsClosed(srv, more);
    if OpenAtEnd(srv, kept) {
      OpenPartIsOpen(srv, kept);
      NoExecStaysOpen(srv, OpenPart(srv, kept), more);
    }
    hide RunAll;
  }

  lemma OpenPartIsOpen(srv: Server, cmds: seq<Command>)
    requires OpenAtEnd(srv, cmds)
    ensures OpenAtEnd(srv, OpenPart(srv, cmds)) && ClosedPart(srv, OpenPart(srv, cmds)) == []
  {
    hide OpenAtEnd, ClosedPart, OpenPart;
    ClosedConcat(srv, ClosedPart(srv, cmds), OpenPart(srv, cmds));
    OpenConcat(srv, ClosedPart(srv, cmds), OpenPart(srv, cmds));
  }

  /** A log that ends inside a transaction loads well, and the next load loses an acknowledged SET. */
  lemma OpenTransactionSwallows(srv: Server, setup: Setup, multi: Command, key: ByteString, value: ByteString, now: int)
    requires HasTable(srv) && Storable(multi) && srv.lookup(multi[0]) == Multi
    requires setup.loadTruncated && setup.truncateOk && (setup.fdOpen ==> setup.seekOk)
    requires |key| <= INT64_MAX && |value| <= INT64_MAX
    ensures var cmd := [SET_NAME, key, value];
            var first := Load(srv, setup, EncodeAll([multi]), [map[]], now);
            var second := Load(srv, setup, first.file + EncodeAll([cmd]), [map[]], now);
            && first.fate == Loaded && first.session.ks.dbs == [map[]]
            && Run(srv, first.session.ks, cmd, now).dbs == [map[key := Entry(Str(value), None)]]
            && second.fate == Loaded && second.executed == [multi, cmd] && second.session.ks.dbs == [map[]]
  {
    var cmd := [SET_NAME, key, value];
    assert Storable(cmd) && !IsProc(srv, cmd, Multi) && !IsProc(srv, cmd, Exec) && srv.lookup(cmd[0]) != Unknown;
    hide Load, Run, HasTable, Storable, IsProc, EncodeAll;
    FirstLoad(srv, setup, multi, now);
    SecondLoad(srv, setup, multi, cmd, now);
    SetOnEmpty(srv, key, value, now);
  }

  lemma SecondLoad(srv: Server, setup: Setup, multi: Command, cmd: Command, now: int)
    requires Storable(multi) && srv.lookup(multi[0]) == Multi
    requires Storable(cmd) && srv.lookup(cmd[0]) != Unknown && !IsProc(srv, cmd, Multi) && !IsProc(srv, cmd, Exec)
    requires setup.loadTruncated && setup.truncateOk && (setup.fdOpen ==> setup.seekOk)
    ensures var r := Load(srv, setup, EncodeAll([multi]) + EncodeAll([cmd]), [map[]], now);
            r.fate == Loaded && r.executed == [multi, cmd] && r.session.ks == Keys([map[]], 0)
  {
    MultiIsOpen(srv, multi, cmd, now);
    hide Load, ReplayAll, EncodeAll, Storable, IsProc;
    ReloadAppended(srv, setup, [multi], [cmd], [map[]], now);
    assert [multi] + [cmd] == [multi, cmd];
  }

  lemma FirstLoad(srv: Server, setup: Setup, multi: Command, now: int)
    requires Storable(multi) && srv.lookup(multi[0]) == Multi
    requires setup.loadTruncated && setup.truncateOk && (setup.fdOpen ==> setup.seekOk)
    ensures var r := Load(srv, setup, EncodeAll([multi]), [map[]], now);
            && r.fate == Loaded && r.file == EncodeAll([multi])
            && r.session == Session(Keys([map[]], 0), Some([]))
  {
    assert !IsProc(srv, [], Multi) && !IsProc(srv, [], Exec);
    MultiIsOpen(srv, multi, [], now);
    hide Load, LoadLoop, ReplayAll, EncodeAll, Storable;
    var file := EncodeAll([multi]);
    NotEmpty([], [multi]);
    assert [] + [multi] == [multi] == [multi][..1];
    CompleteIsMaximal([multi], |file|, 1);
    CrashRecovery(srv, setup, [multi], file, [map[]], now);
  }

  lemma MultiIsOpen(srv: Server, multi: Command, cmd: Command, now: int)
    requires Storable(multi) && srv.lookup(multi[0]) == Multi && !IsProc(srv, cmd, Multi) && !IsProc(srv, cmd, Exec)
    ensures var s := Session(Keys([map[]], 0), None);
            ReplayAll(srv, s, [multi], now) == Session(s.ks, Some([]))
            && ReplayAll(srv, ReplayAll(srv, s, [multi], now), [cmd], now).ks == s.ks
  {
    var s := Session(Keys([map[]], 0), None);
    ReplayOne(srv, s, multi, now);
    ReplayOne(srv, Session(s.ks, Some([])), cmd, now);
  }

  lemma SetOnEmpty(srv: Server, key: ByteString, value: ByteString, now: int)
    requires HasTable(srv)
    ensures Run(srv, Keys([map[]], 0), [SET_NAME, key, value], now).dbs == [map[key := Entry(Str(value), None)]]
  {
    assert [SET_NAME, key, value][3..] == [];
  }
}

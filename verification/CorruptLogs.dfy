/**
 Loading files that no server wrote: where the loader stops in any content, what it makes
 of it, and that a record which cannot be a command is refused and never cut away.
 */
module CorruptLogs {
  import opened Options
  import opened Bytes
  import opened Resp
  import opened Keyspace
  import opened AofLoader

  // ---------- where the loader stops ----------

  /** The commands read from a file before the first record that is none. */
  function CommandsIn(srv: Server, s: ByteString): seq<Command>
    decreases |s|
  {
    match ReadOne(s)
    case Got(argv, rest) => if srv.lookup(argv[0]) == Unknown then [] else [argv] + CommandsIn(srv, rest)
    case _ => []
  }

  /** The file from that record on. */
  function Unread(srv: Server, s: ByteString): (left: ByteString)
    ensures |left| <= |s|
    decreases |s|
  {
    match ReadOne(s)
    case Got(argv, rest) => if srv.lookup(argv[0]) == Unknown then s else Unread(srv, rest)
    case _ => s
  }

  /** The length of the argument that starts here: its header line, the bytes it announces, and two more. */
  function ArgumentEnd(s: ByteString): nat
    requires s != []
  {
    var line := TakeLine(s, LINE_MAX);
    |line| + ToUnsigned(StrTol(line[1..])) + 2
  }

  /** One of the next `n` arguments announces more than the file has, and none before it is malformed. */
  predicate LacksArgument(s: ByteString, n: nat)
    decreases n
  {
    n > 0 && (s == [] || (s[0] == DOLLAR && (|s| < ArgumentEnd(s) || LacksArgument(s[ArgumentEnd(s)..], n - 1))))
  }

  /** The record that starts here runs into the end of the file. */
  predicate RunsOut(s: ByteString) {
    s != [] && s[0] == STAR &&
    var line := TakeLine(s, LINE_MAX);
    if |line| == 1 || line[1] == 0 then |line| == |s| < LINE_MAX && (|line| > 1 ==> line[|line| - 1] != LF)
    else Atoi(line[1..]) >= 1 && LacksArgument(s[|line|..], Atoi(line[1..]))
  }

  lemma {:induction false} ReadBulksLacks(s: ByteString, n: nat, argv: seq<ByteString>)
    ensures ReadBulks(s, n, argv) == ShortRead <==> LacksArgument(s, n)
    decreases n
  {
    hide TakeLine, StrTol;
    if n > 0 {
      BulkFits(s);
      hide ReadBulk, ArgumentEnd;
      if ReadBulk(s).Bulk? {
        ReadBulksLacks(s[ArgumentEnd(s)..], n - 1, argv + [ReadBulk(s).arg]);
      }
    }
  }

  lemma BulkFits(s: ByteString)
    ensures var r := ReadBulk(s);
            && (r.BadBulk? <==> s != [] && s[0] != DOLLAR)
            && (r.ShortBulk? <==> s == [] || (s[0] == DOLLAR && |s| < ArgumentEnd(s)))
            && (r.Bulk? ==> ArgumentEnd(s) <= |s| && r.rest == s[ArgumentEnd(s)..])
  {
    hide TakeLine, StrTol;
    if s != [] {
      FirstOfLine(s);
      var line := TakeLine(s, LINE_MAX);
      var len := ToUnsigned(StrTol(line[1..]));
      assert ArgumentEnd(s) <= |s| ==> s[|line|..][len + 2..] == s[ArgumentEnd(s)..];
    }
  }

  lemma FirstOfLine(s: ByteString)
    requires s != []
    ensures TakeLine(s, LINE_MAX) != [] && TakeLine(s, LINE_MAX)[0] == s[0]
  {
  }

  lemma ShortReadIff(s: ByteString)
    ensures ReadOne(s) == ShortRead <==> RunsOut(s)
  {
    hide TakeLine, Atoi, ReadBulks, LacksArgument;
    if s != [] {
      FirstOfLine(s);
      var line := TakeLine(s, LINE_MAX);
      if s[0] == STAR && |line| > 1 && line[1] != 0 && Atoi(line[1..]) >= 1 {
        ReadBulksLacks(s[|line|..], Atoi(line[1..]), []);
      }
    }
  }

  /** What loading any content does, by what follows the last command that was read. */
  ghost predicate Ends(setup: Setup, content: ByteString, left: ByteString, session: Session, r: Outcome)
    requires |left| <= |content|
  {
    var short := RunsOut(left) || (left == [] && session.queue.Some?);
    var cuts := short && setup.loadTruncated && setup.truncateOk;
    && left == content[|content| - |left|..] && r.session == session
    && (r.fate == Loaded <==> (left == [] && session.queue.None?) || (cuts && (setup.fdOpen ==> setup.seekOk)))
    && (r.fate == Loaded || r.fate == Exited)
    && r.file == if cuts then content[..|content| - |left|] else content
  }

  lemma NextIsRead(content: ByteString, pos: nat, argv: Command, rest: ByteString)
    requires pos <= |content| && ReadOne(content[pos..]) == Got(argv, rest)
    ensures pos < |content| - |rest| && content[|content| - |rest|..] == rest
  {
    var tail := content[pos..];
    RestIsSuffix(tail, argv, rest);
    hide ReadOne;
    assert content[|content| - |rest|..] == tail[|tail| - |rest|..];
  }

  lemma CommandsGoOn(srv: Server, s: Session, tail: ByteString, now: int, argv: Command, rest: ByteString)
    requires InRange(s.ks) && ReadOne(tail) == Got(argv, rest) && srv.lookup(argv[0]) != Unknown
    ensures CommandsIn(srv, tail) == [argv] + CommandsIn(srv, rest) && Unread(srv, tail) == Unread(srv, rest)
    ensures ReplayAll(srv, s, CommandsIn(srv, tail), now)
            == ReplayAll(srv, Replay(srv, s, argv, now), CommandsIn(srv, rest), now)
  {
    hide ReadOne, Replay;
    var cmds := CommandsIn(srv, tail);
    assert cmds[0] == argv && cmds[1..] == CommandsIn(srv, rest);
  }

  /** The result of the loop from a position on. */
  ghost predicate EndsWell(srv: Server, setup: Setup, content: ByteString, tail: ByteString, executed: seq<Command>,
                           s: Session, now: int, r: Outcome)
    requires InRange(s.ks) && |tail| <= |content|
  {
    && r.executed == executed + CommandsIn(srv, tail)
    && Ends(setup, content, Unread(srv, tail), ReplayAll(srv, s, CommandsIn(srv, tail), now), r)
  }

  lemma LoopTurn(srv: Server, setup: Setup, content: ByteString, pos: nat, executed: seq<Command>,
                 s: Session, now: int, argv: Command, rest: ByteString, next: nat)
    requires pos < next <= |content| && next == |content| - |rest| && InRange(s.ks)
    requires ReadOne(content[pos..]) == Got(argv, rest) && srv.lookup(argv[0]) != Unknown
    ensures LoadLoop(srv, setup, content, pos, executed, s, now)
            == LoadLoop(srv, setup, content, next, executed + [argv], Replay(srv, s, argv, now), now)
  {
    hide ReadOne, Replay, UnexpectedEof, InRange;
  }

  lemma TurnEndsWell(srv: Server, setup: Setup, content: ByteString, tail: ByteString, executed: seq<Command>,
                     s: Session, now: int, argv: Command, rest: ByteString, r: Outcome)
    requires InRange(s.ks) && |tail| <= |content| && |rest| <= |content|
    requires ReadOne(tail) == Got(argv, rest) && srv.lookup(argv[0]) != Unknown
    requires EndsWell(srv, setup, content, rest, executed + [argv], Replay(srv, s, argv, now), now, r)
    ensures EndsWell(srv, setup, content, tail, executed, s, now, r)
  {
    hide ReadOne, Replay, CommandsIn, Unread, Ends, ReplayAll;
    CommandsGoOn(srv, s, tail, now, argv, rest);
    FrontGrows(executed, argv, CommandsIn(srv, rest));
  }

  lemma {:induction false} LoopEnds(srv: Server, setup: Setup, content: ByteString, pos: nat, tail: ByteString,
                                    executed: seq<Command>, s: Session, now: int)
    requires pos <= |content| && InRange(s.ks) && tail == content[pos..]
    ensures EndsWell(srv, setup, content, tail, executed, s, now,
                     LoadLoop(srv, setup, content, pos, executed, s, now))
    decreases |content| - pos
  {
    var found := ReadOne(tail);
    hide *;
    if found.Got? && srv.lookup(found.argv[0]) != Unknown {
      var next, turn := |content| - |found.rest|, Replay(srv, s, found.argv, now);
      NextIsRead(content, pos, found.argv, found.rest);
      LoopTurn(srv, setup, content, pos, executed, s, now, found.argv, found.rest, next);
      LoopEnds(srv, setup, content, next, found.rest, executed + [found.argv], turn, now);
      TurnEndsWell(srv, setup, content, tail, executed, s, now, found.argv, found.rest,
                   LoadLoop(srv, setup, content, next, executed + [found.argv], turn, now));
    } else {
      StopsHere(srv, setup, content, pos, tail, executed, s, now);
    }
  }

  lemma FrontGrows<T>(front: seq<T>, x: T, rest: seq<T>)
    ensures front + ([x] + rest) == front + [x] + rest
  {
  }

  lemma StopsHere(srv: Server, setup: Setup, content: ByteString, pos: nat, tail: ByteString, executed: seq<Command>,
                  s: Session, now: int)
    requires pos <= |content| && InRange(s.ks) && tail == content[pos..]
    requires ReadOne(tail).Got? ==> srv.lookup(ReadOne(tail).argv[0]) == Unknown
    ensures EndsWell(srv, setup, content, tail, executed, s, now,
                     LoadLoop(srv, setup, content, pos, executed, s, now))
  {
    ShortReadIff(tail);
    hide ReadOne, RunsOut, Replay;
    assert executed + [] == executed;
  }

  lemma {:induction false} BulksAreSuffix(s: ByteString, n: nat, argv: seq<ByteString>)
    ensures var r := ReadBulks(s, n, argv); r.Got? ==> |r.rest| <= |s| && r.rest == s[|s| - |r.rest|..]
    decreases n
  {
    hide TakeLine, StrTol;
    if n > 0 && ReadBulk(s).Bulk? {
      var rest := ReadBulk(s).rest;
      assert rest == s[|s| - |rest|..];
      BulksAreSuffix(rest, n - 1, argv + [ReadBulk(s).arg]);
    }
  }

  lemma RestIsSuffix(s: ByteString, argv: Command, rest: ByteString)
    requires ReadOne(s) == Got(argv, rest)
    ensures |rest| < |s| && rest == s[|s| - |rest|..]
  {
    hide Atoi, ReadBulks;
    var line := TakeLine(s, LINE_MAX);
    BulksAreSuffix(s[|line|..], Atoi(line[1..]), []);
  }

  /**
   Any file without an RDB preamble: the loader executes the commands in front of the first
   record that is none. If that record runs into the end of the file, or there is none and
   a transaction is open, the settings decide whether the rest is cut off. Anything else
   makes the server exit and leaves the file alone.
   */
  lemma AnyLoad(srv: Server, setup: Setup, content: ByteString, dbs: seq<Db>, now: int)
    requires |dbs| > 0 && content != [] && !(REDIS_MAGIC <= content)
    ensures var r := Load(srv, setup, content, dbs, now); var cmds := CommandsIn(srv, content);
            r.executed == cmds && Ends(setup, content, Unread(srv, content),
                                       ReplayAll(srv, Session(Keys(dbs, 0), None), cmds, now), r)
  {
    assert content[0..] == content;
    hide LoadLoop, ReplayAll, Ends;
    LoopEnds(srv, setup, content, 0, content, [], Session(Keys(dbs, 0), None), now);
    EmptyFront(CommandsIn(srv, content));
  }

  /** A load shortens the file if and only if it may, and the first record that is no command runs into the end. */
  lemma ShortensIff(srv: Server, setup: Setup, content: ByteString, dbs: seq<Db>, now: int)
    requires |dbs| > 0
    ensures var r := Load(srv, setup, content, dbs, now);
            |r.file| < |content|
            <==> setup.loadTruncated && setup.truncateOk && !(REDIS_MAGIC <= content) && RunsOut(Unread(srv, content))
  {
    if content != [] && !(REDIS_MAGIC <= content) {
      hide Load, ReplayAll, RunsOut;
      AnyLoad(srv, setup, content, dbs, now);
      NothingRunsOut();
    }
  }

  lemma NothingRunsOut()
    ensures !RunsOut([])
  {
  }

  // ---------- records that cannot be a command ----------

  /**
   The ways in which a record is malformed, or unknown: it does not start with a star; the
   count is no number, is below 1, or is missing behind a NUL byte; behind some arguments
   comes a line without a dollar; or the command table does not have its name.
   */
  datatype Corrupt =
    | NoStar(first: byte)
    | NoCount(first: byte)
    | BadCount(v: int)
    | NulCount
    | NoDollar(argc: nat, args: seq<ByteString>, first: byte)
    | NoSuchCommand(argv: Command)

  predicate IsCorrupt(srv: Server, c: Corrupt) {
    match c
    case NoStar(first) => first != STAR
    case NoCount(first) => first != 0 && !IsSpace(first) && !IsDigit(first) && first != MINUS && first != PLUS
    case BadCount(v) => -0x8000_0000 <= v < 1
    case NulCount => true
    case NoDollar(argc, args, first) =>
      |args| < argc < 0x8000_0000 && first != DOLLAR && forall i :: 0 <= i < |args| ==> |args[i]| <= INT64_MAX
    case NoSuchCommand(argv) => Storable(argv) && srv.lookup(argv[0]) == Unknown
  }

  /** Its bytes, up to the one that shows it. */
  function BytesOf(c: Corrupt): (s: ByteString)
    requires c.NoSuchCommand? ==> c.argv != []
    ensures s != []
  {
    match c
    case NoStar(first) => [first]
    case NoCount(first) => [STAR, first]
    case BadCount(v) => [STAR] + SignedDecimal(v) + CRLF
    case NulCount => [STAR, 0, LF]
    case NoDollar(argc, args, first) => Header(STAR, argc) + (EncodeBulks(args) + [first])
    case NoSuchCommand(argv) => Encode(argv)
  }

  /** A line of printable bytes that ends the usual way is taken whole. */
  lemma LineIsTaken(text: ByteString, rest: ByteString)
    requires |text| <= LINE_MAX - 2 && forall i :: 0 <= i < |text| ==> text[i] != LF
    ensures TakeLine(text + CRLF + rest, LINE_MAX) == text + CRLF
  {
    var s, k := text + CRLF + rest, |text| + 1;
    assert s[k] == LF && s[..k + 1] == text + CRLF;
    assert forall i :: 0 <= i < k ==> s[i] == (text + CRLF)[i];
    TakeLineStops(s, k, LINE_MAX);
  }

  lemma SignedIsShort(v: int)
    requires -0x8000_0000 <= v < 1
    ensures var text := SignedDecimal(v);
            0 < |text| <= 11 && text[0] != 0 && forall i :: 0 <= i < |text| ==> text[i] != LF
  {
    assert Pow10(10) == 10_000_000_000;
    DecimalLength(-v, 10);
    var digits := Decimal(-v);
    assert forall i :: 0 <= i < |digits| ==> IsDigit(digits[i]);
    hide Decimal;
    if v == 0 {
      assert Decimal(-v) == Decimal(v);
    }
  }

  /** strtol reads a minus and digits as the number below zero. */
  lemma MinusReads(digits: ByteString)
    requires digits != [] && AllDigits(digits) && DigitsValue(digits) <= INT64_MAX
    ensures StrTol([MINUS] + digits + CRLF) + DigitsValue(digits) == 0
  {
    DigitRunOf(digits, CRLF);
    var s := [MINUS] + digits + CRLF;
    assert s[1..] == digits + CRLF;
    assert SkipSpaces(s) == s;
    hide DigitsValue, DigitRun, SkipSpaces;
  }

  lemma NarrowReads(s: ByteString, v: int)
    requires StrTol(s) == v && -0x8000_0000 <= v < 0x8000_0000
    ensures Atoi(s) == v
  {
  }

  lemma CountText(v: int)
    requires -0x8000_0000 <= v < 1
    ensures Atoi(SignedDecimal(v) + CRLF) == v
  {
    var digits := Decimal(-v);
    ValueOfDecimal(-v);
    if v < 0 {
      assert SignedDecimal(v) == [MINUS] + digits;
      hide Atoi, StrTol, SignedDecimal, Decimal, DigitsValue;
      MinusReads(digits);
    } else {
      assert SignedDecimal(v) == digits;
      hide Atoi, StrTol, SignedDecimal, Decimal, DigitsValue;
      StrTolReads(digits, CRLF);
    }
    NarrowReads(SignedDecimal(v) + CRLF, v);
  }

  /** A negative or zero count is read with its sign. */
  lemma BadCountReads(v: int, rest: ByteString)
    requires -0x8000_0000 <= v < 1
    ensures var line := [STAR] + SignedDecimal(v) + CRLF;
            TakeLine(line + rest, LINE_MAX) == line && line[1] != 0 && Atoi(line[1..]) == v
  {
    hide Atoi, TakeLine, SignedDecimal, Decimal;
    SignedIsShort(v);
    CountText(v);
    var text := [STAR] + SignedDecimal(v);
    assert (text + CRLF)[1..] == SignedDecimal(v) + CRLF;
    LineIsTaken(text, rest);
  }

  lemma NoBulk(first: byte, rest: ByteString)
    requires first != DOLLAR
    ensures ReadBulk([first] + rest) == BadBulk
  {
    FirstOfLine([first] + rest);
    hide TakeLine, StrTol;
  }

  lemma {:induction false} ReadBulksStops(args: seq<ByteString>, first: byte, rest: ByteString, n: nat,
                                          argv: seq<ByteString>)
    requires |args| < n && first != DOLLAR && forall i :: 0 <= i < |args| ==> |args[i]| <= INT64_MAX
    ensures ReadBulks(EncodeBulks(args) + ([first] + rest), n, argv) == BadFormat
    decreases |args|
  {
    hide EncodeBulk, ReadBulk;
    var tail := [first] + rest;
    if args == [] {
      assert [] + tail == tail;
      NoBulk(first, rest);
    } else {
      var more := EncodeBulks(args[1..]) + tail;
      FirstBulk(args, tail);
      ReadBulkWhole(args[0], more);
      hide EncodeBulks;
      ReadBulksStep(EncodeBulks(args) + tail, n, argv, args[0], more);
      hide ReadBulks;
      ReadBulksStops(args[1..], first, rest, n - 1, argv + [args[0]]);
    }
  }

  lemma NoDollarIsRefused(argc: nat, args: seq<ByteString>, first: byte, rest: ByteString)
    requires |args| < argc < 0x8000_0000 && first != DOLLAR && forall i :: 0 <= i < |args| ==> |args[i]| <= INT64_MAX
    ensures ReadOne(BytesOf(NoDollar(argc, args, first)) + rest) == BadFormat
  {
    var header, bulks := Header(STAR, argc), EncodeBulks(args) + ([first] + rest);
    var s := BytesOf(NoDollar(argc, args, first)) + rest;
    assert s == header + bulks by {
      Associative(header, EncodeBulks(args) + [first], rest);
      Associative(EncodeBulks(args), [first], rest);
    }
    assert s + [] == header + bulks;
    TakeHeader(STAR, argc, bulks, s, []);
    HeaderNumber(STAR, argc);
    AtoiReads(header[1..]);
    assert header[1] == Decimal(argc)[0];
    assert s[|header|..] == bulks;
    ReadBulksStops(args, first, rest, argc, []);
  }

  lemma NoCountIsRefused(first: byte, rest: ByteString)
    requires first != 0 && !IsSpace(first) && !IsDigit(first) && first != MINUS && first != PLUS
    ensures ReadOne([STAR, first] + rest) == BadFormat
  {
    var s := [STAR, first] + rest;
    var line := TakeLine(s, LINE_MAX);
    assert s[1..] == [first] + rest;
    assert line[0] == STAR && line[1] == first;
    assert DigitRun(line[1..]) == [];
    assert StrTol(line[1..]) == 0;
  }

  lemma NulCountIsRefused(rest: ByteString)
    ensures ReadOne([STAR, 0, LF] + rest) == ReadFailure
  {
    var s := [STAR, 0, LF] + rest;
    TakeLineStops(s, 2, LINE_MAX);
    assert s[..3] == [STAR, 0, LF];
  }

  lemma BadCountIsRefused(v: int, rest: ByteString)
    requires -0x8000_0000 <= v < 1
    ensures ReadOne([STAR] + SignedDecimal(v) + CRLF + rest) == BadFormat
  {
    hide TakeLine, Atoi, SignedDecimal;
    BadCountReads(v, rest);
  }

  /** The loader's reader neither takes such a record for a command nor for a short one. */
  lemma CorruptIsNoCommand(srv: Server, c: Corrupt, rest: ByteString)
    requires IsCorrupt(srv, c)
    ensures var found := ReadOne(BytesOf(c) + rest);
            found == BadFormat || found == ReadFailure || (found.Got? && srv.lookup(found.argv[0]) == Unknown)
  {
    hide ReadOne, Encode;
    match c {
      case NoStar(first) => NoStarIsRefused(first, rest);
      case NoCount(first) => NoCountIsRefused(first, rest);
      case BadCount(v) => BadCountIsRefused(v, rest);
      case NulCount => NulCountIsRefused(rest);
      case NoDollar(argc, args, first) => NoDollarIsRefused(argc, args, first, rest);
      case NoSuchCommand(argv) => ReadOneWhole(argv, rest);
    }
  }

  lemma NoStarIsRefused(first: byte, rest: ByteString)
    requires first != STAR
    ensures ReadOne([first] + rest) == BadFormat
  {
    FirstOfLine([first] + rest);
  }

  /** The loop passes over known commands. */
  lemma {:induction false} LoopPasses(srv: Server, setup: Setup, done: ByteString, cmds: seq<Command>, rest: ByteString,
                                      executed: seq<Command>, s: Session, now: int)
    requires InRange(s.ks) && Known(srv, cmds)
    ensures LoadLoop(srv, setup, done + (EncodeAll(cmds) + rest), |done|, executed, s, now)
            == LoadLoop(srv, setup, (done + EncodeAll(cmds)) + rest, |done + EncodeAll(cmds)|, executed + cmds,
                        ReplayAll(srv, s, cmds, now), now)
    decreases |cmds|
  {
    hide LoadLoop, Replay, Encode;
    if cmds == [] {
      assert [] + rest == rest && done + [] == done && executed + [] == executed;
    } else {
      assert Storable(cmds[0]);
      var first, others := Encode(cmds[0]), EncodeAll(cmds[1..]);
      Associative(first, others, rest);
      LoadLoopStep(srv, setup, done, cmds[0], others + rest, executed, s, now);
      LoopPasses(srv, setup, done + first, cmds[1..], rest, executed + [cmds[0]], Replay(srv, s, cmds[0], now), now);
      Associative(done, first, others);
      MoveFirst(executed, cmds);
    }
  }

  /**
   A corrupt record behind good commands: they are executed, then the server exits, and the
   file stays as it is, whatever the settings and whatever follows.
   */
  lemma CorruptLogIsRefused(srv: Server, setup: Setup, cmds: seq<Command>, c: Corrupt, rest: ByteString,
                            dbs: seq<Db>, now: int)
    requires |dbs| > 0 && Known(srv, cmds) && IsCorrupt(srv, c)
    requires !(REDIS_MAGIC <= EncodeAll(cmds) + (BytesOf(c) + rest))
    ensures var content := EncodeAll(cmds) + (BytesOf(c) + rest);
            Load(srv, setup, content, dbs, now)
            == Outcome(Exited, content, cmds, ReplayAll(srv, Session(Keys(dbs, 0), None), cmds, now))
  {
    var left, start := BytesOf(c) + rest, Session(Keys(dbs, 0), None);
    var content, good := EncodeAll(cmds) + left, EncodeAll(cmds);
    assert left != [] && content != [];
    CorruptIsNoCommand(srv, c, rest);
    assert Load(srv, setup, content, dbs, now) == LoadLoop(srv, setup, content, 0, [], start, now) by {
      hide LoadLoop;
    }
    hide *;
    LoopPasses(srv, setup, [], cmds, left, [], start, now);
    EmptyFront(content);
    EmptyFront(good);
    EmptyFront(cmds);
    LoopExits(srv, setup, good, left, cmds, ReplayAll(srv, start, cmds, now), now);
  }

  lemma LoopExits(srv: Server, setup: Setup, good: ByteString, left: ByteString, executed: seq<Command>, s: Session,
                  now: int)
    requires InRange(s.ks)
    requires var found := ReadOne(left);
             found == BadFormat || found == ReadFailure || (found.Got? && srv.lookup(found.argv[0]) == Unknown)
    ensures LoadLoop(srv, setup, good + left, |good|, executed, s, now) == Outcome(Exited, good + left, executed, s)
  {
    assert (good + left)[|good|..] == left;
    hide ReadOne, Replay;
  }
}

/**
 loadAppendOnlyFile over a stdio stream: a cursor that moves with fgets and fread, the
 end-of-file flag they set, and the loop over commands and arguments.
 */
module AofReader {
  import opened Options
  import opened Bytes
  import opened Resp
  import opened Keyspace
  import opened AofLoader

  /** A file opened for reading. */
  class File {
    const content: ByteString
    var pos: nat
    var eof: bool

    constructor (content: ByteString)
      ensures this.content == content && pos == 0 && !eof
    {
      this.content, pos, eof := content, 0, false;
    }

    predicate Valid()
      reads this
    {
      pos <= |content|
    }

    function Rest(): ByteString
      requires Valid()
      reads this
    {
      content[pos..]
    }

    /** fgets into a buffer of LINE_MAX + 1 bytes: None for NULL. */
    method Fgets() returns (line: Option<ByteString>)
      requires Valid()
      modifies `pos, `eof
      ensures Valid()
      ensures old(Rest()) == [] <==> line == None
      ensures line == None ==> eof && pos == old(pos)
      ensures line.Some? ==>
                && line.value == TakeLine(old(Rest()), LINE_MAX)
                && Rest() == old(Rest())[|line.value|..] && pos == old(pos) + |line.value|
                && eof == (old(eof) || HitEof(line.value, old(Rest())))
    {
      if pos == |content| {
        eof := true;
        return None;
      }
      var taken := TakeLine(content[pos..], LINE_MAX);
      eof := eof || HitEof(taken, content[pos..]);
      pos := pos + |taken|;
      line := Some(taken);
    }

    /** fread of one item of `n` bytes: None when fewer are left, which eats them. */
    method Fread(n: nat) returns (data: Option<ByteString>)
      requires Valid()
      modifies `pos, `eof
      ensures Valid()
      ensures data == None <==> n > |old(Rest())|
      ensures data == None ==> eof
      ensures data.Some? ==>
                && data.value == old(Rest())[..n]
                && Rest() == old(Rest())[n..] && pos == old(pos) + n && eof == old(eof)
    {
      if n > |content| - pos {
        pos, eof := |content|, true;
        return None;
      }
      data := Some(content[pos..pos + n]);
      pos := pos + n;
    }
  }

  /** Where the loading loop goes when a command cannot be read. */
  datatype Jump = Complete | ReadErr | FmtErr

  class Loader {
    const srv: Server
    const setup: Setup
    var session: Session
    var executed: seq<Command>
    var file: ByteString
    var currentSize: nat

    constructor (srv: Server, setup: Setup, file: ByteString, dbs: seq<Db>)
      requires |dbs| > 0
      ensures this.srv == srv && this.setup == setup && this.file == file
      ensures session == Session(Keys(dbs, 0), None) && executed == []
    {
      this.srv, this.setup, this.file := srv, setup, file;
      session, executed, currentSize := Session(Keys(dbs, 0), None), [], 0;
    }

    /** One argument of the inner loop. */
    method ReadArgument(fp: File) returns (arg: ByteString, jump: Jump)
      requires fp.Valid()
      modifies fp
      ensures fp.Valid()
      ensures match ReadBulk(old(fp.Rest()))
              case Bulk(a, rest) => jump == Complete && arg == a && fp.Rest() == rest
              case ShortBulk => jump == ReadErr && fp.eof
              case BadBulk => jump == FmtErr
      ensures jump == Complete ==> fp.eof == old(fp.eof) && old(fp.Rest()) != []
    {
      arg := [];
      var line := fp.Fgets();
      if line.None? {
        return arg, ReadErr;
      }
      if line.value[0] != DOLLAR {
        return arg, FmtErr;
      }
      var len := ToUnsigned(StrTol(line.value[1..]));
      if len != 0 {
        var data := fp.Fread(len);
        if data.None? {
          return arg, ReadErr;
        }
        arg := data.value;
      }
      var crlf := fp.Fread(2);
      if crlf.None? {
        return arg, ReadErr;
      }
      jump := Complete;
    }

    /** The loop over the arguments of one command. */
    method ReadArguments(fp: File, argc: nat) returns (argv: seq<ByteString>, jump: Jump)
      requires fp.Valid()
      modifies fp
      ensures fp.Valid()
      ensures match ReadBulks(old(fp.Rest()), argc, [])
              case Got(args, rest) => jump == Complete && argv == args && fp.Rest() == rest
              case ShortRead => jump == ReadErr && fp.eof
              case _ => jump == FmtErr
      ensures jump == Complete ==> fp.eof == old(fp.eof) && (argc > 0 ==> old(fp.Rest()) != [])
    {
      hide ReadBulk;
      argv := [];
      var j := 0;
      while j < argc
        invariant j <= argc && fp.Valid() && fp.eof == old(fp.eof)
        invariant if j > 0 then old(fp.Rest()) != [] else fp.Rest() == old(fp.Rest())
        invariant ReadBulks(fp.Rest(), argc - j, argv) == ReadBulks(old(fp.Rest()), argc, [])
      {
        var arg;
        arg, jump := ReadArgument(fp);
        if jump != Complete {
          return;
        }
        argv := argv + [arg];
        j := j + 1;
      }
      jump := Complete;
    }

    /** One command: its header line, then its arguments; `atEnd` when there is none. */
    method ReadCommand(fp: File) returns (argv: Command, jump: Jump, atEnd: bool)
      requires fp.Valid() && !fp.eof
      modifies fp
      ensures fp.Valid()
      ensures match ReadOne(old(fp.Rest()))
              case AtEnd => atEnd
              case Got(args, rest) => !atEnd && jump == Complete && argv == args && fp.Rest() == rest && !fp.eof
              case ShortRead => !atEnd && jump == ReadErr && fp.eof
              case ReadFailure => !atEnd && jump == ReadErr && !fp.eof
              case BadFormat => !atEnd && jump == FmtErr
    {
      argv, jump, atEnd := [], Complete, false;
      var line := fp.Fgets();
      if line.None? {
        atEnd := true;
        return;
      }
      var buf := line.value;
      if buf[0] != STAR {
        jump := FmtErr;
        return;
      }
      if |buf| == 1 || buf[1] == 0 {
        jump := ReadErr;
        return;
      }
      var argc := Atoi(buf[1..]);
      if argc < 1 {
        jump := FmtErr;
        return;
      }
      argv, jump := ReadArguments(fp, argc);
    }

    /** The uxeof label. */
    method TruncateTail(validUpTo: nat) returns (fate: Fate)
      requires validUpTo <= |file|
      modifies `file
      ensures Outcome(fate, file, executed, session) == UnexpectedEof(setup, old(file), validUpTo, executed, session)
    {
      fate := Exited;
      if setup.loadTruncated {
        if setup.truncateOk {
          file := file[..validUpTo];
          if !(setup.fdOpen && !setup.seekOk) {
            fate := Loaded;
          }
        }
      }
    }

    method LoadAppendOnlyFile(now: int) returns (fate: Fate)
      requires executed == [] && session.queue == None && session.ks.selected == 0 && |session.ks.dbs| > 0
      modifies this
      ensures Outcome(fate, file, executed, session) == Load(srv, setup, old(file), old(session.ks.dbs), now)
      ensures fate == Loaded ==> currentSize == |file|
    {
      if |file| == 0 {
        currentSize := 0;
        return EmptyFile;
      }
      if REDIS_MAGIC <= file {
        return RdbPreamble;
      }
      fate := LoadCommands(now);
      if fate == Loaded {
        currentSize := |file|;
      }
    }

    /** The while(1) loop, and the labels it leaves for. */
    method LoadCommands(now: int) returns (fate: Fate)
      requires InRange(session.ks)
      modifies `file, `executed, `session
      ensures Outcome(fate, file, executed, session)
              == LoadLoop(srv, setup, old(file), 0, old(executed), old(session), now)
    {
      hide ReadOne, Replay;
      var fp := new File(file);
      var validUpTo: nat := 0;
      while true
        invariant fp.Valid() && fp.content == file == old(file) && validUpTo <= fp.pos && InRange(session.ks)
        invariant !fp.eof && (setup.loadTruncated ==> validUpTo == fp.pos)
        invariant LoadLoop(srv, setup, file, fp.pos, executed, session, now)
                  == LoadLoop(srv, setup, old(file), 0, old(executed), old(session), now)
        decreases |file| - fp.pos
      {
        var argv, jump, atEnd := ReadCommand(fp);
        if atEnd {
          break;
        }
        if jump == FmtErr {
          return Exited;
        }
        if jump == ReadErr {
          if !fp.eof {
            return Exited;
          }
          fate := TruncateTail(validUpTo);
          return;
        }
        if srv.lookup(argv[0]) == Unknown {
          return Exited;
        }
        session := Replay(srv, session, argv, now);
        executed := executed + [argv];
        if setup.loadTruncated {
          validUpTo := fp.pos;
        }
      }
      if session.queue.Some? {
        fate := TruncateTail(validUpTo);
      } else {
        fate := Loaded;
      }
    }
  }
}

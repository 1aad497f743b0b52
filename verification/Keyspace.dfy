/**
 The dataset, what the commands that matter to persistence do to it, and the replay of
 a list of commands by one client, as the server does when it loads its own log.
 */
module Keyspace {
  import opened Options
  import opened Bytes
  import opened Resp

  datatype Kind = ListKind | SetKind | SortedSetKind | HashKind | ModuleKind
  datatype Value = Str(bytes: ByteString) | Aggregate(kind: Kind, items: seq<ByteString>)

  /** A value and the absolute time in milliseconds at which it expires. */
  datatype Entry = Entry(value: Value, expire: Option<int>)
  type Db = map<ByteString, Entry>

  datatype Proc =
    | Set | Setex | Psetex | Expire | Pexpire | Expireat | Pexpireat
    | Del | Select | Multi | Exec | Other | Unknown

  /** The command table, and the effect of every command this module does not spell out. */
  datatype Server = Server(lookup: ByteString -> Proc, other: (Db, Command) -> Db)

  const SET_NAME: ByteString := [83, 69, 84]
  const PEXPIREAT_NAME: ByteString := [80, 69, 88, 80, 73, 82, 69, 65, 84]
  const SELECT_NAME: ByteString := [83, 69, 76, 69, 67, 84]

  predicate HasTable(srv: Server) {
    srv.lookup(SET_NAME) == Set && srv.lookup(PEXPIREAT_NAME) == Pexpireat && srv.lookup(SELECT_NAME) == Select
  }

  /** The absolute deadline an expiry argument stands for at time `now`. */
  function Deadline(proc: Proc, arg: ByteString, now: int): Option<int> {
    match String2ll(arg)
    case None => None
    case Some(v) =>
      match proc
      case Expire | Setex => Some(now + 1000 * v)
      case Pexpire | Psetex => Some(now + v)
      case Expireat => Some(1000 * v)
      case _ => Some(v)
  }

  /** strcasecmp with a two letter option name, which stops at a NUL byte. */
  predicate IsOption(arg: ByteString, upper0: byte, upper1: byte)
    requires upper0 < 200 && upper1 < 200
  {
    && |arg| >= 2 && (arg[0] == upper0 || arg[0] == upper0 + 32) && (arg[1] == upper1 || arg[1] == upper1 + 32)
    && (|arg| == 2 || arg[2] == 0)
  }

  predicate IsEx(arg: ByteString) { IsOption(arg, 69, 88) }
  predicate IsPx(arg: ByteString) { IsOption(arg, 80, 88) }
  predicate IsNx(arg: ByteString) { IsOption(arg, 78, 88) }
  predicate IsXx(arg: ByteString) { IsOption(arg, 88, 88) }

  /** The time to live given to SET: none, or the argument of its last EX or PX. */
  datatype Ttl = NoTtl | Seconds(arg: ByteString) | Millis(arg: ByteString)

  /** The options of SET, [NX|XX] [EX seconds|PX milliseconds]; EX and PX exclude each other. */
  function SetOptions(opts: seq<ByteString>, ttl: Ttl): Option<Ttl>
    decreases |opts|
  {
    if opts == [] then Some(ttl)
    else if IsNx(opts[0]) || IsXx(opts[0]) then SetOptions(opts[1..], ttl)
    else if |opts| < 2 || String2ll(opts[1]).None? then None
    else if IsEx(opts[0]) && !ttl.Millis? then SetOptions(opts[2..], Seconds(opts[1]))
    else if IsPx(opts[0]) && !ttl.Seconds? then SetOptions(opts[2..], Millis(opts[1]))
    else None
  }

  function TtlDeadline(ttl: Ttl, now: int): Option<int> {
    match ttl
    case NoTtl => None
    case Seconds(arg) => Deadline(Expire, arg, now)
    case Millis(arg) => Deadline(Pexpire, arg, now)
  }

  function ExpireKey(db: Db, key: ByteString, deadline: Option<int>): Db {
    if deadline.Some? && key in db then db[key := db[key].(expire := deadline)] else db
  }

  /** What executing a write does to its database; a malformed command does nothing. */
  function Apply(srv: Server, db: Db, cmd: Command, now: int): Db
    requires cmd != []
  {
    match srv.lookup(cmd[0])
    case Set =>
      if |cmd| < 3 then db
      else
        var ttl := SetOptions(cmd[3..], NoTtl);
        if ttl.None? then db else db[cmd[1] := Entry(Str(cmd[2]), TtlDeadline(ttl.value, now))]
    case Setex | Psetex =>
      if |cmd| != 4 || String2ll(cmd[2]).None? then db
      else db[cmd[1] := Entry(Str(cmd[3]), Deadline(srv.lookup(cmd[0]), cmd[2], now))]
    case Expire | Pexpire | Expireat | Pexpireat =>
      if |cmd| != 3 then db else ExpireKey(db, cmd[1], Deadline(srv.lookup(cmd[0]), cmd[2], now))
    case Del => db - set i | 1 <= i < |cmd| :: cmd[i]
    case Other => srv.other(db, cmd)
    case _ => db
  }

  /** Databases and the one the client has selected. */
  datatype Keys = Keys(dbs: seq<Db>, selected: nat)

  predicate InRange(ks: Keys) { ks.selected < |ks.dbs| }

  /** One command outside of MULTI. */
  function Run(srv: Server, ks: Keys, cmd: Command, now: int): (r: Keys)
    requires InRange(ks)
    ensures InRange(r) && |r.dbs| == |ks.dbs|
  {
    if cmd == [] then ks
    else if srv.lookup(cmd[0]) == Select then
      var index := if |cmd| == 2 then String2ll(cmd[1]) else None;
      if index.Some? && 0 <= index.value < |ks.dbs| then ks.(selected := index.value) else ks
    else ks.(dbs := ks.dbs[ks.selected := Apply(srv, ks.dbs[ks.selected], cmd, now)])
  }

  function RunAll(srv: Server, ks: Keys, cmds: seq<Command>, now: int): (r: Keys)
    requires InRange(ks)
    ensures InRange(r) && |r.dbs| == |ks.dbs|
    decreases |cmds|
  {
    if cmds == [] then ks else RunAll(srv, Run(srv, ks, cmds[0], now), cmds[1..], now)
  }

  /** The client that replays a log: between MULTI and EXEC commands are only queued. */
  datatype Session = Session(ks: Keys, queue: Option<seq<Command>>)

  function Replay(srv: Server, s: Session, cmd: Command, now: int): (r: Session)
    requires InRange(s.ks)
    ensures InRange(r.ks) && |r.ks.dbs| == |s.ks.dbs|
  {
    var proc := if cmd == [] then Unknown else srv.lookup(cmd[0]);
    if proc == Multi then if s.queue.None? then s.(queue := Some([])) else s
    else if proc == Exec then
      if s.queue.None? then s else Session(RunAll(srv, s.ks, s.queue.value, now), None)
    else if s.queue.Some? then s.(queue := Some(s.queue.value + [cmd]))
    else s.(ks := Run(srv, s.ks, cmd, now))
  }

  function ReplayAll(srv: Server, s: Session, cmds: seq<Command>, now: int): (r: Session)
    requires InRange(s.ks)
    ensures InRange(r.ks) && |r.ks.dbs| == |s.ks.dbs|
    decreases |cmds|
  {
    if cmds == [] then s else ReplayAll(srv, Replay(srv, s, cmds[0], now), cmds[1..], now)
  }

  /** The dataset as it will be once an open transaction is executed. */
  function Settled(srv: Server, s: Session, now: int): (r: Keys)
    requires InRange(s.ks)
    ensures InRange(r) && |r.dbs| == |s.ks.dbs|
  {
    if s.queue.None? then s.ks else RunAll(srv, s.ks, s.queue.value, now)
  }

  lemma RunOne(srv: Server, ks: Keys, a: Command, now: int)
    requires InRange(ks)
    ensures RunAll(srv, ks, [a], now) == Run(srv, ks, a, now)
  {
    assert RunAll(srv, ks, [a], now) == RunAll(srv, Run(srv, ks, a, now), [a][1..], now);
  }

  lemma {:induction false} RunAllConcat(srv: Server, ks: Keys, a: seq<Command>, b: seq<Command>, now: int)
    requires InRange(ks)
    ensures RunAll(srv, ks, a + b, now) == RunAll(srv, RunAll(srv, ks, a, now), b, now)
    decreases |a|
  {
    if a == [] {
      assert a + b == b;
    } else {
      assert (a + b)[0] == a[0] && (a + b)[1..] == a[1..] + b;
      RunAllConcat(srv, Run(srv, ks, a[0], now), a[1..], b, now);
    }
  }

  lemma {:induction false} ReplayAllConcat(srv: Server, s: Session, a: seq<Command>, b: seq<Command>, now: int)
    requires InRange(s.ks)
    ensures ReplayAll(srv, s, a + b, now) == ReplayAll(srv, ReplayAll(srv, s, a, now), b, now)
    decreases |a|
  {
    if a == [] {
      assert a + b == b;
    } else {
      assert (a + b)[0] == a[0] && (a + b)[1..] == a[1..] + b;
      ReplayAllConcat(srv, Replay(srv, s, a[0], now), a[1..], b, now);
    }
  }

  /** MULTI and EXEC change when a command runs, not what the log amounts to. */
  lemma SettledStep(srv: Server, s: Session, cmd: Command, now: int)
    requires InRange(s.ks)
    ensures Settled(srv, Replay(srv, s, cmd, now), now) == Run(srv, Settled(srv, s, now), cmd, now)
  {
    var proc := if cmd == [] then Unknown else srv.lookup(cmd[0]);
    var before := Settled(srv, s, now);
    if proc == Multi || proc == Exec {
      assert Run(srv, before, cmd, now).dbs == before.dbs;
    } else if s.queue.Some? {
      RunAllConcat(srv, s.ks, s.queue.value, [cmd], now);
      RunOne(srv, RunAll(srv, s.ks, s.queue.value, now), cmd, now);
    }
  }

  lemma {:induction false} SettledAll(srv: Server, s: Session, cmds: seq<Command>, now: int)
    requires InRange(s.ks)
    ensures Settled(srv, ReplayAll(srv, s, cmds, now), now) == RunAll(srv, Settled(srv, s, now), cmds, now)
    decreases |cmds|
  {
    if cmds != [] {
      SettledStep(srv, s, cmds[0], now);
      SettledAll(srv, Replay(srv, s, cmds[0], now), cmds[1..], now);
    }
  }

  // ---------- commands that do not look at the clock ----------

  /** The command does the same whenever it is run: nothing in it is relative to the clock. */
  predicate TimeFree(srv: Server, cmd: Command) {
    cmd != [] ==>
      match srv.lookup(cmd[0])
      case Setex | Psetex | Expire | Pexpire => false
      case Set => |cmd| >= 3 ==> SetOptions(cmd[3..], NoTtl) in {None, Some(NoTtl)}
      case _ => true
  }

  ghost predicate AllTimeFree(srv: Server, cmds: seq<Command>) {
    forall i :: 0 <= i < |cmds| ==> TimeFree(srv, cmds[i])
  }

  lemma RunTimeFree(srv: Server, ks: Keys, cmd: Command, now: int, later: int)
    requires InRange(ks) && TimeFree(srv, cmd)
    ensures Run(srv, ks, cmd, now) == Run(srv, ks, cmd, later)
  {
  }

  lemma {:induction false} RunAllTimeFree(srv: Server, ks: Keys, cmds: seq<Command>, now: int, later: int)
    requires InRange(ks) && AllTimeFree(srv, cmds)
    ensures RunAll(srv, ks, cmds, now) == RunAll(srv, ks, cmds, later)
    decreases |cmds|
  {
    if cmds != [] {
      RunTimeFree(srv, ks, cmds[0], now, later);
      RunAllTimeFree(srv, Run(srv, ks, cmds[0], now), cmds[1..], now, later);
    }
  }

  ghost predicate QueueTimeFree(srv: Server, s: Session) {
    s.queue.Some? ==> AllTimeFree(srv, s.queue.value)
  }

  lemma ReplayTimeFree(srv: Server, s: Session, cmd: Command, now: int, later: int)
    requires InRange(s.ks) && TimeFree(srv, cmd) && QueueTimeFree(srv, s)
    ensures Replay(srv, s, cmd, now) == Replay(srv, s, cmd, later) && QueueTimeFree(srv, Replay(srv, s, cmd, now))
  {
    hide TimeFree;
    RunTimeFree(srv, s.ks, cmd, now, later);
    if s.queue.Some? {
      RunAllTimeFree(srv, s.ks, s.queue.value, now, later);
    }
  }

  /** A log without relative times replays alike at any time. */
  lemma {:induction false} ReplayAllTimeFree(srv: Server, s: Session, cmds: seq<Command>, now: int, later: int)
    requires InRange(s.ks) && AllTimeFree(srv, cmds) && QueueTimeFree(srv, s)
    ensures ReplayAll(srv, s, cmds, now) == ReplayAll(srv, s, cmds, later)
    decreases |cmds|
  {
    if cmds != [] {
      ReplayTimeFree(srv, s, cmds[0], now, later);
      ReplayAllTimeFree(srv, Replay(srv, s, cmds[0], now), cmds[1..], now, later);
    }
  }

  // ---------- open transactions ----------

  predicate IsProc(srv: Server, cmd: Command, proc: Proc) { cmd != [] && srv.lookup(cmd[0]) == proc }

  /** A transaction is open at the end of a log: its last MULTI is not followed by an EXEC. */
  predicate OpenAtEnd(srv: Server, cmds: seq<Command>) {
    cmds != [] &&
    var last := cmds[|cmds| - 1];
    IsProc(srv, last, Multi) || (!IsProc(srv, last, Exec) && OpenAtEnd(srv, cmds[..|cmds| - 1]))
  }

  lemma {:induction false} OpenIff(srv: Server, s: Session, cmds: seq<Command>, now: int)
    requires InRange(s.ks) && s.queue.None?
    ensures ReplayAll(srv, s, cmds, now).queue.Some? <==> OpenAtEnd(srv, cmds)
  {
    if cmds != [] {
      var front, last := cmds[..|cmds| - 1], cmds[|cmds| - 1];
      OpenIff(srv, s, front, now);
      assert cmds == front + [last];
      ReplayAllConcat(srv, s, front, [last], now);
      ReplayOne(srv, ReplayAll(srv, s, front, now), last, now);
    }
  }

  lemma ReplayOne(srv: Server, s: Session, cmd: Command, now: int)
    requires InRange(s.ks)
    ensures ReplayAll(srv, s, [cmd], now) == Replay(srv, s, cmd, now)
  {
    assert [cmd][1..] == [];
  }

  /** Commands other than MULTI and EXEC run at once outside of a transaction, and wait inside one. */
  lemma {:induction false} ReplayPlain(srv: Server, s: Session, cmds: seq<Command>, now: int)
    requires InRange(s.ks)
    requires forall i :: 0 <= i < |cmds| ==> !IsProc(srv, cmds[i], Multi) && !IsProc(srv, cmds[i], Exec)
    ensures var r := ReplayAll(srv, s, cmds, now);
            if s.queue.None? then r == Session(RunAll(srv, s.ks, cmds, now), None)
            else r.ks == s.ks && r.queue == Some(s.queue.value + cmds)
    decreases |cmds|
  {
    if cmds == [] {
      assert s.queue.Some? ==> s.queue.value + [] == s.queue.value;
    } else {
      var next := Replay(srv, s, cmds[0], now);
      ReplayPlain(srv, next, cmds[1..], now);
      assert s.queue.Some? ==> s.queue.value + [cmds[0]] + cmds[1..] == s.queue.value + cmds;
    }
  }

  /** A log without the transaction that is open at its end: what the loading client has executed of it. */
  function ClosedPart(srv: Server, cmds: seq<Command>): (closed: seq<Command>)
    ensures closed <= cmds && !OpenAtEnd(srv, closed)
    ensures closed == cmds <==> !OpenAtEnd(srv, cmds)
  {
    if OpenAtEnd(srv, cmds) then ClosedPart(srv, cmds[..|cmds| - 1]) else cmds
  }

  /** The transaction that is open at the end of a log, its MULTI included. */
  function OpenPart(srv: Server, cmds: seq<Command>): (open: seq<Command>)
    ensures ClosedPart(srv, cmds) + open == cmds
    ensures open == [] <==> !OpenAtEnd(srv, cmds)
  {
    cmds[|ClosedPart(srv, cmds)|..]
  }

  /** Replaying a log executes it up to the transaction that is open at its end. */
  lemma {:induction false} ReplayRunsClosedPart(srv: Server, s: Session, cmds: seq<Command>, now: int)
    requires InRange(s.ks) && s.queue.None?
    ensures ReplayAll(srv, s, cmds, now).ks == RunAll(srv, s.ks, ClosedPart(srv, cmds), now)
  {
    OpenIff(srv, s, cmds, now);
    if OpenAtEnd(srv, cmds) {
      var front, last := cmds[..|cmds| - 1], cmds[|cmds| - 1];
      ReplayRunsClosedPart(srv, s, front, now);
      OpenIff(srv, s, front, now);
      assert cmds == front + [last];
      ReplayAllConcat(srv, s, front, [last], now);
      ReplayOne(srv, ReplayAll(srv, s, front, now), last, now);
    } else {
      SettledAll(srv, s, cmds, now);
    }
  }

  lemma {:induction false} OpenConcat(srv: Server, a: seq<Command>, b: seq<Command>)
    requires !OpenAtEnd(srv, a)
    ensures OpenAtEnd(srv, a + b) <==> OpenAtEnd(srv, b)
  {
    if b == [] {
      assert a + b == a;
    } else {
      OpenConcat(srv, a, b[..|b| - 1]);
      assert (a + b)[..|a + b| - 1] == a + b[..|b| - 1];
    }
  }

  lemma {:induction false} ClosedConcat(srv: Server, a: seq<Command>, b: seq<Command>)
    requires !OpenAtEnd(srv, a)
    ensures ClosedPart(srv, a + b) == a + ClosedPart(srv, b)
  {
    OpenConcat(srv, a, b);
    if OpenAtEnd(srv, b) {
      ClosedConcat(srv, a, b[..|b| - 1]);
      assert (a + b)[..|a + b| - 1] == a + b[..|b| - 1];
    }
  }

  /** What comes without an EXEC behind an open transaction belongs to it. */
  lemma {:induction false} NoExecStaysOpen(srv: Server, a: seq<Command>, b: seq<Command>)
    requires OpenAtEnd(srv, a) && forall i :: 0 <= i < |b| ==> !IsProc(srv, b[i], Exec)
    ensures OpenAtEnd(srv, a + b) && ClosedPart(srv, a + b) == ClosedPart(srv, a)
  {
    if b == [] {
      assert a + b == a;
    } else {
      NoExecStaysOpen(srv, a, b[..|b| - 1]);
      assert (a + b)[..|a + b| - 1] == a + b[..|b| - 1];
    }
  }

  ghost predicate Plain(srv: Server, cmds: seq<Command>) {
    forall i :: 0 <= i < |cmds| ==> !IsProc(srv, cmds[i], Multi) && !IsProc(srv, cmds[i], Exec)
  }

  lemma {:induction false} PlainIsClosed(srv: Server, cmds: seq<Command>)
    requires Plain(srv, cmds)
    ensures !OpenAtEnd(srv, cmds)
  {
    if cmds != [] {
      PlainIsClosed(srv, cmds[..|cmds| - 1]);
    }
  }

  /** Executing the open transaction after the replay settles it. */
  lemma OpenPartSettles(srv: Server, s: Session, cmds: seq<Command>, now: int)
    requires InRange(s.ks) && s.queue.None?
    ensures var r := ReplayAll(srv, s, cmds, now);
            RunAll(srv, r.ks, OpenPart(srv, cmds), now) == Settled(srv, r, now) == RunAll(srv, s.ks, cmds, now)
  {
    hide ReplayAll, RunAll, ClosedPart, OpenPart;
    ReplayRunsClosedPart(srv, s, cmds, now);
    RunAllConcat(srv, s.ks, ClosedPart(srv, cmds), OpenPart(srv, cmds), now);
    SettledAll(srv, s, cmds, now);
  }
}

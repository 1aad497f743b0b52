/**
 What feedAppendOnlyFile writes for an executed command: a SELECT when the database
 changed, and relative expiries turned into absolute ones.
 */
module AofFeed {
  import opened Options
  import opened Bytes
  import opened Resp
  import opened Keyspace

  predicate FitsInt64(deadline: Option<int>) {
    deadline.Some? ==> INT64_MIN <= deadline.value <= INT64_MAX
  }

  /** `cmd` was executed at `now`, so its arguments passed the checks of its command. */
  predicate Executed(srv: Server, cmd: Command, now: int) {
    cmd != []
    && match srv.lookup(cmd[0])
       case Set =>
         |cmd| >= 3 && SetOptions(cmd[3..], NoTtl).Some?
         && FitsInt64(TtlDeadline(SetOptions(cmd[3..], NoTtl).value, now))
       case Setex | Psetex =>
         |cmd| == 4 && String2ll(cmd[2]).Some? && FitsInt64(Deadline(srv.lookup(cmd[0]), cmd[2], now))
       case Expire | Pexpire | Expireat | Pexpireat =>
         |cmd| == 3 && String2ll(cmd[2]).Some? && FitsInt64(Deadline(srv.lookup(cmd[0]), cmd[2], now))
       case Select | Unknown => false
       case _ => true
  }

  /** catAppendOnlyExpireAtCommand: PEXPIREAT with the absolute deadline of `arg`. */
  function ExpireAtCommand(proc: Proc, key: ByteString, arg: ByteString, now: int): Command {
    var deadline := Deadline(proc, arg, now);
    [PEXPIREAT_NAME, key, SignedDecimal(if deadline.Some? then deadline.value else 0)]
  }

  function Translate(srv: Server, cmd: Command, now: int): seq<Command>
    requires Executed(srv, cmd, now)
  {
    var proc := srv.lookup(cmd[0]);
    match proc
    case Expire | Pexpire | Expireat => [ExpireAtCommand(proc, cmd[1], cmd[2], now)]
    case Setex | Psetex => [[SET_NAME, cmd[1], cmd[3]], ExpireAtCommand(proc, cmd[1], cmd[2], now)]
    case Set =>
      (match SetOptions(cmd[3..], NoTtl).value
       case NoTtl => [cmd[..3]]
       case Seconds(arg) => [cmd[..3], ExpireAtCommand(Expire, cmd[1], arg, now)]
       case Millis(arg) => [cmd[..3], ExpireAtCommand(Pexpire, cmd[1], arg, now)])
    case _ => [cmd]
  }

  /** The literal "*2\r\n$6\r\nSELECT\r\n" of the source. */
  const SELECT_CMD: ByteString :=
    [42, 50, 13, 10, 36, 54, 13, 10, 83, 69, 76, 69, 67, 84, 13, 10]

  lemma SelectLiteral()
    ensures SELECT_CMD == Header(STAR, 2) + EncodeBulk(SELECT_NAME)
  {
    assert Decimal(2) == [50] && Decimal(6) == [54];
    assert Header(STAR, 2) == [42, 50, 13, 10] && Header(DOLLAR, 6) == [36, 54, 13, 10];
  }

  function SelectCommand(dictid: nat): Command { [SELECT_NAME, Decimal(dictid)] }

  /** A write executed in database `dictid` at time `now`. */
  datatype Event = Event(dictid: nat, cmd: Command, now: int)

  predicate Feedable(srv: Server, dbnum: nat, e: Event) {
    e.dictid < dbnum <= INT64_MAX && Executed(srv, e.cmd, e.now)
  }

  /** The commands appended for one event when the log's client is in database `selected`. */
  function Feed(srv: Server, selected: int, e: Event): seq<Command>
    requires Executed(srv, e.cmd, e.now)
  {
    (if e.dictid != selected then [SelectCommand(e.dictid)] else []) + Translate(srv, e.cmd, e.now)
  }

  ghost predicate AllFeedable(srv: Server, dbnum: nat, events: seq<Event>) {
    forall i :: 0 <= i < |events| ==> Feedable(srv, dbnum, events[i])
  }

  function FeedAll(srv: Server, dbnum: nat, selected: int, events: seq<Event>): seq<Command>
    requires AllFeedable(srv, dbnum, events)
    decreases |events|
  {
    if events == [] then []
    else
      assert Feedable(srv, dbnum, events[0]);
      Feed(srv, selected, events[0]) + FeedAll(srv, dbnum, events[0].dictid, events[1..])
  }

  /** The original execution: every command in its own database, at its own time. */
  function RunEvents(srv: Server, dbs: seq<Db>, events: seq<Event>): (r: seq<Db>)
    requires AllFeedable(srv, |dbs|, events)
    ensures |r| == |dbs|
    decreases |events|
  {
    if events == [] then dbs
    else
      assert Feedable(srv, |dbs|, events[0]);
      RunEvents(srv, RunEvent(srv, dbs, events[0]), events[1..])
  }

  function RunEvent(srv: Server, dbs: seq<Db>, e: Event): (r: seq<Db>)
    requires Feedable(srv, |dbs|, e)
    ensures |r| == |dbs|
  {
    dbs[e.dictid := Apply(srv, dbs[e.dictid], e.cmd, e.now)]
  }

  // ---------- the scan for EX and PX ----------

  /** The scan of feedAppendOnlyFile: it looks at every argument, values included. */
  function Scan(opts: seq<ByteString>, ex: Option<ByteString>, px: Option<ByteString>)
    : (Option<ByteString>, Option<ByteString>)
    requires opts != [] ==> !IsEx(opts[|opts| - 1]) && !IsPx(opts[|opts| - 1])
  {
    if opts == [] then (ex, px)
    else
      Scan(opts[1..], if IsEx(opts[0]) then Some(opts[1]) else ex, if IsPx(opts[0]) then Some(opts[1]) else px)
  }

  function ExOf(ttl: Ttl): Option<ByteString> { if ttl.Seconds? then Some(ttl.arg) else None }
  function PxOf(ttl: Ttl): Option<ByteString> { if ttl.Millis? then Some(ttl.arg) else None }

  lemma NumbersAreNotOptions(arg: ByteString)
    requires String2ll(arg).Some?
    ensures !IsEx(arg) && !IsPx(arg)
  {
    String2llCanonical(arg, String2ll(arg).value);
  }

  /** The scan never runs past the end, and finds what the options mean. */
  lemma {:induction false} ScanFindsTtl(opts: seq<ByteString>, ttl: Ttl)
    requires SetOptions(opts, ttl).Some?
    ensures opts != [] ==> !IsEx(opts[|opts| - 1]) && !IsPx(opts[|opts| - 1])
    ensures var meant := SetOptions(opts, ttl).value;
            Scan(opts, ExOf(ttl), PxOf(ttl)) == (ExOf(meant), PxOf(meant))
    decreases |opts|
  {
    if opts == [] {
    } else if IsNx(opts[0]) || IsXx(opts[0]) {
      ScanFindsTtl(opts[1..], ttl);
    } else {
      NumbersAreNotOptions(opts[1]);
      assert opts[1..][1..] == opts[2..];
      ScanFindsTtl(opts[2..], if IsEx(opts[0]) then Seconds(opts[1]) else Millis(opts[1]));
    }
  }

  // ---------- meaning ----------

  /** PEXPIREAT with a printed deadline sets exactly that deadline, whenever it is replayed. */
  lemma ExpireAtRuns(srv: Server, db: Db, proc: Proc, key: ByteString, arg: ByteString, now: int, later: int)
    requires HasTable(srv) && String2ll(arg).Some? && FitsInt64(Deadline(proc, arg, now))
    ensures Apply(srv, db, ExpireAtCommand(proc, key, arg, now), later) == ExpireKey(db, key, Deadline(proc, arg, now))
  {
    String2llReads(Deadline(proc, arg, now).value);
  }

  lemma SetRuns(srv: Server, db: Db, name: ByteString, key: ByteString, value: ByteString, later: int)
    requires srv.lookup(name) == Set
    ensures Apply(srv, db, [name, key, value], later) == db[key := Entry(Str(value), None)]
  {
  }

  /** SET followed by PEXPIREAT is one write of the value with its deadline. */
  lemma SetThenExpireRuns(srv: Server, ks: Keys, plain: Command, proc: Proc, arg: ByteString, now: int, later: int)
    requires HasTable(srv) && InRange(ks)
    requires |plain| == 3 && srv.lookup(plain[0]) == Set
    requires String2ll(arg).Some? && FitsInt64(Deadline(proc, arg, now))
    ensures RunAll(srv, ks, [plain, ExpireAtCommand(proc, plain[1], arg, now)], later)
            == ks.(dbs := ks.dbs[ks.selected :=
                 ks.dbs[ks.selected][plain[1] := Entry(Str(plain[2]), Deadline(proc, arg, now))]])
  {
    var db, key := ks.dbs[ks.selected], plain[1];
    var ex := ExpireAtCommand(proc, key, arg, now);
    var first := Run(srv, ks, plain, later);
    var stored := db[key := Entry(Str(plain[2]), None)];
    assert plain == [plain[0], key, plain[2]];
    SetRuns(srv, db, plain[0], key, plain[2], later);
    assert first.dbs[ks.selected] == stored;
    ExpireAtRuns(srv, stored, proc, key, arg, now, later);
    assert ExpireKey(stored, key, Deadline(proc, arg, now)) == db[key := Entry(Str(plain[2]), Deadline(proc, arg, now))];
    assert [plain, ex][1..] == [ex];
    RunOne(srv, first, ex, later);
  }

  /** Replaying the translation has the effect the command had when it was executed. */
  lemma TranslationRuns(srv: Server, ks: Keys, cmd: Command, now: int, later: int)
    requires HasTable(srv) && InRange(ks) && Executed(srv, cmd, now)
    ensures RunAll(srv, ks, Translate(srv, cmd, now), later)
            == ks.(dbs := ks.dbs[ks.selected := Apply(srv, ks.dbs[ks.selected], cmd, now)])
  {
    var proc := srv.lookup(cmd[0]);
    var db := ks.dbs[ks.selected];
    var t := Translate(srv, cmd, now);
    if |t| == 1 {
      assert t == [t[0]];
      RunOne(srv, ks, t[0], later);
    }
    if proc.Set? {
      var ttl := SetOptions(cmd[3..], NoTtl).value;
      assert cmd[..3] == [cmd[0], cmd[1], cmd[2]];
      if ttl.NoTtl? {
        SetRuns(srv, db, cmd[0], cmd[1], cmd[2], later);
      } else {
        SetOptionsAreNumbers(cmd[3..], NoTtl);
        SetThenExpireRuns(srv, ks, cmd[..3], if ttl.Seconds? then Expire else Pexpire, ttl.arg, now, later);
      }
    } else if proc.Setex? || proc.Psetex? {
      SetThenExpireRuns(srv, ks, [SET_NAME, cmd[1], cmd[3]], proc, cmd[2], now, later);
    } else if proc.Expire? || proc.Pexpire? || proc.Expireat? {
      ExpireAtRuns(srv, db, proc, cmd[1], cmd[2], now, later);
    }
  }

  lemma {:induction false} SetOptionsAreNumbers(opts: seq<ByteString>, ttl: Ttl)
    requires SetOptions(opts, ttl).Some?
    requires ttl.NoTtl? || String2ll(ttl.arg).Some?
    ensures var meant := SetOptions(opts, ttl).value; meant.NoTtl? || String2ll(meant.arg).Some?
    decreases |opts|
  {
    if opts != [] {
      if IsNx(opts[0]) || IsXx(opts[0]) {
        SetOptionsAreNumbers(opts[1..], ttl);
      } else {
        SetOptionsAreNumbers(opts[2..], if IsEx(opts[0]) then Seconds(opts[1]) else Millis(opts[1]));
      }
    }
  }

  /** One event: the elided or emitted SELECT leaves the log's client in the right database. */
  lemma FeedRuns(srv: Server, ks: Keys, selected: int, e: Event, later: int)
    requires HasTable(srv) && InRange(ks) && Feedable(srv, |ks.dbs|, e)
    requires selected == -1 || selected == ks.selected
    ensures RunAll(srv, ks, Feed(srv, selected, e), later) == Keys(RunEvent(srv, ks.dbs, e), e.dictid)
  {
    var t := Translate(srv, e.cmd, e.now);
    if e.dictid != selected {
      String2llNatural(e.dictid);
      var there := ks.(selected := e.dictid);
      assert Run(srv, ks, SelectCommand(e.dictid), later) == there;
      assert ([SelectCommand(e.dictid)] + t)[1..] == t;
      TranslationRuns(srv, there, e.cmd, e.now, later);
    } else {
      assert [] + t == t;
      TranslationRuns(srv, ks, e.cmd, e.now, later);
    }
  }

  /**
   Feeding preserves meaning: from a log position with no known database, replaying what
   was fed, at any later time, does to every database what the original run did.
   */
  lemma {:induction false} FeedPreservesMeaning(srv: Server, ks: Keys, selected: int, events: seq<Event>, later: int)
    requires HasTable(srv) && InRange(ks) && AllFeedable(srv, |ks.dbs|, events)
    requires selected == -1 || selected == ks.selected
    ensures RunAll(srv, ks, FeedAll(srv, |ks.dbs|, selected, events), later).dbs == RunEvents(srv, ks.dbs, events)
    decreases |events|
  {
    if events != [] {
      var e := events[0];
      assert Feedable(srv, |ks.dbs|, e);
      FeedRuns(srv, ks, selected, e, later);
      RunAllConcat(srv, ks, Feed(srv, selected, e), FeedAll(srv, |ks.dbs|, e.dictid, events[1..]), later);
      FeedPreservesMeaning(srv, Keys(RunEvent(srv, ks.dbs, e), e.dictid), e.dictid, events[1..], later);
    }
  }

  /** What is fed has no relative times: it replays alike at any time. */
  lemma FeedIsTimeFree(srv: Server, selected: int, e: Event)
    requires HasTable(srv) && Executed(srv, e.cmd, e.now)
    ensures AllTimeFree(srv, Feed(srv, selected, e))
  {
    var proc := srv.lookup(e.cmd[0]);
    if proc.Set? {
      assert e.cmd[..3][3..] == [];
    } else if proc.Setex? || proc.Psetex? {
      assert [SET_NAME, e.cmd[1], e.cmd[3]][3..] == [];
    }
  }

  // ---------- deadlines in numbers ----------

  predicate IsInt64(v: int) { INT64_MIN <= v <= INT64_MAX }

  function Stamped(db: Db, key: ByteString, at: int): Db {
    if key in db then db[key := Entry(db[key].value, Some(at))] else db
  }

  lemma OneEncoded(cmd: Command)
    ensures EncodeAll([cmd]) == Encode(cmd)
  {
    assert [cmd][1..] == [] && Encode(cmd) + [] == Encode(cmd);
  }

  lemma TwoEncoded(a: Command, b: Command)
    ensures EncodeAll([a, b]) == Encode(a) + Encode(b)
  {
    assert [a, b][1..] == [b];
    OneEncoded(b);
  }

  /** EXPIRE counts seconds from now, PEXPIRE milliseconds, and EXPIREAT names a second. */
  lemma ExpireIsFed(srv: Server, db: Db, e: Event, key: ByteString, v: int, at: int)
    requires HasTable(srv) && IsInt64(v) && IsInt64(at) && |e.cmd| == 3 && e.cmd[1..] == [key, SignedDecimal(v)]
    requires match srv.lookup(e.cmd[0])
             case Expire => at == e.now + 1000 * v
             case Pexpire => at == e.now + v
             case Expireat => at == 1000 * v
             case _ => false
    ensures Executed(srv, e.cmd, e.now)
            && EncodeAll(Feed(srv, e.dictid, e)) == Encode([PEXPIREAT_NAME, key, SignedDecimal(at)])
    ensures Apply(srv, db, e.cmd, e.now) == Stamped(db, key, at)
  {
    assert e.cmd[1] == e.cmd[1..][0] && e.cmd[2] == e.cmd[1..][1];
    hide Encode, SignedDecimal, String2ll;
    String2llReads(v);
    OneEncoded([PEXPIREAT_NAME, key, SignedDecimal(at)]);
    assert Feed(srv, e.dictid, e) == [[PEXPIREAT_NAME, key, SignedDecimal(at)]];
  }

  /** SETEX counts seconds from now, PSETEX milliseconds. */
  lemma SetexIsFed(srv: Server, db: Db, e: Event, key: ByteString, value: ByteString, v: int, at: int)
    requires HasTable(srv) && IsInt64(v) && IsInt64(at)
    requires |e.cmd| == 4 && e.cmd[1..] == [key, SignedDecimal(v), value]
    requires match srv.lookup(e.cmd[0])
             case Setex => at == e.now + 1000 * v
             case Psetex => at == e.now + v
             case _ => false
    ensures Executed(srv, e.cmd, e.now)
            && EncodeAll(Feed(srv, e.dictid, e))
               == Encode([SET_NAME, key, value]) + Encode([PEXPIREAT_NAME, key, SignedDecimal(at)])
    ensures Apply(srv, db, e.cmd, e.now) == db[key := Entry(Str(value), Some(at))]
  {
    assert e.cmd[1] == e.cmd[1..][0] && e.cmd[2] == e.cmd[1..][1] && e.cmd[3] == e.cmd[1..][2];
    hide Encode, SignedDecimal, String2ll;
    String2llReads(v);
    TwoEncoded([SET_NAME, key, value], [PEXPIREAT_NAME, key, SignedDecimal(at)]);
    assert Feed(srv, e.dictid, e) == [[SET_NAME, key, value], [PEXPIREAT_NAME, key, SignedDecimal(at)]];
  }

  const EX: ByteString := [69, 88]
  const PX: ByteString := [80, 88]
  const NX: ByteString := [78, 88]
  const XX: ByteString := [88, 88]

  /** The word in letters of either case. */
  predicate Spells(arg: ByteString, word: ByteString) {
    && |arg| == |word|
    && forall i :: 0 <= i < |arg| ==> arg[i] as int == word[i] as int || arg[i] as int == word[i] as int + 32
  }

  predicate AllFlags(opts: seq<ByteString>) {
    forall i :: 0 <= i < |opts| ==> Spells(opts[i], NX) || Spells(opts[i], XX)
  }

  lemma FlagIsSkipped(arg: ByteString)
    requires Spells(arg, NX) || Spells(arg, XX)
    ensures IsNx(arg) || IsXx(arg)
  {
  }

  lemma {:induction false} FlagsOnly(opts: seq<ByteString>, ttl: Ttl)
    requires AllFlags(opts)
    ensures SetOptions(opts, ttl) == Some(ttl)
    decreases |opts|
  {
    if opts != [] {
      FlagIsSkipped(opts[0]);
      FlagsOnly(opts[1..], ttl);
    }
  }

  lemma {:induction false} OneTtl(before: seq<ByteString>, option: ByteString, num: ByteString, after: seq<ByteString>)
    requires AllFlags(before) && AllFlags(after) && String2ll(num).Some? && (Spells(option, EX) || Spells(option, PX))
    ensures SetOptions(before + ([option, num] + after), NoTtl)
            == Some(if Spells(option, EX) then Seconds(num) else Millis(num))
    decreases |before|
  {
    var opts := before + ([option, num] + after);
    if before == [] {
      assert opts == [option, num] + after && opts[2..] == after;
      FlagsOnly(after, if Spells(option, EX) then Seconds(num) else Millis(num));
    } else {
      FlagIsSkipped(before[0]);
      assert opts[1..] == before[1..] + ([option, num] + after);
      OneTtl(before[1..], option, num, after);
    }
  }

  lemma TtlIsFed(srv: Server, db: Db, e: Event, key: ByteString, value: ByteString, ttl: Ttl, v: int, at: int)
    requires HasTable(srv) && IsInt64(v) && IsInt64(at) && |e.cmd| >= 3 && srv.lookup(e.cmd[0]) == Set
    requires e.cmd[1] == key && e.cmd[2] == value && SetOptions(e.cmd[3..], NoTtl) == Some(ttl)
    requires (ttl == Seconds(SignedDecimal(v)) && at == e.now + 1000 * v)
             || (ttl == Millis(SignedDecimal(v)) && at == e.now + v)
    ensures Executed(srv, e.cmd, e.now)
            && Feed(srv, e.dictid, e) == [[e.cmd[0], key, value], [PEXPIREAT_NAME, key, SignedDecimal(at)]]
    ensures Apply(srv, db, e.cmd, e.now) == db[key := Entry(Str(value), Some(at))]
  {
    hide SignedDecimal, String2ll, SetOptions;
    String2llReads(v);
    assert e.cmd[..3] == [e.cmd[0], key, value];
  }

  lemma NotBoth(option: ByteString)
    ensures !(Spells(option, EX) && Spells(option, PX))
  {
    assert Spells(option, EX) ==> option[0] == 69 || option[0] == 101;
    assert Spells(option, PX) ==> option[0] == 80 || option[0] == 112;
  }

  /** SET with EX counts seconds from now, with PX milliseconds, in either case and among other options. */
  lemma SetTtlIsFed(srv: Server, db: Db, e: Event, key: ByteString, value: ByteString, before: seq<ByteString>,
                    option: ByteString, after: seq<ByteString>, v: int, at: int)
    requires HasTable(srv) && IsInt64(v) && IsInt64(at) && |e.cmd| >= 3 && srv.lookup(e.cmd[0]) == Set
    requires e.cmd[1] == key && e.cmd[2] == value && e.cmd[3..] == before + ([option, SignedDecimal(v)] + after)
    requires AllFlags(before) && AllFlags(after)
    requires (Spells(option, EX) && at == e.now + 1000 * v) || (Spells(option, PX) && at == e.now + v)
    ensures Executed(srv, e.cmd, e.now)
            && EncodeAll(Feed(srv, e.dictid, e))
               == Encode([e.cmd[0], key, value]) + Encode([PEXPIREAT_NAME, key, SignedDecimal(at)])
    ensures Apply(srv, db, e.cmd, e.now) == db[key := Entry(Str(value), Some(at))]
  {
    String2llReads(v);
    assert IsInt64(v);
    hide *;
    NotBoth(option);
    OneTtl(before, option, SignedDecimal(v), after);
    var ttl := if Spells(option, EX) then Seconds(SignedDecimal(v)) else Millis(SignedDecimal(v));
    TtlIsFed(srv, db, e, key, value, ttl, v, at);
    TwoEncoded([e.cmd[0], key, value], [PEXPIREAT_NAME, key, SignedDecimal(at)]);
  }

  /** What is fed as it is: PEXPIREAT names a millisecond, and SET without a time to live has none. */
  lemma AbsoluteIsFed(srv: Server, db: Db, e: Event, key: ByteString, arg: ByteString)
    requires HasTable(srv) && |e.cmd| == 3 && e.cmd[1..] == [key, arg]
    requires srv.lookup(e.cmd[0]) == Pexpireat ==> String2ll(arg).Some?
    requires srv.lookup(e.cmd[0]) in {Pexpireat, Set}
    ensures Executed(srv, e.cmd, e.now) && EncodeAll(Feed(srv, e.dictid, e)) == Encode(e.cmd)
    ensures Apply(srv, db, e.cmd, e.now) == if srv.lookup(e.cmd[0]) == Set then db[key := Entry(Str(arg), None)]
                                            else Stamped(db, key, String2ll(arg).value)
  {
    assert e.cmd[1] == e.cmd[1..][0] && e.cmd[2] == e.cmd[1..][1] && e.cmd[..3] == e.cmd && e.cmd[3..] == [];
    hide Encode;
    if String2ll(arg).Some? {
      String2llCanonical(arg, String2ll(arg).value);
    }
    OneEncoded(e.cmd);
    assert Feed(srv, e.dictid, e) == [e.cmd];
  }
}

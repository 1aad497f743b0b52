/**
 The child leaves out keys that are expired by its own clock, which it reads after the
 fork. The rewritten log then lacks these keys until they are stored or deleted, and that
 can be seen exactly as long as one of them has a deadline that has not passed.
 */
module AofSkips {
  import opened Options
  import opened Bytes
  import opened Resp
  import opened Keyspace
  import opened AofFeed
  import opened AofRewrite

  /**
   `b` is the dataset `a` without the keys of `left`: what a rewritten log lacks of the
   server's dataset are the keys that the child left out as expired.
   */
  predicate Lags(a: Db, b: Db, left: set<ByteString>) { left <= a.Keys && b == a - left }

  predicate AllLag(a: seq<Db>, b: seq<Db>, left: seq<set<ByteString>>) {
    |a| == |b| == |left| && forall j :: 0 <= j < |a| ==> Lags(a[j], b[j], left[j])
  }

  /** What has become of one key left out by the child: replaced, or still the old value. */
  datatype Trace = Replaced | Old(expire: Option<int>)

  /** The command stores or deletes the key whatever was there before. */
  predicate Replaces(srv: Server, cmd: Command, key: ByteString)
    requires cmd != []
  {
    match srv.lookup(cmd[0])
    case Set => |cmd| >= 3 && SetOptions(cmd[3..], NoTtl).Some? && cmd[1] == key
    case Setex | Psetex => |cmd| == 4 && String2ll(cmd[2]).Some? && cmd[1] == key
    case Del => exists i :: 1 <= i < |cmd| && cmd[i] == key
    case _ => false
  }

  /** The command moves the deadline of an existing key. */
  predicate Extends(srv: Server, cmd: Command, key: ByteString)
    requires cmd != []
  {
    match srv.lookup(cmd[0])
    case Expire | Pexpire | Expireat | Pexpireat => |cmd| == 3 && String2ll(cmd[2]).Some? && cmd[1] == key
    case _ => false
  }

  /**
   The left out keys that stay so. A key that is stored or deleted is the same in both
   datasets again. A command not spelled out here keeps those that the server still has
   and the log still lacks after it.
   */
  function StillLeft(srv: Server, db: Db, cmd: Command, left: set<ByteString>): (still: set<ByteString>)
    requires cmd != []
    ensures still <= left
  {
    if srv.lookup(cmd[0]) == Other then
      set key | key in left && key in srv.other(db, cmd) && key !in srv.other(db - left, cmd)
    else set key | key in left && !Replaces(srv, cmd, key)
  }

  /**
   A command that is not spelled out in this model does not build on a left out key: it
   may leave it alone, delete it, store it anew, or move its deadline.
   */
  predicate Spares(srv: Server, db: Db, cmd: Command, left: set<ByteString>)
    requires cmd != []
  {
    srv.lookup(cmd[0]) == Other ==> srv.other(db - left, cmd) == srv.other(db, cmd) - StillLeft(srv, db, cmd, left)
  }

  /** No weaker condition would do: whatever set of left out keys the two differ by, it is this one. */
  lemma SparesIff(srv: Server, db: Db, cmd: Command, left: set<ByteString>)
    requires cmd != [] && srv.lookup(cmd[0]) == Other
    ensures Spares(srv, db, cmd, left)
            <==> exists still :: still <= left && Lags(srv.other(db, cmd), srv.other(db - left, cmd), still)
  {
    var after, log := srv.other(db, cmd), srv.other(db - left, cmd);
    if Spares(srv, db, cmd, left) {
      assert Lags(after, log, StillLeft(srv, db, cmd, left));
    }
    if still :| still <= left && Lags(after, log, still) {
      assert still == StillLeft(srv, db, cmd, left);
    }
  }

  /** The command moves the deadline of a key that is left out and stays so. */
  predicate Moves(srv: Server, db: Db, cmd: Command, left: set<ByteString>, key: ByteString)
    requires cmd != []
  {
    key in StillLeft(srv, db, cmd, left)
    && if srv.lookup(cmd[0]) == Other then key in db && srv.other(db, cmd)[key].expire != db[key].expire
       else Extends(srv, cmd, key)
  }

  /** What one command does to a key left out of `left`; `db` is the server's database. */
  function Follow(srv: Server, db: Db, left: set<ByteString>, cmd: Command, now: int, key: ByteString, trace: Trace)
    : Trace
    requires cmd != []
  {
    if trace.Replaced? then trace
    else if srv.lookup(cmd[0]) == Other then
      if key in StillLeft(srv, db, cmd, left) then Old(srv.other(db, cmd)[key].expire) else Replaced
    else if Replaces(srv, cmd, key) then Replaced
    else if Extends(srv, cmd, key) then Old(Deadline(srv.lookup(cmd[0]), cmd[2], now))
    else trace
  }

  /** After the fork the key was given a deadline that has not passed at time `t`. */
  predicate Revived(trace: Trace, t: int) {
    trace.Old? && !Expired(Entry(Str([]), trace.expire), t)
  }

  predicate Same(a: Db, b: Db, key: ByteString) {
    (key in a <==> key in b) && (key in a ==> a[key] == b[key])
  }

  function LeftAfter(srv: Server, dbs: seq<Db>, e: Event, left: seq<set<ByteString>>): (r: seq<set<ByteString>>)
    requires e.dictid < |dbs| == |left| && e.cmd != []
    ensures |r| == |left|
  {
    left[e.dictid := StillLeft(srv, dbs[e.dictid], e.cmd, left[e.dictid])]
  }

  lemma ApplyLags(srv: Server, a: Db, b: Db, cmd: Command, now: int, left: set<ByteString>)
    requires cmd != [] && Lags(a, b, left) && Spares(srv, a, cmd, left)
    ensures Lags(Apply(srv, a, cmd, now), Apply(srv, b, cmd, now), StillLeft(srv, a, cmd, left))
  {
    if srv.lookup(cmd[0]) != Other {
      ApplyDrops(srv, a, cmd, now, left);
    }
  }

  /** The commands of the table treat every key by itself. */
  lemma ApplyDrops(srv: Server, a: Db, cmd: Command, now: int, left: set<ByteString>)
    requires cmd != [] && left <= a.Keys && srv.lookup(cmd[0]) != Other
    ensures var r := Apply(srv, a, cmd, now); var still := StillLeft(srv, a, cmd, left);
            still <= r.Keys && Apply(srv, a - left, cmd, now) == r - still
  {
    var r, s, still := Apply(srv, a, cmd, now), Apply(srv, a - left, cmd, now), StillLeft(srv, a, cmd, left);
    forall key
      ensures key in s <==> key in r && key !in still
      ensures key in s ==> s[key] == r[key]
      ensures key in still ==> key in r
    {
    }
    assert s.Keys == (r - still).Keys;
  }

  lemma EventLags(srv: Server, a: seq<Db>, b: seq<Db>, e: Event, left: seq<set<ByteString>>)
    requires AllLag(a, b, left) && Feedable(srv, |a|, e) && Spares(srv, a[e.dictid], e.cmd, left[e.dictid])
    ensures AllLag(RunEvent(srv, a, e), RunEvent(srv, b, e), LeftAfter(srv, a, e, left))
  {
    ApplyLags(srv, a[e.dictid], b[e.dictid], e.cmd, e.now, left[e.dictid]);
    hide Lags, Apply, StillLeft;
  }

  // ---------- what a rewrite leaves out ----------

  predicate LeftOut(db: Db, key: ByteString, now: int) {
    key in db && Expired(db[key], now)
  }

  function LeftOutAll(dbs: seq<Db>, now: int): (left: seq<set<ByteString>>)
    ensures |left| == |dbs|
  {
    seq(|dbs|, j requires 0 <= j < |dbs| => set key | key in dbs[j] && LeftOut(dbs[j], key, now))
  }

  lemma KeptLags(dbs: seq<Db>, now: int)
    ensures AllLag(dbs, KeptAll(dbs, now), LeftOutAll(dbs, now))
  {
    forall j | 0 <= j < |dbs|
      ensures Lags(dbs[j], KeptAll(dbs, now)[j], LeftOutAll(dbs, now)[j])
    {
      assert Kept(dbs[j], now).Keys == (dbs[j] - LeftOutAll(dbs, now)[j]).Keys;
    }
  }

  /** All keys left out are expired at `t`. */
  predicate Passed(dbs: seq<Db>, left: seq<set<ByteString>>, t: int)
    requires |left| == |dbs|
  {
    forall j, key :: 0 <= j < |dbs| && key in left[j] ==> LeftOut(dbs[j], key, t)
  }

  /** Seen at time `t` the two agree if and only if every left out key is expired by then. */
  lemma SeenAlike(a: seq<Db>, b: seq<Db>, left: seq<set<ByteString>>, t: int)
    requires AllLag(a, b, left)
    ensures KeptAll(a, t) == KeptAll(b, t) <==> Passed(a, left, t)
  {
    forall j | 0 <= j < |a|
      ensures Kept(a[j], t) == Kept(b[j], t) <==> forall key :: key in left[j] ==> LeftOut(a[j], key, t)
    {
      OneSeenAlike(a[j], b[j], left[j], t);
    }
    hide Lags, Kept, LeftOut;
    KeptAlike(a, b, t);
  }

  lemma KeptAlike(a: seq<Db>, b: seq<Db>, t: int)
    requires |a| == |b|
    ensures KeptAll(a, t) == KeptAll(b, t) <==> forall j :: 0 <= j < |a| ==> Kept(a[j], t) == Kept(b[j], t)
  {
    if KeptAll(a, t) == KeptAll(b, t) {
      forall j | 0 <= j < |a| ensures Kept(a[j], t) == Kept(b[j], t) {
        assert KeptAll(a, t)[j] == KeptAll(b, t)[j];
      }
    }
  }

  lemma OneSeenAlike(a: Db, b: Db, left: set<ByteString>, t: int)
    requires Lags(a, b, left)
    ensures Kept(a, t) == Kept(b, t) <==> forall key :: key in left ==> LeftOut(a, key, t)
  {
    if Kept(a, t) == Kept(b, t) {
      forall key | key in left ensures LeftOut(a, key, t) {
        assert key !in Kept(b, t);
      }
    }
    if forall key :: key in left ==> LeftOut(a, key, t) {
      assert Kept(a, t).Keys == Kept(b, t).Keys;
    }
  }

  // ---------- one rewrite ----------

  /** Every command of the run that is not spelled out spares the keys still left out. */
  ghost predicate AllSpare(srv: Server, dbs: seq<Db>, events: seq<Event>, left: seq<set<ByteString>>)
    requires |left| == |dbs| && AllFeedable(srv, |dbs|, events)
    decreases |events|
  {
    events != [] ==>
      var e := events[0];
      assert Feedable(srv, |dbs|, e);
      Spares(srv, dbs[e.dictid], e.cmd, left[e.dictid])
      && AllSpare(srv, RunEvent(srv, dbs, e), events[1..], LeftAfter(srv, dbs, e, left))
  }

  function LeftAfterAll(srv: Server, dbs: seq<Db>, events: seq<Event>, left: seq<set<ByteString>>)
    : (r: seq<set<ByteString>>)
    requires |left| == |dbs| && AllFeedable(srv, |dbs|, events)
    ensures |r| == |dbs|
    decreases |events|
  {
    if events == [] then left
    else
      assert Feedable(srv, |dbs|, events[0]);
      LeftAfterAll(srv, RunEvent(srv, dbs, events[0]), events[1..], LeftAfter(srv, dbs, events[0], left))
  }

  lemma {:induction false} RunsLag(srv: Server, a: seq<Db>, b: seq<Db>, events: seq<Event>, left: seq<set<ByteString>>)
    requires AllLag(a, b, left) && AllFeedable(srv, |a|, events) && AllSpare(srv, a, events, left)
    ensures AllLag(RunEvents(srv, a, events), RunEvents(srv, b, events), LeftAfterAll(srv, a, events, left))
    decreases |events|
  {
    if events != [] {
      var e := events[0];
      assert Feedable(srv, |a|, e);
      EventLags(srv, a, b, e, left);
      hide Lags, Spares, RunEvent, LeftAfter;
      RunsLag(srv, RunEvent(srv, a, e), RunEvent(srv, b, e), events[1..], LeftAfter(srv, a, e, left));
    }
  }

  /** What the events say about a left out key: whether it still is, and with which deadline the server has it. */
  predicate Tells(a: Db, left: set<ByteString>, key: ByteString, trace: Trace) {
    (key in left <==> trace.Old?) && (trace.Old? ==> key in a && a[key].expire == trace.expire)
  }

  lemma EventTells(srv: Server, a: Db, e: Event, left: set<ByteString>, key: ByteString, trace: Trace)
    requires e.cmd != [] && Tells(a, left, key, trace)
    ensures Tells(Apply(srv, a, e.cmd, e.now), StillLeft(srv, a, e.cmd, left), key,
                  Follow(srv, a, left, e.cmd, e.now, key, trace))
  {
  }

  /** What becomes of a key over the events, from `trace` on. */
  function FollowAll(srv: Server, dbs: seq<Db>, events: seq<Event>, left: seq<set<ByteString>>, j: nat,
                     key: ByteString, trace: Trace): Trace
    requires |left| == |dbs| && AllFeedable(srv, |dbs|, events)
    decreases |events|
  {
    if events == [] then trace
    else
      var e := events[0];
      assert Feedable(srv, |dbs|, e);
      FollowAll(srv, RunEvent(srv, dbs, e), events[1..], LeftAfter(srv, dbs, e, left), j, key,
                if e.dictid == j then Follow(srv, dbs[j], left[j], e.cmd, e.now, key, trace) else trace)
  }

  lemma {:induction false} RunsTell(srv: Server, a: seq<Db>, events: seq<Event>, left: seq<set<ByteString>>,
                                    j: nat, key: ByteString, trace: Trace)
    requires |left| == |a| && j < |a| && AllFeedable(srv, |a|, events) && Tells(a[j], left[j], key, trace)
    ensures Tells(RunEvents(srv, a, events)[j], LeftAfterAll(srv, a, events, left)[j], key,
                  FollowAll(srv, a, events, left, j, key, trace))
    decreases |events|
  {
    if events != [] {
      var e := events[0];
      assert Feedable(srv, |a|, e);
      if e.dictid == j {
        EventTells(srv, a[j], e, left[j], key, trace);
      }
      hide Tells, Follow, StillLeft, Apply;
      RunsTell(srv, RunEvent(srv, a, e), events[1..], LeftAfter(srv, a, e, left), j, key,
               if e.dictid == j then Follow(srv, a[j], left[j], e.cmd, e.now, key, trace) else trace);
    }
  }

  /** What a rewrite that left out expired keys makes of one of them. */
  function FateOf(srv: Server, dbs: seq<Db>, events: seq<Event>, now: int, j: nat, key: ByteString): Trace
    requires j < |dbs| && key in dbs[j] && AllFeedable(srv, |dbs|, events)
  {
    FollowAll(srv, dbs, events, LeftOutAll(dbs, now), j, key, Old(dbs[j][key].expire))
  }

  /** A key the child left out: still missing from the log iff not replaced, and with which deadline. */
  lemma FateTells(srv: Server, dbs: seq<Db>, events: seq<Event>, now: int, j: nat, key: ByteString)
    requires j < |dbs| && AllFeedable(srv, |dbs|, events)
    ensures var left := LeftAfterAll(srv, dbs, events, LeftOutAll(dbs, now));
            && (key in left[j] ==> LeftOut(dbs[j], key, now))
            && (LeftOut(dbs[j], key, now) ==>
                  Tells(RunEvents(srv, dbs, events)[j], left[j], key, FateOf(srv, dbs, events, now, j, key)))
  {
    var left := LeftOutAll(dbs, now);
    if LeftOut(dbs[j], key, now) {
      RunsTell(srv, dbs, events, left, j, key, Old(dbs[j][key].expire));
    } else {
      StaysOut(srv, dbs, events, left, j, key);
    }
  }

  lemma {:induction false} StaysOut(srv: Server, dbs: seq<Db>, events: seq<Event>, left: seq<set<ByteString>>,
                                    j: nat, key: ByteString)
    requires |left| == |dbs| && j < |dbs| && AllFeedable(srv, |dbs|, events) && key !in left[j]
    ensures key !in LeftAfterAll(srv, dbs, events, left)[j]
    decreases |events|
  {
    if events != [] {
      assert Feedable(srv, |dbs|, events[0]);
      hide StillLeft, RunEvent;
      StaysOut(srv, RunEvent(srv, dbs, events[0]), events[1..], LeftAfter(srv, dbs, events[0], left), j, key);
    }
  }

  lemma FateDecides(srv: Server, dbs: seq<Db>, events: seq<Event>, now: int, t: int, j: nat, key: ByteString)
    requires j < |dbs| && AllFeedable(srv, |dbs|, events)
    ensures var left := LeftAfterAll(srv, dbs, events, LeftOutAll(dbs, now));
            (key in left[j] ==> LeftOut(RunEvents(srv, dbs, events)[j], key, t))
            <==> (LeftOut(dbs[j], key, now) ==> !Revived(FateOf(srv, dbs, events, now, j, key), t))
  {
    hide FateOf, LeftAfterAll, LeftOutAll, AllFeedable, RunEvents;
    FateTells(srv, dbs, events, now, j, key);
  }

  lemma SameIff(a: Db, b: Db, left: set<ByteString>, key: ByteString, t: int)
    requires Lags(a, b, left)
    ensures Same(Kept(a, t), Kept(b, t), key) <==> (key in left ==> LeftOut(a, key, t))
  {
  }

  /** One key: the two datasets agree on it, as seen at time `t`, unless it was left out and lives. */
  lemma KeyAgrees(srv: Server, dbs: seq<Db>, events: seq<Event>, now: int, t: int, j: nat, key: ByteString)
    requires j < |dbs| && AllFeedable(srv, |dbs|, events) && AllSpare(srv, dbs, events, LeftOutAll(dbs, now))
    ensures var a, b := RunEvents(srv, dbs, events)[j], RunEvents(srv, KeptAll(dbs, now), events)[j];
            Same(Kept(a, t), Kept(b, t), key)
            <==> !(LeftOut(dbs[j], key, now) && Revived(FateOf(srv, dbs, events, now, j, key), t))
  {
    hide FateOf, LeftAfterAll, LeftOutAll, AllSpare, AllFeedable, RunEvents, KeptAll, Lags, Kept, Same, Revived, LeftOut;
    KeptLags(dbs, now);
    RunsLag(srv, dbs, KeptAll(dbs, now), events, LeftOutAll(dbs, now));
    var left := LeftAfterAll(srv, dbs, events, LeftOutAll(dbs, now));
    SameIff(RunEvents(srv, dbs, events)[j], RunEvents(srv, KeptAll(dbs, now), events)[j], left[j], key, t);
    FateDecides(srv, dbs, events, now, t, j, key);
  }

  /**
   The rewritten log against the live dataset: replaying what the child kept and what was
   fed since gives, as seen at any time `t`, what the server itself holds, if and only
   if no key that the child left out, and no later command stored or deleted, has a
   deadline beyond `t`.
   */
  lemma RewriteLosesRevivedKeys(srv: Server, dbs: seq<Db>, events: seq<Event>, now: int, t: int)
    requires AllFeedable(srv, |dbs|, events) && AllSpare(srv, dbs, events, LeftOutAll(dbs, now))
    ensures KeptAll(RunEvents(srv, dbs, events), t) == KeptAll(RunEvents(srv, KeptAll(dbs, now), events), t)
            <==> forall j, key :: 0 <= j < |dbs| && LeftOut(dbs[j], key, now)
                                  ==> !Revived(FateOf(srv, dbs, events, now, j, key), t)
  {
    hide RunEvents, KeptAll, LeftOutAll, LeftAfterAll, AllSpare, AllFeedable, AllLag, FateOf, Expired, Revived;
    var a, b := RunEvents(srv, dbs, events), RunEvents(srv, KeptAll(dbs, now), events);
    var left := LeftAfterAll(srv, dbs, events, LeftOutAll(dbs, now));
    KeptLags(dbs, now);
    RunsLag(srv, dbs, KeptAll(dbs, now), events, LeftOutAll(dbs, now));
    SeenAlike(a, b, left, t);
    forall j, key | 0 <= j < |dbs|
      ensures (key in left[j] ==> LeftOut(a[j], key, t))
              <==> (LeftOut(dbs[j], key, now) ==> !Revived(FateOf(srv, dbs, events, now, j, key), t))
    {
      FateDecides(srv, dbs, events, now, t, j, key);
    }
  }

  /** Some event moves the deadline of the key while it is left out. */
  predicate SomeMove(srv: Server, dbs: seq<Db>, events: seq<Event>, left: seq<set<ByteString>>, j: nat, key: ByteString)
    requires |left| == |dbs| && AllFeedable(srv, |dbs|, events)
    decreases |events|
  {
    events != [] &&
    var e := events[0];
    assert Feedable(srv, |dbs|, e);
    || (e.dictid == j && Moves(srv, dbs[j], e.cmd, left[j], key))
    || SomeMove(srv, RunEvent(srv, dbs, e), events[1..], LeftAfter(srv, dbs, e, left), j, key)
  }

  lemma UnmovedTrace(srv: Server, a: Db, e: Event, left: set<ByteString>, key: ByteString, trace: Trace)
    requires e.cmd != [] && Tells(a, left, key, trace) && !Moves(srv, a, e.cmd, left, key)
    ensures Follow(srv, a, left, e.cmd, e.now, key, trace) in {trace, Replaced}
  {
  }

  /** From the child's clock on that takes a deadline given after the fork. */
  lemma {:induction false} RevivalNeedsDeadline(srv: Server, dbs: seq<Db>, events: seq<Event>,
                                                left: seq<set<ByteString>>, j: nat, key: ByteString,
                                                trace: Trace, t: int)
    requires |left| == |dbs| && j < |dbs| && AllFeedable(srv, |dbs|, events) && Tells(dbs[j], left[j], key, trace)
    requires !Revived(trace, t) && Revived(FollowAll(srv, dbs, events, left, j, key, trace), t)
    ensures SomeMove(srv, dbs, events, left, j, key)
    decreases |events|
  {
    if events != [] {
      var e := events[0];
      assert Feedable(srv, |dbs|, e);
      if !(e.dictid == j && Moves(srv, dbs[j], e.cmd, left[j], key)) {
        var next := if e.dictid == j then Follow(srv, dbs[j], left[j], e.cmd, e.now, key, trace) else trace;
        if e.dictid == j {
          EventTells(srv, dbs[j], e, left[j], key, trace);
          UnmovedTrace(srv, dbs[j], e, left[j], key, trace);
        }
        hide Tells, Follow, StillLeft, Apply, Moves;
        RevivalNeedsDeadline(srv, RunEvent(srv, dbs, e), events[1..], LeftAfter(srv, dbs, e, left), j, key, next, t);
      }
    }
  }

  /** The race: forked before the deadline, looked at by the child after it, extended in between. */
  lemma RevivedKeyIsLost(srv: Server, expire: ByteString, key: ByteString, value: Value)
    requires srv.lookup(expire) == Pexpire
    ensures var dbs := [map[key := Entry(value, Some(1005))]];
            var e := Event(0, [expire, key, Decimal(60)], 1003);
            Feedable(srv, 1, e)
            && Kept(RunEvent(srv, dbs, e)[0], 1010) == map[key := Entry(value, Some(1063))]
            && Kept(RunEvent(srv, KeptAll(dbs, 1007), e)[0], 1010) == map[]
  {
    String2llNatural(60);
    var dbs := [map[key := Entry(value, Some(1005))]];
    assert KeptAll(dbs, 1007)[0] == map[];
  }

  /**
   Why commands must not build on the left out keys: one that appends to a key, such as
   RPUSH, extends the old value in the server and makes a new one in the log.
   */
  lemma AppendedKeyDiffers(srv: Server, cmd: Command, key: ByteString, before: Entry, grown: Entry, made: Entry,
                           at: int, now: int)
    requires cmd != [] && srv.lookup(cmd[0]) == Other && LeftOut(map[key := before], key, now)
    requires srv.other(map[key := before], cmd) == map[key := grown] && srv.other(map[], cmd) == map[key := made]
    requires grown != made
    ensures var dbs, e := [map[key := before]], Event(0, cmd, at);
            var live, log := RunEvent(srv, dbs, e), RunEvent(srv, KeptAll(dbs, now), e);
            && Feedable(srv, 1, e) && live == [map[key := grown]] && log == [map[key := made]]
            && forall left :: !AllLag(live, log, left)
  {
    var dbs, e := [map[key := before]], Event(0, cmd, at);
    assert KeptAll(dbs, now)[0] == map[] && KeptAll(dbs, now) == [map[]];
    var live, log := [map[key := grown]], [map[key := made]];
    forall left ensures !AllLag(live, log, left) {
      if |left| == 1 {
        assert live[0][key] == grown && log[0][key] == made;
        assert (live[0] - left[0]) != log[0] by { assert key in log[0]; }
        assert !Lags(live[0], log[0], left[0]);
      }
    }
  }
}

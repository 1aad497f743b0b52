/**
 The compact log that rewriteAppendOnlyFileRio writes for a dataset: per database a
 SELECT, per live key what recreates its value, and its deadline.
 */
module AofRewrite {
  import opened Options
  import opened Bytes
  import opened Resp
  import opened Keyspace
  import opened AofFeed

  /** rewriteListObject and its siblings: the commands that recreate an aggregate value. */
  type Dumper = (ByteString, Value) -> seq<Command>

  /** They create the value under an absent key, without a deadline, and touch nothing else. */
  ghost predicate DumpsValues(srv: Server, dump: Dumper) {
    forall ks: Keys, key: ByteString, value: Value, now: int {:trigger RunAll(srv, ks, dump(key, value), now)} ::
      InRange(ks) && value.Aggregate? && key !in ks.dbs[ks.selected]
      ==> RunAll(srv, ks, dump(key, value), now) == Put(ks, key, Entry(value, None))
  }

  /** And nothing in them is relative to the clock. */
  ghost predicate DumpsTimeFree(srv: Server, dump: Dumper) {
    forall key, value :: AllTimeFree(srv, dump(key, value))
  }

  /** Nor is any of them MULTI or EXEC: those of the built-in types are RPUSH, SADD, ZADD and HMSET. */
  ghost predicate DumpsPlain(srv: Server, dump: Dumper) {
    forall key, value :: Plain(srv, dump(key, value))
  }

  function Put(ks: Keys, key: ByteString, e: Entry): Keys
    requires InRange(ks)
  {
    ks.(dbs := ks.dbs[ks.selected := ks.dbs[ks.selected][key := e]])
  }

  /** getExpire, with its -1 for a key that does not expire. */
  function GetExpire(e: Entry): int { if e.expire.Some? then e.expire.value else -1 }

  predicate Expired(e: Entry, now: int) { GetExpire(e) != -1 && GetExpire(e) < now }

  /** A deadline is a 64-bit number other than the one that stands for none. */
  ghost predicate WellTimed(db: Db) {
    forall k :: k in db ==> FitsInt64(db[k].expire) && db[k].expire != Some(-1)
  }

  function DumpValue(dump: Dumper, key: ByteString, value: Value): seq<Command> {
    match value
    case Str(bytes) => [[SET_NAME, key, bytes]]
    case Aggregate(_, _) => dump(key, value)
  }

  /** One entry: nothing when it has expired, else its value and its deadline if any. */
  function RewriteEntry(dump: Dumper, key: ByteString, e: Entry, now: int): seq<Command> {
    if Expired(e, now) then []
    else
      DumpValue(dump, key, e.value)
      + if GetExpire(e) != -1 then [[PEXPIREAT_NAME, key, SignedDecimal(GetExpire(e))]] else []
  }

  /** The entries of a database in the order its iterator yields the keys. */
  function RewriteDb(dump: Dumper, db: Db, order: seq<ByteString>, now: int): seq<Command>
    requires forall k :: k in order ==> k in db
  {
    if order == [] then []
    else RewriteEntry(dump, order[0], db[order[0]], now) + RewriteDb(dump, db, order[1..], now)
  }

  /** A dictionary iterator yields every key once, in any order. */
  ghost predicate Iterates(order: seq<ByteString>, db: Db) {
    && (forall k :: k in order <==> k in db)
    && (forall i, j :: 0 <= i < j < |order| ==> order[i] != order[j])
  }

  ghost predicate AllIterate(orders: seq<seq<ByteString>>, dbs: seq<Db>) {
    |orders| == |dbs| && forall j :: 0 <= j < |dbs| ==> Iterates(orders[j], dbs[j])
  }

  /** The databases from number `j` on; an empty one is skipped altogether. */
  function RewriteFrom(dump: Dumper, dbs: seq<Db>, orders: seq<seq<ByteString>>, now: int, j: nat): seq<Command>
    requires j <= |dbs| && AllIterate(orders, dbs)
    decreases |dbs| - j
  {
    if j == |dbs| then []
    else
      assert Iterates(orders[j], dbs[j]);
      (if dbs[j] == map[] then [] else [SelectCommand(j)] + RewriteDb(dump, dbs[j], orders[j], now))
      + RewriteFrom(dump, dbs, orders, now, j + 1)
  }

  function Rewrite(dump: Dumper, dbs: seq<Db>, orders: seq<seq<ByteString>>, now: int): seq<Command>
    requires AllIterate(orders, dbs)
  {
    RewriteFrom(dump, dbs, orders, now, 0)
  }

  /** What the compact log stands for: the dataset without the keys that had expired. */
  function Kept(db: Db, now: int): Db {
    map k | k in db && !Expired(db[k], now) :: db[k]
  }

  function KeptAll(dbs: seq<Db>, now: int): (r: seq<Db>)
    ensures |r| == |dbs|
  {
    seq(|dbs|, j requires 0 <= j < |dbs| => Kept(dbs[j], now))
  }

  /** A key is kept if and only if it has no deadline or one that is not in the past. */
  lemma KeptIff(db: Db, now: int, key: ByteString)
    requires WellTimed(db)
    ensures key in Kept(db, now) <==>
              key in db && (db[key].expire == None || db[key].expire.value >= now)
    ensures key in Kept(db, now) ==> Kept(db, now)[key] == db[key]
  {
    if key in db {
      assert db[key].expire != Some(-1);
    }
  }

  function EmptyDbs(n: nat): seq<Db> { seq(n, _ => map[]) }

  // ---------- the rewrite preserves meaning ----------

  lemma RewriteEntryRuns(srv: Server, dump: Dumper, ks: Keys, key: ByteString, e: Entry, now: int, later: int)
    requires HasTable(srv) && DumpsValues(srv, dump) && InRange(ks) && key !in ks.dbs[ks.selected]
    requires FitsInt64(e.expire) && e.expire != Some(-1)
    ensures RunAll(srv, ks, RewriteEntry(dump, key, e, now), later)
            == if e.expire.Some? && e.expire.value < now then ks else Put(ks, key, e)
  {
    if !Expired(e, now) {
      var value := DumpValue(dump, key, e.value);
      var stored := Put(ks, key, Entry(e.value, None));
      assert RunAll(srv, ks, value, later) == stored by {
        if e.value.Str? {
          RunOne(srv, ks, [SET_NAME, key, e.value.bytes], later);
        }
      }
      if e.expire.Some? {
        var ex := [PEXPIREAT_NAME, key, SignedDecimal(e.expire.value)];
        RunAllConcat(srv, ks, value, [ex], later);
        RunOne(srv, stored, ex, later);
        String2llReads(e.expire.value);
        assert stored.dbs[ks.selected][key := e] == ks.dbs[ks.selected][key := e];
      } else {
        assert value + [] == value;
      }
    }
  }

  /** The live entries among the keys of `order`. */
  function KeptAmong(db: Db, order: seq<ByteString>, now: int): Db {
    map k | k in order && k in db && !Expired(db[k], now) :: db[k]
  }

  lemma InFirstOrRest<T>(s: seq<T>, x: T)
    requires s != []
    ensures x in s <==> x == s[0] || x in s[1..]
  {
  }

  lemma KeptAmongFirst(db: Db, order: seq<ByteString>, now: int, acc: Db)
    requires order != [] && order[0] in db
    ensures var k := order[0];
            (if Expired(db[k], now) then acc else acc[k := db[k]]) + KeptAmong(db, order[1..], now)
            == acc + KeptAmong(db, order, now)
  {
    var k := order[0];
    var left := (if Expired(db[k], now) then acc else acc[k := db[k]]) + KeptAmong(db, order[1..], now);
    var right := acc + KeptAmong(db, order, now);
    forall x
      ensures x in left <==> x in right
      ensures x in left ==> left[x] == right[x]
    {
      InFirstOrRest(order, x);
    }
    hide KeptAmong;
    assert left.Keys == right.Keys;
  }

  lemma {:induction false} RewriteDbRuns(srv: Server, dump: Dumper, ks: Keys, db: Db, order: seq<ByteString>,
                                         now: int, later: int)
    requires HasTable(srv) && DumpsValues(srv, dump) && InRange(ks) && WellTimed(db)
    requires forall k :: k in order ==> k in db && k !in ks.dbs[ks.selected]
    requires forall i, j :: 0 <= i < j < |order| ==> order[i] != order[j]
    ensures RunAll(srv, ks, RewriteDb(dump, db, order, now), later)
            == ks.(dbs := ks.dbs[ks.selected := ks.dbs[ks.selected] + KeptAmong(db, order, now)])
    decreases |order|
  {
    hide RewriteEntry, RunAll;
    var acc := ks.dbs[ks.selected];
    if order == [] {
      assert acc + KeptAmong(db, order, now) == acc;
      RunNone(srv, ks, later);
    } else {
      var key := order[0];
      RewriteEntryRuns(srv, dump, ks, key, db[key], now, later);
      RunAllConcat(srv, ks, RewriteEntry(dump, key, db[key], now), RewriteDb(dump, db, order[1..], now), later);
      var next := if Expired(db[key], now) then ks else Put(ks, key, db[key]);
      forall k | k in order[1..]
        ensures k in db && k !in next.dbs[ks.selected]
      {
        var i :| 0 <= i < |order[1..]| && order[1..][i] == k;
        assert order[i + 1] == k && order[0] != order[i + 1];
      }
      RewriteDbRuns(srv, dump, next, db, order[1..], now, later);
      KeptAmongFirst(db, order, now, acc);
    }
  }

  lemma RunNone(srv: Server, ks: Keys, now: int)
    requires InRange(ks)
    ensures RunAll(srv, ks, [], now) == ks
  {
  }

  lemma {:induction false} RewriteFromRuns(srv: Server, dump: Dumper, ks: Keys, dbs: seq<Db>,
                                           orders: seq<seq<ByteString>>, now: int, j: nat, later: int)
    requires HasTable(srv) && DumpsValues(srv, dump) && InRange(ks) && AllIterate(orders, dbs)
    requires j <= |dbs| == |ks.dbs| <= INT64_MAX
    requires forall i :: 0 <= i < |dbs| ==> WellTimed(dbs[i])
    requires forall i :: j <= i < |dbs| ==> ks.dbs[i] == map[]
    ensures var r := RunAll(srv, ks, RewriteFrom(dump, dbs, orders, now, j), later);
            forall i :: 0 <= i < |dbs| ==> r.dbs[i] == if i < j then ks.dbs[i] else Kept(dbs[i], now)
    decreases |dbs| - j
  {
    hide RunAll, RewriteDb;
    if j == |dbs| {
      RunNone(srv, ks, later);
    } else {
      assert Iterates(orders[j], dbs[j]);
      var rest := RewriteFrom(dump, dbs, orders, now, j + 1);
      if dbs[j] == map[] {
        assert [] + rest == rest;
        RewriteFromRuns(srv, dump, ks, dbs, orders, now, j + 1, later);
        assert Kept(dbs[j], now) == map[];
      } else {
        var body := RewriteDb(dump, dbs[j], orders[j], now);
        var there := ks.(selected := j);
        SelectRuns(srv, ks, j, later);
        RewriteDbRuns(srv, dump, there, dbs[j], orders[j], now, later);
        assert map[] + KeptAmong(dbs[j], orders[j], now) == Kept(dbs[j], now);
        RunAllConcat(srv, ks, [SelectCommand(j)], body, later);
        RunAllConcat(srv, ks, [SelectCommand(j)] + body, rest, later);
        RewriteFromRuns(srv, dump, there.(dbs := ks.dbs[j := Kept(dbs[j], now)]), dbs, orders, now, j + 1, later);
      }
    }
  }

  lemma SelectRuns(srv: Server, ks: Keys, j: nat, later: int)
    requires HasTable(srv) && InRange(ks) && j < |ks.dbs| <= INT64_MAX
    ensures RunAll(srv, ks, [SelectCommand(j)], later) == ks.(selected := j)
  {
    String2llNatural(j);
    RunOne(srv, ks, SelectCommand(j), later);
  }

  /**
   The rewrite preserves meaning: replayed from empty databases, at any later time and
   for every iteration order, the compact log gives the dataset less its expired keys.
   */
  lemma RewritePreservesMeaning(srv: Server, dump: Dumper, dbs: seq<Db>, orders: seq<seq<ByteString>>, now: int, later: int)
    requires HasTable(srv) && DumpsValues(srv, dump) && AllIterate(orders, dbs) && 0 < |dbs| <= INT64_MAX
    requires forall i :: 0 <= i < |dbs| ==> WellTimed(dbs[i])
    ensures RunAll(srv, Keys(EmptyDbs(|dbs|), 0), Rewrite(dump, dbs, orders, now), later).dbs == KeptAll(dbs, now)
  {
    RewriteFromRuns(srv, dump, Keys(EmptyDbs(|dbs|), 0), dbs, orders, now, 0, later);
  }

  // ---------- the rewrite has no relative times ----------

  lemma {:induction false} RewriteDbIsTimeFree(srv: Server, dump: Dumper, db: Db, order: seq<ByteString>, now: int)
    requires HasTable(srv) && DumpsTimeFree(srv, dump) && forall k :: k in order ==> k in db
    ensures AllTimeFree(srv, RewriteDb(dump, db, order, now))
  {
    if order != [] {
      assert AllTimeFree(srv, RewriteEntry(dump, order[0], db[order[0]], now)) by {
        assert AllTimeFree(srv, dump(order[0], db[order[0]].value));
        assert db[order[0]].value.Str? ==> [SET_NAME, order[0], db[order[0]].value.bytes][3..] == [];
      }
      hide RewriteEntry;
      RewriteDbIsTimeFree(srv, dump, db, order[1..], now);
    }
  }

  lemma {:induction false} RewriteIsTimeFree(srv: Server, dump: Dumper, dbs: seq<Db>, orders: seq<seq<ByteString>>,
                                             now: int, j: nat)
    requires HasTable(srv) && DumpsTimeFree(srv, dump) && AllIterate(orders, dbs) && j <= |dbs|
    ensures AllTimeFree(srv, RewriteFrom(dump, dbs, orders, now, j))
    decreases |dbs| - j
  {
    hide RewriteDb;
    if j < |dbs| {
      assert Iterates(orders[j], dbs[j]);
      RewriteDbIsTimeFree(srv, dump, dbs[j], orders[j], now);
      assert TimeFree(srv, SelectCommand(j));
      RewriteIsTimeFree(srv, dump, dbs, orders, now, j + 1);
    }
  }

  // ---------- nor transactions ----------

  lemma {:induction false} RewriteDbIsPlain(srv: Server, dump: Dumper, db: Db, order: seq<ByteString>, now: int)
    requires HasTable(srv) && DumpsPlain(srv, dump) && forall k :: k in order ==> k in db
    ensures Plain(srv, RewriteDb(dump, db, order, now))
  {
    if order != [] {
      assert Plain(srv, RewriteEntry(dump, order[0], db[order[0]], now)) by {
        assert Plain(srv, dump(order[0], db[order[0]].value));
      }
      hide RewriteEntry;
      RewriteDbIsPlain(srv, dump, db, order[1..], now);
    }
  }

  lemma {:induction false} RewriteIsPlain(srv: Server, dump: Dumper, dbs: seq<Db>, orders: seq<seq<ByteString>>,
                                          now: int, j: nat)
    requires HasTable(srv) && DumpsPlain(srv, dump) && AllIterate(orders, dbs) && j <= |dbs|
    ensures Plain(srv, RewriteFrom(dump, dbs, orders, now, j))
    decreases |dbs| - j
  {
    hide RewriteDb;
    if j < |dbs| {
      assert Iterates(orders[j], dbs[j]);
      RewriteDbIsPlain(srv, dump, dbs[j], orders[j], now);
      assert Plain(srv, [SelectCommand(j)]);
      RewriteIsPlain(srv, dump, dbs, orders, now, j + 1);
    }
  }
}

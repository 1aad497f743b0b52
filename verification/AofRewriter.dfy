/**
 rewriteAppendOnlyFileRio: the loops of the child over databases and entries, writing
 command fragments to a stream that may run out of space at any of them.
 */
module AofRewriter {
  import opened Bytes
  import opened Resp
  import opened Keyspace
  import opened AofFeed
  import opened AofRewrite

  /** Writing `bytes` to a stream: all of them if they fit, else as many as fit, and failure. */
  predicate Accepted(before: ByteString, bytes: ByteString, capacity: nat, after: ByteString, ok: bool) {
    ok == (|before| + |bytes| <= capacity)
    && after == if ok then before + bytes else (before + bytes)[..capacity]
  }

  lemma AcceptedBoth(a: ByteString, first: ByteString, second: ByteString, capacity: nat,
                     b: ByteString, c: ByteString, ok: bool)
    requires Accepted(a, first, capacity, b, true) && Accepted(b, second, capacity, c, ok)
    ensures Accepted(a, first + second, capacity, c, ok)
  {
    Associative(a, first, second);
  }

  lemma AcceptedFits(a: ByteString, bytes: ByteString, capacity: nat, b: ByteString)
    requires Accepted(a, bytes, capacity, b, true)
    ensures |b| <= capacity
  {
  }

  lemma AcceptedTooLittle(a: ByteString, first: ByteString, second: ByteString, capacity: nat, b: ByteString)
    requires Accepted(a, first, capacity, b, false)
    ensures Accepted(a, first + second, capacity, b, false)
  {
    Associative(a, first, second);
    SliceOfPrefix(a + first + second, |a + first|, 0, capacity);
    assert (a + first + second)[..|a + first|] == a + first;
  }

  /** A stream that accepts `capacity` bytes in all; a write that does not fit fails halfway. */
  class Rio {
    var out: ByteString
    const capacity: nat

    constructor (capacity: nat)
      ensures out == [] && this.capacity == capacity
    {
      out, this.capacity := [], capacity;
    }

    method Write(bytes: ByteString) returns (ok: bool)
      requires |out| <= capacity
      modifies this
      ensures Accepted(old(out), bytes, capacity, out, ok)
    {
      ok := |out| + |bytes| <= capacity;
      out := out + if ok then bytes else bytes[..capacity - |out|];
    }

    /** rioWriteBulkString: the header, the bytes and the CRLF, one write each. */
    method WriteBulk(bytes: ByteString) returns (ok: bool)
      requires |out| <= capacity
      modifies this
      ensures Accepted(old(out), EncodeBulk(bytes), capacity, out, ok)
    {
      ghost var before := out;
      ok := Write(Header(DOLLAR, |bytes|));
      ghost var headed := out;
      if !ok {
        AcceptedTooLittle(before, Header(DOLLAR, |bytes|), bytes, capacity, out);
        AcceptedTooLittle(before, Header(DOLLAR, |bytes|) + bytes, CRLF, capacity, out);
        return;
      }
      ok := Write(bytes);
      AcceptedBoth(before, Header(DOLLAR, |bytes|), bytes, capacity, headed, out, ok);
      ghost var filled := out;
      if !ok {
        AcceptedTooLittle(before, Header(DOLLAR, |bytes|) + bytes, CRLF, capacity, out);
        return;
      }
      ok := Write(CRLF);
      AcceptedBoth(before, Header(DOLLAR, |bytes|) + bytes, CRLF, capacity, filled, out, ok);
    }
  }

  /** The literals of the source: "*3\r\n$3\r\nSET\r\n", "*3\r\n$9\r\nPEXPIREAT\r\n". */
  const SET_CMD: ByteString := [42, 51, 13, 10, 36, 51, 13, 10, 83, 69, 84, 13, 10]
  const PEXPIREAT_CMD: ByteString :=
    [42, 51, 13, 10, 36, 57, 13, 10, 80, 69, 88, 80, 73, 82, 69, 65, 84, 13, 10]

  lemma SetLiteral()
    ensures SET_CMD == Header(STAR, 3) + EncodeBulk(SET_NAME)
  {
    assert Decimal(3) == [51];
    assert Header(STAR, 3) == [42, 51, 13, 10] && Header(DOLLAR, 3) == [36, 51, 13, 10];
  }

  lemma PexpireatLiteral()
    ensures PEXPIREAT_CMD == Header(STAR, 3) + EncodeBulk(PEXPIREAT_NAME)
  {
    assert Decimal(3) == [51] && Decimal(9) == [57];
    assert Header(STAR, 3) == [42, 51, 13, 10] && Header(DOLLAR, 9) == [36, 57, 13, 10];
  }

  lemma EncodeTail(name: ByteString, args: seq<ByteString>)
    ensures Encode([name] + args) == Header(STAR, 1 + |args|) + EncodeBulk(name) + EncodeBulks(args)
  {
    hide EncodeBulk, Header;
    assert ([name] + args)[1..] == args;
    Associative(Header(STAR, 1 + |args|), EncodeBulk(name), EncodeBulks(args));
  }

  lemma EncodeBulksOne(a: ByteString)
    ensures EncodeBulks([a]) == EncodeBulk(a)
  {
    assert [a][1..] == [];
    assert EncodeBulk(a) + [] == EncodeBulk(a);
  }

  lemma EncodeBulksTwo(a: ByteString, b: ByteString)
    ensures EncodeBulks([a, b]) == EncodeBulk(a) + EncodeBulk(b)
  {
    hide EncodeBulk;
    assert [a, b][1..] == [b];
    EncodeBulksOne(b);
  }

  /** SET or PEXPIREAT with its two arguments, as three writes. */
  lemma ThreeArguments(cmd: ByteString, name: ByteString, a: ByteString, b: ByteString)
    requires cmd == Header(STAR, 3) + EncodeBulk(name)
    ensures cmd + EncodeBulk(a) + EncodeBulk(b) == EncodeAll([[name, a, b]])
  {
    EncodeTail(name, [a, b]);
    EncodeBulksTwo(a, b);
    hide EncodeBulk, Header, Encode;
    assert [name] + [a, b] == [name, a, b];
    Associative(cmd, EncodeBulk(a), EncodeBulk(b));
    EncodeOne([name, a, b]);
  }

  lemma SelectIndex(j: nat)
    ensures SELECT_CMD + EncodeBulk(Decimal(j)) == EncodeAll([SelectCommand(j)])
  {
    SelectLiteral();
    EncodeTail(SELECT_NAME, [Decimal(j)]);
    EncodeBulksOne(Decimal(j));
    hide EncodeBulk, Header, Encode;
    assert [SELECT_NAME] + [Decimal(j)] == SelectCommand(j);
    EncodeOne(SelectCommand(j));
  }

  /** The stream took the encoding of `cmds`, or what fitted of it. */
  ghost predicate WroteAll(before: ByteString, after: ByteString, capacity: nat, cmds: seq<Command>, ok: bool) {
    Accepted(before, EncodeAll(cmds), capacity, after, ok)
  }

  lemma WroteNothing(a: ByteString, capacity: nat)
    requires |a| <= capacity
    ensures WroteAll(a, a, capacity, [], true)
  {
    assert a + [] == a;
  }

  lemma WroteBoth(a: ByteString, b: ByteString, c: ByteString, capacity: nat,
                  first: seq<Command>, second: seq<Command>, ok: bool)
    requires WroteAll(a, b, capacity, first, true) && WroteAll(b, c, capacity, second, ok)
    ensures WroteAll(a, c, capacity, first + second, ok)
  {
    EncodeAllConcat(first, second);
    AcceptedBoth(a, EncodeAll(first), EncodeAll(second), capacity, b, c, ok);
  }

  lemma WroteTooLittle(a: ByteString, b: ByteString, capacity: nat, first: seq<Command>, second: seq<Command>)
    requires WroteAll(a, b, capacity, first, false)
    ensures WroteAll(a, b, capacity, first + second, false)
  {
    EncodeAllConcat(first, second);
    AcceptedTooLittle(a, EncodeAll(first), EncodeAll(second), capacity, b);
  }

  /** A command of a name and two arguments. */
  method WriteCommand(aof: Rio, literal: ByteString, ghost name: ByteString, a: ByteString, b: ByteString) returns (ok: bool)
    requires literal == Header(STAR, 3) + EncodeBulk(name) && |aof.out| <= aof.capacity
    modifies aof
    ensures WroteAll(old(aof.out), aof.out, aof.capacity, [[name, a, b]], ok)
  {
    ThreeArguments(literal, name, a, b);
    hide EncodeBulk, Header, EncodeAll, Accepted;
    ghost var before, second := aof.out, literal + EncodeBulk(a);
    ok := aof.Write(literal);
    if !ok {
      AcceptedTooLittle(before, literal, EncodeBulk(a), aof.capacity, aof.out);
      AcceptedTooLittle(before, second, EncodeBulk(b), aof.capacity, aof.out);
      return;
    }
    ghost var named := aof.out;
    AcceptedFits(before, literal, aof.capacity, named);
    ok := aof.WriteBulk(a);
    AcceptedBoth(before, literal, EncodeBulk(a), aof.capacity, named, aof.out, ok);
    if !ok {
      AcceptedTooLittle(before, second, EncodeBulk(b), aof.capacity, aof.out);
      return;
    }
    ghost var keyed := aof.out;
    AcceptedFits(before, second, aof.capacity, keyed);
    ok := aof.WriteBulk(b);
    AcceptedBoth(before, second, EncodeBulk(b), aof.capacity, keyed, aof.out, ok);
  }

  /** The value: a SET for a string, the commands of its type's writer for an aggregate. */
  method WriteValue(aof: Rio, dump: Dumper, key: ByteString, value: Value) returns (ok: bool)
    requires |aof.out| <= aof.capacity
    modifies aof
    ensures WroteAll(old(aof.out), aof.out, aof.capacity, DumpValue(dump, key, value), ok)
  {
    SetLiteral();
    if value.Str? {
      ok := WriteCommand(aof, SET_CMD, SET_NAME, key, value.bytes);
    } else {
      ok := aof.Write(EncodeAll(dump(key, value)));
    }
  }

  method WriteEntry(aof: Rio, dump: Dumper, key: ByteString, e: Entry, now: int) returns (ok: bool)
    requires |aof.out| <= aof.capacity
    modifies aof
    ensures WroteAll(old(aof.out), aof.out, aof.capacity, RewriteEntry(dump, key, e, now), ok)
  {
    WroteNothing(aof.out, aof.capacity);
    hide DumpValue;
    PexpireatLiteral();
    var expiretime := GetExpire(e);
    if expiretime != -1 && expiretime < now {
      return true;
    }
    ghost var value := DumpValue(dump, key, e.value);
    ghost var before := aof.out;
    ok := WriteValue(aof, dump, key, e.value);
    if expiretime == -1 {
      assert value + [] == value;
      return;
    }
    ghost var deadline := [[PEXPIREAT_NAME, key, SignedDecimal(expiretime)]];
    if !ok {
      WroteTooLittle(before, aof.out, aof.capacity, value, deadline);
      return;
    }
    ghost var middle := aof.out;
    ok := WriteCommand(aof, PEXPIREAT_CMD, PEXPIREAT_NAME, key, SignedDecimal(expiretime));
    WroteBoth(before, middle, aof.out, aof.capacity, value, deadline, ok);
  }

  lemma RewriteDbSplits(dump: Dumper, db: Db, order: seq<ByteString>, now: int, i: nat)
    requires i < |order| && forall k :: k in order ==> k in db
    ensures RewriteDb(dump, db, order[i..], now)
            == RewriteEntry(dump, order[i], db[order[i]], now) + RewriteDb(dump, db, order[i + 1..], now)
  {
    assert order[i..][0] == order[i] && order[i..][1..] == order[i + 1..];
  }

  /** The inner loop: the entries of one database, in iteration order. */
  method WriteDb(aof: Rio, dump: Dumper, db: Db, order: seq<ByteString>, now: int) returns (ok: bool)
    requires forall k :: k in order ==> k in db
    requires |aof.out| <= aof.capacity
    modifies aof
    ensures WroteAll(old(aof.out), aof.out, aof.capacity, RewriteDb(dump, db, order, now), ok)
  {
    hide RewriteEntry, EncodeAll;
    var i := 0;
    ghost var done: seq<Command> := [];
    WroteNothing(aof.out, aof.capacity);
    while i < |order|
      invariant 0 <= i <= |order| && |aof.out| <= aof.capacity
      invariant done + RewriteDb(dump, db, order[i..], now) == RewriteDb(dump, db, order, now)
      invariant WroteAll(old(aof.out), aof.out, aof.capacity, done, true)
    {
      ghost var before := aof.out;
      ghost var entry := RewriteEntry(dump, order[i], db[order[i]], now);
      ghost var rest := RewriteDb(dump, db, order[i + 1..], now);
      RewriteDbSplits(dump, db, order, now, i);
      assert done + entry + rest == done + (entry + rest);
      ok := WriteEntry(aof, dump, order[i], db[order[i]], now);
      WroteBoth(old(aof.out), before, aof.out, aof.capacity, done, entry, ok);
      done := done + entry;
      if !ok {
        WroteTooLittle(old(aof.out), aof.out, aof.capacity, done, rest);
        return;
      }
      i := i + 1;
    }
    assert order[i..] == [];
    assert done + [] == done;
    ok := true;
  }

  method RewriteAppendOnlyFileRio(aof: Rio, dump: Dumper, dbs: seq<Db>, orders: seq<seq<ByteString>>, now: int)
    returns (ok: bool)
    requires AllIterate(orders, dbs) && |aof.out| <= aof.capacity
    modifies aof
    ensures WroteAll(old(aof.out), aof.out, aof.capacity, Rewrite(dump, dbs, orders, now), ok)
  {
    hide EncodeAll, RewriteDb;
    var j := 0;
    ghost var done: seq<Command> := [];
    WroteNothing(aof.out, aof.capacity);
    while j < |dbs|
      invariant 0 <= j <= |dbs| && |aof.out| <= aof.capacity
      invariant done + RewriteFrom(dump, dbs, orders, now, j) == Rewrite(dump, dbs, orders, now)
      invariant WroteAll(old(aof.out), aof.out, aof.capacity, done, true)
    {
      assert Iterates(orders[j], dbs[j]);
      ghost var rest := RewriteFrom(dump, dbs, orders, now, j + 1);
      if dbs[j] == map[] {
        assert [] + rest == rest;
      } else {
        ghost var before := aof.out;
        ghost var select, body := [SelectCommand(j)], RewriteDb(dump, dbs[j], orders[j], now);
        assert done + (select + body + rest) == done + (select + body) + rest;
        ok := WriteSelect(aof, j);
        ghost var middle := aof.out;
        if ok {
          ok := WriteDb(aof, dump, dbs[j], orders[j], now);
          WroteBoth(before, middle, aof.out, aof.capacity, select, body, ok);
        } else {
          WroteTooLittle(before, aof.out, aof.capacity, select, body);
        }
        WroteBoth(old(aof.out), before, aof.out, aof.capacity, done, select + body, ok);
        done := done + (select + body);
        if !ok {
          WroteTooLittle(old(aof.out), aof.out, aof.capacity, done, rest);
          return;
        }
      }
      j := j + 1;
    }
    assert done + [] == done;
    ok := true;
  }

  method WriteSelect(aof: Rio, j: nat) returns (ok: bool)
    requires |aof.out| <= aof.capacity
    modifies aof
    ensures WroteAll(old(aof.out), aof.out, aof.capacity, [SelectCommand(j)], ok)
  {
    SelectIndex(j);
    hide EncodeBulk, EncodeAll, Accepted;
    ghost var before := aof.out;
    ok := aof.Write(SELECT_CMD);
    if !ok {
      AcceptedTooLittle(before, SELECT_CMD, EncodeBulk(Decimal(j)), aof.capacity, aof.out);
      return;
    }
    ghost var middle := aof.out;
    AcceptedFits(before, SELECT_CMD, aof.capacity, middle);
    ok := aof.WriteBulk(Decimal(j));
    AcceptedBoth(before, SELECT_CMD, EncodeBulk(Decimal(j)), aof.capacity, middle, aof.out, ok);
  }
}

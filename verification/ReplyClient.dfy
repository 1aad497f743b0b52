/**
 A client's output side: the fixed array `buf` with `bufpos` bytes in it, the list of
 blocks, and the loop of writeToClient that drains both through one cursor.
 */
module ReplyClient {
  import opened Bytes
  import opened ReplyQueue

  /** What decides whether a client is sent replies at all, and how. */
  datatype Role = Role(lua: bool, replyOff: bool, replySkip: bool, master: bool, forceReply: bool,
                       fake: bool, slave: bool, slaveReady: bool)

  class Client {
    const role: Role
    const buf: array<byte>
    var bufpos: nat
    var sentlen: nat
    var reply: seq<ByteString>
    var replyBytes: nat
    var closeAfterReply: bool
    var pendingWrite: bool
    var gone: bool
    ghost var sent: ByteString

    ghost predicate InBounds()
      reads this
    {
      buf.Length == PROTO_REPLY_CHUNK_BYTES && bufpos <= buf.Length
    }

    ghost function Current(): Output
      requires InBounds()
      reads this, buf
    {
      Output(buf[..bufpos], sentlen, reply, replyBytes, closeAfterReply, gone, sent)
    }

    constructor (role: Role)
      ensures this.role == role && fresh(buf) && InBounds() && !pendingWrite
      ensures Current() == Output([], 0, [], 0, false, false, []) && Valid(Current())
    {
      this.role := role;
      buf := new byte[PROTO_REPLY_CHUNK_BYTES];
      bufpos, sentlen, reply, replyBytes := 0, 0, [], 0;
      closeAfterReply, pendingWrite, gone, sent := false, false, false, [];
    }

    predicate Accepts() {
      role.lua || (!role.replyOff && !role.replySkip && (!role.master || role.forceReply) && !role.fake)
    }

    /** A client that can be written to is flagged, once, when its first reply comes. */
    method PrepareClientToWrite() returns (ok: bool)
      modifies `pendingWrite
      ensures ok == Accepts()
      ensures role.lua ==> ok
      ensures !role.lua && (role.replyOff || role.replySkip || role.fake || (role.master && !role.forceReply)) ==> !ok
      ensures !role.replyOff && !role.replySkip && !role.fake && (role.forceReply || !role.master) ==> ok
      ensures pendingWrite == (old(pendingWrite)
                               || (ok && !role.lua && bufpos == 0 && reply == [] && (!role.slave || role.slaveReady)))
    {
      if role.lua {
        return true;
      }
      if role.replyOff || role.replySkip {
        return false;
      }
      if role.master && !role.forceReply {
        return false;
      }
      if role.fake {
        return false;
      }
      if bufpos == 0 && |reply| == 0 && !pendingWrite && (!role.slave || role.slaveReady) {
        pendingWrite := true;
      }
      ok := true;
    }

    method AddReplyToBuffer(s: ByteString) returns (ok: bool)
      requires InBounds() && Valid(Current())
      modifies this`bufpos, buf
      ensures InBounds() && ok == FitsBuffer(old(Current()), s)
      ensures Current() == if ok then old(Current()).(buf := old(Current()).buf + s) else old(Current())
    {
      ok := |reply| == 0 && |s| <= buf.Length - bufpos;
      if !ok {
        return;
      }
      forall i | 0 <= i < |s| {
        buf[bufpos + i] := s[i];
      }
      bufpos := bufpos + |s|;
      assert buf[..bufpos] == old(buf[..bufpos]) + s;
    }

    method AddReplyStringToList(s: ByteString, glue: bool)
      modifies `reply, `replyBytes
      ensures reply == if glue && old(reply) != [] then
                         old(reply)[..|old(reply)| - 1] + [old(reply)[|old(reply)| - 1] + s]
                       else old(reply) + [s]
      ensures replyBytes == old(replyBytes) + |s|
    {
      if glue && |reply| != 0 {
        var last := |reply| - 1;
        reply := reply[..last] + [reply[last] + s];
      } else {
        reply := reply + [s];
      }
      replyBytes := replyBytes + |s|;
    }

    method AddReply(s: ByteString, glue: bool)
      requires InBounds() && Valid(Current())
      modifies this, buf
      ensures InBounds() && Valid(Current())
      ensures Current() == if Accepts() then ReplyQueue.AddReply(old(Current()), s, glue) else old(Current())
    {
      AddReplyAppends(Current(), s, glue);
      var ok := PrepareClientToWrite();
      if !ok {
        return;
      }
      var stored := AddReplyToBuffer(s);
      if !stored {
        AddReplyStringToList(s, glue);
      }
    }

    /** One write from the fixed buffer. */
    method SendFromBuffer(n: nat)
      requires InBounds() && Valid(Current()) && bufpos > 0 && 0 < n <= bufpos - sentlen
      modifies this
      ensures InBounds() && Current() == Advance(old(Current()), n)
    {
      sent := sent + buf[..bufpos][sentlen..][..n];
      sentlen := sentlen + n;
      if sentlen == bufpos {
        bufpos := 0;
        sentlen := 0;
      }
    }

    /** One write from the block at the head of the list. */
    method SendFromList(n: nat)
      requires InBounds() && Valid(Current()) && bufpos == 0 && reply != [] && 0 < n <= |reply[0]| - sentlen
      modifies this
      ensures InBounds() && Current() == Advance(old(Current()), n)
    {
      assert buf[..bufpos] == [];
      sent := sent + reply[0][sentlen..][..n];
      sentlen := sentlen + n;
      if sentlen == |reply[0]| {
        var objlen := |reply[0]|;
        assert |Join(reply)| == objlen + |Join(reply[1..])| && Join([]) == [];
        reply := reply[1..];
        sentlen := 0;
        replyBytes := replyBytes - objlen;
        assert reply == [] ==> replyBytes == 0;
      }
    }

    /** One call of write on whichever piece is at the front. */
    method SendOnce(result: WriteResult) returns (nwritten: nat, ending: Ending)
      requires InBounds() && Valid(Current()) && HasPending(Current()) && FrontSlice(Current()) != []
      modifies this
      ensures InBounds() && Valid(Current())
      ensures match result
              case WouldBlock => ending == Stalled && Current() == old(Current())
              case Broken => ending == Failed && Current() == old(Current())
              case Wrote(n) =>
                && nwritten == Min(n, |FrontSlice(old(Current()))|)
                && (if nwritten == 0 then ending == Stalled && Current() == old(Current())
                    else ending == Fine && Current() == Advance(old(Current()), nwritten))
    {
      hide Advance;
      nwritten := 0;
      if result == WouldBlock {
        return 0, Stalled;
      }
      if result == Broken {
        return 0, Failed;
      }
      var asked := if bufpos > 0 then bufpos - sentlen else |reply[0]| - sentlen;
      nwritten := if result.n < asked then result.n else asked;
      if nwritten == 0 {
        return 0, Stalled;
      }
      AdvanceKeeps(Current(), nwritten);
      if bufpos > 0 {
        SendFromBuffer(nwritten);
      } else {
        SendFromList(nwritten);
      }
      ending := Fine;
    }

    /** The loop of writeToClient; `results` are what the calls of write will return. */
    method SendReplies(results: seq<WriteResult>, unlimited: bool) returns (total: nat, ending: Ending)
      requires InBounds() && Valid(Current())
      modifies this
      ensures InBounds() && (Current(), total, ending) == Drain(old(Current()), results, 0, unlimited)
      ensures Valid(Current())
    {
      hide Advance;
      total, ending := 0, Fine;
      var next: nat := 0;
      assert results[0..] == results;
      while bufpos > 0 || |reply| > 0
        invariant next <= |results| && InBounds() && Valid(Current()) && ending == Fine
        invariant Drain(Current(), results[next..], total, unlimited) == Drain(old(Current()), results, 0, unlimited)
        decreases |results| - next, |reply|
      {
        if bufpos == 0 && |reply[0]| == 0 {
          EmptyBlock(Current());
          reply := reply[1..];
          continue;
        }
        if next == |results| {
          return total, Stalled;
        }
        var nwritten;
        nwritten, ending := SendOnce(results[next]);
        if ending != Fine {
          return;
        }
        assert results[next..][1..] == results[next + 1..];
        total := total + nwritten;
        next := next + 1;
        if total > NET_MAX_WRITES_PER_EVENT && !unlimited {
          return;
        }
      }
    }

    method WriteToClient(results: seq<WriteResult>, unlimited: bool) returns (ok: bool)
      requires InBounds() && Valid(Current()) && !gone
      modifies this
      ensures InBounds() && Valid(Current())
      ensures Current() == ReplyQueue.WriteToClient(old(Current()), results, unlimited)
      ensures ok == !gone
    {
      hide Drain;
      DrainKeepsOrder(Current(), results, 0, unlimited);
      var total, ending := SendReplies(results, unlimited);
      if ending == Failed {
        gone := true;
        return false;
      }
      if bufpos == 0 && |reply| == 0 {
        sentlen := 0;
        if closeAfterReply {
          gone := true;
          return false;
        }
      }
      ok := true;
    }
  }
}

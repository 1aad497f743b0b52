/**
 The two output buffers of a client: a fixed buffer that is sent first and a list of
 blocks behind it, with a single cursor `sentlen` into whichever is at the front.
 */
module ReplyQueue {
  import opened Bytes
  import opened Resp

  const PROTO_REPLY_CHUNK_BYTES: nat := 16384
  const NET_MAX_WRITES_PER_EVENT: nat := 65536

  /** `sent` lists the bytes the socket has accepted. */
  datatype Output = Output(
    buf: ByteString, sentlen: nat, reply: seq<ByteString>, replyBytes: nat,
    closeAfterReply: bool, gone: bool, sent: ByteString)

  function Join(blocks: seq<ByteString>): ByteString {
    if blocks == [] then [] else blocks[0] + Join(blocks[1..])
  }

  /** clientHasPendingReplies */
  predicate HasPending(st: Output) { st.buf != [] || st.reply != [] }

  predicate Valid(st: Output) {
    && |st.buf| <= PROTO_REPLY_CHUNK_BYTES
    && (st.buf != [] ==> st.sentlen < |st.buf|)
    && (st.buf == [] ==> st.sentlen == 0 || (st.reply != [] && st.sentlen < |st.reply[0]|))
    && st.replyBytes == |Join(st.reply)|
  }

  /** What is still to be sent, in order. */
  function Unsent(st: Output): ByteString
    requires Valid(st)
  {
    if st.buf != [] then st.buf[st.sentlen..] + Join(st.reply)
    else if st.reply != [] then st.reply[0][st.sentlen..] + Join(st.reply[1..])
    else []
  }

  // ---------- queueing ----------

  /** The fixed buffer takes a reply only when no block waits and it has the room. */
  predicate FitsBuffer(st: Output, s: ByteString) {
    st.reply == [] && |st.buf| + |s| <= PROTO_REPLY_CHUNK_BYTES
  }

  /** Appends to the buffer, or else to the list: a new block, or more of the last one. */
  function AddReply(st: Output, s: ByteString, glue: bool): Output {
    if FitsBuffer(st, s) then st.(buf := st.buf + s)
    else if glue && st.reply != [] then
      var last := |st.reply| - 1;
      st.(reply := st.reply[..last] + [st.reply[last] + s], replyBytes := st.replyBytes + |s|)
    else st.(reply := st.reply + [s], replyBytes := st.replyBytes + |s|)
  }

  /** Where a reply goes: into the buffer iff no block waits and 16384 bytes suffice, else to the list. */
  lemma ReplyGoesTo(st: Output, s: ByteString, glue: bool)
    ensures var r := AddReply(st, s, glue);
            if st.reply == [] && |st.buf| + |s| <= 16384 then
              r.buf == st.buf + s && r.reply == [] && r.replyBytes == st.replyBytes
            else
              && r.buf == st.buf && r.replyBytes == st.replyBytes + |s|
              && |r.reply| == |st.reply| + (if glue && st.reply != [] then 0 else 1)
              && (forall i :: 0 <= i < |st.reply| - 1 ==> r.reply[i] == st.reply[i])
              && (st.reply != [] && !glue ==> r.reply[|st.reply| - 1] == st.reply[|st.reply| - 1])
  {
  }

  // ---------- sending ----------

  /** What one call of write returns. */
  datatype WriteResult = Wrote(n: nat) | WouldBlock | Broken

  /** How the sending loop ended: all sent or enough for now, a blocked socket, an error. */
  datatype Ending = Fine | Stalled | Failed

  /** The slice at the front that a single write is given. */
  function FrontSlice(st: Output): ByteString
    requires Valid(st) && HasPending(st)
  {
    if st.buf != [] then st.buf[st.sentlen..] else st.reply[0][st.sentlen..]
  }

  /** The front after `n` more of its bytes were accepted. */
  function Advance(st: Output, n: nat): Output
    requires Valid(st) && HasPending(st) && n <= |FrontSlice(st)|
  {
    var st1 := st.(sentlen := st.sentlen + n, sent := st.sent + FrontSlice(st)[..n]);
    if st.buf != [] then
      if st1.sentlen == |st.buf| then st1.(buf := [], sentlen := 0) else st1
    else if st1.sentlen == |st.reply[0]| then
      st1.(reply := st.reply[1..], sentlen := 0, replyBytes := st.replyBytes - |st.reply[0]|)
    else st1
  }

  /** The loop stops after a fair share of bytes, unless memory is short or it feeds a slave. */
  predicate Enough(total: nat, unlimited: bool) { total > NET_MAX_WRITES_PER_EVENT && !unlimited }

  /** The loop of writeToClient; a socket with no more results to give blocks. */
  function Drain(st: Output, results: seq<WriteResult>, total: nat, unlimited: bool): (r: (Output, nat, Ending))
    requires Valid(st)
    decreases |results|, |st.reply|
  {
    if !HasPending(st) then (st, total, Fine)
    else if st.buf == [] && st.reply[0] == [] then Drain(st.(reply := st.reply[1..]), results, total, unlimited)
    else if results == [] || results[0].WouldBlock? then (st, total, Stalled)
    else if results[0].Broken? then (st, total, Failed)
    else
      var n := Min(results[0].n, |FrontSlice(st)|);
      if n == 0 then (st, total, Stalled)
      else
        AdvanceKeeps(st, n);
        var next := Advance(st, n);
        if Enough(total + n, unlimited) then (next, total + n, Fine)
        else Drain(next, results[1..], total + n, unlimited)
  }

  /** writeToClient: free on an error, and close when asked to once everything is sent. */
  function WriteToClient(st: Output, results: seq<WriteResult>, unlimited: bool): Output
    requires Valid(st)
  {
    if st.gone then st
    else
      var (st1, total, ending) := Drain(st, results, 0, unlimited);
      if ending.Failed? then st1.(gone := true)
      else if !HasPending(st1) then st1.(sentlen := 0, gone := st1.closeAfterReply)
      else st1
  }

  // ---------- order and conservation ----------

  lemma {:induction false} JoinConcat(a: seq<ByteString>, b: seq<ByteString>)
    ensures Join(a + b) == Join(a) + Join(b)
  {
    if a == [] {
      assert a + b == b;
    } else {
      JoinConcat(a[1..], b);
      assert (a + b)[1..] == a[1..] + b && (a + b)[0] == a[0];
      Associative(a[0], Join(a[1..]), Join(b));
    }
  }

  lemma JoinOne(s: ByteString)
    ensures Join([s]) == s
  {
    assert [s][1..] == [];
    assert s + [] == s;
  }

  lemma UnsentIsJoin(st: Output)
    requires Valid(st) && st.buf == [] && st.reply != []
    ensures Unsent(st) == Join(st.reply)[st.sentlen..]
  {
    var first, rest := st.reply[0], Join(st.reply[1..]);
    assert (first + rest)[st.sentlen..] == first[st.sentlen..] + rest;
  }

  lemma FitsAppends(st: Output, s: ByteString)
    requires Valid(st) && FitsBuffer(st, s)
    ensures var r := st.(buf := st.buf + s);
            Valid(r) && Unsent(r) == Unsent(st) + s
  {
    if s == [] {
      assert st.buf + s == st.buf && Unsent(st) + s == Unsent(st);
    } else {
      assert (st.buf + s)[st.sentlen..] == st.buf[st.sentlen..] + s;
      assert st.buf[st.sentlen..] + [] == st.buf[st.sentlen..];
      assert (st.buf + s)[st.sentlen..] + [] == (st.buf + s)[st.sentlen..];
    }
  }

  /** A queued reply comes out after everything queued before it. */
  lemma AddReplyAppends(st: Output, s: ByteString, glue: bool)
    requires Valid(st)
    ensures var r := AddReply(st, s, glue);
            Valid(r) && Unsent(r) == Unsent(st) + s && r.sent == st.sent
  {
    var r := AddReply(st, s, glue);
    if FitsBuffer(st, s) {
      FitsAppends(st, s);
    } else {
      AddToList(st.reply, s, glue);
      hide Join;
      if st.buf != [] {
        Associative(st.buf[st.sentlen..], Join(st.reply), s);
      } else if st.reply != [] {
        UnsentIsJoin(st);
        UnsentIsJoin(r);
        assert (Join(st.reply) + s)[st.sentlen..] == Join(st.reply)[st.sentlen..] + s;
      } else {
        JoinOne(s);
        UnsentIsJoin(r);
        assert [] + s == s && s[0..] == s;
      }
    }
  }

  lemma AppendBlock(reply: seq<ByteString>, s: ByteString)
    ensures Join(reply + [s]) == Join(reply) + s
  {
    hide Join;
    JoinConcat(reply, [s]);
    JoinOne(s);
  }

  lemma SplitLast<T>(s: seq<T>)
    requires s != []
    ensures s == s[..|s| - 1] + [s[|s| - 1]]
  {
  }

  lemma AddToList(reply: seq<ByteString>, s: ByteString, glue: bool)
    ensures Join(reply + [s]) == Join(reply) + s
    ensures reply != [] ==> Join(reply[..|reply| - 1] + [reply[|reply| - 1] + s]) == Join(reply) + s
  {
    hide Join;
    AppendBlock(reply, s);
    if reply != [] {
      var front, last := reply[..|reply| - 1], reply[|reply| - 1];
      SplitLast(reply);
      AppendBlock(front, last);
      AppendBlock(front, last + s);
      Associative(Join(front), last, s);
    }
  }

  /** What follows the slice at the front. */
  function Behind(st: Output): ByteString
    requires Valid(st) && HasPending(st)
  {
    if st.buf != [] then Join(st.reply) else Join(st.reply[1..])
  }

  lemma UnsentSplits(st: Output)
    requires Valid(st) && HasPending(st)
    ensures Unsent(st) == FrontSlice(st) + Behind(st)
  {
  }

  lemma AdvanceInsideBuffer(st: Output, n: nat)
    requires Valid(st) && st.buf != [] && 0 < n < |st.buf| - st.sentlen
    ensures Valid(Advance(st, n)) && Unsent(Advance(st, n)) == st.buf[st.sentlen + n..] + Join(st.reply)
  {
    hide Join;
  }

  lemma AdvanceToEndOfBuffer(st: Output, n: nat)
    requires Valid(st) && st.buf != [] && 0 < n == |st.buf| - st.sentlen
    ensures Valid(Advance(st, n)) && Unsent(Advance(st, n)) == Join(st.reply)
  {
    assert Advance(st, n).buf == [] && Advance(st, n).sentlen == 0;
    hide Join;
    UnsentFromStart(Advance(st, n));
  }

  lemma AdvanceInBuffer(st: Output, n: nat)
    requires Valid(st) && st.buf != [] && 0 < n <= |FrontSlice(st)|
    ensures Valid(Advance(st, n)) && Unsent(Advance(st, n)) == FrontSlice(st)[n..] + Behind(st)
  {
    var slice, behind := st.buf[st.sentlen..], Join(st.reply);
    assert FrontSlice(st) == slice && Behind(st) == behind;
    hide *;
    if n == |slice| {
      AdvanceToEndOfBuffer(st, n);
      assert slice[n..] == [] && [] + behind == behind;
    } else {
      AdvanceInsideBuffer(st, n);
      assert slice[n..] == st.buf[st.sentlen + n..];
    }
  }

  lemma AdvanceInList(st: Output, n: nat)
    requires Valid(st) && HasPending(st) && st.buf == [] && 0 < n <= |FrontSlice(st)|
    ensures Valid(Advance(st, n)) && Unsent(Advance(st, n)) == FrontSlice(st)[n..] + Behind(st)
  {
    var r := Advance(st, n);
    var first, rest := st.reply[0], Behind(st);
    assert Join(st.reply) == first + rest;
    hide Join;
    if n == |FrontSlice(st)| {
      assert first[st.sentlen..][n..] == [] && [] + rest == rest;
      UnsentFromStart(r);
    } else {
      assert first[st.sentlen..][n..] == first[st.sentlen + n..];
    }
  }

  /** Moving the cursor moves bytes from the front of what is unsent to the end of what is sent. */
  lemma AdvanceKeeps(st: Output, n: nat)
    requires Valid(st) && HasPending(st) && 0 < n <= |FrontSlice(st)|
    ensures var r := Advance(st, n);
            Valid(r) && r.sent + Unsent(r) == st.sent + Unsent(st) && |r.sent| == |st.sent| + n
  {
    hide Valid, Unsent;
    if st.buf != [] {
      AdvanceInBuffer(st, n);
    } else {
      AdvanceInList(st, n);
    }
    UnsentSplits(st);
    hide FrontSlice, Behind;
    var slice := FrontSlice(st);
    assert slice == slice[..n] + slice[n..];
    Associative(slice[..n], slice[n..], Behind(st));
    Associative(st.sent, slice[..n], slice[n..] + Behind(st));
  }

  lemma UnsentFromStart(st: Output)
    requires Valid(st) && st.buf == [] && st.sentlen == 0
    ensures Unsent(st) == Join(st.reply)
  {
    if st.reply != [] {
      assert st.reply[0][0..] == st.reply[0];
    }
  }

  /** Deleting an empty block changes nothing that is to be sent. */
  lemma EmptyBlock(st: Output)
    requires Valid(st) && st.buf == [] && st.reply != [] && st.reply[0] == []
    ensures var r := st.(reply := st.reply[1..]);
            Valid(r) && Unsent(r) == Unsent(st)
  {
    UnsentFromStart(st);
    UnsentFromStart(st.(reply := st.reply[1..]));
    assert [] + Join(st.reply[1..]) == Join(st.reply[1..]);
  }

  /** Over any sequence of short writes nothing is lost, repeated or reordered. */
  lemma {:induction false} DrainKeepsOrder(st: Output, results: seq<WriteResult>, total: nat, unlimited: bool)
    requires Valid(st)
    ensures var (r, sum, ending) := Drain(st, results, total, unlimited);
            && Valid(r) && r.sent + Unsent(r) == st.sent + Unsent(st)
            && |r.sent| - |st.sent| == sum - total >= 0
            && r.closeAfterReply == st.closeAfterReply && r.gone == st.gone
    decreases |results|, |st.reply|
  {
    hide Advance, Unsent, Valid;
    if !HasPending(st) {
    } else if st.buf == [] && st.reply[0] == [] {
      EmptyBlock(st);
      DrainKeepsOrder(st.(reply := st.reply[1..]), results, total, unlimited);
    } else if results != [] && results[0].Wrote? {
      var n := Min(results[0].n, |FrontSlice(st)|);
      if n > 0 {
        AdvanceKeeps(st, n);
        AdvanceFlags(st, n);
        if !Enough(total + n, unlimited) {
          DrainKeepsOrder(Advance(st, n), results[1..], total + n, unlimited);
        }
      }
    }
  }

  lemma AdvanceFlags(st: Output, n: nat)
    requires Valid(st) && HasPending(st) && n <= |FrontSlice(st)|
    ensures Advance(st, n).closeAfterReply == st.closeAfterReply && Advance(st, n).gone == st.gone
  {
  }

  /** No block and no buffer is longer than `most`. */
  predicate PiecesUpTo(st: Output, most: nat) {
    |st.buf| <= most && forall i :: 0 <= i < |st.reply| ==> |st.reply[i]| <= most
  }

  lemma AdvancePieces(st: Output, n: nat, most: nat)
    requires Valid(st) && HasPending(st) && n <= |FrontSlice(st)| && PiecesUpTo(st, most)
    ensures n <= most && PiecesUpTo(Advance(st, n), most)
  {
  }

  /** One call sends at most the share of an event plus one buffer or block. */
  lemma {:induction false} DrainBudget(st: Output, results: seq<WriteResult>, total: nat, most: nat)
    requires Valid(st) && PiecesUpTo(st, most) && total <= NET_MAX_WRITES_PER_EVENT
    ensures Drain(st, results, total, false).1 <= NET_MAX_WRITES_PER_EVENT + most
    decreases |results|, |st.reply|
  {
    hide Advance, Valid;
    if !HasPending(st) {
    } else if st.buf == [] && st.reply[0] == [] {
      EmptyBlock(st);
      DrainBudget(st.(reply := st.reply[1..]), results, total, most);
    } else if results != [] && results[0].Wrote? {
      var n := Min(results[0].n, |FrontSlice(st)|);
      if n > 0 {
        AdvanceKeeps(st, n);
        AdvancePieces(st, n, most);
        if !Enough(total + n, false) {
          DrainBudget(Advance(st, n), results[1..], total + n, most);
        }
      }
    }
  }

  /** writeToClient keeps the order, keeps to its budget, and closes only a drained client. */
  lemma WriteToClientKeepsOrder(st: Output, results: seq<WriteResult>, unlimited: bool, most: nat)
    requires Valid(st) && PiecesUpTo(st, most)
    ensures var r := WriteToClient(st, results, unlimited);
            var failed := Drain(st, results, 0, unlimited).2.Failed?;
            && Valid(r) && r.sent + Unsent(r) == st.sent + Unsent(st)
            && (!st.gone && r.gone && !failed ==> st.closeAfterReply && Unsent(r) == [])
            && (!st.gone && !failed && Unsent(r) != [] ==> !r.gone)
            && (!unlimited ==> |r.sent| - |st.sent| <= NET_MAX_WRITES_PER_EVENT + most)
  {
    DrainKeepsOrder(st, results, 0, unlimited);
    DrainBudget(st, results, 0, most);
  }

  // ---------- when the client is freed, and when the call goes on ----------

  /** A write that took something. */
  predicate Took(result: WriteResult) { result.Wrote? && result.n > 0 }

  predicate AllTook(results: seq<WriteResult>) { forall i :: 0 <= i < |results| ==> Took(results[i]) }

  /** The `k`th write is attempted: those before it took something, and then the loop wants another result. */
  predicate Attempted(st: Output, results: seq<WriteResult>, total: nat, unlimited: bool, k: nat)
    requires Valid(st)
  {
    && k < |results| && (forall i :: 0 <= i < k ==> Took(results[i]))
    && Drain(st, results[..k], total, unlimited).2 == Stalled
  }

  ghost predicate BrokenWrite(st: Output, results: seq<WriteResult>, total: nat, unlimited: bool)
    requires Valid(st)
  {
    exists k: nat :: Attempted(st, results, total, unlimited, k) && results[k].Broken?
  }

  lemma SliceIsLeft(st: Output)
    requires Valid(st) && HasPending(st) && (st.buf != [] || st.reply[0] != [])
    ensures FrontSlice(st) != []
  {
  }

  /** The loop is about to write the slice at the front. */
  predicate Writing(st: Output) { (st.buf != [] || st.reply != []) && (st.buf == [] ==> st.reply[0] != []) }

  /** What is sent next, when the first result took something. */
  function Taken(st: Output, result: WriteResult): (n: nat)
    requires Valid(st) && Writing(st) && Took(result)
    ensures 0 < n <= |FrontSlice(st)|
  {
    SliceIsLeft(st);
    Min(result.n, |FrontSlice(st)|)
  }

  /** One write that took something leaves that much less. */
  lemma TakenAdvances(st: Output, result: WriteResult)
    requires Valid(st) && Writing(st) && Took(result)
    ensures var n := Taken(st, result);
            Valid(Advance(st, n)) && |Unsent(Advance(st, n))| == |Unsent(st)| - n
  {
    hide Advance, Valid, Unsent, FrontSlice, Taken;
    AdvanceKeeps(st, Taken(st, result));
  }

  lemma TookEnough(st: Output, results: seq<WriteResult>, total: nat, unlimited: bool)
    requires Valid(st) && Writing(st) && results != [] && Took(results[0])
    requires total + Taken(st, results[0]) > NET_MAX_WRITES_PER_EVENT && !unlimited
    ensures Drain(st, results, total, unlimited)
            == (Advance(st, Taken(st, results[0])), total + Taken(st, results[0]), Fine)
  {
    hide Advance, Valid, FrontSlice;
  }

  lemma TookOn(st: Output, results: seq<WriteResult>, total: nat, unlimited: bool)
    requires Valid(st) && Writing(st) && results != [] && Took(results[0])
    requires total + Taken(st, results[0]) <= NET_MAX_WRITES_PER_EVENT || unlimited
    ensures Valid(Advance(st, Taken(st, results[0])))
            && Drain(st, results, total, unlimited)
               == Drain(Advance(st, Taken(st, results[0])), results[1..], total + Taken(st, results[0]), unlimited)
  {
    TakenAdvances(st, results[0]);
    hide Advance, Valid, FrontSlice, Unsent;
  }

  lemma EmptyIsSkipped(st: Output, results: seq<WriteResult>, total: nat, unlimited: bool)
    requires Valid(st) && HasPending(st) && st.buf == [] && st.reply[0] == []
    ensures var next := st.(reply := st.reply[1..]);
            Valid(next) && Unsent(next) == Unsent(st)
            && Drain(st, results, total, unlimited) == Drain(next, results, total, unlimited)
  {
    EmptyBlock(st);
  }

  lemma FirstOfFront(results: seq<WriteResult>, k: nat)
    requires 0 < k <= |results|
    ensures results[..k][0] == results[0] && results[..k][1..] == results[1..][..k - 1]
    ensures forall i :: 0 <= i < k - 1 ==> results[1..][i] == results[i + 1]
  {
  }

  lemma NoResults(results: seq<WriteResult>)
    ensures results[..0] == []
  {
  }

  lemma Mode(st: Output)
    requires Valid(st) && HasPending(st) && !Writing(st)
    ensures st.buf == [] && st.reply != [] && st.reply[0] == []
  {
  }

  lemma AttemptGoesOn(st: Output, results: seq<WriteResult>, total: nat, unlimited: bool, k: nat)
    requires Valid(st) && Writing(st) && k > 0 && Attempted(st, results, total, unlimited, k)
    ensures Took(results[0]) && (total + Taken(st, results[0]) <= NET_MAX_WRITES_PER_EVENT || unlimited)
    ensures Valid(Advance(st, Taken(st, results[0])))
            && Attempted(Advance(st, Taken(st, results[0])), results[1..], total + Taken(st, results[0]), unlimited, k - 1)
  {
    FirstOfFront(results, k);
    assert Took(results[0]);
    var n := Taken(st, results[0]);
    hide Drain, Advance, Valid, Writing, Took, Taken;
    if total + n > NET_MAX_WRITES_PER_EVENT && !unlimited {
      TookEnough(st, results[..k], total, unlimited);
      assert false;
    }
    TookOn(st, results[..k], total, unlimited);
  }

  lemma NotPendingNotAttempted(st: Output, results: seq<WriteResult>, total: nat, unlimited: bool, k: nat)
    requires Valid(st) && Attempted(st, results, total, unlimited, k)
    ensures HasPending(st)
  {
  }

  lemma FirstIsBroken(st: Output, results: seq<WriteResult>, total: nat, unlimited: bool)
    requires Valid(st) && Writing(st) && results != [] && results[0].Broken?
    ensures Drain(st, results, total, unlimited).2 == Failed
    ensures Attempted(st, results, total, unlimited, 0)
  {
    NoResults(results);
  }

  /** Where a write was broken the loop has failed. */
  lemma {:induction false} BrokenFails(st: Output, results: seq<WriteResult>, total: nat, unlimited: bool, k: nat)
    requires Valid(st) && Attempted(st, results, total, unlimited, k) && results[k].Broken?
    ensures Drain(st, results, total, unlimited).2 == Failed
    decreases |results|, |st.reply|
  {
    assert k < |results|;
    NotPendingNotAttempted(st, results, total, unlimited, k);
    if !Writing(st) {
      Mode(st);
      EmptyIsSkipped(st, results, total, unlimited);
      EmptyIsSkipped(st, results[..k], total, unlimited);
      hide Drain, Valid, Unsent;
      BrokenFails(st.(reply := st.reply[1..]), results, total, unlimited, k);
    } else if k > 0 {
      hide *;
      AttemptGoesOn(st, results, total, unlimited, k);
      var n := Taken(st, results[0]);
      assert results[1..][k - 1] == results[k];
      BrokenFails(Advance(st, n), results[1..], total + n, unlimited, k - 1);
      TookOn(st, results, total, unlimited);
    } else {
      hide *;
      FirstIsBroken(st, results, total, unlimited);
    }
  }

  lemma AttemptCameOn(st: Output, results: seq<WriteResult>, total: nat, unlimited: bool, k: nat)
    requires Valid(st) && Writing(st) && results != [] && Took(results[0])
    requires total + Taken(st, results[0]) <= NET_MAX_WRITES_PER_EVENT || unlimited
    requires Valid(Advance(st, Taken(st, results[0])))
    requires Attempted(Advance(st, Taken(st, results[0])), results[1..], total + Taken(st, results[0]), unlimited, k)
    ensures Attempted(st, results, total, unlimited, k + 1)
  {
    assert k + 1 <= |results|;
    FirstOfFront(results, k + 1);
    hide Drain, Advance, Valid, Writing, Took, Taken;
    TookOn(st, results[..k + 1], total, unlimited);
    assert forall i :: 0 <= i < k ==> Took(results[1..][i]);
    forall i | 0 <= i < k + 1 ensures Took(results[i]) {
      assert i > 0 ==> results[i] == results[1..][i - 1];
    }
  }

  lemma FailedMode(st: Output, results: seq<WriteResult>, total: nat, unlimited: bool)
    requires Valid(st) && Drain(st, results, total, unlimited).2 == Failed
    ensures HasPending(st)
    ensures Writing(st) ==> results != [] && (results[0].Broken? || Took(results[0]))
    ensures Writing(st) && Took(results[0]) ==> total + Taken(st, results[0]) <= NET_MAX_WRITES_PER_EVENT || unlimited
  {
    if Writing(st) && results != [] && Took(results[0]) {
      if total + Taken(st, results[0]) > NET_MAX_WRITES_PER_EVENT && !unlimited {
        hide Taken;
        TookEnough(st, results, total, unlimited);
      }
    }
  }

  lemma SkippedAttempt(st: Output, results: seq<WriteResult>, total: nat, unlimited: bool, k: nat)
    requires Valid(st) && HasPending(st) && st.buf == [] && st.reply[0] == [] && Valid(st.(reply := st.reply[1..]))
    requires Attempted(st.(reply := st.reply[1..]), results, total, unlimited, k)
    ensures Attempted(st, results, total, unlimited, k)
  {
    assert k < |results|;
    hide Drain, Valid, Unsent;
    EmptyIsSkipped(st, results[..k], total, unlimited);
  }

  /** And it fails nowhere else. */
  lemma {:induction false} FailsAt(st: Output, results: seq<WriteResult>, total: nat, unlimited: bool) returns (k: nat)
    requires Valid(st) && Drain(st, results, total, unlimited).2 == Failed
    ensures Attempted(st, results, total, unlimited, k) && results[k].Broken?
    decreases |results|, |st.reply|
  {
    FailedMode(st, results, total, unlimited);
    var writing := Writing(st);
    hide *;
    if !writing {
      Mode(st);
      var next := st.(reply := st.reply[1..]);
      EmptyIsSkipped(st, results, total, unlimited);
      k := FailsAt(next, results, total, unlimited);
      SkippedAttempt(st, results, total, unlimited, k);
    } else if results[0].Broken? {
      k := 0;
      FirstIsBroken(st, results, total, unlimited);
    } else {
      TookOn(st, results, total, unlimited);
      var n := Taken(st, results[0]);
      var before := FailsAt(Advance(st, n), results[1..], total + n, unlimited);
      k := before + 1;
      AttemptCameOn(st, results, total, unlimited, before);
      AttemptedBound(Advance(st, n), results[1..], total + n, unlimited, before);
      assert results[1..][before] == results[k];
    }
  }

  lemma AttemptedBound(st: Output, results: seq<WriteResult>, total: nat, unlimited: bool, k: nat)
    requires Valid(st) && Attempted(st, results, total, unlimited, k)
    ensures k < |results|
  {
  }

  /**
   A live client is freed if and only if a write that was attempted is broken, or the call
   leaves neither bytes nor blocks behind and the client is to close after the reply.
   */
  lemma FreedIff(st: Output, results: seq<WriteResult>, unlimited: bool)
    requires Valid(st) && !st.gone
    ensures var r := WriteToClient(st, results, unlimited);
            r.gone <==> BrokenWrite(st, results, 0, unlimited) || (r.buf == [] && r.reply == [] && st.closeAfterReply)
  {
    DrainKeepsOrder(st, results, 0, unlimited);
    if Drain(st, results, 0, unlimited).2 == Failed {
      var k := FailsAt(st, results, 0, unlimited);
    }
    if BrokenWrite(st, results, 0, unlimited) {
      var k: nat :| Attempted(st, results, 0, unlimited, k) && results[k].Broken?;
      BrokenFails(st, results, 0, unlimited, k);
    }
    hide Drain, Attempted, BrokenWrite, Valid, Unsent;
  }

  /** Without empty blocks, nothing behind means nothing unsent. */
  lemma NothingUnsentIff(st: Output)
    requires Valid(st) && forall i :: 0 <= i < |st.reply| ==> st.reply[i] != []
    ensures Unsent(st) == [] <==> st.buf == [] && st.reply == []
  {
  }

  /** An empty block behind the fair share of an event keeps a client that has been sent everything. */
  lemma EmptyBlockDelaysClose(big: ByteString)
    requires |big| > NET_MAX_WRITES_PER_EVENT
    ensures var st := Output([], 0, [big, []], |big|, true, false, []);
            Valid(st) &&
            var r := WriteToClient(st, [Wrote(|big|)], false);
            Valid(r) && r.sent == big && Unsent(r) == [] && !r.gone
  {
    assert [big, []][1..] == [[]] && Join([[]]) == [] && big + [] == big && big[0..] == big && big[..|big|] == big;
  }

  /**
   The loop ends with nothing left, after the fair share of an event, or for want of a write
   that takes something: one took nothing, or all results are used up, each for a byte at least.
   */
  ghost predicate StopsWell(results: seq<WriteResult>, total: nat, unsent: nat, unlimited: bool, r: Output, sum: nat,
                            ending: Ending)
  {
    && (ending == Fine ==> (r.buf == [] && r.reply == []) || (sum > NET_MAX_WRITES_PER_EVENT && !unlimited))
    && (AllTook(results) ==> ending != Failed && (ending == Stalled ==> total + |results| <= sum < total + unsent))
  }

  lemma StopsAfter(results: seq<WriteResult>, total: nat, unsent: nat, unlimited: bool, r: Output, sum: nat,
                   ending: Ending, n: nat)
    requires results != [] && 0 < n <= unsent
    requires StopsWell(results[1..], total + n, unsent - n, unlimited, r, sum, ending)
    ensures StopsWell(results, total, unsent, unlimited, r, sum, ending)
  {
  }

  /** How the loop stops from a state. */
  ghost predicate EndsAsItShould(st: Output, results: seq<WriteResult>, total: nat, unlimited: bool)
    requires Valid(st)
  {
    var (r, sum, ending) := Drain(st, results, total, unlimited);
    StopsWell(results, total, |Unsent(st)|, unlimited, r, sum, ending)
  }

  lemma GoesOnWell(st: Output, results: seq<WriteResult>, total: nat, unlimited: bool)
    requires Valid(st) && Writing(st) && results != [] && Took(results[0])
    requires total + Taken(st, results[0]) <= NET_MAX_WRITES_PER_EVENT || unlimited
    requires var next := Advance(st, Taken(st, results[0]));
             Valid(next) && EndsAsItShould(next, results[1..], total + Taken(st, results[0]), unlimited)
    ensures EndsAsItShould(st, results, total, unlimited)
  {
    hide Drain, Valid, Unsent, Advance, Taken, StopsWell, Writing;
    var n := Taken(st, results[0]);
    TakenAdvances(st, results[0]);
    TookOn(st, results, total, unlimited);
    var (r, sum, ending) := Drain(st, results, total, unlimited);
    StopsAfter(results, total, |Unsent(st)|, unlimited, r, sum, ending, n);
  }

  lemma SkipsWell(st: Output, results: seq<WriteResult>, total: nat, unlimited: bool)
    requires Valid(st) && HasPending(st) && st.buf == [] && st.reply[0] == []
    ensures var next := st.(reply := st.reply[1..]);
            Valid(next)
            && (EndsAsItShould(next, results, total, unlimited) ==> EndsAsItShould(st, results, total, unlimited))
  {
    hide Drain, Valid, Unsent, StopsWell;
    EmptyIsSkipped(st, results, total, unlimited);
  }

  lemma {:induction false} DrainStops(st: Output, results: seq<WriteResult>, total: nat, unlimited: bool)
    requires Valid(st)
    ensures EndsAsItShould(st, results, total, unlimited)
    decreases |results|, |st.reply|
  {
    var pending, writing, took := HasPending(st), Writing(st), results != [] && Took(results[0]);
    hide *;
    if !pending || (writing && !took) {
      StopsAtOnce(st, results, total, unlimited);
    } else if !writing {
      Mode(st);
      SkipsWell(st, results, total, unlimited);
      DrainStops(st.(reply := st.reply[1..]), results, total, unlimited);
    } else if total + Taken(st, results[0]) > NET_MAX_WRITES_PER_EVENT && !unlimited {
      EndsEnough(st, results, total, unlimited);
    } else {
      var n := Taken(st, results[0]);
      TakenAdvances(st, results[0]);
      DrainStops(Advance(st, n), results[1..], total + n, unlimited);
      GoesOnWell(st, results, total, unlimited);
    }
  }

  lemma PendingIsLeft(st: Output)
    requires Valid(st) && HasPending(st) && (st.buf != [] || st.reply[0] != [])
    ensures Unsent(st) != []
  {
  }

  lemma StopsAtOnce(st: Output, results: seq<WriteResult>, total: nat, unlimited: bool)
    requires Valid(st) && (!HasPending(st) || (Writing(st) && (results == [] || !Took(results[0]))))
    ensures EndsAsItShould(st, results, total, unlimited)
  {
    if Writing(st) {
      PendingIsLeft(st);
    }
    hide Valid, Unsent;
  }

  lemma EndsEnough(st: Output, results: seq<WriteResult>, total: nat, unlimited: bool)
    requires Valid(st) && Writing(st) && results != [] && Took(results[0])
    requires total + Taken(st, results[0]) > NET_MAX_WRITES_PER_EVENT && !unlimited
    ensures EndsAsItShould(st, results, total, unlimited)
  {
    hide Drain, Valid, Unsent, Advance, Taken;
    TookEnough(st, results, total, unlimited);
  }

  /**
   Progress: when every write takes something and there are enough of them, everything is
   sent, or the fair share of an event when that is all the client gets.
   */
  lemma WillingSocketDrains(st: Output, results: seq<WriteResult>, unlimited: bool)
    requires Valid(st) && !st.gone && |results| >= |Unsent(st)| && AllTook(results)
    ensures var r := WriteToClient(st, results, unlimited);
            if r.buf == [] && r.reply == [] then r.sent == st.sent + Unsent(st) && r.gone == st.closeAfterReply
            else !unlimited && |r.sent| - |st.sent| > NET_MAX_WRITES_PER_EVENT && !r.gone
  {
    DrainStops(st, results, 0, unlimited);
    DrainKeepsOrder(st, results, 0, unlimited);
    var r := Drain(st, results, 0, unlimited).0;
    hide Drain;
    assert r.sent + [] == r.sent;
  }

  // ---------- runs ----------

  datatype Event = Queue(bytes: ByteString, glue: bool) | Writable(results: seq<WriteResult>, unlimited: bool)

  function Step(st: Output, e: Event): (r: Output)
    requires Valid(st)
    ensures Valid(r)
  {
    match e
    case Queue(bytes, glue) =>
      AddReplyAppends(st, bytes, glue);
      if st.gone then st else AddReply(st, bytes, glue)
    case Writable(results, unlimited) =>
      DrainKeepsOrder(st, results, 0, unlimited);
      WriteToClient(st, results, unlimited)
  }

  function Steps(st: Output, events: seq<Event>): (r: Output)
    requires Valid(st)
    ensures Valid(r)
    decreases |events|
  {
    if events == [] then st else Steps(Step(st, events[0]), events[1..])
  }

  /** The bytes queued by a run, while the client was there. */
  function Queued(st: Output, events: seq<Event>): ByteString
    requires Valid(st)
    decreases |events|
  {
    if events == [] then []
    else (if events[0].Queue? && !st.gone then events[0].bytes else []) + Queued(Step(st, events[0]), events[1..])
  }

  lemma WriteKeeps(st: Output, results: seq<WriteResult>, unlimited: bool)
    requires Valid(st)
    ensures var r := WriteToClient(st, results, unlimited);
            Valid(r) && r.sent + Unsent(r) == st.sent + Unsent(st)
  {
    DrainKeepsOrder(st, results, 0, unlimited);
    hide Drain, Join;
  }

  lemma StepKeepsOrder(st: Output, e: Event)
    requires Valid(st)
    ensures var r := Step(st, e);
            r.sent + Unsent(r) == st.sent + Unsent(st) + if e.Queue? && !st.gone then e.bytes else []
  {
    assert st.sent + Unsent(st) + [] == st.sent + Unsent(st);
    if e.Queue? {
      hide AddReply, Unsent, Valid;
      AddReplyAppends(st, e.bytes, e.glue);
      Associative(st.sent, Unsent(st), e.bytes);
    } else {
      assert Step(st, e) == WriteToClient(st, e.results, e.unlimited);
      hide *;
      WriteKeeps(st, e.results, e.unlimited);
    }
  }

  /** Reply order: over any run the peer gets a prefix of what was queued, in order. */
  lemma {:induction false} RepliesArriveInOrder(st: Output, events: seq<Event>)
    requires Valid(st)
    ensures var r := Steps(st, events);
            r.sent + Unsent(r) == st.sent + Unsent(st) + Queued(st, events)
    decreases |events|
  {
    hide Step, Unsent;
    if events == [] {
      assert st.sent + Unsent(st) + [] == st.sent + Unsent(st);
    } else {
      var next := Step(st, events[0]);
      StepKeepsOrder(st, events[0]);
      RepliesArriveInOrder(next, events[1..]);
      Associative(st.sent + Unsent(st), if events[0].Queue? && !st.gone then events[0].bytes else [],
                  Queued(next, events[1..]));
    }
  }
}

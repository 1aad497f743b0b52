/**
 The resumable request parser of redis/Cli-Server.md as a function of its state: one
 step reads a header or an argument from the front of the query buffer. The class in
 QueryClient.dfy is the code that works in place with a cursor, and is proved to
 compute this function.
 */
module QueryParser {
  import opened Options
  import opened Bytes
  import opened Resp

  const PROTO_INLINE_MAX_SIZE: nat := 65536
  const PROTO_IOBUF_LEN: nat := 16384
  const PROTO_MBULK_BIG_ARG: nat := 32768
  const MAX_ARGC: nat := 1048576

  /**
   The parser's part of a client. `skipped` is what the current call has already read
   but not yet trimmed: the size limits look at the whole buffer, skipped + buf.
   `bulklen` is -1 while the header of the next argument has not been read.
   */
  datatype Parse = Parse(
    skipped: ByteString, buf: ByteString,
    argv: seq<ByteString>, multibulklen: nat, bulklen: int)

  datatype Outcome = Ready | Incomplete | Rejected

  /** strchr(s, '\r'), which gives up at a NUL byte. */
  function FindCR(s: ByteString): (r: Option<nat>)
    ensures r.Some? ==> r.value < |s| && s[r.value] == CR
  {
    if s == [] || s[0] == 0 then None
    else if s[0] == CR then Some(0)
    else match FindCR(s[1..])
      case None => None
      case Some(i) => Some(i + 1)
  }

  /** Trims the bytes that were read, as every return of the parser but one does. */
  function Trim(p: Parse): Parse { p.(skipped := []) }

  /** The one rejection that leaves the buffer untrimmed. */
  function Untrim(p: Parse): Parse { p.(skipped := [], buf := p.skipped + p.buf) }

  /** A header of a big argument trims the buffer at once, any other one just advances. */
  function SkipBulkHeader(p: Parse, i: nat, len: int): Parse
    requires i + 2 <= |p.buf|
  {
    var skipped := if len >= PROTO_MBULK_BIG_ARG then [] else p.skipped + p.buf[..i + 2];
    p.(skipped := skipped, buf := p.buf[i + 2..], bulklen := len)
  }

  /** Reads the header of the next argument. */
  function ReadBulkHeader(p: Parse, maxBulk: int): (r: (Parse, Outcome))
    ensures r.1 == Incomplete ==> r.0 == p
    ensures r.1 == Ready ==> |r.0.buf| < |p.buf| && r.0.bulklen >= 0
    ensures r.1 == Rejected ==> |r.0.buf| <= |p.skipped| + |p.buf| && r.0.bulklen == p.bulklen
    ensures r.0.multibulklen == p.multibulklen && r.0.argv == p.argv
  {
    match FindCR(p.buf)
    case None =>
      if |p.skipped| + |p.buf| > PROTO_INLINE_MAX_SIZE then (Untrim(p), Rejected) else (p, Incomplete)
    case Some(i) =>
      if i + 2 > |p.buf| then (p, Incomplete)
      else if p.buf[0] != DOLLAR then (Trim(p), Rejected)
      else
        var len := String2ll(p.buf[1..i]);
        if len.None? || len.value < 0 || len.value > maxBulk then (Trim(p), Rejected)
        else (SkipBulkHeader(p, i, len.value), Ready)
  }

  /** The buffer holds one big argument and nothing else: it can become the argument. */
  predicate ExactlyBigArg(p: Parse) {
    p.skipped == [] && p.bulklen >= PROTO_MBULK_BIG_ARG && |p.buf| == p.bulklen + 2
  }

  function TakeArg(p: Parse): Parse
    requires p.multibulklen > 0 && 0 <= p.bulklen && p.bulklen + 2 <= |p.buf|
  {
    var skipped := if ExactlyBigArg(p) then [] else p.skipped + p.buf[..p.bulklen + 2];
    Parse(skipped, p.buf[p.bulklen + 2..], p.argv + [p.buf[..p.bulklen]], p.multibulklen - 1, -1)
  }

  /** Reads arguments until none is missing, the buffer runs dry, or the client errs. */
  function ReadArgs(p: Parse, maxBulk: int): (r: (Parse, Outcome))
    ensures r.0.skipped == []
    ensures r.1 != Rejected ==> |r.0.buf| <= |p.buf|
    ensures r.1 == Rejected ==> |r.0.buf| <= |p.skipped| + |p.buf|
    ensures r.1 == Ready && p.multibulklen > 0 && p.bulklen >= -1 ==> |r.0.buf| < |p.buf|
    ensures r.1 == Ready ==> r.0.multibulklen == 0
    ensures r.1 == Incomplete ==> r.0.multibulklen > 0
    ensures p.bulklen >= -1 && (p.multibulklen == 0 ==> p.bulklen == -1)
            ==> r.0.bulklen >= -1 && (r.0.multibulklen == 0 ==> r.0.bulklen == -1)
    decreases p.multibulklen, if p.bulklen == -1 then 1 else 0
  {
    if p.multibulklen == 0 then (Trim(p), Ready)
    else if p.bulklen == -1 then
      var (q, outcome) := ReadBulkHeader(p, maxBulk);
      if outcome == Ready then ReadArgs(q, maxBulk) else (Trim(q), outcome)
    else if p.bulklen < 0 || |p.buf| < p.bulklen + 2 then (Trim(p), Incomplete)
    else ReadArgs(TakeArg(p), maxBulk)
  }

  /** processMultibulkBuffer: the argument count when it is unknown, then the arguments. */
  function ReadCommand(p: Parse, maxBulk: int): (r: (Parse, Outcome))
    requires p.skipped == [] && p.bulklen >= -1 && (p.multibulklen == 0 ==> p.bulklen == -1)
    requires p.multibulklen == 0 ==> p.buf != [] && p.buf[0] == STAR
    ensures r.0.skipped == [] && |r.0.buf| <= |p.buf|
    ensures r.1 == Ready ==> |r.0.buf| < |p.buf| && r.0.multibulklen == 0 && r.0.bulklen == -1
    ensures r.1 == Incomplete && r.0.multibulklen == 0 ==> r.0 == p
    ensures r.0.bulklen >= -1 && (r.0.multibulklen == 0 ==> r.0.bulklen == -1)
  {
    if p.multibulklen == 0 then
      match FindCR(p.buf)
      case None => (p, if |p.buf| > PROTO_INLINE_MAX_SIZE then Rejected else Incomplete)
      case Some(i) =>
        if i + 2 > |p.buf| then (p, Incomplete)
        else
          var count := String2ll(p.buf[1..i]);
          if count.None? || count.value > MAX_ARGC then (p, Rejected)
          else if count.value <= 0 then (p.(buf := p.buf[i + 2..]), Ready)
          else ReadArgs(Parse(p.buf[..i + 2], p.buf[i + 2..], p.argv, count.value, -1), maxBulk)
    else ReadArgs(p, maxBulk)
  }

  // ---------- reading a well-formed stream ----------

  lemma {:induction false} FindCRAfter(s: ByteString, k: nat)
    requires k <= |s|
    requires forall i :: 0 <= i < k ==> s[i] != CR && s[i] != 0
    ensures k == |s| ==> FindCR(s) == None
    ensures k < |s| && s[k] == CR ==> FindCR(s) == Some(k)
  {
    if k > 0 {
      FindCRAfter(s[1..], k - 1);
    }
  }

  lemma HeaderShape(prefix: byte, n: nat, i: nat)
    requires prefix != CR && prefix != 0 && i < |Header(prefix, n)| - 1
    ensures i < |Header(prefix, n)| - 2 ==> Header(prefix, n)[i] != CR && Header(prefix, n)[i] != 0
    ensures i == |Header(prefix, n)| - 2 ==> Header(prefix, n)[i] == CR
  {
    if 0 < i < |Header(prefix, n)| - 2 {
      assert Header(prefix, n)[i] == Decimal(n)[i - 1] && IsDigit(Decimal(n)[i - 1]);
    }
  }

  /** Within a prefix of header + rest, the end of the header is the first CR. */
  lemma HeaderFind(prefix: byte, n: nat, rest: ByteString, buf: ByteString, t: ByteString)
    requires prefix != CR && prefix != 0
    requires buf + t == Header(prefix, n) + rest
    ensures FindCR(buf) == if |buf| < |Header(prefix, n)| - 1 then None else Some(|Header(prefix, n)| - 2)
  {
    var header := Header(prefix, n);
    var h := |header|;
    var k := if |buf| < h - 2 then |buf| else h - 2;
    forall i | 0 <= i < h - 1 && i < |buf|
      ensures if i < h - 2 then buf[i] != CR && buf[i] != 0 else buf[i] == CR
    {
      assert buf[i] == (buf + t)[i] == (header + rest)[i] == header[i];
      HeaderShape(prefix, n, i);
    }
    FindCRAfter(buf, k);
  }

  lemma HeaderRead(prefix: byte, n: nat, buf: ByteString, h: nat)
    requires n <= INT64_MAX && h == |Header(prefix, n)| <= |buf| && buf[..h] == Header(prefix, n)
    ensures buf[0] == prefix && String2ll(buf[1..h - 2]) == Some(n)
  {
    var header := Header(prefix, n);
    assert buf[0] == buf[..h][0] == header[0];
    assert header[1..h - 2] == Decimal(n);
    SliceOfPrefix(buf, h, 1, h - 2);
    String2llNatural(n);
  }

  /** A header is found and read when all of it has arrived, and is waited for otherwise. */
  lemma HeaderScan(prefix: byte, n: nat, rest: ByteString, buf: ByteString, t: ByteString)
    requires prefix != CR && prefix != 0 && n <= INT64_MAX
    requires buf + t == Header(prefix, n) + rest
    ensures var h := |Header(prefix, n)|;
            if |buf| >= h then
              FindCR(buf) == Some(h - 2) && buf[0] == prefix
              && String2ll(buf[1..h - 2]) == Some(n) && buf[h..] + t == rest
            else FindCR(buf) == None || (FindCR(buf) == Some(h - 2) && |buf| == h - 1)
  {
    HeaderFind(prefix, n, rest, buf, t);
    var header := Header(prefix, n);
    if |buf| >= |header| {
      Front(buf, t, header, rest);
      HeaderRead(prefix, n, buf, |header|);
    }
  }

  /** What is left of `cmd` after `n` arguments, and the header of the next one if read. */
  function ArgsLeft(cmd: Command, n: nat, headerRead: bool): ByteString
    requires n <= |cmd| && (headerRead ==> n < |cmd|)
  {
    if headerRead then cmd[n] + CRLF + EncodeBulks(cmd[n + 1..]) else EncodeBulks(cmd[n..])
  }

  /** `p` is somewhere inside `cmd`, and buf + t is what follows, up to the end of `tail`. */
  ghost predicate Inside(p: Parse, cmd: Command, tail: ByteString, t: ByteString) {
    && |p.argv| + p.multibulklen == |cmd| && p.argv == cmd[..|p.argv|]
    && (p.bulklen == -1 || (p.multibulklen > 0 && p.bulklen == |cmd[|p.argv|]|))
    && p.buf + t == ArgsLeft(cmd, |p.argv|, p.bulklen != -1) + tail
  }

  /** The size check on a partial bulk header cannot fire from here. */
  predicate Roomy(p: Parse) {
    || |p.skipped| + |p.buf| <= PROTO_INLINE_MAX_SIZE
    || (p.skipped == [] && p.bulklen >= PROTO_MBULK_BIG_ARG && |p.buf| <= p.bulklen + 2)
  }

  /** The next item, a bulk header or an argument, is not complete in the buffer. */
  ghost predicate Starved(p: Parse, cmd: Command)
    requires |p.argv| < |cmd|
  {
    if p.bulklen == -1 then |p.buf| < |Header(DOLLAR, |cmd[|p.argv|]|)| else |p.buf| < p.bulklen + 2
  }

  predicate Fits(cmd: Command, maxBulk: int) {
    0 < |cmd| <= MAX_ARGC && forall i :: 0 <= i < |cmd| ==> |cmd[i]| <= maxBulk
  }

  lemma NextBulk(cmd: Command, n: nat)
    requires n < |cmd|
    ensures ArgsLeft(cmd, n, false) == Header(DOLLAR, |cmd[n]|) + ArgsLeft(cmd, n, true)
  {
    assert cmd[n..][0] == cmd[n] && cmd[n..][1..] == cmd[n + 1..];
    Associative(Header(DOLLAR, |cmd[n]|) + cmd[n], CRLF, EncodeBulks(cmd[n + 1..]));
    Associative(Header(DOLLAR, |cmd[n]|), cmd[n], CRLF + EncodeBulks(cmd[n + 1..]));
    Associative(cmd[n], CRLF, EncodeBulks(cmd[n + 1..]));
  }

  /** Inside a command that fits, a bulk header is read as it was written, or waited for. */
  lemma ReadBulkHeaderFollows(p: Parse, maxBulk: int, cmd: Command, tail: ByteString, t: ByteString)
    requires Inside(p, cmd, tail, t) && Roomy(p) && Fits(cmd, maxBulk) && maxBulk <= INT64_MAX
    requires p.multibulklen > 0 && p.bulklen == -1
    ensures var (q, o) := ReadBulkHeader(p, maxBulk);
            match o
            case Rejected => false
            case Ready => Inside(q, cmd, tail, t) && Roomy(q) && q.bulklen >= 0
            case Incomplete => Starved(p, cmd)
  {
    var arg := cmd[|p.argv|];
    NextBulk(cmd, |p.argv|);
    var rest := ArgsLeft(cmd, |p.argv|, true);
    Associative(Header(DOLLAR, |arg|), rest, tail);
    HeaderScan(DOLLAR, |arg|, rest + tail, p.buf, t);
  }

  lemma TakeArgInside(p: Parse, cmd: Command, tail: ByteString, t: ByteString)
    requires Inside(p, cmd, tail, t) && p.bulklen >= 0 && |p.buf| >= p.bulklen + 2
    ensures Inside(TakeArg(p), cmd, tail, t)
  {
    var n := |p.argv|;
    var rest := EncodeBulks(cmd[n + 1..]);
    var item := cmd[n] + CRLF;
    assert p.buf + t == item + (rest + tail);
    Front(p.buf, t, item, rest + tail);
    assert p.buf[..p.bulklen] == p.buf[..|item|][..p.bulklen] == cmd[n];
    assert cmd[..n + 1] == cmd[..n] + [cmd[n]];
  }

  /**
   Inside a command that fits, the parser never rejects: it either completes the
   command or stops at an item that has not fully arrived.
   */
  lemma {:induction false} ReadArgsFollows(p: Parse, maxBulk: int, cmd: Command, tail: ByteString, t: ByteString)
    requires Inside(p, cmd, tail, t) && Roomy(p) && Fits(cmd, maxBulk) && maxBulk <= INT64_MAX
    ensures var (q, o) := ReadArgs(p, maxBulk);
            match o
            case Rejected => false
            case Ready => q.argv == cmd && q.bulklen == -1 && q.buf + t == tail
            case Incomplete => q.multibulklen > 0 && Inside(q, cmd, tail, t) && Starved(q, cmd)
    decreases p.multibulklen, if p.bulklen == -1 then 1 else 0
  {
    if p.multibulklen == 0 {
      assert cmd[|cmd|..] == [];
      assert cmd[..|cmd|] == cmd;
    } else if p.bulklen == -1 {
      ReadBulkHeaderFollows(p, maxBulk, cmd, tail, t);
      var (q, o) := ReadBulkHeader(p, maxBulk);
      if o == Ready {
        ReadArgsFollows(q, maxBulk, cmd, tail, t);
      }
    } else if |p.buf| >= p.bulklen + 2 {
      TakeArgInside(p, cmd, tail, t);
      ReadArgsFollows(TakeArg(p), maxBulk, cmd, tail, t);
    }
  }
}

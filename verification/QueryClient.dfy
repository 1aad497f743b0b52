/**
 A connected client as the server keeps it: fields that readQueryFromClient,
 processInputBuffer and processMultibulkBuffer update in place. The parser walks the
 query buffer with a cursor and trims it once; a big argument alone in the buffer
 becomes the argument without being copied.
 */
module QueryClient {
  import opened Options
  import opened Bytes
  import opened Resp
  import opened QueryParser
  import opened RequestLoop

  /** The client after a parse: its fields from the parser, and the mark of a rejection. */
  function After(st: State, p: Parse, outcome: Outcome): State {
    var parsed := WithParse(st, p);
    if outcome.Rejected? then parsed.(flags := parsed.flags.(closing := true)) else parsed
  }

  class Client {
    const cfg: Config
    var querybuf: ByteString
    var argv: seq<ByteString>
    var multibulklen: nat
    var bulklen: int
    var reqtype: RequestType
    var flags: Flags
    var gone: bool
    var reploff: int
    var readReploff: int
    var pendingQuerybuf: ByteString
    var executed: seq<Command>
    var forwarded: ByteString

    function Current(): State
      reads this
    {
      State(querybuf, argv, multibulklen, bulklen, reqtype, flags, gone,
            reploff, readReploff, pendingQuerybuf, executed, forwarded)
    }

    constructor (cfg: Config, offset: int)
      ensures this.cfg == cfg && Current() == Fresh(offset)
    {
      this.cfg := cfg;
      querybuf, argv, multibulklen, bulklen, reqtype := [], [], 0, -1, Unknown;
      flags, gone := Flags(false, false, false, false, false), false;
      reploff, readReploff, pendingQuerybuf := offset, offset, [];
      executed, forwarded := [], [];
    }

    /** The parser's view of the buffer when `pos` bytes of it have been read. */
    function Cursor(pos: nat): Parse
      requires pos <= |querybuf|
      reads this
    {
      Parse(querybuf[..pos], querybuf[pos..], argv, multibulklen, bulklen)
    }

    /** Drops the offending bytes and marks the client to be closed after the reply. */
    method SetProtocolError(pos: nat)
      requires pos <= |querybuf|
      modifies `querybuf, `flags
      ensures querybuf == old(querybuf[pos..]) && flags == old(flags).(closing := true)
    {
      querybuf := querybuf[pos..];
      flags := flags.(closing := true);
    }

    method ResetClient()
      modifies this
      ensures Current() == Reset(old(Current()))
    {
      argv, multibulklen, bulklen, reqtype := [], 0, -1, Unknown;
    }

    /** The argument count; `pos` is past its line, or 0 when there is nothing to read on. */
    method ReadCount() returns (pos: nat, outcome: Outcome)
      requires multibulklen == 0 && bulklen == -1 && argv == []
      requires querybuf != [] && querybuf[0] == STAR
      modifies this
      ensures var (p, o) := ReadCommand(ToParse(old(Current())), cfg.maxBulk);
              if multibulklen > 0 then
                && outcome == Ready && pos <= |querybuf|
                && (p, o) == ReadArgs(Cursor(pos), cfg.maxBulk)
                && Current() == old(Current()).(multibulklen := multibulklen)
              else outcome == o && Current() == After(old(Current()), p, o)
    {
      hide ReadArgs, String2ll, FindCR;
      var newline := FindCR(querybuf);
      if newline.None? {
        if |querybuf| > PROTO_INLINE_MAX_SIZE {
          SetProtocolError(0);
          return 0, Rejected;
        }
        return 0, Incomplete;
      }
      if newline.value + 2 > |querybuf| {
        return 0, Incomplete;
      }
      var ll := String2ll(querybuf[1..newline.value]);
      if ll.None? || ll.value > MAX_ARGC {
        SetProtocolError(0);
        return 0, Rejected;
      }
      pos, outcome := newline.value + 2, Ready;
      if ll.value <= 0 {
        querybuf := querybuf[pos..];
        return;
      }
      multibulklen := ll.value;
      argv := [];
    }

    method ProcessMultibulkBuffer() returns (ok: bool)
      requires Valid(Current()) && !Stopped(Current(), cfg) && reqtype.Multibulk?
      modifies this
      ensures var (p, outcome) := ReadCommand(ToParse(old(Current())), cfg.maxBulk);
              ok == outcome.Ready? && Current() == After(old(Current()), p, outcome)
    {
      var pos: nat := 0;
      if multibulklen == 0 {
        var outcome;
        pos, outcome := ReadCount();
        if multibulklen == 0 {
          return outcome == Ready;
        }
      }
      ok := ReadArguments(pos);
    }

    /** The header of the next argument, from the cursor on; trims when the argument is big. */
    method ReadHeader(start: nat) returns (pos: nat, outcome: Outcome)
      requires start <= |querybuf|
      modifies `querybuf, `bulklen, `flags
      ensures pos <= |querybuf|
      ensures var (p, o) := ReadBulkHeader(old(Cursor(start)), cfg.maxBulk);
              && outcome == o
              && (o == Ready ==> Cursor(pos) == p && flags == old(flags))
              && (o == Incomplete ==> pos == start && Current() == old(Current()))
              && (o == Rejected ==> querybuf == p.buf && bulklen == old(bulklen) && flags == old(flags).(closing := true))
    {
      pos := start;
      var newline := FindCR(querybuf[pos..]);
      if newline.None? {
        if |querybuf| > PROTO_INLINE_MAX_SIZE {
          assert querybuf[..pos] + querybuf[pos..] == querybuf;
          SetProtocolError(0);
          return 0, Rejected;
        }
        return pos, Incomplete;
      }
      if newline.value + 2 > |querybuf| - pos {
        return pos, Incomplete;
      }
      if querybuf[pos] != DOLLAR {
        SetProtocolError(pos);
        return 0, Rejected;
      }
      var ll := String2ll(querybuf[pos + 1..pos + newline.value]);
      assert querybuf[pos..][1..newline.value] == querybuf[pos + 1..pos + newline.value];
      if ll.None? || ll.value < 0 || ll.value > cfg.maxBulk {
        SetProtocolError(pos);
        return 0, Rejected;
      }
      Slices(querybuf, pos, pos + newline.value + 2);
      pos := pos + newline.value + 2;
      if ll.value >= PROTO_MBULK_BIG_ARG {
        querybuf := querybuf[pos..];
        pos := 0;
      }
      bulklen := ll.value;
      outcome := Ready;
    }

    /** The next argument: copied out of the buffer, or the buffer itself, less its CRLF. */
    method TakeArgument(start: nat) returns (pos: nat)
      requires multibulklen > 0 && 0 <= bulklen && start + bulklen + 2 <= |querybuf|
      modifies `querybuf, `argv, `bulklen, `multibulklen
      ensures pos <= |querybuf| && Cursor(pos) == TakeArg(old(Cursor(start)))
    {
      pos := start;
      if pos == 0 && bulklen >= PROTO_MBULK_BIG_ARG && |querybuf| == bulklen + 2 {
        var whole := querybuf;
        querybuf := [];
        argv := argv + [whole[..|whole| - 2]];
      } else {
        Slices(querybuf, pos, pos + bulklen);
        Slices(querybuf, pos, pos + bulklen + 2);
        argv := argv + [querybuf[pos..pos + bulklen]];
        pos := pos + bulklen + 2;
      }
      bulklen := -1;
      multibulklen := multibulklen - 1;
    }

    /** One turn of the loop: a header if it is due, then an argument if all of it is there. */
    method ReadNext(start: nat) returns (pos: nat, outcome: Outcome)
      requires start <= |querybuf| && multibulklen > 0 && bulklen >= -1
      modifies `querybuf, `argv, `bulklen, `multibulklen, `flags
      ensures pos <= |querybuf| && bulklen >= -1
      ensures outcome.Ready? ==>
                && ReadArgs(Cursor(pos), cfg.maxBulk) == ReadArgs(old(Cursor(start)), cfg.maxBulk)
                && multibulklen == old(multibulklen) - 1 && flags == old(flags)
      ensures outcome.Incomplete? ==>
                && (Trim(Cursor(pos)), Incomplete) == ReadArgs(old(Cursor(start)), cfg.maxBulk)
                && multibulklen > 0 && flags == old(flags)
      ensures outcome.Rejected? ==>
                var (p, o) := ReadArgs(old(Cursor(start)), cfg.maxBulk);
                o.Rejected? && Current() == After(old(Current()), p, o)
    {
      pos := start;
      if bulklen == -1 {
        pos, outcome := ReadHeader(pos);
        if outcome != Ready {
          return;
        }
      }
      if |querybuf| - pos < bulklen + 2 {
        return pos, Incomplete;
      }
      pos := TakeArgument(pos);
      outcome := Ready;
    }

    /** The loop, and the trim that every way out of it but one ends with. */
    method ReadArguments(start: nat) returns (ok: bool)
      requires start <= |querybuf| && multibulklen > 0 && bulklen >= -1
      modifies this
      ensures var (p, outcome) := ReadArgs(old(Cursor(start)), cfg.maxBulk);
              ok == outcome.Ready? && Current() == After(old(Current()), p, outcome)
    {
      hide ReadBulkHeader, TakeArg;
      var pos: nat := start;
      while multibulklen != 0
        invariant pos <= |querybuf| && bulklen >= -1
        invariant ReadArgs(Cursor(pos), cfg.maxBulk) == ReadArgs(old(Cursor(start)), cfg.maxBulk)
        invariant Current() == WithParse(old(Current()), Cursor(pos)).(querybuf := querybuf)
        decreases multibulklen
      {
        var outcome;
        pos, outcome := ReadNext(pos);
        if outcome == Rejected {
          return false;
        }
        if outcome == Incomplete {
          break;
        }
      }
      if pos != 0 {
        querybuf := querybuf[pos..];
      }
      ok := multibulklen == 0;
    }

    /** Executes argv, unless it is empty; what the command does is up to the server. */
    method ProcessRequest()
      modifies this
      ensures Current() == Dispatch(old(Current()), cfg)
    {
      if argv == [] {
        ResetClient();
      } else {
        var effect := cfg.processCommand(executed, argv);
        executed := executed + [argv];
        if effect.Executed? {
          if cfg.master && !effect.flags.multi {
            reploff := readReploff - |querybuf|;
          }
          flags := effect.flags;
          if !(flags.blocked && flags.moduleBlocked) {
            ResetClient();
          }
        } else {
          flags, gone := effect.flags.(closing := true), effect.gone;
        }
      }
    }

    method ProcessInlineBuffer() returns (ok: bool)
      modifies this
      ensures match cfg.processInline(old(querybuf))
              case InlineMore => !ok && Current() == old(Current())
              case InlineBad(more) =>
                !ok && Current() == old(Current()).(
                  querybuf := old(querybuf)[Min(1 + more, |old(querybuf)|)..],
                  flags := old(flags).(closing := true))
              case InlineArgs(args, more) =>
                ok && Current() == old(Current()).(
                  querybuf := old(querybuf)[Min(1 + more, |old(querybuf)|)..], argv := args)
    {
      var result := cfg.processInline(querybuf);
      ok := result.InlineArgs?;
      match result {
        case InlineMore =>
        case InlineBad(more) => SetProtocolError(Min(1 + more, |querybuf|));
        case InlineArgs(args, more) =>
          querybuf := querybuf[Min(1 + more, |querybuf|)..];
          argv := args;
      }
    }

    /** The body of the loop of processInputBuffer: parse one request and run it. */
    method ProcessNext() returns (ok: bool)
      requires Valid(Current()) && !Stopped(Current(), cfg) && querybuf != []
      modifies this
      ensures (Current(), ok) == ProcessOne(old(Current()), cfg)
    {
      if reqtype.Unknown? {
        reqtype := if querybuf[0] == STAR then Multibulk else Inline;
      }
      if reqtype.Inline? {
        ok := ProcessInlineBuffer();
      } else {
        ok := ProcessMultibulkBuffer();
      }
      if ok {
        ProcessRequest();
      }
    }

    method ProcessInputBuffer()
      requires Valid(Current())
      modifies this
      ensures Current() == Process(old(Current()), cfg)
    {
      while |querybuf| != 0
        invariant Valid(Current())
        invariant Process(Current(), cfg) == Process(old(Current()), cfg)
        decreases |querybuf|
      {
        if gone || (!cfg.slave && flags.paused) || flags.blocked || flags.closing {
          break;
        }
        var ok := ProcessNext();
        if !ok {
          break;
        }
      }
    }

    /** Keeps a copy of a master's bytes, to forward what gets applied of them. */
    method StoreBytes(bytes: ByteString)
      modifies this
      ensures Current() == Received(old(Current()), cfg, bytes)
    {
      if cfg.master {
        pendingQuerybuf := pendingQuerybuf + bytes;
      }
      querybuf := querybuf + bytes;
      if cfg.master {
        readReploff := readReploff + |bytes|;
      }
    }

    /** replicationFeedSlavesFromMasterStream on the applied bytes, then forget them. */
    method FeedSlaves(applied: nat)
      requires applied <= |pendingQuerybuf|
      modifies `forwarded, `pendingQuerybuf
      ensures forwarded == old(forwarded + pendingQuerybuf[..applied])
      ensures pendingQuerybuf == old(pendingQuerybuf[applied..])
    {
      forwarded := forwarded + pendingQuerybuf[..applied];
      pendingQuerybuf := pendingQuerybuf[applied..];
    }

    /** `socket` answers read with at most the number of bytes it is asked for. */
    method ReadQueryFromClient(socket: int -> ReadResult)
      requires Valid(Current()) && Aligned(Current(), cfg) && !gone
      requires socket(ReadLen(Current())).Data? ==> 0 < |socket(ReadLen(Current())).bytes| <= ReadLen(Current())
      modifies this
      ensures Current() == Read(old(Current()), cfg, socket(ReadLen(old(Current()))))
    {
      var readlen: int := PROTO_IOBUF_LEN;
      if reqtype.Multibulk? && multibulklen != 0 && bulklen != -1 && bulklen >= PROTO_MBULK_BIG_ARG {
        var remaining := bulklen + 2 - |querybuf|;
        if remaining < readlen {
          readlen := remaining;
        }
      }
      var result := socket(readlen);
      if result.WouldBlock? {
        return;
      }
      if !result.Data? {
        gone := true;
        return;
      }
      ProcessBytes(result.bytes);
    }

    /** The part of readQueryFromClient after a read that brought bytes. */
    method ProcessBytes(bytes: ByteString)
      requires Valid(Current()) && Aligned(Current(), cfg) && !gone
      modifies this
      ensures Current() == Read(old(Current()), cfg, Data(bytes))
    {
      hide Process;
      StoreBytes(bytes);
      if |querybuf| > cfg.maxQuerybuf {
        gone := true;
        return;
      }
      var prevOffset := reploff;
      ProcessInputBuffer();
      if cfg.master && reploff != prevOffset {
        FeedSlaves(reploff - prevOffset);
      }
    }
  }
}

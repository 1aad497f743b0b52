/**
 What a replica's own slaves get to see of a master's stream of commands: whole commands
 and whole transactions, however the stream is cut into reads.
 */
module ReplicationStream {
  import opened Bytes
  import opened Resp
  import opened QueryParser
  import opened RequestLoop
  import opened RequestTheorems

  /** The link is outside of MULTI after it executed `cmds`. */
  predicate Outside(cfg: Config, cmds: seq<Command>) {
    cmds != [] ==>
      var effect := cfg.processCommand(cmds[..|cmds| - 1], cmds[|cmds| - 1]);
      effect.Executed? && !effect.flags.multi
  }

  /** How many of the first `k` commands come before the transaction that is still open after them. */
  function Applied(cfg: Config, cmds: seq<Command>, k: nat): (j: nat)
    requires k <= |cmds|
    ensures j <= k && Outside(cfg, cmds[..j])
  {
    if Outside(cfg, cmds[..k]) then k else Applied(cfg, cmds, k - 1)
  }

  /** The offsets count the stream: what was received of it, and what was applied. */
  ghost predicate Metered(st: State, cfg: Config, offset: int, cmds: seq<Command>, t: ByteString) {
    && |st.executed| <= |cmds|
    && st.readReploff + |t| == offset + |EncodeAll(cmds)|
    && st.reploff == offset + |EncodeAll(cmds[..Applied(cfg, cmds, |st.executed|)])|
  }

  /** Executing a command outside of MULTI applies everything up to its end, inside nothing. */
  lemma DispatchMetered(st: State, cfg: Config, offset: int, cmds: seq<Command>, t: ByteString)
    requires !Stopped(st, cfg) && Sendable(cfg, cmds) && cfg.master && Metered(st, cfg, offset, cmds, t)
    requires var k := |st.executed|;
             k < |cmds| && st.executed == cmds[..k] && st.argv == cmds[k]
             && st.querybuf + t == EncodeAll(cmds[k + 1..])
    ensures Metered(Dispatch(st, cfg), cfg, offset, cmds, t)
  {
    var k := |st.executed|;
    AppliedNext(cfg, cmds, k);
    assert Fits(cmds[k], cfg.maxBulk) && RunsOn(cfg, cfg.processCommand(cmds[..k], cmds[k]));
    hide EncodeAll, Sendable, Applied, Fits, RunsOn, Outside;
    SizeOfPrefix(cmds, k + 1);
    assert |st.querybuf| + |t| == |EncodeAll(cmds[k + 1..])|;
    MeteredDispatch(st, cfg, offset, cmds, t);
  }

  lemma AppliedNext(cfg: Config, cmds: seq<Command>, k: nat)
    requires k < |cmds|
    ensures var effect := cfg.processCommand(cmds[..k], cmds[k]);
            Applied(cfg, cmds, k + 1) == if effect.Executed? && !effect.flags.multi then k + 1 else Applied(cfg, cmds, k)
  {
    assert cmds[..k + 1][..k] == cmds[..k];
  }

  lemma MeteredDispatch(st: State, cfg: Config, offset: int, cmds: seq<Command>, t: ByteString)
    requires cfg.master && st.argv != [] && |st.executed| < |cmds|
    requires Metered(st, cfg, offset, cmds, t)
    requires var k := |st.executed|; var effect := cfg.processCommand(st.executed, st.argv);
             && effect.Executed?
             && st.readReploff - |st.querybuf| == offset + |EncodeAll(cmds[..k + 1])|
             && Applied(cfg, cmds, k + 1) == if !effect.flags.multi then k + 1 else Applied(cfg, cmds, k)
    ensures Metered(Dispatch(st, cfg), cfg, offset, cmds, t)
  {
    hide EncodeAll, Applied;
  }

  lemma ProcessOneMetered(st: State, cfg: Config, offset: int, cmds: seq<Command>, t: ByteString)
    requires Following(st, cfg, cmds, t) && Sendable(cfg, cmds) && cfg.master
    requires Roomy(ToParse(st)) && st.querybuf != [] && Metered(st, cfg, offset, cmds, t)
    ensures Metered(ProcessOne(st, cfg).0, cfg, offset, cmds, t)
  {
    hide ReadCommand, EncodeAll, Inside, Starved, Header, Dispatch, Sendable, Metered;
    var st1 := if st.reqtype.Unknown? then st.(reqtype := Multibulk) else st;
    ReadCommandFollows(st, cfg, cmds, t);
    var (q, o) := ReadCommand(ToParse(st1), cfg.maxBulk);
    assert ToParse(st1) == ToParse(st);
    assert ProcessOne(st, cfg) == MultibulkOne(st1, cfg);
    MeteredFrame(st, WithParse(st1, q), cfg, offset, cmds, t);
    if o == Ready {
      DispatchMetered(WithParse(st1, q), cfg, offset, cmds, t);
    }
  }

  lemma MeteredFrame(st: State, r: State, cfg: Config, offset: int, cmds: seq<Command>, t: ByteString)
    requires Metered(st, cfg, offset, cmds, t)
    requires r.executed == st.executed && r.readReploff == st.readReploff && r.reploff == st.reploff
    ensures Metered(r, cfg, offset, cmds, t)
  {
  }

  lemma {:induction false} ProcessMetered(st: State, cfg: Config, offset: int, cmds: seq<Command>, t: ByteString)
    requires Following(st, cfg, cmds, t) && Sendable(cfg, cmds) && cfg.master && Roomy(ToParse(st))
    requires Metered(st, cfg, offset, cmds, t)
    ensures Metered(Process(st, cfg), cfg, offset, cmds, t)
    decreases |st.querybuf|
  {
    if st.querybuf != [] {
      ProcessOneFollows(st, cfg, cmds, t);
      ProcessOneMetered(st, cfg, offset, cmds, t);
      hide ProcessOne, Metered, Sendable;
      var (r, more) := ProcessOne(st, cfg);
      if more {
        ProcessMetered(r, cfg, offset, cmds, t);
      }
    }
  }

  lemma ReadMetered(st: State, cfg: Config, offset: int, cmds: seq<Command>, chunk: ByteString, t: ByteString)
    requires Following(st, cfg, cmds, chunk + t) && Waiting(st, cmds) && Sendable(cfg, cmds) && Aligned(st, cfg)
    requires 0 < |chunk| <= ReadLen(st) && cfg.master && Metered(st, cfg, offset, cmds, chunk + t)
    ensures Metered(Read(st, cfg, Data(chunk)), cfg, offset, cmds, t)
  {
    ReadStaysRoomy(st, cfg, cmds, chunk, t);
    var st1 := Received(st, cfg, chunk);
    assert Metered(st1, cfg, offset, cmds, t);
    ProcessMetered(st1, cfg, offset, cmds, t);
    MeteredFrame(Process(st1, cfg), Read(st, cfg, Data(chunk)), cfg, offset, cmds, t);
  }

  lemma {:induction false} ReadAllMetered(st: State, cfg: Config, offset: int, cmds: seq<Command>,
                                          chunks: seq<ByteString>, t: ByteString)
    requires Following(st, cfg, cmds, Flatten(chunks) + t) && Waiting(st, cmds) && Sendable(cfg, cmds)
    requires Aligned(st, cfg) && CutToReads(st, cfg, chunks)
    requires cfg.master && Metered(st, cfg, offset, cmds, Flatten(chunks) + t)
    ensures Metered(ReadAll(st, cfg, DataOf(chunks)), cfg, offset, cmds, t)
    decreases |chunks|
  {
    if chunks == [] {
      assert [] + t == t;
    } else {
      Associative(chunks[0], Flatten(chunks[1..]), t);
      ReadAllFirst(st, cfg, chunks);
      ReadFollows(st, cfg, cmds, chunks[0], Flatten(chunks[1..]) + t);
      ReadMetered(st, cfg, offset, cmds, chunks[0], Flatten(chunks[1..]) + t);
      hide Metered, Following, Waiting, Sendable, Read;
      ReadAllMetered(Read(st, cfg, Data(chunks[0])), cfg, offset, cmds, chunks[1..], t);
    }
  }

  lemma StoredFirst(st: State, cfg: Config, chunks: seq<ByteString>)
    requires Valid(st) && Aligned(st, cfg) && !st.gone && chunks != []
    ensures Stored(st, cfg, DataOf(chunks)) == chunks[0] + Stored(Read(st, cfg, Data(chunks[0])), cfg, DataOf(chunks[1..]))
  {
    hide Read;
    assert DataOf(chunks)[0] == Data(chunks[0]) && DataOf(chunks)[1..] == DataOf(chunks[1..]);
  }

  lemma {:induction false} StoredChunks(st: State, cfg: Config, cmds: seq<Command>, chunks: seq<ByteString>, t: ByteString)
    requires Following(st, cfg, cmds, Flatten(chunks) + t) && Waiting(st, cmds) && Sendable(cfg, cmds)
    requires Aligned(st, cfg) && CutToReads(st, cfg, chunks)
    ensures Stored(st, cfg, DataOf(chunks)) == Flatten(chunks)
    decreases |chunks|
  {
    if chunks != [] {
      assert Valid(st) && !st.gone;
      hide Following, Waiting, Sendable, Read, Stored, ReadLen;
      Associative(chunks[0], Flatten(chunks[1..]), t);
      ReadFollows(st, cfg, cmds, chunks[0], Flatten(chunks[1..]) + t);
      StoredFirst(st, cfg, chunks);
      StoredChunks(Read(st, cfg, Data(chunks[0])), cfg, cmds, chunks[1..], t);
    }
  }

  /**
   A replica reads its master's stream of commands, cut in any way. At every moment its own
   slaves have been sent exactly the executed commands up to the last one that left no
   transaction open: never a part of a command, and never a part of a MULTI block.
   */
  lemma SlavesSeeWholeTransactions(cfg: Config, offset: int, cmds: seq<Command>, chunks: seq<ByteString>, t: ByteString)
    requires Sendable(cfg, cmds) && CutToReads(Fresh(offset), cfg, chunks) && cfg.master
    requires Flatten(chunks) + t == EncodeAll(cmds)
    ensures var r := ReadAll(Fresh(offset), cfg, DataOf(chunks));
            |r.executed| <= |cmds| && r.forwarded == EncodeAll(cmds[..Applied(cfg, cmds, |r.executed|)])
  {
    var st := Fresh(offset);
    FreshFollows(cfg, offset, cmds);
    StartIsMetered(cfg, offset, cmds);
    hide Following, Waiting, Sendable, CutToReads, EncodeAll, Stored, Flatten, ReadAll, Fresh, Metered, Forwards, Applied;
    ReadAllMetered(st, cfg, offset, cmds, chunks, t);
    StoredChunks(st, cfg, cmds, chunks, t);
    ReplicationForwarding(st, cfg, DataOf(chunks), offset, []);
    assert [] + Flatten(chunks) == Flatten(chunks);
    ForwardedWhole(ReadAll(st, cfg, DataOf(chunks)), cfg, offset, cmds, Flatten(chunks), t);
  }

  lemma ForwardedWhole(r: State, cfg: Config, offset: int, cmds: seq<Command>, arrived: ByteString, t: ByteString)
    requires Metered(r, cfg, offset, cmds, t) && Forwards(r, offset, arrived) && arrived + t == EncodeAll(cmds)
    ensures |r.executed| <= |cmds| && r.forwarded == EncodeAll(cmds[..Applied(cfg, cmds, |r.executed|)])
  {
    hide EncodeAll, Applied;
    PrefixOfStream(cmds, Applied(cfg, cmds, |r.executed|), arrived, t);
  }

  lemma StartIsMetered(cfg: Config, offset: int, cmds: seq<Command>)
    ensures Metered(Fresh(offset), cfg, offset, cmds, EncodeAll(cmds)) && Forwards(Fresh(offset), offset, [])
  {
    hide Applied, Outside;
    assert cmds[..0] == [] && EncodeAll(cmds[..0]) == [];
    hide EncodeAll;
  }

  lemma PrefixOfStream(cmds: seq<Command>, j: nat, arrived: ByteString, t: ByteString)
    requires j <= |cmds| && arrived + t == EncodeAll(cmds) && |EncodeAll(cmds[..j])| <= |arrived|
    ensures arrived[..|EncodeAll(cmds[..j])|] == EncodeAll(cmds[..j])
  {
    hide EncodeAll;
    assert cmds == cmds[..j] + cmds[j..];
    EncodeAllConcat(cmds[..j], cmds[j..]);
    Front(arrived, t, EncodeAll(cmds[..j]), EncodeAll(cmds[j..]));
  }
}

/**
 The server decodes the same format twice: from the network, byte by byte as it comes,
 and from its own log, through stdio. Both recover the same commands.
 */
module TwoDecoders {
  import opened Bytes
  import opened Resp
  import opened QueryParser
  import RequestLoop
  import opened RequestTheorems
  import Keyspace
  import opened AofLoader

  /**
   Whatever prefix of a stream of commands has arrived, in whatever chunks: a client that
   received it has executed exactly the commands the loader executes from a file holding
   it, binary payloads included.
   */
  lemma DecodersAgree(cfg: RequestLoop.Config, offset: int, cmds: seq<Command>, chunks: seq<ByteString>, t: ByteString,
                      srv: Keyspace.Server, setup: Setup, dbs: seq<Keyspace.Db>, now: int)
    requires Sendable(cfg, cmds) && CutToReads(RequestLoop.Fresh(offset), cfg, chunks)
    requires Flatten(chunks) + t == EncodeAll(cmds) && Flatten(chunks) != []
    requires |dbs| > 0 && forall i :: 0 <= i < |cmds| ==> srv.lookup(cmds[i][0]) != Keyspace.Unknown
    ensures RequestLoop.ReadAll(RequestLoop.Fresh(offset), cfg, DataOf(chunks)).executed
            == Load(srv, setup, Flatten(chunks), dbs, now).executed
  {
    forall i | 0 <= i < |cmds|
      ensures Storable(cmds[i])
    {
      assert Fits(cmds[i], cfg.maxBulk);
    }
    assert EncodeAll(cmds) != [] && Flatten(chunks) <= EncodeAll(cmds);
    hide Sendable, CutToReads, RequestLoop.ReadAll, Load, EncodeAll, Flatten, RequestLoop.Fresh, Complete;
    ChunkIndependence(cfg, offset, cmds, chunks, t);
    CrashRecovery(srv, setup, cmds, Flatten(chunks), dbs, now);
  }
}

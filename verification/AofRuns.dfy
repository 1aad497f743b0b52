/**
 The log and the dataset together, over whole runs: commands executed and fed, flushes,
 rewrites by a child process, crashes and restarts, in any order and with any failures.
 */
module AofRuns {
  import opened Options
  import opened Bytes
  import opened Resp
  import opened Keyspace
  import opened AofFeed
  import opened AofRewrite
  import opened AofLog
  import opened AofLoader
  import opened AofSkips

  datatype Env = Env(srv: Server, dump: Dumper, policy: Policy)

  /**
   `log` is the list of commands the file and the buffer stand for, `image` the dataset
   it replays to, `dbs` the server's dataset. For a running child, `base` and `since` are
   the commands it rewrites and those fed after the fork, `childImage` what they give.
   `left` and `childLeft` are the keys, by database, that the child of the last rewrite
   and the running child left out as expired, and that were not stored or deleted since.
   */
  datatype World = World(
    aof: Aof, log: seq<Command>, dbs: seq<Db>, image: seq<Db>,
    base: seq<Command>, since: seq<Command>, childImage: seq<Db>,
    left: seq<set<ByteString>>, childLeft: seq<set<ByteString>>)

  datatype Ev =
    | Write(e: Event)
    | FlushNow(call: FlushCall)
    | StartRewrite(orders: seq<seq<ByteString>>, now: int)
    | ChildMoves(step: ChildStep)
    | RewriteDone(done: DoneCall)
    /** A crash leaves the `i`th content the file has had, which is loaded at the next start. */
    | Restart(i: nat, setup: Setup, now: int)

  predicate Shaped(w: World) {
    |w.dbs| == |w.image| == |w.childImage| == |w.left| == |w.childLeft| && 0 < |w.dbs| <= INT64_MAX
  }

  function NothingLeft(n: nat): (r: seq<set<ByteString>>)
    ensures |r| == n
  {
    seq(n, _ => {})
  }

  ghost predicate CanFork(w: World, orders: seq<seq<ByteString>>) {
    w.aof.child.None? && AllIterate(orders, w.dbs) && forall i :: 0 <= i < |w.dbs| ==> WellTimed(w.dbs[i])
  }

  predicate SwapsIn(st: Aof, call: DoneCall) {
    st.child.Some? && st.child.value.phase.Finished? && call.openOk && call.diffOk && call.renameOk
  }

  function WriteStep(env: Env, w: World, e: Event): World
    requires Shaped(w) && Feedable(env.srv, |w.dbs|, e)
  {
    var cmds := Feed(env.srv, w.aof.selectedDb, e);
    var on, forked := w.aof.mode.On?, w.aof.child.Some?;
    World(Perform(w.aof, env.policy, OpAppend(e.dictid, EncodeAll(cmds))),
          if on then w.log + cmds else w.log,
          RunEvent(env.srv, w.dbs, e),
          if on then RunEvent(env.srv, w.image, e) else w.image,
          w.base,
          if forked then w.since + cmds else w.since,
          if forked then RunEvent(env.srv, w.childImage, e) else w.childImage,
          LeftAfter(env.srv, w.dbs, e, w.left),
          if forked then LeftAfter(env.srv, w.dbs, e, w.childLeft) else w.childLeft)
  }

  /** The log of a server that has just loaded `file`. */
  function FreshLog(file: ByteString): Aof {
    Aof(On, true, [], file, [file], |file|, -1, None, 0, 0, 0, true, |file|, false, true, false)
  }

  /** The next process starts from the file alone; when it cannot load it, it does not come up. */
  function RestartStep(env: Env, w: World, content: ByteString, setup: Setup, now: int): (r: World)
    requires Shaped(w)
    ensures Shaped(r) && |r.dbs| == |w.dbs|
  {
    var n := |w.dbs|;
    var out := Load(env.srv, setup, content, EmptyDbs(n), now);
    if out.fate.Loaded? || out.fate.EmptyFile? then
      World(FreshLog(out.file), out.executed, out.session.ks.dbs, Settled(env.srv, out.session, now).dbs,
            [], [], EmptyDbs(n), NothingLeft(n), NothingLeft(n))
    else w.(aof := w.aof.(exited := true, file := out.file, disk := w.aof.disk + [out.file]))
  }

  /** One step of the server or its child; what is not possible changes nothing. */
  ghost function Step(env: Env, w: World, ev: Ev): (r: World)
    requires Shaped(w)
    ensures Shaped(r) && |r.dbs| == |w.dbs|
  {
    if ev.Restart? then
      if ev.i < |w.aof.disk| then RestartStep(env, w, w.aof.disk[ev.i], ev.setup, ev.now) else w
    else if w.aof.exited then w
    else
      match ev
      case Write(e) => if Feedable(env.srv, |w.dbs|, e) then WriteStep(env, w, e) else w
      case FlushNow(call) => w.(aof := Perform(w.aof, env.policy, OpFlush(call)))
      case StartRewrite(orders, now) =>
        if !CanFork(w, orders) then w
        else
          var base := Rewrite(env.dump, w.dbs, orders, now);
          w.(aof := Perform(w.aof, env.policy, OpFork(EncodeAll(base))),
             base := base, since := [], childImage := KeptAll(w.dbs, now), childLeft := LeftOutAll(w.dbs, now))
      case ChildMoves(step) => w.(aof := Perform(w.aof, env.policy, OpChild(step)))
      case RewriteDone(call) =>
        var after := w.(aof := Perform(w.aof, env.policy, OpDone(call)));
        if SwapsIn(w.aof, call) then after.(log := w.base + w.since, image := w.childImage, left := w.childLeft)
        else after
  }

  ghost function Steps(env: Env, w: World, evs: seq<Ev>): (r: World)
    requires Shaped(w)
    ensures Shaped(r) && |r.dbs| == |w.dbs|
    decreases |evs|
  {
    if evs == [] then w else Steps(env, Step(env, w, evs[0]), evs[1..])
  }

  // ---------- the invariant ----------

  function Replayed(env: Env, n: nat, cmds: seq<Command>, later: int): (r: Keys)
    requires n > 0
    ensures InRange(r) && |r.dbs| == n
  {
    RunAll(env.srv, Keys(EmptyDbs(n), 0), cmds, later)
  }

  /** `cmds` replays to `image`, with the database known to the feeder selected. */
  predicate StandsFor(env: Env, cmds: seq<Command>, image: seq<Db>, selectedDb: int, later: int)
    requires |image| > 0
  {
    var r := Replayed(env, |image|, cmds, later);
    r.dbs == image && (selectedDb == -1 || selectedDb == r.selected)
  }

  ghost predicate Inv(env: Env, w: World, later: int) {
    && Shaped(w) && HasTable(env.srv) && DumpsValues(env.srv, env.dump) && DumpsTimeFree(env.srv, env.dump)
    && Conserves(w.aof, EncodeAll(w.log))
    && StandsFor(env, w.log, w.image, if w.aof.mode.On? then w.aof.selectedDb else -1, later)
    && AllTimeFree(env.srv, w.log)
    && (w.aof.child.Some? ==>
          && AllTimeFree(env.srv, w.base) && AllTimeFree(env.srv, w.since)
          && w.aof.child.value.base == EncodeAll(w.base)
          && HandsOver(w.aof.child.value, EncodeAll(w.since))
          && StandsFor(env, w.base + w.since, w.childImage, w.aof.selectedDb, later))
  }

  lemma FeedExtends(env: Env, cmds: seq<Command>, image: seq<Db>, selectedDb: int, e: Event, later: int)
    requires HasTable(env.srv) && |image| > 0 && Feedable(env.srv, |image|, e)
    requires StandsFor(env, cmds, image, selectedDb, later)
    ensures StandsFor(env, cmds + Feed(env.srv, selectedDb, e), RunEvent(env.srv, image, e), e.dictid, later)
  {
    var start := Keys(EmptyDbs(|image|), 0);
    RunAllConcat(env.srv, start, cmds, Feed(env.srv, selectedDb, e), later);
    FeedRuns(env.srv, RunAll(env.srv, start, cmds, later), selectedDb, e, later);
  }

  lemma WriteKeepsInv(env: Env, w: World, e: Event, later: int)
    requires Inv(env, w, later) && !w.aof.exited && Feedable(env.srv, |w.dbs|, e)
    ensures Inv(env, WriteStep(env, w, e), later)
  {
    hide Feed, RunEvent, StandsFor, EncodeAll;
    var sel := w.aof.selectedDb;
    var cmds := Feed(env.srv, sel, e);
    var bytes := EncodeAll(cmds);
    EncodeAllConcat(w.log, cmds);
    assert EncodeAll(w.log) + [] == EncodeAll(w.log);
    AppendConserves(w.aof, e.dictid, bytes, EncodeAll(w.log));
    FeedIsTimeFree(env.srv, sel, e);
    if w.aof.mode.On? {
      FeedExtends(env, w.log, w.image, sel, e, later);
    }
    if w.aof.child.Some? {
      AppendHandsOver(w.aof.child.value, bytes, EncodeAll(w.since));
      EncodeAllConcat(w.since, cmds);
      FeedExtends(env, w.base + w.since, w.childImage, sel, e, later);
      assert w.base + w.since + cmds == w.base + (w.since + cmds);
    }
  }

  lemma EncodeNothing()
    ensures EncodeAll([]) == []
  {
  }

  lemma RewriteFits(env: Env, w: World, orders: seq<seq<ByteString>>, now: int)
    requires HasTable(env.srv) && DumpsTimeFree(env.srv, env.dump) && AllIterate(orders, w.dbs)
    ensures AllTimeFree(env.srv, Rewrite(env.dump, w.dbs, orders, now))
  {
    RewriteIsTimeFree(env.srv, env.dump, w.dbs, orders, now, 0);
  }

  lemma ForkKeepsInv(env: Env, w: World, orders: seq<seq<ByteString>>, now: int, later: int)
    requires Inv(env, w, later) && !w.aof.exited && CanFork(w, orders)
    ensures Inv(env, Step(env, w, StartRewrite(orders, now)), later)
  {
    hide RunAll, Rewrite, Kept, EncodeAll, AllIterate, WellTimed, TimeFree, LeftOutAll;
    assert AllTimeFree(env.srv, Rewrite(env.dump, w.dbs, orders, now)) by {
      RewriteFits(env, w, orders, now);
    }
    var base := Rewrite(env.dump, w.dbs, orders, now);
    RewritePreservesMeaning(env.srv, env.dump, w.dbs, orders, now, later);
    assert EncodeAll([]) == [] by { EncodeNothing(); }
    assert base + [] == base;
    assert |KeptAll(w.dbs, now)| == |w.dbs|;
    assert StandsFor(env, base + [], KeptAll(w.dbs, now), -1, later);
  }

  lemma AnySelected(env: Env, cmds: seq<Command>, image: seq<Db>, selectedDb: int, later: int)
    requires |image| > 0 && StandsFor(env, cmds, image, selectedDb, later)
    ensures StandsFor(env, cmds, image, -1, later)
  {
  }

  lemma SwapKeepsInv(env: Env, w: World, call: DoneCall, later: int)
    requires Inv(env, w, later) && !w.aof.exited && SwapsIn(w.aof, call)
    ensures Inv(env, Step(env, w, RewriteDone(call)), later)
    ensures Step(env, w, RewriteDone(call)).aof.file == EncodeAll(w.base + w.since)
  {
    hide Conserves, HandsOver, Done, RunAll, StandsFor, EncodeAll, TimeFree, RestartStep, WriteStep, CanFork;
    SwapConserves(w.aof, call, EncodeAll(w.since), EncodeAll(w.log));
    EncodeAllConcat(w.base, w.since);
    AnySelected(env, w.base + w.since, w.childImage, w.aof.selectedDb, later);
    assert AllTimeFree(env.srv, w.base + w.since);
  }

  lemma FlushKeepsInv(env: Env, w: World, call: FlushCall, later: int)
    requires Inv(env, w, later) && !w.aof.exited
    ensures Inv(env, Step(env, w, FlushNow(call)), later)
  {
    hide StandsFor, Conserves, AttemptWrite, TimeFree, RestartStep, WriteStep, EncodeAll;
    FlushConserves(w.aof, env.policy, call, EncodeAll(w.log));
  }

  lemma ChildKeepsInv(env: Env, w: World, step: ChildStep, later: int)
    requires Inv(env, w, later) && !w.aof.exited
    ensures Inv(env, Step(env, w, ChildMoves(step)), later)
  {
    hide StandsFor, StepChild, HandsOver, TimeFree, RestartStep, WriteStep, EncodeAll, History;
    if w.aof.child.Some? {
      StepChildHandsOver(w.aof.child.value, step, EncodeAll(w.since));
    }
  }

  lemma DoneKeepsInv(env: Env, w: World, call: DoneCall, later: int)
    requires Inv(env, w, later) && !w.aof.exited
    ensures Inv(env, Step(env, w, RewriteDone(call)), later)
  {
    if SwapsIn(w.aof, call) {
      SwapKeepsInv(env, w, call, later);
    } else {
      DoneWithoutSwapConserves(w.aof, call, EncodeAll(w.log));
      hide StandsFor, Conserves, HandsOver, Done;
    }
  }

  /** What a load of any content of the file makes of the log. */
  lemma LoadGivesPrefix(env: Env, w: World, content: ByteString, setup: Setup, now: int, later: int)
    requires Inv(env, w, later) && content in w.aof.disk && Known(env.srv, w.log)
    ensures var out := Load(env.srv, setup, content, EmptyDbs(|w.dbs|), now);
            && AllTimeFree(env.srv, out.executed) && out.file <= EncodeAll(w.log)
            && (out.fate.Loaded? || out.fate.EmptyFile? || out.fate.Exited?)
            && (!out.fate.Exited? ==> out.file == EncodeAll(out.executed))
            && out.session == ReplayAll(env.srv, Session(Keys(EmptyDbs(|w.dbs|), 0), None), out.executed, now)
  {
    assert content <= EncodeAll(w.log);
    if content != [] {
      hide Load, EncodeAll, ReplayAll, TimeFree;
      LoadedFile(env.srv, setup, w.log, content, EmptyDbs(|w.dbs|), now);
    }
  }

  lemma RestartKeepsInv(env: Env, w: World, content: ByteString, setup: Setup, now: int, later: int)
    requires Inv(env, w, later) && content in w.aof.disk && Known(env.srv, w.log)
    ensures Inv(env, RestartStep(env, w, content, setup, now), later)
  {
    LoadGivesPrefix(env, w, content, setup, now, later);
    var n := |w.dbs|;
    var out := Load(env.srv, setup, content, EmptyDbs(n), now);
    var start := Session(Keys(EmptyDbs(n), 0), None);
    hide Load, ReplayAll, EncodeAll, TimeFree, RunAll, HandsOver;
    if out.fate.Exited? {
      var disk := w.aof.disk + [out.file];
      assert disk[|w.aof.disk|] == out.file;
      ExitedConserves(w.aof, out.file, EncodeAll(w.log));
    } else {
      SettledAll(env.srv, start, out.executed, now);
      RunAllTimeFree(env.srv, start.ks, out.executed, now, later);
      FreshLogConserves(out.file);
    }
  }

  lemma ExitedConserves(st: Aof, file: ByteString, logged: ByteString)
    requires Conserves(st, logged) && file <= logged
    ensures Conserves(st.(exited := true, file := file, disk := st.disk + [file]), logged)
  {
    var disk := st.disk + [file];
    assert disk[|st.disk|] == file;
  }

  lemma FreshLogConserves(file: ByteString)
    ensures Conserves(FreshLog(file), file)
  {
    assert file + [] == file;
    assert FreshLog(file).disk[0] == file;
  }

  /** Whenever the process is restarted the log it left is one the loader knows. */
  ghost predicate StepRestartable(env: Env, w: World, ev: Ev) {
    ev.Restart? ==> Known(env.srv, w.log)
  }

  ghost predicate Restartable(env: Env, w: World, evs: seq<Ev>)
    requires Shaped(w)
    decreases |evs|
  {
    evs != [] ==> StepRestartable(env, w, evs[0]) && Restartable(env, Step(env, w, evs[0]), evs[1..])
  }

  lemma StepKeepsInv(env: Env, w: World, ev: Ev, later: int)
    requires Inv(env, w, later) && StepRestartable(env, w, ev)
    ensures Inv(env, Step(env, w, ev), later)
  {
    if ev.Restart? {
      if ev.i < |w.aof.disk| {
        RestartKeepsInv(env, w, w.aof.disk[ev.i], ev.setup, ev.now, later);
      }
    } else if !w.aof.exited {
      hide RestartStep;
      match ev {
        case Write(e) =>
          if Feedable(env.srv, |w.dbs|, e) {
            WriteKeepsInv(env, w, e, later);
          }
        case FlushNow(call) => FlushKeepsInv(env, w, call, later);
        case StartRewrite(orders, now) =>
          if CanFork(w, orders) {
            ForkKeepsInv(env, w, orders, now, later);
          }
        case ChildMoves(step) => ChildKeepsInv(env, w, step, later);
        case RewriteDone(call) => DoneKeepsInv(env, w, call, later);
        case Restart(_, _, _) =>
      }
    }
  }

  lemma {:induction false} StepsKeepInv(env: Env, w: World, evs: seq<Ev>, later: int)
    requires Inv(env, w, later) && Restartable(env, w, evs)
    ensures Inv(env, Steps(env, w, evs), later)
    decreases |evs|
  {
    if evs != [] {
      StepKeepsInv(env, w, evs[0], later);
      StepsKeepInv(env, Step(env, w, evs[0]), evs[1..], later);
    }
  }

  // ---------- the server's dataset ----------

  /** A command the model does not spell out does not build on keys that the log, or the log to come, lacks. */
  predicate WriteSpares(env: Env, w: World, e: Event)
    requires Shaped(w) && Feedable(env.srv, |w.dbs|, e)
  {
    && Spares(env.srv, w.dbs[e.dictid], e.cmd, w.left[e.dictid])
    && (w.aof.child.Some? ==> Spares(env.srv, w.dbs[e.dictid], e.cmd, w.childLeft[e.dictid]))
  }

  /** The transaction that is open at the end of a loaded log, if any, would change nothing. */
  predicate Idle(env: Env, out: Outcome, now: int)
    requires InRange(out.session.ks)
  {
    out.fate.Loaded? || out.fate.EmptyFile? ==>
      RunAll(env.srv, out.session.ks, OpenPart(env.srv, out.executed), now).dbs == out.session.ks.dbs
  }

  ghost predicate StepUndisturbed(env: Env, w: World, ev: Ev)
    requires Shaped(w)
  {
    match ev
    case Write(e) => !w.aof.exited && Feedable(env.srv, |w.dbs|, e) ==> WriteSpares(env, w, e)
    case Restart(i, setup, now) =>
      i < |w.aof.disk| ==> Idle(env, Load(env.srv, setup, w.aof.disk[i], EmptyDbs(|w.dbs|), now), now)
    case _ => true
  }

  /** Such commands only, and no restart that drops a transaction which would change something. */
  ghost predicate Undisturbed(env: Env, w: World, evs: seq<Ev>)
    requires Shaped(w)
    decreases |evs|
  {
    evs != [] ==> StepUndisturbed(env, w, evs[0]) && Undisturbed(env, Step(env, w, evs[0]), evs[1..])
  }

  /** The log and the log to be swapped in give the server's dataset less the keys left out. */
  ghost predicate Faithful(w: World)
    requires Shaped(w)
  {
    !w.aof.exited ==>
      && w.aof.mode.On? && AllLag(w.dbs, w.image, w.left)
      && (w.aof.child.Some? ==> AllLag(w.dbs, w.childImage, w.childLeft))
  }

  lemma NothingLags(dbs: seq<Db>, image: seq<Db>)
    requires |dbs| == |image|
    ensures AllLag(dbs, image, NothingLeft(|dbs|)) <==> image == dbs
  {
    assert forall j :: 0 <= j < |dbs| ==> dbs[j] - {} == dbs[j];
  }

  lemma WriteStaysFaithful(env: Env, w: World, e: Event)
    requires Shaped(w) && Faithful(w) && !w.aof.exited && Feedable(env.srv, |w.dbs|, e) && WriteSpares(env, w, e)
    ensures Faithful(WriteStep(env, w, e))
  {
    hide AllLag, Spares, LeftAfter, RunEvent, Feed;
    EventLags(env.srv, w.dbs, w.image, e, w.left);
    if w.aof.child.Some? {
      EventLags(env.srv, w.dbs, w.childImage, e, w.childLeft);
    }
  }

  lemma FreshFaithfulIff(w: World, file: ByteString)
    requires Shaped(w) && w.aof == FreshLog(file) && w.left == NothingLeft(|w.dbs|)
    ensures Faithful(w) <==> w.image == w.dbs
  {
    hide AllLag;
    NothingLags(w.dbs, w.image);
  }

  lemma LoadSettles(env: Env, n: nat, out: Outcome, now: int)
    requires n > 0 && InRange(out.session.ks)
    requires out.session == ReplayAll(env.srv, Session(Keys(EmptyDbs(n), 0), None), out.executed, now)
    ensures Settled(env.srv, out.session, now) == RunAll(env.srv, out.session.ks, OpenPart(env.srv, out.executed), now)
  {
    hide ReplayAll, RunAll, OpenPart, Settled;
    OpenPartSettles(env.srv, Session(Keys(EmptyDbs(n), 0), None), out.executed, now);
  }

  /** After a restart the log gives the server's dataset if and only if no transaction that matters was dropped. */
  lemma RestartFaithfulIff(env: Env, w: World, content: ByteString, setup: Setup, now: int, later: int)
    requires Inv(env, w, later) && content in w.aof.disk && Known(env.srv, w.log)
    ensures var out := Load(env.srv, setup, content, EmptyDbs(|w.dbs|), now);
            Faithful(RestartStep(env, w, content, setup, now)) <==> Idle(env, out, now)
  {
    LoadGivesPrefix(env, w, content, setup, now, later);
    var out := Load(env.srv, setup, content, EmptyDbs(|w.dbs|), now);
    hide Load, ReplayAll, EncodeAll, AllTimeFree, RunAll, OpenPart, AllLag, Inv, Settled, Known;
    if !out.fate.Exited? {
      LoadSettles(env, |w.dbs|, out, now);
      FreshFaithfulIff(RestartStep(env, w, content, setup, now), out.file);
    }
  }

  lemma ForkStaysFaithful(env: Env, w: World, orders: seq<seq<ByteString>>, now: int)
    requires Shaped(w) && Faithful(w) && !w.aof.exited && CanFork(w, orders)
    ensures Faithful(Step(env, w, StartRewrite(orders, now)))
  {
    hide AllLag, LeftOutAll, KeptAll, Rewrite, CanFork;
    KeptLags(w.dbs, now);
  }

  /** Flushes, steps of the child and the end of a rewrite do not touch the dataset. */
  lemma QuietStaysFaithful(env: Env, w: World, ev: Ev)
    requires Shaped(w) && Faithful(w) && !w.aof.exited
    requires ev.FlushNow? || ev.ChildMoves? || ev.RewriteDone?
    ensures Faithful(Step(env, w, ev))
  {
    hide AllLag, AttemptWrite, StepChild;
  }

  lemma StepStaysFaithful(env: Env, w: World, ev: Ev, later: int)
    requires Inv(env, w, later) && StepRestartable(env, w, ev) && Faithful(w) && StepUndisturbed(env, w, ev)
    ensures Faithful(Step(env, w, ev))
  {
    assert Shaped(w);
    hide Inv, Faithful, RestartStep, WriteStep, CanFork, Perform, WriteSpares, Load, Idle;
    if ev.Restart? {
      if ev.i < |w.aof.disk| {
        RestartFaithfulIff(env, w, w.aof.disk[ev.i], ev.setup, ev.now, later);
      }
    } else if !w.aof.exited {
      match ev {
        case Write(e) =>
          if Feedable(env.srv, |w.dbs|, e) {
            WriteStaysFaithful(env, w, e);
          }
        case StartRewrite(orders, now) =>
          if CanFork(w, orders) {
            ForkStaysFaithful(env, w, orders, now);
          }
        case _ => QuietStaysFaithful(env, w, ev);
      }
    }
  }

  lemma {:induction false} StepsStayFaithful(env: Env, w: World, evs: seq<Ev>, later: int)
    requires Inv(env, w, later) && Restartable(env, w, evs) && Faithful(w) && Undisturbed(env, w, evs)
    ensures Faithful(Steps(env, w, evs))
    decreases |evs|
  {
    if evs != [] {
      hide Step, Faithful, StepUndisturbed, StepRestartable;
      StepKeepsInv(env, w, evs[0], later);
      StepStaysFaithful(env, w, evs[0], later);
      StepsStayFaithful(env, Step(env, w, evs[0]), evs[1..], later);
    }
  }

  // ---------- the theorems ----------

  /** The server at start: the log is on and empty, and so is the dataset. */
  function Start(n: nat): World {
    World(Aof(On, true, [], [], [[]], 0, -1, None, 0, 0, 0, true, 0, false, true, false),
          [], EmptyDbs(n), EmptyDbs(n), [], [], EmptyDbs(n), NothingLeft(n), NothingLeft(n))
  }

  ghost predicate Sensible(env: Env, n: nat) {
    && HasTable(env.srv) && DumpsValues(env.srv, env.dump) && DumpsTimeFree(env.srv, env.dump) && 0 < n <= INT64_MAX
  }

  lemma StartInv(env: Env, n: nat, later: int)
    requires Sensible(env, n)
    ensures Inv(env, Start(n), later) && Faithful(Start(n))
  {
    assert Start(n).aof.disk[0] == [];
    NothingLags(EmptyDbs(n), EmptyDbs(n));
  }

  predicate Cuts(setup: Setup) { setup.loadTruncated && setup.truncateOk && (setup.fdOpen ==> setup.seekOk) }

  /**
   End to end: in any run of writes, flushes, rewrites, crashes and restarts, with any
   failure of write, ftruncate, the child, open, rename, truncate or lseek, the next crash
   may leave any content the file ever had. Loading it executes exactly the log's commands
   that are complete in it and cuts the file to them.
   */
  lemma RunsRecover(env: Env, n: nat, evs: seq<Ev>, i: nat, setup: Setup, later: int)
    requires Sensible(env, n) && Restartable(env, Start(n), evs) && Cuts(setup)
    ensures var w := Steps(env, Start(n), evs);
            Known(env.srv, w.log) && i < |w.aof.disk| && w.aof.disk[i] != [] ==>
              var k := Complete(w.log, |w.aof.disk[i]|);
              var r := Load(env.srv, setup, w.aof.disk[i], EmptyDbs(n), later);
              r.fate == Loaded && r.executed == w.log[..k] && r.file == EncodeAll(w.log[..k])
  {
    StartInv(env, n, later);
    StepsKeepInv(env, Start(n), evs, later);
    var w := Steps(env, Start(n), evs);
    if Known(env.srv, w.log) && i < |w.aof.disk| && w.aof.disk[i] != [] {
      CrashRecovery(env.srv, setup, w.log, w.aof.disk[i], EmptyDbs(n), later);
    }
  }
}

/**
 The server's dataset against what reloading its log gives, over whole runs: up to a
 transaction that is open at the end of the log, and up to keys that a rewrite left out.
 */
module AofReloads {
  import opened Options
  import opened Bytes
  import opened Resp
  import opened Keyspace
  import opened AofFeed
  import opened AofRewrite
  import opened AofLog
  import opened AofLoader
  import opened AofSkips
  import opened AofRuns

  /** What loading the file leaves behind. */
  function Reloaded(env: Env, w: World, setup: Setup, later: int): (r: Keys)
    requires Shaped(w)
    ensures InRange(r) && |r.dbs| == |w.dbs|
  {
    Load(env.srv, setup, w.aof.file, EmptyDbs(|w.dbs|), later).session.ks
  }

  /** The same with the transaction executed that is open at the end of the log, if one is. */
  function Completed(env: Env, w: World, setup: Setup, later: int): (r: seq<Db>)
    requires Shaped(w)
    ensures |r| == |w.dbs|
  {
    RunAll(env.srv, Reloaded(env, w, setup, later), OpenPart(env.srv, w.log), later).dbs
  }

  /** All that was fed is in the file, which the next start can load. */
  ghost predicate Flushed(env: Env, w: World) {
    Known(env.srv, w.log) && !w.aof.exited && w.aof.buf == [] && w.aof.file != []
  }

  /** What the log amounts to without that transaction. */
  function ClosedImage(env: Env, n: nat, cmds: seq<Command>, later: int): (r: seq<Db>)
    requires n > 0
    ensures |r| == n
  {
    Replayed(env, n, ClosedPart(env.srv, cmds), later).dbs
  }

  /** Rewriting is invisible and nothing is lost but an open transaction: what reloading the flushed file gives. */
  lemma ReloadGivesImage(env: Env, w: World, setup: Setup, later: int)
    requires Inv(env, w, later) && Flushed(env, w) && Cuts(setup)
    ensures var r := Load(env.srv, setup, w.aof.file, EmptyDbs(|w.dbs|), later);
            && r.fate == Loaded && r.file == w.aof.file && r.executed == w.log
            && r.session.ks.dbs == ClosedImage(env, |w.dbs|, w.log, later)
            && Completed(env, w, setup, later) == w.image
            && (!OpenAtEnd(env.srv, w.log) ==> r.session.ks.dbs == w.image)
  {
    hide Load, EncodeAll, ReplayAll, ClosedPart, OpenPart, TimeFree, HandsOver;
    var start := Session(Keys(EmptyDbs(|w.dbs|), 0), None);
    assert w.aof.file + [] == w.aof.file;
    CrashRecovery(env.srv, setup, w.log, w.aof.file, EmptyDbs(|w.dbs|), later);
    assert w.log[..|w.log|] == w.log;
    CompleteIsMaximal(w.log, |w.aof.file|, |w.log|);
    ReplayRunsClosedPart(env.srv, start, w.log, later);
    OpenPartSettles(env.srv, start, w.log, later);
  }

  /**
   With nothing left in the buffer a reload gives exactly the server's own dataset, less
   the keys that the last rewrite left out as expired and that were not stored or deleted
   since; or, when the log ends inside of MULTI, it does once that transaction is executed.
   */
  lemma ReloadGivesDataset(env: Env, n: nat, evs: seq<Ev>, setup: Setup, later: int)
    requires Sensible(env, n) && Restartable(env, Start(n), evs) && Undisturbed(env, Start(n), evs) && Cuts(setup)
    requires Flushed(env, Steps(env, Start(n), evs))
    ensures var w := Steps(env, Start(n), evs);
            && AllLag(w.dbs, Completed(env, w, setup, later), w.left)
            && (!OpenAtEnd(env.srv, w.log) ==> AllLag(w.dbs, Reloaded(env, w, setup, later).dbs, w.left))
  {
    StartInv(env, n, later);
    hide Inv, Restartable, Undisturbed, Load, Completed, AllLag, OpenAtEnd;
    StepsKeepInv(env, Start(n), evs, later);
    StepsStayFaithful(env, Start(n), evs, later);
    ReloadGivesImage(env, Steps(env, Start(n), evs), setup, later);
  }

  // ---------- keys left out are in no part of the log ----------

  predicate Lacks(dbs: seq<Db>, left: seq<set<ByteString>>) {
    |dbs| == |left| && forall j, key :: 0 <= j < |dbs| && key in left[j] ==> key !in dbs[j]
  }

  /** Without the open transaction too, the log and the log to be swapped in lack the keys left out. */
  predicate Unseen(env: Env, w: World, later: int)
    requires Shaped(w)
  {
    && Lacks(ClosedImage(env, |w.dbs|, w.log, later), w.left)
    && (w.aof.child.Some? ==> Lacks(ClosedImage(env, |w.dbs|, w.base + w.since, later), w.childLeft))
  }

  lemma TranslateShape(srv: Server, cmd: Command, now: int)
    requires HasTable(srv) && Executed(srv, cmd, now)
    ensures var t := Translate(srv, cmd, now);
            t != [] && if srv.lookup(cmd[0]) in {Multi, Exec} then t == [cmd] else Plain(srv, t)
  {
  }

  /** Only MULTI and EXEC themselves are fed as such, and each as the last command of its event. */
  lemma FeedShape(srv: Server, selectedDb: int, e: Event, f: seq<Command>, front: seq<Command>, last: Command)
    requires HasTable(srv) && Executed(srv, e.cmd, e.now) && f == Feed(srv, selectedDb, e) == front + [last]
    ensures Plain(srv, front)
    ensures if srv.lookup(e.cmd[0]) in {Multi, Exec} then last == e.cmd && front in {[], [SelectCommand(e.dictid)]}
            else Plain(srv, f)
  {
    var t := Translate(srv, e.cmd, e.now);
    var select := if e.dictid != selectedDb then [SelectCommand(e.dictid)] else [];
    TranslateShape(srv, e.cmd, e.now);
    assert Plain(srv, select);
    hide Translate, Executed;
    assert f == select + t;
    if srv.lookup(e.cmd[0]) in {Multi, Exec} {
      assert f[..|f| - 1] == select == front;
    } else {
      assert forall i :: 0 <= i < |front| ==> front[i] == f[i];
    }
  }

  lemma FeedSomething(srv: Server, selectedDb: int, e: Event) returns (front: seq<Command>, last: Command)
    requires HasTable(srv) && Executed(srv, e.cmd, e.now)
    ensures Feed(srv, selectedDb, e) == front + [last]
  {
    TranslateShape(srv, e.cmd, e.now);
    var f := Feed(srv, selectedDb, e);
    front, last := f[..|f| - 1], f[|f| - 1];
  }

  lemma SelectsOnly(srv: Server, ks: Keys, cmds: seq<Command>, dictid: nat, now: int)
    requires HasTable(srv) && InRange(ks) && cmds in {[], [SelectCommand(dictid)]}
    ensures RunAll(srv, ks, cmds, now).dbs == ks.dbs && Plain(srv, cmds)
  {
    if cmds != [] {
      RunOne(srv, ks, SelectCommand(dictid), now);
    }
  }

  lemma SelectedImage(env: Env, cmds: seq<Command>, image: seq<Db>, selectedDb: int, front: seq<Command>, dictid: nat,
                      later: int)
    requires HasTable(env.srv) && |image| > 0 && StandsFor(env, cmds, image, selectedDb, later)
    requires !OpenAtEnd(env.srv, cmds) && front in {[], [SelectCommand(dictid)]}
    ensures ClosedImage(env, |image|, cmds + front, later) == image
  {
    hide OpenAtEnd, RunAll, HasTable, ClosedPart;
    SelectsOnly(env.srv, Replayed(env, |image|, cmds, later), front, dictid, later);
    PlainIsClosed(env.srv, front);
    OpenConcat(env.srv, cmds, front);
    assert ClosedPart(env.srv, cmds + front) == cmds + front;
    RunAllConcat(env.srv, Keys(EmptyDbs(|image|), 0), cmds, front, later);
  }

  lemma ClosedIsWhole(env: Env, cmds: seq<Command>, image: seq<Db>, selectedDb: int, later: int)
    requires |image| > 0 && StandsFor(env, cmds, image, selectedDb, later) && !OpenAtEnd(env.srv, cmds)
    ensures ClosedImage(env, |image|, cmds, later) == image
  {
    hide OpenAtEnd, RunAll;
  }

  /** Feeding one event leaves the closed part as it was, or extends it to the whole log. */
  lemma FeedClosedImage(env: Env, cmds: seq<Command>, image: seq<Db>, selectedDb: int, e: Event, later: int)
    requires HasTable(env.srv) && |image| > 0 && Feedable(env.srv, |image|, e)
    requires StandsFor(env, cmds, image, selectedDb, later)
    ensures ClosedImage(env, |image|, cmds + Feed(env.srv, selectedDb, e), later)
            in {ClosedImage(env, |image|, cmds, later), image, RunEvent(env.srv, image, e)}
  {
    var f := Feed(env.srv, selectedDb, e);
    hide OpenAtEnd, StandsFor, RunEvent, Feed, Executed, HasTable, Replayed, ClosedPart;
    var front, last := FeedSomething(env.srv, selectedDb, e);
    FeedShape(env.srv, selectedDb, e, f, front, last);
    FeedExtends(env, cmds, image, selectedDb, e, later);
    assert cmds + f == cmds + front + [last];
    LastDecides(env.srv, cmds + front, last);
    if IsProc(env.srv, e.cmd, Exec) {
      ClosedIsWhole(env, cmds + f, RunEvent(env.srv, image, e), e.dictid, later);
    } else if OpenAtEnd(env.srv, cmds) {
      NoExecInFeed(env.srv, f, front, last);
      NoExecStaysOpen(env.srv, cmds, f);
    } else if IsProc(env.srv, e.cmd, Multi) {
      SelectedImage(env, cmds, image, selectedDb, front, e.dictid, later);
    } else {
      PlainIsClosed(env.srv, f);
      OpenConcat(env.srv, cmds, f);
      ClosedIsWhole(env, cmds + f, RunEvent(env.srv, image, e), e.dictid, later);
    }
  }

  lemma NoExecInFeed(srv: Server, f: seq<Command>, front: seq<Command>, last: Command)
    requires f == front + [last] && Plain(srv, front) && !IsProc(srv, last, Exec)
    ensures forall i :: 0 <= i < |f| ==> !IsProc(srv, f[i], Exec)
  {
  }

  /** An EXEC at the end closes the log; a MULTI opens it, and what was closed before is the closed part. */
  lemma LastDecides(srv: Server, cmds: seq<Command>, last: Command)
    ensures IsProc(srv, last, Exec) ==> !OpenAtEnd(srv, cmds + [last])
    ensures IsProc(srv, last, Multi) ==> ClosedPart(srv, cmds + [last]) == ClosedPart(srv, cmds)
  {
    assert (cmds + [last])[..|cmds|] == cmds;
  }

  lemma FeedKeepsLacks(env: Env, cmds: seq<Command>, dbs: seq<Db>, image: seq<Db>, left: seq<set<ByteString>>,
                       selectedDb: int, e: Event, later: int)
    requires HasTable(env.srv) && |image| > 0 && Feedable(env.srv, |image|, e) && AllLag(dbs, image, left)
    requires StandsFor(env, cmds, image, selectedDb, later) && Spares(env.srv, dbs[e.dictid], e.cmd, left[e.dictid])
    requires Lacks(ClosedImage(env, |image|, cmds, later), left)
    ensures Lacks(ClosedImage(env, |image|, cmds + Feed(env.srv, selectedDb, e), later), LeftAfter(env.srv, dbs, e, left))
  {
    FeedClosedImage(env, cmds, image, selectedDb, e, later);
    EventLags(env.srv, dbs, image, e, left);
    hide ClosedImage, StandsFor, Feed, RunEvent, StillLeft, Spares;
  }

  lemma WriteKeepsUnseen(env: Env, w: World, e: Event, later: int)
    requires Inv(env, w, later) && Faithful(w) && Unseen(env, w, later) && !w.aof.exited
    requires Feedable(env.srv, |w.dbs|, e) && WriteSpares(env, w, e)
    ensures Unseen(env, WriteStep(env, w, e), later)
  {
    var sel := w.aof.selectedDb;
    hide ClosedImage, StandsFor, Feed, RunEvent, LeftAfter, Spares, Lacks, AllLag;
    hide EncodeAll, TimeFree, Conserves, HandsOver;
    FeedKeepsLacks(env, w.log, w.dbs, w.image, w.left, sel, e, later);
    if w.aof.child.Some? {
      FeedKeepsLacks(env, w.base + w.since, w.dbs, w.childImage, w.childLeft, sel, e, later);
      assert w.base + w.since + Feed(env.srv, sel, e) == w.base + (w.since + Feed(env.srv, sel, e));
    }
  }

  lemma ForkKeepsUnseen(env: Env, w: World, orders: seq<seq<ByteString>>, now: int, later: int)
    requires Inv(env, w, later) && Unseen(env, w, later) && !w.aof.exited && CanFork(w, orders)
    requires DumpsPlain(env.srv, env.dump)
    ensures Unseen(env, Step(env, w, StartRewrite(orders, now)), later)
  {
    hide RunAll, RewriteFrom, Kept, EncodeAll, TimeFree, Conserves, StandsFor, HandsOver, Lacks, AllLag;
    var base := Rewrite(env.dump, w.dbs, orders, now);
    RewriteIsPlain(env.srv, env.dump, w.dbs, orders, now, 0);
    PlainIsClosed(env.srv, base);
    RewritePreservesMeaning(env.srv, env.dump, w.dbs, orders, now, later);
    assert base + [] == base;
    KeptLags(w.dbs, now);
    LagLacks(w.dbs, KeptAll(w.dbs, now), LeftOutAll(w.dbs, now));
  }

  lemma LagLacks(a: seq<Db>, b: seq<Db>, left: seq<set<ByteString>>)
    requires AllLag(a, b, left)
    ensures Lacks(b, left)
  {
  }

  lemma NothingLacks(dbs: seq<Db>, n: nat)
    requires |dbs| == n
    ensures Lacks(dbs, NothingLeft(n))
  {
  }

  lemma RestartKeepsUnseen(env: Env, w: World, content: ByteString, setup: Setup, now: int, later: int)
    requires Shaped(w) && Unseen(env, w, later)
    ensures Unseen(env, RestartStep(env, w, content, setup, now), later)
  {
    var r := RestartStep(env, w, content, setup, now);
    hide ClosedImage, Lacks, Load;
    NothingLacks(ClosedImage(env, |w.dbs|, r.log, later), |w.dbs|);
  }

  /** Flushes, steps of the child and the end of a rewrite do not extend the log. */
  lemma QuietKeepsUnseen(env: Env, w: World, ev: Ev, later: int)
    requires Shaped(w) && Unseen(env, w, later) && !w.aof.exited && (ev.FlushNow? || ev.ChildMoves? || ev.RewriteDone?)
    ensures Unseen(env, Step(env, w, ev), later)
  {
    hide ClosedImage, Lacks, AttemptWrite, StepChild, WriteStep, RestartStep, CanFork;
  }

  lemma StepKeepsUnseen(env: Env, w: World, ev: Ev, later: int)
    requires Inv(env, w, later) && Faithful(w) && Unseen(env, w, later)
    requires StepUndisturbed(env, w, ev) && DumpsPlain(env.srv, env.dump)
    ensures Unseen(env, Step(env, w, ev), later)
  {
    assert Shaped(w);
    hide Inv, Faithful, RestartStep, WriteStep, CanFork, WriteSpares, Load, Idle, Unseen, DumpsPlain, Perform;
    if ev.Restart? {
      if ev.i < |w.aof.disk| {
        RestartKeepsUnseen(env, w, w.aof.disk[ev.i], ev.setup, ev.now, later);
      }
    } else if !w.aof.exited {
      match ev {
        case Write(e) =>
          if Feedable(env.srv, |w.dbs|, e) {
            WriteKeepsUnseen(env, w, e, later);
          }
        case StartRewrite(orders, now) =>
          if CanFork(w, orders) {
            ForkKeepsUnseen(env, w, orders, now, later);
          }
        case _ => QuietKeepsUnseen(env, w, ev, later);
      }
    }
  }

  lemma {:induction false} StepsKeepUnseen(env: Env, w: World, evs: seq<Ev>, later: int)
    requires Inv(env, w, later) && Restartable(env, w, evs) && Faithful(w) && Undisturbed(env, w, evs)
    requires Unseen(env, w, later) && DumpsPlain(env.srv, env.dump)
    ensures Unseen(env, Steps(env, w, evs), later)
    decreases |evs|
  {
    if evs != [] {
      hide Step, Faithful, StepUndisturbed, StepRestartable, Unseen, DumpsPlain;
      StepKeepsInv(env, w, evs[0], later);
      StepStaysFaithful(env, w, evs[0], later);
      StepKeepsUnseen(env, w, evs[0], later);
      StepsKeepUnseen(env, Step(env, w, evs[0]), evs[1..], later);
    }
  }

  // ---------- when a reload and the server agree ----------

  /** If what lacks the keys left out looks like the server's dataset, they have expired. */
  lemma AgreeingPassed(dbs: seq<Db>, image: seq<Db>, loaded: seq<Db>, left: seq<set<ByteString>>, t: int)
    requires AllLag(dbs, image, left) && Lacks(loaded, left) && KeptAll(dbs, t) == KeptAll(loaded, t)
    ensures Passed(dbs, left, t)
  {
    forall j, key | 0 <= j < |dbs| && key in left[j] ensures LeftOut(dbs[j], key, t) {
      assert KeptAll(dbs, t)[j] == KeptAll(loaded, t)[j];
      assert key !in Kept(loaded[j], t);
      assert Lags(dbs[j], image[j], left[j]);
    }
  }

  /**
   Seen at any time `t`, what the whole log amounts to is the server's dataset if and only
   if every key left out has expired by then. Outside of MULTI that is what a reload gives.
   */
  lemma CompletedAgreesIff(env: Env, n: nat, evs: seq<Ev>, setup: Setup, later: int, t: int)
    requires Sensible(env, n) && Restartable(env, Start(n), evs) && Undisturbed(env, Start(n), evs) && Cuts(setup)
    requires Flushed(env, Steps(env, Start(n), evs))
    ensures var w := Steps(env, Start(n), evs);
            var loaded := Reloaded(env, w, setup, later).dbs;
            && (KeptAll(w.dbs, t) == KeptAll(Completed(env, w, setup, later), t) <==> Passed(w.dbs, w.left, t))
            && (!OpenAtEnd(env.srv, w.log) ==> (KeptAll(w.dbs, t) == KeptAll(loaded, t) <==> Passed(w.dbs, w.left, t)))
  {
    var w := Steps(env, Start(n), evs);
    hide Restartable, Undisturbed, Completed, Reloaded, AllLag, OpenAtEnd, KeptAll, Passed, Steps, Flushed;
    ReloadGivesDataset(env, n, evs, setup, later);
    SeenAlike(w.dbs, Completed(env, w, setup, later), w.left, t);
    if !OpenAtEnd(env.srv, w.log) {
      SeenAlike(w.dbs, Reloaded(env, w, setup, later).dbs, w.left, t);
    }
  }

  /**
   Seen at any time `t`, the reloaded dataset is the server's own if and only if every key
   left out has expired by then and executing the open transaction would change nothing
   that can be seen.
   */
  lemma ReloadAgreesIff(env: Env, n: nat, evs: seq<Ev>, setup: Setup, later: int, t: int)
    requires Sensible(env, n) && Restartable(env, Start(n), evs) && Undisturbed(env, Start(n), evs) && Cuts(setup)
    requires Flushed(env, Steps(env, Start(n), evs)) && DumpsPlain(env.srv, env.dump)
    ensures var w := Steps(env, Start(n), evs);
            var loaded := Reloaded(env, w, setup, later).dbs;
            KeptAll(w.dbs, t) == KeptAll(loaded, t)
            <==> Passed(w.dbs, w.left, t) && KeptAll(Completed(env, w, setup, later), t) == KeptAll(loaded, t)
  {
    var w := Steps(env, Start(n), evs);
    var loaded, completed := Reloaded(env, w, setup, later).dbs, Completed(env, w, setup, later);
    StartInv(env, n, later);
    NothingLacks(ClosedImage(env, n, [], later), n);
    hide Inv, Restartable, Undisturbed, Load, Completed, Reloaded, AllLag, OpenAtEnd, KeptAll, Lacks, Passed, ClosedImage;
    hide DumpsPlain, Steps;
    StepsKeepInv(env, Start(n), evs, later);
    StepsKeepUnseen(env, Start(n), evs, later);
    ReloadGivesDataset(env, n, evs, setup, later);
    LoadedIsClosedImage(env, w, setup, later);
    CompletedAgreesIff(env, n, evs, setup, later, t);
    if KeptAll(w.dbs, t) == KeptAll(loaded, t) {
      AgreeingPassed(w.dbs, completed, loaded, w.left, t);
    }
  }

  lemma LoadedIsClosedImage(env: Env, w: World, setup: Setup, later: int)
    requires Inv(env, w, later) && Flushed(env, w) && Cuts(setup)
    ensures Reloaded(env, w, setup, later).dbs == ClosedImage(env, |w.dbs|, w.log, later)
  {
    ReloadGivesImage(env, w, setup, later);
  }

  // ---------- when no deadline is moved too late ----------

  /** The write moves no deadline of a key that a rewrite has left out. */
  ghost predicate StepUnmoved(env: Env, w: World, ev: Ev)
    requires Shaped(w)
  {
    match ev
    case Write(e) =>
      !w.aof.exited && Feedable(env.srv, |w.dbs|, e) ==>
        forall key ::
          && !Moves(env.srv, w.dbs[e.dictid], e.cmd, w.left[e.dictid], key)
          && (w.aof.child.Some? ==> !Moves(env.srv, w.dbs[e.dictid], e.cmd, w.childLeft[e.dictid], key))
    case _ => true
  }

  ghost predicate Unmoved(env: Env, w: World, evs: seq<Ev>)
    requires Shaped(w)
    decreases |evs|
  {
    evs != [] ==> StepUnmoved(env, w, evs[0]) && Unmoved(env, Step(env, w, evs[0]), evs[1..])
  }

  /** No rewrite of the run looked at its keys later than `t`. */
  predicate ClockedBy(evs: seq<Ev>, t: int) {
    forall i :: 0 <= i < |evs| && evs[i].StartRewrite? ==> evs[i].now <= t
  }

  lemma EventKeepsPassed(srv: Server, dbs: seq<Db>, e: Event, left: seq<set<ByteString>>, t: int)
    requires |left| == |dbs| && Feedable(srv, |dbs|, e) && Passed(dbs, left, t)
    requires forall key :: !Moves(srv, dbs[e.dictid], e.cmd, left[e.dictid], key)
    ensures Passed(RunEvent(srv, dbs, e), LeftAfter(srv, dbs, e, left), t)
  {
    forall key | key in StillLeft(srv, dbs[e.dictid], e.cmd, left[e.dictid])
      ensures LeftOut(Apply(srv, dbs[e.dictid], e.cmd, e.now), key, t)
    {
      assert LeftOut(dbs[e.dictid], key, t) && !Moves(srv, dbs[e.dictid], e.cmd, left[e.dictid], key);
      UnmovedStays(srv, dbs[e.dictid], e.cmd, e.now, left[e.dictid], key);
    }
    hide Apply, StillLeft, LeftOut, Moves;
  }

  lemma UnmovedStays(srv: Server, db: Db, cmd: Command, now: int, left: set<ByteString>, key: ByteString)
    requires cmd != [] && key in StillLeft(srv, db, cmd, left) && key in db && !Moves(srv, db, cmd, left, key)
    ensures var r := Apply(srv, db, cmd, now); key in r && r[key].expire == db[key].expire
  {
  }

  ghost predicate AllPassed(w: World, t: int)
    requires Shaped(w)
  {
    Passed(w.dbs, w.left, t) && (w.aof.child.Some? ==> Passed(w.dbs, w.childLeft, t))
  }

  lemma ForkPasses(dbs: seq<Db>, now: int, t: int)
    requires now <= t
    ensures Passed(dbs, LeftOutAll(dbs, now), t)
  {
  }

  lemma StepKeepsPassed(env: Env, w: World, ev: Ev, t: int)
    requires Shaped(w) && AllPassed(w, t) && StepUnmoved(env, w, ev) && (ev.StartRewrite? ==> ev.now <= t)
    ensures AllPassed(Step(env, w, ev), t)
  {
    hide Passed, LeftOutAll, AttemptWrite, StepChild, KeptAll, Load, Moves;
    if ev.Restart? {
      assert forall dbs :: Passed(dbs, NothingLeft(|dbs|), t) by { NonePass(t); }
    } else if !w.aof.exited {
      if ev.Write? {
        if Feedable(env.srv, |w.dbs|, ev.e) {
          EventKeepsPassed(env.srv, w.dbs, ev.e, w.left, t);
          if w.aof.child.Some? {
            EventKeepsPassed(env.srv, w.dbs, ev.e, w.childLeft, t);
          }
        }
      } else if ev.StartRewrite? {
        ForkPasses(w.dbs, ev.now, t);
      }
    }
  }

  lemma NonePass(t: int)
    ensures forall dbs :: Passed(dbs, NothingLeft(|dbs|), t)
  {
  }

  lemma {:induction false} StepsKeepPassed(env: Env, w: World, evs: seq<Ev>, t: int)
    requires Shaped(w) && AllPassed(w, t) && Unmoved(env, w, evs) && ClockedBy(evs, t)
    ensures AllPassed(Steps(env, w, evs), t)
    decreases |evs|
  {
    if evs != [] {
      hide Step, AllPassed, StepUnmoved;
      StepKeepsPassed(env, w, evs[0], t);
      assert forall i :: 0 <= i < |evs[1..]| ==> evs[1..][i] == evs[i + 1];
      StepsKeepPassed(env, Step(env, w, evs[0]), evs[1..], t);
    }
  }

  /**
   So if no command moves the deadline of a key that a rewrite has passed over, a reload
   gives what the server has, as seen at any time from the last rewrite on, up to a
   transaction that is open at the end of the log.
   */
  lemma ReloadIsTheServer(env: Env, n: nat, evs: seq<Ev>, setup: Setup, later: int, t: int)
    requires Sensible(env, n) && Restartable(env, Start(n), evs) && Undisturbed(env, Start(n), evs) && Cuts(setup)
    requires Unmoved(env, Start(n), evs) && ClockedBy(evs, t)
    requires Flushed(env, Steps(env, Start(n), evs))
    ensures var w := Steps(env, Start(n), evs);
            && KeptAll(w.dbs, t) == KeptAll(Completed(env, w, setup, later), t)
            && (!OpenAtEnd(env.srv, w.log) ==> KeptAll(w.dbs, t) == KeptAll(Reloaded(env, w, setup, later).dbs, t))
  {
    StepsKeepPassed(env, Start(n), evs, t);
    hide Restartable, Undisturbed, Unmoved, Steps, LeftOut, KeptAll, Reloaded, Completed, OpenAtEnd, Flushed;
    CompletedAgreesIff(env, n, evs, setup, later, t);
  }

  // ---------- a transaction that is dropped ----------

  lemma MultiIsLogged(env: Env, multi: Command, at: int)
    requires Sensible(env, 1) && IsProc(env.srv, multi, Multi)
    ensures var w := WriteStep(env, Start(1), Event(0, multi, at)); var log := [SelectCommand(0), multi];
            && w.aof == Start(1).aof.(selectedDb := 0, buf := EncodeAll(log)) && w.log == log
            && w.dbs == [map[]] && w.left == [{}] && Shaped(w)
  {
    hide EncodeAll;
    var e := Event(0, multi, at);
    assert Feed(env.srv, -1, e) == [SelectCommand(0), multi];
    var start := Start(1);
    assert start.dbs == [map[]] && start.left == [{}];
    assert LeftAfter(env.srv, start.dbs, e, start.left)[0] == {};
  }

  lemma SetIsLogged(env: Env, w: World, key: ByteString, value: ByteString, at: int)
    requires Sensible(env, 1) && Shaped(w) && w.dbs == [map[]] && w.left == [{}]
    requires w.aof.selectedDb == 0 && w.aof.mode.On? && w.aof.child == None && !w.aof.exited
    requires w.aof.buf == EncodeAll(w.log)
    ensures var cmd := [SET_NAME, key, value]; var r := WriteStep(env, w, Event(0, cmd, at));
            && r.aof == w.aof.(buf := EncodeAll(w.log + [cmd])) && r.log == w.log + [cmd]
            && r.dbs == [map[key := Entry(Str(value), None)]] && r.left == [{}]
  {
    var cmd := [SET_NAME, key, value];
    assert cmd[3..] == [] && cmd[..3] == cmd;
    hide EncodeAll;
    EncodeAllConcat(w.log, [cmd]);
    assert Feed(env.srv, 0, Event(0, cmd, at)) == [cmd];
    assert LeftAfter(env.srv, w.dbs, Event(0, cmd, at), w.left)[0] == {};
  }

  function FullFlush(log: seq<Command>, at: int): Ev {
    FlushNow(FlushCall(true, at, false, |EncodeAll(log)|, true, false, false))
  }

  lemma FlushWritesAll(env: Env, w: World, at: int)
    requires Shaped(w) && !w.aof.exited && w.aof.file == [] && w.aof.buf == EncodeAll(w.log) && w.log != []
    ensures var r := Step(env, w, FullFlush(w.log, at));
            && r.log == w.log && r.dbs == w.dbs && r.left == w.left
            && r.aof.buf == [] && r.aof.file == EncodeAll(w.log) && !r.aof.exited
  {
    hide EncodeAll;
    assert w.aof.buf[..|w.aof.buf|] == w.aof.buf;
    assert EncodeAll(w.log) != [] by { NotEmpty([], w.log); assert [] + w.log == w.log; }
  }

  lemma MultiHidesSet(srv: Server, multi: Command, cmd: Command)
    requires HasTable(srv) && IsProc(srv, multi, Multi) && Plain(srv, [cmd])
    ensures ClosedPart(srv, [SelectCommand(0), multi, cmd]) == [SelectCommand(0)]
  {
    var select := [SelectCommand(0)];
    assert !IsProc(srv, [cmd][0], Exec);
    assert OpenAtEnd(srv, select + [multi]) && (select + [multi])[..1] == select;
    assert !OpenAtEnd(srv, select) by { assert Plain(srv, select); PlainIsClosed(srv, select); }
    NoExecStaysOpen(srv, select + [multi], [cmd]);
    assert select + [multi] + [cmd] == [SelectCommand(0), multi, cmd];
  }

  lemma ThreeSteps(env: Env, w: World, a: Ev, b: Ev, c: Ev)
    requires Shaped(w) && a.Write? && b.Write? && c.FlushNow?
    requires StepUndisturbed(env, w, a) && StepUndisturbed(env, Step(env, w, a), b)
    ensures Steps(env, w, [a, b, c]) == Step(env, Step(env, Step(env, w, a), b), c)
    ensures Restartable(env, w, [a, b, c]) && Undisturbed(env, w, [a, b, c])
  {
    hide Step;
    assert [a, b, c][1..] == [b, c] && [b, c][1..] == [c] && [c][1..] == [];
    var w1 := Step(env, w, a);
    var w2 := Step(env, w1, b);
    assert Steps(env, w2, [c]) == Step(env, w2, c) by { assert Steps(env, Step(env, w2, c), []) == Step(env, w2, c); }
    assert Restartable(env, w2, [c]) && Undisturbed(env, w2, [c]) by { hide Steps; }
    assert Steps(env, w1, [b, c]) == Step(env, w2, c);
    assert Restartable(env, w1, [b, c]) && Undisturbed(env, w1, [b, c]) by { hide Steps; }
  }

  /** A write whose command the model spells out disturbs nothing. */
  lemma PlainWriteStep(env: Env, w: World, e: Event)
    requires Shaped(w) && !w.aof.exited && Feedable(env.srv, |w.dbs|, e) && env.srv.lookup(e.cmd[0]) != Other
    ensures Step(env, w, Write(e)) == WriteStep(env, w, e) && StepUndisturbed(env, w, Write(e))
  {
    hide WriteStep;
  }

  lemma LogIsKnown(env: Env, multi: Command, key: ByteString, value: ByteString)
    requires HasTable(env.srv) && IsProc(env.srv, multi, Multi) && Storable(multi)
    requires |key| <= INT64_MAX && |value| <= INT64_MAX
    ensures Known(env.srv, [SelectCommand(0), multi, [SET_NAME, key, value]])
  {
    assert Storable(SelectCommand(0)) && Storable([SET_NAME, key, value]);
  }

  lemma SelectedOnly(env: Env, multi: Command, cmd: Command, later: int)
    requires HasTable(env.srv) && IsProc(env.srv, multi, Multi) && Plain(env.srv, [cmd])
    ensures ClosedImage(env, 1, [SelectCommand(0), multi, cmd], later) == [map[]]
  {
    MultiHidesSet(env.srv, multi, cmd);
    SelectsOnly(env.srv, Keys(EmptyDbs(1), 0), [SelectCommand(0)], 0, later);
  }

  lemma SetIsFeedable(srv: Server, key: ByteString, value: ByteString, at: int)
    requires HasTable(srv)
    ensures Feedable(srv, 1, Event(0, [SET_NAME, key, value], at))
  {
    assert [SET_NAME, key, value][3..] == [];
  }

  function AfterMulti(env: Env, multi: Command, at: int): (w: World)
    requires Sensible(env, 1) && IsProc(env.srv, multi, Multi)
    ensures Shaped(w) && |w.dbs| == 1
  {
    WriteStep(env, Start(1), Event(0, multi, at))
  }

  function AfterSet(env: Env, multi: Command, key: ByteString, value: ByteString, at: int): (w: World)
    requires Sensible(env, 1) && IsProc(env.srv, multi, Multi)
    ensures Shaped(w) && |w.dbs| == 1
  {
    SetIsFeedable(env.srv, key, value, at);
    WriteStep(env, AfterMulti(env, multi, at), Event(0, [SET_NAME, key, value], at))
  }

  lemma MultiStep(env: Env, multi: Command, at: int)
    requires Sensible(env, 1) && IsProc(env.srv, multi, Multi)
    ensures var w := AfterMulti(env, multi, at); var ev := Write(Event(0, multi, at));
            && Step(env, Start(1), ev) == w && StepUndisturbed(env, Start(1), ev)
            && w.log == [SelectCommand(0), multi] && w.aof.buf == EncodeAll(w.log) && w.aof.file == [] && !w.aof.exited
            && w.aof.selectedDb == 0 && w.aof.mode.On? && w.aof.child == None && w.dbs == [map[]] && w.left == [{}]
  {
    hide EncodeAll, WriteStep, Step, StepUndisturbed;
    MultiIsLogged(env, multi, at);
    PlainWriteStep(env, Start(1), Event(0, multi, at));
  }

  lemma SetStep(env: Env, multi: Command, key: ByteString, value: ByteString, at: int)
    requires Sensible(env, 1) && IsProc(env.srv, multi, Multi)
    ensures var w := AfterSet(env, multi, key, value, at); var ev := Write(Event(0, [SET_NAME, key, value], at));
            && Step(env, AfterMulti(env, multi, at), ev) == w && StepUndisturbed(env, AfterMulti(env, multi, at), ev)
            && w.log == [SelectCommand(0), multi, [SET_NAME, key, value]]
            && w.aof.buf == EncodeAll(w.log) && w.aof.file == [] && !w.aof.exited
            && w.dbs == [map[key := Entry(Str(value), None)]] && w.left == [{}]
  {
    SetIsFeedable(env.srv, key, value, at);
    hide EncodeAll, WriteStep, Step, StepUndisturbed, AfterMulti, Executed;
    MultiStep(env, multi, at);
    var w := AfterMulti(env, multi, at);
    assert w.log + [[SET_NAME, key, value]] == [SelectCommand(0), multi, [SET_NAME, key, value]];
    SetIsLogged(env, w, key, value, at);
    PlainWriteStep(env, w, Event(0, [SET_NAME, key, value], at));
  }

  /** The run: MULTI and SET are fed and flushed, EXEC is not. */
  function DroppingRun(multi: Command, cmd: Command, at: int): seq<Ev> {
    [Write(Event(0, multi, at)), Write(Event(0, cmd, at)), FullFlush([SelectCommand(0), multi, cmd], at)]
  }

  lemma DroppingRunSteps(env: Env, multi: Command, key: ByteString, value: ByteString, at: int)
    requires Sensible(env, 1) && IsProc(env.srv, multi, Multi)
    ensures var evs := DroppingRun(multi, [SET_NAME, key, value], at); var w := AfterSet(env, multi, key, value, at);
            && Restartable(env, Start(1), evs) && Undisturbed(env, Start(1), evs)
            && Steps(env, Start(1), evs) == Step(env, w, FullFlush(w.log, at))
  {
    hide Step, Steps, Restartable, Undisturbed, StepUndisturbed, AfterMulti, AfterSet, HasTable;
    MultiStep(env, multi, at);
    SetStep(env, multi, key, value, at);
    var evs := DroppingRun(multi, [SET_NAME, key, value], at);
    ThreeSteps(env, Start(1), evs[0], evs[1], evs[2]);
  }

  lemma DroppingRunEnds(env: Env, multi: Command, key: ByteString, value: ByteString, at: int)
    requires Sensible(env, 1) && IsProc(env.srv, multi, Multi)
    ensures var cmd := [SET_NAME, key, value]; var w := Steps(env, Start(1), DroppingRun(multi, cmd, at));
            && w.log == [SelectCommand(0), multi, cmd] && !w.aof.exited
            && w.aof.buf == [] && w.aof.file == EncodeAll(w.log)
            && w.dbs == [map[key := Entry(Str(value), None)]] && w.left == [{}]
  {
    hide *;
    DroppingRunSteps(env, multi, key, value, at);
    SetStep(env, multi, key, value, at);
    FlushWritesAll(env, AfterSet(env, multi, key, value, at), at);
  }

  lemma FlushedIsLoaded(env: Env, evs: seq<Ev>, setup: Setup, later: int)
    requires Sensible(env, 1) && Cuts(setup) && Restartable(env, Start(1), evs)
    requires var w := Steps(env, Start(1), evs);
             Known(env.srv, w.log) && w.log != [] && !w.aof.exited && w.aof.buf == [] && w.aof.file == EncodeAll(w.log)
    ensures var w := Steps(env, Start(1), evs);
            Flushed(env, w) && Reloaded(env, w, setup, later).dbs == ClosedImage(env, 1, w.log, later)
  {
    var w := Steps(env, Start(1), evs);
    assert |Start(1).dbs| == 1;
    hide EncodeAll, Steps, Restartable, Inv, Reloaded, ClosedImage, Known;
    NotEmpty([], w.log);
    assert [] + w.log == w.log;
    StartInv(env, 1, later);
    StepsKeepInv(env, Start(1), evs, later);
    LoadedIsClosedImage(env, w, setup, later);
  }

  /** After that run the server has the key, and the dataset that a reload gives does not. */
  lemma OpenTransactionIsDropped(env: Env, multi: Command, key: ByteString, value: ByteString, at: int,
                                 setup: Setup, later: int)
    requires Sensible(env, 1) && Cuts(setup) && IsProc(env.srv, multi, Multi) && Storable(multi)
    requires |key| <= INT64_MAX && |value| <= INT64_MAX
    ensures var evs := DroppingRun(multi, [SET_NAME, key, value], at); var w := Steps(env, Start(1), evs);
            && Restartable(env, Start(1), evs) && Undisturbed(env, Start(1), evs) && Flushed(env, w)
            && w.dbs == [map[key := Entry(Str(value), None)]] && w.left == [{}]
            && Reloaded(env, w, setup, later).dbs == [map[]]
  {
    var cmd := [SET_NAME, key, value];
    var evs := DroppingRun(multi, cmd, at);
    LogIsKnown(env, multi, key, value);
    assert Plain(env.srv, [cmd]);
    SelectedOnly(env, multi, cmd, later);
    hide EncodeAll, Steps, Restartable, Undisturbed, Inv, Reloaded, ClosedImage, Known, DroppingRun, Plain, HasTable;
    DroppingRunSteps(env, multi, key, value, at);
    DroppingRunEnds(env, multi, key, value, at);
    FlushedIsLoaded(env, evs, setup, later);
  }
}

/**
 What executed commands send to the append only file and the slaves, said by the commands'
 own outcomes: over one call, over the queue of a transaction, and over whole runs.
 */
module Propagation {
  import opened Bytes
  import opened Resp
  import opened Keyspace
  import opened Transactions

  /** The calls among `queue` whose outcome is a write, in order, each with the database it ran in. */
  function Writes(exec: Executor, data: Dataset, db: nat, queue: seq<Request>, now: int): seq<Propagated>
    decreases |queue|
  {
    if queue == [] then []
    else if !queue[0].Call? then Writes(exec, data, db, queue[1..], now)
    else
      var o := exec(queue[0].argv, db, data, now);
      (if o.write then [Write(db, queue[0].argv)] else []) + Writes(exec, o.data, o.db, queue[1..], now)
  }

  /** A transaction that writes sends one MULTI first. */
  function Marked(w: seq<Propagated>): seq<Propagated> { if w == [] then [] else [MultiMark] + w }

  /** What one event sends: a call outside of MULTI by itself, an EXEC that runs its whole queue. */
  function Sends<C(==)>(exec: Executor, st: State<C>, e: Event<C>): seq<Propagated>
    requires e.c in st.clients
  {
    var se := st.clients[e.c];
    if e.request.Call? && !se.multi then Writes(exec, st.data, se.db, [e.request], e.now)
    else if e.request.Execute? && se.multi && !se.dirtyCas && !se.dirtyExec then
      Marked(Writes(exec, st.data, se.db, se.queue, e.now))
    else []
  }

  function SentBy<C(==)>(exec: Executor, st: State<C>, run: seq<Event<C>>): seq<Propagated>
    requires Known(st, run)
  {
    if run == [] then []
    else
      SentBy(exec, st, run[..|run| - 1])
      + (KnownFront(st, run); Sends(exec, After(exec, st, run[..|run| - 1]), run[|run| - 1]))
  }

  lemma CallSends<C>(exec: Executor, st: State<C>, c: C, argv: Command, now: int, mark: bool)
    requires c in st.clients
    ensures var o := exec(argv, st.clients[c].db, st.data, now); var r := RunCommand(exec, st, c, argv, now, mark);
            && r.feed == st.feed + (if !o.write then [] else if mark then [MultiMark, Write(st.clients[c].db, argv)]
                                    else [Write(st.clients[c].db, argv)])
            && r.data == o.data && r.clients[c].db == o.db
  {
    hide TouchAll;
    var se := st.clients[c];
    var o := exec(argv, se.db, st.data, now);
    var feed := RunCommand(exec, st, c, argv, now, mark).feed;
    assert [MultiMark] + [Write(se.db, argv)] == [MultiMark, Write(se.db, argv)];
    TouchAllFlags(st.(data := o.data, clients := st.clients[c := se.(db := o.db)], feed := feed), o.touched);
  }

  lemma RequestSends<C>(exec: Executor, st: State<C>, c: C, r: Request, now: int, mark: bool)
    requires c in st.clients && !r.Call?
    ensures var next := RunRequest(exec, st, c, r, now, mark);
            next.feed == st.feed && next.data == st.data && next.clients[c].db == st.clients[c].db
  {
    hide Release;
  }

  /** The first request of a queue, by itself. */
  lemma FirstSends<C>(exec: Executor, st: State<C>, c: C, queue: seq<Request>, now: int, mark: bool)
    requires c in st.clients && queue != []
    ensures var next := RunRequest(exec, st, c, queue[0], now, mark); var db := st.clients[c].db;
            var first := Writes(exec, st.data, db, queue[..1], now);
            && next.feed == st.feed + (if mark then Marked(first) else first)
            && Writes(exec, st.data, db, queue, now)
               == first + Writes(exec, next.data, next.clients[c].db, queue[1..], now)
  {
    assert queue[..1][0] == queue[0] && queue[..1][1..] == [];
    if queue[0].Call? {
      CallSends(exec, st, c, queue[0].argv, now, mark);
      hide RunCommand;
      assert queue[0].argv == queue[..1][0].argv;
      var o := exec(queue[0].argv, st.clients[c].db, st.data, now);
      var own := if o.write then [Write(st.clients[c].db, queue[0].argv)] else [];
      assert Writes(exec, o.data, o.db, [], now) == [] && own + [] == own;
      assert [MultiMark] + [Write(st.clients[c].db, queue[0].argv)] == [MultiMark, Write(st.clients[c].db, queue[0].argv)];
      assert st.feed + [] == st.feed;
    } else {
      RequestSends(exec, st, c, queue[0], now, mark);
      hide RunRequest;
      assert st.feed + [] == st.feed;
    }
  }

  /** A queue sends exactly its writes, and one MULTI before the first of them when it is due. */
  lemma {:induction false} QueueSends<C>(exec: Executor, st: State<C>, c: C, queue: seq<Request>, now: int, mark: bool)
    requires c in st.clients
    ensures var w := Writes(exec, st.data, st.clients[c].db, queue, now);
            RunQueue(exec, st, c, queue, now, mark).feed == st.feed + if mark then Marked(w) else w
    decreases |queue|
  {
    if queue == [] {
      assert st.feed + [] == st.feed;
    } else {
      var next := RunRequest(exec, st, c, queue[0], now, mark);
      var mark' := mark && next.feed == st.feed;
      var first := Writes(exec, st.data, st.clients[c].db, queue[..1], now);
      var rest := Writes(exec, next.data, next.clients[c].db, queue[1..], now);
      hide RunRequest, Writes;
      FirstSends(exec, st, c, queue, now, mark);
      QueueSends(exec, next, c, queue[1..], now, mark');
      MarkedConcat(st.feed, first, rest, mark);
    }
  }

  lemma Regroup<T>(a: seq<T>, b: seq<T>, c: seq<T>)
    ensures (a + b) + c == a + (b + c)
  {
  }

  lemma NotAppended<T>(a: seq<T>, b: seq<T>)
    ensures b != [] ==> a + b != a
    ensures a + [] == a == [] + a
  {
    assert |a + b| == |a| + |b|;
  }

  lemma MarkedConcat(feed: seq<Propagated>, first: seq<Propagated>, rest: seq<Propagated>, mark: bool)
    ensures var next := feed + if mark then Marked(first) else first;
            next + (if mark && next == feed then Marked(rest) else rest)
            == feed + if mark then Marked(first + rest) else first + rest
  {
    NotAppended(feed, Marked(first));
    NotAppended(rest, []);
    if first != [] {
      assert first + rest != [];
      Regroup([MultiMark], first, rest);
      Regroup(feed, if mark then Marked(first) else first, rest);
    }
  }

  lemma LeavingSendsNothing<C>(st: State<C>, c: C)
    requires c in st.clients
    ensures var u, d := UnwatchAllKeys(st, c), DiscardTransaction(st, c);
            && u.feed == st.feed && u.data == st.data && u.clients[c].db == st.clients[c].db && c in u.clients
            && d.feed == st.feed && d.data == st.data && d.clients[c].db == st.clients[c].db
  {
    hide Release;
  }

  /** An EXEC that runs sends one MULTI and then the writes of its queue, or nothing at all. */
  lemma ExecSends<C>(exec: Executor, st: State<C>, c: C, now: int)
    requires c in st.clients && st.clients[c].multi && !st.clients[c].dirtyCas && !st.clients[c].dirtyExec
    ensures Step(exec, st, c, Execute, now).feed
            == st.feed + Marked(Writes(exec, st.data, st.clients[c].db, st.clients[c].queue, now))
  {
    var free := UnwatchAllKeys(st, c);
    LeavingSendsNothing(st, c);
    QueueSends(exec, free, c, st.clients[c].queue, now, true);
    var ran := RunQueue(exec, free, c, st.clients[c].queue, now, true);
    LeavingSendsNothing(ran, c);
    assert Step(exec, st, c, Execute, now) == DiscardTransaction(ran, c);
    hide UnwatchAllKeys, DiscardTransaction, RunQueue, Writes, Step;
  }

  /** One event sends what its outcome says: a write that runs, the writes of an EXEC that runs, and nothing else. */
  lemma StepSends<C>(exec: Executor, st: State<C>, e: Event<C>)
    requires e.c in st.clients
    ensures Step(exec, st, e.c, e.request, e.now).feed == st.feed + Sends(exec, st, e)
  {
    var se := st.clients[e.c];
    assert st.feed + [] == st.feed;
    if e.request.Call? && !se.multi {
      CallSends(exec, st, e.c, e.request.argv, e.now, false);
      hide RunCommand;
      var o := exec(e.request.argv, se.db, st.data, e.now);
      assert [e.request][1..] == [] && Writes(exec, o.data, o.db, [], e.now) == [];
    } else if e.request.Execute? && se.multi && !se.dirtyCas && !se.dirtyExec {
      hide Step;
      ExecSends(exec, st, e.c, e.now);
    } else {
      LeavingSendsNothing(st, e.c);
      hide WatchAll, Release, RunQueue, RunCommand;
    }
  }

  /** Over any run the feed grows by exactly what the events send, in order. */
  lemma {:induction false} RunSends<C>(exec: Executor, st: State<C>, run: seq<Event<C>>)
    requires Known(st, run)
    ensures After(exec, st, run).feed == st.feed + SentBy(exec, st, run)
  {
    if run == [] {
      assert st.feed + [] == st.feed;
    } else {
      KnownFront(st, run);
      var prev, e := run[..|run| - 1], run[|run| - 1];
      var before := After(exec, st, prev);
      var sent, more := SentBy(exec, st, prev), Sends(exec, before, e);
      assert SentBy(exec, st, run) == sent + more;
      hide *;
      RunSends(exec, st, prev);
      BeforeLast(exec, st, run);
      StepSends(exec, before, e);
      Regroup(st.feed, sent, more);
    }
  }

  /** EXEC against the same requests sent one by one: both send the queue's writes, EXEC behind one MULTI. */
  lemma ExecSendsTheSame<C>(exec: Executor, st: State<C>, c: C, now: int)
    requires Agree(st) && c in st.clients && ExecRuns(st.clients[c])
    requires forall r :: r in st.clients[c].queue ==> Queueable(r)
    ensures var w := Writes(exec, st.data, st.clients[c].db, st.clients[c].queue, now);
            && Step(exec, st, c, Execute, now).feed == st.feed + Marked(w)
            && After(exec, DiscardTransaction(st, c), Solo(c, st.clients[c].queue, now)).feed == st.feed + w
  {
    var w := Writes(exec, st.data, st.clients[c].db, st.clients[c].queue, now);
    var r := Step(exec, st, c, Execute, now).feed;
    var s := After(exec, DiscardTransaction(st, c), Solo(c, st.clients[c].queue, now)).feed;
    ExecSends(exec, st, c, now);
    ExecIsSerial(exec, st, c, now);
    hide Step, After, Writes, Agree, DiscardTransaction;
    SameMarked(st.feed, r, s, w);
  }

  lemma SameMarked(feed: seq<Propagated>, r: seq<Propagated>, s: seq<Propagated>, w: seq<Propagated>)
    requires SameWrites(feed, r, feed, s, true) && r == feed + Marked(w)
    ensures s == feed + w
  {
    var w': seq<Propagated> :| s == feed + w' && r == feed + if w' != [] then [MultiMark] + w' else w';
    assert r[|feed|..] == Marked(w) == Marked(w');
    assert w != [] ==> Marked(w)[1..] == w && w' != [] && Marked(w')[1..] == w';
    assert w == [] ==> w' == [];
  }
}

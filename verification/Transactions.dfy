/**
 MULTI, EXEC, DISCARD, WATCH and UNWATCH by many clients: every client's list of watched
 keys, the databases' index from a watched key to its clients, and the flag that makes
 EXEC refuse to run.
 */
module Transactions {
  import opened Bytes
  import opened Resp
  import opened Keyspace

  datatype WatchedKey = WatchedKey(db: nat, key: ByteString)

  /** Faulty is a command that processCommand's checks reject: no such name, wrong arity. */
  datatype Request =
    | Watch(keys: seq<ByteString>) | Unwatch | Begin | Discard | Execute | Call(argv: Command) | Faulty

  datatype ClientState = ClientState(
    db: nat, multi: bool, dirtyCas: bool, dirtyExec: bool, watched: seq<WatchedKey>, queue: seq<Request>)

  type Dataset = map<WatchedKey, Entry>
  datatype Outcome = Outcome(data: Dataset, db: nat, touched: seq<WatchedKey>, write: bool)
  /** Executing a command at a time in a database; `touched` are its signalModifiedKey calls. */
  type Executor = (Command, nat, Dataset, int) -> Outcome

  datatype Propagated = MultiMark | Write(db: nat, argv: Command)

  /** The dictionaries of all databases are one map, keyed by database and key. */
  datatype State<C(==)> = State(
    clients: map<C, ClientState>, index: map<WatchedKey, seq<C>>, data: Dataset, feed: seq<Propagated>)

  predicate Same(a: Dataset, b: Dataset, wk: WatchedKey) {
    (wk in a <==> wk in b) && (wk in a && wk in b ==> a[wk] == b[wk])
  }

  /** Whatever a command changes, it signals. */
  ghost predicate Signals(exec: Executor) {
    forall argv, db, data, now, wk ::
      Same(data, exec(argv, db, data, now).data, wk) || wk in exec(argv, db, data, now).touched
  }

  predicate Watching<C(==)>(index: map<WatchedKey, seq<C>>, wk: WatchedKey, c: C) {
    wk in index && c in index[wk]
  }

  // ---------- the operations ----------

  function WatchForKey<C(==)>(st: State<C>, c: C, key: ByteString): State<C>
    requires c in st.clients
  {
    var se := st.clients[c];
    var wk := WatchedKey(se.db, key);
    if wk in se.watched then st
    else
      var list := if wk in st.index then st.index[wk] else [];
      st.(index := st.index[wk := list + [c]], clients := st.clients[c := se.(watched := se.watched + [wk])])
  }

  function WatchAll<C(==)>(st: State<C>, c: C, keys: seq<ByteString>): (r: State<C>)
    requires c in st.clients
    ensures r.clients.Keys == st.clients.Keys && r.data == st.data && r.feed == st.feed
    decreases |keys|
  {
    if keys == [] then st else WatchAll(WatchForKey(st, c, keys[0]), c, keys[1..])
  }

  function Without<C(==)>(list: seq<C>, c: C): seq<C> {
    if list == [] then []
    else if list[0] == c then list[1..]
    else [list[0]] + Without(list[1..], c)
  }

  function ReleaseOne<C(==)>(index: map<WatchedKey, seq<C>>, c: C, wk: WatchedKey): map<WatchedKey, seq<C>> {
    if wk !in index then index
    else
      var rest := Without(index[wk], c);
      if rest == [] then index - {wk} else index[wk := rest]
  }

  function Release<C(==)>(index: map<WatchedKey, seq<C>>, c: C, wks: seq<WatchedKey>): map<WatchedKey, seq<C>>
    decreases |wks|
  {
    if wks == [] then index else Release(ReleaseOne(index, c, wks[0]), c, wks[1..])
  }

  function UnwatchAllKeys<C(==)>(st: State<C>, c: C): State<C>
    requires c in st.clients
  {
    st.(index := Release(st.index, c, st.clients[c].watched),
        clients := st.clients[c := st.clients[c].(watched := [])])
  }

  function DiscardTransaction<C(==)>(st: State<C>, c: C): State<C>
    requires c in st.clients
  {
    var r := UnwatchAllKeys(st, c);
    r.(clients := r.clients[c := r.clients[c].(multi := false, dirtyCas := false, dirtyExec := false, queue := [])])
  }

  /** touchWatchedKey: flag every client on the key's list. */
  function Touch<C(==)>(st: State<C>, wk: WatchedKey): State<C> {
    st.(clients := map c | c in st.clients ::
          if Watching(st.index, wk, c) then st.clients[c].(dirtyCas := true) else st.clients[c])
  }

  function TouchAll<C(==)>(st: State<C>, wks: seq<WatchedKey>): (r: State<C>)
    ensures r.clients.Keys == st.clients.Keys && r.index == st.index && r.data == st.data && r.feed == st.feed
    decreases |wks|
  {
    if wks == [] then st else TouchAll(Touch(st, wks[0]), wks[1..])
  }

  /** A command that is executed, alone or by EXEC; `mark` puts a MULTI before its write. */
  function RunCommand<C(==)>(exec: Executor, st: State<C>, c: C, argv: Command, now: int, mark: bool): (r: State<C>)
    requires c in st.clients
    ensures r.clients.Keys == st.clients.Keys
  {
    var se := st.clients[c];
    var o := exec(argv, se.db, st.data, now);
    var feed := if !o.write then [] else (if mark then [MultiMark] else []) + [Write(se.db, argv)];
    TouchAll(st.(data := o.data, clients := st.clients[c := se.(db := o.db)], feed := st.feed + feed), o.touched)
  }

  function RunRequest<C(==)>(exec: Executor, st: State<C>, c: C, r: Request, now: int, mark: bool): (st': State<C>)
    requires c in st.clients
    ensures st'.clients.Keys == st.clients.Keys
  {
    match r
    case Call(argv) => RunCommand(exec, st, c, argv, now, mark)
    case Unwatch =>
      var u := UnwatchAllKeys(st, c);
      u.(clients := u.clients[c := u.clients[c].(dirtyCas := false)])
    case _ => st
  }

  /** The queue, in order; the first write of all is preceded by MULTI. */
  function RunQueue<C(==)>(exec: Executor, st: State<C>, c: C, queue: seq<Request>, now: int, mark: bool): (r: State<C>)
    requires c in st.clients
    ensures r.clients.Keys == st.clients.Keys
    decreases |queue|
  {
    if queue == [] then st
    else
      var next := RunRequest(exec, st, c, queue[0], now, mark);
      RunQueue(exec, next, c, queue[1..], now, mark && next.feed == st.feed)
  }

  predicate ExecRuns(se: ClientState) { se.multi && !se.dirtyCas && !se.dirtyExec }

  function ExecCommand<C(==)>(exec: Executor, st: State<C>, c: C, now: int): State<C>
    requires c in st.clients
  {
    var se := st.clients[c];
    if !se.multi then st
    else if se.dirtyCas || se.dirtyExec then DiscardTransaction(st, c)
    else DiscardTransaction(RunQueue(exec, UnwatchAllKeys(st, c), c, se.queue, now, true), c)
  }

  function SetClient<C(==)>(st: State<C>, c: C, se: ClientState): State<C> {
    st.(clients := st.clients[c := se])
  }

  function Step<C(==)>(exec: Executor, st: State<C>, c: C, r: Request, now: int): (st': State<C>)
    requires c in st.clients
    ensures st'.clients.Keys == st.clients.Keys
  {
    var se := st.clients[c];
    match r
    case Watch(keys) => if se.multi then st else WatchAll(st, c, keys)
    case Begin => SetClient(st, c, se.(multi := true))
    case Discard => if se.multi then DiscardTransaction(st, c) else st
    case Execute => ExecCommand(exec, st, c, now)
    case Faulty => if se.multi then SetClient(st, c, se.(dirtyExec := true)) else st
    case _ =>
      if se.multi then SetClient(st, c, se.(queue := se.queue + [r]))
      else RunRequest(exec, st, c, r, now, false)
  }

  datatype Event<C(==)> = Event(c: C, request: Request, now: int)

  predicate Known<C(==)>(st: State<C>, run: seq<Event<C>>) {
    forall i :: 0 <= i < |run| ==> run[i].c in st.clients
  }

  function After<C(==)>(exec: Executor, st: State<C>, run: seq<Event<C>>): (r: State<C>)
    requires Known(st, run)
    ensures r.clients.Keys == st.clients.Keys
  {
    if run == [] then st
    else
      var e := run[|run| - 1];
      Step(exec, After(exec, st, run[..|run| - 1]), e.c, e.request, e.now)
  }

  // ---------- the two indexes agree ----------

  predicate NoDuplicates<T(==)>(s: seq<T>) {
    forall i, j :: 0 <= i < j < |s| ==> s[i] != s[j]
  }

  predicate CleanLists<C(==)>(index: map<WatchedKey, seq<C>>) {
    forall wk :: wk in index ==> index[wk] != [] && NoDuplicates(index[wk])
  }

  ghost predicate Agree<C>(st: State<C>) {
    && CleanLists(st.index)
    && (forall wk, i :: wk in st.index && 0 <= i < |st.index[wk]| ==> st.index[wk][i] in st.clients)
    && (forall c :: c in st.clients ==> NoDuplicates(st.clients[c].watched))
    && (forall c, wk :: c in st.clients ==> (wk in st.clients[c].watched <==> Watching(st.index, wk, c)))
  }

  predicate IsStart<C(==)>(st: State<C>) {
    st.index == map[]
    && forall c :: c in st.clients ==>
         st.clients[c] == ClientState(st.clients[c].db, false, false, false, [], [])
  }

  lemma {:induction false} WithoutDrops<C>(list: seq<C>, c: C)
    requires NoDuplicates(list)
    ensures NoDuplicates(Without(list, c))
    ensures forall d :: d in Without(list, c) <==> d in list && d != c
  {
    if list != [] {
      assert list == [list[0]] + list[1..];
      assert list[0] !in list[1..];
      if list[0] != c {
        WithoutDrops(list[1..], c);
      }
    }
  }

  lemma {:induction false} ReleaseDrops<C>(index: map<WatchedKey, seq<C>>, c: C, wks: seq<WatchedKey>)
    requires CleanLists(index)
    ensures var r := Release(index, c, wks);
            CleanLists(r) && r.Keys <= index.Keys
            && forall wk, d :: Watching(r, wk, d) <==> Watching(index, wk, d) && !(d == c && wk in wks)
    decreases |wks|
  {
    if wks != [] {
      var wk := wks[0];
      var next := ReleaseOne(index, c, wk);
      if wk in index {
        WithoutDrops(index[wk], c);
      }
      assert CleanLists(next);
      ReleaseDrops(next, c, wks[1..]);
      assert forall k :: k in wks <==> k == wk || k in wks[1..];
    }
  }

  lemma WatchersAgree<C>(st: State<C>, c: C, wk: WatchedKey)
    requires Agree(st) && c in st.clients
    ensures wk in st.clients[c].watched <==> Watching(st.index, wk, c)
  {
  }

  /** UNWATCH takes the client off exactly its own lists. */
  lemma UnwatchKeeps<C>(st: State<C>, c: C)
    requires Agree(st) && c in st.clients
    ensures Agree(UnwatchAllKeys(st, c))
    ensures forall wk, d :: Watching(UnwatchAllKeys(st, c).index, wk, d) <==> d != c && Watching(st.index, wk, d)
  {
    ReleaseDrops(st.index, c, st.clients[c].watched);
    var r := UnwatchAllKeys(st, c);
    forall wk, i | wk in r.index && 0 <= i < |r.index[wk]|
      ensures r.index[wk][i] in r.clients
    {
      assert Watching(r.index, wk, r.index[wk][i]);
    }
  }

  /** A key that the client was not watching: both indexes grow by the same pair. */
  lemma WatchNewKeeps<C>(st: State<C>, c: C, wk: WatchedKey)
    requires Agree(st) && c in st.clients && wk !in st.clients[c].watched
    ensures var list := if wk in st.index then st.index[wk] else [];
            var r := st.(index := st.index[wk := list + [c]],
                         clients := st.clients[c := st.clients[c].(watched := st.clients[c].watched + [wk])]);
            Agree(r) && forall k, d :: Watching(r.index, k, d) <==> Watching(st.index, k, d) || (k == wk && d == c)
  {
    assert !Watching(st.index, wk, c);
  }

  lemma WatchForKeyKeeps<C>(st: State<C>, c: C, key: ByteString)
    requires Agree(st) && c in st.clients
    ensures var r := WatchForKey(st, c, key); var wk := WatchedKey(st.clients[c].db, key);
            Agree(r)
            && (forall d :: d in st.clients ==> r.clients[d] == st.clients[d].(watched := r.clients[d].watched))
            && (forall k, d :: Watching(r.index, k, d) <==> Watching(st.index, k, d) || (k == wk && d == c))
  {
    var wk := WatchedKey(st.clients[c].db, key);
    if wk in st.clients[c].watched {
      WatchersAgree(st, c, wk);
    } else {
      WatchNewKeeps(st, c, wk);
    }
    hide Agree, Watching;
  }

  lemma {:induction false} WatchAllKeeps<C>(st: State<C>, c: C, keys: seq<ByteString>)
    requires Agree(st) && c in st.clients
    ensures var r := WatchAll(st, c, keys);
            Agree(r)
            && (forall d :: d in st.clients ==> r.clients[d] == st.clients[d].(watched := r.clients[d].watched))
            && (forall k, d :: Watching(r.index, k, d) <==>
                  Watching(st.index, k, d) || (d == c && k.db == st.clients[c].db && k.key in keys))
    decreases |keys|
  {
    if keys != [] {
      WatchForKeyKeeps(st, c, keys[0]);
      WatchAllKeeps(WatchForKey(st, c, keys[0]), c, keys[1..]);
      assert forall k :: k in keys <==> k == keys[0] || k in keys[1..];
    }
  }

  predicate Hit<C(==)>(index: map<WatchedKey, seq<C>>, c: C, wks: seq<WatchedKey>) {
    exists i :: 0 <= i < |wks| && Watching(index, wks[i], c)
  }

  lemma {:induction false} TouchAllFlags<C>(st: State<C>, wks: seq<WatchedKey>)
    ensures forall c :: c in st.clients ==>
              TouchAll(st, wks).clients[c] ==
              st.clients[c].(dirtyCas := st.clients[c].dirtyCas || Hit(st.index, c, wks))
    decreases |wks|
  {
    if wks != [] {
      var next := Touch(st, wks[0]);
      TouchAllFlags(next, wks[1..]);
      forall c | c in st.clients
        ensures Hit(st.index, c, wks) <==> Watching(st.index, wks[0], c) || Hit(st.index, c, wks[1..])
      {
        if Hit(st.index, c, wks) {
          var i :| 0 <= i < |wks| && Watching(st.index, wks[i], c);
          assert i > 0 ==> wks[1..][i - 1] == wks[i];
        }
        if Hit(st.index, c, wks[1..]) {
          var i :| 0 <= i < |wks[1..]| && Watching(st.index, wks[1..][i], c);
          assert wks[i + 1] == wks[1..][i];
        }
      }
    }
  }

  lemma AgreeFrame<C>(st: State<C>, r: State<C>)
    requires Agree(st) && r.index == st.index && r.clients.Keys == st.clients.Keys
    requires forall c :: c in st.clients ==> r.clients[c].watched == st.clients[c].watched
    ensures Agree(r)
  {
  }

  lemma RunCommandFlags<C>(exec: Executor, st: State<C>, c: C, argv: Command, now: int, mark: bool)
    requires Agree(st) && c in st.clients
    ensures var r := RunCommand(exec, st, c, argv, now, mark); var o := exec(argv, st.clients[c].db, st.data, now);
            Agree(r) && r.index == st.index && r.data == o.data
            && r.clients[c] == st.clients[c].(db := o.db, dirtyCas := st.clients[c].dirtyCas || Hit(st.index, c, o.touched))
            && forall d :: d in st.clients && d != c ==>
                 r.clients[d] == st.clients[d].(dirtyCas := st.clients[d].dirtyCas || Hit(st.index, d, o.touched))
  {
    var se := st.clients[c];
    var o := exec(argv, se.db, st.data, now);
    var r := RunCommand(exec, st, c, argv, now, mark);
    var ran := st.(data := o.data, clients := st.clients[c := se.(db := o.db)], feed := r.feed);
    assert r == TouchAll(ran, o.touched);
    TouchAllFlags(ran, o.touched);
    AgreeFrame(st, r);
  }

  // ---------- what a step clears, watches and touches ----------

  predicate Cleared<C(==)>(st: State<C>, e: Event<C>, c: C)
    requires e.c in st.clients
  {
    && e.c == c
    && match e.request
       case Unwatch => !st.clients[c].multi
       case Discard | Execute => st.clients[c].multi
       case _ => false
  }

  predicate Watches<C(==)>(st: State<C>, e: Event<C>, c: C, wk: WatchedKey)
    requires e.c in st.clients
  {
    && e.c == c && e.request.Watch? && !st.clients[c].multi
    && wk.db == st.clients[c].db && wk.key in e.request.keys
  }

  function QueueTouches<C(==)>(
    exec: Executor, st: State<C>, c: C, queue: seq<Request>, now: int, mark: bool): seq<WatchedKey>
    requires c in st.clients
    decreases |queue|
  {
    if queue == [] then []
    else
      var next := RunRequest(exec, st, c, queue[0], now, mark);
      RequestTouches(exec, st, c, queue[0], now) + QueueTouches(exec, next, c, queue[1..], now, mark && next.feed == st.feed)
  }

  /** The keys that the commands executed by a step signal as modified. */
  function TouchedBy<C(==)>(exec: Executor, st: State<C>, e: Event<C>): seq<WatchedKey>
    requires e.c in st.clients
  {
    var se := st.clients[e.c];
    match e.request
    case Call(_) => if se.multi then [] else RequestTouches(exec, st, e.c, e.request, e.now)
    case Execute =>
      if ExecRuns(se) then QueueTouches(exec, UnwatchAllKeys(st, e.c), e.c, se.queue, e.now, true) else []
    case _ => []
  }

  lemma HitConcat<C>(index: map<WatchedKey, seq<C>>, c: C, a: seq<WatchedKey>, b: seq<WatchedKey>)
    ensures Hit(index, c, a + b) <==> Hit(index, c, a) || Hit(index, c, b)
  {
    if Hit(index, c, a) {
      var i :| 0 <= i < |a| && Watching(index, a[i], c);
      assert (a + b)[i] == a[i];
    }
    if Hit(index, c, b) {
      var i :| 0 <= i < |b| && Watching(index, b[i], c);
      assert (a + b)[|a| + i] == b[i];
    }
  }

  function RequestTouches<C(==)>(exec: Executor, st: State<C>, c: C, r: Request, now: int): seq<WatchedKey>
    requires c in st.clients
  {
    if r.Call? then exec(r.argv, st.clients[c].db, st.data, now).touched else []
  }

  /** Executed commands leave the watch lists alone and flag the clients whose keys they touch. */
  ghost predicate Flags<C>(st: State<C>, c: C, wks: seq<WatchedKey>, r: State<C>) {
    && r.index == st.index && r.clients.Keys == st.clients.Keys && c in st.clients
    && r.clients[c] == st.clients[c].(db := r.clients[c].db)
    && forall d :: d in st.clients && d != c ==>
         r.clients[d] == st.clients[d].(dirtyCas := st.clients[d].dirtyCas || Hit(st.index, d, wks))
  }

  ghost predicate Idle<C>(st: State<C>, c: C) {
    c in st.clients && st.clients[c].watched == [] && !st.clients[c].dirtyCas
  }

  lemma IdleNotHit<C>(st: State<C>, c: C, wks: seq<WatchedKey>)
    requires Agree(st) && Idle(st, c)
    ensures !Hit(st.index, c, wks)
  {
    assert forall wk :: Watching(st.index, wk, c) ==> wk in st.clients[c].watched;
  }

  lemma RunRequestFlags<C>(exec: Executor, st: State<C>, c: C, r: Request, now: int, mark: bool)
    requires Agree(st) && Idle(st, c)
    ensures var next := RunRequest(exec, st, c, r, now, mark);
            Agree(next) && Idle(next, c) && Flags(st, c, RequestTouches(exec, st, c, r, now), next)
  {
    if r.Call? {
      hide Agree, RunCommand, Hit, Watching;
      RunCommandFlags(exec, st, c, r.argv, now, mark);
      IdleNotHit(st, c, RequestTouches(exec, st, c, r, now));
    } else {
      hide Agree, RunRequest, Flags;
      IdleUnwatches(exec, st, c, r, now, mark);
    }
  }

  lemma IdleUnwatches<C>(exec: Executor, st: State<C>, c: C, r: Request, now: int, mark: bool)
    requires Idle(st, c) && !r.Call?
    ensures RunRequest(exec, st, c, r, now, mark) == st && Flags(st, c, [], st)
  {
    assert Release(st.index, c, []) == st.index;
    assert st.clients[c := st.clients[c]] == st.clients;
  }

  lemma FlagsCompose<C>(a: State<C>, b: State<C>, r: State<C>, c: C, first: seq<WatchedKey>, rest: seq<WatchedKey>)
    requires Flags(a, c, first, b) && Flags(b, c, rest, r)
    ensures Flags(a, c, first + rest, r)
  {
    forall d | d in a.clients && d != c
      ensures Hit(a.index, d, first + rest) <==> Hit(a.index, d, first) || Hit(a.index, d, rest)
    {
      HitConcat(a.index, d, first, rest);
    }
  }

  /** A queue touches other clients' keys only: its own client watches nothing by then. */
  lemma {:induction false} RunQueueFlags<C>(
    exec: Executor, st: State<C>, c: C, queue: seq<Request>, now: int, mark: bool)
    requires Agree(st) && Idle(st, c)
    ensures var r := RunQueue(exec, st, c, queue, now, mark);
            Agree(r) && Idle(r, c) && Flags(st, c, QueueTouches(exec, st, c, queue, now, mark), r)
    decreases |queue|
  {
    if queue != [] {
      hide RunRequest, Agree, Hit;
      var next := RunRequest(exec, st, c, queue[0], now, mark);
      RunRequestFlags(exec, st, c, queue[0], now, mark);
      var mark' := mark && next.feed == st.feed;
      RunQueueFlags(exec, next, c, queue[1..], now, mark');
      FlagsCompose(st, next, RunQueue(exec, next, c, queue[1..], now, mark'), c,
                   RequestTouches(exec, st, c, queue[0], now), QueueTouches(exec, next, c, queue[1..], now, mark'));
    }
  }

  lemma DiscardKeeps<C>(st: State<C>, c: C)
    requires Agree(st) && c in st.clients
    ensures var r := DiscardTransaction(st, c);
            Agree(r) && r.clients[c] == ClientState(st.clients[c].db, false, false, false, [], [])
            && (forall d :: d in st.clients && d != c ==> r.clients[d] == st.clients[d])
            && (forall wk, d :: Watching(r.index, wk, d) <==> d != c && Watching(st.index, wk, d))
  {
    UnwatchKeeps(st, c);
    AgreeFrame(UnwatchAllKeys(st, c), DiscardTransaction(st, c));
  }

  lemma HitFrame<C>(a: map<WatchedKey, seq<C>>, b: map<WatchedKey, seq<C>>, c: C, wks: seq<WatchedKey>)
    requires forall wk :: Watching(a, wk, c) <==> Watching(b, wk, c)
    ensures Hit(a, c, wks) <==> Hit(b, c, wks)
  {
  }

  /** EXEC that runs: its client leaves the transaction, clients whose keys it touches are flagged. */
  lemma ExecFlags<C>(exec: Executor, st: State<C>, c: C, now: int)
    requires Agree(st) && c in st.clients && ExecRuns(st.clients[c])
    ensures var r := ExecCommand(exec, st, c, now);
            Agree(r) && r.clients.Keys == st.clients.Keys
            && r.clients[c] == ClientState(r.clients[c].db, false, false, false, [], [])
            && forall d :: d in st.clients && d != c ==>
                 r.clients[d] == st.clients[d].(
                   dirtyCas := st.clients[d].dirtyCas || Hit(st.index, d, TouchedBy(exec, st, Event(c, Execute, now))))
  {
    var free := UnwatchAllKeys(st, c);
    UnwatchKeeps(st, c);
    var queue := st.clients[c].queue;
    RunQueueFlags(exec, free, c, queue, now, true);
    DiscardKeeps(RunQueue(exec, free, c, queue, now, true), c);
    var wks := QueueTouches(exec, free, c, queue, now, true);
    forall d | d in st.clients && d != c
      ensures Hit(free.index, d, wks) <==> Hit(st.index, d, wks)
    {
      HitFrame(free.index, st.index, d, wks);
    }
  }

  /** What a step does to a client's watch list and to its flag. */
  ghost predicate Tracks<C>(exec: Executor, st: State<C>, e: Event<C>, r: State<C>, c: C)
    requires e.c in st.clients && c in st.clients && c in r.clients
  {
    && (forall wk :: wk in r.clients[c].watched <==>
          Watches(st, e, c, wk) || (wk in st.clients[c].watched && !Cleared(st, e, c)))
    && (r.clients[c].dirtyCas <==>
          !Cleared(st, e, c) && (st.clients[c].dirtyCas || Hit(st.index, c, TouchedBy(exec, st, e))))
  }

  lemma WatchStepTracks<C>(exec: Executor, st: State<C>, e: Event<C>)
    requires Agree(st) && e.c in st.clients && e.request.Watch? && !st.clients[e.c].multi
    ensures var r := Step(exec, st, e.c, e.request, e.now);
            Agree(r) && forall c :: c in st.clients ==> Tracks(exec, st, e, r, c)
  {
    var r := Step(exec, st, e.c, e.request, e.now);
    WatchAllKeeps(st, e.c, e.request.keys);
    hide WatchAll;
    assert Agree(r);
    forall c, wk | c in st.clients
      ensures wk in r.clients[c].watched <==> Watches(st, e, c, wk) || wk in st.clients[c].watched
    {
      WatchersAgree(r, c, wk);
      WatchersAgree(st, c, wk);
    }
    hide Agree, Watching;
  }

  lemma UnwatchStepTracks<C>(exec: Executor, st: State<C>, e: Event<C>)
    requires Agree(st) && e.c in st.clients && e.request.Unwatch? && !st.clients[e.c].multi
    ensures var r := Step(exec, st, e.c, e.request, e.now);
            Agree(r) && forall c :: c in st.clients ==> Tracks(exec, st, e, r, c)
  {
    UnwatchKeeps(st, e.c);
    AgreeFrame(UnwatchAllKeys(st, e.c), Step(exec, st, e.c, e.request, e.now));
  }

  lemma CallStepTracks<C>(exec: Executor, st: State<C>, e: Event<C>)
    requires Agree(st) && e.c in st.clients && e.request.Call? && !st.clients[e.c].multi
    ensures var r := Step(exec, st, e.c, e.request, e.now);
            Agree(r) && forall c :: c in st.clients ==> Tracks(exec, st, e, r, c)
  {
    hide Agree, Hit, RunCommand;
    RunCommandFlags(exec, st, e.c, e.request.argv, e.now, false);
  }

  lemma LeaveStepTracks<C>(exec: Executor, st: State<C>, e: Event<C>)
    requires Agree(st) && e.c in st.clients && (e.request.Discard? || e.request.Execute?)
    ensures var r := Step(exec, st, e.c, e.request, e.now);
            Agree(r) && forall c :: c in st.clients ==> Tracks(exec, st, e, r, c)
  {
    hide Agree, DiscardTransaction, RunQueue, QueueTouches;
    if st.clients[e.c].multi {
      if e.request.Execute? && ExecRuns(st.clients[e.c]) {
        ExecFlags(exec, st, e.c, e.now);
      } else {
        DiscardKeeps(st, e.c);
      }
    }
  }

  predicate IsPlain<C(==)>(st: State<C>, e: Event<C>)
    requires e.c in st.clients
  {
    && !e.request.Discard? && !e.request.Execute?
    && (st.clients[e.c].multi || e.request.Begin? || e.request.Faulty?)
  }

  /** Requests that are refused, queued or only set a flag. */
  lemma PlainStep<C>(exec: Executor, st: State<C>, e: Event<C>)
    requires e.c in st.clients && IsPlain(st, e)
    ensures var r := Step(exec, st, e.c, e.request, e.now);
            && r.index == st.index
            && forall c :: c in st.clients ==>
                 r.clients[c].watched == st.clients[c].watched && r.clients[c].dirtyCas == st.clients[c].dirtyCas
  {
    hide RunRequest, WatchAll, ExecCommand, DiscardTransaction;
  }

  lemma PlainWatchesNothing<C>(exec: Executor, st: State<C>, e: Event<C>)
    requires e.c in st.clients && IsPlain(st, e)
    ensures TouchedBy(exec, st, e) == []
    ensures forall c :: c in st.clients ==> !Cleared(st, e, c)
    ensures forall c, wk :: c in st.clients ==> !Watches(st, e, c, wk)
  {
  }

  lemma PlainStepTracks<C>(exec: Executor, st: State<C>, e: Event<C>)
    requires Agree(st) && e.c in st.clients && IsPlain(st, e)
    ensures var r := Step(exec, st, e.c, e.request, e.now);
            Agree(r) && forall c :: c in st.clients ==> Tracks(exec, st, e, r, c)
  {
    hide Agree, Step, TouchedBy, Watches, Cleared, IsPlain, Watching;
    PlainStep(exec, st, e);
    PlainWatchesNothing(exec, st, e);
    AgreeFrame(st, Step(exec, st, e.c, e.request, e.now));
  }

  lemma StepTracks<C>(exec: Executor, st: State<C>, e: Event<C>)
    requires Agree(st) && e.c in st.clients
    ensures var r := Step(exec, st, e.c, e.request, e.now);
            Agree(r) && forall c :: c in st.clients ==> Tracks(exec, st, e, r, c)
  {
    assert e.request.Discard? || e.request.Execute? || (!st.clients[e.c].multi && (e.request.Watch?
           || e.request.Unwatch? || e.request.Call?)) || IsPlain(st, e);
    hide *;
    var multi := st.clients[e.c].multi;
    if e.request.Discard? || e.request.Execute? {
      LeaveStepTracks(exec, st, e);
    } else if e.request.Watch? && !multi {
      WatchStepTracks(exec, st, e);
    } else if e.request.Unwatch? && !multi {
      UnwatchStepTracks(exec, st, e);
    } else if e.request.Call? && !multi {
      CallStepTracks(exec, st, e);
    } else {
      PlainStepTracks(exec, st, e);
    }
  }

  // ---------- whole runs ----------

  function StateAt<C(==)>(exec: Executor, st: State<C>, run: seq<Event<C>>, i: nat): (r: State<C>)
    requires Known(st, run) && i <= |run|
    ensures r.clients.Keys == st.clients.Keys
  {
    After(exec, st, run[..i])
  }

  lemma {:induction false} RunsAgree<C>(exec: Executor, st: State<C>, run: seq<Event<C>>)
    requires IsStart(st) && Known(st, run)
    ensures Agree(After(exec, st, run))
  {
    if run != [] {
      RunsAgree(exec, st, run[..|run| - 1]);
      StepTracks(exec, After(exec, st, run[..|run| - 1]), run[|run| - 1]);
    }
  }

  /** Event `i` made `c` watch `wk`, and `c` did not give its watched keys up since. */
  ghost predicate WatchedSince<C>(exec: Executor, st: State<C>, run: seq<Event<C>>, i: nat, c: C, wk: WatchedKey)
    requires Known(st, run) && c in st.clients
  {
    && i < |run| && Watches(StateAt(exec, st, run, i), run[i], c, wk)
    && forall j :: i < j < |run| ==> !Cleared(StateAt(exec, st, run, j), run[j], c)
  }

  ghost predicate TouchedAt<C>(exec: Executor, st: State<C>, run: seq<Event<C>>, j: nat, wk: WatchedKey)
    requires Known(st, run)
  {
    j < |run| && wk in TouchedBy(exec, StateAt(exec, st, run, j), run[j])
  }

  lemma StateAtPrefix<C>(exec: Executor, st: State<C>, run: seq<Event<C>>, i: nat)
    requires Known(st, run) && |run| > 0 && i < |run|
    ensures StateAt(exec, st, run[..|run| - 1], i) == StateAt(exec, st, run, i)
  {
    assert run[..|run| - 1][..i] == run[..i];
  }

  lemma WatchedSinceStep<C>(exec: Executor, st: State<C>, run: seq<Event<C>>, i: nat, c: C, wk: WatchedKey)
    requires Known(st, run) && |run| > 0 && i < |run| - 1 && c in st.clients
    ensures WatchedSince(exec, st, run, i, c, wk) <==>
            WatchedSince(exec, st, run[..|run| - 1], i, c, wk)
            && !Cleared(StateAt(exec, st, run, |run| - 1), run[|run| - 1], c)
  {
    hide StateAt, Watches, Cleared;
    forall j | i <= j < |run|
      ensures StateAt(exec, st, run[..|run| - 1], j) == StateAt(exec, st, run, j)
    {
      StateAtPrefix(exec, st, run, j);
    }
  }

  lemma WatchedSinceLast<C>(exec: Executor, st: State<C>, run: seq<Event<C>>, i: nat, c: C, wk: WatchedKey)
    requires Known(st, run) && |run| > 0 && i >= |run| - 1 && c in st.clients
    ensures WatchedSince(exec, st, run, i, c, wk) <==>
            i == |run| - 1 && Watches(After(exec, st, run[..|run| - 1]), run[|run| - 1], c, wk)
  {
  }

  lemma KnownFront<C>(st: State<C>, run: seq<Event<C>>)
    requires Known(st, run) && |run| > 0
    ensures Known(st, run[..|run| - 1]) && run[|run| - 1].c in st.clients
  {
  }

  /** One more event: a key is watched by it, or was being watched and is not given up. */
  lemma WatchedSinceNext<C>(exec: Executor, st: State<C>, run: seq<Event<C>>, c: C, wk: WatchedKey)
    requires Known(st, run) && |run| > 0 && c in st.clients
    requires Known(st, run[..|run| - 1]) && run[|run| - 1].c in st.clients
    ensures var prev, e := run[..|run| - 1], run[|run| - 1];
            var before := After(exec, st, prev);
            (exists i: nat :: WatchedSince(exec, st, run, i, c, wk))
            <==> Watches(before, e, c, wk)
                 || ((exists i: nat :: WatchedSince(exec, st, prev, i, c, wk)) && !Cleared(before, e, c))
  {
    hide Known, After, Step, Watches, Cleared, WatchedSince, StateAt;
    var prev, last := run[..|run| - 1], |run| - 1;
    BeforeLast(exec, st, run);
    WatchedSinceBound(exec, st, prev, c, wk);
    WatchedSinceLast(exec, st, run, last, c, wk);
    if i: nat :| WatchedSince(exec, st, prev, i, c, wk) && !Cleared(After(exec, st, prev), run[last], c) {
      WatchedSinceStep(exec, st, run, i, c, wk);
    }
    if i: nat :| WatchedSince(exec, st, run, i, c, wk) {
      if i < last {
        WatchedSinceStep(exec, st, run, i, c, wk);
      } else {
        WatchedSinceLast(exec, st, run, i, c, wk);
      }
    }
  }

  /** The same of the client's list and its flag. */
  lemma TrackedNext<C>(exec: Executor, st: State<C>, run: seq<Event<C>>, c: C)
    requires IsStart(st) && Known(st, run) && |run| > 0 && c in st.clients
    requires Known(st, run[..|run| - 1]) && run[|run| - 1].c in st.clients
    ensures Tracks(exec, After(exec, st, run[..|run| - 1]), run[|run| - 1], After(exec, st, run), c)
  {
    hide Known, After, Step, Tracks, Agree, IsStart;
    var prev, e := run[..|run| - 1], run[|run| - 1];
    RunsAgree(exec, st, prev);
    StepTracks(exec, After(exec, st, prev), e);
    BeforeLast(exec, st, run);
  }

  /** A client's list holds exactly the keys it watches since some WATCH of the run. */
  lemma {:induction false} WatchedIff<C>(exec: Executor, st: State<C>, run: seq<Event<C>>, c: C, wk: WatchedKey)
    requires IsStart(st) && Known(st, run) && c in st.clients
    ensures wk in After(exec, st, run).clients[c].watched <==> exists i: nat :: WatchedSince(exec, st, run, i, c, wk)
  {
    if run == [] {
      assert forall i: nat :: !WatchedSince(exec, st, run, i, c, wk);
    } else {
      KnownFront(st, run);
      hide Known, After, Watches, Cleared, WatchedSince, TouchedBy, Hit, IsStart;
      WatchedIff(exec, st, run[..|run| - 1], c, wk);
      TrackedNext(exec, st, run, c);
      WatchedSinceNext(exec, st, run, c, wk);
    }
  }

  lemma WatchedSinceBound<C>(exec: Executor, st: State<C>, run: seq<Event<C>>, c: C, wk: WatchedKey)
    requires Known(st, run) && c in st.clients
    ensures forall i: nat :: WatchedSince(exec, st, run, i, c, wk) ==> i < |run|
  {
  }

  lemma BeforeLast<C>(exec: Executor, st: State<C>, run: seq<Event<C>>)
    requires Known(st, run) && |run| > 0
    ensures StateAt(exec, st, run, |run| - 1) == After(exec, st, run[..|run| - 1])
    ensures var e := run[|run| - 1];
            After(exec, st, run) == Step(exec, After(exec, st, run[..|run| - 1]), e.c, e.request, e.now)
  {
  }

  /** At event `j` some key was signalled as modified that `c` was watching since before. */
  ghost predicate Spoiled<C>(exec: Executor, st: State<C>, run: seq<Event<C>>, c: C, i: nat, j: nat, wk: WatchedKey)
    requires Known(st, run) && c in st.clients
  {
    i < j && WatchedSince(exec, st, run, i, c, wk) && TouchedAt(exec, st, run, j, wk)
  }

  lemma SpoiledStep<C>(exec: Executor, st: State<C>, run: seq<Event<C>>, c: C, i: nat, j: nat, wk: WatchedKey)
    requires Known(st, run) && |run| > 0 && j < |run| - 1 && c in st.clients
    ensures Spoiled(exec, st, run, c, i, j, wk) <==>
            Spoiled(exec, st, run[..|run| - 1], c, i, j, wk)
            && !Cleared(StateAt(exec, st, run, |run| - 1), run[|run| - 1], c)
  {
    hide StateAt, WatchedSince, TouchedBy;
    if i < j {
      WatchedSinceStep(exec, st, run, i, c, wk);
      StateAtPrefix(exec, st, run, j);
    }
  }

  lemma SpoilsNow<C>(exec: Executor, st: State<C>, run: seq<Event<C>>, c: C, i: nat, wk: WatchedKey)
    requires Known(st, run) && |run| > 0 && c in st.clients && Known(st, run[..|run| - 1])
    requires WatchedSince(exec, st, run[..|run| - 1], i, c, wk) && TouchedAt(exec, st, run, |run| - 1, wk)
    requires !Cleared(StateAt(exec, st, run, |run| - 1), run[|run| - 1], c)
    ensures Spoiled(exec, st, run, c, i, |run| - 1, wk)
  {
    hide StateAt, Watches, Cleared, TouchedAt;
    WatchedSinceBound(exec, st, run[..|run| - 1], c, wk);
    WatchedSinceStep(exec, st, run, i, c, wk);
  }

  lemma SpoiledNow<C>(exec: Executor, st: State<C>, run: seq<Event<C>>, c: C, i: nat, wk: WatchedKey)
    requires Known(st, run) && |run| > 0 && c in st.clients && Known(st, run[..|run| - 1])
    requires Spoiled(exec, st, run, c, i, |run| - 1, wk)
    ensures WatchedSince(exec, st, run[..|run| - 1], i, c, wk) && TouchedAt(exec, st, run, |run| - 1, wk)
  {
    hide StateAt, Watches, Cleared, TouchedAt;
    WatchedSinceStep(exec, st, run, i, c, wk);
  }

  /** The last event spoils exactly the keys that were being watched before it. */
  lemma SpoiledLast<C>(exec: Executor, st: State<C>, run: seq<Event<C>>, c: C)
    requires IsStart(st) && Known(st, run) && |run| > 0 && c in st.clients
    requires !Cleared(StateAt(exec, st, run, |run| - 1), run[|run| - 1], c)
    ensures Hit(StateAt(exec, st, run, |run| - 1).index, c,
                TouchedBy(exec, StateAt(exec, st, run, |run| - 1), run[|run| - 1])) <==>
            exists i: nat, j: nat, wk :: j == |run| - 1 && Spoiled(exec, st, run, c, i, j, wk)
  {
    var prev, last := run[..|run| - 1], |run| - 1;
    var before := StateAt(exec, st, run, last);
    var wks := TouchedBy(exec, before, run[last]);
    RunsAgree(exec, st, prev);
    BeforeLast(exec, st, run);
    assert Known(st, prev) && wks == TouchedBy(exec, StateAt(exec, st, run, last), run[last]);
    hide Known, StateAt, After, TouchedBy, Watches, Cleared, Agree, WatchedSince, IsStart, Spoiled;
    if Hit(before.index, c, wks) {
      var k :| 0 <= k < |wks| && Watching(before.index, wks[k], c);
      WatchersAgree(before, c, wks[k]);
      WatchedIff(exec, st, prev, c, wks[k]);
      var i: nat :| WatchedSince(exec, st, prev, i, c, wks[k]);
      SpoilsNow(exec, st, run, c, i, wks[k]);
    }
    if i: nat, j: nat, wk :| j == last && Spoiled(exec, st, run, c, i, j, wk) {
      SpoiledNow(exec, st, run, c, i, wk);
      WatchedIff(exec, st, prev, c, wk);
      WatchersAgree(before, c, wk);
    }
  }

  /** One more event: it spoils a key that is watched, or one was spoiled and is not given up. */
  lemma SpoiledNext<C>(exec: Executor, st: State<C>, run: seq<Event<C>>, c: C)
    requires IsStart(st) && Known(st, run) && |run| > 0 && c in st.clients
    requires Known(st, run[..|run| - 1]) && run[|run| - 1].c in st.clients
    ensures var prev, e := run[..|run| - 1], run[|run| - 1];
            var before := After(exec, st, prev);
            (exists i: nat, j: nat, wk :: Spoiled(exec, st, run, c, i, j, wk))
            <==> !Cleared(before, e, c)
                 && ((exists i: nat, j: nat, wk :: Spoiled(exec, st, prev, c, i, j, wk))
                     || Hit(before.index, c, TouchedBy(exec, before, e)))
  {
    BeforeLast(exec, st, run);
    var prev, last := run[..|run| - 1], |run| - 1;
    hide Known, After, StateAt, Cleared, TouchedBy, Hit, IsStart, Spoiled;
    if Cleared(StateAt(exec, st, run, last), run[last], c) {
      forall i: nat, j: nat, wk ensures !Spoiled(exec, st, run, c, i, j, wk) {
        ClearedIsUnspoiled(exec, st, run, c, i, j, wk);
      }
    } else {
      SpoiledLast(exec, st, run, c);
      if i: nat, j: nat, wk :| Spoiled(exec, st, prev, c, i, j, wk) {
        SpoiledBound(exec, st, prev, c, i, j, wk);
        SpoiledStep(exec, st, run, c, i, j, wk);
      }
      if i: nat, j: nat, wk :| Spoiled(exec, st, run, c, i, j, wk) {
        SpoiledBound(exec, st, run, c, i, j, wk);
        if j < last {
          SpoiledStep(exec, st, run, c, i, j, wk);
        }
      }
    }
  }

  lemma SpoiledBound<C>(exec: Executor, st: State<C>, run: seq<Event<C>>, c: C, i: nat, j: nat, wk: WatchedKey)
    requires Known(st, run) && c in st.clients && Spoiled(exec, st, run, c, i, j, wk)
    ensures i < j < |run|
  {
  }

  lemma ClearedIsUnspoiled<C>(exec: Executor, st: State<C>, run: seq<Event<C>>, c: C, i: nat, j: nat, wk: WatchedKey)
    requires Known(st, run) && |run| > 0 && c in st.clients
    requires Cleared(StateAt(exec, st, run, |run| - 1), run[|run| - 1], c)
    ensures !Spoiled(exec, st, run, c, i, j, wk)
  {
    hide Known, StateAt, Cleared, TouchedBy, Watches;
    assert i < |run| - 1 ==> !WatchedSince(exec, st, run, i, c, wk);
  }

  /** The flag says exactly that a key still watched was modified since it was watched. */
  lemma {:induction false} DirtyIff<C>(exec: Executor, st: State<C>, run: seq<Event<C>>, c: C)
    requires IsStart(st) && Known(st, run) && c in st.clients
    ensures After(exec, st, run).clients[c].dirtyCas <==> exists i: nat, j: nat, wk :: Spoiled(exec, st, run, c, i, j, wk)
  {
    if run != [] {
      KnownFront(st, run);
      hide Known, After, Cleared, TouchedBy, Hit, IsStart, Spoiled, Watches;
      DirtyIff(exec, st, run[..|run| - 1], c);
      TrackedNext(exec, st, run, c);
      SpoiledNext(exec, st, run, c);
    }
  }

  lemma UnspoiledStep<C>(exec: Executor, st: State<C>, run: seq<Event<C>>, c: C, i: nat, wk: WatchedKey, j: nat)
    requires Signals(exec) && IsStart(st) && Known(st, run) && c in st.clients
    requires !After(exec, st, run).clients[c].dirtyCas
    requires WatchedSince(exec, st, run, i, c, wk) && i < j < |run|
    ensures Same(StateAt(exec, st, run, j).data, StateAt(exec, st, run, j + 1).data, wk)
  {
    hide Agree, After, StateAt, WatchedSince, TouchedBy, Step, Signals, Same;
    DirtyIff(exec, st, run, c);
    assert !Spoiled(exec, st, run, c, i, j, wk);
    StepChanges(exec, StateAt(exec, st, run, j), run[j], wk);
    StateAtNext(exec, st, run, j);
  }

  /** WATCH, then EXEC that runs: nothing changed the watched key in between. */
  lemma {:induction false} OptimisticLock<C>(
    exec: Executor, st: State<C>, run: seq<Event<C>>, c: C, i: nat, wk: WatchedKey, j: nat)
    requires Signals(exec) && IsStart(st) && Known(st, run) && c in st.clients
    requires ExecRuns(After(exec, st, run).clients[c])
    requires WatchedSince(exec, st, run, i, c, wk) && i < j <= |run|
    ensures Same(StateAt(exec, st, run, i + 1).data, StateAt(exec, st, run, j).data, wk)
    decreases j
  {
    hide Agree, After, StateAt, WatchedSince, TouchedBy, Step, Signals;
    if j > i + 1 {
      OptimisticLock(exec, st, run, c, i, wk, j - 1);
      UnspoiledStep(exec, st, run, c, i, wk, j - 1);
    }
  }

  lemma StateAtNext<C>(exec: Executor, st: State<C>, run: seq<Event<C>>, j: nat)
    requires Known(st, run) && j < |run|
    ensures StateAt(exec, st, run, j + 1) ==
            Step(exec, StateAt(exec, st, run, j), run[j].c, run[j].request, run[j].now)
  {
    assert run[..j + 1][..j] == run[..j];
  }

  /** A step changes only keys that it signals. */
  lemma StepChanges<C>(exec: Executor, st: State<C>, e: Event<C>, wk: WatchedKey)
    requires Signals(exec) && e.c in st.clients && wk !in TouchedBy(exec, st, e)
    ensures Same(st.data, Step(exec, st, e.c, e.request, e.now).data, wk)
  {
    if e.request.Execute? && ExecRuns(st.clients[e.c]) {
      QueueChanges(exec, UnwatchAllKeys(st, e.c), e.c, st.clients[e.c].queue, e.now, true, wk);
    }
  }

  lemma {:induction false} QueueChanges<C>(
    exec: Executor, st: State<C>, c: C, queue: seq<Request>, now: int, mark: bool, wk: WatchedKey)
    requires Signals(exec) && c in st.clients && wk !in QueueTouches(exec, st, c, queue, now, mark)
    ensures Same(st.data, RunQueue(exec, st, c, queue, now, mark).data, wk)
    decreases |queue|
  {
    if queue != [] {
      var next := RunRequest(exec, st, c, queue[0], now, mark);
      QueueChanges(exec, next, c, queue[1..], now, mark && next.feed == st.feed, wk);
      assert Same(st.data, next.data, wk);
    }
  }

  // ---------- the queue ----------

  predicate Queueable(r: Request) { r.Call? || r.Unwatch? }

  /** The requests of `c` among `run` that a transaction queues, in order. */
  function Sent<C(==)>(run: seq<Event<C>>, c: C): (sent: seq<Request>)
    ensures forall r :: r in sent ==> Queueable(r)
  {
    if run == [] then []
    else
      var e := run[|run| - 1];
      Sent(run[..|run| - 1], c) + if e.c == c && Queueable(e.request) then [e.request] else []
  }

  /** At event `i` client `c` entered the transaction that it is still in. */
  ghost predicate Entered<C>(exec: Executor, st: State<C>, run: seq<Event<C>>, i: nat, c: C)
    requires Known(st, run) && c in st.clients
  {
    && i < |run| && run[i].c == c && run[i].request.Begin?
    && !StateAt(exec, st, run, i).clients[c].multi
    && forall j :: i < j < |run| ==> !(run[j].c == c && (run[j].request.Discard? || run[j].request.Execute?))
  }

  predicate AnyFaulty<C(==)>(run: seq<Event<C>>, c: C) {
    exists e :: e in run && e.c == c && e.request.Faulty?
  }

  /** The queue, and whether EXEC was already lost to a rejected command. */
  ghost predicate QueuedSince<C>(exec: Executor, st: State<C>, run: seq<Event<C>>, i: nat, c: C, se: ClientState)
    requires Known(st, run) && c in st.clients
  {
    && Entered(exec, st, run, i, c) && se.queue == Sent(run[i + 1..], c)
    && (se.dirtyExec <==> AnyFaulty(run[i + 1..], c))
  }

  /** What a step does to the transaction of a client. */
  ghost predicate Queues<C>(e: Event<C>, c: C, before: ClientState, after: ClientState) {
    && after.multi == (if e.c == c && (e.request.Discard? || e.request.Execute?) then false
                       else before.multi || (e.c == c && e.request.Begin?))
    && (!after.multi ==> after.queue == [] && !after.dirtyExec)
    && (after.multi ==>
          && after.queue == before.queue + (if e.c == c && Queueable(e.request) then [e.request] else [])
          && after.dirtyExec == (before.dirtyExec || (e.c == c && e.request.Faulty?)))
  }

  lemma LeaveQueues<C>(exec: Executor, st: State<C>, e: Event<C>, c: C)
    requires Agree(st) && e.c in st.clients && c in st.clients && (e.request.Discard? || e.request.Execute?)
    requires !st.clients[c].multi ==> st.clients[c].queue == [] && !st.clients[c].dirtyExec
    ensures Queues(e, c, st.clients[c], Step(exec, st, e.c, e.request, e.now).clients[c])
  {
    hide Agree, DiscardTransaction, RunQueue, QueueTouches, Hit;
    if st.clients[e.c].multi {
      if e.request.Execute? && ExecRuns(st.clients[e.c]) {
        ExecFlags(exec, st, e.c, e.now);
      } else {
        DiscardKeeps(st, e.c);
      }
    }
  }

  /** WATCH and a command that runs at once leave every queue alone. */
  lemma RunningQueues<C>(exec: Executor, st: State<C>, e: Event<C>, c: C)
    requires Agree(st) && e.c in st.clients && c in st.clients && !st.clients[e.c].multi
    requires e.request.Watch? || e.request.Call?
    requires !st.clients[c].multi ==> st.clients[c].queue == [] && !st.clients[c].dirtyExec
    ensures Queues(e, c, st.clients[c], Step(exec, st, e.c, e.request, e.now).clients[c])
  {
    hide Agree, WatchAll, RunCommand, Hit, Watching;
    if e.request.Watch? {
      WatchAllKeeps(st, e.c, e.request.keys);
    } else {
      RunCommandFlags(exec, st, e.c, e.request.argv, e.now, false);
    }
  }

  lemma StepQueues<C>(exec: Executor, st: State<C>, e: Event<C>, c: C)
    requires Agree(st) && e.c in st.clients && c in st.clients
    requires !st.clients[c].multi ==> st.clients[c].queue == [] && !st.clients[c].dirtyExec
    ensures Queues(e, c, st.clients[c], Step(exec, st, e.c, e.request, e.now).clients[c])
  {
    hide Agree;
    if e.request.Discard? || e.request.Execute? {
      hide *;
      LeaveQueues(exec, st, e, c);
    } else if (e.request.Watch? || e.request.Call?) && !st.clients[e.c].multi {
      hide *;
      RunningQueues(exec, st, e, c);
    } else {
      hide Release, TouchAll, RunCommand;
    }
  }

  /** EXEC finds the requests that its client sent since MULTI, all of them, in order. */
  lemma {:induction false} QueueSinceMulti<C>(exec: Executor, st: State<C>, run: seq<Event<C>>, c: C)
    requires IsStart(st) && Known(st, run) && c in st.clients
    ensures var se := After(exec, st, run).clients[c];
            if se.multi then exists i: nat :: QueuedSince(exec, st, run, i, c, se) else se.queue == [] && !se.dirtyExec
  {
    if run != [] {
      KnownFront(st, run);
      hide Known, After, Agree, Step, Entered, Sent, AnyFaulty, IsStart;
      var prev, last := run[..|run| - 1], |run| - 1;
      QueueSinceMulti(exec, st, prev, c);
      RunsAgree(exec, st, prev);
      StepQueues(exec, After(exec, st, prev), run[last], c);
      BeforeLast(exec, st, run);
      QueuedNext(exec, st, run, prev, c, After(exec, st, prev).clients[c], After(exec, st, run).clients[c]);
    }
  }

  lemma QueuedNext<C>(exec: Executor, st: State<C>, run: seq<Event<C>>, prev: seq<Event<C>>, c: C,
                      before: ClientState, se: ClientState)
    requires Known(st, run) && |run| > 0 && c in st.clients && prev == run[..|run| - 1] && Known(st, prev)
    requires before == After(exec, st, prev).clients[c] && Queues(run[|run| - 1], c, before, se)
    requires if before.multi then exists i: nat :: QueuedSince(exec, st, prev, i, c, before)
             else before.queue == [] && !before.dirtyExec
    ensures se.multi ==> exists i: nat :: QueuedSince(exec, st, run, i, c, se)
  {
    hide Known, After, Entered, Sent, AnyFaulty;
    var last := |run| - 1;
    if se.multi {
      if before.multi {
        var i: nat :| QueuedSince(exec, st, prev, i, c, before);
        assert i < last by { EnteredBefore(exec, st, prev, i, c); }
        QueuedStep(exec, st, run, i, c);
        assert QueuedSince(exec, st, run, i, c, se);
      } else {
        QueuedFirst(exec, st, run, c);
        assert QueuedSince(exec, st, run, last, c, se);
      }
    }
  }

  lemma EnteredBefore<C>(exec: Executor, st: State<C>, run: seq<Event<C>>, i: nat, c: C)
    requires Known(st, run) && c in st.clients && Entered(exec, st, run, i, c)
    ensures i < |run|
  {
  }

  lemma QueuedFirst<C>(exec: Executor, st: State<C>, run: seq<Event<C>>, c: C)
    requires Known(st, run) && |run| > 0 && c in st.clients
    requires var e := run[|run| - 1];
             e.c == c && e.request.Begin? && !After(exec, st, run[..|run| - 1]).clients[c].multi
    ensures Entered(exec, st, run, |run| - 1, c)
    ensures Sent(run[|run| - 1 + 1..], c) == [] && !AnyFaulty(run[|run| - 1 + 1..], c)
  {
    assert run[|run| - 1 + 1..] == [];
  }

  lemma QueuedStep<C>(exec: Executor, st: State<C>, run: seq<Event<C>>, i: nat, c: C)
    requires Known(st, run) && |run| > 0 && c in st.clients && i < |run| - 1
    requires Entered(exec, st, run[..|run| - 1], i, c)
    requires var e := run[|run| - 1]; !(e.c == c && (e.request.Discard? || e.request.Execute?))
    ensures Entered(exec, st, run, i, c)
    ensures var e := run[|run| - 1];
            && Sent(run[i + 1..], c) ==
               Sent(run[..|run| - 1][i + 1..], c) + (if e.c == c && Queueable(e.request) then [e.request] else [])
            && (AnyFaulty(run[i + 1..], c) <==>
                  AnyFaulty(run[..|run| - 1][i + 1..], c) || (e.c == c && e.request.Faulty?))
  {
    hide Step, After;
    StateAtPrefix(exec, st, run, i);
    var tail, e := run[i + 1..], run[|run| - 1];
    assert tail[..|tail| - 1] == run[..|run| - 1][i + 1..] && tail[|tail| - 1] == e;
    assert tail == tail[..|tail| - 1] + [e];
    assert forall x :: x in tail <==> x in tail[..|tail| - 1] || x == e;
  }

  // ---------- EXEC is the queue, run by itself ----------

  /** The requests of `queue` sent back to back by `c`, without a transaction. */
  function Solo<C(==)>(c: C, queue: seq<Request>, now: int): (run: seq<Event<C>>)
    ensures |run| == |queue| && forall i :: 0 <= i < |run| ==> run[i] == Event(c, queue[i], now)
  {
    if queue == [] then [] else [Event(c, queue[0], now)] + Solo(c, queue[1..], now)
  }

  /** The same server, except that `a` has `c` inside of EXEC. */
  ghost predicate Twins<C>(a: State<C>, b: State<C>, c: C) {
    && Agree(a) && Idle(a, c) && c in b.clients && !b.clients[c].multi
    && a.index == b.index && a.data == b.data && a.clients.Keys == b.clients.Keys
    && b.clients[c] == ClientState(a.clients[c].db, false, false, false, [], [])
    && forall d :: d in a.clients && d != c ==> a.clients[d] == b.clients[d]
  }

  /** Both logs grew by the same writes, `a`'s with a MULTI first when it was still due. */
  ghost predicate SameWrites(a: seq<Propagated>, a': seq<Propagated>, b: seq<Propagated>, b': seq<Propagated>, mark: bool) {
    exists w: seq<Propagated> :: b' == b + w && a' == a + if mark && w != [] then [MultiMark] + w else w
  }

  lemma CommandFeed<C>(exec: Executor, a: State<C>, b: State<C>, c: C, argv: Command, now: int, mark: bool)
    requires c in a.clients && c in b.clients && a.clients[c].db == b.clients[c].db && a.data == b.data
    ensures SameWrites(a.feed, RunCommand(exec, a, c, argv, now, mark).feed,
                       b.feed, RunCommand(exec, b, c, argv, now, false).feed, mark)
  {
    var o := exec(argv, b.clients[c].db, b.data, now);
    var w := if o.write then [Write(b.clients[c].db, argv)] else [];
    assert RunCommand(exec, b, c, argv, now, false).feed == b.feed + w;
    assert RunCommand(exec, a, c, argv, now, mark).feed == a.feed + if mark && w != [] then [MultiMark] + w else w;
  }

  lemma TwinsCall<C>(exec: Executor, a: State<C>, b: State<C>, c: C, argv: Command, now: int, mark: bool)
    requires Twins(a, b, c)
    ensures Twins(RunCommand(exec, a, c, argv, now, mark), RunCommand(exec, b, c, argv, now, false), c)
  {
    AgreeFrame(a, b);
    hide RunCommand, Agree, Hit;
    RunCommandFlags(exec, b, c, argv, now, false);
    RunCommandFlags(exec, a, c, argv, now, mark);
    IdleNotHit(a, c, exec(argv, b.clients[c].db, b.data, now).touched);
  }

  lemma TwinsUnwatch<C>(exec: Executor, a: State<C>, b: State<C>, c: C, now: int, mark: bool)
    requires Twins(a, b, c)
    ensures RunRequest(exec, a, c, Unwatch, now, mark) == a && RunRequest(exec, b, c, Unwatch, now, false) == b
  {
    hide Agree, Watching;
    assert Release(a.index, c, []) == a.index;
  }

  lemma TwinsRun<C>(exec: Executor, a: State<C>, b: State<C>, c: C, r: Request, now: int, mark: bool)
    requires Twins(a, b, c) && Queueable(r)
    ensures var a', b' := RunRequest(exec, a, c, r, now, mark), Step(exec, b, c, r, now);
            Twins(a', b', c) && SameWrites(a.feed, a'.feed, b.feed, b'.feed, mark)
  {
    assert Step(exec, b, c, r, now) == RunRequest(exec, b, c, r, now, false);
    assert c in a.clients && a.clients[c].db == b.clients[c].db && a.data == b.data;
    if r.Call? {
      hide RunCommand, Step, Twins, SameWrites;
      TwinsCall(exec, a, b, c, r.argv, now, mark);
      CommandFeed(exec, a, b, c, r.argv, now, mark);
    } else {
      hide RunRequest, Step, Twins;
      TwinsUnwatch(exec, a, b, c, now, mark);
      assert a.feed == a.feed + [] && b.feed == b.feed + [];
    }
  }

  lemma {:induction false} AfterFront<C>(exec: Executor, st: State<C>, e: Event<C>, rest: seq<Event<C>>)
    requires e.c in st.clients && Known(st, rest)
    ensures Known(st, [e] + rest)
    ensures After(exec, st, [e] + rest) == After(exec, Step(exec, st, e.c, e.request, e.now), rest)
  {
    hide Step;
    var run := [e] + rest;
    if rest == [] {
      assert run[..0] == [];
    } else {
      AfterFront(exec, st, e, rest[..|rest| - 1]);
      assert run[..|run| - 1] == [e] + rest[..|rest| - 1];
    }
  }

  /** The queue leaves the same server behind as its requests sent one by one. */
  lemma {:induction false} QueueIsSerial<C>(
    exec: Executor, a: State<C>, b: State<C>, c: C, queue: seq<Request>, now: int, mark: bool)
    requires Twins(a, b, c) && forall r :: r in queue ==> Queueable(r)
    ensures var a', b' := RunQueue(exec, a, c, queue, now, mark), After(exec, b, Solo(c, queue, now));
            Twins(a', b', c) && SameWrites(a.feed, a'.feed, b.feed, b'.feed, mark)
    decreases |queue|
  {
    if queue == [] {
      assert b.feed == b.feed + [] && a.feed == a.feed + [];
    } else {
      assert a.clients.Keys == b.clients.Keys;
      hide Twins, After, Step, RunRequest, Agree, SameWrites;
      var next := RunRequest(exec, a, c, queue[0], now, mark);
      var step := Step(exec, b, c, queue[0], now);
      var mark' := mark && next.feed == a.feed;
      TwinsRun(exec, a, b, c, queue[0], now, mark);
      QueueIsSerial(exec, next, step, c, queue[1..], now, mark');
      AfterFront(exec, b, Event(c, queue[0], now), Solo(c, queue[1..], now));
      var a', b' := RunQueue(exec, a, c, queue, now, mark), After(exec, b, Solo(c, queue, now));
      WritesCompose(a.feed, next.feed, a'.feed, b.feed, step.feed, b'.feed, mark);
    }
  }

  lemma WritesCompose(a: seq<Propagated>, a': seq<Propagated>, a'': seq<Propagated>,
                      b: seq<Propagated>, b': seq<Propagated>, b'': seq<Propagated>, mark: bool)
    requires SameWrites(a, a', b, b', mark) && SameWrites(a', a'', b', b'', mark && a' == a)
    ensures SameWrites(a, a'', b, b'', mark)
  {
    var w: seq<Propagated> :| b' == b + w && a' == a + if mark && w != [] then [MultiMark] + w else w;
    var w': seq<Propagated> :| b'' == b' + w' && a'' == a' + if mark && a' == a && w' != [] then [MultiMark] + w' else w';
    assert b'' == b + (w + w');
    if w == [] {
      assert w + w' == w' && a' == a;
    } else if mark {
      assert |a'| > |a| && a'' == a + ([MultiMark] + (w + w'));
    } else {
      assert a'' == a + (w + w');
    }
  }

  /**
   EXEC that runs does what its client's queued requests do when no one else gets in
   between, and writes them to the log with one MULTI before the first write.
   */
  lemma ExecIsSerial<C>(exec: Executor, st: State<C>, c: C, now: int)
    requires Agree(st) && c in st.clients && ExecRuns(st.clients[c])
    requires forall r :: r in st.clients[c].queue ==> Queueable(r)
    ensures var r := Step(exec, st, c, Execute, now);
            var s := After(exec, DiscardTransaction(st, c), Solo(c, st.clients[c].queue, now));
            r.clients == s.clients && r.index == s.index && r.data == s.data
            && SameWrites(st.feed, r.feed, st.feed, s.feed, true)
  {
    var queue := st.clients[c].queue;
    var free, left := UnwatchAllKeys(st, c), DiscardTransaction(st, c);
    TwinsEnter(st, c);
    hide Release, After, RunQueue, Agree, Twins, SameWrites, UnwatchAllKeys;
    QueueIsSerial(exec, free, left, c, queue, now, true);
    var a := RunQueue(exec, free, c, queue, now, true);
    TwinsLeave(a, After(exec, left, Solo(c, queue, now)), c);
  }

  lemma TwinsEnter<C>(st: State<C>, c: C)
    requires Agree(st) && c in st.clients && !st.clients[c].dirtyCas
    ensures Twins(UnwatchAllKeys(st, c), DiscardTransaction(st, c), c)
    ensures UnwatchAllKeys(st, c).feed == DiscardTransaction(st, c).feed == st.feed
  {
    UnwatchKeeps(st, c);
    hide Release, Agree;
  }

  lemma TwinsLeave<C>(a: State<C>, b: State<C>, c: C)
    requires Twins(a, b, c)
    ensures var r := DiscardTransaction(a, c);
            r.clients == b.clients && r.index == b.index && r.data == b.data && r.feed == a.feed
  {
    assert Release(a.index, c, []) == a.index;
  }

  /** EXEC that refuses, and DISCARD, change no key and write nothing to the log. */
  lemma RefusalChangesNothing<C>(exec: Executor, st: State<C>, c: C, r: Request, now: int)
    requires Agree(st) && c in st.clients && (r.Discard? || (r.Execute? && !ExecRuns(st.clients[c])))
    ensures var st' := Step(exec, st, c, r, now);
            && st'.data == st.data && st'.feed == st.feed && !st'.clients[c].multi
            && (forall d :: d in st.clients && d != c ==> st'.clients[d] == st.clients[d])
            && (st.clients[c].multi ==> !st'.clients[c].dirtyCas && st'.clients[c].watched == [])
  {
    if st.clients[c].multi {
      DiscardKeeps(st, c);
    }
  }

  lemma WatchStep<C>(exec: Executor, st: State<C>, c: C, key: ByteString, now: int)
    requires Agree(st) && c in st.clients && !st.clients[c].multi
    ensures var r := Step(exec, st, c, Watch([key]), now); var wk := WatchedKey(st.clients[c].db, key);
            Agree(r) && Watching(r.index, wk, c) && r.data == st.data
            && r.clients[c] == st.clients[c].(watched := r.clients[c].watched)
  {
    hide Agree, WatchForKey;
    assert Step(exec, st, c, Watch([key]), now) == WatchAll(st, c, [key]);
    WatchAllKeeps(st, c, [key]);
  }

  lemma TouchingCallFlags<C>(exec: Executor, st: State<C>, c: C, wk: WatchedKey, argv: Command, now: int)
    requires Agree(st) && c in st.clients && !st.clients[c].multi && Watching(st.index, wk, c)
    requires wk in exec(argv, st.clients[c].db, st.data, now).touched
    ensures Step(exec, st, c, Call(argv), now).clients[c].dirtyCas
  {
    hide Agree, RunCommand;
    var touched := exec(argv, st.clients[c].db, st.data, now).touched;
    RunCommandFlags(exec, st, c, argv, now, false);
    var i :| 0 <= i < |touched| && touched[i] == wk;
    assert Watching(st.index, touched[i], c);
    assert Step(exec, st, c, Call(argv), now) == RunCommand(exec, st, c, argv, now, false);
  }

  lemma FlaggedIsRefused<C>(exec: Executor, st: State<C>, c: C, now: int)
    requires c in st.clients && st.clients[c].dirtyCas
    ensures !ExecRuns(Step(exec, st, c, Begin, now).clients[c])
  {
  }

  /** The flag does not ask who wrote: a client's own write after WATCH makes its EXEC refuse too. */
  lemma OwnWriteSpoils<C>(exec: Executor, st: State<C>, c: C, key: ByteString, argv: Command, now: int)
    requires Agree(st) && c in st.clients && !st.clients[c].multi
    requires WatchedKey(st.clients[c].db, key) in exec(argv, st.clients[c].db, st.data, now).touched
    ensures var watching := Step(exec, st, c, Watch([key]), now);
            var written := Step(exec, watching, c, Call(argv), now);
            !ExecRuns(Step(exec, written, c, Begin, now).clients[c])
  {
    hide Agree, Step, Watching, ExecRuns;
    var watching := Step(exec, st, c, Watch([key]), now);
    WatchStep(exec, st, c, key, now);
    TouchingCallFlags(exec, watching, c, WatchedKey(st.clients[c].db, key), argv, now);
    FlaggedIsRefused(exec, Step(exec, watching, c, Call(argv), now), c, now);
  }

  /** The order of DISCARD's two halves does not matter. */
  lemma LeaveThenUnwatch<C>(st: State<C>, c: C)
    requires c in st.clients
    ensures var se := st.clients[c];
            UnwatchAllKeys(SetClient(st, c, ClientState(se.db, false, false, false, se.watched, [])), c) ==
            DiscardTransaction(st, c)
  {
    hide Release;
  }
}

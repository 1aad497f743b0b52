/** The transaction commands as they run: clients and dictionaries updated in place. */
module TransactionServer {
  import opened Bytes
  import opened Resp
  import opened Transactions

  class Client {
    var db: nat
    var multi: bool
    var dirtyCas: bool
    var dirtyExec: bool
    var watchedKeys: seq<WatchedKey>
    var commands: seq<Request>

    ghost function View(): ClientState
      reads this
    {
      ClientState(db, multi, dirtyCas, dirtyExec, watchedKeys, commands)
    }

    constructor (db: nat)
      ensures View() == ClientState(db, false, false, false, [], [])
    {
      this.db, multi, dirtyCas, dirtyExec, watchedKeys, commands := db, false, false, false, [], [];
    }

    /** Whether the client's list names this key of this database. */
    method IsWatching(wk: WatchedKey) returns (found: bool)
      ensures found <==> wk in watchedKeys
    {
      var i := 0;
      while i < |watchedKeys|
        invariant 0 <= i <= |watchedKeys| && wk !in watchedKeys[..i]
      {
        if watchedKeys[i] == wk {
          return true;
        }
        i := i + 1;
      }
      found := false;
    }
  }

  lemma {:induction false} WithoutPrefix(list: seq<Client>, c: Client, i: nat)
    requires i < |list| && c !in list[..i] && list[i] == c
    ensures Without(list, c) == list[..i] + list[i + 1..]
  {
    if i > 0 {
      assert list[1..][..i - 1] == list[..i][1..];
      WithoutPrefix(list[1..], c, i - 1);
      assert list[..i] + list[i + 1..] == [list[0]] + (list[1..][..i - 1] + list[1..][i..]);
    }
  }

  lemma {:induction false} WithoutAbsent(list: seq<Client>, c: Client)
    requires c !in list
    ensures Without(list, c) == list
  {
    if list != [] {
      WithoutAbsent(list[1..], c);
    }
  }

  /** Deletes the node of `c` from a list of clients. */
  method RemoveClient(list: seq<Client>, c: Client) returns (rest: seq<Client>)
    ensures rest == Without(list, c)
  {
    var i := 0;
    while i < |list|
      invariant 0 <= i <= |list| && c !in list[..i]
    {
      if list[i] == c {
        WithoutPrefix(list, c, i);
        return list[..i] + list[i + 1..];
      }
      i := i + 1;
    }
    WithoutAbsent(list, c);
    rest := list;
  }

  lemma ListedClients(st: State<Client>, wk: WatchedKey)
    requires Agree(st) && wk in st.index
    ensures forall i :: 0 <= i < |st.index[wk]| ==> st.index[wk][i] in st.clients
  {
  }

  class Server {
    const exec: Executor
    const clients: set<Client>
    var watchedKeys: map<WatchedKey, seq<Client>>
    var data: Dataset
    var feed: seq<Propagated>

    ghost function View(): State<Client>
      reads this, clients
    {
      State(map c | c in clients :: c.View(), watchedKeys, data, feed)
    }

    constructor (exec: Executor, clients: set<Client>, data: Dataset)
      requires forall c :: c in clients ==> c.View() == ClientState(c.db, false, false, false, [], [])
      ensures this.exec == exec && this.clients == clients && this.data == data && feed == []
      ensures IsStart(View())
    {
      this.exec, this.clients, this.data := exec, clients, data;
      watchedKeys, feed := map[], [];
    }

    /** Appends the client to the key's list, which is created when it is the first. */
    method AddWatcher(wk: WatchedKey, c: Client)
      modifies `watchedKeys
      ensures watchedKeys == old(watchedKeys)[wk := (if wk in old(watchedKeys) then old(watchedKeys)[wk] else []) + [c]]
    {
      if wk !in watchedKeys {
        watchedKeys := watchedKeys[wk := []];
      }
      watchedKeys := watchedKeys[wk := watchedKeys[wk] + [c]];
    }

    method WatchForKey(c: Client, key: ByteString)
      requires c in clients
      modifies `watchedKeys, c`watchedKeys
      ensures View() == Transactions.WatchForKey(old(View()), c, key)
    {
      var wk := WatchedKey(c.db, key);
      var found := c.IsWatching(wk);
      if found {
        return;
      }
      AddWatcher(wk, c);
      c.watchedKeys := c.watchedKeys + [wk];
      assert View().clients == old(View()).clients[c := c.View()];
    }

    /** WATCH is refused inside of MULTI. */
    method WatchCommand(c: Client, keys: seq<ByteString>) returns (ok: bool)
      requires c in clients
      modifies `watchedKeys, c`watchedKeys
      ensures ok == !c.multi
      ensures View() == Step(exec, old(View()), c, Watch(keys), 0)
    {
      if c.multi {
        return false;
      }
      var i := 0;
      while i < |keys|
        invariant 0 <= i <= |keys|
        invariant WatchAll(View(), c, keys[i..]) == WatchAll(old(View()), c, keys)
      {
        assert keys[i..][0] == keys[i] && keys[i..][1..] == keys[i + 1..];
        WatchForKey(c, keys[i]);
        i := i + 1;
      }
      ok := true;
    }

    /** Takes the client off one key's list; an empty list goes. */
    method ReleaseKey(c: Client, wk: WatchedKey)
      modifies `watchedKeys
      ensures watchedKeys == ReleaseOne(old(watchedKeys), c, wk)
    {
      if wk in watchedKeys {
        var rest := RemoveClient(watchedKeys[wk], c);
        watchedKeys := if |rest| == 0 then watchedKeys - {wk} else watchedKeys[wk := rest];
      }
    }

    /** The loop over the client's watched keys. */
    method ReleaseKeys(c: Client, wks: seq<WatchedKey>)
      modifies `watchedKeys
      ensures watchedKeys == Release(old(watchedKeys), c, wks)
    {
      hide ReleaseOne;
      var i := 0;
      while i < |wks|
        invariant 0 <= i <= |wks|
        invariant Release(watchedKeys, c, wks[i..]) == Release(old(watchedKeys), c, wks)
      {
        assert wks[i..][0] == wks[i] && wks[i..][1..] == wks[i + 1..];
        ReleaseKey(c, wks[i]);
        i := i + 1;
      }
    }

    method UnwatchAllKeys(c: Client)
      requires c in clients
      modifies `watchedKeys, c`watchedKeys
      ensures View() == Transactions.UnwatchAllKeys(old(View()), c)
    {
      hide Release;
      ReleaseKeys(c, c.watchedKeys);
      c.watchedKeys := [];
      assert View().clients == old(View()).clients[c := c.View()];
    }

    method DiscardTransaction(c: Client)
      requires c in clients
      modifies `watchedKeys, c
      ensures View() == Transactions.DiscardTransaction(old(View()), c)
    {
      hide Transactions.UnwatchAllKeys, Transactions.DiscardTransaction;
      c.commands := [];
      c.multi, c.dirtyCas, c.dirtyExec := false, false, false;
      assert View() == SetClient(old(View()), c, ClientState(c.db, false, false, false, c.watchedKeys, []));
      LeaveThenUnwatch(old(View()), c);
      UnwatchAllKeys(c);
    }

    /** Flags every client of a list. */
    method FlagClients(list: seq<Client>)
      requires forall i :: 0 <= i < |list| ==> list[i] in clients
      modifies clients`dirtyCas
      ensures forall c :: c in clients ==> c.View() == old(c.View()).(dirtyCas := old(c.dirtyCas) || c in list)
    {
      var i := 0;
      while i < |list|
        invariant 0 <= i <= |list|
        invariant forall c :: c in clients ==> c.dirtyCas == (old(c.dirtyCas) || c in list[..i])
      {
        list[i].dirtyCas := true;
        i := i + 1;
      }
      assert list[..i] == list;
    }

    /** touchWatchedKey: every client on the key's list gets the flag. */
    method TouchWatchedKey(wk: WatchedKey)
      requires Agree(View())
      modifies clients`dirtyCas
      ensures View() == Touch(old(View()), wk)
    {
      if |watchedKeys| == 0 || wk !in watchedKeys {
        return;
      }
      ListedClients(View(), wk);
      hide Agree;
      FlagClients(watchedKeys[wk]);
      assert View().clients == Touch(old(View()), wk).clients;
    }

    method SignalModifiedKeys(touched: seq<WatchedKey>)
      requires Agree(View())
      modifies clients`dirtyCas
      ensures View() == TouchAll(old(View()), touched)
    {
      var i := 0;
      while i < |touched|
        invariant 0 <= i <= |touched|
        invariant Agree(View())
        invariant TouchAll(View(), touched[i..]) == TouchAll(old(View()), touched)
      {
        hide Agree;
        assert touched[i..][0] == touched[i] && touched[i..][1..] == touched[i + 1..];
        ghost var before := View();
        TouchWatchedKey(touched[i]);
        assert View() == Touch(before, touched[i]);
        AgreeFrame(before, View());
        i := i + 1;
      }
    }

    /** What the command does to the dataset, the client's database and the log. */
    method ApplyOutcome(c: Client, o: Outcome, argv: Command, mark: bool)
      requires c in clients
      modifies `data, `feed, c`db
      ensures View() == old(View()).(
                data := o.data, clients := old(View()).clients[c := old(c.View()).(db := o.db)],
                feed := old(feed) + if !o.write then [] else (if mark then [MultiMark] else []) + [Write(old(c.db), argv)])
    {
      if o.write {
        feed := feed + ((if mark then [MultiMark] else []) + [Write(c.db, argv)]);
      }
      data := o.data;
      c.db := o.db;
      assert View().clients == old(View()).clients[c := old(c.View()).(db := o.db)];
    }

    /** A command is executed; it signals the keys that it changed, a write goes to the log. */
    method CallCommand(c: Client, argv: Command, now: int, mark: bool) returns (wrote: bool)
      requires c in clients && Agree(View())
      modifies `data, `feed, c`db, clients`dirtyCas
      ensures View() == RunCommand(exec, old(View()), c, argv, now, mark)
      ensures wrote <==> feed != old(feed)
    {
      hide TouchAll, Agree;
      var o := exec(argv, c.db, data, now);
      wrote := o.write;
      ghost var before := View();
      ApplyOutcome(c, o, argv, mark);
      AgreeFrame(before, View());
      SignalModifiedKeys(o.touched);
    }

    method ClearDirty(c: Client)
      requires c in clients
      modifies c`dirtyCas
      ensures View() == SetClient(old(View()), c, old(c.View()).(dirtyCas := false))
    {
      c.dirtyCas := false;
      assert View().clients == old(View()).clients[c := c.View()];
    }

    method UnwatchCommand(c: Client)
      requires c in clients
      modifies `watchedKeys, c`watchedKeys, c`dirtyCas
      ensures View() == RunRequest(exec, old(View()), c, Unwatch, 0, false)
    {
      hide Transactions.UnwatchAllKeys, RunCommand;
      UnwatchAllKeys(c);
      ClearDirty(c);
    }

    method MultiCommand(c: Client)
      requires c in clients
      modifies c`multi
      ensures View() == Step(exec, old(View()), c, Begin, 0)
    {
      c.multi := true;
    }

    /** flagTransaction: a rejected command spoils the transaction it came in. */
    method FlagTransaction(c: Client)
      requires c in clients
      modifies c`dirtyExec
      ensures View() == Step(exec, old(View()), c, Faulty, 0)
    {
      if c.multi {
        c.dirtyExec := true;
      }
    }

    method QueueMultiCommand(c: Client, r: Request)
      requires c in clients && c.multi && Queueable(r)
      modifies c`commands
      ensures View() == Step(exec, old(View()), c, r, 0)
    {
      c.commands := c.commands + [r];
    }

    /** DISCARD is refused outside of MULTI. */
    method DiscardCommand(c: Client) returns (ok: bool)
      requires c in clients
      modifies `watchedKeys, c
      ensures ok == old(c.multi) && View() == Step(exec, old(View()), c, Discard, 0)
    {
      ok := c.multi;
      if ok {
        DiscardTransaction(c);
      }
    }

    method RunQueued(c: Client, r: Request, now: int, mark: bool) returns (wrote: bool)
      requires c in clients && Agree(View()) && Queueable(r)
      modifies `watchedKeys, `data, `feed, c`db, c`watchedKeys, clients`dirtyCas
      ensures View() == RunRequest(exec, old(View()), c, r, now, mark)
      ensures wrote <==> feed != old(feed)
    {
      hide Agree, Transactions.UnwatchAllKeys, RunCommand;
      match r {
        case Call(argv) => wrote := CallCommand(c, argv, now, mark);
        case Unwatch =>
          UnwatchCommand(c);
          wrote := false;
      }
    }

    /** The loop of EXEC over the queue. */
    method RunCommands(c: Client, queue: seq<Request>, now: int)
      requires c in clients && Agree(View()) && Idle(View(), c)
      requires forall r :: r in queue ==> Queueable(r)
      modifies `watchedKeys, `data, `feed, c`db, c`watchedKeys, clients`dirtyCas
      ensures View() == RunQueue(exec, old(View()), c, queue, now, true)
    {
      hide Agree, RunRequest, Idle;
      var i, mark := 0, true;
      while i < |queue|
        invariant 0 <= i <= |queue|
        invariant Agree(View()) && Idle(View(), c)
        invariant RunQueue(exec, View(), c, queue[i..], now, mark) == RunQueue(exec, old(View()), c, queue, now, true)
      {
        assert queue[i..][0] == queue[i] && queue[i..][1..] == queue[i + 1..];
        RunRequestFlags(exec, View(), c, queue[i], now, mark);
        ghost var before := View();
        var wrote := RunQueued(c, queue[i], now, mark);
        assert View() == RunRequest(exec, before, c, queue[i], now, mark);
        mark := mark && !wrote;
        i := i + 1;
      }
    }

    /** Refused: not in MULTI; Aborted: the transaction is given up; Executed: the queue ran. */
    method ExecCommand(c: Client, now: int) returns (reply: ExecReply)
      requires c in clients && Agree(View())
      requires forall r :: r in c.commands ==> Queueable(r)
      modifies this, clients
      ensures View() == Step(exec, old(View()), c, Execute, now)
      ensures reply == if !old(c.multi) then Refused
                       else if old(c.dirtyCas) || old(c.dirtyExec) then Aborted else Executed
    {
      hide Agree, RunQueue, Transactions.DiscardTransaction, Transactions.UnwatchAllKeys;
      ghost var start := View();
      if !c.multi {
        return Refused;
      }
      if c.dirtyCas || c.dirtyExec {
        DiscardTransaction(c);
        return Aborted;
      }
      IdleAfterUnwatch(start, c);
      UnwatchAllKeys(c);
      assert View() == Transactions.UnwatchAllKeys(start, c);
      RunCommands(c, c.commands, now);
      assert View() == RunQueue(exec, Transactions.UnwatchAllKeys(start, c), c, start.clients[c].queue, now, true);
      DiscardTransaction(c);
      reply := Executed;
    }
  }

  lemma IdleAfterUnwatch(st: State<Client>, c: Client)
    requires Agree(st) && c in st.clients && !st.clients[c].dirtyCas
    ensures Agree(Transactions.UnwatchAllKeys(st, c)) && Idle(Transactions.UnwatchAllKeys(st, c), c)
  {
    UnwatchKeeps(st, c);
  }

  datatype ExecReply = Refused | Aborted | Executed
}

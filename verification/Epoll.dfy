/**
 The three records of the epoll poller: its map from file descriptors to channels, the
 index kept in every channel, and the kernel's set of registrations.
 */
module Epoll {
  const NEW: int := -1
  const ADDED: int := 1
  const DELETED: int := 2
  const NONE_EVENT: int := 0

  datatype Chan = Chan(fd: int, events: int, index: int)

  /** What the kernel keeps for a descriptor: the channel of the epoll_event and its events. */
  datatype Registration<C> = Registration(channel: C, events: int)

  datatype State<C(==)> = State(
    channels: map<int, C>, chans: map<C, Chan>, kernel: map<int, Registration<C>>)

  datatype Operation = Add | Mod | Del

  /** Whether `c` is the channel that the map has for its descriptor. */
  predicate HasChannel<C(==)>(st: State<C>, c: C)
    requires c in st.chans
  {
    st.chans[c].fd in st.channels && st.channels[st.chans[c].fd] == c
  }

  function SetIndex<C(==)>(st: State<C>, c: C, index: int): State<C>
    requires c in st.chans
  {
    st.(chans := st.chans[c := st.chans[c].(index := index)])
  }

  /**
   epoll_ctl. ADD needs a descriptor without a registration, MOD and DEL one with a
   registration; ADD and MOD may also be refused for other reasons.
   */
  predicate CtlOk<C(==)>(st: State<C>, op: Operation, c: C, willing: bool)
    requires c in st.chans
  {
    match op
    case Add => willing && st.chans[c].fd !in st.kernel
    case Mod => willing && st.chans[c].fd in st.kernel
    case Del => st.chans[c].fd in st.kernel
  }

  function Ctl<C(==)>(st: State<C>, op: Operation, c: C, willing: bool): State<C>
    requires c in st.chans
  {
    var ch := st.chans[c];
    if !CtlOk(st, op, c, willing) then st
    else if op.Del? then st.(kernel := st.kernel - {ch.fd})
    else st.(kernel := st.kernel[ch.fd := Registration(c, ch.events)])
  }

  /** updateChannel, and what it returns. */
  function UpdateChannel<C(==)>(st: State<C>, c: C, willing: bool): (State<C>, bool)
    requires c in st.chans
  {
    var ch := st.chans[c];
    if ch.index == NEW || ch.index == DELETED then
      if ch.index == NEW && ch.fd in st.channels then (st, false)
      else if ch.index == DELETED && !HasChannel(st, c) then (st, false)
      else
        var mapped := SetIndex(if ch.index == NEW then st.(channels := st.channels[ch.fd := c]) else st, c, ADDED);
        (Ctl(mapped, Add, c, willing), CtlOk(mapped, Add, c, willing))
    else if !HasChannel(st, c) || ch.index != ADDED then (st, false)
    else if ch.events == NONE_EVENT then
      var ok := CtlOk(st, Del, c, willing);
      (if ok then SetIndex(Ctl(st, Del, c, willing), c, DELETED) else st, ok)
    else (Ctl(st, Mod, c, willing), CtlOk(st, Mod, c, willing))
  }

  /** removeChannel; it does not look at what epoll_ctl says. */
  function RemoveChannel<C(==)>(st: State<C>, c: C): State<C>
    requires c in st.chans
  {
    var ch := st.chans[c];
    if !HasChannel(st, c) || ch.events != NONE_EVENT || (ch.index != ADDED && ch.index != DELETED) then st
    else
      var erased := st.(channels := st.channels - {ch.fd});
      SetIndex(if ch.index == ADDED then Ctl(erased, Del, c, true) else erased, c, NEW)
  }

  /** A channel is made, changes the events it wants, is updated or removed; a descriptor is closed. */
  datatype Step<C> =
    | Create(c: C, fd: int) | Want(c: C, events: int) | Update(c: C, willing: bool) | Remove(c: C) | Close(fd: int)

  function Next<C(==)>(st: State<C>, s: Step<C>): State<C> {
    match s
    case Create(c, fd) => if c in st.chans then st else st.(chans := st.chans[c := Chan(fd, NONE_EVENT, NEW)])
    case Want(c, events) => if c !in st.chans then st else st.(chans := st.chans[c := st.chans[c].(events := events)])
    case Update(c, willing) => if c !in st.chans then st else UpdateChannel(st, c, willing).0
    case Remove(c) => if c !in st.chans then st else RemoveChannel(st, c)
    case Close(fd) => st.(kernel := st.kernel - {fd})
  }

  function After<C(==)>(st: State<C>, run: seq<Step<C>>): State<C>
    decreases |run|
  {
    if run == [] then st else After(Next(st, run[0]), run[1..])
  }

  // ---------- the records agree ----------

  /** Every map entry is keyed by its channel's descriptor, and the index says who is in the map. */
  ghost predicate MapAgrees<C>(st: State<C>) {
    && (forall fd :: fd in st.channels ==> st.channels[fd] in st.chans && st.chans[st.channels[fd]].fd == fd)
    && (forall c :: c in st.chans ==> st.chans[c].index in {NEW, ADDED, DELETED}
                                      && (st.chans[c].index == NEW <==> !HasChannel(st, c)))
  }

  /** The kernel knows added channels only, each by its own descriptor. */
  ghost predicate KernelAgrees<C>(st: State<C>)
    requires MapAgrees(st)
  {
    forall fd :: fd in st.kernel ==>
      fd in st.channels && st.kernel[fd].channel == st.channels[fd] && st.chans[st.channels[fd]].index == ADDED
  }

  ghost predicate Agree<C>(st: State<C>) { MapAgrees(st) && KernelAgrees(st) }

  /** A channel that the map takes, or has as a deleted one, is marked as added; the kernel does not know it. */
  lemma MarkAddedKeeps<C>(st: State<C>, c: C)
    requires Agree(st) && c in st.chans
    requires st.chans[c].index == DELETED || (st.chans[c].index == NEW && st.chans[c].fd !in st.channels)
    ensures var mapped := if st.chans[c].index == NEW then st.(channels := st.channels[st.chans[c].fd := c]) else st;
            Agree(SetIndex(mapped, c, ADDED)) && HasChannel(SetIndex(mapped, c, ADDED), c)
            && HasChannel(mapped, c)
  {
  }

  lemma MarkDeletedKeeps<C>(st: State<C>, c: C)
    requires Agree(st) && c in st.chans && st.chans[c].index == ADDED && st.chans[c].fd !in st.kernel
    ensures Agree(SetIndex(st, c, DELETED))
  {
  }

  /** epoll_ctl for an added channel changes its own registration only. */
  lemma CtlKeeps<C>(st: State<C>, op: Operation, c: C, willing: bool)
    requires Agree(st) && c in st.chans && st.chans[c].index == ADDED
    ensures Agree(Ctl(st, op, c, willing))
    ensures op.Del? ==> st.chans[c].fd !in Ctl(st, op, c, willing).kernel
  {
    assert HasChannel(st, c);
  }

  lemma UpdateKeeps<C>(st: State<C>, c: C, willing: bool)
    requires Agree(st) && c in st.chans
    ensures Agree(UpdateChannel(st, c, willing).0)
  {
    hide Agree, Ctl, CtlOk;
    var ch := st.chans[c];
    if ch.index == DELETED || (ch.index == NEW && ch.fd !in st.channels) {
      MarkAddedKeeps(st, c);
      var mapped := if ch.index == NEW then st.(channels := st.channels[ch.fd := c]) else st;
      CtlKeeps(SetIndex(mapped, c, ADDED), Add, c, willing);
    } else if ch.index == ADDED && ch.events == NONE_EVENT {
      CtlKeeps(st, Del, c, willing);
      var cut := Ctl(st, Del, c, willing);
      assert cut.chans == st.chans by { CtlFrame(st, Del, c, willing); }
      MarkDeletedKeeps(cut, c);
    } else if ch.index == ADDED {
      CtlKeeps(st, Mod, c, willing);
    }
  }

  lemma CtlFrame<C>(st: State<C>, op: Operation, c: C, willing: bool)
    requires c in st.chans
    ensures Ctl(st, op, c, willing).chans == st.chans && Ctl(st, op, c, willing).channels == st.channels
  {
  }

  lemma RemoveKeeps<C>(st: State<C>, c: C)
    requires Agree(st) && c in st.chans
    ensures Agree(RemoveChannel(st, c))
  {
  }

  lemma NextKeeps<C>(st: State<C>, s: Step<C>)
    requires Agree(st)
    ensures Agree(Next(st, s))
  {
    match s {
      case Update(c, willing) => if c in st.chans { UpdateKeeps(st, c, willing); }
      case Remove(c) => if c in st.chans { RemoveKeeps(st, c); }
      case _ =>
    }
  }

  /** The three records agree after any run, whatever the kernel refuses and whichever descriptor is closed. */
  lemma {:induction false} RunsAgree<C>(st: State<C>, run: seq<Step<C>>)
    requires Agree(st)
    ensures Agree(After(st, run))
    decreases |run|
  {
    if run != [] {
      NextKeeps(st, run[0]);
      RunsAgree(Next(st, run[0]), run[1..]);
    }
  }

  // ---------- what updateChannel achieves ----------

  /** updateChannel returns true exactly in these cases. */
  lemma UpdateSucceedsIff<C>(st: State<C>, c: C, willing: bool)
    requires Agree(st) && c in st.chans
    ensures var ch := st.chans[c];
            UpdateChannel(st, c, willing).1 <==>
            if ch.index == NEW then willing && ch.fd !in st.channels
            else if ch.index == DELETED then willing
            else ch.fd in st.kernel && (willing || ch.events == NONE_EVENT)
  {
  }

  /** After true the kernel watches the channel for the events it wants, or not at all for none of an added one. */
  lemma UpdateTakesEffect<C>(st: State<C>, c: C, willing: bool)
    requires Agree(st) && c in st.chans && UpdateChannel(st, c, willing).1
    ensures var ch := st.chans[c]; var r := UpdateChannel(st, c, willing).0;
            && (ch.events != NONE_EVENT || ch.index != ADDED ==>
                  ch.fd in r.kernel && r.kernel[ch.fd] == Registration(c, ch.events) && r.chans[c].index == ADDED)
            && (ch.events == NONE_EVENT && ch.index == ADDED ==> ch.fd !in r.kernel && r.chans[c].index == DELETED)
            && (forall fd :: fd != ch.fd ==>
                  (fd in r.kernel <==> fd in st.kernel) && (fd in st.kernel ==> r.kernel[fd] == st.kernel[fd])
                  && (fd in r.channels <==> fd in st.channels)
                  && (fd in st.channels ==> r.channels[fd] == st.channels[fd]))
            && forall d :: d in st.chans && d != c ==> d in r.chans && r.chans[d] == st.chans[d]
  {
  }

  /** After removal the poller has forgotten the channel, and the kernel its descriptor. */
  lemma RemoveForgets<C>(st: State<C>, c: C)
    requires Agree(st) && c in st.chans && HasChannel(st, c) && st.chans[c].events == NONE_EVENT
    ensures var r := RemoveChannel(st, c);
            && st.chans[c].fd !in r.channels && st.chans[c].fd !in r.kernel && r.chans[c].index == NEW
            && r.channels == st.channels - {st.chans[c].fd} && r.kernel == st.kernel - {st.chans[c].fd}
            && r.chans == st.chans[c := st.chans[c].(index := NEW)]
  {
  }

  // ---------- a refused ADD ----------

  /** The index says added although the kernel has no registration. */
  predicate Stuck<C(==)>(st: State<C>, c: C) {
    c in st.chans && st.chans[c].index == ADDED && st.chans[c].fd !in st.kernel
  }

  /** An ADD that the kernel refuses leaves the channel marked as added. */
  lemma RefusedAddSticks<C>(st: State<C>, c: C)
    requires Agree(st) && c in st.chans
    requires st.chans[c].index == DELETED || (st.chans[c].index == NEW && st.chans[c].fd !in st.channels)
    ensures Stuck(UpdateChannel(st, c, false).0, c)
  {
  }

  /** removeChannel for `c` that is not refused because the channel still wants events. */
  predicate Removes<C(==)>(st: State<C>, c: C, s: Step<C>)
    requires c in st.chans
  {
    s == Remove(c) && st.chans[c].events == NONE_EVENT
  }

  /** A removal that takes effect ends it, and nothing else does. */
  lemma StuckNext<C>(st: State<C>, c: C, s: Step<C>)
    requires Agree(st) && Stuck(st, c)
    ensures c in Next(st, s).chans
    ensures Stuck(Next(st, s), c) <==> !Removes(st, c, s)
  {
    assert st.channels[st.chans[c].fd] == c;
    match s {
      case Update(d, willing) =>
        if d in st.chans && d != c && st.chans[d].index != NEW {
          assert HasChannel(st, d) && st.chans[d].fd != st.chans[c].fd;
        }
      case Remove(d) =>
        if d in st.chans && d != c && HasChannel(st, d) {
          assert st.chans[d].fd != st.chans[c].fd;
        }
      case _ =>
    }
  }

  /** No removal of `c` takes effect in the run. */
  predicate NeverRemoved<C(==)>(st: State<C>, c: C, run: seq<Step<C>>)
    decreases |run|
  {
    run != [] ==> (c in st.chans ==> !Removes(st, c, run[0])) && NeverRemoved(Next(st, run[0]), c, run[1..])
  }

  /**
   From then on updateChannel fails for that channel, however often it is tried and
   whatever else happens, until a removal of the channel takes effect.
   */
  lemma {:induction false} StuckUntilRemoved<C>(st: State<C>, c: C, run: seq<Step<C>>, willing: bool)
    requires Agree(st) && Stuck(st, c) && NeverRemoved(st, c, run)
    ensures Stuck(After(st, run), c) && UpdateChannel(After(st, run), c, willing) == (After(st, run), false)
    decreases |run|
  {
    if run != [] {
      NextKeeps(st, run[0]);
      StuckNext(st, c, run[0]);
      StuckUntilRemoved(Next(st, run[0]), c, run[1..], willing);
    }
  }

  predicate Cooperative<C(==)>(s: Step<C>) {
    (s.Update? ==> s.willing) && !s.Close?
  }

  predicate NoneStuck<C(==)>(st: State<C>) {
    forall c :: c in st.chans ==> !Stuck(st, c)
  }

  /** Without a refusing kernel or a closed descriptor the kernel's set is exactly the added channels. */
  lemma {:induction false} CooperativeRunsAreExact<C>(st: State<C>, run: seq<Step<C>>)
    requires Agree(st) && NoneStuck(st) && forall s :: s in run ==> Cooperative(s)
    ensures var r := After(st, run);
            && NoneStuck(r)
            && forall fd :: fd in r.kernel <==>
                 fd in r.channels && r.channels[fd] in r.chans && r.chans[r.channels[fd]].index == ADDED
    decreases |run|
  {
    if run == [] {
      assert forall fd :: fd in st.channels ==> !Stuck(st, st.channels[fd]);
    } else {
      NextKeeps(st, run[0]);
      NextNoneStuck(st, run[0]);
      CooperativeRunsAreExact(Next(st, run[0]), run[1..]);
    }
  }

  lemma NextNoneStuck<C>(st: State<C>, s: Step<C>)
    requires Agree(st) && NoneStuck(st) && Cooperative(s)
    ensures NoneStuck(Next(st, s))
  {
    var r := Next(st, s);
    forall c | c in r.chans
      ensures !Stuck(r, c)
    {
      if c in st.chans {
        assert !Stuck(st, c);
        assert st.chans[c].index == ADDED ==> HasChannel(st, c);
      }
    }
  }

  // ---------- delivering events ----------

  datatype Ready<C> = Ready(channel: C, events: int)

  /** fillActiveChannels: stops at the first event whose channel the map does not have. */
  function FillActiveChannels<C(==)>(st: State<C>, ready: seq<Ready<C>>): seq<C>
    requires forall r :: r in ready ==> r.channel in st.chans
  {
    if ready == [] || !HasChannel(st, ready[0].channel) then []
    else [ready[0].channel] + FillActiveChannels(st, ready[1..])
  }

  ghost predicate Registered<C>(st: State<C>, c: C) {
    exists fd :: fd in st.kernel && st.kernel[fd].channel == c
  }

  /** epoll_wait hands out what was registered, at most once per registration. */
  ghost predicate Delivered<C>(st: State<C>, ready: seq<Ready<C>>) {
    && (forall i :: 0 <= i < |ready| ==> Registered(st, ready[i].channel))
    && (forall i, j :: 0 <= i < j < |ready| ==> ready[i].channel != ready[j].channel)
  }

  lemma DeliveredKnown<C>(st: State<C>, ready: seq<Ready<C>>)
    requires Agree(st) && Delivered(st, ready)
    ensures forall i :: 0 <= i < |ready| ==> ready[i].channel in st.chans && HasChannel(st, ready[i].channel)
  {
  }

  /** The early return never fires: every ready event gives its channel, in order. */
  lemma {:induction false} EveryEventIsActive<C>(st: State<C>, ready: seq<Ready<C>>)
    requires Agree(st) && Delivered(st, ready)
    ensures forall r :: r in ready ==> r.channel in st.chans
    ensures var active := FillActiveChannels(st, ready);
            |active| == |ready| && forall i :: 0 <= i < |ready| ==> active[i] == ready[i].channel
  {
    DeliveredKnown(st, ready);
    if ready != [] {
      var rest := ready[1..];
      assert forall i :: 0 <= i < |rest| ==> rest[i] == ready[i + 1];
      EveryEventIsActive(st, rest);
    }
  }
}

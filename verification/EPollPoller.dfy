/** The poller as its methods run: channels and the poller's fields updated in place. */
module EPollPoller {
  import opened Epoll

  const INIT_EVENT_LIST_SIZE: nat := 16

  class Channel {
    const fd: int
    var events: int
    var revents: int
    var index: int

    function View(): Chan
      reads this
    {
      Chan(fd, events, index)
    }

    constructor (fd: int)
      ensures View() == Chan(fd, NONE_EVENT, NEW) && this.fd == fd
    {
      this.fd, events, revents, index := fd, 0, 0, -1;
    }
  }

  /** An entry of the event list that epoll_wait fills; a fresh one is zero. */
  datatype EpollEvent = Zero | EpollEvent(events: int, channel: Channel)

  /** What epoll_wait does: the events it reports, or an error. */
  datatype WaitResult = Events(ready: seq<Ready<Channel>>) | WaitFailed

  /** The events each channel has after the entries were handed out in order. */
  function LastEvents(ready: seq<Ready<Channel>>): map<Channel, int> {
    if ready == [] then map[]
    else
      var last := ready[|ready| - 1];
      LastEvents(ready[..|ready| - 1])[last.channel := last.events]
  }

  lemma NoEvents(ready: seq<Ready<Channel>>)
    ensures LastEvents(ready[..0]) == map[]
  {
  }

  lemma LastEventsGrow(ready: seq<Ready<Channel>>, i: nat)
    requires i < |ready|
    ensures LastEvents(ready[..i + 1]) == LastEvents(ready[..i])[ready[i].channel := ready[i].events]
  {
    assert ready[..i + 1][..i] == ready[..i];
  }

  lemma {:induction false} EachHasItsEvents(ready: seq<Ready<Channel>>)
    requires forall i, j :: 0 <= i < j < |ready| ==> ready[i].channel != ready[j].channel
    ensures forall i :: 0 <= i < |ready| ==>
              ready[i].channel in LastEvents(ready) && LastEvents(ready)[ready[i].channel] == ready[i].events
    ensures forall c :: c in LastEvents(ready) ==> exists i :: 0 <= i < |ready| && ready[i].channel == c
  {
    if ready != [] {
      var front := ready[..|ready| - 1];
      EachHasItsEvents(front);
      forall c | c in LastEvents(ready)
        ensures exists i :: 0 <= i < |ready| && ready[i].channel == c
      {
        if c in LastEvents(front) {
          var i :| 0 <= i < |front| && front[i].channel == c;
          assert ready[i].channel == c;
        } else {
          assert ready[|ready| - 1].channel == c;
        }
      }
    }
  }

  /** `active` is what the first `i` entries give. */
  ghost predicate Filled(st: State<Channel>, ready: seq<Ready<Channel>>, i: nat, active: seq<Channel>) {
    && i <= |ready| && (forall k :: 0 <= k < |ready| ==> ready[k].channel in st.chans)
    && active + Epoll.FillActiveChannels(st, ready[i..]) == Epoll.FillActiveChannels(st, ready)
  }

  lemma FilledNone(st: State<Channel>, ready: seq<Ready<Channel>>)
    requires forall k :: 0 <= k < |ready| ==> ready[k].channel in st.chans
    ensures Filled(st, ready, 0, [])
  {
    assert ready[0..] == ready;
    var all := Epoll.FillActiveChannels(st, ready);
    assert [] + all == all;
  }

  lemma FilledNext(st: State<Channel>, ready: seq<Ready<Channel>>, i: nat, active: seq<Channel>)
    requires Filled(st, ready, i, active) && i < |ready|
    ensures if Epoll.HasChannel(st, ready[i].channel) then Filled(st, ready, i + 1, active + [ready[i].channel])
            else active == Epoll.FillActiveChannels(st, ready)
  {
    assert ready[i..][0] == ready[i] && ready[i..][1..] == ready[i + 1..];
    if Epoll.HasChannel(st, ready[i].channel) {
      var rest := Epoll.FillActiveChannels(st, ready[i + 1..]);
      assert active + ([ready[i].channel] + rest) == (active + [ready[i].channel]) + rest;
    } else {
      assert active + [] == active;
    }
  }

  lemma FilledAll(st: State<Channel>, ready: seq<Ready<Channel>>, i: nat, active: seq<Channel>)
    requires Filled(st, ready, i, active) && i == |ready|
    ensures active == Epoll.FillActiveChannels(st, ready)
  {
    assert active + [] == active;
  }

  class Poller {
    var events: seq<EpollEvent>
    var channels: map<int, Channel>
    /** The registrations that the kernel keeps for the poller's epoll descriptor. */
    var kernel: map<int, Registration<Channel>>
    /** The channels of the poller's event loop. */
    const owned: set<Channel>

    ghost function View(): State<Channel>
      reads this, owned
    {
      State(channels, map c | c in owned :: c.View(), kernel)
    }

    constructor (owned: set<Channel>)
      requires forall c :: c in owned ==> c.index == NEW
      ensures this.owned == owned && Agree(View()) && |events| == INIT_EVENT_LIST_SIZE
    {
      this.owned := owned;
      events := seq(INIT_EVENT_LIST_SIZE, _ => Zero);
      channels, kernel := map[], map[];
    }

    method HasChannel(channel: Channel) returns (found: bool)
      requires channel in owned
      ensures found <==> Epoll.HasChannel(View(), channel)
    {
      found := channel.fd in channels && channels[channel.fd] == channel;
    }

    /** update: one epoll_ctl call for a channel. */
    method UpdateKernel(op: Operation, channel: Channel, willing: bool) returns (ok: bool)
      requires channel in owned
      modifies `kernel
      ensures ok == CtlOk(old(View()), op, channel, willing)
      ensures View() == Ctl(old(View()), op, channel, willing)
    {
      var fd := channel.fd;
      match op {
        case Add => ok := willing && fd !in kernel;
        case Mod => ok := willing && fd in kernel;
        case Del => ok := fd in kernel;
      }
      if ok {
        kernel := if op.Del? then kernel - {fd} else kernel[fd := Registration(channel, channel.events)];
      }
    }

    method UpdateChannel(channel: Channel, willing: bool) returns (ok: bool)
      requires channel in owned
      modifies `channels, `kernel, channel`index
      ensures View() == Epoll.UpdateChannel(old(View()), channel, willing).0
      ensures ok == Epoll.UpdateChannel(old(View()), channel, willing).1
    {
      hide CtlOk;
      var index, fd := channel.index, channel.fd;
      if index == NEW || index == DELETED {
        if index == NEW {
          if fd in channels {
            return false;
          }
          channels := channels[fd := channel];
        } else {
          if fd !in channels {
            return false;
          }
          if channels[fd] != channel {
            return false;
          }
        }
        channel.index := ADDED;
        ghost var was := old(View());
        assert View() ==
               SetIndex(if index == NEW then was.(channels := was.channels[fd := channel]) else was, channel, ADDED);
        ok := UpdateKernel(Add, channel, willing);
      } else {
        if fd !in channels || channels[fd] != channel || index != ADDED {
          return false;
        }
        if channel.events == NONE_EVENT {
          ok := UpdateKernel(Del, channel, willing);
          if ok {
            ghost var cut := View();
            channel.index := DELETED;
            assert View() == SetIndex(cut, channel, DELETED);
          }
        } else {
          ok := UpdateKernel(Mod, channel, willing);
        }
      }
    }

    method RemoveChannel(channel: Channel)
      requires channel in owned
      modifies `channels, `kernel, channel`index
      ensures View() == Epoll.RemoveChannel(old(View()), channel)
    {
      hide Ctl, CtlOk;
      var fd := channel.fd;
      if fd !in channels || channels[fd] != channel || channel.events != NONE_EVENT {
        return;
      }
      var index := channel.index;
      if index != ADDED && index != DELETED {
        return;
      }
      channels := channels - {fd};
      ghost var erased := View();
      assert erased == old(View()).(channels := old(View()).channels - {fd});
      if index == ADDED {
        var _ := UpdateKernel(Del, channel, true);
      }
      ghost var cut := View();
      channel.index := NEW;
      assert View() == SetIndex(cut, channel, NEW);
    }

    /** Hands the events of the list's first entries to their channels, up to one the map does not have. */
    method FillActiveChannels(numEvents: nat, ghost ready: seq<Ready<Channel>>) returns (active: seq<Channel>)
      requires forall i :: 0 <= i < |ready| ==> ready[i].channel in owned
      requires numEvents == |ready| <= |events|
      requires forall i :: 0 <= i < |ready| ==> events[i] == EpollEvent(ready[i].events, ready[i].channel)
      modifies owned`revents
      ensures View() == old(View()) && |active| <= |ready|
      ensures active == Epoll.FillActiveChannels(old(View()), ready)
      ensures var events := LastEvents(ready[..|active|]);
              forall c :: c in owned ==> c.revents == if c in events then events[c] else old(c.revents)
    {
      hide Epoll.FillActiveChannels, LastEvents, Filled;
      ghost var st := View();
      assert st.channels == channels && forall c :: c in owned ==> c in st.chans && c.fd == st.chans[c].fd;
      active := [];
      FilledNone(st, ready);
      assert LastEvents(ready[..0]) == map[] by { NoEvents(ready); }
      var i := 0;
      while i < numEvents
        invariant 0 <= i <= numEvents && |active| == i && Filled(st, ready, i, active)
        invariant forall c :: c in owned ==>
                    c.revents == if c in LastEvents(ready[..i]) then LastEvents(ready[..i])[c] else old(c.revents)
      {
        FilledNext(st, ready, i, active);
        var channel := events[i].channel;
        var fd := channel.fd;
        if fd !in channels || channels[fd] != channel {
          return;
        }
        channel.revents := events[i].events;
        active := active + [channel];
        LastEventsGrow(ready, i);
        i := i + 1;
      }
      FilledAll(st, ready, i, active);
    }

    /** epoll_wait writes what is ready to the front of the event list. */
    method StoreEvents(ready: seq<Ready<Channel>>)
      requires |ready| <= |events|
      modifies `events
      ensures |events| == old(|events|)
      ensures forall i :: 0 <= i < |ready| ==> events[i] == EpollEvent(ready[i].events, ready[i].channel)
      ensures View() == old(View())
    {
      events := seq(|ready|, i requires 0 <= i < |ready| => EpollEvent(ready[i].events, ready[i].channel))
                + events[|ready|..];
    }

    /** A list that was full is doubled. */
    method GrowEvents()
      modifies `events
      ensures |events| == 2 * old(|events|) && View() == old(View())
    {
      events := events + seq(|events|, _ => Zero);
    }

    /** Events that epoll_wait handed out all reach their channels. */
    method DeliverEvents(numEvents: nat, ghost ready: seq<Ready<Channel>>) returns (active: seq<Channel>)
      requires Agree(View()) && Delivered(View(), ready)
      requires numEvents == |ready| <= |events|
      requires forall i :: 0 <= i < |ready| ==> events[i] == EpollEvent(ready[i].events, ready[i].channel)
      modifies owned`revents
      ensures View() == old(View()) && |active| == |ready|
      ensures forall i :: 0 <= i < |active| ==> active[i] == ready[i].channel && active[i].revents == ready[i].events
      ensures forall c :: c in owned && c !in active ==> c.revents == old(c.revents)
    {
      DeliveredKnown(View(), ready);
      EveryEventIsActive(View(), ready);
      DeliveredOnce(View(), ready);
      hide Agree, Delivered, Epoll.FillActiveChannels, Epoll.HasChannel, LastEvents;
      EachHasItsEvents(ready);
      active := FillActiveChannels(numEvents, ready);
      assert ready[..|active|] == ready;
    }

    /** One epoll_wait; the event list doubles when it was full. */
    method Poll(wait: WaitResult) returns (active: seq<Channel>)
      requires Agree(View()) && |events| > 0
      requires wait.Events? ==> |wait.ready| <= |events| && Delivered(View(), wait.ready)
      modifies `events, owned`revents
      ensures View() == old(View())
      ensures wait.WaitFailed? ==> active == [] && events == old(events)
      ensures wait.Events? ==>
                && |active| == |wait.ready|
                && (forall i :: 0 <= i < |active| ==>
                      active[i] == wait.ready[i].channel && active[i].revents == wait.ready[i].events)
                && |events| == if |wait.ready| == old(|events|) then 2 * old(|events|) else old(|events|)
      ensures forall c :: c in owned && c !in active ==> c.revents == old(c.revents)
    {
      active := [];
      if wait.Events? {
        var ready, numEvents := wait.ready, |wait.ready|;
        hide Agree, Delivered;
        StoreEvents(ready);
        if numEvents > 0 {
          active := DeliverEvents(numEvents, ready);
          if numEvents == |events| {
            GrowEvents();
          }
        }
      }
    }
  }

  lemma DeliveredOnce(st: State<Channel>, ready: seq<Ready<Channel>>)
    requires Delivered(st, ready)
    ensures forall i, j :: 0 <= i < j < |ready| ==> ready[i].channel != ready[j].channel
  {
  }
}

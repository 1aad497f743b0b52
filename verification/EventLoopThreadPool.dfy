/** The pool of event loops, and the round robin over them. */
module EventLoopThreadPool {
  import opened RoundRobin

  class EventLoop {
    constructor () {}
  }

  /** A thread that runs one event loop. */
  class EventLoopThread {
    const index: nat
    var loop: EventLoop?

    constructor (index: nat)
      ensures this.index == index && loop == null
    {
      this.index, loop := index, null;
    }

    /** Starts the thread and waits for its loop. */
    method StartLoop() returns (started: EventLoop)
      modifies this
      ensures fresh(started) && loop == started
    {
      started := new EventLoop();
      loop := started;
    }
  }

  class Pool {
    var baseLoop: EventLoop?
    var started: bool
    var numThreads: int
    var next: nat
    var threads: seq<EventLoopThread>
    var loops: seq<EventLoop>
    /** Which loops getNextLoop has handed out, since the start. */
    ghost var handed: seq<nat>

    ghost predicate Valid()
      reads this
    {
      && |threads| == |loops|
      && (forall i, j :: 0 <= i < j < |loops| ==> loops[i] != loops[j])
      && (!started ==> loops == [])
      && (if loops == [] then next == 0 && handed == []
          else next == AdvanceBy(0, |loops|, |handed|) && handed == Picks(0, |loops|, |handed|))
    }

    constructor ()
      ensures Valid() && !started && baseLoop == null && loops == []
    {
      baseLoop, started, numThreads, next := null, false, 0, 0;
      threads, loops, handed := [], [], [];
    }

    method Init(base: EventLoop?, num: int)
      requires Valid()
      modifies `baseLoop, `numThreads
      ensures Valid() && baseLoop == base && numThreads == num
    {
      numThreads := num;
      baseLoop := base;
    }

    /** Starts the loops once; `calledBack` says that the callback got the base loop. */
    method Start(hasCallback: bool) returns (calledBack: bool)
      requires Valid()
      modifies this
      ensures Valid() && baseLoop == old(baseLoop) && numThreads == old(numThreads)
      ensures started == (old(started) || baseLoop != null)
      ensures old(started) || baseLoop == null ==>
                loops == old(loops) && threads == old(threads) && next == old(next) && handed == old(handed) && !calledBack
      ensures !old(started) && baseLoop != null ==>
                && |loops| == (if numThreads > 0 then numThreads else 0)
                && (forall i :: 0 <= i < |loops| ==> fresh(loops[i]) && threads[i].index == i && threads[i].loop == loops[i])
                && next == 0 && handed == [] && calledBack == (numThreads == 0 && hasCallback)
    {
      calledBack := false;
      if baseLoop == null {
        return;
      }
      if started {
        return;
      }
      started := true;
      var i := 0;
      while i < numThreads
        invariant 0 <= i <= (if numThreads > 0 then numThreads else 0)
        invariant baseLoop == old(baseLoop) && numThreads == old(numThreads) && started
        invariant |loops| == |threads| == i && next == 0 && handed == []
        invariant forall k :: 0 <= k < i ==> fresh(loops[k]) && fresh(threads[k])
        invariant forall k :: 0 <= k < i ==> threads[k].index == k && threads[k].loop == loops[k]
        invariant forall k, l :: 0 <= k < l < i ==> loops[k] != loops[l]
        modifies this
      {
        var t := new EventLoopThread(i);
        var loop := t.StartLoop();
        loops := loops + [loop];
        threads := threads + [t];
        i := i + 1;
      }
      if numThreads == 0 && hasCallback {
        calledBack := true;
      }
    }

    method GetNextLoop() returns (loop: EventLoop?)
      requires Valid() && baseLoop != null
      modifies `next, `handed
      ensures Valid()
      ensures if !started then loop == null && handed == old(handed)
              else if loops == [] then loop == baseLoop && handed == old(handed)
              else handed == old(handed) + [old(next)] && loop == loops[old(next)]
    {
      if !started {
        return null;
      }
      loop := baseLoop;
      if |loops| != 0 {
        loop := loops[next];
        handed := handed + [next];
        next := next + 1;
        if next >= |loops| {
          next := 0;
        }
      }
    }

    /** Hash codes get the same loop iff they belong together; the cursor is not touched. */
    method GetLoopForHash(hashCode: nat) returns (loop: EventLoop)
      requires baseLoop != null
      ensures loops == [] ==> loop == baseLoop
      ensures loops != [] ==> exists i: nat :: Belongs(hashCode, |loops|, i) && loop == loops[i]
    {
      loop := baseLoop;
      if |loops| != 0 {
        RemainderBelongs(hashCode, |loops|);
        loop := loops[hashCode % |loops|];
      }
    }

    method GetAllLoops() returns (all: seq<EventLoop>)
      requires baseLoop != null
      ensures |all| > 0 && all == if loops == [] then [baseLoop] else loops
    {
      if |loops| == 0 {
        all := [baseLoop];
      } else {
        all := loops;
      }
    }

    /** Whom GetLoopForHash answers for two hash codes: the same loop iff they differ by whole rounds. */
    lemma SameLoopIff(a: nat, b: nat, i: nat, j: nat)
      requires Valid() && a <= b && Belongs(a, |loops|, i) && Belongs(b, |loops|, j)
      ensures loops[i] == loops[j] <==> exists rounds: nat :: b - a == |loops| * rounds
    {
      HashesShareALoopIff(a, b, |loops|, i, j);
    }

    /** However many loops have been handed out, each one got its share. */
    lemma LoadIsFair(j: nat)
      requires Valid() && j < |loops|
      ensures |handed| / |loops| <= Count(handed, j) <= (|handed| + |loops| - 1) / |loops|
    {
      PicksAreFair(0, |loops|, |handed|, j);
    }

    /** Any stretch of as many calls as there are loops gives each loop once. */
    lemma EachRoundUsesAll(i: nat, j: nat)
      requires Valid() && j < |loops| && i + |loops| <= |handed|
      ensures Count(handed[i..i + |loops|], j) == 1
    {
      EveryRoundHitsEachOnce(0, |loops|, |handed|, i, j);
    }
  }
}

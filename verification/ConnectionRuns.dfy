/** What holds in every run of the connection protocol, and for which builds. */
module ConnectionRuns {
  import opened Readings
  import opened Epoll
  import opened ConnectionTimer
  import opened HttpServer

  /* ---------- runs that show a property failing ---------- */

  const CLIENT := 5

  ghost function TimerWith(list: seq<Node>, index: map<int, Iter>, e: Epoll): TimerState {
    TimerState(list, index, |index|, MAX_SIZE, TIMEOUT, 1, e)
  }

  // What is queued after the connections that were just accepted.
  function Extra(b: Build): seq<int> {
    if b.fallThrough then [LISTEN_FD] else []
  }

  // A batch that only reports the listening descriptor brings one new connection.
  lemma AcceptOne(b: Build, s: Server) returns (s': Server)
    requires Reaches(b, s) && s.batch == [Listen]
    requires CLIENT !in s.timer.epoll.open && LISTEN_FD in s.timer.epoll.open && LISTEN_FD !in s.timer.hashMap
    ensures Reaches(b, s')
    ensures s' == s.(timer := s.timer.(epoll := Opened(s.timer.epoll, {CLIENT})), batch := [],
                     queue := s.queue + [CLIENT] + Extra(b), served := Reset(s.served, [CLIENT]))
  {
    assert SetOf([CLIENT]) == {CLIENT} && s.batch[1..] == [];
    ReachNext(b, s, Dispatch([CLIENT], 0));
    s' := Next(b, s, Dispatch([CLIENT], 0)).server;
    assert s.queue + [CLIENT] + [] == s.queue + [CLIENT];
  }

  lemma ListenEvent(b: Build, s: Server) returns (s': Server)
    requires Reaches(b, s) && s.batch == [] && LISTEN_FD in s.timer.epoll.open
    ensures Reaches(b, s') && s' == s.(batch := [Listen])
  {
    assert ClientFds([Listen]) == {};
    assert s.timer.epoll.armed - {} == s.timer.epoll.armed;
    ReachNext(b, s, Fetch([Listen]));
    s' := Next(b, s, Fetch([Listen])).server;
  }

  lemma TakeFront(b: Build, s: Server, w: nat, rest: seq<int>) returns (s': Server)
    requires Reaches(b, s) && s.queue == [CLIENT] + rest && w < THREADS && w !in s.workers
    ensures Reaches(b, s')
    ensures s' == s.(queue := rest, workers := s.workers[w := CLIENT],
                     served := s.served[CLIENT := 1 + if CLIENT in s.served then s.served[CLIENT] else 0])
  {
    ReachNext(b, s, Take(w));
    s' := Next(b, s, Take(w)).server;
  }

  // A first request of a new connection is being served.
  lemma FirstRequest(b: Build) returns (s: Server)
    ensures Reaches(b, s)
    ensures s.timer == Init().timer.(epoll := Epoll({LISTEN_FD, CLIENT}, {}, {}))
    ensures s.batch == [] && s.now == 0 && s.workers == map[0 := CLIENT] && s.served == map[CLIENT := 1]
    ensures s.queue == Extra(b)
  {
    assert Run(b, Init(), []) == Running(Init());
    var s1 := ListenEvent(b, Init());
    var s2 := AcceptOne(b, s1);
    assert s2.queue == [CLIENT] + Extra(b) by {
      assert [] + [CLIENT] == [CLIENT];
    }
    s := TakeFront(b, s2, 0, Extra(b));
    assert Reset(map[], [CLIENT]) == map[CLIENT := 0];
  }

  // The connection was kept; the queue is empty and workers 0 and 2 are free.
  lemma KeptOnce(b: Build) returns (s: Server)
    ensures Reaches(b, s)
    ensures var n := Node(0, CLIENT, TIMEOUT);
            s.timer == TimerWith([n], map[CLIENT := At(n)], Epoll({LISTEN_FD, CLIENT}, {CLIENT}, {CLIENT}))
    ensures s.batch == [] && s.queue == [] && s.now == 0
    ensures 0 !in s.workers && 2 !in s.workers && 3 !in s.workers
    ensures CLIENT in s.served && s.served[CLIENT] == 1
  {
    var s1 := FirstRequest(b);
    ReachNext(b, s1, Finish(0, Keep));
    s := Next(b, s1, Finish(0, Keep)).server;
    if b.fallThrough {
      ReachNext(b, s, Take(1));
      s := Next(b, s, Take(1)).server;
    }
  }

  // A batch that reports the kept connection and nothing else.
  lemma ClientEvent(b: Build, s: Server) returns (s': Server)
    requires Reaches(b, s) && s.batch == [] && s.queue == [] && 0 !in s.workers
    requires CLIENT in s.timer.epoll.armed && IsLive(s.timer, CLIENT)
    requires s.timer.timeList == [s.timer.hashMap[CLIENT].node] && CLIENT in s.served
    ensures Reaches(b, s')
    ensures s'.timer == s.timer.(timeList := [], hashMap := s.timer.hashMap[CLIENT := End],
                                 epoll := Fired(s.timer.epoll, {CLIENT}))
    ensures s' == s.(timer := s'.timer, workers := s.workers[0 := CLIENT],
                     served := s.served[CLIENT := s.served[CLIENT] + 1])
  {
    assert ClientFds([Client(CLIENT)]) == {CLIENT} by {
      assert Client(CLIENT) in [Client(CLIENT)];
    }
    ReachNext(b, s, Fetch([Client(CLIENT)]));
    var s1 := Next(b, s, Fetch([Client(CLIENT)])).server;
    assert s1.batch[1..] == [];
    ReachNext(b, s1, Dispatch([], 0));
    var s2 := Next(b, s1, Dispatch([], 0)).server;
    assert s2.timer.timeList == [];
    ReachNext(b, s2, Take(0));
    s' := Next(b, s2, Take(0)).server;
  }

  lemma ServedTwice(b: Build) returns (s: Server)
    ensures Reaches(b, s)
    ensures s.timer == TimerWith([], map[CLIENT := End], Epoll({LISTEN_FD, CLIENT}, {CLIENT}, {}))
    ensures s.batch == [] && s.queue == [] && s.now == 0
    ensures 0 in s.workers && s.workers[0] == CLIENT
    ensures CLIENT in s.served && s.served[CLIENT] == 2
  {
    var s1 := KeptOnce(b);
    s := ClientEvent(b, s1);
    assert s.timer.hashMap == map[CLIENT := End];
  }

  // An alarm handled before a client event of the same batch closes the connection under
  // that event ...
  lemma AlarmBeforeClient(b: Build) returns (s: Server)
    requires !b.alarmLast
    ensures Reaches(b, s)
    ensures s.timer == TimerWith([], map[], Epoll({LISTEN_FD}, {}, {}))
    ensures s.batch == [Client(CLIENT), Listen] && s.queue == [] && 0 !in s.workers && 2 !in s.workers
    ensures 3 !in s.workers
  {
    var s0 := KeptOnce(b);
    ReachNext(b, s0, Tick(16));
    var s1 := s0.(now := 16);
    var s2 := MixedBatch(b, s1);
    assert s2.batch[0] == Alarm && s2.batch[1..] == [Client(CLIENT), Listen];
    AlarmCloses(b, s2);
    ReachNext(b, s2, Dispatch([], 16));
    s := Next(b, s2, Dispatch([], 16)).server;
  }

  lemma MixedBatch(b: Build, s: Server) returns (s': Server)
    requires !b.alarmLast && Reaches(b, s) && s.batch == []
    requires CLIENT in s.timer.epoll.armed && LISTEN_FD in s.timer.epoll.open
    ensures Reaches(b, s')
    ensures s' == WithEpoll(s, Fired(s.timer.epoll, {CLIENT})).(batch := [Alarm, Client(CLIENT), Listen])
  {
    var events := [Alarm, Client(CLIENT), Listen];
    assert ClientFds(events) == {CLIENT} by {
      assert Client(CLIENT) in events;
    }
    ReachNext(b, s, Fetch(events));
    s' := Next(b, s, Fetch(events)).server;
  }

  lemma AlarmCloses(b: Build, s: Server)
    requires s.timer.timeList == [Node(0, CLIENT, TIMEOUT)] && s.timer.curSize == 1 && s.now == 16
    requires s.batch != [] && s.batch[0] == Alarm
    ensures Next(b, s, Dispatch([], 16)) ==
            Running(s.(timer := DropFront(s.timer), batch := s.batch[1..]))
  {
    assert DeleteExpiredFd(b.guarded, DropFront(s.timer), 16) == Defined(DropFront(s.timer));
  }

  // ... which still queues its descriptor.  The kernel then hands the number out again, and
  // two workers get the new connection.
  lemma TwoWorkersOneConnection(b: Build) returns (s: Server)
    requires !b.alarmLast
    ensures Reaches(b, s)
    ensures 0 in s.workers && 2 in s.workers && s.workers[0] == s.workers[2] == CLIENT
    ensures s.timer == TimerWith([], map[], Epoll({LISTEN_FD, CLIENT}, {}, {}))
    ensures s.batch == [] && 3 !in s.workers && CLIENT in s.served && s.served[CLIENT] == 2
    ensures s.queue == Extra(b)
  {
    var s3 := AlarmBeforeClient(b);
    assert s3.batch[1..] == [Listen];
    var s4 := s3.(batch := [Listen], queue := [CLIENT]);
    assert Next(b, s3, Dispatch([], 0)) == Running(s4);
    ReachNext(b, s3, Dispatch([], 0));
    s := AcceptedTwice(b, s4);
  }

  lemma AcceptedTwice(b: Build, s4: Server) returns (s: Server)
    requires Reaches(b, s4) && s4.batch == [Listen] && s4.queue == [CLIENT]
    requires 0 !in s4.workers && 2 !in s4.workers && 3 !in s4.workers
    requires s4.timer == TimerWith([], map[], Epoll({LISTEN_FD}, {}, {}))
    ensures Reaches(b, s) && s.timer == s4.timer.(epoll := Epoll({LISTEN_FD, CLIENT}, {}, {}))
    ensures s.batch == [] && s.workers == s4.workers[0 := CLIENT][2 := CLIENT]
    ensures CLIENT in s.served && s.served[CLIENT] == 2
    ensures s.queue == Extra(b)
  {
    var s5 := AcceptOne(b, s4);
    assert s5.queue == [CLIENT] + ([CLIENT] + Extra(b)) by {
      assert [CLIENT] + [CLIENT] + Extra(b) == [CLIENT] + ([CLIENT] + Extra(b));
    }
    var s6 := TakeFront(b, s5, 0, [CLIENT] + Extra(b));
    s := TakeFront(b, s6, 2, Extra(b));
  }

  // The first of the two workers keeps the connection; its next request is served for a third
  // time although re-arming may be by ADD.
  lemma ServedThrice(b: Build) returns (s: Server)
    requires !b.alarmLast
    ensures Reaches(b, s) && CLIENT in s.timer.epoll.open
    ensures CLIENT in s.served && s.served[CLIENT] == 3
  {
    var s1 := TwoWorkersOneConnection(b);
    ReachNext(b, s1, Finish(0, Keep));
    var s2 := Next(b, s1, Finish(0, Keep)).server;
    if b.fallThrough {
      ReachNext(b, s2, Take(3));
      s2 := Next(b, s2, Take(3)).server;
    }
    s := ClientEvent(b, s2);
  }

  // One of the two workers closes the connection, and then the other one keeps it.
  lemma KeptAfterClose(b: Build) returns (s: Server)
    requires !b.alarmLast
    ensures Reaches(b, s) && s.batch == []
    ensures IsLive(s.timer, CLIENT) && CLIENT !in s.timer.epoll.open && CLIENT !in s.timer.epoll.armed
  {
    var s1 := TwoWorkersOneConnection(b);
    ReachNext(b, s1, Finish(0, Shut));
    var s2 := Next(b, s1, Finish(0, Shut)).server;
    ReachNext(b, s2, Finish(2, Keep));
    s := Next(b, s2, Finish(2, Keep)).server;
  }

  lemma ListenQueuedTwice(b: Build) returns (s: Server)
    requires b.fallThrough
    ensures Reaches(b, s) && s.queue == [LISTEN_FD, LISTEN_FD]
  {
    assert Run(b, Init(), []) == Running(Init());
    s := Init();
    var k := 0;
    while k < 2
      invariant 0 <= k <= 2 && Reaches(b, s) && s.timer == Init().timer && s.batch == []
      invariant s.queue == seq(k, _ => LISTEN_FD)
    {
      ReachNext(b, s, Fetch([Listen]));
      s := Next(b, s, Fetch([Listen])).server;
      assert s.batch[1..] == [];
      ReachNext(b, s, Dispatch([], 0));
      s := Next(b, s, Dispatch([], 0)).server;
      k := k + 1;
    }
  }

  /* ---------- at most one thread per connection ---------- */

  // README.md:27 promises that a connection is handled by at most one thread at a time; it is
  // so in exactly the builds that dispatch the clients of a batch before its alarm.
  lemma ExclusiveIff(b: Build)
    ensures (forall s | Reaches(b, s) :: OneWorkerEach(s)) <==> b.alarmLast
    ensures (forall s | Reaches(b, s) :: Exclusive(s)) <==> b.alarmLast
  {
    if b.alarmLast {
      forall s | Reaches(b, s) ensures Exclusive(s) {
        ReachedStatesAreSafe(b, s);
      }
    } else {
      var s := TwoWorkersOneConnection(b);
      assert !OneWorkerEach(s);
    }
  }

  // No worker, event or queue entry is about the listening descriptor.
  ghost predicate NoListen(s: Server) {
    && LISTEN_FD !in s.queue && LISTEN_FD !in s.timer.epoll.armed && Client(LISTEN_FD) !in s.batch
    && (forall w | w in s.workers :: s.workers[w] != LISTEN_FD)
    && (forall n | n in s.timer.timeList :: n.clientFd != LISTEN_FD)
    && LISTEN_FD in s.timer.epoll.open
  }

  lemma DispatchKeepsNoListen(b: Build, s: Server, accepted: seq<int>, at: int)
    requires !b.fallThrough && NoListen(s) && Next(b, s, Dispatch(accepted, at)).Running?
    ensures NoListen(Next(b, s, Dispatch(accepted, at)).server)
  {
    assert s.batch[0] in s.batch && forall e | e in s.batch[1..] :: e in s.batch;
    match s.batch[0]
    case Client(fd) =>
      ForbidEffect(b.guarded, s.timer, fd);
      RemovalOnlyRemoves(b.guarded, s.timer, fd);
    case Listen =>
    case Alarm => ExpirySparesListen(b.guarded, s.timer, at);
  }

  lemma RemovalOnlyRemoves(guarded: bool, t: TimerState, fd: int)
    ensures ForbidenFd(guarded, t, fd).Defined? ==>
              forall n | n in ForbidenFd(guarded, t, fd).value.timeList :: n in t.timeList
    ensures DeleteFd(guarded, t, fd).Defined? ==>
              forall n | n in DeleteFd(guarded, t, fd).value.timeList :: n in t.timeList
  {
  }

  lemma EndKeepsNoListen(b: Build, s: Server, fd: int, ending: Ending)
    requires NoListen(s) && fd != LISTEN_FD && EndWith(b, s, fd, ending).Running?
    ensures NoListen(EndWith(b, s, fd, ending).server)
  {
    AddEffect(b.rearm, s.timer, fd, s.now);
    RemovalOnlyRemoves(b.guarded, s.timer, fd);
    if DeleteFd(b.guarded, s.timer, fd).Defined? {
      DeleteEffect(b.guarded, s.timer, fd);
    }
  }

  lemma NextKeepsNoListen(b: Build, s: Server, step: Step)
    requires !b.fallThrough && NoListen(s) && Next(b, s, step).Running?
    ensures NoListen(Next(b, s, step).server)
  {
    match step
    case Fetch(events) => assert Client(LISTEN_FD) in events ==> LISTEN_FD in ClientFds(events);
    case Dispatch(accepted, at) => DispatchKeepsNoListen(b, s, accepted, at);
    case Finish(w, ending) => EndKeepsNoListen(b, Released(s, w), s.workers[w], ending);
    case _ =>
  }

  lemma {:induction false} ExpirySparesListen(guarded: bool, t: TimerState, now: int)
    requires forall n | n in t.timeList :: n.clientFd != LISTEN_FD
    ensures var r := DeleteExpiredFd(guarded, t, now);
            r.Defined? ==>
              && r.value.epoll.armed <= t.epoll.armed
              && (LISTEN_FD in r.value.epoll.open <==> LISTEN_FD in t.epoll.open)
              && (forall n | n in r.value.timeList :: n in t.timeList)
    decreases |t.timeList|
  {
    if t.timeList != [] {
      ExpirySparesListen(guarded, DropFront(t), now);
    }
  }

  lemma {:induction false} RunKeepsNoListen(b: Build, s: Server, steps: seq<Step>)
    requires !b.fallThrough && NoListen(s) && Run(b, s, steps).Running?
    ensures NoListen(Run(b, s, steps).server)
    decreases |steps|
  {
    if steps != [] {
      NextKeepsNoListen(b, s, steps[0]);
      RunKeepsNoListen(b, Next(b, s, steps[0]).server, steps[1..]);
    }
  }

  // A worker that is given the listening descriptor ends by closing it ...
  lemma ListenClosed(b: Build) returns (s: Server)
    requires b.fallThrough
    ensures Reaches(b, s) && LISTEN_FD !in s.timer.epoll.open
  {
    var s1 := FirstRequest(b);
    ReachNext(b, s1, Take(1));
    var s2 := Next(b, s1, Take(1)).server;
    ReachNext(b, s2, Finish(1, Failed));
    s := Next(b, s2, Finish(1, Failed)).server;
  }

  // ... and no connection is accepted ever after.
  lemma NextAcceptsNothing(b: Build, s: Server, step: Step)
    requires LISTEN_FD !in s.timer.epoll.open && Next(b, s, step).Running?
    ensures Next(b, s, step).server.timer.epoll.open <= s.timer.epoll.open
  {
    match step
    case Finish(w, ending) => EndOpensNothing(b, Released(s, w), s.workers[w], ending);
    case Dispatch(accepted, at) =>
      match s.batch[0] {
        case Client(fd) => ForbidEffect(b.guarded, s.timer, fd);
        case Listen =>
          assert accepted == [] && SetOf(accepted) == {};
          var t := s.timer.(epoll := Opened(s.timer.epoll, {}));
          if b.fallThrough {
            ForbidEffect(b.guarded, t, LISTEN_FD);
          }
        case Alarm => ExpiryOpensNothing(b.guarded, s.timer, at);
      }
    case _ =>
  }

  lemma EndOpensNothing(b: Build, s: Server, fd: int, ending: Ending)
    requires EndWith(b, s, fd, ending).Running?
    ensures EndWith(b, s, fd, ending).server.timer.epoll.open <= s.timer.epoll.open
  {
    AddEffect(b.rearm, s.timer, fd, s.now);
    if DeleteFd(b.guarded, s.timer, fd).Defined? {
      DeleteEffect(b.guarded, s.timer, fd);
    }
  }

  lemma {:induction false} ExpiryOpensNothing(guarded: bool, t: TimerState, now: int)
    ensures var r := DeleteExpiredFd(guarded, t, now); r.Defined? ==> r.value.epoll.open <= t.epoll.open
    decreases |t.timeList|
  {
    if t.timeList != [] {
      ExpiryOpensNothing(guarded, DropFront(t), now);
    }
  }

  lemma {:induction false} ClosedListenAcceptsNothing(b: Build, s: Server, steps: seq<Step>)
    requires LISTEN_FD !in s.timer.epoll.open && Run(b, s, steps).Running?
    ensures Run(b, s, steps).server.timer.epoll.open <= s.timer.epoll.open
    decreases |steps|
  {
    if steps != [] {
      NextAcceptsNothing(b, s, steps[0]);
      ClosedListenAcceptsNothing(b, Next(b, s, steps[0]).server, steps[1..]);
    }
  }

  // The listening descriptor is served as if it were a client, and the server may stop
  // accepting for good, exactly because of the fall-through.
  lemma ListenServedIff(b: Build)
    ensures (exists s :: Reaches(b, s) && LISTEN_FD in s.queue) <==> b.fallThrough
    ensures (forall s | Reaches(b, s) :: LISTEN_FD in s.timer.epoll.open) <==> !b.fallThrough
  {
    if b.fallThrough {
      var s := ListenQueuedTwice(b);
      assert s.queue[0] == LISTEN_FD;
      var closed := ListenClosed(b);
    } else {
      forall s | Reaches(b, s) ensures LISTEN_FD !in s.queue && LISTEN_FD in s.timer.epoll.open {
        var steps :| Run(b, Init(), steps) == Running(s);
        RunKeepsNoListen(b, Init(), steps);
      }
    }
  }

  // In every state of the run each connection is in at most one place, and safe there.
  ghost predicate AlwaysInv(b: Build, s: Server, steps: seq<Step>)
    decreases |steps|
  {
    && Inv(s)
    && (steps != [] && Next(b, s, steps[0]).Running? ==> AlwaysInv(b, Next(b, s, steps[0]).server, steps[1..]))
  }

  // No alarm of the run closes a connection whose event is still to be dispatched.
  ghost predicate AlarmsSpare(b: Build, s: Server, steps: seq<Step>)
    decreases |steps|
  {
    steps != [] && Next(b, s, steps[0]).Running? ==>
      && (IsAlarm(s, steps[0]) ==> Spares(s.batch[1..], Gone(b.guarded, s.timer, steps[0].at)))
      && AlarmsSpare(b, Next(b, s, steps[0]).server, steps[1..])
  }

  // For a single run of any build, the program as written included.
  lemma {:induction false} SafeRunIff(b: Build, s: Server, steps: seq<Step>)
    requires Inv(s)
    ensures AlwaysInv(b, s, steps) <==> AlarmsSpare(b, s, steps)
    decreases |steps|
  {
    if steps != [] && Next(b, s, steps[0]).Running? {
      var s' := Next(b, s, steps[0]).server;
      NextKeepsInvIff(b, s, steps[0]);
      if Inv(s') {
        SafeRunIff(b, s', steps[1..]);
      }
    }
  }

  // Reordering is only needed for batches that mix: whatever the dispatch order, a run
  // whose batches never have an alarm before a client event stays safe, and with ADD serves
  // a connection at most twice.
  lemma OrderedBatchesAreSafe(b: Build, steps: seq<Step>)
    requires Run(b, Init(), steps).Running?
    requires forall events | Fetch(events) in steps :: AlarmsAfterClients(events)
    ensures Inv(Run(b, Init(), steps).server)
    ensures var s := Run(b, Init(), steps).server;
            b.rearm == ByAdd ==> forall fd | fd in s.served && fd != LISTEN_FD :: s.served[fd] <= 2
  {
    SameRun(b, Init(), steps);
    ReachedStatesAreSafe(b.(alarmLast := true), Run(b, Init(), steps).server);
    ServedAtMostTwiceIff(b.(alarmLast := true));
  }

  lemma {:induction false} SameRun(b: Build, s: Server, steps: seq<Step>)
    requires forall events | Fetch(events) in steps :: AlarmsAfterClients(events)
    ensures Run(b.(alarmLast := true), s, steps) == Run(b, s, steps)
    decreases |steps|
  {
    if steps != [] {
      assert steps[0] in steps;
      assert Next(b.(alarmLast := true), s, steps[0]) == Next(b, s, steps[0]);
      if Next(b, s, steps[0]).Running? {
        SameRun(b, Next(b, s, steps[0]).server, steps[1..]);
      }
    }
  }

  // The timer's counter and list agree when the listening descriptor is never served.
  lemma EndKeepsValid(b: Build, s: Server, fd: int, ending: Ending)
    requires Valid(s.timer) && !IsLive(s.timer, fd) && EndWith(b, s, fd, ending).Running?
    ensures Valid(EndWith(b, s, fd, ending).server.timer)
  {
    AddFdKeepsValid(b.rearm, s.timer, fd, s.now);
    DeleteFdRefines(b.guarded, s.timer, fd);
    if ending != Keep && DeleteFd(b.guarded, s.timer, fd).Defined? {
      var t := DeleteFd(b.guarded, s.timer, fd).value;
      ValidIgnoresEpoll(t, Close(t.epoll, fd));
    }
    ValidIgnoresEpoll(s.timer, Close(s.timer.epoll, fd));
  }

  lemma ValidIgnoresEpoll(t: TimerState, e: Epoll)
    requires Valid(t)
    ensures Valid(t.(epoll := e))
  {
  }

  lemma DispatchKeepsValid(b: Build, s: Server, accepted: seq<int>, at: int)
    requires Sorted(s.timer) && Valid(s.timer) && Next(b, s, Dispatch(accepted, at)).Running?
    ensures Valid(Next(b, s, Dispatch(accepted, at)).server.timer)
  {
    match s.batch[0]
    case Client(fd) => ForbidenFdRefines(b.guarded, s.timer, fd);
    case Listen =>
      var e := Opened(s.timer.epoll, SetOf(accepted));
      ValidIgnoresEpoll(s.timer, e);
      ForbidenFdRefines(b.guarded, s.timer.(epoll := e), LISTEN_FD);
    case Alarm => ExpiryIsExact(b.guarded, s.timer, at);
  }

  lemma NextKeepsValid(b: Build, s: Server, step: Step)
    requires Inv(s) && NoListen(s) && Valid(s.timer) && Next(b, s, step).Running?
    ensures Valid(Next(b, s, step).server.timer)
  {
    match step
    case Finish(w, ending) => EndKeepsValid(b, Released(s, w), s.workers[w], ending);
    case Dispatch(accepted, at) => DispatchKeepsValid(b, s, accepted, at);
    case Fetch(events) => ValidIgnoresEpoll(s.timer, Fired(s.timer.epoll, ClientFds(events)));
    case _ =>
  }

  lemma {:induction false} RunKeepsValid(b: Build, s: Server, steps: seq<Step>)
    requires b.alarmLast && !b.fallThrough && AlarmsAfterClients(s.batch)
    requires Inv(s) && NoListen(s) && Valid(s.timer) && Run(b, s, steps).Running?
    ensures Valid(Run(b, s, steps).server.timer)
    decreases |steps|
  {
    if steps != [] {
      NextKeepsInv(b, s, steps[0]);
      NextKeepsNoListen(b, s, steps[0]);
      NextKeepsValid(b, s, steps[0]);
      RunKeepsValid(b, Next(b, s, steps[0]).server, steps[1..]);
    }
  }

  // The connections that an alarm closes are the expired ones, unless the counter has lost
  // track of the list; it can do so only when the listening descriptor is served as well.
  lemma GoneAreExpired(b: Build, s: Server, at: int)
    requires b.alarmLast && Reaches(b, s)
    ensures Gone(b.guarded, s.timer, at) <= ExpiredFds(s.timer, at)
    ensures b.guarded || !b.fallThrough ==> Gone(b.guarded, s.timer, at) == ExpiredFds(s.timer, at)
  {
    if b.guarded {
      GoneIsExpired(b.guarded, s.timer, at);
    } else if !b.fallThrough {
      var steps :| Run(b, Init(), steps) == Running(s);
      InitInv();
      RunKeepsValid(b, Init(), steps);
      GoneIsExpired(b.guarded, s.timer, at);
    }
  }

  // In those builds expiry closes no connection that is queued or being served.
  lemma ExpirySparesServed(b: Build, s: Server, accepted: seq<int>, at: int)
    requires b.alarmLast && Reaches(b, s)
    requires s.batch != [] && s.batch[0].Alarm? && Next(b, s, Dispatch(accepted, at)).Running?
    ensures var s', closed := Next(b, s, Dispatch(accepted, at)).server, Gone(b.guarded, s.timer, at);
            && (forall fd | fd in s.queue && fd != LISTEN_FD :: fd in s'.timer.epoll.open)
            && (forall w | w in s.workers && s.workers[w] != LISTEN_FD :: s.workers[w] in s'.timer.epoll.open)
            && (forall fd | fd != LISTEN_FD ::
                  fd in s.timer.epoll.open && fd !in s'.timer.epoll.open <==> fd in closed)
            && closed <= ExpiredFds(s.timer, at)
            && (b.guarded || !b.fallThrough ==> closed == ExpiredFds(s.timer, at))
  {
    ReachNext(b, s, Dispatch(accepted, at));
    ReachedStatesAreSafe(b, s);
    ReachedStatesAreSafe(b, Next(b, s, Dispatch(accepted, at)).server);
    ExpiryKeepsTimer(b.guarded, s.timer, s.now, at);
    GoneAreExpired(b, s, at);
  }

  /* ---------- order of events and of service ---------- */

  // What a step hands to the workers: new clients as they were accepted, or one with an event.
  function Handed(b: Build, s: Server, step: Step): seq<int> {
    if !step.Dispatch? || s.batch == [] then []
    else
      match s.batch[0]
      case Client(fd) => [fd]
      case Listen => step.accepted + Extra(b)
      case Alarm => []
  }

  // The descriptor that a worker gets by taking.
  function Got(s': Server, step: Step): seq<int> {
    if step.Take? && step.worker in s'.workers then [s'.workers[step.worker]] else []
  }

  // The work list is first in, first out; nobody else touches it or another worker's descriptor.
  lemma StepServesInOrder(b: Build, s: Server, step: Step)
    requires Next(b, s, step).Running?
    ensures var s' := Next(b, s, step).server;
            && s.queue + Handed(b, s, step) == Got(s', step) + s'.queue
            && (step.Take? ==> step.worker in s'.workers)
            && s'.workers.Keys == (match step
                                   case Take(w) => s.workers.Keys + {w}
                                   case Finish(w, _) => s.workers.Keys - {w}
                                   case _ => s.workers.Keys)
            && forall v | v in s.workers && v in s'.workers :: s'.workers[v] == s.workers[v]
  {
    match step
    case Finish(w, ending) => EndEffect(b, Released(s, w), s.workers[w], ending);
    case Dispatch(accepted, at) => DispatchQueues(b, s, accepted, at);
    case Take(w) => assert s.queue == [s.queue[0]] + s.queue[1..];
    case _ =>
  }

  lemma DispatchQueues(b: Build, s: Server, accepted: seq<int>, at: int)
    requires Next(b, s, Dispatch(accepted, at)).Running?
    ensures var s' := Next(b, s, Dispatch(accepted, at)).server;
            && s'.queue == s.queue + Handed(b, s, Dispatch(accepted, at))
            && s'.workers == s.workers && s'.batch == s.batch[1..]
  {
    if s.batch[0].Listen? {
      Associate(s.queue, accepted, Extra(b));
    }
  }

  function Elapsed(steps: seq<Step>): nat
    decreases |steps|
  {
    if steps == [] then 0 else (if steps[0].Tick? then steps[0].seconds else 0) + Elapsed(steps[1..])
  }

  // Only ticks move the clock.
  lemma {:induction false} TimePasses(b: Build, s: Server, steps: seq<Step>)
    requires Run(b, s, steps).Running?
    ensures Run(b, s, steps).server.now == s.now + Elapsed(steps)
    decreases |steps|
  {
    if steps != [] {
      if steps[0].Finish? {
        EndEffect(b, Released(s, steps[0].worker), s.workers[steps[0].worker], steps[0].ending);
      }
      TimePasses(b, Next(b, s, steps[0]).server, steps[1..]);
    }
  }

  ghost function HandedIn(b: Build, s: Server, steps: seq<Step>): seq<int>
    requires Run(b, s, steps).Running?
    decreases |steps|
  {
    if steps == [] then [] else Handed(b, s, steps[0]) + HandedIn(b, Next(b, s, steps[0]).server, steps[1..])
  }

  ghost function GotIn(b: Build, s: Server, steps: seq<Step>): seq<int>
    requires Run(b, s, steps).Running?
    decreases |steps|
  {
    if steps == [] then []
    else Got(Next(b, s, steps[0]).server, steps[0]) + GotIn(b, Next(b, s, steps[0]).server, steps[1..])
  }

  function TakesIn(steps: seq<Step>): nat
    decreases |steps|
  {
    if steps == [] then 0 else (if steps[0].Take? then 1 else 0) + TakesIn(steps[1..])
  }

  // In every run of every build descriptors are served in the order in which they were handed over,
  // one for each take.
  lemma {:induction false} ServedInOrder(b: Build, s: Server, steps: seq<Step>)
    requires Run(b, s, steps).Running?
    ensures s.queue + HandedIn(b, s, steps) == GotIn(b, s, steps) + Run(b, s, steps).server.queue
    ensures |GotIn(b, s, steps)| == TakesIn(steps)
    decreases |steps|
  {
    if steps != [] {
      var s1 := Next(b, s, steps[0]).server;
      StepServesInOrder(b, s, steps[0]);
      ServedInOrder(b, s1, steps[1..]);
      Associate(s.queue, Handed(b, s, steps[0]), HandedIn(b, s1, steps[1..]));
      Associate(Got(s1, steps[0]), s1.queue, HandedIn(b, s1, steps[1..]));
      Associate(Got(s1, steps[0]), GotIn(b, s1, steps[1..]), Run(b, s, steps).server.queue);
    }
  }

  function FetchedIn(steps: seq<Step>): seq<Event>
    decreases |steps|
  {
    if steps == [] then [] else (if steps[0].Fetch? then steps[0].events else []) + FetchedIn(steps[1..])
  }

  ghost function DispatchedIn(b: Build, s: Server, steps: seq<Step>): seq<Event>
    requires Run(b, s, steps).Running?
    decreases |steps|
  {
    if steps == [] then []
    else (if steps[0].Dispatch? && s.batch != [] then [s.batch[0]] else [])
         + DispatchedIn(b, Next(b, s, steps[0]).server, steps[1..])
  }

  lemma StepDispatchesInOrder(b: Build, s: Server, step: Step)
    requires Next(b, s, step).Running?
    ensures var s' := Next(b, s, step).server;
            s.batch + (if step.Fetch? then step.events else []) ==
            (if step.Dispatch? && s.batch != [] then [s.batch[0]] else []) + s'.batch
    ensures step.Dispatch? ==> s.batch != []
  {
    match step
    case Finish(w, ending) => EndEffect(b, Released(s, w), s.workers[w], ending);
    case Dispatch(accepted, at) =>
      DispatchQueues(b, s, accepted, at);
      assert s.batch == [s.batch[0]] + s.batch[1..];
    case _ =>
  }

  // Every event that the kernel reports is dispatched once, in the order reported.
  lemma {:induction false} EventsInOrder(b: Build, s: Server, steps: seq<Step>)
    requires Run(b, s, steps).Running?
    ensures s.batch + FetchedIn(steps) == DispatchedIn(b, s, steps) + Run(b, s, steps).server.batch
    decreases |steps|
  {
    if steps != [] {
      var s1 := Next(b, s, steps[0]).server;
      var fetched := if steps[0].Fetch? then steps[0].events else [];
      var done := if steps[0].Dispatch? && s.batch != [] then [s.batch[0]] else [];
      StepDispatchesInOrder(b, s, steps[0]);
      EventsInOrder(b, s1, steps[1..]);
      Associate(s.batch, fetched, FetchedIn(steps[1..]));
      Associate(done, s1.batch, FetchedIn(steps[1..]));
      Associate(done, DispatchedIn(b, s1, steps[1..]), Run(b, s, steps).server.batch);
    }
  }

  /* ---------- connections that nobody has any more ---------- */

  ghost predicate Served(s: Server, fd: int) {
    exists w :: w in s.workers && s.workers[w] == fd
  }

  // Every open connection is in one of the three places.
  ghost predicate Accounted(s: Server) {
    forall fd | fd in s.timer.epoll.open && fd != LISTEN_FD ::
      IsLive(s.timer, fd) || fd in s.queue || Served(s, fd)
  }

  // The worker returns without a word, or the timer refuses what it wants to keep.
  predicate Leaks(s: Server, step: Step) {
    && step.Finish? && step.worker in s.workers && s.workers[step.worker] != LISTEN_FD
    && (step.ending == Silent || (step.ending == Keep && s.timer.curSize >= s.timer.maxSize))
  }

  lemma FinishKeepsAccountedIff(b: Build, s: Server, w: nat, ending: Ending)
    requires Inv(s) && Accounted(s) && Next(b, s, Finish(w, ending)).Running?
    ensures Accounted(Next(b, s, Finish(w, ending)).server) <==> !Leaks(s, Finish(w, ending))
  {
    var fd, s1, s' := s.workers[w], Released(s, w), Next(b, s, Finish(w, ending)).server;
    ReleaseKeepsInv(s, w);
    EndEffect(b, s1, fd, ending);
    OthersStayAccounted(s, s', w);
    if fd != LISTEN_FD {
      assert !Served(s', fd) && fd !in s'.queue && fd in s.timer.epoll.open;
    }
  }

  lemma EndEffect(b: Build, s: Server, fd: int, ending: Ending)
    requires EndWith(b, s, fd, ending).Running?
    ensures var s', kept := EndWith(b, s, fd, ending).server, ending == Keep && s.timer.curSize < s.timer.maxSize;
            && s' == s.(timer := s'.timer)
            && (forall f | f != fd :: IsLive(s'.timer, f) <==> IsLive(s.timer, f))
            && (forall f | f != fd :: f in s'.timer.epoll.open <==> f in s.timer.epoll.open)
            && (fd in s'.timer.epoll.open <==> fd in s.timer.epoll.open && (ending == Keep || ending == Silent))
            && (!IsLive(s.timer, fd) ==> (IsLive(s'.timer, fd) <==> kept))
  {
    AddEffect(b.rearm, s.timer, fd, s.now);
    if DeleteFd(b.guarded, s.timer, fd).Defined? {
      DeleteEffect(b.guarded, s.timer, fd);
    }
  }

  lemma OthersStayAccounted(s: Server, s': Server, w: nat)
    requires Accounted(s) && w in s.workers && s' == Released(s, w).(timer := s'.timer)
    requires forall f | f != s.workers[w] :: IsLive(s'.timer, f) <==> IsLive(s.timer, f)
    requires forall f | f != s.workers[w] :: f in s'.timer.epoll.open <==> f in s.timer.epoll.open
    ensures forall f | f in s'.timer.epoll.open && f != LISTEN_FD && f != s.workers[w] ::
              IsLive(s'.timer, f) || f in s'.queue || Served(s', f)
  {
    forall f | f != s.workers[w] && Served(s, f) ensures Served(s', f) {
      var v :| v in s.workers && s.workers[v] == f;
      assert v in s'.workers && s'.workers[v] == f;
    }
  }

  lemma DispatchKeepsAccounted(b: Build, s: Server, accepted: seq<int>, at: int)
    requires Inv(s) && Accounted(s) && Next(b, s, Dispatch(accepted, at)).Running?
    ensures Accounted(Next(b, s, Dispatch(accepted, at)).server)
  {
    var s' := Next(b, s, Dispatch(accepted, at)).server;
    assert forall fd :: Served(s', fd) <==> Served(s, fd);
    match s.batch[0]
    case Client(fd) => ForbidEffect(b.guarded, s.timer, fd);
    case Listen =>
      if b.fallThrough {
        ForbidEffect(b.guarded, s.timer.(epoll := Opened(s.timer.epoll, SetOf(accepted))), LISTEN_FD);
      }
      assert forall fd | fd in SetOf(accepted) :: fd in s'.queue;
    case Alarm => ExpiryKeepsTimer(b.guarded, s.timer, s.now, at);
  }

  lemma TakeKeepsAccounted(b: Build, s: Server, w: nat)
    requires Accounted(s) && Next(b, s, Take(w)).Running?
    ensures Accounted(Next(b, s, Take(w)).server)
  {
    var s' := Next(b, s, Take(w)).server;
    assert s'.workers[w] == s.queue[0];
    assert forall fd | fd in s.queue :: fd == s.queue[0] || fd in s'.queue;
    forall fd | Served(s, fd) ensures Served(s', fd) {
      var v :| v in s.workers && s.workers[v] == fd;
      assert v in s'.workers && s'.workers[v] == fd;
    }
  }

  lemma NextKeepsAccountedIff(b: Build, s: Server, step: Step)
    requires Inv(s) && Accounted(s) && Next(b, s, step).Running?
    ensures Accounted(Next(b, s, step).server) <==> !Leaks(s, step)
  {
    match step
    case Finish(w, ending) => FinishKeepsAccountedIff(b, s, w, ending);
    case Dispatch(accepted, at) => DispatchKeepsAccounted(b, s, accepted, at);
    case Take(w) => TakeKeepsAccounted(b, s, w);
    case _ => assert forall fd :: Served(Next(b, s, step).server, fd) <==> Served(s, fd);
  }

  ghost predicate AlwaysAccounted(b: Build, s: Server, steps: seq<Step>)
    decreases |steps|
  {
    && Accounted(s)
    && (steps != [] && Next(b, s, steps[0]).Running? ==>
          AlwaysAccounted(b, Next(b, s, steps[0]).server, steps[1..]))
  }

  ghost predicate NeverLeaks(b: Build, s: Server, steps: seq<Step>)
    decreases |steps|
  {
    steps != [] && Next(b, s, steps[0]).Running? ==>
      !Leaks(s, steps[0]) && NeverLeaks(b, Next(b, s, steps[0]).server, steps[1..])
  }

  // In a safe run an open connection is lost exactly when a worker returns silently or the
  // timer, being full, refuses a connection.
  lemma {:induction false} NothingLostIff(b: Build, s: Server, steps: seq<Step>)
    requires Accounted(s) && AlwaysInv(b, s, steps)
    ensures AlwaysAccounted(b, s, steps) <==> NeverLeaks(b, s, steps)
    decreases |steps|
  {
    if steps != [] && Next(b, s, steps[0]).Running? {
      NextKeepsAccountedIff(b, s, steps[0]);
      if !Leaks(s, steps[0]) {
        NothingLostIff(b, Next(b, s, steps[0]).server, steps[1..]);
      }
    }
  }

  /* ---------- freedom from crashes ---------- */

  lemma DispatchKeepsShape(b: Build, s: Server, accepted: seq<int>, at: int)
    requires Shape(s.timer) && s.batch != []
    ensures var r := Next(b, s, Dispatch(accepted, at));
            (r.Running? ==> Shape(r.server.timer)) && (b.guarded ==> r != Crashed)
  {
    match s.batch[0]
    case Client(fd) => RemovalKeepsShape(b.guarded, s.timer, fd);
    case Listen =>
      RemovalKeepsShape(b.guarded, s.timer.(epoll := Opened(s.timer.epoll, SetOf(accepted))), LISTEN_FD);
    case Alarm => ExpiryKeepsShape(b.guarded, s.timer, at);
  }

  lemma EndKeepsShape(b: Build, s: Server, fd: int, ending: Ending)
    requires Shape(s.timer)
    ensures var r := EndWith(b, s, fd, ending);
            (r.Running? ==> Shape(r.server.timer)) && (b.guarded && b.catchesClosed ==> r != Crashed)
  {
    if ending == Keep {
      AddFdKeepsShape(b.rearm, s.timer, fd, s.now);
    } else {
      RemovalKeepsShape(b.guarded, s.timer, fd);
      if DeleteFd(b.guarded, s.timer, fd).Defined? {
        var t := DeleteFd(b.guarded, s.timer, fd).value;
        ShapeIgnoresEpoll(t, Close(t.epoll, fd));
      }
      ShapeIgnoresEpoll(s.timer, Close(s.timer.epoll, fd));
    }
  }

  lemma ShapeIgnoresEpoll(t: TimerState, e: Epoll)
    requires Shape(t)
    ensures Shape(t.(epoll := e))
  {
  }

  lemma StepKeepsShape(b: Build, s: Server, step: Step)
    requires Shape(s.timer)
    ensures var r := Next(b, s, step);
            (r.Running? ==> Shape(r.server.timer)) && (b.guarded && b.catchesClosed ==> r != Crashed)
  {
    match step
    case Tick(n) =>
    case Fetch(events) =>
    case Take(w) =>
    case Finish(w, ending) => if w in s.workers { EndKeepsShape(b, Released(s, w), s.workers[w], ending); }
    case Dispatch(accepted, at) => if s.batch != [] { DispatchKeepsShape(b, s, accepted, at); }
  }

  lemma {:induction false} RunKeepsShape(b: Build, s: Server, steps: seq<Step>)
    requires Shape(s.timer) && Run(b, s, steps).Running?
    ensures Shape(Run(b, s, steps).server.timer)
    decreases |steps|
  {
    if steps != [] {
      StepKeepsShape(b, s, steps[0]);
      RunKeepsShape(b, Next(b, s, steps[0]).server, steps[1..]);
    }
  }

  predicate IsForbidden(t: TimerState, fd: int) {
    fd in t.hashMap && t.hashMap[fd].End?
  }

  // The endings that take the connection out of the timer.
  predicate Deletes(b: Build, ending: Ending) {
    match ending
    case Failed => true
    case PeerClosed => b.catchesClosed
    case Shut => b.closeForgets
    case _ => false
  }

  lemma {:induction false} ExpiryUndefinedIff(guarded: bool, t: TimerState, now: int)
    ensures DeleteExpiredFd(guarded, t, now).Undefined? <==>
            !guarded && t.curSize > |t.timeList| && forall n | n in t.timeList :: IsExpired(n, now)
    decreases |t.timeList|
  {
    if t.timeList != [] {
      assert t.timeList[0] in t.timeList;
      if IsExpired(t.timeList[0], now) {
        ExpiryUndefinedIff(guarded, DropFront(t), now);
        assert t.timeList == [t.timeList[0]] + DropFront(t).timeList;
      }
    }
  }

  lemma RemovalUndefinedIff(guarded: bool, t: TimerState, fd: int)
    requires Shape(t)
    ensures ForbidenFd(guarded, t, fd).Undefined? <==> !guarded && IsForbidden(t, fd)
    ensures DeleteFd(guarded, t, fd).Undefined? <==> !guarded && IsForbidden(t, fd)
  {
  }

  /** Why a step is undefined or ends in an uncaught exception: the peer closed and nobody catches
      that; an entry that is already forbidden is removed; or the counter exceeds the list and every
      listed connection is expired. */
  ghost predicate CrashCause(b: Build, s: Server, step: Step) {
    match step
    case Finish(w, ending) =>
      w in s.workers &&
      ((ending == PeerClosed && !b.catchesClosed) ||
       (!b.guarded && Deletes(b, ending) && IsForbidden(s.timer, s.workers[w])))
    case Dispatch(accepted, at) =>
      s.batch != [] && !b.guarded &&
      (match s.batch[0]
       case Client(fd) => IsForbidden(s.timer, fd)
       case Listen => CanAccept(s, accepted) && b.fallThrough && IsForbidden(s.timer, LISTEN_FD)
       case Alarm =>
         at <= s.now && s.timer.curSize > |s.timer.timeList| &&
         forall n | n in s.timer.timeList :: IsExpired(n, at))
    case _ => false
  }

  lemma StepCrashesIff(b: Build, s: Server, step: Step)
    requires Shape(s.timer)
    ensures Next(b, s, step) == Crashed <==> CrashCause(b, s, step)
  {
    match step
    case Finish(w, ending) =>
      if w in s.workers {
        RemovalUndefinedIff(b.guarded, s.timer, s.workers[w]);
      }
    case Dispatch(accepted, at) => if s.batch != [] { DispatchCrashesIff(b, s, accepted, at); }
    case _ =>
  }

  lemma DispatchCrashesIff(b: Build, s: Server, accepted: seq<int>, at: int)
    requires Shape(s.timer) && s.batch != []
    ensures Next(b, s, Dispatch(accepted, at)) == Crashed <==> CrashCause(b, s, Dispatch(accepted, at))
  {
    match s.batch[0]
    case Client(fd) => RemovalUndefinedIff(b.guarded, s.timer, fd);
    case Listen =>
      ShapeIgnoresEpoll(s.timer, Opened(s.timer.epoll, SetOf(accepted)));
      RemovalUndefinedIff(b.guarded, s.timer.(epoll := Opened(s.timer.epoll, SetOf(accepted))), LISTEN_FD);
    case Alarm => ExpiryUndefinedIff(b.guarded, s.timer, at);
  }

  // Some step of the run, as far as it gets, has a cause to crash.
  ghost predicate MeetsCrash(b: Build, s: Server, steps: seq<Step>)
    decreases |steps|
  {
    steps != [] &&
    (CrashCause(b, s, steps[0]) ||
     (Next(b, s, steps[0]).Running? && MeetsCrash(b, Next(b, s, steps[0]).server, steps[1..])))
  }

  lemma {:induction false} RunCrashesIff(b: Build, s: Server, steps: seq<Step>)
    requires Shape(s.timer)
    ensures Run(b, s, steps) == Crashed <==> MeetsCrash(b, s, steps)
    decreases |steps|
  {
    if steps != [] {
      StepCrashesIff(b, s, steps[0]);
      if Next(b, s, steps[0]).Running? {
        StepKeepsShape(b, s, steps[0]);
        RunCrashesIff(b, Next(b, s, steps[0]).server, steps[1..]);
      }
    }
  }

  // A connection was kept; its second request fails.
  lemma SecondRequestFails(b: Build) returns (s: Server)
    requires !b.guarded
    ensures Reaches(b, s) && 0 in s.workers && s.workers[0] == CLIENT
    ensures CLIENT in s.served && s.served[CLIENT] == 2 && IsForbidden(s.timer, CLIENT)
    ensures Next(b, s, Finish(0, Failed)) == Crashed
  {
    s := ServedTwice(b);
  }

  // No run crashes exactly when the timer guards its iterators and `SocketClosed` is caught.
  lemma CrashFreeIff(b: Build)
    ensures (forall s, step | Reaches(b, s) :: Next(b, s, step) != Crashed) <==>
            b.guarded && b.catchesClosed
  {
    if b.guarded && b.catchesClosed {
      forall s, step | Reaches(b, s) ensures Next(b, s, step) != Crashed {
        var steps :| Run(b, Init(), steps) == Running(s);
        RunKeepsShape(b, Init(), steps);
        StepKeepsShape(b, s, step);
      }
    } else if !b.catchesClosed {
      var s := FirstRequest(b);
      assert Next(b, s, Finish(0, PeerClosed)) == Crashed;
    } else {
      var s := SecondRequestFails(b);
    }
  }

  // The program as it stands breaks its promise, can crash, and can serve a connection three times.
  lemma AsWrittenFails()
    ensures exists s, v: nat, w: nat :: Reaches(AS_WRITTEN, s) && v in s.workers && w in s.workers && v != w &&
              s.workers[v] == s.workers[w] != LISTEN_FD
    ensures exists s, step :: Reaches(AS_WRITTEN, s) && Next(AS_WRITTEN, s, step) == Crashed
    ensures exists s :: Reaches(AS_WRITTEN, s) && CLIENT in s.served && s.served[CLIENT] > 2
  {
    var s := TwoWorkersOneConnection(AS_WRITTEN);
    assert s.workers[0] == s.workers[2];
    var s3 := ServedThrice(AS_WRITTEN);
    assert s3.served[CLIENT] == 3;
    CrashFreeIff(AS_WRITTEN);
  }

  /* ---------- stale timer entries and re-arming ---------- */

  ghost predicate Indexed(s: Server) {
    Inv(s) && AlarmsAfterClients(s.batch) && Registered(s)
  }

  // The timer knows exactly the registered connections.
  ghost predicate Registered(s: Server) {
    forall fd | fd != LISTEN_FD :: fd in s.timer.epoll.registered <==> fd in s.timer.hashMap
  }

  // Every listed connection can still report an event, or has just reported one.
  ghost predicate Responsive(s: Server) {
    forall fd | IsLive(s.timer, fd) && fd != LISTEN_FD :: fd in s.timer.epoll.armed || Client(fd) in s.batch
  }

  ghost predicate NoStaleEntry(s: Server) {
    forall fd | fd in s.timer.hashMap && fd != LISTEN_FD :: fd in s.timer.epoll.open
  }

  lemma ForgetEffect(b: Build, s: Server, fd: int)
    requires ForgetAndClose(b, s, fd).Running?
    ensures var t, s' := s.timer, ForgetAndClose(b, s, fd).server;
            && s' == s.(timer := s'.timer)
            && s'.timer.hashMap == t.hashMap - {fd} && s'.timer.epoll == Close(t.epoll, fd)
  {
  }

  lemma KeepEffect(b: Build, s: Server, fd: int)
    ensures var t, s' := s.timer, EndWith(b, s, fd, Keep).server;
            && s' == s.(timer := s'.timer)
            && (t.curSize >= t.maxSize ==> s' == s)
            && (t.curSize < t.maxSize ==>
                  && s'.timer.hashMap == t.hashMap[fd := At(Node(t.nextId, fd, s.now + t.timeout))]
                  && s'.timer.epoll == if fd in t.hashMap then ResetOneshot(b.rearm, t.epoll, fd)
                                       else CtlAdd(t.epoll, fd))
  {
  }

  lemma FinishKeepsIndexed(b: Build, s: Server, w: nat, ending: Ending)
    requires b.closeForgets && w in s.workers && Next(b, s, Finish(w, ending)).Running?
    requires Registered(s) && (s.workers[w] != LISTEN_FD ==> s.workers[w] in s.timer.epoll.open)
    ensures var s' := Next(b, s, Finish(w, ending)).server;
            Registered(s') && (b.rearm == ByMod && Responsive(s) ==> Responsive(s'))
  {
    if ending == Keep {
      KeepStaysIndexed(b, Released(s, w), s.workers[w]);
    } else if ending != Silent {
      ForgetEffect(b, Released(s, w), s.workers[w]);
    }
  }

  lemma KeepStaysIndexed(b: Build, s: Server, fd: int)
    requires fd != LISTEN_FD ==> fd in s.timer.epoll.open
    requires Registered(s)
    ensures var s' := EndWith(b, s, fd, Keep).server;
            Registered(s') && (b.rearm == ByMod && Responsive(s) ==> Responsive(s'))
  {
  }

  lemma QueueingStaysIndexed(b: Build, s: Server, s': Server, fd: int)
    requires fd == LISTEN_FD || IsLive(s.timer, fd)
    requires s'.timer.epoll.registered == s.timer.epoll.registered && s'.timer.epoll.armed == s.timer.epoll.armed
    requires s'.timer.hashMap == s.timer.hashMap[fd := End] ||
             (fd == LISTEN_FD && s'.timer.hashMap == s.timer.hashMap)
    requires forall e | e in s.batch && e != Client(fd) && e != Listen :: e in s'.batch
    ensures (Registered(s) ==> Registered(s')) && (Responsive(s) ==> Responsive(s'))
  {
  }

  lemma AlarmStaysIndexed(s: Server, s': Server, gone: set<int>)
    requires s.batch != [] && s.batch[0].Alarm? && s'.batch == s.batch[1..]
    requires Closes(s.timer, s'.timer, gone)
    ensures (Registered(s) ==> Registered(s')) && (Responsive(s) ==> Responsive(s'))
  {
  }

  lemma DispatchKeepsIndexed(b: Build, s: Server, accepted: seq<int>, at: int)
    requires Inv(s) && Next(b, s, Dispatch(accepted, at)).Running?
    ensures var s' := Next(b, s, Dispatch(accepted, at)).server;
            (Registered(s) ==> Registered(s')) && (Responsive(s) ==> Responsive(s'))
  {
    var s' := Next(b, s, Dispatch(accepted, at)).server;
    assert s.batch == [s.batch[0]] + s.batch[1..];
    match s.batch[0]
    case Client(fd) =>
      assert Client(fd) in s.batch;
      ForbidEffect(b.guarded, s.timer, fd);
      QueueingStaysIndexed(b, s, s', fd);
    case Listen =>
      if b.fallThrough {
        ForbidEffect(b.guarded, s.timer.(epoll := Opened(s.timer.epoll, SetOf(accepted))), LISTEN_FD);
      }
      QueueingStaysIndexed(b, s, s', LISTEN_FD);
    case Alarm =>
      ExpiryKeepsTimer(b.guarded, s.timer, s.now, at);
      AlarmStaysIndexed(s, s', Gone(b.guarded, s.timer, at));
  }

  lemma NextKeepsIndexed(b: Build, s: Server, step: Step)
    requires b.alarmLast && b.closeForgets && Indexed(s) && Next(b, s, step).Running?
    ensures Indexed(Next(b, s, step).server)
    ensures b.rearm == ByMod && Responsive(s) ==> Responsive(Next(b, s, step).server)
  {
    NextKeepsInv(b, s, step);
    match step
    case Finish(w, ending) => FinishKeepsIndexed(b, s, w, ending);
    case Dispatch(accepted, at) => DispatchKeepsIndexed(b, s, accepted, at);
    case Fetch(events) => assert forall fd | fd in ClientFds(events) :: Client(fd) in events;
    case _ =>
  }

  lemma {:induction false} RunKeepsIndexed(b: Build, s: Server, steps: seq<Step>)
    requires b.alarmLast && b.closeForgets && Indexed(s) && Run(b, s, steps).Running?
    ensures Indexed(Run(b, s, steps).server)
    ensures b.rearm == ByMod && Responsive(s) ==> Responsive(Run(b, s, steps).server)
    decreases |steps|
  {
    if steps != [] {
      NextKeepsIndexed(b, s, steps[0]);
      RunKeepsIndexed(b, Next(b, s, steps[0]).server, steps[1..]);
    }
  }

  // As written, a connection that was kept and is later closed normally stays in the timer.
  lemma LeavesStaleEntry(b: Build) returns (s: Server)
    requires !b.closeForgets
    ensures Reaches(b, s)
    ensures s.timer == TimerWith([], map[CLIENT := End], Epoll({LISTEN_FD}, {}, {}))
    ensures s.batch == [] && s.queue == [] && 0 !in s.workers
  {
    var s1 := ServedTwice(b);
    ReachNext(b, s1, Finish(0, Shut));
    s := Next(b, s1, Finish(0, Shut)).server;
  }

  // Every entry of the timer is about an open connection exactly when, besides, closing a
  // connection removes its entry.
  lemma NoStaleEntryIff(b: Build)
    ensures (forall s | Reaches(b, s) :: NoStaleEntry(s)) <==> b.alarmLast && b.closeForgets
  {
    if b.alarmLast && b.closeForgets {
      forall s | Reaches(b, s) ensures NoStaleEntry(s) {
        var steps :| Run(b, Init(), steps) == Running(s);
        InitInv();
        RunKeepsIndexed(b, Init(), steps);
      }
    } else if !b.closeForgets {
      var s := LeavesStaleEntry(b);
      assert CLIENT in s.timer.hashMap.Keys;
    } else {
      var s := KeptAfterClose(b);
    }
  }

  // A reused descriptor number finds its stale entry ...
  lemma ReusedNumber(b: Build) returns (s: Server)
    requires !b.closeForgets
    ensures Reaches(b, s) && s.batch == [] && 0 in s.workers && s.workers[0] == CLIENT
    ensures s.timer == TimerWith([], map[CLIENT := End], Epoll({LISTEN_FD, CLIENT}, {}, {}))
  {
    var s0 := LeavesStaleEntry(b);
    var s1 := ListenEvent(b, s0);
    var s2 := AcceptOne(b, s1);
    assert s2.queue == [CLIENT] + Extra(b) by {
      assert [] + [CLIENT] == [CLIENT];
    }
    s := TakeFront(b, s2, 0, Extra(b));
  }

  // ... and MOD does not arm it.
  lemma StaleEntryDefeatsMod(b: Build) returns (s: Server)
    requires !b.closeForgets && b.rearm == ByMod
    ensures Reaches(b, s) && !Responsive(s)
  {
    var s3 := ReusedNumber(b);
    ReachNext(b, s3, Finish(0, Keep));
    s := Next(b, s3, Finish(0, Keep)).server;
    assert IsLive(s.timer, CLIENT);
  }

  // Kept connections always stay able to report their next request exactly when no two workers
  // share one, re-arming modifies the registration and closing leaves no stale entry behind.
  lemma ResponsiveIff(b: Build)
    ensures (forall s | Reaches(b, s) :: Responsive(s)) <==>
            b.alarmLast && b.rearm == ByMod && b.closeForgets
  {
    if b.alarmLast && b.rearm == ByMod && b.closeForgets {
      forall s | Reaches(b, s) ensures Responsive(s) {
        var steps :| Run(b, Init(), steps) == Running(s);
        InitInv();
        RunKeepsIndexed(b, Init(), steps);
      }
    } else if !b.alarmLast {
      var s := KeptAfterClose(b);
    } else if b.rearm == ByAdd {
      var s1 := ServedTwice(b);
      ReachNext(b, s1, Finish(0, Keep));
      var s := Next(b, s1, Finish(0, Keep)).server;
      assert IsLive(s.timer, CLIENT);
    } else {
      var s := StaleEntryDefeatsMod(b);
    }
  }

  /* ---------- re-arming with ADD limits a connection to two requests ---------- */

  ghost predicate Times(s: Server, fd: int, n: nat) {
    fd in s.served && s.served[fd] == n
  }

  ghost predicate Budget(s: Server) {
    Inv(s) && AlarmsAfterClients(s.batch) && Counts(s)
  }

  ghost predicate Counts(s: Server) {
    && (forall fd | fd in s.served && fd != LISTEN_FD :: s.served[fd] <= 2)
    && (forall fd | fd in s.timer.epoll.armed && fd != LISTEN_FD :: Times(s, fd, 1))
    && (forall fd | Client(fd) in s.batch && fd != LISTEN_FD ::
          fd in s.timer.epoll.registered && Times(s, fd, 1))
    && (forall fd | fd in s.queue && fd != LISTEN_FD ::
          Times(s, fd, if fd in s.timer.epoll.registered then 1 else 0))
    && (forall w | w in s.workers && s.workers[w] != LISTEN_FD ::
          Times(s, s.workers[w], if s.workers[w] in s.timer.epoll.registered then 2 else 1))
  }

  lemma FinishEffect(b: Build, s: Server, w: nat, ending: Ending)
    requires b.rearm == ByAdd && w in s.workers && Next(b, s, Finish(w, ending)).Running?
    ensures var fd, s' := s.workers[w], Next(b, s, Finish(w, ending)).server;
            var e, e' := s.timer.epoll, s'.timer.epoll;
            && s' == Released(s, w).(timer := s'.timer)
            && e'.armed <= e.armed + (if fd in e.registered then {} else {fd})
            && (forall f | f != fd :: f in e'.registered <==> f in e.registered)
  {
    var fd, s1 := s.workers[w], Released(s, w);
    if ending == Keep {
      KeepEffect(b, s1, fd);
    } else if ending != Silent && (b.closeForgets || ending != Shut) {
      ForgetEffect(b, s1, fd);
    }
  }

  // The counts of everyone but the connection whose worker just ended.
  lemma FinishKeepsCounts(s: Server, s': Server, w: nat)
    requires Counts(s) && w in s.workers
    requires s' == Released(s, w).(timer := s'.timer)
    requires var fd, e, e' := s.workers[w], s.timer.epoll, s'.timer.epoll;
             && e'.armed <= e.armed + (if fd in e.registered then {} else {fd})
             && (forall f | f != fd :: f in e'.registered <==> f in e.registered)
             && (fd != LISTEN_FD ==> Client(fd) !in s.batch && Loose(Released(s, w), fd))
    ensures Counts(s')
  {
    var fd := s.workers[w];
    assert fd != LISTEN_FD ==> Times(s, fd, if fd in s.timer.epoll.registered then 2 else 1);
    assert forall f, n :: Times(s', f, n) <==> Times(s, f, n);
  }

  lemma AlarmKeepsCounts(s: Server, s': Server, gone: set<int>)
    requires Counts(s) && s.batch != [] && s' == s.(timer := s'.timer, batch := s.batch[1..])
    requires Closes(s.timer, s'.timer, gone)
    requires forall fd | fd in gone && fd != LISTEN_FD ::
               fd !in s.queue && Client(fd) !in s.batch && forall w | w in s.workers :: s.workers[w] != fd
    ensures Counts(s')
  {
    assert forall e | e in s'.batch :: e in s.batch;
    assert forall f, n :: Times(s', f, n) <==> Times(s, f, n);
  }

  lemma ClientKeepsCounts(s: Server, s': Server, fd: int)
    requires Counts(s) && s'.queue == s.queue + [fd] && s'.workers == s.workers && s'.served == s.served
    requires s'.timer.epoll == s.timer.epoll && forall e | e in s'.batch :: e in s.batch
    requires fd == LISTEN_FD || Client(fd) in s.batch
    ensures Counts(s')
  {
    assert forall f, n :: Times(s', f, n) <==> Times(s, f, n);
    assert forall f | f in s'.queue :: f in s.queue || f == fd;
  }

  lemma AcceptedKeepCounts(s: Server, s': Server, accepted: seq<int>)
    requires Inv(s) && Counts(s) && CanAccept(s, accepted)
    requires s'.queue == s.queue + accepted && s'.workers == s.workers && s'.batch == s.batch
    requires s'.timer == s.timer.(epoll := Opened(s.timer.epoll, SetOf(accepted)))
    requires s'.served == Reset(s.served, accepted)
    ensures Counts(s')
  {
    assert forall f, n | f !in accepted :: Times(s', f, n) <==> Times(s, f, n);
    assert forall f | f in accepted :: Times(s', f, 0) && f !in s.timer.epoll.registered;
  }

  lemma ListenKeepsCounts(b: Build, s: Server, accepted: seq<int>)
    requires Inv(s) && Counts(s) && s.batch != [] && s.batch[0].Listen?
    requires DispatchListen(b, s.(batch := s.batch[1..]), accepted).Running?
    ensures Counts(DispatchListen(b, s.(batch := s.batch[1..]), accepted).server)
  {
    RestOfBatch(s);
    var s1 := s.(batch := s.batch[1..]);
    assert forall f, n :: Times(s1, f, n) <==> Times(s, f, n);
    assert Counts(s1) by {
      assert forall e | e in s1.batch :: e in s.batch;
    }
    var s2 := WithEpoll(s1, Opened(s1.timer.epoll, SetOf(accepted)))
      .(queue := s1.queue + accepted, served := Reset(s1.served, accepted));
    AcceptedKeepCounts(s1, s2, accepted);
    if b.fallThrough {
      ClientKeepsCounts(s2, DispatchListen(b, s1, accepted).server, LISTEN_FD);
    }
  }

  lemma DispatchKeepsCounts(b: Build, s: Server, accepted: seq<int>, at: int)
    requires Budget(s) && Next(b, s, Dispatch(accepted, at)).Running?
    ensures Counts(Next(b, s, Dispatch(accepted, at)).server)
  {
    var s' := Next(b, s, Dispatch(accepted, at)).server;
    assert s.batch == [s.batch[0]] + s.batch[1..];
    match s.batch[0]
    case Client(fd) => ClientKeepsCounts(s, s', fd);
    case Listen => ListenKeepsCounts(b, s, accepted);
    case Alarm =>
      ExpiryKeepsTimer(b.guarded, s.timer, s.now, at);
      assert forall j | 0 < j < |s.batch| :: !s.batch[j].Client?;
      AlarmKeepsCounts(s, s', Gone(b.guarded, s.timer, at));
  }

  lemma TakeKeepsCounts(b: Build, s: Server, w: nat)
    requires Inv(s) && Counts(s) && Next(b, s, Take(w)).Running?
    ensures Counts(Next(b, s, Take(w)).server)
  {
    var fd, s' := s.queue[0], Next(b, s, Take(w)).server;
    assert fd in s.queue && forall f | f in s.queue[1..] :: f in s.queue && (f == fd ==> fd == LISTEN_FD);
    assert fd != LISTEN_FD ==> Loose(s.(queue := s.queue[1..]), fd) && Client(fd) !in s.batch;
    assert fd != LISTEN_FD ==> Times(s, fd, if fd in s.timer.epoll.registered then 1 else 0);
    assert forall f, n | f != fd :: Times(s', f, n) <==> Times(s, f, n);
  }

  lemma NextKeepsBudget(b: Build, s: Server, step: Step)
    requires b.alarmLast && b.rearm == ByAdd && Budget(s) && Next(b, s, step).Running?
    ensures Budget(Next(b, s, step).server)
  {
    NextKeepsInv(b, s, step);
    var s' := Next(b, s, step).server;
    match step
    case Finish(w, ending) =>
      ReleaseKeepsInv(s, w);
      FinishEffect(b, s, w, ending);
      FinishKeepsCounts(s, s', w);
    case Dispatch(accepted, at) => DispatchKeepsCounts(b, s, accepted, at);
    case Tick(n) => assert forall f, n :: Times(s', f, n) <==> Times(s, f, n);
    case Fetch(events) => FetchKeepsCounts(s, s', events);
    case Take(w) => TakeKeepsCounts(b, s, w);
  }

  lemma FetchKeepsCounts(s: Server, s': Server, events: seq<Event>)
    requires Inv(s) && Counts(s) && ClientFds(events) <= s.timer.epoll.armed
    requires s' == WithEpoll(s, Fired(s.timer.epoll, ClientFds(events))).(batch := events)
    ensures Counts(s')
  {
    assert forall f, n :: Times(s', f, n) <==> Times(s, f, n);
    assert forall fd | Client(fd) in events :: fd in ClientFds(events);
  }

  lemma {:induction false} RunKeepsBudget(b: Build, s: Server, steps: seq<Step>)
    requires b.alarmLast && b.rearm == ByAdd && Budget(s) && Run(b, s, steps).Running?
    ensures Budget(Run(b, s, steps).server)
    decreases |steps|
  {
    if steps != [] {
      NextKeepsBudget(b, s, steps[0]);
      RunKeepsBudget(b, Next(b, s, steps[0]).server, steps[1..]);
    }
  }

  // With EPOLL_CTL_ADD a keep-alive connection is served at most twice, ever, unless an alarm
  // handled too early lets two workers have it.
  lemma ServedAtMostTwiceIff(b: Build)
    ensures (forall s, fd | Reaches(b, s) && fd in s.served && fd != LISTEN_FD :: s.served[fd] <= 2) <==>
            b.alarmLast && b.rearm == ByAdd
  {
    if b.alarmLast && b.rearm == ByAdd {
      forall s, fd | Reaches(b, s) && fd in s.served && fd != LISTEN_FD ensures s.served[fd] <= 2 {
        var steps :| Run(b, Init(), steps) == Running(s);
        InitInv();
        RunKeepsBudget(b, Init(), steps);
      }
    } else if !b.alarmLast {
      var s := ServedThrice(b);
      assert s.served[CLIENT] == 3;
    } else {
      var s1 := ServedTwice(b);
      ReachNext(b, s1, Finish(0, Keep));
      var s2 := Next(b, s1, Finish(0, Keep)).server;
      assert 0 !in s2.workers;
      var s3 := ClientEvent(b, s2);
      assert s3.served[CLIENT] == 3;
    }
  }
}

/** The connection protocol: the event loop in `main`, the worker function
    `httpserver`, the work list between them, the timer and the kernel. */
module HttpServer {
  import opened Readings
  import opened Epoll
  import opened ConnectionTimer

  const TIMEOUT := 15
  const MAX_SIZE := 1000
  const MAX_EVENTS := 5
  const THREADS := 4
  const LISTEN_FD := 3

  /** The places where the program and its evident intent, or its own comments, differ.
      rearm         epoll call that re-arms a kept connection
      guarded       the timer tests for `end()` and for an empty list
      fallThrough   the listening descriptor is also queued as if it were a client
      alarmLast     the client events of a batch are dispatched before its alarm
      closeForgets  closing a connection that is not kept also removes its timer entry
      catchesClosed the worker catches `SocketClosed` */
  datatype Build = Build(
    rearm: Rearm, guarded: bool, fallThrough: bool, alarmLast: bool,
    closeForgets: bool, catchesClosed: bool)

  const AS_WRITTEN := Build(ByAdd, false, true, false, false, false)

  datatype Event = Client(fd: int) | Alarm | Listen

  // How the worker function ends; `Silent` is a return that neither keeps nor closes.
  datatype Ending = Keep | Shut | Silent | Failed | PeerClosed

  datatype Step =
    | Tick(seconds: nat)
    | Fetch(events: seq<Event>)
    | Dispatch(accepted: seq<int>, at: int)
    | Take(worker: nat)
    | Finish(worker: nat, ending: Ending)

  // `served` counts, for bookkeeping, how often a worker took a connection since it was accepted.
  datatype Server = Server(
    timer: TimerState,
    batch: seq<Event>,
    queue: seq<int>,
    workers: map<nat, int>,
    served: map<int, nat>,
    now: int)

  datatype Result = Running(server: Server) | Crashed | Blocked

  function Init(): Server {
    Server(TimerState([], map[], 0, MAX_SIZE, TIMEOUT, 0, Epoll({LISTEN_FD}, {}, {})),
           [], [], map[], map[], 0)
  }

  /* ---------- transitions ---------- */

  function ClientFds(events: seq<Event>): set<int> {
    set e | e in events && e.Client? :: e.fd
  }

  function SetOf(fds: seq<int>): set<int> {
    set fd | fd in fds
  }

  ghost predicate Distinct<T(!new)>(s: seq<T>) {
    forall i, j | 0 <= i < j < |s| :: s[i] != s[j]
  }

  ghost predicate AlarmsAfterClients(events: seq<Event>) {
    forall i, j | 0 <= i < j < |events| :: events[i].Alarm? ==> !events[j].Client?
  }

  ghost predicate CanFetch(b: Build, s: Server, events: seq<Event>) {
    && s.batch == []
    && 0 < |events| <= MAX_EVENTS
    && Distinct(events)
    && ClientFds(events) <= s.timer.epoll.armed
    && (Listen in events ==> LISTEN_FD in s.timer.epoll.open)
    && (b.alarmLast ==> AlarmsAfterClients(events))
  }

  // `accept` needs an open listening descriptor and returns numbers that are not open.
  ghost predicate CanAccept(s: Server, accepted: seq<int>) {
    && Distinct(accepted)
    && (accepted != [] ==> LISTEN_FD in s.timer.epoll.open)
    && (forall fd | fd in accepted :: fd !in s.timer.epoll.open)
  }

  ghost function Reset(served: map<int, nat>, fds: seq<int>): map<int, nat> {
    map fd | fd in served.Keys + (set f | f in fds) :: if fd in fds then 0 else served[fd]
  }

  function WithEpoll(s: Server, e: Epoll): Server {
    s.(timer := s.timer.(epoll := e))
  }

  ghost function DispatchClient(b: Build, s: Server, fd: int): Result {
    match ForbidenFd(b.guarded, s.timer, fd)
    case Undefined => Crashed
    case Defined(t) => Running(s.(timer := t, queue := s.queue + [fd]))
  }

  ghost function DispatchListen(b: Build, s: Server, accepted: seq<int>): Result {
    if !CanAccept(s, accepted) then Blocked
    else
      var s' := WithEpoll(s, Opened(s.timer.epoll, SetOf(accepted)))
        .(queue := s.queue + accepted, served := Reset(s.served, accepted));
      if b.fallThrough then DispatchClient(b, s', LISTEN_FD) else Running(s')
  }

  ghost function DispatchAlarm(b: Build, s: Server, at: int): Result {
    if at > s.now then Blocked
    else
      match DeleteExpiredFd(b.guarded, s.timer, at)
      case Undefined => Crashed
      case Defined(t) => Running(s.(timer := t))
  }

  ghost function DispatchEvent(b: Build, s: Server, e: Event, accepted: seq<int>, at: int): Result {
    match e
    case Client(fd) => DispatchClient(b, s, fd)
    case Listen => DispatchListen(b, s, accepted)
    case Alarm => DispatchAlarm(b, s, at)
  }

  function Closed(s: Server, fd: int): Server {
    WithEpoll(s, Close(s.timer.epoll, fd))
  }

  function ForgetAndClose(b: Build, s: Server, fd: int): Result {
    match DeleteFd(b.guarded, s.timer, fd)
    case Undefined => Crashed
    case Defined(t) => Running(Closed(s.(timer := t), fd))
  }

  // What the worker function does at its end; the worker itself has let go of the descriptor.
  function EndWith(b: Build, s: Server, fd: int, ending: Ending): Result {
    match ending
    case Keep => Running(s.(timer := AddFd(b.rearm, s.timer, fd, s.now).0))
    case Shut => if b.closeForgets then ForgetAndClose(b, s, fd) else Running(Closed(s, fd))
    case Silent => Running(s)
    case Failed => ForgetAndClose(b, s, fd)
    case PeerClosed => if b.catchesClosed then ForgetAndClose(b, s, fd) else Crashed
  }

  function Released(s: Server, w: nat): Server {
    s.(workers := s.workers - {w})
  }

  ghost function Next(b: Build, s: Server, step: Step): Result {
    match step
    case Tick(n) => Running(s.(now := s.now + n))
    case Fetch(events) =>
      if CanFetch(b, s, events)
      then Running(WithEpoll(s, Fired(s.timer.epoll, ClientFds(events))).(batch := events))
      else Blocked
    case Dispatch(accepted, at) =>
      if s.batch == [] then Blocked
      else DispatchEvent(b, s.(batch := s.batch[1..]), s.batch[0], accepted, at)
    case Take(w) =>
      if w < THREADS && w !in s.workers && s.queue != [] then
        var fd := s.queue[0];
        Running(s.(queue := s.queue[1..], workers := s.workers[w := fd],
                   served := s.served[fd := 1 + if fd in s.served then s.served[fd] else 0]))
      else Blocked
    case Finish(w, ending) =>
      if w in s.workers then EndWith(b, Released(s, w), s.workers[w], ending) else Blocked
  }

  ghost function Run(b: Build, s: Server, steps: seq<Step>): Result
    decreases |steps|
  {
    if steps == [] then Running(s)
    else
      match Next(b, s, steps[0])
      case Running(s') => Run(b, s', steps[1..])
      case r => r
  }

  ghost predicate Reaches(b: Build, s: Server) {
    exists steps :: Run(b, Init(), steps) == Running(s)
  }

  /* ---------- the claim: one place at a time ---------- */

  // A connection waits in the timer's list, or once in the work list, or with one worker.
  // The listening descriptor, which some builds queue as well, is no connection.
  ghost predicate Exclusive(s: Server) {
    && (forall i, j | 0 <= i < j < |s.queue| :: s.queue[i] == s.queue[j] ==> s.queue[i] == LISTEN_FD)
    && (forall fd | fd in s.queue && fd != LISTEN_FD :: !IsLive(s.timer, fd))
    && (forall w | w in s.workers && s.workers[w] != LISTEN_FD ::
          !IsLive(s.timer, s.workers[w]) && s.workers[w] !in s.queue)
    && OneWorkerEach(s)
  }

  // At most one thread has a connection.
  ghost predicate OneWorkerEach(s: Server) {
    forall v, w | v in s.workers && w in s.workers && v != w ::
      s.workers[v] == s.workers[w] ==> s.workers[v] == LISTEN_FD
  }

  // Expiry has not closed a connection that is queued or being served.
  ghost predicate ServesOpen(s: Server) {
    && (forall fd | fd in s.queue && fd != LISTEN_FD :: fd in s.timer.epoll.open)
    && (forall w | w in s.workers && s.workers[w] != LISTEN_FD :: s.workers[w] in s.timer.epoll.open)
  }

  ghost predicate TimerOk(t: TimerState, now: int) {
    && Tracks(t, LISTEN_FD) && Sorted(t) && MadeBy(t, now)
    && Consistent(t.epoll)
    && (forall fd | fd in t.epoll.armed && fd != LISTEN_FD :: IsLive(t, fd))
    && (forall fd | IsLive(t, fd) && fd != LISTEN_FD :: fd in t.epoll.open)
  }

  ghost predicate BatchOk(s: Server) {
    && Distinct(s.batch)
    && (forall fd | Client(fd) in s.batch && fd != LISTEN_FD ::
          IsLive(s.timer, fd) && fd !in s.timer.epoll.armed)
  }

  ghost predicate Inv(s: Server) {
    TimerOk(s.timer, s.now) && BatchOk(s) && Exclusive(s) && ServesOpen(s)
  }

  // In none of the three places.
  ghost predicate Loose(s: Server, fd: int) {
    && !IsLive(s.timer, fd) && fd !in s.queue
    && forall v | v in s.workers :: s.workers[v] != fd
  }

  lemma InitInv()
    ensures Inv(Init())
  {
  }

  lemma FetchKeepsInv(b: Build, s: Server, events: seq<Event>)
    requires Inv(s) && CanFetch(b, s, events)
    ensures Inv(Next(b, s, Fetch(events)).server)
  {
    var s' := Next(b, s, Fetch(events)).server;
    forall fd | Client(fd) in s'.batch && fd != LISTEN_FD
      ensures IsLive(s'.timer, fd) && fd !in s'.timer.epoll.armed
    {
      assert fd in ClientFds(events);
    }
  }

  lemma TakeKeepsInv(b: Build, s: Server, w: nat)
    requires Inv(s) && Next(b, s, Take(w)).Running?
    ensures Inv(Next(b, s, Take(w)).server)
  {
  }

  /* ---------- a client event ---------- */

  lemma RestOfBatch(s: Server)
    requires Inv(s) && s.batch != []
    ensures Inv(s.(batch := s.batch[1..]))
    ensures s.batch[0] !in s.batch[1..]
  {
    assert forall e | e in s.batch[1..] :: e in s.batch;
  }

  // An operation on one descriptor keeps the timer in order for the others.
  lemma TimerStaysOk(t: TimerState, t': TimerState, fd: int, now: int)
    requires TimerOk(t, now) && Tracks(t', LISTEN_FD) && Sorted(t') && MadeBy(t', now) && Consistent(t'.epoll)
    requires t'.epoll.open == t.epoll.open && t'.epoll.armed <= t.epoll.armed + {fd}
    requires forall f | f != fd :: IsLive(t', f) <==> IsLive(t, f)
    requires fd != LISTEN_FD ==>
               (fd in t'.epoll.armed ==> IsLive(t', fd)) && (IsLive(t', fd) ==> fd in t.epoll.open)
    ensures TimerOk(t', now)
  {
  }

  lemma ForbidKeepsTimer(guarded: bool, t: TimerState, fd: int, now: int)
    requires TimerOk(t, now) && (fd == LISTEN_FD || (IsLive(t, fd) && fd !in t.epoll.armed))
    ensures fd != LISTEN_FD ==> ForbidenFd(guarded, t, fd).Defined?
    ensures ForbidenFd(guarded, t, fd).Defined? ==>
              var t' := ForbidenFd(guarded, t, fd).value;
              && TimerOk(t', now) && t'.epoll == t.epoll
              && (forall f :: IsLive(t', f) <==> IsLive(t, f) && f != fd)
  {
    RemovalKeepsShape(guarded, t, fd);
    if ForbidenFd(guarded, t, fd).Defined? {
      ForbidEffect(guarded, t, fd);
      RemovalKeepsTracks(guarded, t, fd, LISTEN_FD);
      RemovalKeepsSorted(guarded, t, fd, now);
      TimerStaysOk(t, ForbidenFd(guarded, t, fd).value, fd, now);
    }
  }

  // The connection leaves the timer's list and joins the queue.
  lemma QueueingKeepsExclusive(s: Server, s': Server, fd: int)
    requires Exclusive(s) && ServesOpen(s) && s'.queue == s.queue + [fd] && s'.workers == s.workers
    requires fd != LISTEN_FD ==> IsLive(s.timer, fd) && fd in s.timer.epoll.open
    requires forall f :: IsLive(s'.timer, f) <==> IsLive(s.timer, f) && f != fd
    requires s'.timer.epoll == s.timer.epoll
    ensures Exclusive(s') && ServesOpen(s')
  {
  }

  lemma DispatchClientKeepsInv(b: Build, s: Server, fd: int)
    requires Inv(s) && Client(fd) !in s.batch
    requires fd == LISTEN_FD || (IsLive(s.timer, fd) && fd !in s.timer.epoll.armed)
    ensures var r := DispatchClient(b, s, fd);
            (fd != LISTEN_FD ==> r.Running?) && (r.Running? ==> Inv(r.server))
  {
    ForbidKeepsTimer(b.guarded, s.timer, fd, s.now);
    if DispatchClient(b, s, fd).Running? {
      QueueingKeepsExclusive(s, DispatchClient(b, s, fd).server, fd);
    }
  }

  // Dispatching the event of a connection is always defined.
  lemma ClientKeepsInv(b: Build, s: Server)
    requires Inv(s) && s.batch != [] && s.batch[0].Client?
    ensures var fd, r := s.batch[0].fd, DispatchClient(b, s.(batch := s.batch[1..]), s.batch[0].fd);
            && (fd != LISTEN_FD ==> r.Running?)
            && (r.Running? ==> Inv(r.server) && r.server.queue == s.queue + [fd] && !IsLive(r.server.timer, fd))
  {
    var fd := s.batch[0].fd;
    assert Client(fd) in s.batch;
    RestOfBatch(s);
    DispatchClientKeepsInv(b, s.(batch := s.batch[1..]), fd);
  }

  /* ---------- accepting ---------- */

  lemma AcceptedKeepExclusive(s: Server, s': Server, accepted: seq<int>)
    requires Inv(s) && CanAccept(s, accepted)
    requires s'.queue == s.queue + accepted && s'.workers == s.workers
    requires s'.timer == s.timer.(epoll := Opened(s.timer.epoll, SetOf(accepted)))
    ensures Exclusive(s') && ServesOpen(s')
  {
    assert LISTEN_FD !in accepted;
    assert forall f :: IsLive(s'.timer, f) <==> IsLive(s.timer, f);
    forall i, j | 0 <= i < j < |s'.queue| && s'.queue[i] == s'.queue[j] ensures s'.queue[i] == LISTEN_FD {
      if i < |s.queue| <= j {
        assert s.queue[i] in s.queue && accepted[j - |s.queue|] in accepted;
      }
    }
  }

  lemma ListenKeepsInv(b: Build, s: Server, accepted: seq<int>)
    requires Inv(s) && s.batch != [] && s.batch[0].Listen? && CanAccept(s, accepted)
    ensures var r := DispatchListen(b, s.(batch := s.batch[1..]), accepted);
            r.Running? ==> Inv(r.server)
  {
    RestOfBatch(s);
    var s1 := s.(batch := s.batch[1..]);
    var s2 := WithEpoll(s1, Opened(s1.timer.epoll, SetOf(accepted)))
      .(queue := s1.queue + accepted, served := Reset(s1.served, accepted));
    AcceptedKeepExclusive(s1, s2, accepted);
    assert Inv(s2);
    if b.fallThrough && DispatchListen(b, s1, accepted).Running? {
      ListenQueuedKeepsInv(b, s2);
    }
  }

  // Even an event of the listening descriptor itself would do no harm to a connection.
  lemma ListenQueuedKeepsInv(b: Build, s: Server)
    requires Inv(s) && DispatchClient(b, s, LISTEN_FD).Running?
    ensures Inv(DispatchClient(b, s, LISTEN_FD).server)
  {
    ForbidKeepsTimer(b.guarded, s.timer, LISTEN_FD, s.now);
    QueueingKeepsExclusive(s, DispatchClient(b, s, LISTEN_FD).server, LISTEN_FD);
  }

  /* ---------- an alarm ---------- */

  lemma ExpiryKeepsTimer(guarded: bool, t: TimerState, now: int, at: int)
    requires TimerOk(t, now) && DeleteExpiredFd(guarded, t, at).Defined?
    ensures var t', gone := DeleteExpiredFd(guarded, t, at).value, Gone(guarded, t, at);
            && TimerOk(t', now) && Closes(t, t', gone)
            && (forall fd | fd in gone && fd != LISTEN_FD :: IsLive(t, fd))
  {
    ExpiryKeepsTracks(guarded, t, at, LISTEN_FD);
    ExpiryCloses(guarded, t, at);
  }

  // No client event among `events` is about one of the connections in `gone`.
  predicate Spares(events: seq<Event>, gone: set<int>) {
    ClientFds(events) * gone <= {LISTEN_FD}
  }

  lemma AlarmKeepsBatchIff(s: Server, s': Server, gone: set<int>)
    requires BatchOk(s) && s'.batch == s.batch && Closes(s.timer, s'.timer, gone)
    ensures BatchOk(s') <==> Spares(s.batch, gone)
  {
    assert forall fd :: Client(fd) in s.batch <==> fd in ClientFds(s.batch);
    assert forall fd :: IsLive(s'.timer, fd) <==> IsLive(s.timer, fd) && fd !in gone;
    if !Spares(s.batch, gone) {
      var fd :| fd in ClientFds(s.batch) * gone && fd != LISTEN_FD;
      assert Client(fd) in s'.batch && !IsLive(s'.timer, fd);
    } else {
      assert forall fd | Client(fd) in s.batch && fd != LISTEN_FD :: fd in ClientFds(s.batch) && fd !in gone by {
        assert forall fd | fd in ClientFds(s.batch) && fd in gone :: fd in ClientFds(s.batch) * gone;
      }
    }
  }

  lemma AlarmKeepsExclusive(s: Server, s': Server, gone: set<int>)
    requires Exclusive(s) && ServesOpen(s) && s'.queue == s.queue && s'.workers == s.workers
    requires Closes(s.timer, s'.timer, gone)
    requires forall fd | fd in gone && fd != LISTEN_FD :: IsLive(s.timer, fd)
    ensures Exclusive(s') && ServesOpen(s')
  {
    assert forall fd :: IsLive(s'.timer, fd) ==> IsLive(s.timer, fd);
  }

  // The step that decides safety.  With a batch in hand, handling the alarm keeps the
  // invariant exactly when no client event still to be dispatched is about an expired connection.
  lemma AlarmKeepsInvIff(b: Build, s: Server, at: int)
    requires Inv(s) && s.batch != [] && s.batch[0].Alarm?
    requires DispatchAlarm(b, s.(batch := s.batch[1..]), at).Running?
    ensures Inv(DispatchAlarm(b, s.(batch := s.batch[1..]), at).server) <==>
            Spares(s.batch[1..], Gone(b.guarded, s.timer, at))
  {
    RestOfBatch(s);
    var s1, gone := s.(batch := s.batch[1..]), Gone(b.guarded, s.timer, at);
    var s' := DispatchAlarm(b, s1, at).server;
    ExpiryKeepsTimer(b.guarded, s.timer, s.now, at);
    AlarmKeepsBatchIff(s1, s', gone);
    AlarmKeepsExclusive(s1, s', gone);
  }

  /* ---------- the end of a worker's turn ---------- */

  lemma ReleaseKeepsInv(s: Server, w: nat)
    requires Inv(s) && w in s.workers
    ensures var fd, s' := s.workers[w], Released(s, w);
            Inv(s') && (fd != LISTEN_FD ==> fd in s'.timer.epoll.open && Loose(s', fd))
  {
  }

  lemma RearmingArmsOne(how: Rearm, e: Epoll, fd: int)
    requires Consistent(e)
    ensures Consistent(CtlAdd(e, fd)) && CtlAdd(e, fd).open == e.open && CtlAdd(e, fd).armed <= e.armed + {fd}
    ensures var e' := ResetOneshot(how, e, fd);
            Consistent(e') && e'.open == e.open && e'.armed <= e.armed + {fd}
  {
  }

  lemma AddKeepsTimer(how: Rearm, t: TimerState, fd: int, now: int)
    requires TimerOk(t, now) && (fd == LISTEN_FD || (!IsLive(t, fd) && fd in t.epoll.open))
    ensures var t' := AddFd(how, t, fd, now).0;
            && TimerOk(t', now) && t'.epoll.open == t.epoll.open
            && t'.epoll.armed <= t.epoll.armed + {fd}
            && (forall f | f != fd :: IsLive(t', f) <==> IsLive(t, f))
  {
    RearmingArmsOne(how, t.epoll, fd);
    AddEffect(how, t, fd, now);
    AddFdKeepsTracks(how, t, fd, now, LISTEN_FD);
    AddFdKeepsSorted(how, t, fd, now);
    TimerStaysOk(t, AddFd(how, t, fd, now).0, fd, now);
  }

  lemma ChangedTimerKeepsInv(s: Server, s': Server, fd: int)
    requires Inv(s) && (fd == LISTEN_FD || Loose(s, fd))
    requires s' == s.(timer := s'.timer) && TimerOk(s'.timer, s'.now)
    requires forall f | f != fd :: IsLive(s'.timer, f) <==> IsLive(s.timer, f)
    requires s'.timer.epoll.armed <= s.timer.epoll.armed + {fd}
    requires s.timer.epoll.open - {fd} <= s'.timer.epoll.open
    ensures Inv(s')
  {
    assert forall f | f in s.timer.epoll.open && f != fd :: f in s'.timer.epoll.open by {
      assert forall f :: f in s.timer.epoll.open - {fd} ==> f in s'.timer.epoll.open;
    }
  }

  lemma KeepKeepsInv(b: Build, s: Server, fd: int)
    requires Inv(s) && (fd == LISTEN_FD || (Loose(s, fd) && fd in s.timer.epoll.open))
    ensures Inv(EndWith(b, s, fd, Keep).server)
  {
    AddKeepsTimer(b.rearm, s.timer, fd, s.now);
    ChangedTimerKeepsInv(s, EndWith(b, s, fd, Keep).server, fd);
  }

  lemma CloseKeepsInv(s: Server, fd: int)
    requires Inv(s) && (fd == LISTEN_FD || Loose(s, fd))
    ensures Inv(Closed(s, fd))
  {
    var s' := Closed(s, fd);
    assert forall f :: IsLive(s'.timer, f) <==> IsLive(s.timer, f);
    ChangedTimerKeepsInv(s, s', fd);
  }

  lemma DeleteKeepsTimer(guarded: bool, t: TimerState, fd: int, now: int)
    requires TimerOk(t, now) && DeleteFd(guarded, t, fd).Defined?
    ensures var t' := DeleteFd(guarded, t, fd).value;
            && TimerOk(t', now) && t'.epoll.open == t.epoll.open && t'.epoll.armed <= t.epoll.armed
            && (forall f :: IsLive(t', f) <==> IsLive(t, f) && f != fd)
  {
    DeleteEffect(guarded, t, fd);
    RemovalKeepsTracks(guarded, t, fd, LISTEN_FD);
    RemovalKeepsSorted(guarded, t, fd, now);
    TimerStaysOk(t, DeleteFd(guarded, t, fd).value, fd, now);
  }

  lemma ForgetKeepsInv(b: Build, s: Server, fd: int)
    requires Inv(s) && (fd == LISTEN_FD || Loose(s, fd)) && ForgetAndClose(b, s, fd).Running?
    ensures Inv(ForgetAndClose(b, s, fd).server)
  {
    DeleteKeepsTimer(b.guarded, s.timer, fd, s.now);
    var s1 := s.(timer := DeleteFd(b.guarded, s.timer, fd).value);
    ChangedTimerKeepsInv(s, s1, fd);
    CloseKeepsInv(s1, fd);
  }

  lemma FinishKeepsInv(b: Build, s: Server, w: nat, ending: Ending)
    requires Inv(s) && Next(b, s, Finish(w, ending)).Running?
    ensures Inv(Next(b, s, Finish(w, ending)).server)
  {
    var fd, s1 := s.workers[w], Released(s, w);
    ReleaseKeepsInv(s, w);
    if ending == Keep {
      KeepKeepsInv(b, s1, fd);
    } else if ending == Silent {
    } else if ending == Shut && !b.closeForgets {
      CloseKeepsInv(s1, fd);
    } else {
      ForgetKeepsInv(b, s1, fd);
    }
  }

  /* ---------- every run ---------- */

  predicate IsAlarm(s: Server, step: Step) {
    step.Dispatch? && s.batch != [] && s.batch[0].Alarm?
  }

  // The only step that can break the invariant is an alarm that closes a connection with an
  // event still to be dispatched.
  lemma NextKeepsInvIff(b: Build, s: Server, step: Step)
    requires Inv(s) && Next(b, s, step).Running?
    ensures Inv(Next(b, s, step).server) <==>
            (IsAlarm(s, step) ==> Spares(s.batch[1..], Gone(b.guarded, s.timer, step.at)))
  {
    match step
    case Tick(n) =>
    case Fetch(events) => FetchKeepsInv(b, s, events);
    case Take(w) => TakeKeepsInv(b, s, w);
    case Finish(w, ending) => FinishKeepsInv(b, s, w, ending);
    case Dispatch(accepted, at) =>
      match s.batch[0] {
        case Client(fd) => ClientKeepsInv(b, s);
        case Listen => ListenKeepsInv(b, s, accepted);
        case Alarm => AlarmKeepsInvIff(b, s, at);
      }
  }

  lemma NextKeepsInv(b: Build, s: Server, step: Step)
    requires b.alarmLast && Inv(s) && AlarmsAfterClients(s.batch) && Next(b, s, step).Running?
    ensures var s' := Next(b, s, step).server; Inv(s') && AlarmsAfterClients(s'.batch)
  {
    NextKeepsInvIff(b, s, step);
    if step.Dispatch? {
      assert forall j | 0 <= j < |s.batch[1..]| :: s.batch[1..][j] == s.batch[j + 1];
    }
  }

  lemma {:induction false} RunKeepsInv(b: Build, s: Server, steps: seq<Step>)
    requires b.alarmLast && Inv(s) && AlarmsAfterClients(s.batch) && Run(b, s, steps).Running?
    ensures var s' := Run(b, s, steps).server; Inv(s') && AlarmsAfterClients(s'.batch)
    decreases |steps|
  {
    if steps != [] {
      NextKeepsInv(b, s, steps[0]);
      RunKeepsInv(b, Next(b, s, steps[0]).server, steps[1..]);
    }
  }

  lemma ReachedStatesAreSafe(b: Build, s: Server)
    requires b.alarmLast && Reaches(b, s)
    ensures Inv(s) && AlarmsAfterClients(s.batch)
  {
    var steps :| Run(b, Init(), steps) == Running(s);
    InitInv();
    RunKeepsInv(b, Init(), steps);
  }

  lemma {:induction false} RunSnoc(b: Build, s: Server, steps: seq<Step>, last: Step)
    requires Run(b, s, steps).Running?
    ensures Run(b, s, steps + [last]) == Next(b, Run(b, s, steps).server, last)
    decreases |steps|
  {
    if steps == [] {
      assert Run(b, s, [last]) == Next(b, s, last) by {
        assert Next(b, s, last).Running? ==> Run(b, Next(b, s, last).server, []) == Next(b, s, last);
        assert [last][1..] == [];
      }
    } else {
      RunSnoc(b, Next(b, s, steps[0]).server, steps[1..], last);
      assert (steps + [last])[1..] == steps[1..] + [last];
    }
  }

  lemma ReachNext(b: Build, s: Server, step: Step)
    requires Reaches(b, s) && Next(b, s, step).Running?
    ensures Reaches(b, Next(b, s, step).server)
  {
    var steps :| Run(b, Init(), steps) == Running(s);
    RunSnoc(b, Init(), steps, step);
  }
}

/** The event dispatch of `main` and the two ends of a worker's turn as the program has them:
    methods that act on the timer object and the work list in place.  Each is proved to make
    the step of HttpServer that bears its name. */
module ServerLoop {
  import opened Readings
  import opened Epoll
  import opened ConnectionTimer
  import opened HttpServer
  import T = Timer

  class EventLoop {
    const build: Build
    const timer: T.Timer
    var workList: seq<int>
    var workers: map<nat, int>
    var now: int
    ghost var served: map<int, nat>

    ghost predicate Valid() {
      timer.how == build.rearm && timer.guarded == build.guarded
    }

    ghost function State(batch: seq<Event>): HttpServer.Server
      reads this, timer
    {
      HttpServer.Server(timer.State(), batch, workList, workers, served, now)
    }

    constructor (build: Build)
      ensures Valid() && fresh(timer) && State([]) == Init() && this.build == build
    {
      this.build := build;
      timer := new T.Timer(Epoll({LISTEN_FD}, {}, {}), TIMEOUT, MAX_SIZE, build.rearm, build.guarded);
      workList, workers, now, served := [], map[], 0, map[];
    }

    // A descriptor with an event: out of the timer's list and into the work list.
    method DispatchClient(fd: int, ghost batch: seq<Event>) returns (ok: bool)
      requires Valid()
      modifies this`workList, timer
      ensures HttpServer.DispatchClient(build, old(State(batch)), fd) ==
              if ok then Running(State(batch)) else Crashed
    {
      ok := timer.ForbidenFd(fd);
      if ok {
        workList := workList + [fd];
      }
    }

    // `accepted` is what `accept` returns before it fails.
    method AcceptAll(accepted: seq<int>, ghost batch: seq<Event>)
      requires Valid()
      modifies this`workList, this`served, timer
      ensures State(batch) == var s := old(State(batch));
              WithEpoll(s, Opened(s.timer.epoll, SetOf(accepted)))
                .(queue := s.queue + accepted, served := Reset(s.served, accepted))
    {
      ghost var s := State(batch);
      var i := 0;
      while i < |accepted|
        invariant 0 <= i <= |accepted|
        invariant State(batch) ==
                  WithEpoll(s, Opened(s.timer.epoll, SetOf(accepted[..i]))).(queue := s.queue + accepted[..i])
      {
        timer.epoll := Opened(timer.epoll, {accepted[i]});
        workList := workList + [accepted[i]];
        assert SetOf(accepted[..i + 1]) == SetOf(accepted[..i]) + {accepted[i]};
        assert accepted[..i + 1] == accepted[..i] + [accepted[i]];
        i := i + 1;
      }
      assert accepted[..i] == accepted;
      served := Reset(served, accepted);
    }

    // One round of the loop over a batch; `ok` is false when it has undefined behaviour.
    method Dispatch(batch: seq<Event>, accepted: seq<int>, at: int) returns (ok: bool)
      requires Valid() && batch != []
      requires batch[0].Listen? ==> CanAccept(State(batch), accepted)
      requires batch[0].Alarm? ==> at <= now
      modifies this`workList, this`served, timer
      ensures Next(build, old(State(batch)), Step.Dispatch(accepted, at)) ==
              if ok then Running(State(batch[1..])) else Crashed
    {
      match batch[0] {
        case Client(fd) => ok := DispatchClient(fd, batch[1..]);
        case Listen =>
          AcceptAll(accepted, batch[1..]);
          ok := true;
          if build.fallThrough {
            ok := DispatchClient(LISTEN_FD, batch[1..]);
          }
        case Alarm => ok := timer.DeleteExpiredFd(at);
      }
    }

    // A free worker takes the front of the work list.
    method Take(w: nat) returns (fd: int)
      requires w < THREADS && w !in workers && workList != []
      modifies this`workList, this`workers, this`served
      ensures fd == old(workList[0])
      ensures Next(build, old(State([])), Step.Take(w)) == Running(State([]))
    {
      fd := workList[0];
      workList := workList[1..];
      workers := workers[w := fd];
      served := served[fd := 1 + if fd in served then served[fd] else 0];
    }

    // The end of the worker function.
    method Finish(w: nat, ending: Ending) returns (ok: bool)
      requires Valid() && w in workers
      modifies this`workers, timer
      ensures Next(build, old(State([])), Step.Finish(w, ending)) ==
              if ok then Running(State([])) else Crashed
    {
      var fd := workers[w];
      workers := workers - {w};
      ok := true;
      match ending {
        case Silent =>
        case Keep => var _ := timer.AddFd(fd, now);
        case Shut => if build.closeForgets { ok := timer.DeleteFd(fd); }
        case Failed => ok := timer.DeleteFd(fd);
        case PeerClosed =>
          if !build.catchesClosed {
            return false;
          }
          ok := timer.DeleteFd(fd);
      }
      if ending != Silent && ending != Keep {
        timer.epoll := Close(timer.epoll, fd);
      }
    }
  }
}

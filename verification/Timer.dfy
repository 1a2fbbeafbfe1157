/** The timer as the program has it: an object whose fields are updated in place.
    Each method is proved to compute the function of the same name in ConnectionTimer. */
module Timer {
  import opened Readings
  import opened Epoll
  import opened ConnectionTimer
  import Spec = ConnectionTimer

  class Timer {
    var timeList: seq<Node>
    var hashMap: map<int, Iter>
    var curSize: int
    const maxSize: int
    const timeout: int
    var nextId: nat
    var epoll: Epoll
    const how: Rearm
    const guarded: bool

    ghost function State(): TimerState
      reads this
    {
      TimerState(timeList, hashMap, curSize, maxSize, timeout, nextId, epoll)
    }

    constructor (epoll: Epoll, timeout: int, maxSize: int, how: Rearm, guarded: bool)
      ensures State() == TimerState([], map[], 0, maxSize, timeout, 0, epoll)
      ensures this.how == how && this.guarded == guarded
    {
      timeList, hashMap, curSize, nextId := [], map[], 0, 0;
      this.epoll, this.timeout, this.maxSize := epoll, timeout, maxSize;
      this.how, this.guarded := how, guarded;
    }

    method AddFd(clientFd: int, now: int) returns (added: bool)
      modifies this
      ensures (State(), added) == Spec.AddFd(how, old(State()), clientFd, now)
    {
      if curSize >= maxSize {
        return false;
      }
      var known := clientFd in hashMap;
      var n := Node(nextId, clientFd, now + timeout);
      nextId := nextId + 1;
      timeList := timeList + [n];
      hashMap := hashMap[clientFd := At(n)];
      if !known {
        epoll := CtlAdd(epoll, clientFd);
        curSize := curSize + 1;
      } else {
        epoll := ResetOneshot(how, epoll, clientFd);
      }
      return true;
    }

    // `ok` is false when the call has undefined behaviour.
    method ForbidenFd(clientFd: int) returns (ok: bool)
      modifies this
      ensures Spec.ForbidenFd(guarded, old(State()), clientFd) ==
              if ok then Defined(State()) else Undefined
    {
      if clientFd !in hashMap || (guarded && hashMap[clientFd].End?) {
        return true;
      }
      var erased := Erase(timeList, hashMap[clientFd]);
      if erased.Undefined? {
        return false;
      }
      timeList := erased.value;
      hashMap := hashMap[clientFd := End];
      return true;
    }

    method DeleteFd(clientFd: int) returns (ok: bool)
      modifies this
      ensures Spec.DeleteFd(guarded, old(State()), clientFd) ==
              if ok then Defined(State()) else Undefined
    {
      if clientFd !in hashMap {
        return true;
      }
      if !(guarded && hashMap[clientFd].End?) {
        var erased := Erase(timeList, hashMap[clientFd]);
        if erased.Undefined? {
          return false;
        }
        timeList := erased.value;
      }
      epoll := CtlDel(epoll, clientFd);
      hashMap := hashMap - {clientFd};
      curSize := curSize - 1;
      return true;
    }

    method DeleteExpiredFd(now: int) returns (ok: bool)
      modifies this
      ensures Spec.DeleteExpiredFd(guarded, old(State()), now) ==
              if ok then Defined(State()) else Undefined
    {
      while (if guarded then timeList != [] else curSize > 0)
        invariant Spec.DeleteExpiredFd(guarded, State(), now) ==
                  Spec.DeleteExpiredFd(guarded, old(State()), now)
        decreases |timeList|
      {
        if timeList == [] {
          return false;
        }
        if !IsExpired(timeList[0], now) {
          break;
        }
        var fd := timeList[0].clientFd;
        hashMap := hashMap - {fd};
        epoll := Close(CtlDel(epoll, fd), fd);
        timeList := timeList[1..];
        curSize := curSize - 1;
      }
      return true;
    }
  }
}

/** The timer, over any sequence of its four operations, behaves as a plain map from a
    descriptor to its deadline or to "forbidden". */
module TimerBook {
  import opened Readings
  import opened Epoll
  import opened ConnectionTimer

  datatype Op = Add(fd: int, at: int) | Forbid(fd: int) | Delete(fd: int) | Expire(at: int)

  type Book = map<int, Entry>

  function Apply(how: Rearm, guarded: bool, t: TimerState, op: Op): Outcome<TimerState> {
    match op
    case Add(fd, at) => Defined(AddFd(how, t, fd, at).0)
    case Forbid(fd) => ForbidenFd(guarded, t, fd)
    case Delete(fd) => DeleteFd(guarded, t, fd)
    case Expire(at) => DeleteExpiredFd(guarded, t, at)
  }

  function ApplyAll(how: Rearm, guarded: bool, t: TimerState, ops: seq<Op>): Outcome<TimerState>
    decreases |ops|
  {
    if ops == [] then Defined(t)
    else
      match Apply(how, guarded, t, ops[0])
      case Undefined => Undefined
      case Defined(t') => ApplyAll(how, guarded, t', ops[1..])
  }

  predicate Passed(e: Entry, now: int) {
    e.Deadline? && now > e.at
  }

  // The same operations on the map.
  function Write(capacity: int, timeout: int, book: Book, op: Op): Book {
    match op
    case Add(fd, at) => if |book| >= capacity then book else book[fd := Deadline(at + timeout)]
    case Forbid(fd) => if fd in book then book[fd := Forbidden] else book
    case Delete(fd) => book - {fd}
    case Expire(at) => map fd | fd in book && !Passed(book[fd], at) :: book[fd]
  }

  function WriteAll(capacity: int, timeout: int, book: Book, ops: seq<Op>): Book
    decreases |ops|
  {
    if ops == [] then book else WriteAll(capacity, timeout, Write(capacity, timeout, book, ops[0]), ops[1..])
  }

  // The order the connection protocol keeps to: the clock does not go back, and a descriptor is
  // added only after its event took it out of the list.
  predicate Disciplined(capacity: int, timeout: int, book: Book, ops: seq<Op>, clock: int)
    decreases |ops|
  {
    ops == [] ||
    (&& (ops[0].Add? ==> ops[0].at >= clock && !(ops[0].fd in book && book[ops[0].fd].Deadline?))
     && Disciplined(capacity, timeout, Write(capacity, timeout, book, ops[0]), ops[1..],
                    if ops[0].Add? then ops[0].at else clock))
  }

  lemma ExpiryOnView(guarded: bool, t: TimerState, at: int)
    requires Valid(t) && Sorted(t) && DeleteExpiredFd(guarded, t, at).Defined?
    ensures var t' := DeleteExpiredFd(guarded, t, at).value;
            View(t') == map fd | fd in View(t) && !Passed(View(t)[fd], at) :: View(t)[fd]
  {
    ExpiryIsExact(guarded, t, at);
    ViewAfterExpiry(t, DeleteExpiredFd(guarded, t, at).value, at);
  }

  lemma ViewAfterExpiry(t: TimerState, t': TimerState, at: int)
    requires Valid(t) && t'.hashMap == t.hashMap - ExpiredFds(t, at)
    ensures View(t') == map fd | fd in View(t) && !Passed(View(t)[fd], at) :: View(t)[fd]
  {
    ExpiredMeansPassed(t, at);
    var v, gone := View(t), ExpiredFds(t, at);
    assert View(t') == v - gone;
    var kept := map fd | fd in v && !Passed(v[fd], at) :: v[fd];
    assert kept == v - gone by {
      assert forall fd | fd in v :: fd in gone <==> Passed(v[fd], at);
    }
  }

  lemma ExpiredMeansPassed(t: TimerState, at: int)
    requires Valid(t)
    ensures forall fd | fd in t.hashMap :: fd in ExpiredFds(t, at) <==> Passed(View(t)[fd], at)
  {
  }

  lemma OpRefines(how: Rearm, guarded: bool, t: TimerState, op: Op, clock: int)
    requires Valid(t) && Sorted(t) && MadeBy(t, clock)
    requires Disciplined(t.maxSize, t.timeout, View(t), [op], clock)
    requires Apply(how, guarded, t, op).Defined?
    ensures var t' := Apply(how, guarded, t, op).value;
            && Valid(t') && Sorted(t') && MadeBy(t', if op.Add? then op.at else clock)
            && View(t') == Write(t.maxSize, t.timeout, View(t), op)
            && t'.maxSize == t.maxSize && t'.timeout == t.timeout
  {
    assert |View(t)| == |t.hashMap| by {
      assert View(t).Keys == t.hashMap.Keys;
      assert |View(t)| == |View(t).Keys| && |t.hashMap| == |t.hashMap.Keys|;
    }
    match op
    case Add(fd, at) =>
      AddFdKeepsValid(how, t, fd, at);
      AddFdKeepsSorted(how, t, fd, at);
      AddFdRefines(how, t, fd, at);
    case Forbid(fd) =>
      ForbidenFdRefines(guarded, t, fd);
      RemovalKeepsSorted(guarded, t, fd, clock);
    case Delete(fd) =>
      DeleteFdRefines(guarded, t, fd);
      RemovalKeepsSorted(guarded, t, fd, clock);
    case Expire(at) =>
      ExpiryIsExact(guarded, t, at);
      ExpiryOnView(guarded, t, at);
      UnexpiredIsPart(t.timeList, at);
  }

  // Which operations the timer can do on a book without undefined behaviour.
  predicate Harmless(guarded: bool, book: Book, op: Op) {
    match op
    case Add(_, _) => true
    case Forbid(fd) => guarded || !(fd in book && book[fd].Forbidden?)
    case Delete(fd) => guarded || !(fd in book && book[fd].Forbidden?)
    case Expire(at) =>
      || guarded
      || (forall fd | fd in book :: !book[fd].Forbidden?)
      || (exists fd | fd in book :: book[fd].Deadline? && !Passed(book[fd], at))
  }

  predicate AllHarmless(guarded: bool, capacity: int, timeout: int, book: Book, ops: seq<Op>)
    decreases |ops|
  {
    ops == [] ||
    (&& Harmless(guarded, book, ops[0])
     && AllHarmless(guarded, capacity, timeout, Write(capacity, timeout, book, ops[0]), ops[1..]))
  }

  lemma ExpiryDefinedOnBook(guarded: bool, t: TimerState, at: int)
    requires Valid(t) && Sorted(t)
    ensures DeleteExpiredFd(guarded, t, at).Defined? <==> Harmless(guarded, View(t), Expire(at))
  {
    ExpiryDefinedIff(guarded, t, at);
    var book := View(t);
    assert HasForbidden(t) <==> exists fd | fd in book :: book[fd].Forbidden? by {
      assert forall fd | fd in t.hashMap :: t.hashMap[fd].End? <==> book[fd].Forbidden?;
    }
    if n :| n in t.timeList && !IsExpired(n, at) {
      assert book[n.clientFd].Deadline? && !Passed(book[n.clientFd], at);
    }
    if fd :| fd in book && book[fd].Deadline? && !Passed(book[fd], at) {
      assert IsLive(t, fd) && !IsExpired(t.hashMap[fd].node, at);
    }
  }

  lemma OpDefinedIff(how: Rearm, guarded: bool, t: TimerState, op: Op)
    requires Valid(t) && Sorted(t)
    ensures Apply(how, guarded, t, op).Defined? <==> Harmless(guarded, View(t), op)
  {
    match op
    case Add(fd, at) =>
    case Forbid(fd) => ForbidenFdRefines(guarded, t, fd);
    case Delete(fd) => DeleteFdRefines(guarded, t, fd);
    case Expire(at) => ExpiryDefinedOnBook(guarded, t, at);
  }

  // The list and the iterator map together refine the plain map, and a run stays defined
  // exactly when each of its operations is harmless on that map.
  lemma {:induction false} TimerRefinesBook(how: Rearm, guarded: bool, t: TimerState, ops: seq<Op>, clock: int)
    requires Valid(t) && Sorted(t) && MadeBy(t, clock)
    requires Disciplined(t.maxSize, t.timeout, View(t), ops, clock)
    ensures var r := ApplyAll(how, guarded, t, ops);
            && (r.Defined? <==> AllHarmless(guarded, t.maxSize, t.timeout, View(t), ops))
            && (r.Defined? ==>
                  && Valid(r.value) && Sorted(r.value)
                  && View(r.value) == WriteAll(t.maxSize, t.timeout, View(t), ops))
    decreases |ops|
  {
    if ops != [] {
      var op := ops[0];
      OpDefinedIff(how, guarded, t, op);
      if Apply(how, guarded, t, op).Defined? {
        assert Disciplined(t.maxSize, t.timeout, View(t), [op], clock);
        OpRefines(how, guarded, t, op, clock);
        TimerRefinesBook(how, guarded, Apply(how, guarded, t, op).value, ops[1..],
                         if op.Add? then op.at else clock);
      }
    }
  }

  // With the guards in place no sequence of operations is undefined.
  lemma GuardedRunIsDefined(how: Rearm, t: TimerState, ops: seq<Op>, clock: int)
    requires Valid(t) && Sorted(t) && MadeBy(t, clock)
    requires Disciplined(t.maxSize, t.timeout, View(t), ops, clock)
    ensures ApplyAll(how, true, t, ops).Defined?
  {
    TimerRefinesBook(how, true, t, ops, clock);
    GuardedIsHarmless(t.maxSize, t.timeout, View(t), ops);
  }

  lemma {:induction false} GuardedIsHarmless(capacity: int, timeout: int, book: Book, ops: seq<Op>)
    ensures AllHarmless(true, capacity, timeout, book, ops)
    decreases |ops|
  {
    if ops != [] {
      GuardedIsHarmless(capacity, timeout, Write(capacity, timeout, book, ops[0]), ops[1..]);
    }
  }
}

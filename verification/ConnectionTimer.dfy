/** The keep-alive timer: a list of nodes, oldest first, and a hash map from a
    descriptor to the iterator of its node.  An entry whose iterator is `end()` is
    "forbidden": known to the timer, but not subject to expiry. */
module ConnectionTimer {
  import opened Readings
  import opened Epoll

  // `id` is the identity of the list node.  Only whole seconds are ever compared.
  datatype Node = Node(id: nat, clientFd: int, expireTime: int)

  datatype Iter = At(node: Node) | End

  datatype TimerState = TimerState(
    timeList: seq<Node>,
    hashMap: map<int, Iter>,
    curSize: int,
    maxSize: int,
    timeout: int,
    nextId: nat,
    epoll: Epoll)

  // What a client of the timer sees.
  datatype Entry = Deadline(at: int) | Forbidden

  function View(t: TimerState): map<int, Entry> {
    map fd | fd in t.hashMap ::
      match t.hashMap[fd]
      case At(n) => Deadline(n.expireTime)
      case End => Forbidden
  }

  predicate IsLive(t: TimerState, fd: int) {
    fd in t.hashMap && t.hashMap[fd].At?
  }

  predicate HasForbidden(t: TimerState) {
    exists fd :: fd in t.hashMap && t.hashMap[fd].End?
  }

  predicate IsExpired(n: Node, now: int) {
    now > n.expireTime
  }

  /* ---------- invariants ---------- */

  // Every iterator in the map is the iterator of a node that is in the list.
  ghost predicate Shape(t: TimerState) {
    && (forall i, j | 0 <= i < j < |t.timeList| :: t.timeList[i].id < t.timeList[j].id)
    && (forall n | n in t.timeList :: n.id < t.nextId)
    && (forall fd | IsLive(t, fd) ::
          t.hashMap[fd].node in t.timeList && t.hashMap[fd].node.clientFd == fd)
  }

  // ... and every node of the list is the node of its own descriptor.
  ghost predicate Valid(t: TimerState) {
    && Shape(t)
    && (forall n | n in t.timeList :: n.clientFd in t.hashMap && t.hashMap[n.clientFd] == At(n))
    && t.curSize == |t.hashMap|
    && t.curSize <= t.maxSize
  }

  // The same for every descriptor but one, and without the counter.
  ghost predicate Tracks(t: TimerState, but: int) {
    && Shape(t)
    && (forall n | n in t.timeList && n.clientFd != but ::
          n.clientFd in t.hashMap && t.hashMap[n.clientFd] == At(n))
  }

  ghost predicate Ascending(l: seq<Node>) {
    forall i, j | 0 <= i < j < |l| :: l[i].expireTime <= l[j].expireTime
  }

  ghost predicate Sorted(t: TimerState) {
    Ascending(t.timeList)
  }

  // The clock has not gone back since the nodes were made.
  ghost predicate MadeBy(t: TimerState, now: int) {
    forall n | n in t.timeList :: n.expireTime <= now + t.timeout
  }

  /* ---------- the four operations ---------- */

  function IndexOf(l: seq<Node>, n: Node): (i: nat)
    requires n in l
    ensures i < |l| && l[i] == n
  {
    if l[0] == n then 0 else 1 + IndexOf(l[1..], n)
  }

  // `std::list::erase`
  function Erase(l: seq<Node>, it: Iter): Outcome<seq<Node>> {
    if it.At? && it.node in l
    then var i := IndexOf(l, it.node); Defined(l[..i] + l[i + 1..])
    else Undefined
  }

  function Insert(t: TimerState, fd: int, now: int): TimerState {
    var n := Node(t.nextId, fd, now + t.timeout);
    t.(timeList := t.timeList + [n], hashMap := t.hashMap[fd := At(n)], nextId := t.nextId + 1)
  }

  function AddFd(how: Rearm, t: TimerState, fd: int, now: int): (TimerState, bool) {
    if t.curSize >= t.maxSize then (t, false)
    else if fd !in t.hashMap then
      (Insert(t, fd, now).(epoll := CtlAdd(t.epoll, fd), curSize := t.curSize + 1), true)
    else
      (Insert(t, fd, now).(epoll := ResetOneshot(how, t.epoll, fd)), true)
  }

  // `guarded` stands for the test that the iterator is not `end()`, which the program omits.
  function ForbidenFd(guarded: bool, t: TimerState, fd: int): Outcome<TimerState> {
    if fd !in t.hashMap then Defined(t)
    else if guarded && t.hashMap[fd].End? then Defined(t)
    else
      match Erase(t.timeList, t.hashMap[fd])
      case Undefined => Undefined
      case Defined(l) => Defined(t.(timeList := l, hashMap := t.hashMap[fd := End]))
  }

  function DeleteFd(guarded: bool, t: TimerState, fd: int): Outcome<TimerState> {
    if fd !in t.hashMap then Defined(t)
    else
      var erased := if guarded && t.hashMap[fd].End? then Defined(t.timeList)
                    else Erase(t.timeList, t.hashMap[fd]);
      match erased
      case Undefined => Undefined
      case Defined(l) => Defined(t.(timeList := l, hashMap := t.hashMap - {fd},
                                    curSize := t.curSize - 1, epoll := CtlDel(t.epoll, fd)))
  }

  function DropFront(t: TimerState): TimerState
    requires t.timeList != []
  {
    var fd := t.timeList[0].clientFd;
    t.(timeList := t.timeList[1..], hashMap := t.hashMap - {fd},
       curSize := t.curSize - 1, epoll := Close(CtlDel(t.epoll, fd), fd))
  }

  // The program tests `curSize > 0`; the guarded form tests the list itself.
  function DeleteExpiredFd(guarded: bool, t: TimerState, now: int): Outcome<TimerState>
    decreases |t.timeList|
  {
    if !(if guarded then t.timeList != [] else t.curSize > 0) then Defined(t)
    else if t.timeList == [] then Undefined
    else if IsExpired(t.timeList[0], now) then DeleteExpiredFd(guarded, DropFront(t), now)
    else Defined(t)
  }

  /* ---------- the structure refines a map from descriptors to entries ---------- */

  lemma EraseKeepsOthers(l: seq<Node>, n: Node)
    requires n in l
    requires forall i, j | 0 <= i < j < |l| :: l[i].id < l[j].id
    ensures Erase(l, At(n)).Defined?
    ensures var r := Erase(l, At(n)).value;
            && (forall m :: m in r <==> m in l && m != n)
            && (forall i, j | 0 <= i < j < |r| :: r[i].id < r[j].id)
            && |r| == |l| - 1
  {
  }

  lemma MapSizes<V>(m: map<int, V>, k: int, v: V)
    ensures |m[k := v]| == if k in m then |m| else |m| + 1
    ensures k in m ==> |m - {k}| == |m| - 1
  {
  }

  lemma AddFdKeepsShape(how: Rearm, t: TimerState, fd: int, now: int)
    requires Shape(t)
    ensures Shape(AddFd(how, t, fd, now).0)
  {
  }

  lemma AddFdKeepsValid(how: Rearm, t: TimerState, fd: int, now: int)
    requires Valid(t) && !IsLive(t, fd)
    ensures Valid(AddFd(how, t, fd, now).0)
  {
    var t' := AddFd(how, t, fd, now).0;
    AddFdKeepsShape(how, t, fd, now);
    if t' != t {
      var n' := Node(t.nextId, fd, now + t.timeout);
      MapSizes(t.hashMap, fd, At(n'));
      forall n | n in t'.timeList
        ensures n.clientFd in t'.hashMap && t'.hashMap[n.clientFd] == At(n)
      {
        if n != n' {
          assert n in t.timeList;
        }
      }
    }
  }

  // Adding keeps the structure consistent exactly when it refuses, or when the
  // descriptor's old node was taken out of the list first.
  lemma AddFdKeepsValidIff(how: Rearm, t: TimerState, fd: int, now: int)
    requires Valid(t)
    ensures var (t', added) := AddFd(how, t, fd, now);
            && (added <==> t.curSize < t.maxSize)
            && (Valid(t') <==> !added || !IsLive(t, fd))
  {
    var (t', added) := AddFd(how, t, fd, now);
    if added {
      if IsLive(t, fd) {
        var orphan := t.hashMap[fd].node;
        assert t'.timeList[IndexOf(t.timeList, orphan)] == orphan;
        assert t'.hashMap[fd] != At(orphan);
      } else {
        AddFdKeepsValid(how, t, fd, now);
      }
    }
  }

  lemma AddFdRefines(how: Rearm, t: TimerState, fd: int, now: int)
    ensures var (t', added) := AddFd(how, t, fd, now);
            View(t') == if added then View(t)[fd := Deadline(now + t.timeout)] else View(t)
  {
  }

  lemma AddFdKeepsSorted(how: Rearm, t: TimerState, fd: int, now: int)
    requires Sorted(t) && MadeBy(t, now)
    ensures var t' := AddFd(how, t, fd, now).0; Sorted(t') && MadeBy(t', now)
  {
  }

  lemma ForbidLiveKeepsValid(t: TimerState, fd: int, l: seq<Node>)
    requires Valid(t) && IsLive(t, fd) && Erase(t.timeList, t.hashMap[fd]) == Defined(l)
    ensures Valid(t.(timeList := l, hashMap := t.hashMap[fd := End]))
  {
    EraseKeepsOthers(t.timeList, t.hashMap[fd].node);
    MapSizes(t.hashMap, fd, End);
  }

  // Forbidding is undefined exactly on an entry that is already forbidden and unguarded.
  lemma ForbidenFdRefines(guarded: bool, t: TimerState, fd: int)
    requires Valid(t)
    ensures var r := ForbidenFd(guarded, t, fd);
            && (r.Undefined? <==> !guarded && fd in t.hashMap && t.hashMap[fd].End?)
            && (r.Defined? ==>
                  && Valid(r.value)
                  && View(r.value) == if fd in t.hashMap then View(t)[fd := Forbidden] else View(t))
  {
    if IsLive(t, fd) {
      EraseKeepsOthers(t.timeList, t.hashMap[fd].node);
      ForbidLiveKeepsValid(t, fd, Erase(t.timeList, t.hashMap[fd]).value);
    }
  }

  // So is deleting: the error path of a connection that was kept alive runs into it.
  lemma DeleteFdRefines(guarded: bool, t: TimerState, fd: int)
    requires Valid(t)
    ensures var r := DeleteFd(guarded, t, fd);
            && (r.Undefined? <==> !guarded && fd in t.hashMap && t.hashMap[fd].End?)
            && (r.Defined? ==> Valid(r.value) && View(r.value) == View(t) - {fd})
  {
    if fd in t.hashMap {
      MapSizes(t.hashMap, fd, End);
      if IsLive(t, fd) {
        EraseKeepsOthers(t.timeList, t.hashMap[fd].node);
      }
    }
  }

  lemma EraseKeepsAscending(l: seq<Node>, n: Node)
    requires Ascending(l) && n in l
    ensures var r := Erase(l, At(n)).value; Ascending(r) && forall m | m in r :: m in l
  {
  }

  lemma RemovalKeepsSorted(guarded: bool, t: TimerState, fd: int, now: int)
    requires Shape(t) && Sorted(t) && MadeBy(t, now)
    ensures var r := ForbidenFd(guarded, t, fd);
            r.Defined? ==> Sorted(r.value) && MadeBy(r.value, now)
    ensures var r := DeleteFd(guarded, t, fd);
            r.Defined? ==> Sorted(r.value) && MadeBy(r.value, now)
  {
    var f, d := ForbidenFd(guarded, t, fd), DeleteFd(guarded, t, fd);
    if IsLive(t, fd) {
      var n := t.hashMap[fd].node;
      EraseKeepsAscending(t.timeList, n);
    } else {
      assert f.Defined? ==> f.value.timeList == t.timeList && f.value.timeout == t.timeout;
      assert d.Defined? ==> d.value.timeList == t.timeList && d.value.timeout == t.timeout;
    }
  }

  /* ---------- expiry ---------- */

  function Unexpired(l: seq<Node>, now: int): seq<Node> {
    if l == [] then []
    else (if IsExpired(l[0], now) then [] else [l[0]]) + Unexpired(l[1..], now)
  }

  ghost function ExpiredFds(t: TimerState, now: int): set<int> {
    set n | n in t.timeList && IsExpired(n, now) :: n.clientFd
  }

  lemma {:induction false} UnexpiredAll(l: seq<Node>, now: int)
    requires forall n | n in l :: !IsExpired(n, now)
    ensures Unexpired(l, now) == l
  {
    if l != [] {
      UnexpiredAll(l[1..], now);
      assert l == [l[0]] + l[1..];
    }
  }

  lemma {:induction false} UnexpiredIsPart(l: seq<Node>, now: int)
    ensures forall n | n in Unexpired(l, now) :: n in l
  {
    if l != [] {
      UnexpiredIsPart(l[1..], now);
    }
  }

  lemma DropFrontKeepsValid(t: TimerState)
    requires Valid(t) && Sorted(t) && t.timeList != []
    ensures Valid(DropFront(t)) && Sorted(DropFront(t))
  {
    var n := t.timeList[0];
    var t' := DropFront(t);
    assert n in t.timeList;
    forall m ensures m in t'.timeList <==> m in t.timeList && m != n {
      if m in t.timeList && m != n {
        var i := IndexOf(t.timeList, m);
        assert t'.timeList[i - 1] == m;
      }
    }
    assert t'.hashMap.Keys == t.hashMap.Keys - {n.clientFd};
    assert |t'.hashMap| == |t'.hashMap.Keys| && |t.hashMap| == |t.hashMap.Keys|;
  }

  ghost predicate Expires(t: TimerState, t': TimerState, now: int) {
    var gone := ExpiredFds(t, now);
    && t'.timeList == Unexpired(t.timeList, now)
    && t'.hashMap == t.hashMap - gone
    && t'.epoll == Epoll(t.epoll.open - gone, t.epoll.registered - gone, t.epoll.armed - gone)
    && t'.nextId == t.nextId && t'.maxSize == t.maxSize && t'.timeout == t.timeout
  }

  lemma ExpiresFromFront(t: TimerState, t': TimerState, now: int)
    requires t.timeList != [] && IsExpired(t.timeList[0], now)
    requires Expires(DropFront(t), t', now)
    ensures Expires(t, t', now)
  {
  }

  lemma NothingExpires(t: TimerState, now: int)
    requires Sorted(t) && (t.timeList == [] || !IsExpired(t.timeList[0], now))
    ensures Expires(t, t, now)
  {
    UnexpiredAll(t.timeList, now);
    assert ExpiredFds(t, now) == {};
  }

  // Whenever the front-only loop is defined it removes exactly the expired nodes.
  lemma {:induction false} ExpiryIsExact(guarded: bool, t: TimerState, now: int)
    requires Valid(t) && Sorted(t)
    requires DeleteExpiredFd(guarded, t, now).Defined?
    ensures var t' := DeleteExpiredFd(guarded, t, now).value;
            Valid(t') && Sorted(t') && Expires(t, t', now)
    decreases |t.timeList|
  {
    if t.timeList != [] {
      ListedMeansCounted(t);
    }
    if t.timeList != [] && IsExpired(t.timeList[0], now) {
      DropFrontKeepsValid(t);
      ExpiryIsExact(guarded, DropFront(t), now);
      ExpiresFromFront(t, DeleteExpiredFd(guarded, t, now).value, now);
    } else {
      NothingExpires(t, now);
    }
  }

  // A connection outlives its deadline by no second, and ends with none to go.
  lemma ExpiryByDeadline(guarded: bool, t: TimerState, now: int)
    requires Valid(t) && Sorted(t) && DeleteExpiredFd(guarded, t, now).Defined?
    ensures var t' := DeleteExpiredFd(guarded, t, now).value;
            && (forall n :: n in t'.timeList <==> n in t.timeList && now <= n.expireTime)
            && (forall n | n in t.timeList :: n.clientFd in t'.epoll.open <==>
                  n.clientFd in t.epoll.open && now <= n.expireTime)
  {
    ExpiryIsExact(guarded, t, now);
    forall n ensures n in Unexpired(t.timeList, now) <==> n in t.timeList && now <= n.expireTime {
      InUnexpired(t.timeList, n, now);
    }
    forall n | n in t.timeList ensures n.clientFd in ExpiredFds(t, now) <==> now > n.expireTime {
      assert t.hashMap[n.clientFd] == At(n);
    }
  }

  lemma {:induction false} InUnexpired(l: seq<Node>, n: Node, now: int)
    ensures n in Unexpired(l, now) <==> n in l && now <= n.expireTime
  {
    if l != [] {
      InUnexpired(l[1..], n, now);
      assert l == [l[0]] + l[1..];
    }
  }

  lemma ListedMeansCounted(t: TimerState)
    requires Valid(t) && t.timeList != []
    ensures t.curSize > 0
  {
    assert t.timeList[0] in t.timeList;
    assert t.timeList[0].clientFd in t.hashMap.Keys;
    assert |t.hashMap| == |t.hashMap.Keys|;
  }

  // As written the loop runs off the list exactly when some entry is forbidden
  // and no listed connection is unexpired; the guarded form is always defined.
  lemma {:induction false} ExpiryDefinedIff(guarded: bool, t: TimerState, now: int)
    requires Valid(t) && Sorted(t)
    ensures DeleteExpiredFd(guarded, t, now).Defined? <==>
            guarded || !HasForbidden(t) || exists n :: n in t.timeList && !IsExpired(n, now)
    decreases |t.timeList|
  {
    if t.timeList == [] {
      EmptyListCountsForbidden(t);
    } else {
      var n, t1 := t.timeList[0], DropFront(t);
      ListedMeansCounted(t);
      assert n in t.timeList;
      if IsExpired(n, now) {
        DropFrontKeepsValid(t);
        ExpiryDefinedIff(guarded, t1, now);
        assert t.timeList == [n] + t1.timeList;
        if fd :| fd in t.hashMap && t.hashMap[fd].End? {
          assert fd in t1.hashMap && t1.hashMap[fd].End?;
        }
      }
    }
  }

  lemma EmptyListCountsForbidden(t: TimerState)
    requires Valid(t) && t.timeList == []
    ensures t.curSize > 0 <==> HasForbidden(t)
  {
    assert |t.hashMap| == |t.hashMap.Keys|;
    assert forall fd | fd in t.hashMap.Keys :: !IsLive(t, fd);
    if !HasForbidden(t) {
      assert forall fd: int :: fd !in t.hashMap.Keys;
      assert t.hashMap.Keys == {};
    }
  }

  /* ---------- what is kept when one descriptor's node may have been orphaned ---------- */

  lemma ForbidEffect(guarded: bool, t: TimerState, fd: int)
    requires ForbidenFd(guarded, t, fd).Defined?
    ensures var t' := ForbidenFd(guarded, t, fd).value;
            && t'.epoll == t.epoll
            && t'.hashMap == if fd in t.hashMap then t.hashMap[fd := End] else t.hashMap
  {
  }

  lemma DeleteEffect(guarded: bool, t: TimerState, fd: int)
    requires DeleteFd(guarded, t, fd).Defined?
    ensures var t' := DeleteFd(guarded, t, fd).value;
            && t'.hashMap == t.hashMap - {fd}
            && t'.epoll == if fd in t.hashMap then CtlDel(t.epoll, fd) else t.epoll
  {
  }

  lemma AddEffect(how: Rearm, t: TimerState, fd: int, now: int)
    ensures var (t', added) := AddFd(how, t, fd, now);
            && (!added ==> t' == t)
            && (added ==>
                  && t'.hashMap == t.hashMap[fd := At(Node(t.nextId, fd, now + t.timeout))]
                  && t'.epoll == if fd in t.hashMap then ResetOneshot(how, t.epoll, fd) else CtlAdd(t.epoll, fd))
  {
  }

  lemma AddFdKeepsTracks(how: Rearm, t: TimerState, fd: int, now: int, but: int)
    requires Tracks(t, but) && (fd == but || !IsLive(t, fd))
    ensures Tracks(AddFd(how, t, fd, now).0, but)
  {
    var t' := AddFd(how, t, fd, now).0;
    AddFdKeepsShape(how, t, fd, now);
    if t' != t {
      assert forall n | n in t'.timeList :: n in t.timeList || n == Node(t.nextId, fd, now + t.timeout);
    }
  }

  lemma RemovalKeepsShape(guarded: bool, t: TimerState, fd: int)
    requires Shape(t)
    ensures ForbidenFd(guarded, t, fd).Defined? ==> Shape(ForbidenFd(guarded, t, fd).value)
    ensures DeleteFd(guarded, t, fd).Defined? ==> Shape(DeleteFd(guarded, t, fd).value)
    ensures guarded || IsLive(t, fd) ==> ForbidenFd(guarded, t, fd).Defined? && DeleteFd(guarded, t, fd).Defined?
  {
    if IsLive(t, fd) {
      EraseKeepsOthers(t.timeList, t.hashMap[fd].node);
    }
  }

  lemma OthersKeepTracks(t: TimerState, t': TimerState, fd: int, but: int)
    requires Tracks(t, but) && Shape(t')
    requires forall n | n in t'.timeList :: n in t.timeList && (IsLive(t, fd) ==> n != t.hashMap[fd].node)
    requires forall f | f != fd && f in t.hashMap :: f in t'.hashMap && t'.hashMap[f] == t.hashMap[f]
    ensures Tracks(t', but)
  {
  }

  lemma RemovalKeepsTracks(guarded: bool, t: TimerState, fd: int, but: int)
    requires Tracks(t, but)
    ensures ForbidenFd(guarded, t, fd).Defined? ==> Tracks(ForbidenFd(guarded, t, fd).value, but)
    ensures DeleteFd(guarded, t, fd).Defined? ==> Tracks(DeleteFd(guarded, t, fd).value, but)
  {
    RemovalKeepsShape(guarded, t, fd);
    if IsLive(t, fd) {
      EraseKeepsOthers(t.timeList, t.hashMap[fd].node);
    }
    if ForbidenFd(guarded, t, fd).Defined? {
      OthersKeepTracks(t, ForbidenFd(guarded, t, fd).value, fd, but);
    }
    if DeleteFd(guarded, t, fd).Defined? {
      OthersKeepTracks(t, DeleteFd(guarded, t, fd).value, fd, but);
    }
  }

  lemma DropFrontKeepsShape(t: TimerState)
    requires Shape(t) && t.timeList != []
    ensures Shape(DropFront(t))
  {
  }

  lemma DropFrontKeepsTracks(t: TimerState, but: int)
    requires Tracks(t, but) && t.timeList != []
    ensures Tracks(DropFront(t), but)
  {
    DropFrontKeepsShape(t);
    var n, t' := t.timeList[0], DropFront(t);
    forall m | m in t'.timeList && m.clientFd != but
      ensures m.clientFd in t'.hashMap && t'.hashMap[m.clientFd] == At(m)
    {
      var i :| 0 <= i < |t'.timeList| && t'.timeList[i] == m;
      assert t.timeList[i + 1] == m && m.id > n.id;
    }
  }

  // The nodes the loop can get to before its size test stops it.
  function InReach(guarded: bool, t: TimerState): seq<Node> {
    if guarded || t.curSize >= |t.timeList| then t.timeList
    else if t.curSize < 0 then []
    else t.timeList[..t.curSize]
  }

  // The descriptors it closes.
  ghost function Gone(guarded: bool, t: TimerState, now: int): set<int> {
    set n | n in InReach(guarded, t) && IsExpired(n, now) :: n.clientFd
  }

  lemma GoneWithFront(guarded: bool, t: TimerState, now: int)
    requires t.timeList != [] && IsExpired(t.timeList[0], now) && (guarded || t.curSize > 0)
    ensures Gone(guarded, t, now) == {t.timeList[0].clientFd} + Gone(guarded, DropFront(t), now)
  {
    assert InReach(guarded, t) == [t.timeList[0]] + InReach(guarded, DropFront(t));
  }

  ghost predicate Closes(t: TimerState, t': TimerState, gone: set<int>) {
    && t'.hashMap == t.hashMap - gone
    && t'.epoll == Epoll(t.epoll.open - gone, t.epoll.registered - gone, t.epoll.armed - gone)
    && t'.timeout == t.timeout
    && |t'.timeList| <= |t.timeList| && t'.timeList == t.timeList[|t.timeList| - |t'.timeList|..]
  }

  lemma ClosesFromFront(t: TimerState, t': TimerState, gone: set<int>)
    requires t.timeList != [] && Closes(DropFront(t), t', gone)
    ensures Closes(t, t', {t.timeList[0].clientFd} + gone)
  {
  }

  // What the loop does even when the counter has lost track of the list.
  lemma {:induction false} ExpiryCloses(guarded: bool, t: TimerState, now: int)
    requires Sorted(t) && DeleteExpiredFd(guarded, t, now).Defined?
    ensures Closes(t, DeleteExpiredFd(guarded, t, now).value, Gone(guarded, t, now))
    decreases |t.timeList|
  {
    if t.timeList != [] && IsExpired(t.timeList[0], now) && (guarded || t.curSize > 0) {
      var t1 := DropFront(t);
      ExpiryCloses(guarded, t1, now);
      GoneWithFront(guarded, t, now);
      ClosesFromFront(t, DeleteExpiredFd(guarded, t, now).value, Gone(guarded, t1, now));
    } else {
      assert Gone(guarded, t, now) == {};
    }
  }

  lemma {:induction false} ExpiryKeepsShape(guarded: bool, t: TimerState, now: int)
    requires Shape(t)
    ensures var r := DeleteExpiredFd(guarded, t, now);
            (r.Defined? ==> Shape(r.value)) && (guarded ==> r.Defined?)
    decreases |t.timeList|
  {
    if t.timeList != [] && IsExpired(t.timeList[0], now) {
      DropFrontKeepsShape(t);
      ExpiryKeepsShape(guarded, DropFront(t), now);
    }
  }

  lemma {:induction false} ExpiryKeepsTracks(guarded: bool, t: TimerState, now: int, but: int)
    requires Tracks(t, but) && DeleteExpiredFd(guarded, t, now).Defined?
    ensures Tracks(DeleteExpiredFd(guarded, t, now).value, but)
    decreases |t.timeList|
  {
    if t.timeList != [] && IsExpired(t.timeList[0], now) && (guarded || t.curSize > 0) {
      DropFrontKeepsTracks(t, but);
      ExpiryKeepsTracks(guarded, DropFront(t), now, but);
    }
  }

  // With the guard, or while the counter agrees with the list, the loop gets to all of it.
  lemma GoneIsExpired(guarded: bool, t: TimerState, now: int)
    requires guarded || Valid(t)
    ensures Gone(guarded, t, now) == ExpiredFds(t, now)
  {
    if !guarded {
      ListLengthIsLiveCount(t);
      var live := set fd | fd in t.hashMap && t.hashMap[fd].At?;
      assert |t.hashMap| == |t.hashMap.Keys| == |live| + |t.hashMap.Keys - live|;
    }
  }

  /* ---------- counting nodes ---------- */

  ghost function Fds(l: seq<Node>): (fds: set<int>)
    ensures forall fd :: fd in fds <==> exists n :: n in l && n.clientFd == fd
  {
    set n | n in l :: n.clientFd
  }

  lemma {:induction false} DistinctFds(l: seq<Node>)
    requires forall i, j | 0 <= i < j < |l| :: l[i].clientFd != l[j].clientFd
    ensures |Fds(l)| == |l|
  {
    if l != [] {
      var n := |l| - 1;
      DistinctFds(l[..n]);
      assert l == l[..n] + [l[n]];
      assert Fds(l) == Fds(l[..n]) + {l[n].clientFd};
      assert l[n].clientFd !in Fds(l[..n]);
    }
  }

  // The list holds one node per entry that is not forbidden.
  lemma ListLengthIsLiveCount(t: TimerState)
    requires Valid(t)
    ensures |t.timeList| == |set fd | fd in t.hashMap && t.hashMap[fd].At?|
  {
    forall i, j | 0 <= i < j < |t.timeList|
      ensures t.timeList[i].clientFd != t.timeList[j].clientFd
    {
      assert t.timeList[i] in t.timeList && t.timeList[j] in t.timeList;
    }
    DistinctFds(t.timeList);
    var live := set fd | fd in t.hashMap && t.hashMap[fd].At?;
    forall fd | fd in live ensures fd in Fds(t.timeList) {
      assert IsLive(t, fd);
    }
    assert Fds(t.timeList) == live;
  }
}

/** The elastic thread pool of `thread_pool/`: workers and one manager thread, with shared
    counters and an array of thread ids.  Each step is what a thread does between two points
    at which another thread can observe it; `mutexPool` is modelled, `threadExit` and
    `addTask` do not take it. */
module ElasticPool {
  import opened Readings
  import opened TaskQueue

  const NUMBER := 2

  /** Idle      outside every critical section, about to take the mutex
      Waiting   in the condition wait
      Holding   owns the mutex, past the waiting loop
      Running   executes a task
      Leaving   was told to exit: `liveNum` is decremented, its slot not yet cleared
      Quitting  leaves because of the shutdown; `liveNum` is not decremented
      Departed  left because of the shutdown, its slot cleared */
  datatype Phase = Idle | Waiting | Holding | Running | Leaving | Quitting | Departed

  datatype Mutex = Free | Checked(tid: nat) | Taking(tid: nat) | Manager

  datatype Duty = Asleep | Sampled(queueSize: int, liveNum: int) | Growing(i: nat, counter: nat)
                | Grown | Shrinking | Over

  datatype Pool = Pool(
    minNum: int, maxNum: int,
    busyNum: int, liveNum: int, exitNum: int,
    slots: seq<nat>, phase: map<nat, Phase>, nextTid: nat,
    queue: seq<int>, appended: seq<int>, taken: seq<int>,
    mutex: Mutex, manager: Duty, shutdown: bool)

  datatype Step =
    | AddTask(task: int)
    | Enter(tid: nat)
    | Wake(tid: nat)
    | TestShutdown
    | TakeTask
    | Done(tid: nat)
    | Clear(tid: nat, slot: nat)
    | Manage
    | Shutdown

  datatype Result = Running(pool: Pool) | Crashed | Blocked

  // The id array after construction: ids 1 to `min`, then zeros.
  function FirstSlots(min: nat, max: nat): (slots: seq<nat>)
    requires min <= max
    ensures |slots| == max && forall i | 0 <= i < max :: slots[i] == if i < min then i + 1 else 0
  {
    seq(max, i => if i < min then i + 1 else 0)
  }

  function FirstThreads(n: nat): (phase: map<nat, Phase>)
    ensures forall t: nat :: t in phase <==> 1 <= t <= n
    ensures forall t | t in phase :: phase[t] == Idle
  {
    if n == 0 then map[] else FirstThreads(n - 1)[n := Idle]
  }

  function Init(min: nat, max: nat): Pool
    requires min <= max
  {
    Pool(min, max, 0, min, 0,
         FirstSlots(min, max), FirstThreads(min), min + 1,
         [], [], [], Free, Asleep, false)
  }

  /* ---------- transitions ---------- */

  function Moved(s: Pool, t: nat, p: Phase): Pool {
    s.(phase := s.phase[t := p])
  }

  // The test at the head of the waiting loop, made with the mutex held.
  function LoopTest(s: Pool, t: nat): Pool {
    if s.queue == [] && !s.shutdown then Moved(s, t, Waiting)
    else Moved(s, t, Holding).(mutex := Checked(t))
  }

  // What a worker back from the wait decides: whether to leave, and the new counters.
  function ExitVote(minNum: int, liveNum: int, exitNum: int): (bool, int, int) {
    if exitNum > 0 then
      if liveNum > minNum then (true, liveNum - 1, exitNum - 1) else (false, liveNum, exitNum - 1)
    else (false, liveNum, exitNum)
  }

  function AfterWait(s: Pool, t: nat): Pool {
    var (leave, live, exit) := ExitVote(s.minNum, s.liveNum, s.exitNum);
    var s1 := s.(liveNum := live, exitNum := exit);
    if leave then Moved(s1, t, Leaving) else LoopTest(s1, t)
  }

  function TakeStep(s: Pool, t: nat): Result {
    match Taken(s.queue)
    case (None, _) => Crashed
    case (Some(task), rest) =>
      Result.Running(Moved(s, t, Phase.Running).(queue := rest, taken := s.taken + [task],
                                                 busyNum := s.busyNum + 1, mutex := Free))
  }

  function GrowStep(s: Pool, i: nat, counter: nat): Pool {
    if i < s.maxNum && i < |s.slots| && counter < NUMBER && s.liveNum < s.maxNum then
      if s.slots[i] == 0 then
        Moved(s, s.nextTid, Idle).(slots := s.slots[i := s.nextTid], nextTid := s.nextTid + 1,
                                   liveNum := s.liveNum + 1, manager := Growing(i + 1, counter + 1))
      else s.(manager := Growing(i + 1, counter))
    else s.(manager := Grown, mutex := Free)
  }

  // As written the manager loops while `shutdown` holds; it is meant to loop until then.
  predicate Manages(r: Reading, s: Pool) {
    match r case AsWritten => s.shutdown case AsMeant => !s.shutdown
  }

  function ManagerStep(r: Reading, s: Pool): Result {
    match s.manager
    case Asleep =>
      if !Manages(r, s) then Result.Running(s.(manager := Over))
      else if s.mutex.Free? then Result.Running(s.(manager := Sampled(|s.queue|, s.liveNum)))
      else Blocked
    case Sampled(queueSize, liveNum) =>
      if !(queueSize > liveNum && liveNum < s.maxNum) then Result.Running(s.(manager := Grown))
      else if s.mutex.Free? then Result.Running(s.(manager := Growing(0, 0), mutex := Manager))
      else Blocked
    case Growing(i, counter) => Result.Running(GrowStep(s, i, counter))
    case Grown =>
      if s.busyNum * 2 < s.liveNum && s.liveNum > s.minNum
      then Result.Running(s.(manager := Shrinking)) else Result.Running(s.(manager := Asleep))
    case Shrinking =>
      if s.mutex.Free? then Result.Running(s.(exitNum := NUMBER, manager := Asleep)) else Blocked
    case Over => Blocked
  }

  predicate Is(s: Pool, t: nat, p: Phase) {
    t in s.phase && s.phase[t] == p
  }

  function Next(r: Reading, s: Pool, step: Step): Result {
    match step
    case AddTask(x) =>
      if s.shutdown then Blocked
      else Result.Running(s.(queue := s.queue + [x], appended := s.appended + [x]))
    case Enter(t) =>
      if s.mutex.Free? && Is(s, t, Idle) then Result.Running(LoopTest(s, t)) else Blocked
    case Wake(t) =>
      if s.mutex.Free? && Is(s, t, Waiting) then Result.Running(AfterWait(s, t)) else Blocked
    case TestShutdown =>
      if !s.mutex.Checked? then Blocked
      else if s.shutdown then Result.Running(Moved(s, s.mutex.tid, Quitting).(mutex := Free))
      else Result.Running(s.(mutex := Taking(s.mutex.tid)))
    case TakeTask =>
      if s.mutex.Taking? then TakeStep(s, s.mutex.tid) else Blocked
    case Done(t) =>
      if s.mutex.Free? && Is(s, t, Phase.Running)
      then Result.Running(Moved(s, t, Idle).(busyNum := s.busyNum - 1)) else Blocked
    case Clear(t, i) =>
      if i < |s.slots| && s.slots[i] == t && Is(s, t, Leaving) then
        Result.Running(s.(slots := s.slots[i := 0], phase := s.phase - {t}))
      else if i < |s.slots| && s.slots[i] == t && Is(s, t, Quitting) then
        Result.Running(Moved(s, t, Departed).(slots := s.slots[i := 0]))
      else Blocked
    case Manage => ManagerStep(r, s)
    case Shutdown => Result.Running(s.(shutdown := true))
  }

  function Run(r: Reading, s: Pool, steps: seq<Step>): Result
    decreases |steps|
  {
    if steps == [] then Result.Running(s)
    else
      match Next(r, s, steps[0])
      case Running(s') => Run(r, s', steps[1..])
      case other => other
  }

  /* ---------- counting threads by phase ---------- */

  function Those(phase: map<nat, Phase>, ps: set<Phase>): set<nat> {
    set t | t in phase && phase[t] in ps
  }

  function One(b: bool): nat {
    if b then 1 else 0
  }

  lemma MoveCounts(phase: map<nat, Phase>, t: nat, p: Phase, ps: set<Phase>)
    ensures |Those(phase[t := p], ps)| ==
            |Those(phase, ps)| - One(t in phase && phase[t] in ps) + One(p in ps)
  {
    var before, after := Those(phase, ps), Those(phase[t := p], ps);
    if p in ps {
      assert after == before + {t};
    } else {
      assert after == before - {t};
    }
  }

  lemma DropCounts(phase: map<nat, Phase>, t: nat, ps: set<Phase>)
    ensures |Those(phase - {t}, ps)| == |Those(phase, ps)| - One(t in phase && phase[t] in ps)
  {
    assert Those(phase - {t}, ps) == Those(phase, ps) - {t};
  }

  const COUNTED := {Idle, Waiting, Holding, Phase.Running, Quitting, Departed}
  const BUSY := {Phase.Running}
  const SLOTTED := {Idle, Waiting, Holding, Phase.Running, Leaving, Quitting}

  function Used(slots: seq<nat>): set<nat> {
    set i: nat | i < |slots| && slots[i] != 0
  }

  ghost predicate Counts(s: Pool) {
    && s.liveNum == |Those(s.phase, COUNTED)|
    && s.busyNum == |Those(s.phase, BUSY)|
    && s.minNum <= s.liveNum <= s.maxNum
    && 0 <= s.exitNum <= NUMBER
  }

  // Every thread that has not cleared its slot has exactly one, and no slot has a stranger's id.
  ghost predicate Slots(s: Pool) {
    && |s.slots| == s.maxNum
    && (forall t | t in s.phase :: 0 < t < s.nextTid)
    && (forall i | 0 <= i < |s.slots| && s.slots[i] != 0 ::
          s.slots[i] in s.phase && s.phase[s.slots[i]] in SLOTTED)
    && (forall i, j | 0 <= i < j < |s.slots| && s.slots[i] != 0 :: s.slots[i] != s.slots[j])
    && (forall t | t in s.phase && s.phase[t] in SLOTTED :: t in s.slots)
    && |Used(s.slots)| == |Those(s.phase, SLOTTED)|
  }

  ghost predicate Mutual(s: Pool) {
    && (s.mutex.Checked? || s.mutex.Taking? ==> Is(s, s.mutex.tid, Holding))
    && (s.mutex.Checked? ==> s.queue != [] || s.shutdown)
    && (s.mutex.Taking? ==> s.queue != [])
    && (s.mutex.Manager? <==> s.manager.Growing?)
    && s.appended == s.taken + s.queue
    && (!s.shutdown ==> forall t | t in s.phase :: !s.phase[t].Quitting? && !s.phase[t].Departed?)
  }

  ghost predicate Inv(s: Pool) {
    Counts(s) && Slots(s) && Mutual(s)
  }

  /* ---------- the invariant holds initially and is kept ---------- */

  lemma {:induction false} InitCounts(n: nat)
    ensures var phase := FirstThreads(n);
            |Those(phase, COUNTED)| == |Those(phase, SLOTTED)| == n && Those(phase, BUSY) == {}
  {
    if n > 0 {
      InitCounts(n - 1);
      MoveCounts(FirstThreads(n - 1), n, Idle, COUNTED);
      MoveCounts(FirstThreads(n - 1), n, Idle, SLOTTED);
    }
  }

  lemma InitInv(min: nat, max: nat)
    requires min <= max
    ensures Inv(Init(min, max))
  {
    InitCounts(min);
    var s := Init(min, max);
    assert Used(s.slots) == Below(min);
    forall t | t in s.phase ensures t in s.slots {
      assert s.slots[t - 1] == t;
    }
  }

  // A step that moves one thread between phases that both have a slot.
  lemma MoveKeeps(s: Pool, t: nat, p: Phase)
    requires Slots(s) && t in s.phase && s.phase[t] in SLOTTED && p in SLOTTED
    ensures Slots(Moved(s, t, p))
  {
    MoveCounts(s.phase, t, p, SLOTTED);
  }

  lemma MoveCountsAll(s: Pool, t: nat, p: Phase)
    requires t in s.phase
    ensures |Those(Moved(s, t, p).phase, COUNTED)| ==
            |Those(s.phase, COUNTED)| - One(s.phase[t] in COUNTED) + One(p in COUNTED)
    ensures |Those(Moved(s, t, p).phase, BUSY)| ==
            |Those(s.phase, BUSY)| - One(s.phase[t] in BUSY) + One(p in BUSY)
  {
    MoveCounts(s.phase, t, p, COUNTED);
    MoveCounts(s.phase, t, p, BUSY);
  }

  lemma LoopTestKeepsInv(s: Pool, t: nat)
    requires Inv(s) && s.mutex.Free? && (Is(s, t, Idle) || Is(s, t, Waiting))
    ensures Inv(LoopTest(s, t))
  {
    var p := if s.queue == [] && !s.shutdown then Waiting else Holding;
    MoveKeeps(s, t, p);
    MoveCountsAll(s, t, p);
  }

  function Left(s: Pool, t: nat): Pool {
    Moved(s.(liveNum := s.liveNum - 1, exitNum := s.exitNum - 1), t, Leaving)
  }

  lemma LeaveKeepsCounts(s: Pool, t: nat)
    requires Counts(s) && Is(s, t, Waiting) && s.liveNum > s.minNum && s.exitNum > 0
    ensures Counts(Left(s, t))
  {
    MoveCountsAll(s, t, Leaving);
  }

  lemma LeaveKeepsMutual(s: Pool, t: nat)
    requires Mutual(s) && s.mutex.Free? && Is(s, t, Waiting)
    ensures Mutual(Left(s, t))
  {
  }

  lemma WakeKeepsInv(s: Pool, t: nat)
    requires Inv(s) && s.mutex.Free? && Is(s, t, Waiting)
    ensures Inv(AfterWait(s, t))
  {
    var (leave, live, exit) := ExitVote(s.minNum, s.liveNum, s.exitNum);
    if leave {
      LeaveKeepsCounts(s, t);
      MoveKeeps(s, t, Leaving);
      LeaveKeepsMutual(s, t);
    } else {
      assert Inv(s.(exitNum := exit));
      LoopTestKeepsInv(s.(exitNum := exit), t);
    }
  }

  lemma TestShutdownKeepsInv(r: Reading, s: Pool)
    requires Inv(s) && s.mutex.Checked?
    ensures Inv(Next(r, s, TestShutdown).pool)
  {
    if s.shutdown {
      MoveKeeps(s, s.mutex.tid, Quitting);
      MoveCountsAll(s, s.mutex.tid, Quitting);
    }
  }

  lemma TakeKeepsInv(r: Reading, s: Pool)
    requires Inv(s) && s.mutex.Taking?
    ensures Next(r, s, TakeTask).Running? && Inv(Next(r, s, TakeTask).pool)
  {
    MoveKeeps(s, s.mutex.tid, Phase.Running);
    MoveCountsAll(s, s.mutex.tid, Phase.Running);
    TakeKeepsMutual(s, s.mutex.tid);
  }

  lemma TakeKeepsMutual(s: Pool, t: nat)
    requires Mutual(s) && s.mutex == Taking(t)
    ensures TakeStep(s, t).Running? && Mutual(TakeStep(s, t).pool)
  {
  }

  lemma DoneKeepsInv(r: Reading, s: Pool, t: nat)
    requires Inv(s) && Next(r, s, Done(t)).Running?
    ensures Inv(Next(r, s, Done(t)).pool)
  {
    MoveKeeps(s, t, Idle);
    MoveCountsAll(s, t, Idle);
  }

  lemma ClearedSlot(s: Pool, t: nat, i: nat, s': Pool)
    requires Slots(s) && t in s.phase && s.phase[t] in SLOTTED && i < |s.slots| && s.slots[i] == t
    requires s'.slots == s.slots[i := 0] && s'.maxNum == s.maxNum && s'.nextTid == s.nextTid
    requires s'.phase == s.phase - {t} || s'.phase == s.phase[t := Departed]
    ensures Slots(s')
  {
    assert Used(s'.slots) == Used(s.slots) - {i};
    if s'.phase == s.phase - {t} {
      DropCounts(s.phase, t, SLOTTED);
    } else {
      MoveCounts(s.phase, t, Departed, SLOTTED);
    }
    forall u | u in s'.phase && s'.phase[u] in SLOTTED ensures u in s'.slots {
      StillThere(s.slots, i, 0, u);
    }
  }

  lemma ClearKeepsCounts(r: Reading, s: Pool, t: nat, i: nat)
    requires Counts(s) && Next(r, s, Clear(t, i)).Running?
    ensures Counts(Next(r, s, Clear(t, i)).pool)
  {
    if Is(s, t, Leaving) {
      DropCounts(s.phase, t, COUNTED);
      DropCounts(s.phase, t, BUSY);
    } else {
      MoveCountsAll(s, t, Departed);
    }
  }

  lemma ClearKeepsInv(r: Reading, s: Pool, t: nat, i: nat)
    requires Inv(s) && Next(r, s, Clear(t, i)).Running?
    ensures Inv(Next(r, s, Clear(t, i)).pool)
  {
    ClearKeepsCounts(r, s, t, i);
    ClearedSlot(s, t, i, Next(r, s, Clear(t, i)).pool);
    ClearKeepsMutual(r, s, t, i);
  }

  lemma ClearKeepsMutual(r: Reading, s: Pool, t: nat, i: nat)
    requires Mutual(s) && Next(r, s, Clear(t, i)).Running?
    ensures Mutual(Next(r, s, Clear(t, i)).pool)
  {
  }

  lemma CreatedSlot(s: Pool, i: nat, s': Pool)
    requires Slots(s) && i < |s.slots| && s.slots[i] == 0
    requires s'.slots == s.slots[i := s.nextTid] && s'.phase == s.phase[s.nextTid := Idle]
    requires s'.maxNum == s.maxNum && s'.nextTid == s.nextTid + 1 && s.nextTid > 0
    ensures Slots(s')
  {
    UsedAfterFill(s.slots, i, s.nextTid);
    MoveCounts(s.phase, s.nextTid, Idle, SLOTTED);
    forall u | u in s'.phase && s'.phase[u] in SLOTTED ensures u in s'.slots {
      if u != s.nextTid {
        StillThere(s.slots, i, s.nextTid, u);
      } else {
        assert s'.slots[i] == u;
      }
    }
  }

  lemma UsedAfterFill(slots: seq<nat>, i: nat, tid: nat)
    requires i < |slots| && slots[i] == 0 && tid > 0
    ensures |Used(slots[i := tid])| == |Used(slots)| + 1
  {
    assert Used(slots[i := tid]) == Used(slots) + {i};
  }

  lemma StillThere(slots: seq<nat>, i: nat, t: nat, u: nat)
    requires i < |slots| && slots[i] != u && u in slots
    ensures u in slots[i := t]
  {
    var k :| 0 <= k < |slots| && slots[k] == u;
    assert slots[i := t][k] == u;
  }

  lemma GrowKeepsInv(s: Pool, i: nat, counter: nat)
    requires Inv(s) && s.manager == Growing(i, counter) && s.nextTid > 0
    ensures Inv(GrowStep(s, i, counter))
  {
    var s' := GrowStep(s, i, counter);
    if s'.slots != s.slots {
      CreatedSlot(s, i, s');
      MoveCounts(s.phase, s.nextTid, Idle, COUNTED);
      MoveCounts(s.phase, s.nextTid, Idle, BUSY);
    }
  }

  lemma ManageKeepsInv(r: Reading, s: Pool)
    requires Inv(s) && s.nextTid > 0 && ManagerStep(r, s).Running?
    ensures Inv(ManagerStep(r, s).pool) && ManagerStep(r, s).pool.nextTid > 0
  {
    if s.manager.Growing? {
      GrowKeepsInv(s, s.manager.i, s.manager.counter);
    } else {
      PauseKeepsInv(r, s);
    }
  }

  lemma PauseEffect(r: Reading, s: Pool)
    requires !s.manager.Growing? && !s.mutex.Manager? && ManagerStep(r, s).Running?
    ensures var s' := ManagerStep(r, s).pool;
            && s' == s.(exitNum := s'.exitNum, mutex := s'.mutex, manager := s'.manager)
            && (s'.exitNum == s.exitNum || s'.exitNum == NUMBER)
            && (s'.manager.Growing? <==> s'.mutex.Manager?) && (s'.mutex == s.mutex || s'.mutex.Manager?)
  {
  }

  lemma PauseKeepsInv(r: Reading, s: Pool)
    requires Inv(s) && !s.manager.Growing? && ManagerStep(r, s).Running?
    ensures Inv(ManagerStep(r, s).pool) && ManagerStep(r, s).pool.nextTid == s.nextTid
  {
    PauseEffect(r, s);
    SameThreads(s, ManagerStep(r, s).pool);
    PauseKeepsMutual(s, ManagerStep(r, s).pool);
  }

  lemma PauseKeepsMutual(s: Pool, s': Pool)
    requires Mutual(s) && (s'.mutex == s.mutex || s'.mutex.Manager?)
    requires s' == s.(exitNum := s'.exitNum, mutex := s'.mutex, manager := s'.manager)
    requires s'.manager.Growing? <==> s'.mutex.Manager?
    ensures Mutual(s')
  {
  }

  lemma SameThreads(s: Pool, s': Pool)
    requires Slots(s) && Counts(s) && 0 <= s'.exitNum <= NUMBER
    requires s' == s.(exitNum := s'.exitNum, queue := s'.queue, appended := s'.appended,
                      mutex := s'.mutex, manager := s'.manager, shutdown := s'.shutdown)
    ensures Slots(s') && Counts(s')
  {
  }

  lemma OutsideKeepsInv(r: Reading, s: Pool, step: Step)
    requires Inv(s) && (step.AddTask? || step.Shutdown?) && Next(r, s, step).Running?
    ensures Inv(Next(r, s, step).pool)
  {
  }

  lemma NextKeepsInv(r: Reading, s: Pool, step: Step)
    requires Inv(s) && s.nextTid > 0
    ensures var result := Next(r, s, step);
            && result != Crashed
            && (result.Running? ==> Inv(result.pool) && result.pool.nextTid > 0)
  {
    if Next(r, s, step) != Blocked {
      match step
      case Enter(t) => LoopTestKeepsInv(s, t);
      case Wake(t) => WakeKeepsInv(s, t);
      case TestShutdown => TestShutdownKeepsInv(r, s);
      case TakeTask => TakeKeepsInv(r, s);
      case Done(t) => DoneKeepsInv(r, s, t);
      case Clear(t, i) => ClearKeepsInv(r, s, t, i);
      case Manage => ManageKeepsInv(r, s);
      case _ => OutsideKeepsInv(r, s, step);
    }
  }

  lemma {:induction false} RunKeepsInv(r: Reading, s: Pool, steps: seq<Step>)
    requires Inv(s) && s.nextTid > 0
    ensures var result := Run(r, s, steps); result != Crashed && (result.Running? ==> Inv(result.pool))
    decreases |steps|
  {
    if steps != [] {
      NextKeepsInv(r, s, steps[0]);
      if Next(r, s, steps[0]).Running? {
        RunKeepsInv(r, Next(r, s, steps[0]).pool, steps[1..]);
      }
    }
  }

  /* ---------- main results ---------- */

  lemma SubsetSizes(phase: map<nat, Phase>)
    ensures |Those(phase, BUSY)| <= |Those(phase, COUNTED)|
    ensures |Those(phase, {Leaving})| + |Those(phase, COUNTED)| ==
            |Those(phase, SLOTTED)| + |Those(phase, {Departed})|
  {
    var busy, counted := Those(phase, BUSY), Those(phase, COUNTED);
    assert busy <= counted && |counted| == |busy| + |counted - busy|;
    var a, b := Those(phase, {Leaving}) + counted, Those(phase, SLOTTED) + Those(phase, {Departed});
    assert a == b;
    assert |a| == |Those(phase, {Leaving})| + |counted|;
    assert |b| == |Those(phase, SLOTTED)| + |Those(phase, {Departed})|;
  }

  // However workers and manager interleave, and however stale the manager's samples are.
  lemma CountersStayInBounds(r: Reading, min: nat, max: nat, steps: seq<Step>)
    requires min <= max && Run(r, Init(min, max), steps).Running?
    ensures var s := Run(r, Init(min, max), steps).pool;
            && min <= s.liveNum <= max && 0 <= s.busyNum <= s.liveNum && 0 <= s.exitNum <= NUMBER
  {
    InitInv(min, max);
    RunKeepsInv(r, Init(min, max), steps);
    RunKeepsSizes(r, Init(min, max), steps);
    SubsetSizes(Run(r, Init(min, max), steps).pool.phase);
  }

  lemma {:induction false} RunKeepsSizes(r: Reading, s: Pool, steps: seq<Step>)
    requires Run(r, s, steps).Running?
    ensures var s' := Run(r, s, steps).pool; s'.minNum == s.minNum && s'.maxNum == s.maxNum
    decreases |steps|
  {
    if steps != [] {
      RunKeepsSizes(r, Next(r, s, steps[0]).pool, steps[1..]);
    }
  }

  // Used slots are the live threads plus those that announced their exit but still hold a slot.
  lemma SlotAccounting(r: Reading, min: nat, max: nat, steps: seq<Step>)
    requires min <= max && Run(r, Init(min, max), steps).Running?
    requires !Run(r, Init(min, max), steps).pool.shutdown
    ensures var s := Run(r, Init(min, max), steps).pool;
            |Used(s.slots)| == s.liveNum + |Those(s.phase, {Leaving})|
  {
    InitInv(min, max);
    RunKeepsInv(r, Init(min, max), steps);
    var s := Run(r, Init(min, max), steps).pool;
    SubsetSizes(s.phase);
    assert Those(s.phase, {Departed}) == {};
  }

  // No worker ever gets the null task, and tasks are taken in the order they were added.
  lemma TasksAreTakenInOrder(r: Reading, min: nat, max: nat, steps: seq<Step>)
    requires min <= max
    ensures var result := Run(r, Init(min, max), steps);
            && result != Crashed
            && (result.Running? ==> result.pool.appended == result.pool.taken + result.pool.queue)
  {
    InitInv(min, max);
    RunKeepsInv(r, Init(min, max), steps);
  }

  /* ---------- the manager as written ---------- */

  ghost predicate Fixed(s: Pool) {
    && s.liveNum == s.minNum && s.exitNum == 0
    && (!s.shutdown ==> s.manager.Asleep? || s.manager.Over?)
  }

  lemma {:induction false} RunKeepsFixed(s: Pool, steps: seq<Step>)
    requires Fixed(s) && Run(AsWritten, s, steps).Running?
    requires !Run(AsWritten, s, steps).pool.shutdown
    ensures Fixed(Run(AsWritten, s, steps).pool)
    decreases |steps|
  {
    if steps != [] {
      var s' := Next(AsWritten, s, steps[0]).pool;
      if s'.shutdown {
        ShutdownStays(AsWritten, s', steps[1..]);
      } else {
        RunKeepsFixed(s', steps[1..]);
      }
    }
  }

  lemma {:induction false} ShutdownStays(r: Reading, s: Pool, steps: seq<Step>)
    requires s.shutdown && Run(r, s, steps).Running?
    ensures Run(r, s, steps).pool.shutdown
    decreases |steps|
  {
    if steps != [] {
      ShutdownStays(r, Next(r, s, steps[0]).pool, steps[1..]);
    }
  }

  /* ---------- the manager as meant ---------- */

  ghost predicate Reaches(r: Reading, from: Pool, s: Pool) {
    exists steps :: Run(r, from, steps) == Result.Running(s)
  }

  lemma {:induction false} RunSnoc(r: Reading, s: Pool, steps: seq<Step>, last: Step)
    requires Run(r, s, steps).Running?
    ensures Run(r, s, steps + [last]) == Next(r, Run(r, s, steps).pool, last)
    decreases |steps|
  {
    if steps == [] {
      assert [] + [last] == [last] && [last][1..] == [];
    } else {
      RunSnoc(r, Next(r, s, steps[0]).pool, steps[1..], last);
      assert (steps + [last])[1..] == steps[1..] + [last];
    }
  }

  lemma ReachNext(r: Reading, from: Pool, s: Pool, step: Step)
    requires Reaches(r, from, s) && Next(r, s, step).Running?
    ensures Reaches(r, from, Next(r, s, step).pool)
  {
    var steps :| Run(r, from, steps) == Result.Running(s);
    RunSnoc(r, from, steps, step);
  }

  // Clients add one task more than there are threads ...
  lemma Overloaded(r: Reading, min: nat, max: nat) returns (s: Pool)
    requires min <= max
    ensures Reaches(r, Init(min, max), s) && |s.queue| == min + 1
    ensures s == Init(min, max).(queue := s.queue, appended := s.appended)
  {
    s := Init(min, max);
    assert Run(r, s, []) == Result.Running(s);
    while |s.queue| < min + 1
      invariant Reaches(r, Init(min, max), s) && |s.queue| <= min + 1
      invariant s == Init(min, max).(queue := s.queue, appended := s.appended)
    {
      ReachNext(r, Init(min, max), s, AddTask(0));
      s := Next(r, s, AddTask(0)).pool;
    }
  }

  // ... and the manager, with nobody interfering, passes the used slots and fills the next one.
  lemma Grows(min: nat, max: nat) returns (s: Pool)
    requires min < max
    ensures Reaches(AsMeant, Init(min, max), s) && !s.shutdown && s.liveNum == min + 1
  {
    s := Overloaded(AsMeant, min, max);
    ReachNext(AsMeant, Init(min, max), s, Manage);
    s := Next(AsMeant, s, Manage).pool;
    ReachNext(AsMeant, Init(min, max), s, Manage);
    s := Next(AsMeant, s, Manage).pool;
    var i := 0;
    while i < min
      invariant 0 <= i <= min && Reaches(AsMeant, Init(min, max), s)
      invariant s.manager == Growing(i, 0) && s.slots == FirstSlots(min, max)
      invariant s.maxNum == max && s.liveNum == min && !s.shutdown
    {
      ReachNext(AsMeant, Init(min, max), s, Manage);
      s := Next(AsMeant, s, Manage).pool;
      i := i + 1;
    }
    ReachNext(AsMeant, Init(min, max), s, Manage);
    s := Next(AsMeant, s, Manage).pool;
  }

  // A growth pass in which no other thread does anything.
  function Growth(s: Pool): (s': Pool)
    requires s.manager.Growing?
    ensures s'.manager == Grown && s'.mutex == Free
    decreases if s.manager.i < |s.slots| then |s.slots| - s.manager.i else 0
  {
    var s1 := GrowStep(s, s.manager.i, s.manager.counter);
    if s1.manager.Growing? then Growth(s1) else s1
  }

  lemma {:induction false} GrowthIsManaged(r: Reading, s: Pool) returns (steps: seq<Step>)
    requires s.manager.Growing?
    ensures Run(r, s, steps) == Result.Running(Growth(s)) && forall step | step in steps :: step == Manage
    decreases if s.manager.i < |s.slots| then |s.slots| - s.manager.i else 0
  {
    var s1 := GrowStep(s, s.manager.i, s.manager.counter);
    var rest: seq<Step> := [];
    if s1.manager.Growing? {
      rest := GrowthIsManaged(r, s1);
    }
    steps := [Manage] + rest;
    assert steps[1..] == rest;
  }

  // Free slots from position `i` on.
  function FreeFrom(slots: seq<nat>, i: nat): nat
    decreases if i < |slots| then |slots| - i else 0
  {
    if i >= |slots| then 0 else One(slots[i] == 0) + FreeFrom(slots, i + 1)
  }

  lemma {:induction false} FillingBehind(slots: seq<nat>, k: nat, tid: nat, i: nat)
    requires k < |slots| && k < i
    ensures FreeFrom(slots[k := tid], i) == FreeFrom(slots, i)
    decreases if i < |slots| then |slots| - i else 0
  {
    if i < |slots| {
      FillingBehind(slots, k, tid, i + 1);
    }
  }

  lemma {:induction false} FreeAfterWrite(slots: seq<nat>, k: nat, tid: nat, i: nat)
    requires i <= k < |slots|
    ensures FreeFrom(slots[k := tid], i) == FreeFrom(slots, i) - One(slots[k] == 0) + One(tid == 0)
    decreases |slots| - i
  {
    if i < k {
      FreeAfterWrite(slots, k, tid, i + 1);
    } else {
      FillingBehind(slots, k, tid, i + 1);
    }
  }

  function Min(a: int, b: int): int {
    if a <= b then a else b
  }

  // Slots in use are left alone, and a free slot stays free or gets one of the new ids.
  ghost predicate Fills(s: Pool, s': Pool) {
    && |s'.slots| == |s.slots| && s.nextTid <= s'.nextTid
    && forall i | 0 <= i < |s.slots| ::
         s'.slots[i] == s.slots[i] || (s.slots[i] == 0 && s.nextTid <= s'.slots[i] < s'.nextTid)
  }

  lemma {:induction false} GrowthFills(s: Pool)
    requires s.manager.Growing?
    ensures Fills(s, Growth(s))
    decreases if s.manager.i < |s.slots| then |s.slots| - s.manager.i else 0
  {
    var s1 := GrowStep(s, s.manager.i, s.manager.counter);
    if s1.manager.Growing? {
      GrowthFills(s1);
    }
  }

  lemma {:induction false} GrowthCounts(s: Pool)
    requires s.manager.Growing? && |s.slots| == s.maxNum && s.nextTid > 0
    requires s.manager.counter <= NUMBER && s.liveNum <= s.maxNum
    ensures var s', i := Growth(s), s.manager.i;
            var created := Min(NUMBER - s.manager.counter, Min(s.maxNum - s.liveNum, FreeFrom(s.slots, i)));
            && s'.liveNum == s.liveNum + created && s'.nextTid == s.nextTid + created
            && FreeFrom(s'.slots, 0) == FreeFrom(s.slots, 0) - created
    decreases if s.manager.i < |s.slots| then |s.slots| - s.manager.i else 0
  {
    var i := s.manager.i;
    var s1 := GrowStep(s, i, s.manager.counter);
    if s1.manager.Growing? {
      GrowthCounts(s1);
      if s.slots[i] == 0 {
        FreeAfterWrite(s.slots, i, s.nextTid, 0);
        FillingBehind(s.slots, i, s.nextTid, i + 1);
      }
    }
  }

  // Undisturbed, a growth pass creates as many threads as it may and can, and overwrites no slot
  // that is in use.
  lemma GrowthCreates(s: Pool)
    requires s.manager == Growing(0, 0) && |s.slots| == s.maxNum && s.liveNum <= s.maxNum && s.nextTid > 0
    ensures var s', created := Growth(s), Min(NUMBER, Min(s.maxNum - s.liveNum, FreeFrom(s.slots, 0)));
            && s'.liveNum == s.liveNum + created && s'.nextTid == s.nextTid + created
            && FreeFrom(s'.slots, 0) == FreeFrom(s.slots, 0) - created
            && Fills(s, s')
  {
    GrowthFills(s);
    GrowthCounts(s);
  }

  // The state in which the manager, having started to grow the pool, is done; none if the run
  // ends or blocks before.
  function PassEnd(r: Reading, s: Pool, steps: seq<Step>): Option<Pool>
    decreases |steps|
  {
    if !s.manager.Growing? then Some(s)
    else if steps == [] then None
    else
      match Next(r, s, steps[0])
      case Running(s1) => PassEnd(r, s1, steps[1..])
      case _ => None
  }

  // What holds throughout the pass: the manager has the mutex and its counters are in bounds.
  ghost predicate InPass(s: Pool) {
    && s.manager.Growing? && s.mutex == Manager && s.manager.counter <= NUMBER
    && |s.slots| == s.maxNum && s.liveNum <= s.maxNum && s.nextTid > 0
  }

  // So others can only add tasks, announce the shutdown, and clear slots.
  lemma OthersDuringPass(r: Reading, s: Pool, step: Step)
    requires InPass(s) && Next(r, s, step).Running? && !step.Manage?
    ensures var s1 := Next(r, s, step).pool;
            && InPass(s1) && s1.manager == s.manager && s1.maxNum == s.maxNum
            && s1.liveNum == s.liveNum && s1.nextTid == s.nextTid
            && (step.Clear? ==> step.slot < |s.slots| && s1.slots == s.slots[step.slot := 0])
            && (!step.Clear? ==> s1.slots == s.slots)
  {
  }

  // `Growth` looks at nothing but these.
  lemma {:induction false} SameGrowth(s: Pool, s1: Pool)
    requires s.manager.Growing? && s1.manager == s.manager && s1.maxNum == s.maxNum
    requires s1.liveNum == s.liveNum && s1.nextTid == s.nextTid && s1.slots == s.slots
    ensures var g, g1 := Growth(s), Growth(s1);
            g1.slots == g.slots && g1.liveNum == g.liveNum && g1.nextTid == g.nextTid
    decreases if s.manager.i < |s.slots| then |s.slots| - s.manager.i else 0
  {
    var t, t1 := GrowStep(s, s.manager.i, s.manager.counter), GrowStep(s1, s1.manager.i, s1.manager.counter);
    if t.manager.Growing? {
      SameGrowth(t, t1);
    }
  }

  // Whatever tasks come in and whoever shuts the pool down meanwhile, a pass during which no
  // slot is cleared ends as the undisturbed one.
  lemma {:induction false} UnclearedPass(r: Reading, s: Pool, steps: seq<Step>)
    requires InPass(s) && PassEnd(r, s, steps).Some?
    requires forall step | step in steps :: !step.Clear?
    ensures var g, e := Growth(s), PassEnd(r, s, steps).value;
            e.slots == g.slots && e.liveNum == g.liveNum && e.nextTid == g.nextTid
    decreases |steps|
  {
    assert steps[0] in steps;
    var s1 := Next(r, s, steps[0]).pool;
    if !steps[0].Manage? {
      OthersDuringPass(r, s, steps[0]);
      SameGrowth(s, s1);
      UnclearedPass(r, s1, steps[1..]);
    } else if s1.manager.Growing? {
      UnclearedPass(r, s1, steps[1..]);
    }
  }

  // It creates as many threads as it may and can, and overwrites no slot that is in use.
  lemma PassCreates(r: Reading, s: Pool, steps: seq<Step>)
    requires Inv(s) && s.nextTid > 0 && s.manager == Growing(0, 0) && PassEnd(r, s, steps).Some?
    requires forall step | step in steps :: !step.Clear?
    ensures var e, created := PassEnd(r, s, steps).value,
                              Min(NUMBER, Min(s.maxNum - s.liveNum, FreeFrom(s.slots, 0)));
            && e.liveNum == s.liveNum + created && e.nextTid == s.nextTid + created
            && FreeFrom(e.slots, 0) == FreeFrom(s.slots, 0) - created
            && Fills(s, e)
  {
    UnclearedPass(r, s, steps);
    GrowthCreates(s);
  }

  lemma ClearingFrees(slots: seq<nat>, k: nat, i: nat)
    requires k < |slots|
    ensures FreeFrom(slots[k := 0], i) >= FreeFrom(slots, i)
  {
    if i <= k {
      FreeAfterWrite(slots, k, 0, i);
    } else {
      FillingBehind(slots, k, 0, i);
    }
  }

  lemma ManageDuringPass(r: Reading, s: Pool)
    requires InPass(s)
    ensures var s1, i := ManagerStep(r, s).pool, s.manager.i;
            ManagerStep(r, s).Running? &&
            if s1.manager.Growing? then
              && InPass(s1) && s1.maxNum == s.maxNum && s1.manager.i == i + 1
              && s1.liveNum - s.liveNum == s1.manager.counter - s.manager.counter
                 == FreeFrom(s.slots, i) - FreeFrom(s1.slots, i + 1)
            else
              && s1.liveNum == s.liveNum
              && (FreeFrom(s.slots, i) == 0 || s.manager.counter == NUMBER || s.liveNum == s.maxNum)
  {
    if s.manager.i < |s.slots| {
      FillingBehind(s.slots, s.manager.i, s.nextTid, s.manager.i + 1);
    }
  }

  // Slots that are cleared meanwhile can only let it create more, up to what it may.
  lemma {:induction false} DisturbedPass(r: Reading, s: Pool, steps: seq<Step>)
    requires InPass(s) && PassEnd(r, s, steps).Some?
    ensures var e, may := PassEnd(r, s, steps).value, Min(NUMBER - s.manager.counter, s.maxNum - s.liveNum);
            Min(may, FreeFrom(s.slots, s.manager.i)) <= e.liveNum - s.liveNum <= may
    decreases |steps|
  {
    var s1 := Next(r, s, steps[0]).pool;
    if !steps[0].Manage? {
      OthersDuringPass(r, s, steps[0]);
      if steps[0].Clear? {
        ClearingFrees(s.slots, steps[0].slot, s.manager.i);
      }
      DisturbedPass(r, s1, steps[1..]);
    } else {
      ManageDuringPass(r, s);
      if s1.manager.Growing? {
        DisturbedPass(r, s1, steps[1..]);
      }
    }
  }

  /* ---------- what a worker does ---------- */

  // An entering worker waits exactly when there is nothing to do; otherwise it keeps the mutex.
  lemma EnterWaitsIff(r: Reading, s: Pool, t: nat)
    requires s.mutex.Free? && Is(s, t, Idle)
    ensures var result := Next(r, s, Enter(t));
            && result.Running?
            && (Is(result.pool, t, Waiting) <==> s.queue == [] && !s.shutdown)
            && result.pool == if s.queue == [] && !s.shutdown then s.(phase := s.phase[t := Waiting])
                              else s.(phase := s.phase[t := Holding], mutex := Checked(t))
  {
  }

  // A worker back from the wait uses up an exit request, and leaves exactly when there is one and
  // the pool is above its minimum; otherwise it goes on as one that enters.
  lemma WakeLeavesIff(r: Reading, s: Pool, t: nat)
    requires s.mutex.Free? && Is(s, t, Waiting)
    ensures var result := Next(r, s, Wake(t));
            && result.Running?
            && (Is(result.pool, t, Leaving) <==> s.exitNum > 0 && s.liveNum > s.minNum)
            && result.pool.exitNum == (if s.exitNum > 0 then s.exitNum - 1 else s.exitNum)
            && result.pool.liveNum == s.liveNum - One(Is(result.pool, t, Leaving))
            && (!Is(result.pool, t, Leaving) ==>
                  var entered := Next(r, s.(phase := s.phase[t := Idle]), Enter(t)).pool;
                  result.pool == entered.(exitNum := result.pool.exitNum))
  {
    assert s.phase[t := Idle][t := Waiting] == s.phase[t := Waiting];
    assert s.phase[t := Idle][t := Holding] == s.phase[t := Holding];
  }

  // The holder quits exactly when the pool is shut down; otherwise it takes the front task.
  lemma HolderTakesIff(r: Reading, s: Pool)
    requires s.mutex.Checked? && s.queue != []
    ensures var t, tested := s.mutex.tid, Next(r, s, TestShutdown);
            && tested.Running?
            && if s.shutdown then tested.pool == s.(phase := s.phase[t := Quitting], mutex := Free)
               else
                 var taken := Next(r, tested.pool, TakeTask);
                 && taken.Running? && Is(taken.pool, t, Phase.Running) && taken.pool.mutex.Free?
                 && taken.pool.taken == s.taken + [s.queue[0]] && s.queue == [s.queue[0]] + taken.pool.queue
                 && taken.pool.busyNum == s.busyNum + 1
                 && taken.pool.phase == s.phase[t := Phase.Running]
  {
  }

  // The holder takes the front of the queue, works, and is idle again.
  lemma HolderCycle(r: Reading, s: Pool, t: nat) returns (s': Pool)
    requires s.mutex == Checked(t) && !s.shutdown && s.queue != []
    ensures Reaches(r, s, s') && s'.mutex.Free? && !s'.shutdown && s'.phase == s.phase[t := Idle]
    ensures s'.taken == s.taken + [s.queue[0]] && s.queue == [s.queue[0]] + s'.queue
    ensures s'.busyNum == s.busyNum && s'.liveNum == s.liveNum
  {
    assert Run(r, s, []) == Result.Running(s);
    HolderTakesIff(r, s);
    ReachNext(r, s, s, TestShutdown);
    var s1 := Next(r, s, TestShutdown).pool;
    ReachNext(r, s, s1, TakeTask);
    var s2 := Next(r, s1, TakeTask).pool;
    ReachNext(r, s, s2, Done(t));
    s' := Next(r, s2, Done(t)).pool;
  }

  // From entering or waking to the end of the task: a worker that is not told to leave takes the
  // front of the queue, and is idle again.
  lemma WorkerCycle(r: Reading, s: Pool, t: nat, first: Step) returns (s': Pool)
    requires s.mutex.Free? && !s.shutdown && s.queue != []
    requires (first == Enter(t) && Is(s, t, Idle)) ||
             (first == Wake(t) && Is(s, t, Waiting) && !(s.exitNum > 0 && s.liveNum > s.minNum))
    ensures Reaches(r, s, s') && s'.mutex.Free? && !s'.shutdown && Is(s', t, Idle)
    ensures s'.taken == s.taken + [s.queue[0]] && s.queue == [s.queue[0]] + s'.queue
    ensures s'.busyNum == s.busyNum && s'.liveNum == s.liveNum && s'.phase == s.phase[t := Idle]
  {
    assert Run(r, s, []) == Result.Running(s);
    if first == Enter(t) {
      EnterWaitsIff(r, s, t);
    } else {
      WakeLeavesIff(r, s, t);
      EnterWaitsIff(r, s.(phase := s.phase[t := Idle]), t);
    }
    ReachNext(r, s, s, first);
    var s1 := Next(r, s, first).pool;
    s' := HolderCycle(r, s1, t);
    ReachesTrans(r, s, s1, s');
  }

  lemma ReachesTrans(r: Reading, a: Pool, b: Pool, c: Pool)
    requires Reaches(r, a, b) && Reaches(r, b, c)
    ensures Reaches(r, a, c)
  {
    var first :| Run(r, a, first) == Result.Running(b);
    var rest :| Run(r, b, rest) == Result.Running(c);
    RunOn(r, a, first, rest);
  }

  lemma {:induction false} RunOn(r: Reading, s: Pool, first: seq<Step>, rest: seq<Step>)
    requires Run(r, s, first).Running?
    ensures Run(r, s, first + rest) == Run(r, Run(r, s, first).pool, rest)
    decreases |first|
  {
    if first == [] {
      assert first + rest == rest;
    } else {
      assert (first + rest)[1..] == first[1..] + rest;
      RunOn(r, Next(r, s, first[0]).pool, first[1..], rest);
    }
  }

  // One idle worker that nobody disturbs does all the work there is, in order.
  lemma {:induction false} OneWorkerDrains(r: Reading, s: Pool, t: nat) returns (s': Pool)
    requires s.mutex.Free? && !s.shutdown && Is(s, t, Idle)
    ensures Reaches(r, s, s') && s'.queue == [] && s'.taken == s.taken + s.queue && Is(s', t, Idle)
    decreases |s.queue|
  {
    if s.queue == [] {
      assert Run(r, s, []) == Result.Running(s);
      s' := s;
    } else {
      var s1 := WorkerCycle(r, s, t, Enter(t));
      s' := OneWorkerDrains(r, s1, t);
      ReachesTrans(r, s, s1, s');
      Associate(s.taken, [s.queue[0]], s1.queue);
    }
  }

  // Once the pool is shut down, only a worker that passed the test before still takes a task.
  lemma {:induction false} NothingTakenAfterShutdown(r: Reading, s: Pool, steps: seq<Step>)
    requires s.shutdown && !s.mutex.Taking? && Run(r, s, steps).Running?
    ensures Run(r, s, steps).pool.taken == s.taken
    decreases |steps|
  {
    if steps != [] {
      ShutdownStays(r, s, [steps[0]]);
      NothingTakenAfterShutdown(r, Next(r, s, steps[0]).pool, steps[1..]);
    }
  }

  /* ---------- how many leave ---------- */

  function Votes(r: Reading, s: Pool, steps: seq<Step>): nat
    decreases |steps|
  {
    if steps == [] || !Next(r, s, steps[0]).Running? then 0
    else One(steps[0].Wake? && s.exitNum > 0) + Votes(r, Next(r, s, steps[0]).pool, steps[1..])
  }

  function Departures(r: Reading, s: Pool, steps: seq<Step>): nat
    decreases |steps|
  {
    if steps == [] || !Next(r, s, steps[0]).Running? then 0
    else One(steps[0].Wake? && Is(Next(r, s, steps[0]).pool, steps[0].tid, Leaving))
         + Departures(r, Next(r, s, steps[0]).pool, steps[1..])
  }

  // How often the manager asks threads to leave.
  function Requests(r: Reading, s: Pool, steps: seq<Step>): nat
    decreases |steps|
  {
    if steps == [] || !Next(r, s, steps[0]).Running? then 0
    else One(steps[0].Manage? && s.manager.Shrinking?) + Requests(r, Next(r, s, steps[0]).pool, steps[1..])
  }

  lemma StepVotes(r: Reading, s: Pool, step: Step)
    requires 0 <= s.exitNum && Next(r, s, step).Running?
    ensures var s' := Next(r, s, step).pool;
            if step.Manage? && s.manager.Shrinking? then s'.exitNum == NUMBER
            else s'.exitNum == s.exitNum - One(step.Wake? && s.exitNum > 0)
    ensures step.Wake? && Is(Next(r, s, step).pool, step.tid, Leaving) ==> s.exitNum > 0
  {
    if step.Wake? {
      WakeLeavesIff(r, s, step.tid);
    }
  }

  // No more threads leave than were asked to: NUMBER for each request, and the requests left over.
  lemma {:induction false} LeaveOnRequest(r: Reading, s: Pool, steps: seq<Step>)
    requires 0 <= s.exitNum && Run(r, s, steps).Running?
    ensures Departures(r, s, steps) <= Votes(r, s, steps)
    ensures Run(r, s, steps).pool.exitNum + Votes(r, s, steps) <= s.exitNum + NUMBER * Requests(r, s, steps)
    ensures Requests(r, s, steps) == 0 ==> Run(r, s, steps).pool.exitNum + Votes(r, s, steps) == s.exitNum
    decreases |steps|
  {
    if steps != [] {
      StepVotes(r, s, steps[0]);
      LeaveOnRequest(r, Next(r, s, steps[0]).pool, steps[1..]);
    }
  }

  /* ---------- what the manager does ---------- */

  // It ends as soon as its loop condition fails, and does nothing more.
  lemma ManagerEndsIff(r: Reading, s: Pool)
    requires s.manager.Asleep? && s.mutex.Free?
    ensures ManagerStep(r, s).Running?
    ensures ManagerStep(r, s).pool.manager == Over <==> (if r == AsMeant then s.shutdown else !s.shutdown)
    ensures ManagerStep(r, s.(manager := Over)) == Blocked
    ensures ManagerStep(r, s).pool == s.(manager := ManagerStep(r, s).pool.manager)
  {
  }

  lemma Managed(r: Reading, from: Pool, s: Pool)
    requires Reaches(r, from, s) && ManagerStep(r, s).Running?
    ensures Reaches(r, from, ManagerStep(r, s).pool)
  {
    ReachNext(r, from, s, Manage);
  }

  // Its decision to grow is about what it read, whatever has changed since.
  lemma GrowsOnSampleIff(r: Reading, s: Pool)
    requires s.manager.Sampled? && s.mutex.Free?
    ensures var s' := ManagerStep(r, s).pool;
            && ManagerStep(r, s).Running?
            && if s.manager.queueSize > s.manager.liveNum && s.manager.liveNum < s.maxNum
               then s' == s.(manager := Growing(0, 0), mutex := Manager)
               else s' == s.(manager := Grown)
  {
  }

  lemma ShrinksIff(r: Reading, s: Pool) returns (s': Pool)
    requires s.manager.Grown? && s.mutex.Free?
    ensures Reaches(r, s, s')
    ensures s' == s.(manager := Asleep,
                     exitNum := if 2 * s.busyNum < s.liveNum && s.liveNum > s.minNum then 2 else s.exitNum)
  {
    assert Run(r, s, []) == Result.Running(s);
    Managed(r, s, s);
    s' := ManagerStep(r, s).pool;
    if s'.manager.Shrinking? {
      Managed(r, s, s');
      s' := ManagerStep(r, s').pool;
    }
  }

  // A round of the manager's loop that nobody disturbs: it adds at most NUMBER threads, if tasks
  // outnumber threads, and then asks for NUMBER to leave if more than half of them are not busy.
  lemma ManagerRound(r: Reading, s: Pool) returns (s': Pool)
    requires Inv(s) && s.nextTid > 0 && s.manager.Asleep? && s.mutex.Free? && Manages(r, s)
    ensures Reaches(r, s, s') && s'.manager.Asleep? && s'.mutex.Free?
    ensures var created := if |s.queue| > s.liveNum
                           then Min(NUMBER, Min(s.maxNum - s.liveNum, FreeFrom(s.slots, 0))) else 0;
            && s'.liveNum == s.liveNum + created && s'.nextTid == s.nextTid + created
            && s'.exitNum == if 2 * s.busyNum < s'.liveNum && s'.liveNum > s.minNum then 2 else s.exitNum
    ensures Fills(s, s') && s'.queue == s.queue && s'.taken == s.taken && s'.busyNum == s.busyNum
  {
    assert Run(r, s, []) == Result.Running(s);
    Managed(r, s, s);
    var s1 := ManagerStep(r, s).pool;
    GrowsOnSampleIff(r, s1);
    Managed(r, s, s1);
    var s2 := ManagerStep(r, s1).pool;
    var s3 := s2;
    if s2.manager.Growing? {
      s3 := GrowsUndisturbed(r, s2);
      ReachesTrans(r, s, s2, s3);
    }
    s' := ShrinksIff(r, s3);
    ReachesTrans(r, s, s3, s');
  }

  lemma GrowsUndisturbed(r: Reading, s: Pool) returns (s': Pool)
    requires s.manager == Growing(0, 0) && |s.slots| == s.maxNum && s.liveNum <= s.maxNum && s.nextTid > 0
    ensures Reaches(r, s, s') && Fills(s, s') && s'.manager == Grown && s'.mutex.Free?
    ensures var created := Min(NUMBER, Min(s.maxNum - s.liveNum, FreeFrom(s.slots, 0)));
            s'.liveNum == s.liveNum + created && s'.nextTid == s.nextTid + created
    ensures s' == s.(slots := s'.slots, nextTid := s'.nextTid, liveNum := s'.liveNum, phase := s'.phase,
                     manager := Grown, mutex := Free)
  {
    s' := Growth(s);
    GrowthCreates(s);
    GrowthKeepsRest(s);
    var steps := GrowthIsManaged(r, s);
    assert Run(r, s, steps) == Result.Running(s');
  }

  lemma {:induction false} GrowthKeepsRest(s: Pool)
    requires s.manager.Growing?
    ensures var g := Growth(s);
            g == s.(slots := g.slots, nextTid := g.nextTid, liveNum := g.liveNum, phase := g.phase,
                    manager := Grown, mutex := Free)
    decreases if s.manager.i < |s.slots| then |s.slots| - s.manager.i else 0
  {
    var s1 := GrowStep(s, s.manager.i, s.manager.counter);
    if s1.manager.Growing? {
      GrowthKeepsRest(s1);
    }
  }

  /* ---------- elasticity ---------- */

  // Before a shutdown a pool can change its size exactly when its bounds leave room and the
  // manager's loop condition is as intended.
  lemma ElasticIff(r: Reading, min: nat, max: nat)
    requires min <= max
    ensures (exists s :: Reaches(r, Init(min, max), s) && !s.shutdown && s.liveNum != min) <==>
            r == AsMeant && min < max
  {
    if r == AsMeant && min < max {
      var s := Grows(min, max);
    } else {
      forall s | Reaches(r, Init(min, max), s) && !s.shutdown ensures s.liveNum == min {
        var steps :| Run(r, Init(min, max), steps) == Result.Running(s);
        if r == AsWritten {
          RunKeepsFixed(Init(min, max), steps);
          RunKeepsSizes(r, Init(min, max), steps);
        } else {
          CountersStayInBounds(r, min, max, steps);
        }
      }
    }
  }
}

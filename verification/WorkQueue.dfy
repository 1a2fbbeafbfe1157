/** The work list shared by the worker threads, with its mutex and condition variable.
    A worker that finds the list empty holds the mutex until it is asleep.  `locked` says
    whether appending takes that mutex: the server's pool does, the elastic pool does not. */
module WorkQueue {
  import opened Readings

  /** `active`   workers running a task or about to take the mutex
      `deciding` the worker that saw an empty list and is about to sleep
      `woken`    workers released from the wait, not yet holding the mutex
      `pending`  tasks appended whose notification is still to be sent */
  datatype Pool<T> = Pool(
    queue: seq<T>, appended: seq<T>, taken: seq<(nat, T)>, pending: nat,
    active: set<nat>, deciding: Option<nat>, waiting: set<nat>, woken: set<nat>)

  datatype Step<T> = Append(task: T) | Notify(waiter: nat) | Look(worker: nat) | Sleep | Spurious(waiter: nat)

  function Init<T>(n: nat): Pool<T> {
    Pool([], [], [], 0, Below(n), None, {}, {})
  }

  predicate Enabled<T>(locked: bool, s: Pool<T>, step: Step<T>) {
    match step
    case Append(_) => !locked || s.deciding.None?
    case Notify(w) => s.pending > 0 && (s.waiting == {} || w in s.waiting)
    case Look(w) => s.deciding.None? && (w in s.active || w in s.woken)
    case Sleep => s.deciding.Some?
    case Spurious(w) => w in s.waiting
  }

  function Next<T>(locked: bool, s: Pool<T>, step: Step<T>): Pool<T>
    requires Enabled(locked, s, step)
  {
    match step
    case Append(x) => s.(queue := s.queue + [x], appended := s.appended + [x], pending := s.pending + 1)
    case Notify(w) =>
      if s.waiting == {} then s.(pending := s.pending - 1)
      else s.(pending := s.pending - 1, waiting := s.waiting - {w}, woken := s.woken + {w})
    case Look(w) =>
      if s.queue == [] then s.(active := s.active - {w}, woken := s.woken - {w}, deciding := Some(w))
      else s.(queue := s.queue[1..], taken := s.taken + [(w, s.queue[0])],
              active := s.active + {w}, woken := s.woken - {w})
    case Sleep => s.(waiting := s.waiting + {s.deciding.value}, deciding := None)
    case Spurious(w) => s.(waiting := s.waiting - {w}, woken := s.woken + {w})
  }

  predicate IsRun<T>(locked: bool, s: Pool<T>, steps: seq<Step<T>>)
    decreases |steps|
  {
    steps == [] || (Enabled(locked, s, steps[0]) && IsRun(locked, Next(locked, s, steps[0]), steps[1..]))
  }

  function Run<T>(locked: bool, s: Pool<T>, steps: seq<Step<T>>): Pool<T>
    requires IsRun(locked, s, steps)
    decreases |steps|
  {
    if steps == [] then s else Run(locked, Next(locked, s, steps[0]), steps[1..])
  }

  ghost predicate Reaches<T(!new)>(locked: bool, n: nat, s: Pool<T>) {
    exists steps :: IsRun(locked, Init(n), steps) && Run(locked, Init(n), steps) == s
  }

  /* ---------- order and conservation ---------- */

  function Tasks<T>(taken: seq<(nat, T)>): seq<T> {
    if taken == [] then [] else Tasks(taken[..|taken| - 1]) + [taken[|taken| - 1].1]
  }

  // Tasks are taken in the order they were appended, each by one worker.
  ghost predicate Fifo<T>(s: Pool<T>) {
    s.appended == Tasks(s.taken) + s.queue
  }

  ghost predicate Partition<T>(n: nat, s: Pool<T>) {
    && s.active !! s.waiting && s.active !! s.woken && s.waiting !! s.woken
    && (s.deciding.Some? ==> s.deciding.value !in s.active + s.waiting + s.woken)
    && |s.active| + |s.waiting| + |s.woken| + (if s.deciding.Some? then 1 else 0) == n
  }

  // A worker sleeps only while every waiting task has a wake-up on its way.
  ghost predicate Covered<T>(s: Pool<T>) {
    s.waiting != {} ==> |s.queue| <= s.pending + |s.woken|
  }

  ghost predicate Attended<T>(s: Pool<T>) {
    s.queue != [] ==> s.pending > 0 || s.woken != {} || s.active != {}
  }

  ghost predicate Inv<T>(locked: bool, n: nat, s: Pool<T>) {
    && Fifo(s)
    && Partition(n, s)
    && (locked && s.deciding.Some? ==> s.queue == [])
    && (locked ==> Covered(s))
    && (locked || n >= 2 ==> n >= 1 ==> Attended(s))
  }

  lemma NextKeepsFifo<T>(locked: bool, s: Pool<T>, step: Step<T>)
    requires Fifo(s) && Enabled(locked, s, step)
    ensures Fifo(Next(locked, s, step))
  {
  }

  lemma Removed(x: set<nat>, w: nat)
    ensures |x - {w}| == if w in x then |x| - 1 else |x|
  {
  }

  lemma Added(x: set<nat>, w: nat)
    ensures |x + {w}| == if w in x then |x| else |x| + 1
  {
    if w in x {
      assert x + {w} == x;
    }
  }

  lemma LookKeepsPartition<T>(locked: bool, n: nat, s: Pool<T>, w: nat)
    requires Partition(n, s) && Enabled(locked, s, Look(w))
    ensures Partition(n, Next(locked, s, Look(w)))
  {
    Removed(s.active, w);
    Removed(s.woken, w);
    Added(s.active, w);
  }

  lemma NextKeepsPartition<T>(locked: bool, n: nat, s: Pool<T>, step: Step<T>)
    requires Partition(n, s) && Enabled(locked, s, step)
    ensures Partition(n, Next(locked, s, step))
  {
    match step
    case Look(w) => LookKeepsPartition(locked, n, s, w);
    case _ =>
  }

  lemma NextKeepsInv<T>(locked: bool, n: nat, s: Pool<T>, step: Step<T>)
    requires Inv(locked, n, s) && Enabled(locked, s, step)
    ensures Inv(locked, n, Next(locked, s, step))
  {
    NextKeepsFifo(locked, s, step);
    NextKeepsPartition(locked, n, s, step);
    if step.Notify? && s.waiting == {} && n >= 2 {
      assert s.active != {} || s.woken != {};
    }
  }

  lemma {:induction false} RunKeepsInv<T>(locked: bool, n: nat, s: Pool<T>, steps: seq<Step<T>>)
    requires Inv(locked, n, s) && IsRun(locked, s, steps)
    ensures Inv(locked, n, Run(locked, s, steps))
    decreases |steps|
  {
    if steps != [] {
      NextKeepsInv(locked, n, s, steps[0]);
      RunKeepsInv(locked, n, Next(locked, s, steps[0]), steps[1..]);
    }
  }

  lemma ReachedInv<T(!new)>(locked: bool, n: nat, s: Pool<T>)
    requires Reaches(locked, n, s)
    ensures Inv(locked, n, s)
  {
    var steps :| IsRun(locked, Init(n), steps) && Run(locked, Init(n), steps) == s;
    RunKeepsInv(locked, n, Init(n), steps);
  }

  lemma TakenInOrder<T(!new)>(locked: bool, n: nat, s: Pool<T>)
    requires Reaches(locked, n, s)
    ensures s.appended == Tasks(s.taken) + s.queue
  {
    ReachedInv(locked, n, s);
  }

  /* ---------- who takes what ---------- */

  // The workers that look at a list with a task in it, in order.
  function LookersIn<T>(locked: bool, s: Pool<T>, steps: seq<Step<T>>): seq<nat>
    requires IsRun(locked, s, steps)
    decreases |steps|
  {
    if steps == [] then []
    else (if steps[0].Look? && s.queue != [] then [steps[0].worker] else [])
         + LookersIn(locked, Next(locked, s, steps[0]), steps[1..])
  }

  function Takers<T>(taken: seq<(nat, T)>): seq<nat> {
    seq(|taken|, i requires 0 <= i < |taken| => taken[i].0)
  }

  // A look takes the front task if there is one, and no other step takes any.
  lemma LookTakes<T>(locked: bool, s: Pool<T>, step: Step<T>)
    requires Enabled(locked, s, step)
    ensures var s' := Next(locked, s, step);
            if step.Look? && s.queue != []
            then s'.taken == s.taken + [(step.worker, s.queue[0])] && s.queue == [s.queue[0]] + s'.queue
            else s'.taken == s.taken
    ensures Takers(Next(locked, s, step).taken) ==
            Takers(s.taken) + if step.Look? && s.queue != [] then [step.worker] else []
  {
  }

  lemma {:induction false} RunTakes<T>(locked: bool, s: Pool<T>, steps: seq<Step<T>>)
    requires IsRun(locked, s, steps)
    ensures Takers(Run(locked, s, steps).taken) == Takers(s.taken) + LookersIn(locked, s, steps)
    decreases |steps|
  {
    if steps != [] {
      var s1 := Next(locked, s, steps[0]);
      LookTakes(locked, s, steps[0]);
      RunTakes(locked, s1, steps[1..]);
      Associate(Takers(s.taken), if steps[0].Look? && s.queue != [] then [steps[0].worker] else [],
                LookersIn(locked, s1, steps[1..]));
    }
  }

  lemma {:induction false} TasksAt<T>(taken: seq<(nat, T)>, k: nat)
    requires k < |taken|
    ensures |Tasks(taken)| == |taken| && Tasks(taken)[k] == taken[k].1
  {
    if k < |taken| - 1 {
      TasksAt(taken[..|taken| - 1], k);
    } else if |taken| > 1 {
      TasksAt(taken[..|taken| - 1], 0);
    }
  }

  // Over any run, each look at a list that is not empty takes one task: the k-th takes the task
  // appended as the k-th, and nobody else takes any.
  lemma EachLookTakesOne<T>(locked: bool, n: nat, steps: seq<Step<T>>)
    requires IsRun(locked, Init(n), steps)
    ensures var s, lookers := Run(locked, Init(n), steps), LookersIn(locked, Init(n), steps);
            && |s.taken| == |lookers| <= |s.appended|
            && forall k | 0 <= k < |lookers| :: s.taken[k] == (lookers[k], s.appended[k])
  {
    var s, lookers := Run(locked, Init(n), steps), LookersIn(locked, Init(n), steps);
    RunTakes(locked, Init(n), steps);
    RunKeepsInv(locked, n, Init(n), steps);
    assert Takers<T>([]) + lookers == lookers;
    if s.taken != [] {
      TasksAt(s.taken, 0);
    }
    forall k | 0 <= k < |lookers| ensures s.taken[k] == (lookers[k], s.appended[k]) {
      TasksAt(s.taken, k);
      assert Takers(s.taken)[k] == lookers[k];
    }
  }

  /* ---------- wake-ups ---------- */

  function Count(b: bool): nat {
    if b then 1 else 0
  }

  // Notifications sent, workers that they or chance woke, and woken workers that looked again.
  function Notified<T>(locked: bool, s: Pool<T>, steps: seq<Step<T>>): nat
    requires IsRun(locked, s, steps)
    decreases |steps|
  {
    if steps == [] then 0
    else Count(steps[0].Notify?) + Notified(locked, Next(locked, s, steps[0]), steps[1..])
  }

  function Woken<T>(locked: bool, s: Pool<T>, steps: seq<Step<T>>): nat
    requires IsRun(locked, s, steps)
    decreases |steps|
  {
    if steps == [] then 0
    else Count((steps[0].Notify? && s.waiting != {}) || steps[0].Spurious?)
         + Woken(locked, Next(locked, s, steps[0]), steps[1..])
  }

  function Resumed<T>(locked: bool, s: Pool<T>, steps: seq<Step<T>>): nat
    requires IsRun(locked, s, steps)
    decreases |steps|
  {
    if steps == [] then 0
    else Count(steps[0].Look? && steps[0].worker in s.woken) + Resumed(locked, Next(locked, s, steps[0]), steps[1..])
  }

  lemma StepWakes<T>(locked: bool, n: nat, s: Pool<T>, step: Step<T>)
    requires Partition(n, s) && Enabled(locked, s, step)
    ensures var s' := Next(locked, s, step);
            && s'.pending + Count(step.Notify?) == s.pending + |s'.appended| - |s.appended|
            && |s'.woken| + Count(step.Look? && step.worker in s.woken) ==
               |s.woken| + Count((step.Notify? && s.waiting != {}) || step.Spurious?)
            && (step.Append? <==> |s'.appended| > |s.appended|)
            && (step.Append? ==> s'.appended == s.appended + [step.task])
  {
    if step.Look? {
      Removed(s.woken, step.worker);
    } else if step.Notify? && s.waiting != {} {
      Added(s.woken, step.waiter);
    } else if step.Spurious? {
      Added(s.woken, step.waiter);
    }
  }

  // Every task is announced once, and every announcement wakes one worker if one sleeps.
  lemma {:induction false} OneWakeUpPerTask<T>(locked: bool, n: nat, s: Pool<T>, steps: seq<Step<T>>)
    requires Inv(locked, n, s) && IsRun(locked, s, steps)
    ensures var s' := Run(locked, s, steps);
            && s'.pending + Notified(locked, s, steps) == s.pending + |s'.appended| - |s.appended|
            && |s'.woken| + Resumed(locked, s, steps) == |s.woken| + Woken(locked, s, steps)
    decreases |steps|
  {
    if steps != [] {
      StepWakes(locked, n, s, steps[0]);
      NextKeepsInv(locked, n, s, steps[0]);
      OneWakeUpPerTask(locked, n, Next(locked, s, steps[0]), steps[1..]);
    }
  }

  // One worker looks, finds nothing, and sleeps through the task appended meanwhile.
  lemma LostWakeUp<T(!new)>(n: nat, task: T) returns (s: Pool<T>)
    requires n >= 1
    ensures Reaches(false, n, s)
    ensures s.queue == [task] && s.waiting == {0} && s.woken == {} && s.pending == 0
    ensures n == 1 ==> s.active == {}
  {
    var steps := [Look(0), Append(task), Notify(0), Sleep];
    var s0 := Init<T>(n);
    var s1 := Next(false, s0, Look(0));
    var s2 := Next(false, s1, Append(task));
    var s3 := Next(false, s2, Notify(0));
    s := Next(false, s3, Sleep);
    assert steps[1..] == [Append(task), Notify(0), Sleep];
    assert steps[1..][1..] == [Notify(0), Sleep];
    assert steps[1..][1..][1..] == [Sleep];
    assert steps[1..][1..][1..][1..] == [];
    assert IsRun(false, s, []) && Run(false, s, []) == s;
    assert IsRun(false, s3, steps[1..][1..][1..]) && Run(false, s3, steps[1..][1..][1..]) == s;
    assert IsRun(false, s2, steps[1..][1..]) && Run(false, s2, steps[1..][1..]) == s;
    assert IsRun(false, s1, steps[1..]) && Run(false, s1, steps[1..]) == s;
    assert IsRun(false, s0, steps) && Run(false, s0, steps) == s;
  }

  // Sleeping workers never outnumber what has been announced, exactly when appending is locked.
  lemma CoveredIff<T(!new)>(locked: bool, n: nat, task: T)
    requires n >= 1
    ensures (forall s: Pool<T> | Reaches(locked, n, s) :: Covered(s)) <==> locked
  {
    if locked {
      forall s: Pool<T> | Reaches(locked, n, s) ensures Covered(s) {
        ReachedInv(locked, n, s);
      }
    } else {
      var s := LostWakeUp(n, task);
    }
  }

  // Work waits, no wake-up is on its way, and nobody is awake to look again.
  ghost predicate Stranded<T>(s: Pool<T>) {
    s.queue != [] && s.pending == 0 && s.woken == {} && s.active == {}
  }

  // No work is ever stranded exactly when appending is locked or a second worker exists.
  lemma NeverStrandedIff<T(!new)>(locked: bool, n: nat, task: T)
    requires n >= 1
    ensures (forall s: Pool<T> | Reaches(locked, n, s) :: !Stranded(s)) <==> locked || n >= 2
  {
    if locked || n >= 2 {
      forall s: Pool<T> | Reaches(locked, n, s) ensures !Stranded(s) {
        ReachedInv(locked, n, s);
      }
    } else {
      var s := LostWakeUp(n, task);
    }
  }
}

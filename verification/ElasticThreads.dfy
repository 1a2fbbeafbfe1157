/** The critical sections of the elastic pool as methods on its counters and its id array. */
module ElasticThreads {
  import opened Readings
  import opened ElasticPool

  class ThreadPool {
    const minNum: nat
    const maxNum: nat
    var liveNum: int
    var exitNum: int
    const threadIDs: array<nat>
    // Ids are handed out in increasing order.
    var nextTid: nat

    ghost predicate Valid()
      reads this
    {
      threadIDs.Length == maxNum && liveNum <= maxNum && nextTid > 0
    }

    constructor (min: nat, max: nat)
      ensures minNum == min && maxNum == max && liveNum == min && exitNum == 0 && nextTid == 1
      ensures fresh(threadIDs) && threadIDs.Length == max && forall i | 0 <= i < max :: threadIDs[i] == 0
    {
      minNum, maxNum, liveNum, exitNum, nextTid := min, max, min, 0, 1;
      threadIDs := new nat[max](_ => 0);
    }

    // The loop that ends construction; `ok` is false when it leaves the array, which it does
    // exactly for a minimum above the maximum.
    method StartThreads() returns (ok: bool)
      requires threadIDs.Length == maxNum && liveNum == minNum && nextTid == 1
      requires forall i | 0 <= i < maxNum :: threadIDs[i] == 0
      modifies `nextTid, threadIDs
      ensures ok <==> minNum <= maxNum
      ensures ok ==> Valid() && threadIDs[..] == Init(minNum, maxNum).slots && nextTid == Init(minNum, maxNum).nextTid
    {
      var i := 0;
      while i < minNum
        invariant 0 <= i <= minNum && i <= maxNum && nextTid == i + 1
        invariant forall k | 0 <= k < maxNum :: threadIDs[k] == if k < i then k + 1 else 0
      {
        if i == maxNum {
          return false;
        }
        threadIDs[i] := nextTid;
        nextTid := nextTid + 1;
        i := i + 1;
      }
      return true;
    }

    // A worker back from the condition wait, with the mutex held.
    method VoteAfterWait() returns (leave: bool)
      modifies `liveNum, `exitNum
      ensures (leave, liveNum, exitNum) == ExitVote(minNum, old(liveNum), old(exitNum))
    {
      leave := false;
      if exitNum > 0 {
        exitNum := exitNum - 1;
        if liveNum > minNum {
          liveNum := liveNum - 1;
          leave := true;
        }
      }
    }

    // The object holds the counters and the id array of `s`.
    ghost predicate Holds(s: Pool)
      reads this, threadIDs
    {
      s.slots == threadIDs[..] && s.minNum == minNum && s.maxNum == maxNum &&
      s.liveNum == liveNum && s.exitNum == exitNum && s.nextTid == nextTid
    }

    // The growth loop of the manager, while no slot is cleared.
    method GrowPass(ghost s: Pool) returns (counter: nat)
      requires Valid() && Holds(s) && s.manager == Growing(0, 0)
      modifies `liveNum, `nextTid, threadIDs
      ensures Valid() && Holds(Growth(s))
      ensures counter == Min(NUMBER, Min(maxNum - old(liveNum), FreeFrom(old(threadIDs[..]), 0)))
      ensures liveNum == old(liveNum) + counter && nextTid == old(nextTid) + counter
      ensures forall i | 0 <= i < maxNum && old(threadIDs[i]) != 0 :: threadIDs[i] == old(threadIDs[i])
    {
      counter := 0;
      ghost var p := s;
      var i := 0;
      while i < maxNum && counter < NUMBER && liveNum < maxNum
        invariant 0 <= i <= maxNum && liveNum == old(liveNum) + counter <= maxNum && nextTid > 0
        invariant Holds(p) && p.manager == Growing(i, counter) && Growth(p) == Growth(s)
        decreases maxNum - i
      {
        p := GrowStep(p, i, counter);
        if threadIDs[i] == 0 {
          threadIDs[i] := nextTid;
          nextTid := nextTid + 1;
          counter := counter + 1;
          liveNum := liveNum + 1;
        }
        i := i + 1;
      }
      GrowthCreates(s);
    }

    // A thread gives back its own slot and touches no other.
    method ThreadExit(tid: nat, ghost r: Reading, ghost s: Pool) returns (i: nat)
      requires Valid() && tid != 0 && Holds(s)
      requires forall i, j | 0 <= i < j < maxNum && threadIDs[i] != 0 :: threadIDs[i] != threadIDs[j]
      modifies threadIDs
      ensures i < maxNum <==> tid in old(threadIDs[..])
      ensures i < maxNum && (Is(s, tid, Leaving) || Is(s, tid, Quitting)) ==>
                Next(r, s, Clear(tid, i)).Running? && Holds(Next(r, s, Clear(tid, i)).pool)
      ensures tid !in threadIDs[..]
      ensures forall i | 0 <= i < maxNum && old(threadIDs[i]) != tid :: threadIDs[i] == old(threadIDs[i])
      ensures FreeFrom(threadIDs[..], 0) == FreeFrom(old(threadIDs[..]), 0) + One(tid in old(threadIDs[..]))
    {
      i := 0;
      while i < maxNum && threadIDs[i] != tid
        invariant 0 <= i <= maxNum
        invariant forall k | 0 <= k < i :: threadIDs[k] != tid
      {
        i := i + 1;
      }
      if i < maxNum {
        ghost var was := threadIDs[..];
        threadIDs[i] := 0;
        assert threadIDs[..] == was[i := 0] && was[i] == tid;
        FreeAfterWrite(was, i, 0, 0);
      }
    }
  }
}

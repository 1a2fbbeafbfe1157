/** The logger as the program has it: four `Buffer` objects passed between containers.
    Each method is one critical section and computes the function of LogSpec. */
module AsyncLoger {
  import opened Readings
  import opened LogSpec

  class Buffer {
    ghost const id: nat
    const bufferSize: nat
    const dataPtr: array<char>
    var end: nat
    // What has been appended since the buffer was last written out.
    ghost var text: string

    ghost predicate Valid()
      reads this, dataPtr
    {
      |text| == end <= dataPtr.Length == bufferSize && text == dataPtr[..end]
    }

    // As meant: the program's constructor sets neither `bufferSize` nor `end`.
    constructor (size: nat, ghost id: nat)
      ensures Valid() && bufferSize == size && this.id == id && text == "" && fresh(dataPtr)
    {
      this.id := id;
      bufferSize := size;
      dataPtr := new char[size];
      end, text := 0, "";
    }

    // The program copies without a test; `ok` is false when that would leave the array.
    method Append(logLine: string) returns (ok: bool)
      requires Valid()
      modifies this, dataPtr
      ensures Valid() && (ok <==> |old(text) + logLine| <= bufferSize)
      ensures text == old(text) + if ok then logLine else ""
    {
      if end + |logLine| > bufferSize {
        return false;
      }
      forall i | 0 <= i < |logLine| {
        dataPtr[end + i] := logLine[i];
      }
      end, text := end + |logLine|, text + logLine;
      return true;
    }

    // A yes leaves room for a further stamp whatever text of that size is appended; a no
    // for a stamped line of at most half a buffer means that half the buffer is used.
    method AppendAvailable(strLen: nat) returns (ok: bool)
      requires Valid()
      ensures ok <==> forall more: string | |more| == strLen :: |text + more| < bufferSize - DATE_STRING_LEGTH
      ensures !ok && bufferSize == LOGBUFFERSIZE && strLen <= HALF + DATE_STRING_LEGTH ==> |text| >= HALF - 30
    {
      ok := end + strLen + DATE_STRING_LEGTH < bufferSize;
      ghost var more := seq(strLen, _ => ' ');
      assert |text + more| == end + strLen;
    }

    // The write to the log file is taken to be complete.
    method WriteToFile(logFile: string) returns (logFile': string)
      requires Valid()
      modifies this
      ensures Valid() && logFile' == logFile + old(text) && text == ""
    {
      logFile' := logFile + dataPtr[..end];
      end, text := 0, "";
    }
  }

  ghost predicate Shows(slot: Slot, b: Buffer?)
    reads b
  {
    if b == null then slot == None else slot == Some(Buf(b.id, b.text))
  }

  ghost predicate ShowAll(slots: seq<Slot>, q: seq<Buffer?>)
    reads q
  {
    |slots| == |q| && forall i | 0 <= i < |q| :: Shows(slots[i], q[i])
  }

  // No buffer twice; null pointers may repeat.
  ghost predicate NoRepeat(q: seq<Buffer?>) {
    forall i, j | 0 <= i < j < |q| && q[i] != null :: q[i] != q[j]
  }

  lemma NoRepeatSnoc(q: seq<Buffer?>, b: Buffer?)
    requires NoRepeat(q) && (b == null || b !in q)
    ensures NoRepeat(q + [b])
  {
  }

  // No two places hold the same buffer.
  ghost predicate NoAlias(cur: Buffer?, empties: seq<Buffer>, toWrite: seq<Buffer?>, inFlight: seq<Buffer?>) {
    && NoRepeat(empties) && NoRepeat(toWrite) && NoRepeat(inFlight)
    && (cur != null ==> cur !in empties && cur !in toWrite && cur !in inFlight)
    && (forall b | b in empties :: b !in toWrite && b !in inFlight)
    && (forall b | b in toWrite && b != null :: b !in inFlight)
  }

  lemma LastApart(bs: seq<Buffer>)
    requires |bs| == 4 && NoRepeat(bs)
    ensures NoAlias(bs[3], bs[..3], [], []) && forall b | b in bs[..3] :: b in bs
  {
  }

  lemma ShowSnoc(slots: seq<Slot>, q: seq<Buffer?>, slot: Slot, b: Buffer?)
    requires ShowAll(slots, q) && Shows(slot, b)
    ensures ShowAll(slots + [slot], q + [b])
  {
  }

  // The newest waiting buffer goes to the back end.
  lemma MoveKeepsApart(cur: Buffer?, empties: seq<Buffer>, toWrite: seq<Buffer?>, inFlight: seq<Buffer?>)
    requires NoAlias(cur, empties, toWrite, inFlight) && toWrite != []
    ensures var n := |toWrite| - 1;
            && NoAlias(cur, empties, toWrite[n := null], inFlight + [toWrite[n]])
            && forall b | b in toWrite[n := null] && b != null :: b in toWrite
  {
    NoRepeatSnoc(inFlight, toWrite[|toWrite| - 1]);
  }

  lemma NewestApart(cur: Buffer?, empties: seq<Buffer>, toWrite: seq<Buffer?>, inFlight: seq<Buffer?>)
    requires NoAlias(cur, empties, toWrite, inFlight) && inFlight != [] && inFlight[|inFlight| - 1] != null
    ensures var b := inFlight[|inFlight| - 1];
            && b !in empties && b !in toWrite && b != cur
            && forall i | 0 <= i < |inFlight| - 1 :: inFlight[i] != b
  {
    assert inFlight[|inFlight| - 1] in inFlight;
  }

  class Loger {
    const reading: Reading
    var curBuffer: Buffer?
    var emptyBuffers: seq<Buffer>
    var toWriteBuffers: seq<Buffer?>
    var writeQueue: seq<Buffer?>
    var logFile: string
    ghost const buffers: seq<Buffer>
    ghost const repr: set<object>
    // The value that the object stands for.
    ghost var state: Log

    // The four buffers are separate objects with separate arrays.
    ghost predicate Separate()
      reads repr
    {
      && this !in repr
      && (forall b | b in buffers :: b in repr && b.dataPtr in repr && b.Valid() && b.bufferSize == LOGBUFFERSIZE)
      && (forall b, c | b in buffers && c in buffers && b != c :: b.dataPtr != c.dataPtr)
    }

    // The current buffer has room for a stamp, and empty buffers are empty.
    ghost predicate Valid()
      reads this, repr
    {
      && Separate() && NoAlias(curBuffer, emptyBuffers, toWriteBuffers, writeQueue)
      && (curBuffer != null ==> curBuffer in buffers && curBuffer.end < LOGBUFFERSIZE - DATE_STRING_LEGTH)
      && (forall b | b in emptyBuffers :: b in buffers && b.end == 0)
      && (forall b | b in toWriteBuffers && b != null :: b in buffers)
      && (forall b | b in writeQueue && b != null :: b in buffers)
      && Shown(state)
    }

    ghost predicate Shown(s: Log)
      reads this, curBuffer, emptyBuffers, toWriteBuffers, writeQueue
    {
      && Shows(s.cur, curBuffer)
      && |s.empties| == |emptyBuffers|
      && (forall i | 0 <= i < |emptyBuffers| :: Shows(Some(s.empties[i]), emptyBuffers[i]))
      && ShowAll(s.toWrite, toWriteBuffers) && ShowAll(s.inFlight, writeQueue)
      && s.file == logFile
    }

    static method FourBuffers() returns (bs: seq<Buffer>, ghost repr: set<object>)
      ensures |bs| == 4 && NoRepeat(bs)
      ensures forall i | 0 <= i < 4 :: Shows(Some(Buf(i, "")), bs[i])
      ensures fresh(repr)
      ensures forall b | b in bs ::
                b in repr && b.dataPtr in repr && b.Valid() && b.bufferSize == LOGBUFFERSIZE && b.end == 0
      ensures forall b, c | b in bs && c in bs && b != c :: b.dataPtr != c.dataPtr
    {
      bs, repr := [], {};
      while |bs| < 4
        invariant |bs| <= 4 && NoRepeat(bs) && fresh(repr)
        invariant forall i | 0 <= i < |bs| :: Shows(Some(Buf(i, "")), bs[i])
        invariant forall b | b in bs ::
                    b in repr && b.dataPtr in repr && b.Valid() && b.bufferSize == LOGBUFFERSIZE && b.end == 0
        invariant forall b, c | b in bs && c in bs && b != c :: b.dataPtr != c.dataPtr
      {
        var b := new Buffer(LOGBUFFERSIZE, |bs|);
        NoRepeatSnoc(bs, b);
        bs, repr := bs + [b], repr + {b, b.dataPtr};
      }
    }

    constructor (reading: Reading)
      ensures Valid() && state == Init() && this.reading == reading && fresh(repr)
    {
      this.reading := reading;
      var bs, fresh' := FourBuffers();
      emptyBuffers := bs[..3];
      curBuffer := bs[3];
      toWriteBuffers, writeQueue, logFile := [], [], "";
      buffers, state := bs, Init();
      repr := fresh';
      new;
      LastApart(bs);
      assert Separate();
    }

    // The last empty buffer becomes the current one; with none left the pointer stays null.
    method RefillCurrent()
      requires Valid() && curBuffer == null
      modifies this
      ensures Valid() && state == TakeEmpty(old(state))
      ensures curBuffer != null ==> curBuffer.end == 0
    {
      if emptyBuffers != [] {
        var n := |emptyBuffers| - 1;
        curBuffer := emptyBuffers[n];
        emptyBuffers := emptyBuffers[..n];
      }
      state := TakeEmpty(state);
    }

    // The full buffer joins those waiting to be written.
    method Rotate()
      requires Valid() && curBuffer != null
      modifies this
      ensures Valid() && state == LogSpec.Rotate(old(state))
      ensures curBuffer != null ==> curBuffer.end == 0
    {
      NoRepeatSnoc(toWriteBuffers, curBuffer);
      toWriteBuffers := toWriteBuffers + [curBuffer];
      curBuffer := null;
      state := state.(cur := None, toWrite := state.toWrite + [state.cur]);
      RefillCurrent();
    }

    // Front end: one call of `logInfo`, under the mutex.  No append is checked by the program,
    // and none leaves its array.  A line that is too long is marked in the caller's string.
    method LogInfo(stamp: string, logline: string) returns (logline': string)
      requires Valid() && |stamp| == DATE_STRING_LEGTH
      modifies this, repr
      ensures Valid() && state == LogLine(old(state), stamp, logline)
      ensures logline' == if old(curBuffer) == null then logline else Marked(logline)
    {
      if curBuffer == null {
        return logline;
      }
      logline' := Marked(logline);
      var line := Payload(logline);
      var fits := curBuffer.AppendAvailable(|line| + DATE_STRING_LEGTH);
      assert |curBuffer.text + (stamp + line)| == |curBuffer.text| + |stamp + line|;
      if !fits {
        Rotate();
      }
      if curBuffer != null {
        Stamp(stamp, line);
      }
    }

    // The two appends of a stamped line.
    method Stamp(stamp: string, line: string)
      requires Valid() && curBuffer != null && |stamp| == DATE_STRING_LEGTH
      requires curBuffer.end + |line| + DATE_STRING_LEGTH < LOGBUFFERSIZE - DATE_STRING_LEGTH
      modifies this`state, curBuffer, curBuffer.dataPtr
      ensures Valid() && state == Put(old(state), stamp + line)
    {
      var ok := curBuffer.Append(stamp);
      assert ok;
      ok := curBuffer.Append(line);
      assert ok;
      assert curBuffer.text == old(curBuffer.text) + (stamp + line);
      state := Put(state, stamp + line);
    }

    // The current buffer, if any, goes to the back end and is replaced.
    method SwapCurrent()
      requires Valid()
      modifies this
      ensures Valid() && state == LogSpec.SwapCurrent(old(state))
    {
      if curBuffer != null {
        NoRepeatSnoc(writeQueue, curBuffer);
        writeQueue := writeQueue + [curBuffer];
        curBuffer := null;
        state := state.(cur := None, inFlight := state.inFlight + [state.cur]);
        RefillCurrent();
      }
    }

    // Back end, first half of the loop body: under the mutex, after the timed wait.
    method Collect()
      requires Valid()
      modifies this
      ensures Valid() && state == CollectAll(reading, old(state))
    {
      SwapCurrent();
      ghost var s := state;
      while toWriteBuffers != []
        invariant Valid() && state == s.(toWrite := state.toWrite, inFlight := state.inFlight)
        invariant Drain(reading, state.toWrite, state.inFlight) == Drain(reading, s.toWrite, s.inFlight)
        decreases |toWriteBuffers|
      {
        MoveNewest();
        PopWaiting();
      }
    }

    // The two statements of the draining loop: the newest buffer is moved out, ...
    method MoveNewest()
      requires Valid() && toWriteBuffers != []
      modifies this`toWriteBuffers, this`writeQueue, this`state
      ensures Valid() && |toWriteBuffers| == old(|toWriteBuffers|)
      ensures var s, n := old(state), |toWriteBuffers| - 1;
              state == s.(inFlight := s.inFlight + [s.toWrite[n]], toWrite := s.toWrite[n := None])
    {
      var n := |toWriteBuffers| - 1;
      MoveKeepsApart(curBuffer, emptyBuffers, toWriteBuffers, writeQueue);
      ShowSnoc(state.inFlight, writeQueue, state.toWrite[n], toWriteBuffers[n]);
      writeQueue := writeQueue + [toWriteBuffers[n]];
      toWriteBuffers := toWriteBuffers[n := null];
      state := state.(inFlight := state.inFlight + [state.toWrite[n]], toWrite := state.toWrite[n := None]);
    }

    // ... and an end of the queue is popped.
    method PopWaiting()
      requires Valid() && toWriteBuffers != []
      modifies this`toWriteBuffers, this`state
      ensures Valid() && |toWriteBuffers| == old(|toWriteBuffers|) - 1
      ensures state == old(state).(toWrite := Popped(reading, old(state).toWrite))
    {
      toWriteBuffers := Popped(reading, toWriteBuffers);
      state := state.(toWrite := Popped(reading, state.toWrite));
    }

    // The back end writes its last buffer, without the mutex ...
    method WriteNewest(b: Buffer)
      requires Valid() && writeQueue != [] && b == writeQueue[|writeQueue| - 1]
      modifies this`logFile, this`state, b
      ensures Valid() && b.end == 0 && state == Written(old(state))
    {
      Flush(b);
      state := Written(state);
    }

    method Flush(b: Buffer)
      requires Valid() && writeQueue != [] && b == writeQueue[|writeQueue| - 1]
      modifies this`logFile, b
      ensures Separate() && b.end == 0 && Shown(Written(state))
    {
      var n := |writeQueue| - 1;
      NewestApart(curBuffer, emptyBuffers, toWriteBuffers, writeQueue);
      assert b in buffers && state.inFlight[n] == Some(Buf(b.id, b.text));
      logFile := b.WriteToFile(logFile);
    }

    // ... and then, with the mutex held, hands it back.
    method Recycle()
      requires Valid() && writeQueue != [] && writeQueue[|writeQueue| - 1] != null
      requires writeQueue[|writeQueue| - 1].end == 0
      modifies this`emptyBuffers, this`writeQueue, this`state
      ensures Valid()
      ensures var s, n := old(state), old(|writeQueue|) - 1;
              state == s.(empties := s.empties + [s.inFlight[n].value], inFlight := s.inFlight[..n])
    {
      var n := |writeQueue| - 1;
      NewestApart(curBuffer, emptyBuffers, toWriteBuffers, writeQueue);
      NoRepeatSnoc(emptyBuffers, writeQueue[n]);
      emptyBuffers := emptyBuffers + [writeQueue[n]];
      writeQueue := writeQueue[..n];
      state := state.(empties := state.empties + [state.inFlight[n].value], inFlight := state.inFlight[..n]);
    }

    // Back end, one round of the writing loop; `ok` is false when a null pointer is followed.
    method WriteOne() returns (ok: bool)
      requires Valid() && writeQueue != []
      modifies this, repr
      ensures Valid() && WriteBack(old(state)) == if ok then Running(state) else Crashed
    {
      if writeQueue[|writeQueue| - 1] == null {
        return false;
      }
      WriteNewest(writeQueue[|writeQueue| - 1]);
      Recycle();
      return true;
    }
  }
}

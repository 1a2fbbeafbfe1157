/** The asynchronous logger on values: what each critical section of the front end and of
    the back-end thread does to the four recycled buffers, and what every run keeps. */
module LogSpec {
  import opened Readings

  const LOGBUFFERSIZE := 1048576
  const DATE_STRING_LEGTH := 15
  const HALF := LOGBUFFERSIZE / 2

  // One of the four buffers and what it holds.
  datatype Buf = Buf(id: nat, text: string)

  // A `unique_ptr` to a buffer; `None` is a null pointer.
  type Slot = Option<Buf>

  /** `inFlight` is the back end's `writeQueue`; `file` is what has been written;
      `accepted` records, for the statement only, the stamped lines put into a buffer. */
  datatype Log = Log(
    cur: Slot, empties: seq<Buf>, toWrite: seq<Slot>, inFlight: seq<Slot>, file: string, accepted: string)

  datatype Step = LogInfo(stamp: string, line: string) | Collect | WriteOne

  datatype Result = Running(log: Log) | Crashed | Blocked

  function Init(): Log {
    Log(Some(Buf(3, "")), [Buf(0, ""), Buf(1, ""), Buf(2, "")], [], [], "", "")
  }

  // What a call leaves in the caller's string.
  function Marked(line: string): (m: string)
    ensures |m| == |line|
  {
    if |line| > HALF then line[..HALF - 17] + "Log Info Too Long" + line[HALF..] else line
  }

  // What it logs of that string.
  function Payload(line: string): (p: string)
    ensures |p| <= HALF && (|line| <= HALF ==> p == line)
    ensures p <= Marked(line)
  {
    if |line| > HALF then Marked(line)[..HALF] else line
  }

  predicate AppendAvailable(end: nat, strLen: nat) {
    end + strLen + DATE_STRING_LEGTH < LOGBUFFERSIZE
  }

  function Append(b: Slot, text: string): Slot
    requires b.Some?
  {
    Some(b.value.(text := b.value.text + text))
  }

  // The last empty buffer becomes the current one, or the null pointer does.
  function TakeEmpty(s: Log): Log {
    if s.empties == [] then s.(cur := None)
    else
      var n := |s.empties| - 1;
      s.(cur := Some(s.empties[n]), empties := s.empties[..n])
  }

  function Rotate(s: Log): Log {
    TakeEmpty(s.(toWrite := s.toWrite + [s.cur]))
  }

  function Put(s: Log, entry: string): Log {
    if s.cur.None? then s
    else s.(cur := Append(s.cur, entry), accepted := s.accepted + entry)
  }

  function LogLine(s: Log, stamp: string, line: string): Log {
    if s.cur.None? then s
    else
      var fits := AppendAvailable(|s.cur.value.text|, |Payload(line)| + DATE_STRING_LEGTH);
      Put(if fits then s else Rotate(s), stamp + Payload(line))
  }

  function Popped<T>(r: Reading, q: seq<T>): seq<T>
    requires q != []
  {
    match r case AsMeant => q[..|q| - 1] case AsWritten => q[1..]
  }

  /** The loop that empties `toWriteBuffers`.  As written it moves the newest buffer out,
      leaving a null pointer, and then pops the oldest; it is meant to pop the newest. */
  function Drain(r: Reading, q: seq<Slot>, out: seq<Slot>): seq<Slot>
    decreases |q|
  {
    if q == [] then out
    else
      var n := |q| - 1;
      Drain(r, Popped(r, q[n := None]), out + [q[n]])
  }

  function SwapCurrent(s: Log): Log {
    if s.cur.None? then s else TakeEmpty(s.(inFlight := s.inFlight + [s.cur]))
  }

  function CollectAll(r: Reading, s: Log): Log {
    var s' := SwapCurrent(s);
    s'.(inFlight := Drain(r, s'.toWrite, s'.inFlight), toWrite := [])
  }

  function WriteBack(s: Log): Result
    requires s.inFlight != []
  {
    var n := |s.inFlight| - 1;
    match s.inFlight[n]
    case None => Crashed
    case Some(b) =>
      Running(s.(file := s.file + b.text, inFlight := s.inFlight[..n],
                 empties := s.empties + [b.(text := "")]))
  }

  // The first half of it: the buffer is written and emptied, but not yet handed back.
  function Written(s: Log): Log
    requires s.inFlight != [] && s.inFlight[|s.inFlight| - 1].Some?
  {
    var n := |s.inFlight| - 1;
    var b := s.inFlight[n].value;
    s.(file := s.file + b.text, inFlight := s.inFlight[n := Some(b.(text := ""))])
  }

  function Next(r: Reading, s: Log, step: Step): Result {
    match step
    case LogInfo(stamp, line) =>
      if |stamp| == DATE_STRING_LEGTH then Running(LogLine(s, stamp, line)) else Blocked
    case Collect => if s.inFlight == [] then Running(CollectAll(r, s)) else Blocked
    case WriteOne => if s.inFlight == [] then Blocked else WriteBack(s)
  }

  /* ---------- the log that the buffers stand for ---------- */

  function Text(b: Slot): string {
    if b.Some? then b.value.text else ""
  }

  function Forward(q: seq<Slot>): string {
    if q == [] then "" else Forward(q[..|q| - 1]) + Text(q[|q| - 1])
  }

  // The back end writes the last buffer of its queue first.
  function Backward(q: seq<Slot>): string {
    if q == [] then "" else Text(q[|q| - 1]) + Backward(q[..|q| - 1])
  }

  function Content(s: Log): string {
    s.file + Backward(s.inFlight) + Forward(s.toWrite) + Text(s.cur)
  }

  ghost predicate Sized(s: Log) {
    && (s.cur.Some? ==> |Text(s.cur)| < LOGBUFFERSIZE - DATE_STRING_LEGTH)
    && (forall b | b in s.toWrite ::
          b.Some? && HALF - 30 <= |Text(b)| < LOGBUFFERSIZE - DATE_STRING_LEGTH)
    && (forall b | b in s.inFlight :: b.Some? && |Text(b)| < LOGBUFFERSIZE - DATE_STRING_LEGTH)
    && (forall b | b in s.empties :: b.text == "")
  }

  function IdOf(b: Slot): multiset<nat> {
    if b.Some? then multiset{b.value.id} else multiset{}
  }

  function Ids(q: seq<Slot>): multiset<nat> {
    if q == [] then multiset{} else Ids(q[..|q| - 1]) + IdOf(q[|q| - 1])
  }

  function EmptyIds(q: seq<Buf>): multiset<nat> {
    if q == [] then multiset{} else EmptyIds(q[..|q| - 1]) + multiset{q[|q| - 1].id}
  }

  function AllIds(s: Log): multiset<nat> {
    IdOf(s.cur) + EmptyIds(s.empties) + Ids(s.toWrite) + Ids(s.inFlight)
  }

  // Each of the four buffers is in exactly one place.
  ghost predicate Conserved(s: Log) {
    AllIds(s) == multiset{0, 1, 2, 3}
  }

  ghost predicate Inv(s: Log) {
    Content(s) == s.accepted && Sized(s) && Conserved(s)
  }

  lemma BackwardSnoc(q: seq<Slot>, b: Slot)
    ensures Backward(q + [b]) == Text(b) + Backward(q)
  {
  }

  // Writing the drained queue from its back gives the waiting buffers in order.
  lemma {:induction false} DrainMeantTexts(q: seq<Slot>, out: seq<Slot>)
    ensures Backward(Drain(AsMeant, q, out)) == Forward(q) + Backward(out)
    decreases |q|
  {
    if q != [] {
      var n := |q| - 1;
      BackwardSnoc(out, q[n]);
      DrainMeantTexts(q[..n], out + [q[n]]);
      Associate(Forward(q[..n]), Text(q[n]), Backward(out));
    } else {
      assert Forward(q) + Backward(out) == Backward(out);
    }
  }

  lemma {:induction false} DrainMeantPlaces(q: seq<Slot>, out: seq<Slot>)
    ensures Ids(Drain(AsMeant, q, out)) == Ids(q) + Ids(out)
    ensures forall b | b in Drain(AsMeant, q, out) :: b in q || b in out
    decreases |q|
  {
    if q != [] {
      var n := |q| - 1;
      var out' := out + [q[n]];
      assert out'[..|out|] == out && q[n := None][..n] == q[..n];
      DrainMeantPlaces(q[..n], out');
      assert Drain(AsMeant, q, out) == Drain(AsMeant, q[..n], out');
      assert forall b | b in q[..n] || b in out' :: b in q || b in out;
    }
  }

  lemma {:induction false} DrainNulls(q: seq<Slot>, out: seq<Slot>)
    requires q != [] ==> q[|q| - 1] == None
    ensures Backward(Drain(AsWritten, q, out)) == Backward(out)
    ensures q != [] ==> None in Drain(AsWritten, q, out)
    ensures forall b | b in out :: b in Drain(AsWritten, q, out)
    decreases |q|
  {
    if q != [] {
      var n := |q| - 1;
      DrainNulls(q[n := None][1..], out + [q[n]]);
      assert (out + [q[n]])[..|out|] == out;
      assert forall b | b in out :: b in out + [q[n]];
    }
  }

  // As written, only the newest waiting buffer survives the drain.
  lemma DrainWritten(q: seq<Slot>, out: seq<Slot>)
    requires q != []
    ensures Backward(Drain(AsWritten, q, out)) == Text(q[|q| - 1]) + Backward(out)
    ensures |q| >= 2 ==> None in Drain(AsWritten, q, out)
  {
    var n := |q| - 1;
    DrainNulls(q[n := None][1..], out + [q[n]]);
    assert (out + [q[n]])[..|out|] == out;
  }

  lemma OneWaitingDrainsAlike(q: seq<Slot>, out: seq<Slot>)
    requires |q| <= 1
    ensures Drain(AsWritten, q, out) == Drain(AsMeant, q, out)
  {
  }

  lemma {:induction false} ForwardGrows(q: seq<Slot>)
    requires forall b | b in q :: |Text(b)| > 0
    ensures q != [] ==> |Forward(q)| > 0
  {
  }

  lemma TakeEmptyEffect(s: Log)
    requires Sized(s)
    ensures var s' := TakeEmpty(s);
            Sized(s') && Text(s'.cur) == "" && AllIds(s') == AllIds(s.(cur := None))
  {
    if s.empties != [] {
      assert s.empties[|s.empties| - 1] in s.empties;
    }
  }

  lemma RotateContent(s: Log)
    requires Sized(s)
    ensures Content(Rotate(s)) == Content(s)
  {
    var s' := Rotate(s);
    assert Text(s'.cur) == "" by {
      if s.empties != [] {
        assert s.empties[|s.empties| - 1] in s.empties;
      }
    }
    ForwardSnoc(s.toWrite, s.cur);
    MoveText(s.file + Backward(s.inFlight), Forward(s.toWrite), Text(s.cur));
  }

  lemma ForwardSnoc(q: seq<Slot>, b: Slot)
    ensures Forward(q + [b]) == Forward(q) + Text(b)
  {
  }

  lemma MoveText(a: string, b: string, c: string)
    ensures a + (b + c) + "" == a + b + c
  {
  }

  lemma PutContent(s: Log, entry: string)
    ensures Content(s) == s.accepted ==> Content(Put(s, entry)) == Put(s, entry).accepted
  {
  }

  lemma RotateKeepsPlaces(s: Log)
    requires Sized(s) && s.cur.Some? && |Text(s.cur)| >= HALF - 30
    ensures Sized(Rotate(s)) && AllIds(Rotate(s)) == AllIds(s) && Text(Rotate(s).cur) == ""
  {
    var s1 := s.(toWrite := s.toWrite + [s.cur]);
    assert s1.toWrite[..|s.toWrite|] == s.toWrite;
    assert forall b | b in s1.toWrite :: b in s.toWrite || b == s.cur;
    TakeEmptyEffect(s1);
  }

  lemma PutKeepsPlaces(s: Log, entry: string)
    requires Sized(s) && |Text(s.cur)| + |entry| < LOGBUFFERSIZE - DATE_STRING_LEGTH
    ensures Sized(Put(s, entry)) && AllIds(Put(s, entry)) == AllIds(s)
  {
  }

  lemma LogLineKeepsInv(s: Log, stamp: string, line: string)
    requires Inv(s) && |stamp| == DATE_STRING_LEGTH
    ensures Inv(LogLine(s, stamp, line))
  {
    if s.cur.Some? {
      var entry := stamp + Payload(line);
      if AppendAvailable(|Text(s.cur)|, |Payload(line)| + DATE_STRING_LEGTH) {
        PutContent(s, entry);
        PutKeepsPlaces(s, entry);
      } else {
        RotateContent(s);
        RotateKeepsPlaces(s);
        PutContent(Rotate(s), entry);
        PutKeepsPlaces(Rotate(s), entry);
      }
    }
  }

  lemma SwapTexts(s: Log)
    requires Sized(s) && s.inFlight == []
    ensures var s1 := SwapCurrent(s);
            Backward(s1.inFlight) == Text(s.cur) && Text(s1.cur) == "" && s1.file == s.file && s1.toWrite == s.toWrite
  {
  }

  lemma SwapPlaces(s: Log)
    requires Sized(s) && s.inFlight == []
    ensures Sized(SwapCurrent(s)) && AllIds(SwapCurrent(s)) == AllIds(s)
  {
    if s.cur.Some? {
      var s0 := s.(inFlight := [] + [s.cur]);
      assert s0.inFlight == [s.cur] && s0.inFlight[..0] == [];
      TakeEmptyEffect(s0);
    }
  }

  lemma DrainedContent(s: Log)
    requires Text(s.cur) == ""
    ensures Content(s.(inFlight := Drain(AsMeant, s.toWrite, s.inFlight), toWrite := [])) ==
            s.file + (Forward(s.toWrite) + Backward(s.inFlight))
  {
    DrainMeantTexts(s.toWrite, s.inFlight);
    var text := s.file + (Forward(s.toWrite) + Backward(s.inFlight));
    assert text + "" + "" == text;
  }

  lemma CollectMeantContent(s: Log)
    requires Sized(s) && s.inFlight == []
    ensures Content(CollectAll(AsMeant, s)) == Content(s)
  {
    var f, c := Forward(s.toWrite), Text(s.cur);
    assert Content(CollectAll(AsMeant, s)) == s.file + (f + c) by {
      SwapTexts(s);
      DrainedContent(SwapCurrent(s));
    }
    assert Content(s) == s.file + "" + f + c && s.file + "" == s.file;
    Associate(s.file, f, c);
  }

  lemma DrainedPlaces(s: Log)
    requires Sized(s)
    ensures var s' := s.(inFlight := Drain(AsMeant, s.toWrite, s.inFlight), toWrite := []);
            Sized(s') && AllIds(s') == AllIds(s)
  {
    DrainMeantPlaces(s.toWrite, s.inFlight);
  }

  lemma CollectMeantKeepsPlaces(s: Log)
    requires Sized(s) && s.inFlight == []
    ensures Sized(CollectAll(AsMeant, s)) && AllIds(CollectAll(AsMeant, s)) == AllIds(s)
  {
    SwapPlaces(s);
    DrainedPlaces(SwapCurrent(s));
  }

  lemma CollectMeantKeepsInv(s: Log)
    requires Inv(s) && s.inFlight == []
    ensures Inv(CollectAll(AsMeant, s))
  {
    CollectMeantContent(s);
    CollectMeantKeepsPlaces(s);
    assert CollectAll(AsMeant, s).accepted == s.accepted;
  }

  lemma NewestIsNotAll(q: seq<Slot>)
    requires |q| >= 2 && forall b | b in q :: |Text(b)| > 0
    ensures |Text(q[|q| - 1])| < |Forward(q)|
  {
    var front := q[..|q| - 1];
    assert forall b | b in front :: b in q;
    ForwardGrows(front);
  }

  lemma CollectLoses(s: Log)
    requires Sized(s) && s.inFlight == [] && |s.toWrite| >= 2
    ensures |Content(CollectAll(AsWritten, s))| < |Content(s)|
    ensures None in CollectAll(AsWritten, s).inFlight
  {
    NewestIsNotAll(s.toWrite);
    SwapTexts(s);
    DrainWritten(s.toWrite, SwapCurrent(s).inFlight);
  }

  function Reversed(q: seq<Slot>): seq<Slot> {
    if q == [] then [] else [q[|q| - 1]] + Reversed(q[..|q| - 1])
  }

  function Nulls(n: nat): seq<Slot> {
    if n == 0 then [] else [None] + Nulls(n - 1)
  }

  lemma {:induction false} DrainMeantIs(q: seq<Slot>, out: seq<Slot>)
    ensures Drain(AsMeant, q, out) == out + Reversed(q)
    decreases |q|
  {
    if q != [] {
      var n := |q| - 1;
      assert q[n := None][..n] == q[..n];
      DrainMeantIs(q[..n], out + [q[n]]);
      Associate(out, [q[n]], Reversed(q[..n]));
    }
  }

  lemma {:induction false} DrainNullsIs(q: seq<Slot>, out: seq<Slot>)
    requires q != [] ==> q[|q| - 1] == None
    ensures Drain(AsWritten, q, out) == out + Nulls(|q|)
    decreases |q|
  {
    if q != [] {
      DrainNullsIs(q[|q| - 1 := None][1..], out + [None]);
      Associate(out, [None], Nulls(|q| - 1));
    }
  }

  lemma DrainWrittenIs(q: seq<Slot>, out: seq<Slot>)
    requires q != []
    ensures Drain(AsWritten, q, out) == out + ([q[|q| - 1]] + Nulls(|q| - 1))
  {
    var n := |q| - 1;
    DrainNullsIs(q[n := None][1..], out + [q[n]]);
    Associate(out, [q[n]], Nulls(n));
  }

  // What the back end has in hand after collecting: the current buffer, even an empty one, then
  // the full ones, newest first; as written only the newest of these, and null pointers.
  lemma CollectedIs(r: Reading, s: Log)
    requires s.inFlight == []
    ensures var s', n := CollectAll(r, s), |s.toWrite|;
            && s'.toWrite == [] && s'.file == s.file && s'.accepted == s.accepted
            && s'.inFlight == (if s.cur.Some? then [s.cur] else []) +
                              (if n == 0 then [] else if r == AsMeant then Reversed(s.toWrite)
                               else [s.toWrite[n - 1]] + Nulls(n - 1))
    ensures var s' := CollectAll(r, s);
            if s.cur.None? || s.empties == [] then s'.cur == None && s'.empties == s.empties
            else s'.cur.Some? && s.empties == s'.empties + [s'.cur.value]
  {
    var s1 := SwapCurrent(s);
    assert s1.inFlight == if s.cur.Some? then [s.cur] else [];
    if r == AsMeant {
      DrainMeantIs(s.toWrite, s1.inFlight);
    } else if s.toWrite != [] {
      DrainWrittenIs(s.toWrite, s1.inFlight);
    }
  }

  // Writing back takes the last buffer in hand, and puts it, emptied, at the end of the empty ones.
  lemma WriteBackIs(s: Log, rest: seq<Slot>, b: Buf)
    requires s.inFlight == rest + [Some(b)]
    ensures WriteBack(s) ==
            Running(s.(file := s.file + b.text, inFlight := rest, empties := s.empties + [Buf(b.id, "")]))
  {
    assert s.inFlight[..|s.inFlight| - 1] == rest;
  }

  // With a log intact so far, collecting as written keeps it exactly when at most one
  // full buffer waits; otherwise the oldest ones are lost, and a null pointer is queued.
  lemma CollectKeepsLogIff(s: Log)
    requires Inv(s) && s.inFlight == []
    ensures Content(CollectAll(AsWritten, s)) == s.accepted <==> |s.toWrite| <= 1
    ensures |s.toWrite| <= 1 ==> CollectAll(AsWritten, s) == CollectAll(AsMeant, s)
    ensures |s.toWrite| >= 2 ==> None in CollectAll(AsWritten, s).inFlight
  {
    if |s.toWrite| <= 1 {
      OneWaitingDrainsAlike(s.toWrite, SwapCurrent(s).inFlight);
      CollectMeantContent(s);
    } else {
      CollectLoses(s);
    }
  }

  lemma WriteBackKeepsInv(s: Log)
    requires Inv(s) && s.inFlight != []
    ensures WriteBack(s).Running? && Inv(WriteBack(s).log)
  {
    assert s.inFlight[|s.inFlight| - 1] in s.inFlight;
    WriteBackContent(s);
    WriteBackPlaces(s);
  }

  lemma WriteBackContent(s: Log)
    requires s.inFlight != [] && WriteBack(s).Running?
    ensures Content(WriteBack(s).log) == Content(s)
  {
  }

  lemma WriteBackPlaces(s: Log)
    requires Sized(s) && s.inFlight != [] && WriteBack(s).Running?
    ensures Sized(WriteBack(s).log) && AllIds(WriteBack(s).log) == AllIds(s)
  {
    var n := |s.inFlight| - 1;
    var b := s.inFlight[n].value.(text := "");
    assert (s.empties + [b])[..|s.empties|] == s.empties;
    assert forall c | c in s.inFlight[..n] :: c in s.inFlight;
  }

  /* ---------- every run ---------- */

  function Run(r: Reading, s: Log, steps: seq<Step>): Result
    decreases |steps|
  {
    if steps == [] then Running(s)
    else
      match Next(r, s, steps[0])
      case Running(s') => Run(r, s', steps[1..])
      case other => other
  }

  // Every state of the run still stands for exactly the accepted lines, and nothing crashes.
  ghost predicate Lossless(r: Reading, s: Log, steps: seq<Step>)
    decreases |steps|
  {
    && Content(s) == s.accepted
    && (steps == [] ||
        match Next(r, s, steps[0])
        case Running(s') => Lossless(r, s', steps[1..])
        case Crashed => false
        case Blocked => true)
  }

  // Whenever the back end collects, at most one full buffer waits.
  ghost predicate AtMostOneWaits(r: Reading, s: Log, steps: seq<Step>)
    decreases |steps|
  {
    steps == [] ||
    (&& (steps[0].Collect? && s.inFlight == [] ==> |s.toWrite| <= 1)
     && (Next(r, s, steps[0]).Running? ==> AtMostOneWaits(r, Next(r, s, steps[0]).log, steps[1..])))
  }

  lemma NextMeant(s: Log, step: Step)
    requires Inv(s)
    ensures var result := Next(AsMeant, s, step);
            result != Crashed && (result.Running? ==> Inv(result.log))
  {
    match step
    case LogInfo(stamp, line) => if |stamp| == DATE_STRING_LEGTH { LogLineKeepsInv(s, stamp, line); }
    case Collect => if s.inFlight == [] { CollectMeantKeepsInv(s); }
    case WriteOne => if s.inFlight != [] { WriteBackKeepsInv(s); }
  }

  // The logger refines an append-only log in every run, when the drain is as meant.
  lemma {:induction false} MeantRunRefinesLog(s: Log, steps: seq<Step>)
    requires Inv(s)
    ensures Lossless(AsMeant, s, steps)
    ensures var result := Run(AsMeant, s, steps); result.Running? ==> Inv(result.log)
    decreases |steps|
  {
    if steps != [] {
      NextMeant(s, steps[0]);
      if Next(AsMeant, s, steps[0]).Running? {
        MeantRunRefinesLog(Next(AsMeant, s, steps[0]).log, steps[1..]);
      }
    }
  }

  // As written, a run is lossless exactly when no collection finds two full buffers.
  lemma {:induction false} WrittenRunRefinesLogIff(s: Log, steps: seq<Step>)
    requires Inv(s)
    ensures Lossless(AsWritten, s, steps) <==> AtMostOneWaits(AsWritten, s, steps)
    ensures AtMostOneWaits(AsWritten, s, steps) ==> Run(AsWritten, s, steps) == Run(AsMeant, s, steps)
    decreases |steps|
  {
    if steps != [] {
      var step := steps[0];
      NextMeant(s, step);
      if step.Collect? && s.inFlight == [] {
        CollectKeepsLogIff(s);
      }
      var s' := Next(AsWritten, s, step);
      if s'.Running? && !(step.Collect? && |s.toWrite| > 1) {
        WrittenRunRefinesLogIff(s'.log, steps[1..]);
      } else if s'.Running? {
        assert !Lossless(AsWritten, s'.log, steps[1..]);
      }
    }
  }

  lemma EmptyIdsSnoc(q: seq<Buf>, b: Buf)
    ensures EmptyIds(q + [b]) == EmptyIds(q) + multiset{b.id}
  {
  }

  lemma InitIds()
    ensures EmptyIds(Init().empties) == multiset{0, 1, 2}
  {
    EmptyIdsSnoc([], Buf(0, ""));
    EmptyIdsSnoc([Buf(0, "")], Buf(1, ""));
    EmptyIdsSnoc([Buf(0, ""), Buf(1, "")], Buf(2, ""));
    assert [] + [Buf(0, "")] == [Buf(0, "")];
  }

  lemma InitInv()
    ensures Inv(Init())
  {
    InitIds();
  }

  // Three lines of half a buffer each, logged before the back end wakes up, crash it.
  lemma WrittenRunCrashes(stamp: string, line: string)
    requires |stamp| == DATE_STRING_LEGTH && |line| == HALF
    ensures var log := LogInfo(stamp, line);
            Run(AsWritten, Init(), [log, log, log, Collect, WriteOne]) == Crashed
  {
    var log, e := LogInfo(stamp, line), stamp + line;
    var s1 := LogLine(Init(), stamp, line);
    var s2 := LogLine(s1, stamp, line);
    var s3 := LogLine(s2, stamp, line);
    assert s1.cur == Some(Buf(3, e)) by { assert "" + e == e; }
    var b3, b2: Slot := Some(Buf(3, e)), Some(Buf(2, e));
    assert s3.toWrite == [b3, b2];
    var s4 := CollectAll(AsWritten, s3);
    assert s4.inFlight[|s4.inFlight| - 1] == None by {
      var q: seq<Slot> := [b3, b2];
      var q1: seq<Slot> := [None];
      var out := SwapCurrent(s3).inFlight;
      assert q[1 := None][1..] == q1;
      assert q1[0 := None][1..] == [];
      assert Drain(AsWritten, q1, out + [b2]) == out + [b2] + [None];
      assert s4.inFlight == Drain(AsWritten, q, out);
    }
    var all := [log, log, log, Collect, WriteOne];
    assert all[1..] == [log, log, Collect, WriteOne];
    assert all[1..][1..] == [log, Collect, WriteOne];
    assert all[1..][1..][1..] == [Collect, WriteOne];
    assert all[1..][1..][1..][1..] == [WriteOne];
    assert Run(AsWritten, s4, [WriteOne]) == Crashed;
    assert Run(AsWritten, s3, [Collect, WriteOne]) == Crashed;
    assert Run(AsWritten, s2, [log, Collect, WriteOne]) == Crashed;
  }

  // Once the current buffer is null no later line is ever accepted.
  lemma {:induction false} NeverRefilled(r: Reading, s: Log, steps: seq<Step>)
    requires s.cur.None? && Run(r, s, steps).Running?
    ensures var s' := Run(r, s, steps).log; s'.cur.None? && s'.accepted == s.accepted
    decreases |steps|
  {
    if steps != [] {
      NeverRefilled(r, Next(r, s, steps[0]).log, steps[1..]);
    }
  }

  /* ---------- which lines are accepted ---------- */

  // The stamped line leaves room in the current buffer for one more stamp.
  predicate Fits(s: Log, line: string) {
    |Text(s.cur)| + |Payload(line)| + 2 * DATE_STRING_LEGTH < LOGBUFFERSIZE
  }

  // It fits there, or an empty buffer can take its place.
  predicate HasRoom(s: Log, line: string) {
    s.cur.Some? && (Fits(s, line) || s.empties != [])
  }

  // A call rotates the buffers exactly when the line does not fit.
  lemma RotatesIff(s: Log, stamp: string, line: string)
    requires s.cur.Some?
    ensures var s' := LogLine(s, stamp, line);
            && s'.toWrite == (if Fits(s, line) then s.toWrite else s.toWrite + [s.cur])
            && (Fits(s, line) ==> s'.cur == Some(Buf(s.cur.value.id, s.cur.value.text + (stamp + Payload(line)))))
            && (s'.cur.None? <==> !Fits(s, line) && s.empties == [])
  {
  }

  // A line of more than half a buffer is cut there, with the mark at the cut; the caller's string
  // is marked too, and otherwise left alone.
  lemma LongLineIsMarked(line: string)
    ensures var mark := "Log Info Too Long";
            && |Marked(line)| == |line|
            && (forall i | 0 <= i < |line| ::
                  Marked(line)[i] == if |line| > HALF && HALF - |mark| <= i < HALF then mark[i - (HALF - |mark|)]
                                     else line[i])
            && Payload(line) == Marked(line)[..if |line| > HALF then HALF else |line|]
  {
  }

  // A call accepts its line, or changes nothing of what was accepted.
  lemma AcceptedIff(s: Log, stamp: string, line: string)
    requires |stamp| == DATE_STRING_LEGTH
    ensures var s' := LogLine(s, stamp, line);
            && (s'.accepted == s.accepted + (stamp + Payload(line)) <==> HasRoom(s, line))
            && (s'.accepted == s.accepted <==> !HasRoom(s, line))
  {
    assert |s.accepted + (stamp + Payload(line))| > |s.accepted|;
  }

  // All lines that a run submits, stamped.
  function Submitted(steps: seq<Step>): string
    decreases |steps|
  {
    if steps == [] then ""
    else (if steps[0].LogInfo? then steps[0].stamp + Payload(steps[0].line) else "") + Submitted(steps[1..])
  }

  ghost predicate AlwaysRoom(r: Reading, s: Log, steps: seq<Step>)
    decreases |steps|
  {
    steps == [] ||
    (&& (steps[0].LogInfo? ==> HasRoom(s, steps[0].line))
     && (Next(r, s, steps[0]).Running? ==> AlwaysRoom(r, Next(r, s, steps[0]).log, steps[1..])))
  }

  lemma BackEndAcceptsNothing(r: Reading, s: Log, step: Step)
    requires !step.LogInfo? && Next(r, s, step).Running?
    ensures Next(r, s, step).log.accepted == s.accepted
  {
  }

  lemma {:induction false} RoomMeansAccepted(r: Reading, s: Log, steps: seq<Step>)
    requires Run(r, s, steps).Running? && AlwaysRoom(r, s, steps)
    ensures Run(r, s, steps).log.accepted == s.accepted + Submitted(steps)
    decreases |steps|
  {
    if steps != [] {
      RoomMeansAccepted(r, Next(r, s, steps[0]).log, steps[1..]);
      if steps[0].LogInfo? {
        AcceptedIff(s, steps[0].stamp, steps[0].line);
        Associate(s.accepted, steps[0].stamp + Payload(steps[0].line), Submitted(steps[1..]));
      } else {
        BackEndAcceptsNothing(r, s, steps[0]);
      }
    }
  }

  lemma {:induction false} NoRoomMeansLess(r: Reading, s: Log, steps: seq<Step>)
    requires Run(r, s, steps).Running?
    ensures |Run(r, s, steps).log.accepted| <= |s.accepted| + |Submitted(steps)|
    ensures !AlwaysRoom(r, s, steps) ==> |Run(r, s, steps).log.accepted| < |s.accepted| + |Submitted(steps)|
    decreases |steps|
  {
    if steps != [] {
      NoRoomMeansLess(r, Next(r, s, steps[0]).log, steps[1..]);
      if steps[0].LogInfo? {
        AcceptedIff(s, steps[0].stamp, steps[0].line);
      } else {
        BackEndAcceptsNothing(r, s, steps[0]);
      }
    }
  }

  // A run accepts every line that it submits exactly when each call finds room.
  lemma AllAcceptedIff(r: Reading, s: Log, steps: seq<Step>)
    requires Run(r, s, steps).Running?
    ensures Run(r, s, steps).log.accepted == s.accepted + Submitted(steps) <==> AlwaysRoom(r, s, steps)
  {
    if AlwaysRoom(r, s, steps) {
      RoomMeansAccepted(r, s, steps);
    } else {
      NoRoomMeansLess(r, s, steps);
    }
  }

  // One line of half a buffer takes the current buffer's place in the queue of full ones.
  lemma HalfLineRotates(s: Log, stamp: string, line: string)
    requires |stamp| == DATE_STRING_LEGTH && |line| == HALF
    requires s.cur.Some? && |Text(s.cur)| == HALF + DATE_STRING_LEGTH
    requires forall b | b in s.empties :: b.text == ""
    ensures var s' := LogLine(s, stamp, line);
            if s.empties == [] then s'.cur.None? && s'.accepted == s.accepted
            else
              && s'.cur.Some? && |Text(s'.cur)| == HALF + DATE_STRING_LEGTH
              && s'.empties == s.empties[..|s.empties| - 1]
              && s'.accepted == s.accepted + (stamp + line)
  {
  }

  function Repeated(n: nat, step: Step): seq<Step> {
    if n == 0 then [] else [step] + Repeated(n - 1, step)
  }

  lemma {:induction false} RunOn(r: Reading, s: Log, first: seq<Step>, rest: seq<Step>)
    requires Run(r, s, first).Running?
    ensures Run(r, s, first + rest) == Run(r, Run(r, s, first).log, rest)
    decreases |first|
  {
    if first == [] {
      assert first + rest == rest;
    } else {
      assert (first + rest)[1..] == first[1..] + rest;
      RunOn(r, Next(r, s, first[0]).log, first[1..], rest);
    }
  }

  // Five lines of half a buffer each, logged before the back end wakes up, exhaust the four
  // buffers: the fifth is lost, and so is every later line of any continuation.
  lemma FiveLinesStarve(r: Reading, stamp: string, line: string, steps: seq<Step>)
    requires |stamp| == DATE_STRING_LEGTH && |line| == HALF
    ensures var five := Run(r, Init(), Repeated(5, LogInfo(stamp, line)));
            five.Running? && five.log.cur.None?
    ensures var result, e := Run(r, Init(), Repeated(5, LogInfo(stamp, line)) + steps), stamp + line;
            result.Running? ==> result.log.accepted == e + e + e + e
  {
    var log, e := LogInfo(stamp, line), stamp + line;
    var s1 := LogLine(Init(), stamp, line);
    assert s1.accepted == e && |Text(s1.cur)| == HALF + DATE_STRING_LEGTH;
    var s2 := LogLine(s1, stamp, line);
    HalfLineRotates(s1, stamp, line);
    var s3 := LogLine(s2, stamp, line);
    HalfLineRotates(s2, stamp, line);
    var s4 := LogLine(s3, stamp, line);
    HalfLineRotates(s3, stamp, line);
    var s5 := LogLine(s4, stamp, line);
    HalfLineRotates(s4, stamp, line);
    assert Run(r, s4, Repeated(1, log)) == Running(s5);
    assert Run(r, s3, Repeated(2, log)) == Running(s5);
    assert Run(r, s2, Repeated(3, log)) == Running(s5);
    assert Run(r, s1, Repeated(4, log)) == Running(s5);
    RunOn(r, Init(), Repeated(5, log), steps);
    if Run(r, s5, steps).Running? {
      NeverRefilled(r, s5, steps);
    }
  }

  // In any run of the intended logger, all is written once the queues are empty.
  lemma QuietLogIsComplete(steps: seq<Step>)
    requires Run(AsMeant, Init(), steps).Running?
    ensures var s := Run(AsMeant, Init(), steps).log;
            s.inFlight == [] && s.toWrite == [] ==> s.file + Text(s.cur) == s.accepted
  {
    InitInv();
    MeantRunRefinesLog(Init(), steps);
    var s := Run(AsMeant, Init(), steps).log;
    if s.inFlight == [] && s.toWrite == [] {
      assert s.file + "" + "" == s.file;
    }
  }
}

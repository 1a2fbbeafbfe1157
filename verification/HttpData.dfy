/** The request reader as the program has it: an object with a 1024-byte receive buffer
    that is refilled by `recv`.  Each method is proved to compute its function of HttpSpec
    on the unread stream, so that nothing depends on how the stream is cut into chunks, with
    one exception as written: a body that a chunk begins with is not read. */
module HttpData {
  import opened Readings
  import opened HttpText
  import opened HttpSpec

  const HTTPDATA_BUFFERSIZE := 1024

  // Index scans over a character array or a string, as the program's `while` loops make them.
  method ScanFor(s: string, c: char, from: nat) returns (i: nat)
    requires from <= |s|
    ensures i == FindChar(s, c, from)
  {
    i := from;
    while i < |s| && s[i] != c
      invariant from <= i <= |s|
      invariant FindChar(s, c, i) == FindChar(s, c, from)
    {
      i := i + 1;
    }
  }

  // `find_first_not_of(" ", from)`, with the length standing for `npos`.
  method SkipSpaces(s: string, from: nat) returns (i: nat)
    requires from <= |s|
    ensures from <= i <= |s| && (i < |s| ==> s[i] != ' ')
    ensures Tokens(s[from..]) == Tokens(s[i..])
  {
    i := from;
    while i < |s| && s[i] == ' '
      invariant from <= i <= |s|
      invariant Tokens(s[from..]) == Tokens(s[i..])
    {
      assert s[i..][1..] == s[i + 1..];
      i := i + 1;
    }
  }

  lemma NextToken(s: string, from: nat, to: nat)
    requires from < |s| && s[from] != ' ' && to == FindChar(s, ' ', from)
    ensures from < to && Tokens(s[from..]) == [s[from..to]] + Tokens(s[to..])
  {
    FindCharIs(s[from..], ' ', 0, to - from);
    assert s[from..][..to - from] == s[from..to];
    assert s[from..][to - from..] == s[to..];
  }

  method StringSplit(s: string) returns (tokens: seq<string>)
    ensures tokens == Tokens(s)
  {
    tokens := [];
    var lastPos := SkipSpaces(s, 0);
    var pos := ScanFor(s, ' ', lastPos);
    assert s[0..] == s;
    while pos != |s| || lastPos != |s|
      invariant lastPos <= pos <= |s|
      invariant pos == FindChar(s, ' ', lastPos)
      invariant lastPos < |s| ==> s[lastPos] != ' '
      invariant tokens + Tokens(s[lastPos..]) == Tokens(s)
      decreases |s| - lastPos
    {
      NextToken(s, lastPos, pos);
      ghost var before := tokens;
      tokens := tokens + [s[lastPos..pos]];
      assert before + ([s[lastPos..pos]] + Tokens(s[pos..])) == tokens + Tokens(s[pos..]);
      lastPos := SkipSpaces(s, pos);
      pos := ScanFor(s, ' ', lastPos);
    }
    assert s[lastPos..] == "";
  }

  // One round of the loop over a `key=value&` list; `None` when a scan runs off the string.
  method ScanPair(r: Reading, str: string, prev: nat) returns (found: Option<Found>)
    requires prev <= |str|
    ensures found == NextPair(r, str, prev)
  {
    var cur := ScanFor(str, '&', prev);
    var start := prev;
    var mid := ScanFor(str, '=', start);
    if cur == |str| || mid == |str| {
      return None;
    }
    var end := (cur as int) - 1;
    var value;
    match r {
      case AsWritten =>
        end := mid;
        value := if end != 0 then "" else Substr(str, mid + 1, end - mid);
      case AsMeant =>
        value := if end == mid then "" else Substr(str, mid + 1, end - mid);
    }
    return Some(Found(str[start..mid], value, cur + 1));
  }

  // `ok` is false when a scan runs off the string.
  method ParseStringParams(r: Reading, str: string, params: Params) returns (m: Params, ok: bool)
    ensures ParsePairs(r, str, 0, params) == if ok then Defined(m) else Undefined
  {
    m := params;
    var cur := 0;
    while cur < |str|
      invariant 0 <= cur <= |str|
      invariant ParsePairs(r, str, cur, m) == ParsePairs(r, str, 0, params)
      decreases |str| - cur
    {
      var found := ScanPair(r, str, cur);
      if found == None {
        return m, false;
      }
      m := m[found.value.key := found.value.value];
      cur := found.value.next;
    }
    return m, true;
  }

  // Ends the text at `at` with a NUL and converts it to a string.
  method CutAt(lineBuffer: array<char>, at: nat) returns (line: string)
    requires at < lineBuffer.Length
    modifies lineBuffer
    ensures line == CStr(old(lineBuffer[..at]))
    ensures lineBuffer[..at] == old(lineBuffer[..at])
  {
    lineBuffer[at] := NUL;
    line := CStr(lineBuffer[..]);
    assert lineBuffer[..] == lineBuffer[..at] + [NUL] + lineBuffer[at + 1..];
    CStrStopsAtNul(lineBuffer[..at], lineBuffer[at + 1..]);
  }

  lemma NoCrLfYet(stream: string, index: nat)
    requires 1 <= index <= |stream| && (index >= 2 ==> !CrLfAt(stream, index - 2))
    ensures FirstCrLf(stream, if index == 1 then 0 else index - 2) == FirstCrLf(stream, index - 1)
  {
  }

  lemma LineEnds(stream: string, index: nat)
    requires CrLfAt(stream, index) && FirstCrLf(stream, 0) == FirstCrLf(stream, index)
    ensures FirstCrLf(stream, 0) == Some(index)
  {
  }

  lemma LineTooLong(stream: string)
    requires |stream| > LINE_BUFFERSIZE && FirstCrLf(stream, 0) == FirstCrLf(stream, LINE_BUFFERSIZE - 1)
    ensures OneLine(stream) == Overrun
  {
  }

  lemma LineCutShort(stream: string)
    requires 0 < |stream| <= LINE_BUFFERSIZE && FirstCrLf(stream, 0) == FirstCrLf(stream, |stream| - 1)
    ensures OneLine(stream) == Stopped
  {
  }

  lemma LineTaken(stream: string, index: nat)
    requires 2 <= index <= LINE_BUFFERSIZE && FirstCrLf(stream, 0) == Some(index - 2)
    ensures index <= |stream| && OneLine(stream) == Got(CStr(stream[..index - 2]), stream[index..])
  {
  }

  lemma SplitAt(s: string, a: string, b: string)
    requires s == a + b
    ensures s[..|a|] == a && s[|a|..] == b
  {
  }

  lemma HeadOf(s: string, index: nat, c: char, rest: string)
    requires index <= |s| && s[index..] == [c] + rest
    ensures index < |s| && s[index] == c && s[index + 1..] == rest
  {
  }

  // A chunk begins, or the stream ends, where `left` characters are still to come.
  ghost predicate CutBefore(chunks: seq<string>, left: nat) {
    exists k | 0 <= k <= |chunks| :: left == |Flatten(chunks[k..])|
  }

  lemma {:induction false} LaterIsShorter(chunks: seq<string>, i: nat, k: nat)
    requires i < k <= |chunks|
    ensures |Flatten(chunks[i..])| >= |chunks[i]| + |Flatten(chunks[k..])|
    decreases k - i
  {
    assert chunks[i..][1..] == chunks[i + 1..];
    if i + 1 < k {
      LaterIsShorter(chunks, i + 1, k);
    }
  }

  // With `held` characters left of the last chunk received, at least one of which was taken.
  lemma CutBeforeIff(chunks: seq<string>, received: nat, held: nat)
    requires forall i | 0 <= i < |chunks| :: 0 < |chunks[i]|
    requires received <= |chunks|
    requires held > 0 ==> received > 0 && held < |chunks[received - 1]|
    ensures CutBefore(chunks, held + |Flatten(chunks[received..])|) <==> held == 0
  {
    var left := held + |Flatten(chunks[received..])|;
    if held == 0 {
      assert left == |Flatten(chunks[received..])|;
    } else {
      forall k | 0 <= k <= |chunks| ensures left != |Flatten(chunks[k..])| {
        if k > received {
          LaterIsShorter(chunks, received, k);
        } else if k < received {
          LaterIsShorter(chunks, k, received);
          if k < received - 1 {
            LaterIsShorter(chunks, k, received - 1);
            LaterIsShorter(chunks, received - 1, received);
          }
        }
      }
    }
  }

  datatype Status = Ok | Thrown | Broken

  class Reader {
    const reading: Reading
    // All that `recv` returns, and what it has still to return.
    ghost const sent: seq<string>
    var chunks: seq<string>
    const dataBuffer: array<char>
    var readIndex: int
    var dataEndIndex: int
    var prev: char
    // What has been parsed: request line, headers, and the table of parameters.
    var start: StartLine
    var headers: Headers
    var clientParamData: Option<Params>

    // `recv` returns non-empty pieces of at most a buffer, and the buffer holds the last one.
    ghost predicate Valid()
      reads this, dataBuffer
    {
      && dataBuffer.Length == HTTPDATA_BUFFERSIZE
      && 0 <= readIndex <= dataEndIndex + 1 <= HTTPDATA_BUFFERSIZE
      && (forall i | 0 <= i < |sent| :: 0 < |sent[i]| <= HTTPDATA_BUFFERSIZE)
      && |chunks| <= |sent| && chunks == sent[|sent| - |chunks|..]
      && (readIndex <= dataEndIndex ==>
            |chunks| < |sent| && dataEndIndex + 1 == |sent[|sent| - |chunks| - 1]|)
    }

    ghost function Unread(): string
      requires Valid()
      reads this, dataBuffer
    {
      dataBuffer[readIndex..dataEndIndex + 1] + Flatten(chunks)
    }

    predicate DataBufferEmpty()
      reads this
    {
      readIndex > dataEndIndex || readIndex >= HTTPDATA_BUFFERSIZE
    }

    // `keep` is whatever `m_keepConnection` holds before the program first sets it.
    constructor (reading: Reading, chunks: seq<string>, keep: bool)
      requires forall i | 0 <= i < |chunks| :: 0 < |chunks[i]| <= HTTPDATA_BUFFERSIZE
      ensures Valid() && fresh(dataBuffer) && prev == NUL
      ensures Unread() == Flatten(chunks) && this.reading == reading && DataBufferEmpty() && sent == chunks
      ensures start == Unsupported && headers == Headers(map[], keep) && clientParamData == None
    {
      this.reading := reading;
      this.sent, this.chunks := chunks, chunks;
      prev := NUL;
      start, headers, clientParamData := Unsupported, Headers(map[], keep), None;
      readIndex := HTTPDATA_BUFFERSIZE;
      dataEndIndex := HTTPDATA_BUFFERSIZE - 1;
      dataBuffer := new char[HTTPDATA_BUFFERSIZE](_ => NUL);
      new;
      assert sent[0..] == sent;
      assert Valid();
      assert dataBuffer[readIndex..dataEndIndex + 1] == "" && "" + Flatten(chunks) == Flatten(chunks);
    }

    // `ok` is false when `recv` returns zero or fails, and an exception is thrown.
    method ReadRawDataFromSocket() returns (ok: bool)
      requires Valid() && DataBufferEmpty()
      modifies this`chunks, this`readIndex, this`dataEndIndex, dataBuffer
      ensures Valid() && Unread() == old(Unread())
      ensures ok <==> old(Unread()) != ""
      ensures ok ==> readIndex <= dataEndIndex
    {
      assert dataBuffer[readIndex..dataEndIndex + 1] == "";
      if chunks == [] {
        return false;
      }
      var chunk := chunks[0];
      forall i | 0 <= i < |chunk| {
        dataBuffer[i] := chunk[i];
      }
      readIndex, dataEndIndex := 0, |chunk| - 1;
      chunks := chunks[1..];
      assert dataBuffer[0..|chunk|] == chunk;
      return true;
    }

    // Takes the next byte out of the buffer.
    method NextByte() returns (c: char)
      requires Valid() && readIndex <= dataEndIndex
      modifies this`readIndex
      ensures Valid() && old(Unread()) == [c] + Unread()
      ensures readIndex == old(readIndex) + 1
    {
      c := dataBuffer[readIndex];
      assert dataBuffer[readIndex..dataEndIndex + 1] == [c] + dataBuffer[readIndex + 1..dataEndIndex + 1];
      readIndex := readIndex + 1;
    }

    // Takes one byte and refills an emptied buffer, unless the line just ended.
    method StepByte() returns (c: char, ended: bool, ok: bool)
      requires Valid() && readIndex <= dataEndIndex
      modifies this`chunks, this`readIndex, this`dataEndIndex, this`prev, dataBuffer
      ensures Valid() && old(Unread()) == [c] + Unread()
      ensures ended <==> old(prev) == CR && c == LF
      ensures prev == if ended then NUL else c
      ensures ended ==> readIndex > 0
      ensures !ended ==> (ok <==> Unread() != "") && (ok ==> readIndex <= dataEndIndex)
    {
      c := NextByte();
      ended, ok := false, true;
      if prev == CR && c == LF {
        prev, ended := NUL, true;
      } else {
        prev := c;
        ok := Refill();
      }
    }

    // One round of the line loop.
    method StoreByte(ghost stream: string, lineBuffer: array<char>, index: nat) returns (ended: bool, ok: bool)
      requires Valid() && readIndex <= dataEndIndex
      requires index < lineBuffer.Length && index <= |stream| && Unread() == stream[index..]
      requires prev == if index == 0 then NUL else stream[index - 1]
      requires lineBuffer != dataBuffer && forall i | 0 <= i < index :: lineBuffer[i] == stream[i]
      modifies this`chunks, this`readIndex, this`dataEndIndex, this`prev, dataBuffer, lineBuffer
      ensures Valid()
      ensures index < |stream| && Unread() == stream[index + 1..]
      ensures forall i | 0 <= i <= index :: lineBuffer[i] == stream[i]
      ensures ended <==> index > 0 && CrLfAt(stream, index - 1)
      ensures ended ==> prev == NUL && readIndex > 0
      ensures !ended ==> prev == stream[index] && (ok <==> Unread() != "") &&
                         (ok ==> readIndex <= dataEndIndex)
    {
      var c;
      c, ended, ok := StepByte();
      HeadOf(stream, index, c, Unread());
      lineBuffer[index] := c;
    }

    // Copies the stream into `lineBuffer` up to and including its first CRLF.
    method FillLine(lineBuffer: array<char>) returns (index: nat, status: Status)
      requires Valid() && prev == NUL && readIndex <= dataEndIndex
      requires lineBuffer.Length == LINE_BUFFERSIZE && lineBuffer != dataBuffer
      modifies this`chunks, this`readIndex, this`dataEndIndex, this`prev, dataBuffer, lineBuffer
      ensures Valid()
      ensures var stream := old(Unread());
              match status
              case Ok => 2 <= index <= LINE_BUFFERSIZE && FirstCrLf(stream, 0) == Some(index - 2) &&
                         (forall i | 0 <= i < index :: lineBuffer[i] == stream[i]) &&
                         Unread() == stream[index..] && prev == NUL && readIndex > 0
              case Thrown => OneLine(stream) == Stopped
              case Broken => OneLine(stream) == Overrun
    {
      ghost var stream := Unread();
      index := 0;
      while true
        invariant Valid() && readIndex <= dataEndIndex
        invariant index <= LINE_BUFFERSIZE && index <= |stream| && Unread() == stream[index..]
        invariant forall i | 0 <= i < index :: lineBuffer[i] == stream[i]
        invariant prev == if index == 0 then NUL else stream[index - 1]
        invariant FirstCrLf(stream, 0) == FirstCrLf(stream, if index == 0 then 0 else index - 1)
        decreases |stream| - index
      {
        if index == LINE_BUFFERSIZE {
          assert |Unread()| > 0;
          LineTooLong(stream);
          return index, Broken;
        }
        var ended, ok := StoreByte(stream, lineBuffer, index);
        index := index + 1;
        if ended {
          LineEnds(stream, index - 2);
          return index, Ok;
        }
        NoCrLfYet(stream, index);
        if !ok {
          LineCutShort(stream);
          return index, Thrown;
        }
      }
    }

    method ParseOneLine() returns (line: string, status: Status)
      requires Valid() && prev == NUL
      modifies this`chunks, this`readIndex, this`dataEndIndex, this`prev, dataBuffer
      ensures Valid()
      ensures match OneLine(old(Unread()))
              case Got(text, rest) =>
                status == Ok && line == text && Unread() == rest && prev == NUL && readIndex > 0
              case Stopped => status == Thrown
              case Overrun => status == Broken
    {
      if DataBufferEmpty() {
        var ok := ReadRawDataFromSocket();
        if !ok {
          return "", Thrown;
        }
      }
      line, status := CopyLine();
    }

    method CopyLine() returns (line: string, status: Status)
      requires Valid() && prev == NUL && readIndex <= dataEndIndex
      modifies this`chunks, this`readIndex, this`dataEndIndex, this`prev, dataBuffer
      ensures Valid()
      ensures match OneLine(old(Unread()))
              case Got(text, rest) =>
                status == Ok && line == text && Unread() == rest && prev == NUL && readIndex > 0
              case Stopped => status == Thrown
              case Overrun => status == Broken
    {
      ghost var stream := Unread();
      var lineBuffer := new char[LINE_BUFFERSIZE](_ => NUL);
      var index;
      index, status := FillLine(lineBuffer);
      if status != Ok {
        return "", status;
      }
      assert lineBuffer[..index - 2] == stream[..index - 2];
      LineTaken(stream, index);
      label filled:
      line := CutAt(lineBuffer, index - 2);
      assert Unread() == old@filled(Unread());
    }

    method ParseUrlDataParamList(url: string) returns (path: string, status: Status)
      requires clientParamData == None
      modifies this`clientParamData
      ensures match SplitUrl(reading, url)
              case Defined(u) => status == Ok && path == u.path && clientParamData == u.params
              case Undefined => status == Broken
    {
      path := url;
      if reading == AsWritten {
        return path, Ok;
      }
      var i := ScanFor(url, '?', 0);
      if i == |url| {
        return path, Ok;
      }
      path := url[..i];
      status := AddParams(url[i + 1..] + "&");
    }

    method AddParams(str: string) returns (status: Status)
      modifies this`clientParamData
      ensures AddPairs(reading, str, old(clientParamData)) ==
              if status == Ok then Defined(clientParamData) else Undefined
      ensures status == Ok || status == Broken
    {
      var m, ok := ParseStringParams(reading, str, Known(clientParamData));
      clientParamData := Some(m);
      status := if ok then Ok else Broken;
    }

    method ParseStartLine() returns (status: Status)
      requires Valid() && prev == NUL && clientParamData == None
      modifies this`chunks, this`readIndex, this`dataEndIndex, this`prev, this`start, this`clientParamData, dataBuffer
      ensures Valid()
      ensures match ParseFirstLine(reading, old(Unread()))
              case Stopped => status == Thrown
              case Overrun => status == Broken
              case Got(s, rest) => status == Ok && start == s && Unread() == rest && prev == NUL && readIndex > 0 &&
                                   clientParamData == if s.Start? then s.params else None
    {
      var firstLine;
      firstLine, status := ParseOneLine();
      if status == Ok {
        status := InterpretStart(firstLine);
      }
    }

    // What follows the reading of the first line.
    method InterpretStart(firstLine: string) returns (status: Status)
      requires clientParamData == None
      modifies this`start, this`clientParamData
      ensures match ParseStart(reading, firstLine)
              case Undefined => status == Broken
              case Defined(s) => status == Ok && start == s && clientParamData == if s.Start? then s.params else None
    {
      var info := StringSplit(firstLine);
      if info == [] {
        start := BadRequest;
      } else if info[0] != "GET" && info[0] != "POST" {
        start := Unsupported;
      } else if |info| < 3 {
        return Broken;
      } else {
        var path;
        path, status := ParseUrlDataParamList(if info[1] == "/" then "/index.html" else info[1]);
        start := Start(if info[0] == "GET" then GET else POST, RESOURCE_ROOT + path,
                       ResourceType(path), info[2], clientParamData);
        return;
      }
      status := Ok;
    }

    method ParseHeader() returns (status: Status)
      requires Valid() && prev == NUL
      modifies this`chunks, this`readIndex, this`dataEndIndex, this`prev, this`headers, dataBuffer
      ensures Valid()
      ensures match ParseHeaders(reading, old(Unread()), old(headers))
              case Stopped => status == Thrown
              case Overrun => status == Broken
              case Got(h, rest) => status == Ok && headers == h && Unread() == rest && prev == NUL && readIndex > 0
    {
      while true
        invariant Valid() && prev == NUL
        invariant ParseHeaders(reading, Unread(), headers) == ParseHeaders(reading, old(Unread()), old(headers))
        decreases |Unread()|
      {
        var last;
        last, status := ParseOneHeader();
        if last {
          return;
        }
      }
    }

    // One round of the header loop.
    method ParseOneHeader() returns (last: bool, status: Status)
      requires Valid() && prev == NUL
      modifies this`chunks, this`readIndex, this`dataEndIndex, this`prev, this`headers, dataBuffer
      ensures Valid()
      ensures match HeaderRound(reading, old(Unread()), old(headers))
              case More(h, rest) => !last && headers == h && Unread() == rest && prev == NUL
              case Done(Stopped) => last && status == Thrown
              case Done(Overrun) => last && status == Broken
              case Done(Got(h, rest)) =>
                last && status == Ok && headers == h && Unread() == rest && prev == NUL && readIndex > 0
    {
      var line;
      line, status := ParseOneLine();
      if status != Ok || line == "" {
        return true, status;
      }
      var ok := ParseHeaderLine(line);
      return !ok, if ok then Ok else Broken;
    }

    // The body of the header loop for one line.
    method ParseHeaderLine(line: string) returns (ok: bool)
      modifies this`headers
      ensures HeaderLine(reading, old(headers), line) == if ok then Defined(headers) else Undefined
    {
      var i := ScanFor(line, Separator(reading), 0);
      if i == |line| {
        return false;
      }
      var name := line[..i];
      var kept := name == "Connection" && |line| >= 13 && line[12..] == "keep-alive";
      headers := Headers(if name in KNOWN then headers.fields[name := line] else headers.fields,
                         headers.keep || kept);
      return true;
    }

    // As written, the body is not read at all when it starts a new chunk.
    method ParseBodyParamData() returns (status: Status)
      requires Valid()
      modifies this`chunks, this`readIndex, this`dataEndIndex, this`clientParamData, dataBuffer
      ensures Valid()
      ensures ContentLength(headers) == Stopped ==> status == Thrown
      ensures ContentLength(headers) == Overrun ==> status == Broken
      ensures reading == AsWritten && old(DataBufferEmpty()) && ContentLength(headers).Got? ==>
                status == if ContentLength(headers).value < -2 then Thrown else Broken
      ensures !(reading == AsWritten && old(DataBufferEmpty())) ==>
                match ParseBody(reading, old(Unread()), headers, old(clientParamData))
                case Stopped => status == Thrown
                case Overrun => status == Broken
                case Got(p, rest) => status == Ok && clientParamData == p && Unread() == rest
    {
      var length := ContentLength(headers);
      match length {
        case Stopped => return Thrown;
        case Overrun => return Broken;
        case Got(n, _) =>
          if n > INT_MAX - 2 {
            return Broken;
          } else if n < -2 {
            return Thrown;
          }
          var body;
          body, status := ReadBody(n);
          if status == Ok {
            status := AddParams(CStr(body + "&"));
          }
      }
    }

    method ReadBody(n: int) returns (body: string, status: Status)
      requires Valid() && -2 <= n <= INT_MAX - 2
      modifies this`chunks, this`readIndex, this`dataEndIndex, dataBuffer
      ensures Valid()
      ensures reading == AsWritten && old(DataBufferEmpty()) ==> status == Broken
      ensures !(reading == AsWritten && old(DataBufferEmpty())) ==>
                match TakeBody(old(Unread()), n)
                case Stopped => status == Thrown
                case Overrun => status == Broken
                case Got(text, rest) => status == Ok && body == text && Unread() == rest
    {
      body := "";
      if DataBufferEmpty() {
        if reading == AsWritten {
          return body, Broken;
        }
        var ok := ReadRawDataFromSocket();
        if !ok {
          return body, Thrown;
        }
      }
      body, status := CopyBody(n);
    }

    method CopyBody(n: int) returns (body: string, status: Status)
      requires Valid() && -2 <= n <= INT_MAX - 2 && readIndex <= dataEndIndex
      modifies this`chunks, this`readIndex, this`dataEndIndex, dataBuffer
      ensures Valid()
      ensures match TakeBody(old(Unread()), n)
              case Stopped => status == Thrown
              case Overrun => status == Broken
              case Got(text, rest) => status == Ok && body == text && Unread() == rest
    {
      ghost var stream := Unread();
      body := "";
      while true
        invariant Valid() && readIndex <= dataEndIndex
        invariant stream == body + Unread()
        invariant |body| <= n + 2 && (n >= 1 ==> |body| < n)
        decreases |stream| - |body|
      {
        if |body| == n + 2 {
          assert |Unread()| > 0;
          return body, Broken;
        }
        var c := NextByte();
        Associate(body, [c], Unread());
        body := body + [c];
        if |body| == n {
          SplitAt(stream, body, Unread());
          return body, Ok;
        }
        var ok := Refill();
        if !ok {
          return body, Thrown;
        }
      }
    }

    method Refill() returns (ok: bool)
      requires Valid()
      modifies this`chunks, this`readIndex, this`dataEndIndex, dataBuffer
      ensures Valid() && Unread() == old(Unread())
      ensures ok <==> old(Unread()) != ""
      ensures ok ==> readIndex <= dataEndIndex
    {
      ok := true;
      if readIndex > dataEndIndex {
        ok := ReadRawDataFromSocket();
      } else {
        assert |Unread()| > 0;
      }
    }

    // The object and the returned status are what `spec` says.
    ghost predicate Agrees(spec: Read<Request>, status: Status)
      requires Valid()
      reads this, dataBuffer
    {
      match spec
      case Stopped => status == Thrown
      case Overrun => status == Broken
      case Got(Rejected(s), rest) => status == Ok && start == s && Unread() == rest
      case Got(Request(s, h, p), rest) =>
        status == Ok && start == s && headers == h && clientParamData == p && Unread() == rest
    }

    // The request line and the headers.
    method ParseHead() returns (status: Status)
      requires Valid() && prev == NUL && clientParamData == None
      modifies this`chunks, this`readIndex, this`dataEndIndex, this`prev, this`start, this`headers,
               this`clientParamData, dataBuffer
      ensures Valid()
      ensures Agrees(HttpSpec.ParseHead(reading, old(Unread()), old(headers.keep)), status)
      ensures status == Ok ==> readIndex > 0
    {
      headers := Headers(map[], headers.keep);
      status := ParseStartLine();
      if status == Ok && start.Start? {
        status := ParseHeader();
      }
    }

    // The object ends up as the pure parse of the whole stream says.  As written a body that is
    // announced is not read, and the call fails, exactly if a chunk begins with it.
    method ParseData() returns (status: Status)
      requires Valid() && prev == NUL && clientParamData == None
      modifies this, dataBuffer
      ensures Valid()
      ensures var head := HttpSpec.ParseHead(reading, old(Unread()), old(headers.keep));
              if reading == AsWritten && AnnouncesBody(head) && CutBefore(sent, |head.rest|)
              then status == if ContentLength(head.value.headers).value < -2 then Thrown else Broken
              else Agrees(ParseRequest(reading, old(Unread()), old(headers.keep)), status)
    {
      ghost var head := HttpSpec.ParseHead(reading, Unread(), headers.keep);
      status := ParseHead();
      if status == Ok && start.Start? && start.verb == POST {
        status := ParsePostBody(head);
      }
    }

    // What follows the headers of a POST.
    method ParsePostBody(ghost head: Read<Request>) returns (status: Status)
      requires Valid() && readIndex > 0 && Agrees(head, Ok)
      requires head.Got? && head.value.Request? && start.Start? && start.verb == POST
      modifies this`chunks, this`readIndex, this`dataEndIndex, this`clientParamData, dataBuffer
      ensures Valid()
      ensures if reading == AsWritten && AnnouncesBody(head) && CutBefore(sent, |head.rest|)
              then status == if ContentLength(head.value.headers).value < -2 then Thrown else Broken
              else Agrees(ReadOn(reading, head), status)
    {
      EmptyIffCut();
      status := ParseBodyParamData();
    }

    // Once a line was read, the buffer is empty exactly where a chunk begins.
    lemma EmptyIffCut()
      requires Valid() && readIndex > 0
      ensures DataBufferEmpty() <==> CutBefore(sent, |Unread()|)
    {
      CutBeforeIff(sent, |sent| - |chunks|, dataEndIndex + 1 - readIndex);
    }
  }
}

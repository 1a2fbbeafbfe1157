/** What the request reader computes, as functions of the byte stream. */
module HttpSpec {
  import opened Readings
  import opened HttpText

  type Params = map<string, string>

  const NULLINFO := "NULL"
  const RESOURCE_ROOT := "www"

  /* ---------- key=value& lists ---------- */

  // `std::string::substr`, whose count is unsigned: a negative one reaches to the end.
  function Substr(s: string, pos: nat, count: int): string
    requires pos <= |s|
  {
    if count < 0 || pos + count > |s| then s[pos..] else s[pos..pos + count]
  }

  /** The value stored for the pair whose '=' is at `mid` and whose '&' is at `cur`.
      As written, the test `end = mid` assigns. */
  function PairValue(r: Reading, str: string, mid: nat, cur: nat): string
    requires mid < |str|
  {
    match r
    case AsWritten => if mid != 0 then "" else Substr(str, mid + 1, mid - mid)
    case AsMeant => if cur - 1 == mid then "" else Substr(str, mid + 1, cur - 1 - mid)
  }

  datatype Found = Found(key: string, value: string, next: nat)

  // The pair that starts at `cur`.  Both scans are unbounded in the program, so running off
  // the string, for which this gives `None`, is undefined.
  function NextPair(r: Reading, str: string, cur: nat): (f: Option<Found>)
    requires cur <= |str|
    ensures f.Some? ==> cur < f.value.next <= |str|
  {
    var amp, mid := FindChar(str, '&', cur), FindChar(str, '=', cur);
    if amp == |str| || mid == |str| then None
    else Some(Found(str[cur..mid], PairValue(r, str, mid, amp), amp + 1))
  }

  // The pairs of `str` from position `cur` on, added to `m`.
  function ParsePairs(r: Reading, str: string, cur: nat, m: Params): Outcome<Params>
    requires cur <= |str|
    decreases |str| - cur
  {
    if cur == |str| then Defined(m)
    else
      match NextPair(r, str, cur)
      case None => Undefined
      case Some(f) => ParsePairs(r, str, f.next, m[f.key := f.value])
  }

  // A word without '=' is taken together with all text up to the next '='; as meant the value is
  // then all that follows, and the search goes on after the word.
  lemma WordSwallowsNext(r: Reading, before: string, word: string, more: string, rest: string)
    requires '&' !in word && '=' !in word && '=' !in more
    ensures var str := before + (word + ("&" + (more + ("=" + rest))));
            NextPair(r, str, |before|) ==
            Some(Found(word + "&" + more, if r == AsMeant then rest else "", |before| + |word| + 1))
  {
    var str := before + (word + ("&" + (more + ("=" + rest))));
    var amp, mid := |before| + |word|, |before| + |word| + 1 + |more|;
    assert str[amp] == '&' && str[mid] == '=' && str[|before|..mid] == word + "&" + more && str[mid + 1..] == rest;
    assert forall k | |before| <= k < amp :: str[k] == word[k - |before|];
    assert forall k | amp < k < mid :: str[k] == more[k - amp - 1];
    FindCharIs(str, '&', |before|, amp);
    FindCharIs(str, '=', |before|, mid);
  }

  // Where the part of `str[..n]` after its last '&' starts.
  function SegmentStart(str: string, n: nat): (i: nat)
    requires n <= |str|
    ensures i <= n && (i > 0 ==> str[i - 1] == '&') && '&' !in str[i..n]
  {
    if n == 0 || str[n - 1] == '&' then n else SegmentStart(str, n - 1)
  }

  // Whatever text a client sends, its last segment alone decides whether the scans stay in it.
  lemma {:induction false} PairsDefinedIff(r: Reading, str: string, cur: nat, m: Params)
    requires str != "" && str[|str| - 1] == '&' && cur <= SegmentStart(str, |str| - 1)
    ensures ParsePairs(r, str, cur, m).Defined? <==> '=' in str[SegmentStart(str, |str| - 1)..]
    decreases |str| - cur
  {
    var last := SegmentStart(str, |str| - 1);
    var amp, mid := FindChar(str, '&', cur), FindChar(str, '=', cur);
    assert amp < |str| && ('=' in str[last..] ==> mid < |str|);
    if cur == last {
      LastSegmentEnds(str);
      assert mid < |str| ==> str[last..][mid - last] == '=';
    } else {
      assert amp < last;
      if mid < |str| {
        var f := NextPair(r, str, cur).value;
        PairsDefinedIff(r, str, f.next, m[f.key := f.value]);
      }
    }
  }

  // Text whose terminator was cut off, by a NUL for instance, always runs off its end.
  lemma {:induction false} UnterminatedIsUndefined(r: Reading, str: string, cur: nat, m: Params)
    requires cur < |str| && str[|str| - 1] != '&'
    ensures ParsePairs(r, str, cur, m).Undefined?
    decreases |str| - cur
  {
    if NextPair(r, str, cur).Some? {
      var f := NextPair(r, str, cur).value;
      UnterminatedIsUndefined(r, str, f.next, m[f.key := f.value]);
    }
  }

  lemma LastSegmentEnds(str: string)
    requires str != "" && str[|str| - 1] == '&'
    ensures FindChar(str, '&', SegmentStart(str, |str| - 1)) == |str| - 1
  {
    var last := SegmentStart(str, |str| - 1);
    assert forall k | last <= k < |str| - 1 :: str[k] == str[last..|str| - 1][k - last];
    FindCharIs(str, '&', last, |str| - 1);
  }

  /* ---------- the start line ---------- */

  datatype Method = GET | POST

  datatype Url = Url(path: string, params: Option<Params>)

  function Known(params: Option<Params>): Params {
    if params.Some? then params.value else map[]
  }

  function AddPairs(r: Reading, str: string, params: Option<Params>): Outcome<Option<Params>> {
    match ParsePairs(r, str, 0, Known(params))
    case Defined(m) => Defined(Some(m))
    case Undefined => Undefined
  }

  // As written, `i = url.size() || ...` assigns true, and the query is never split off.
  function SplitUrl(r: Reading, url: string): Outcome<Url> {
    match r
    case AsWritten => Defined(Url(url, None))
    case AsMeant =>
      var i := FindChar(url, '?', 0);
      if i == |url| then Defined(Url(url, None)) else WithQuery(r, url[..i], url[i + 1..] + "&")
  }

  function WithQuery(r: Reading, path: string, paramStr: string): Outcome<Url> {
    match AddPairs(r, paramStr, None)
    case Defined(params) => Defined(Url(path, params))
    case Undefined => Undefined
  }

  // The part of a query after its last '&'.
  function LastPart(query: string): string {
    query[SegmentStart(query, |query|)..]
  }

  // As meant, a target with a query is undefined exactly when the last part of the query has no
  // '='; as written the query is not looked at.
  lemma SplitUndefinedIff(r: Reading, url: string)
    ensures SplitUrl(r, url).Undefined? <==>
            r == AsMeant && '?' in url && '=' !in LastPart(url[FindChar(url, '?', 0) + 1..])
  {
    var i := FindChar(url, '?', 0);
    if i < |url| {
      QueryUndefinedIff(r, url[..i], url[i + 1..]);
    }
  }

  lemma QueryUndefinedIff(r: Reading, path: string, query: string)
    ensures WithQuery(r, path, query + "&").Undefined? <==> '=' !in LastPart(query)
  {
    var last, str := SegmentStart(query, |query|), query + "&";
    SameSegment(query, str, |query|);
    InEither(query[last..], "&", '=');
    assert str[last..] == query[last..] + "&";
    PairsDefinedIff(r, str, 0, map[]);
  }

  lemma InEither(a: string, b: string, c: char)
    ensures c in a + b <==> c in a || c in b
  {
  }

  lemma {:induction false} SameSegment(a: string, b: string, n: nat)
    requires n <= |a| && n <= |b| && a[..n] == b[..n]
    ensures SegmentStart(a, n) == SegmentStart(b, n)
  {
    if n > 0 {
      assert a[n - 1] == a[..n][n - 1] && b[n - 1] == b[..n][n - 1];
      assert a[..n - 1] == a[..n][..n - 1] && b[..n - 1] == b[..n][..n - 1];
      SameSegment(a, b, n - 1);
    }
  }

  function LastDot(s: string): Option<nat>
    ensures LastDot(s).Some? ==> LastDot(s).value < |s|
  {
    if s == "" then None
    else if s[|s| - 1] == '.' then Some(|s| - 1)
    else LastDot(s[..|s| - 1])
  }

  function ResourceType(path: string): string {
    match LastDot(path)
    case None => NULLINFO
    case Some(i) => path[i + 1..]
  }

  // `t` is what follows the last dot, or the word for none.
  ghost predicate IsTypeOf(path: string, t: string) {
    if '.' in path then exists a :: path == a + "." + t && '.' !in t
    else t == "NULL"
  }

  lemma {:induction false} LastDotIs(path: string)
    ensures match LastDot(path)
            case None => '.' !in path
            case Some(i) => path[i] == '.' && '.' !in path[i + 1..]
  {
    if path != "" && path[|path| - 1] != '.' {
      var front := path[..|path| - 1];
      LastDotIs(front);
      assert path == front + [path[|path| - 1]];
      if LastDot(front).Some? {
        assert path[LastDot(front).value + 1..] == front[LastDot(front).value + 1..] + [path[|path| - 1]];
      }
    }
  }

  lemma ResourceTypeIs(path: string)
    ensures IsTypeOf(path, ResourceType(path))
  {
    LastDotIs(path);
    if LastDot(path).Some? {
      var i := LastDot(path).value;
      assert path == path[..i] + "." + path[i + 1..];
    }
  }

  // There is only one such text, so a type is the word for none exactly without a dot, or with it
  // spelled out after the last one.
  lemma TypesAreUnique(a: string, b: string)
    requires '.' !in b
    ensures ResourceType(a + "." + b) == b
  {
    var path := a + "." + b;
    ResourceTypeIs(path);
    assert path[|a|] == '.';
    var c :| path == c + "." + ResourceType(path);
    assert path[|c|] == '.';
    assert path[|a| + 1..] == b && path[|c| + 1..] == ResourceType(path);
  }

  datatype StartLine =
    | BadRequest
    | Unsupported
    | Start(verb: Method, url: string, resourceType: string, version: string, params: Option<Params>)

  function ParseStart(r: Reading, line: string): Outcome<StartLine> {
    StartOf(r, Tokens(line))
  }

  function StartOf(r: Reading, info: seq<string>): Outcome<StartLine> {
    if info == [] then Defined(BadRequest)
    else if info[0] != "GET" && info[0] != "POST" then Defined(Unsupported)
    else if |info| < 3 then Undefined
    else
      match SplitUrl(r, if info[1] == "/" then "/index.html" else info[1])
      case Undefined => Undefined
      case Defined(u) =>
        Defined(Start(if info[0] == "GET" then GET else POST, RESOURCE_ROOT + u.path,
                      ResourceType(u.path), info[2], u.params))
  }

  // What becomes of a first line depends on its tokens: none is a bad request, a first one that is
  // no method is unsupported, too few are read past the end, and those after the third are ignored.
  lemma StartOutcome(r: Reading, parts: seq<string>)
    requires forall t | t in parts :: IsToken(t)
    ensures var start := ParseStart(r, Joined(parts));
            if parts == [] then start == Defined(BadRequest)
            else if parts[0] != "GET" && parts[0] != "POST" then start == Defined(Unsupported)
            else if |parts| < 3 then start == Undefined
            else start == ParseStart(r, Joined(parts[..3]))
  {
    TokensOfJoined(parts);
    if |parts| >= 3 {
      TokensOfJoined(parts[..3]);
      ThreeTokensCount(r, parts);
    }
  }

  lemma ThreeTokensCount(r: Reading, info: seq<string>)
    requires |info| >= 3
    ensures StartOf(r, info) == StartOf(r, info[..3])
  {
  }

  lemma StartIgnoresSpaces(r: Reading, line: string)
    ensures ParseStart(r, line) == ParseStart(r, Joined(Tokens(line)))
  {
    SplittingIsIdempotent(line);
  }

  /* ---------- headers ---------- */

  const KNOWN := {"HOST", "User-Agent", "Accept", "Accept-Language", "Connection",
                  "Upgrade-Insecure-Requests", "Content_Type", "Content-Length"}

  // `fields` holds the whole line of each recognised header.
  datatype Headers = Headers(fields: map<string, string>, keep: bool)

  // The character at which a header line is cut to get its name.
  function Separator(r: Reading): char {
    match r case AsWritten => '=' case AsMeant => ':'
  }

  function HeaderLine(r: Reading, h: Headers, line: string): Outcome<Headers> {
    var i := FindChar(line, Separator(r), 0);
    if i == |line| then Undefined
    else
      var name := line[..i];
      var kept := name == "Connection" && |line| >= 13 && line[12..] == "keep-alive";
      Defined(Headers(if name in KNOWN then h.fields[name := line] else h.fields, h.keep || kept))
  }

  // Any line with the separator is recorded whole under what precedes it, if that is a name of
  // interest; keep-alive is asked for by that word after one more character.  Without the separator
  // the line overruns.
  lemma HeaderLineOf(r: Reading, h: Headers, name: string, value: string)
    requires Separator(r) !in name
    ensures HeaderLine(r, h, name) == Undefined
    ensures var line := name + [Separator(r)] + value;
            HeaderLine(r, h, line) ==
            Defined(Headers(if name in KNOWN then h.fields[name := line] else h.fields,
                            h.keep || (name == "Connection" && value != "" && value[1..] == "keep-alive")))
  {
    var line := name + [Separator(r)] + value;
    assert line[|name|] == Separator(r) && forall k | 0 <= k < |name| :: line[k] == name[k];
    FindCharIs(line, Separator(r), 0, |name|);
    FindCharIs(name, Separator(r), 0, |name|);
    assert line[..|name|] == name;
    if name == "Connection" && value != "" {
      assert line[12..] == value[1..];
    }
  }

  // One round of the header loop: another header, the empty line, or a failure.
  datatype Round = More(headers: Headers, rest: string) | Done(result: Read<Headers>)

  function HeaderRound(r: Reading, stream: string, h: Headers): (round: Round)
    ensures round.More? ==> |round.rest| < |stream|
  {
    match OneLine(stream)
    case Stopped => Done(Stopped)
    case Overrun => Done(Overrun)
    case Got(line, rest) =>
      if line == "" then Done(Got(h, rest))
      else
        match HeaderLine(r, h, line)
        case Undefined => Done(Overrun)
        case Defined(h') => More(h', rest)
  }

  function ParseHeaders(r: Reading, stream: string, h: Headers): Read<Headers>
    decreases |stream|
  {
    match HeaderRound(r, stream, h)
    case Done(result) => result
    case More(h', rest) => ParseHeaders(r, rest, h')
  }

  /* ---------- the body ---------- */

  function ContentLength(h: Headers): Read<int> {
    if "Content-Length" !in h.fields then Overrun
    else
      var line := h.fields["Content-Length"];
      var i := FindChar(line, ' ', 0);
      if i == |line| then Overrun
      else
        match Stoi(line[i + 1..])
        case None => Stopped
        case Some(n) => Got(n, "")
  }

  // The number starts after the first space of the recorded line; without one it is not found.
  lemma ContentLengthOf(h: Headers, before: string, after: string)
    requires "Content-Length" in h.fields && ' ' !in before
    ensures h.fields["Content-Length"] == before ==> ContentLength(h) == Overrun
    ensures h.fields["Content-Length"] == before + " " + after ==>
              ContentLength(h) == match Stoi(after) case None => Stopped case Some(n) => Got(n, "")
  {
    var line := before + " " + after;
    assert line[|before|] == ' ' && forall k | 0 <= k < |before| :: line[k] == before[k];
    FindCharIs(line, ' ', 0, |before|);
    FindCharIs(before, ' ', 0, |before|);
    assert line[|before| + 1..] == after;
  }

  // The loop stops only at exactly `n` bytes; its array has `n + 2` elements.
  function TakeBody(stream: string, n: int): Read<string> {
    if n > INT_MAX - 2 then Overrun
    else if n < -2 then Stopped
    else if n >= 1 then (if |stream| >= n then Got(stream[..n], stream[n..]) else Stopped)
    else if |stream| > n + 2 then Overrun
    else Stopped
  }

  function ParseBody(r: Reading, stream: string, h: Headers, params: Option<Params>): Read<Option<Params>> {
    match ContentLength(h)
    case Stopped => Stopped
    case Overrun => Overrun
    case Got(n, _) =>
      match TakeBody(stream, n)
      case Stopped => Stopped
      case Overrun => Overrun
      case Got(body, rest) =>
        match AddPairs(r, CStr(body + "&"), params)
        case Undefined => Overrun
        case Defined(p) => Got(p, rest)
  }

  // A NUL ends the body's text: at its start no pair is read, and elsewhere the pair before it must
  // have been ended by an '&' of its own.
  lemma NulEndsBody(r: Reading, h: Headers, text: string, hidden: string, rest: string, params: Option<Params>)
    requires NUL !in text && |text| + 1 + |hidden| <= INT_MAX - 2
    requires ContentLength(h) == Got(|text| + 1 + |hidden|, "")
    ensures var read := ParseBody(r, text + [NUL] + hidden + rest, h, params);
            && read == (match AddPairs(r, text, params)
                        case Undefined => Overrun
                        case Defined(p) => Got(p, rest))
            && (text == "" ==> read == Got(Some(Known(params)), rest))
            && (text != "" && text[|text| - 1] != '&' ==> read == Overrun)
  {
    var body := text + [NUL] + hidden;
    assert (body + rest)[..|body|] == body && (body + rest)[|body|..] == rest;
    CutAtNul(text, hidden);
    if text != "" && text[|text| - 1] != '&' {
      UnterminatedIsUndefined(r, text, 0, Known(params));
    }
  }

  lemma CutAtNul(text: string, hidden: string)
    requires NUL !in text
    ensures CStr(text + [NUL] + hidden + "&") == text
  {
    assert text + [NUL] + hidden + "&" == text + [NUL] + (hidden + "&");
    CStrStopsAtNul(text, hidden + "&");
    CStrWholeIff(text);
  }

  /* ---------- the request ---------- */

  datatype Request =
    | Rejected(start: StartLine)
    | Request(start: StartLine, headers: Headers, params: Option<Params>)

  function ParseFirstLine(r: Reading, stream: string): Read<StartLine> {
    match OneLine(stream)
    case Stopped => Stopped
    case Overrun => Overrun
    case Got(line, rest) =>
      match ParseStart(r, line)
      case Undefined => Overrun
      case Defined(start) => Got(start, rest)
  }

  // The request line and the headers.
  function ParseHead(r: Reading, stream: string, keep: bool): Read<Request> {
    match ParseFirstLine(r, stream)
    case Stopped => Stopped
    case Overrun => Overrun
    case Got(start, rest) =>
      if !start.Start? then Got(Rejected(start), rest)
      else
        match ParseHeaders(r, rest, Headers(map[], keep))
        case Stopped => Stopped
        case Overrun => Overrun
        case Got(h, rest') => Got(Request(start, h, start.params), rest')
  }

  // A POST whose headers give the length of a body.
  predicate AnnouncesBody(head: Read<Request>) {
    && head.Got? && head.value.Request? && head.value.start.Start? && head.value.start.verb == POST
    && ContentLength(head.value.headers).Got?
  }

  // The body of a POST, once its request line and headers are read.
  function ReadOn(r: Reading, head: Read<Request>): Read<Request> {
    match head
    case Got(Request(start, h, params), rest) =>
      if start.Start? && start.verb == POST then
        match ParseBody(r, rest, h, params)
        case Stopped => Stopped
        case Overrun => Overrun
        case Got(p, rest') => Got(Request(start, h, p), rest')
      else head
    case _ => head
  }

  // `keep` is the value `m_keepConnection` happens to have before parsing.
  function ParseRequest(r: Reading, stream: string, keep: bool): Read<Request> {
    ReadOn(r, ParseHead(r, stream, keep))
  }

  // A first line that is no request is answered as such, and everything after it stays unread.
  lemma RejectedLine(r: Reading, line: string, rest: string, keep: bool)
    requires LF !in line && NUL !in line && FitsLine(line)
    requires Tokens(line) == [] || (Tokens(line)[0] != "GET" && Tokens(line)[0] != "POST")
    ensures ParseRequest(r, line + [CR, LF] + rest, keep) ==
            Got(Rejected(if Tokens(line) == [] then BadRequest else Unsupported), rest)
  {
    OneLineOfRendered(line, rest);
  }
}

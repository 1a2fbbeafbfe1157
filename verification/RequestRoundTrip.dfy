/** Reading back a rendered request, whatever the chunks it arrives in. */
module RequestRoundTrip {
  import opened Readings
  import opened HttpText
  import opened HttpSpec
  import opened HttpData
  import Responser

  type Pair = (string, string)

  /* ---------- parameter lists ---------- */

  function RenderPairs(ps: seq<Pair>): string {
    if ps == [] then ""
    else if |ps| == 1 then ps[0].0 + "=" + ps[0].1
    else ps[0].0 + "=" + ps[0].1 + "&" + RenderPairs(ps[1..])
  }

  function Terminated(ps: seq<Pair>): string {
    if ps == [] then "" else PairText(ps[0]) + Terminated(ps[1..])
  }

  predicate GoodPair(p: Pair) {
    '=' !in p.0 && '&' !in p.0 && '&' !in p.1
  }

  function LastWins(ps: seq<Pair>, m: Params): Params {
    if ps == [] then m else LastWins(ps[1..], m[ps[0].0 := ps[0].1])
  }

  // What is left of a value under each reading of `if(end = mid)`.
  function Seen(r: Reading, ps: seq<Pair>): seq<Pair> {
    if ps == [] then [] else [(ps[0].0, if r == AsMeant then ps[0].1 else "")] + Seen(r, ps[1..])
  }

  lemma {:induction false} RenderedIsTerminated(ps: seq<Pair>)
    requires ps != []
    ensures RenderPairs(ps) + "&" == Terminated(ps)
  {
    var head := ps[0].0 + "=" + ps[0].1;
    if |ps| == 1 {
      assert Terminated(ps) == head + "&" + "";
    } else {
      RenderedIsTerminated(ps[1..]);
      assert head + "&" + RenderPairs(ps[1..]) + "&" == head + "&" + (RenderPairs(ps[1..]) + "&");
    }
  }

  function PairText(p: Pair): string {
    p.0 + "=" + p.1 + "&"
  }

  ghost predicate PairAt(str: string, from: nat, p: Pair) {
    var mid, amp := from + |p.0|, from + |p.0| + 1 + |p.1|;
    && amp < |str| && str[mid] == '=' && str[amp] == '&'
    && str[from..mid] == p.0 && str[mid + 1..amp] == p.1
  }

  lemma PairIsThere(before: string, p: Pair, after: string)
    ensures PairAt(before + PairText(p) + after, |before|, p)
  {
  }

  // The two scans of one round of the parser's loop.
  lemma PairScans(str: string, from: nat, p: Pair)
    requires GoodPair(p) && PairAt(str, from, p)
    ensures FindChar(str, '=', from) == from + |p.0| && FindChar(str, '&', from) == from + |p.0| + 1 + |p.1|
  {
  }

  lemma ParsesOnePair(r: Reading, str: string, before: string, p: Pair, after: string, m: Params)
    requires GoodPair(p) && str == before + PairText(p) + after
    ensures ParsePairs(r, str, |before|, m) ==
            ParsePairs(r, str, |before + PairText(p)|, m[p.0 := if r == AsMeant then p.1 else ""])
  {
    PairIsThere(before, p, after);
    PairIsFound(r, str, |before|, p);
    ParsesFound(r, str, |before|, Found(p.0, if r == AsMeant then p.1 else "", |before + PairText(p)|), m);
  }

  lemma ParsesFound(r: Reading, str: string, from: nat, f: Found, m: Params)
    requires from <= |str| && NextPair(r, str, from) == Some(f)
    ensures ParsePairs(r, str, from, m) == ParsePairs(r, str, f.next, m[f.key := f.value])
  {
  }

  lemma PairIsFound(r: Reading, str: string, from: nat, p: Pair)
    requires GoodPair(p) && PairAt(str, from, p)
    ensures NextPair(r, str, from) ==
            Some(Found(p.0, if r == AsMeant then p.1 else "", from + |PairText(p)|))
  {
    PairScans(str, from, p);
    ValueSeen(r, str, from + |p.0|, from + |p.0| + 1 + |p.1|);
  }

  lemma ValueSeen(r: Reading, str: string, mid: nat, amp: nat)
    requires mid < amp < |str|
    ensures PairValue(r, str, mid, amp) == if r == AsMeant then str[mid + 1..amp] else ""
  {
  }

  lemma {:induction false} ParsesTerminated(r: Reading, before: string, ps: seq<Pair>, m: Params)
    requires forall p | p in ps :: GoodPair(p)
    ensures ParsePairs(r, before + Terminated(ps), |before|, m) == Defined(LastWins(Seen(r, ps), m))
    decreases |ps|
  {
    if ps != [] {
      var p, after, str := ps[0], Terminated(ps[1..]), before + Terminated(ps);
      var seen := (p.0, if r == AsMeant then p.1 else "");
      assert str == before + PairText(p) + after;
      ParsesOnePair(r, str, before, p, after, m);
      ParsesTerminated(r, before + PairText(p), ps[1..], m[p.0 := seen.1]);
      assert Seen(r, ps)[0] == seen && Seen(r, ps)[1..] == Seen(r, ps[1..]);
    }
  }

  lemma {:induction false} LastWinsAdds(ps: seq<Pair>, m: Params)
    ensures LastWins(ps, m) == m + LastWins(ps, map[])
  {
    if ps != [] {
      var one := map[][ps[0].0 := ps[0].1];
      LastWinsAdds(ps[1..], m[ps[0].0 := ps[0].1]);
      LastWinsAdds(ps[1..], one);
      assert m[ps[0].0 := ps[0].1] + LastWins(ps[1..], map[]) == m + (one + LastWins(ps[1..], map[]));
    }
  }

  lemma {:induction false} SeenAsMeant(ps: seq<Pair>)
    ensures Seen(AsMeant, ps) == ps
  {
    if ps != [] {
      SeenAsMeant(ps[1..]);
      assert ps == [ps[0]] + ps[1..];
    }
  }

  lemma {:induction false} SeenAsWritten(ps: seq<Pair>, m: Params)
    requires forall k | k in m :: m[k] == ""
    ensures LastWins(Seen(AsWritten, ps), m).Keys == LastWins(ps, m).Keys
    ensures forall k | k in LastWins(Seen(AsWritten, ps), m) :: LastWins(Seen(AsWritten, ps), m)[k] == ""
  {
    if ps != [] {
      var blank: Params := m[ps[0].0 := ""];
      SeenAsWritten(ps[1..], blank);
      LastWinsAdds(ps[1..], blank);
      LastWinsAdds(ps[1..], m[ps[0].0 := ps[0].1]);
      assert Seen(AsWritten, ps)[1..] == Seen(AsWritten, ps[1..]);
    }
  }

  lemma ParamsParsed(r: Reading, ps: seq<Pair>, m: Params)
    requires ps != [] && forall p | p in ps :: GoodPair(p)
    ensures ParsePairs(r, RenderPairs(ps) + "&", 0, m) == Defined(m + LastWins(Seen(r, ps), map[]))
  {
    RenderedIsTerminated(ps);
    ParsesTerminated(r, "", ps, m);
    assert "" + Terminated(ps) == RenderPairs(ps) + "&";
    LastWinsAdds(Seen(r, ps), m);
  }

  // Any rendered list of pairs is parsed to its last-write-wins map; as written that is so
  // exactly when every value that wins is empty.
  lemma ParamsRoundTripIff(r: Reading, ps: seq<Pair>, m: Params)
    requires ps != [] && forall p | p in ps :: GoodPair(p)
    ensures var won := LastWins(ps, map[]);
            ParsePairs(r, RenderPairs(ps) + "&", 0, m) == Defined(m + won)
            <==> r == AsMeant || forall k | k in won :: won[k] == ""
  {
    ParamsParsed(r, ps, m);
    var won := LastWins(ps, map[]);
    if r == AsMeant {
      SeenAsMeant(ps);
    } else {
      var got := LastWins(Seen(r, ps), map[]);
      SeenAsWritten(ps, map[]);
      if forall k | k in won :: won[k] == "" {
        assert got == won;
      } else {
        var k :| k in won && won[k] != "";
        assert (m + got)[k] != (m + won)[k];
      }
    }
  }

  /* ---------- requests ---------- */

  datatype Req = Req(
    verb: Method, path: string, query: seq<Pair>, version: string,
    headers: seq<Pair>, body: seq<Pair>)

  function Word(verb: Method): string {
    match verb case GET => "GET" case POST => "POST"
  }

  function Target(q: Req): string {
    if q.query == [] then q.path else q.path + "?" + RenderPairs(q.query)
  }

  function StartText(q: Req): string {
    Joined([Word(q.verb), Target(q), q.version])
  }

  function HeaderText(h: Pair): string {
    h.0 + ": " + h.1
  }

  function HeadersText(hs: seq<Pair>): string {
    if hs == [] then "" else HeaderText(hs[0]) + [CR, LF] + HeadersText(hs[1..])
  }

  function BodyText(q: Req): string {
    if q.verb == POST then RenderPairs(q.body) else ""
  }

  function Render(q: Req): string {
    StartText(q) + [CR, LF] + (HeadersText(q.headers) + [CR, LF] + BodyText(q))
  }

  predicate Clean(s: string) {
    LF !in s && NUL !in s
  }

  // No character of `bad` occurs in the key or the value.
  predicate Avoids(p: Pair, bad: set<char>) {
    forall c | c in bad :: c !in p.0 && c !in p.1
  }

  predicate GoodHeader(h: Pair) {
    ':' !in h.0 && Avoids(h, {LF, NUL})
  }

  function FoldHeader(h: Headers, p: Pair): Headers {
    Headers(if p.0 in KNOWN then h.fields[p.0 := HeaderText(p)] else h.fields,
            h.keep || p == ("Connection", "keep-alive"))
  }

  function FoldHeaders(h: Headers, hs: seq<Pair>): Headers
    decreases |hs|
  {
    if hs == [] then h else FoldHeaders(FoldHeader(h, hs[0]), hs[1..])
  }

  predicate WellFormed(q: Req) {
    && IsToken(q.path) && '?' !in q.path && Clean(q.path)
    && IsToken(q.version) && Clean(q.version)
    && (forall p | p in q.query :: GoodPair(p) && Avoids(p, {' ', LF, NUL}))
    && (forall h | h in q.headers :: GoodHeader(h))
    && (q.verb == POST ==> forall p | p in q.body :: GoodPair(p) && Avoids(p, {NUL}))
  }

  predicate FitAll(hs: seq<Pair>) {
    forall h | h in hs :: FitsLine(HeaderText(h))
  }

  // No line is too long for the line buffer.
  predicate Fits(q: Req) {
    FitsLine(StartText(q)) && FitAll(q.headers)
  }

  // The length of the body as the program reads it from the headers.
  function AnnouncedLength(q: Req): Read<int> {
    ContentLength(FoldHeaders(Headers(map[], false), q.headers))
  }

  // What the reader can cope with, besides.  As meant, it needs of a POST that its body is not empty and
  // that its length is announced.
  predicate Recoverable(r: Reading, q: Req) {
    match r
    case AsMeant =>
      q.verb == POST ==>
        && 0 < |RenderPairs(q.body)| <= INT_MAX - 2
        && AnnouncedLength(q) == Got(|RenderPairs(q.body)|, "")
    case AsWritten =>
      q.verb == GET && q.query == [] && forall h | h in q.headers :: '=' in h.1 && h.0 !in KNOWN
  }

  // The table of parameters: those of the query, then those of the body over them.
  function ExpectedParams(q: Req): Option<Params> {
    var fromQuery := if q.query == [] then None else Some(LastWins(q.query, map[]));
    if q.verb == POST then Some(LastWins(q.body, Known(fromQuery))) else fromQuery
  }

  function ExpectedPath(q: Req): string {
    if Target(q) == "/" then "/index.html" else q.path
  }

  function ExpectedStart(q: Req): StartLine {
    Start(q.verb, "www" + ExpectedPath(q), ResourceType(ExpectedPath(q)), q.version,
          if q.query == [] then None else Some(LastWins(q.query, map[])))
  }

  function Expected(q: Req, keep: bool): Request {
    Request(ExpectedStart(q), FoldHeaders(Headers(map[], keep), q.headers), ExpectedParams(q))
  }

  lemma {:induction false} RenderedAvoids(ps: seq<Pair>, c: char)
    requires c != '=' && c != '&' && forall p | p in ps :: c !in p.0 && c !in p.1
    ensures c !in RenderPairs(ps)
  {
    if |ps| > 1 {
      RenderedAvoids(ps[1..], c);
    }
  }

  lemma TargetIsToken(q: Req)
    requires WellFormed(q)
    ensures IsToken(Target(q)) && Clean(Target(q))
  {
    if q.query != [] {
      RenderedAvoids(q.query, ' ');
      RenderedAvoids(q.query, LF);
      RenderedAvoids(q.query, NUL);
    }
  }

  lemma SplitsTarget(q: Req)
    requires WellFormed(q)
    ensures var url := if Target(q) == "/" then "/index.html" else Target(q);
            SplitUrl(AsMeant, url) == Defined(Url(ExpectedPath(q), ExpectedStart(q).params))
  {
    if q.query == [] {
      FindCharIs(ExpectedPath(q), '?', 0, |ExpectedPath(q)|);
    } else {
      var url, i := Target(q), |q.path|;
      assert url == q.path + "?" + RenderPairs(q.query) && url[i] == '?';
      assert forall k | 0 <= k < i :: url[k] == q.path[k];
      FindCharIs(url, '?', 0, i);
      assert url[..i] == q.path && url[i + 1..] == RenderPairs(q.query);
      ParamsRoundTripIff(AsMeant, q.query, map[]);
      assert map[] + LastWins(q.query, map[]) == LastWins(q.query, map[]);
    }
  }

  lemma StartTextIs(q: Req)
    ensures StartText(q) == Word(q.verb) + " " + (Target(q) + " " + q.version)
  {
    var parts := [Word(q.verb), Target(q), q.version];
    assert parts[1..] == [Target(q), q.version] && parts[1..][1..] == [q.version];
    assert Joined([Target(q), q.version]) == Target(q) + " " + q.version;
  }

  lemma StartIsClean(q: Req)
    requires WellFormed(q)
    ensures Clean(StartText(q))
  {
    TargetIsToken(q);
    StartTextIs(q);
  }

  lemma StartRoundTrip(q: Req)
    requires WellFormed(q)
    ensures ParseStart(AsMeant, StartText(q)) == Defined(ExpectedStart(q))
    ensures IsTypeOf(ExpectedPath(q), ExpectedStart(q).resourceType)
  {
    ResourceTypeIs(ExpectedPath(q));
    TargetIsToken(q);
    var parts := [Word(q.verb), Target(q), q.version];
    assert forall t | t in parts :: IsToken(t);
    TokensOfJoined(parts);
    SplitsTarget(q);
  }

  lemma HeaderIsClean(p: Pair)
    requires GoodHeader(p)
    ensures Clean(HeaderText(p))
  {
  }

  lemma HeaderRoundTrip(h: Headers, p: Pair)
    requires GoodHeader(p)
    ensures HeaderLine(AsMeant, h, HeaderText(p)) == Defined(FoldHeader(h, p))
  {
    var line := HeaderText(p);
    assert line[|p.0|] == ':';
    FindCharIs(line, ':', 0, |p.0|);
    assert line[..|p.0|] == p.0;
    if p.0 == "Connection" {
      assert line[12..] == p.1;
    }
  }

  lemma {:induction false} HeadersRoundTrip(hs: seq<Pair>, rest: string, h: Headers)
    requires forall p | p in hs :: GoodHeader(p)
    ensures ParseHeaders(AsMeant, HeadersText(hs) + [CR, LF] + rest, h) ==
            if FitAll(hs) then Got(FoldHeaders(h, hs), rest) else Overrun
    decreases |hs|
  {
    var stream := HeadersText(hs) + [CR, LF] + rest;
    if hs == [] {
      OneLineOfRendered("", rest);
      assert stream == "" + [CR, LF] + rest;
    } else {
      var line, after := HeaderText(hs[0]), HeadersText(hs[1..]) + [CR, LF] + rest;
      assert stream == line + [CR, LF] + after;
      assert hs[0] in hs && hs == [hs[0]] + hs[1..];
      HeaderIsClean(hs[0]);
      OneLineOfRendered(line, after);
      HeaderRoundTrip(h, hs[0]);
      HeadersRoundTrip(hs[1..], rest, FoldHeader(h, hs[0]));
    }
  }

  lemma {:induction false} FieldsIgnoreKeep(hs: seq<Pair>, h: Headers, keep: bool)
    ensures FoldHeaders(h.(keep := keep), hs).fields == FoldHeaders(h, hs).fields
    decreases |hs|
  {
    if hs != [] {
      var k := keep || hs[0] == ("Connection", "keep-alive");
      FieldsIgnoreKeep(hs[1..], FoldHeader(h, hs[0]), k);
    }
  }

  // The keep-alive flag is the one asked for exactly when the uninitialised member
  // did not happen to be set already.
  lemma {:induction false} KeepFlag(hs: seq<Pair>, h: Headers)
    ensures FoldHeaders(h, hs).keep <==> h.keep || ("Connection", "keep-alive") in hs
    decreases |hs|
  {
    if hs != [] {
      KeepFlag(hs[1..], FoldHeader(h, hs[0]));
    }
  }

  // The usual header announces its number.
  lemma LengthRoundTrip(h: Headers, n: nat)
    requires n <= INT_MAX && "Content-Length" in h.fields
    requires h.fields["Content-Length"] == HeaderText(("Content-Length", Decimal(n)))
    ensures ContentLength(h) == Got(n, "")
  {
    var line := h.fields["Content-Length"];
    assert line[15] == ' ' && line[16..] == Decimal(n);
    FindCharIs(line, ' ', 0, 15);
    StoiOfDecimal(n);
  }

  lemma BodyParsed(q: Req, h: Headers, params: Option<Params>, rest: string)
    requires WellFormed(q) && q.verb == POST && Recoverable(AsMeant, q) && ContentLength(h) == AnnouncedLength(q)
    ensures ParseBody(AsMeant, RenderPairs(q.body) + rest, h, params) ==
            Got(Some(LastWins(q.body, Known(params))), rest)
  {
    var body := RenderPairs(q.body);
    assert (body + rest)[..|body|] == body && (body + rest)[|body|..] == rest;
    RenderedAvoids(q.body, NUL);
    CStrWholeIff(body + "&");
    ParamsRoundTripIff(AsMeant, q.body, Known(params));
    LastWinsAdds(q.body, Known(params));
  }

  // A rendered body adds exactly its pairs and leaves exactly the rest, if and only if it is
  // not empty and has the announced length.
  lemma BodyRoundTripIff(q: Req, h: Headers, params: Option<Params>, rest: string)
    requires WellFormed(q) && q.verb == POST && ContentLength(h) == AnnouncedLength(q)
    ensures (ParseBody(AsMeant, RenderPairs(q.body) + rest, h, params) ==
             Got(Some(LastWins(q.body, Known(params))), rest)) <==> Recoverable(AsMeant, q)
  {
    if Recoverable(AsMeant, q) {
      BodyParsed(q, h, params, rest);
    } else if ContentLength(h).Got? {
      var n, stream := ContentLength(h).value, RenderPairs(q.body) + rest;
      if 0 < n <= INT_MAX - 2 && |stream| >= n {
        assert |stream[n..]| != |rest|;
      }
    }
  }

  lemma FieldsAnnounce(q: Req, keep: bool)
    ensures ContentLength(FoldHeaders(Headers(map[], keep), q.headers)) == AnnouncedLength(q)
  {
    FieldsIgnoreKeep(q.headers, Headers(map[], false), keep);
  }

  lemma HeadIsRecovered(q: Req, tail: string, keep: bool)
    requires WellFormed(q)
    ensures ParseHead(AsMeant, StartText(q) + [CR, LF] + (HeadersText(q.headers) + [CR, LF] + tail), keep) ==
            if Fits(q)
            then Got(Request(ExpectedStart(q), FoldHeaders(Headers(map[], keep), q.headers),
                             ExpectedStart(q).params), tail)
            else Overrun
  {
    var afterStart := HeadersText(q.headers) + [CR, LF] + tail;
    StartIsClean(q);
    OneLineOfRendered(StartText(q), afterStart);
    StartRoundTrip(q);
    HeadersRoundTrip(q.headers, tail, Headers(map[], keep));
  }

  lemma RequestSplits(a: string, n: string, b: string, c: string, d: string)
    ensures a + n + (b + n + c) + d == a + n + (b + n + (c + d))
  {
  }

  // A request with a line that is too long overruns the line buffer, whatever it asks for.
  lemma LongLinesOverrun(q: Req, rest: string, keep: bool)
    requires WellFormed(q) && !Fits(q)
    ensures ParseRequest(AsMeant, Render(q) + rest, keep) == Overrun
  {
    RequestSplits(StartText(q), [CR, LF], HeadersText(q.headers), BodyText(q), rest);
    HeadIsRecovered(q, BodyText(q) + rest, keep);
  }

  // What becomes of any other rendered POST depends on its body only.
  lemma PostOutcome(q: Req, rest: string, keep: bool)
    requires WellFormed(q) && Fits(q) && q.verb == POST
    ensures var h := FoldHeaders(Headers(map[], keep), q.headers);
            ParseRequest(AsMeant, Render(q) + rest, keep) ==
            match ParseBody(AsMeant, RenderPairs(q.body) + rest, h, ExpectedStart(q).params)
            case Stopped => Stopped
            case Overrun => Overrun
            case Got(p, rest') => Got(Request(ExpectedStart(q), h, p), rest')
  {
    RequestSplits(StartText(q), [CR, LF], HeadersText(q.headers), RenderPairs(q.body), rest);
    HeadIsRecovered(q, RenderPairs(q.body) + rest, keep);
  }

  // A well-formed request is recovered whole, and exactly the bytes after it stay unread, if and
  // only if its lines fit, and it is a GET, or a POST with a body that is not empty and has the
  // announced length.
  lemma RequestRecoveredIff(q: Req, rest: string, keep: bool)
    requires WellFormed(q)
    ensures ParseRequest(AsMeant, Render(q) + rest, keep) == Got(Expected(q, keep), rest) <==>
            Fits(q) && Recoverable(AsMeant, q)
  {
    if !Fits(q) {
      LongLinesOverrun(q, rest, keep);
    } else if q.verb == POST {
      PostOutcome(q, rest, keep);
      FieldsAnnounce(q, keep);
      BodyRoundTripIff(q, FoldHeaders(Headers(map[], keep), q.headers), ExpectedStart(q).params, rest);
    } else {
      RequestSplits(StartText(q), [CR, LF], HeadersText(q.headers), "", rest);
      assert "" + rest == rest;
      HeadIsRecovered(q, rest, keep);
    }
  }

  // How the other POSTs fail, if their lines fit: an empty body with its length is read on until the stream ends or
  // its array overruns; a missing length is looked up in vain; too large a one reads to the end.
  lemma UnrecoverablePosts(q: Req, rest: string, keep: bool)
    requires WellFormed(q) && q.verb == POST
    ensures var result, length := ParseRequest(AsMeant, Render(q) + rest, keep), AnnouncedLength(q);
            if !Fits(q) then result == Overrun else
            && (q.body == [] && length == Got(0, "") ==> result == if |rest| > 2 then Overrun else Stopped)
            && (length == Overrun ==> result == Overrun)
            && (length == Stopped ==> result == Stopped)
            && (length.Got? && |RenderPairs(q.body) + rest| < length.value <= INT_MAX - 2 ==> result == Stopped)
            && (length.Got? && length.value > INT_MAX - 2 ==> result == Overrun)
            && (length.Got? && length.value < -2 ==> result == Stopped)
            && (length.Got? && -2 <= length.value <= 0 ==>
                  result == if |RenderPairs(q.body) + rest| > length.value + 2 then Overrun else Stopped)
    ensures "Content-Length" !in FoldHeaders(Headers(map[], keep), q.headers).fields ==>
              AnnouncedLength(q) == Overrun
  {
    FieldsAnnounce(q, keep);
    if !Fits(q) {
      LongLinesOverrun(q, rest, keep);
    } else {
      PostOutcome(q, rest, keep);
      assert q.body == [] ==> RenderPairs(q.body) + rest == rest;
    }
  }

  // The pairs that a request carries, in the order in which they are read.
  function Carried(q: Req): seq<Pair> {
    if q.verb == POST then q.query + q.body else q.query
  }

  lemma ExpectedIsCarried(q: Req)
    ensures ExpectedParams(q).Some? <==> q.verb == POST || q.query != []
    ensures Known(ExpectedParams(q)) == LastWins(Carried(q), map[])
  {
    LastWinsOfConcat(q.query, q.body, map[]);
    assert q.query == [] ==> q.query + q.body == q.body;
  }

  lemma {:induction false} LastWinsKeepsKeys(ps: seq<Pair>, m: Params)
    ensures m.Keys <= LastWins(ps, m).Keys && forall p | p in ps :: p.0 in LastWins(ps, m)
  {
    if ps != [] {
      LastWinsKeepsKeys(ps[1..], m[ps[0].0 := ps[0].1]);
    }
  }

  // A CGI child runs for a recovered request exactly when that is a POST or has a query; any other
  // is refused.
  lemma ChildRunsIff(q: Req, rest: string, keep: bool, written: seq<string>, counted: seq<string>)
    requires WellFormed(q) && Fits(q) && Recoverable(AsMeant, q)
    ensures var read := ParseRequest(AsMeant, Render(q) + rest, keep);
            && read.Got? && read.value.Request?
            && var answer := Responser.Cgi(read.value.params, written, counted);
               && answer.Defined?
               && (answer.value.Ran? <==> q.verb == POST || q.query != [])
  {
    RequestRecoveredIff(q, rest, keep);
    Responser.CgiRunsIff(ExpectedParams(q), written, counted);
    ExpectedIsCarried(q);
    LastWinsKeepsKeys(Carried(q), map[]);
    if q.verb == POST || q.query != [] {
      var p := Carried(q)[0];
      assert p in Carried(q) && p.0 in LastWins(Carried(q), map[]);
    }
  }

  // From the wire to the CGI child: if one runs, and its line format can carry the text, it decodes
  // the table that the client sent exactly when no value that wins is spelled like the marker for
  // an empty one.
  lemma ChildSeesIff(q: Req, rest: string, keep: bool, written: seq<string>, counted: seq<string>)
    requires WellFormed(q) && Fits(q) && Recoverable(AsMeant, q) && (q.verb == POST || q.query != [])
    requires var sent := LastWins(Carried(q), map[]);
             Responser.AreOrders(Some(sent), written, counted) && forall k | k in sent :: Responser.Plain(sent, k)
    ensures var read, sent := ParseRequest(AsMeant, Render(q) + rest, keep), LastWins(Carried(q), map[]);
            && read.Got? && read.value.Request?
            && var answer := Responser.Cgi(read.value.params, written, counted);
               && answer.Defined? && answer.value.Ran?
               && (Responser.Decode(answer.value.pipe, map[]) == sent <==> forall k | k in sent :: sent[k] != NULLINFO)
  {
    RequestRecoveredIff(q, rest, keep);
    ChildRunsIff(q, rest, keep, written, counted);
    ExpectedIsCarried(q);
    Responser.ChildIsTold(ExpectedParams(q), written, counted);
  }

  lemma {:induction false} LastWinsOfConcat(a: seq<Pair>, b: seq<Pair>, m: Params)
    ensures LastWins(a + b, m) == LastWins(b, LastWins(a, m))
    decreases |a|
  {
    if a == [] {
      assert a + b == b;
    } else {
      assert (a + b)[1..] == a[1..] + b;
      LastWinsOfConcat(a[1..], b, m[a[0].0 := a[0].1]);
    }
  }

  /* ---------- the program as written ---------- */

  // As written the query is never split off: the target is handled right exactly when it has no '?'.
  lemma QuerySplitIff(r: Reading, url: string)
    ensures SplitUrl(r, url) == SplitUrl(AsMeant, url) <==> r == AsMeant || '?' !in url
  {
  }

  // As written a header is cut at '=', which no header name contains (section 3.2.6 of RFC 7230):
  // without a '=' in its value it overruns the line, and otherwise it is ignored.
  lemma HeaderAsWritten(h: Headers, p: Pair)
    requires GoodHeader(p) && '=' !in p.0
    ensures HeaderLine(AsWritten, h, HeaderText(p)) == if '=' in p.1 then Defined(h) else Undefined
  {
    var line := HeaderText(p);
    var i := FindChar(line, '=', 0);
    assert forall k | 0 <= k < |p.0| :: line[k] == p.0[k];
    assert line[|p.0|] == ':' && line[|p.0| + 1] == ' ';
    if '=' in p.1 {
      var k :| 0 <= k < |p.1| && p.1[k] == '=';
      assert line[|p.0| + 2 + k] == '=';
      assert line[..i][|p.0|] == ':';
      assert forall name | name in KNOWN :: ':' !in name;
    } else {
      assert forall k | |p.0| + 2 <= k < |line| :: line[k] == p.1[k - |p.0| - 2];
    }
  }

  // So it is handled right exactly when its value happens to hold a '=' and there is nothing to
  // do: the header is of no interest, or the very same line was recorded before.
  lemma HeaderAsWrittenIff(h: Headers, p: Pair)
    requires GoodHeader(p) && '=' !in p.0
    ensures HeaderLine(AsWritten, h, HeaderText(p)) == Defined(FoldHeader(h, p)) <==>
            '=' in p.1 && (p.0 !in KNOWN || (p.0 in h.fields && h.fields[p.0] == HeaderText(p)))
  {
    HeaderAsWritten(h, p);
    if '=' in p.1 {
      assert p.1 != "keep-alive";
      assert p.0 in h.fields && h.fields[p.0] == HeaderText(p) ==> h.fields[p.0 := HeaderText(p)] == h.fields;
    }
  }

  lemma {:induction false} HeadersAsWritten(hs: seq<Pair>, rest: string, h: Headers)
    requires forall p | p in hs :: GoodHeader(p) && '=' !in p.0
    ensures ParseHeaders(AsWritten, HeadersText(hs) + [CR, LF] + rest, h) ==
            if FitAll(hs) && forall p | p in hs :: '=' in p.1 then Got(h, rest) else Overrun
    decreases |hs|
  {
    var stream := HeadersText(hs) + [CR, LF] + rest;
    if hs == [] {
      OneLineOfRendered("", rest);
      assert stream == "" + [CR, LF] + rest;
    } else {
      var line, after := HeaderText(hs[0]), HeadersText(hs[1..]) + [CR, LF] + rest;
      assert stream == line + [CR, LF] + after;
      assert hs[0] in hs && hs == [hs[0]] + hs[1..];
      HeaderIsClean(hs[0]);
      OneLineOfRendered(line, after);
      HeaderAsWritten(h, hs[0]);
      HeadersAsWritten(hs[1..], rest, h);
    }
  }

  lemma {:induction false} FoldRecords(hs: seq<Pair>, h: Headers)
    ensures forall name :: name in FoldHeaders(h, hs).fields <==>
              name in h.fields || (name in KNOWN && exists p :: p in hs && p.0 == name)
    decreases |hs|
  {
    if hs != [] {
      FoldRecords(hs[1..], FoldHeader(h, hs[0]));
      assert hs == [hs[0]] + hs[1..];
    }
  }

  lemma NothingRecordedIff(hs: seq<Pair>, keep: bool)
    requires forall p | p in hs :: '=' in p.1
    ensures FoldHeaders(Headers(map[], keep), hs) == Headers(map[], keep) <==> forall p | p in hs :: p.0 !in KNOWN
  {
    var h := FoldHeaders(Headers(map[], keep), hs);
    FoldRecords(hs, Headers(map[], keep));
    KeepFlag(hs, Headers(map[], keep));
    if p :| p in hs && p.0 in KNOWN {
      assert p.0 in h.fields;
    } else {
      assert h.fields == map[];
    }
  }

  // The request line as written: the query stays part of the path.
  function WrittenStart(q: Req): StartLine {
    var path := if Target(q) == "/" then "/index.html" else Target(q);
    Start(q.verb, "www" + path, ResourceType(path), q.version, None)
  }

  lemma StartAsWritten(q: Req)
    requires WellFormed(q)
    ensures ParseStart(AsWritten, StartText(q)) == Defined(WrittenStart(q))
    ensures WrittenStart(q) == ExpectedStart(q) <==> q.query == []
  {
    TargetIsToken(q);
    var parts := [Word(q.verb), Target(q), q.version];
    assert forall t | t in parts :: IsToken(t);
    TokensOfJoined(parts);
  }

  // Its type is that of the undivided target.
  lemma TypeAsWritten(q: Req)
    ensures IsTypeOf(if Target(q) == "/" then "/index.html" else Target(q), WrittenStart(q).resourceType)
  {
    ResourceTypeIs(if Target(q) == "/" then "/index.html" else Target(q));
  }

  lemma HeadAsWritten(q: Req, tail: string, keep: bool)
    requires WellFormed(q) && forall h | h in q.headers :: '=' !in h.0
    ensures ParseHead(AsWritten, StartText(q) + [CR, LF] + (HeadersText(q.headers) + [CR, LF] + tail), keep) ==
            if Fits(q) && forall h | h in q.headers :: '=' in h.1
            then Got(Request(WrittenStart(q), Headers(map[], keep), None), tail) else Overrun
  {
    StartIsClean(q);
    OneLineOfRendered(StartText(q), HeadersText(q.headers) + [CR, LF] + tail);
    StartAsWritten(q);
    HeadersAsWritten(q.headers, tail, Headers(map[], keep));
  }

  // As written, a well-formed request overruns if it is a POST, or has a header without '=' or a
  // line that is too long;
  // any other is read with an undivided target and without its headers.
  lemma RequestAsWritten(q: Req, rest: string, keep: bool)
    requires WellFormed(q) && forall h | h in q.headers :: '=' !in h.0
    ensures ParseRequest(AsWritten, Render(q) + rest, keep) ==
            if q.verb == GET && Fits(q) && forall h | h in q.headers :: '=' in h.1
            then Got(Request(WrittenStart(q), Headers(map[], keep), None), rest) else Overrun
    ensures !AnnouncesBody(ParseHead(AsWritten, Render(q) + rest, keep))
  {
    RequestSplits(StartText(q), [CR, LF], HeadersText(q.headers), BodyText(q), rest);
    HeadAsWritten(q, BodyText(q) + rest, keep);
    assert q.verb == GET ==> BodyText(q) + rest == rest;
  }

  // So a CGI program is refused to every rendered request that is read as written.
  lemma RefusedAsWritten(q: Req, rest: string, keep: bool, written: seq<string>, counted: seq<string>)
    requires WellFormed(q) && forall h | h in q.headers :: '=' !in h.0
    ensures var read := ParseRequest(AsWritten, Render(q) + rest, keep);
            read.Got? ==> read.value.Request? &&
                          Responser.Cgi(read.value.params, written, counted) == Defined(Responser.Forbidden)
  {
    RequestAsWritten(q, rest, keep);
  }

  // So it is recovered if and only if its lines fit and it is a GET without a query whose headers
  // are all of no interest and all hold a '='.
  lemma RequestAsWrittenIff(q: Req, rest: string, keep: bool)
    requires WellFormed(q) && forall h | h in q.headers :: '=' !in h.0
    ensures ParseRequest(AsWritten, Render(q) + rest, keep) == Got(Expected(q, keep), rest) <==>
            Fits(q) && Recoverable(AsWritten, q)
  {
    RequestAsWritten(q, rest, keep);
    StartAsWritten(q);
    if forall h | h in q.headers :: '=' in h.1 {
      NothingRecordedIff(q.headers, keep);
    }
  }

  // Exactly the requests that are not rejected have a start line.
  predicate StartsRight(result: Read<Request>) {
    result.Got? ==> (result.value.start.Start? <==> result.value.Request?)
  }

  lemma StartsOfHeads(r: Reading, stream: string, keep: bool)
    ensures StartsRight(ParseHead(r, stream, keep))
  {
  }

  lemma BodiesKeepStarts(r: Reading, head: Read<Request>)
    requires StartsRight(head)
    ensures StartsRight(ReadOn(r, head))
  {
  }

  lemma StartsOfRequests(r: Reading, stream: string, keep: bool)
    ensures StartsRight(ParseRequest(r, stream, keep))
  {
    StartsOfHeads(r, stream, keep);
    BodiesKeepStarts(r, ParseHead(r, stream, keep));
  }

  // A reader's answer is the pure parse's, unless a body is announced and cannot be read as written.
  method Parse(r: Reading, chunks: seq<string>, keep: bool, ghost spec: Read<Request>)
      returns (reader: Reader, status: Status)
    requires forall i | 0 <= i < |chunks| :: 0 < |chunks[i]| <= HTTPDATA_BUFFERSIZE
    requires r == AsMeant || !AnnouncesBody(ParseHead(r, Flatten(chunks), keep))
    requires spec == ParseRequest(r, Flatten(chunks), keep)
    ensures fresh(reader) && reader.Valid() && reader.Agrees(spec, status)
  {
    reader := new Reader(r, chunks, keep);
    status := reader.ParseData();
  }

  /* ---------- the one dependence on chunks, as written ---------- */

  // A header line that the program as written can get through, spelled in any way.
  predicate WrittenLine(line: string) {
    Clean(line) && FitsLine(line) && '=' in line
  }

  function LinesText(lines: seq<string>): string {
    if lines == [] then "" else lines[0] + [CR, LF] + LinesText(lines[1..])
  }

  function Recorded(h: Headers, line: string): Headers
    requires '=' in line
  {
    assert FindChar(line, '=', 0) < |line|;
    HeaderLine(AsWritten, h, line).value
  }

  // What it records of them.
  function FoldLines(h: Headers, lines: seq<string>): Headers
    requires forall line | line in lines :: WrittenLine(line)
    decreases |lines|
  {
    if lines == [] then h
    else
      assert lines[0] in lines && WrittenLine(lines[0]);
      FoldLines(Recorded(h, lines[0]), lines[1..])
  }

  lemma {:induction false} LinesAsWritten(lines: seq<string>, rest: string, h: Headers)
    requires forall line | line in lines :: WrittenLine(line)
    ensures ParseHeaders(AsWritten, LinesText(lines) + [CR, LF] + rest, h) == Got(FoldLines(h, lines), rest)
    decreases |lines|
  {
    var stream := LinesText(lines) + [CR, LF] + rest;
    if lines == [] {
      OneLineOfRendered("", rest);
      assert stream == "" + [CR, LF] + rest;
    } else {
      var line, after := lines[0], LinesText(lines[1..]) + [CR, LF] + rest;
      assert stream == line + [CR, LF] + after;
      assert WrittenLine(line) by { assert line in lines; }
      OneLineOfRendered(line, after);
      LinesAsWritten(lines[1..], rest, Recorded(h, line));
    }
  }

  // Any POST whose lines it can get through and in which it finds the length of the body.
  predicate WrittenPost(q: Req, lines: seq<string>, keep: bool) {
    && WellFormed(q) && q.verb == POST && FitsLine(StartText(q))
    && (forall line | line in lines :: WrittenLine(line))
    && 0 < |RenderPairs(q.body)| <= INT_MAX - 2
    && ContentLength(FoldLines(Headers(map[], keep), lines)) == Got(|RenderPairs(q.body)|, "")
  }

  // Such a POST, up to its body.
  function WrittenHead(q: Req, lines: seq<string>): string {
    StartText(q) + [CR, LF] + (LinesText(lines) + [CR, LF])
  }

  // What the program as written can make of it: every value is lost.
  function WrittenRequest(q: Req, lines: seq<string>, keep: bool): Request
    requires WrittenPost(q, lines, keep)
  {
    Request(WrittenStart(q), FoldLines(Headers(map[], keep), lines),
            Some(LastWins(Seen(AsWritten, q.body), map[])))
  }

  lemma WrittenHeadParsed(q: Req, lines: seq<string>, tail: string, keep: bool)
    requires WrittenPost(q, lines, keep)
    ensures ParseHead(AsWritten, WrittenHead(q, lines) + tail, keep) ==
            Got(Request(WrittenStart(q), FoldLines(Headers(map[], keep), lines), None), tail)
  {
    var afterStart := LinesText(lines) + [CR, LF] + tail;
    assert WrittenHead(q, lines) + tail == StartText(q) + [CR, LF] + afterStart;
    StartIsClean(q);
    OneLineOfRendered(StartText(q), afterStart);
    StartAsWritten(q);
    LinesAsWritten(lines, tail, Headers(map[], keep));
  }

  lemma WrittenBodyParsed(q: Req, h: Headers, rest: string)
    requires WellFormed(q) && q.verb == POST && 0 < |RenderPairs(q.body)| <= INT_MAX - 2
    requires ContentLength(h) == Got(|RenderPairs(q.body)|, "")
    ensures ParseBody(AsWritten, RenderPairs(q.body) + rest, h, None) ==
            Got(Some(LastWins(Seen(AsWritten, q.body), map[])), rest)
  {
    var body := RenderPairs(q.body);
    SplitAt(body + rest, body, rest);
    RenderedAvoids(q.body, NUL);
    CStrWholeIff(body + "&");
    ParamsParsed(AsWritten, q.body, map[]);
    assert map[] + LastWins(Seen(AsWritten, q.body), map[]) == LastWins(Seen(AsWritten, q.body), map[]);
  }

  lemma WrittenPostParsed(q: Req, lines: seq<string>, rest: string, keep: bool)
    requires WrittenPost(q, lines, keep)
    ensures var head := ParseHead(AsWritten, WrittenHead(q, lines) + (RenderPairs(q.body) + rest), keep);
            && AnnouncesBody(head) && ContentLength(head.value.headers).value > 0
            && head.rest == RenderPairs(q.body) + rest
            && ReadOn(AsWritten, head) == Got(WrittenRequest(q, lines, keep), rest)
  {
    WrittenHeadParsed(q, lines, RenderPairs(q.body) + rest, keep);
    WrittenBodyParsed(q, FoldLines(Headers(map[], keep), lines), rest);
  }

  // As written, such a POST is read, and read alike however it is cut, if and only if no chunk
  // begins with its body; otherwise the body is taken from uninitialised memory.
  method ReceiveWritten(ghost q: Req, ghost lines: seq<string>, ghost rest: string, chunks: seq<string>, keep: bool)
      returns (reader: Reader, status: Status)
    requires WrittenPost(q, lines, keep)
    requires Flatten(chunks) == WrittenHead(q, lines) + (RenderPairs(q.body) + rest)
    requires forall i | 0 <= i < |chunks| :: 0 < |chunks[i]| <= HTTPDATA_BUFFERSIZE
    ensures fresh(reader) && reader.Valid()
    ensures if CutBefore(chunks, |RenderPairs(q.body) + rest|) then status == Broken
            else reader.Agrees(Got(WrittenRequest(q, lines, keep), rest), status)
  {
    WrittenPostParsed(q, lines, rest, keep);
    reader := new Reader(AsWritten, chunks, keep);
    status := reader.ParseData();
  }

  // A child does run for such a POST; it is told the names of the parameters and no value.
  lemma WrittenPostReachesChild(
      q: Req, lines: seq<string>, keep: bool, written: seq<string>, counted: seq<string>)
    requires WrittenPost(q, lines, keep)
    ensures Responser.Cgi(WrittenRequest(q, lines, keep).params, written, counted).Defined?
    ensures Responser.Cgi(WrittenRequest(q, lines, keep).params, written, counted).value.Ran?
    ensures var told := Known(WrittenRequest(q, lines, keep).params);
            told.Keys == LastWins(q.body, map[]).Keys && forall k | k in told :: told[k] == ""
  {
    SeenAsWritten(q.body, map[]);
    LastWinsKeepsKeys(q.body, map[]);
    assert q.body[0] in q.body && q.body[0].0 in LastWins(q.body, map[]).Keys;
    Responser.CgiRunsIff(WrittenRequest(q, lines, keep).params, written, counted);
  }

  lemma OneChunkOrTwo(head: string, body: string)
    requires head != "" && body != ""
    ensures Flatten([head + body]) == head + body && !CutBefore([head + body], |body|)
    ensures Flatten([head, body]) == head + body && CutBefore([head, body], |body|)
  {
    var one, two := [head + body], [head, body];
    assert one[1..] == [] && one[0..] == one && two[1..] == [body] && [body][1..] == [];
    assert Flatten(one) == head + body && Flatten(two[1..]) == body;
  }

  // Any one of them that fits into a chunk, received whole and with its body in a chunk of its own.
  method SameRequestCutInTwo(q: Req, lines: seq<string>, keep: bool) returns (whole: Status, cut: Status)
    requires WrittenPost(q, lines, keep)
    requires |WrittenHead(q, lines) + RenderPairs(q.body)| <= HTTPDATA_BUFFERSIZE
    ensures whole == Ok && cut == Broken
  {
    var head, body := WrittenHead(q, lines), RenderPairs(q.body);
    assert body + "" == body;
    OneChunkOrTwo(head, body);
    var reader;
    reader, whole := ReceiveWritten(q, lines, "", [head + body], keep);
    reader, cut := ReceiveWritten(q, lines, "", [head, body], keep);
  }

  // One spelling of the length that is found: a '=' for the ':', and anything up to the space.
  function LengthLine(gap: string, n: nat): string {
    "Content-Length=" + gap + " " + Decimal(n)
  }

  lemma LengthLineRecorded(gap: string, n: nat, keep: bool)
    ensures HeaderLine(AsWritten, Headers(map[], keep), LengthLine(gap, n)) ==
            Defined(Headers(map["Content-Length" := LengthLine(gap, n)], keep))
  {
    var line := LengthLine(gap, n);
    assert line[..14] == "Content-Length" && line[14] == '=';
    FindCharIs(line, '=', 0, 14);
  }

  lemma LengthLineAnnounces(gap: string, n: nat, keep: bool)
    requires n <= INT_MAX && ' ' !in gap
    ensures ContentLength(Headers(map["Content-Length" := LengthLine(gap, n)], keep)) == Got(n, "")
  {
    var line, i := LengthLine(gap, n), 15 + |gap|;
    assert line[i] == ' ' && line[i + 1..] == Decimal(n);
    assert forall k | 0 <= k < i :: line[k] == ("Content-Length=" + gap)[k];
    FindCharIs(line, ' ', 0, i);
    StoiOfDecimal(n);
  }

  lemma LengthLineFits(gap: string, n: nat)
    requires n <= INT_MAX && Clean(gap) && |gap| <= LINE_BUFFERSIZE - 28
    ensures WrittenLine(LengthLine(gap, n))
  {
    assert Power10(10) == 10000000000 by {
      assert Power10(5) == 100000;
    }
    DecimalIsShort(n, 10, n + 1);
    assert LengthLine(gap, n)[14] == '=';
  }

  lemma LengthLineWorks(q: Req, gap: string, keep: bool)
    requires WellFormed(q) && q.verb == POST && FitsLine(StartText(q))
    requires 0 < |RenderPairs(q.body)| <= INT_MAX - 2
    requires ' ' !in gap && Clean(gap) && |gap| <= LINE_BUFFERSIZE - 28
    ensures WrittenPost(q, [LengthLine(gap, |RenderPairs(q.body)|)], keep)
  {
    var line := LengthLine(gap, |RenderPairs(q.body)|);
    LengthLineFits(gap, |RenderPairs(q.body)|);
    LengthLineRecorded(gap, |RenderPairs(q.body)|, keep);
    LengthLineAnnounces(gap, |RenderPairs(q.body)|, keep);
    assert [line][1..] == [];
    assert FoldLines(Headers(map[], keep), [line]) == Headers(map["Content-Length" := line], keep);
  }

  lemma ThereIsSuchARequest(keep: bool)
    ensures var q, lines := Req(POST, "/p", [], "v", [], [("k", "x")]), ["Content-Length= 3"];
            WrittenPost(q, lines, keep) && |WrittenHead(q, lines) + RenderPairs(q.body)| <= HTTPDATA_BUFFERSIZE
  {
    var q := Req(POST, "/p", [], "v", [], [("k", "x")]);
    StartTextIs(q);
    assert LengthLine("", 3) == "Content-Length= 3";
    LengthLineWorks(q, "", keep);
    assert ["Content-Length= 3"][1..] == [];
  }

  /* ---------- the whole claim ---------- */

  // On the object, for either reading and for any chunks the request arrives in.
  method Receive(r: Reading, q: Req, rest: string, chunks: seq<string>, keep: bool)
      returns (reader: Reader, status: Status)
    requires WellFormed(q) && (r == AsWritten ==> forall h | h in q.headers :: '=' !in h.0)
    requires Flatten(chunks) == Render(q) + rest
    requires forall i | 0 <= i < |chunks| :: 0 < |chunks[i]| <= HTTPDATA_BUFFERSIZE
    ensures fresh(reader) && reader.Valid()
    ensures (status == Ok && reader.Unread() == rest &&
             Request(reader.start, reader.headers, reader.clientParamData) == Expected(q, keep)) <==>
            Fits(q) && Recoverable(r, q)
  {
    match r {
      case AsMeant => RequestRecoveredIff(q, rest, keep);
      case AsWritten =>
        RequestAsWritten(q, rest, keep);
        RequestAsWrittenIff(q, rest, keep);
    }
    ghost var spec := ParseRequest(r, Render(q) + rest, keep);
    StartsOfRequests(r, Render(q) + rest, keep);
    reader, status := Parse(r, chunks, keep, spec);
  }
}

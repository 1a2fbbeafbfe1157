/** Character-level scanning used by the request reader. */
module HttpText {
  import opened Readings

  const CR := '\r'
  const LF := '\n'
  const NUL := '\0'
  const LINE_BUFFERSIZE := 256

  // The C string that starts a character array.
  function CStr(s: string): string {
    if s == "" || s[0] == NUL then "" else [s[0]] + CStr(s[1..])
  }

  lemma {:induction false} CStrStopsAtNul(a: string, b: string)
    ensures CStr(a + [NUL] + b) == CStr(a)
  {
    if a != "" {
      CStrStopsAtNul(a[1..], b);
      assert (a + [NUL] + b)[1..] == a[1..] + [NUL] + b;
    }
  }

  // A C string holds the whole text exactly when the text has no NUL.
  lemma {:induction false} CStrWholeIff(s: string)
    ensures CStr(s) == s <==> NUL !in s
    ensures |CStr(s)| <= |s|
    ensures NUL in s ==> |CStr(s)| < |s|
  {
    if s != "" {
      CStrWholeIff(s[1..]);
      assert s == [s[0]] + s[1..];
    }
  }

  // First index at or after `from` that holds `c`; `|s|` when there is none.
  function FindChar(s: string, c: char, from: nat): (i: nat)
    requires from <= |s|
    ensures from <= i <= |s|
    ensures forall k | from <= k < i :: s[k] != c
    ensures i < |s| ==> s[i] == c
    decreases |s| - from
  {
    if from == |s| || s[from] == c then from else FindChar(s, c, from + 1)
  }

  lemma FindCharIs(s: string, c: char, from: nat, i: nat)
    requires from <= i <= |s| && (forall k | from <= k < i :: s[k] != c) && (i < |s| ==> s[i] == c)
    ensures FindChar(s, c, from) == i
  {
  }

  predicate CrLfAt(s: string, i: nat) {
    i + 1 < |s| && s[i] == CR && s[i + 1] == LF
  }

  function FirstCrLf(s: string, from: nat): (at: Option<nat>)
    ensures at.Some? ==> at.value >= from && CrLfAt(s, at.value)
    decreases |s| - from
  {
    if from + 1 >= |s| then None
    else if CrLfAt(s, from) then Some(from)
    else FirstCrLf(s, from + 1)
  }

  lemma {:induction false} FirstCrLfIs(s: string, from: nat, i: nat)
    requires from <= i && CrLfAt(s, i) && forall k | from <= k < i :: !CrLfAt(s, k)
    ensures FirstCrLf(s, from) == Some(i)
    decreases i - from
  {
    if from < i {
      FirstCrLfIs(s, from + 1, i);
    }
  }

  /** What a reader obtains from a stream: a value and the unread rest, or an exception
      because the peer closed or an item was malformed, or undefined behaviour. */
  datatype Read<+T> = Got(value: T, rest: string) | Stopped | Overrun

  // One line of the stream, up to its first CRLF, through the 256-byte line buffer.
  function OneLine(stream: string): Read<string> {
    match FirstCrLf(stream, 0)
    case Some(p) =>
      if p + 2 <= LINE_BUFFERSIZE then Got(CStr(stream[..p]), stream[p + 2..]) else Overrun
    case None =>
      if |stream| > LINE_BUFFERSIZE then Overrun else Stopped
  }

  predicate FitsLine(line: string) {
    |line| <= LINE_BUFFERSIZE - 2
  }

  // A rendered line overruns the line buffer exactly when it is too long; otherwise it is read
  // back, whole exactly when it has no NUL.
  lemma OneLineOfRendered(line: string, rest: string)
    requires LF !in line
    ensures OneLine(line + [CR, LF] + rest) == if FitsLine(line) then Got(CStr(line), rest) else Overrun
    ensures CStr(line) == line <==> NUL !in line
  {
    var s := line + [CR, LF] + rest;
    assert s[|line|] == CR && s[|line| + 1] == LF;
    assert forall k | 0 <= k < |line| :: s[k] == line[k];
    FirstCrLfIs(s, 0, |line|);
    assert s[..|line|] == line && s[|line| + 2..] == rest;
    CStrWholeIff(line);
  }

  /* ---------- splitting at spaces ---------- */

  function Tokens(s: string): seq<string>
    decreases |s|
  {
    if s == "" then []
    else if s[0] == ' ' then Tokens(s[1..])
    else
      var n := FindChar(s, ' ', 0);
      [s[..n]] + Tokens(s[n..])
  }

  function Flatten(parts: seq<string>): string {
    if parts == [] then "" else parts[0] + Flatten(parts[1..])
  }

  function WithoutSpaces(s: string): string {
    if s == "" then "" else (if s[0] == ' ' then "" else [s[0]]) + WithoutSpaces(s[1..])
  }

  function Joined(tokens: seq<string>): string {
    if tokens == [] then ""
    else if |tokens| == 1 then tokens[0]
    else tokens[0] + " " + Joined(tokens[1..])
  }

  predicate IsToken(t: string) {
    t != "" && ' ' !in t
  }

  lemma {:induction false} WithoutSpacesOfRun(a: string, b: string)
    requires ' ' !in a
    ensures WithoutSpaces(a + b) == a + WithoutSpaces(b)
  {
    if a == "" {
      assert a + b == b;
    } else {
      WithoutSpacesOfRun(a[1..], b);
      assert (a + b)[1..] == a[1..] + b;
    }
  }

  // Splitting yields non-empty, space-free tokens that spell the input without its spaces.
  lemma {:induction false} TokensSpellInput(s: string)
    ensures forall t | t in Tokens(s) :: IsToken(t)
    ensures Flatten(Tokens(s)) == WithoutSpaces(s)
    decreases |s|
  {
    if s != "" && s[0] == ' ' {
      TokensSpellInput(s[1..]);
    } else if s != "" {
      var n := FindChar(s, ' ', 0);
      TokensSpellInput(s[n..]);
      WithoutSpacesOfRun(s[..n], s[n..]);
      assert s == s[..n] + s[n..];
      assert Tokens(s)[1..] == Tokens(s[n..]);
    }
  }

  predicate StartsToken(s: string, i: nat) {
    i < |s| && s[i] != ' ' && (i == 0 || s[i - 1] == ' ')
  }

  // `t` is the whole run of other characters between two spaces, or an end, that starts at `i`.
  predicate IsWholeRun(s: string, i: nat, t: string) {
    && StartsToken(s, i) && IsToken(t)
    && i + |t| <= |s| && s[i..i + |t|] == t && (i + |t| < |s| ==> s[i + |t|] == ' ')
  }

  lemma RunOfSuffix(s: string, d: nat, i: nat, t: string)
    requires d <= |s| && (d < |s| ==> s[d] == ' ' || (d > 0 && s[d - 1] == ' '))
    ensures StartsToken(s[d..], i) <==> StartsToken(s, d + i)
    ensures IsWholeRun(s[d..], i, t) ==> IsWholeRun(s, d + i, t)
  {
    if d + i + |t| <= |s| {
      assert s[d..][i..i + |t|] == s[d + i..d + i + |t|];
    }
  }

  ghost predicate WholeRuns(s: string, starts: seq<nat>, tokens: seq<string>) {
    |starts| == |tokens| && forall k | 0 <= k < |starts| :: IsWholeRun(s, starts[k], tokens[k])
  }

  function Shifted(d: nat, ns: seq<nat>): (r: seq<nat>)
    ensures |r| == |ns| && forall k | 0 <= k < |ns| :: r[k] == d + ns[k]
  {
    seq(|ns|, k requires 0 <= k < |ns| => d + ns[k])
  }

  // Where the tokens are.
  function TokenStarts(s: string): seq<nat>
    decreases |s|
  {
    if s == "" then []
    else if s[0] == ' ' then Shifted(1, TokenStarts(s[1..]))
    else
      var n := FindChar(s, ' ', 0);
      [0] + Shifted(n, TokenStarts(s[n..]))
  }

  lemma ShiftedRuns(s: string, d: nat, starts: seq<nat>, tokens: seq<string>)
    requires d <= |s| && (d < |s| ==> s[d] == ' ' || (d > 0 && s[d - 1] == ' '))
    requires WholeRuns(s[d..], starts, tokens)
    ensures WholeRuns(s, Shifted(d, starts), tokens)
  {
    forall k | 0 <= k < |starts| ensures IsWholeRun(s, Shifted(d, starts)[k], tokens[k]) {
      RunOfSuffix(s, d, starts[k], tokens[k]);
    }
  }

  lemma {:induction false} TokensAreWhole(s: string)
    ensures WholeRuns(s, TokenStarts(s), Tokens(s))
    decreases |s|
  {
    if s != "" {
      var d := if s[0] == ' ' then 1 else FindChar(s, ' ', 0);
      TokensAreWhole(s[d..]);
      ShiftedRuns(s, d, TokenStarts(s[d..]), Tokens(s[d..]));
    }
  }

  lemma {:induction false} StartsAscend(s: string)
    ensures forall j, k | 0 <= j < k < |TokenStarts(s)| :: TokenStarts(s)[j] < TokenStarts(s)[k]
    decreases |s|
  {
    if s != "" {
      StartsAscend(s[if s[0] == ' ' then 1 else FindChar(s, ' ', 0)..]);
    }
  }

  lemma InShifted(d: nat, ns: seq<nat>, i: nat)
    ensures i in Shifted(d, ns) <==> i >= d && i - d in ns
  {
    if i >= d && i - d in ns {
      var k :| 0 <= k < |ns| && ns[k] == i - d;
      assert Shifted(d, ns)[k] == i;
    }
  }

  lemma {:induction false} StartsAreAll(s: string, i: nat)
    ensures StartsToken(s, i) <==> i in TokenStarts(s)
    decreases |s|
  {
    if s != "" {
      var d := if s[0] == ' ' then 1 else FindChar(s, ' ', 0);
      InShifted(d, TokenStarts(s[d..]), i);
      if i >= d {
        StartsAreAll(s[d..], i - d);
        RunOfSuffix(s, d, i - d, "");
      } else {
        assert StartsToken(s, i) <==> i == 0 && s[0] != ' ';
      }
    }
  }

  // The tokens are exactly the maximal runs without a space, in order: one for every place
  // where such a run starts.
  lemma TokensAreMaximalRuns(s: string)
    ensures WholeRuns(s, TokenStarts(s), Tokens(s))
    ensures forall j, k | 0 <= j < k < |TokenStarts(s)| :: TokenStarts(s)[j] < TokenStarts(s)[k]
    ensures forall i: nat :: StartsToken(s, i) <==> i in TokenStarts(s)
  {
    TokensAreWhole(s);
    StartsAscend(s);
    forall i: nat ensures StartsToken(s, i) <==> i in TokenStarts(s) {
      StartsAreAll(s, i);
    }
  }

  lemma TokensOfRun(t: string, rest: string)
    requires IsToken(t) && (rest == "" || rest[0] == ' ')
    ensures Tokens(t + rest) == [t] + Tokens(rest)
  {
    var s := t + rest;
    FindCharIs(s, ' ', 0, |t|);
    assert s[..|t|] == t && s[|t|..] == rest;
  }

  // Splitting undoes joining, so no token is cut and none are merged.
  lemma {:induction false} TokensOfJoined(ts: seq<string>)
    requires forall t | t in ts :: IsToken(t)
    ensures Tokens(Joined(ts)) == ts
  {
    if |ts| == 1 {
      TokensOfRun(ts[0], "");
      assert ts[0] + "" == ts[0];
    } else if ts != [] {
      var rest := " " + Joined(ts[1..]);
      TokensOfJoined(ts[1..]);
      TokensOfRun(ts[0], rest);
      assert ts[0] + rest == Joined(ts);
      assert rest[1..] == Joined(ts[1..]);
      assert ts == [ts[0]] + ts[1..];
    }
  }

  lemma SplittingIsIdempotent(s: string)
    ensures Tokens(Joined(Tokens(s))) == Tokens(s)
  {
    TokensSpellInput(s);
    TokensOfJoined(Tokens(s));
  }

  /* ---------- decimal numbers ---------- */

  const INT_MAX := 0x7FFF_FFFF

  predicate IsDigit(c: char) {
    '0' <= c <= '9'
  }

  predicate IsSpace(c: char) {
    c == ' ' || '\t' <= c <= '\r'
  }

  // The value of the leading digits, continuing from `acc`.
  function DigitsValue(s: string, acc: nat): nat {
    if s == "" || !IsDigit(s[0]) then acc
    else DigitsValue(s[1..], 10 * acc + (s[0] as int - '0' as int))
  }

  // `std::stoi`; `None` stands for the exceptions it throws.
  function Stoi(s: string): Option<int> {
    if s != "" && IsSpace(s[0]) then Stoi(s[1..])
    else
      var signed := s != "" && (s[0] == '-' || s[0] == '+');
      var digits := if signed then s[1..] else s;
      if digits == "" || !IsDigit(digits[0]) then None
      else
        var n := DigitsValue(digits, 0);
        var v := if signed && s[0] == '-' then -(n as int) else n;
        if -INT_MAX - 1 <= v <= INT_MAX then Some(v) else None
  }

  function Digit(n: nat): char
    requires n < 10
  {
    '0' + (n as char)
  }

  function Decimal(n: nat): (s: string)
    ensures s != "" && forall c | c in s :: IsDigit(c)
  {
    if n < 10 then [Digit(n)] else Decimal(n / 10) + [Digit(n % 10)]
  }

  lemma {:induction false} DigitsValueSnoc(s: string, c: char, acc: nat)
    requires (forall d | d in s :: IsDigit(d)) && IsDigit(c)
    ensures DigitsValue(s + [c], acc) == 10 * DigitsValue(s, acc) + (c as int - '0' as int)
  {
    if s == "" {
      assert s + [c] == [c];
      assert [c][1..] == "";
    } else {
      assert s[0] in s;
      DigitsValueSnoc(s[1..], c, 10 * acc + (s[0] as int - '0' as int));
      assert (s + [c])[1..] == s[1..] + [c];
    }
  }

  lemma {:induction false} DecimalValue(n: nat)
    ensures DigitsValue(Decimal(n), 0) == n
  {
    if n < 10 {
      assert [Digit(n)][1..] == "";
    } else {
      DecimalValue(n / 10);
      DigitsValueSnoc(Decimal(n / 10), Digit(n % 10), 0);
    }
  }

  lemma StoiOfDecimal(n: nat)
    requires n <= INT_MAX
    ensures Stoi(Decimal(n)) == Some(n)
  {
    DecimalValue(n);
    assert IsDigit(Decimal(n)[0]);
  }

  lemma {:induction false} DecimalIsShort(n: nat, digits: nat, bound: nat)
    requires digits > 0 && n < bound && bound <= Power10(digits)
    ensures |Decimal(n)| <= digits
  {
    if n >= 10 {
      DecimalIsShort(n / 10, digits - 1, Power10(digits - 1));
    }
  }

  function Power10(n: nat): nat {
    if n == 0 then 1 else 10 * Power10(n - 1)
  }

  lemma {:induction false} DigitsStop(s: string, tail: string, acc: nat)
    requires (forall c | c in s :: IsDigit(c)) && (tail != "" ==> !IsDigit(tail[0]))
    ensures DigitsValue(s + tail, acc) == DigitsValue(s, acc)
    decreases |s|
  {
    if s == "" {
      assert s + tail == tail;
    } else {
      assert s[0] in s && (s + tail)[1..] == s[1..] + tail;
      DigitsStop(s[1..], tail, 10 * acc + (s[0] as int - '0' as int));
    }
  }

  lemma {:induction false} StoiSkipsSpaces(spaces: string, s: string)
    requires forall c | c in spaces :: IsSpace(c)
    ensures Stoi(spaces + s) == Stoi(s)
    decreases |spaces|
  {
    if spaces == "" {
      assert spaces + s == s;
    } else {
      assert spaces[0] in spaces && (spaces + s)[1..] == spaces[1..] + s;
      StoiSkipsSpaces(spaces[1..], s);
    }
  }

  // White space, a sign, a number and anything else: the signed number, if an `int` can hold it.
  lemma StoiOf(spaces: string, sign: string, n: nat, tail: string)
    requires (forall c | c in spaces :: IsSpace(c)) && sign in {"", "+", "-"}
    requires tail != "" ==> !IsDigit(tail[0])
    ensures var v: int := if sign == "-" then -(n as int) else n;
            Stoi(spaces + (sign + (Decimal(n) + tail))) == if -INT_MAX - 1 <= v <= INT_MAX then Some(v) else None
  {
    var digits := Decimal(n) + tail;
    StoiSkipsSpaces(spaces, sign + digits);
    DigitsStop(Decimal(n), tail, 0);
    DecimalValue(n);
    assert IsDigit(Decimal(n)[0]) && digits[0] == Decimal(n)[0];
    assert sign == "" ==> sign + digits == digits;
    assert sign != "" ==> (sign + digits)[1..] == digits;
  }

  // Without a digit there is no number.
  lemma StoiOfNothing(spaces: string, sign: string, tail: string)
    requires (forall c | c in spaces :: IsSpace(c)) && sign in {"", "+", "-"}
    requires tail != "" ==> !IsDigit(tail[0]) && (sign == "" ==> !IsSpace(tail[0]) && tail[0] != '+' && tail[0] != '-')
    ensures Stoi(spaces + (sign + tail)) == None
  {
    StoiSkipsSpaces(spaces, sign + tail);
    assert sign == "" ==> sign + tail == tail;
    assert sign != "" ==> (sign + tail)[1..] == tail;
  }
}

/** What a CGI request sends to its child process: one line per parameter through a pipe,
    and, in the environment, the number of parameters and a content length. */
module Responser {
  import opened Readings
  import opened HttpText
  import opened HttpSpec

  function Shown(value: string): string {
    if value == "" then NULLINFO else value
  }

  function ValueOf(m: Params, key: string): string {
    if key in m then m[key] else ""
  }

  // The four writes of one round; `strlen` stops at a NUL.
  function EntryText(m: Params, key: string): string {
    CStr(key) + " " + CStr(Shown(ValueOf(m, key))) + "\n"
  }

  // The hash map's iteration order, which is not determined, is a parameter.
  ghost predicate IsOrder(m: Params, order: seq<string>) {
    && (forall k :: k in order <==> k in m)
    && (forall i, j | 0 <= i < j < |order| :: order[i] != order[j])
  }

  function PipeText(m: Params, order: seq<string>): string {
    if order == [] then "" else PipeText(m, order[..|order| - 1]) + EntryText(m, order[|order| - 1])
  }

  function EntrySize(m: Params, key: string): nat {
    |key| + |Shown(ValueOf(m, key))|
  }

  function SizeSum(m: Params, order: seq<string>): nat {
    if order == [] then 0 else SizeSum(m, order[..|order| - 1]) + EntrySize(m, order[|order| - 1])
  }

  // The four writes of one parameter.
  method WriteEntry(m: Params, key: string, written: string) returns (pipe: string)
    requires key in m
    ensures pipe == written + EntryText(m, key)
  {
    var value := m[key];
    pipe := CStr(key);
    pipe := pipe + " ";
    pipe := pipe + (if value == "" then CStr(NULLINFO) else CStr(value));
    pipe := pipe + "\n";
    pipe := written + pipe;
  }

  // The loop of `executeCGI` in the parent process.
  method WriteParams(m: Params, order: seq<string>) returns (pipe: string)
    requires IsOrder(m, order)
    ensures pipe == PipeText(m, order)
  {
    pipe := "";
    for i := 0 to |order|
      invariant pipe == PipeText(m, order[..i])
    {
      pipe := WriteEntry(m, order[i], pipe);
      assert order[..i + 1][..i] == order[..i];
    }
    assert order[..|order|] == order;
  }

  method CgiContentLength(m: Params, order: seq<string>) returns (ans: nat)
    requires IsOrder(m, order)
    ensures ans == SizeSum(m, order)
  {
    ans := 0;
    for i := 0 to |order|
      invariant ans == SizeSum(m, order[..i])
    {
      ans := ans + |order[i]|;
      ans := ans + if m[order[i]] == "" then |NULLINFO| else |m[order[i]]|;
      assert order[..i + 1][..i] == order[..i];
    }
    assert order[..|order|] == order;
  }

  // A page that refuses, or a child with these bytes to read and this count and length to expect.
  datatype Answer = Forbidden | Ran(pipe: string, count: nat, length: nat)

  // The table is a null pointer unless the reader met a list of parameters.
  function ParamCount(table: Option<Params>): nat {
    match table
    case None => 0
    case Some(m) => |m|
  }

  // Both processes follow the pointer to the table without a test of their own.
  function Cgi(table: Option<Params>, written: seq<string>, counted: seq<string>): Outcome<Answer> {
    if ParamCount(table) == 0 then Defined(Forbidden)
    else
      match table
      case None => Undefined
      case Some(m) => Defined(Ran(PipeText(m, written), |m|, SizeSum(m, counted)))
  }

  ghost predicate AreOrders(table: Option<Params>, written: seq<string>, counted: seq<string>) {
    table.Some? ==> IsOrder(table.value, written) && IsOrder(table.value, counted)
  }

  method ExecuteCgi(table: Option<Params>, written: seq<string>, counted: seq<string>)
      returns (answer: Outcome<Answer>)
    requires AreOrders(table, written, counted)
    ensures answer == Cgi(table, written, counted)
  {
    if ParamCount(table) == 0 {
      return Defined(Forbidden);
    }
    match table {
      case None => return Undefined;
      case Some(m) =>
        var length := CgiContentLength(m, counted);
        var pipe := WriteParams(m, written);
        return Defined(Ran(pipe, |m|, length));
    }
  }

  /* ---------- accounting ---------- */

  predicate NulFree(m: Params, key: string)
    requires key in m
  {
    NUL !in key && NUL !in m[key]
  }

  lemma EntryAccounting(m: Params, key: string)
    requires key in m
    ensures |EntryText(m, key)| <= EntrySize(m, key) + 2
    ensures |EntryText(m, key)| == EntrySize(m, key) + 2 <==> NulFree(m, key)
  {
    CStrWholeIff(key);
    CStrWholeIff(Shown(m[key]));
  }

  lemma {:induction false} PipeAccounting(m: Params, order: seq<string>)
    requires forall k | k in order :: k in m
    ensures |PipeText(m, order)| <= SizeSum(m, order) + 2 * |order|
    ensures |PipeText(m, order)| == SizeSum(m, order) + 2 * |order| <==> forall k | k in order :: NulFree(m, k)
  {
    if order != [] {
      var last := order[|order| - 1];
      PipeAccounting(m, order[..|order| - 1]);
      EntryAccounting(m, last);
      assert order == order[..|order| - 1] + [last];
    }
  }

  lemma SizeSumSnoc(m: Params, order: seq<string>, key: string)
    ensures SizeSum(m, order + [key]) == SizeSum(m, order) + EntrySize(m, key)
  {
  }

  lemma {:induction false} SizeSumRemoves(m: Params, a: seq<string>, x: string, b: seq<string>)
    ensures SizeSum(m, a + [x] + b) == SizeSum(m, a + b) + EntrySize(m, x)
    decreases |b|
  {
    if b == [] {
      SizeSumSnoc(m, a, x);
      assert a + [x] + b == a + [x] && a + b == a;
    } else {
      var b', y := b[..|b| - 1], b[|b| - 1];
      assert b == b' + [y];
      SizeSumRemoves(m, a, x, b');
      SizeSumSnoc(m, a + [x] + b', y);
      SizeSumSnoc(m, a + b', y);
      Associate(a + [x], b', [y]);
      Associate(a, b', [y]);
    }
  }

  lemma WithoutElement(a: seq<string>, x: string, b: seq<string>)
    ensures multiset(a + b) == multiset(a + [x] + b) - multiset{x}
  {
  }

  lemma WithoutLast(front: seq<string>, last: string)
    ensures multiset(front) == multiset(front + [last]) - multiset{last}
  {
  }

  lemma SplitAround(b: seq<string>, x: string) returns (before: seq<string>, after: seq<string>)
    requires x in multiset(b)
    ensures b == before + [x] + after
    ensures multiset(before + after) == multiset(b) - multiset{x}
  {
    var i :| 0 <= i < |b| && b[i] == x;
    before, after := b[..i], b[i + 1..];
    assert b == before + [x] + after;
    WithoutElement(before, x, after);
  }

  // The content length does not depend on the iteration order.
  lemma {:induction false} SizeSumAnyOrder(m: Params, a: seq<string>, b: seq<string>)
    requires multiset(a) == multiset(b)
    ensures SizeSum(m, a) == SizeSum(m, b)
    decreases |a|
  {
    if a == [] {
      assert |multiset(b)| == |b|;
    } else {
      var front, last := a[..|a| - 1], a[|a| - 1];
      assert a == front + [last];
      WithoutLast(front, last);
      var before, after := SplitAround(b, last);
      SizeSumRemoves(m, before, last, after);
      SizeSumAnyOrder(m, front, before + after);
    }
  }

  lemma OrderSize(m: Params, order: seq<string>)
    requires IsOrder(m, order)
    ensures |order| == |m| && multiset(order) == multiset(m.Keys)
  {
    forall k ensures multiset(order)[k] == multiset(m.Keys)[k] {
      OnceInOrder(order, k);
    }
    assert multiset(order) == multiset(m.Keys);
    assert |multiset(order)| == |order|;
    assert |multiset(m.Keys)| == |m.Keys|;
  }

  lemma {:induction false} OnceInOrder(order: seq<string>, k: string)
    requires forall i, j | 0 <= i < j < |order| :: order[i] != order[j]
    ensures multiset(order)[k] == if k in order then 1 else 0
  {
    if order != [] {
      var n := |order| - 1;
      OnceInOrder(order[..n], k);
      assert order == order[..n] + [order[n]];
    }
  }

  // The parent's bytes, in whatever order it iterates, are the advertised content length, in
  // whatever order the child iterates, plus two per advertised entry, exactly when no NUL occurs.
  lemma CgiAccountingIff(m: Params, written: seq<string>, counted: seq<string>)
    requires IsOrder(m, written) && IsOrder(m, counted)
    ensures |PipeText(m, written)| == SizeSum(m, counted) + 2 * |m| <==> forall k | k in m :: NulFree(m, k)
  {
    OrderSize(m, written);
    OrderSize(m, counted);
    SizeSumAnyOrder(m, written, counted);
    PipeAccounting(m, written);
  }

  /* ---------- what the child can recover ---------- */

  function Blurred(value: string): string {
    if value == NULLINFO then "" else value
  }

  // One entry per line: the key up to the first space, then the value, "NULL" meaning empty.
  function Decode(text: string, m: Params): Params
    decreases |text|
  {
    match FirstEntry(text)
    case None => m
    case Some(e) => Decode(e.rest, m[e.key := Blurred(e.value)])
  }

  datatype Entry = Entry(key: string, value: string, rest: string)

  function FirstEntry(text: string): (e: Option<Entry>)
    ensures e.Some? ==> |e.value.rest| < |text|
  {
    var eol, space := FindChar(text, '\n', 0), FindChar(text, ' ', 0);
    if eol == |text| || space >= eol then None
    else Some(Entry(text[..space], text[space + 1..eol], text[eol + 1..]))
  }

  predicate Plain(m: Params, key: string)
    requires key in m
  {
    NulFree(m, key) && ' ' !in key && '\n' !in key && '\n' !in m[key]
  }

  lemma EntryScans(key: string, value: string, rest: string)
    requires ' ' !in key && '\n' !in key && '\n' !in value
    ensures FirstEntry(key + " " + value + "\n" + rest) == Some(Entry(key, value, rest))
  {
    var text, space, eol := key + " " + value + "\n" + rest, |key|, |key| + 1 + |value|;
    assert forall i | 0 <= i < space :: text[i] == key[i];
    assert text[space] == ' ' && text[eol] == '\n';
    assert forall i | space < i < eol :: text[i] == value[i - space - 1];
    FindCharIs(text, ' ', 0, space);
    FindCharIs(text, '\n', 0, eol);
    assert text[..space] == key && text[space + 1..eol] == value && text[eol + 1..] == rest;
  }

  lemma DecodesEntry(m: Params, key: string, rest: string, seen: Params)
    requires key in m && Plain(m, key)
    ensures Decode(EntryText(m, key) + rest, seen) == Decode(rest, seen[key := Blurred(m[key])])
  {
    var value := Shown(m[key]);
    CStrWholeIff(key);
    CStrWholeIff(value);
    var text := EntryText(m, key) + rest;
    assert text == key + " " + value + "\n" + rest;
    EntryScans(key, value, rest);
    assert Blurred(value) == Blurred(m[key]);
  }

  function DecodeOrder(m: Params, order: seq<string>, seen: Params): Params
    requires forall k | k in order :: k in m
  {
    if order == [] then seen
    else DecodeOrder(m, order[..|order| - 1], seen)[order[|order| - 1] := Blurred(m[order[|order| - 1]])]
  }

  lemma {:induction false} DecodesOrder(m: Params, order: seq<string>, rest: string, seen: Params)
    requires forall k | k in order :: k in m && Plain(m, k)
    ensures Decode(PipeText(m, order) + rest, seen) == Decode(rest, DecodeOrder(m, order, seen))
  {
    if order == [] {
      assert "" + rest == rest;
    } else {
      var n := |order| - 1;
      var entry := EntryText(m, order[n]);
      Associate(PipeText(m, order[..n]), entry, rest);
      DecodesOrder(m, order[..n], entry + rest, seen);
      DecodesEntry(m, order[n], rest, DecodeOrder(m, order[..n], seen));
    }
  }

  lemma {:induction false} DecodeOrderIs(m: Params, order: seq<string>)
    requires forall k | k in order :: k in m
    ensures var d := DecodeOrder(m, order, map[]);
            (forall k :: k in d <==> k in order) && (forall k | k in d :: d[k] == Blurred(m[k]))
  {
    if order != [] {
      var n := |order| - 1;
      DecodeOrderIs(m, order[..n]);
      assert order == order[..n] + [order[n]];
    }
  }

  lemma UnblurredIff(m: Params, d: Params)
    requires d.Keys == m.Keys && forall k | k in m :: d[k] == Blurred(m[k])
    ensures d == m <==> forall k | k in m :: m[k] != NULLINFO
  {
    if k :| k in m && m[k] == NULLINFO {
      assert d[k] != m[k];
    }
  }

  // With text that the line format can carry, the child recovers the whole table exactly
  // when no value is spelled like the marker for an empty one.
  lemma CgiRoundTripIff(m: Params, order: seq<string>)
    requires IsOrder(m, order) && forall k | k in m :: Plain(m, k)
    ensures Decode(PipeText(m, order), map[]) == m <==> forall k | k in m :: m[k] != NULLINFO
  {
    var d := DecodeOrder(m, order, map[]);
    DecodesOrder(m, order, "", map[]);
    assert PipeText(m, order) + "" == PipeText(m, order);
    DecodeOrderIs(m, order);
    UnblurredIff(m, d);
  }

  lemma PipeTextSnoc(m: Params, order: seq<string>, key: string)
    ensures PipeText(m, order + [key]) == PipeText(m, order) + EntryText(m, key)
  {
    assert (order + [key])[..|order|] == order;
  }

  // The lines come in the order of iteration.
  lemma {:induction false} PipeTextOfConcat(m: Params, a: seq<string>, b: seq<string>)
    ensures PipeText(m, a + b) == PipeText(m, a) + PipeText(m, b)
    decreases |b|
  {
    if b == [] {
      assert a + b == a && PipeText(m, a) + "" == PipeText(m, a);
    } else {
      var front, last := b[..|b| - 1], b[|b| - 1];
      Associate(a, front, [last]);
      assert b == front + [last];
      PipeTextSnoc(m, a + front, last);
      PipeTextOfConcat(m, a, front);
      PipeTextSnoc(m, front, last);
      Associate(PipeText(m, a), PipeText(m, front), EntryText(m, last));
    }
  }

  /* ---------- the whole of it ---------- */

  // The opening test keeps both processes off a null pointer, and a child runs exactly when
  // there is something to send it.
  lemma CgiRunsIff(table: Option<Params>, written: seq<string>, counted: seq<string>)
    ensures Cgi(table, written, counted).Defined?
    ensures Cgi(table, written, counted).value.Ran? <==> table.Some? && table.value != map[]
  {
    if table.Some? && |table.value| == 0 {
      assert table.value.Keys == {};
    }
  }

  // Of a child that runs: its bytes agree with the announced length and count exactly when no NUL
  // occurs, and, with text that the line format can carry, it decodes the whole table exactly when
  // no value is spelled like the marker for an empty one.
  lemma ChildIsTold(table: Option<Params>, written: seq<string>, counted: seq<string>)
    requires AreOrders(table, written, counted) && Cgi(table, written, counted).value.Ran?
    ensures var ran := Cgi(table, written, counted).value;
            |ran.pipe| == ran.length + 2 * ran.count <==> forall k | k in table.value :: NulFree(table.value, k)
    ensures Cgi(table, written, counted).value.count == |table.value| == |written| == |counted|
    ensures (forall k | k in table.value :: Plain(table.value, k)) ==>
              (Decode(Cgi(table, written, counted).value.pipe, map[]) == table.value <==>
               forall k | k in table.value :: table.value[k] != NULLINFO)
  {
    OrderSize(table.value, written);
    OrderSize(table.value, counted);
    CgiAccountingIff(table.value, written, counted);
    if forall k | k in table.value :: Plain(table.value, k) {
      CgiRoundTripIff(table.value, written);
    }
  }
}

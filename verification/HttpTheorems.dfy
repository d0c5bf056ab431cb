/**
The parser against the message syntax of RFC 9112: a request line, field lines and an empty line, each
ended by CRLF, then the body.
*/
module HttpTheorems {
  import opened HttpRequests
  import opened Text
  import opened Wrappers

  /** A field as it is sent: optional whitespace may stand on both sides of the value. */
  datatype Field = Field(name: string, value: string, before: string, after: string)

  datatype Message = Message(method_: string, target: string, version: string, fields: seq<Field>, body: string)

  /** Spaces and tabs. */
  predicate IsOws(s: string) { forall i :: 0 <= i < |s| ==> s[i] == ' ' || s[i] == '\t' }

  predicate WellformedField(f: Field) {
    && Trimmed(f.name) && ':' !in f.name && '\n' !in f.name
    && Trimmed(f.value) && '\n' !in f.value
    && IsOws(f.before) && IsOws(f.after)
  }

  predicate Wellformed(m: Message) {
    && IsWord(m.method_) && IsWord(m.target) && IsWord(m.version)
    && forall i :: 0 <= i < |m.fields| ==> WellformedField(m.fields[i])
  }

  function RequestLine(m: Message): string { m.method_ + " " + m.target + " " + m.version }

  function FieldLine(f: Field): string { f.name + ":" + f.before + f.value + f.after }

  function FieldLines(fields: seq<Field>): (lines: seq<string>)
    ensures |lines| == |fields|
  {
    if fields == [] then [] else [FieldLine(fields[0])] + FieldLines(fields[1..])
  }

  /** Lines, each followed by `end`. */
  function Block(lines: seq<string>, end: string): string {
    if lines == [] then "" else lines[0] + end + Block(lines[1..], end)
  }

  function HeadLines(m: Message): seq<string> { [RequestLine(m)] + FieldLines(m.fields) }

  /** The message with the given line end: CRLF in the RFC, a bare LF from lenient senders. */
  function Serialize(m: Message, end: string): string { Block(HeadLines(m), end) + end + m.body }

  /** What a reader should get: the target up to its first "?", the fields in order, the exact body. */
  function Meaning(m: Message): Request {
    Request(m.method_, BeforeQuery(m.target), Headers(m.fields), m.body)
  }

  function Headers(fields: seq<Field>): seq<Header> {
    if fields == [] then [] else [Header(fields[0].name, fields[0].value)] + Headers(fields[1..])
  }

  // ---------- lines ----------

  /** A line that may stand in the head: not empty, no line feed, no carriage return at its end. */
  predicate IsHeadLine(line: string) {
    line != "" && '\n' !in line && line[|line| - 1] != '\r'
  }

  lemma FirstLineEnds(line: string, end: string, rest: string)
    requires '\n' !in line && (end == CRLF || end == "\n")
    ensures var s, i := line + end + rest, |line| + |end| - 1;
      && s[i] == '\n' && (forall k :: 0 <= k < i ==> s[k] != '\n')
      && s[i + 1..] == rest && s[..i] == line + end[..|end| - 1]
  {
  }

  lemma FirstLine(line: string, end: string, rest: string)
    requires '\n' !in line && (line == "" || line[|line| - 1] != '\r') && (end == CRLF || end == "\n")
    ensures Lines(line + end + rest) == [line] + Lines(rest)
  {
    var s := line + end + rest;
    var i := |line| + |end| - 1;
    FirstLineEnds(line, end, rest);
    IndexOfFirst(s, '\n', i);
    assert s[..i] == if end == CRLF then line + "\r" else line;
    ReturnDropped(line);
    hide IndexOf, DropReturn;
    assert Lines(s) == [DropReturn(s[..i])] + Lines(s[i + 1..]);
  }

  lemma ReturnDropped(line: string)
    requires line == "" || line[|line| - 1] != '\r'
    ensures DropReturn(line) == line && DropReturn(line + "\r") == line
  {
    assert (line + "\r")[..|line|] == line;
  }

  lemma {:induction false} LinesOfBlock(lines: seq<string>, end: string, rest: string)
    requires end == CRLF || end == "\n"
    requires forall i :: 0 <= i < |lines| ==> IsHeadLine(lines[i])
    ensures Lines(Block(lines, end) + rest) == lines + Lines(rest)
  {
    hide Lines;
    if lines == [] {
      assert "" + rest == rest;
      assert [] + Lines(rest) == Lines(rest);
    } else {
      assert Block(lines, end) + rest == lines[0] + end + (Block(lines[1..], end) + rest);
      FirstLine(lines[0], end, Block(lines[1..], end) + rest);
      LinesOfBlock(lines[1..], end, rest);
      assert [lines[0]] + (lines[1..] + Lines(rest)) == lines + Lines(rest);
    }
  }

  // ---------- fields ----------

  lemma {:induction false} TrimStartOf(before: string, s: string)
    requires IsOws(before) && (s == "" || !IsWhitespace(s[0]))
    ensures TrimStart(before + s) == s
  {
    if before == "" {
      assert before + s == s;
    } else {
      assert (before + s)[1..] == before[1..] + s;
      TrimStartOf(before[1..], s);
    }
  }

  lemma {:induction false} TrimEndOf(s: string, after: string)
    requires IsOws(after) && (s == "" || !IsWhitespace(s[|s| - 1]))
    ensures TrimEnd(s + after) == s
  {
    if after == "" {
      assert s + after == s;
    } else {
      assert (s + after)[..|s + after| - 1] == s + after[..|after| - 1];
      TrimEndOf(s, after[..|after| - 1]);
    }
  }

  lemma {:induction false} TrimBlank(s: string)
    requires IsOws(s)
    ensures TrimStart(s) == ""
  {
    if s != "" { TrimBlank(s[1..]); }
  }

  /** Trimming takes off exactly the optional whitespace. */
  lemma TrimOf(before: string, value: string, after: string)
    requires IsOws(before) && IsOws(after) && Trimmed(value)
    ensures Trim(before + value + after) == value
  {
    if value == "" {
      assert before + value + after == before + after;
      TrimBlank(before + after);
    } else {
      assert before + value + after == before + (value + after);
      TrimStartOf(before, value + after);
      TrimEndOf(value, after);
    }
  }

  lemma FieldParses(f: Field)
    requires WellformedField(f)
    ensures ParseHeader(FieldLine(f)) == [Header(f.name, f.value)]
  {
    var line := FieldLine(f);
    IndexOfFirst(line, ':', |f.name|);
    assert line[..|f.name|] == f.name;
    assert line[|f.name| + 1..] == f.before + f.value + f.after;
    TrimOf(f.before, f.value, f.after);
    TrimOf("", f.name, "");
    assert "" + f.name + "" == f.name;
  }

  lemma FieldLineIsHeadLine(f: Field)
    requires WellformedField(f)
    ensures IsHeadLine(FieldLine(f))
  {
    var line := FieldLine(f);
    assert line[|f.name|] == ':';
    var last := |line| - 1;
    if f.after != "" {
      assert line[last] == f.after[|f.after| - 1];
    } else if f.value != "" {
      assert line[last] == f.value[|f.value| - 1];
    } else if f.before != "" {
      assert line[last] == f.before[|f.before| - 1];
    }
  }

  lemma HeadLineNotEmpty(line: string)
    requires IsHeadLine(line)
    ensures line != ""
  {
  }

  lemma {:induction false} FieldsParse(fields: seq<Field>, more: seq<string>)
    requires forall i :: 0 <= i < |fields| ==> WellformedField(fields[i])
    ensures forall i :: 0 <= i < |fields| ==> IsHeadLine(FieldLines(fields)[i])
    ensures ParseHeaders(FieldLines(fields) + ([""] + more)) == (Headers(fields), true)
  {
    hide FieldLine, ParseHeader, IsHeadLine, WellformedField;
    var lines := FieldLines(fields) + ([""] + more);
    if fields == [] {
      assert lines[0] == "";
    } else {
      FieldLineIsHeadLine(fields[0]);
      FieldParses(fields[0]);
      FieldsParse(fields[1..], more);
      assert lines[0] == FieldLine(fields[0]) != "" by { HeadLineNotEmpty(FieldLine(fields[0])); }
      assert lines[1..] == FieldLines(fields[1..]) + ([""] + more);
    }
  }

  // ---------- the request line ----------

  lemma RequestLineParses(m: Message)
    requires Wellformed(m)
    ensures IsHeadLine(RequestLine(m))
    ensures SplitWhitespace(RequestLine(m)) == [m.method_, m.target, m.version]
  {
    RequestLineIsHeadLine(m.method_, m.target, m.version);
    JoinThree(m.method_, m.target, m.version);
    SplitThree(m.method_, m.target, m.version);
    hide SplitWhitespace, Join, IsHeadLine, IsWord;
  }

  lemma SplitThree(a: string, b: string, c: string)
    requires IsWord(a) && IsWord(b) && IsWord(c)
    ensures SplitWhitespace(Join([a, b, c], " ")) == [a, b, c]
  {
    hide SplitWhitespace, Join, IsWord;
    SplitOfJoin([a, b, c]);
  }

  lemma RequestLineIsHeadLine(a: string, b: string, c: string)
    requires IsWord(a) && IsWord(b) && IsWord(c)
    ensures IsHeadLine(a + " " + b + " " + c)
  {
    var line := a + " " + b + " " + c;
    assert line[|line| - 1] == c[|c| - 1];
  }

  lemma JoinThree(a: string, b: string, c: string)
    ensures Join([a, b, c], " ") == a + " " + b + " " + c
  {
    assert [a, b, c][1..] == [b, c] && [b, c][1..] == [c];
    assert Join([b, c], " ") == b + " " + c;
    assert a + " " + (b + " " + c) == a + " " + b + " " + c;
  }

  // ---------- where the body starts ----------

  lemma NotAt(s: string, pattern: string, k: nat, i: nat)
    requires i < |pattern| && (k + i < |s| ==> s[k + i] != pattern[i])
    ensures !At(s, pattern, k)
  {
    assert k + |pattern| <= |s| ==> s[k..k + |pattern|][i] == s[k + i];
  }

  lemma AtTail(s: string, pattern: string, k: nat)
    requires s != ""
    ensures At(s[1..], pattern, k) <==> At(s, pattern, k + 1)
  {
    assert k + 1 + |pattern| <= |s| ==> s[1..][k..k + |pattern|] == s[k + 1..k + 1 + |pattern|];
  }

  function Shift(p: Option<nat>, n: nat): Option<nat> {
    match p case None => None case Some(k) => Some(n + k)
  }

  lemma FindStep(s: string, pattern: string)
    requires pattern != "" && s != "" && !At(s, pattern, 0)
    ensures Find(s, pattern) == Shift(Find(s[1..], pattern), 1)
  {
  }

  /** A search may skip positions where the pattern does not occur. */
  lemma {:induction false} FindSkips(s: string, pattern: string, n: nat)
    requires pattern != "" && n <= |s| && forall k :: 0 <= k < n ==> !At(s, pattern, k)
    ensures Find(s, pattern) == Shift(Find(s[n..], pattern), n)
    decreases n
  {
    hide Find, At;
    if n == 0 {
      assert s[0..] == s;
    } else {
      FindStep(s, pattern);
      forall k | 0 <= k < n - 1 ensures !At(s[1..], pattern, k) { AtTail(s, pattern, k); }
      assert s[1..][n - 1..] == s[n..];
      FindSkips(s[1..], pattern, n - 1);
    }
  }

  predicate IsEnd(end: string) { end == CRLF || end == "\n" }

  /** Two line ends in a row occur neither inside a head line nor across the start of the next one. */
  lemma NoBlankLineYet(line: string, end: string, rest: string, k: nat)
    requires IsEnd(end) && IsHeadLine(line) && k < |line|
    ensures !At(line + end + rest, end + end, k)
  {
    var j := k + |end| - 1;
    assert (line + end + rest)[j] == if j < |line| then line[j] else '\r';
    NotAt(line + end + rest, end + end, k, |end| - 1);
  }

  lemma NoBlankLineBetween(line: string, end: string, next: string, rest: string, k: nat)
    requires IsEnd(end) && IsHeadLine(line) && IsHeadLine(next) && |line| <= k < |line| + |end|
    ensures !At(line + end + (next + end + rest), end + end, k)
  {
    var s := line + end + (next + end + rest);
    if k == |line| {
      var j := |line| + 2 * |end| - 1;
      assert s[j] == if |end| - 1 < |next| then next[|end| - 1] else '\r';
      NotAt(s, end + end, k, 2 * |end| - 1);
    } else {
      assert s[k] == '\n';
      NotAt(s, end + end, k, 0);
    }
  }

  /** The first blank line is the one that ends the head. */
  lemma {:induction false} HeadEndsAtBlankLine(lines: seq<string>, end: string, body: string)
    requires IsEnd(end) && lines != [] && forall i :: 0 <= i < |lines| ==> IsHeadLine(lines[i])
    ensures |Block(lines, end)| >= |end|
    ensures Find(Block(lines, end) + end + body, end + end) == Some(|Block(lines, end)| - |end|)
  {
    hide Find, IsHeadLine;
    if |lines| == 1 {
      assert Block(lines, end) == lines[0] + end by { assert lines[0] + end + "" == lines[0] + end; }
      LastLineThenBlank(lines[0], end, body);
    } else {
      var rest := Block(lines[1..], end) + end + body;
      var tail := Block(lines[1..][1..], end) + end + body;
      assert Block(lines, end) + end + body == lines[0] + end + rest;
      assert rest == lines[1] + end + tail;
      SkipLine(lines[0], end, lines[1], tail);
      HeadEndsAtBlankLine(lines[1..], end, body);
    }
  }

  lemma LastLineThenBlank(line: string, end: string, body: string)
    requires IsEnd(end) && IsHeadLine(line)
    ensures Find(line + end + end + body, end + end) == Some(|line|)
  {
    hide Find, At, IsHeadLine;
    var s := line + end + (end + body);
    assert line + end + end + body == s;
    forall k | 0 <= k < |line| ensures !At(s, end + end, k) { NoBlankLineYet(line, end, end + body, k); }
    FindSkips(s, end + end, |line|);
    assert s[|line|..] == end + end + body;
    FindAtFront(end + end, body);
  }

  lemma FindAtFront(pattern: string, rest: string)
    ensures Find(pattern + rest, pattern) == Some(0)
  {
    assert (pattern + rest)[..|pattern|] == pattern;
  }

  lemma SkipLine(line: string, end: string, next: string, tail: string)
    requires IsEnd(end) && IsHeadLine(line) && IsHeadLine(next)
    ensures var rest := next + end + tail;
      Find(line + end + rest, end + end) == Shift(Find(rest, end + end), |line| + |end|)
  {
    hide Find, At, IsHeadLine;
    var rest := next + end + tail;
    var s := line + end + rest;
    forall k | 0 <= k < |line| + |end| ensures !At(s, end + end, k) {
      if k < |line| {
        NoBlankLineYet(line, end, rest, k);
      } else {
        NoBlankLineBetween(line, end, next, tail, k);
      }
    }
    FindSkips(s, end + end, |line| + |end|);
    assert s[|line| + |end|..] == rest;
  }

  /** A head of LF-ended lines contains no CRLF. */
  lemma {:induction false} NoReturnInHead(lines: seq<string>, k: nat)
    requires forall i :: 0 <= i < |lines| ==> IsHeadLine(lines[i])
    requires k < |Block(lines, "\n") + "\n"|
    ensures var head := Block(lines, "\n") + "\n";
      head[|head| - 1] == '\n' && (head[k] == '\r' && k + 1 < |head| ==> head[k + 1] != '\n')
  {
    if lines != [] {
      var rest := Block(lines[1..], "\n") + "\n";
      assert Block(lines, "\n") + "\n" == lines[0] + "\n" + rest;
      NoReturnInHead(lines[1..], if k > |lines[0]| then k - |lines[0]| - 1 else 0);
    }
  }

  lemma SearchStartsInBody(lines: seq<string>, body: string)
    requires forall i :: 0 <= i < |lines| ==> IsHeadLine(lines[i])
    ensures var head := Block(lines, "\n") + "\n";
      Find(head + body, CRLFCRLF) == Shift(Find(body, CRLFCRLF), |head|)
  {
    var head := Block(lines, "\n") + "\n";
    var raw := head + body;
    forall k | 0 <= k < |head| ensures !At(raw, CRLFCRLF, k) {
      NoReturnInHead(lines, k);
      NotAt(raw, CRLFCRLF, k, if head[k] == '\r' then 1 else 0);
    }
    FindSkips(raw, CRLFCRLF, |head|);
    assert raw[|head|..] == body;
  }

  // ---------- the theorems ----------

  /** The lines of a message, for either line end. */
  lemma LinesOfMessage(m: Message, end: string)
    requires IsEnd(end) && forall i :: 0 <= i < |HeadLines(m)| ==> IsHeadLine(HeadLines(m)[i])
    ensures Lines(Serialize(m, end)) == [RequestLine(m)] + (FieldLines(m.fields) + ([""] + Lines(m.body)))
  {
    hide Lines, IsHeadLine, RequestLine, FieldLines, Block;
    var head := HeadLines(m);
    assert Serialize(m, end) == Block(head, end) + (end + m.body);
    LinesOfBlock(head, end, end + m.body);
    BlankLineFirst(end, m.body);
  }

  lemma HeadLinesAreFine(m: Message)
    requires Wellformed(m)
    ensures forall i :: 0 <= i < |HeadLines(m)| ==> IsHeadLine(HeadLines(m)[i])
  {
    RequestLineParses(m);
    FieldsParse(m.fields, []);
    hide IsHeadLine, RequestLine, FieldLines;
    assert forall i :: 0 <= i < |m.fields| ==> HeadLines(m)[i + 1] == FieldLines(m.fields)[i];
  }

  /** What the line loop reads, for either line end. */
  lemma HeadParses(m: Message, end: string)
    requires Wellformed(m) && IsEnd(end)
    ensures Parse(Serialize(m, end)) == Some(Meaning(m).(body := BodyAfterBlankLine(Serialize(m, end))))
  {
    HeadLinesAreFine(m);
    LinesOfMessage(m, end);
    RequestLineParses(m);
    FieldsParse(m.fields, Lines(m.body));
    hide Lines, SplitWhitespace, BodyAfterBlankLine, IsHeadLine, FieldLines, ParseHeaders;
    hide RequestLine, Wellformed, Serialize;
    var lines := Lines(Serialize(m, end));
    assert lines[1..] == FieldLines(m.fields) + ([""] + Lines(m.body));
  }

  lemma BlankLineFirst(end: string, body: string)
    requires IsEnd(end)
    ensures Lines(end + body) == [""] + Lines(body)
  {
    assert "" + end + body == end + body;
    FirstLine("", end, body);
  }

  lemma {:induction false} HeadersAre(fields: seq<Field>)
    ensures |Headers(fields)| == |fields|
    ensures forall i :: 0 <= i < |fields| ==> Headers(fields)[i] == Header(fields[i].name, fields[i].value)
  {
    if fields != [] { HeadersAre(fields[1..]); }
  }

  /** Every request in the form of the RFC comes back exactly, whatever its body contains: its method, its
      target up to the first "?", its fields in order without the blanks around the values, its body. */
  lemma ParserInvertsRequests(m: Message)
    requires Wellformed(m)
    ensures Parse(Serialize(m, "\r\n")) == Some(Meaning(m))
    ensures var r := Meaning(m);
      && r.method_ == m.method_ && r.body == m.body
      && r.path <= m.target && '?' !in r.path && (r.path == m.target || m.target[|r.path|] == '?')
      && |r.headers| == |m.fields|
      && forall i :: 0 <= i < |m.fields| ==> r.headers[i] == Header(m.fields[i].name, m.fields[i].value)
  {
    HeadersAre(m.fields);
    HeadParses(m, CRLF);
    HeadLinesAreFine(m);
    hide Parse, Meaning, HeadLines, IsHeadLine, Find;
    var raw := Serialize(m, CRLF);
    HeadEndsAtBlankLine(HeadLines(m), CRLF, m.body);
    assert CRLF + CRLF == CRLFCRLF;
    assert raw[|Block(HeadLines(m), CRLF)| + 2..] == m.body;
  }

  /** With bare line feeds the headers still come back, but the separator search looks for CRLF CRLF
      first: the body is exact if and only if it does not contain one. */
  lemma BareLineFeedsNeedPlainBody(m: Message)
    requires Wellformed(m)
    ensures Parse(Serialize(m, "\n")) == Some(Meaning(m)) <==> Find(m.body, CRLFCRLF).None?
  {
    HeadParses(m, "\n");
    HeadLinesAreFine(m);
    hide Parse, HeadLines, IsHeadLine, Find;
    var raw := Serialize(m, "\n");
    var head := Block(HeadLines(m), "\n") + "\n";
    assert raw == head + m.body;
    SearchStartsInBody(HeadLines(m), m.body);
    HeadEndsAtBlankLine(HeadLines(m), "\n", m.body);
    assert "\n" + "\n" == LFLF;
    assert raw[|Block(HeadLines(m), "\n")| + 1..] == m.body;
    match Find(m.body, CRLFCRLF)
    case None =>
    case Some(p) => assert raw[|head| + p + 4..] == m.body[p + 4..] && |m.body[p + 4..]| < |m.body|;
  }

  // ---------- what is not a request ----------

  lemma {:induction false} WordLengthStops(s: string, c: char)
    requires IsWhitespace(c)
    ensures WordLength(s + [c]) == WordLength(s)
  {
    if s == [] {
      assert (s + [c])[0] == c;
    } else if !IsWhitespace(s[0]) {
      assert (s + [c])[1..] == s[1..] + [c];
      WordLengthStops(s[1..], c);
    }
  }

  /** Whitespace at the end of a line is no part of its words. */
  lemma {:induction false} SplitIgnoresTrailing(s: string, c: char)
    requires IsWhitespace(c)
    ensures SplitWhitespace(s + [c]) == SplitWhitespace(s)
    decreases |s|
  {
    hide IsWhitespace;
    if s == [] {
      assert (s + [c])[0] == c && (s + [c])[1..] == [];
      assert SplitWhitespace([]) == [];
    } else if IsWhitespace(s[0]) {
      assert (s + [c])[1..] == s[1..] + [c];
      SplitIgnoresTrailing(s[1..], c);
    } else {
      var n := WordLength(s);
      WordLengthStops(s, c);
      assert (s + [c])[..n] == s[..n] && (s + [c])[n..] == s[n..] + [c];
      SplitIgnoresTrailing(s[n..], c);
    }
  }

  /** The parser refuses exactly the inputs whose first line has fewer than two words. */
  lemma RefusedIffNoTarget(raw: string)
    ensures Parse(raw) == None <==> |SplitWhitespace(raw[..IndexOf(raw, '\n')])| < 2
  {
    var first := raw[..IndexOf(raw, '\n')];
    hide SplitWhitespace, ParseHeaders, BodyAfterBlankLine;
    if raw == "" {
      assert SplitWhitespace("") == [] by { NoWords(); }
    } else {
      assert raw[..|raw|] == raw;
      if first != "" && first[|first| - 1] == '\r' {
        assert first == first[..|first| - 1] + ['\r'];
        SplitIgnoresTrailing(first[..|first| - 1], '\r');
      }
    }
  }

  lemma NoWords()
    ensures SplitWhitespace("") == []
  {
  }

  /** A line without a colon among the headers is skipped. */
  lemma LineWithoutColonIsSkipped(line: string, more: seq<string>)
    requires line != "" && ':' !in line
    ensures ParseHeaders([line] + more) == ParseHeaders(more)
  {
    assert IndexOf(line, ':') == |line|;
    assert ([line] + more)[1..] == more && [] + ParseHeaders(more).0 == ParseHeaders(more).0;
  }

  lemma {:induction false} FieldsWithoutEnd(fields: seq<Field>)
    requires forall i :: 0 <= i < |fields| ==> WellformedField(fields[i])
    ensures ParseHeaders(FieldLines(fields)) == (Headers(fields), false)
  {
    hide FieldLine, ParseHeader, IsHeadLine, WellformedField;
    if fields != [] {
      FieldLineIsHeadLine(fields[0]);
      HeadLineNotEmpty(FieldLine(fields[0]));
      FieldParses(fields[0]);
      FieldsWithoutEnd(fields[1..]);
    }
  }

  /** A head that ends before its empty line has all its fields and no body. */
  lemma UnfinishedHeadHasNoBody(m: Message)
    requires Wellformed(m)
    ensures Parse(Block(HeadLines(m), "\r\n")) == Some(Meaning(m).(body := ""))
  {
    HeadLinesAreFine(m);
    RequestLineParses(m);
    FieldsWithoutEnd(m.fields);
    hide SplitWhitespace, BodyAfterBlankLine, IsHeadLine, FieldLines, ParseHeaders, RequestLine, Wellformed, Block;
    var block := Block(HeadLines(m), CRLF);
    LinesOfBlock(HeadLines(m), CRLF, "");
    assert block + "" == block && Lines("") == [];
    hide Lines;
    assert Lines(block) == HeadLines(m) + [] == HeadLines(m);
    assert HeadLines(m)[1..] == FieldLines(m.fields);
  }
}

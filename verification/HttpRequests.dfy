/** parse_http_request, and the requests it reads back exactly. */
module HttpRequests {
  import opened Text
  import opened Wrappers

  datatype Header = Header(name: string, value: string)

  datatype Request = Request(method_: string, path: string, headers: seq<Header>, body: string)

  // ---------- str::lines, split_once, find ----------

  function DropReturn(line: string): string {
    if line != [] && line[|line| - 1] == '\r' then line[..|line| - 1] else line
  }

  /** Lines end in LF or CRLF; a last line without an end counts unless it is empty. */
  function Lines(s: string): seq<string>
    decreases |s|
  {
    if s == [] then []
    else
      var i := IndexOf(s, '\n');
      if i == |s| then [s] else [DropReturn(s[..i])] + Lines(s[i + 1..])
  }

  /** `pattern` occurs at position k. */
  predicate At(s: string, pattern: string, k: nat) {
    k + |pattern| <= |s| && s[k..k + |pattern|] == pattern
  }

  /** Position of the first occurrence of `pattern`. */
  function Find(s: string, pattern: string): (p: Option<nat>)
    ensures p.Some? ==> At(s, pattern, p.value)
    decreases |s|
  {
    if |s| < |pattern| then None
    else if s[..|pattern|] == pattern then Some(0)
    else if s == [] then None
    else match Find(s[1..], pattern)
      case None => None
      case Some(p) => Some(p + 1)
  }

  const CRLF: string := "\r\n"
  const CRLFCRLF: string := "\r\n\r\n"
  const LFLF: string := "\n\n"

  // ---------- the parser ----------

  function ParseHeader(line: string): seq<Header> {
    var i := IndexOf(line, ':');
    if i == |line| then [] else [Header(Trim(line[..i]), Trim(line[i + 1..]))]
  }

  /** Headers up to the first empty line, and whether there was one. */
  function ParseHeaders(lines: seq<string>): (seq<Header>, bool) {
    if lines == [] then ([], false)
    else if lines[0] == "" then ([], true)
    else
      var (rest, ended) := ParseHeaders(lines[1..]);
      (ParseHeader(lines[0]) + rest, ended)
  }

  function BodyAfterBlankLine(raw: string): string {
    match Find(raw, CRLFCRLF)
    case Some(p) => raw[p + 4..]
    case None =>
      match Find(raw, LFLF)
      case Some(p) => raw[p + 2..]
      case None => ""
  }

  /** The target up to its first "?", or all of it. */
  function BeforeQuery(target: string): (path: string)
    ensures path <= target && '?' !in path && (path == target || target[|path|] == '?')
  {
    target[..IndexOf(target, '?')]
  }

  function Parse(raw: string): Option<Request> {
    var lines := Lines(raw);
    if lines == [] then None
    else
      var parts := SplitWhitespace(lines[0]);
      if |parts| < 2 then None
      else
        var (headers, ended) := ParseHeaders(lines[1..]);
        Some(Request(parts[0], BeforeQuery(parts[1]), headers, if ended then BodyAfterBlankLine(raw) else ""))
  }

  method ParseHttpRequest(raw: string) returns (r: Option<Request>)
    ensures r == Parse(raw)
  {
    hide Lines, ParseHeaders, Find, SplitWhitespace, BeforeQuery;
    var lines := Lines(raw);
    if lines == [] { return None; }
    var parts := SplitWhitespace(lines[0]);
    if |parts| < 2 { return None; }
    var headers, headerEnd := ReadHeaders(lines[1..]);
    var body := "";
    if headerEnd {
      match Find(raw, CRLFCRLF)
      case Some(p) => body := raw[p + 4..];
      case None =>
        match Find(raw, LFLF)
        case Some(p) => body := raw[p + 2..];
        case None =>
    }
    var path := BeforeQuery(parts[1]);
    r := Some(Request(parts[0], path, headers, body));
  }

  /** The header loop. */
  method ReadHeaders(lines: seq<string>) returns (headers: seq<Header>, headerEnd: bool)
    ensures (headers, headerEnd) == ParseHeaders(lines)
  {
    headers := [];
    assert lines[0..] == lines && [] + ParseHeaders(lines).0 == ParseHeaders(lines).0;
    for i := 0 to |lines|
      invariant ParseHeaders(lines) == Prepended(headers, ParseHeaders(lines[i..]))
    {
      var line := lines[i];
      if line == "" {
        assert headers + [] == headers;
        return headers, true;
      }
      PrependOne(headers, ParseHeader(line), ParseHeaders(lines[i..][1..]));
      assert lines[i..][1..] == lines[i + 1..];
      var colon := IndexOf(line, ':');
      if colon < |line| {
        headers := headers + [Header(Trim(line[..colon]), Trim(line[colon + 1..]))];
      } else {
        assert headers + [] == headers;
      }
    }
    assert headers + [] == headers;
    headerEnd := false;
  }

  function Prepended(headers: seq<Header>, more: (seq<Header>, bool)): (seq<Header>, bool) {
    (headers + more.0, more.1)
  }

  lemma PrependOne(headers: seq<Header>, next: seq<Header>, more: (seq<Header>, bool))
    ensures Prepended(headers, Prepended(next, more)) == Prepended(headers + next, more)
  {
    assert headers + (next + more.0) == headers + next + more.0;
  }
}

/** Newline framing of a character stream: the complete lines of what has arrived, and the rest. */
module LineFraming {
  import opened Sequences
  import opened Text

  function CompleteLines(s: string): seq<string>
    decreases |s|
  {
    var i := IndexOf(s, '\n');
    if i == |s| then [] else [s[..i]] + CompleteLines(s[i + 1..])
  }

  /** The part after the last newline. */
  function Rest(s: string): (r: string)
    ensures '\n' !in r && |r| <= |s|
    decreases |s|
  {
    var i := IndexOf(s, '\n');
    if i == |s| then s else Rest(s[i + 1..])
  }

  /** The lines, each with its newline. */
  function Written(lines: seq<string>): string {
    if lines == [] then "" else lines[0] + "\n" + Written(lines[1..])
  }

  /** Nothing is lost and no line has a newline inside: the lines with their newlines and the rest are
      the input. */
  lemma {:induction false} LinesAndRestAreTheInput(s: string)
    ensures Written(CompleteLines(s)) + Rest(s) == s
    ensures forall i :: 0 <= i < |CompleteLines(s)| ==> '\n' !in CompleteLines(s)[i]
    decreases |s|
  {
    var i := IndexOf(s, '\n');
    hide IndexOf;
    if i < |s| {
      LinesAndRestAreTheInput(s[i + 1..]);
      assert s == s[..i] + "\n" + s[i + 1..];
      assert CompleteLines(s)[1..] == CompleteLines(s[i + 1..]);
    }
  }

  /** Whatever lines and rest are written come out again. */
  lemma {:induction false} WrittenLinesComeBack(lines: seq<string>, rest: string)
    requires '\n' !in rest && forall i :: 0 <= i < |lines| ==> '\n' !in lines[i]
    ensures CompleteLines(Written(lines) + rest) == lines && Rest(Written(lines) + rest) == rest
    decreases |lines|
  {
    if lines == [] {
      assert "" + rest == rest;
    } else {
      WrittenLinesComeBack(lines[1..], rest);
      FirstLineComesBack(lines[0], Written(lines[1..]) + rest);
      assert Written(lines) + rest == lines[0] + "\n" + (Written(lines[1..]) + rest);
    }
  }

  lemma FirstLineComesBack(line: string, more: string)
    requires '\n' !in line
    ensures CompleteLines(line + "\n" + more) == [line] + CompleteLines(more)
    ensures Rest(line + "\n" + more) == Rest(more)
  {
    var s := line + "\n" + more;
    assert s[|line|] == '\n' && forall k :: 0 <= k < |line| ==> s[k] == line[k];
    IndexOfFirst(s, '\n', |line|);
    assert s[..|line|] == line && s[|line| + 1..] == more;
  }

  predicate EndsLine(s: string) { s != "" && s[|s| - 1] == '\n' }

  lemma {:induction false} FrontOfRest(s: string) returns (front: string)
    ensures s == front + Rest(s) && (front == "" || EndsLine(front))
    decreases |s|
  {
    var i := IndexOf(s, '\n');
    hide IndexOf;
    if i < |s| {
      var more := FrontOfRest(s[i + 1..]);
      assert Rest(s) == Rest(s[i + 1..]);
      hide Rest;
      front := s[..i + 1] + more;
      OneMoreLine(s, i, more, Rest(s));
    } else {
      front := "";
    }
  }

  lemma OneMoreLine(s: string, i: nat, more: string, rest: string)
    requires i < |s| && s[i] == '\n' && s[i + 1..] == more + rest && (more == "" || EndsLine(more))
    ensures s == s[..i + 1] + more + rest && EndsLine(s[..i + 1] + more)
  {
    assert s == s[..i + 1] + s[i + 1..];
  }

  /** What is kept is the end of the input, right after its last newline. */
  lemma RestIsTheEnd(s: string)
    ensures s[|s| - |Rest(s)|..] == Rest(s)
    ensures |Rest(s)| < |s| ==> s[|s| - |Rest(s)| - 1] == '\n'
  {
    hide Rest;
    var front := FrontOfRest(s);
    assert |front| == |s| - |Rest(s)|;
  }

  lemma IndexOfPrefix(s: string, more: string)
    ensures '\n' in s ==> IndexOf(s + more, '\n') == IndexOf(s, '\n')
    ensures '\n' !in s ==> IndexOf(s, '\n') == |s|
  {
    var i := IndexOf(s, '\n');
    if i < |s| {
      IndexOfFirst(s + more, '\n', i);
    }
  }

  /** Splitting what arrives later is splitting the kept rest together with it. */
  lemma {:induction false} FramingComposes(s: string, more: string)
    ensures CompleteLines(s + more) == CompleteLines(s) + CompleteLines(Rest(s) + more)
    ensures Rest(s + more) == Rest(Rest(s) + more)
    decreases |s|
  {
    hide IndexOf;
    IndexOfPrefix(s, more);
    var i := IndexOf(s, '\n');
    if i < |s| {
      assert (s + more)[..i] == s[..i] && (s + more)[i + 1..] == s[i + 1..] + more;
      FramingComposes(s[i + 1..], more);
      Associate([s[..i]], CompleteLines(s[i + 1..]), CompleteLines(Rest(s) + more));
    } else {
      assert [] + CompleteLines(s + more) == CompleteLines(s + more);
    }
  }
}

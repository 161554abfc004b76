/** `text.split(/\n+/)` and `Array.prototype.join`: transcript text cut into
    caption lines at every maximal run of newlines. */
module TextLines {

  /** Index of the first newline, or the length when there is none. */
  function FirstNewline(t: string): (k: nat)
    ensures k <= |t|
  {
    if |t| == 0 || t[0] == '\n' then 0 else 1 + FirstNewline(t[1..])
  }

  /** The first line ends at the first newline: there is none before it, and
      one at it unless the text ends there. */
  lemma {:induction false} FirstNewlineSpec(t: string)
    ensures '\n' !in t[..FirstNewline(t)]
    ensures FirstNewline(t) < |t| ==> t[FirstNewline(t)] == '\n'
  {
    if |t| > 0 && t[0] != '\n' {
      FirstNewlineSpec(t[1..]);
      var k := FirstNewline(t);
      assert t[..k] == [t[0]] + t[1..][..k - 1];
    }
  }

  /** What follows a run of leading newlines. */
  function SkipNewlines(t: string): (r: string)
    ensures |r| <= |t|
  {
    if |t| > 0 && t[0] == '\n' then SkipNewlines(t[1..]) else t
  }

  /** Skipping drops a whole leading run: what remains is a suffix that does
      not start with a newline, and only newlines were dropped. */
  lemma {:induction false} SkipNewlinesSpec(t: string)
    ensures var r := SkipNewlines(t);
      && r == t[|t| - |r|..]
      && (r == [] || r[0] != '\n')
      && forall i :: 0 <= i < |t| - |r| ==> t[i] == '\n'
  {
    if |t| > 0 && t[0] == '\n' {
      SkipNewlinesSpec(t[1..]);
      var r := SkipNewlines(t);
      assert t[1..][|t| - 1 - |r|..] == t[|t| - |r|..];
      forall i | 0 < i < |t| - |r| ensures t[i] == '\n' {
        assert t[1..][i - 1] == t[i];
      }
    }
  }

  /** text.split(/\n+/): the pieces between maximal newline runs, empty
      pieces included; the empty text splits into one empty piece. */
  function SplitLines(t: string): (lines: seq<string>)
    ensures |lines| >= 1
    decreases |t|
  {
    var k := FirstNewline(t);
    if k == |t| then [t]
    else [t[..k]] + SplitLines(SkipNewlines(t[k + 1..]))
  }

  /** parts.join(sep). */
  function Join(parts: seq<string>, sep: string): (r: string)
    ensures |parts| > 0 ==> |r| >= |parts[0]| && r[..|parts[0]|] == parts[0]
    ensures |parts| > 0 ==> |r| >= |parts[|parts| - 1]| && r[|r| - |parts[|parts| - 1]|..] == parts[|parts| - 1]
  {
    if |parts| == 0 then ""
    else if |parts| == 1 then parts[0]
    else parts[0] + sep + Join(parts[1..], sep)
  }

  /** Reference: the number of maximal newline runs, counted at the last
      newline of each run. */
  function NewlineRuns(t: string): nat
  {
    if |t| == 0 then 0
    else if t[0] == '\n' && (|t| == 1 || t[1] != '\n') then 1 + NewlineRuns(t[1..])
    else NewlineRuns(t[1..])
  }

  /** Reference: the text with every newline run shortened to one newline. */
  function CollapseNewlines(t: string): string
  {
    if |t| == 0 then ""
    else if t[0] == '\n' && |t| > 1 && t[1] == '\n' then CollapseNewlines(t[1..])
    else [t[0]] + CollapseNewlines(t[1..])
  }

  /** Pieces that a split can give back: none holds a newline, and only the
      first and the last may be empty. */
  predicate Splittable(parts: seq<string>)
  {
    |parts| >= 1
    && (forall i :: 0 <= i < |parts| ==> '\n' !in parts[i])
    && (forall i :: 0 < i < |parts| - 1 ==> parts[i] != "")
  }

  lemma {:induction false} PlainPrefix(t: string, k: nat)
    requires k <= |t| && '\n' !in t[..k]
    ensures NewlineRuns(t) == NewlineRuns(t[k..])
    ensures CollapseNewlines(t) == t[..k] + CollapseNewlines(t[k..])
  {
    if k > 0 {
      assert t[0] in t[..k];
      assert t[1..][..k - 1] == t[1..k];
      assert t[1..][..k - 1] == t[..k][1..];
      PlainPrefix(t[1..], k - 1);
      assert t[1..][k - 1..] == t[k..];
      assert t[..k] == [t[0]] + t[1..k];
    }
  }

  lemma {:induction false} LeadingRun(t: string)
    requires |t| > 0 && t[0] == '\n'
    ensures NewlineRuns(t) == 1 + NewlineRuns(SkipNewlines(t))
    ensures CollapseNewlines(t) == "\n" + CollapseNewlines(SkipNewlines(t))
  {
    if |t| > 1 && t[1] == '\n' {
      LeadingRun(t[1..]);
    }
  }

  /** The split yields one more piece than the text has newline runs. */
  lemma {:induction false} SplitLinesCount(t: string)
    ensures |SplitLines(t)| == NewlineRuns(t) + 1
    decreases |t|
  {
    var k := FirstNewline(t);
    FirstNewlineSpec(t);
    PlainPrefix(t, k);
    if k == |t| {
      assert t[k..] == [];
    } else {
      var rest := SkipNewlines(t[k + 1..]);
      LeadingRun(t[k..]);
      assert t[k..][1..] == t[k + 1..];
      SplitLinesCount(rest);
    }
  }

  /** Joining the pieces with single newlines gives the text back with each
      newline run collapsed: nothing is lost, reordered or added. */
  lemma {:induction false} SplitLinesJoin(t: string)
    ensures Join(SplitLines(t), "\n") == CollapseNewlines(t)
    decreases |t|
  {
    var k := FirstNewline(t);
    FirstNewlineSpec(t);
    PlainPrefix(t, k);
    if k == |t| {
      assert t[k..] == [] && t[..k] == t;
    } else {
      var rest := SkipNewlines(t[k + 1..]);
      var restLines := SplitLines(rest);
      assert SplitLines(t) == [t[..k]] + restLines;
      LeadingRun(t[k..]);
      assert t[k..][1..] == t[k + 1..];
      SplitLinesJoin(rest);
      JoinCons(t[..k], restLines, "\n");
      var c := CollapseNewlines(rest);
      calc {
        Join(SplitLines(t), "\n");
        t[..k] + "\n" + Join(restLines, "\n");
        t[..k] + "\n" + c;
        { ConcatAssoc(t[..k], "\n", c); }
        t[..k] + ("\n" + c);
        t[..k] + CollapseNewlines(t[k..]);
      }
    }
  }

  lemma ConcatAssoc(a: string, b: string, c: string)
    ensures a + b + c == a + (b + c)
  {
  }

  lemma JoinCons(head: string, parts: seq<string>, sep: string)
    requires |parts| >= 1
    ensures Join([head] + parts, sep) == head + sep + Join(parts, sep)
  {
    assert ([head] + parts)[1..] == parts;
  }

  /** Every split is splittable: only an end piece can be empty. */
  lemma {:induction false} SplitLinesShape(t: string)
    ensures Splittable(SplitLines(t))
    ensures SplitLines(t)[0] == "" <==> (t == "" || t[0] == '\n')
    decreases |t|
  {
    if FirstNewline(t) == |t| {
      FirstNewlineSpec(t);
      assert t[..|t|] == t;
      assert SplitLines(t) == [t];
    } else {
      var first, rest := SplitLinesStep(t);
      SplitLinesShape(rest);
      ConsShape(first, SplitLines(rest), rest);
    }
  }

  /** The first step of a split that meets a newline. */
  lemma SplitLinesStep(t: string) returns (first: string, rest: string)
    requires FirstNewline(t) < |t|
    ensures SplitLines(t) == [first] + SplitLines(rest) && |rest| < |t|
    ensures '\n' !in first && (first == "" <==> t[0] == '\n')
    ensures rest == [] || rest[0] != '\n'
  {
    var k := FirstNewline(t);
    FirstNewlineSpec(t);
    SkipNewlinesSpec(t[k + 1..]);
    first, rest := t[..k], SkipNewlines(t[k + 1..]);
  }

  /** A first line in front of the split of a text that does not start with
      a newline keeps the split splittable. */
  lemma ConsShape(first: string, more: seq<string>, rest: string)
    requires '\n' !in first && Splittable(more)
    requires more[0] == "" <==> (rest == "" || rest[0] == '\n')
    requires rest == [] || rest[0] != '\n'
    requires |more| > 1 ==> rest != []
    ensures Splittable([first] + more)
  {
    var lines := [first] + more;
    assert lines[1..] == more;
    forall i | 0 < i < |lines| - 1 ensures lines[i] != "" {
      if i == 1 {
        assert rest != [];
      }
    }
  }

  /** Splitting undoes joining with a newline. */
  lemma {:induction false} SplitJoinInverse(parts: seq<string>)
    requires Splittable(parts)
    ensures SplitLines(Join(parts, "\n")) == parts
  {
    if |parts| == 1 {
      SplitPlain(parts[0]);
    } else {
      SplittableTail(parts);
      SplitJoinInverse(parts[1..]);
      SplitJoinStep(parts);
    }
  }

  /** One step of the induction: the first piece comes off the front. */
  lemma SplitJoinStep(parts: seq<string>)
    requires |parts| >= 2 && '\n' !in parts[0]
    requires var tail := Join(parts[1..], "\n"); tail == [] || tail[0] != '\n'
    requires SplitLines(Join(parts[1..], "\n")) == parts[1..]
    ensures SplitLines(Join(parts, "\n")) == parts
  {
    var tail := Join(parts[1..], "\n");
    SplitCons(Join(parts, "\n"), parts[0], tail);
    HeadTail(parts);
  }

  lemma HeadTail(parts: seq<string>)
    requires |parts| >= 1
    ensures [parts[0]] + parts[1..] == parts
  {
  }

  /** A single line without newlines splits into itself. */
  lemma SplitPlain(line: string)
    requires '\n' !in line
    ensures SplitLines(line) == [line]
  {
    FirstNewlineOfPlain(line, "");
    assert line + "" == line;
  }

  /** Past the first piece, what remains is splittable and its join does not
      start with a newline. */
  lemma SplittableTail(parts: seq<string>)
    requires Splittable(parts) && |parts| >= 2
    ensures '\n' !in parts[0] && Splittable(parts[1..])
    ensures var tail := Join(parts[1..], "\n"); tail == [] || tail[0] != '\n'
  {
    assert '\n' !in parts[1];
    if |parts| > 2 {
      assert parts[1] != "";
      JoinHead(parts[1..], "\n");
    }
  }

  /** A line without newlines, one newline, then text not starting with one. */
  lemma SplitCons(t: string, line: string, rest: string)
    requires t == line + "\n" + rest
    requires '\n' !in line && (rest == [] || rest[0] != '\n')
    ensures SplitLines(t) == [line] + SplitLines(rest)
  {
    assert t == line + ("\n" + rest);
    FirstNewlineOfPlain(line, "\n" + rest);
    assert t[..|line|] == line;
    assert t[|line| + 1..] == rest;
  }

  lemma {:induction false} FirstNewlineOfPlain(a: string, b: string)
    requires '\n' !in a && (b == [] || b[0] == '\n')
    ensures FirstNewline(a + b) == |a|
  {
    if |a| == 0 {
      assert a + b == b;
    } else {
      assert a[0] in a;
      assert (a + b)[1..] == a[1..] + b;
      assert '\n' !in a[1..] by {
        forall i | 0 <= i < |a| - 1 ensures a[1..][i] != '\n' {
          assert a[1..][i] == a[i + 1];
        }
      }
      FirstNewlineOfPlain(a[1..], b);
    }
  }

  lemma JoinHead(parts: seq<string>, sep: string)
    requires |parts| >= 1 && parts[0] != ""
    ensures Join(parts, sep) != [] && Join(parts, sep)[0] == parts[0][0]
  {
  }
}

/** createSRTContent: transcript text rendered as a SubRip caption track,
    one caption per line, each shown for a fixed two seconds; and a reader
    for that layout, which recovers the caption track from the text. */
module Srt {
  import opened Wrappers
  import opened Digits
  import opened Clock
  import opened TextLines

  /** One caption of a track: its sequence number, the times of day (in
      seconds) its stamps show, and its line of text. */
  datatype Caption = Caption(index: nat, start: nat, end: nat, text: string)

  /** The timing line of block `index` (0-based): from second 2 * index to
      second 2 * index + 2. */
  function TimingLine(index: nat): (r: string)
    ensures |r| == 29 && r[12..17] == " --> "
    ensures ParseTime(r[..12]) == Some((index * 2) % SecondsPerDay)
    ensures ParseTime(r[17..]) == Some(((index + 1) * 2) % SecondsPerDay)
  {
    var start := FormatTime(index * 2);
    var end := FormatTime((index + 1) * 2);
    FormatTimeRoundTrip(index * 2);
    FormatTimeRoundTrip((index + 1) * 2);
    assert (start + " --> " + end)[..12] == start;
    assert (start + " --> " + end)[17..] == end;
    start + " --> " + end
  }

  /** Block `index` (0-based): sequence number, timing line, caption line. */
  function SrtBlock(index: nat, line: string): (r: string)
    ensures |r| == |Decimal(index + 1)| + 31 + |line|
    ensures r[|r| - |line|..] == line
  {
    Decimal(index + 1) + "\n" + TimingLine(index) + "\n" + line
  }

  /** lines.map((line, index) => ...) with the indices counted from `first`. */
  function SrtBlocks(lines: seq<string>, first: nat): (blocks: seq<string>)
    ensures |blocks| == |lines|
  {
    if |lines| == 0 then [] else [SrtBlock(first, lines[0])] + SrtBlocks(lines[1..], first + 1)
  }

  /** createSRTContent(text). */
  function CreateSrtContent(text: string): (r: string)
    ensures |r| >= 32
  {
    Join(SrtBlocks(SplitLines(text), 0), "\n\n")
  }

  /** Reads one block: digits, a newline, a timing line, a newline, then the
      caption up to the next newline. Returns the caption and what follows
      it. */
  function ParseBlock(s: string): (r: Option<(Caption, string)>)
    ensures r.Some? ==> |r.value.1| < |s|
  {
    var k := FirstNewline(s);
    if k == 0 || k == |s| || !AllDigits(s[..k]) then None
    else
      match ParseTiming(s[k + 1..])
      case None => None
      case Some((start, end, body)) =>
        var j := FirstNewline(body);
        Some((Caption(Value(s[..k]), start, end, body[..j]), body[j..]))
  }

  /** Reads a 29-character timing line `start --> end` and its newline;
      returns both times of day and what follows. */
  function ParseTiming(t: string): (r: Option<(nat, nat, string)>)
    ensures r.Some? ==> |r.value.2| < |t|
  {
    if |t| < 30 || t[12..17] != " --> " || t[29] != '\n' then None
    else
      match (ParseTime(t[..12]), ParseTime(t[17..29]))
      case (Some(start), Some(end)) => Some((start, end, t[30..]))
      case _ => None
  }

  /** Reads a whole track: blocks separated by one blank line. */
  function ParseSrt(s: string): Option<seq<Caption>>
    decreases |s|
  {
    match ParseBlock(s)
    case None => None
    case Some((c, rest)) =>
      if rest == [] then Some([c])
      else if |rest| >= 2 && rest[..2] == "\n\n" then
        match ParseSrt(rest[2..])
        case None => None
        case Some(cs) => Some([c] + cs)
      else None
  }

  /** The number line of a block: digits up to the first newline. */
  lemma HeaderLayout(s: string, d: string, after: string)
    requires s == d + ("\n" + after) && '\n' !in d
    ensures FirstNewline(s) == |d| && s[..|d|] == d && s[|d| + 1..] == after
  {
    FirstNewlineOfPlain(d, "\n" + after);
    assert s[|d|..] == "\n" + after;
  }

  /** A timing line made of two stamps the reader accepts. */
  lemma TimingLayout(t: string, f1: string, f2: string, body: string)
    requires t == f1 + " --> " + f2 + "\n" + body
    requires |f1| == 12 && |f2| == 12 && ParseTime(f1).Some? && ParseTime(f2).Some?
    ensures ParseTiming(t) == Some((ParseTime(f1).value, ParseTime(f2).value, body))
  {
    assert t[..12] == f1 && t[12..17] == " --> " && t[17..29] == f2 && t[29] == '\n' && t[30..] == body;
  }

  /** The caption line runs up to the newline that starts the tail. */
  lemma LineLayout(body: string, line: string, tail: string)
    requires body == line + tail && '\n' !in line && (tail == [] || tail[0] == '\n')
    ensures FirstNewline(body) == |line| && body[..|line|] == line && body[|line|..] == tail
  {
    FirstNewlineOfPlain(line, tail);
  }

  /** The reader on any text laid out as a block followed by a tail. */
  lemma ParseBlockLayout(s: string, d: string, after: string, start: nat, end: nat, line: string, tail: string)
    requires s == d + ("\n" + after)
    requires |d| > 0 && AllDigits(d)
    requires ParseTiming(after) == Some((start, end, line + tail))
    requires '\n' !in line && (tail == [] || tail[0] == '\n')
    ensures ParseBlock(s) == Some((Caption(Value(d), start, end, line), tail))
  {
    DigitsHaveNoNewline(d);
    HeaderLayout(s, d, after);
    LineLayout(line + tail, line, tail);
  }

  lemma BlockShape(d: string, timing: string, line: string, tail: string)
    ensures d + "\n" + timing + "\n" + line + tail == d + ("\n" + (timing + "\n" + (line + tail)))
  {
    ConcatAssoc(d + "\n" + timing + "\n", line, tail);
    ConcatAssoc(d + "\n" + timing, "\n", line + tail);
    ConcatAssoc(d + "\n", timing, "\n" + (line + tail));
    ConcatAssoc(timing, "\n", line + tail);
    ConcatAssoc(d, "\n", timing + "\n" + (line + tail));
  }

  /** Reading a block back gives its number, its start and end as times of
      day, and its caption, and leaves what followed it untouched. */
  lemma ParseBlockOf(index: nat, line: string, tail: string)
    requires '\n' !in line && (tail == [] || tail[0] == '\n')
    ensures ParseBlock(SrtBlock(index, line) + tail)
         == Some((Caption(index + 1, (index * 2) % SecondsPerDay, ((index + 1) * 2) % SecondsPerDay, line), tail))
  {
    var d := Decimal(index + 1);
    var after := TimingLine(index) + "\n" + (line + tail);
    BlockShape(d, TimingLine(index), line, tail);
    TimingOf(index, line + tail);
    DecimalValue(index + 1);
    ParseBlockLayout(SrtBlock(index, line) + tail, d, after, (index * 2) % SecondsPerDay, ((index + 1) * 2) % SecondsPerDay, line, tail);
  }

  /** A block's timing line reads back as its two times of day. */
  lemma TimingOf(index: nat, rest: string)
    ensures ParseTiming(TimingLine(index) + "\n" + rest) == Some(((index * 2) % SecondsPerDay, ((index + 1) * 2) % SecondsPerDay, rest))
  {
    FormatTimeRoundTrip(index * 2);
    FormatTimeRoundTrip((index + 1) * 2);
    TimingLayout(TimingLine(index) + "\n" + rest, FormatTime(index * 2), FormatTime((index + 1) * 2), rest);
  }

  /** The caption expected for line `line` read back as block `index`. */
  function CaptionAt(index: nat, line: string): Caption
  {
    Caption(index + 1, (index * 2) % SecondsPerDay, ((index + 1) * 2) % SecondsPerDay, line)
  }

  lemma ParseLastBlock(index: nat, line: string)
    requires '\n' !in line
    ensures ParseSrt(SrtBlock(index, line)) == Some([CaptionAt(index, line)])
  {
    ParseBlockOf(index, line, []);
    assert SrtBlock(index, line) + [] == SrtBlock(index, line);
  }

  lemma ParseInnerBlock(index: nat, line: string, rest: string, cs: seq<Caption>)
    requires '\n' !in line && ParseSrt(rest) == Some(cs)
    ensures ParseSrt(SrtBlock(index, line) + "\n\n" + rest) == Some([CaptionAt(index, line)] + cs)
  {
    var tail := "\n\n" + rest;
    ConcatAssoc(SrtBlock(index, line), "\n\n", rest);
    ParseBlockOf(index, line, tail);
    assert tail[..2] == "\n\n" && tail[2..] == rest;
  }

  /** The captions expected for consecutive lines numbered from `first`. */
  function TrackFrom(lines: seq<string>, first: nat): (track: seq<Caption>)
    ensures |track| == |lines|
  {
    if |lines| == 0 then [] else [CaptionAt(first, lines[0])] + TrackFrom(lines[1..], first + 1)
  }

  lemma {:induction false} TrackFromAt(lines: seq<string>, first: nat, i: nat)
    requires i < |lines|
    ensures TrackFrom(lines, first)[i] == CaptionAt(first + i, lines[i])
  {
    if i > 0 {
      TrackFromAt(lines[1..], first + 1, i - 1);
    }
  }

  /** Reading back the blocks of consecutive lines, numbered from `first`. */
  lemma {:induction false} ParseBlocks(lines: seq<string>, first: nat)
    requires |lines| >= 1 && forall i :: 0 <= i < |lines| ==> '\n' !in lines[i]
    ensures ParseSrt(Join(SrtBlocks(lines, first), "\n\n")) == Some(TrackFrom(lines, first))
  {
    if |lines| == 1 {
      ParseOnlyBlock(lines, first);
    } else {
      ParseBlocks(lines[1..], first + 1);
      ParseBlocksStep(lines, first);
    }
  }

  lemma ParseOnlyBlock(lines: seq<string>, first: nat)
    requires |lines| == 1 && '\n' !in lines[0]
    ensures ParseSrt(Join(SrtBlocks(lines, first), "\n\n")) == Some(TrackFrom(lines, first))
  {
    ParseLastBlock(first, lines[0]);
    assert lines[1..] == [];
    assert SrtBlocks(lines, first) == [SrtBlock(first, lines[0])];
    assert Join(SrtBlocks(lines, first), "\n\n") == SrtBlock(first, lines[0]);
    assert TrackFrom(lines, first) == [CaptionAt(first, lines[0])];
  }

  lemma ParseBlocksStep(lines: seq<string>, first: nat)
    requires |lines| >= 2 && '\n' !in lines[0]
    requires ParseSrt(Join(SrtBlocks(lines[1..], first + 1), "\n\n")) == Some(TrackFrom(lines[1..], first + 1))
    ensures ParseSrt(Join(SrtBlocks(lines, first), "\n\n")) == Some(TrackFrom(lines, first))
  {
    var head := SrtBlock(first, lines[0]);
    var later := SrtBlocks(lines[1..], first + 1);
    assert SrtBlocks(lines, first) == [head] + later;
    JoinCons(head, later, "\n\n");
    ParseInnerBlock(first, lines[0], Join(later, "\n\n"), TrackFrom(lines[1..], first + 1));
  }

  /** The caption track of a transcript: caption i (0-based) is numbered
      i + 1, shows line i of the split, and runs from second 2i to second
      2i + 2, written as times of day. */
  function CaptionTrack(text: string): seq<Caption>
  {
    TrackFrom(SplitLines(text), 0)
  }

  /** Reading the caption text back gives exactly the caption track. */
  lemma CreateSrtContentRoundTrip(text: string)
    ensures ParseSrt(CreateSrtContent(text)) == Some(CaptionTrack(text))
  {
    SplitLinesShape(text);
    ParseBlocks(SplitLines(text), 0);
  }

  /** The track has one caption more than the transcript has newline runs,
      numbered from 1, the i-th showing the i-th line from second 2i to
      second 2i + 2. */
  lemma CaptionTrackShape(text: string)
    ensures var lines, track := SplitLines(text), CaptionTrack(text);
      && |track| == |lines| == NewlineRuns(text) + 1
      && forall i :: 0 <= i < |lines| ==>
           track[i] == Caption(i + 1, (i * 2) % SecondsPerDay, ((i + 1) * 2) % SecondsPerDay, lines[i])
  {
    var lines := SplitLines(text);
    SplitLinesCount(text);
    forall i | 0 <= i < |lines|
      ensures TrackFrom(lines, 0)[i] == Caption(i + 1, (i * 2) % SecondsPerDay, ((i + 1) * 2) % SecondsPerDay, lines[i])
    {
      TrackFromAt(lines, 0, i);
    }
  }

  /** Each caption ends exactly when the next one begins. */
  lemma CaptionsAdjoin(text: string, i: nat)
    requires i + 1 < |CaptionTrack(text)|
    ensures CaptionTrack(text)[i].end == CaptionTrack(text)[i + 1].start
  {
    var lines := SplitLines(text);
    TrackFromAt(lines, 0, i);
    TrackFromAt(lines, 0, i + 1);
  }

  /** The captions, read in order and joined by newlines, are the transcript
      with its newline runs collapsed. */
  lemma CaptionTextsJoin(text: string)
    ensures var track := CaptionTrack(text);
      Join(seq(|track|, i requires 0 <= i < |track| => track[i].text), "\n") == CollapseNewlines(text)
  {
    SplitLinesJoin(text);
    CaptionTrackShape(text);
    var track := CaptionTrack(text);
    assert seq(|track|, i requires 0 <= i < |track| => track[i].text) == SplitLines(text);
  }

  /** An empty transcript still gives one caption, with empty text. */
  lemma EmptyTranscript()
    ensures CaptionTrack("") == [Caption(1, 0, 2, "")]
  {
    assert SplitLines("") == [""];
    TrackFromAt([""], 0, 0);
  }
}

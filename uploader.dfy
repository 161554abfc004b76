/** The FileUploader component: the list of chosen files, the processing
    flag, and the run that transcribes every file and downloads one archive
    of caption files. The network is modelled by the responses each file's
    requests receive; the archive library by a map from entry name to text. */
module Uploader {
  import opened Wrappers
  import opened Polling
  import opened TextLines
  import opened Srt

  /** A chosen audio file: its display name and its bytes. */
  datatype SourceFile = SourceFile(name: string, payload: seq<bv8>)

  /** What the remote service does with one file's requests: whether reading
      and uploading the bytes succeeds, whether the transcription request
      succeeds, and its replies to successive status fetches. */
  datatype Responses = Responses(uploadOk: bool, requestOk: bool, replies: seq<Snapshot>)

  datatype FileError =
    | UploadFailed              // "Failed to upload file."
    | TranscriptionRequestFailed  // "Failed to transcribe audio."
    | PollFailed(error: PollError)
    | MissingText               // createSRTContent called on an absent text

  /** How one file's pipeline settles: with the archive entry it adds, with
      an error, or not at all while its job stays unfinished. */
  datatype FileOutcome = Entry(name: string, content: string) | Failed(error: FileError) | Pending

  /** How a run ends. */
  datatype RunOutcome =
    | NoFilesSelected
    | Downloaded(archive: map<string, string>)
    | SomeFailed
    | Unsettled

  /** The archive entry name for a file. */
  function EntryName(file: SourceFile): (r: string)
    ensures |r| == |file.name| + 4
    ensures r[..|file.name|] == file.name && r[|file.name|..] == ".srt"
  {
    file.name + ".srt"
  }

  /** Reference: how one file's pipeline settles. */
  function FileOutcomeOf(file: SourceFile, responses: Responses): FileOutcome
  {
    if !responses.uploadOk then Failed(UploadFailed)
    else if !responses.requestOk then Failed(TranscriptionRequestFailed)
    else
      match PollOutcomeOf(responses.replies)
      case StillWaiting => Pending
      case Rejected(e) => Failed(PollFailed(e))
      case Resolved(None) => Failed(MissingText)
      case Resolved(Some(text)) => Entry(EntryName(file), CreateSrtContent(text))
  }

  /** Reference: the archive after the given pipelines have added their
      entries, one after the other; a later entry of the same name replaces
      an earlier one. */
  function ArchiveOf(outcomes: seq<FileOutcome>): map<string, string>
  {
    if |outcomes| == 0 then map[]
    else
      var before := ArchiveOf(outcomes[..|outcomes| - 1]);
      var last := outcomes[|outcomes| - 1];
      if last.Entry? then before[last.name := last.content] else before
  }

  lemma ArchiveOfAppend(outcomes: seq<FileOutcome>, last: FileOutcome)
    ensures ArchiveOf(outcomes + [last])
         == if last.Entry? then ArchiveOf(outcomes)[last.name := last.content] else ArchiveOf(outcomes)
  {
    assert (outcomes + [last])[..|outcomes|] == outcomes;
  }

  /** Reference: the pipelines' outcomes, in the order of the files. */
  function OutcomesOf(files: seq<SourceFile>, responses: seq<Responses>): (outcomes: seq<FileOutcome>)
    requires |responses| == |files|
    ensures |outcomes| == |files|
    ensures forall i :: 0 <= i < |files| ==> outcomes[i] == FileOutcomeOf(files[i], responses[i])
  {
    seq(|files|, i requires 0 <= i < |files| => FileOutcomeOf(files[i], responses[i]))
  }

  predicate AnyFailed(outcomes: seq<FileOutcome>) {
    exists i :: 0 <= i < |outcomes| && outcomes[i].Failed?
  }

  predicate AnyPending(outcomes: seq<FileOutcome>) {
    exists i :: 0 <= i < |outcomes| && outcomes[i].Pending?
  }

  /** Reference: how a run over the files ends. Promise.all rejects as soon
      as one pipeline fails, whatever the others are doing. */
  function RunOutcomeOf(files: seq<SourceFile>, responses: seq<Responses>): RunOutcome
    requires |responses| == |files|
  {
    var outcomes := OutcomesOf(files, responses);
    if |files| == 0 then NoFilesSelected
    else if AnyFailed(outcomes) then SomeFailed
    else if AnyPending(outcomes) then Unsettled
    else Downloaded(ArchiveOf(outcomes))
  }

  /** The archive being assembled (a JSZip instance). */
  class Zip {
    var entries: map<string, string>

    constructor ()
      ensures entries == map[]
    {
      entries := map[];
    }

    /** zip.file(name, content): adds the entry, replacing one of that name. */
    method File(name: string, content: string)
      modifies this
      ensures entries == old(entries)[name := content]
    {
      entries := entries[name := content];
    }
  }

  /** One file's pipeline: upload, request a transcript, poll, render the
      captions and add them to the archive. */
  method TranscribeFile(file: SourceFile, responses: Responses, zip: Zip) returns (outcome: FileOutcome)
    modifies zip
    ensures outcome == FileOutcomeOf(file, responses)
    ensures zip.entries == if outcome.Entry? then old(zip.entries)[outcome.name := outcome.content] else old(zip.entries)
  {
    if !responses.uploadOk {
      return Failed(UploadFailed);
    }
    if !responses.requestOk {
      return Failed(TranscriptionRequestFailed);
    }
    var polled, _, _, _ := PollTranscriptionStatus(responses.replies);
    match polled
    case StillWaiting =>
      outcome := Pending;
    case Rejected(e) =>
      outcome := Failed(PollFailed(e));
    case Resolved(None) =>
      outcome := Failed(MissingText);
    case Resolved(Some(text)) =>
      var content := CreateSrtContent(text);
      zip.File(EntryName(file), content);
      outcome := Entry(EntryName(file), content);
  }

  class FileUploader {
    var files: seq<SourceFile>
    var processing: bool

    constructor ()
      ensures files == [] && !processing
    {
      files := [];
      processing := false;
    }

    /** onDrop: the accepted files go after the ones already chosen. */
    method OnDrop(accepted: seq<SourceFile>)
      modifies this
      ensures files == old(files) + accepted
      ensures processing == old(processing)
    {
      files := files + accepted;
    }

    /** uploadAndTranscribe, with `responses[i]` what the service does with
        the requests for `files[i]`. With no files it returns at once. */
    method UploadAndTranscribe(responses: seq<Responses>) returns (outcome: RunOutcome)
      requires |responses| == |files|
      modifies this
      ensures files == old(files)
      ensures outcome == RunOutcomeOf(files, responses)
      ensures processing == if files == [] then old(processing) else outcome.Unsettled?
    {
      if |files| == 0 {
        return NoFilesSelected;
      }
      processing := true;
      var zip := new Zip();
      var outcomes: seq<FileOutcome> := [];
      for i := 0 to |files|
        invariant files == old(files) && processing && |outcomes| == i
        invariant forall j :: 0 <= j < i ==> outcomes[j] == FileOutcomeOf(files[j], responses[j])
        invariant zip.entries == ArchiveOf(outcomes)
      {
        var result := TranscribeFile(files[i], responses[i], zip);
        ArchiveOfAppend(outcomes, result);
        outcomes := outcomes + [result];
      }
      SameOutcomes(outcomes, files, responses);
      if AnyFailed(outcomes) {
        outcome := SomeFailed;
      } else if AnyPending(outcomes) {
        // Promise.all never settles, so the finally clause never runs.
        return Unsettled;
      } else {
        outcome := Downloaded(zip.entries);
      }
      processing := false;
    }
  }

  /** A file's pipeline adds an entry exactly when its upload and its
      transcription request succeed and the first terminal reply is
      "completed" with a text; the entry is named after the file and holds
      captions that read back as that text's caption track. */
  lemma PipelineEntry(file: SourceFile, responses: Responses)
    ensures FileOutcomeOf(file, responses).Entry?
        <==> responses.uploadOk && responses.requestOk
             && exists k: nat :: FirstTerminalAt(responses.replies, k)
                  && responses.replies[k].Fetched? && responses.replies[k].status == "completed"
                  && responses.replies[k].text.Some?
    ensures forall k: nat ::
              responses.uploadOk && responses.requestOk && FirstTerminalAt(responses.replies, k)
              && responses.replies[k].Fetched? && responses.replies[k].status == "completed"
              && responses.replies[k].text.Some?
              ==> var text := responses.replies[k].text.value;
                  && FileOutcomeOf(file, responses) == Entry(EntryName(file), CreateSrtContent(text))
                  && ParseSrt(FileOutcomeOf(file, responses).content) == Some(CaptionTrack(text))
  {
    var replies := responses.replies;
    FirstTerminalDecides(replies);
    if FileOutcomeOf(file, responses).Entry? {
      var k := SettledHasFirstTerminal(replies);
    }
    forall k: nat | responses.uploadOk && responses.requestOk && FirstTerminalAt(replies, k)
        && replies[k].Fetched? && replies[k].status == "completed" && replies[k].text.Some?
      ensures ParseSrt(FileOutcomeOf(file, responses).content) == Some(CaptionTrack(replies[k].text.value))
    {
      CreateSrtContentRoundTrip(replies[k].text.value);
    }
  }

  /** All or nothing: a run downloads an archive exactly when there are files
      and every one of their pipelines adds an entry; one failure anywhere
      means no archive. */
  lemma AllOrNothing(files: seq<SourceFile>, responses: seq<Responses>)
    requires |responses| == |files|
    ensures RunOutcomeOf(files, responses).Downloaded?
        <==> |files| > 0 && forall i :: 0 <= i < |files| ==> FileOutcomeOf(files[i], responses[i]).Entry?
    ensures (exists i :: 0 <= i < |files| && FileOutcomeOf(files[i], responses[i]).Failed?)
        ==> RunOutcomeOf(files, responses) == SomeFailed
  {
    var outcomes := OutcomesOf(files, responses);
    AllEntriesOrNot(outcomes);
    if exists i :: 0 <= i < |files| && FileOutcomeOf(files[i], responses[i]).Failed? {
      var i :| 0 <= i < |files| && FileOutcomeOf(files[i], responses[i]).Failed?;
      assert outcomes[i].Failed?;
    }
  }

  /** Outcomes with no failure and none pending are all entries. */
  lemma AllEntriesOrNot(outcomes: seq<FileOutcome>)
    ensures !AnyFailed(outcomes) && !AnyPending(outcomes)
        <==> forall i :: 0 <= i < |outcomes| ==> outcomes[i].Entry?
  {
    if !AnyFailed(outcomes) && !AnyPending(outcomes) {
      forall i | 0 <= i < |outcomes| ensures outcomes[i].Entry? {
        assert !outcomes[i].Failed? && !outcomes[i].Pending?;
      }
    }
  }

  /** The archive holds one name per entry added, each mapped to the content
      of some entry of that name. */
  lemma {:induction false} ArchiveEntries(outcomes: seq<FileOutcome>)
    ensures forall name :: (name in ArchiveOf(outcomes)
        <==> exists i :: 0 <= i < |outcomes| && outcomes[i].Entry? && outcomes[i].name == name)
    ensures forall name :: name in ArchiveOf(outcomes) ==>
        exists i :: 0 <= i < |outcomes| && outcomes[i] == Entry(name, ArchiveOf(outcomes)[name])
  {
    if |outcomes| > 0 {
      var before := outcomes[..|outcomes| - 1];
      ArchiveEntries(before);
      forall i | 0 <= i < |before| ensures before[i] == outcomes[i] {
      }
    }
  }

  /** When entry names differ, every entry added is in the archive unchanged. */
  lemma {:induction false} ArchiveKeepsDistinct(outcomes: seq<FileOutcome>)
    requires forall i, j :: 0 <= i < j < |outcomes| && outcomes[i].Entry? && outcomes[j].Entry?
               ==> outcomes[i].name != outcomes[j].name
    ensures forall i :: 0 <= i < |outcomes| && outcomes[i].Entry? ==>
              outcomes[i].name in ArchiveOf(outcomes) && ArchiveOf(outcomes)[outcomes[i].name] == outcomes[i].content
  {
    if |outcomes| > 0 {
      var before := outcomes[..|outcomes| - 1];
      ArchiveKeepsDistinct(before);
    }
  }

  /** A downloaded archive has one entry name per file name, `name.srt`,
      each holding the captions produced for a file of that name. */
  lemma DownloadedArchive(files: seq<SourceFile>, responses: seq<Responses>)
    requires |responses| == |files| && RunOutcomeOf(files, responses).Downloaded?
    ensures var archive := RunOutcomeOf(files, responses).archive;
      && (forall name :: (name in archive <==> exists i :: 0 <= i < |files| && EntryName(files[i]) == name))
      && (forall name :: name in archive ==>
            exists i :: 0 <= i < |files| && FileOutcomeOf(files[i], responses[i]) == Entry(name, archive[name]))
  {
    DownloadedEntries(files, responses);
    ArchiveEntries(OutcomesOf(files, responses));
  }

  /** When the chosen files have distinct names, a downloaded archive holds
      exactly one entry per file, each with that file's captions. */
  lemma DownloadedArchiveDistinct(files: seq<SourceFile>, responses: seq<Responses>)
    requires |responses| == |files| && RunOutcomeOf(files, responses).Downloaded?
    requires forall i, j :: 0 <= i < j < |files| ==> files[i].name != files[j].name
    ensures var archive := RunOutcomeOf(files, responses).archive;
      && |archive| == |files|
      && forall i :: 0 <= i < |files| ==>
           EntryName(files[i]) in archive
           && FileOutcomeOf(files[i], responses[i]) == Entry(EntryName(files[i]), archive[EntryName(files[i])])
  {
    var outcomes := OutcomesOf(files, responses);
    DownloadedEntries(files, responses);
    DistinctEntryNames(outcomes, files);
    ArchiveKeepsDistinct(outcomes);
    ArchiveSize(outcomes, files);
  }

  /** In a run that downloads, every pipeline added the entry for its file. */
  lemma DownloadedEntries(files: seq<SourceFile>, responses: seq<Responses>)
    requires |responses| == |files| && RunOutcomeOf(files, responses).Downloaded?
    ensures var outcomes := OutcomesOf(files, responses);
      forall i :: 0 <= i < |files| ==> outcomes[i].Entry? && outcomes[i].name == EntryName(files[i])
  {
    AllOrNothing(files, responses);
  }

  lemma DistinctEntryNames(outcomes: seq<FileOutcome>, files: seq<SourceFile>)
    requires |outcomes| == |files|
    requires forall i :: 0 <= i < |files| ==> outcomes[i].Entry? && outcomes[i].name == EntryName(files[i])
    requires forall i, j :: 0 <= i < j < |files| ==> files[i].name != files[j].name
    ensures forall i, j :: 0 <= i < j < |outcomes| && outcomes[i].Entry? && outcomes[j].Entry?
              ==> outcomes[i].name != outcomes[j].name
  {
    forall i, j | 0 <= i < j < |outcomes|
      ensures outcomes[i].name != outcomes[j].name
    {
      SuffixKeepsNamesApart(files[i].name, files[j].name);
    }
  }

  lemma ArchiveSize(outcomes: seq<FileOutcome>, files: seq<SourceFile>)
    requires |outcomes| == |files|
    requires forall i :: 0 <= i < |files| ==> outcomes[i].Entry? && outcomes[i].name == EntryName(files[i])
    requires forall i, j :: 0 <= i < j < |files| ==> files[i].name != files[j].name
    ensures |ArchiveOf(outcomes)| == |files|
  {
    ArchiveEntries(outcomes);
    var names := set i | 0 <= i < |files| :: EntryName(files[i]);
    assert ArchiveOf(outcomes).Keys == names;
    EntryNameCount(files);
  }

  /** The outcomes gathered one by one are the reference outcomes. */
  lemma SameOutcomes(outcomes: seq<FileOutcome>, files: seq<SourceFile>, responses: seq<Responses>)
    requires |outcomes| == |files| == |responses|
    requires forall i :: 0 <= i < |files| ==> outcomes[i] == FileOutcomeOf(files[i], responses[i])
    ensures outcomes == OutcomesOf(files, responses)
  {
  }

  lemma SuffixKeepsNamesApart(a: string, b: string)
    requires a != b
    ensures a + ".srt" != b + ".srt"
  {
    if |a| == |b| {
      var i :| 0 <= i < |a| && a[i] != b[i];
      assert (a + ".srt")[i] == a[i];
    } else {
      assert |a + ".srt"| != |b + ".srt"|;
    }
  }

  lemma {:induction false} EntryNameCount(files: seq<SourceFile>)
    requires forall i, j :: 0 <= i < j < |files| ==> files[i].name != files[j].name
    ensures |set i | 0 <= i < |files| :: EntryName(files[i])| == |files|
  {
    if |files| > 0 {
      var before := files[..|files| - 1];
      EntryNameCount(before);
      var last := EntryName(files[|files| - 1]);
      var s := set i | 0 <= i < |files| :: EntryName(files[i]);
      var t := set i | 0 <= i < |before| :: EntryName(before[i]);
      assert s == t + {last};
      forall i | 0 <= i < |before| ensures EntryName(before[i]) != last {
        SuffixKeepsNamesApart(before[i].name, files[|files| - 1].name);
      }
      assert last !in t;
    }
  }
}

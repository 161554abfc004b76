# mp3_to_srt uploader, modelled in Dafny

The model covers the React component `FileUploader`. The user drops audio files on it. For each file it then:

- uploads the file to a speech-to-text service;
- requests a transcript;
- polls the transcript's status every five seconds until it is `completed` or `failed`;
- turns the text into SubRip (SRT) captions, one two-second caption per line.

When every file has captions, the component downloads them together as a zip archive.

The model has these modules:

- `Digits`: decimal rendering of caption numbers, and its inverse.
- `Clock`: `formatTime`, which renders seconds as the `HH:MM:SS,000` time of day of a `Date`. It comes with a parser that reads that form back.
- `TextLines`: the `split(/\n+/)` that cuts a transcript into caption lines, and the `join` that puts lines and blocks together. Two reference definitions sit beside them: a count of newline runs, and the text with each run of newlines collapsed to one.
- `Srt`: `createSRTContent`. It is paired with an SRT reader (`ParseSrt`) and the caption track (`CaptionTrack`) a transcript stands for. The round trip is proved.
- `Polling`: `pollTranscriptionStatus`, as a loop over the replies the status endpoint gives in turn. It is proved against a recursive reference (`PollOutcomeOf`) and against the first terminal reply.
- `Uploader`: the component state, as a class with its `files` list and `processing` flag. It covers `onDrop` and `uploadAndTranscribe`, one file's pipeline (`TranscribeFile`), and the archive as a class over a map from entry name to content.

The network is a parameter. `Responses` says, for each file:

- whether the upload succeeds;
- whether the transcript request succeeds;
- what the successive status fetches return.

A pipeline whose upload and transcript request succeed but that gets no terminal reply stays `Pending`. The run ends `Unsettled` when some pipeline is `Pending` and none has failed.

## Model

| member | source | states |
|---|---|---|
| Digits.Decimal | src/components/FileUploader.jsx:22 | the caption number `${index + 1}` is a non-empty string of decimal digits, and has no leading zero unless it is zero |
| Digits.DecimalValue | src/components/FileUploader.jsx:22 | reading the rendered caption number back as decimal gives the number itself |
| Clock.FormatTime | src/components/FileUploader.jsx:9-14 | the result is `HH:MM:SS,000` (12 characters, colons at 2 and 5, `,000` at the end), where the fields are the hours mod 24, minutes mod 60 and seconds mod 60 of the given seconds after the epoch, the time of day `toISOString` shows for every second count `createSRTContent` can ask for |
| Clock.ParseTime | src/components/FileUploader.jsx:12-13 | reads a `HH:MM:SS,000` stamp back; anything it accepts is a second within one day |
| Clock.FormatTimeRoundTrip | src/components/FileUploader.jsx:9-14 | reading back `formatTime(s)` gives `s` mod 86400, the time of day: the stamp loses only whole days |
| Clock.FormatTimeWithinDay | src/components/FileUploader.jsx:9-14 | for 0 <= s < 86400 the fields are exactly s/3600, (s/60)%60 and s%60 |
| Clock.FormatTimeEqualIff | src/components/FileUploader.jsx:9-14 | two second counts give the same stamp if and only if they fall on the same second of the day |
| TextLines.FirstNewlineSpec | src/components/FileUploader.jsx:17 | the first line ends at the first newline: there is none before it, and there is one at it unless the text ends there |
| TextLines.SkipNewlinesSpec | src/components/FileUploader.jsx:17 | skipping drops a whole run of newlines: what remains is a suffix that does not start with a newline, and only newlines were dropped |
| TextLines.SplitLines | src/components/FileUploader.jsx:17 | `text.split(/\n+/)` always yields at least one line, even for the empty text |
| TextLines.SplitLinesCount | src/components/FileUploader.jsx:17 | the number of lines is one more than the number of maximal newline runs in the text |
| TextLines.SplitLinesJoin | src/components/FileUploader.jsx:17 | joining the lines with single newlines gives the text with every newline run collapsed to one newline, so nothing but extra newlines is lost |
| TextLines.SplitLinesShape | src/components/FileUploader.jsx:17 | no line holds a newline; an empty line can occur only first or last, and the first line is empty exactly when the text is empty or starts with a newline |
| TextLines.Join | src/components/FileUploader.jsx:24 | `.join(sep)` as defined; its contract says the result starts with the first part and ends with the last; what joining the split lines gives is stated by SplitLinesJoin and SplitJoinInverse |
| TextLines.SplitJoinInverse | src/components/FileUploader.jsx:17 | splitting the newline-join of such a list of lines gives that list back |
| Srt.TimingLine | src/components/FileUploader.jsx:20-22 | `${startTime} --> ${endTime}` as defined; its contract says it is 29 characters with ` --> ` at 12..17, and that its two stamps read back as `index * 2` and `(index + 1) * 2` seconds (as times of day); TimingOf states it with the following newline |
| Srt.SrtBlock | src/components/FileUploader.jsx:22 | the block `${index + 1}\n${startTime} --> ${endTime}\n${line}` as defined; its contract says it is the number, 31 characters of newlines and timing, and the line, and that it ends with the caption line; ParseBlockOf states that it reads back as caption index+1 |
| Srt.SrtBlocks | src/components/FileUploader.jsx:18-23 | one caption block per line |
| Srt.TrackFrom | src/components/FileUploader.jsx:18-23 | one caption per line |
| Srt.TrackFromAt | src/components/FileUploader.jsx:19-22 | the caption for line i is numbered i+1 and carries line i |
| Srt.ParseBlock | src/components/FileUploader.jsx:22 | reads one block (number, timing line, text line) and the rest of the text, which is always shorter than the input |
| Srt.ParseTiming | src/components/FileUploader.jsx:20-22 | reads a `start --> end` timing line and its newline back as two times of day, and keeps what follows, which is always shorter |
| Srt.TimingOf | src/components/FileUploader.jsx:20-22 | the timing line of block `index` reads back as `index * 2` and `(index + 1) * 2` seconds, as times of day |
| Srt.ParseBlockOf | src/components/FileUploader.jsx:22 | the block `${index + 1}\n${start} --> ${end}\n${line}`, followed by any tail starting with a newline, reads back as caption index+1 from `index * 2` to `(index + 1) * 2` seconds (as times of day), with the line as text |
| Srt.ParseBlocks | src/components/FileUploader.jsx:18-24 | the blocks for a list of lines, joined by blank lines, read back as the caption list for those lines |
| Srt.CreateSrtContent | src/components/FileUploader.jsx:16-25 | `createSRTContent` as defined; its contract says the content always holds at least one full block (32 characters), even for an empty transcript; its meaning is stated by CreateSrtContentRoundTrip and CaptionTrackShape |
| Srt.CreateSrtContentRoundTrip | src/components/FileUploader.jsx:16-25 | reading `createSRTContent(text)` back as SRT gives exactly the caption track of the text |
| Srt.CaptionTrackShape | src/components/FileUploader.jsx:16-25 | the track has one caption per line of `split(/\n+/)` (newline runs + 1); caption i is numbered i+1, runs from `i * 2` to `(i + 1) * 2` seconds (as times of day) and carries line i |
| Srt.CaptionsAdjoin | src/components/FileUploader.jsx:20-21 | each caption ends where the next one starts |
| Srt.CaptionTextsJoin | src/components/FileUploader.jsx:16-25 | the caption texts, joined by newlines, are the transcript with newline runs collapsed |
| Srt.EmptyTranscript | src/components/FileUploader.jsx:16-25 | an empty transcript still gives one caption, numbered 1, from 0 to 2 seconds, with empty text |
| Polling.Step | src/components/FileUploader.jsx:59-72 | one status reply: `completed` returns its text, `failed` throws "Transcription failed.", a failed GET throws, and any other status waits and fetches again |
| Polling.PollTranscriptionStatus | src/components/FileUploader.jsx:57-75 | the loop fetches until the first `completed`/`failed` reply or a failed fetch, waiting once per non-terminal reply, `waits * 5000` ms in all; the outcome is what that first terminal reply decides, or still waiting when none arrives; it agrees with the recursive reference `PollOutcomeOf` |
| Polling.FirstTerminalDecides | src/components/FileUploader.jsx:57-75 | polling keeps waiting if and only if no reply is terminal; otherwise the first terminal reply decides it |
| Polling.SettledHasFirstTerminal | src/components/FileUploader.jsx:57-75 | a poll that settles has a first terminal reply, and that reply decides the outcome |
| Uploader.Zip.constructor | src/components/FileUploader.jsx:94 | a new archive is empty |
| Uploader.Zip.File | src/components/FileUploader.jsx:101 | `zip.file` adds the entry, replacing any entry of the same name |
| Uploader.TranscribeFile | src/components/FileUploader.jsx:95-102 | one file's pipeline settles as the reference `FileOutcomeOf` says: it fails on upload, request or polling failure or on an absent text, waits while polling waits, and otherwise adds `${file.name}.srt` with the captions, which is its only change to the archive |
| Uploader.PipelineEntry | src/components/FileUploader.jsx:95-102 | a file adds an entry if and only if upload and request succeed and the first terminal reply is `completed` with text; the entry is `name.srt` holding `createSRTContent(text)`, which reads back as that text's caption track |
| Uploader.FileUploader.constructor | src/components/FileUploader.jsx:78-79 | the component starts with no files and not processing |
| Uploader.FileUploader.OnDrop | src/components/FileUploader.jsx:81-83 | the accepted files are appended after those already chosen, and nothing else changes |
| Uploader.FileUploader.UploadAndTranscribe | src/components/FileUploader.jsx:85-121 | with no files nothing happens; otherwise the run ends as the reference `RunOutcomeOf` says (some failure, unsettled, or an archive of every pipeline's entry), the file list is unchanged, and `processing` is false afterwards unless the run is still unsettled |
| Uploader.ArchiveOfAppend | src/components/FileUploader.jsx:101 | each pipeline's entry updates the archive as `zip.file` does |
| Uploader.AllOrNothing | src/components/FileUploader.jsx:93-120 | a run downloads an archive if and only if there are files and every one of their pipelines adds an entry; one failed file means no archive |
| Uploader.DownloadedEntries | src/components/FileUploader.jsx:95-106 | in a run that downloads, every file's pipeline added the entry named after that file |
| Uploader.ArchiveEntries | src/components/FileUploader.jsx:101 | the archive `ArchiveOf` builds has as names exactly the names of the entries added, and each holds the content of some entry of that name |
| Uploader.ArchiveKeepsDistinct | src/components/FileUploader.jsx:101 | when entry names differ, every entry added is in the archive unchanged |
| Uploader.DownloadedArchive | src/components/FileUploader.jsx:101-111 | the downloaded archive has exactly the names `name.srt` of the chosen files, each holding the captions produced for a file of that name |
| Uploader.DownloadedArchiveDistinct | src/components/FileUploader.jsx:101-111 | with distinct file names the downloaded archive has one entry per file, holding that file's captions |
| Uploader.EntryName | src/components/FileUploader.jsx:101 | the entry name `${file.name}.srt` as defined; its contract says it is the file name followed by `.srt`; SuffixKeepsNamesApart and EntryNameCount state that distinct file names keep their entries apart |
| Uploader.SuffixKeepsNamesApart | src/components/FileUploader.jsx:101 | distinct file names give distinct entry names |
| Uploader.EntryNameCount | src/components/FileUploader.jsx:101 | distinct file names give as many entry names as files |

## Left out

- HTTP requests, the service URL and API key: each request's result is an input (`Responses`). The upload URL and the transcript id are not modelled, since the code only passes them on.
- The reading of a file's bytes (`file.arrayBuffer`) is folded into the upload result, as the code's `try` covers both.
- `setTimeout`: real time is not modelled. The poll loop only counts its 5000 ms waits.
- Concurrency: the pipelines run one after the other in the model. The code runs them concurrently, and the model's contracts do not depend on completion order, except for which of two entries with the same name survives in the archive.
- `Promise.all` rejects at the first failure while other pipelines may still be running. The model settles every pipeline first, then decides. Entries added after the rejection are not observable, because no archive is downloaded.
- Polling that never ends: the model gives a finite list of replies and reports "still waiting" when they run out. `processing` then stays true unless another file fails; `Promise.all` then rejects and `finally` resets it.
- `generateAsync`, the object URL, the `<a>` element and its click, `alert`, `console.error` and React rendering are left out. The archive is the map of entries it would contain.
- The React state `files` is read through the closure of the render that created the handler. The model reads the current field.
- Clock.FormatTime, Digits.Decimal: JS numbers are doubles, and past year 9999 `toISOString` writes a six-digit year, so `substr(11, 8)` is no longer the time. The model's integer arithmetic equals the code for every index a string can have (`index * 2 < 2^31`). The model assumes `setSeconds`, which works in local time, behaves as in UTC.
- Srt.CreateSrtContentRoundTrip: the read-back captions carry times of day, so captions past 24 hours (line 43200 on) restart at `00:00:00,000` exactly as `formatTime` renders them.
- Uploader.FileOutcomeOf: a `completed` reply without text makes `createSRTContent` throw a TypeError on `undefined.split`. The model reports this as the file's `MissingText` failure. The code has no dedicated check for it.
- When any file fails the code downloads nothing (no partial archive), and `split(/\n+/)` keeps an empty first or last line; the model follows the code.

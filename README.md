# Audio speed changer: transcoding session and upload helpers

This project models the part of the web application that drives an embedded
ffmpeg engine, plus the pure helpers of its upload screen and YouTube link bar.
The models and proofs are written in Dafny.

- **FFmpegLog** (pure). This is the line classifier of `FFmpegHelper`. It models the
  two timestamp regular expressions of `detectDuration`/`detectProgress`, character by
  character for text in the Basic Multilingual Plane, including where a JavaScript match lands (the greedy `.*` picks the last
  occurrence on the first line that holds one). It also covers the conversion
  `hh*3600 + mm*60 + ss + 0.frac` to seconds, the floored progress percentage,
  and the four completion substrings of `detectCompletion`.
- **VirtualFs** (pure). The engine's in-memory filesystem is a map from absolute paths
  to bytes plus a set of directories. It has the `mkdir`, `writeFile`, `readFile` and
  `unlink` calls with their error codes (`EEXIST`, `EISDIR`, `ENOENT`, `ENOTDIR`): a
  new entry needs its parent directory, and a relative path is looked up from the
  root. It also has the directory chain that `writeFile` creates, and proofs that the
  chain is what makes a nested write succeed.
- **FFmpegSession**. A log monitor is specified as functions (`Step` for
  `handleFFmpegOutput`, `Feed` for a sequence of lines, `RunEffect` for one `run`).
  Class `FFmpegHelper` holds the fields the source mutates (`ffmpegCore`,
  `ffmpegRunning`, `ffmpegCurrentDuration`, whether `runResolve` is set). Its methods
  update those fields and are proved to follow the specification functions. The
  handlers are modelled by which of them are installed, and their calls are recorded
  as a sequence of notices.
- **WavEncoding**. `bufferToWaveBlob` is a method over an `array` of bytes, with
  `setUint16`/`setUint32`/`setInt16` as little-endian writes that advance `pos`. It is
  proved to produce `WaveFile(b)`. Lemmas show that a reader recovers every header
  field (each reduced modulo its width), the chunk tags `RIFF`, `WAVE`, `fmt `, `data`,
  and every sample at its interleaved position.
- **UploadArea** (pure). It covers `formatTime`, the file name for the download, and
  the test a dropped or picked file must pass.
- **LinkBar** (pure). `extractVideoId` tries its two regular expressions in order. The
  first is searched leftmost-first, with its alternatives in the order written and
  greedy repetitions longest first, as JavaScript's backtracking engine does. It
  returns the group, `undefined` (the second pattern has no group), or `null`.
- **Text** and **Prelude** hold the string operations the code relies on
  (`startsWith`, `endsWith`, `includes`, `split`, `join`, `replace`, ASCII
  lower-casing, number rendering) and `Option`/`Result`/`Byte`.

The code behaves as follows where a reader might expect otherwise:

- **Duration.** The stored duration is overwritten by every line that carries one
  (`FeedKeepsLatestDuration`), not taken from the first such line. It is cleared when a
  completion marker settles a run, not when a run starts.
- **Engine disposal.** The engine is disposed after a run unless `exit()` throws. In
  that case the assignment of `null` is skipped and the engine is kept (`RunTearsDown`,
  `Initialize`).
- **Missing engine.** `run` without an engine rejects (`callMain` of `null` throws inside
  the promise executor). It still leaves `runResolve` set (`RunWithoutEngine`).
- **No marker.** A run whose log holds no marker and whose engine does not throw never
  settles. Every later `run` is then refused (`RunUnsettledBlocks`).

Further behaviour the proofs pin down:

- **Negative time.** `formatTime(-5)` is `"-1:0-5"` (`FormatTimeOfNegative`).
- **Bare identifiers.** A bare 11-character identifier makes `extractVideoId` return
  `undefined`, which the caller rejects as an invalid link (`CallerAcceptsOnlyIds`).
- **Nested paths.** Because the nested-path alternative `[^/]+/.+/` comes first, a link
  `youtube.com/<segment>/<more>/<id>` yields the last eleven-character run after a
  slash, whatever the segment is (`NestedPathGivesId`).

## Model

| member | source | states |
|---|---|---|
| FFmpegLog.SelectedIsUnique | app/utils/ffmpeg.helper.ts:103 | At most one occurrence of a timestamp is the one a `.*X.*` match reports |
| FFmpegLog.FindStampSelects | app/utils/ffmpeg.helper.ts:103-104 | The search finds nothing exactly when no occurrence of the timestamp body exists; otherwise it finds the occurrence JavaScript's match reports (first line holding one, last on that line) |
| FFmpegLog.FindStamp | app/utils/ffmpeg.helper.ts:103-104 | A reported position is an occurrence of the timestamp expression (which occurrence is `FindStampSelects`) |
| FFmpegLog.SoleStamp | app/utils/ffmpeg.helper.ts:103-104 | A line with exactly one occurrence reports that one |
| FFmpegLog.KeyOccursOnce | app/utils/ffmpeg.helper.ts:103 | A key whose first character does not recur in it or after it occurs only where it was placed, when the text around holds no copy of it |
| FFmpegLog.DurationIn | app/utils/ffmpeg.helper.ts:102-110 | A parsed duration is never negative (its meaning is `MatchMeaning`) |
| FFmpegLog.ElapsedIn | app/utils/ffmpeg.helper.ts:80-88 | A parsed elapsed time is never negative (its meaning is `MatchMeaning`) |
| FFmpegLog.MatchMeaning | app/utils/ffmpeg.helper.ts:80-88 | `ElapsedIn` is None iff the `time` expression matches nowhere; otherwise it is the seconds of the selected occurrence (likewise `DurationIn` for `Duration`) |
| FFmpegLog.StampWholeSeconds | app/utils/ffmpeg.helper.ts:106-110 | The whole seconds are `hh*3600 + mm*60 + ss` of the three two-digit groups read in base ten, and the total stays below 362440 |
| FFmpegLog.StampOfLine | app/utils/ffmpeg.helper.ts:103-110 | The key, the gap and `HH:MM:SS.frac`, in text that holds no other copy of the key and is not followed by a digit, match at the key (for a key whose first character is not a digit, `:` or `.` and recurs neither in the key nor in the gap) and yield `hh*3600 + mm*60 + ss + 0.frac` |
| FFmpegLog.DurationOfLine | app/utils/ffmpeg.helper.ts:102-110 | `Duration: HH:MM:SS.frac` in a line with no other `Duration` gives that timestamp's seconds |
| FFmpegLog.ElapsedOfLine | app/utils/ffmpeg.helper.ts:80-88 | `time=HH:MM:SS.frac` in a line with no other `time` gives that timestamp's seconds |
| FFmpegLog.DurationExample | app/utils/ffmpeg.helper.ts:102-110 | ffmpeg's `Duration: 00:03:07.50, start: ...` line yields 187.5 seconds |
| FFmpegLog.ProgressExample | app/utils/ffmpeg.helper.ts:80-93 | ffmpeg's `size= ... time=00:01:40.00 bitrate= ... speed=12.5x` line yields 100 seconds, and against a 200-second duration the ratio is 50 |
| FFmpegLog.ProgressValueFor | app/utils/ffmpeg.helper.ts:90-93 | The raw seconds are reported exactly when no duration is known, and a percentage exactly when the duration is positive |
| FFmpegLog.ProgressValueMeaning | app/utils/ffmpeg.helper.ts:90-93 | Without a duration the raw seconds are reported; with a positive one, the largest whole percentage not above elapsed/duration*100; Infinity or NaN for a zero duration |
| FFmpegLog.PercentWithinRange | app/utils/ffmpeg.helper.ts:90-93 | While elapsed time does not exceed the duration, the ratio lies in 0..100 |
| Text.Contains | app/utils/ffmpeg.helper.ts:121-124 | `includes` holds iff the pattern occurs at some index |
| FFmpegLog.MarkerAnywhere | app/utils/ffmpeg.helper.ts:121-124 | Any of the four marker phrases anywhere in a line completes the run |
| Text.Split | app/utils/ffmpeg.helper.ts:176 | `split('/')` gives at least one piece and no piece contains the separator |
| Text.JoinSplit | app/utils/ffmpeg.helper.ts:176 | Joining the pieces of `split` with the separator gives back the path |
| Text.SplitAtFirst | app/utils/ffmpeg.helper.ts:176 | Splitting at the first separator peels off the piece before it |
| FFmpegSession.LocateFile | app/utils/ffmpeg.helper.ts:60-68 | `.worker.js` paths map to the worker asset, other `.wasm` paths to the module asset, anything else to itself |
| FFmpegSession.LocateFileIdempotent | app/utils/ffmpeg.helper.ts:60-68 | Mapping a mapped path again changes nothing |
| FFmpegSession.FullArgs | app/utils/ffmpeg.helper.ts:144-145 | The engine's argument vector is the seven default flags followed by the caller's arguments |
| FFmpegSession.FullArgsInjective | app/utils/ffmpeg.helper.ts:144-145 | Different caller arguments give different argument vectors |
| FFmpegSession.DurationStep | app/utils/ffmpeg.helper.ts:102-117 | A matched duration is stored (overwriting) and reported to an installed handler; the promise and running flag are untouched |
| FFmpegSession.ProgressStep | app/utils/ffmpeg.helper.ts:80-99 | A matched elapsed time reports exactly one ratio to an installed handler; nothing is stored |
| FFmpegSession.CompletionStep | app/utils/ffmpeg.helper.ts:120-133 | A marker while a run is pending resolves it exactly once with `true`, clears running and duration, and reports 100 last; otherwise nothing changes |
| FFmpegSession.Step | app/utils/ffmpeg.helper.ts:24-30 | One line resolves the run once iff it holds a marker while pending, and the flags change accordingly |
| FFmpegSession.Feed | app/utils/ffmpeg.helper.ts:58-59 | Handling lines in order keeps the stored duration non-negative |
| FFmpegSession.StepOnDurationLine | app/utils/ffmpeg.helper.ts:24-30 | A duration line stores its value (unless the same line settles the run) and reaches the duration handler |
| FFmpegSession.StepOnProgressLine | app/utils/ffmpeg.helper.ts:24-30 | A progress line reports the ratio against the duration known after that line's own duration is stored |
| FFmpegSession.StepOnOtherLine | app/utils/ffmpeg.helper.ts:24-30 | A line that matches nothing only reaches the log handler |
| FFmpegSession.StepOnMarker | app/utils/ffmpeg.helper.ts:120-133 | A marker while pending resolves with `true`, resets the monitor and reports progress 100 last |
| FFmpegSession.FeedResolvesOnce | app/utils/ffmpeg.helper.ts:120-133 | Over a whole log the pending run is resolved once if some line holds a marker and never otherwise |
| FFmpegSession.FeedKeepsLatestDuration | app/utils/ffmpeg.helper.ts:116 | Without a pending run, the stored duration is that of the last line carrying one |
| FFmpegSession.RunEffect | app/utils/ffmpeg.helper.ts:143-171 | What `run` does from a state; the stored duration stays non-negative |
| FFmpegSession.RunRefusedWhileRunning | app/utils/ffmpeg.helper.ts:149-151 | A second `run` while one is in flight is rejected and changes nothing |
| FFmpegSession.RunInvokesEngineOnce | app/utils/ffmpeg.helper.ts:153-158 | An admitted run calls the engine exactly once, with the default flags before the caller's arguments |
| FFmpegSession.RunSettlesOnMarker | app/utils/ffmpeg.helper.ts:155-159 | An admitted run resolves with `true` iff the log holds a marker; it is rejected iff there is no marker and the engine throws; it never settles otherwise |
| FFmpegSession.RunTearsDown | app/utils/ffmpeg.helper.ts:160-170 | Once settled, the running flag is clear, and the engine is disposed unless `exit()` threw |
| FFmpegSession.RunUnsettledBlocks | app/utils/ffmpeg.helper.ts:149-158 | A run that never settles leaves the helper running, and every later run is refused |
| FFmpegSession.RunWithoutEngine | app/utils/ffmpeg.helper.ts:153-162 | Without an engine, `run` rejects, records no call and leaves the promise slot set |
| FFmpegSession.FFmpegHelper.constructor | app/utils/ffmpeg.helper.ts:2-14 | A new helper has no engine, is not running, knows no duration and has no pending promise |
| FFmpegSession.FFmpegHelper.Initialize | app/utils/ffmpeg.helper.ts:32-78 | Succeeds iff the engine loads, then holds it; a missing entry point or a failed load gives its error; a previous engine is dropped unless `exit()` throws |
| FFmpegSession.FFmpegHelper.GetInstance | app/utils/ffmpeg.helper.ts:16-22 | Gives a fresh, idle, initialised helper iff the engine loads |
| FFmpegSession.FFmpegHelper.DetectDuration | app/utils/ffmpeg.helper.ts:102-117 | Returns the matched seconds and updates the fields as `DurationStep` says |
| FFmpegSession.FFmpegHelper.DetectProgress | app/utils/ffmpeg.helper.ts:80-99 | Returns the matched elapsed seconds and reports as `ProgressStep` says |
| FFmpegSession.FFmpegHelper.DetectCompletion | app/utils/ffmpeg.helper.ts:120-133 | Updates the fields as `CompletionStep` says |
| FFmpegSession.FFmpegHelper.HandleFFmpegOutput | app/utils/ffmpeg.helper.ts:24-30 | Log handler, then the three detectors in order, equals `Step` |
| FFmpegSession.FFmpegHelper.HandleLines | app/utils/ffmpeg.helper.ts:58-59 | Handling printed lines one by one equals `Feed` over them |
| FFmpegSession.FFmpegHelper.Run | app/utils/ffmpeg.helper.ts:143-171 | The outcome and new state are those of `RunEffect` |
| FFmpegSession.FFmpegHelper.FileSystemView | app/utils/ffmpeg.helper.ts:136-141 | `FS()` fails with `NotInitialized` iff there is no engine, and otherwise gives its filesystem |
| FFmpegSession.FFmpegHelper.WriteFile | app/utils/ffmpeg.helper.ts:173-192 | Without an engine it fails with `NotInitialized`, attempts nothing and changes nothing; otherwise it tries `mkdir` on each directory prefix in order, ignoring failures, then writes, and the new filesystem is exactly the result of those calls; a successful write reads back the data |
| FFmpegSession.FFmpegHelper.ReadFile | app/utils/ffmpeg.helper.ts:194-201 | Fails with `NotInitialized` without an engine; otherwise gives the stored bytes iff the resolved path is a file, and the engine's error code when it is not |
| FFmpegSession.FFmpegHelper.DeleteFile | app/utils/ffmpeg.helper.ts:203-209 | Unlinks the file when possible, swallows every error, and afterwards the path cannot be read |
| VirtualFs.Resolve | app/utils/ffmpeg.helper.ts:182-205 | Every path the helper passes names an absolute path; an absolute one names itself |
| VirtualFs.Mkdir | app/utils/ffmpeg.helper.ts:182 | Succeeds iff the path is not empty, is free and its parent is a directory, and then adds only it; a taken path gives `AlreadyExists`, a missing parent `NoSuchEntry`, a file on the way `NotADirectory` |
| VirtualFs.WriteData | app/utils/ffmpeg.helper.ts:187 | Fails with `IsADirectory` on a directory; a new file needs its parent directory, else `NoSuchEntry` or `NotADirectory`; otherwise stores the bytes and changes nothing else |
| VirtualFs.ReadData | app/utils/ffmpeg.helper.ts:196 | Succeeds iff the path is a file, giving its bytes; `IsADirectory` for a directory, `NoSuchEntry` or `NotADirectory` for a missing path |
| VirtualFs.Unlink | app/utils/ffmpeg.helper.ts:205 | Succeeds iff the path is a file, and removes only it; the error codes are those of `ReadData` |
| VirtualFs.NotBelowFile | app/utils/ffmpeg.helper.ts:176-192 | In a tree no directory and no file lies below a file |
| VirtualFs.NothingBelowFile | app/utils/ffmpeg.helper.ts:176-192 | In a tree no file lies on the way to an existing entry |
| VirtualFs.NoDirectoryAtOrBelowFile | app/utils/ffmpeg.helper.ts:176-192 | In a tree neither a file nor a path below it is a directory |
| VirtualFs.MkdirKeepsTree | app/utils/ffmpeg.helper.ts:182 | A successful `mkdir` keeps every entry inside a directory and no path both a file and a directory |
| VirtualFs.WriteKeepsTree | app/utils/ffmpeg.helper.ts:187 | A successful write keeps the tree |
| VirtualFs.UnlinkKeepsTree | app/utils/ffmpeg.helper.ts:205 | A successful unlink keeps the tree |
| VirtualFs.WriteThenRead | app/utils/ffmpeg.helper.ts:187-196 | A written file reads back unchanged, and every other path keeps whether it can be read and its bytes |
| VirtualFs.UnlinkThenRead | app/utils/ffmpeg.helper.ts:205 | In a tree, after a successful unlink the path is missing (`NoSuchEntry`) |
| VirtualFs.MkdirAllEffect | app/utils/ffmpeg.helper.ts:178-186 | The `mkdir` loop leaves the files alone, only adds directories and keeps the tree |
| VirtualFs.MkdirAllOnlyAsked | app/utils/ffmpeg.helper.ts:178-186 | The loop creates no directory it did not attempt |
| VirtualFs.DirectoryComponents | app/utils/ffmpeg.helper.ts:176 | No directory component contains a `/` |
| VirtualFs.ChainIsRootedPrefixes | app/utils/ffmpeg.helper.ts:176-186 | The k-th `mkdir` target is `/` followed by the first k+1 non-empty components joined by `/` |
| VirtualFs.ChainNests | app/utils/ffmpeg.helper.ts:180 | Each target is the previous target plus `/` and the next component |
| VirtualFs.TargetsChained | app/utils/ffmpeg.helper.ts:176-186 | The parent of each `mkdir` target is the target before it, and that of the first is the root |
| VirtualFs.Descends | app/utils/ffmpeg.helper.ts:180 | Every later target lies below every earlier one |
| VirtualFs.ChainCreatesAll | app/utils/ffmpeg.helper.ts:178-186 | When no target is a file, every target is a directory after the loop, because each `mkdir` finds its parent |
| VirtualFs.ChainBlockedByFile | app/utils/ffmpeg.helper.ts:178-186 | A file among the targets keeps the last target from becoming a directory |
| VirtualFs.LastIsDirectory | app/utils/ffmpeg.helper.ts:178-186 | The last target ends up a directory iff no target is a file |
| VirtualFs.TargetIsNotChild | app/utils/ffmpeg.helper.ts:178-187 | The loop never creates the path that is then written |
| VirtualFs.WriteAfterTargets | app/utils/ffmpeg.helper.ts:173-192 | In a tree, when the last target is the path's parent, the write after the loop succeeds iff no target is a file and the path is no directory |
| VirtualFs.NestedWriteAloneFails | app/utils/ffmpeg.helper.ts:187 | On a fresh engine, writing `a/b/c/f` without the loop fails with `NoSuchEntry` |
| VirtualFs.NestedWriteAfterLoop | app/utils/ffmpeg.helper.ts:176-187 | After the loop the same write succeeds |
| VirtualFs.FileInTheWay | app/utils/ffmpeg.helper.ts:176-187 | With a file `/x`, the loop's `mkdir("/x")` fails and writing `x/f` fails with `NotADirectory` |
| VirtualFs.ThreeLevelTargets | app/utils/ffmpeg.helper.ts:176-186 | `a/b/c/f` asks for `/a`, `/a/b`, `/a/b/c`, in that order |
| VirtualFs.LeadingSlashTargets | app/utils/ffmpeg.helper.ts:176-179 | A leading `/` changes nothing, because empty components are skipped |
| VirtualFs.MkdirTargetsExample | app/utils/ffmpeg.helper.ts:176-186 | The concrete path "a/b/c/f" gives "/a", "/a/b", "/a/b/c" |
| WavEncoding.LittleEndianRoundTrip | app/components/UploadArea.tsx:30-37 | Little-endian bytes of a value that fits read back as that value |
| WavEncoding.SetUint16 | app/components/UploadArea.tsx:30-33 | Appends the value's two little-endian bytes (mod 2^16), advances `pos` by 2 and leaves every later byte alone |
| WavEncoding.SetUint32 | app/components/UploadArea.tsx:34-37 | Appends the value's four little-endian bytes (mod 2^32), advances `pos` by 4 and leaves every later byte alone |
| WavEncoding.SetInt16 | app/components/UploadArea.tsx:65-66 | Appends the sample's two's-complement little-endian bytes, advances `pos` by 2 and leaves every later byte alone |
| WavEncoding.WriteHeader | app/components/UploadArea.tsx:39-56 | Writes the thirteen header fields in order, ending at byte 44, and leaves the rest alone |
| WavEncoding.WriteFrame | app/components/UploadArea.tsx:63-67 | Writes one frame's samples, channel after channel, and leaves the rest alone |
| WavEncoding.BufferToWaveBlob | app/components/UploadArea.tsx:21-71 | A new buffer of `length * channels * 2 + 44` bytes holding exactly the header followed by every frame |
| WavEncoding.WaveFileLength | app/components/UploadArea.tsx:23 | The file has the length computed up front |
| WavEncoding.HeaderLayout | app/components/UploadArea.tsx:39-56 | The header is 44 bytes with fields at offsets 0, 4, 8, ..., 40 |
| WavEncoding.HeaderReadBack | app/components/UploadArea.tsx:39-56 | Every header field reads back at its offset, reduced modulo its width |
| WavEncoding.RiffChunk | app/components/UploadArea.tsx:40-42 | Bytes 0-11 are the RIFF tag, the size of the rest of the file, and the WAVE tag |
| WavEncoding.FormatChunk | app/components/UploadArea.tsx:45-52 | Bytes 12-35 describe 16-bit PCM: chunk size 16, format 1, channel count, rate, byte rate, block align, 16 bits |
| WavEncoding.DataChunk | app/components/UploadArea.tsx:55-56 | Bytes 36-43 are the data tag and the number of sample bytes |
| WavEncoding.TagsSpellChunkNames | app/components/UploadArea.tsx:40-55 | The four constants are the ASCII of `RIFF`, `WAVE`, `fmt ` and `data` |
| WavEncoding.SampleAt | app/components/UploadArea.tsx:62-69 | Sample `c` of frame `f` reads back at byte `44 + 2*(f*channels + c)` |
| WavEncoding.SampleRoundTrip | app/components/UploadArea.tsx:65 | A 16-bit sample's two bytes decode back to it |
| WavEncoding.FramesBytesLength | app/components/UploadArea.tsx:62-69 | `n` frames take `n * channels * 2` bytes |
| WavEncoding.FrameFits | app/components/UploadArea.tsx:62-68 | A frame written before the last one ends inside the buffer |
| WavEncoding.FramesDone | app/components/UploadArea.tsx:62 | When `pos` reaches the length, all frames are written (or there are no channels) |
| UploadArea.FormatTime | app/components/UploadArea.tsx:426-431 | A value that is not finite gives "0:00" |
| UploadArea.FormatTimeOfNonNegative | app/components/UploadArea.tsx:426-431 | For t >= 0: the whole minutes, a colon, and the remaining whole seconds in two digits |
| UploadArea.FormatTimeReadsBack | app/components/UploadArea.tsx:426-431 | The text splits at its one colon into digits; the seconds are two digits below 60, and minutes*60 + seconds is the whole seconds of t |
| UploadArea.FormatTimeOfNegative | app/components/UploadArea.tsx:428-430 | Negative times are not clamped: -5 gives "-1:0-5" |
| UploadArea.TwoDigits | app/components/UploadArea.tsx:430 | Seconds below sixty are two digits |
| UploadArea.StripExtension | app/components/UploadArea.tsx:406 | What is left is a prefix of the name, and what is removed is a match of `/\.\w+$/` |
| UploadArea.ExtensionUnique | app/components/UploadArea.tsx:406 | `/\.\w+$/` can match at one position at most |
| UploadArea.StripExtensionRemoves | app/components/UploadArea.tsx:406 | When the name ends in `.` and word characters, exactly that is removed |
| UploadArea.StripExtensionKeeps | app/components/UploadArea.tsx:406 | A name with no such ending is left unchanged |
| UploadArea.StripExtensionOfDoubleExtension | app/components/UploadArea.tsx:406 | Only the last extension goes: "mix.tar.gz" becomes "mix.tar" |
| UploadArea.DownloadName | app/components/UploadArea.tsx:405-406 | The name starts with the stripped file name and `_`, and ends with `x.` and the format |
| UploadArea.DownloadNameOfFraction | app/components/UploadArea.tsx:405-406 | `base.ext` at rate `w.f` downloads as `base_w_fx.format` |
| UploadArea.DownloadNameOfWhole | app/components/UploadArea.tsx:405-406 | A rate without a point appears unchanged: `base_rx.format` |
| UploadArea.DownloadNameExample | app/components/UploadArea.tsx:405-406 | "song.mp3" at 1.25 downloads as "song_1_25x.mp3" |
| UploadArea.EndsWithLower | app/components/UploadArea.tsx:523 | A lower-cased name ends in `.ext` iff the name ends in a dot and `ext` up to ASCII case |
| UploadArea.HasAudioExtension | app/components/UploadArea.tsx:523 | A matching name has a dot four characters from its end |
| UploadArea.Accepts | app/components/UploadArea.tsx:535 | No file is refused, and a file with an `audio/` type is taken |
| UploadArea.AcceptsIff | app/components/UploadArea.tsx:523 | A file is taken iff its type starts with `audio/` or its name ends, case-insensitively, in one of the five extensions |
| UploadArea.AcceptsUpperCaseName | app/components/UploadArea.tsx:523 | "Track.MP3" is accepted with no type |
| UploadArea.AcceptsAudioType | app/components/UploadArea.tsx:523 | An `audio/` type is enough whatever the name |
| UploadArea.RejectsByLetter | app/components/UploadArea.tsx:535 | Without an audio type, a name whose third-last letter cannot start an extension is refused |
| UploadArea.RejectsOtherFiles | app/components/UploadArea.tsx:535 | "notes.txt", "clip.mp3.txt" and no file at all are refused |
| Text.Lower | app/components/UploadArea.tsx:523 | Lower-casing keeps the length and lower-cases each character |
| Text.NatToStringRoundTrip | app/components/UploadArea.tsx:430 | The decimal text of a number reads back as that number |
| Text.IntToStringReadsBack | app/components/UploadArea.tsx:430 | A negative number renders as a minus sign and digits that read back as its magnitude; any other as digits that read back as itself |
| Text.ReplaceFirstOf | app/components/UploadArea.tsx:405 | `replace(".", "_")` changes the first point only |
| Text.ReplaceFirstAbsent | app/components/UploadArea.tsx:405 | Without a point the text is unchanged |
| LinkBar.MatchAtInOrder | app/components/LinkBar.tsx:83 | At a start position the alternatives are tried in the order written, and the first that succeeds decides |
| LinkBar.MatchAt | app/components/LinkBar.tsx:83 | A match gives a group position after the start at which eleven identifier characters follow |
| LinkBar.FirstSomeIsLeftmost | app/components/LinkBar.tsx:87-90 | No start position before the chosen one matches |
| LinkBar.ExtractVideoId | app/components/LinkBar.tsx:81-93 | A returned identifier is eleven characters with no quote, `&`, `?`, `/` or white space |
| LinkBar.ExtractFound | app/components/LinkBar.tsx:87-89 | The leftmost match of the first pattern gives its group |
| LinkBar.ExtractNotFound | app/components/LinkBar.tsx:84-92 | With no match of the first pattern, a bare identifier gives `undefined` and anything else gives `null` |
| LinkBar.ExtractOnlyFromMatch | app/components/LinkBar.tsx:87-92 | An identifier is returned iff the first pattern matches somewhere |
| LinkBar.NoMatchWithoutY | app/components/LinkBar.tsx:83 | Every match starts at a `y` or `Y` |
| LinkBar.NoMatchInPrefix | app/components/LinkBar.tsx:83 | A prefix without `y` holds no match |
| LinkBar.ShortLinkGivesId | app/components/LinkBar.tsx:83 | `youtu.be/<id>` (any case) gives the identifier |
| LinkBar.ShortPathGivesId | app/components/LinkBar.tsx:83 | `youtube.com/v/`, `/embed/` or `/e/` before the identifier gives it when no slash follows |
| LinkBar.QueryGivesId | app/components/LinkBar.tsx:83 | `youtube.com/<path>?v=<id>` or `&v=<id>` gives the identifier, also when further parameters such as `&t=42s` follow that hold no `/` and no `?v=`/`&v=` with an identifier |
| LinkBar.WatchLinkWithStartTime | app/components/LinkBar.tsx:83 | `https://www.youtube.com/watch?v=dQw4w9WgXcQ&t=42s` gives `dQw4w9WgXcQ` |
| LinkBar.NestedPathGivesId | app/components/LinkBar.tsx:83 | `youtube.com/<segment>/<more>/<id>` gives the identifier after the last slash |
| LinkBar.NestedPathFails | app/components/LinkBar.tsx:83 | The nested alternative fails when only one slash follows the segment |
| LinkBar.ShortPathNeedsSlash | app/components/LinkBar.tsx:83 | The short-path alternative needs a slash |
| LinkBar.BareIdIsUndefined | app/components/LinkBar.tsx:84-89 | A bare eleven-character identifier gives `undefined`, not the identifier |
| LinkBar.CallerAcceptsOnlyIds | app/components/LinkBar.tsx:26-28 | The caller goes on iff an identifier was returned, so a bare identifier is rejected as an invalid URL |

## Left out

- Engine internals: what `callMain` prints, the filesystem it leaves and whether it throws are parameters (`EngineRun`). Whether `exit()` throws is a boolean parameter.
- Asynchrony and promises: `run` is one synchronous step in which the printed lines are handled in order. The promise is the `pending` flag (`runResolve !== null`). The engine worker, its termination, and the static `instance` are not modelled.
- The `typeof window === 'undefined'` early return of `initialzeFFmpeg`: no host environment is modelled.
- Console logging (`console.log`/`warn`/`error`) is output only and is omitted.
- The handlers: calls are recorded as notices. The functions a caller installs are not modelled.
- Floating point: seconds, ratios and times are exact reals. `parseFloat` of the fraction group is its exact decimal value, and IEEE rounding is not modelled, in `formatTime` either. `IntToString` writes out every digit, while JavaScript renders magnitudes of 1e21 and more in exponent form (`1e+21`).
- Path normalisation in the engine filesystem: `.`, `..`, repeated and trailing `/` are kept as written. A relative path is looked up from the root, which is the engine's working directory. Permissions, symbolic links and the engine's other calls are not modelled.
- VirtualFs.Mkdir: when the parent is a file, the model answers `NotADirectory`; the engine may report a different code there (`EPERM`).
- VirtualFs.WriteData: likewise, when the parent itself is a file (as in `FileInTheWay`), the model answers `NotADirectory`. The engine, which creates the new file through `mknod`, may report `EPERM`, depending on its version. Only the code differs: the write fails either way and the helper rethrows the error.
- VirtualFs.WriteThenRead: other paths keep whether they can be read and their bytes, not their error codes. A new file turns `NoSuchEntry` below it into `NotADirectory`.
- WavEncoding.BufferToWaveBlob: the samples are taken as already converted to 16-bit integers. The clamping and float-to-int16 conversion of lines 64-65 is not modelled, because it is floating-point arithmetic.
- WavEncoding.WellFormed: assumed of every buffer (every channel holds `length` samples), as the browser's `AudioBuffer` guarantees.
- The `Blob`, object URL, anchor element and `click` around the download: the model covers the computed file name only.
- `Number.prototype.toString` of the playback rate: the rate text is a parameter of `DownloadName`.
- The `input.accept` attribute string (line 532): it is only a hint to the browser's file picker; the predicate at line 535 decides acceptance.
- UTF-16: strings are sequences of Unicode scalar values, while JavaScript regular expressions without the `u` flag match UTF-16 code units. A character outside the Basic Multilingual Plane is one character to `.`, to the fixed-width gap of the timestamp patterns and to `{11}` in the model, but two code units in JavaScript. Such a character after `time` or `Duration` can give a match in the model where `detectProgress`/`detectDuration` find none. Five of them before one more character give no identifier in the model, where `extractVideoId` returns those eleven code units.
- Unicode case folding: the `i` flag is modelled for ASCII letters, which are the only letters in the patterns.

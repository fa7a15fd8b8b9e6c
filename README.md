# image-sorter, modelled in Dafny

image-sorter walks a source folder and files every photo and video under
`<target>/<year>/<month>/<file name>`. It takes the year and month from the file's
embedded metadata (EXIF for images, ffprobe for videos), else from a date in the
file name, else from the file's own timestamp, which is either taken as it is
(`--file-creation-fallback`) or offered to the operator on standard input. Files
are moved (the default), copied, or only reported (`--dry-run`). When the
destination already holds a file, a file of the same size is taken to be the same
and the source is skipped. Otherwise the conflict mode decides: ask the operator,
keep the source, keep the target, or keep both under a `_new` name. Skipped
sources may be deleted (`--delete-skipped-source-duplicates`). The program also
keeps a cache of the destination folders it has already created.

The model follows `src/main.rs` function by function:

| Dafny module | file | models |
|---|---|---|
| `Text` | text.dfy | `str::trim`, byte length, `parse::<i32>` / `parse::<u32>`, `to_string` of integers, lower-casing |
| `Dates` | dates.dfy | chrono's `NaiveDate::from_ymd(y, m, 1)` at midnight, and where it panics |
| `Paths` | paths.dfy | `file_stem`, `extension`, `set_extension`, `change_file_name`, `create_alternative_path` |
| `Classify` | classify.dfy | `is_supported_file_type`, `is_image`, `is_video` |
| `CommandLine` | command_line.dfy | `parse_options` |
| `FilenameDate` | filename_date.dfy | the date regex and `extract_media_creation_time_from_filename` |
| `Prompt` | prompt.dfy | the read-trim-check loops that read standard input |
| `Capture` | capture.dfy | `extract_date_time` and `extract_media_creation_time_from_file_metadata` |
| `Placement` | placement.dfy | the destination path, `validate_and_resolve_path_problems`, `handle_file_exists_at_target` |
| `Relocation` | relocation.dfy | `handle_missing_parents`, `sort_file`, `handle_file` and the loop over all files in `main` |

Standard input is a sequence of lines that every prompt consumes and hands on.
A prompt that never gets an acceptable line loops for ever on an exhausted input;
this outcome is `Halted(Hang)`. A chrono panic and an `unwrap`/`expect` on a
missing file are `Halted(Panic)`. The two `panic!("Unreachable.")` branches
(src/main.rs:482-484 and 572-574) are never reached, because both prompts before
them accept only "1", "2" and "3" (`Capture.ResolutionAnswerNumbered`); the
model has no arm for them. Unbounded
recursion of `validate_and_resolve_path_problems` is `Halted(Overflow)`. The
file system is a map from paths to file sizes plus a set of folders. The
relocation layer is a class, `Relocation.Sorter`, whose fields are the file
system, the `target_parents` cache, the unread input and a log of the changes
made. Each of its methods is proved equal to a pure step function. The
properties are proved about those step functions.

The model keeps the behaviour of the code as written, including the parts that
look unintended:

- with `--conflict-mode source`, and with answer 1 at the conflict prompt, the
  program validates the same occupied path again. In the first case it recurses
  until the stack overflows. In the second it asks again, and it hangs when the
  answers run out (`Placement.ModesOnCollision`, `Placement.ChooseOne`,
  `Placement.OverrideNeverTakes`);
- a month of `00` or `13`–`19` in a file name matches the regex. chrono then
  panics and nothing catches it, and so does a typed month outside 1–12
  (`FilenameDate.MonthThirteenPanics`, `Capture.NameMonthCrashes`,
  `Capture.ManualMonthThirteenPanics`);
- an ffprobe failure ends the date search with its message. The file name and
  the timestamp are not looked at (`Capture.ProbeFailureIsFinal`);
- answer 3 at the date prompt ("skip file") makes the file an error, not a
  skip (`Capture.AnswerThreeIsError`);
- skipped sources are deleted only in move mode. A dry run and a copy delete
  nothing (`Relocation.DiscardSkipped`);
- `a.tar.gz` is renamed to `a.gz`, not to `a.tar_new.gz` (`Paths.RenameLosesSegment`);
- months are written without padding (`7`, not `07`) (`Placement.DestinationLayout`);
- EXIF tags are read in the order DateTimeOriginal, DateTime, DateTimeDigitized.
  The first tag present decides, even when its value does not parse
  (`Capture.MalformedOriginalHidesOthers`);
- two dates in a file name give no date at all (`FilenameDate.TwoDatesNoDate`).

## Model

| member | source | states |
|---|---|---|
| Text.Trim | src/main.rs:427 | the result is no longer than the input and neither starts nor ends with whitespace |
| Text.TrimIsMiddleSlice | src/main.rs:427 | the trimmed text is a slice of the input and everything cut off on either side is whitespace |
| Text.TrimUntouched | src/main.rs:427 | a line without surrounding whitespace is left as it is |
| Text.Utf8Len | src/main.rs:443 | `len()` counts bytes: at least one per character, and exactly one per character only for all-ASCII text |
| Text.ParseInteger | src/main.rs:450 | a parsed value lies in the integer type's range, and comes from ASCII text made of an optional `+` (or `-` for a signed type) and one or more digits, whose signed decimal value it is |
| Text.ParseSignedDigits | src/main.rs:450 | conversely, such a sign and one or more digits always parse: to their signed value when it is in range, to nothing otherwise |
| Text.ParseDigits | src/main.rs:384 | one to four decimal digits parse as `i32` to their decimal value |
| Text.NatToStringValue | src/main.rs:214-215 | the decimal text of a natural number reads back as that number |
| Text.IntToStringRoundTrip | src/main.rs:214-215 | `to_string` of an `i32` parses back as the same `i32` |
| Text.IntToStringInjective | src/main.rs:214-215 | two different years (or months) never give the same folder name |
| Text.ToLowerAscii | src/main.rs:197 | lower-casing keeps the length and maps each character on its own, A-Z to a-z |
| Dates.FirstOfMonth | src/main.rs:476-479 | `from_ymd(y, m, 1)` at midnight gives a date exactly when the month is 1..12 and chrono can hold the year; that date has the given year and month, day 1, time 00:00:00 |
| Paths.LastDotIsLast | src/main.rs:597 | the dot found is the last one, and no dot means none is found |
| Paths.FileStem | src/main.rs:585 | the stem is a prefix of the name, empty exactly for the empty name |
| Paths.Extension | src/main.rs:597 | there is no extension exactly when the name has no dot, its only dot leads it, or it is ".."; an extension is a dot-free tail of the name, shorter than it |
| Paths.SetExtension | src/main.rs:598 | an empty extension leaves the stem alone |
| Paths.SetExtensionRoundTrip | src/main.rs:598 | a non-empty dot-free extension set on a non-empty name is read back as the extension, and the stem is unchanged |
| Paths.ExtensionSplits | src/main.rs:597 | a name with an extension is a non-empty stem, a dot and a dot-free extension; a name without one is its own stem |
| Paths.ChangeFileName | src/main.rs:594-601 | the renamed path stays in the same folder |
| Paths.CreateAlternativePath | src/main.rs:583-592 | the alternative path stays in the same folder |
| Paths.AlternativeWithoutExtension | src/main.rs:583-601 | a name without an extension gets `_new` appended |
| Paths.AlternativeSingleExtension | src/main.rs:583-601 | `stem.ext` with a dot-free stem becomes `stem_new.ext` |
| Paths.AlternativeDropsSegment | src/main.rs:583-601 | `base.mid.ext` becomes `base.ext`: the new file name loses its last inner segment before the extension is put back |
| Paths.AlternativeProgress | src/main.rs:583-601 | each renaming either removes a dot or keeps the dots and makes the name four characters longer |
| Paths.ChainStep | src/main.rs:583-601 | each step of repeated renaming moves strictly forward in the order "fewer dots, then longer" |
| Paths.ChainMovesForward | src/main.rs:583-601 | any later name in the renaming chain comes strictly after any earlier one |
| Paths.ChainDistinct | src/main.rs:583-601 | repeated renaming never returns to a path it has produced before |
| Paths.RenameKeepsExtension | src/main.rs:583-601 | `x.jpg` becomes `x_new.jpg` |
| Paths.RenameWithoutExtension | src/main.rs:583-601 | `x` becomes `x_new` |
| Paths.AlternativeTrailingDot | src/main.rs:583-601 | a name ending in a dot, `foo.`, becomes `foo_new` |
| Paths.RenameLosesSegment | src/main.rs:583-601 | `a.tar.gz` becomes `a.gz` |
| Classify.ExtensionInByEnding | src/main.rs:193-200 | for a list without the empty extension, the lower-cased extension is listed exactly when the name ends in a non-leading dot and a dot-free tail whose lower case is listed |
| Classify.IsSupportedFileType | src/main.rs:193-200 | a file is supported exactly when its name ends in a non-leading dot and one of png, jpg, jpeg, tif, mp4, mov in any case of ASCII letters |
| Classify.IsImage | src/main.rs:491-496 | a file is an image exactly when its name ends in a non-leading dot and one of png, jpg, jpeg, tif in any case of ASCII letters |
| Classify.IsVideo | src/main.rs:498-503 | a file is a video exactly when its name ends in a non-leading dot and mp4 or mov in any case of ASCII letters |
| Classify.SupportedIsImageOrVideo | src/main.rs:193-200 | a file is supported exactly when it is an image or a video |
| Classify.ImageAndVideoDisjoint | src/main.rs:491-503 | no file is both an image and a video |
| Classify.ClassificationIgnoresCase | src/main.rs:491-503 | two extensions that agree once lower-cased classify a file the same way |
| Classify.ExtensionOfDotted | src/main.rs:492-493 | `stem.ext` has extension `ext` |
| CommandLine.ParseOptions | src/main.rs:39-125 | the scanning loop returns the options or exit message that the position-by-position description of `parse_options` gives |
| CommandLine.ScanPrefixDescribed | src/main.rs:50-101 | after any prefix of the arguments the scan has not failed exactly when at most one mode flag and at most one positional argument were read, and then its state is the last mode read, the first positional, the last target and conflict values, and the toggles seen |
| CommandLine.ScanStepDescribed | src/main.rs:51-100 | one turn of the loop keeps that description and fails exactly when the second mode flag or positional is read |
| CommandLine.SkippedCounts | src/main.rs:52-55 | a skipped token (the program name, a flag's value) is not read as anything, and the token after it is read |
| CommandLine.PositionalCounts | src/main.rs:94-100 | a read positional adds one to the positional count and becomes the source folder only if none was set |
| CommandLine.ReadFlagCounts | src/main.rs:56-93 | a read flag sets the mode, target or conflict mode it names, counts once, and makes the next token skipped exactly when it takes a value |
| CommandLine.ParseSucceedsIff | src/main.rs:39-125 | parsing succeeds exactly when at most one mode and one positional were given and the last `--target` value names an existing folder; the options are the last mode (default move), the first positional (default "."), that target, the last conflict mode (default choose) and each toggle iff its flag was read |
| CommandLine.ParseErrors | src/main.rs:60-113 | too many modes or positionals exit with one of their two messages; otherwise a missing target exits with "No target folder supplied." and a target that does not exist with the permissions message |
| CommandLine.ScanErrorMessages | src/main.rs:60-98 | the loop only fails with "Only one mode can be chosen." or "Too many arguments given." |
| CommandLine.ScanErrorPersists | src/main.rs:60-98 | once the loop exits with a message, no later token changes it |
| CommandLine.ProgramNameIgnored | src/main.rs:50-55 | the program name never affects the result |
| CommandLine.StepSeesTwoTokens | src/main.rs:51-100 | a loop turn depends only on the current token and the one after it |
| CommandLine.Defaults | src/main.rs:39-50 | with only a target: move mode, source ".", choose mode, every toggle off |
| CommandLine.SameModeTwice | src/main.rs:64-67 | giving the same mode twice still exits with "Only one mode can be chosen." |
| CommandLine.TargetTakesFlagLikeValue | src/main.rs:76-78 | the token after `--target` is its value even when it looks like a flag |
| FilenameDate.End | src/main.rs:18 | a match is 8 to 10 characters long |
| FilenameDate.MatchAt | src/main.rs:18 | a match found at a position satisfies the pattern `20[012]\d-?[01]\d-?\d{2}` there |
| FilenameDate.MatchAtComplete | src/main.rs:18 | wherever the pattern can match, the matcher finds it, with each optional hyphen taken greedily |
| FilenameDate.NextMatch | src/main.rs:378 | the next match is the leftmost one at or after the position, and none means the pattern matches nowhere after it |
| FilenameDate.Matches | src/main.rs:378 | `captures_iter` yields the leftmost match first, each later match is the leftmost one from its own start, none overlap, and it yields nothing exactly when there is no match |
| FilenameDate.MatchesChained | src/main.rs:378 | each match is the next match found from the end of the one before it, and no match follows the end of the last one |
| FilenameDate.CapturedDigits | src/main.rs:383-385 | the captured year and month are the decimal values of the matched digits |
| FilenameDate.CapturedYear | src/main.rs:383-384 | the captured year is 2000..2029 and parses as `i32` |
| FilenameDate.CapturedMonth | src/main.rs:385 | the captured month is 0..19 and parses as `i32` |
| FilenameDate.DateFromName | src/main.rs:372-396 | a date or a panic comes only from a name with exactly one match; a date is the first of a month 1..12 at midnight |
| FilenameDate.DateFromNameCases | src/main.rs:372-396 | the name gives no date exactly when the pattern does not match exactly once; for one match it gives the first of the captured month at midnight when the month is 1..12, and a panic otherwise |
| FilenameDate.SingleMatch | src/main.rs:378 | the pattern matches exactly once exactly when there is a first match and none after its end |
| FilenameDate.SecondMatchNoDate | src/main.rs:378-394 | any name with a second match after the end of its first has no date |
| FilenameDate.NoMatchAt | src/main.rs:18 | no match starts at a character other than '2' |
| FilenameDate.NextMatchSkips | src/main.rs:378 | the search moves past a position where nothing matches |
| FilenameDate.HyphenatedName | src/main.rs:18 | "2023-07-15" gives July 2023 |
| FilenameDate.DayIgnored | src/main.rs:387-392 | the day is never checked: "20230799" gives July 2023 |
| FilenameDate.NoDayNoDate | src/main.rs:18 | "IMG_202307.jpg" has no date |
| FilenameDate.MonthThirteenPanics | src/main.rs:389 | "20231315" matches and makes `from_ymd` panic |
| FilenameDate.SecondDate | src/main.rs:378 | the search finds the second date in "20230715_20240101" |
| FilenameDate.TwoDatesNoDate | src/main.rs:378-394 | a name with two dates has no date |
| Prompt.FirstAcceptedFrom | src/main.rs:424-434 | the answer is a line read after the starting one that passes the check once trimmed, and the answer is that trimmed line |
| Prompt.EarlierLinesRefused | src/main.rs:424-434 | every line before the answer fails the check, and no answer means every line fails it |
| Prompt.Ask | src/main.rs:424-434 | the read-trim-check loop returns that first accepted line |
| Prompt.Prompted | src/main.rs:424-434 | the answer is the first line that passes the check once trimmed, every line before it was refused, and the lines after it are left unread; when no line passes, the prompt hangs |
| Prompt.BareAnswer | src/main.rs:428 | a line "1", "2" or "3" is taken at once |
| Prompt.AcceptedYearRange | src/main.rs:443-452 | any accepted year is between -999 and 9999 |
| Prompt.AcceptedMonthRange | src/main.rs:462-471 | any accepted month is between 0 and 99 |
| Prompt.EmptyNeverAccepted | src/main.rs:428-471 | an empty line is never accepted |
| Prompt.SignedAnswers | src/main.rs:443-471 | "-123" is accepted as a year, "+1" as a month, and "-1" is refused as a month |
| Prompt.AnyTwoDigitsAreAMonth | src/main.rs:462-471 | any two digits are accepted as a month, with their decimal value |
| Prompt.AnswerIsTrimmed | src/main.rs:424-434 | a line " 2 " is accepted as "2" after one refused line |
| Capture.ExifDate | src/main.rs:327-338 | the EXIF date exists exactly when the first present of DateTimeOriginal, DateTime, DateTimeDigitized parses, and is its value |
| Capture.MetadataDate | src/main.rs:317-353 | the metadata step fails exactly for a video whose ffprobe fails, with its message; a date comes from EXIF for an image or ffprobe for a video; other files give none |
| Capture.ManualDate | src/main.rs:437-479 | a typed date is the first of a month 1..12 at midnight, in a year from -999 to 9999; its year is the `i32` value of the line accepted at the year prompt, its month the `u32` value of the line accepted next at the month prompt, and the input left is what the month prompt left |
| Capture.ManualDatePanics | src/main.rs:476-479 | the typed date panics exactly when both prompts were answered and the month is outside 1..12 |
| Capture.AskResolution | src/main.rs:414-484 | the answer reads at least one line; a hang at the prompt is the result; answer 1 gives the timestamp, answer 2 the typed date (or its panic or hang), answer 3 nothing, each with the input the answer left |
| Capture.FileTimeDate | src/main.rs:398-489 | no timestamp gives nothing without reading input; with the fallback flag the timestamp is taken; otherwise the operator is asked |
| Capture.DateAfterMetadata | src/main.rs:355-362 | after the metadata, input is read only when the name has no date, there is a timestamp and no fallback flag, and then at least one line is read; only then can it hang; its only error is "Could not determine a media file creation date."; a name date is taken as it is without reading input, and a name month outside 1..12 is a panic; with no name date, the timestamp step decides: its halt is the halt, its date is the result with the same lines left, and its nothing is that error |
| Capture.ResolveDate | src/main.rs:311-370 | the input only shrinks, and an error is the ffprobe message of the metadata step or "Could not determine a media file creation date." |
| Capture.NameMonthCrashes | src/main.rs:355-392 | without a metadata date, a name whose single date has a month outside 1..12 crashes the program, whatever the timestamp and the input hold |
| Capture.MetadataFirst | src/main.rs:355-357 | a metadata date wins and no input is read |
| Capture.ProbeFailureIsFinal | src/main.rs:340-341 | an ffprobe failure is the result, whatever the name and timestamp hold |
| Capture.NameSecond | src/main.rs:357 | without metadata, a date in the name wins over the timestamp |
| Capture.FallbackFlagSkipsPrompt | src/main.rs:410-412 | with the fallback flag the timestamp is used without asking |
| Capture.NoTimestamp | src/main.rs:486 | without metadata, name date or timestamp, the file is an error and nothing is asked |
| Capture.InputReadOnlyByPrompt | src/main.rs:355-362 | input is read, and a hang is possible, only when the operator prompt is reached |
| Capture.Provenance | src/main.rs:311-370 | every date comes from the metadata, the name, the timestamp by the flag, the timestamp after answer 1 at the prompt, or after answer 2 the date typed at the year and month prompts |
| Capture.ErrorCases | src/main.rs:339-362 | the only errors are a failed ffprobe and "Could not determine a media file creation date." when every source is empty or declined |
| Capture.MalformedOriginalHidesOthers | src/main.rs:328-336 | a DateTimeOriginal that does not parse hides good DateTime and DateTimeDigitized tags |
| Capture.GenericBeforeDigitized | src/main.rs:330-331 | DateTime is read before DateTimeDigitized |
| Capture.AnswerThreeIsError | src/main.rs:480-481 | when the prompt is reached and its first accepted answer is 3, wherever it stands in the input, the file is an error and the lines after the answer are left |
| Capture.AnswerOneTakesTimestamp | src/main.rs:435-436 | when the prompt is reached and its first accepted answer is 1, the timestamp is the date and the lines after the answer are left |
| Capture.AnswerTwoTakesTypedDate | src/main.rs:437-479 | when the prompt is reached, its first accepted answer is 2 and a year and month are then typed, that date is the result and the lines after the month are left |
| Capture.ResolutionAnswerNumbered | src/main.rs:428-484 | an accepted resolution answer is "1", "2" or "3", so the `Unreachable` arm is never taken; the prompt step panics only through the date typed after answer 2 |
| Capture.ExhaustedInputHangs | src/main.rs:424-434 | with no input left the prompt never returns |
| Capture.ManualMonthThirteenPanics | src/main.rs:476-479 | typing 2023 and 13 makes `from_ymd` panic |
| Placement.Destination | src/main.rs:212-220 | the destination is inside the target, two folders down, and keeps the file name |
| Placement.DestinationLayout | src/main.rs:212-220 | the two folders are the year and the month written in decimal, and the month has one digit exactly when it is below 10 |
| Placement.DestinationSeparatesMonths | src/main.rs:212-220 | two different year-months never share a folder |
| Placement.RoomShrinks | src/main.rs:583-601 | a longer name leaves fewer existing names at least as long |
| Placement.RenamingEnds | src/main.rs:271 | each renaming loses a dot or leaves fewer existing names as long, so repeated renaming ends |
| Placement.Validate | src/main.rs:258-295 | a free destination is taken at once without reading input; a path it settles on is free and in the destination folder, and the input only shrinks |
| Placement.Collision | src/main.rs:505-581 | a path chosen at a collision leads to a free path in the same folder, and the input only shrinks |
| Placement.PlacedOnChain | src/main.rs:258-295 | the path it settles on is the first destination renamed some number of times |
| Placement.KeepBothAsksNothing | src/main.rs:578 | with keep-both, validation always ends and reads no input |
| Placement.KeepBothStep | src/main.rs:578 | with keep-both, a collision with a file of another size moves on to the renamed path |
| Placement.KeepBothWalk | src/main.rs:258-295 | with keep-both, validation walks the renaming chain over the files of other sizes |
| Placement.KeepBothPlaces | src/main.rs:258-295 | with keep-both, the file lands on the first free name in the chain when every earlier one holds a file of another size |
| Placement.KeepBothSkips | src/main.rs:516-520 | with keep-both, the source is skipped when the chain first meets a file of its size |
| Placement.OverrideNeverTakes | src/main.rs:563-564 | answering 1 to every question hangs: the same occupied path is validated again |
| Placement.ChooseOne | src/main.rs:563-564 | when the first accepted answer is 1, wherever it stands in the input, the same path is validated again on the lines after it |
| Placement.ChooseTwo | src/main.rs:565-569 | when the first accepted answer is 2, the file is skipped and the lines after it are left |
| Placement.ChooseThree | src/main.rs:570-571 | when the first accepted answer is 3, the renamed path is validated on the lines after it |
| Placement.ChooseHangs | src/main.rs:552-562 | when no line is an accepted answer, the conflict prompt hangs |
| Placement.SameSizeSkips | src/main.rs:516-520 | a target of the same size skips the source in every conflict mode |
| Placement.ModesOnCollision | src/main.rs:576-577 | keep-target skips; keep-source recurses on the same path until the stack overflows |
| Placement.MissingSourcePanics | src/main.rs:516 | a collision with a source that no longer exists panics |
| Relocation.AncestorsArePrefixes | src/main.rs:307 | `create_dir_all` makes exactly the folder and every folder above it |
| Relocation.CreateDirAll | src/main.rs:307 | it fails exactly when the folder is missing and cannot be created; otherwise the folder and its ancestors exist and no file changes |
| Relocation.RenameFile | src/main.rs:239 | it fails exactly when the source or the destination folder is missing (not found) or either folder cannot be written; otherwise the file is at the new path with its size, gone from the old one, and no other path changes |
| Relocation.CopyFile | src/main.rs:249 | it fails exactly when the source or the destination folder is missing (not found) or the destination folder cannot be written; otherwise a file of the source's size is at the new path and no other path changes |
| Relocation.RemoveFile | src/main.rs:284 | it fails exactly when the file is missing (not found) or its folder cannot be written; otherwise the file is gone and no other path changes |
| Relocation.ReplayAppend | src/main.rs:202-256 | replaying two runs of changes is replaying the first, then the second |
| Relocation.AccountedTransitive | src/main.rs:147-191 | the changes logged over two steps account for the file system after both |
| Relocation.MissingParents | src/main.rs:297-309 | the folder is created only when it is not cached, then it exists; files, cache and input are untouched; it fails only for an uncached, missing folder that cannot be created |
| Relocation.PlaceFile | src/main.rs:231-252 | moving or copying places the file at the destination, or fails exactly when the source or the destination folder is missing or a folder it writes cannot be written; folders, cache and input are untouched and the files change as the mode says |
| Relocation.Transfer | src/main.rs:231-252 | a move or copy places the file at the destination, and fails exactly when the source is missing, a folder it writes cannot be written, or the cached destination folder does not exist; files change exactly as moving or copying says, and only uncached folders are created |
| Relocation.DiscardSkipped | src/main.rs:273-289 | a skip deletes the source only with the delete flag in move mode, and fails exactly then when the source is missing or its folder cannot be written |
| Relocation.SortStep | src/main.rs:202-256 | the outcome follows validation of the dated destination: its halt is the outcome, a skip is a skip (failing exactly as the deletion fails), a settled path is where the file is placed (failing exactly as the transfer fails, never in a dry run); a placed file never lands on an existing file, files change exactly as the mode says, and a dry run changes nothing on disk |
| Relocation.DatedStep | src/main.rs:156-164 | the date is found first: a halt while finding it is the outcome, its error is the outcome with nothing but the input changed, and a date gives exactly the `sort_file` step for that date |
| Relocation.HandleStep | src/main.rs:147-191 | a file is ignored exactly when it is unsupported and unsupported files are not included; the placed file's folder enters the cache; the rest as for `sort_file` |
| Relocation.HandleStepDated | src/main.rs:147-191 | a considered file has exactly the outcome, files, folders, input and log of the dated step, and its cache gains the placed file's folder |
| Relocation.Sorter.constructor | src/main.rs:19 | the run starts with the given files and input, an empty cache and no changes |
| Relocation.Sorter.HandleMissingParents | src/main.rs:297-309 | the method changes the state as the step function says |
| Relocation.Sorter.Place | src/main.rs:231-252 | the method moves or copies the file and changes the state as the placing function says |
| Relocation.Sorter.Discard | src/main.rs:273-289 | the method changes the state as the skip function says |
| Relocation.Sorter.SortFile | src/main.rs:202-256 | the method returns the outcome and new state of the step function |
| Relocation.Sorter.HandleFile | src/main.rs:147-191 | the method returns the outcome and new state of the step function and keeps the cache sound |
| Relocation.Sorter.Run | src/main.rs:14-26 | the loop over all files returns the outcomes and state of the step-by-step run, stopping at a halt |
| Relocation.HandleStepKeepsCache | src/main.rs:166-173 | outside a dry run, every cached folder exists |
| Relocation.RunKeepsCache | src/main.rs:21-25 | the cache stays sound over a whole run |
| Relocation.DryRunTouchesNothing | src/main.rs:227-230 | a dry run changes no file and no folder |
| Relocation.RunAccounted | src/main.rs:21-25 | the log of a run accounts for every change it made to the file system |
| Relocation.RunParents | src/main.rs:166-173 | the cache after a run is the cache before plus exactly the folders of the files placed |
| Relocation.RunSteps | src/main.rs:19-25 | a run gives one outcome per file visited, at most one per file and at least one when there is a file; only the last outcome can be a panic, hang or overflow, and a run that ends early ends with one |
| Relocation.PlacedWhereDated | src/main.rs:156-223 | a placed file had a date, and its path is the dated destination renamed some number of times |
| Relocation.DateErrorReported | src/main.rs:156-182 | a date error is the file's outcome, and nothing but the input changes |

## Left out

- Placement.Collision: its own contract states only that a chosen path is free and in the
  same folder; what each answer at the conflict prompt does is stated for any input by
  `Placement.ChooseOne`, `Placement.ChooseTwo`, `Placement.ChooseThree` and
  `Placement.ChooseHangs`, and the other modes by `Placement.ModesOnCollision` and
  `Placement.SameSizeSkips`.
- The walk of the source folder (`visit_dirs`, lines 132-145) is not modelled. A run takes the files found as a list of jobs, in some order, and the order the operating system gives is not modelled.
- A failing `read_dir` in the walk and the `unwrap` on its result in `main` are not modelled.
- Reading EXIF blocks, running ffprobe, parsing RFC 3339 and `%Y-%m-%d %H:%M:%S`, and turning a file's modification or creation time into a date are library calls. Their results are given per file as `Capture.MediaFacts`.
- `println!` output, `--verbose` messages and `human_bytes` sizes are not modelled. They change no state.
- `Classify`: `to_lowercase` is modelled for ASCII letters only. No text holding a non-ASCII character lower-cases to png, jpg, jpeg, tif, mp4 or mov (`İ`, for one, becomes `i` followed by a combining dot), so the classification agrees with the program on every extension.
- File names are modelled as strings. A file name that is not valid UTF-8 makes the double `unwrap` at src/main.rs:377 panic, and `OsStr::to_str` at src/main.rs:196, 493 and 500 makes such an extension unsupported; neither is modelled.
- `FilenameDate`: the regex's `\d` is modelled as an ASCII digit. The regex crate also accepts other Unicode decimal digits.
- `Relocation`: `exists()` is modelled for files only. A folder at a destination path is not modelled.
- `Relocation`: the operating-system errors are reduced to two kinds with their Linux messages. The folders that cannot be written are a given set. A rename across file systems and a full disk are not modelled.
- `Relocation`: the target folder is given as a list of path components. Splitting the option string into components is not modelled.
- `CommandLine.ParseOptions`: `target_folder.exists()` is modelled as membership in a given set of existing folder names.
- The stack depth at which the keep-source recursion overflows is not modelled. Such a run ends in `Halted(Overflow)`.
- `exit(1)` after a message is modelled as an `Err` with the message. Nothing after it runs.

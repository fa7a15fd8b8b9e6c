/**
 * The capture date of a media file (src/main.rs:311-489): the embedded metadata
 * (EXIF for images, ffprobe for videos), then a date in the file name, then the
 * file's own timestamp, either taken as it is or offered to the operator, who may
 * also type a year and month or skip the file.
 *
 * What the libraries read from the file is given as `MediaFacts`; standard input
 * is the sequence of lines still to be read, threaded through every prompt.
 */
module Capture {
  import opened Wrappers
  import opened Text
  import opened Dates
  import opened Classify
  import opened FilenameDate
  import opened Prompt

  /** One EXIF date tag as the program reads it: its displayed value, trimmed, parsed
   *  with "%Y-%m-%d %H:%M:%S", or a value that does not parse. */
  datatype TagValue = Readable(date: DateTime) | Unreadable

  /** The three date tags of the primary image in a readable EXIF block, each present or not. */
  datatype ExifTags = ExifTags(original: Option<TagValue>, generic: Option<TagValue>, digitized: Option<TagValue>)

  /** What ffprobe gives: a failure with its message, or the `creation_time` tag as a
   *  local date and time (None when the tags, the tag or its RFC 3339 parse are missing). */
  datatype VideoProbe = ProbeFailed(message: string) | Probed(creation: Option<DateTime>)

  /** Everything the date extraction learns from a file besides its name: its EXIF block
   *  (None when the file cannot be opened or holds none), what ffprobe says, and its
   *  modification time, else creation time, when the file system has one. */
  datatype MediaFacts = MediaFacts(exif: Option<ExifTags>, probe: VideoProbe, fileTime: Option<DateTime>)

  const NoCreationDate: string := "Could not determine a media file creation date."

  /** The first of DateTimeOriginal, DateTime and DateTimeDigitized that is present. */
  function FirstTag(tags: ExifTags): Option<TagValue> {
    if tags.original.Some? then tags.original
    else if tags.generic.Some? then tags.generic
    else tags.digitized
  }

  /** The date in an image's EXIF block: the first present tag decides, and a value that
   *  does not parse gives nothing, whatever the later tags hold. */
  function ExifDate(exif: Option<ExifTags>): (r: Option<DateTime>)
    ensures r.Some? <==> exif.Some? && FirstTag(exif.value).Some? && FirstTag(exif.value).value.Readable?
    ensures r.Some? ==> r.value == FirstTag(exif.value).value.date
  {
    match exif
    case None => None
    case Some(tags) =>
      match FirstTag(tags)
      case Some(Readable(d)) => Some(d)
      case _ => None
  }

  /** The metadata step: Ok with the date or nothing, or the ffprobe error, which ends the
   *  extraction early (the `?` after `ffprobe`). Files that are neither images nor videos
   *  have no metadata date. */
  function MetadataDate(name: string, facts: MediaFacts): (r: Result<Option<DateTime>, string>)
    ensures r.Err? <==> IsVideo(name) && facts.probe.ProbeFailed?
    ensures r.Err? ==> r.error == facts.probe.message
    ensures r.Ok? && r.value.Some? ==>
              || (IsImage(name) && ExifDate(facts.exif) == r.value)
              || (IsVideo(name) && facts.probe == Probed(r.value))
    ensures !IsImage(name) && !IsVideo(name) ==> r == Ok(None)
  {
    ImageAndVideoDisjoint(name);
    if IsImage(name) then Ok(ExifDate(facts.exif))
    else if IsVideo(name) then
      match facts.probe
      case ProbeFailed(message) => Err(message)
      case Probed(creation) => Ok(creation)
    else Ok(None)
  }

  /** The year and month prompts, then `from_ymd(year, month, 1)` at midnight, which panics
   *  for a month outside 1..12. */
  function ManualDate(input: seq<string>): (r: Reply<DateTime>)
    ensures r.Reply? ==> 1 <= r.value.month <= 12 && r.value.day == 1 && -999 <= r.value.year <= 9999
    ensures r.Reply? ==> r.value.hour == 0 && r.value.minute == 0 && r.value.second == 0
    ensures r.Reply? ==> |r.rest| + 2 <= |input| && Remains(r.rest, input)
    ensures r.Reply? ==>
              var year := Prompted(Year, input);
              && year.Reply?
              && var month := Prompted(Month, year.rest);
                 && month.Reply?
                 && r.value.year == ParseI32(year.value).value && r.value.month == ParseU32(month.value).value
                 && r.rest == month.rest
  {
    match Prompted(Year, input)
    case Halted(h) => Halted(h)
    case Reply(yearText, afterYear) =>
      match Prompted(Month, afterYear)
      case Halted(h) => Halted(h)
      case Reply(monthText, afterMonth) =>
        RemainsTransitive(afterMonth, afterYear, input);
        AcceptedYearRange(yearText);
        match FirstOfMonth(ParseI32(yearText).value, ParseU32(monthText).value)
        case Some(d) => Reply(d, afterMonth)
        case None => Halted(Panic)
  }

  /** The manual date panics exactly when both prompts were answered and the month typed
   *  is outside 1..12 (the year typed always lies in the range chrono can hold). */
  lemma ManualDatePanics(input: seq<string>)
    ensures ManualDate(input) == Halted(Panic) <==>
              (Prompted(Year, input).Reply? && Prompted(Month, Prompted(Year, input).rest).Reply?
               && !(1 <= ParseU32(Prompted(Month, Prompted(Year, input).rest).value).value <= 12))
  {
    match Prompted(Year, input)
    case Halted(_) =>
    case Reply(yearText, afterYear) =>
      AcceptedYearRange(yearText);
  }

  /** The resolution prompt for a file with timestamp `t`: 1 takes the timestamp, 2 the
   *  operator's year and month, 3 nothing. */
  function AskResolution(t: DateTime, input: seq<string>): (r: Reply<Option<DateTime>>)
    ensures r.Reply? ==> |r.rest| < |input| && Remains(r.rest, input)
    ensures var a := Prompted(Resolution, input);
            && (a.Halted? ==> r == Halted(a.halt))
            && (a.Reply? && a.value == "1" ==> r == Reply(Some(t), a.rest))
            && (a.Reply? && a.value == "2" && ManualDate(a.rest).Halted? ==> r == Halted(ManualDate(a.rest).halt))
            && (a.Reply? && a.value == "2" && ManualDate(a.rest).Reply? ==>
                  r == Reply(Some(ManualDate(a.rest).value), ManualDate(a.rest).rest))
            && (a.Reply? && a.value == "3" ==> r == Reply(None, a.rest))
  {
    match Prompted(Resolution, input)
    case Halted(h) => Halted(h)
    case Reply(answer, rest) =>
      if answer == "1" then Reply(Some(t), rest)
      else if answer == "2" then
        (match ManualDate(rest)
         case Reply(d, afterDate) =>
           RemainsTransitive(afterDate, rest, input);
           Reply(Some(d), afterDate)
         case Halted(h) => Halted(h))
      else Reply(None, rest)
  }

  /** `extract_media_creation_time_from_file_metadata`: no timestamp gives nothing; with the
   *  fallback flag the timestamp is taken as it is; otherwise the operator is asked. */
  function FileTimeDate(fileTime: Option<DateTime>, fallback: bool, input: seq<string>): (r: Reply<Option<DateTime>>)
    ensures r.Reply? ==> Remains(r.rest, input)
    ensures fileTime.None? ==> r == Reply(None, input)
    ensures fileTime.Some? && fallback ==> r == Reply(fileTime, input)
    ensures fileTime.Some? && !fallback ==> r == AskResolution(fileTime.value, input)
  {
    match fileTime
    case None => Reply(None, input)
    case Some(t) => if fallback then Reply(Some(t), input) else AskResolution(t, input)
  }

  /** What follows when the metadata gave nothing: the name's date, the panic in
   *  `from_ymd`, or the file's timestamp step, whose nothing becomes the final error. */
  function DateAfterMetadata(fromName: NameDate, fileTime: Option<DateTime>, fallback: bool, input: seq<string>)
    : (r: Reply<Result<DateTime, string>>)
    ensures r.Reply? ==> Remains(r.rest, input)
    ensures r.Reply? && !(fromName.NoNameDate? && fileTime.Some? && !fallback) ==> r.rest == input
    ensures r.Reply? && fromName.NoNameDate? && fileTime.Some? && !fallback ==> |r.rest| < |input|
    ensures r == Halted(Hang) ==> fromName.NoNameDate? && fileTime.Some? && !fallback
    ensures r.Reply? && r.value.Err? ==> fromName.NoNameDate? && r.value.error == NoCreationDate
    ensures fromName.NameMonthPanic? ==> r == Halted(Panic)
    ensures fromName.NameDate? ==> r == Reply(Ok(fromName.date), input)
    ensures fromName.NoNameDate? ==>
              var f := FileTimeDate(fileTime, fallback, input);
              && (f.Halted? ==> r == Halted(f.halt))
              && (f.Reply? && f.value.Some? ==> r == Reply(Ok(f.value.value), f.rest))
              && (f.Reply? && f.value.None? ==> r == Reply(Err(NoCreationDate), f.rest))
  {
    match fromName
    case NameDate(d) => Reply(Ok(d), input)
    case NameMonthPanic => Halted(Panic)
    case NoNameDate =>
      match FileTimeDate(fileTime, fallback, input)
      case Halted(h) => Halted(h)
      case Reply(Some(d), rest) => Reply(Ok(d), rest)
      case Reply(None, rest) => Reply(Err(NoCreationDate), rest)
  }

  /** `extract_date_time`: metadata, then the file name, then the file's timestamp, and an
   *  error when none of them gives a date. */
  function ResolveDate(name: string, facts: MediaFacts, fallback: bool, input: seq<string>): (r: Reply<Result<DateTime, string>>)
    ensures r.Reply? ==> Remains(r.rest, input)
    ensures r.Reply? && r.value.Err? ==>
              r.value.error == NoCreationDate || MetadataDate(name, facts) == Err(r.value.error)
  {
    match MetadataDate(name, facts)
    case Err(message) => Reply(Err(message), input)
    case Ok(Some(d)) => Reply(Ok(d), input)
    case Ok(None) => DateAfterMetadata(DateFromName(name), facts.fileTime, fallback, input)
  }

  /** Resolution without a metadata date goes through `DateAfterMetadata`. */
  lemma ResolveAfterMetadata(name: string, facts: MediaFacts, fallback: bool, input: seq<string>)
    requires MetadataDate(name, facts) == Ok(None)
    ensures ResolveDate(name, facts, fallback, input) == DateAfterMetadata(DateFromName(name), facts.fileTime, fallback, input)
  {
  }

  /** True when the extraction reaches the operator prompt. */
  predicate Prompts(name: string, facts: MediaFacts, fallback: bool) {
    MetadataDate(name, facts) == Ok(None) && DateFromName(name).NoNameDate? && facts.fileTime.Some? && !fallback
  }

  // ---------------------------------------------------------------------------
  // The order of the sources.

  /** A metadata date wins: the name, the timestamp and the input are never looked at. */
  lemma MetadataFirst(name: string, facts: MediaFacts, fallback: bool, input: seq<string>, d: DateTime)
    requires (IsImage(name) && ExifDate(facts.exif) == Some(d)) || (IsVideo(name) && facts.probe == Probed(Some(d)))
    ensures ResolveDate(name, facts, fallback, input) == Reply(Ok(d), input)
  {
    ImageAndVideoDisjoint(name);
    assert MetadataDate(name, facts) == Ok(Some(d));
  }

  /** When ffprobe fails on a video, its message is the result, even if the file name
   *  carries a date or the file has a timestamp. */
  lemma ProbeFailureIsFinal(name: string, facts: MediaFacts, fallback: bool, input: seq<string>)
    requires IsVideo(name) && facts.probe.ProbeFailed?
    ensures ResolveDate(name, facts, fallback, input) == Reply(Err(facts.probe.message), input)
  {
  }

  /** Without a metadata date, a date in the name is used before the file's timestamp. */
  lemma NameSecond(name: string, facts: MediaFacts, fallback: bool, input: seq<string>, d: DateTime)
    requires MetadataDate(name, facts) == Ok(None) && DateFromName(name) == NameDate(d)
    ensures ResolveDate(name, facts, fallback, input) == Reply(Ok(d), input)
  {
    ResolveAfterMetadata(name, facts, fallback, input);
  }

  /** With the fallback flag the timestamp is used without asking. */
  lemma FallbackFlagSkipsPrompt(name: string, facts: MediaFacts, input: seq<string>)
    requires MetadataDate(name, facts) == Ok(None) && DateFromName(name).NoNameDate? && facts.fileTime.Some?
    ensures ResolveDate(name, facts, true, input) == Reply(Ok(facts.fileTime.value), input)
  {
    ResolveAfterMetadata(name, facts, true, input);
  }

  /** A name whose single date has a month outside 1..12 crashes the program in `from_ymd`,
   *  whatever the timestamp and the input hold. */
  lemma NameMonthCrashes(name: string, facts: MediaFacts, fallback: bool, input: seq<string>)
    requires MetadataDate(name, facts) == Ok(None) && DateFromName(name) == NameMonthPanic
    ensures ResolveDate(name, facts, fallback, input) == Halted(Panic)
  {
    ResolveAfterMetadata(name, facts, fallback, input);
  }

  /** Without a timestamp nothing is asked: the file is an error, flag or no flag. */
  lemma NoTimestamp(name: string, facts: MediaFacts, fallback: bool, input: seq<string>)
    requires MetadataDate(name, facts) == Ok(None) && DateFromName(name).NoNameDate? && facts.fileTime.None?
    ensures ResolveDate(name, facts, fallback, input) == Reply(Err(NoCreationDate), input)
  {
    ResolveAfterMetadata(name, facts, fallback, input);
  }

  /** Standard input is read exactly when the prompt is reached: then at least one line is
   *  consumed (or the prompt never returns), otherwise none. */
  lemma InputReadOnlyByPrompt(name: string, facts: MediaFacts, fallback: bool, input: seq<string>)
    ensures !Prompts(name, facts, fallback) ==> ResolveDate(name, facts, fallback, input) != Halted(Hang)
    ensures !Prompts(name, facts, fallback) && ResolveDate(name, facts, fallback, input).Reply? ==>
              ResolveDate(name, facts, fallback, input).rest == input
    ensures Prompts(name, facts, fallback) && ResolveDate(name, facts, fallback, input).Reply? ==>
              |ResolveDate(name, facts, fallback, input).rest| < |input|
  {
    if MetadataDate(name, facts) == Ok(None) {
      ResolveAfterMetadata(name, facts, fallback, input);
      assert Prompts(name, facts, fallback) <==> DateFromName(name).NoNameDate? && facts.fileTime.Some? && !fallback;
    }
  }

  /** Every date the extraction gives came from somewhere: the metadata, the name, the
   *  file's timestamp, or the operator's year and month (first of the month at midnight). */
  lemma Provenance(name: string, facts: MediaFacts, fallback: bool, input: seq<string>)
    requires ResolveDate(name, facts, fallback, input).Reply?
    requires ResolveDate(name, facts, fallback, input).value.Ok?
    ensures var d := ResolveDate(name, facts, fallback, input).value.value;
            || MetadataDate(name, facts) == Ok(Some(d))
            || DateFromName(name) == NameDate(d)
            || (fallback && facts.fileTime == Some(d))
            || (Prompts(name, facts, fallback) && Prompted(Resolution, input) == Reply("1", Prompted(Resolution, input).rest)
                && facts.fileTime == Some(d))
            || (Prompts(name, facts, fallback) && Prompted(Resolution, input) == Reply("2", Prompted(Resolution, input).rest)
                && ManualDate(Prompted(Resolution, input).rest) == Reply(d, ResolveDate(name, facts, fallback, input).rest))
  {
    var d := ResolveDate(name, facts, fallback, input).value.value;
    match MetadataDate(name, facts)
    case Err(_) =>
    case Ok(Some(e)) =>
    case Ok(None) =>
      ResolveAfterMetadata(name, facts, fallback, input);
      match DateFromName(name)
      case NameDate(e) =>
      case NameMonthPanic =>
      case NoNameDate =>
        if facts.fileTime.Some? && !fallback {
          assert Prompts(name, facts, fallback);
        }
  }

  /** The extraction gives an error only for a failed ffprobe or when every source is
   *  empty or declined. */
  lemma ErrorCases(name: string, facts: MediaFacts, fallback: bool, input: seq<string>)
    requires ResolveDate(name, facts, fallback, input).Reply?
    requires ResolveDate(name, facts, fallback, input).value.Err?
    ensures var e := ResolveDate(name, facts, fallback, input).value.error;
            || (IsVideo(name) && facts.probe == ProbeFailed(e))
            || (e == NoCreationDate && MetadataDate(name, facts) == Ok(None) && DateFromName(name).NoNameDate?
                && (facts.fileTime.None? || Prompts(name, facts, fallback)))
  {
    if MetadataDate(name, facts) == Ok(None) {
      ResolveAfterMetadata(name, facts, fallback, input);
    }
  }

  // ---------------------------------------------------------------------------
  // Examples.

  /** A DateTimeOriginal value that does not parse hides a good DateTime tag. */
  lemma MalformedOriginalHidesOthers(d: DateTime)
    ensures ExifDate(Some(ExifTags(Some(Unreadable), Some(Readable(d)), Some(Readable(d))))) == None
  {
  }

  /** The generic DateTime tag is read before DateTimeDigitized. */
  lemma GenericBeforeDigitized(d: DateTime, e: DateTime)
    ensures ExifDate(Some(ExifTags(None, Some(Readable(d)), Some(Readable(e))))) == Some(d)
  {
  }

  /** Answer 3 declines the timestamp, and the file is reported as an error. */
  lemma AnswerThreeIsError(name: string, facts: MediaFacts, input: seq<string>, rest: seq<string>)
    requires Prompts(name, facts, false)
    requires Prompted(Resolution, input) == Reply("3", rest)
    ensures ResolveDate(name, facts, false, input) == Reply(Err(NoCreationDate), rest)
  {
    ResolveAfterMetadata(name, facts, false, input);
  }

  /** Answer 1 takes the timestamp. */
  lemma AnswerOneTakesTimestamp(name: string, facts: MediaFacts, input: seq<string>, rest: seq<string>)
    requires Prompts(name, facts, false)
    requires Prompted(Resolution, input) == Reply("1", rest)
    ensures ResolveDate(name, facts, false, input) == Reply(Ok(facts.fileTime.value), rest)
  {
    ResolveAfterMetadata(name, facts, false, input);
  }

  /** Answer 2 takes the year and month typed after it, on the first of the month. */
  lemma AnswerTwoTakesTypedDate(name: string, facts: MediaFacts, input: seq<string>, rest: seq<string>,
                                d: DateTime, afterDate: seq<string>)
    requires Prompts(name, facts, false)
    requires Prompted(Resolution, input) == Reply("2", rest)
    requires ManualDate(rest) == Reply(d, afterDate)
    ensures ResolveDate(name, facts, false, input) == Reply(Ok(d), afterDate)
  {
    ResolveAfterMetadata(name, facts, false, input);
  }

  /** The resolution prompt accepts only the three numbered answers, so every accepted answer
   *  takes one of the three arms and the `Unreachable` panic after them is never reached:
   *  the only panic left is the one in the date typed after answer 2. */
  lemma ResolutionAnswerNumbered(t: DateTime, input: seq<string>)
    ensures var a := Prompted(Resolution, input);
            a.Reply? ==> a.value == "1" || a.value == "2" || a.value == "3"
    ensures var a := Prompted(Resolution, input);
            AskResolution(t, input) == Halted(Panic) ==> a.Reply? && a.value == "2" && ManualDate(a.rest) == Halted(Panic)
  {
  }

  /** When the input runs out before an answer, the prompt spins for ever. */
  lemma ExhaustedInputHangs(name: string, facts: MediaFacts)
    requires Prompts(name, facts, false)
    ensures ResolveDate(name, facts, false, []) == Halted(Hang)
  {
    ResolveAfterMetadata(name, facts, false, []);
  }

  lemma YearTyped()
    ensures Prompted(Year, ["2023", "13"]) == Reply("2023", ["13"])
    ensures ParseI32("2023") == Some(2023)
  {
    var y := "2023";
    assert forall k :: 0 <= k < |y| ==> y[k] as int < 0x80;
    assert Trim(y) == y;
    DigitsValueFour(y);
    ParseDigits(y);
  }

  lemma MonthTyped()
    ensures Prompted(Month, ["13"]) == Reply("13", [])
    ensures ParseU32("13") == Some(13)
  {
    var m := "13";
    assert forall k :: 0 <= k < |m| ==> m[k] as int < 0x80;
    assert Trim(m) == m;
    DigitsValueTwo(m);
  }

  /** Month 13 typed by the operator makes `from_ymd` panic. */
  lemma ManualMonthThirteenPanics()
    ensures ManualDate(["2023", "13"]) == Halted(Panic)
  {
    YearTyped();
    MonthTyped();
  }
}

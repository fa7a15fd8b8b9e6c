/**
 * Where a media file goes (src/main.rs:202-295 and 505-581): the destination
 * `<target>/<year>/<month>/<file name>`, and the resolution of a collision with a file
 * already there, by size, by the conflict mode, or by asking the operator, repeated
 * until a free path is found or the file is skipped.
 */
module Placement {
  import opened Wrappers
  import opened Text
  import opened Dates
  import opened Paths
  import opened Prompt
  import opened CommandLine

  /** The files that exist, with their sizes in bytes. */
  type Files = map<FilePath, nat>

  /** `target.join(year.to_string()).join(month.to_string()).join(file_name)`. */
  function Destination(target: Dir, date: DateTime, name: string): (p: FilePath)
    ensures p.name == name && |p.dir| == |target| + 2 && p.dir[..|target|] == target
  {
    FilePath(target + [IntToString(date.year), IntToString(date.month)], name)
  }

  /** The year folder and the month folder of a destination read back as the date's year
   *  and month; the month is not padded, so months before October have one digit. */
  lemma DestinationLayout(target: Dir, date: DateTime, name: string)
    requires MinYear <= date.year <= MaxYear && 1 <= date.month <= 12
    ensures var p := Destination(target, date, name);
            && ParseI32(p.dir[|target|]) == Some(date.year)
            && ParseI32(p.dir[|target| + 1]) == Some(date.month)
            && (|p.dir[|target| + 1]| == 1 <==> date.month < 10)
  {
    IntToStringRoundTrip(date.year);
    IntToStringRoundTrip(date.month);
    if date.month >= 10 {
      assert NatToString(date.month) == NatToString(date.month / 10) + [DigitChar(date.month % 10)];
    }
  }

  /** Files dated in different months land in different folders. */
  lemma DestinationSeparatesMonths(target: Dir, d: DateTime, e: DateTime, name: string)
    requires MinYear <= d.year <= MaxYear && 1 <= d.month <= 12
    requires MinYear <= e.year <= MaxYear && 1 <= e.month <= 12
    requires (d.year, d.month) != (e.year, e.month)
    ensures Destination(target, d, name).dir != Destination(target, e, name).dir
  {
    var p, q := Destination(target, d, name), Destination(target, e, name);
    if p.dir == q.dir {
      assert p.dir[|target|] == q.dir[|target|] && p.dir[|target| + 1] == q.dir[|target| + 1];
      IntToStringInjective(d.year, e.year);
      IntToStringInjective(d.month, e.month);
    }
  }

  /** How many existing files have a name at least as long as `p`'s. */
  function Room(files: Files, p: FilePath): nat {
    var longer := set k | k in files && |k.name| >= |p.name|;
    |longer|
  }

  lemma {:induction false} SubsetSize<T>(a: set<T>, b: set<T>)
    requires a <= b
    ensures |a| <= |b|
    decreases |a|
  {
    if a != {} {
      var x :| x in a;
      SubsetSize(a - {x}, b - {x});
    }
  }

  /** A longer name than that of an existing file leaves less room. */
  lemma RoomShrinks(files: Files, p: FilePath, q: FilePath)
    requires p in files && |q.name| > |p.name|
    ensures Room(files, q) < Room(files, p)
  {
    var a := set k | k in files && |k.name| >= |q.name|;
    var b := set k | k in files && |k.name| >= |p.name|;
    assert p in b && p !in a;
    SubsetSize(a, b - {p});
  }

  /** The renaming used for KeepBoth and answer 3 moves forward in the order of
   *  (fewer dots, then less room), so trying candidates ends. */
  lemma RenamingEnds(files: Files, p: FilePath)
    requires p in files
    ensures var q := CreateAlternativePath(p);
            Dots(q.name) < Dots(p.name) || (Dots(q.name) == Dots(p.name) && Room(files, q) < Room(files, p))
  {
    AlternativeProgress(p);
    var q := CreateAlternativePath(p);
    if Dots(q.name) == Dots(p.name) {
      RoomShrinks(files, p, q);
    }
  }

  /** `validate_and_resolve_path_problems`: a free path is taken; for a taken one,
   *  `handle_file_exists_at_target` decides, and a path it returns is validated again. */
  function Validate(files: Files, mode: ConflictMode, source: FilePath, target: FilePath, input: seq<string>)
    : (r: Reply<Option<FilePath>>)
    ensures r.Reply? ==> Remains(r.rest, input)
    ensures r.Reply? && r.value.Some? ==> r.value.value !in files && r.value.value.dir == target.dir
    ensures target !in files ==> r == Reply(Some(target), input)
    decreases |input|, Dots(target.name), Room(files, target), 1
  {
    if target !in files then Reply(Some(target), input)
    else Collision(files, mode, source, target, input)
  }

  /** `handle_file_exists_at_target` for a taken `target`, followed by the validation of the
   *  path it returns: a missing source makes `metadata().unwrap()` panic; a source of the
   *  same size is skipped; otherwise KeepTarget skips, KeepSource returns the same path and
   *  so recurses for ever, KeepBoth tries the renamed path, and Choose asks: 1 returns the
   *  same path, which is still taken and so asks again, 2 skips, 3 tries the renamed path. */
  function Collision(files: Files, mode: ConflictMode, source: FilePath, target: FilePath, input: seq<string>)
    : (r: Reply<Option<FilePath>>)
    requires target in files
    ensures r.Reply? ==> Remains(r.rest, input)
    ensures r.Reply? && r.value.Some? ==> r.value.value !in files && r.value.value.dir == target.dir
    decreases |input|, Dots(target.name), Room(files, target), 0
  {
    if source !in files then Halted(Panic)
    else if files[source] == files[target] then Reply(None, input)
    else
      match mode
      case KeepTarget => Reply(None, input)
      case KeepSource => Halted(Overflow)
      case KeepBoth =>
        RenamingEnds(files, target);
        Validate(files, mode, source, CreateAlternativePath(target), input)
      case Choose =>
        match Prompted(Resolution, input)
        case Halted(h) => Halted(h)
        case Reply(answer, rest) =>
          if answer == "2" then Reply(None, rest)
          else
            var next := if answer == "1" then target else CreateAlternativePath(target);
            var r := Validate(files, mode, source, next, rest);
            ReplyRemains(r, rest, input);
            r
  }

  // ---------------------------------------------------------------------------
  // Properties of the resolution.

  /** A path the resolution settles on is one of the renaming candidates of the destination. */
  lemma {:induction false} PlacedOnChain(files: Files, mode: ConflictMode, source: FilePath, target: FilePath, input: seq<string>)
    requires Validate(files, mode, source, target, input).Reply?
    requires Validate(files, mode, source, target, input).value.Some?
    ensures exists k: nat :: Validate(files, mode, source, target, input).value.value == AlternativeChain(target, k)
    decreases |input|, Dots(target.name), Room(files, target)
  {
    var p := Validate(files, mode, source, target, input).value.value;
    if target !in files {
      assert p == AlternativeChain(target, 0);
    } else {
      match mode
      case KeepBoth =>
        RenamingEnds(files, target);
        var alt := CreateAlternativePath(target);
        PlacedOnChain(files, mode, source, alt, input);
        var k: nat :| p == AlternativeChain(alt, k);
        ChainShift(target, k);
        assert p == AlternativeChain(target, k + 1);
      case Choose =>
        var rest := Prompted(Resolution, input).rest;
        var answer := Prompted(Resolution, input).value;
        if answer == "1" {
          PlacedOnChain(files, mode, source, target, rest);
        } else {
          var alt := CreateAlternativePath(target);
          PlacedOnChain(files, mode, source, alt, rest);
          var k: nat :| p == AlternativeChain(alt, k);
          ChainShift(target, k);
          assert p == AlternativeChain(target, k + 1);
        }
    }
  }

  /** With KeepBoth nothing is read from the input and, when the source exists, nothing halts. */
  lemma {:induction false} KeepBothAsksNothing(files: Files, source: FilePath, target: FilePath, input: seq<string>)
    requires source in files
    ensures Validate(files, KeepBoth, source, target, input).Reply?
    ensures Validate(files, KeepBoth, source, target, input).rest == input
    decreases Dots(target.name), Room(files, target)
  {
    if target in files && files[source] != files[target] {
      RenamingEnds(files, target);
      KeepBothAsksNothing(files, source, CreateAlternativePath(target), input);
      KeepBothStep(files, source, target, input);
    }
  }

  /** On a collision under KeepBoth the renamed path is tried next, with the same input. */
  lemma KeepBothStep(files: Files, source: FilePath, target: FilePath, input: seq<string>)
    requires target in files && source in files && files[source] != files[target]
    ensures Validate(files, KeepBoth, source, target, input)
            == Validate(files, KeepBoth, source, CreateAlternativePath(target), input)
  {
  }

  /** The renaming candidates of `target` from the `j`-th up to, but not including, the
   *  `k`-th all exist and differ in size from the source. */
  predicate Occupied(files: Files, source: FilePath, target: FilePath, j: nat, k: nat)
    requires source in files
    decreases k - j
  {
    j >= k || (&& AlternativeChain(target, j) in files
               && files[AlternativeChain(target, j)] != files[source]
               && Occupied(files, source, target, j + 1, k))
  }

  /** Under KeepBoth, validating the `j`-th candidate leads to validating the `k`-th when
   *  all those in between are taken by files of another size. */
  lemma {:induction false} KeepBothWalk(files: Files, source: FilePath, target: FilePath, input: seq<string>, j: nat, k: nat)
    requires source in files && j <= k && Occupied(files, source, target, j, k)
    ensures Validate(files, KeepBoth, source, AlternativeChain(target, j), input)
            == Validate(files, KeepBoth, source, AlternativeChain(target, k), input)
    decreases k - j
  {
    if j < k {
      var here := AlternativeChain(target, j);
      ChainNext(target, j);
      KeepBothStep(files, source, here, input);
      KeepBothWalk(files, source, target, input, j + 1, k);
    }
  }

  /** KeepBoth settles on the first renaming candidate that is free. */
  lemma KeepBothPlaces(files: Files, source: FilePath, target: FilePath, input: seq<string>, k: nat)
    requires source in files && Occupied(files, source, target, 0, k) && AlternativeChain(target, k) !in files
    ensures Validate(files, KeepBoth, source, target, input) == Reply(Some(AlternativeChain(target, k)), input)
  {
    KeepBothWalk(files, source, target, input, 0, k);
  }

  /** KeepBoth skips the file at the first renaming candidate holding a file of the source's size. */
  lemma KeepBothSkips(files: Files, source: FilePath, target: FilePath, input: seq<string>, k: nat)
    requires source in files && Occupied(files, source, target, 0, k)
    requires AlternativeChain(target, k) in files && files[AlternativeChain(target, k)] == files[source]
    ensures Validate(files, KeepBoth, source, target, input) == Reply(None, input)
  {
    KeepBothWalk(files, source, target, input, 0, k);
  }

  /** Answer 1 ("override") never overwrites: the same path is checked again, still taken,
   *  and the operator is asked again; with nothing but 1s the prompt ends up spinning. */
  lemma {:induction false} OverrideNeverTakes(files: Files, source: FilePath, target: FilePath, input: seq<string>)
    requires target in files && source in files && files[source] != files[target]
    requires forall k :: 0 <= k < |input| ==> Trim(input[k]) == "1"
    ensures Validate(files, Choose, source, target, input) == Halted(Hang)
    decreases |input|
  {
    if input != [] {
      assert FirstAccepted(Resolution, input) == Some(Answer("1", 1));
      OverrideNeverTakes(files, source, target, input[1..]);
    }
  }

  /** Answer 1 checks the same path again. */
  lemma ChooseOne(files: Files, source: FilePath, target: FilePath, input: seq<string>, rest: seq<string>)
    requires target in files && source in files && files[source] != files[target]
    requires Prompted(Resolution, input) == Reply("1", rest)
    ensures Validate(files, Choose, source, target, input) == Validate(files, Choose, source, target, rest)
  {
  }

  /** Answer 2 skips the file. */
  lemma ChooseTwo(files: Files, source: FilePath, target: FilePath, input: seq<string>, rest: seq<string>)
    requires target in files && source in files && files[source] != files[target]
    requires Prompted(Resolution, input) == Reply("2", rest)
    ensures Validate(files, Choose, source, target, input) == Reply(None, rest)
  {
  }

  /** Answer 3 tries the renamed path. */
  lemma ChooseThree(files: Files, source: FilePath, target: FilePath, input: seq<string>, rest: seq<string>)
    requires target in files && source in files && files[source] != files[target]
    requires Prompted(Resolution, input) == Reply("3", rest)
    ensures Validate(files, Choose, source, target, input)
            == Validate(files, Choose, source, CreateAlternativePath(target), rest)
  {
  }

  /** With no accepted answer left in the input, the prompt spins for ever. */
  lemma ChooseHangs(files: Files, source: FilePath, target: FilePath, input: seq<string>)
    requires target in files && source in files && files[source] != files[target]
    requires Prompted(Resolution, input).Halted?
    ensures Validate(files, Choose, source, target, input) == Halted(Hang)
  {
  }

  /** A file of the same size at the destination is taken to be the same file, in every mode. */
  lemma SameSizeSkips(files: Files, mode: ConflictMode, source: FilePath, target: FilePath, input: seq<string>)
    requires target in files && source in files && files[source] == files[target]
    ensures Validate(files, mode, source, target, input) == Reply(None, input)
  {
  }

  /** The non-interactive modes on a collision with a file of another size. */
  lemma ModesOnCollision(files: Files, source: FilePath, target: FilePath, input: seq<string>)
    requires target in files && source in files && files[source] != files[target]
    ensures Validate(files, KeepTarget, source, target, input) == Reply(None, input)
    ensures Validate(files, KeepSource, source, target, input) == Halted(Overflow)
  {
  }

  /** A collision with a missing source panics in `metadata().unwrap()`. */
  lemma MissingSourcePanics(files: Files, mode: ConflictMode, source: FilePath, target: FilePath, input: seq<string>)
    requires target in files && source !in files
    ensures Validate(files, mode, source, target, input) == Halted(Panic)
  {
  }
}

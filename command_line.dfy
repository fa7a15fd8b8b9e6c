/**
 * The command-line option scanner `parse_options` (src/main.rs:39-125).
 * Every `exit_with_message` becomes an `Err` carrying its message; whether the
 * target folder exists is an input (the set of existing folder names).
 */
module CommandLine {
  import opened Wrappers

  datatype Mode = DryRun | Move | Copy

  datatype ConflictMode = Choose | KeepSource | KeepTarget | KeepBoth

  datatype Options = Options(
    verbose: bool,
    mode: Mode,
    source: string,
    target: string,
    includeUnsupported: bool,
    conflictMode: ConflictMode,
    fileTimeFallback: bool,
    deleteSkippedDuplicates: bool)

  const OnlyOneMode: string := "Only one mode can be chosen."
  const TooManyArguments: string := "Too many arguments given."
  const NoTarget: string := "No target folder supplied."
  const TargetMissing: string := "Target folder does not exists or you are missing the required permissions."

  /** What a token is, tested in the order of the scanner's `if` chain. */
  datatype Token =
    | VerboseToken
    | ModeToken(mode: Mode)
    | TargetToken
    | ConflictToken
    | FallbackToken
    | DeleteToken
    | IncludeToken
    | PlainToken

  function TokenOf(arg: string): Token {
    if arg == "--verbose" || arg == "-v" then VerboseToken
    else if arg == "--dry-run" || arg == "-d" then ModeToken(DryRun)
    else if arg == "--copy" || arg == "-c" then ModeToken(Copy)
    else if arg == "--move" || arg == "-m" then ModeToken(Move)
    else if arg == "--target" || arg == "-t" then TargetToken
    else if arg == "--conflict-mode" || arg == "-k" then ConflictToken
    else if arg == "--file-creation-fallback" || arg == "-s" then FallbackToken
    else if arg == "--delete-skipped-source-duplicates" || arg == "-q" then DeleteToken
    else if arg == "--include-unsupported-file-types" || arg == "-u" then IncludeToken
    else PlainToken
  }

  function ModeFlag(arg: string): Option<Mode> {
    if TokenOf(arg).ModeToken? then Some(TokenOf(arg).mode) else None
  }

  predicate IsModeFlag(arg: string) { TokenOf(arg).ModeToken? }
  predicate IsVerboseFlag(arg: string) { TokenOf(arg) == VerboseToken }
  predicate IsTargetFlag(arg: string) { TokenOf(arg) == TargetToken }
  predicate IsConflictFlag(arg: string) { TokenOf(arg) == ConflictToken }
  predicate IsFallbackFlag(arg: string) { TokenOf(arg) == FallbackToken }
  predicate IsDeleteFlag(arg: string) { TokenOf(arg) == DeleteToken }
  predicate IsIncludeFlag(arg: string) { TokenOf(arg) == IncludeToken }

  /** Flags that consume the following token as their value. */
  predicate TakesValue(arg: string) { IsTargetFlag(arg) || IsConflictFlag(arg) }

  /** A token that is none of the flags: the source folder. */
  predicate IsPositional(arg: string) { TokenOf(arg) == PlainToken }

  /** The value of `--conflict-mode`; anything else, or nothing, is Choose. */
  function ConflictModeOf(value: Option<string>): ConflictMode {
    match value
    case Some("both") => KeepBoth
    case Some("source") => KeepSource
    case Some("target") => KeepTarget
    case _ => Choose
  }

  /** `args.get(i + 1)`. */
  function ValueAfter(args: seq<string>, i: nat): Option<string> {
    if i + 1 < |args| then Some(args[i + 1]) else None
  }

  /** The scanner's mutable locals. */
  datatype Scan = Scan(
    mode: Mode,
    modeSet: bool,
    verbose: bool,
    source: Option<string>,
    target: Option<string>,
    conflictMode: ConflictMode,
    fallback: bool,
    deleteSkipped: bool,
    includeUnsupported: bool,
    skipNext: bool)

  const InitialScan: Scan := Scan(Move, false, false, None, None, Choose, false, false, false, true)

  /** One turn of the scanning loop, on `args[i]`. */
  function ScanStep(args: seq<string>, i: nat, st: Scan): Result<Scan, string>
    requires i < |args|
  {
    var arg := args[i];
    if st.skipNext then Ok(st.(skipNext := false))
    else if IsVerboseFlag(arg) then Ok(st.(verbose := true))
    else if IsModeFlag(arg) then
      if st.modeSet then Err(OnlyOneMode) else Ok(st.(mode := ModeFlag(arg).value, modeSet := true))
    else if IsTargetFlag(arg) then Ok(st.(target := ValueAfter(args, i), skipNext := true))
    else if IsConflictFlag(arg) then Ok(st.(conflictMode := ConflictModeOf(ValueAfter(args, i)), skipNext := true))
    else if IsFallbackFlag(arg) then Ok(st.(fallback := true))
    else if IsDeleteFlag(arg) then Ok(st.(deleteSkipped := true))
    else if IsIncludeFlag(arg) then Ok(st.(includeUnsupported := true))
    else if st.source.None? then Ok(st.(source := Some(arg)))
    else Err(TooManyArguments)
  }

  /** The scanner's state after the first `n` tokens, or the message it exited with. */
  function ScanPrefix(args: seq<string>, n: nat): Result<Scan, string>
    requires n <= |args|
  {
    if n == 0 then Ok(InitialScan)
    else match ScanPrefix(args, n - 1)
      case Err(e) => Err(e)
      case Ok(st) => ScanStep(args, n - 1, st)
  }

  /** What follows the loop: the default source, the required and existing target. */
  function Finish(st: Scan, existingFolders: set<string>): Result<Options, string> {
    match st.target
    case None => Err(NoTarget)
    case Some(t) =>
      if t !in existingFolders then Err(TargetMissing)
      else Ok(Options(st.verbose, st.mode, if st.source.Some? then st.source.value else ".", t,
                      st.includeUnsupported, st.conflictMode, st.fallback, st.deleteSkipped))
  }

  /** The options `parse_options` returns, or the message it exits with. */
  function ParseSpec(args: seq<string>, existingFolders: set<string>): Result<Options, string> {
    match ScanPrefix(args, |args|)
    case Err(e) => Err(e)
    case Ok(st) => Finish(st, existingFolders)
  }

  // ---------------------------------------------------------------------------
  // The scan described position by position.

  /** Token `i` is skipped: it is the program name, or the value of a flag read just before. */
  predicate Skipped(args: seq<string>, i: nat)
    requires i <= |args|
  {
    i == 0 || (!Skipped(args, i - 1) && TakesValue(args[i - 1]))
  }

  /** The kinds of token the scanner counts. */
  datatype Kind = ModeKind | PositionalKind | VerboseKind | FallbackKind | DeleteKind | IncludeKind

  predicate IsKind(kind: Kind, arg: string) {
    match kind
    case ModeKind => IsModeFlag(arg)
    case PositionalKind => IsPositional(arg)
    case VerboseKind => IsVerboseFlag(arg)
    case FallbackKind => IsFallbackFlag(arg)
    case DeleteKind => IsDeleteFlag(arg)
    case IncludeKind => IsIncludeFlag(arg)
  }

  /** How many tokens before `n` are read (not skipped) and of the given kind. */
  function Count(args: seq<string>, n: nat, kind: Kind): nat
    requires n <= |args|
  {
    if n == 0 then 0
    else Count(args, n - 1, kind) + (if !Skipped(args, n - 1) && IsKind(kind, args[n - 1]) then 1 else 0)
  }

  /** The mode of the last mode flag read before `n`; Move if none. */
  function ModeRead(args: seq<string>, n: nat): Mode
    requires n <= |args|
  {
    if n == 0 then Move
    else if !Skipped(args, n - 1) && IsModeFlag(args[n - 1]) then ModeFlag(args[n - 1]).value
    else ModeRead(args, n - 1)
  }

  /** The first positional token read before `n`. */
  function FirstPositional(args: seq<string>, n: nat): Option<string>
    requires n <= |args|
  {
    if n == 0 then None
    else if FirstPositional(args, n - 1).Some? then FirstPositional(args, n - 1)
    else if !Skipped(args, n - 1) && IsPositional(args[n - 1]) then Some(args[n - 1])
    else None
  }

  /** The token after the last `--target` read before `n` (None if that flag was last). */
  function TargetRead(args: seq<string>, n: nat): Option<string>
    requires n <= |args|
  {
    if n == 0 then None
    else if !Skipped(args, n - 1) && IsTargetFlag(args[n - 1]) then ValueAfter(args, n - 1)
    else TargetRead(args, n - 1)
  }

  /** The conflict mode named after the last `--conflict-mode` read before `n`. */
  function ConflictRead(args: seq<string>, n: nat): ConflictMode
    requires n <= |args|
  {
    if n == 0 then Choose
    else if !Skipped(args, n - 1) && IsConflictFlag(args[n - 1]) then ConflictModeOf(ValueAfter(args, n - 1))
    else ConflictRead(args, n - 1)
  }

  /** What the scan state after `n` tokens is, position by position. */
  predicate Describes(args: seq<string>, n: nat, st: Scan)
    requires n <= |args|
  {
    && st.skipNext == Skipped(args, n)
    && st.modeSet == (Count(args, n, ModeKind) == 1)
    && st.mode == ModeRead(args, n)
    && st.source == FirstPositional(args, n)
    && (st.source.Some? <==> Count(args, n, PositionalKind) == 1)
    && st.target == TargetRead(args, n)
    && st.conflictMode == ConflictRead(args, n)
    && st.verbose == (Count(args, n, VerboseKind) > 0)
    && st.fallback == (Count(args, n, FallbackKind) > 0)
    && st.deleteSkipped == (Count(args, n, DeleteKind) > 0)
    && st.includeUnsupported == (Count(args, n, IncludeKind) > 0)
  }

  /** The scan fails exactly when a second mode flag or a second positional token is read;
   *  while it succeeds its state is the position-by-position description. */
  lemma {:induction false} ScanPrefixDescribed(args: seq<string>, n: nat)
    requires n <= |args|
    ensures ScanPrefix(args, n).Ok? <==> Count(args, n, ModeKind) <= 1 && Count(args, n, PositionalKind) <= 1
    ensures ScanPrefix(args, n).Ok? ==> Describes(args, n, ScanPrefix(args, n).value)
  {
    if n > 0 {
      ScanPrefixDescribed(args, n - 1);
      assert Count(args, n - 1, ModeKind) <= Count(args, n, ModeKind);
      assert Count(args, n - 1, PositionalKind) <= Count(args, n, PositionalKind);
      var prev := ScanPrefix(args, n - 1);
      if prev.Ok? {
        assert ScanPrefix(args, n) == ScanStep(args, n - 1, prev.value);
        ScanStepDescribed(args, n - 1, prev.value);
      } else {
        assert ScanPrefix(args, n) == prev;
      }
    }
  }

  /** One turn of the loop keeps the description, and fails exactly on the second
   *  mode flag or the second positional token. */
  lemma ScanStepDescribed(args: seq<string>, i: nat, st: Scan)
    requires i < |args| && Describes(args, i, st)
    requires Count(args, i, ModeKind) <= 1 && Count(args, i, PositionalKind) <= 1
    ensures ScanStep(args, i, st).Ok? <==> Count(args, i + 1, ModeKind) <= 1 && Count(args, i + 1, PositionalKind) <= 1
    ensures ScanStep(args, i, st).Ok? ==> Describes(args, i + 1, ScanStep(args, i, st).value)
  {
    if st.skipNext {
      StepSkipping(args, i, st);
    } else if IsPositional(args[i]) {
      StepPositional(args, i, st);
    } else if IsModeFlag(args[i]) {
      StepModeFlag(args, i, st);
    } else {
      StepOtherFlag(args, i, st);
    }
  }

  lemma StepSkipping(args: seq<string>, i: nat, st: Scan)
    requires i < |args| && Describes(args, i, st) && st.skipNext
    ensures ScanStep(args, i, st) == Ok(st.(skipNext := false))
    ensures Describes(args, i + 1, st.(skipNext := false))
    ensures forall k :: Count(args, i + 1, k) == Count(args, i, k)
  {
    SkippedCounts(args, i);
  }

  lemma StepPositional(args: seq<string>, i: nat, st: Scan)
    requires i < |args| && Describes(args, i, st) && !st.skipNext && IsPositional(args[i])
    requires Count(args, i, ModeKind) <= 1 && Count(args, i, PositionalKind) <= 1
    ensures ScanStep(args, i, st).Ok? <==> Count(args, i + 1, PositionalKind) <= 1
    ensures Count(args, i + 1, ModeKind) == Count(args, i, ModeKind)
    ensures ScanStep(args, i, st).Ok? ==> Describes(args, i + 1, ScanStep(args, i, st).value)
  {
    PositionalCounts(args, i);
  }

  lemma StepModeFlag(args: seq<string>, i: nat, st: Scan)
    requires i < |args| && Describes(args, i, st) && !st.skipNext && IsModeFlag(args[i])
    requires Count(args, i, ModeKind) <= 1 && Count(args, i, PositionalKind) <= 1
    ensures ScanStep(args, i, st).Ok? <==> Count(args, i + 1, ModeKind) <= 1
    ensures Count(args, i + 1, PositionalKind) == Count(args, i, PositionalKind)
    ensures ScanStep(args, i, st).Ok? ==> Describes(args, i + 1, ScanStep(args, i, st).value)
  {
    ReadFlagCounts(args, i);
    assert IsKind(ModeKind, args[i]);
    assert !IsKind(VerboseKind, args[i]) && !IsKind(FallbackKind, args[i]);
    assert !IsKind(DeleteKind, args[i]) && !IsKind(IncludeKind, args[i]);
  }

  lemma StepOtherFlag(args: seq<string>, i: nat, st: Scan)
    requires i < |args| && Describes(args, i, st) && !st.skipNext
    requires !IsPositional(args[i]) && !IsModeFlag(args[i])
    ensures ScanStep(args, i, st).Ok?
    ensures Count(args, i + 1, ModeKind) == Count(args, i, ModeKind)
    ensures Count(args, i + 1, PositionalKind) == Count(args, i, PositionalKind)
    ensures Describes(args, i + 1, ScanStep(args, i, st).value)
  {
    var arg := args[i];
    if IsVerboseFlag(arg) {
      StepVerbose(args, i, st);
    } else if TakesValue(arg) {
      StepValueFlag(args, i, st);
    } else {
      StepToggle(args, i, st);
    }
  }

  lemma StepVerbose(args: seq<string>, i: nat, st: Scan)
    requires i < |args| && Describes(args, i, st) && !st.skipNext
    requires !IsPositional(args[i]) && !IsModeFlag(args[i])
    requires IsVerboseFlag(args[i])
    ensures ScanStep(args, i, st).Ok?
    ensures Count(args, i + 1, ModeKind) == Count(args, i, ModeKind)
    ensures Count(args, i + 1, PositionalKind) == Count(args, i, PositionalKind)
    ensures Describes(args, i + 1, ScanStep(args, i, st).value)
  {
    ReadFlagCounts(args, i);
    assert IsKind(VerboseKind, args[i]) && !IsKind(ModeKind, args[i]);
    assert !IsKind(FallbackKind, args[i]) && !IsKind(DeleteKind, args[i]) && !IsKind(IncludeKind, args[i]);
  }

  lemma StepValueFlag(args: seq<string>, i: nat, st: Scan)
    requires i < |args| && Describes(args, i, st) && !st.skipNext
    requires !IsPositional(args[i]) && !IsModeFlag(args[i])
    requires TakesValue(args[i])
    ensures ScanStep(args, i, st).Ok?
    ensures Count(args, i + 1, ModeKind) == Count(args, i, ModeKind)
    ensures Count(args, i + 1, PositionalKind) == Count(args, i, PositionalKind)
    ensures Describes(args, i + 1, ScanStep(args, i, st).value)
  {
    ReadFlagCounts(args, i);
    assert !IsKind(VerboseKind, args[i]) && !IsKind(ModeKind, args[i]);
    assert !IsKind(FallbackKind, args[i]) && !IsKind(DeleteKind, args[i]) && !IsKind(IncludeKind, args[i]);
  }

  lemma StepToggle(args: seq<string>, i: nat, st: Scan)
    requires i < |args| && Describes(args, i, st) && !st.skipNext
    requires !IsPositional(args[i]) && !IsModeFlag(args[i])
    requires !IsVerboseFlag(args[i]) && !TakesValue(args[i])
    ensures ScanStep(args, i, st).Ok?
    ensures Count(args, i + 1, ModeKind) == Count(args, i, ModeKind)
    ensures Count(args, i + 1, PositionalKind) == Count(args, i, PositionalKind)
    ensures Describes(args, i + 1, ScanStep(args, i, st).value)
  {
    ReadFlagCounts(args, i);
    assert !IsKind(VerboseKind, args[i]) && !IsKind(ModeKind, args[i]);
    assert IsKind(FallbackKind, args[i]) || IsKind(DeleteKind, args[i]) || IsKind(IncludeKind, args[i]);
  }

  lemma SkippedCounts(args: seq<string>, i: nat)
    requires i < |args| && Skipped(args, i)
    ensures forall k :: Count(args, i + 1, k) == Count(args, i, k)
    ensures ModeRead(args, i + 1) == ModeRead(args, i) && FirstPositional(args, i + 1) == FirstPositional(args, i)
    ensures TargetRead(args, i + 1) == TargetRead(args, i) && ConflictRead(args, i + 1) == ConflictRead(args, i)
    ensures !Skipped(args, i + 1)
  {
  }

  lemma PositionalCounts(args: seq<string>, i: nat)
    requires i < |args| && !Skipped(args, i) && IsPositional(args[i])
    ensures Count(args, i + 1, PositionalKind) == Count(args, i, PositionalKind) + 1
    ensures forall k :: k != PositionalKind ==> Count(args, i + 1, k) == Count(args, i, k)
    ensures ModeRead(args, i + 1) == ModeRead(args, i)
    ensures FirstPositional(args, i + 1) == if FirstPositional(args, i).Some? then FirstPositional(args, i) else Some(args[i])
    ensures TargetRead(args, i + 1) == TargetRead(args, i) && ConflictRead(args, i + 1) == ConflictRead(args, i)
    ensures !Skipped(args, i + 1)
  {
  }

  lemma ReadFlagCounts(args: seq<string>, i: nat)
    requires i < |args| && !Skipped(args, i) && !IsPositional(args[i])
    ensures Count(args, i + 1, PositionalKind) == Count(args, i, PositionalKind)
    ensures forall k :: Count(args, i + 1, k) == Count(args, i, k) + (if IsKind(k, args[i]) then 1 else 0)
    ensures FirstPositional(args, i + 1) == FirstPositional(args, i)
    ensures ModeRead(args, i + 1) == if IsModeFlag(args[i]) then ModeFlag(args[i]).value else ModeRead(args, i)
    ensures TargetRead(args, i + 1) == if IsTargetFlag(args[i]) then ValueAfter(args, i) else TargetRead(args, i)
    ensures ConflictRead(args, i + 1) == if IsConflictFlag(args[i]) then ConflictModeOf(ValueAfter(args, i)) else ConflictRead(args, i)
    ensures Skipped(args, i + 1) == TakesValue(args[i])
  {
  }

  /** `parse_options` succeeds exactly when at most one mode flag and at most one positional
   *  token are read and the last `--target` is followed by an existing folder; the options
   *  are then the ones those tokens name, with Move, Choose, "." and `false` as defaults. */
  lemma ParseSucceedsIff(args: seq<string>, existingFolders: set<string>)
    ensures ParseSpec(args, existingFolders).Ok? <==>
      && Count(args, |args|, ModeKind) <= 1
      && Count(args, |args|, PositionalKind) <= 1
      && TargetRead(args, |args|).Some?
      && TargetRead(args, |args|).value in existingFolders
    ensures ParseSpec(args, existingFolders).Ok? ==>
      var o := ParseSpec(args, existingFolders).value;
      && o.mode == ModeRead(args, |args|)
      && o.source == (if FirstPositional(args, |args|).Some? then FirstPositional(args, |args|).value else ".")
      && Some(o.target) == TargetRead(args, |args|)
      && o.conflictMode == ConflictRead(args, |args|)
      && o.verbose == (Count(args, |args|, VerboseKind) > 0)
      && o.fileTimeFallback == (Count(args, |args|, FallbackKind) > 0)
      && o.deleteSkippedDuplicates == (Count(args, |args|, DeleteKind) > 0)
      && o.includeUnsupported == (Count(args, |args|, IncludeKind) > 0)
  {
    ScanPrefixDescribed(args, |args|);
  }

  /** Which message `parse_options` exits with. */
  lemma ParseErrors(args: seq<string>, existingFolders: set<string>)
    ensures Count(args, |args|, ModeKind) > 1 || Count(args, |args|, PositionalKind) > 1 ==>
      ParseSpec(args, existingFolders) == Err(OnlyOneMode) || ParseSpec(args, existingFolders) == Err(TooManyArguments)
    ensures Count(args, |args|, ModeKind) <= 1 && Count(args, |args|, PositionalKind) <= 1 ==>
      (TargetRead(args, |args|).None? ==> ParseSpec(args, existingFolders) == Err(NoTarget))
      && (TargetRead(args, |args|).Some? && TargetRead(args, |args|).value !in existingFolders ==>
            ParseSpec(args, existingFolders) == Err(TargetMissing))
  {
    ScanPrefixDescribed(args, |args|);
    ScanErrorMessages(args, |args|);
  }

  lemma {:induction false} ScanErrorMessages(args: seq<string>, n: nat)
    requires n <= |args|
    ensures ScanPrefix(args, n).Err? ==>
      ScanPrefix(args, n).error == OnlyOneMode || ScanPrefix(args, n).error == TooManyArguments
  {
    if n > 0 {
      ScanErrorMessages(args, n - 1);
    }
  }

  /** The first token (the program name) is never looked at. */
  lemma ProgramNameIgnored(a: string, b: string, rest: seq<string>, existingFolders: set<string>)
    ensures ParseSpec([a] + rest, existingFolders) == ParseSpec([b] + rest, existingFolders)
  {
    ScanIgnoresFirst([a] + rest, [b] + rest, |rest| + 1);
  }

  lemma {:induction false} ScanIgnoresFirst(xs: seq<string>, ys: seq<string>, n: nat)
    requires |xs| == |ys| > 0 && xs[1..] == ys[1..] && n <= |xs|
    ensures ScanPrefix(xs, n) == ScanPrefix(ys, n)
  {
    if n > 0 {
      ScanIgnoresFirst(xs, ys, n - 1);
      var prev := ScanPrefix(xs, n - 1);
      if prev.Ok? {
        if n == 1 {
          assert prev.value == InitialScan;
        } else {
          assert xs[n - 1] == xs[1..][n - 2] == ys[n - 1];
          if n < |xs| { assert xs[n] == xs[1..][n - 1] == ys[n]; }
          StepSeesTwoTokens(xs, ys, n - 1, prev.value);
        }
      }
    }
  }

  /** A turn of the loop looks only at its own token and the one after it. */
  lemma StepSeesTwoTokens(xs: seq<string>, ys: seq<string>, i: nat, st: Scan)
    requires i < |xs| == |ys| && xs[i] == ys[i] && ValueAfter(xs, i) == ValueAfter(ys, i)
    ensures ScanStep(xs, i, st) == ScanStep(ys, i, st)
  {
  }

  /** With only `--target T` for an existing T every option has its default. */
  lemma Defaults(program: string, t: string, existingFolders: set<string>)
    requires t in existingFolders
    ensures ParseSpec([program, "--target", t], existingFolders)
            == Ok(Options(false, Move, ".", t, false, Choose, false, false))
  {
    var args := [program, "--target", t];
    assert ScanPrefix(args, 1) == Ok(InitialScan.(skipNext := false));
    assert ScanPrefix(args, 2) == Ok(InitialScan.(target := Some(t)));
    assert ScanPrefix(args, 3) == Ok(InitialScan.(target := Some(t), skipNext := false));
  }

  /** A mode flag repeated, even the same one, is rejected. */
  lemma SameModeTwice(program: string, existingFolders: set<string>)
    ensures ParseSpec([program, "--copy", "--copy"], existingFolders) == Err(OnlyOneMode)
  {
    var args := [program, "--copy", "--copy"];
    assert ScanPrefix(args, 1) == Ok(InitialScan.(skipNext := false));
    assert ScanPrefix(args, 2) == Ok(InitialScan.(skipNext := false, mode := Copy, modeSet := true));
    assert ScanPrefix(args, 3) == Err(OnlyOneMode);
  }

  /** `--target` takes the next token as its value even when it looks like a flag. */
  lemma TargetTakesFlagLikeValue(program: string, existingFolders: set<string>)
    requires "--dry-run" in existingFolders
    ensures ParseSpec([program, "--target", "--dry-run"], existingFolders)
            == Ok(Options(false, Move, ".", "--dry-run", false, Choose, false, false))
  {
    var args := [program, "--target", "--dry-run"];
    assert ScanPrefix(args, 1) == Ok(InitialScan.(skipNext := false));
    assert ScanPrefix(args, 2) == Ok(InitialScan.(target := Some("--dry-run")));
    assert ScanPrefix(args, 3) == Ok(InitialScan.(target := Some("--dry-run"), skipNext := false));
  }

  /** `parse_options`: the scanning loop over the arguments. */
  method ParseOptions(args: seq<string>, existingFolders: set<string>) returns (r: Result<Options, string>)
    ensures r == ParseSpec(args, existingFolders)
  {
    var st := InitialScan;
    for i := 0 to |args|
      invariant ScanPrefix(args, i) == Ok(st)
    {
      var arg := args[i];
      ScanTurn(args, i, st);
      if st.skipNext {
        st := st.(skipNext := false);
      } else if IsVerboseFlag(arg) {
        st := st.(verbose := true);
      } else if IsModeFlag(arg) {
        if st.modeSet {
          ScanErrorPersists(args, i + 1, |args|);
          return Err(OnlyOneMode);
        }
        st := st.(mode := ModeFlag(arg).value, modeSet := true);
      } else if IsTargetFlag(arg) {
        st := st.(target := if i + 1 < |args| then Some(args[i + 1]) else None, skipNext := true);
      } else if IsConflictFlag(arg) {
        var value := if i + 1 < |args| then Some(args[i + 1]) else None;
        st := st.(conflictMode := ConflictModeOf(value), skipNext := true);
      } else if IsFallbackFlag(arg) {
        st := st.(fallback := true);
      } else if IsDeleteFlag(arg) {
        st := st.(deleteSkipped := true);
      } else if IsIncludeFlag(arg) {
        st := st.(includeUnsupported := true);
      } else if st.source.None? {
        st := st.(source := Some(arg));
      } else {
        ScanErrorPersists(args, i + 1, |args|);
        return Err(TooManyArguments);
      }
    }
    var source := if st.source.Some? then st.source.value else ".";
    if st.target.None? {
      return Err(NoTarget);
    }
    var target := st.target.value;
    if target !in existingFolders {
      return Err(TargetMissing);
    }
    r := Ok(Options(st.verbose, st.mode, source, target, st.includeUnsupported, st.conflictMode, st.fallback, st.deleteSkipped));
  }

  /** The state after token `i + 1`, case by case, from the state before it. */
  lemma ScanTurn(args: seq<string>, i: nat, st: Scan)
    requires i < |args| && ScanPrefix(args, i) == Ok(st)
    ensures var arg, next := args[i], ScanPrefix(args, i + 1);
      && (st.skipNext ==> next == Ok(st.(skipNext := false)))
      && (!st.skipNext && IsVerboseFlag(arg) ==> next == Ok(st.(verbose := true)))
      && (!st.skipNext && !IsVerboseFlag(arg) && IsModeFlag(arg) ==>
            next == if st.modeSet then Err(OnlyOneMode) else Ok(st.(mode := ModeFlag(arg).value, modeSet := true)))
      && (!st.skipNext && !IsVerboseFlag(arg) && !IsModeFlag(arg) && IsTargetFlag(arg) ==>
            next == Ok(st.(target := ValueAfter(args, i), skipNext := true)))
      && (!st.skipNext && !IsVerboseFlag(arg) && !IsModeFlag(arg) && !IsTargetFlag(arg) && IsConflictFlag(arg) ==>
            next == Ok(st.(conflictMode := ConflictModeOf(ValueAfter(args, i)), skipNext := true)))
      && (!st.skipNext && !IsVerboseFlag(arg) && !IsModeFlag(arg) && !TakesValue(arg) && IsFallbackFlag(arg) ==>
            next == Ok(st.(fallback := true)))
      && ((!st.skipNext && !IsVerboseFlag(arg) && !IsModeFlag(arg) && !TakesValue(arg) && !IsFallbackFlag(arg)
           && IsDeleteFlag(arg)) ==> next == Ok(st.(deleteSkipped := true)))
      && ((!st.skipNext && !IsVerboseFlag(arg) && !IsModeFlag(arg) && !TakesValue(arg) && !IsFallbackFlag(arg)
           && !IsDeleteFlag(arg) && IsIncludeFlag(arg)) ==> next == Ok(st.(includeUnsupported := true)))
      && (!st.skipNext && IsPositional(arg) ==>
            next == if st.source.None? then Ok(st.(source := Some(arg))) else Err(TooManyArguments))
  {
  }

  /** Once the scan has exited with a message, later tokens change nothing. */
  lemma {:induction false} ScanErrorPersists(args: seq<string>, n: nat, m: nat)
    requires n <= m <= |args|
    requires ScanPrefix(args, n).Err?
    ensures ScanPrefix(args, m) == ScanPrefix(args, n)
    decreases m - n
  {
    if n < m {
      ScanErrorPersists(args, n + 1, m);
    }
  }
}

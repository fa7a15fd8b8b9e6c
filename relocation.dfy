/**
 * Moving or copying a media file into place (src/main.rs:147-191, 202-256, 274-288
 * and 297-309): `handle_file` classifies the file, resolves its date and calls
 * `sort_file`, which validates the destination and then, by mode, only reports it,
 * or creates the missing folder (unless the cache `target_parents` says it was made
 * already) and renames or copies the file; a skipped source may be deleted.  The
 * file system is a value, the calls into it are functions on that value, and every
 * call that changes it is written to a log.
 */
module Relocation {
  import opened Wrappers
  import opened Dates
  import opened Paths
  import opened Prompt
  import opened Classify
  import opened Capture
  import opened CommandLine
  import opened Placement

  // ---------------------------------------------------------------------------
  // The file system and the calls the program makes into it.

  /** The files that exist, with their sizes, and the directories that exist. */
  datatype Disk = Disk(files: Files, dirs: set<Dir>)

  /** The two ways the calls below fail. */
  datatype IoError = NotFound | PermissionDenied

  /** `io::Error::to_string()`, as Linux words these two errors. */
  function IoMessage(e: IoError): string {
    match e
    case NotFound => "No such file or directory (os error 2)"
    case PermissionDenied => "Permission denied (os error 13)"
  }

  /** A change made to the file system. */
  datatype Effect =
    | MadeDirs(dir: Dir)
    | Renamed(from: FilePath, to: FilePath)
    | Copied(from: FilePath, to: FilePath)
    | Removed(path: FilePath)

  /** A directory and all its ancestors. */
  function Ancestors(d: Dir): (r: set<Dir>)
    ensures d in r
  {
    assert d[..|d|] == d;
    set i | 0 <= i <= |d| :: d[..i]
  }

  /** The folders `create_dir_all` makes are exactly the prefixes of the path, from the root
   *  to the folder itself. */
  lemma AncestorsArePrefixes(d: Dir)
    ensures forall e :: e in Ancestors(d) <==> e <= d
  {
    assert forall e :: e <= d ==> e == d[..|e|];
  }

  /** `q` is present in both or in neither, with the same size. */
  predicate SameFile(a: Files, b: Files, q: FilePath) {
    (q in a <==> q in b) && (q in a ==> a[q] == b[q])
  }

  /** `fs::create_dir_all`: the directory and its ancestors exist afterwards, unless it is
   *  missing and `locked` says the system refuses to create it. */
  function CreateDirAll(disk: Disk, locked: set<Dir>, d: Dir): (r: Result<Disk, IoError>)
    ensures r.Err? <==> d !in disk.dirs && d in locked
    ensures r.Ok? ==> r.value.files == disk.files && r.value.dirs == disk.dirs + Ancestors(d)
  {
    if d !in disk.dirs && d in locked then Err(PermissionDenied)
    else Ok(disk.(dirs := disk.dirs + Ancestors(d)))
  }

  /** `fs::rename`: the file leaves its path and appears at the new one. */
  function RenameFile(disk: Disk, locked: set<Dir>, from: FilePath, to: FilePath): (r: Result<Disk, IoError>)
    ensures r.Err? <==> from !in disk.files || to.dir !in disk.dirs || from.dir in locked || to.dir in locked
    ensures r.Err? && (from !in disk.files || to.dir !in disk.dirs) ==> r.error == NotFound
    ensures r.Ok? ==> r.value.dirs == disk.dirs && to in r.value.files && r.value.files[to] == disk.files[from]
    ensures r.Ok? && from != to ==> from !in r.value.files
    ensures r.Ok? ==> forall q :: q != from && q != to ==> SameFile(r.value.files, disk.files, q)
  {
    if from !in disk.files || to.dir !in disk.dirs then Err(NotFound)
    else if from.dir in locked || to.dir in locked then Err(PermissionDenied)
    else Ok(disk.(files := (disk.files - {from})[to := disk.files[from]]))
  }

  /** `fs::copy`: a file of the same size appears at the new path. */
  function CopyFile(disk: Disk, locked: set<Dir>, from: FilePath, to: FilePath): (r: Result<Disk, IoError>)
    ensures r.Err? <==> from !in disk.files || to.dir !in disk.dirs || to.dir in locked
    ensures r.Err? && (from !in disk.files || to.dir !in disk.dirs) ==> r.error == NotFound
    ensures r.Ok? ==> r.value.dirs == disk.dirs && to in r.value.files && r.value.files[to] == disk.files[from]
    ensures r.Ok? ==> forall q :: q != to ==> SameFile(r.value.files, disk.files, q)
  {
    if from !in disk.files || to.dir !in disk.dirs then Err(NotFound)
    else if to.dir in locked then Err(PermissionDenied)
    else Ok(disk.(files := disk.files[to := disk.files[from]]))
  }

  /** `fs::remove_file`. */
  function RemoveFile(disk: Disk, locked: set<Dir>, p: FilePath): (r: Result<Disk, IoError>)
    ensures r.Err? <==> p !in disk.files || p.dir in locked
    ensures r.Err? && p !in disk.files ==> r.error == NotFound
    ensures r.Ok? ==> r.value.dirs == disk.dirs && p !in r.value.files
    ensures r.Ok? ==> forall q :: q != p ==> SameFile(r.value.files, disk.files, q)
  {
    if p !in disk.files then Err(NotFound)
    else if p.dir in locked then Err(PermissionDenied)
    else Ok(disk.(files := disk.files - {p}))
  }

  /** What a logged change does to the file system. */
  function Apply(disk: Disk, e: Effect): Disk {
    match e
    case MadeDirs(d) => disk.(dirs := disk.dirs + Ancestors(d))
    case Renamed(a, b) => if a in disk.files then disk.(files := (disk.files - {a})[b := disk.files[a]]) else disk
    case Copied(a, b) => if a in disk.files then disk.(files := disk.files[b := disk.files[a]]) else disk
    case Removed(p) => disk.(files := disk.files - {p})
  }

  /** The file system after the logged changes, in order. */
  function Replay(disk: Disk, log: seq<Effect>): Disk
    decreases |log|
  {
    if log == [] then disk else Replay(Apply(disk, log[0]), log[1..])
  }

  lemma {:induction false} ReplayAppend(disk: Disk, a: seq<Effect>, b: seq<Effect>)
    ensures Replay(disk, a + b) == Replay(Replay(disk, a), b)
    decreases |a|
  {
    if a != [] {
      assert (a + b)[0] == a[0];
      assert (a + b)[1..] == a[1..] + b;
      ReplayAppend(Apply(disk, a[0]), a[1..], b);
    } else {
      assert a + b == b;
    }
  }

  // ---------------------------------------------------------------------------
  // The state a run works on, and one file's handling as a function of it.

  /** What a run is given besides the file system: the options, the target folder as
   *  path components, and the directories in which the system refuses changes. */
  datatype Setup = Setup(options: Options, target: Dir, locked: set<Dir>)

  /** The file system, the cache of folders made (`target_parents`), the unread lines of
   *  standard input, and the log of changes made. */
  datatype World = World(disk: Disk, parents: set<Dir>, input: seq<string>, log: seq<Effect>)

  /** One file found by the walk of the source folder, with what its metadata says. */
  datatype Job = Job(source: FilePath, facts: MediaFacts)

  /** How the handling of one file ended: not a supported type; placed at a path (in a dry
   *  run, only reported); skipped; an error printed before going on; or the run stopped. */
  datatype Outcome = Ignored | Placed(path: FilePath) | Skipped | Failed(message: string) | Stopped(halt: Halt)

  /** `after` extends the log of `before`, and the file system of `after` is what the new
   *  entries make of the file system of `before`. */
  predicate Accounted(before: World, after: World) {
    && |before.log| <= |after.log|
    && after.log[..|before.log|] == before.log
    && Replay(before.disk, after.log[|before.log|..]) == after.disk
  }

  lemma AccountedUnchanged(w: World)
    ensures Accounted(w, w)
  {
    assert w.log[|w.log|..] == [];
  }

  /** One more logged change. */
  lemma AccountedStep(w: World, e: Effect, disk: Disk)
    requires disk == Apply(w.disk, e)
    ensures Accounted(w, w.(disk := disk, log := w.log + [e]))
  {
    var after := w.(disk := disk, log := w.log + [e]);
    assert after.log[|w.log|..] == [e];
    assert (w.log + [e])[..|w.log|] == w.log;
  }

  lemma {:induction false} AccountedTransitive(a: World, b: World, c: World)
    requires Accounted(a, b) && Accounted(b, c)
    ensures Accounted(a, c)
  {
    var da, db := b.log[|a.log|..], c.log[|b.log|..];
    assert c.log[|a.log|..] == da + db by {
      assert c.log == c.log[..|b.log|] + db;
      assert c.log[..|a.log|] == b.log[..|a.log|];
    }
    ReplayAppend(a.disk, da, db);
  }

  /** The new entries of the log create no folder the cache already holds. */
  predicate MadeOnlyUncached(before: World, after: World)
    requires |before.log| <= |after.log|
  {
    forall k :: |before.log| <= k < |after.log| && after.log[k].MadeDirs? ==> after.log[k].dir !in before.parents
  }

  /** The files after a file's handling ended in `o`, by mode: a placed file is reported only
   *  in a dry run, copied in Copy mode and moved in Move mode; a skipped source is removed
   *  only when skipped duplicates are deleted in Move mode; nothing else changes a file. */
  function FilesAfter(setup: Setup, source: FilePath, o: Outcome, files: Files): Files {
    match o
    case Placed(p) =>
      if setup.options.mode == DryRun || source !in files then files
      else if setup.options.mode == Copy then files[p := files[source]]
      else (files - {source})[p := files[source]]
    case Skipped =>
      if setup.options.deleteSkippedDuplicates && setup.options.mode == Move then files - {source} else files
    case _ => files
  }

  /** `handle_missing_parents`: `create_dir_all` on the destination's folder unless the cache
   *  holds it. */
  function MissingParents(setup: Setup, w: World, dest: FilePath): (r: Result<World, string>)
    ensures r.Ok? ==> dest.dir in w.parents || dest.dir in r.value.disk.dirs
    ensures r.Ok? ==> Accounted(w, r.value) && r.value.disk.files == w.disk.files && w.disk.dirs <= r.value.disk.dirs
    ensures r.Ok? ==> r.value.parents == w.parents && r.value.input == w.input
    ensures r.Ok? ==> r.value.log == w.log + (if dest.dir in w.parents then [] else [MadeDirs(dest.dir)])
    ensures r.Err? <==> dest.dir !in w.parents && dest.dir !in w.disk.dirs && dest.dir in setup.locked
    ensures dest.dir in w.parents ==> r == Ok(w)
  {
    if dest.dir in w.parents then
      AccountedUnchanged(w);
      Ok(w)
    else
      match CreateDirAll(w.disk, setup.locked, dest.dir)
      case Err(e) => Err(IoMessage(e))
      case Ok(disk) =>
        AccountedStep(w, MadeDirs(dest.dir), disk);
        Ok(w.(disk := disk, log := w.log + [MadeDirs(dest.dir)]))
  }

  /** When `fs::rename` (Move) or `fs::copy` (Copy) of `source` to `dest` fails on `disk`: the
   *  source or the destination's folder is missing, or a folder it changes refuses changes. */
  predicate PlaceFails(setup: Setup, disk: Disk, source: FilePath, dest: FilePath) {
    || source !in disk.files || dest.dir !in disk.dirs || dest.dir in setup.locked
    || (setup.options.mode == Move && source.dir in setup.locked)
  }

  /** `fs::rename` (Move) or `fs::copy` (Copy) once the folder is there; an error is reported. */
  function PlaceFile(setup: Setup, w: World, source: FilePath, dest: FilePath): (r: (Outcome, World))
    requires setup.options.mode != DryRun
    ensures r.0 == Placed(dest) || r.0.Failed?
    ensures r.0.Failed? <==> PlaceFails(setup, w.disk, source, dest)
    ensures Accounted(w, r.1) && r.1.disk.dirs == w.disk.dirs
    ensures r.1.parents == w.parents && r.1.input == w.input
    ensures |r.1.log| <= |w.log| + 1 && (|r.1.log| > |w.log| ==> !r.1.log[|w.log|].MadeDirs?)
    ensures r.0.Placed? ==> source in w.disk.files
    ensures r.1.disk.files == FilesAfter(setup, source, r.0, w.disk.files)
  {
    var move := setup.options.mode == Move;
    var call := if move then RenameFile(w.disk, setup.locked, source, dest)
                else CopyFile(w.disk, setup.locked, source, dest);
    var effect := if move then Renamed(source, dest) else Copied(source, dest);
    match call
    case Err(e) =>
      AccountedUnchanged(w);
      (Failed(IoMessage(e)), w)
    case Ok(disk) =>
      AccountedStep(w, effect, disk);
      (Placed(dest), w.(disk := disk, log := w.log + [effect]))
  }

  /** When the missing folder and the move or copy together fail: the source is missing, a
   *  folder the call changes refuses changes, or the cache holds a folder that is not there.
   *  A missing, uncached folder is not a reason: `create_dir_all` makes it unless it is locked. */
  predicate TransferFails(setup: Setup, w: World, source: FilePath, dest: FilePath) {
    || source !in w.disk.files || dest.dir in setup.locked
    || (setup.options.mode == Move && source.dir in setup.locked)
    || (dest.dir in w.parents && dest.dir !in w.disk.dirs)
  }

  /** Move or Copy mode, for a free destination: the missing folder, then `fs::rename` or
   *  `fs::copy`; an error of either is reported, and a folder made stays made. */
  function Transfer(setup: Setup, w: World, source: FilePath, dest: FilePath): (r: (Outcome, World))
    requires setup.options.mode != DryRun
    ensures r.0 == Placed(dest) || r.0.Failed?
    ensures r.0.Failed? <==> TransferFails(setup, w, source, dest)
    ensures Accounted(w, r.1) && MadeOnlyUncached(w, r.1) && w.disk.dirs <= r.1.disk.dirs
    ensures r.1.parents == w.parents && r.1.input == w.input
    ensures r.0.Placed? ==> source in w.disk.files && dest.dir in r.1.disk.dirs
    ensures r.1.disk.files == FilesAfter(setup, source, r.0, w.disk.files)
  {
    match MissingParents(setup, w, dest)
    case Err(m) =>
      AccountedUnchanged(w);
      (Failed(m), w)
    case Ok(w1) =>
      var r := PlaceFile(setup, w1, source, dest);
      AccountedTransitive(w, w1, r.1);
      assert r.1.log[..|w1.log|] == w1.log;
      assert forall k :: |w.log| <= k < |w1.log| ==> r.1.log[k] == MadeDirs(dest.dir);
      r
  }

  /** When deleting a skipped source fails: only when it is deleted at all (the delete flag in
   *  Move mode), and then because it is missing or its folder refuses changes. */
  predicate DiscardFails(setup: Setup, w: World, source: FilePath) {
    && setup.options.deleteSkippedDuplicates && setup.options.mode == Move
    && (source !in w.disk.files || source.dir in setup.locked)
  }

  /** A skipped source: `fs::remove_file` when skipped duplicates are to be deleted and the
   *  mode is Move; nothing otherwise (a dry run only reports it, Copy mode ignores the flag). */
  function DiscardSkipped(setup: Setup, w: World, source: FilePath): (r: (Outcome, World))
    ensures r.0 == Skipped || r.0.Failed?
    ensures Accounted(w, r.1) && MadeOnlyUncached(w, r.1) && r.1.disk.dirs == w.disk.dirs
    ensures r.1.parents == w.parents && r.1.input == w.input
    ensures r.0.Failed? <==> DiscardFails(setup, w, source)
    ensures r.1.disk.files == FilesAfter(setup, source, r.0, w.disk.files)
  {
    if setup.options.deleteSkippedDuplicates && setup.options.mode == Move then
      match RemoveFile(w.disk, setup.locked, source)
      case Err(e) =>
        AccountedUnchanged(w);
        (Failed(IoMessage(e)), w)
      case Ok(disk) =>
        AccountedStep(w, Removed(source), disk);
        (Skipped, w.(disk := disk, log := w.log + [Removed(source)]))
    else
      AccountedUnchanged(w);
      (Skipped, w)
  }

  /** The destination of a file dated `date`, before validation. */
  function Unverified(setup: Setup, source: FilePath, date: DateTime): FilePath {
    Destination(setup.target, date, source.name)
  }

  /** `sort_file`: validate the destination (`validate_and_resolve_path_problems`), then act
   *  on the path it settles on, or on the skip.  A placed file never lands on an existing
   *  one; the files change as `FilesAfter` says; a dry run changes nothing. */
  function SortStep(setup: Setup, w: World, source: FilePath, date: DateTime): (r: (Outcome, World))
    ensures r.0 != Ignored
    ensures Accounted(w, r.1) && MadeOnlyUncached(w, r.1)
    ensures w.disk.dirs <= r.1.disk.dirs && r.1.parents == w.parents
    ensures r.0.Placed? ==> r.0.path !in w.disk.files
    ensures r.0.Placed? && setup.options.mode != DryRun ==> source in w.disk.files && r.0.path.dir in r.1.disk.dirs
    ensures r.1.disk.files == FilesAfter(setup, source, r.0, w.disk.files)
    ensures setup.options.mode == DryRun ==> r.1.disk == w.disk && r.1.log == w.log
    ensures var v := Validate(w.disk.files, setup.options.conflictMode, source, Unverified(setup, source, date), w.input);
            && (v.Halted? ==> r == (Stopped(v.halt), w))
            && (v.Reply? ==> r.1.input == v.rest)
            && (v.Reply? && v.value.None? ==> r.0 == Skipped || r.0.Failed?)
            && (v.Reply? && v.value.None? ==> (r.0.Failed? <==> DiscardFails(setup, w, source)))
            && (v.Reply? && v.value.Some? ==> r.0 == Placed(v.value.value) || r.0.Failed?)
            && (v.Reply? && v.value.Some? ==>
                  (r.0.Failed? <==> setup.options.mode != DryRun && TransferFails(setup, w, source, v.value.value)))
  {
    match Validate(w.disk.files, setup.options.conflictMode, source, Unverified(setup, source, date), w.input)
    case Halted(h) =>
      AccountedUnchanged(w);
      (Stopped(h), w)
    case Reply(None, rest) => DiscardSkipped(setup, w.(input := rest), source)
    case Reply(Some(p), rest) =>
      if setup.options.mode == DryRun then
        AccountedUnchanged(w);
        (Placed(p), w.(input := rest))
      else Transfer(setup, w.(input := rest), source, p)
  }

  /** Whether `handle_file` goes on with a file: a supported type, or unsupported types included. */
  predicate Considered(setup: Setup, source: FilePath) {
    IsSupportedFileType(source.name) || setup.options.includeUnsupported
  }

  /** `target_parents` after a file: the placed file's folder is added, in every mode. */
  function ParentsAfter(parents: set<Dir>, o: Outcome): set<Dir> {
    if o.Placed? then parents + {o.path.dir} else parents
  }

  /** The date of the file, then `sort_file`; an error in either is printed by `handle_file`. */
  function DatedStep(setup: Setup, w: World, job: Job): (r: (Outcome, World))
    ensures r.0 != Ignored
    ensures Accounted(w, r.1) && MadeOnlyUncached(w, r.1)
    ensures w.disk.dirs <= r.1.disk.dirs && r.1.parents == w.parents
    ensures r.0.Placed? ==> r.0.path !in w.disk.files
    ensures r.0.Placed? && setup.options.mode != DryRun ==> job.source in w.disk.files && r.0.path.dir in r.1.disk.dirs
    ensures r.1.disk.files == FilesAfter(setup, job.source, r.0, w.disk.files)
    ensures setup.options.mode == DryRun ==> r.1.disk == w.disk && r.1.log == w.log
    ensures var d := ResolveDate(job.source.name, job.facts, setup.options.fileTimeFallback, w.input);
            && (d.Halted? ==> r == (Stopped(d.halt), w))
            && (d.Reply? && d.value.Err? ==> r == (Failed(d.value.error), w.(input := d.rest)))
            && (d.Reply? && d.value.Ok? ==> r == SortStep(setup, w.(input := d.rest), job.source, d.value.value))
  {
    match ResolveDate(job.source.name, job.facts, setup.options.fileTimeFallback, w.input)
    case Halted(h) =>
      AccountedUnchanged(w);
      (Stopped(h), w)
    case Reply(Err(m), rest) =>
      AccountedUnchanged(w);
      (Failed(m), w.(input := rest))
    case Reply(Ok(date), rest) => SortStep(setup, w.(input := rest), job.source, date)
  }

  /** `handle_file`: resolve the date (an error is printed and the walk goes on), sort the
   *  file, and record the folder of a placed file in `target_parents`. */
  function HandleStep(setup: Setup, w: World, job: Job): (r: (Outcome, World))
    ensures r.0 == Ignored <==> !Considered(setup, job.source)
    ensures Accounted(w, r.1) && MadeOnlyUncached(w, r.1) && w.disk.dirs <= r.1.disk.dirs
    ensures r.1.parents == ParentsAfter(w.parents, r.0)
    ensures r.0.Placed? ==> r.0.path !in w.disk.files
    ensures r.0.Placed? && setup.options.mode != DryRun ==> job.source in w.disk.files && r.0.path.dir in r.1.disk.dirs
    ensures r.1.disk.files == FilesAfter(setup, job.source, r.0, w.disk.files)
    ensures setup.options.mode == DryRun ==> r.1.disk == w.disk && r.1.log == w.log
  {
    if !Considered(setup, job.source) then
      AccountedUnchanged(w);
      (Ignored, w)
    else
      var sorted := DatedStep(setup, w, job);
      (sorted.0, sorted.1.(parents := ParentsAfter(sorted.1.parents, sorted.0)))
  }

  /** The outcomes of a walk over `n` files: one per file visited, every file visited unless
   *  the last outcome stops the walk, and no earlier outcome stops it. */
  predicate StopsOnlyAtEnd(os: seq<Outcome>, n: nat) {
    && |os| <= n && (n > 0 ==> os != [])
    && (forall k :: 0 <= k < |os| - 1 ==> !os[k].Stopped?)
    && (|os| < n ==> os[|os| - 1].Stopped?)
  }

  /** A running outcome in front of a walk over the remaining files. */
  lemma StopsOnlyAtEndCons(o: Outcome, os: seq<Outcome>, n: nat)
    requires !o.Stopped? && StopsOnlyAtEnd(os, n)
    ensures StopsOnlyAtEnd([o] + os, n + 1)
  {
    assert forall k :: 0 < k < |os| + 1 ==> ([o] + os)[k] == os[k - 1];
  }

  /** The walk: each file in turn, until one stops the run. */
  function RunSteps(setup: Setup, w: World, jobs: seq<Job>): (r: (seq<Outcome>, World))
    ensures StopsOnlyAtEnd(r.0, |jobs|)
    decreases |jobs|
  {
    if jobs == [] then ([], w)
    else
      var step := HandleStep(setup, w, jobs[0]);
      if step.0.Stopped? then ([step.0], step.1)
      else
        var more := RunSteps(setup, step.1, jobs[1..]);
        StopsOnlyAtEndCons(step.0, more.0, |jobs| - 1);
        ([step.0] + more.0, more.1)
  }

  // ---------------------------------------------------------------------------
  // The sorter: the same steps, made on its fields.

  class Sorter {
    const setup: Setup
    var disk: Disk
    var parents: set<Dir>
    var input: seq<string>
    var log: seq<Effect>

    function State(): World
      reads this
    {
      World(disk, parents, input, log)
    }

    /** Outside a dry run, every folder in the cache exists, so skipping `create_dir_all`
     *  for it is sound. */
    ghost predicate Valid()
      reads this
    {
      CacheSound(setup, State())
    }

    constructor(setup: Setup, disk: Disk, input: seq<string>)
      ensures this.setup == setup && State() == World(disk, {}, input, []) && Valid()
    {
      this.setup := setup;
      this.disk := disk;
      this.parents := {};
      this.input := input;
      this.log := [];
    }

    method HandleMissingParents(dest: FilePath) returns (r: Result<(), string>)
      modifies this
      ensures match MissingParents(setup, old(State()), dest)
              case Err(m) => r == Err(m) && State() == old(State())
              case Ok(w) => r == Ok(()) && State() == w
    {
      if dest.dir !in parents {
        var made := CreateDirAll(disk, setup.locked, dest.dir);
        if made.Err? {
          return Err(IoMessage(made.error));
        }
        disk := made.value;
        log := log + [MadeDirs(dest.dir)];
      }
      return Ok(());
    }

    /** `fs::rename` or `fs::copy` on the fields, as `PlaceFile` says. */
    method Place(source: FilePath, dest: FilePath) returns (o: Outcome)
      requires setup.options.mode != DryRun
      modifies this
      ensures (o, State()) == PlaceFile(setup, old(State()), source, dest)
    {
      if setup.options.mode == Move {
        var moved := RenameFile(disk, setup.locked, source, dest);
        if moved.Err? {
          return Failed(IoMessage(moved.error));
        }
        disk := moved.value;
        log := log + [Renamed(source, dest)];
      } else {
        var copied := CopyFile(disk, setup.locked, source, dest);
        if copied.Err? {
          return Failed(IoMessage(copied.error));
        }
        disk := copied.value;
        log := log + [Copied(source, dest)];
      }
      return Placed(dest);
    }

    /** The skipped source, removed on the fields as `DiscardSkipped` says. */
    method Discard(source: FilePath) returns (o: Outcome)
      modifies this
      ensures (o, State()) == DiscardSkipped(setup, old(State()), source)
    {
      if setup.options.deleteSkippedDuplicates && setup.options.mode == Move {
        var removed := RemoveFile(disk, setup.locked, source);
        if removed.Err? {
          return Failed(IoMessage(removed.error));
        }
        disk := removed.value;
        log := log + [Removed(source)];
      }
      return Skipped;
    }

    method SortFile(source: FilePath, date: DateTime) returns (o: Outcome)
      modifies this
      ensures (o, State()) == SortStep(setup, old(State()), source, date)
    {
      var target := Unverified(setup, source, date);
      var checked := Validate(disk.files, setup.options.conflictMode, source, target, input);
      if checked.Halted? {
        return Stopped(checked.halt);
      }
      input := checked.rest;
      if checked.value.None? {
        o := Discard(source);
        return;
      }
      var dest := checked.value.value;
      if setup.options.mode == DryRun {
        return Placed(dest);
      }
      var made := HandleMissingParents(dest);
      if made.Err? {
        return Failed(made.error);
      }
      o := Place(source, dest);
    }

    method HandleFile(job: Job) returns (o: Outcome)
      requires Valid()
      modifies this
      ensures Valid()
      ensures (o, State()) == HandleStep(setup, old(State()), job)
    {
      ghost var before := State();
      if !Considered(setup, job.source) {
        return Ignored;
      }
      var date := ResolveDate(job.source.name, job.facts, setup.options.fileTimeFallback, input);
      match date
      case Halted(h) =>
        o := Stopped(h);
      case Reply(Err(m), rest) =>
        input := rest;
        o := Failed(m);
      case Reply(Ok(d), rest) =>
        input := rest;
        o := SortFile(job.source, d);
        if o.Placed? {
          parents := parents + {o.path.dir};
        }
      HandleStepKeepsCache(setup, before, job);
    }

    method Run(jobs: seq<Job>) returns (outcomes: seq<Outcome>)
      requires Valid()
      modifies this
      ensures Valid()
      ensures outcomes == RunSteps(setup, old(State()), jobs).0
      ensures State() == RunSteps(setup, old(State()), jobs).1
    {
      ghost var total := RunSteps(setup, State(), jobs);
      outcomes := [];
      var i := 0;
      assert jobs[i..] == jobs;
      while i < |jobs|
        invariant 0 <= i <= |jobs| && Valid()
        invariant total.0 == outcomes + RunSteps(setup, State(), jobs[i..]).0
        invariant total.1 == RunSteps(setup, State(), jobs[i..]).1
      {
        ghost var before := State();
        ghost var rest := jobs[i..];
        assert rest[0] == jobs[i] && rest[1..] == jobs[i + 1..];
        var o := HandleFile(jobs[i]);
        RunStepsFirst(setup, before, rest, o, State());
        ghost var done := outcomes;
        outcomes := outcomes + [o];
        i := i + 1;
        if o.Stopped? {
          assert done + [o] == outcomes;
          return;
        }
        assert done + ([o] + RunSteps(setup, State(), jobs[i..]).0) == outcomes + RunSteps(setup, State(), jobs[i..]).0;
      }
      assert jobs[i..] == [];
      assert outcomes + [] == outcomes;
    }
  }

  /** The first step of a walk over a non-empty list of files. */
  lemma RunStepsFirst(setup: Setup, w: World, jobs: seq<Job>, o: Outcome, w1: World)
    requires jobs != [] && HandleStep(setup, w, jobs[0]) == (o, w1)
    ensures RunSteps(setup, w, jobs).0 == [o] + (if o.Stopped? then [] else RunSteps(setup, w1, jobs[1..]).0)
    ensures RunSteps(setup, w, jobs).1 == if o.Stopped? then w1 else RunSteps(setup, w1, jobs[1..]).1
  {
  }

  // ---------------------------------------------------------------------------
  // Properties.

  /** Outside a dry run, the folders in the cache exist. */
  predicate CacheSound(setup: Setup, w: World) {
    setup.options.mode != DryRun ==> w.parents <= w.disk.dirs
  }

  /** The cache stays sound: a folder enters it only once the file is in it. */
  lemma HandleStepKeepsCache(setup: Setup, w: World, job: Job)
    requires CacheSound(setup, w)
    ensures CacheSound(setup, HandleStep(setup, w, job).1)
  {
  }

  /** The cache stays sound over a whole walk. */
  lemma {:induction false} RunKeepsCache(setup: Setup, w: World, jobs: seq<Job>)
    requires CacheSound(setup, w)
    ensures CacheSound(setup, RunSteps(setup, w, jobs).1)
    decreases |jobs|
  {
    if jobs != [] {
      var (o, w1) := HandleStep(setup, w, jobs[0]);
      HandleStepKeepsCache(setup, w, jobs[0]);
      if !o.Stopped? {
        RunKeepsCache(setup, w1, jobs[1..]);
      }
    }
  }

  /** A dry run changes nothing on disk and logs nothing, however many files it handles. */
  lemma {:induction false} DryRunTouchesNothing(setup: Setup, w: World, jobs: seq<Job>)
    requires setup.options.mode == DryRun
    ensures RunSteps(setup, w, jobs).1.disk == w.disk
    ensures RunSteps(setup, w, jobs).1.log == w.log
    decreases |jobs|
  {
    if jobs != [] {
      var (o, w1) := HandleStep(setup, w, jobs[0]);
      if !o.Stopped? {
        DryRunTouchesNothing(setup, w1, jobs[1..]);
      }
    }
  }

  /** After a walk the disk is exactly what the logged changes made of it. */
  lemma {:induction false} RunAccounted(setup: Setup, w: World, jobs: seq<Job>)
    ensures Accounted(w, RunSteps(setup, w, jobs).1)
    decreases |jobs|
  {
    if jobs == [] {
      AccountedUnchanged(w);
    } else {
      var (o, w1) := HandleStep(setup, w, jobs[0]);
      if !o.Stopped? {
        RunAccounted(setup, w1, jobs[1..]);
        AccountedTransitive(w, w1, RunSteps(setup, w1, jobs[1..]).1);
      }
    }
  }

  /** The folders of the placed files among `os`. */
  function PlacedDirs(os: seq<Outcome>): set<Dir>
    decreases |os|
  {
    if os == [] then {} else ParentsAfter({}, os[0]) + PlacedDirs(os[1..])
  }

  lemma PlacedDirsCons(o: Outcome, os: seq<Outcome>)
    ensures PlacedDirs([o] + os) == ParentsAfter({}, o) + PlacedDirs(os)
  {
    assert ([o] + os)[1..] == os;
  }

  /** After a walk the cache holds exactly the folders it held before and those of the files
   *  placed during the walk. */
  lemma {:induction false} RunParents(setup: Setup, w: World, jobs: seq<Job>)
    ensures RunSteps(setup, w, jobs).1.parents == w.parents + PlacedDirs(RunSteps(setup, w, jobs).0)
    decreases |jobs|
  {
    if jobs != [] {
      var r := HandleStep(setup, w, jobs[0]);
      RunStepsFirst(setup, w, jobs, r.0, r.1);
      if r.0.Stopped? {
        PlacedDirsCons(r.0, []);
        assert [r.0] + [] == [r.0];
      } else {
        RunParents(setup, r.1, jobs[1..]);
        PlacedDirsCons(r.0, RunSteps(setup, r.1, jobs[1..]).0);
      }
    }
  }

  /** A placed file lands in the folder of its resolved date, under its own name or one of
   *  the renamings of it. */
  lemma PlacedWhereDated(setup: Setup, w: World, job: Job)
    requires HandleStep(setup, w, job).0.Placed?
    ensures var reply := ResolveDate(job.source.name, job.facts, setup.options.fileTimeFallback, w.input);
            && reply.Reply? && reply.value.Ok?
            && exists k: nat :: HandleStep(setup, w, job).0.path
                                == AlternativeChain(Unverified(setup, job.source, reply.value.value), k)
  {
    var reply := ResolveDate(job.source.name, job.facts, setup.options.fileTimeFallback, w.input);
    var date := reply.value.value;
    var target := Unverified(setup, job.source, date);
    PlacedOnChain(w.disk.files, setup.options.conflictMode, job.source, target, reply.rest);
  }

  /** A file that is considered ends as its dating and sorting end: with the outcome, files,
   *  folders, input and log that `DatedStep` gives, and the placed file's folder cached. */
  lemma HandleStepDated(setup: Setup, w: World, job: Job)
    requires Considered(setup, job.source)
    ensures var d := DatedStep(setup, w, job);
            HandleStep(setup, w, job) == (d.0, d.1.(parents := ParentsAfter(w.parents, d.0)))
  {
  }

  /** A date that cannot be determined, or a skip at the date prompt, is printed as an error
   *  and changes nothing but the input read. */
  lemma DateErrorReported(setup: Setup, w: World, job: Job, message: string, rest: seq<string>)
    requires Considered(setup, job.source)
    requires ResolveDate(job.source.name, job.facts, setup.options.fileTimeFallback, w.input) == Reply(Err(message), rest)
    ensures HandleStep(setup, w, job) == (Failed(message), w.(input := rest))
  {
  }
}

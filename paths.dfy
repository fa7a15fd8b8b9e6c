/**
 * Paths as Rust's `std::path` sees the ones this program builds: a directory
 * (its components) and a final file name.  File stem, extension,
 * `set_file_name`/`set_extension` and the `_new` renaming of
 * `create_alternative_path` / `change_file_name` (src/main.rs:583-601).
 */
module Paths {
  import opened Wrappers

  /** A directory, as its sequence of components. */
  type Dir = seq<string>

  /** A file path: its parent directory and its final component. */
  datatype FilePath = FilePath(dir: Dir, name: string)

  /** Index of the last '.' in `s`, if any. */
  function LastDot(s: string): (r: Option<nat>)
    ensures r.Some? ==> r.value < |s| && s[r.value] == '.'
  {
    if s == [] then None
    else if s[|s| - 1] == '.' then Some(|s| - 1)
    else LastDot(s[..|s| - 1])
  }

  /** No dot follows the one `LastDot` finds, and there is none at all when it finds none. */
  lemma {:induction false} LastDotIsLast(s: string)
    ensures LastDot(s).Some? ==> forall j :: LastDot(s).value < j < |s| ==> s[j] != '.'
    ensures LastDot(s).None? ==> '.' !in s
  {
    if s != [] && s[|s| - 1] != '.' {
      var init := s[..|s| - 1];
      LastDotIsLast(init);
      assert s == init + [s[|s| - 1]];
    }
  }

  /** Rust's split of a file name at its last dot into (stem, extension): no
   *  extension when there is no dot, when the only dot leads the name, or for "..". */
  function SplitAtDot(name: string): (string, Option<string>) {
    if |name| == 2 && name[0] == '.' && name[1] == '.' then (name, None)
    else match LastDot(name)
      case None => (name, None)
      case Some(k) => if k == 0 then (name, None) else (name[..k], Some(name[k + 1..]))
  }

  /** `Path::file_stem`: a prefix of the name, empty only for the empty name. */
  function FileStem(name: string): (r: string)
    ensures r <= name && (r == [] <==> name == [])
  {
    SplitAtDot(name).0
  }

  /** `Path::extension`: none exactly when the name has no dot, its only dot leads it, or it
   *  is ".."; otherwise a dot-free tail of the name. */
  function Extension(name: string): (r: Option<string>)
    ensures r.None? <==> '.' !in name || LastDot(name) == Some(0) || name == ".."
    ensures r.Some? ==> '.' !in r.value && |r.value| < |name| && r.value == name[|name| - |r.value|..]
  {
    LastDotIsLast(name);
    SplitAtDot(name).1
  }

  /** A name with an extension is its stem, a dot and the dot-free extension; a name
   *  without one is its own stem. */
  lemma ExtensionSplits(name: string)
    ensures Extension(name).Some? ==> FileStem(name) != [] && '.' !in Extension(name).value
                                      && name == FileStem(name) + "." + Extension(name).value
    ensures Extension(name).None? ==> FileStem(name) == name
  {
    if Extension(name).Some? {
      var k := LastDot(name).value;
      LastDotIsLast(name);
      assert name == name[..k] + "." + name[k + 1..];
    }
  }

  /** Number of dots in a name. */
  function Dots(s: string): nat {
    multiset(s)['.']
  }

  /** `set_extension(ext)` on a file name: keep the stem, then "." and `ext` unless `ext` is empty.
   *  A non-empty, dot-free `ext` is then the extension of the result, under the same stem. */
  function SetExtension(name: string, ext: string): (r: string)
    ensures ext == [] ==> r == FileStem(name)
  {
    FileStem(name) + (if |ext| == 0 then "" else "." + ext)
  }

  /** Setting a non-empty dot-free extension on a non-empty name gives a name with that
   *  extension and the old stem. */
  lemma SetExtensionRoundTrip(name: string, ext: string)
    requires name != [] && ext != [] && '.' !in ext
    ensures Extension(SetExtension(name, ext)) == Some(ext)
    ensures FileStem(SetExtension(name, ext)) == FileStem(name)
  {
    assert SetExtension(name, ext) == FileStem(name) + "." + ext;
    SplitKnown(FileStem(name), ext);
  }

  /** `change_file_name`: replace the final component, then re-apply the old
   *  path's extension, if it had one, with `set_extension`. */
  function ChangeFileName(p: FilePath, name: string): (r: FilePath)
    ensures r.dir == p.dir
  {
    match Extension(p.name)
    case None => FilePath(p.dir, name)
    case Some(e) => FilePath(p.dir, SetExtension(name, e))
  }

  /** `create_alternative_path`: the stem plus "_new", passed to `change_file_name`. */
  function CreateAlternativePath(p: FilePath): (r: FilePath)
    ensures r.dir == p.dir
  {
    ChangeFileName(p, FileStem(p.name) + "_new")
  }

  /** The k-th renaming candidate: `p`, then its alternative, then that one's, ... */
  function AlternativeChain(p: FilePath, k: nat): (r: FilePath)
    ensures r.dir == p.dir
  {
    if k == 0 then p else CreateAlternativePath(AlternativeChain(p, k - 1))
  }

  /** The candidate after the `k`-th is its alternative. */
  lemma ChainNext(p: FilePath, k: nat)
    ensures AlternativeChain(p, k + 1) == CreateAlternativePath(AlternativeChain(p, k))
  {
  }

  /** Appending a dot-free suffix does not move the last dot. */
  lemma {:induction false} LastDotAppend(s: string, t: string)
    requires '.' !in t
    ensures LastDot(s + t) == LastDot(s)
    decreases |t|
  {
    if t != [] {
      var init := t[..|t| - 1];
      assert (s + t)[..|s + t| - 1] == s + init;
      assert (s + t)[|s + t| - 1] == t[|t| - 1];
      LastDotAppend(s, init);
    } else {
      assert s + t == s;
    }
  }

  lemma DotsAppend(a: string, b: string)
    ensures Dots(a + b) == Dots(a) + Dots(b)
  {
    assert multiset(a + b) == multiset(a) + multiset(b);
  }

  /** A name with an extension has one dot more than its stem. */
  lemma StemDots(name: string)
    requires Extension(name).Some?
    ensures Dots(name) == Dots(FileStem(name)) + 1
  {
    ExtensionSplits(name);
    var e := Extension(name).value;
    DotsAppend(FileStem(name) + ".", e);
    DotsAppend(FileStem(name), ".");
  }

  /** When `stem` has no interior dot, "stem_new" is its own stem. */
  lemma GrownStemWhole(stem: string)
    requires LastDot(stem).None? || LastDot(stem) == Some(0)
    ensures FileStem(stem + "_new") == stem + "_new"
  {
    LastDotAppend(stem, "_new");
  }

  /** Otherwise the stem of "stem_new" is the part of `stem` before its last dot. */
  lemma GrownStemCut(stem: string, k: nat)
    requires LastDot(stem) == Some(k) && k > 0
    ensures FileStem(stem + "_new") == stem[..k]
  {
    LastDotAppend(stem, "_new");
  }

  /** Cutting a name before one of its dots leaves fewer dots. */
  lemma DotsBeforeDot(s: string, k: nat)
    requires k < |s| && s[k] == '.'
    ensures Dots(s[..k]) < Dots(s)
  {
    assert s[..k] + s[k..] == s;
    DotsAppend(s[..k], s[k..]);
    assert s[k..][0] == '.';
    assert '.' in multiset(s[k..]);
  }

  /** The stem of "stem_new" keeps the dots of `stem` (and is all of it) or has fewer. */
  lemma GrownStem(stem: string)
    ensures var g := FileStem(stem + "_new");
            (g == stem + "_new" && Dots(g) == Dots(stem)) || Dots(g) < Dots(stem)
  {
    match LastDot(stem)
    case None =>
      GrownStemWhole(stem);
      DotsAppend(stem, "_new");
    case Some(k) =>
      if k == 0 {
        GrownStemWhole(stem);
        DotsAppend(stem, "_new");
      } else {
        GrownStemCut(stem, k);
        DotsBeforeDot(stem, k);
      }
  }

  /** A name with no extension gains "_new" at its end. */
  lemma {:induction false} AlternativeWithoutExtension(p: FilePath)
    requires Extension(p.name).None?
    ensures CreateAlternativePath(p) == FilePath(p.dir, p.name + "_new")
  {
  }

  /** A name made of a stem, a dot and a dot-free extension splits back into the two. */
  lemma SplitKnown(stem: string, ext: string)
    requires stem != [] && ext != [] && '.' !in ext
    ensures SplitAtDot(stem + "." + ext) == (stem, Some(ext))
  {
    var name := stem + "." + ext;
    LastDotAppend(stem + ".", ext);
    assert name[..|stem|] == stem;
    assert name[|stem| + 1..] == ext;
  }

  /** A name with exactly one extension dot keeps it: `x.jpg` becomes `x_new.jpg`. */
  lemma {:induction false} AlternativeSingleExtension(p: FilePath, stem: string, ext: string)
    requires p.name == stem + "." + ext
    requires stem != [] && (LastDot(stem).None? || LastDot(stem) == Some(0))
    requires ext != [] && '.' !in ext
    ensures CreateAlternativePath(p) == FilePath(p.dir, stem + "_new" + "." + ext)
  {
    SplitKnown(stem, ext);
    GrownStemWhole(stem);
  }

  /** A name ending in its only dot has an empty extension, which `set_extension` drops:
   *  `foo.` becomes `foo_new`. */
  lemma AlternativeTrailingDot(p: FilePath, stem: string)
    requires p.name == stem + "." && stem != [] && '.' !in stem
    ensures CreateAlternativePath(p) == FilePath(p.dir, stem + "_new")
  {
    assert LastDot(stem + ".") == Some(|stem|);
    assert p.name[..|stem|] == stem && p.name[|stem| + 1..] == "";
    GrownStemWhole(stem);
  }

  /** A name with two or more extension dots loses its middle segment:
   *  `a.tar.gz` becomes `a.gz`, because `set_extension` replaces "tar_new". */
  lemma {:induction false} AlternativeDropsSegment(p: FilePath, base: string, mid: string, ext: string)
    requires p.name == base + "." + mid + "." + ext
    requires base != [] && '.' !in mid && '.' !in ext && ext != []
    ensures CreateAlternativePath(p) == FilePath(p.dir, base + "." + ext)
  {
    var stem := base + "." + mid;
    assert FileStem(p.name) == stem && Extension(p.name) == Some(ext) by {
      assert p.name == stem + "." + ext;
      SplitKnown(stem, ext);
    }
    assert FileStem(stem + "_new") == base by {
      var grown := mid + "_new";
      assert '.' !in grown by {
        forall i | 0 <= i < |grown| ensures grown[i] != '.' {
          if i < |mid| { assert grown[i] in mid; }
        }
      }
      assert stem + "_new" == base + "." + grown;
      SplitKnown(base, grown);
    }
  }

  /** Each renaming either removes a dot from the name or keeps the dots and makes
   *  the name four characters longer; so renaming never returns to an earlier name. */
  lemma AlternativeProgress(p: FilePath)
    ensures var q := CreateAlternativePath(p).name;
            Dots(q) < Dots(p.name) || (Dots(q) == Dots(p.name) && |q| == |p.name| + 4)
  {
    var q := CreateAlternativePath(p).name;
    var stem := FileStem(p.name);
    match Extension(p.name)
    case None =>
      DotsAppend(p.name, "_new");
    case Some(e) =>
      ExtensionSplits(p.name);
      StemDots(p.name);
      GrownStem(stem);
      var g := FileStem(stem + "_new");
      var tail := if e == "" then "" else "." + e;
      DotsAppend(g, tail);
      if e != "" {
        DotsAppend(".", e);
      }
  }

  /** The renaming candidates of the renamed path are the later candidates of the path. */
  lemma {:induction false} ChainShift(p: FilePath, k: nat)
    ensures AlternativeChain(CreateAlternativePath(p), k) == AlternativeChain(p, k + 1)
  {
    if k > 0 {
      ChainShift(p, k - 1);
      var before := AlternativeChain(p, k);
      assert AlternativeChain(CreateAlternativePath(p), k - 1) == before;
      assert AlternativeChain(p, k + 1) == CreateAlternativePath(before);
    }
  }

  /** Strict order in which each renaming moves forward: fewer dots, or as many and longer. */
  predicate Before(a: string, b: string) {
    Dots(a) > Dots(b) || (Dots(a) == Dots(b) && |a| < |b|)
  }

  /** One renaming step of the chain moves forward. */
  lemma ChainStep(p: FilePath, k: nat)
    ensures Before(AlternativeChain(p, k).name, AlternativeChain(p, k + 1).name)
  {
    AlternativeProgress(AlternativeChain(p, k));
  }

  lemma {:induction false} ChainMovesForward(p: FilePath, i: nat, j: nat)
    requires i < j
    ensures Before(AlternativeChain(p, i).name, AlternativeChain(p, j).name)
    decreases j - i
  {
    if i + 1 == j {
      ChainStep(p, i);
    } else {
      ChainStep(p, i);
      ChainMovesForward(p, i + 1, j);
      BeforeTransitive(AlternativeChain(p, i).name, AlternativeChain(p, i + 1).name, AlternativeChain(p, j).name);
    }
  }

  lemma BeforeTransitive(a: string, b: string, c: string)
    requires Before(a, b) && Before(b, c)
    ensures Before(a, c)
  {
  }

  /** The renaming candidates are pairwise distinct. */
  lemma ChainDistinct(p: FilePath, i: nat, j: nat)
    requires i != j
    ensures AlternativeChain(p, i) != AlternativeChain(p, j)
  {
    if i < j { ChainMovesForward(p, i, j); } else { ChainMovesForward(p, j, i); }
  }

  lemma RenameKeepsExtension(dir: Dir)
    ensures CreateAlternativePath(FilePath(dir, "x.jpg")) == FilePath(dir, "x_new.jpg")
  {
    var stem, ext := "x", "jpg";
    assert LastDot(stem) == None && '.' !in ext;
    assert stem + "." + ext == "x.jpg";
    AlternativeSingleExtension(FilePath(dir, "x.jpg"), stem, ext);
    RenamedJpg();
  }

  lemma RenamedJpg()
    ensures "x" + "_new" + "." + "jpg" == "x_new.jpg"
  {
  }

  lemma RenameWithoutExtension(dir: Dir)
    ensures CreateAlternativePath(FilePath(dir, "x")) == FilePath(dir, "x_new")
  {
    assert LastDot("x") == None;
    AlternativeWithoutExtension(FilePath(dir, "x"));
  }

  lemma RenameLosesSegment(dir: Dir)
    ensures CreateAlternativePath(FilePath(dir, "a.tar.gz")) == FilePath(dir, "a.gz")
  {
    TarGzNames();
    AlternativeDropsSegment(FilePath(dir, "a.tar.gz"), "a", "tar", "gz");
  }

  lemma TarGzNames()
    ensures "a" + "." + "tar" + "." + "gz" == "a.tar.gz" && "a" + "." + "gz" == "a.gz"
    ensures '.' !in "tar" && '.' !in "gz"
  {
  }
}

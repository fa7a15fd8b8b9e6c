/**
 * Media-type classification by the lower-cased file extension
 * (`is_supported_file_type`, `is_image`, `is_video`).
 */
module Classify {
  import opened Wrappers
  import opened Text
  import opened Paths

  const ImageExtensions: seq<string> := ["png", "jpg", "jpeg", "tif"]
  const VideoExtensions: seq<string> := ["mp4", "mov"]
  const SupportedExtensions: seq<string> := ["png", "jpg", "jpeg", "tif", "mp4", "mov"]

  /** The name has an extension whose lower-cased form is one of `list`. */
  predicate ExtensionIn(name: string, list: seq<string>) {
    match Extension(name)
    case None => false
    case Some(e) => ToLowerAscii(e) in list
  }

  /** `name` ends in a dot that is not its first character, followed by a dot-free tail whose
   *  lower-cased form is one of `list`. */
  predicate EndsWithListed(name: string, list: seq<string>) {
    exists k :: 0 < k < |name| && name[k] == '.' && '.' !in name[k + 1..] && ToLowerAscii(name[k + 1..]) in list
  }

  /** A listed extension shows at the end of the name. */
  lemma ListedExtensionEnds(name: string, list: seq<string>)
    requires ExtensionIn(name, list)
    ensures EndsWithListed(name, list)
  {
    ExtensionSplits(name);
    var stem, e := FileStem(name), Extension(name).value;
    var k := |stem|;
    assert name == stem + "." + e;
    assert name[k] == '.' && name[k + 1..] == e;
  }

  /** A dot after the first character and a listed, dot-free tail make that tail the extension. */
  lemma EndingIsListedExtension(name: string, list: seq<string>, k: nat)
    requires "" !in list
    requires 0 < k < |name| && name[k] == '.' && '.' !in name[k + 1..] && ToLowerAscii(name[k + 1..]) in list
    ensures ExtensionIn(name, list)
  {
    var head, tail := name[..k + 1], name[k + 1..];
    assert head + tail == name;
    assert LastDot(head) == Some(k);
    LastDotAppend(head, tail);
    assert tail != [];
    assert SplitAtDot(name) == (name[..k], Some(tail));
  }

  /** For a list without the empty extension, reading the extension and checking it is the
   *  same as looking at the end of the name. */
  lemma ExtensionInByEnding(name: string, list: seq<string>)
    requires "" !in list
    ensures ExtensionIn(name, list) <==> EndsWithListed(name, list)
  {
    if ExtensionIn(name, list) {
      ListedExtensionEnds(name, list);
    }
    if EndsWithListed(name, list) {
      var k :| 0 < k < |name| && name[k] == '.' && '.' !in name[k + 1..] && ToLowerAscii(name[k + 1..]) in list;
      EndingIsListedExtension(name, list, k);
    }
  }

  /** `is_supported_file_type`. */
  predicate IsSupportedFileType(name: string)
    ensures IsSupportedFileType(name) <==> EndsWithListed(name, SupportedExtensions)
  {
    ExtensionInByEnding(name, SupportedExtensions);
    ExtensionIn(name, SupportedExtensions)
  }

  /** `is_image`. */
  predicate IsImage(name: string)
    ensures IsImage(name) <==> EndsWithListed(name, ImageExtensions)
  {
    ExtensionInByEnding(name, ImageExtensions);
    ExtensionIn(name, ImageExtensions)
  }

  /** `is_video`. */
  predicate IsVideo(name: string)
    ensures IsVideo(name) <==> EndsWithListed(name, VideoExtensions)
  {
    ExtensionInByEnding(name, VideoExtensions);
    ExtensionIn(name, VideoExtensions)
  }

  /** The supported types are exactly the images and the videos. */
  lemma SupportedIsImageOrVideo(name: string)
    ensures IsSupportedFileType(name) <==> IsImage(name) || IsVideo(name)
  {
  }

  /** No file is both an image and a video. */
  lemma ImageAndVideoDisjoint(name: string)
    ensures !(IsImage(name) && IsVideo(name))
  {
  }

  /** Classification ignores the case of ASCII letters: only the lower-cased extension counts. */
  lemma ClassificationIgnoresCase(stem: string, e1: string, e2: string)
    requires stem != [] && '.' !in e1 && '.' !in e2
    requires stem + "." + e1 != ".." && stem + "." + e2 != ".."
    requires ToLowerAscii(e1) == ToLowerAscii(e2)
    ensures IsImage(stem + "." + e1) <==> IsImage(stem + "." + e2)
    ensures IsVideo(stem + "." + e1) <==> IsVideo(stem + "." + e2)
  {
    ExtensionOfDotted(stem, e1);
    ExtensionOfDotted(stem, e2);
  }

  /** A name made of a non-empty stem, a dot and a dot-free tail has that tail as its extension. */
  lemma ExtensionOfDotted(stem: string, e: string)
    requires stem != [] && '.' !in e && stem + "." + e != ".."
    ensures Extension(stem + "." + e) == Some(e)
  {
    var name := stem + "." + e;
    LastDotAppend(stem + ".", e);
    assert LastDot(stem + ".") == Some(|stem|);
    assert name[..|stem|] == stem;
    assert name[|stem| + 1..] == e;
  }
}

/**
 * Where the transcoder looks for the image of an annotation file, and the
 * fallback to the other download root when that image does not exist.
 */
module ImagePaths {
  import opened Wrappers
  import opened PyStrings
  import opened Annotation

  /** `os.path.join(filepath + mode, "json")`. */
  function AnnotationDir(root: string, mode: string): string {
    Join(root + mode, "json")
  }

  /** `os.path.join(filepath + mode, "image")`. */
  function ImageDir(root: string, mode: string): string {
    Join(root + mode, "image")
  }

  /** The image path first tried: every "json" in the joined path becomes "png". */
  function CandidateImagePath(root: string, mode: string, name: string): string {
    ReplaceAll(Join(ImageDir(root, mode), name), "json", "png")
  }

  /** `list.index`: the position of the first occurrence of `r`. */
  function IndexOf(roots: seq<string>, r: string): (k: nat)
    requires r in roots
    ensures k < |roots| && roots[k] == r
    ensures forall j :: 0 <= j < k ==> roots[j] != r
  {
    if roots[0] == r then 0 else 1 + IndexOf(roots[1..], r)
  }

  /** `int(not (i + 2) % 2)`: 1 for an even index, 0 for an odd one. */
  function OtherRootIndex(i: nat): (other: nat)
    ensures other == if i % 2 == 0 then 1 else 0
    ensures i < 2 ==> other == 1 - i
  {
    if (i + 2) % 2 != 0 then 0 else 1
  }

  /**
   * The image path for annotation file `name` under root `roots[i]`: the
   * candidate when it exists; otherwise the candidate with every occurrence of
   * the root replaced by the other root, which is not checked again. With a
   * single root there is no other one, and indexing fails.
   */
  function ResolveImagePath(roots: seq<string>, i: nat, mode: string, files: set<string>, name: string): Result<string, Failure>
    requires i < |roots|
  {
    var candidate := CandidateImagePath(roots[i], mode, name);
    if candidate in files then Ok(candidate)
    else
      var other := OtherRootIndex(IndexOf(roots, roots[i]));
      if other < |roots| then Ok(ReplaceAll(candidate, roots[i], roots[other]))
      else Err(RootIndexOutOfRange(other))
  }

  /**
   * The candidate is kept when it exists. Otherwise resolution fails exactly
   * when there is a single root, with index 1 out of range; with two or more
   * roots the root is replaced by the root at the index of the other parity.
   */
  lemma ResolveImagePathCases(roots: seq<string>, i: nat, mode: string, files: set<string>, name: string)
    requires i < |roots|
    ensures var candidate := CandidateImagePath(roots[i], mode, name);
      var r := ResolveImagePath(roots, i, mode, files, name);
      && (candidate in files ==> r == Ok(candidate))
      && (r.Err? <==> candidate !in files && |roots| == 1)
      && (r.Err? ==> r.error == RootIndexOutOfRange(1))
      && (candidate !in files && |roots| >= 2 ==>
            exists o :: 0 <= o < 2 && o != IndexOf(roots, roots[i]) % 2 &&
              r == Ok(ReplaceAll(candidate, roots[i], roots[o])))
  {
  }

  // ---------------------------------------------------------------------
  // The shape of the derived paths
  // ---------------------------------------------------------------------

  lemma ImageHasNoJson()
    ensures ReplaceAll("image", "json", "png") == "image"
  {
    LacksFirstCharacter("image", "json");
    ReplaceAllWithoutOccurrence("image", "json", "png");
  }

  /** Replacement acts on each '/'-separated part of a path on its own. */
  lemma ReplaceAllOverPath(r: string, m: string, d: string, n: string, pat: string, rep: string)
    requires |pat| > 0 && '/' !in pat
    ensures ReplaceAll(r + ['/'] + (m + ['/'] + (d + ['/'] + n)), pat, rep) ==
      ReplaceAll(r, pat, rep) + ['/'] + (ReplaceAll(m, pat, rep) + ['/'] + (ReplaceAll(d, pat, rep) + ['/'] + ReplaceAll(n, pat, rep)))
  {
    var x := d + ['/'] + n;
    var y := m + ['/'] + x;
    ReplaceAllAroundSeparator(d, '/', n, pat, rep);
    ReplaceAllAroundSeparator(m, '/', x, pat, rep);
    ReplaceAllAroundSeparator(r, '/', y, pat, rep);
  }

  /** The separators of the image path, regrouped around the mode. */
  lemma ImagePathRegrouped(r: string, m: string, n: string)
    ensures r + ['/'] + (m + ['/'] + ("image" + ['/'] + n)) == r + ((['/'] + m) + "/image/" + n)
  {
    var tail := "image" + ['/'] + n;
    assert "/image/" + n == ['/'] + tail;
    Associates(r, ['/'], m + ['/'] + tail);
    Associates(['/'], m + ['/'], tail);
    Associates(['/'], m, ['/']);
    Associates(['/'] + m, ['/'], tail);
    Associates(['/'] + m, "/image/", n);
  }

  /** The joined image path, split at its separators. */
  lemma ImagePathJoined(root: string, mode: string, name: string)
    requires |mode| > 0 && mode[0] == '/' && mode[|mode| - 1] != '/'
    requires |name| > 0 && name[0] != '/'
    ensures Join(ImageDir(root, mode), name) == root + ['/'] + (mode[1..] + ['/'] + ("image" + ['/'] + name))
  {
    var dir := root + mode;
    assert dir[|dir| - 1] == mode[|mode| - 1];
    assert ImageDir(root, mode) == dir + "/" + "image";
    var d := ImageDir(root, mode);
    assert d[|d| - 1] == 'e';
    assert Join(d, name) == dir + "/" + "image" + "/" + name;
    assert mode == ['/'] + mode[1..];
  }

  /** Replacing a pattern without '/' along the joined image path, part by part. */
  lemma ReplaceAllOverImagePath(root: string, mode: string, name: string, pat: string, rep: string)
    requires |mode| > 0 && mode[0] == '/'
    requires |pat| > 0 && '/' !in pat && ReplaceAll("image", pat, rep) == "image"
    ensures ReplaceAll(root + ['/'] + (mode[1..] + ['/'] + ("image" + ['/'] + name)), pat, rep) ==
      ReplaceAll(root, pat, rep) + (ReplaceAll(mode, pat, rep) + "/image/" + ReplaceAll(name, pat, rep))
  {
    var m := mode[1..];
    var rr, rm, rn := ReplaceAll(root, pat, rep), ReplaceAll(m, pat, rep), ReplaceAll(name, pat, rep);
    ReplaceAllOverPath(root, m, "image", name, pat, rep);
    assert ReplaceAll(mode, pat, rep) == ['/'] + rm by {
      assert mode == [] + ['/'] + m;
      ReplaceAllAroundSeparator([], '/', m, pat, rep);
    }
    ImagePathRegrouped(rr, rm, rn);
  }

  /**
   * For a mode such as "/CORD/train" and a plain file name, the candidate is
   * the root, the mode, "/image/" and the file name, each with its own
   * "json" occurrences replaced: none is formed across a '/'.
   */
  lemma CandidateImagePathShape(root: string, mode: string, name: string)
    requires |mode| > 0 && mode[0] == '/' && mode[|mode| - 1] != '/'
    requires |name| > 0 && name[0] != '/'
    ensures CandidateImagePath(root, mode, name) ==
      ReplaceAll(root, "json", "png") + (ReplaceAll(mode, "json", "png") + "/image/" + ReplaceAll(name, "json", "png"))
  {
    ImagePathJoined(root, mode, name);
    ImageHasNoJson();
    ReplaceAllOverImagePath(root, mode, name, "json", "png");
  }

  /** "x.json" names the image "x.png" when the stem holds no "json". */
  lemma JsonExtensionBecomesPng(stem: string)
    requires !Contains(stem, "json")
    ensures ReplaceAll(stem + ".json", "json", "png") == stem + ".png"
  {
    assert ".json" == ['.'] + "json" && ".png" == ['.'] + "png";
    Associates(stem, ['.'], "json");
    Associates(stem, ['.'], "png");
    ReplaceAllOfSuffix(stem, '.', "json", "png");
  }

  /** The replacement is literal: a name that begins with "json" loses that too. */
  lemma JsonInsideNameIsReplacedToo(stem: string)
    requires !Contains(stem, "json")
    ensures ReplaceAll("json" + stem + ".json", "json", "png") == "png" + stem + ".png"
  {
    Associates("json", stem, ".json");
    Associates("png", stem, ".png");
    ReplaceAllAfterMatch("json", stem + ".json", "png");
    JsonExtensionBecomesPng(stem);
  }

  /**
   * With two distinct roots, a missing image under one root is looked up at
   * the same place under the other root, for either current root.
   */
  lemma MissingImageMovesToOtherRoot(roots: seq<string>, i: nat, mode: string, files: set<string>, name: string)
    requires |roots| == 2 && roots[0] != roots[1] && i < 2 && |roots[i]| > 0
    requires !Contains(roots[i], "json")
    requires |mode| > 0 && mode[0] == '/' && mode[|mode| - 1] != '/'
    requires |name| > 0 && name[0] != '/'
    requires !Contains(ReplaceAll(mode, "json", "png") + "/image/" + ReplaceAll(name, "json", "png"), roots[i])
    requires CandidateImagePath(roots[i], mode, name) !in files
    ensures var rest := ReplaceAll(mode, "json", "png") + "/image/" + ReplaceAll(name, "json", "png");
      && CandidateImagePath(roots[i], mode, name) == roots[i] + rest
      && ResolveImagePath(roots, i, mode, files, name) == Ok(roots[1 - i] + rest)
  {
    var rest := ReplaceAll(mode, "json", "png") + "/image/" + ReplaceAll(name, "json", "png");
    var candidate := CandidateImagePath(roots[i], mode, name);
    CandidateImagePathShape(roots[i], mode, name);
    ReplaceAllWithoutOccurrence(roots[i], "json", "png");
    MissingImageUnderRoot(roots, i, mode, files, name, rest);
  }

  /** A missing candidate that starts with the root moves to the other root. */
  lemma MissingImageUnderRoot(roots: seq<string>, i: nat, mode: string, files: set<string>, name: string, rest: string)
    requires |roots| == 2 && roots[0] != roots[1] && i < 2 && |roots[i]| > 0
    requires !Contains(rest, roots[i])
    requires CandidateImagePath(roots[i], mode, name) == roots[i] + rest
    requires CandidateImagePath(roots[i], mode, name) !in files
    ensures ResolveImagePath(roots, i, mode, files, name) == Ok(roots[1 - i] + rest)
  {
    var candidate := CandidateImagePath(roots[i], mode, name);
    assert ReplaceAll(candidate, roots[i], roots[1 - i]) == roots[1 - i] + rest by {
      ReplaceAllLeadingOccurrence(rest, roots[i], roots[1 - i]);
    }
    IndexOfDistinct(roots, i);
  }

  lemma IndexOfDistinct(roots: seq<string>, i: nat)
    requires |roots| == 2 && roots[0] != roots[1] && i < 2
    ensures IndexOf(roots, roots[i]) == i
  {
    if i == 1 {
      assert roots[1..][0] == roots[1];
    }
  }
}

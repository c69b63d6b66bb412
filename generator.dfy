/**
 * The example generator: for each root whose annotation directory exists,
 * each annotation file in listing order becomes one example, keyed by a
 * counter shared by all roots; the first fatal error ends generation.
 */
module Generator {
  import opened Wrappers
  import opened PyStrings
  import opened Annotation
  import opened RegionOfInterest
  import opened Extraction
  import opened ImagePaths

  /** One annotation file to transcode, with the position of its root in the list of roots. */
  datatype Job = Job(rootIndex: nat, file: AnnFile)

  /** The examples yielded, and the error that ended generation early, if any. */
  datatype Generated = Generated(examples: seq<Example>, failure: Option<Failure>)

  /** The files of root `j`, in listing order; none when its annotation directory is missing. */
  function RootJobs(roots: seq<string>, mode: string, fs: FileSystem, j: nat): (r: seq<Job>)
    requires j < |roots|
    ensures AnnotationDir(roots[j], mode) !in fs.listings ==> r == []
    ensures AnnotationDir(roots[j], mode) in fs.listings ==>
      var listing := fs.listings[AnnotationDir(roots[j], mode)];
      |r| == |listing| && forall k :: 0 <= k < |r| ==> r[k] == Job(j, listing[k])
    ensures JobsIn(roots, r)
  {
    var annDir := AnnotationDir(roots[j], mode);
    if annDir in fs.listings then
      var listing := fs.listings[annDir];
      seq(|listing|, k requires 0 <= k < |listing| => Job(j, listing[k]))
    else []
  }

  /** The jobs of each root, root by root. */
  function RootParts(roots: seq<string>, mode: string, fs: FileSystem): (parts: seq<seq<Job>>)
    ensures |parts| == |roots|
    ensures forall j :: 0 <= j < |roots| ==> parts[j] == RootJobs(roots, mode, fs, j)
  {
    seq(|roots|, j requires 0 <= j < |roots| => RootJobs(roots, mode, fs, j))
  }

  /** The parts one after the other. */
  function Concat(parts: seq<seq<Job>>): seq<Job> {
    if parts == [] then [] else parts[0] + Concat(parts[1..])
  }

  /** The total number of jobs in the parts. */
  function Size(parts: seq<seq<Job>>): nat {
    if parts == [] then 0 else |parts[0]| + Size(parts[1..])
  }

  /** The jobs of `_generate_examples`: every listed file of every root, in root order and then listing order. */
  function Jobs(roots: seq<string>, mode: string, fs: FileSystem): (r: seq<Job>)
    ensures JobsIn(roots, r)
  {
    var parts := RootParts(roots, mode, fs);
    ConcatIn(roots, parts);
    Concat(parts)
  }

  /** Every job of every part names a root. */
  predicate PartsIn(roots: seq<string>, parts: seq<seq<Job>>) {
    forall j :: 0 <= j < |parts| ==> JobsIn(roots, parts[j])
  }

  predicate JobsIn(roots: seq<string>, jobs: seq<Job>) {
    forall k :: 0 <= k < |jobs| ==> jobs[k].rootIndex < |roots|
  }

  /**
   * The example for one file with counter value `guid`. Unreadable JSON fails
   * at once; otherwise the image path is resolved (which fails with a single
   * root), and only then are the document's keys read.
   */
  function MakeExample(roots: seq<string>, mode: string, fs: FileSystem, job: Job, guid: nat): Result<Example, Failure>
    requires job.rootIndex < |roots|
  {
    var root := roots[job.rootIndex];
    var file := job.file;
    var filePath := Join(AnnotationDir(root, mode), file.name);
    if file.content.Unparsable? then Err(MalformedAnnotation(filePath))
    else
      var image := ResolveImagePath(roots, job.rootIndex, mode, fs.files, file.name);
      if image.Err? then Err(image.error)
      else if file.content.MissingKeys? then Err(MalformedAnnotation(filePath))
      else
        var doc := file.content.doc;
        var t := Extract(doc.validLine);
        Ok(Example(guid, Record(NatToString(guid), t.tokens, t.bboxes, t.nerTags, image.value, ReorderRoi(doc.roi))))
  }

  /**
   * A transcoded file is keyed by the counter, its id is the counter in
   * decimal, and it has as many tokens as boxes and tags.
   */
  lemma ExampleFields(roots: seq<string>, mode: string, fs: FileSystem, job: Job, guid: nat)
    requires job.rootIndex < |roots|
    ensures var r := MakeExample(roots, mode, fs, job, guid);
      r.Ok? ==> && r.value.key == guid && r.value.record.id == NatToString(guid)
                && |r.value.record.tokens| == |r.value.record.bboxes| == |r.value.record.nerTags|
  {
  }

  /** How one file is transcoded, given the counter value. */
  type Transcoder = (Job, nat) -> Result<Example, Failure>

  /**
   * `MakeExample` for the given roots. A job naming no root fails as indexing
   * past the end of `filepaths` does; no job of `Jobs` names one.
   */
  function Transcode(roots: seq<string>, mode: string, fs: FileSystem): Transcoder {
    (job: Job, guid: nat) =>
      if job.rootIndex < |roots| then MakeExample(roots, mode, fs, job, guid)
      else Err(RootIndexOutOfRange(job.rootIndex))
  }

  /** One step of the generator: the next job's example, or the error that ends it. */
  function Step(make: Transcoder, g: Generated, job: Job): Generated {
    if g.failure.Some? then g
    else match make(job, |g.examples|)
      case Ok(e) => Generated(g.examples + [e], None)
      case Err(f) => Generated(g.examples, Some(f))
  }

  /**
   * Transcodes the jobs in order after what `g` has yielded; the counter is
   * the number of examples already yielded, and nothing follows a failure.
   */
  function RunFrom(make: Transcoder, g: Generated, jobs: seq<Job>): Generated
    decreases |jobs|
  {
    if jobs == [] then g
    else RunFrom(make, Step(make, g, jobs[0]), jobs[1..])
  }

  /** Everything `_generate_examples(filepaths=roots, mode=mode)` yields. */
  function Generate(roots: seq<string>, mode: string, fs: FileSystem): Generated {
    RunFrom(Transcode(roots, mode, fs), Generated([], None), Jobs(roots, mode, fs))
  }

  // ---------------------------------------------------------------------
  // The generator itself
  // ---------------------------------------------------------------------

  /**
   * The body of the inner loop for one annotation file, once the counter has
   * been advanced to `guid`: load it, derive its image path (falling back to
   * the other root), reorder its ROI and extract its tokens.
   */
  method TranscodeFile(roots: seq<string>, i: nat, mode: string, fs: FileSystem, file: AnnFile, guid: nat)
    returns (r: Result<Example, Failure>)
    requires i < |roots|
    ensures r == MakeExample(roots, mode, fs, Job(i, file), guid)
  {
    var filepath := roots[i];
    var annDir := Join(filepath + mode, "json");
    var imgDir := Join(filepath + mode, "image");
    var filePath := Join(annDir, file.name);
    if file.content.Unparsable? {
      return Err(MalformedAnnotation(filePath));
    }

    var imagePath := Join(imgDir, file.name);
    imagePath := ReplaceAll(imagePath, "json", "png");
    if imagePath !in fs.files {
      var otherDirIdx := OtherRootIndex(IndexOf(roots, filepath));
      if otherDirIdx >= |roots| {
        return Err(RootIndexOutOfRange(otherDirIdx));
      }
      imagePath := ReplaceAll(imagePath, filepath, roots[otherDirIdx]);
    }
    assert ResolveImagePath(roots, i, mode, fs.files, file.name) == Ok(imagePath);

    if file.content.MissingKeys? {
      return Err(MalformedAnnotation(filePath));
    }
    var data := file.content.doc;
    var roi := ReorderRoi(data.roi);
    var tokens, bboxes, nerTags := ExtractTokens(data.validLine);
    r := Ok(Example(guid, Record(NatToString(guid), tokens, bboxes, nerTags, imagePath, roi)));
  }

  /**
   * The inner loop of `_generate_examples` over the listing of root `i`:
   * the counter goes up before each file, and the first error ends it.
   */
  method GenerateRoot(roots: seq<string>, i: nat, mode: string, fs: FileSystem, examples0: seq<Example>, guid0: int)
    returns (examples: seq<Example>, failure: Option<Failure>, guid: int)
    requires i < |roots| && AnnotationDir(roots[i], mode) in fs.listings
    requires guid0 == |examples0| - 1
    ensures failure.None? ==> guid == |examples| - 1
    ensures Generated(examples, failure) == RunFrom(Transcode(roots, mode, fs), Generated(examples0, None), RootJobs(roots, mode, fs, i))
  {
    var listing := fs.listings[Join(roots[i] + mode, "json")];
    ghost var own := RootJobs(roots, mode, fs, i);
    examples, failure, guid := examples0, None, guid0;
    var k := 0;
    while k < |listing|
      invariant 0 <= k <= |listing|
      invariant guid == |examples| - 1
      invariant RunFrom(Transcode(roots, mode, fs), Generated(examples, None), own[k..]) == RunFrom(Transcode(roots, mode, fs), Generated(examples0, None), own)
    {
      guid := guid + 1;
      assert own[k] == Job(i, listing[k]) && own[k..][1..] == own[k + 1..];
      var r := TranscodeFile(roots, i, mode, fs, listing[k], guid);
      if r.Err? {
        failure := Some(r.error);
        FailureEndsGeneration(Transcode(roots, mode, fs), Generated(examples, failure), own[k + 1..]);
        return;
      }
      examples := examples + [r.value];
      k := k + 1;
    }
  }

  /**
   * The outer loop of `_generate_examples`: a counter starting at -1 and
   * shared by all roots, and a root without an annotation directory skipped.
   */
  method GenerateExamples(roots: seq<string>, mode: string, fs: FileSystem) returns (examples: seq<Example>, failure: Option<Failure>)
    ensures Generated(examples, failure) == Generate(roots, mode, fs)
  {
    var guid := -1;
    examples, failure := [], None;
    ghost var parts := RootParts(roots, mode, fs);
    assert parts[0..] == parts;
    var i := 0;
    while i < |roots|
      invariant 0 <= i <= |roots|
      invariant guid == |examples| - 1 && failure == None
      invariant RunFrom(Transcode(roots, mode, fs), Generated(examples, None), Concat(parts[i..])) == Generate(roots, mode, fs)
    {
      var annDir := Join(roots[i] + mode, "json");
      ghost var g := Generated(examples, None);
      ghost var later := Concat(parts[i + 1..]);
      assert parts[i..][1..] == parts[i + 1..];
      assert Concat(parts[i..]) == RootJobs(roots, mode, fs, i) + later;
      RunFromAppend(Transcode(roots, mode, fs), g, RootJobs(roots, mode, fs, i), later);
      if annDir !in fs.listings {
        i := i + 1;
        continue;
      }
      examples, failure, guid := GenerateRoot(roots, i, mode, fs, examples, guid);
      if failure.Some? {
        FailureEndsGeneration(Transcode(roots, mode, fs), Generated(examples, failure), later);
        assert Generated(examples, failure) == Generate(roots, mode, fs);
        return;
      }
      i := i + 1;
    }
    assert parts[i..] == [];
    assert RunFrom(Transcode(roots, mode, fs), Generated(examples, None), []) == Generated(examples, None);
  }

  /** Transcoding two runs of jobs one after the other is transcoding them together. */
  lemma {:induction false} RunFromAppend(make: Transcoder, g: Generated, a: seq<Job>, b: seq<Job>)
    ensures RunFrom(make, g, a + b) == RunFrom(make, RunFrom(make, g, a), b)
    decreases |a|
  {
    if a == [] {
      assert a + b == b;
    } else {
      assert (a + b)[1..] == a[1..] + b;
      RunFromAppend(make, Step(make, g, a[0]), a[1..], b);
    }
  }

  /** Once a failure is reported, the remaining jobs change nothing. */
  lemma {:induction false} FailureEndsGeneration(make: Transcoder, g: Generated, jobs: seq<Job>)
    requires g.failure.Some?
    ensures RunFrom(make, g, jobs) == g
  {
    if jobs != [] {
      FailureEndsGeneration(make, g, jobs[1..]);
    }
  }

  // ---------------------------------------------------------------------
  // What the generator yields
  // ---------------------------------------------------------------------

  /** Running more jobs keeps the examples yielded so far and adds at most one per job. */
  lemma {:induction false} RunFromExtends(make: Transcoder, g: Generated, jobs: seq<Job>)
    ensures var r := RunFrom(make, g, jobs);
      |g.examples| <= |r.examples| <= |g.examples| + |jobs| && r.examples[..|g.examples|] == g.examples
    decreases |jobs|
  {
    if jobs != [] {
      var g' := Step(make, g, jobs[0]);
      RunFromExtends(make, g', jobs[1..]);
      var r := RunFrom(make, g', jobs[1..]);
      assert r.examples[..|g.examples|] == r.examples[..|g'.examples|][..|g.examples|];
    }
  }

  /**
   * After `n` examples without failure, the example at position `k` is the
   * transcoding of job `k - n` with counter value `k`.
   */
  lemma {:induction false} RunFromExamples(make: Transcoder, g: Generated, jobs: seq<Job>)
    requires g.failure.None?
    ensures var r := RunFrom(make, g, jobs);
      forall k :: |g.examples| <= k < |r.examples| ==>
        k - |g.examples| < |jobs| && make(jobs[k - |g.examples|], k) == Ok(r.examples[k])
    decreases |jobs|
  {
    var n := |g.examples|;
    if jobs != [] {
      var m := make(jobs[0], n);
      var g' := Step(make, g, jobs[0]);
      var r := RunFrom(make, g', jobs[1..]);
      assert RunFrom(make, g, jobs) == r;
      if m.Err? {
        assert g'.examples == g.examples;
        FailureEndsGeneration(make, g', jobs[1..]);
      } else {
        assert g'.examples == g.examples + [m.value] && g'.failure.None?;
        RunFromExamples(make, g', jobs[1..]);
        RunFromExtends(make, g', jobs[1..]);
        forall k | n <= k < |r.examples|
          ensures k - n < |jobs| && make(jobs[k - n], k) == Ok(r.examples[k])
        {
          if k == n {
            assert r.examples[k] == r.examples[..n + 1][n];
          } else {
            assert jobs[k - n] == jobs[1..][k - (n + 1)];
          }
        }
      }
    }
  }

  /**
   * After `n` examples without failure, a failure is reported exactly when
   * some job was not turned into an example, and it is the error of the
   * first such job.
   */
  lemma {:induction false} RunFromFailure(make: Transcoder, g: Generated, jobs: seq<Job>)
    requires g.failure.None?
    ensures var r := RunFrom(make, g, jobs);
      && (r.failure.None? <==> |r.examples| == |g.examples| + |jobs|)
      && (r.failure.Some? ==>
            |g.examples| <= |r.examples| < |g.examples| + |jobs| &&
            make(jobs[|r.examples| - |g.examples|], |r.examples|) == Err(r.failure.value))
    decreases |jobs|
  {
    var n := |g.examples|;
    if jobs != [] {
      var m := make(jobs[0], n);
      var g' := Step(make, g, jobs[0]);
      var r := RunFrom(make, g', jobs[1..]);
      if m.Err? {
        FailureEndsGeneration(make, g', jobs[1..]);
      } else {
        assert g'.examples == g.examples + [m.value] && g'.failure.None?;
        RunFromFailure(make, g', jobs[1..]);
        RunFromExtends(make, g', jobs[1..]);
        if r.failure.Some? {
          assert jobs[|r.examples| - n] == jobs[1..][|r.examples| - (n + 1)];
        }
      }
    }
  }

  /**
   * Example `k` is the transcoding of the `k`-th file with counter value `k`;
   * the failure, if any, is the error of the first file that could not be
   * transcoded; and without a failure every file yields one example.
   */
  lemma GenerateYields(roots: seq<string>, mode: string, fs: FileSystem)
    ensures var r := Generate(roots, mode, fs);
      var jobs := Jobs(roots, mode, fs);
      && |r.examples| <= |jobs|
      && (forall k :: 0 <= k < |r.examples| ==> MakeExample(roots, mode, fs, jobs[k], k) == Ok(r.examples[k]))
      && (r.failure.None? <==> |r.examples| == |jobs|)
      && (r.failure.Some? ==> MakeExample(roots, mode, fs, jobs[|r.examples|], |r.examples|) == Err(r.failure.value))
  {
    var make, jobs := Transcode(roots, mode, fs), Jobs(roots, mode, fs);
    var r := RunFrom(make, Generated([], None), jobs);
    RunFromExtends(make, Generated([], None), jobs);
    RunFromExamples(make, Generated([], None), jobs);
    RunFromFailure(make, Generated([], None), jobs);
    forall k | 0 <= k < |r.examples|
      ensures MakeExample(roots, mode, fs, jobs[k], k) == Ok(r.examples[k])
    {
      assert make(jobs[k], k) == Ok(r.examples[k]);
      assert jobs[k].rootIndex < |roots|;
    }
    if r.failure.Some? {
      assert jobs[|r.examples|].rootIndex < |roots|;
    }
  }

  /**
   * The keys of the yielded examples are 0, 1, 2, ... and each record's id is
   * its key written in decimal, so no two records share an id; every record
   * has as many tokens as boxes and tags.
   */
  lemma GeneratedKeys(roots: seq<string>, mode: string, fs: FileSystem)
    ensures var r := Generate(roots, mode, fs);
      && (forall k :: 0 <= k < |r.examples| ==> r.examples[k].key == k && r.examples[k].record.id == NatToString(k))
      && (forall j, k :: 0 <= j < k < |r.examples| ==> r.examples[j].record.id != r.examples[k].record.id)
      && (forall k :: 0 <= k < |r.examples| ==>
            |r.examples[k].record.tokens| == |r.examples[k].record.bboxes| == |r.examples[k].record.nerTags|)
  {
    var r := Generate(roots, mode, fs);
    var jobs := Jobs(roots, mode, fs);
    GenerateYields(roots, mode, fs);
    forall k | 0 <= k < |r.examples|
      ensures r.examples[k].key == k && r.examples[k].record.id == NatToString(k)
      ensures |r.examples[k].record.tokens| == |r.examples[k].record.bboxes| == |r.examples[k].record.nerTags|
    {
      ExampleFields(roots, mode, fs, jobs[k], k);
    }
    forall j, k | 0 <= j < k < |r.examples|
      ensures r.examples[j].record.id != r.examples[k].record.id
    {
      NatToStringInjective(j, k);
    }
  }

  /**
   * The number of files listed in the annotation directories of the roots
   * before root `j`; a root without an annotation directory counts none.
   */
  function FilesBefore(roots: seq<string>, mode: string, fs: FileSystem, j: nat): nat
    requires j <= |roots|
  {
    if j == 0 then 0
    else
      var annDir := AnnotationDir(roots[j - 1], mode);
      FilesBefore(roots, mode, fs, j - 1) + (if annDir in fs.listings then |fs.listings[annDir]| else 0)
  }

  /** Concatenating parts whose jobs all name a root gives jobs that do. */
  lemma {:induction false} ConcatIn(roots: seq<string>, parts: seq<seq<Job>>)
    requires PartsIn(roots, parts)
    ensures JobsIn(roots, Concat(parts))
  {
    if parts != [] {
      assert forall j :: 0 <= j < |parts| - 1 ==> parts[1..][j] == parts[j + 1];
      ConcatIn(roots, parts[1..]);
      assert JobsIn(roots, parts[0]);
    }
  }

  /** There are as many jobs as the parts hold together. */
  lemma {:induction false} ConcatLength(parts: seq<seq<Job>>)
    ensures |Concat(parts)| == Size(parts)
  {
    if parts != [] {
      ConcatLength(parts[1..]);
    }
  }

  /** Job `n` of part `j` comes after all the jobs of the parts before it. */
  lemma {:induction false} ConcatAt(parts: seq<seq<Job>>, j: nat, n: nat)
    requires j < |parts| && n < |parts[j]|
    ensures Size(parts[..j]) + n < |Concat(parts)| && Concat(parts)[Size(parts[..j]) + n] == parts[j][n]
  {
    ConcatLength(parts);
    if j == 0 {
      assert parts[..0] == [];
    } else {
      ConcatAt(parts[1..], j - 1, n);
      assert parts[1..][..j - 1] == parts[..j][1..];
      assert parts[1..][j - 1] == parts[j];
      ConcatLength(parts[1..]);
    }
  }

  /** Taking one more part adds its jobs to the size. */
  lemma {:induction false} SizeOfLongerPrefix(parts: seq<seq<Job>>, j: nat)
    requires j < |parts|
    ensures Size(parts[..j + 1]) == Size(parts[..j]) + |parts[j]|
  {
    if j == 0 {
      assert parts[..1][1..] == [];
    } else {
      SizeOfLongerPrefix(parts[1..], j - 1);
      assert parts[..j + 1][1..] == parts[1..][..j];
      assert parts[..j][1..] == parts[1..][..j - 1];
    }
  }

  /** The files before root `j` are the jobs of the roots before it. */
  lemma {:induction false} FilesBeforeCountsJobs(roots: seq<string>, mode: string, fs: FileSystem, j: nat)
    requires j <= |roots|
    ensures FilesBefore(roots, mode, fs, j) == Size(RootParts(roots, mode, fs)[..j])
  {
    if j > 0 {
      FilesBeforeCountsJobs(roots, mode, fs, j - 1);
      SizeOfLongerPrefix(RootParts(roots, mode, fs), j - 1);
    }
  }

  /**
   * The counter runs on across roots: file `k` of root `j`'s listing gets the
   * key `FilesBefore(j) + k`, so a root without an annotation directory uses
   * no keys. Its example, if generation got that far, is its transcoding
   * with that key; without a failure it always gets that far, and
   * there is one example per listed file.
   */
  lemma FileKey(roots: seq<string>, mode: string, fs: FileSystem, j: nat, k: nat)
    requires j < |roots|
    requires AnnotationDir(roots[j], mode) in fs.listings
    requires k < |fs.listings[AnnotationDir(roots[j], mode)]|
    ensures var r := Generate(roots, mode, fs);
      var key := FilesBefore(roots, mode, fs, j) + k;
      var file := fs.listings[AnnotationDir(roots[j], mode)][k];
      && (key < |r.examples| ==> MakeExample(roots, mode, fs, Job(j, file), key) == Ok(r.examples[key]))
      && (r.failure.None? ==> key < |r.examples| == FilesBefore(roots, mode, fs, |roots|))
  {
    var parts := RootParts(roots, mode, fs);
    ConcatAt(parts, j, k);
    FilesBeforeCountsJobs(roots, mode, fs, j);
    FilesBeforeCountsJobs(roots, mode, fs, |roots|);
    assert parts[..|roots|] == parts;
    ConcatLength(parts);
    GenerateYields(roots, mode, fs);
  }
}

# CORD example generator, modelled in Dafny

This project models `Cord._generate_examples` from the CORD receipt-dataset
loader (`cord.py`). That generator turns the dataset's JSON annotation files
into flat training records. It takes a list of download roots and a split
directory (`mode`, such as `/CORD/train`) and works as follows:

- It visits every root whose `<root><mode>/json` directory exists.
- Within a root, it visits that directory's files in sorted filename order.
- Each file yields one record, keyed by a counter. The counter starts at -1,
  is advanced before each file and is shared by all roots.
- A record holds four things:
  - its id, which is the counter in decimal;
  - the `tokens`, `bboxes` and `ner_tags` lists, flattened from the nested
    `valid_line` → `words` structure, with words whose text is empty skipped;
  - the image path, which is the joined path with every `"json"` replaced by
    `"png"`. When that file does not exist, every occurrence of the root is
    replaced by the root at index `int(not (i + 2) % 2)`;
  - the ROI reordered into four `[x, y]` points, or `[]`.

The files and what each one holds:

- `wrappers.dfy` holds `Option` and `Result`.
- `pystrings.dfy` holds Python's `str(n)`, `str.replace` (including the empty
  pattern) and `posixpath.join` for two parts, with their properties.
- `annotation.dfy` holds the data. It has the parsed annotation (`Quad`,
  `Word`, `LineItem`, `Roi`, `Doc`) and the outcome of loading a file
  (`Content`: not JSON, lacking a key, or parsed). It also has the file system
  as the generator sees it (`FileSystem`: each existing annotation directory
  with its already sorted listing, plus the set of existing paths), the
  record, and the two ways generation stops early (`Failure`).
- `roi.dfy` reorders the ROI.
- `extraction.dfy` holds the two nested append loops as methods. The inner
  loop over a line item's words is proved to append exactly
  `ExtractWords(item.category, item.words)` to the lists it is given. The
  outer loop over `valid_line` is proved equal to the function `Extract`.
  `Extract` is in turn related to an independent description: the projection
  of the non-empty words, flattened.
- `imagepath.dfy` holds the image path and its fallback.
- `generator.dfy` holds the generator as three methods:
  - the outer loop over roots;
  - the inner loop over a listing;
  - the body for one file.

  They are proved equal to the functional description `Generate`, which runs
  a transcoding function over the list of jobs, root by root. The lemmas say
  what the yielded examples are: their keys, their ids, which file each came
  from, and where generation stops.

The exceptions the model keeps are raised in three places:

- `json.load`;
- the key lookups on the loaded document;
- `filepaths[other_dir_idx]` when there is only one root.

Each of these ends the generator. The model returns the examples yielded so
far together with a `Failure`, and checks them in the code's order: loading,
then the image path, then the keys.

## Model

| member | source | states |
|---|---|---|
| Generator.Generate | cord.py:124-184 | The definition the generator is proved against: the files of all roots are transcoded in order, the counter for each is the number of examples yielded before it, and the first error ends generation. |
| Generator.MakeExample | cord.py:134-184 | The definition of one file's outcome: unparsable content fails first; then the image path is resolved, failing with the index error for a single root; then missing keys fail; otherwise the record has id `str(guid)`, the extracted lists, the image path and the reordered ROI. |
| Generator.GenerateExamples | cord.py:124-184 | The outer loop yields exactly `Generate(roots, mode, fs)`: the counter starts at -1 and is shared by all roots, and a root without a `json` directory is skipped. |
| Generator.GenerateRoot | cord.py:133-184 | The loop over one listing continues the run from the examples so far; the counter stays one below the number of examples while no failure has occurred. |
| Generator.TranscodeFile | cord.py:134-184 | The body for one file computes `MakeExample` for its job and counter: load failure, then image path, then key lookups, then the record. |
| Generator.RootJobs | cord.py:129-133 | A root whose annotation directory is missing contributes no files; otherwise it contributes its listing, in order. |
| Generator.Jobs | cord.py:126-133 | The files to transcode: every listed file of every root that has a `json` directory, in root order and then listing order (`FileKey` gives each file's position); every one names one of the roots. |
| Generator.ExampleFields | cord.py:177-184 | A transcoded file has key equal to the counter and id equal to the counter in decimal, and as many tokens as boxes and tags. |
| Generator.GenerateYields | cord.py:124-184 | Example `k` is the transcoding of the `k`-th file with counter `k`; without a failure there is one example per file; a failure is the error of the first file not transcoded. |
| Generator.GeneratedKeys | cord.py:125-184 | The keys are 0, 1, 2, … in order, ids are the keys in decimal and pairwise distinct, and every record's three lists have equal length. |
| Generator.FileKey | cord.py:125-134 | File `k` of root `j` gets key `FilesBefore(j) + k`, so the counter is not reset between roots and a missing root uses no keys; without a failure every listed file is yielded. |
| Generator.RunFromAppend | cord.py:126-134 | Running two consecutive batches of files is running them together, which lets the counter carry over from one root to the next. |
| Generator.FailureEndsGeneration | cord.py:140-149 | After an exception, no further file is transcoded. |
| Generator.RunFromExtends | cord.py:133-184 | Further files keep the examples already yielded and add at most one each. |
| Generator.RunFromExamples | cord.py:133-184 | After `n` examples, example `k` comes from file `k - n` with counter `k`. |
| Generator.RunFromFailure | cord.py:133-184 | A failure is reported exactly when some file yielded no example, and it is that file's error. |
| RegionOfInterest.ReorderRoi | cord.py:151-159 | A present ROI becomes four points, which are corners 1, 2, 3 and 4 (top-left, top-right, bottom-right, bottom-left); a null or empty one becomes `[]`, and only that one does. A document without a `"roi"` key is a `MalformedAnnotation`, raised at the lookup. |
| RegionOfInterest.ReorderRoiRoundTrip | cord.py:152-159 | Every corner of the ROI can be read back from the polygon, so no coordinate is lost or swapped. |
| RegionOfInterest.ReorderSquareRoi | cord.py:152-157 | A square ROI becomes `[[0,0],[10,0],[10,10],[0,10]]`. |
| Extraction.ExtractTokens | cord.py:162-182 | The outer loop over `valid_line` builds exactly `Extract(lines)`. |
| Extraction.ExtractLineItem | cord.py:163-182 | The inner loop over `words`, with its `continue`, appends exactly what the words of one line item contribute. |
| Extraction.ExtractWords | cord.py:163-182 | One line item yields aligned lists, no longer than its words, whose tokens are non-empty, boxes have four numbers and tags are its category. |
| Extraction.Extract | cord.py:162-182 | The three lists are aligned, every token is non-empty and every box has four numbers. |
| Extraction.Box | cord.py:168-173 | A box has four numbers. |
| Extraction.ExtractIsProjectOfKept | cord.py:162-182 | The three lists are the texts, boxes and categories of the kept words (non-empty text), in line-item order and then word order. |
| Extraction.ExtractWordsIsProjectOfKept | cord.py:163-182 | The same for the words of one line item. |
| Extraction.ExtractFollowsKeptWords | cord.py:162-182 | The `k`-th token, box and tag come from the `k`-th kept word: its text, its `[x1, y1, x3, y3]`, and its line item's category; all three lists are as long as the kept words. |
| Extraction.KeptWordsMembership | cord.py:162-178 | A word is kept, under a category, exactly when its text is non-empty and it is a word of a line item with that category. |
| Extraction.KeptMembership | cord.py:176-178 | The filter keeps exactly the words with non-empty text. |
| Extraction.TagMembership | cord.py:163-182 | The words of a line item are tagged with its category and nothing else. |
| Extraction.FlattenMembership | cord.py:162-163 | The flattened words are exactly the words of the line items, each with its line item's category. |
| Extraction.ExtractAppend | cord.py:162 | Consecutive runs of line items contribute consecutive runs of the three lists. |
| Extraction.EmptyWordsContributeNothing | cord.py:176-178 | Deleting every word with empty text changes none of the three lists. |
| Extraction.ExtractWordsOfNonEmpty | cord.py:176-178 | The same for the words of one line item. |
| Extraction.ExtractIgnoresUnusedCorners | cord.py:168-173 | Corners (x2, y2) and (x4, y4) of a word's quad never affect the result. |
| Extraction.ExtractWordsIgnoresUnusedCorners | cord.py:168-173 | The same for the words of one line item. |
| ImagePaths.AnnotationDir | cord.py:127-129 | The definition `os.path.join(root + mode, "json")`. |
| ImagePaths.ImageDir | cord.py:127-132 | The definition `os.path.join(root + mode, "image")`. |
| ImagePaths.CandidateImagePath | cord.py:143-144 | The definition: the image directory joined with the annotation file name, with every `"json"` replaced by `"png"`. |
| ImagePaths.ResolveImagePath | cord.py:143-149 | The definition: the candidate when it exists; otherwise, with the other index `int(not (filepaths.index(root) + 2) % 2)`, the index error when that index is past the last root, and else the candidate with every occurrence of the root replaced by that root. |
| ImagePaths.IndexOf | cord.py:147 | `filepaths.index(filepath)` is the position of the first occurrence of the root. |
| ImagePaths.IndexOfDistinct | cord.py:147 | With two distinct roots, the index of root `i` is `i`. |
| ImagePaths.OtherRootIndex | cord.py:147 | `int(not (i + 2) % 2)` is 1 for an even index and 0 for an odd one, so it flips 0 and 1. |
| ImagePaths.ResolveImagePathCases | cord.py:143-149 | An existing candidate is kept. Otherwise resolution fails exactly when there is a single root (index 1 out of range); with more roots, the root is replaced by the root at the index of the other parity, without checking again that the file exists. |
| ImagePaths.CandidateImagePathShape | cord.py:143-144 | The candidate is root, mode, `/image/` and file name, each with its own `"json"` occurrences replaced. |
| ImagePaths.ImagePathJoined | cord.py:143 | The joined image path is root, mode, `image` and file name separated by `/`. |
| ImagePaths.ReplaceAllOverImagePath | cord.py:143-144 | Replacing a pattern without `/` acts on each part of the image path on its own. |
| ImagePaths.JsonExtensionBecomesPng | cord.py:144 | A name `x.json` whose stem has no `"json"` becomes `x.png`. |
| ImagePaths.JsonInsideNameIsReplacedToo | cord.py:144 | The replacement is literal: `jsonx.json` becomes `pngx.png`. |
| ImagePaths.MissingImageMovesToOtherRoot | cord.py:146-149 | With two distinct roots, a missing image under either root is looked up at the same place under the other root. |
| ImagePaths.MissingImageUnderRoot | cord.py:146-149 | A missing candidate that starts with the root, and has no other occurrence of it, moves to the other root. |
| PyStrings.NatToString | cord.py:184 | `str(guid)` is non-empty and all digits, has no leading zero, and has one digit exactly for values below 10. |
| PyStrings.DigitsToNatOfNatToString | cord.py:184 | Reading the id back as a number gives the counter. |
| PyStrings.NatToStringInjective | cord.py:184 | Distinct counter values give distinct ids. |
| PyStrings.ReplaceAll | cord.py:144 | The definition of `s.replace(pat, rep)`: scanning left to right, each occurrence of a non-empty pattern that does not overlap one already replaced becomes `rep`; the empty pattern goes through `InsertEverywhere`. |
| PyStrings.InsertEverywhere | cord.py:148-149 | `s.replace("", rep)` is `rep` for an empty `s`, starts with `rep`, and its length is the length of `s` plus one copy of `rep` per character of `s` and one more. |
| PyStrings.InsertEverywhereSnoc | cord.py:148-149 | Adding a character at the end of `s` adds that character and one more `rep` at the end of the result; with the empty case this places `rep` before every character and at the end, with the characters of `s` in order. |
| PyStrings.ReplaceAllWithoutOccurrence | cord.py:144 | A string without the pattern is left unchanged. |
| PyStrings.ReplaceAllOfPattern | cord.py:144 | The pattern on its own becomes the replacement. |
| PyStrings.ReplaceAllAfterMatch | cord.py:144 | A leading occurrence is replaced, and scanning resumes right after it. |
| PyStrings.ReplaceAllLeadingOccurrence | cord.py:148-149 | A leading root with no later occurrence is the only part replaced. |
| PyStrings.ReplaceAllAroundSeparator | cord.py:144 | No occurrence straddles a character that is not in the pattern, so replacement splits there. |
| PyStrings.ReplaceAllOfSuffix | cord.py:144 | A trailing occurrence after a separator is the only one replaced in a string that has no other. |
| PyStrings.LacksFirstCharacter | cord.py:144 | A string lacking the pattern's first character does not contain the pattern. |
| PyStrings.Join | cord.py:129 | The definition of `posixpath.join(a, b)`: an absolute `b` replaces `a`; otherwise `a` and `b` are joined with one `/`, unless `a` is empty or already ends in `/`. |
| PyStrings.JoinShape | cord.py:143 | `os.path.join(a, b)` is `b` when `b` is absolute. Otherwise it starts with `a` and ends with `b`; it is exactly `a + b` when `a` is empty or ends in `/`, and `a`, one `/` and `b` otherwise. |

## Left out

- Downloading and extracting the archives (`gdrive_downloader`, `_split_generators`) is not part of this model; it is network and archive I/O. The roots and the mode are inputs.
- `_info`, `CordConfig` and the 29-label `ClassLabel` vocabulary are library registration metadata, and the generator never checks tags against them.
- `os.path.exists`, `os.listdir`, `sorted`, `open` and `json.load` are file-system and parsing I/O. They become inputs:
  - each existing annotation directory with its listing, given already in sorted order;
  - the set of existing paths;
  - each file's content, already parsed or marked unparsable.
- Decoding errors, invalid JSON and missing keys are collapsed into one `MalformedAnnotation` failure. The model keeps where each is raised; the Python exception classes are not modelled.
- A wrongly typed value that the code indexes into or takes the length of raises an exception there and counts as a `MalformedAnnotation`. This covers `data`, a truthy `roi`, an element of `valid_line` or of `words`, a word's `quad`, and a `text` on which `len` fails (a number, null or a boolean).
- A falsy `roi` value of any type becomes `[]`, as a null one does, and the model reads it as no ROI. A document without a `"roi"` key raises at `data["roi"]` and is a `MalformedAnnotation`. An empty container of any type under `valid_line` or `words` is read as an empty list.
- Wrongly typed values that the code only copies raise nothing in the code, which yields a record holding them. This covers a line item's `category`, a word's x1/y1/x3/y3, the ROI's coordinates, and a list or object `text`. The model has no such documents, because categories and texts are strings and coordinates are integers (so JSON floats are not modelled either).
- `os.listdir` failing on an existing `json` path (cord.py:133), for instance one that is a file or cannot be read, is not modelled: every annotation directory in `listings` has a listing.
- A listed entry that `open` cannot read (cord.py:140), such as a subdirectory or an unreadable file, is an `Unparsable` file and fails at the same point.
- `logger.info` is logging only.
- The lazy generator is modelled as the finite list of examples it yields before it finishes or raises. A consumer that stops early is not modelled.
- Generator.GenerateRoot: does not state the counter's value after a failure, because generation ends there and the counter is never read again.
- The branch of `Generator.Transcode` for a job naming no root fails with an index error. No job built from the listings names one, so that branch only completes the function.
- Described informally, the fallback root is `other = 1 - current`. The code computes `int(not (filepaths.index(filepath) + 2) % 2)`, which differs for more than two roots and for repeated roots (the first occurrence is used). The model follows the code, in `ImagePaths.OtherRootIndex` and `ImagePaths.IndexOf`.

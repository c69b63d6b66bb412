/**
 * The data the transcoder reads and writes: a parsed CORD annotation file,
 * the file system it is found in, and the record emitted for it.
 */
module Annotation {
  import opened Wrappers

  /** The four corners of a word, as stored under the word's "quad" key. */
  datatype Quad = Quad(x1: int, y1: int, x2: int, y2: int, x3: int, y3: int, x4: int, y4: int)

  /** One entry of a line item's "words" list. */
  datatype Word = Word(text: string, quad: Quad)

  /** One entry of "valid_line": a category tag shared by its words. */
  datatype LineItem = LineItem(category: string, words: seq<Word>)

  /** The document's region of interest, as stored under "roi" when it is a non-empty object. */
  datatype Roi = Roi(x1: int, y1: int, x2: int, y2: int, x3: int, y3: int, x4: int, y4: int)

  /** A parsed annotation; `roi` is None when the "roi" value is null or empty. */
  datatype Doc = Doc(roi: Option<Roi>, validLine: seq<LineItem>)

  /**
   * What loading an annotation file yields: a file that cannot be opened or
   * read, or text that is not JSON (or not UTF-8); JSON that lacks a key the
   * transcoder reads; or a document.
   */
  datatype Content = Unparsable | MissingKeys | Parsed(doc: Doc)

  /** One entry of an annotation directory listing. */
  datatype AnnFile = AnnFile(name: string, content: Content)

  /**
   * The part of the file system the transcoder looks at: each existing
   * annotation directory with its listing, already in sorted filename order,
   * and the set of paths that exist.
   */
  datatype FileSystem = FileSystem(listings: map<string, seq<AnnFile>>, files: set<string>)

  /** The emitted record; boxes are [x1, y1, x3, y3], ROI points are [x, y]. */
  datatype Record = Record(
    id: string,
    tokens: seq<string>,
    bboxes: seq<seq<int>>,
    nerTags: seq<string>,
    imagePath: string,
    roi: seq<seq<int>>)

  /** What the generator yields: the key `guid` together with the record. */
  datatype Example = Example(key: nat, record: Record)

  /** Why generation stops early. */
  datatype Failure =
    | MalformedAnnotation(filePath: string)  // json.load fails or a key lookup fails
    | RootIndexOutOfRange(index: nat)        // filepaths[other] with only one root
}

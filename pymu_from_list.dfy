/** The PyMuPDF list driver (`pymu/utils/01_pymu_pdf_to_text_from_list.py`): the same cache,
    preload and selection as the directory driver, a worker whose key always agrees with the
    selection's, a plain `min` page count, and an optional file of base names that replaces the
    directory scan. */
module PymuFromList {
  import opened Strings
  import opened Paths
  import opened Seqs
  import opened Pages
  import opened PymuCache

  datatype Option<T> = None | Some(value: T)

  /** `min(pages_to_extract, total_pages)`, with no special case for a negative request. */
  function PagesToExtract(requested: int, total: nat): (n: int)
    ensures n <= total && n <= requested
    ensures n == requested || n == total
  {
    if requested < total then requested else total
  }

  /** What opening the PDF and extracting its pages yields. */
  function Extract(pdf: Pdf, pages: int): Extraction
  {
    match pdf
    case Unreadable(e) => Raised(e)
    case Parsed(ps) => Text(PageText(ps, PagesToExtract(pages, |ps|)))
  }

  /** A request for no pages, or a negative one, still writes an output: an empty one. */
  lemma {:induction false} NonPositiveRequestWritesEmptyText(ps: seq<string>, pages: int)
    requires pages <= 0
    ensures Extract(Parsed(ps), pages) == Text("")
  {
    PageTextNoPages(ps, PagesToExtract(pages, |ps|));
  }

  /** `process_pdf`: the cache guard and the output-exists guard under the selection's own key,
      then extraction and the write. */
  method ProcessPdf(w: Workspace, path: string, pages: int, pdf: Pdf) returns (outcome: Outcome)
    modifies w
    ensures (w.State(), outcome) == GuardedStep(old(w.State()), SelectionKey(path, pages), Extract(pdf, pages))
  {
    var key := Stem(path) + "_pages" + IntToString(pages);
    assert key == SelectionKey(path, pages);
    if key in w.cache {
      return SkippedCached;
    }
    var outFile := key + ".txt";
    if outFile in w.outputs {
      w.cache := w.cache + {key};
      return SkippedExisting;
    }
    match pdf
    case Unreadable(e) =>
      outcome := Failed(e);
    case Parsed(doc) =>
      var total := |doc|;
      var n := if pages < total then pages else total;
      var text := RenderPages(doc, n);
      w.outputs := w.outputs[outFile := text];
      w.cache := w.cache + {key};
      outcome := Written(outFile);
  }

  /** A line of the file list that names a file: not blank once stripped. */
  predicate IsNameLine(line: string)
  {
    Strip(line) != []
  }

  /** `input_path / f"{name}.pdf"` for the stripped line `name`. */
  function ListedPath(inputDir: string, line: string): string
  {
    PathJoin(inputDir, Strip(line) + ".pdf")
  }

  /** The candidate paths a file list gives, in the order of its lines. */
  function ListedPaths(inputDir: string, lines: seq<string>): seq<string>
  {
    FilterMap(lines, IsNameLine, line => ListedPath(inputDir, line))
  }

  /** Blank lines are skipped, and every other line gives its path, in file order. */
  lemma ListedPathsFollowNames(inputDir: string, lines: seq<string>)
    ensures |ListedPaths(inputDir, lines)| == |Filter(lines, IsNameLine)|
    ensures forall i :: 0 <= i < |ListedPaths(inputDir, lines)| ==>
              ListedPaths(inputDir, lines)[i] == ListedPath(inputDir, Filter(lines, IsNameLine)[i])
  {
    FilterMapOfFilter(lines, IsNameLine, line => ListedPath(inputDir, line));
  }

  /** One more line of the file list adds its path unless it is blank. */
  lemma ListedPathsSnoc(inputDir: string, lines: seq<string>, i: nat)
    requires i < |lines|
    ensures ListedPaths(inputDir, lines[..i + 1])
         == ListedPaths(inputDir, lines[..i]) + (if IsNameLine(lines[i]) then [ListedPath(inputDir, lines[i])] else [])
  {
    FilterMapSnoc(lines, i, IsNameLine, line => ListedPath(inputDir, line));
  }

  /** The reading loop: `for line in f`, strip it, and append its path unless it is blank. */
  method ReadFileList(inputDir: string, lines: seq<string>) returns (pdfFiles: seq<string>)
    ensures pdfFiles == ListedPaths(inputDir, lines)
  {
    pdfFiles := [];
    var i := 0;
    while i < |lines|
      invariant 0 <= i <= |lines|
      invariant pdfFiles == ListedPaths(inputDir, lines[..i])
    {
      ListedPathsSnoc(inputDir, lines, i);
      var name := Strip(lines[i]);
      if name != [] {
        pdfFiles := pdfFiles + [PathJoin(inputDir, name + ".pdf")];
      }
      i := i + 1;
    }
    assert lines[..i] == lines;
  }

  /** A listed name without a slash is the stem of its path, so its key is `name_pagesN`. */
  lemma ListedPathKey(inputDir: string, name: string, pages: int)
    requires name != [] && '/' !in name
    ensures Stem(PathJoin(inputDir, name + ".pdf")) == name
    ensures SelectionKey(PathJoin(inputDir, name + ".pdf"), pages) == name + Label(pages)
  {
    assert name[0] != '/' by { assert name[0] in name; }
    JoinAppend(inputDir, name, ".pdf");
    FileNameOfJoin(inputDir, name);
    StemOfAppendedExtension(PathJoin(inputDir, name), ".pdf");
  }

  /** The candidates: the file list's paths when a file list is given, the directory scan
      otherwise. */
  function Candidates(inputDir: string, fileList: Option<seq<string>>, listing: seq<string>): seq<string>
  {
    match fileList
    case Some(lines) => ListedPaths(inputDir, lines)
    case None => PdfCandidates(listing)
  }

  /** The key and the extraction the worker uses for each scheduled path. */
  function WorkerKeys(pages: int): string -> string
  {
    path => SelectionKey(path, pages)
  }

  function WorkerExtractions(pages: int, open: string -> Pdf): string -> Extraction
  {
    path => Extract(open(path), pages)
  }

  /** `process_batch` with an optional file list (the lines of the file `--file_list` names, or
      `None` when that option is absent or empty). */
  method ProcessBatch(w: Workspace, inputDir: string, listing: seq<string>, fileList: Option<seq<string>>,
                      pages: int, batchSize: int, open: string -> Pdf)
    returns (scheduled: seq<string>)
    modifies w
    ensures scheduled == SliceTo(Unprocessed(Candidates(inputDir, fileList, listing), old(w.cache), pages), batchSize)
    ensures w.State() == RunTasks(old(w.State()), scheduled, WorkerKeys(pages), WorkerExtractions(pages, open))
  {
    var pdfFiles;
    if fileList.Some? {
      pdfFiles := ReadFileList(inputDir, fileList.value);
    } else {
      pdfFiles := PdfCandidates(listing);
    }
    var unprocessed := SelectUnprocessed(pdfFiles, w.cache, pages);
    scheduled := SliceTo(unprocessed, batchSize);
    var i := 0;
    while i < |scheduled|
      invariant 0 <= i <= |scheduled|
      invariant w.State() == RunTasks(old(w.State()), scheduled[..i], WorkerKeys(pages), WorkerExtractions(pages, open))
    {
      RunTasksSnoc(old(w.State()), scheduled, i, WorkerKeys(pages), WorkerExtractions(pages, open));
      var _ := ProcessPdf(w, scheduled[i], pages, open(scheduled[i]));
      i := i + 1;
    }
    assert scheduled[..i] == scheduled;
  }

  /** The script's main block: a fresh cache, preloaded from the output directory, then one batch. */
  method Run(outputs: map<string, string>, inputDir: string, listing: seq<string>, fileList: Option<seq<string>>,
             pages: int, batchSize: int, open: string -> Pdf)
    returns (scheduled: seq<string>, final: Store)
    ensures scheduled == SliceTo(Unprocessed(Candidates(inputDir, fileList, listing), PreloadKeys(outputs.Keys, pages), pages), batchSize)
    ensures final == RunTasks(Store(PreloadKeys(outputs.Keys, pages), outputs), scheduled, WorkerKeys(pages), WorkerExtractions(pages, open))
  {
    var w := new Workspace(outputs);
    w.Preload(pages);
    ghost var preloaded := Store(PreloadKeys(outputs.Keys, pages), outputs);
    assert w.State() == preloaded;
    scheduled := ProcessBatch(w, inputDir, listing, fileList, pages, batchSize, open);
    final := w.State();
  }

  /** A listed name whose output `name_pagesN.txt` exists (for any page request, negative ones
      included) is not selected again. */
  lemma ListedConvertedNotReselected(outputs: set<string>, inputDir: string, lines: seq<string>, name: string, pages: int)
    requires name != [] && '/' !in name
    requires !Occurs(name, Label(pages))
    requires OutputName(name + Label(pages)) in outputs
    ensures PathJoin(inputDir, name + ".pdf") !in Unprocessed(ListedPaths(inputDir, lines), PreloadKeys(outputs, pages), pages)
  {
    ListedPathKey(inputDir, name, pages);
    OutputSkipsSelection(outputs, ListedPaths(inputDir, lines), PathJoin(inputDir, name + ".pdf"), pages);
  }
}

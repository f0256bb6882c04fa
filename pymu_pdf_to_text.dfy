/** The PyMuPDF directory driver (`pymu/01_pymu_pdf_to_text.py`): keys labelled `all` for a
    negative page request, pages clamped to the document, a sorted directory scan, and the
    preload shared with the list driver. */
module PymuPdfToText {
  import opened Strings
  import opened Paths
  import opened Seqs
  import opened Pages
  import opened PymuCache

  /** `pages_label`: `all` for a negative request, the number otherwise. */
  function PagesLabel(pages: int): string
  {
    if pages < 0 then "all" else IntToString(pages)
  }

  /** The key the worker checks and records: `f"{stem}_pages{pages_label}"`. */
  function WorkerKey(path: string, pages: int): string
  {
    Stem(path) + "_pages" + PagesLabel(pages)
  }

  /** The worker's key is the selection loop's key exactly when the request is not negative;
      for a negative request the worker says `_pagesall` where the selection says `_pages-N`. */
  lemma WorkerKeyMatchesSelectionKey(path: string, pages: int)
    ensures WorkerKey(path, pages) == SelectionKey(path, pages) <==> pages >= 0
  {
    var n := |Stem(path)| + 6;
    if pages < 0 {
      assert WorkerKey(path, pages)[n] == 'a';
      assert SelectionKey(path, pages)[n] == '-';
    }
  }

  /** The number of pages extracted: all of them for a negative request, otherwise
      `min(pages, total)`; never more than the document has. */
  function PagesToExtract(requested: int, total: nat): (n: nat)
    ensures n <= total
    ensures requested >= 0 ==> n <= requested
    ensures requested < 0 || requested >= total ==> n == total
    ensures 0 <= requested <= total ==> n == requested
  {
    if requested < 0 then total else if requested < total then requested else total
  }

  /** What opening the PDF and extracting its pages yields. */
  function Extract(pdf: Pdf, pages: int): Extraction
  {
    match pdf
    case Unreadable(e) => Raised(e)
    case Parsed(ps) => Text(PageText(ps, PagesToExtract(pages, |ps|)))
  }

  /** `process_pdf`: the cache guard, the output-exists guard, then extraction and the write. */
  method ProcessPdf(w: Workspace, path: string, pages: int, pdf: Pdf) returns (outcome: Outcome)
    modifies w
    ensures (w.State(), outcome) == GuardedStep(old(w.State()), WorkerKey(path, pages), Extract(pdf, pages))
  {
    var pagesLabel := if pages < 0 then "all" else IntToString(pages);
    var key := Stem(path) + "_pages" + pagesLabel;
    if key in w.cache {
      return SkippedCached;
    }
    var outFile := key + ".txt";
    if outFile in w.outputs {
      w.cache := w.cache + {key};
      return SkippedExisting;
    }
    match pdf
    case Unreadable(e) =>
      outcome := Failed(e);
    case Parsed(doc) =>
      var total := |doc|;
      var n;
      if pages < 0 {
        n := total;
      } else {
        n := if pages < total then pages else total;
      }
      var text := RenderPages(doc, n);
      w.outputs := w.outputs[outFile := text];
      w.cache := w.cache + {key};
      outcome := Written(outFile);
  }

  /** The key and the extraction the worker uses for each scheduled path. */
  function WorkerKeys(pages: int): string -> string
  {
    path => WorkerKey(path, pages)
  }

  function WorkerExtractions(pages: int, open: string -> Pdf): string -> Extraction
  {
    path => Extract(open(path), pages)
  }

  /** `process_batch`: sorted `.pdf` candidates, the unprocessed ones, the first `batch_size` of
      them, each run through the worker in task order. */
  method ProcessBatch(w: Workspace, listing: seq<string>, pages: int, batchSize: int, open: string -> Pdf)
    returns (scheduled: seq<string>)
    modifies w
    ensures scheduled == SliceTo(Unprocessed(PdfCandidates(listing), old(w.cache), pages), batchSize)
    ensures w.State() == RunTasks(old(w.State()), scheduled, WorkerKeys(pages), WorkerExtractions(pages, open))
  {
    var pdfFiles := PdfCandidates(listing);
    var unprocessed := SelectUnprocessed(pdfFiles, w.cache, pages);
    scheduled := SliceTo(unprocessed, batchSize);
    var i := 0;
    while i < |scheduled|
      invariant 0 <= i <= |scheduled|
      invariant w.State() == RunTasks(old(w.State()), scheduled[..i], WorkerKeys(pages), WorkerExtractions(pages, open))
    {
      RunTasksSnoc(old(w.State()), scheduled, i, WorkerKeys(pages), WorkerExtractions(pages, open));
      var _ := ProcessPdf(w, scheduled[i], pages, open(scheduled[i]));
      i := i + 1;
    }
    assert scheduled[..i] == scheduled;
  }

  /** The script's main block: a fresh cache, preloaded from the output directory, then one batch. */
  method Run(outputs: map<string, string>, listing: seq<string>, pages: int, batchSize: int, open: string -> Pdf)
    returns (scheduled: seq<string>, final: Store)
    ensures scheduled == SliceTo(Unprocessed(PdfCandidates(listing), PreloadKeys(outputs.Keys, pages), pages), batchSize)
    ensures final == RunTasks(Store(PreloadKeys(outputs.Keys, pages), outputs), scheduled, WorkerKeys(pages), WorkerExtractions(pages, open))
  {
    var w := new Workspace(outputs);
    w.Preload(pages);
    ghost var preloaded := Store(PreloadKeys(outputs.Keys, pages), outputs);
    assert w.State() == preloaded;
    scheduled := ProcessBatch(w, listing, pages, batchSize, open);
    final := w.State();
  }

  /** For a non-negative request, a file converted on an earlier run (its `X_pagesN.txt` still in
      the output directory) is not selected again, provided its stem `X` does not itself contain
      `_pagesN`. */
  lemma ConvertedFileNotReselected(outputs: set<string>, files: seq<string>, path: string, pages: int)
    requires pages >= 0
    requires !Occurs(Stem(path), Label(pages))
    requires OutputName(WorkerKey(path, pages)) in outputs
    ensures path !in Unprocessed(files, PreloadKeys(outputs, pages), pages)
  {
    WorkerKeyMatchesSelectionKey(path, pages);
    OutputSkipsSelection(outputs, files, path, pages);
  }

  /** For a negative request, the worker's own output `X_pagesall.txt` never takes a file out of
      the selection: whatever else the output directory holds, adding that output leaves the
      selection of the file as it was, so a converted file takes a batch slot again. */
  lemma NegativeRequestReselectsConverted(outputs: set<string>, path: string, pages: int)
    requires pages < 0
    requires !Occurs(Stem(path), Label(pages))
    ensures Unprocessed([path], PreloadKeys(outputs + {OutputName(WorkerKey(path, pages))}, pages), pages)
         == Unprocessed([path], PreloadKeys(outputs, pages), pages)
  {
    var o := OutputName(WorkerKey(path, pages));
    PreloadKeysAdd(outputs, o, pages);
    NegativeRequestOutputNotPreloaded(path, pages);
    var k := SelectionKey(path, pages);
    assert k in PreloadKeys(outputs + {o}, pages) <==> k in PreloadKeys(outputs, pages);
    assert Filter([path], f => SelectionKey(f, pages) !in PreloadKeys(outputs + {o}, pages))
        == Filter([], f => SelectionKey(f, pages) !in PreloadKeys(outputs + {o}, pages))
           + (if k !in PreloadKeys(outputs + {o}, pages) then [path] else []);
    assert Filter([path], f => SelectionKey(f, pages) !in PreloadKeys(outputs, pages))
        == Filter([], f => SelectionKey(f, pages) !in PreloadKeys(outputs, pages))
           + (if k !in PreloadKeys(outputs, pages) then [path] else []);
  }

  /** `_pagesall` does not contain a negative label `_pages-N`. */
  lemma AllLabelHasNoNegativeLabel(pages: int)
    requires pages < 0
    ensures !Occurs("_pagesall", Label(pages))
  {
    var l := Label(pages);
    assert |l| >= 8 && l[6] == '-';
    forall i | 0 <= i <= 9 - |l| ensures !OccursAt("_pagesall", l, i) {
      if i == 0 {
        assert "_pagesall"[0..|l|][6] == 'a';
      } else {
        assert "_pagesall"[1..1 + |l|][0] == 'p';
      }
    }
  }

  /** For a negative request the preload never rebuilds the selection key from the worker's own
      output: `X_pagesall.txt` becomes `X_pagesall_pages-N`, while the selection looks for
      `X_pages-N`. */
  lemma NegativeRequestOutputNotPreloaded(path: string, pages: int)
    requires pages < 0
    requires !Occurs(Stem(path), Label(pages))
    ensures PreloadKey(Stem(OutputName(WorkerKey(path, pages))), pages) == WorkerKey(path, pages) + Label(pages)
    ensures PreloadKey(Stem(OutputName(WorkerKey(path, pages))), pages) != SelectionKey(path, pages)
  {
    var x := Stem(path);
    var key := WorkerKey(path, pages);
    assert key == x + "_pagesall";
    StemHasNoSlash(path);
    assert '/' !in key by {
      assert forall i :: |x| <= i < |key| ==> key[i] == "_pagesall"[i - |x|];
      assert forall i :: 0 <= i < |x| ==> key[i] == x[i];
    }
    OutputNameStem(key);
    LabelHeadIsUnique(pages);
    AllLabelHasNoNegativeLabel(pages);
    NoOccurrenceAcrossSeam(x, "_pagesall", Label(pages));
    ReplaceWithoutOccurrence(key, Label(pages), "");
  }
}

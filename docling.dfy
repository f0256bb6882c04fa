/** The Docling driver (`docling/01_docling_pdf_to_md.py`): the bases of the `.md` files in the
    output directory mark PDFs as done, the first `batch_size` PDFs not yet done are converted,
    each to `<base>.md`, and the outcomes are tallied. */
module Docling {
  import opened Strings
  import opened Paths
  import opened Seqs

  /** `f.lower().endswith(".md")`. */
  predicate IsMarkdownName(f: string)
  {
    EndsWith(Lower(f), ".md")
  }

  /** `f.lower().endswith(".pdf")`. */
  predicate IsPdfName(f: string)
  {
    EndsWith(Lower(f), ".pdf")
  }

  /** `os.path.splitext(f)[0]`. */
  function BaseName(f: string): string
  {
    SplitExt(f).0
  }

  /** The name of the Markdown file a PDF is converted to: `base + ".md"`. */
  function OutputName(f: string): string
  {
    BaseName(f) + ".md"
  }

  /** The set `get_processed_files` builds from the output directory's names. */
  function ProcessedBases(names: set<string>): set<string>
  {
    set f | f in names && IsMarkdownName(f) :: BaseName(f)
  }

  /** A directory whose files the conversion writes: name to contents. */
  class Directory {
    var files: map<string, string>

    constructor (existing: map<string, string>)
      ensures files == existing
    {
      files := existing;
    }

    /** `get_processed_files`: the loop over `os.listdir`, in whatever order it yields names. */
    method GetProcessedFiles() returns (processed: set<string>)
      ensures processed == ProcessedBases(files.Keys)
    {
      var rest := files.Keys;
      ghost var done: set<string> := {};
      processed := {};
      while rest != {}
        invariant done + rest == files.Keys && done !! rest
        invariant processed == ProcessedBases(done)
        decreases rest
      {
        var file :| file in rest;
        if EndsWith(Lower(file), ".md") {
          var base := SplitExt(file).0;
          processed := processed + {base};
        }
        ProcessedBasesAdd(done, file);
        rest := rest - {file};
        done := done + {file};
      }
    }

    /** `process_file`: convert the PDF at `os.path.join(input_dir, f)`; on success write the
        Markdown to `<base>.md` and report the output path, otherwise report the error text. */
    method ProcessFile(inputDir: string, outputDir: string, f: string, convert: string -> Conversion)
      returns (result: Record)
      modifies this
      ensures (files, result) == ConvertStep(old(files), inputDir, outputDir, f, convert)
    {
      var inputPath := PathJoin(inputDir, f);
      var base := SplitExt(f).0;
      var outputPath := PathJoin(outputDir, base + ".md");
      match convert(inputPath)
      case Converted(markdown) =>
        files := files[base + ".md" := markdown];
        result := Record(f, Success, outputPath);
      case ConversionFailed(message) =>
        result := Record(f, Error, message);
    }

    /** `pool.map(process_file, tasks)`, the tasks taken in order; results come back in task
        order. */
    method ConvertBatch(inputDir: string, outputDir: string, tasks: seq<string>, convert: string -> Conversion)
      returns (results: seq<Record>)
      modifies this
      ensures (files, results) == ConvertAll(old(files), inputDir, outputDir, tasks, convert)
    {
      results := [];
      var i := 0;
      while i < |tasks|
        invariant 0 <= i <= |tasks|
        invariant (files, results) == ConvertAll(old(files), inputDir, outputDir, tasks[..i], convert)
      {
        ConvertAllSnoc(old(files), inputDir, outputDir, tasks, i, convert);
        var r := ProcessFile(inputDir, outputDir, tasks[i], convert);
        results := results + [r];
        i := i + 1;
      }
      assert tasks[..i] == tasks;
    }
  }

  /** One more listed name adds its base if it is a Markdown file. */
  lemma ProcessedBasesAdd(names: set<string>, name: string)
    ensures ProcessedBases(names + {name})
         == ProcessedBases(names) + (if IsMarkdownName(name) then {BaseName(name)} else {})
  {
  }

  /** The PDFs of the input listing not yet converted, in listing order. */
  function Unconverted(listing: seq<string>, processed: set<string>): seq<string>
  {
    Filter(Filter(listing, IsPdfName), f => BaseName(f) !in processed)
  }

  /** `files_to_process[:total_to_process]` with `total_to_process = min(len(files_to_process), batch_size)`. */
  function Schedule(listing: seq<string>, processed: set<string>, batchSize: int): seq<string>
  {
    var u := Unconverted(listing, processed);
    SliceTo(u, if |u| < batchSize then |u| else batchSize)
  }

  /** The schedule is a prefix of the unconverted PDFs, in listing order, of length
      `min(|U|, batch_size)` for a non-negative batch size; each scheduled name is a PDF of the
      listing whose base is not among the processed bases. */
  lemma ScheduleSpec(listing: seq<string>, processed: set<string>, batchSize: int)
    ensures Schedule(listing, processed, batchSize)
         == Unconverted(listing, processed)[..|Schedule(listing, processed, batchSize)|]
    ensures batchSize >= 0 ==> |Schedule(listing, processed, batchSize)|
                               == (if batchSize < |Unconverted(listing, processed)| then batchSize else |Unconverted(listing, processed)|)
    ensures forall f :: f in Schedule(listing, processed, batchSize) ==>
              f in listing && IsPdfName(f) && BaseName(f) !in processed
  {
    var u := Unconverted(listing, processed);
    var s := Schedule(listing, processed, batchSize);
    SliceToLength(u, if |u| < batchSize then |u| else batchSize);
    FilterMembers(listing, IsPdfName);
    FilterMembers(Filter(listing, IsPdfName), f => BaseName(f) !in processed);
    forall f | f in s ensures f in u {
      var k :| 0 <= k < |s| && s[k] == f;
      assert u[k] == f;
    }
  }

  /** Clamping the batch size to the number of unconverted files first changes nothing: the
      slice alone would select the same files, for any batch size. */
  lemma ClampIsRedundant(listing: seq<string>, processed: set<string>, batchSize: int)
    ensures Schedule(listing, processed, batchSize) == SliceTo(Unconverted(listing, processed), batchSize)
  {
  }

  /** What Docling's `convert` followed by `export_to_markdown` yields for an input path: the
      Markdown, or the text of the exception raised. */
  datatype Conversion = Converted(markdown: string) | ConversionFailed(message: string)

  datatype Status = Success | Error

  /** The `(pdf_filename, status, info)` tuple a task returns: the output path on success, the
      error text otherwise. */
  datatype Record = Record(filename: string, status: Status, info: string)

  /** `os.path.join(output_dir, base + ".md")`. */
  function OutputPath(outputDir: string, f: string): string
  {
    PathJoin(outputDir, OutputName(f))
  }

  /** One task: the new directory contents and the task's record. */
  function ConvertStep(files: map<string, string>, inputDir: string, outputDir: string, f: string,
                       convert: string -> Conversion): (r: (map<string, string>, Record))
    ensures r.1.filename == f
    ensures r.1.status == Success <==> convert(PathJoin(inputDir, f)).Converted?
    ensures r.1.status == Success ==>
              r.1.info == OutputPath(outputDir, f) && r.0 == files[OutputName(f) := convert(PathJoin(inputDir, f)).markdown]
    ensures r.1.status == Error ==> r.1.info == convert(PathJoin(inputDir, f)).message && r.0 == files
  {
    match convert(PathJoin(inputDir, f))
    case Converted(md) => (files[OutputName(f) := md], Record(f, Success, OutputPath(outputDir, f)))
    case ConversionFailed(m) => (files, Record(f, Error, m))
  }

  /** All tasks in order: the final directory contents and one record per task. */
  function ConvertAll(files: map<string, string>, inputDir: string, outputDir: string, tasks: seq<string>,
                      convert: string -> Conversion): (r: (map<string, string>, seq<Record>))
    ensures |r.1| == |tasks|
    ensures forall i :: 0 <= i < |tasks| ==> r.1[i].filename == tasks[i]
    decreases |tasks|
  {
    if tasks == [] then (files, [])
    else
      var prev := ConvertAll(files, inputDir, outputDir, tasks[..|tasks| - 1], convert);
      var step := ConvertStep(prev.0, inputDir, outputDir, tasks[|tasks| - 1], convert);
      (step.0, prev.1 + [step.1])
  }

  /** One more task converts on top of the directory the earlier tasks left and adds its record. */
  lemma ConvertAllSnoc(files: map<string, string>, inputDir: string, outputDir: string, tasks: seq<string>, i: nat,
                       convert: string -> Conversion)
    requires i < |tasks|
    ensures var prev := ConvertAll(files, inputDir, outputDir, tasks[..i], convert);
            var step := ConvertStep(prev.0, inputDir, outputDir, tasks[i], convert);
            ConvertAll(files, inputDir, outputDir, tasks[..i + 1], convert) == (step.0, prev.1 + [step.1])
  {
    assert tasks[..i + 1][..i] == tasks[..i];
  }

  /** The number of successful records. */
  function SuccessCount(results: seq<Record>): (n: nat)
    ensures n <= |results|
    decreases |results|
  {
    if results == [] then 0
    else SuccessCount(results[..|results| - 1]) + (if results[|results| - 1].status == Success then 1 else 0)
  }

  function ConvertedLine(filename: string, info: string): string
  {
    "Converted: " + filename + " --> " + info
  }

  function ErrorLine(filename: string, info: string): string
  {
    "Error processing " + filename + ": " + info
  }

  /** The line logged for one record. */
  function LogLine(r: Record): string
  {
    if r.status == Success then ConvertedLine(r.filename, r.info) else ErrorLine(r.filename, r.info)
  }

  /** One more record adds one to the count exactly when it is a success. */
  lemma SuccessCountSnoc(results: seq<Record>, i: nat)
    requires i < |results|
    ensures SuccessCount(results[..i + 1]) == SuccessCount(results[..i]) + (if results[i].status == Success then 1 else 0)
  {
    assert results[..i + 1][..i] == results[..i];
  }

  /** The logging loop: one line per record, counting the successes. */
  method Tally(results: seq<Record>) returns (processedCount: nat, log: seq<string>)
    ensures processedCount == SuccessCount(results)
    ensures |log| == |results| && forall i :: 0 <= i < |results| ==> log[i] == LogLine(results[i])
  {
    processedCount := 0;
    log := [];
    var i := 0;
    while i < |results|
      invariant 0 <= i <= |results|
      invariant processedCount == SuccessCount(results[..i])
      invariant |log| == i && forall j :: 0 <= j < i ==> log[j] == LogLine(results[j])
    {
      var line;
      if results[i].status == Success {
        line := ConvertedLine(results[i].filename, results[i].info);
        processedCount := processedCount + 1;
      } else {
        line := ErrorLine(results[i].filename, results[i].info);
      }
      MapSnoc(log, results, i, line, LogLine);
      SuccessCountSnoc(results, i);
      log := log + [line];
      i := i + 1;
    }
    assert results[..i] == results;
  }

  /** The count reported is the number of tasks whose conversion succeeded. */
  lemma {:induction false} SuccessCountCountsConversions(files: map<string, string>, inputDir: string, outputDir: string,
                                                         tasks: seq<string>, convert: string -> Conversion)
    ensures SuccessCount(ConvertAll(files, inputDir, outputDir, tasks, convert).1)
         == |Filter(tasks, t => convert(PathJoin(inputDir, t)).Converted?)|
    decreases |tasks|
  {
    if tasks != [] {
      var init := tasks[..|tasks| - 1];
      SuccessCountCountsConversions(files, inputDir, outputDir, init, convert);
      var results := ConvertAll(files, inputDir, outputDir, tasks, convert).1;
      assert results[..|results| - 1] == ConvertAll(files, inputDir, outputDir, init, convert).1;
    }
  }

  /** The Markdown names a batch may write. */
  function OutputNames(tasks: seq<string>): set<string>
  {
    set t | t in tasks :: OutputName(t)
  }

  /** `after` differs from `before` at most on the names in `allowed`. */
  ghost predicate Touches(before: map<string, string>, after: map<string, string>, allowed: set<string>)
  {
    after.Keys <= before.Keys + allowed
    && forall n :: n in before && n !in allowed ==> n in after && after[n] == before[n]
  }

  /** Two changes confined to `s` and to `{o}` together are confined to `s + {o}`. */
  lemma TouchesCompose(a: map<string, string>, b: map<string, string>, c: map<string, string>,
                       s: set<string>, o: string)
    requires Touches(a, b, s) && Touches(b, c, {o})
    ensures Touches(a, c, s + {o})
  {
    forall n | n in a && n !in s + {o}
      ensures n in c && c[n] == a[n]
    {
      assert n in b && b[n] == a[n];
    }
  }

  /** One task writes at most its own Markdown name. */
  lemma ConvertStepTouches(files: map<string, string>, inputDir: string, outputDir: string, f: string,
                           convert: string -> Conversion)
    ensures Touches(files, ConvertStep(files, inputDir, outputDir, f, convert).0, {OutputName(f)})
  {
  }

  /** A batch writes only the Markdown names of its tasks, and leaves every other file as it was. */
  lemma {:induction false} ConvertAllTouchesOnlyOutputs(files: map<string, string>, inputDir: string, outputDir: string,
                                                        tasks: seq<string>, convert: string -> Conversion)
    ensures Touches(files, ConvertAll(files, inputDir, outputDir, tasks, convert).0, OutputNames(tasks))
    decreases |tasks|
  {
    if tasks == [] {
      assert ConvertAll(files, inputDir, outputDir, tasks, convert).0 == files;
    } else {
      var init := tasks[..|tasks| - 1];
      var last := tasks[|tasks| - 1];
      ConvertAllTouchesOnlyOutputs(files, inputDir, outputDir, init, convert);
      var prev := ConvertAll(files, inputDir, outputDir, init, convert).0;
      ConvertAllLast(files, inputDir, outputDir, tasks, convert);
      ConvertStepTouches(prev, inputDir, outputDir, last, convert);
      assert tasks == init + [last];
      TouchesSnoc(files, prev, ConvertAll(files, inputDir, outputDir, tasks, convert).0, init, last);
    }
  }

  /** A batch's directory is the one after all but its last task, changed by the last task. */
  lemma ConvertAllLast(files: map<string, string>, inputDir: string, outputDir: string,
                       tasks: seq<string>, convert: string -> Conversion)
    requires tasks != []
    ensures ConvertAll(files, inputDir, outputDir, tasks, convert).0
            == ConvertStep(ConvertAll(files, inputDir, outputDir, tasks[..|tasks| - 1], convert).0,
                           inputDir, outputDir, tasks[|tasks| - 1], convert).0
  {
  }

  /** The change of a batch followed by that of one more task is confined to the batch's names. */
  lemma TouchesSnoc(files: map<string, string>, prev: map<string, string>, next: map<string, string>,
                    init: seq<string>, last: string)
    requires Touches(files, prev, OutputNames(init))
    requires Touches(prev, next, {OutputName(last)})
    ensures Touches(files, next, OutputNames(init + [last]))
  {
    TouchesCompose(files, prev, next, OutputNames(init), OutputName(last));
    OutputNamesSnoc(init, last);
  }

  /** One more task adds its Markdown name. */
  lemma OutputNamesSnoc(init: seq<string>, last: string)
    ensures OutputNames(init + [last]) == OutputNames(init) + {OutputName(last)}
  {
    assert forall t :: t in init + [last] <==> t in init || t == last;
  }

  /** After a successful conversion the file `<base>.md` is there. */
  lemma {:induction false} ConvertAllWritesOutputs(files: map<string, string>, inputDir: string, outputDir: string,
                                                   tasks: seq<string>, convert: string -> Conversion, i: nat)
    requires i < |tasks| && convert(PathJoin(inputDir, tasks[i])).Converted?
    ensures OutputName(tasks[i]) in ConvertAll(files, inputDir, outputDir, tasks, convert).0
    decreases |tasks|
  {
    if i < |tasks| - 1 {
      assert tasks[..|tasks| - 1][i] == tasks[i];
      ConvertAllWritesOutputs(files, inputDir, outputDir, tasks[..|tasks| - 1], convert, i);
    }
  }

  /** The base of a PDF name always has a character other than a dot. */
  lemma PdfBaseHasNonDot(f: string)
    requires IsPdfName(f)
    ensures exists k :: 0 <= k < |BaseName(f)| && BaseName(f)[k] != '.'
  {
    var sep := LastIndexOf(f, '/');
    var dot := LastIndexOf(f, '.');
    if dot > sep && exists k :: sep < k < dot && f[k] != '.' {
      var k :| sep < k < dot && f[k] != '.';
      assert BaseName(f)[k] == f[k];
    } else {
      assert Lower(f)[|f| - 3] == 'p';
      assert BaseName(f)[|f| - 3] != '.';
    }
  }

  /** The Markdown file written for a slash-free PDF name marks that name's base as processed. */
  lemma OutputMarksProcessed(names: set<string>, f: string)
    requires IsPdfName(f) && '/' !in f
    requires OutputName(f) in names
    ensures BaseName(f) in ProcessedBases(names)
  {
    var b := BaseName(f);
    PdfBaseHasNonDot(f);
    assert '/' !in b by {
      assert forall j :: 0 <= j < |b| ==> b[j] == f[j];
    }
    MarkdownOfBase(b);
  }

  /** `<base>.md`, for a slash-free base with a non-dot character, is a Markdown name whose base
      is `<base>` again. */
  lemma MarkdownOfBase(b: string)
    requires '/' !in b
    requires exists k :: 0 <= k < |b| && b[k] != '.'
    ensures IsMarkdownName(b + ".md") && BaseName(b + ".md") == b
  {
    SplitExtOfName(b, "md");
    assert b + "." + "md" == b + ".md";
    MarkdownSuffix(b + ".md");
  }

  lemma MarkdownSuffix(name: string)
    requires |name| >= 3 && name[|name| - 3..] == ".md"
    ensures IsMarkdownName(name)
  {
    assert Lower(name)[|name| - 3..] == ".md";
  }

  /** A scheduled file's output did not exist yet, so a run never overwrites an output that was
      in the output directory before it. */
  lemma RunKeepsExistingOutputs(files: map<string, string>, listing: seq<string>, batchSize: int,
                                inputDir: string, outputDir: string, convert: string -> Conversion, n: string)
    requires forall f :: f in listing ==> '/' !in f
    requires n in files
    ensures n in ConvertAll(files, inputDir, outputDir, Schedule(listing, ProcessedBases(files.Keys), batchSize), convert).0
    ensures ConvertAll(files, inputDir, outputDir, Schedule(listing, ProcessedBases(files.Keys), batchSize), convert).0[n] == files[n]
  {
    var tasks := Schedule(listing, ProcessedBases(files.Keys), batchSize);
    ScheduleSpec(listing, ProcessedBases(files.Keys), batchSize);
    if n in OutputNames(tasks) {
      var t :| t in tasks && n == OutputName(t);
      OutputMarksProcessed(files.Keys, t);
    }
    ConvertAllTouchesOnlyOutputs(files, inputDir, outputDir, tasks, convert);
  }

  /** A PDF converted on an earlier run is not scheduled again. */
  lemma ConvertedNotRescheduled(files: map<string, string>, listing: seq<string>, batchSize: int, f: string)
    requires IsPdfName(f) && '/' !in f
    requires OutputName(f) in files
    ensures f !in Schedule(listing, ProcessedBases(files.Keys), batchSize)
  {
    OutputMarksProcessed(files.Keys, f);
    ScheduleSpec(listing, ProcessedBases(files.Keys), batchSize);
  }

  /** How a run ends: at once when the input directory is missing, otherwise after the batch
      with its schedule, its records, the successes counted and the log. */
  datatype RunResult =
    | InputMissing
    | Completed(scheduled: seq<string>, results: seq<Record>, processedCount: nat, log: seq<string>)

  /** `main`: check the input directory, read the processed bases, schedule, convert, tally. */
  method Run(inputExists: bool, listing: seq<string>, out: Directory, inputDir: string, outputDir: string,
             batchSize: int, convert: string -> Conversion)
    returns (r: RunResult)
    modifies out
    ensures !inputExists ==> r == InputMissing && out.files == old(out.files)
    ensures inputExists ==> r.Completed?
    ensures inputExists ==> r.scheduled == Schedule(listing, ProcessedBases(old(out.files).Keys), batchSize)
    ensures inputExists ==> (out.files, r.results) == ConvertAll(old(out.files), inputDir, outputDir, r.scheduled, convert)
    ensures inputExists ==> r.processedCount == SuccessCount(r.results)
    ensures inputExists ==> |r.log| == |r.results| && forall i :: 0 <= i < |r.results| ==> r.log[i] == LogLine(r.results[i])
  {
    if !inputExists {
      return InputMissing;
    }
    var processedFiles := out.GetProcessedFiles();
    var pdfFiles := [];
    var i := 0;
    while i < |listing|
      invariant 0 <= i <= |listing|
      invariant pdfFiles == Filter(listing[..i], IsPdfName)
    {
      if EndsWith(Lower(listing[i]), ".pdf") {
        pdfFiles := pdfFiles + [listing[i]];
      }
      assert listing[..i + 1][..i] == listing[..i];
      i := i + 1;
    }
    assert listing[..i] == listing;
    var filesToProcess := Filter(pdfFiles, f => BaseName(f) !in processedFiles);
    var totalToProcess := if |filesToProcess| < batchSize then |filesToProcess| else batchSize;
    var tasks := SliceTo(filesToProcess, totalToProcess);
    var results := out.ConvertBatch(inputDir, outputDir, tasks, convert);
    var processedCount, log := Tally(results);
    r := Completed(tasks, results, processedCount, log);
  }
}

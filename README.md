# Batch PDF conversion drivers: a verified model of their bookkeeping

The repository converts directories of PDF files to text or Markdown with four driver
scripts, each resumable and run in batches:

- `pymu/01_pymu_pdf_to_text.py` extracts the first N pages (all pages for a negative N) of each
  PDF with PyMuPDF. It writes them as `<stem>_pages<label>.txt`.
- `pymu/utils/01_pymu_pdf_to_text_from_list.py` extracts pages with PyMuPDF too, but clamps the
  request with `min(N, total)`, so a negative N writes no page at all. Its key is always
  `<stem>_pages<N>`, `_pages-1` included. The candidates may come from a file of base names
  instead of a directory scan.
- `docling/01_docling_pdf_to_md.py` converts each PDF with Docling to `<base>.md`.
- `marker/01_marker_pdf_to_md_wrapper.py` links a batch of unconverted PDFs into a temporary
  directory and hands it to an external `marker_chunk_convert` command.

Each driver selects the files whose output is not there yet and truncates that selection to a
batch. The rest of the bookkeeping differs per driver:

- The two PyMuPDF drivers build completion keys from file stems. They preload a cache of keys
  from the existing `.txt` outputs and run a cache-guarded per-file step. That step writes the
  `"Page k:\n<text>\n"` page-block layout.
- Docling takes the bases of the existing `.md` files as done. Its per-file step writes
  `<base>.md` or reports an error, and it tallies the success records.
- Marker has no cache, no per-file step and no tally. It checks each PDF's `<base>.md`, stops
  collecting at the batch size, and links the batch into a temporary directory for one external
  command.

That bookkeeping is what this project models. The conversion libraries, the
process pool and the external command are not part of it.

Modules:

- `Strings`: the Python `str` operations used, on `seq<char>`.
  - `lower` (ASCII letters), `strip` (Python's whitespace set), `str(int)`, `replace` and `join`.
- `Paths`: path helpers on POSIX path strings.
  - `pathlib` `name`, `suffix` and `stem`; `os.path.splitext`; `os.path.join`.
- `Seqs`: sequence helpers.
  - List-comprehension filtering, the slice `xs[:n]` (negative `n` included) and `sorted` on strings.
- `Pages`: the `"Page k:\n<text>\n"` block layout both PyMuPDF drivers write.
- `PymuCache`: what both PyMuPDF drivers share.
  - Keys, the guarded worker step and the batch fold over it.
  - The preload, as a `Workspace` class whose `cache` and `outputs` the methods update.
  - Candidate selection.
- `PymuPdfToText` and `PymuFromList`: the two PyMuPDF drivers.
- `Docling`: the Docling driver. The output directory is a `Directory` class.
- `Marker`: the marker wrapper. A `Host` class holds the existing paths, the symbolic links and
  the commands run.

The external effects become explicit inputs:

- An output directory is a map from file name to contents, or a set of existing paths.
- A directory listing is a sequence in arbitrary order.
- A PDF is its page texts, or the error opening it raises (`Pdf`).
- A Docling conversion is a Markdown text or an error message (`Conversion`).
- `os.path.abspath` and the process environment are parameters.

## Model

| member | source | states |
|---|---|---|
| Strings.StripLeft | pymu/utils/01_pymu_pdf_to_text_from_list.py:70 | the result is a suffix of the input; everything dropped is whitespace; the result does not start with whitespace |
| Strings.StripRight | pymu/utils/01_pymu_pdf_to_text_from_list.py:70 | the result is a prefix of the input; everything dropped is whitespace; the result does not end with whitespace |
| Strings.Strip | pymu/utils/01_pymu_pdf_to_text_from_list.py:70 | defines `line.strip()` as `lstrip` followed by `rstrip`; its two halves are characterised by StripLeft and StripRight |
| Strings.NatToString | pymu/01_pymu_pdf_to_text.py:22 | `str(n)` for a natural is a non-empty string of decimal digits that starts with `0` only for zero (no leading zero) |
| Strings.IntToString | pymu/01_pymu_pdf_to_text.py:22 | `str(n)` is non-empty; it starts with `-` exactly when `n` is negative; all other characters are digits |
| Strings.NatToStringRoundTrip | pymu/01_pymu_pdf_to_text.py:22 | reading back the decimal digits of `str(n)` gives `n` |
| Strings.IntToStringInjective | pymu/01_pymu_pdf_to_text.py:77 | different integers give different decimal strings, so different page counts give different `_pages` labels |
| Strings.NatToStringInjective | pymu/01_pymu_pdf_to_text.py:23 | two naturals with the same decimal digits are equal |
| Strings.Replace | pymu/01_pymu_pdf_to_text.py:128 | defines `str.replace` for a non-empty pattern: left-to-right, non-overlapping occurrences replaced; its behaviour on the preload's stems is proved by ReplaceWithoutOccurrence and ReplaceRemovesSuffix |
| Strings.ReplaceWithoutOccurrence | pymu/01_pymu_pdf_to_text.py:128 | `replace` leaves a string that does not contain the pattern unchanged |
| Strings.NoOccurrenceAcrossSeam | pymu/01_pymu_pdf_to_text.py:128 | when the pattern's first character appears nowhere else in it, concatenation creates no new occurrence at the seam |
| Strings.ReplaceRemovesSuffix | pymu/01_pymu_pdf_to_text.py:128 | `(x + pat).replace(pat, "") == x` when `x` has no occurrence and `pat` has a unique head |
| Strings.JoinSnoc | pymu/01_pymu_pdf_to_text.py:56 | joining one more part appends the separator and that part |
| Strings.Lower | pymu/01_pymu_pdf_to_text.py:72 | defines `str.lower()` on ASCII letters, used by the suffix tests |
| Strings.IsSpace | pymu/utils/01_pymu_pdf_to_text_from_list.py:70 | defines Python's whitespace set for `str.strip()` |
| Strings.Join | pymu/01_pymu_pdf_to_text.py:56 | defines `sep.join(parts)`: the parts in order with the separator between neighbours; JoinSnoc proves the order |
| Paths.LastIndexOf | pymu/01_pymu_pdf_to_text.py:23 | `rfind`: the index holds the character and no later index does, or -1 |
| Paths.FileName | marker/01_marker_pdf_to_md_wrapper.py:22 | the last path component has no slash and ends the path |
| Paths.FileNameAfterSlash | marker/01_marker_pdf_to_md_wrapper.py:22 | the last path component is the whole path or follows a slash, so it is exactly what comes after the last `/` |
| Paths.StemHasNoSlash | pymu/01_pymu_pdf_to_text.py:23 | a stem never contains a slash |
| Paths.Suffix | pymu/01_pymu_pdf_to_text.py:72 | defines `PurePath.suffix`: from the last dot of the last component, unless that dot is the component's first or last character |
| Paths.Stem | pymu/01_pymu_pdf_to_text.py:23 | defines `PurePath.stem`: the last component without its suffix; StemHasNoSlash, StemSuffixSplitName and StemOfPlainName characterise it |
| Paths.StemSuffixSplitName | pymu/01_pymu_pdf_to_text.py:23 | stem followed by suffix is the file name |
| Paths.StemOfAppendedExtension | pymu/01_pymu_pdf_to_text.py:32 | appending a dot-and-letters extension gives a path whose stem is the old last component and whose suffix is that extension |
| Paths.StemOfPlainName | pymu/01_pymu_pdf_to_text.py:32 | for a slash-free non-empty name, `Path(name + ext).stem == name` |
| Paths.FileNameAppend | pymu/utils/01_pymu_pdf_to_text_from_list.py:73 | appending slash-free text extends the last component |
| Paths.FileNameOfJoin | pymu/utils/01_pymu_pdf_to_text_from_list.py:73 | `os.path.join(d, n)` for a slash-free `n` has last component `n` |
| Paths.JoinAppend | pymu/utils/01_pymu_pdf_to_text_from_list.py:73 | joining then extending is joining the extended relative name |
| Paths.SplitExt | docling/01_docling_pdf_to_md.py:11 | `splitext` loses nothing: base followed by extension is the input |
| Paths.SplitExtOfName | docling/01_docling_pdf_to_md.py:24-25 | `splitext(base + "." + ext)` gives back `base` and `"." + ext` |
| Paths.PathJoin | docling/01_docling_pdf_to_md.py:25 | the joined path ends with the second component |
| Seqs.Filter | pymu/01_pymu_pdf_to_text.py:75-79 | filtering never lengthens a list |
| Seqs.FilterMembers | pymu/01_pymu_pdf_to_text.py:75-79 | the filtered list holds exactly the elements that pass |
| Seqs.FilterConcat | pymu/01_pymu_pdf_to_text.py:75-79 | filtering distributes over concatenation, so order is kept |
| Seqs.FilterOfPrefix | marker/01_marker_pdf_to_md_wrapper.py:21-28 | filtering a prefix gives a prefix of the filtered list |
| Seqs.SliceTo | pymu/01_pymu_pdf_to_text.py:82 | `xs[:n]` is a prefix of `xs` |
| Seqs.SliceToLength | pymu/01_pymu_pdf_to_text.py:82 | `xs[:n]` has length `min(n, len)` for `n >= 0`, and `max(len + n, 0)` for negative `n` |
| Seqs.LexLeTotal | pymu/01_pymu_pdf_to_text.py:72 | Python's string order is total |
| Seqs.LexLeTransitive | pymu/01_pymu_pdf_to_text.py:72 | Python's string order is transitive |
| Seqs.LexLeAntisymmetric | pymu/01_pymu_pdf_to_text.py:72 | Python's string order is antisymmetric |
| Seqs.LexLeReflexive | pymu/01_pymu_pdf_to_text.py:72 | Python's string order is reflexive |
| Seqs.Insert | pymu/01_pymu_pdf_to_text.py:72 | inserting adds exactly one copy of the element |
| Seqs.InsertSorted | pymu/01_pymu_pdf_to_text.py:72 | inserting into a sorted list keeps it sorted |
| Seqs.Sort | pymu/01_pymu_pdf_to_text.py:72 | `sorted` is a permutation of its input |
| Seqs.SortSorted | pymu/01_pymu_pdf_to_text.py:72 | `sorted` returns a sorted list |
| Seqs.SortedUnique | pymu/01_pymu_pdf_to_text.py:72 | two sorted lists with the same elements are equal |
| Seqs.SortedSelection | marker/01_marker_pdf_to_md_wrapper.py:20-26 | every element of a prefix of the sorted, twice-filtered listing is listed and passes both tests, and the prefix is sorted |
| Seqs.FilterMapOfFilter | pymu/utils/01_pymu_pdf_to_text_from_list.py:68-74 | a filtered comprehension has one image per kept element, in the kept elements' order |
| Seqs.SortedTail | pymu/01_pymu_pdf_to_text.py:72 | the tail of a sorted list is sorted and lacks one copy of the head |
| Seqs.LeastOfSorted | pymu/01_pymu_pdf_to_text.py:72 | the head of a sorted list is its least element |
| Seqs.SortIgnoresListingOrder | pymu/01_pymu_pdf_to_text.py:72 | `sorted` gives the same list whatever order the directory was listed in |
| Seqs.FilterSorted | pymu/01_pymu_pdf_to_text.py:75-79 | filtering a sorted list keeps it sorted |
| Pages.CollectPages | pymu/01_pymu_pdf_to_text.py:46-51 | the page loop yields one block per requested page, block `i` being `"Page i+1:\n" + text_i + "\n"` |
| Pages.RenderPages | pymu/01_pymu_pdf_to_text.py:46-56 | the text written is the blocks joined by `"\n"` |
| Pages.PageBlock | pymu/01_pymu_pdf_to_text.py:51 | defines one block `f"Page {i + 1}:\n{text}\n"` (the same expression as pymu/utils/01_pymu_pdf_to_text_from_list.py:44) |
| Pages.PageBlocks | pymu/01_pymu_pdf_to_text.py:48-51 | defines the list `extracted_text`: the blocks of the first `count` pages, none for `count <= 0` as with `range` |
| Pages.PageText | pymu/01_pymu_pdf_to_text.py:46-56 | defines the text written: `"\n".join` of the page blocks for the first `count` pages; PageTextNoPages, PageTextFirst, PageTextNextPage and PageBlocksLabels characterise it |
| Pages.PageTextNoPages | pymu/utils/01_pymu_pdf_to_text_from_list.py:38-49 | no page requested, or a negative count, gives an empty text |
| Pages.PageTextFirst | pymu/01_pymu_pdf_to_text.py:51 | one page gives `"Page 1:\n" + text + "\n"` |
| Pages.PageTextNextPage | pymu/01_pymu_pdf_to_text.py:48-56 | one more page appends `"\n"` and that page's block; earlier pages are untouched |
| Pages.PageBlocksLabels | pymu/01_pymu_pdf_to_text.py:51 | as many blocks as pages; block `i` carries page `i`'s text under label `i + 1` |
| PymuCache.GuardedStep | pymu/01_pymu_pdf_to_text.py:26-60 | each exit stated outright: a cache hit returns the state unchanged; an uncached key whose output exists adds the key and nothing else (`SkippedExisting`); an uncached key without output and with extracted text writes that text under `<key>.txt` and adds the key (`Written`); the step fails, changing nothing, exactly when the key is uncached, the output absent and the extraction raised; a key is recorded only together with its output; outputs that existed are never changed |
| PymuCache.GuardedStepIdempotent | pymu/01_pymu_pdf_to_text.py:27-29 | after a step that did not fail, a second step on the same key is a cache hit that changes nothing |
| PymuCache.Label | pymu/01_pymu_pdf_to_text.py:77 | defines the label `_pages{N}` |
| PymuCache.OutputName | pymu/01_pymu_pdf_to_text.py:32 | defines the output name `f"{key}.txt"` |
| PymuCache.HasSuffix | pymu/01_pymu_pdf_to_text.py:126 | defines the test `file.suffix.lower() == ext` |
| PymuCache.IsPdfPath | pymu/01_pymu_pdf_to_text.py:72 | defines the test `p.suffix.lower() == ".pdf"` |
| PymuCache.SelectionKey | pymu/01_pymu_pdf_to_text.py:77 | defines the selection key `f"{stem}_pages{N}"` |
| PymuCache.PreloadKey | pymu/01_pymu_pdf_to_text.py:128-129 | defines the preload key `stem.replace("_pages{N}", "") + "_pages{N}"`; PreloadRecoversKey gives its value on worker outputs |
| PymuCache.PreloadKeys | pymu/01_pymu_pdf_to_text.py:125-130 | defines the keys the preload adds: one rebuilt key per `.txt` entry of the output directory |
| PymuCache.LabelHeadIsUnique | pymu/01_pymu_pdf_to_text.py:128 | `_pages<N>` has no `_` after its first character |
| PymuCache.PreloadRecoversKey | pymu/01_pymu_pdf_to_text.py:128-129 | the preload maps stem `X_pagesN` back to `X_pagesN` when `X` does not contain `_pagesN` |
| PymuCache.OutputNameStem | pymu/01_pymu_pdf_to_text.py:32 | a key's output file is a `.txt` file whose stem is the key |
| PymuCache.PreloadSeesOutput | pymu/01_pymu_pdf_to_text.py:125-130 | an output `X_pagesN.txt` makes the preload record `X_pagesN` |
| PymuCache.Workspace.constructor | pymu/01_pymu_pdf_to_text.py:120-121 | a fresh shared cache is empty; the output directory is as given |
| PymuCache.Workspace.Preload | pymu/01_pymu_pdf_to_text.py:125-130 | the preload adds the rebuilt key of every `.txt` output, whatever the iteration order, and changes no output |
| PymuCache.PreloadKeysAdd | pymu/01_pymu_pdf_to_text.py:125-130 | one more directory entry adds its key exactly when it is a `.txt` file |
| PymuCache.PdfCandidates | pymu/01_pymu_pdf_to_text.py:72 | defines the scan `sorted(p for p in iterdir() if p.suffix.lower() == ".pdf")`; PdfCandidatesSpec characterises it |
| PymuCache.PdfCandidatesSpec | pymu/01_pymu_pdf_to_text.py:72 | the candidates are exactly the `.pdf` entries (case-insensitive suffix), sorted, and independent of listing order |
| PymuCache.FilterMultiplicity | pymu/01_pymu_pdf_to_text.py:72 | two listings of the same entries filter to the same entries |
| PymuCache.FilterCount | pymu/01_pymu_pdf_to_text.py:72 | filtering keeps every copy of a passing entry and none of a failing one |
| PymuCache.Unprocessed | pymu/01_pymu_pdf_to_text.py:75-79 | defines the unprocessed files: the candidates whose selection key is not cached, in candidate order |
| PymuCache.SelectUnprocessed | pymu/01_pymu_pdf_to_text.py:75-79 | the loop keeps exactly the candidates whose key is not cached, in candidate order |
| PymuCache.UnprocessedKeepsOrder | pymu/01_pymu_pdf_to_text.py:75-79 | the selection distributes over concatenation and keeps sorted candidates sorted |
| PymuCache.ScheduledIsPrefix | pymu/01_pymu_pdf_to_text.py:82 | the scheduled files are a prefix of the unprocessed ones, `min(batch_size, len)` long for a non-negative batch size |
| PymuCache.RunTasks | pymu/01_pymu_pdf_to_text.py:86-94 | defines `pool.starmap(process_pdf, args_list)` as the guarded step folded over the scheduled files in task order |
| PymuCache.RunTasksKeepsExisting | pymu/01_pymu_pdf_to_text.py:89-94 | a batch removes no cache key and never alters or removes an output that existed before it |
| PymuCache.RunTasksRecordsKeys | pymu/01_pymu_pdf_to_text.py:59 | after a batch, every scheduled file whose extraction succeeded has its key cached |
| PymuCache.RunTasksCachedHaveOutputs | pymu/01_pymu_pdf_to_text.py:33-59 | every key a batch adds to the cache has its `<key>.txt` in the output directory afterwards |
| PymuCache.RunTasksWritesOutputs | pymu/01_pymu_pdf_to_text.py:54-59 | after a batch, every scheduled file whose extraction succeeded and whose key was not cached before has its `<key>.txt` output |
| PymuCache.OutputSkipsSelection | pymu/01_pymu_pdf_to_text.py:76-79 | a file whose `X_pagesN.txt` output exists is not selected after the preload, when `X` does not contain `_pagesN` |
| PymuPdfToText.WorkerKeyMatchesSelectionKey | pymu/01_pymu_pdf_to_text.py:22-23 | the worker's key equals the selection's key exactly when the page request is not negative |
| PymuPdfToText.PagesLabel | pymu/01_pymu_pdf_to_text.py:22 | defines `pages_label`: `all` for a negative request, `str(N)` otherwise |
| PymuPdfToText.WorkerKey | pymu/01_pymu_pdf_to_text.py:22-23 | defines the worker key `f"{stem}_pages{pages_label}"` |
| PymuPdfToText.PagesToExtract | pymu/01_pymu_pdf_to_text.py:40-44 | never more than the document has; all pages for a negative request or a large one; exactly the request otherwise |
| PymuPdfToText.Extract | pymu/01_pymu_pdf_to_text.py:39-56 | defines the extraction: the error `fitz.open` raises, or the page text of the clamped number of pages |
| PymuPdfToText.ProcessPdf | pymu/01_pymu_pdf_to_text.py:13-63 | the worker is the guarded step under the `all`-labelled key with the clamped page text |
| PymuPdfToText.ProcessBatch | pymu/01_pymu_pdf_to_text.py:65-94 | the scheduled files are the first `batch_size` uncached sorted candidates; the store afterwards is the guarded steps run over them in order |
| PymuPdfToText.Run | pymu/01_pymu_pdf_to_text.py:116-140 | a fresh cache is preloaded from the outputs, then one batch runs against it |
| PymuPdfToText.ConvertedFileNotReselected | pymu/01_pymu_pdf_to_text.py:125-130 | for a non-negative request, a file converted on an earlier run is not selected again, when its stem does not contain `_pagesN` |
| PymuPdfToText.AllLabelHasNoNegativeLabel | pymu/01_pymu_pdf_to_text.py:22 | `_pagesall` does not contain `_pages-N` |
| PymuPdfToText.NegativeRequestOutputNotPreloaded | pymu/01_pymu_pdf_to_text.py:125-130 | for a negative request, the preload turns the worker's own `X_pagesall.txt` into `X_pagesall_pages-N`, which is not the `X_pages-N` key the selection checks |
| PymuPdfToText.NegativeRequestReselectsConverted | pymu/01_pymu_pdf_to_text.py:76-82 | for a negative request and a stem `X` that does not contain `_pages<N>`, adding the worker's own `X_pagesall.txt` to any output directory leaves the file's selection as it was, so a converted file takes a batch slot again |
| PymuFromList.PagesToExtract | pymu/utils/01_pymu_pdf_to_text_from_list.py:38 | `min(pages, total)`: at most each, and equal to one of them |
| PymuFromList.NonPositiveRequestWritesEmptyText | pymu/utils/01_pymu_pdf_to_text_from_list.py:38-49 | a request of zero or fewer pages still yields a text, the empty one |
| PymuFromList.Extract | pymu/utils/01_pymu_pdf_to_text_from_list.py:36-49 | defines the extraction: the error `fitz.open` raises, or the page text of `min(pages, total)` pages |
| PymuFromList.ProcessPdf | pymu/utils/01_pymu_pdf_to_text_from_list.py:13-56 | the worker is the guarded step under the selection's own key with the `min`-clamped page text |
| PymuFromList.ListedPath | pymu/utils/01_pymu_pdf_to_text_from_list.py:70-73 | defines the path of one list line: `input_path / f"{line.strip()}.pdf"` |
| PymuFromList.ListedPaths | pymu/utils/01_pymu_pdf_to_text_from_list.py:68-74 | defines the file-list candidates: the paths of the non-blank lines, in file order |
| PymuFromList.ListedPathsFollowNames | pymu/utils/01_pymu_pdf_to_text_from_list.py:66-74 | blank lines are skipped; every other line gives `input_dir/<stripped>.pdf`, in file order |
| PymuFromList.ReadFileList | pymu/utils/01_pymu_pdf_to_text_from_list.py:68-74 | the reading loop builds exactly the listed paths |
| PymuFromList.ListedPathsSnoc | pymu/utils/01_pymu_pdf_to_text_from_list.py:70-74 | one more line adds its path exactly when it is not blank |
| PymuFromList.ListedPathKey | pymu/utils/01_pymu_pdf_to_text_from_list.py:73-82 | a slash-free listed name is the stem of its path, so its key is `name_pagesN` |
| PymuFromList.Candidates | pymu/utils/01_pymu_pdf_to_text_from_list.py:66-77 | defines the candidates: the listed paths with a file list, the sorted `.pdf` scan without one |
| PymuFromList.ProcessBatch | pymu/utils/01_pymu_pdf_to_text_from_list.py:58-98 | candidates come from the file list when one is given, else from the sorted scan; then the first `batch_size` uncached ones are run through the guarded step in order |
| PymuFromList.Run | pymu/utils/01_pymu_pdf_to_text_from_list.py:124-148 | a fresh cache is preloaded from the outputs, then one batch runs against it |
| PymuFromList.ListedConvertedNotReselected | pymu/utils/01_pymu_pdf_to_text_from_list.py:133-137 | for any page request, a listed name whose output exists is not selected again, when the name does not contain `_pagesN` |
| Docling.Directory.constructor | docling/01_docling_pdf_to_md.py:78-79 | the directory holds the given files |
| Docling.Directory.GetProcessedFiles | docling/01_docling_pdf_to_md.py:7-13 | exactly the `splitext` bases of the entries whose lower-cased name ends in `.md` |
| Docling.ProcessedBases | docling/01_docling_pdf_to_md.py:7-13 | defines the processed set: the `splitext` bases of the names whose lower case ends in `.md` |
| Docling.IsMarkdownName | docling/01_docling_pdf_to_md.py:10 | defines `file.lower().endswith(".md")` |
| Docling.IsPdfName | docling/01_docling_pdf_to_md.py:86 | defines `f.lower().endswith(".pdf")` |
| Docling.BaseName | docling/01_docling_pdf_to_md.py:24 | defines `os.path.splitext(f)[0]` |
| Docling.OutputName | docling/01_docling_pdf_to_md.py:25 | defines the output file name `base + ".md"` |
| Docling.OutputPath | docling/01_docling_pdf_to_md.py:25 | defines `os.path.join(output_dir, base + ".md")` |
| Docling.ProcessedBasesAdd | docling/01_docling_pdf_to_md.py:9-12 | one more entry adds its base exactly when it is a Markdown name |
| Docling.Directory.ProcessFile | docling/01_docling_pdf_to_md.py:16-40 | a task is one conversion step on the directory |
| Docling.Directory.ConvertBatch | docling/01_docling_pdf_to_md.py:98-99 | the pool's map is the conversion steps in task order, one record per task |
| Docling.Unconverted | docling/01_docling_pdf_to_md.py:86-90 | defines `files_to_process`: the `.pdf` names of the listing whose base is not processed, in listing order |
| Docling.Schedule | docling/01_docling_pdf_to_md.py:90-95 | defines the tasks: `files_to_process[:min(len, batch_size)]`; ScheduleSpec and ClampIsRedundant characterise it |
| Docling.ScheduleSpec | docling/01_docling_pdf_to_md.py:86-95 | the schedule is a prefix of the unprocessed PDFs in listing order, `min(len, batch_size)` long; each is a PDF of the listing whose base is not processed |
| Docling.ClampIsRedundant | docling/01_docling_pdf_to_md.py:91-95 | clamping the batch size to the list length first selects the same files as the slice alone |
| Docling.ConvertStep | docling/01_docling_pdf_to_md.py:23-40 | success records the output path and writes `<base>.md`; a failure records the message and writes nothing |
| Docling.ConvertAll | docling/01_docling_pdf_to_md.py:98-99 | one record per task, in task order, naming its task |
| Docling.SuccessCount | docling/01_docling_pdf_to_md.py:102-106 | the success count never exceeds the number of results |
| Docling.Tally | docling/01_docling_pdf_to_md.py:102-110 | the count is the number of successful records; one log line per record |
| Docling.ConvertedLine | docling/01_docling_pdf_to_md.py:105 | defines the success line `Converted: {filename} --> {info}` |
| Docling.ErrorLine | docling/01_docling_pdf_to_md.py:108 | defines the error line `Error processing {filename}: {info}` |
| Docling.LogLine | docling/01_docling_pdf_to_md.py:104-108 | defines the line logged for a record: the success line for status `success`, the error line otherwise |
| Docling.SuccessCountCountsConversions | docling/01_docling_pdf_to_md.py:102-106 | the count reported is the number of tasks whose conversion succeeded |
| Docling.ConvertAllTouchesOnlyOutputs | docling/01_docling_pdf_to_md.py:36-37 | a batch writes only its tasks' `<base>.md` names and leaves every other file unchanged |
| Docling.ConvertStepTouches | docling/01_docling_pdf_to_md.py:23-37 | one task writes at most its own `<base>.md` name |
| Docling.TouchesCompose | docling/01_docling_pdf_to_md.py:36-37 | changes confined to two name sets in turn are confined to their union |
| Docling.ConvertAllSnoc | docling/01_docling_pdf_to_md.py:95-98 | the next task runs on the directory the earlier tasks left, and its record follows theirs |
| Docling.ConvertAllWritesOutputs | docling/01_docling_pdf_to_md.py:34-38 | every task whose conversion succeeded has its `<base>.md` written |
| Docling.PdfBaseHasNonDot | docling/01_docling_pdf_to_md.py:86 | the base of a `.pdf` name always has a character other than a dot |
| Docling.OutputMarksProcessed | docling/01_docling_pdf_to_md.py:10-12 | the `<base>.md` written for a PDF marks that base as processed |
| Docling.MarkdownOfBase | docling/01_docling_pdf_to_md.py:10-12 | `<base>.md` is a Markdown name whose `splitext` base is `<base>` again |
| Docling.RunKeepsExistingOutputs | docling/01_docling_pdf_to_md.py:82-99 | a run never overwrites an output that was in the output directory before it |
| Docling.ConvertedNotRescheduled | docling/01_docling_pdf_to_md.py:82-90 | a PDF converted on an earlier run is not scheduled again |
| Docling.Run | docling/01_docling_pdf_to_md.py:42-110 | a missing input directory stops at once with no change; otherwise the scheduled files are converted, the successes counted, and one log line is produced per record, in record order |
| Marker.BatchLen | marker/01_marker_pdf_to_md_wrapper.py:26-28 | the batch length is `min(batch_size, available)` for a batch size of at least one, and one file (none when nothing is available) for a batch size below one, because the `len >= batch_size` test follows the append |
| Marker.PdfFiles | marker/01_marker_pdf_to_md_wrapper.py:20 | defines `sorted(glob.glob(input_dir/*.pdf))` on the listing |
| Marker.GlobPdf | marker/01_marker_pdf_to_md_wrapper.py:20 | defines the `*.pdf` glob test on the last component, hidden names excluded |
| Marker.OutputFile | marker/01_marker_pdf_to_md_wrapper.py:22-24 | defines `output_dir/splitext(basename(p))[0] + ".md"` |
| Marker.Pending | marker/01_marker_pdf_to_md_wrapper.py:25 | defines the test `not os.path.exists(output_file)` |
| Marker.Unconverted | marker/01_marker_pdf_to_md_wrapper.py:21-26 | defines the pending PDFs: the sorted PDFs whose output file is missing, in order |
| Marker.SelectBatch | marker/01_marker_pdf_to_md_wrapper.py:19-28 | the loop with its early break takes the first `BatchLen` pending PDFs in order |
| Marker.GatherStep | marker/01_marker_pdf_to_md_wrapper.py:21-25 | one more sorted PDF joins the gathered files exactly when its `.md` is missing |
| Marker.GatherBreak | marker/01_marker_pdf_to_md_wrapper.py:26-28 | at the break, the gathered files are the first `BatchLen` pending PDFs |
| Marker.GatherComplete | marker/01_marker_pdf_to_md_wrapper.py:21-28 | without a break, all pending PDFs were gathered, which is what `BatchLen` allows |
| Marker.BatchLenAtBreak | marker/01_marker_pdf_to_md_wrapper.py:26-28 | the break comes after the append that reaches the batch size, or after the first append for a batch size below one |
| Marker.BatchMembers | marker/01_marker_pdf_to_md_wrapper.py:20-26 | the batch is sorted, and each member is a `*.pdf` entry of the input directory whose output is missing |
| Marker.BuildEnv | marker/01_marker_pdf_to_md_wrapper.py:47-49 | the environment sets `NUM_DEVICES` and `NUM_WORKERS` and keeps every other variable |
| Marker.LinkPath | marker/01_marker_pdf_to_md_wrapper.py:40-41 | defines `os.path.join(tmp_input, os.path.basename(f))` |
| Marker.RemoveTree | marker/01_marker_pdf_to_md_wrapper.py:54 | `rmtree` removes exactly the paths at or below the root |
| Marker.Under | marker/01_marker_pdf_to_md_wrapper.py:54 | defines the paths `shutil.rmtree(root)` removes: the root and every path below it |
| Marker.RemoveLinks | marker/01_marker_pdf_to_md_wrapper.py:54 | `rmtree` removes exactly the links at or below the root and keeps the others' targets |
| Marker.RemoveTreeMonotone | marker/01_marker_pdf_to_md_wrapper.py:54 | removing the tree keeps the links among the existing paths |
| Marker.LinkAll | marker/01_marker_pdf_to_md_wrapper.py:39-43 | links are only added, never retargeted, and only at the link paths of batch files |
| Marker.LinkAllSnoc | marker/01_marker_pdf_to_md_wrapper.py:39-43 | one more batch file gets a link to its target exactly when its link path does not exist yet |
| Marker.LinkAllLinksEveryFile | marker/01_marker_pdf_to_md_wrapper.py:39-43 | every batch file's link path exists afterwards; one that was new points at the file's absolute path |
| Marker.LinkAllNothingNew | marker/01_marker_pdf_to_md_wrapper.py:42 | when every link path exists already, linking changes nothing |
| Marker.LinkAllIdempotent | marker/01_marker_pdf_to_md_wrapper.py:39-43 | linking the same batch a second time adds nothing |
| Marker.RemoveTreeAfterLinking | marker/01_marker_pdf_to_md_wrapper.py:35-54 | links made inside the root all go when the root is removed |
| Marker.LinkPathUnderTmp | marker/01_marker_pdf_to_md_wrapper.py:35-41 | every link path lies inside `tmp_batch` |
| Marker.CleanupLeavesOutsideUnchanged | marker/01_marker_pdf_to_md_wrapper.py:35-54 | after cleanup, the paths outside `tmp_batch` are exactly those there before the run |
| Marker.Host.constructor | marker/01_marker_pdf_to_md_wrapper.py:8 | the host starts with the given paths and links and no command run |
| Marker.Host.LinkFiles | marker/01_marker_pdf_to_md_wrapper.py:39-43 | the symlink loop is `LinkAll` with `os.path.abspath` targets; it runs no command |
| Marker.Host.Run | marker/01_marker_pdf_to_md_wrapper.py:18-55 | an empty batch changes nothing and runs nothing; otherwise exactly one command `[marker_command, tmp_input, output_dir]` runs, with the built environment and the batch linked, and `tmp_batch` is removed afterwards |

## Left out

- PyMuPDF (`fitz.open`, `load_page`, `get_text`) and Docling's converter are foreign libraries. A
  document is its page texts or an error (`Pdf`); a conversion is Markdown or an error
  (`Conversion`).
- The process pools (`multiprocessing.Pool`, `Manager().dict()`) are modelled as a sequential
  map in task order over one shared state. Interleavings of concurrent workers are not modelled.
  With them, two workers may convert the same file when both pass the cache check before either
  records its key.
- `print` output is not modelled, except Docling's per-record log lines, which are returned as
  strings.
- `argparse` is not modelled. Its values, defaults included, are parameters.
- Failures while writing an output file (the `open(..., "w")` inside the worker's `try`) are not
  modelled. Neither are partially written files. A write always succeeds in the model.
- `Strings.Lower`: only ASCII letters are lowered. Every comparison the drivers make is against
  `.pdf`, `.md` or `.txt`. Python's full `str.lower` maps only two non-ASCII characters to ASCII
  letters: U+0130 becomes `i` plus a combining dot, and the Kelvin sign becomes `k`. Neither
  letter occurs in those suffixes, so the comparisons come out the same.
- Paths are plain strings. `pathlib` normalisation (collapsing `//`, dropping `.` components) and
  the joining of a relative input directory with the current directory are not modelled.
  `os.path.abspath` is a parameter.
- `sorted` on `pathlib.Path` objects compares path components. Here it compares the path strings
  instead. These agree for entries of one directory, which share their parent.
- The marker subprocess's effect on the output directory, and its exit status (ignored by the
  wrapper), are not modelled. The run is recorded with its command, environment and visible links.
- `os.path.exists` returns false for a dangling symbolic link, after which `os.symlink` raises.
  The model's set of existing paths does not distinguish dangling links.
- `os.makedirs` for the output directories is left out. A missing output directory is an empty
  one. The Docling `Run` takes the output directory as it stands.
- Marker.Host.Run: removes `tmp_batch` after every invocation. In the wrapper, an exception from
  `subprocess.run` (for example, a missing marker command) ends the script before
  `shutil.rmtree`, so `tmp_batch` and its links stay behind. That path is not modelled.
- A missing `--file_list` file, and other uncaught exceptions that end a run, are not modelled.
  `PymuFromList` takes the file's lines, with `None` for an absent or empty option.
- The marker glob is modelled as a case-sensitive `*.pdf` over the last component that skips
  hidden names. Glob's other special characters in the input directory's path are not modelled.

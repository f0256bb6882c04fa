/** The bookkeeping the two PyMuPDF drivers share: completion keys `<stem>_pages<N>`, the shared
    processed-cache (a `Manager().dict()` used as a set of keys), the output directory, the
    cache-guarded worker step, the preload from existing `.txt` outputs and the selection of
    unprocessed PDFs. */
module PymuCache {
  import opened Strings
  import opened Paths
  import opened Seqs

  /** A PDF as PyMuPDF presents it: the text of each page in order, or the error `fitz.open`
      (or a page load) raises. */
  datatype Pdf = Parsed(pages: seq<string>) | Unreadable(error: string)

  /** What the extraction after both guards yields: the text to write, or the message of the
      exception that aborted it (caught and printed by the worker). */
  datatype Extraction = Text(text: string) | Raised(error: string)

  /** Which of the four exits of `process_pdf` a call took. */
  datatype Outcome = SkippedCached | SkippedExisting | Written(outName: string) | Failed(error: string)

  /** The state a worker reads and changes: the shared cache and the output directory
      (file name to contents). */
  datatype Store = Store(cache: set<string>, outputs: map<string, string>)

  /** The `_pages<N>` label that completes a key. */
  function Label(pages: int): string
  {
    "_pages" + IntToString(pages)
  }

  /** The key the selection loop checks for an input path: `f"{stem}_pages{N}"`. */
  function SelectionKey(path: string, pages: int): string
  {
    Stem(path) + Label(pages)
  }

  /** The output file a key names: `f"{key}.txt"` in the output directory. */
  function OutputName(key: string): string
  {
    key + ".txt"
  }

  /** The worker's cache guard and output-exists guard around the extraction: a cached key is
      skipped with nothing changed; an existing output is skipped and its key recorded; otherwise
      the extracted text is written under the key's file name and the key recorded, unless the
      extraction raised, which changes nothing. */
  function GuardedStep(st: Store, key: string, work: Extraction): (r: (Store, Outcome))
    ensures st.cache <= r.0.cache <= st.cache + {key}
    ensures key in r.0.cache <==> !r.1.Failed?
    ensures forall n :: n in st.outputs ==> n in r.0.outputs && r.0.outputs[n] == st.outputs[n]
    ensures r.0.outputs.Keys <= st.outputs.Keys + {OutputName(key)}
    ensures r.1.Written? <==> OutputName(key) !in st.outputs && OutputName(key) in r.0.outputs
    ensures r.1.Written? ==> work.Text? && r.1.outName == OutputName(key) && r.0.outputs[OutputName(key)] == work.text
    ensures r.1 == SkippedCached <==> key in st.cache
    ensures key in st.cache ==> r == (st, SkippedCached)
    ensures key !in st.cache && OutputName(key) in st.outputs ==> r == (st.(cache := st.cache + {key}), SkippedExisting)
    ensures key !in st.cache && OutputName(key) !in st.outputs && work.Text? ==>
              r == (Store(st.cache + {key}, st.outputs[OutputName(key) := work.text]), Written(OutputName(key)))
    ensures r.1.Failed? <==> key !in st.cache && OutputName(key) !in st.outputs && work.Raised?
    ensures r.1.Failed? ==> r == (st, Failed(work.error))
    ensures key in r.0.cache && key !in st.cache ==> OutputName(key) in r.0.outputs
  {
    if key in st.cache then (st, SkippedCached)
    else if OutputName(key) in st.outputs then (st.(cache := st.cache + {key}), SkippedExisting)
    else match work
      case Raised(e) => (st, Failed(e))
      case Text(t) => (Store(st.cache + {key}, st.outputs[OutputName(key) := t]), Written(OutputName(key)))
  }

  /** Running the step again for the same key after it succeeded is a cache hit that changes
      nothing, whatever the second extraction would have given. */
  lemma {:induction false} GuardedStepIdempotent(st: Store, key: string, first: Extraction, second: Extraction)
    requires !GuardedStep(st, key, first).1.Failed?
    ensures GuardedStep(GuardedStep(st, key, first).0, key, second)
         == (GuardedStep(st, key, first).0, SkippedCached)
  {
  }

  /** A suffix counts as `.txt` or `.pdf` after `str.lower()`. */
  predicate HasSuffix(path: string, ext: string)
  {
    Lower(Suffix(path)) == ext
  }

  /** The key the preload rebuilds from an output file's stem: `stem.replace("_pages{N}", "")`
      followed by `_pages{N}`. */
  function PreloadKey(stem: string, pages: int): string
  {
    Replace(stem, Label(pages), "") + Label(pages)
  }

  /** The keys the preload adds for the names in the output directory: one per `.txt` file. */
  function PreloadKeys(names: set<string>, pages: int): set<string>
  {
    set n | n in names && HasSuffix(n, ".txt") :: PreloadKey(Stem(n), pages)
  }

  /** Apart from its leading `_`, a label has no underscore. */
  lemma LabelHeadIsUnique(pages: int)
    ensures HeadIsUnique(Label(pages))
  {
    var l := Label(pages);
    var s := IntToString(pages);
    forall k | 0 < k < |l| ensures l[k] != l[0] {
      if k >= 6 {
        assert l[k] == s[k - 6];
      }
    }
  }

  /** The preload gives back `X_pagesN` for an output stem `X_pagesN` whose `X` does not itself
      contain `_pagesN`. */
  lemma PreloadRecoversKey(x: string, pages: int)
    requires !Occurs(x, Label(pages))
    ensures PreloadKey(x + Label(pages), pages) == x + Label(pages)
  {
    LabelHeadIsUnique(pages);
    ReplaceRemovesSuffix(x, Label(pages));
  }

  /** The output file a key names is a `.txt` file whose stem is the key. */
  lemma OutputNameStem(key: string)
    requires key != [] && '/' !in key
    ensures Stem(OutputName(key)) == key
    ensures HasSuffix(OutputName(key), ".txt")
  {
    StemOfPlainName(key, ".txt");
    SuffixTxt(OutputName(key));
  }

  lemma SuffixTxt(p: string)
    requires Suffix(p) == ".txt"
    ensures HasSuffix(p, ".txt")
  {
    LowerOfLowercase(".txt");
  }

  /** Text with no upper-case ASCII letter is its own lower case. */
  lemma LowerOfLowercase(s: string)
    requires forall i :: 0 <= i < |s| ==> !('A' <= s[i] <= 'Z')
    ensures Lower(s) == s
  {
  }

  /** An output `X_pagesN.txt` in the output directory makes the preload record `X_pagesN`, the
      key the selection loop checks for an input whose stem is `X`. */
  lemma PreloadSeesOutput(names: set<string>, x: string, pages: int)
    requires '/' !in x && !Occurs(x, Label(pages))
    requires OutputName(x + Label(pages)) in names
    ensures x + Label(pages) in PreloadKeys(names, pages)
  {
    var key := x + Label(pages);
    assert '/' !in Label(pages) by {
      assert forall i :: 6 <= i < |Label(pages)| ==> Label(pages)[i] == IntToString(pages)[i - 6];
    }
    assert '/' !in key by {
      assert forall i :: |x| <= i < |key| ==> key[i] == Label(pages)[i - |x|];
      assert forall i :: 0 <= i < |x| ==> key[i] == x[i];
    }
    OutputNameStem(key);
    PreloadRecoversKey(x, pages);
  }

  /** The shared cache and the output directory, as the worker processes see them. */
  class Workspace {
    var cache: set<string>
    var outputs: map<string, string>

    /** An empty cache over an output directory holding `existing`. */
    constructor (existing: map<string, string>)
      ensures cache == {} && outputs == existing
    {
      cache := {};
      outputs := existing;
    }

    function State(): Store
      reads this
    {
      Store(cache, outputs)
    }

    /** The preload loop over the output directory's entries, in whatever order `iterdir`
        yields them: every `.txt` file contributes its rebuilt key; the directory is unchanged. */
    method Preload(pages: int)
      modifies this
      ensures outputs == old(outputs)
      ensures cache == old(cache) + PreloadKeys(outputs.Keys, pages)
    {
      var rest := outputs.Keys;
      ghost var done: set<string> := {};
      while rest != {}
        invariant outputs == old(outputs)
        invariant done + rest == old(outputs).Keys && done !! rest
        invariant cache == old(cache) + PreloadKeys(done, pages)
        decreases rest
      {
        var name :| name in rest;
        var added: set<string> := {};
        if HasSuffix(name, ".txt") {
          added := {PreloadKey(Stem(name), pages)};
          cache := cache + added;
        }
        PreloadKeysAdd(done, name, pages);
        UnionAssociates(old(cache), PreloadKeys(done, pages), added);
        MoveOne(done, rest, old(outputs).Keys, name);
        rest := rest - {name};
        done := done + {name};
      }
    }
  }

  /** Moving one name from the names still to visit to those visited keeps the partition. */
  lemma MoveOne(done: set<string>, rest: set<string>, all: set<string>, name: string)
    requires done + rest == all && done !! rest && name in rest
    ensures (done + {name}) + (rest - {name}) == all && (done + {name}) !! (rest - {name})
    ensures rest - {name} < rest
  {
  }

  lemma UnionAssociates(a: set<string>, b: set<string>, c: set<string>)
    ensures (a + b) + c == a + (b + c)
  {
  }

  /** One more entry adds its rebuilt key if it is a `.txt` file, and nothing otherwise. */
  lemma PreloadKeysAdd(names: set<string>, name: string, pages: int)
    ensures PreloadKeys(names + {name}, pages)
         == PreloadKeys(names, pages) + (if HasSuffix(name, ".txt") then {PreloadKey(Stem(name), pages)} else {})
  {
  }

  /** `p.suffix.lower() == ".pdf"`. */
  predicate IsPdfPath(path: string)
  {
    HasSuffix(path, ".pdf")
  }

  /** The candidates of a directory scan: `sorted(p for p in iterdir() if p.suffix.lower() == ".pdf")`. */
  function PdfCandidates(listing: seq<string>): seq<string>
  {
    Sort(Filter(listing, IsPdfPath))
  }

  /** The candidates are exactly the `.pdf` entries, sorted, whatever order the directory was
      listed in. */
  lemma PdfCandidatesSpec(listing: seq<string>, other: seq<string>)
    requires multiset(other) == multiset(listing)
    ensures Sorted(PdfCandidates(listing))
    ensures forall p :: p in PdfCandidates(listing) <==> p in listing && IsPdfPath(p)
    ensures PdfCandidates(other) == PdfCandidates(listing)
  {
    SortSorted(Filter(listing, IsPdfPath));
    FilterMembers(listing, IsPdfPath);
    var c := PdfCandidates(listing);
    forall p ensures p in c <==> p in Filter(listing, IsPdfPath) {
      assert p in c <==> p in multiset(c);
    }
    FilterMultiplicity(listing, other, IsPdfPath);
    SortIgnoresListingOrder(Filter(listing, IsPdfPath), Filter(other, IsPdfPath));
  }

  /** Filtering two listings of the same entries gives the same entries. */
  lemma {:induction false} FilterMultiplicity(a: seq<string>, b: seq<string>, keep: string -> bool)
    requires multiset(a) == multiset(b)
    ensures multiset(Filter(a, keep)) == multiset(Filter(b, keep))
  {
    FilterCount(a, keep);
    FilterCount(b, keep);
    assert forall x :: multiset(Filter(a, keep))[x] == multiset(Filter(b, keep))[x];
  }

  /** An element occurs in the filtered sequence as often as in the original if it passes, and
      not at all otherwise. */
  lemma {:induction false} FilterCount(s: seq<string>, keep: string -> bool)
    ensures forall x :: multiset(Filter(s, keep))[x] == (if keep(x) then multiset(s)[x] else 0)
    decreases |s|
  {
    if s != [] {
      FilterCount(s[..|s| - 1], keep);
      assert s == s[..|s| - 1] + [s[|s| - 1]];
    }
  }

  /** The files whose key is not in the cache, in candidate order. */
  function Unprocessed(files: seq<string>, cache: set<string>, pages: int): seq<string>
  {
    Filter(files, f => SelectionKey(f, pages) !in cache)
  }

  /** The selection loop: `for pdf_file in pdf_files: if key not in shared_processed: append`. */
  method SelectUnprocessed(files: seq<string>, cache: set<string>, pages: int)
    returns (unprocessed: seq<string>)
    ensures unprocessed == Unprocessed(files, cache, pages)
    ensures forall f :: f in unprocessed <==> f in files && SelectionKey(f, pages) !in cache
  {
    unprocessed := [];
    var i := 0;
    while i < |files|
      invariant 0 <= i <= |files|
      invariant unprocessed == Unprocessed(files[..i], cache, pages)
    {
      FilterSnoc(files, i, f => SelectionKey(f, pages) !in cache);
      var key := SelectionKey(files[i], pages);
      if key !in cache {
        unprocessed := unprocessed + [files[i]];
      }
      i := i + 1;
    }
    assert files[..i] == files;
    FilterMembers(files, f => SelectionKey(f, pages) !in cache);
  }

  /** The selection keeps the candidates' order: sorted candidates stay sorted, and filtering
      distributes over any split of the candidate list. */
  lemma UnprocessedKeepsOrder(files: seq<string>, more: seq<string>, cache: set<string>, pages: int)
    ensures Unprocessed(files + more, cache, pages)
         == Unprocessed(files, cache, pages) + Unprocessed(more, cache, pages)
    ensures Sorted(files) ==> Sorted(Unprocessed(files, cache, pages))
  {
    FilterConcat(files, more, f => SelectionKey(f, pages) !in cache);
    if Sorted(files) {
      FilterSorted(files, f => SelectionKey(f, pages) !in cache);
    }
  }

  /** `unprocessed_files[:batch_size]`: a prefix of the unprocessed files, `min(batch_size, |U|)`
      long for a non-negative batch size (a negative one drops that many from the end, as
      Python's slice does). */
  lemma ScheduledIsPrefix(unprocessed: seq<string>, batchSize: int)
    ensures SliceTo(unprocessed, batchSize) == unprocessed[..|SliceTo(unprocessed, batchSize)|]
    ensures batchSize >= 0 ==> |SliceTo(unprocessed, batchSize)|
                               == (if batchSize < |unprocessed| then batchSize else |unprocessed|)
    ensures batchSize < 0 ==> |SliceTo(unprocessed, batchSize)|
                              == (if |unprocessed| + batchSize > 0 then |unprocessed| + batchSize else 0)
  {
    SliceToLength(unprocessed, batchSize);
  }
  /** The pool's `starmap` over the scheduled files, taken in task order: each file goes
      through the guarded step under the key the worker computes for it (`key`), with the
      extraction its PDF yields (`work`). */
  function RunTasks(st: Store, tasks: seq<string>, key: string -> string, work: string -> Extraction): Store
    decreases |tasks|
  {
    if tasks == [] then st
    else
      var last := tasks[|tasks| - 1];
      GuardedStep(RunTasks(st, tasks[..|tasks| - 1], key, work), key(last), work(last)).0
  }

  /** Running one more task of a list applies the guarded step to the state before it. */
  lemma RunTasksSnoc(st: Store, tasks: seq<string>, i: nat, key: string -> string, work: string -> Extraction)
    requires i < |tasks|
    ensures RunTasks(st, tasks[..i + 1], key, work)
         == GuardedStep(RunTasks(st, tasks[..i], key, work), key(tasks[i]), work(tasks[i])).0
  {
    assert tasks[..i + 1][..i] == tasks[..i];
  }

  /** A batch never changes or removes an output that existed before it, and never removes a
      cache key. */
  lemma {:induction false} RunTasksKeepsExisting(st: Store, tasks: seq<string>, key: string -> string, work: string -> Extraction)
    ensures st.cache <= RunTasks(st, tasks, key, work).cache
    ensures forall n :: n in st.outputs ==>
              n in RunTasks(st, tasks, key, work).outputs && RunTasks(st, tasks, key, work).outputs[n] == st.outputs[n]
    decreases |tasks|
  {
    if tasks != [] {
      RunTasksKeepsExisting(st, tasks[..|tasks| - 1], key, work);
    }
  }

  /** After a batch, every scheduled file whose extraction did not raise has its key in the
      cache. */
  lemma {:induction false} RunTasksRecordsKeys(st: Store, tasks: seq<string>, key: string -> string, work: string -> Extraction, i: nat)
    requires i < |tasks| && work(tasks[i]).Text?
    ensures key(tasks[i]) in RunTasks(st, tasks, key, work).cache
    decreases |tasks|
  {
    if i < |tasks| - 1 {
      assert tasks[..|tasks| - 1][i] == tasks[i];
      RunTasksRecordsKeys(st, tasks[..|tasks| - 1], key, work, i);
    }
  }

  /** Every key a batch records was recorded together with its output: either the output was
      there already or the batch wrote it. */
  lemma {:induction false} RunTasksCachedHaveOutputs(st: Store, tasks: seq<string>, key: string -> string, work: string -> Extraction)
    ensures forall k :: k in RunTasks(st, tasks, key, work).cache && k !in st.cache ==>
              OutputName(k) in RunTasks(st, tasks, key, work).outputs
    decreases |tasks|
  {
    if tasks != [] {
      RunTasksCachedHaveOutputs(st, tasks[..|tasks| - 1], key, work);
    }
  }

  /** After a batch, every scheduled file whose extraction did not raise and whose key was not
      cached before the batch has its output file: written by the batch, or already there. */
  lemma RunTasksWritesOutputs(st: Store, tasks: seq<string>, key: string -> string, work: string -> Extraction, i: nat)
    requires i < |tasks| && work(tasks[i]).Text? && key(tasks[i]) !in st.cache
    ensures OutputName(key(tasks[i])) in RunTasks(st, tasks, key, work).outputs
  {
    RunTasksRecordsKeys(st, tasks, key, work, i);
    RunTasksCachedHaveOutputs(st, tasks, key, work);
  }

  /** A file whose output `X_pagesN.txt` is already in the output directory (its stem `X` not
      itself containing `_pagesN`) is not selected once the preload has run. */
  lemma OutputSkipsSelection(outputs: set<string>, files: seq<string>, path: string, pages: int)
    requires !Occurs(Stem(path), Label(pages))
    requires OutputName(SelectionKey(path, pages)) in outputs
    ensures path !in Unprocessed(files, PreloadKeys(outputs, pages), pages)
  {
    StemHasNoSlash(path);
    PreloadSeesOutput(outputs, Stem(path), pages);
    FilterMembers(files, f => SelectionKey(f, pages) !in PreloadKeys(outputs, pages));
  }
}

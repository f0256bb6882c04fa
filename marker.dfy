/** The marker wrapper (`marker/01_marker_pdf_to_md_wrapper.py`): pick the first `batch_size`
    PDFs (in sorted order) whose `<base>.md` is missing from the output directory, link them into
    `<input_dir>/tmp_batch`, run the marker command on that directory with the device and worker
    counts in its environment, and remove the directory again. */
module Marker {
  import opened Strings
  import opened Paths
  import opened Seqs

  /** The glob `*.pdf` on a path's last component: ends with `.pdf` (case-sensitive) and is not a
      hidden name. */
  predicate GlobPdf(p: string)
  {
    var name := FileName(p);
    EndsWith(name, ".pdf") && name[0] != '.'
  }

  /** `sorted(glob.glob(os.path.join(input_dir, "*.pdf")))`, for the input directory's entries. */
  function PdfFiles(listing: seq<string>): seq<string>
  {
    Sort(Filter(listing, GlobPdf))
  }

  /** `os.path.join(output_dir, os.path.splitext(os.path.basename(p))[0] + ".md")`. */
  function OutputFile(outputDir: string, p: string): string
  {
    PathJoin(outputDir, SplitExt(FileName(p)).0 + ".md")
  }

  /** A file is pending when its output file does not exist. */
  predicate Pending(outputDir: string, existing: set<string>, p: string)
  {
    OutputFile(outputDir, p) !in existing
  }

  /** The pending PDFs, in order. */
  function Unconverted(pdfFiles: seq<string>, outputDir: string, existing: set<string>): seq<string>
  {
    Filter(pdfFiles, p => Pending(outputDir, existing, p))
  }

  /** How many files the loop collects before it breaks: the check `len >= batch_size` follows
      each append, so a batch size below one still collects one file. */
  function BatchLen(batchSize: int, available: nat): (n: nat)
    ensures n <= available
    ensures available > 0 ==> n > 0
    ensures batchSize >= 1 ==> n <= batchSize
    ensures batchSize >= available ==> n == available
    ensures batchSize >= 1 ==> n == (if batchSize < available then batchSize else available)
    ensures batchSize < 1 ==> n == (if available > 0 then 1 else 0)
  {
    if available == 0 then 0
    else if batchSize <= 1 then 1
    else if batchSize < available then batchSize
    else available
  }

  /** The gathering loop with its early `break`. */
  method SelectBatch(pdfFiles: seq<string>, outputDir: string, existing: set<string>, batchSize: int)
    returns (batch: seq<string>)
    ensures batch == Unconverted(pdfFiles, outputDir, existing)[..BatchLen(batchSize, |Unconverted(pdfFiles, outputDir, existing)|)]
  {
    batch := [];
    var i := 0;
    while i < |pdfFiles|
      invariant 0 <= i <= |pdfFiles|
      invariant batch == Unconverted(pdfFiles[..i], outputDir, existing)
      invariant batch == [] || |batch| < batchSize
    {
      GatherStep(pdfFiles, i, outputDir, existing);
      var outputFile := OutputFile(outputDir, pdfFiles[i]);
      if outputFile !in existing {
        ghost var prev := batch;
        batch := batch + [pdfFiles[i]];
        if |batch| >= batchSize {
          GatherBreak(pdfFiles, i, outputDir, existing, batchSize, prev);
          return;
        }
      }
      i := i + 1;
    }
    assert pdfFiles[..i] == pdfFiles;
    GatherComplete(Unconverted(pdfFiles, outputDir, existing), batchSize);
  }

  /** The break: the files gathered from a prefix, ending with the one that reached the batch
      size, are the first `BatchLen` unconverted files. */
  lemma GatherBreak(pdfFiles: seq<string>, i: nat, outputDir: string, existing: set<string>, batchSize: int,
                    prev: seq<string>)
    requires i < |pdfFiles| && OutputFile(outputDir, pdfFiles[i]) !in existing
    requires prev == Unconverted(pdfFiles[..i], outputDir, existing)
    requires (prev == [] || |prev| < batchSize) && |prev + [pdfFiles[i]]| >= batchSize
    ensures prev + [pdfFiles[i]]
         == Unconverted(pdfFiles, outputDir, existing)[..BatchLen(batchSize, |Unconverted(pdfFiles, outputDir, existing)|)]
  {
    GatherStep(pdfFiles, i, outputDir, existing);
    FilterOfPrefix(pdfFiles, i + 1, p => Pending(outputDir, existing, p));
    BatchLenAtBreak(batchSize, |prev| + 1, |Unconverted(pdfFiles, outputDir, existing)|);
  }

  /** No break: every unconverted file was gathered, and there were fewer than the batch size. */
  lemma GatherComplete(u: seq<string>, batchSize: int)
    requires u == [] || |u| < batchSize
    ensures u == u[..BatchLen(batchSize, |u|)]
  {
  }

  /** One more file of the sorted list joins the gathered files when its output is missing. */
  lemma GatherStep(pdfFiles: seq<string>, i: nat, outputDir: string, existing: set<string>)
    requires i < |pdfFiles|
    ensures Unconverted(pdfFiles[..i + 1], outputDir, existing)
         == Unconverted(pdfFiles[..i], outputDir, existing)
            + (if OutputFile(outputDir, pdfFiles[i]) !in existing then [pdfFiles[i]] else [])
  {
    FilterSnoc(pdfFiles, i, p => Pending(outputDir, existing, p));
  }

  /** The loop breaks after the append that reaches the batch size, or after the first append
      when the batch size is below one. */
  lemma BatchLenAtBreak(batchSize: int, collected: nat, available: nat)
    requires 1 <= collected <= available && collected >= batchSize
    requires collected == 1 || collected - 1 < batchSize
    ensures BatchLen(batchSize, available) == collected
  {
  }

  /** The files taken are sorted candidates of the listing, each with its output missing. */
  lemma BatchMembers(listing: seq<string>, outputDir: string, existing: set<string>, n: nat)
    requires n <= |Unconverted(PdfFiles(listing), outputDir, existing)|
    ensures forall p :: p in Unconverted(PdfFiles(listing), outputDir, existing)[..n] ==>
              p in listing && GlobPdf(p) && Pending(outputDir, existing, p)
    ensures Sorted(Unconverted(PdfFiles(listing), outputDir, existing)[..n])
  {
    SortedSelection(listing, GlobPdf, p => Pending(outputDir, existing, p), n);
  }

  /** Where a batch file's link goes: `os.path.join(tmp_input, os.path.basename(f))`. */
  function LinkPath(tmpInput: string, f: string): string
  {
    PathJoin(tmpInput, FileName(f))
  }

  /** A command the wrapper ran: its argument vector, its environment, and the symbolic links
      present when it ran. */
  datatype Invocation = Invocation(cmd: seq<string>, env: map<string, string>, links: map<string, string>)

  /** `env = os.environ.copy()` with `NUM_DEVICES` and `NUM_WORKERS` set. */
  function BuildEnv(environ: map<string, string>, numDevices: string, numWorkers: string): (env: map<string, string>)
    ensures env.Keys == environ.Keys + {"NUM_DEVICES", "NUM_WORKERS"}
    ensures env["NUM_DEVICES"] == numDevices && env["NUM_WORKERS"] == numWorkers
    ensures forall k :: k in environ && k != "NUM_DEVICES" && k != "NUM_WORKERS" ==> env[k] == environ[k]
  {
    environ["NUM_DEVICES" := numDevices]["NUM_WORKERS" := numWorkers]
  }

  /** The paths at or below `root`. */
  predicate Under(p: string, root: string)
  {
    p == root || (|p| > |root| && p[..|root| + 1] == root + "/")
  }

  /** `shutil.rmtree(root)` on a set of existing paths. */
  function RemoveTree(paths: set<string>, root: string): (r: set<string>)
    ensures r <= paths
    ensures forall p :: p in paths ==> (p in r <==> !Under(p, root))
  {
    set p | p in paths && !Under(p, root)
  }

  /** Removing a tree from fewer paths leaves fewer paths. */
  lemma RemoveTreeMonotone(a: set<string>, b: set<string>, root: string)
    requires a <= b
    ensures RemoveTree(a, root) <= RemoveTree(b, root)
  {
  }

  /** The links that survive `shutil.rmtree(root)`. */
  function RemoveLinks(links: map<string, string>, root: string): (r: map<string, string>)
    ensures r.Keys == RemoveTree(links.Keys, root)
    ensures forall p :: p in r ==> r[p] == links[p]
  {
    map p | p in links && !Under(p, root) :: links[p]
  }

  /** The linking loop as a function: existing paths and links after linking each batch file
      `f` at `link(f)` to `target(f)`, a link being made only where nothing exists yet. */
  function LinkAll(existing: set<string>, links: map<string, string>, batch: seq<string>,
                   link: string -> string, target: string -> string): (r: (set<string>, map<string, string>))
    requires links.Keys <= existing
    ensures r.1.Keys <= r.0
    ensures existing <= r.0
    ensures r.0 - existing <= r.1.Keys
    ensures forall l :: l in links ==> l in r.1 && r.1[l] == links[l]
    ensures r.0 - existing <= set f | f in batch :: link(f)
    decreases |batch|
  {
    if batch == [] then (existing, links)
    else
      var prev := LinkAll(existing, links, batch[..|batch| - 1], link, target);
      var f := batch[|batch| - 1];
      assert (set g | g in batch[..|batch| - 1] :: link(g)) <= (set g | g in batch :: link(g)) by {
        assert forall g :: g in batch[..|batch| - 1] ==> g in batch;
      }
      if link(f) in prev.0 then prev
      else
        assert link(f) in set g | g in batch :: link(g);
        assert prev.0 - existing <= set g | g in batch :: link(g);
        assert (prev.0 + {link(f)}) - existing <= set g | g in batch :: link(g);
        (prev.0 + {link(f)}, prev.1[link(f) := target(f)])
  }

  /** Linking one more batch file makes its link unless its link path exists already. */
  lemma LinkAllSnoc(existing: set<string>, links: map<string, string>, batch: seq<string>, i: nat,
                    link: string -> string, target: string -> string)
    requires links.Keys <= existing && i < |batch|
    ensures var prev := LinkAll(existing, links, batch[..i], link, target);
            LinkAll(existing, links, batch[..i + 1], link, target)
            == if link(batch[i]) in prev.0 then prev
               else (prev.0 + {link(batch[i])}, prev.1[link(batch[i]) := target(batch[i])])
  {
    assert batch[..i + 1][..i] == batch[..i];
  }

  /** After linking, every batch file's link path exists; a file whose link path did not exist
      before, and which no earlier batch file shares, is linked to its target. */
  lemma {:induction false} LinkAllLinksEveryFile(existing: set<string>, links: map<string, string>, batch: seq<string>,
                                                link: string -> string, target: string -> string, i: nat)
    requires links.Keys <= existing && i < |batch|
    ensures link(batch[i]) in LinkAll(existing, links, batch, link, target).0
    ensures link(batch[i]) !in existing && (forall j :: 0 <= j < i ==> link(batch[j]) != link(batch[i]))
            ==> LinkAll(existing, links, batch, link, target).1[link(batch[i])] == target(batch[i])
    decreases |batch|
  {
    var init := batch[..|batch| - 1];
    var prev := LinkAll(existing, links, init, link, target);
    if i < |batch| - 1 {
      assert init[i] == batch[i];
      assert forall j :: 0 <= j < i ==> init[j] == batch[j];
      LinkAllLinksEveryFile(existing, links, init, link, target, i);
    } else if link(batch[i]) in prev.0 && link(batch[i]) !in existing {
      assert link(batch[i]) in prev.0 - existing;
      var g :| g in init && link(batch[i]) == link(g);
      var j :| 0 <= j < |init| && init[j] == g;
      assert batch[j] == g;
    }
  }

  /** When every link path already exists, the linking loop changes nothing. */
  lemma {:induction false} LinkAllNothingNew(existing: set<string>, links: map<string, string>, batch: seq<string>,
                                            link: string -> string, target: string -> string)
    requires links.Keys <= existing
    requires forall f :: f in batch ==> link(f) in existing
    ensures LinkAll(existing, links, batch, link, target) == (existing, links)
    decreases |batch|
  {
    if batch != [] {
      assert forall g :: g in batch[..|batch| - 1] ==> g in batch;
      LinkAllNothingNew(existing, links, batch[..|batch| - 1], link, target);
    }
  }

  /** Linking the same batch a second time adds no link and changes no target. */
  lemma LinkAllIdempotent(existing: set<string>, links: map<string, string>, batch: seq<string>,
                          link: string -> string, target: string -> string)
    requires links.Keys <= existing
    ensures var once := LinkAll(existing, links, batch, link, target);
            LinkAll(once.0, once.1, batch, link, target) == once
  {
    var once := LinkAll(existing, links, batch, link, target);
    forall f | f in batch ensures link(f) in once.0 {
      var i :| 0 <= i < |batch| && batch[i] == f;
      LinkAllLinksEveryFile(existing, links, batch, link, target, i);
    }
    LinkAllNothingNew(once.0, once.1, batch, link, target);
  }

  /** Links made at paths inside `root` all go again when `root` is removed. */
  lemma RemoveTreeAfterLinking(existing: set<string>, links: map<string, string>, root: string, batch: seq<string>,
                               link: string -> string, target: string -> string)
    requires links.Keys <= existing
    requires forall f :: f in batch ==> Under(link(f), root)
    ensures RemoveTree(LinkAll(existing + {root}, links, batch, link, target).0, root) == RemoveTree(existing, root)
  {
  }

  /** A batch file's link lies inside `tmp_batch`. */
  lemma LinkPathUnderTmp(inputDir: string, f: string)
    requires FileName(f) != []
    ensures Under(LinkPath(PathJoin(inputDir, "tmp_batch"), f), PathJoin(inputDir, "tmp_batch"))
  {
    var tmpInput := PathJoin(inputDir, "tmp_batch");
    var name := FileName(f);
    assert tmpInput[|tmpInput| - 1] == 'h';
    assert name[0] != '/' by { assert name[0] in name; }
    assert LinkPath(tmpInput, f) == tmpInput + "/" + name;
    assert (tmpInput + "/" + name)[..|tmpInput| + 1] == tmpInput + "/";
  }

  /** The links are made inside `tmp_batch`: removing it afterwards leaves the paths outside it
      as they were before the run. */
  lemma CleanupLeavesOutsideUnchanged(existing: set<string>, links: map<string, string>, inputDir: string,
                                      batch: seq<string>, abspath: string -> string)
    requires links.Keys <= existing
    requires forall f :: f in batch ==> FileName(f) != []
    ensures var tmpInput := PathJoin(inputDir, "tmp_batch");
            RemoveTree(LinkAll(existing + {tmpInput}, links, batch, f => LinkPath(tmpInput, f), abspath).0, tmpInput)
            == RemoveTree(existing, tmpInput)
  {
    var tmpInput := PathJoin(inputDir, "tmp_batch");
    forall f | f in batch ensures Under(LinkPath(tmpInput, f), tmpInput) {
      LinkPathUnderTmp(inputDir, f);
    }
    RemoveTreeAfterLinking(existing, links, tmpInput, batch, f => LinkPath(tmpInput, f), abspath);
  }

  /** The machine the wrapper runs on: the paths that exist, the symbolic links among them
      (link path to target), and the commands run so far. */
  class Host {
    var existing: set<string>
    var links: map<string, string>
    var invocations: seq<Invocation>

    /** Every symbolic link is an existing path. */
    ghost predicate Valid()
      reads this
    {
      links.Keys <= existing
    }

    constructor (paths: set<string>, symlinks: map<string, string>)
      requires symlinks.Keys <= paths
      ensures Valid()
      ensures existing == paths && links == symlinks && invocations == []
    {
      existing := paths;
      links := symlinks;
      invocations := [];
    }

    /** The linking loop: for each batch file, make the link unless its path exists. */
    method LinkFiles(tmpInput: string, batch: seq<string>, abspath: string -> string)
      requires Valid()
      modifies this
      ensures Valid()
      ensures (existing, links) == LinkAll(old(existing), old(links), batch, f => LinkPath(tmpInput, f), abspath)
      ensures invocations == old(invocations)
    {
      ghost var link := f => LinkPath(tmpInput, f);
      var i := 0;
      while i < |batch|
        invariant 0 <= i <= |batch|
        invariant Valid()
        invariant (existing, links) == LinkAll(old(existing), old(links), batch[..i], link, abspath)
        invariant invocations == old(invocations)
      {
        var f := batch[i];
        var linkPath := PathJoin(tmpInput, FileName(f));
        assert linkPath == link(f);
        LinkAllSnoc(old(existing), old(links), batch, i, link, abspath);
        if linkPath !in existing {
          links := links[linkPath := abspath(f)];
          existing := existing + {linkPath};
        }
        i := i + 1;
      }
      assert batch[..i] == batch;
    }

    /** `main`: gather the batch; with nothing to do, stop; otherwise create `tmp_batch`, link
        the batch into it, run `[marker_command, tmp_input, output_dir]` with the device and
        worker counts set, and remove `tmp_batch`. `abspath` stands for `os.path.abspath`. */
    method Run(listing: seq<string>, inputDir: string, outputDir: string, batchSize: int,
               numDevices: string, numWorkers: string, markerCommand: string,
               environ: map<string, string>, abspath: string -> string)
      returns (batch: seq<string>)
      requires Valid()
      modifies this
      ensures Valid()
      ensures batch == Unconverted(PdfFiles(listing), outputDir, old(existing))
                         [..BatchLen(batchSize, |Unconverted(PdfFiles(listing), outputDir, old(existing))|)]
      ensures batch == [] ==> existing == old(existing) && links == old(links) && invocations == old(invocations)
      ensures batch != [] ==>
                var tmpInput := PathJoin(inputDir, "tmp_batch");
                var linked := LinkAll(old(existing) + {tmpInput}, old(links), batch, f => LinkPath(tmpInput, f), abspath);
                invocations == old(invocations) + [Invocation([markerCommand, tmpInput, outputDir],
                                                              BuildEnv(environ, numDevices, numWorkers), linked.1)]
                && existing == RemoveTree(linked.0, tmpInput)
                && links == RemoveLinks(linked.1, tmpInput)
    {
      var pdfFiles := PdfFiles(listing);
      batch := SelectBatch(pdfFiles, outputDir, existing, batchSize);
      if batch == [] {
        return;
      }
      var tmpInput := PathJoin(inputDir, "tmp_batch");
      existing := existing + {tmpInput};
      LinkFiles(tmpInput, batch, abspath);
      var cmd := [markerCommand, tmpInput, outputDir];
      var env := environ;
      env := env["NUM_DEVICES" := numDevices];
      env := env["NUM_WORKERS" := numWorkers];
      assert env == BuildEnv(environ, numDevices, numWorkers);
      invocations := invocations + [Invocation(cmd, env, links)];
      RemoveTreeMonotone(links.Keys, existing, tmpInput);
      existing := RemoveTree(existing, tmpInput);
      links := RemoveLinks(links, tmpInput);
    }
  }
}

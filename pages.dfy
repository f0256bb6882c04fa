/** The plain-text layout both PyMuPDF drivers write: one block per extracted page,
    `"Page k:\n<text>\n"`, the blocks joined by `"\n"`. */
module Pages {
  import opened Strings

  /** The block for the page at 0-based index `index`, labelled with its 1-based number. */
  function PageBlock(index: nat, text: string): string
  {
    "Page " + IntToString(index + 1) + ":\n" + text + "\n"
  }

  /** The blocks of the first `count` pages in page order; none when `count <= 0`, as with
      Python's `range(count)`. */
  function PageBlocks(pages: seq<string>, count: int): seq<string>
    requires count <= |pages|
  {
    if count <= 0 then [] else seq(count, i requires 0 <= i < count => PageBlock(i, pages[i]))
  }

  /** The text written to the output file: `"\n".join(blocks)`. */
  function PageText(pages: seq<string>, count: int): string
    requires count <= |pages|
  {
    Join("\n", PageBlocks(pages, count))
  }

  /** The page loop: `for i in range(count)` load page `i`, take its text and append its block. */
  method CollectPages(pages: seq<string>, count: int) returns (blocks: seq<string>)
    requires count <= |pages|
    ensures |blocks| == (if count > 0 then count else 0)
    ensures forall i :: 0 <= i < |blocks| ==> blocks[i] == PageBlock(i, pages[i])
  {
    blocks := [];
    var i := 0;
    while i < count
      invariant 0 <= i <= (if count > 0 then count else 0)
      invariant |blocks| == i
      invariant forall j :: 0 <= j < i ==> blocks[j] == PageBlock(j, pages[j])
    {
      blocks := blocks + [PageBlock(i, pages[i])];
      i := i + 1;
    }
  }

  /** Collecting the pages and joining them gives the text the output file receives. */
  method RenderPages(pages: seq<string>, count: int) returns (text: string)
    requires count <= |pages|
    ensures text == PageText(pages, count)
  {
    var blocks := CollectPages(pages, count);
    assert blocks == PageBlocks(pages, count);
    text := Join("\n", blocks);
  }

  /** No page requested (or a negative count) gives an empty file. */
  lemma PageTextNoPages(pages: seq<string>, count: int)
    requires count <= 0
    ensures PageText(pages, count) == ""
  {
  }

  /** The file starts with the first page's block. */
  lemma PageTextFirst(pages: seq<string>)
    requires |pages| >= 1
    ensures PageText(pages, 1) == "Page 1:\n" + pages[0] + "\n"
  {
    assert PageBlocks(pages, 1) == [PageBlock(0, pages[0])];
    assert IntToString(1) == "1";
  }

  /** Extracting one more page appends a separator and that page's block: the blocks appear in
      page order and earlier pages are not disturbed. */
  lemma PageTextNextPage(pages: seq<string>, k: nat)
    requires 1 <= k < |pages|
    ensures PageText(pages, k + 1) == PageText(pages, k) + "\n" + PageBlock(k, pages[k])
  {
    assert PageBlocks(pages, k + 1) == PageBlocks(pages, k) + [PageBlock(k, pages[k])];
    JoinSnoc("\n", PageBlocks(pages, k), PageBlock(k, pages[k]));
  }

  /** The block count is the page count, and block `i` carries page `i`'s text under label `i + 1`. */
  lemma PageBlocksLabels(pages: seq<string>, count: int, i: nat)
    requires 0 < count <= |pages| && i < count
    ensures |PageBlocks(pages, count)| == count
    ensures PageBlocks(pages, count)[i] == "Page " + IntToString(i + 1) + ":\n" + pages[i] + "\n"
  {
  }
}

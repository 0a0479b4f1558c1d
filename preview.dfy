/** The presentation preview dialog (components/presentation-preview-dialog.tsx):
    a growing list of rendered page images, the index of the page on show and
    a loading flag. The loader appends pages in page order, skipping a page
    whose canvas has no 2D context; the first page ends loading and resets the
    index; any thrown error ends loading and keeps what was appended. PDF.js,
    `fetch` and the canvas are replaced by the outcome of each step. */
module Preview {
  import opened Text

  /** A rendered page, as the JPEG data URL the canvas produces. */
  type Image = string

  /** What the loop body meets for one page. */
  datatype PageStep =
    | NoContext              // `canvas.getContext("2d")` gave null: page skipped
    | Rendered(image: Image) // page rendered and encoded
    | PageFailed             // `getPage` or `render` threw: the loop ends

  /** What the loader meets before the loop. */
  datatype PdfDocument =
    | FetchNotOk(status: int)        // `response.ok` false
    | LoadFailed                     // import, `arrayBuffer` or `getDocument` threw
    | Decoded(steps: seq<PageStep>)  // one step per page, page 1 first

  // ------------------------------------------------- the loop, as functions

  predicate NoFailure(steps: seq<PageStep>)
  {
    forall i :: 0 <= i < |steps| ==> !steps[i].PageFailed?
  }

  /** The images the loop appends: the rendered pages up to the first
      failure, in page order. */
  function Images(steps: seq<PageStep>): seq<Image>
  {
    if |steps| == 0 then []
    else match steps[0]
      case NoContext => Images(steps[1..])
      case Rendered(image) => [image] + Images(steps[1..])
      case PageFailed => []
  }

  /** The page numbers of those images, counting the first step as page `n`. */
  function RenderedNumbers(steps: seq<PageStep>, n: nat): seq<nat>
  {
    if |steps| == 0 then []
    else match steps[0]
      case NoContext => RenderedNumbers(steps[1..], n + 1)
      case Rendered(_) => [n] + RenderedNumbers(steps[1..], n + 1)
      case PageFailed => []
  }

  /** Pages come out in strictly increasing page order, each one a rendered
      page of the document, so there are never more images than pages and
      the i-th image is the image of the i-th rendered page. */
  lemma RenderedNumbersShape(steps: seq<PageStep>, n: nat)
    ensures |RenderedNumbers(steps, n)| == |Images(steps)| <= |steps|
    ensures forall i :: 0 <= i < |RenderedNumbers(steps, n)| ==>
      n <= RenderedNumbers(steps, n)[i] < n + |steps| &&
      steps[RenderedNumbers(steps, n)[i] - n] == Rendered(Images(steps)[i])
    ensures forall i, j :: 0 <= i < j < |RenderedNumbers(steps, n)| ==>
      RenderedNumbers(steps, n)[i] < RenderedNumbers(steps, n)[j]
  {
    RenderedPagesMatch(steps, n);
    RenderedIncreasing(steps, n);
  }

  /** The i-th image is the image of page `RenderedNumbers(steps, n)[i]`. */
  predicate PagesMatch(steps: seq<PageStep>, n: nat)
  {
    && |RenderedNumbers(steps, n)| == |Images(steps)| <= |steps|
    && forall i :: 0 <= i < |RenderedNumbers(steps, n)| ==>
         n <= RenderedNumbers(steps, n)[i] < n + |steps| &&
         steps[RenderedNumbers(steps, n)[i] - n] == Rendered(Images(steps)[i])
  }

  lemma {:induction false} RenderedPagesMatch(steps: seq<PageStep>, n: nat)
    ensures PagesMatch(steps, n)
  {
    if |steps| > 0 {
      RenderedPagesMatch(steps[1..], n + 1);
      if steps[0].Rendered? {
        RenderedFirstMatch(steps, n);
      } else if steps[0].NoContext? {
        SkippedFirstMatch(steps, n);
      }
    }
  }

  /** A rendered first page is image 0; the others shift by one. */
  lemma RenderedFirstMatch(steps: seq<PageStep>, n: nat)
    requires |steps| > 0 && steps[0].Rendered? && PagesMatch(steps[1..], n + 1)
    ensures PagesMatch(steps, n)
  {
    var rest := RenderedNumbers(steps[1..], n + 1);
    var r := RenderedNumbers(steps, n);
    assert r == [n] + rest;
    assert Images(steps) == [steps[0].image] + Images(steps[1..]);
    forall i | 0 < i < |r|
      ensures n <= r[i] < n + |steps| && steps[r[i] - n] == Rendered(Images(steps)[i])
    {
      assert r[i] == rest[i - 1];
      assert steps[r[i] - n] == steps[1..][rest[i - 1] - (n + 1)];
    }
  }

  /** A skipped first page leaves the images and their page numbers as they
      are for the rest. */
  lemma SkippedFirstMatch(steps: seq<PageStep>, n: nat)
    requires |steps| > 0 && steps[0].NoContext? && PagesMatch(steps[1..], n + 1)
    ensures PagesMatch(steps, n)
  {
    var rest := RenderedNumbers(steps[1..], n + 1);
    var r := RenderedNumbers(steps, n);
    assert r == rest && Images(steps) == Images(steps[1..]);
    forall i | 0 <= i < |r|
      ensures n <= r[i] < n + |steps| && steps[r[i] - n] == Rendered(Images(steps)[i])
    {
      assert steps[r[i] - n] == steps[1..][rest[i] - (n + 1)];
    }
  }

  lemma {:induction false} RenderedIncreasing(steps: seq<PageStep>, n: nat)
    ensures forall i :: 0 <= i < |RenderedNumbers(steps, n)| ==> n <= RenderedNumbers(steps, n)[i]
    ensures forall i, j :: 0 <= i < j < |RenderedNumbers(steps, n)| ==>
      RenderedNumbers(steps, n)[i] < RenderedNumbers(steps, n)[j]
  {
    if |steps| > 0 {
      RenderedIncreasing(steps[1..], n + 1);
      var rest := RenderedNumbers(steps[1..], n + 1);
      if steps[0].Rendered? {
        var r := RenderedNumbers(steps, n);
        assert r == [n] + rest;
        forall i, j | 0 <= i < j < |r| ensures r[i] < r[j] {
          assert r[j] == rest[j - 1];
          if i > 0 {
            assert r[i] == rest[i - 1];
          }
        }
      }
    }
  }

  /** One more step after failure-free steps extends both sequences by that
      step's page, if it was rendered. */
  lemma {:induction false} StepSnoc(steps: seq<PageStep>, x: PageStep, n: nat)
    requires NoFailure(steps) && !x.PageFailed?
    ensures Images(steps + [x]) == Images(steps) + (if x.Rendered? then [x.image] else [])
    ensures RenderedNumbers(steps + [x], n) ==
      RenderedNumbers(steps, n) + (if x.Rendered? then [n + |steps|] else [])
  {
    if |steps| == 0 {
      assert steps + [x] == [x];
      assert [x][1..] == [];
    } else {
      assert (steps + [x])[1..] == steps[1..] + [x];
      StepSnoc(steps[1..], x, n + 1);
    }
  }

  /** The loop stops at the first failing page and appends nothing more. */
  lemma {:induction false} StopAtFailure(steps: seq<PageStep>, k: nat, n: nat)
    requires k < |steps| && steps[k].PageFailed? && NoFailure(steps[..k])
    ensures Images(steps) == Images(steps[..k])
    ensures RenderedNumbers(steps, n) == RenderedNumbers(steps[..k], n)
  {
    if k > 0 {
      assert steps[1..][..k - 1] == steps[..k][1..];
      assert steps[..k][0] == steps[0];
      StopAtFailure(steps[1..], k - 1, n + 1);
    }
  }

  /** Whether the loader leaves `loading` on: nothing ended it, i.e. the
      document decoded, page 1 was not appended, and no page failed. */
  predicate StillLoading(doc: PdfDocument)
  {
    doc.Decoded? && (|doc.steps| == 0 || doc.steps[0].NoContext?) && NoFailure(doc.steps)
  }

  /** Whether page 1 was appended, which resets the index to 0. */
  predicate FirstPageAppended(doc: PdfDocument)
  {
    doc.Decoded? && |doc.steps| > 0 && doc.steps[0].Rendered?
  }

  /** The images a load leaves in the list. */
  function LoadedImages(doc: PdfDocument): seq<Image>
  {
    if doc.Decoded? then Images(doc.steps) else []
  }

  /** A load ends loading unless it neither appended page 1 nor failed. In
      particular a document whose first page has no 2D context and that does
      not fail keeps the loading view up for good, even with later pages in
      the list. */
  lemma LoadEndsLoading(doc: PdfDocument)
    ensures !StillLoading(doc) <==>
      !doc.Decoded? || FirstPageAppended(doc) || !NoFailure(doc.steps)
    ensures FirstPageAppended(doc) ==> LoadedImages(doc) != []
    ensures !doc.Decoded? ==> LoadedImages(doc) == []
  {
  }

  // ------------------------------------------------------- navigation

  /** `Math.max(0, prev - 1)`. */
  function PrevIndex(p: int): (r: int)
    ensures r >= 0 && r >= p - 1
    ensures p >= 1 ==> r == p - 1
  {
    if p - 1 > 0 then p - 1 else 0
  }

  /** `Math.min(len - 1, prev + 1)`. */
  function NextIndex(p: int, len: int): (r: int)
    ensures r <= len - 1 && r <= p + 1
    ensures r == len - 1 || r == p + 1
  {
    if len - 1 < p + 1 then len - 1 else p + 1
  }

  /** On a non-empty list, Previous and Next keep an index that is in range;
      at the ends they stay put. */
  lemma NavigationInRange(p: int, len: int)
    requires 0 <= p < len
    ensures 0 <= PrevIndex(p) < len && 0 <= NextIndex(p, len) < len
    ensures p == 0 ==> PrevIndex(p) == 0
    ensures p == len - 1 ==> NextIndex(p, len) == p
    ensures p > 0 ==> PrevIndex(p) == p - 1
    ensures p < len - 1 ==> NextIndex(p, len) == p + 1
  {
  }

  // ------------------------------------------------------- the view

  /** The main area of the open dialog. `image` is absent when the index does
      not name a page (`pageImages[currentPage]` is `undefined`). */
  datatype MainArea =
    | LoadingMessage
    | PageView(image: Option<Image>, arrows: bool, prevDisabled: bool, nextDisabled: bool)
    | FailedMessage

  class PreviewDialog {
    var pages: seq<Image>
    var currentPage: int
    var loading: bool
    /** Page numbers of `pages`, as the loader numbered them. */
    ghost var pageNumbers: seq<nat>
    /** Page 1 has been appended since the last load started. */
    ghost var firstShown: bool

    /** The index is never negative, and once page 1 of the current load is
        in, it names a page. */
    ghost predicate Valid()
      reads this
    {
      0 <= currentPage && (firstShown ==> currentPage < |pages|)
    }

    /** `useState(0)`, `useState([])`, `useState(true)`. */
    constructor ()
      ensures Valid()
      ensures pages == [] && currentPage == 0 && loading && !firstShown
    {
      pages := [];
      currentPage := 0;
      loading := true;
      pageNumbers := [];
      firstShown := false;
    }

    /** Start of `loadPDF`: loading on and the list emptied. The index is
        left as it was. */
    method StartLoad()
      requires Valid()
      modifies this
      ensures Valid()
      ensures loading && pages == [] && pageNumbers == [] && !firstShown
      ensures currentPage == old(currentPage)
    {
      loading := true;
      pages := [];
      pageNumbers := [];
      firstShown := false;
    }

    /** One rendered page appended; page 1 also ends loading and shows the
        first page. */
    method DeliverPage(pageNum: nat, image: Image)
      requires Valid()
      modifies this
      ensures Valid()
      ensures pages == old(pages) + [image] && pageNumbers == old(pageNumbers) + [pageNum]
      ensures pageNum == 1 ==> !loading && currentPage == 0 && firstShown
      ensures pageNum != 1 ==>
        loading == old(loading) && currentPage == old(currentPage) && firstShown == old(firstShown)
    {
      pages := pages + [image];
      pageNumbers := pageNumbers + [pageNum];
      if pageNum == 1 {
        loading := false;
        currentPage := 0;
        firstShown := true;
      }
    }

    /** The `catch`: loading off, the pages already appended kept. */
    method Fail()
      requires Valid()
      modifies this
      ensures Valid()
      ensures !loading
      ensures pages == old(pages) && currentPage == old(currentPage)
      ensures pageNumbers == old(pageNumbers) && firstShown == old(firstShown)
    {
      loading := false;
    }

    /** The effect: nothing when closed or without a URL; otherwise one run
        of `loadPDF` on the document's outcomes, with no user input in
        between. */
    method LoadPdf(isOpen: bool, pdfUrl: string, doc: PdfDocument)
      requires Valid()
      modifies this
      ensures Valid()
      ensures !isOpen || pdfUrl == "" ==>
        pages == old(pages) && currentPage == old(currentPage) && loading == old(loading) &&
        pageNumbers == old(pageNumbers) && firstShown == old(firstShown)
      ensures isOpen && pdfUrl != "" ==>
        pages == LoadedImages(doc) &&
        pageNumbers == (if doc.Decoded? then RenderedNumbers(doc.steps, 1) else []) &&
        loading == StillLoading(doc) &&
        firstShown == FirstPageAppended(doc) &&
        currentPage == (if FirstPageAppended(doc) then 0 else old(currentPage))
    {
      if !isOpen || pdfUrl == "" {
        return;
      }
      StartLoad();
      match doc {
        case FetchNotOk(_) =>
          Fail();
        case LoadFailed =>
          Fail();
        case Decoded(steps) =>
          var pageNum := 1;
          while pageNum <= |steps|
            invariant 1 <= pageNum <= |steps| + 1
            invariant Valid()
            invariant NoFailure(steps[..pageNum - 1])
            invariant pages == Images(steps[..pageNum - 1])
            invariant pageNumbers == RenderedNumbers(steps[..pageNum - 1], 1)
            invariant firstShown == (pageNum > 1 && steps[0].Rendered?)
            invariant loading == !firstShown
            invariant currentPage == if firstShown then 0 else old(currentPage)
          {
            var done := steps[..pageNum - 1];
            assert steps[..pageNum] == done + [steps[pageNum - 1]];
            match steps[pageNum - 1] {
              case NoContext =>
                StepSnoc(done, NoContext, 1);
              case Rendered(image) =>
                StepSnoc(done, Rendered(image), 1);
                DeliverPage(pageNum, image);
              case PageFailed =>
                StopAtFailure(steps, pageNum - 1, 1);
                Fail();
                return;
            }
            pageNum := pageNum + 1;
          }
          assert steps[..pageNum - 1] == steps;
      }
    }

    /** `handlePrevious`; the arrows exist only when not loading and there
        are at least two pages. */
    method Prev()
      requires Valid() && !loading && |pages| > 1
      modifies this
      ensures Valid()
      ensures currentPage == PrevIndex(old(currentPage))
      ensures pages == old(pages) && loading == old(loading)
      ensures pageNumbers == old(pageNumbers) && firstShown == old(firstShown)
    {
      currentPage := PrevIndex(currentPage);
    }

    /** `handleNext`, under the same rendering condition. */
    method Next()
      requires Valid() && !loading && |pages| > 1
      modifies this
      ensures Valid()
      ensures currentPage == NextIndex(old(currentPage), |pages|)
      ensures pages == old(pages) && loading == old(loading)
      ensures pageNumbers == old(pageNumbers) && firstShown == old(firstShown)
    {
      currentPage := NextIndex(currentPage, |pages|);
    }

    /** A thumbnail click; thumbnails exist only when not loading, one per
        page. */
    method Jump(index: nat)
      requires Valid() && !loading && index < |pages|
      modifies this
      ensures Valid()
      ensures currentPage == index
      ensures pages == old(pages) && loading == old(loading)
      ensures pageNumbers == old(pageNumbers) && firstShown == old(firstShown)
    {
      currentPage := index;
    }

    /** The main area: the loading message while loading, otherwise the
        current page when there is one, otherwise the failure message. */
    function Main(): (r: MainArea)
      reads this
      ensures r.LoadingMessage? <==> loading
      ensures r.FailedMessage? <==> !loading && pages == []
      ensures r.PageView? ==>
        (r.image.Some? <==> 0 <= currentPage < |pages|) &&
        (r.image.Some? ==> r.image.value == pages[currentPage]) &&
        (r.arrows <==> |pages| > 1) &&
        (r.prevDisabled <==> currentPage == 0) &&
        (r.nextDisabled <==> currentPage == |pages| - 1)
    {
      if loading then LoadingMessage
      else if |pages| > 0 then
        PageView(if 0 <= currentPage < |pages| then Some(pages[currentPage]) else None,
                 |pages| > 1, currentPage == 0, currentPage == |pages| - 1)
      else FailedMessage
    }

    /** The thumbnail strip: one entry per page, flagged when it is the
        current one; shown only when not loading and there are pages. */
    function Thumbnails(): (r: Option<seq<bool>>)
      reads this
      ensures r.Some? <==> !loading && |pages| > 0
      ensures r.Some? ==> |r.value| == |pages|
      ensures r.Some? ==> forall i :: 0 <= i < |pages| ==> (r.value[i] <==> i == currentPage)
    {
      var p := currentPage;
      if !loading && |pages| > 0 then Some(seq(|pages|, i => i == p)) else None
    }

    /** The footer label `Page p+1 of len`, shown only when not loading and
        there are pages. */
    function PageLabel(): (r: Option<string>)
      requires Valid()
      reads this
      ensures r.Some? <==> !loading && |pages| > 0
    {
      if !loading && |pages| > 0 then
        Some("Page " + NatToString(currentPage + 1) + " of " + NatToString(|pages|))
      else None
    }
  }

  /** After page 1 of the current load, the view shows a real page, with
      exactly one thumbnail highlighted. */
  lemma ShownPageIsReal(d: PreviewDialog)
    requires d.Valid() && d.firstShown && !d.loading
    ensures d.Main().PageView? && d.Main().image == Some(d.pages[d.currentPage])
    ensures d.Thumbnails().Some? && d.Thumbnails().value[d.currentPage]
    ensures forall i :: 0 <= i < |d.pages| && d.Thumbnails().value[i] ==> i == d.currentPage
  {
  }

  /** Navigation keeps the index on a page: a load that appends page 1 and
      any number of Previous/Next/thumbnail clicks afterwards. */
  method BrowseAfterLoad(d: PreviewDialog, url: string, doc: PdfDocument, clicks: seq<int>)
    returns (shown: Image)
    requires d.Valid() && url != "" && FirstPageAppended(doc)
    modifies d
    ensures d.pages == LoadedImages(doc) && 0 <= d.currentPage < |d.pages|
    ensures shown == d.pages[d.currentPage]
  {
    d.LoadPdf(true, url, doc);
    var k := 0;
    while k < |clicks|
      invariant 0 <= k <= |clicks|
      invariant d.Valid() && d.firstShown && !d.loading && d.pages == LoadedImages(doc)
    {
      var c := clicks[k];
      if c < 0 && |d.pages| > 1 {
        d.Prev();
      } else if c == 0 && |d.pages| > 1 {
        d.Next();
      } else if c > 0 && c - 1 < |d.pages| {
        d.Jump(c - 1);
      }
      k := k + 1;
    }
    shown := d.pages[d.currentPage];
  }

  /** As written, starting a load does not reset the index, and only page 1
      resets it. A re-open whose page 1 has no 2D context and which then
      fails leaves the index of the previous visit: the footer reads
      `Page 3 of 1` and the main image has no source. */
  method StaleIndexAfterReopen() returns (footer: Option<string>, main: MainArea)
    ensures footer == Some("Page 3 of 1")
    ensures main == PageView(None, false, false, false)
  {
    var d := new PreviewDialog();
    d.LoadPdf(true, "u", Decoded([Rendered("a"), Rendered("b"), Rendered("c")]));
    d.Jump(2);
    d.LoadPdf(true, "u", Decoded([NoContext, Rendered("q"), PageFailed]));
    assert d.pages == ["q"] && d.currentPage == 2 && !d.loading;
    assert NatToString(3) == "3" && NatToString(1) == "1";
    assert "Page " + "3" + " of " + "1" == "Page 3 of 1";
    footer := d.PageLabel();
    main := d.Main();
  }

  /** As written, only page 1 or an error ends loading: a document whose page
      1 has no 2D context keeps the loading message up although a later page
      is in the list. */
  method LoadingStuckWithoutFirstPage() returns (main: MainArea, count: nat)
    ensures main == LoadingMessage && count == 1
  {
    var d := new PreviewDialog();
    d.LoadPdf(true, "u", Decoded([NoContext, Rendered("b")]));
    main := d.Main();
    count := |d.pages|;
  }
}

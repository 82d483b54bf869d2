/**
 * The page-assembly loop of `process_pdf` (embedding_utils.py). The PDF library, page
 * rendering, the OCR service and table rendering are outside the model: each page is
 * given as its native text, the text the OCR service would return for its raster, and
 * the rendered table strings.
 */
module PdfExtract {
  import opened TextUtils

  /** What one page offers the extractor. */
  datatype Page = Page(text: String, ocr: String, tables: seq<String>)

  datatype Kind = Ocr | Text | Table

  /** A labelled piece of a document; `page` is 1-based, as in the label. */
  datatype Segment = Segment(page: nat, kind: Kind, body: String)

  /** Pages whose stripped native text is shorter than this are sent to OCR. */
  const LowTextThreshold: nat := 20

  /** Separator between tables of one page, and between segments of a document. */
  const Blank: String := "\n\n"

  predicate NeedsOcr(p: Page) {
    |Strip(p.text)| < LowTextThreshold
  }

  function KindName(k: Kind): String {
    match k
    case Ocr => "OCR"
    case Text => "Text"
    case Table => "Table"
  }

  /** Position of a kind within one page: OCR first, then Text, then Table. */
  function Rank(k: Kind): nat {
    match k
    case Ocr => 0
    case Text => 1
    case Table => 2
  }

  /** The string appended to `document_text` for a segment:
      `[Page n Kind]:\n` followed by the body. */
  function Label(s: Segment): String {
    "[Page " + Dec(s.page) + " " + KindName(s.kind) + "]:\n" + s.body
  }

  /** `f` applied to every element, in order. */
  function Map<A, B>(f: A -> B, xs: seq<A>): (r: seq<B>)
    ensures |r| == |xs|
  {
    if xs == [] then [] else Map(f, xs[..|xs| - 1]) + [f(xs[|xs| - 1])]
  }

  lemma MapAppend<A, B>(f: A -> B, xs: seq<A>, x: A)
    ensures Map(f, xs + [x]) == Map(f, xs) + [f(x)]
  {
    assert (xs + [x])[..|xs|] == xs;
  }

  lemma {:induction false} MapConcat<A, B>(f: A -> B, a: seq<A>, b: seq<A>)
    ensures Map(f, a + b) == Map(f, a) + Map(f, b)
    decreases |b|
  {
    if b != [] {
      var init, last := b[..|b| - 1], b[|b| - 1];
      assert a + b == (a + init) + [last];
      assert b == init + [last];
      MapAppend(f, a + init, last);
      MapConcat(f, a, init);
      MapAppend(f, init, last);
      calc {
        Map(f, a + b);
        Map(f, a + init) + [f(last)];
        Map(f, a) + Map(f, init) + [f(last)];
        Map(f, a) + (Map(f, init) + [f(last)]);
        Map(f, a) + Map(f, b);
      }
    } else {
      assert a + b == a;
    }
  }

  /** The strings `process_pdf` appends for a sequence of segments. */
  function Labels(segs: seq<Segment>): (r: seq<String>)
    ensures |r| == |segs|
  {
    Map(Label, segs)
  }

  /** The label of each kind, spelled as the f-strings of `process_pdf` spell it. */
  lemma LabelIs(n: nat, k: Kind, body: String)
    ensures k == Ocr ==> Label(Segment(n, k, body)) == "[Page " + Dec(n) + " OCR]:\n" + body
    ensures k == Text ==> Label(Segment(n, k, body)) == "[Page " + Dec(n) + " Text]:\n" + body
    ensures k == Table ==> Label(Segment(n, k, body)) == "[Page " + Dec(n) + " Table]:\n" + body
  {
    var d := Dec(n);
    assert " " + KindName(k) + "]:\n" == " " + KindName(k) + "]:\n";
    match k {
      case Ocr => assert " " + "OCR" + "]:\n" == " OCR]:\n";
      case Text => assert " " + "Text" + "]:\n" == " Text]:\n";
      case Table => assert " " + "Table" + "]:\n" == " Table]:\n";
    }
  }

  /** The segments the loop body emits for page number `n` (1-based). */
  function PageSegments(n: nat, p: Page): seq<Segment> {
    OcrPart(n, p) + TextPart(n, p) + TablePart(n, p)
  }

  function OcrPart(n: nat, p: Page): seq<Segment> {
    if NeedsOcr(p) && Strip(p.ocr) != [] then [Segment(n, Ocr, p.ocr)] else []
  }

  function TextPart(n: nat, p: Page): seq<Segment> {
    if Strip(p.text) != [] then [Segment(n, Text, p.text)] else []
  }

  function TablePart(n: nat, p: Page): seq<Segment> {
    if p.tables != [] then [Segment(n, Table, Join(p.tables, Blank))] else []
  }

  /** The segments of a whole document, page after page. */
  function DocSegments(pages: seq<Page>): seq<Segment>
    decreases |pages|
  {
    if pages == [] then []
    else DocSegments(pages[..|pages| - 1]) + PageSegments(|pages|, pages[|pages| - 1])
  }

  /** The condition under which page `p` yields segment `s`, stated per kind: an OCR
      segment only for a low-text page whose OCR text is not blank, a Text segment iff the
      native text is not blank, a Table segment iff a table was found, its body the
      tables joined by a blank line. */
  predicate Emits(p: Page, s: Segment) {
    match s.kind
    case Ocr => NeedsOcr(p) && Strip(p.ocr) != [] && s.body == p.ocr
    case Text => Strip(p.text) != [] && s.body == p.text
    case Table => p.tables != [] && s.body == Join(p.tables, Blank)
  }

  /** `a` comes before `b` in document order: an earlier page, or the same page and an
      earlier kind. */
  predicate Precedes(a: Segment, b: Segment) {
    a.page < b.page || (a.page == b.page && Rank(a.kind) < Rank(b.kind))
  }

  predicate Ordered(segs: seq<Segment>) {
    forall a, b :: 0 <= a < b < |segs| ==> Precedes(segs[a], segs[b])
  }

  lemma PageSegmentsExactly(n: nat, p: Page, s: Segment)
    ensures s in PageSegments(n, p) <==> s.page == n && Emits(p, s)
  {
    var o, t, b := OcrPart(n, p), TextPart(n, p), TablePart(n, p);
    assert s in o + t + b <==> s in o || s in t || s in b;
  }

  /** Exactly the segments `Emits` allows appear, with the page's 1-based number. */
  lemma {:induction false} DocSegmentsExactly(pages: seq<Page>, s: Segment)
    ensures s in DocSegments(pages) <==> 1 <= s.page <= |pages| && Emits(pages[s.page - 1], s)
    decreases |pages|
  {
    if pages != [] {
      var init := pages[..|pages| - 1];
      DocSegmentsExactly(init, s);
      PageSegmentsExactly(|pages|, pages[|pages| - 1], s);
      assert s in DocSegments(pages) <==> s in DocSegments(init) || s in PageSegments(|pages|, pages[|pages| - 1]);
      if 1 <= s.page < |pages| {
        assert init[s.page - 1] == pages[s.page - 1];
      }
    }
  }

  lemma {:induction false} DocSegmentsPages(pages: seq<Page>)
    ensures forall k :: 0 <= k < |DocSegments(pages)| ==> 1 <= DocSegments(pages)[k].page <= |pages|
    decreases |pages|
  {
    if pages != [] {
      var init, last := pages[..|pages| - 1], pages[|pages| - 1];
      DocSegmentsPages(init);
      PageSegmentsOrdered(|pages|, last);
      var front, back := DocSegments(init), PageSegments(|pages|, last);
      var all: seq<Segment> := front + back;
      assert DocSegments(pages) == all;
      forall k | 0 <= k < |all|
        ensures 1 <= all[k].page <= |pages|
      {
        if k < |front| {
          assert all[k] == front[k];
        } else {
          assert all[k] == back[k - |front|];
        }
      }
    }
  }

  /** A page's own segments are in kind order and all carry its number. */
  lemma PageSegmentsOrdered(n: nat, p: Page)
    ensures var segs := PageSegments(n, p);
      Ordered(segs) && forall k :: 0 <= k < |segs| ==> segs[k].page == n
  {
    var o, t, b := OcrPart(n, p), TextPart(n, p), TablePart(n, p);
    var segs := o + t + b;
    forall k | 0 <= k < |segs|
      ensures segs[k].page == n && (k < |o| ==> segs[k].kind == Ocr)
      ensures (|o| <= k < |o| + |t| ==> segs[k].kind == Text) && (|o| + |t| <= k ==> segs[k].kind == Table)
    {
      if k < |o| {
        assert segs[k] == o[k];
      } else if k < |o| + |t| {
        assert segs[k] == t[k - |o|];
      } else {
        assert segs[k] == b[k - |o| - |t|];
      }
    }
  }

  lemma OrderedConcat(front: seq<Segment>, back: seq<Segment>, n: nat)
    requires Ordered(front) && Ordered(back)
    requires forall k :: 0 <= k < |front| ==> front[k].page < n
    requires forall k :: 0 <= k < |back| ==> back[k].page == n
    ensures Ordered(front + back)
  {
    var all := front + back;
    forall a, b | 0 <= a < b < |all| ensures Precedes(all[a], all[b]) {
      if b < |front| {
        assert all[a] == front[a] && all[b] == front[b];
      } else if a < |front| {
        assert all[a] == front[a] && all[b] == back[b - |front|];
      } else {
        assert all[a] == back[a - |front|] && all[b] == back[b - |front|];
      }
    }
  }

  /** Segments come in document order: pages ascending and, within a page, OCR before
      Text before Table; so no page has two segments of one kind. */
  lemma {:induction false} DocSegmentsOrdered(pages: seq<Page>)
    ensures Ordered(DocSegments(pages))
    decreases |pages|
  {
    if pages != [] {
      var init := pages[..|pages| - 1];
      DocSegmentsOrdered(init);
      DocSegmentsPages(init);
      PageSegmentsOrdered(|pages|, pages[|pages| - 1]);
      OrderedConcat(DocSegments(init), PageSegments(|pages|, pages[|pages| - 1]), |pages|);
    }
  }

  lemma DocSegmentsStep(pages: seq<Page>, n: nat)
    requires n < |pages|
    ensures DocSegments(pages[..n + 1]) == DocSegments(pages[..n]) + PageSegments(n + 1, pages[n])
  {
    assert pages[..n + 1][..n] == pages[..n];
  }

  lemma PartLabels(n: nat, p: Page)
    ensures Labels(OcrPart(n, p)) == if NeedsOcr(p) && Strip(p.ocr) != [] then [Label(Segment(n, Ocr, p.ocr))] else []
    ensures Labels(TextPart(n, p)) == if Strip(p.text) != [] then [Label(Segment(n, Text, p.text))] else []
    ensures Labels(TablePart(n, p)) == if p.tables != [] then [Label(Segment(n, Table, Join(p.tables, Blank)))] else []
  {
    MapAppend(Label, [], Segment(n, Ocr, p.ocr));
    MapAppend(Label, [], Segment(n, Text, p.text));
    MapAppend(Label, [], Segment(n, Table, Join(p.tables, Blank)));
  }

  lemma PageLabels(n: nat, p: Page)
    ensures Labels(PageSegments(n, p)) == Labels(OcrPart(n, p)) + Labels(TextPart(n, p)) + Labels(TablePart(n, p))
  {
    MapConcat(Label, OcrPart(n, p), TextPart(n, p));
    MapConcat(Label, OcrPart(n, p) + TextPart(n, p), TablePart(n, p));
  }

  /** The body of the page loop of `process_pdf`: the OCR, Text and Table segments of
      page number `n` appended to `documentText`. */
  method AppendPage(documentText: seq<String>, n: nat, page: Page) returns (out: seq<String>)
    ensures out == documentText + Labels(PageSegments(n, page))
  {
    ghost var o, t, b := Labels(OcrPart(n, page)), Labels(TextPart(n, page)), Labels(TablePart(n, page));
    PartLabels(n, page);
    out := documentText;
    var pageText := page.text;
    if |Strip(pageText)| < LowTextThreshold {
      var ocrText := page.ocr;
      if Strip(ocrText) != [] {
        out := out + [Label(Segment(n, Ocr, ocrText))];
      }
    }
    assert out == documentText + o;
    ghost var withOcr := out;
    if Strip(pageText) != [] {
      out := out + [Label(Segment(n, Text, pageText))];
    }
    assert out == withOcr + t;
    ghost var withText := out;
    var tables := page.tables;
    if tables != [] {
      out := out + [Label(Segment(n, Table, Join(tables, Blank)))];
    }
    assert out == withText + b;
    PageLabels(n, page);
    AppendAssoc(documentText, o, t, b);
  }

  lemma AppendAssoc<T>(d: seq<T>, o: seq<T>, t: seq<T>, b: seq<T>)
    ensures d + o + t + b == d + (o + t + b)
  {
  }

  /** One more page appends the labels of its own segments. */
  lemma LabelsStep(pages: seq<Page>, n: nat)
    requires n < |pages|
    ensures Labels(DocSegments(pages[..n + 1]))
      == Labels(DocSegments(pages[..n])) + Labels(PageSegments(n + 1, pages[n]))
  {
    DocSegmentsStep(pages, n);
    MapConcat(Label, DocSegments(pages[..n]), PageSegments(n + 1, pages[n]));
  }

  /** `document_text` once the loop has handled the first `n` pages. */
  function Assembled(pages: seq<Page>, n: nat): seq<String>
    requires n <= |pages|
  {
    if n == 0 then [] else Assembled(pages, n - 1) + Labels(PageSegments(n, pages[n - 1]))
  }

  /** After the first `n` pages, `document_text` holds the labels of their segments. */
  lemma {:induction false} AssembledLabels(pages: seq<Page>, n: nat)
    requires n <= |pages|
    ensures Assembled(pages, n) == Labels(DocSegments(pages[..n]))
  {
    if n == 0 {
      assert pages[..0] == [];
    } else {
      AssembledLabels(pages, n - 1);
      LabelsStep(pages, n - 1);
    }
  }

  /** The loop of `process_pdf` that fills `document_text`. */
  method AssembleSegments(pages: seq<Page>) returns (documentText: seq<String>)
    ensures documentText == Labels(DocSegments(pages))
  {
    documentText := [];
    var pageNum := 0;
    while pageNum < |pages|
      invariant 0 <= pageNum <= |pages|
      invariant documentText == Assembled(pages, pageNum)
    {
      documentText := AppendPage(documentText, pageNum + 1, pages[pageNum]);
      pageNum := pageNum + 1;
    }
    AssembledLabels(pages, |pages|);
    assert pages[..|pages|] == pages;
  }

  /** What `process_pdf` returns for a document, given the splitter. */
  function PdfChunks(pages: seq<Page>, split: String -> seq<String>): (r: seq<String>)
    ensures forall k :: 0 <= k < |r| ==> r[k] != [] && IsNormal(r[k])
  {
    ChunkText(Normalize(Join(Labels(DocSegments(pages)), Blank)), split)
  }

  /** `process_pdf`: assemble the labelled segments, join them with blank lines,
      normalise, and chunk. */
  method ProcessPdf(pages: seq<Page>, split: String -> seq<String>) returns (chunks: seq<String>)
    ensures chunks == PdfChunks(pages, split)
    ensures forall k :: 0 <= k < |chunks| ==> chunks[k] != [] && IsNormal(chunks[k])
  {
    var documentText := AssembleSegments(pages);
    var combinedText := Join(documentText, Blank);
    var normalizedText := Normalize(combinedText);
    chunks := ChunkText(normalizedText, split);
  }
}

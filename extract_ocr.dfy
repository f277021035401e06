/**
  The text side of the OCR script for the law PDFs (lois/extract_ocr.py): how the
  recognised pages are put together into one text, how each line is cleaned before
  it is laid out in the text PDF, where the two outputs go, and which PDFs of the
  folder are taken as inputs.

  Rasterising a page and recognising its text are opaque: `ocr(n)` is `None` when
  page `n` yields no image, and otherwise the text the OCR engine returns for it.
  The PDF layout engine is modelled as the list of lines it is handed; `fits(line)`
  says whether it accepts a body line (it raises otherwise, and the line is skipped).
*/
module ExtractOcr {
  import opened Wrappers
  import opened PyStr
  import opened Seqs
  import opened Paths

  /** The start of every page header; `save_text_pdf` sets such lines as headings. */
  const PageMarker := "--- Page "

  /** Words longer than this are cut down to this many characters. */
  const MaxWord := 80

  /** The OCR engine's answer for each page number. */
  type Ocr = nat -> Option<string>

  // ---------------------------------------------------------------------------
  // Page blocks (extract_text_from_pdf)
  // ---------------------------------------------------------------------------

  /** `f"--- Page {n} ---"`. */
  function PageHeader(n: nat): (h: string)
    ensures StartsWith(h, PageMarker)
    ensures '\n' !in h
  {
    var digits := NatToString(n);
    assert forall i :: 0 <= i < |digits| ==> digits[i] != '\n';
    PageMarker + digits + " ---"
  }

  /** The block of page `n`: its header, a newline, and the stripped OCR text. */
  function PageBlock(n: nat, text: string): (b: string)
    ensures StartsWith(b, PageMarker)
  {
    PageHeader(n) + "\n" + Strip(text)
  }

  /** The pages among `1..total` that yield an image, in the order they are visited. */
  function ImagePages(ocr: Ocr, total: nat): (ps: seq<nat>)
    ensures forall i :: 0 <= i < |ps| ==> 1 <= ps[i] <= total && ocr(ps[i]).Some?
    ensures forall i, j :: 0 <= i < j < |ps| ==> ps[i] < ps[j]
  {
    if total == 0 then []
    else ImagePages(ocr, total - 1) + (if ocr(total).Some? then [total] else [])
  }

  /** A page is listed exactly when it is in range and yields an image. */
  lemma {:induction false} ImagePagesMembers(ocr: Ocr, total: nat)
    ensures forall p :: p in ImagePages(ocr, total) <==> 1 <= p <= total && ocr(p).Some?
  {
    if total > 0 {
      ImagePagesMembers(ocr, total - 1);
    }
  }

  /** The `all_text` list once pages `1..total` have been visited. */
  function Blocks(ocr: Ocr, total: nat): seq<string>
  {
    if total == 0 then []
    else Blocks(ocr, total - 1) + (if ocr(total).Some? then [PageBlock(total, ocr(total).value)] else [])
  }

  /** There is one block per page that yields an image, in page order. */
  lemma {:induction false} BlocksOfPages(ocr: Ocr, total: nat)
    ensures |Blocks(ocr, total)| == |ImagePages(ocr, total)|
    ensures forall i :: 0 <= i < |Blocks(ocr, total)| ==>
      Blocks(ocr, total)[i] == PageBlock(ImagePages(ocr, total)[i], ocr(ImagePages(ocr, total)[i]).value)
  {
    if total > 0 {
      BlocksOfPages(ocr, total - 1);
    }
  }

  /** The text `extract_text_from_pdf` returns for a PDF of `total` pages. */
  function FullText(ocr: Ocr, total: nat): (r: string)
    ensures r == [] <==> forall p :: 1 <= p <= total ==> ocr(p).None?
    ensures r != [] ==> StartsWith(r, PageMarker)
  {
    NoBlocksIffNoImage(ocr, total);
    JoinedBlocksStart(ocr, total);
    Join("\n\n", Blocks(ocr, total))
  }

  /** `extract_text_from_pdf`: one page at a time, a block for each page with an image. */
  method ExtractTextFromPdf(ocr: Ocr, totalPages: nat) returns (text: string)
    ensures text == FullText(ocr, totalPages)
  {
    var allText: seq<string> := [];
    for page := 1 to totalPages + 1
      invariant allText == Blocks(ocr, page - 1)
    {
      var image := ocr(page);
      BlocksStep(ocr, page);
      if image.Some? {
        allText := allText + [PageBlock(page, image.value)];
      }
    }
    text := Join("\n\n", allText);
  }

  /** Visiting page `n` adds its block when it yields an image, and nothing otherwise. */
  lemma BlocksStep(ocr: Ocr, n: nat)
    requires n >= 1
    ensures ocr(n).Some? ==> Blocks(ocr, n) == Blocks(ocr, n - 1) + [PageBlock(n, ocr(n).value)]
    ensures ocr(n).None? ==> Blocks(ocr, n) == Blocks(ocr, n - 1)
  {
  }

  /** A join of parts starts with its first part. */
  lemma JoinStartsWithFirst(sep: string, parts: seq<string>)
    requires parts != []
    ensures StartsWith(Join(sep, parts), parts[0])
  {
    if |parts| > 1 {
      assert Join(sep, parts) == parts[0] + (sep + Join(sep, parts[1..]));
    }
  }

  /** There is no block exactly when no page yields an image. */
  lemma NoBlocksIffNoImage(ocr: Ocr, total: nat)
    ensures Blocks(ocr, total) == [] <==> forall p :: 1 <= p <= total ==> ocr(p).None?
  {
    BlocksOfPages(ocr, total);
    ImagePagesMembers(ocr, total);
    if Blocks(ocr, total) != [] {
      assert ImagePages(ocr, total)[0] in ImagePages(ocr, total);
    }
  }

  /** Joined with blank lines, no block gives the empty text, and blocks give a text that starts with a header. */
  lemma JoinedBlocksStart(ocr: Ocr, total: nat)
    ensures Blocks(ocr, total) == [] ==> Join("\n\n", Blocks(ocr, total)) == []
    ensures Blocks(ocr, total) != [] ==> StartsWith(Join("\n\n", Blocks(ocr, total)), PageMarker)
  {
    var bs := Blocks(ocr, total);
    if bs != [] {
      BlocksOfPages(ocr, total);
      JoinStartsWithFirst("\n\n", bs);
      var text := Join("\n\n", bs);
      assert StartsWith(bs[0], PageMarker);
      assert text[..|bs[0]|] == bs[0];
      assert text[..|PageMarker|] == bs[0][..|PageMarker|];
    }
  }

  /**
    The extracted text is blank, and nothing is written for the PDF, exactly when no
    page of it yields an image: every block starts with a visible header.
  */
  lemma BlankIffNoImage(ocr: Ocr, total: nat)
    ensures Strip(FullText(ocr, total)) == [] <==> forall p :: 1 <= p <= total ==> ocr(p).None?
  {
    var text := FullText(ocr, total);
    StripShape(text);
    if text != [] {
      var head := text[..|PageMarker|];
      assert head == PageMarker;
      assert text[0] == head[0] == '-';
      assert !IsSpace(text[0]);
    }
  }

  // ---------------------------------------------------------------------------
  // Line clean-up and layout (save_text_pdf)
  // ---------------------------------------------------------------------------

  /** One character through `encode("latin-1", errors="replace").decode("latin-1")`. */
  function Latin1Char(c: char): (d: char)
    ensures d as int < 256
    ensures c as int < 256 ==> d == c
  {
    if c as int < 256 then c else '?'
  }

  /** A line through the latin-1 round trip: characters beyond latin-1 become `?`. */
  function Latin1(line: string): (r: string)
    ensures |r| == |line|
    ensures forall i :: 0 <= i < |r| ==> r[i] == Latin1Char(line[i])
  {
    seq(|line|, i requires 0 <= i < |line| => Latin1Char(line[i]))
  }

  /** `w[:80] if len(w) > 80 else w`. */
  function Truncate(w: string): (r: string)
    ensures |r| <= MaxWord && |r| <= |w| && r == w[..|r|]
    ensures |w| <= MaxWord ==> r == w
    ensures |w| > MaxWord ==> |r| == MaxWord
  {
    if |w| > MaxWord then w[..MaxWord] else w
  }

  /** A truncated word is still a word. */
  lemma TruncatedWord(w: string)
    requires w != [] && NoSpace(w)
    ensures Truncate(w) != [] && NoSpace(Truncate(w))
  {
    var r := Truncate(w);
    assert forall i :: 0 <= i < |r| ==> r[i] == w[i];
  }

  /** The words of a line after the latin-1 round trip, each truncated. */
  function SafeWords(line: string): seq<string>
  {
    var words := SplitWs(Latin1(line));
    seq(|words|, k requires 0 <= k < |words| => Truncate(words[k]))
  }

  /**
    The cleaned body line: the truncated words joined with single spaces. Splitting it
    on whitespace again gives back exactly those words, so none is longer than 80.
  */
  function SanitizeLine(line: string): (r: string)
    ensures SplitWs(r) == SafeWords(line)
    ensures ShortWords(r)
  {
    SanitizedWords(line);
    SplitWsJoin(SafeWords(line));
    Join(" ", SafeWords(line))
  }

  /** Every word of `s` is non-empty and at most 80 characters long. */
  predicate ShortWords(s: string) {
    forall w :: w in SplitWs(s) ==> 0 < |w| <= MaxWord
  }

  /**
    The truncated words of a line are words, one per word of the line after the latin-1
    round trip: each is non-empty, at most 80 characters long, a prefix of the word it
    comes from, and that word itself when it was not longer than 80.
  */
  lemma SanitizedWords(line: string)
    ensures AreWords(SafeWords(line))
    ensures |SafeWords(line)| == |SplitWs(Latin1(line))|
    ensures forall k :: 0 <= k < |SafeWords(line)| ==>
      var w, orig := SafeWords(line)[k], SplitWs(Latin1(line))[k];
      0 < |w| <= MaxWord && w == orig[..|w|] && (|orig| <= MaxWord ==> w == orig)
  {
    var words := SafeWords(line);
    var origs := SplitWs(Latin1(line));
    SplitWsWords(Latin1(line));
    forall k | 0 <= k < |words|
      ensures words[k] != [] && NoSpace(words[k])
    {
      TruncatedWord(origs[k]);
    }
  }

  /** A line as `save_text_pdf` hands it to the layout engine. */
  datatype PdfLine = Heading(text: string) | Body(text: string)

  /** What one line of the text becomes in the text PDF. */
  function RenderLine(line: string, fits: string -> bool): (r: seq<PdfLine>)
    ensures |r| <= 1
    ensures StartsWith(line, PageMarker) <==> r == [Heading(line)]
    ensures !StartsWith(line, PageMarker) ==> r == [] || r == [Body(SanitizeLine(line))]
    ensures !StartsWith(line, PageMarker) ==> (r == [Body(SanitizeLine(line))] <==> fits(SanitizeLine(line)))
  {
    if StartsWith(line, PageMarker) then [Heading(line)]
    else
      var safe := SanitizeLine(line);
      if fits(safe) then [Body(safe)] else []
  }

  /** The lines handed to the layout engine for `lines`, in order. */
  function RenderLines(lines: seq<string>, fits: string -> bool): (r: seq<PdfLine>)
    ensures |r| <= |lines|
    ensures forall x :: x in r && x.Body? ==> ShortWords(x.text)
  {
    if lines == [] then []
    else RenderLines(lines[..|lines| - 1], fits) + RenderLine(lines[|lines| - 1], fits)
  }

  /** `t` is the cleaned form of some non-header line of `lines`. */
  ghost predicate IsBodyOf(lines: seq<string>, t: string) {
    exists l :: l in lines && !StartsWith(l, PageMarker) && t == SanitizeLine(l)
  }

  /** Where a laid-out line comes from: a header line verbatim, or a cleaned body line. */
  ghost predicate Origin(lines: seq<string>, x: PdfLine) {
    match x
    case Heading(t) => t in lines && StartsWith(t, PageMarker)
    case Body(t) => IsBodyOf(lines, t) && ShortWords(t)
  }

  /** A laid-out line keeps its origin when more lines are added around its own. */
  lemma OriginGrows(init: seq<string>, lines: seq<string>, x: PdfLine)
    requires forall l :: l in init ==> l in lines
    requires Origin(init, x)
    ensures Origin(lines, x)
  {
    if x.Body? {
      var l :| l in init && !StartsWith(l, PageMarker) && x.text == SanitizeLine(l);
      assert l in lines;
    }
  }

  /**
    Headings are header lines of the text, verbatim; every body line is the cleaned
    form of a non-header line of the text, and its words are at most 80 characters long.
  */
  lemma {:induction false} RenderedOrigins(lines: seq<string>, fits: string -> bool)
    ensures forall x :: x in RenderLines(lines, fits) ==> Origin(lines, x)
  {
    if lines != [] {
      var init, last := lines[..|lines| - 1], lines[|lines| - 1];
      RenderedOrigins(init, fits);
      assert lines == init + [last];
      assert RenderLines(lines, fits) == RenderLines(init, fits) + RenderLine(last, fits);
      forall x | x in RenderLines(lines, fits)
        ensures Origin(lines, x)
      {
        if x in RenderLines(init, fits) {
          OriginGrows(init, lines, x);
        } else {
          assert x in RenderLine(last, fits);
          if x.Body? {
            assert IsBodyOf(lines, x.text) by {
              assert last in lines;
            }
          }
        }
      }
    }
  }

  /** Every header line of the text is set as a heading. */
  lemma {:induction false} HeadingsKept(lines: seq<string>, fits: string -> bool)
    ensures forall l :: l in lines && StartsWith(l, PageMarker) ==> Heading(l) in RenderLines(lines, fits)
  {
    if lines != [] {
      var init, last := lines[..|lines| - 1], lines[|lines| - 1];
      HeadingsKept(init, fits);
      assert lines == init + [last];
      forall l | l in lines && StartsWith(l, PageMarker)
        ensures Heading(l) in RenderLines(lines, fits)
      {
        if l != last {
          assert l in init;
        }
      }
    }
  }

  /** Every non-header line of the text whose cleaned form the layout accepts is set as a body line. */
  lemma {:induction false} BodiesKept(lines: seq<string>, fits: string -> bool)
    ensures forall l :: l in lines && !StartsWith(l, PageMarker) && fits(SanitizeLine(l)) ==>
      Body(SanitizeLine(l)) in RenderLines(lines, fits)
  {
    if lines != [] {
      var init, last := lines[..|lines| - 1], lines[|lines| - 1];
      BodiesKept(init, fits);
      assert lines == init + [last];
      forall l | l in lines && !StartsWith(l, PageMarker) && fits(SanitizeLine(l))
        ensures Body(SanitizeLine(l)) in RenderLines(lines, fits)
      {
        if l != last {
          assert l in init;
        } else {
          assert RenderLine(last, fits) == [Body(SanitizeLine(l))];
        }
      }
    }
  }

  /** Laying out one more line appends what that line becomes. */
  lemma RenderStep(lines: seq<string>, i: nat, fits: string -> bool)
    requires i < |lines|
    ensures RenderLines(lines[..i + 1], fits) == RenderLines(lines[..i], fits) + RenderLine(lines[i], fits)
  {
    assert lines[..i + 1][..i] == lines[..i];
  }

  /** `save_text_pdf`: the text split on newlines, each line set as a heading or a cleaned body line. */
  method SaveTextPdf(text: string, fits: string -> bool) returns (doc: seq<PdfLine>)
    ensures doc == RenderLines(SplitOn(text, '\n'), fits)
  {
    var lines := SplitOn(text, '\n');
    doc := [];
    for i := 0 to |lines|
      invariant doc == RenderLines(lines[..i], fits)
    {
      var line := lines[i];
      RenderStep(lines, i, fits);
      if StartsWith(line, PageMarker) {
        doc := doc + [Heading(line)];
      } else {
        var safe := SanitizeLine(line);
        assert RenderLine(line, fits) == if fits(safe) then [Body(safe)] else [];
        if fits(safe) {
          doc := doc + [Body(safe)];
        }
      }
    }
    assert lines[..|lines|] == lines;
  }

  /** The first line of a page block is its header. */
  lemma BlockLines(n: nat, text: string)
    ensures SplitOn(PageBlock(n, text), '\n') == [PageHeader(n)] + SplitOn(Strip(text), '\n')
  {
    SplitOnAppend(PageHeader(n), Strip(text), '\n');
    SplitOnNoSep(PageHeader(n), '\n');
  }

  /** Joining with a blank line between: the lines of the first part, an empty line, the lines of the rest. */
  lemma JoinedLines(b: string, rest: string)
    ensures SplitOn(b + "\n\n" + rest, '\n') == SplitOn(b, '\n') + [""] + SplitOn(rest, '\n')
  {
    assert b + "\n\n" + rest == b + ['\n'] + ([] + ['\n'] + rest);
    SplitOnAppend(b, [] + ['\n'] + rest, '\n');
    SplitOnAppend([], rest, '\n');
    SplitOnNoSep([], '\n');
  }

  /** The first line of every block is a line of the joined text. */
  lemma {:induction false} FirstLinesOfJoin(bs: seq<string>)
    ensures forall k :: 0 <= k < |bs| ==> SplitOn(bs[k], '\n')[0] in SplitOn(Join("\n\n", bs), '\n')
  {
    if |bs| > 1 {
      var rest := Join("\n\n", bs[1..]);
      FirstLinesOfJoin(bs[1..]);
      assert Join("\n\n", bs) == bs[0] + "\n\n" + rest;
      JoinedLines(bs[0], rest);
      forall k | 0 <= k < |bs|
        ensures SplitOn(bs[k], '\n')[0] in SplitOn(Join("\n\n", bs), '\n')
      {
        if k > 0 {
          assert bs[k] == bs[1..][k - 1];
        }
      }
    }
  }

  /** In the text PDF, every page that yielded an image gets its header as a heading. */
  lemma EveryPageHeaded(ocr: Ocr, total: nat, fits: string -> bool)
    ensures forall p :: 1 <= p <= total && ocr(p).Some? ==>
      Heading(PageHeader(p)) in RenderLines(SplitOn(FullText(ocr, total), '\n'), fits)
  {
    var bs := Blocks(ocr, total);
    var ps := ImagePages(ocr, total);
    BlocksOfPages(ocr, total);
    ImagePagesMembers(ocr, total);
    FirstLinesOfJoin(bs);
    HeadingsKept(SplitOn(FullText(ocr, total), '\n'), fits);
    forall p | 1 <= p <= total && ocr(p).Some?
      ensures Heading(PageHeader(p)) in RenderLines(SplitOn(FullText(ocr, total), '\n'), fits)
    {
      var k :| 0 <= k < |ps| && ps[k] == p;
      BlockLines(p, ocr(p).value);
      assert SplitOn(bs[k], '\n')[0] == PageHeader(p);
    }
  }

  // ---------------------------------------------------------------------------
  // Outputs (process_pdf)
  // ---------------------------------------------------------------------------

  /** `pdf_path.parent / f"{stem}.txt"`. */
  function TxtPath(pdf: Path): Path {
    Path(pdf.parent, Stem(pdf.name) + ".txt")
  }

  /** `pdf_path.parent / f"{stem}_text.pdf"`. */
  function TextPdfPath(pdf: Path): Path {
    Path(pdf.parent, Stem(pdf.name) + "_text.pdf")
  }

  /** A file `process_pdf` writes. */
  datatype Output = TxtFile(path: Path, text: string) | TextPdf(path: Path, lines: seq<PdfLine>)

  /**
    The files written for a PDF whose extracted text is `text`: nothing for a blank text;
    otherwise the text to `stem.txt` and, unless `txtOnly`, its layout to `stem_text.pdf`,
    both next to the input.
  */
  function Outputs(pdf: Path, text: string, txtOnly: bool, fits: string -> bool): (r: seq<Output>)
    ensures r == [] <==> Strip(text) == []
    ensures r != [] ==> |r| == (if txtOnly then 1 else 2) && r[0] == TxtFile(TxtPath(pdf), text)
    ensures |r| == 2 ==> r[1] == TextPdf(TextPdfPath(pdf), RenderLines(SplitOn(text, '\n'), fits))
    ensures forall i :: 0 <= i < |r| ==> r[i].path.parent == pdf.parent
  {
    if Strip(text) == [] then []
    else
      var txt := TxtFile(TxtPath(pdf), text);
      if txtOnly then [txt] else [txt, TextPdf(TextPdfPath(pdf), RenderLines(SplitOn(text, '\n'), fits))]
  }

  /** A PDF gets no output file exactly when none of its pages yields an image. */
  lemma NoOutputIffNoImage(pdf: Path, ocr: Ocr, total: nat, txtOnly: bool, fits: string -> bool)
    ensures Outputs(pdf, FullText(ocr, total), txtOnly, fits) == [] <==> forall p :: 1 <= p <= total ==> ocr(p).None?
  {
    BlankIffNoImage(ocr, total);
  }

  /** `process_pdf`: the text of the PDF, then the files it is written to. */
  method ProcessPdf(pdf: Path, ocr: Ocr, totalPages: nat, txtOnly: bool, fits: string -> bool)
    returns (written: seq<Output>)
    ensures written == Outputs(pdf, FullText(ocr, totalPages), txtOnly, fits)
  {
    var text := ExtractTextFromPdf(ocr, totalPages);
    if Strip(text) == [] {
      written := [];
      return;
    }
    var txt := TxtFile(TxtPath(pdf), text);
    written := [txt];
    if !txtOnly {
      var doc := SaveTextPdf(text, fits);
      written := written + [TextPdf(TextPdfPath(pdf), doc)];
    }
  }

  // ---------------------------------------------------------------------------
  // Input selection (main)
  // ---------------------------------------------------------------------------

  /** A name `glob("*.pdf")` lists that is not an output of an earlier run. */
  predicate IsInputPdf(name: string) {
    EndsWith(name, ".pdf") && !EndsWith(Stem(name), "_text") && !EndsWith(Stem(name), "_ocr")
  }

  /** The names that contain `target`, in order. */
  function Containing(names: seq<string>, target: string): (r: seq<string>)
    ensures forall x :: x in r <==> x in names && Contains(x, target)
    ensures Sorted(names) ==> Sorted(r)
  {
    if names == [] then []
    else
      var init, last := names[..|names| - 1], names[|names| - 1];
      var prev := Containing(init, target);
      assert names == init + [last];
      if Contains(last, target) then
        assert Sorted(names) ==> forall i :: 0 <= i < |prev| ==> prev[i] in init && LexLe(prev[i], last);
        prev + [last]
      else prev
  }

  /** Why `main` stops without processing anything. */
  datatype SelectError = NoPdfFound | NoPdfMatches(target: string)

  /** `sorted(f for f in glob("*.pdf") if ...)` over the names in the folder. */
  function InputPdfs(listing: seq<string>): (r: seq<string>)
    ensures Sorted(r)
    ensures forall x :: x in r <==> x in listing && IsInputPdf(x)
    ensures multiset(r) == multiset(Filter(listing, IsInputPdf))
  {
    FilterMembers(listing, IsInputPdf);
    var r := Sort(Filter(listing, IsInputPdf));
    assert forall x :: x in r <==> x in multiset(r);
    r
  }

  /**
    The PDFs `main` processes, given the folder's names and the optional filter argument.
    It goes on with a non-empty sorted list holding exactly the input PDFs whose names
    contain the filter, and stops when there is none: because the folder has no input
    PDF at all, or because none matches the filter.
  */
  function SelectPdfs(listing: seq<string>, target: Option<string>): (r: Result<seq<string>, SelectError>)
    ensures r.Ok? ==> r.value != [] && Sorted(r.value)
    ensures r.Ok? ==> forall x :: x in r.value <==> x in listing && IsInputPdf(x) && (target.Some? ==> Contains(x, target.value))
    ensures r == Err(NoPdfFound) <==> forall x :: x in listing ==> !IsInputPdf(x)
    ensures r.Err? <==> forall x :: x in listing && IsInputPdf(x) ==> target.Some? && !Contains(x, target.value)
  {
    var pdfs := InputPdfs(listing);
    if pdfs == [] then Err(NoPdfFound)
    else
      assert pdfs[0] in pdfs;
      if target.None? then Ok(pdfs)
      else
        var kept := Containing(pdfs, target.value);
        if kept == [] then Err(NoPdfMatches(target.value))
        else
          assert kept[0] in kept;
          Ok(kept)
  }

  /**
    The outputs of a run are never inputs of the next one: a `.txt` name does not
    end in `.pdf`, and the stem of `stem_text.pdf` ends with `_text`.
  */
  lemma OutputsNotSelected(pdf: Path)
    ensures !IsInputPdf(TxtPath(pdf).name)
    ensures !IsInputPdf(TextPdfPath(pdf).name)
  {
    var stem := Stem(pdf.name);
    TxtNotInput(stem);
    TextPdfNotInput(stem);
  }

  /** A `.txt` name does not end in `.pdf`. */
  lemma TxtNotInput(stem: string)
    ensures !IsInputPdf(stem + ".txt")
  {
    var txt := stem + ".txt";
    assert txt[|txt| - 4..] == ".txt";
    assert ".txt"[1] != ".pdf"[1];
  }

  /** The stem of `stem_text.pdf` is `stem_text`. */
  lemma TextPdfNotInput(stem: string)
    ensures !IsInputPdf(stem + "_text.pdf")
  {
    var base := stem + "_text";
    assert '.' !in "pdf";
    assert stem + "_text.pdf" == base + ".pdf";
    StemOfExtension(base, ".pdf");
    assert base[|stem|..] == "_text";
  }

  /** Input names longer than `.pdf` that differ get outputs that differ. */
  lemma OutputsDistinct(a: Path, b: Path)
    requires IsInputPdf(a.name) && IsInputPdf(b.name) && |a.name| > 4 && |b.name| > 4
    ensures TxtPath(a) == TxtPath(b) ==> a == b
    ensures TextPdfPath(a) == TextPdfPath(b) ==> a == b
  {
    StemOfPdf(a.name);
    StemOfPdf(b.name);
    if TxtPath(a) == TxtPath(b) {
      SuffixCancel(Stem(a.name), Stem(b.name), ".txt");
    }
    if TextPdfPath(a) == TextPdfPath(b) {
      SuffixCancel(Stem(a.name), Stem(b.name), "_text.pdf");
    }
  }

  /** Two texts with the same ending are equal when what precedes it is. */
  lemma SuffixCancel(x: string, y: string, t: string)
    requires x + t == y + t
    ensures x == y
  {
    assert |x| == |y|;
    assert x == (x + t)[..|x|];
    assert y == (y + t)[..|y|];
  }

  /** A name of more than four characters ending in `.pdf` has that suffix cut off as its stem. */
  lemma StemOfPdf(name: string)
    requires EndsWith(name, ".pdf") && |name| > 4
    ensures Stem(name) == name[..|name| - 4] && name == Stem(name) + ".pdf"
  {
    assert '.' !in ".pdf"[1..];
    assert name == name[..|name| - 4] + ".pdf";
    StemOfExtension(name[..|name| - 4], ".pdf");
  }
}

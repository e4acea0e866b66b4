/** Turning an uploaded file into one text: the file name's suffix picks the
    reader, a PDF is folded page by page into one string, and a `.txt` file
    is decoded as UTF-8. The PDF parser and the UTF-8 decoder are not part of
    this model; they are given as functions that either succeed or fail with
    a description of the problem. */
module Extraction {
  import opened Wrappers
  import opened Text

  newtype byte = b: int | 0 <= b < 256

  /** What the parser yields for a PDF: one entry per page, `None` when the
      page gives no text object and `Some(t)` otherwise. */
  type PdfParser = seq<byte> -> Result<seq<Option<string>>, string>

  /** A UTF-8 decoder: the decoded text, or why the bytes are not UTF-8. */
  type Decoder = seq<byte> -> Result<string, string>

  /** Stands in for a page with no readable text. */
  const Placeholder := "[P\U{E1}gina sem texto leg\U{ED}vel]"

  datatype Format = Pdf | Txt | Unsupported

  /** Which reader a file name selects: `.pdf` is tested first, then `.txt`,
      and any other name is refused. The suffix test is case-sensitive. */
  function FormatOf(filename: string): (f: Format)
    ensures f == Pdf <==> EndsWith(filename, ".pdf")
    ensures f == Txt <==> EndsWith(filename, ".txt")
    ensures f == Unsupported <==> !EndsWith(filename, ".pdf") && !EndsWith(filename, ".txt")
  {
    SuffixesExclusive(filename, ".pdf", ".txt");
    if EndsWith(filename, ".pdf") then Pdf
    else if EndsWith(filename, ".txt") then Txt
    else Unsupported
  }

  /** What one page adds to the document text: its text and a newline when
      the page has some text, otherwise the placeholder and a newline. */
  function PageText(page: Option<string>): (piece: string)
  {
    match page
    case Some(t) => if t != "" then t + "\n" else Placeholder + "\n"
    case None => Placeholder + "\n"
  }

  /** The text of a whole PDF: the pages' pieces in page order. */
  function PdfText(pages: seq<Option<string>>): string
  {
    if pages == [] then "" else PdfText(pages[..|pages| - 1]) + PageText(pages[|pages| - 1])
  }

  /** Builds the document text the way the handler does, appending one
      piece per page. */
  method AssemblePdf(pages: seq<Option<string>>) returns (content: string)
    ensures content == PdfText(pages)
  {
    content := "";
    for i := 0 to |pages|
      invariant content == PdfText(pages[..i])
    {
      var text := pages[i];
      if text.Some? && text.value != "" {
        content := content + text.value + "\n";
      } else {
        content := content + Placeholder + "\n";
      }
      assert pages[..i + 1][..i] == pages[..i];
    }
    assert pages[..|pages|] == pages;
  }

  /** The document text of two runs of pages is the text of the first run
      followed by the text of the second. */
  lemma {:induction false} PdfTextAppend(a: seq<Option<string>>, b: seq<Option<string>>)
    ensures PdfText(a + b) == PdfText(a) + PdfText(b)
    decreases |b|
  {
    if b != [] {
      var b' := b[..|b| - 1];
      assert (a + b)[..|a + b| - 1] == a + b';
      assert (a + b)[|a + b| - 1] == b[|b| - 1];
      PdfTextAppend(a, b');
    } else {
      assert a + b == a;
    }
  }

  /** No page is dropped or moved: page i's piece (its text and a newline, or
      the placeholder and a newline) sits in the document text right after the
      pieces of pages 0..i-1. */
  lemma PdfTextPageAt(pages: seq<Option<string>>, i: nat)
    requires i < |pages|
    ensures var start := |PdfText(pages[..i])|;
            var piece := PageText(pages[i]);
            start + |piece| <= |PdfText(pages)|
            && PdfText(pages)[start..start + |piece|] == piece
            && (pages[i].Some? && pages[i].value != "" ==> piece == pages[i].value + "\n")
            && (pages[i].None? || pages[i].value == "" ==> piece == Placeholder + "\n")
  {
    assert pages == pages[..i] + [pages[i]] + pages[i + 1..];
    PdfTextAppend(pages[..i] + [pages[i]], pages[i + 1..]);
    PdfTextAppend(pages[..i], [pages[i]]);
    assert PdfText([pages[i]]) == PageText(pages[i]) by {
      assert [pages[i]][..0] == [];
    }
  }

  /** The document text is empty exactly when the PDF has no pages, and
      every page adds at least a newline. */
  lemma {:induction false} PdfTextLength(pages: seq<Option<string>>)
    ensures |PdfText(pages)| >= |pages|
    ensures PdfText(pages) == "" <==> pages == []
    decreases |pages|
  {
    if pages != [] {
      PdfTextLength(pages[..|pages| - 1]);
    }
  }

  datatype ExtractError =
    | UnsupportedFormat
    | ProcessingError(detail: string)
  {
    /** The `error` text the handler answers with. */
    function Message(): string
    {
      match this
      case UnsupportedFormat =>
        "Formato de arquivo n\U{E3}o suportado. Envie um arquivo .pdf ou .txt."
      case ProcessingError(detail) => "Erro ao processar o arquivo: " + detail
    }
  }

  /** The document text a file yields, or why it yields none. */
  function Extracted(filename: string, content: seq<byte>, parsePdf: PdfParser, decode: Decoder): Result<string, ExtractError>
  {
    match FormatOf(filename)
    case Pdf =>
      (match parsePdf(content)
       case Success(pages) => Success(PdfText(pages))
       case Failure(detail) => Failure(ProcessingError(detail)))
    case Txt =>
      (match decode(content)
       case Success(text) => Success(text)
       case Failure(detail) => Failure(ProcessingError(detail)))
    case Unsupported => Failure(UnsupportedFormat)
  }

  /** Reads a file into its document text: a `.pdf` name goes to the PDF
      reader, any other `.txt` name to the UTF-8 decoder, and any other name
      is refused without reading the content. */
  method ExtractText(filename: string, content: seq<byte>, parsePdf: PdfParser, decode: Decoder)
    returns (r: Result<string, ExtractError>)
    ensures EndsWith(filename, ".pdf") ==>
              r == (match parsePdf(content)
                    case Success(pages) => Success(PdfText(pages))
                    case Failure(detail) => Failure(ProcessingError(detail)))
    ensures !EndsWith(filename, ".pdf") && EndsWith(filename, ".txt") ==>
              r == (match decode(content)
                    case Success(text) => Success(text)
                    case Failure(detail) => Failure(ProcessingError(detail)))
    ensures !EndsWith(filename, ".pdf") && !EndsWith(filename, ".txt") ==> r == Failure(UnsupportedFormat)
  {
    if EndsWith(filename, ".pdf") {
      var parsed := parsePdf(content);
      if parsed.Failure? {
        return Failure(ProcessingError(parsed.error));
      }
      var text := AssemblePdf(parsed.value);
      r := Success(text);
    } else if EndsWith(filename, ".txt") {
      var decoded := decode(content);
      if decoded.Failure? {
        return Failure(ProcessingError(decoded.error));
      }
      r := Success(decoded.value);
    } else {
      r := Failure(UnsupportedFormat);
    }
  }
}

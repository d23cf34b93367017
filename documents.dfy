/**
 * The document classification cascade of the current `DataController`: images
 * go straight to OCR, PDFs are read as text and fall back to OCR when they hold
 * too little of it, and a scanned document is OCR'd twice (a sample of the
 * first page to pick the language, then every page in that language).
 *
 * The OCR engine, the language detector and the PDF library are parameters
 * (`Services`): each returns a value or the message of the exception it raised.
 */
module Documents {
  import opened Wrappers
  import opened Text
  import opened Uploads

  /** The foreign services the controller calls. */
  datatype Services = Services(
    /** `PytesseractOCR.extract_text(image, lang)`. */
    ocr: (Bytes, string) -> Result<string, string>,
    /** `langdetect.detect(text)`: a two-letter language code. */
    detect: string -> Result<string, string>,
    /** PyMuPDF: the text of each page of a PDF, in page order. */
    pdfPageTexts: Bytes -> Result<seq<string>, string>,
    /** `convert_pdf_to_images`: one PNG per page. */
    pdfToImages: Bytes -> Result<seq<Bytes>, string>,
    /** `_get_pdf_page_count`. */
    pdfPageCount: Bytes -> Result<nat, string>)

  /** The dictionary `process_document` returns. */
  datatype DocumentResult = DocumentResult(text: string, language: string, isScanned: bool, pages: nat)

  /** The language codes the detector's answers are mapped to. */
  const LangMap: map<string, string> := map["en" := "eng", "ar" := "ara"]

  /** The Tesseract languages of the first-page sample. */
  const SampleLanguages: string := "eng+ara"

  /** The content types that are OCR'd directly as images. */
  const ImageTypes: seq<string> := ["image/png", "image/jpg", "image/jpeg"]

  const PdfType: string := "application/pdf"

  /** The error Python raises for `image_bytes_list[0]` on an empty list. */
  const NoPagesError: string := "list index out of range"

  predicate IsNonSpace(c: char) { !IsSpace(c) }

  /** `is_scanned_pdf`: empty text, or fewer than 100 characters once all whitespace is removed. */
  function IsScannedPdf(text: string): (scanned: bool)
    ensures text == [] ==> scanned
    ensures scanned <==> Count(text, IsNonSpace) < 100
  {
    FilterLength(text, IsNonSpace);
    if text == [] then true else |Filter(text, IsNonSpace)| < 100
  }

  /**
   * `detect_language`: `"eng"` for text shorter than 10 characters once stripped
   * (interior whitespace counts) without asking the detector; otherwise the mapped
   * detector answer, with `"eng"` for an unknown code or a detector failure.
   */
  function DetectLanguage(text: string, detect: string -> Result<string, string>): (lang: string)
    ensures lang == "eng" || lang == "ara"
    ensures |Strip(text)| < 10 ==> lang == "eng"
    ensures lang == "ara" <==> |Strip(text)| >= 10 && detect(text) == Success("ar")
  {
    if text == [] || |Strip(text)| < 10 then "eng"
    else
      match detect(text)
      case Failure(_) => "eng"
      case Success(code) => if code in LangMap then LangMap[code] else "eng"
  }

  /** `extract_text_from_pdf`: the page texts appended one after another, then stripped. */
  method ExtractTextFromPdf(pages: seq<string>) returns (text: string)
    ensures text == Strip(Concat(pages))
  {
    text := "";
    for i := 0 to |pages|
      invariant text == Concat(pages[..i])
    {
      assert pages[..i + 1][..i] == pages[..i];
      text := text + pages[i];
    }
    assert pages[..|pages|] == pages;
    text := Strip(text);
  }

  /** What one page of the full pass contributes: its text, or `""` when its OCR failed. */
  function PageText(reply: Result<string, string>): string {
    match reply
    case Success(t) => t
    case Failure(_) => ""
  }

  /** The parts of the full pass: exactly one per image, in order. */
  function PageTexts(images: seq<Bytes>, ocr: (Bytes, string) -> Result<string, string>, lang: string): (parts: seq<string>)
    ensures |parts| == |images|
    ensures forall i :: 0 <= i < |images| ==> parts[i] == PageText(ocr(images[i], lang))
  {
    seq(|images|, i requires 0 <= i < |images| => PageText(ocr(images[i], lang)))
  }

  /**
   * What `_process_scanned_document` returns: an empty image list or a failed
   * first-page sample aborts; otherwise the detected language drives a full pass
   * whose failed pages become `""`, and the parts are joined by blank lines and stripped.
   */
  function ScannedResult(images: seq<Bytes>, isImage: bool, s: Services): (r: Result<DocumentResult, string>)
    ensures images == [] ==> r == Failure(NoPagesError)
    ensures images != [] ==> (r.Success? <==> s.ocr(images[0], SampleLanguages).Success?)
    ensures images != [] && s.ocr(images[0], SampleLanguages).Failure? ==>
      r == Failure(s.ocr(images[0], SampleLanguages).error)
    ensures r.Success? ==>
      var sample := s.ocr(images[0], SampleLanguages).value;
      && r.value.language == DetectLanguage(sample, s.detect)
      && r.value.isScanned
      && r.value.pages == (if isImage then 1 else |images|)
    ensures r.Success? ==> r.value.text == Strip(Join("\n\n", PageTexts(images, s.ocr, r.value.language)))
  {
    if images == [] then Failure(NoPagesError)
    else
      match s.ocr(images[0], SampleLanguages)
      case Failure(e) => Failure(e)
      case Success(sample) =>
        var lang := DetectLanguage(sample, s.detect);
        var text := Strip(Join("\n\n", PageTexts(images, s.ocr, lang)));
        Success(DocumentResult(text, lang, true, if isImage then 1 else |images|))
  }

  /** `_process_scanned_document`: the sample pass, then a loop over the pages that never aborts. */
  method ProcessScannedDocument(images: seq<Bytes>, isImage: bool, s: Services) returns (r: Result<DocumentResult, string>)
    ensures r == ScannedResult(images, isImage, s)
  {
    if images == [] {
      return Failure(NoPagesError);
    }
    var sample := s.ocr(images[0], SampleLanguages);
    if sample.Failure? {
      return Failure(sample.error);
    }
    var lang := DetectLanguage(sample.value, s.detect);
    var parts: seq<string> := [];
    for i := 0 to |images|
      invariant |parts| == i
      invariant forall j :: 0 <= j < i ==> parts[j] == PageText(s.ocr(images[j], lang))
    {
      var page := s.ocr(images[i], lang);
      if page.Success? {
        parts := parts + [page.value];
      } else {
        parts := parts + [""];
      }
    }
    assert parts == PageTexts(images, s.ocr, lang);
    var text := Strip(Join("\n\n", parts));
    return Success(DocumentResult(text, lang, true, if isImage then 1 else |images|));
  }

  /**
   * A failing later page does not disturb the earlier ones: with two pages whose
   * second OCR fails, the text of the full pass is that of the first page alone.
   */
  lemma {:induction false} FailedSecondPage(first: Bytes, second: Bytes, ocr: (Bytes, string) -> Result<string, string>, lang: string)
    requires ocr(first, lang).Success? && ocr(second, lang).Failure?
    ensures Strip(Join("\n\n", PageTexts([first, second], ocr, lang))) == Strip(ocr(first, lang).value)
  {
    var t := ocr(first, lang).value;
    var parts := PageTexts([first, second], ocr, lang);
    assert parts == [t, ""];
    JoinPair("\n\n", t, "");
    assert t + "\n\n" + "" == t + "\n\n";
    StripAppendBlank(t, "\n\n");
  }

  /**
   * The same at the level of the whole scanned document: when the second of two
   * pages fails in the full pass, the document's text is the first page's text.
   */
  lemma ScannedSecondPageFails(first: Bytes, second: Bytes, isImage: bool, s: Services)
    requires s.ocr(first, SampleLanguages).Success?
    requires var lang := DetectLanguage(s.ocr(first, SampleLanguages).value, s.detect);
      s.ocr(first, lang).Success? && s.ocr(second, lang).Failure?
    ensures var lang := DetectLanguage(s.ocr(first, SampleLanguages).value, s.detect);
      var r := ScannedResult([first, second], isImage, s);
      r.Success? && r.value.text == Strip(s.ocr(first, lang).value)
  {
    var lang := DetectLanguage(s.ocr(first, SampleLanguages).value, s.detect);
    FailedSecondPage(first, second, s.ocr, lang);
  }

  /**
   * What `process_document` returns: images are OCR'd as a one-page document; a PDF
   * with enough text is returned as digital; a PDF with too little is rasterised
   * and OCR'd; any other content type is an error. A raising service aborts.
   */
  function ProcessDocumentResult(file: UploadFile, s: Services): (r: Result<DocumentResult, string>)
    ensures file.contentType in ImageTypes ==> r == ScannedResult([file.content], true, s)
    ensures file.contentType !in ImageTypes && file.contentType != PdfType ==>
      r == Failure("Unsupported content type: " + file.contentType)
    ensures r.Success? && !r.value.isScanned ==>
      && file.contentType == PdfType
      && s.pdfPageTexts(file.content).Success?
      && r.value.text == Strip(Concat(s.pdfPageTexts(file.content).value))
      && !IsScannedPdf(r.value.text)
      && r.value.language == DetectLanguage(r.value.text, s.detect)
    ensures file.contentType == PdfType && s.pdfPageTexts(file.content).Failure? ==>
      r == Failure(s.pdfPageTexts(file.content).error)
    ensures file.contentType == PdfType && s.pdfPageTexts(file.content).Success? ==>
      var text := Strip(Concat(s.pdfPageTexts(file.content).value));
      && (!IsScannedPdf(text) && s.pdfPageCount(file.content).Success? ==>
            r == Success(DocumentResult(text, DetectLanguage(text, s.detect), false, s.pdfPageCount(file.content).value)))
      && (!IsScannedPdf(text) && s.pdfPageCount(file.content).Failure? ==>
            r == Failure(s.pdfPageCount(file.content).error))
      && (IsScannedPdf(text) && s.pdfToImages(file.content).Success? ==>
            r == ScannedResult(s.pdfToImages(file.content).value, false, s))
      && (IsScannedPdf(text) && s.pdfToImages(file.content).Failure? ==>
            r == Failure(s.pdfToImages(file.content).error))
  {
    if file.contentType in ImageTypes then ScannedResult([file.content], true, s)
    else if file.contentType == PdfType then
      match s.pdfPageTexts(file.content)
      case Failure(e) => Failure(e)
      case Success(pages) =>
        var text := Strip(Concat(pages));
        if !IsScannedPdf(text) then
          var language := DetectLanguage(text, s.detect);
          match s.pdfPageCount(file.content)
          case Failure(e) => Failure(e)
          case Success(count) => Success(DocumentResult(text, language, false, count))
        else
          match s.pdfToImages(file.content)
          case Failure(e) => Failure(e)
          case Success(images) => ScannedResult(images, false, s)
    else Failure("Unsupported content type: " + file.contentType)
  }

  /** `process_document`. */
  method ProcessDocument(file: UploadFile, s: Services) returns (r: Result<DocumentResult, string>)
    ensures r == ProcessDocumentResult(file, s)
  {
    if file.contentType in ImageTypes {
      r := ProcessScannedDocument([file.content], true, s);
      return;
    }
    if file.contentType == PdfType {
      var pages := s.pdfPageTexts(file.content);
      if pages.Failure? {
        return Failure(pages.error);
      }
      var extracted := ExtractTextFromPdf(pages.value);
      if !IsScannedPdf(extracted) {
        var language := DetectLanguage(extracted, s.detect);
        var count := s.pdfPageCount(file.content);
        if count.Failure? {
          return Failure(count.error);
        }
        return Success(DocumentResult(extracted, language, false, count.value));
      }
      var images := s.pdfToImages(file.content);
      if images.Failure? {
        return Failure(images.error);
      }
      r := ProcessScannedDocument(images.value, false, s);
      return;
    }
    return Failure("Unsupported content type: " + file.contentType);
  }
}

/**
 * The older `DataController`: a content-type dispatch that turns a PDF into
 * base64 page images, decodes plain text and base64-encodes anything else, and
 * the `_is_bad_extraction` quality test for extracted PDF text.
 *
 * Rasterisation, UTF-8 decoding and base64 encoding (section 4 of RFC 4648)
 * are parameters.
 */
module LegacyDocuments {
  import opened Wrappers
  import opened Text
  import opened Uploads

  /** The foreign conversions the dispatch calls. */
  datatype Converters = Converters(
    /** `_pdf_to_images_in_memory`: one base64 PNG per page. */
    pdfToBase64Images: Bytes -> Result<seq<string>, string>,
    /** `bytes.decode("utf-8")`. */
    decodeUtf8: Bytes -> Result<string, string>,
    /** `base64.b64encode(...).decode("utf-8")`, which cannot fail. */
    base64: Bytes -> string)

  /** The dictionary `process_document` returns. */
  datatype Payload = Payload(contentType: string, content: seq<string>, signal: string)

  const PdfSignal: string := "this is from pdf converted to images"
  const TextSignal: string := "this is from text directly"
  const ImageSignal: string := "this is from image directly"

  /**
   * `process_document`: a PDF becomes PNG page images, `text/plain` one decoded
   * string, and every other type one base64 image; only the conversions can fail.
   */
  function ProcessDocument(file: UploadFile, c: Converters): (r: Result<Payload, string>)
    ensures file.contentType == "application/pdf" ==>
      match c.pdfToBase64Images(file.content)
      case Success(pages) => r == Success(Payload("image/png", pages, PdfSignal))
      case Failure(e) => r == Failure(e)
    ensures file.contentType == "text/plain" ==>
      match c.decodeUtf8(file.content)
      case Success(text) => r == Success(Payload("text/plain", [text], TextSignal))
      case Failure(e) => r == Failure(e)
    ensures file.contentType != "application/pdf" && file.contentType != "text/plain" ==>
      r == Success(Payload("image/png", [c.base64(file.content)], ImageSignal))
    ensures r.Success? && file.contentType != "application/pdf" ==> |r.value.content| == 1
  {
    if file.contentType == "application/pdf" then
      match c.pdfToBase64Images(file.content)
      case Success(pages) => Success(Payload("image/png", pages, PdfSignal))
      case Failure(e) => Failure(e)
    else if file.contentType == "text/plain" then
      match c.decodeUtf8(file.content)
      case Success(text) => Success(Payload("text/plain", [text], TextSignal))
      case Failure(e) => Failure(e)
    else
      Success(Payload("image/png", [c.base64(file.content)], ImageSignal))
  }

  predicate IsNotAlnum(c: char) { !IsAlnum(c) }

  function Max1(n: int): (m: int)
    ensures m >= 1 && m >= n && (m == 1 || m == n)
  {
    if n < 1 then 1 else n
  }

  /**
   * `_is_bad_extraction`, with the two ratio tests written as exact integer
   * comparisons: fewer than 50 characters per page (`max(num_pages, 1)` pages),
   * or more than half of all characters not alphanumeric.
   */
  function IsBadExtraction(text: string, numPages: int): (bad: bool)
    ensures IsBlank(text) ==> bad
    ensures !IsBlank(text) ==>
      (bad <==> |text| < 50 * Max1(numPages) || 2 * Count(text, IsNotAlnum) > Max1(|text|))
  {
    StripEmptyIffBlank(text);
    if text == [] || |Strip(text)| == 0 then true
    else
      var avgCharsTooLow := |text| < 50 * Max1(numPages);
      var nonAlnumTooHigh := 2 * Count(text, IsNotAlnum) > Max1(|text|);
      avgCharsTooLow || nonAlnumTooHigh
  }

  /** The ratios as Python states them, over exact rationals. */
  predicate IsBadExtractionByRatios(text: string, numPages: int) {
    IsBlank(text) ||
    (|text| as real) / (Max1(numPages) as real) < 50.0 ||
    (Count(text, IsNotAlnum) as real) / (Max1(|text|) as real) > 0.5
  }

  /** Dividing by a positive number and comparing is comparing with the product. */
  lemma DivCompare(a: real, b: real, c: real)
    requires b > 0.0
    ensures a / b < c <==> a < c * b
    ensures a / b > c <==> a > c * b
  {
    var q := a / b;
    assert q * b == a;
    if q < c { assert q * b < c * b; }
    if q > c { assert q * b > c * b; }
    if q == c { assert q * b == c * b; }
  }

  /** `n / d < 50` over the rationals is `n < 50 * d` over the integers. */
  lemma BelowFifty(n: int, d: int)
    requires d > 0
    ensures (n as real) / (d as real) < 50.0 <==> n < 50 * d
  {
    DivCompare(n as real, d as real, 50.0);
    assert 50.0 * (d as real) == (50 * d) as real;
  }

  /** `n / d > 0.5` over the rationals is `2 * n > d` over the integers. */
  lemma AboveHalf(n: int, d: int)
    requires d > 0
    ensures (n as real) / (d as real) > 0.5 <==> 2 * n > d
  {
    DivCompare(n as real, d as real, 0.5);
    assert (n as real) > 0.5 * (d as real) <==> (2 * n) as real > d as real;
  }

  /** The integer comparisons decide exactly what the exact ratios decide. */
  lemma IntegerTestsMatchRatios(text: string, numPages: int)
    ensures IsBadExtraction(text, numPages) <==> IsBadExtractionByRatios(text, numPages)
  {
    BelowFifty(|text|, Max1(numPages));
    AboveHalf(Count(text, IsNotAlnum), Max1(|text|));
  }

  /** No page count and one page give the same verdict. */
  lemma ZeroPagesCountAsOne(text: string)
    ensures IsBadExtraction(text, 0) == IsBadExtraction(text, 1)
  {
  }
}

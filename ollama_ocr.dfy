/**
 * `OCRProcessor1`, the Ollama vision OCR client: a PDF is split into page
 * images that are OCR'd one by one (a failing page is recorded and the loop
 * goes on), a single image is OCR'd directly, and every failure outside the
 * page loop becomes an error string, so `process_image` never raises.
 *
 * Rasterisation, OpenCV preprocessing, the HTTP call and JSON re-serialisation
 * are parameters (`Backend`).
 */
module OllamaOcr {
  import opened Wrappers
  import opened Text
  import opened OcrPrompts

  /** The foreign steps `process_image` relies on; each returns a value or the raised exception's message. */
  datatype Backend = Backend(
    /** `_pdf_to_images` before its error wrapping: the page image paths of a PDF. */
    pdfToImages: string -> Result<seq<string>, string>,
    /** `_preprocess_image(path, language)`: the path of the preprocessed image. */
    preprocessImage: (string, string) -> Result<string, string>,
    /** `_process_single_image(path, prompt)`: the model's `response` text. */
    processSingleImage: (string, string) -> Result<string, string>,
    /** `json.dumps(json.loads(s), indent=2)`, or `None` when `s` is not JSON. */
    reformatJson: string -> Option<string>)

  /** The options of one `process_image` call. */
  datatype Options = Options(formatType: string, preprocess: bool, customPrompt: Option<string>, language: string)

  /** The languages that get adaptive thresholding. */
  const CjkLanguages: seq<string> := ["japanese", "chinese", "zh", "korean", "ja", "ko"]

  /** The two thresholding strategies of `_preprocess_image`. */
  datatype Thresholding = Adaptive | Otsu

  /** The thresholding `_preprocess_image` picks for a language. */
  function ThresholdingFor(language: string): (t: Thresholding)
    ensures t == Adaptive <==> Lower(language) in CjkLanguages
  {
    if Lower(language) in CjkLanguages then Adaptive else Otsu
  }

  /** An input is a PDF exactly when its lower-cased path ends with `.pdf`. */
  predicate IsPdfPath(path: string) {
    EndsWith(Lower(path), ".pdf")
  }

  /** The upper-case spelling of the extension counts too. */
  lemma UpperCasePdfExtension(stem: string)
    ensures IsPdfPath(stem + ".PDF")
  {
    var s := stem + ".PDF";
    var l := Lower(s);
    assert l[|l| - 4..] == ".pdf" by {
      assert s[|s| - 4..] == ".PDF";
      forall k | 0 <= k < 4 ensures l[|l| - 4 + k] == ".pdf"[k] {
        assert s[|s| - 4 + k] == ".PDF"[k];
      }
    }
  }

  /** The message `_pdf_to_images` raises when the PDF library fails. */
  function PdfConversionError(e: string): string {
    "Could not convert PDF to images: " + e
  }

  /** The outer handler of `process_image`. */
  function ImageError(e: string): string {
    "Error processing image: " + e
  }

  /** OCR of one image file: preprocessed first when asked, then sent with the prompt. */
  function OcrFile(path: string, prompt: string, opts: Options, b: Backend): Result<string, string> {
    if opts.preprocess then
      match b.preprocessImage(path, opts.language)
      case Failure(e) => Failure(e)
      case Success(preprocessed) => b.processSingleImage(preprocessed, prompt)
    else b.processSingleImage(path, prompt)
  }

  /** What page `index` (counting from 0) contributes: `Page i:` and the text, or `Page i: Error - ` and the message. */
  function PageResponse(index: nat, reply: Result<string, string>): (response: string)
    ensures reply.Success? ==> response == "Page " + NatToString(index + 1) + ":\n" + reply.value
    ensures reply.Failure? ==> response == "Page " + NatToString(index + 1) + ": Error - " + reply.error
  {
    match reply
    case Success(text) => "Page " + NatToString(index + 1) + ":\n" + text
    case Failure(e) => "Page " + NatToString(index + 1) + ": Error - " + e
  }

  /** The responses of the page loop: exactly one per page, in page order. */
  function PageResponses(pages: seq<string>, prompt: string, opts: Options, b: Backend): (responses: seq<string>)
    ensures |responses| == |pages|
    ensures forall i :: 0 <= i < |pages| ==> responses[i] == PageResponse(i, OcrFile(pages[i], prompt, opts, b))
  {
    seq(|pages|, i requires 0 <= i < |pages| => PageResponse(i, OcrFile(pages[i], prompt, opts, b)))
  }

  /** The JSON reformatting applied to the final text when the format is `json`. */
  function MaybeReformat(text: string, opts: Options, b: Backend): (r: string)
    ensures opts.formatType != "json" ==> r == text
    ensures opts.formatType == "json" && b.reformatJson(text).None? ==> r == text
    ensures opts.formatType == "json" && b.reformatJson(text).Some? ==> r == b.reformatJson(text).value
  {
    if opts.formatType == "json" then
      match b.reformatJson(text)
      case Some(formatted) => formatted
      case None => text
    else text
  }

  /**
   * What `process_image` returns for a path: the reformatted page texts of a PDF,
   * the reformatted text of an image, or an error string for every failure
   * outside the page loop.
   */
  function ProcessImageResult(path: string, opts: Options, b: Backend): (r: string)
    ensures var prompt := GetPrompt(OllamaTable, opts.formatType, opts.language, opts.customPrompt);
      IsPdfPath(path) && b.pdfToImages(path).Success? ==>
        r == MaybeReformat(Join("\n\n", PageResponses(b.pdfToImages(path).value, prompt, opts, b)), opts, b)
    ensures IsPdfPath(path) && b.pdfToImages(path).Failure? ==>
      r == "Error processing image: " + "Could not convert PDF to images: " + b.pdfToImages(path).error
    ensures var reply := OcrFile(path, GetPrompt(OllamaTable, opts.formatType, opts.language, opts.customPrompt), opts, b);
      && (!IsPdfPath(path) && reply.Failure? ==> r == "Error processing image: " + reply.error)
      && (!IsPdfPath(path) && reply.Success? ==> r == MaybeReformat(reply.value, opts, b))
  {
    var prompt := GetPrompt(OllamaTable, opts.formatType, opts.language, opts.customPrompt);
    if IsPdfPath(path) then
      match b.pdfToImages(path)
      case Failure(e) => ImageError(PdfConversionError(e))
      case Success(pages) => MaybeReformat(Join("\n\n", PageResponses(pages, prompt, opts, b)), opts, b)
    else
      match OcrFile(path, prompt, opts, b)
      case Failure(e) => ImageError(e)
      case Success(text) => MaybeReformat(text, opts, b)
  }

  /** The page loop of `process_image`: a failing page is recorded and the loop goes on. */
  method OcrPages(pages: seq<string>, prompt: string, opts: Options, b: Backend) returns (responses: seq<string>)
    ensures responses == PageResponses(pages, prompt, opts, b)
  {
    responses := [];
    for i := 0 to |pages|
      invariant |responses| == i
      invariant forall j :: 0 <= j < i ==> responses[j] == PageResponse(j, OcrFile(pages[j], prompt, opts, b))
    {
      var reply := OcrFile(pages[i], prompt, opts, b);
      responses := responses + [PageResponse(i, reply)];
    }
  }

  /** `process_image`: the page loop for a PDF, a single call otherwise; it never raises. */
  method ProcessImage(path: string, opts: Options, b: Backend) returns (r: string)
    ensures r == ProcessImageResult(path, opts, b)
  {
    var prompt := GetPrompt(OllamaTable, opts.formatType, opts.language, opts.customPrompt);
    if IsPdfPath(path) {
      var pages := b.pdfToImages(path);
      if pages.Failure? {
        return ImageError(PdfConversionError(pages.error));
      }
      var responses := OcrPages(pages.value, prompt, opts, b);
      r := MaybeReformat(Join("\n\n", responses), opts, b);
    } else {
      var reply := OcrFile(path, prompt, opts, b);
      if reply.Failure? {
        return ImageError(reply.error);
      }
      r := MaybeReformat(reply.value, opts, b);
    }
  }

  /**
   * A failing page never hides the pages after it: when the first of two pages
   * fails, the joined text is its error line followed by the second page's text.
   */
  lemma {:induction false} FailedFirstPageKeepsSecond(pages: seq<string>, prompt: string, opts: Options, b: Backend)
    requires |pages| == 2
    requires OcrFile(pages[0], prompt, opts, b).Failure? && OcrFile(pages[1], prompt, opts, b).Success?
    ensures Join("\n\n", PageResponses(pages, prompt, opts, b)) ==
      "Page 1: Error - " + OcrFile(pages[0], prompt, opts, b).error + "\n\n" +
      ("Page 2:\n" + OcrFile(pages[1], prompt, opts, b).value)
  {
    var responses := PageResponses(pages, prompt, opts, b);
    assert NatToString(1) == "1" && NatToString(2) == "2";
    assert responses[1..] == [responses[1]];
    assert Join("\n\n", responses) == responses[0] + "\n\n" + responses[1];
  }

  /** The `statistics` entry of `process_batch`'s result. */
  datatype Statistics = Statistics(total: nat, successful: nat, failed: nat)

  /**
   * `process_batch` on a list of paths, sequential branch: one `process_image` per
   * path, its result stored under the path. Since `process_image` never raises, the
   * `errors` dictionary stays empty; a repeated path overwrites its own entry.
   */
  method ProcessBatch(paths: seq<string>, opts: Options, b: Backend)
    returns (results: map<string, string>, errors: map<string, string>, stats: Statistics)
    ensures results.Keys == set p | p in paths
    ensures forall p :: p in results ==> results[p] == ProcessImageResult(p, opts, b)
    ensures errors == map[]
    ensures stats == Statistics(|paths|, |results.Keys|, |errors.Keys|)
  {
    results := map[];
    errors := map[];
    for i := 0 to |paths|
      invariant forall p :: p in results <==> p in paths[..i]
      invariant forall p :: p in results ==> results[p] == ProcessImageResult(p, opts, b)
    {
      var r := ProcessImage(paths[i], opts, b);
      PrefixSnoc(paths, i);
      results := results[paths[i] := r];
    }
    assert paths[..|paths|] == paths;
    KeysOfPaths(results, paths);
    stats := Statistics(|paths|, |results.Keys|, |errors.Keys|);
  }

  lemma PrefixSnoc(paths: seq<string>, i: nat)
    requires i < |paths|
    ensures forall p :: p in paths[..i + 1] <==> p in paths[..i] || p == paths[i]
  {
    assert paths[..i + 1] == paths[..i] + [paths[i]];
  }

  lemma KeysOfPaths(m: map<string, string>, paths: seq<string>)
    requires forall p :: p in m <==> p in paths
    ensures m.Keys == set p | p in paths
  {
  }

  predicate Distinct(paths: seq<string>) {
    forall i, j :: 0 <= i < j < |paths| ==> paths[i] != paths[j]
  }

  /** A list with one more path is distinct exactly when the list was and the new path is not in it. */
  lemma DistinctSnoc(init: seq<string>, last: string)
    ensures Distinct(init + [last]) <==> Distinct(init) && last !in init
  {
    var paths := init + [last];
    if Distinct(paths) {
      forall i, j | 0 <= i < j < |init| ensures init[i] != init[j] {
        assert init[i] == paths[i] && init[j] == paths[j];
      }
      forall k | 0 <= k < |init| ensures init[k] != last {
        assert init[k] == paths[k] && last == paths[|init|];
      }
    }
    if Distinct(init) && last !in init {
      forall i, j | 0 <= i < j < |paths| ensures paths[i] != paths[j] {
        assert paths[i] == init[i];
        if j < |init| {
          assert paths[j] == init[j];
        }
      }
    }
  }

  /**
   * The `successful` count is the number of distinct paths: never more than the
   * total, and equal to it exactly when no path repeats.
   */
  lemma {:induction false} DistinctPathCount(paths: seq<string>)
    ensures |set p | p in paths| <= |paths|
    ensures |set p | p in paths| == |paths| <==> Distinct(paths)
    decreases |paths|
  {
    if paths != [] {
      var init := paths[..|paths| - 1];
      var last := paths[|paths| - 1];
      assert paths == init + [last];
      DistinctPathCount(init);
      DistinctSnoc(init, last);
      var s := set p | p in init;
      assert (set p | p in paths) == s + {last};
      assert last in s <==> last in init;
    }
  }
}

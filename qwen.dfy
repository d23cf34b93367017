/**
 * `QwenProvider`: a vision model reached either through a local Ollama server
 * or through an OpenAI-compatible cloud API. Both OCR and file naming turn a
 * failed chat call into an error string; only reading the image file raises.
 *
 * Reading and base64-encoding a file (`encode_image`) and the chat call are
 * parameters.
 */
module Qwen {
  import opened Wrappers
  import opened Text
  import opened Chat
  import opened OcrPrompts

  /** `encode_image`: the base64 text of a file's bytes, or the message of the I/O error. */
  type Encoder = string -> Result<string, string>

  /** The system prompt of `generate_file_name`. */
  const RenamerPrompt: string :=
    "You are an expert file renamer. Based on the context provided, generate a concise, descriptive file name without any additional text or explanation. Just provide the file name."

  /** The `max_tokens` of an OCR call on the cloud API. */
  const OcrMaxTokens: nat := 4096

  /** The `max_tokens` of a naming call on the cloud API. */
  const NamingMaxTokens: nat := 100

  /** The data URL the cloud API receives an image as. */
  function ImageDataUrl(base64: string): (url: string)
    ensures |url| == |"data:image/jpeg;base64,"| + |base64|
    ensures url[|"data:image/jpeg;base64,"|..] == base64
  {
    "data:image/jpeg;base64," + base64
  }

  /** `paths[k]` is the first path whose processing raises. */
  predicate FirstFailure(process: string -> Result<string, string>, paths: seq<string>, k: int) {
    && 0 <= k < |paths|
    && process(paths[k]).Failure?
    && forall i :: 0 <= i < k ==> process(paths[i]).Success?
  }

  /**
   * A loop that calls `process` on each path in order and collects the results:
   * one result per path, or the exception of the first call that raises.
   */
  function InOrder(process: string -> Result<string, string>, paths: seq<string>): (r: Result<seq<string>, string>)
    ensures r.Success? <==> forall i :: 0 <= i < |paths| ==> process(paths[i]).Success?
    ensures r.Success? ==> |r.value| == |paths|
    ensures r.Success? ==> forall i :: 0 <= i < |paths| ==> r.value[i] == process(paths[i]).value
    ensures r.Failure? ==> exists k :: FirstFailure(process, paths, k) && r.error == process(paths[k]).error
    decreases |paths|
  {
    if paths == [] then Success([])
    else
      var init := paths[..|paths| - 1];
      var rest := InOrder(process, init);
      var one := process(paths[|paths| - 1]);
      assert forall i :: 0 <= i < |init| ==> init[i] == paths[i];
      if rest.Failure? then
        var k :| FirstFailure(process, init, k) && rest.error == process(init[k]).error;
        assert FirstFailure(process, paths, k);
        rest
      else if one.Failure? then
        assert FirstFailure(process, paths, |paths| - 1);
        Failure(one.error)
      else
        Success(rest.value + [one.value])
  }

  /** Once a prefix of the paths fails, every longer prefix fails with the same error. */
  lemma {:induction false} InOrderStopsAtFailure(process: string -> Result<string, string>, paths: seq<string>, n: nat)
    requires n <= |paths|
    requires InOrder(process, paths[..n]).Failure?
    ensures InOrder(process, paths) == InOrder(process, paths[..n])
    decreases |paths| - n
  {
    if n < |paths| {
      assert paths[..n + 1][..n] == paths[..n];
      InOrderStopsAtFailure(process, paths, n + 1);
    } else {
      assert paths[..n] == paths;
    }
  }

  /** Two steps that fail on the same paths with the same errors make the loop fail alike. */
  lemma SameFailures(process: string -> Result<string, string>, encode: Encoder, paths: seq<string>)
    requires forall p :: (process(p).Failure? <==> encode(p).Failure?) && (process(p).Failure? ==> process(p).error == encode(p).error)
    ensures var rs := InOrder(process, paths);
      && (rs.Success? <==> forall i :: 0 <= i < |paths| ==> encode(paths[i]).Success?)
      && (rs.Failure? ==> exists k :: FirstFailure(encode, paths, k) && rs.error == encode(paths[k]).error)
  {
    var rs := InOrder(process, paths);
    if rs.Failure? {
      var k :| FirstFailure(process, paths, k) && rs.error == process(paths[k]).error;
      assert FirstFailure(encode, paths, k);
    }
  }

  datatype QwenProvider = QwenProvider(modelName: string, useOllama: bool) {

    /**
     * The OCR request: one user message carrying the prompt and the image, as an
     * `images` entry for Ollama, or as a text part and an image part for the cloud API.
     */
    function OcrRequest(prompt: string, base64: string): (req: Request)
      ensures req.model == modelName && |req.messages| == 1 && req.messages[0].role == "user"
      ensures useOllama ==> req.messages[0] == Message("user", Plain(prompt), [base64]) && req.maxTokens == None
      ensures !useOllama ==>
        && req.messages[0] == Message("user", Parts([TextPart(prompt), ImageUrl(ImageDataUrl(base64))]), [])
        && req.maxTokens == Some(OcrMaxTokens)
    {
      if useOllama then Request(modelName, [Message("user", Plain(prompt), [base64])], None)
      else Request(modelName, [Message("user", Parts([TextPart(prompt), ImageUrl(ImageDataUrl(base64))]), [])], Some(OcrMaxTokens))
    }

    /** The prefix of the error string an OCR call turns a chat failure into. */
    function OcrErrorPrefix(): string {
      if useOllama then "Error processing image with Ollama: " else "Error processing image with Qwen API: "
    }

    /**
     * `process_image`: a file that cannot be read raises; otherwise the answer of
     * the model, or an error string when the chat call fails.
     */
    function ProcessImage(encode: Encoder, chat: Provider, path: string, formatType: string,
                          customPrompt: Option<string>, language: string): (r: Result<string, string>)
      ensures r.Failure? <==> encode(path).Failure?
      ensures r.Failure? ==> r.error == encode(path).error
      ensures encode(path).Success? ==>
        var req := OcrRequest(GetPrompt(QwenTable, formatType, language, customPrompt), encode(path).value);
        r.value == (if chat(req).Success? then chat(req).value else OcrErrorPrefix() + chat(req).error)
    {
      match encode(path)
      case Failure(e) => Failure(e)
      case Success(base64) =>
        var req := OcrRequest(GetPrompt(QwenTable, formatType, language, customPrompt), base64);
        match chat(req)
        case Success(content) => Success(content)
        case Failure(e) => Success(OcrErrorPrefix() + e)
    }

    /**
     * A non-blank custom prompt is what the model receives, on both transports,
     * and the image goes with it.
     */
    lemma CustomPromptIsSent(encode: Encoder, path: string, formatType: string, custom: string, language: string)
      requires !IsBlank(custom) && encode(path).Success?
      ensures var req := OcrRequest(GetPrompt(QwenTable, formatType, language, Some(custom)), encode(path).value);
        && (useOllama ==> req.messages[0].content == Plain(custom) && req.messages[0].images == [encode(path).value])
        && (!useOllama ==> req.messages[0].content.Parts? && req.messages[0].content.parts[0] == TextPart(custom)
                           && req.messages[0].content.parts[1].url[|"data:image/jpeg;base64,"|..] == encode(path).value)
    {
      var req := OcrRequest(GetPrompt(QwenTable, formatType, language, Some(custom)), encode(path).value);
      if !useOllama {
        assert req.messages[0].content.parts[1] == ImageUrl(ImageDataUrl(encode(path).value));
      }
    }

    /** `process_image` with the options of one batch fixed. */
    function Processor(encode: Encoder, chat: Provider, formatType: string, customPrompt: Option<string>,
                       language: string): string -> Result<string, string>
    {
      path => ProcessImage(encode, chat, path, formatType, customPrompt, language)
    }

    /** `process_images_batch`: the paths one by one, in order, the results joined by blank lines. */
    method ProcessImagesBatch(encode: Encoder, chat: Provider, paths: seq<string>, formatType: string,
                              customPrompt: Option<string>, language: string) returns (r: Result<string, string>)
      ensures var rs := InOrder(Processor(encode, chat, formatType, customPrompt, language), paths);
        r == (if rs.Success? then Success(Join("\n\n", rs.value)) else Failure(rs.error))
    {
      var process := Processor(encode, chat, formatType, customPrompt, language);
      var results: seq<string> := [];
      for i := 0 to |paths|
        invariant InOrder(process, paths[..i]) == Success(results)
      {
        assert paths[..i + 1][..i] == paths[..i];
        var one := ProcessImage(encode, chat, paths[i], formatType, customPrompt, language);
        if one.Failure? {
          InOrderStopsAtFailure(process, paths, i + 1);
          return Failure(one.error);
        }
        results := results + [one.value];
      }
      assert paths[..|paths|] == paths;
      r := Success(Join("\n\n", results));
    }

    /**
     * A batch fails exactly when some file cannot be read, and then with the error
     * of the first such file; a failed chat call is one more result in the text.
     */
    lemma BatchFailsOnFirstUnreadable(encode: Encoder, chat: Provider, paths: seq<string>, formatType: string,
                                      customPrompt: Option<string>, language: string)
      ensures var rs := InOrder(Processor(encode, chat, formatType, customPrompt, language), paths);
        && (rs.Success? <==> forall i :: 0 <= i < |paths| ==> encode(paths[i]).Success?)
        && (rs.Failure? ==> exists k :: FirstFailure(encode, paths, k) && rs.error == encode(paths[k]).error)
    {
      var process := Processor(encode, chat, formatType, customPrompt, language);
      forall p ensures (process(p).Failure? <==> encode(p).Failure?) && (process(p).Failure? ==> process(p).error == encode(p).error) {
        assert process(p) == ProcessImage(encode, chat, p, formatType, customPrompt, language);
      }
      SameFailures(process, encode, paths);
    }

    /** The naming request: the renamer system prompt, then the caller's prompt; a token cap only on the cloud API. */
    function NamingRequest(prompt: string): (req: Request)
      ensures req.model == modelName
      ensures req.messages == [Message("system", Plain(RenamerPrompt), []), Message("user", Plain(prompt), [])]
      ensures req.maxTokens == if useOllama then None else Some(NamingMaxTokens)
    {
      Request(modelName, [Message("system", Plain(RenamerPrompt), []), Message("user", Plain(prompt), [])],
              if useOllama then None else Some(NamingMaxTokens))
    }

    /** The prefix of the error string a naming call turns a chat failure into. */
    function NamingErrorPrefix(): string {
      if useOllama then "Error generating file name with Ollama: " else "Error generating file name with Qwen API: "
    }

    /** `generate_file_name`: the stripped answer, or an error string; it never raises. */
    function GenerateFileName(chat: Provider, prompt: string): (name: string)
      ensures chat(NamingRequest(prompt)).Success? ==> name == Strip(chat(NamingRequest(prompt)).value)
      ensures chat(NamingRequest(prompt)).Failure? ==> name == NamingErrorPrefix() + chat(NamingRequest(prompt)).error
    {
      match chat(NamingRequest(prompt))
      case Success(content) => Strip(content)
      case Failure(e) => NamingErrorPrefix() + e
    }

    /** A name the model produced carries no surrounding whitespace: stripping it again changes nothing. */
    lemma NamingAnswerIsStripped(chat: Provider, prompt: string)
      requires chat(NamingRequest(prompt)).Success?
      ensures Strip(GenerateFileName(chat, prompt)) == GenerateFileName(chat, prompt)
    {
      StripIdempotent(chat(NamingRequest(prompt)).value);
    }
  }
}

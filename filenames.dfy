/**
 * The naming engine of `OpenAIProvider`: it asks a chat model for a filename
 * built from the start of the document's text, and sanitises whatever comes
 * back. When the call fails it builds a fallback name from the original
 * filename and a timestamp, so naming never raises.
 */
module Filenames {
  import opened Wrappers
  import opened Text
  import Chat

  /** Names are clamped to this many characters. */
  const MaxNameLength: nat := 50

  /** What an empty sanitised name becomes. */
  const DefaultName: string := "document"

  /** Only this many characters of the document text reach the model. */
  const SampleLimit: nat := 3000

  /** The extensions stripped from a name, written in lower case. */
  const KnownExtensions: seq<string> := ["pdf", "png", "jpg", "jpeg"]

  /** The lines of the instruction sent as the system message of every naming request. */
  const SystemPromptLines: seq<string> := [
    "You are an expert at analyzing documents and creating concise, meaningful filenames.",
    "",
    "Rules for filename generation:",
    "1. Create descriptive filenames based on document content",
    "2. Use 2-5 words maximum",
    "3. Use snake_case format (e.g., invoice_january_2024)",
    "4. No special characters except underscores and hyphens",
    "5. Be specific but concise",
    "6. For invoices/receipts, include vendor and date if available",
    "7. For forms, include form type",
    "8. For letters, include sender/subject",
    "9. Never use generic names like \"document\" or \"file\"",
    "10. Return ONLY the filename, no explanation",
    "",
    "Examples:",
    "- Invoice from Apple dated Jan 2024 → \"apple_invoice_jan2024\"",
    "- Medical report for blood test → \"blood_test_report\"",
    "- Contract agreement → \"contract_agreement\"",
    "- University transcript → \"university_transcript\"",
    ""
  ]

  /** The instruction itself: the lines above, each ending in a newline. */
  const SystemPrompt: string := Join("\n", SystemPromptLines)

  predicate IsQuote(c: char) { c == '"' || c == '\'' }

  /** The characters the regex class `[\w\-_]` admits. */
  predicate IsNameChar(c: char) { IsWordChar(c) || c == '-' }

  /** A non-empty name of at most 50 characters from `[\w-]` with no upper-case letter. */
  predicate IsCleanName(s: string) {
    && s != []
    && |s| <= MaxNameLength
    && forall i :: 0 <= i < |s| ==> IsNameChar(s[i]) && !IsAsciiUpper(s[i])
  }

  /** Whether `s` ends with `.` and `ext`, ignoring case. */
  predicate EndsWithExtension(s: string, ext: string) {
    EndsWith(Lower(s), "." + ext)
  }

  /** `re.sub(r'\.(pdf|png|jpg|jpeg)$', '', s, flags=re.IGNORECASE)` on a string without a trailing newline. */
  function RemoveKnownExtension(s: string): (r: string)
    ensures |r| <= |s| && r == s[..|r|]
  {
    if EndsWithExtension(s, "jpeg") then s[..|s| - 5]
    else if EndsWithExtension(s, "pdf") || EndsWithExtension(s, "png") || EndsWithExtension(s, "jpg") then s[..|s| - 4]
    else s
  }

  /** `s.replace(' ', '_')`. */
  function ReplaceSpaces(s: string): (r: string)
  {
    seq(|s|, i requires 0 <= i < |s| => if s[i] == ' ' then '_' else s[i])
  }

  /** The first stage: strip whitespace, then quotes, then whitespace again. */
  function Unquoted(filename: string): string {
    Strip(StripWith(Strip(filename), IsQuote))
  }

  /** The last stage before clamping: spaces to underscores, keep `[\w-]`, lower-case. */
  function Normalized(s: string): (r: string)
    ensures |r| <= |s|
    ensures forall i :: 0 <= i < |r| ==> IsNameChar(r[i]) && !IsAsciiUpper(r[i])
  {
    var kept := Filter(ReplaceSpaces(s), IsNameChar);
    LowerKeepsNameChars(kept);
    Lower(kept)
  }

  /** The name before the 50-character clamp and the empty-name default. */
  function Sanitized(filename: string): (r: string)
    ensures forall i :: 0 <= i < |r| ==> IsNameChar(r[i]) && !IsAsciiUpper(r[i])
  {
    Normalized(RemoveKnownExtension(Unquoted(filename)))
  }

  lemma LowerKeepsNameChars(s: string)
    requires forall i :: 0 <= i < |s| ==> IsNameChar(s[i])
    ensures forall i :: 0 <= i < |s| ==> IsNameChar(Lower(s)[i]) && !IsAsciiUpper(Lower(s)[i])
  {
  }

  /** The last two steps: keep at most 50 characters, and use `document` for an empty name. */
  function ClampName(s: string): (r: string)
    requires forall i :: 0 <= i < |s| ==> IsNameChar(s[i]) && !IsAsciiUpper(s[i])
    ensures IsCleanName(r)
    ensures s == [] ==> r == DefaultName
    ensures s != [] ==> r <= s && |r| == if |s| > MaxNameLength then MaxNameLength else |s|
  {
    var clamped := if |s| > MaxNameLength then s[..MaxNameLength] else s;
    if clamped == [] then DefaultName else clamped
  }

  /** `_clean_filename`: strip, drop quotes and a known extension, then keep `[\w-]`, lower-case and clamp. */
  function CleanFilename(filename: string): (r: string)
    ensures IsCleanName(r)
    ensures Sanitized(filename) == [] ==> r == DefaultName
    ensures Sanitized(filename) != [] ==> r <= Sanitized(filename) &&
                                          |r| == if |Sanitized(filename)| > MaxNameLength then MaxNameLength else |Sanitized(filename)|
  {
    ClampName(Sanitized(filename))
  }

  /** Name characters are never whitespace, quotes or dots. */
  lemma NameCharFacts(c: char)
    requires IsNameChar(c)
    ensures !IsSpace(c) && !IsQuote(c) && c != '.'
  {
  }

  predicate NoDot(s: string) {
    forall i :: 0 <= i < |s| ==> s[i] != '.'
  }

  /** Lower-casing neither creates nor removes a dot. */
  lemma LowerNoDot(s: string)
    requires NoDot(s)
    ensures NoDot(Lower(s))
  {
  }

  /** Lower-casing works piecewise. */
  lemma LowerConcat(a: string, b: string)
    ensures Lower(a + b) == Lower(a) + Lower(b)
  {
    assert forall i :: 0 <= i < |a + b| ==> Lower(a + b)[i] == (Lower(a) + Lower(b))[i] by {
      forall i | 0 <= i < |a + b| ensures Lower(a + b)[i] == (Lower(a) + Lower(b))[i] {
        if i < |a| { assert (a + b)[i] == a[i]; } else { assert (a + b)[i] == b[i - |a|]; }
      }
    }
  }

  /** A dot in `w + y` with a dot-free `y` lies inside `w`. */
  lemma DotBeforeTail(w: string, y: string, p: int)
    requires NoDot(y) && 0 <= p < |w + y| && (w + y)[p] == '.'
    ensures p < |w|
  {
    assert forall q :: |w| <= q < |w + y| ==> (w + y)[q] == y[q - |w|];
  }

  /** A string ending in `.` and a dot-free `y` ends with `.z` (`z` dot-free) exactly when `y == z`. */
  lemma SuffixAfterDot(x: string, y: string, z: string)
    requires NoDot(y) && NoDot(z)
    ensures EndsWith(x + "." + y, "." + z) <==> y == z
  {
    var s := x + "." + y;
    var t := "." + z;
    if EndsWith(s, t) {
      var k := |s| - |t|;
      assert s[k] == s[k..][0] == '.';
      DotBeforeTail(x + ".", y, k);
      assert t[|x| - k] == s[k..][|x| - k] == s[|x|] == '.';
      DotBeforeTail(".", z, |x| - k);
      assert y == s[|x| + 1..] == t[1..] == z;
    }
    if y == z {
      assert s[|s| - |t|..] == t;
    }
  }

  /** A string without a dot cannot end with a dot and anything after it. */
  lemma NoDotNoDotSuffix(l: string, ext: string)
    requires NoDot(l)
    ensures !EndsWith(l, "." + ext)
  {
    if |ext| + 1 <= |l| {
      var k := |l| - |ext| - 1;
      assert l[k..][0] == l[k] && ("." + ext)[0] == '.';
    }
  }

  /** Without a dot there is no extension to remove. */
  lemma NoDotNoExtension(s: string)
    requires NoDot(s)
    ensures RemoveKnownExtension(s) == s
  {
    LowerNoDot(s);
    var l := Lower(s);
    NoDotNoDotSuffix(l, "jpeg");
    NoDotNoDotSuffix(l, "pdf");
    NoDotNoDotSuffix(l, "png");
    NoDotNoDotSuffix(l, "jpg");
  }

  /** Lower-casing a string without upper-case letters changes nothing. */
  lemma LowerNoUpper(s: string)
    requires forall i :: 0 <= i < |s| ==> !IsAsciiUpper(s[i])
    ensures Lower(s) == s
  {
  }

  /** A string that starts and ends with a name character is left alone by the stripping stage. */
  lemma UnquotedNoOp(s: string)
    requires s != [] ==> IsNameChar(s[0]) && IsNameChar(s[|s| - 1])
    ensures Unquoted(s) == s
  {
    if s != [] {
      NameCharFacts(s[0]);
      NameCharFacts(s[|s| - 1]);
    }
    StripWithNoOp(s, IsSpace);
    StripWithNoOp(s, IsQuote);
  }

  /** A clean name is left alone by every step of the pipeline. */
  lemma SanitizedOfCleanName(s: string)
    requires IsCleanName(s)
    ensures Sanitized(s) == s
  {
    UnquotedNoOp(s);
    forall i | 0 <= i < |s| ensures s[i] != '.' {
      NameCharFacts(s[i]);
    }
    NoDotNoExtension(s);
    assert ReplaceSpaces(s) == s;
    FilterAllKept(s, IsNameChar);
    LowerNoUpper(s);
  }

  /** Cleaning an already-cleaned name returns it unchanged. */
  lemma CleanFilenameIdempotent(filename: string)
    ensures CleanFilename(CleanFilename(filename)) == CleanFilename(filename)
  {
    var r := CleanFilename(filename);
    SanitizedOfCleanName(r);
  }

  /** A non-empty run of alphanumerics: no dot, space or quote. */
  predicate IsAlnumWord(s: string) {
    s != [] && forall i :: 0 <= i < |s| ==> IsAlnum(s[i])
  }

  lemma AlnumFacts(c: char)
    requires IsAlnum(c)
    ensures IsNameChar(c) && c != '.' && c != ' '
  {
  }

  /** An alphanumeric word starts and ends with a name character and holds no dot. */
  lemma AlnumWordFacts(s: string)
    requires IsAlnumWord(s)
    ensures IsNameChar(s[0]) && IsNameChar(s[|s| - 1]) && NoDot(s)
  {
    forall i | 0 <= i < |s| ensures s[i] != '.' {
      AlnumFacts(s[i]);
    }
    AlnumFacts(s[0]);
    AlnumFacts(s[|s| - 1]);
  }

  /** In `b.e` with a dot-free `e`, a known-extension match pins down `e` itself. */
  lemma ExtensionMatchIsWholeSuffix(b: string, e: string, ext: string)
    requires NoDot(e)
    requires ext in KnownExtensions
    ensures EndsWithExtension(b + "." + e, ext) <==> Lower(e) == ext
  {
    LowerConcat(b + ".", e);
    LowerConcat(b, ".");
    assert Lower(".") == ".";
    LowerNoDot(e);
    assert NoDot(ext);
    SuffixAfterDot(Lower(b), Lower(e), ext);
  }

  /** Which branch of the extension removal `b.e` takes, from the lower-cased `e` alone. */
  lemma ExtensionBranches(b: string, e: string)
    requires NoDot(e)
    ensures EndsWithExtension(b + "." + e, "jpeg") <==> Lower(e) == "jpeg"
    ensures EndsWithExtension(b + "." + e, "pdf") || EndsWithExtension(b + "." + e, "png") || EndsWithExtension(b + "." + e, "jpg")
      <==> Lower(e) == "pdf" || Lower(e) == "png" || Lower(e) == "jpg"
  {
    ExtensionMatchIsWholeSuffix(b, e, "jpeg");
    ExtensionMatchIsWholeSuffix(b, e, "pdf");
    ExtensionMatchIsWholeSuffix(b, e, "png");
    ExtensionMatchIsWholeSuffix(b, e, "jpg");
  }

  /** Extension removal on `b.e` with a dot-free `e`: `b` for a known extension, `b.e` otherwise. */
  lemma RemoveExtensionOfSplit(b: string, e: string)
    requires NoDot(e)
    ensures Lower(e) in KnownExtensions ==> RemoveKnownExtension(b + "." + e) == b
    ensures Lower(e) !in KnownExtensions ==> RemoveKnownExtension(b + "." + e) == b + "." + e
  {
    var s := b + "." + e;
    var low := Lower(e);
    assert |low| == |e| && s[..|b|] == b;
    ExtensionBranches(b, e);
    assert low in KnownExtensions <==> low == "pdf" || low == "png" || low == "jpg" || low == "jpeg";
  }

  /** A name whose only dot starts a known extension: cleaning drops the extension. */
  lemma KnownExtensionDropped(b: string, e: string)
    requires IsAlnumWord(b) && IsAlnumWord(e)
    requires Lower(e) in KnownExtensions
    ensures CleanFilename(b + "." + e) == CleanFilename(b)
  {
    var s := b + "." + e;
    AlnumWordFacts(b);
    AlnumWordFacts(e);
    assert s[0] == b[0] && s[|s| - 1] == e[|e| - 1];
    UnquotedNoOp(s);
    UnquotedNoOp(b);
    RemoveExtensionOfSplit(b, e);
    NoDotNoExtension(b);
  }

  /** `s.replace(' ', '_')` works piecewise. */
  lemma ReplaceSpacesConcat(a: string, b: string)
    ensures ReplaceSpaces(a + b) == ReplaceSpaces(a) + ReplaceSpaces(b)
  {
  }

  /** The character filter removes a dot wherever it stands. */
  lemma NormalizedDropsDot(b: string, e: string)
    ensures Normalized(b + "." + e) == Normalized(b + e)
  {
    var rb, re := ReplaceSpaces(b), ReplaceSpaces(e);
    assert ReplaceSpaces(b + "." + e) == rb + "." + re by {
      ReplaceSpacesConcat(b + ".", e);
      ReplaceSpacesConcat(b, ".");
      assert ReplaceSpaces(".") == ".";
    }
    assert ReplaceSpaces(b + e) == rb + re by {
      ReplaceSpacesConcat(b, e);
    }
    assert Filter(rb + "." + re, IsNameChar) == Filter(rb, IsNameChar) + Filter(re, IsNameChar) by {
      FilterConcat(rb + ".", re, IsNameChar);
      FilterConcat(rb, ".", IsNameChar);
      assert Filter(".", IsNameChar) == [];
    }
    FilterConcat(rb, re, IsNameChar);
  }

  /** Normalising works character by character: it distributes over concatenation. */
  lemma NormalizedConcat(a: string, b: string)
    ensures Normalized(a + b) == Normalized(a) + Normalized(b)
  {
    var ka, kb := Filter(ReplaceSpaces(a), IsNameChar), Filter(ReplaceSpaces(b), IsNameChar);
    ReplaceSpacesConcat(a, b);
    FilterConcat(ReplaceSpaces(a), ReplaceSpaces(b), IsNameChar);
    LowerConcat(ka, kb);
  }

  /**
   * What one character becomes: a space turns into `_`, a character of `[\w-]`
   * survives lower-cased, and anything else is dropped.
   */
  lemma NormalizedChar(c: char)
    ensures Normalized([c]) == if c == ' ' then "_" else if IsNameChar(c) then [LowerChar(c)] else ""
  {
    var d := if c == ' ' then '_' else c;
    assert ReplaceSpaces([c]) == [d];
    assert Filter([d], IsNameChar) == if IsNameChar(d) then [d] else [] by {
      assert [d][1..] == [];
    }
  }

  /** A space and an underscore in the same place give the same name. */
  lemma SpaceBecomesUnderscore(a: string, b: string)
    ensures Normalized(a + " " + b) == Normalized(a + "_" + b)
  {
    NormalizedConcat(a + " ", b);
    NormalizedConcat(a, " ");
    NormalizedConcat(a + "_", b);
    NormalizedConcat(a, "_");
    NormalizedChar(' ');
    NormalizedChar('_');
  }

  /** Concatenating dot-free strings gives a dot-free string. */
  lemma NoDotConcat(a: string, b: string)
    requires NoDot(a) && NoDot(b)
    ensures NoDot(a + b)
  {
    forall i | 0 <= i < |a + b| ensures (a + b)[i] != '.' {
      if i < |a| { assert (a + b)[i] == a[i]; } else { assert (a + b)[i] == b[i - |a|]; }
    }
  }

  /** Any other extension only loses its dot: `report.docx` cleans like `reportdocx`. */
  lemma OtherExtensionLosesDot(b: string, e: string)
    requires IsAlnumWord(b) && IsAlnumWord(e)
    requires Lower(e) !in KnownExtensions
    ensures CleanFilename(b + "." + e) == CleanFilename(b + e)
  {
    var s := b + "." + e;
    AlnumWordFacts(b);
    AlnumWordFacts(e);
    assert s[0] == b[0] && s[|s| - 1] == e[|e| - 1];
    UnquotedNoOp(s);
    RemoveExtensionOfSplit(b, e);
    assert Sanitized(s) == Normalized(s);
    assert (b + e)[0] == b[0] && (b + e)[|b + e| - 1] == e[|e| - 1];
    UnquotedNoOp(b + e);
    NoDotConcat(b, e);
    NoDotNoExtension(b + e);
    assert Sanitized(b + e) == Normalized(b + e);
    NormalizedDropsDot(b, e);
  }

  /** The position of the last `.` in `s`, if any. */
  function LastDot(s: string): (k: Option<nat>)
    ensures k.Some? ==> k.value < |s| && s[k.value] == '.' && '.' !in s[k.value + 1..]
    ensures k.None? ==> '.' !in s
    decreases |s|
  {
    if s == [] then None
    else if s[|s| - 1] == '.' then Some(|s| - 1)
    else LastDot(s[..|s| - 1])
  }

  /** `name.rsplit('.', 1)[0] if '.' in name else name`. */
  function Stem(name: string): string {
    match LastDot(name)
    case Some(k) => name[..k]
    case None => name
  }

  /** The stem and the dropped suffix put back together give the original name; the suffix holds no dot. */
  lemma StemSplit(name: string)
    ensures '.' !in name ==> Stem(name) == name
    ensures '.' in name ==> exists suffix :: name == Stem(name) + "." + suffix && '.' !in suffix
  {
    match LastDot(name)
    case Some(k) =>
      assert name == name[..k] + "." + name[k + 1..];
    case None =>
  }

  /** `%Y%m%d_%H%M%S`: eight digits, an underscore, six digits. */
  predicate IsCompactTimestamp(ts: string) {
    |ts| == 15 && ts[8] == '_' && forall i :: 0 <= i < 15 && i != 8 ==> IsDigit(ts[i])
  }

  /** `_fallback_filename`: the cleaned stem of the original name, `_` and the timestamp. */
  function FallbackFilename(originalFilename: string, timestamp: string): (r: string)
    ensures |r| >= |timestamp| + 2
    ensures IsCleanName(r[..|r| - |timestamp| - 1])
    ensures r[..|r| - |timestamp| - 1] == CleanFilename(Stem(originalFilename))
    ensures r[|r| - |timestamp| - 1..] == "_" + timestamp
  {
    var base := CleanFilename(Stem(originalFilename));
    var r := base + ("_" + timestamp);
    assert r[..|base|] == base;
    assert r[|base|..] == "_" + timestamp;
    r
  }

  predicate AllNameChars(s: string) {
    forall i :: 0 <= i < |s| ==> IsNameChar(s[i])
  }

  lemma DigitIsNameChar(c: char)
    requires IsDigit(c)
    ensures IsNameChar(c)
  {
  }

  lemma AllNameCharsConcat(a: string, b: string)
    requires AllNameChars(a) && AllNameChars(b)
    ensures AllNameChars(a + b)
  {
    forall i | 0 <= i < |a + b| ensures IsNameChar((a + b)[i]) {
      if i < |a| { assert (a + b)[i] == a[i]; } else { assert (a + b)[i] == b[i - |a|]; }
    }
  }

  /** `_` followed by a compact timestamp uses only `[\w-]`. */
  lemma TimestampTail(timestamp: string)
    requires IsCompactTimestamp(timestamp)
    ensures AllNameChars("_" + timestamp)
  {
    forall i | 0 <= i < |timestamp| ensures IsNameChar(timestamp[i]) {
      if i != 8 { DigitIsNameChar(timestamp[i]); }
    }
    assert IsNameChar('_');
    AllNameCharsConcat("_", timestamp);
  }

  /** With a `%Y%m%d_%H%M%S` timestamp the fallback name uses only `[\w-]` and is at most 66 characters long. */
  lemma FallbackNameChars(originalFilename: string, timestamp: string)
    requires IsCompactTimestamp(timestamp)
    ensures var r := FallbackFilename(originalFilename, timestamp);
      |r| <= MaxNameLength + 1 + 15 && forall i :: 0 <= i < |r| ==> IsNameChar(r[i])
  {
    var base := CleanFilename(Stem(originalFilename));
    var tail := "_" + timestamp;
    assert FallbackFilename(originalFilename, timestamp) == base + tail;
    TimestampTail(timestamp);
    AllNameCharsConcat(base, tail);
  }

  /** An alphanumeric word passes the whole pipeline unchanged up to lower-casing, so it keeps its length. */
  lemma AlnumWordSanitizedLength(s: string)
    requires IsAlnumWord(s)
    ensures |Sanitized(s)| == |s|
  {
    AlnumWordFacts(s);
    UnquotedNoOp(s);
    NoDotNoExtension(s);
    forall i | 0 <= i < |s| ensures s[i] != ' ' && IsNameChar(s[i]) {
      AlnumFacts(s[i]);
    }
    assert ReplaceSpaces(s) == s;
    FilterAllKept(s, IsNameChar);
  }

  /** The fallback can be longer than 50 characters: a long stem keeps 50 and the suffix adds 16. */
  lemma FallbackCanExceedClamp(originalFilename: string, timestamp: string)
    requires IsAlnumWord(originalFilename)
    requires |originalFilename| > MaxNameLength
    ensures |FallbackFilename(originalFilename, timestamp)| == MaxNameLength + 1 + |timestamp|
  {
    AlnumWordFacts(originalFilename);
    assert '.' !in originalFilename;
    StemSplit(originalFilename);
    AlnumWordSanitizedLength(originalFilename);
  }

  /** The text sample: at most the first 3000 characters of the document. */
  function TextSample(text: string): (sample: string)
    ensures |sample| <= SampleLimit
    ensures sample <= text
    ensures |text| <= SampleLimit ==> sample == text
  {
    if |text| > SampleLimit then text[..SampleLimit] else text
  }

  /** The user message: language, original filename and the text sample in a fixed template. */
  function UserPrompt(language: string, originalFilename: string, sample: string): string {
    "Document language: " + language + "\nOriginal filename: " + originalFilename +
    "\n\nDocument content:\n" + sample + "\n\nGenerate a descriptive filename (without extension):"
  }

  /** What `generate_filename` makes of the provider's reply: the cleaned answer, or the fallback name. */
  function NameFromReply(reply: Result<string, string>, originalFilename: string, timestamp: string): (name: string)
    ensures reply.Success? ==> IsCleanName(name) && name == CleanFilename(Strip(reply.value))
    ensures reply.Failure? ==> name == FallbackFilename(originalFilename, timestamp)
    ensures name != []
  {
    match reply
    case Success(content) => CleanFilename(Strip(content))
    case Failure(_) => FallbackFilename(originalFilename, timestamp)
  }

  /** Either way the name is non-empty and uses only `[\w-]`, given a well-formed timestamp. */
  lemma NameFromReplyIsSafe(reply: Result<string, string>, originalFilename: string, timestamp: string)
    requires IsCompactTimestamp(timestamp)
    ensures var name := NameFromReply(reply, originalFilename, timestamp);
      name != [] && |name| <= MaxNameLength + 16 && forall i :: 0 <= i < |name| ==> IsNameChar(name[i])
  {
    if reply.Failure? {
      FallbackNameChars(originalFilename, timestamp);
    }
  }

  /** The configuration an `OpenAIProvider` fixes at construction (temperature is not modelled). */
  datatype OpenAIProvider = OpenAIProvider(model: string) {

    /** The request `generate_filename` sends: the system prompt, then the user prompt over the sample. */
    function NamingRequest(text: string, language: string, originalFilename: string, maxTokens: nat): (req: Chat.Request)
      ensures req.model == model && req.maxTokens == Some(maxTokens) && |req.messages| == 2
      ensures req.messages[0] == Chat.Message("system", Chat.Plain(SystemPrompt), [])
      ensures req.messages[1] == Chat.Message("user", Chat.Plain(UserPrompt(language, originalFilename, TextSample(text))), [])
    {
      var sample := TextSample(text);
      Chat.Request(model, [Chat.Message("system", Chat.Plain(SystemPrompt), []),
                           Chat.Message("user", Chat.Plain(UserPrompt(language, originalFilename, sample)), [])],
                   Some(maxTokens))
    }

    /**
     * `generate_filename`: the model's answer, stripped and cleaned, on success and the
     * fallback name on any failure; it never raises. `timestamp` is the `strftime` text
     * of the moment of failure.
     */
    function GenerateFilename(provider: Chat.Provider, text: string, language: string, originalFilename: string,
                              maxTokens: nat, timestamp: string): (name: string)
      ensures var reply := provider(NamingRequest(text, language, originalFilename, maxTokens));
        name == NameFromReply(reply, originalFilename, timestamp)
    {
      NameFromReply(provider(NamingRequest(text, language, originalFilename, maxTokens)), originalFilename, timestamp)
    }

    /** Whatever the provider does, the name is non-empty and uses only `[\w-]`, given a well-formed timestamp. */
    lemma GeneratedNameIsSafe(provider: Chat.Provider, text: string, language: string, originalFilename: string,
                              maxTokens: nat, timestamp: string)
      requires IsCompactTimestamp(timestamp)
      ensures var name := GenerateFilename(provider, text, language, originalFilename, maxTokens, timestamp);
        name != [] && |name| <= MaxNameLength + 16 && forall i :: 0 <= i < |name| ==> IsNameChar(name[i])
    {
      var reply := provider(NamingRequest(text, language, originalFilename, maxTokens));
      NameFromReplyIsSafe(reply, originalFilename, timestamp);
      assert GenerateFilename(provider, text, language, originalFilename, maxTokens, timestamp)
          == NameFromReply(reply, originalFilename, timestamp);
    }
  }
}

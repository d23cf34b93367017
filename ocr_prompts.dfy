/**
 * The OCR prompts of the two vision back ends. `OCRProcessor1` and
 * `QwenProvider` each hold their own copy of the same six prompts, keyed by the
 * output format and with the document language inserted; a non-blank custom
 * prompt replaces them, and an unknown format falls back to the `text` prompt.
 */
module OcrPrompts {
  import opened Wrappers
  import opened Text

  /** The formats both tables know. */
  const FormatTypes: seq<string> := ["markdown", "text", "json", "structured", "key_value", "table"]

  /** Which copy of the table: `OCRProcessor1._get_prompt` or `QwenProvider._get_prompt`. */
  datatype Table = OllamaTable | QwenTable

  // The prompts of the OCRProcessor1 table, line by line (the f-strings joined by newlines).

  function OllamaMarkdownLines(language: string): seq<string> {
    [ "Extract all text content from this image in " + language + " **exactly as it appears**, without modification, summarization, or omission.",
      "                Format the output in markdown:",
      "                - Use headers (#, ##, ###) **only if they appear in the image**",
      "                - Preserve original lists (-, *, numbered lists) as they are",
      "                - Maintain all text formatting (bold, italics, underlines) exactly as seen",
      "                - **Do not add, interpret, or restructure any content**",
      "            " ]
  }

  function OllamaTextLines(language: string): seq<string> {
    [ "Extract all visible text from this image in " + language + " **without any changes**.",
      "                - **Do not summarize, paraphrase, or infer missing text.**",
      "                - Retain all spacing, punctuation, and formatting exactly as in the image.",
      "                - If text is unclear or partially visible, extract as much as possible without guessing.",
      "                - **Include all text, even if it seems irrelevant or repeated.** ",
      "            " ]
  }

  function OllamaJsonLines(language: string): seq<string> {
    [ "Extract all text from this image in " + language + " and format it as JSON, **strictly preserving** the structure.",
      "                - **Do not summarize, add, or modify any text.**",
      "                - Maintain hierarchical sections and subsections as they appear.",
      "                - Use keys that reflect the document's actual structure (e.g., \"title\", \"body\", \"footer\").",
      "                - Include all text, even if fragmented, blurry, or unclear.",
      "            " ]
  }

  function OllamaStructuredLines(language: string): seq<string> {
    [ "Extract all text from this image in " + language + ", **ensuring complete structural accuracy**:",
      "                - Identify and format tables **without altering content**.",
      "                - Preserve list structures (bulleted, numbered) **exactly as shown**.",
      "                - Maintain all section headings, indents, and alignments.",
      "                - **Do not add, infer, or restructure the content in any way.**",
      "            " ]
  }

  function OllamaKeyValueLines(language: string): seq<string> {
    [ "Extract all key-value pairs from this image in " + language + " **exactly as they appear**:",
      "                - Identify and extract labels and their corresponding values without modification.",
      "                - Maintain the exact wording, punctuation, and order.",
      "                - Format each pair as 'key: value' **only if clearly structured that way in the image**.",
      "                - **Do not infer missing values or add any extra text.**",
      "            " ]
  }

  function OllamaTableLines(language: string): seq<string> {
    [ "Extract all tabular data from this image in " + language + " **exactly as it appears**, without modification, summarization, or omission.",
      "                - **Preserve the table structure** (rows, columns, headers) as closely as possible.",
      "                - **Do not add missing values or infer content**—if a cell is empty, leave it empty.",
      "                - Maintain all numerical, textual, and special character formatting.",
      "                - If the table contains merged cells, indicate them clearly without altering their meaning.",
      "                - Output the table in a structured format such as Markdown, CSV, or JSON, based on the intended use.",
      "            " ]
  }

  // The prompts of the QwenProvider table, line by line (the f-strings joined by newlines).

  function QwenMarkdownLines(language: string): seq<string> {
    [ "Extract all text content from this image in " + language + " **exactly as it appears**, without modification, summarization, or omission.",
      "                Format the output in markdown:",
      "                - Use headers (#, ##, ###) **only if they appear in the image**",
      "                - Preserve original lists (-, *, numbered lists) as they are",
      "                - Maintain all text formatting (bold, italics, underlines) exactly as seen",
      "                - **Do not add, interpret, or restructure any content**",
      "            " ]
  }

  function QwenTextLines(language: string): seq<string> {
    [ "Extract all visible text from this image in " + language + " **without any changes**.",
      "                - **Do not summarize, paraphrase, or infer missing text.**",
      "                - Retain all spacing, punctuation, and formatting exactly as in the image.",
      "                - If text is unclear or partially visible, extract as much as possible without guessing.",
      "                - **Include all text, even if it seems irrelevant or repeated.**",
      "            " ]
  }

  function QwenJsonLines(language: string): seq<string> {
    [ "Extract all text from this image in " + language + " and format it as JSON, **strictly preserving** the structure.",
      "                - **Do not summarize, add, or modify any text.**",
      "                - Maintain hierarchical sections and subsections as they appear.",
      "                - Use keys that reflect the document's actual structure (e.g., \"title\", \"body\", \"footer\").",
      "                - Include all text, even if fragmented, blurry, or unclear.",
      "            " ]
  }

  function QwenStructuredLines(language: string): seq<string> {
    [ "Extract all text from this image in " + language + ", **ensuring complete structural accuracy**:",
      "                - Identify and format tables **without altering content**.",
      "                - Preserve list structures (bulleted, numbered) **exactly as shown**.",
      "                - Maintain all section headings, indents, and alignments.",
      "                - **Do not add, infer, or restructure the content in any way.**",
      "            " ]
  }

  function QwenKeyValueLines(language: string): seq<string> {
    [ "Extract all key-value pairs from this image in " + language + " **exactly as they appear**:",
      "                - Identify and extract labels and their corresponding values without modification.",
      "                - Maintain the exact wording, punctuation, and order.",
      "                - Format each pair as 'key: value' **only if clearly structured that way in the image**.",
      "                - **Do not infer missing values or add any extra text.**",
      "            " ]
  }

  function QwenTableLines(language: string): seq<string> {
    [ "Extract all tabular data from this image in " + language + " **exactly as it appears**, without modification, summarization, or omission.",
      "                - **Preserve the table structure** (rows, columns, headers) as closely as possible.",
      "                - **Do not add missing values or infer content**—if a cell is empty, leave it empty.",
      "                - Maintain all numerical, textual, and special character formatting.",
      "                - If the table contains merged cells, indicate them clearly without altering their meaning.",
      "                - Output the table in a structured format such as Markdown, CSV, or JSON, based on the intended use.",
      "            " ]
  }

  /** The position of a format among the six the tables know, or `None`. */
  function FormatIndex(formatType: string): (index: Option<nat>)
    ensures index.Some? <==> formatType in FormatTypes
    ensures index.Some? ==> index.value < |FormatTypes| && FormatTypes[index.value] == formatType
  {
    if formatType == "markdown" then Some(0)
    else if formatType == "text" then Some(1)
    else if formatType == "json" then Some(2)
    else if formatType == "structured" then Some(3)
    else if formatType == "key_value" then Some(4)
    else if formatType == "table" then Some(5)
    else None
  }

  /** The prompt lines of the format at `index` in one table. */
  function TableLines(table: Table, index: nat, language: string): seq<string>
    requires index < |FormatTypes|
  {
    match table
    case OllamaTable =>
      if index == 0 then OllamaMarkdownLines(language)
      else if index == 1 then OllamaTextLines(language)
      else if index == 2 then OllamaJsonLines(language)
      else if index == 3 then OllamaStructuredLines(language)
      else if index == 4 then OllamaKeyValueLines(language)
      else OllamaTableLines(language)
    case QwenTable =>
      if index == 0 then QwenMarkdownLines(language)
      else if index == 1 then QwenTextLines(language)
      else if index == 2 then QwenJsonLines(language)
      else if index == 3 then QwenStructuredLines(language)
      else if index == 4 then QwenKeyValueLines(language)
      else QwenTableLines(language)
  }

  /** `prompts.get(format_type)` on one table: the prompt's lines, exactly for the six known formats. */
  function PromptLines(table: Table, formatType: string, language: string): (lines: Option<seq<string>>)
    ensures lines.Some? <==> formatType in FormatTypes
  {
    match FormatIndex(formatType)
    case Some(index) => Some(TableLines(table, index, language))
    case None => None
  }

  /** The table's `text` prompt, which unknown formats fall back to. */
  function TextPromptLines(table: Table, language: string): seq<string> {
    TableLines(table, 1, language)
  }

  /** The table lookup with its `text` default: an unknown format gets the `text` prompt. */
  function DefaultPrompt(table: Table, formatType: string, language: string): (prompt: string)
    ensures formatType in FormatTypes ==> prompt == Join("\n", PromptLines(table, formatType, language).value)
    ensures formatType !in FormatTypes ==> prompt == Join("\n", TextPromptLines(table, language))
  {
    match PromptLines(table, formatType, language)
    case Some(lines) => Join("\n", lines)
    case None => Join("\n", TextPromptLines(table, language))
  }

  /**
   * `_get_prompt`: a custom prompt that is present and not blank is returned
   * verbatim; otherwise the table's prompt for the format.
   */
  function GetPrompt(table: Table, formatType: string, language: string, customPrompt: Option<string>): (prompt: string)
    ensures customPrompt.Some? && !IsBlank(customPrompt.value) ==> prompt == customPrompt.value
    ensures customPrompt.None? || IsBlank(customPrompt.value) ==> prompt == DefaultPrompt(table, formatType, language)
  {
    if customPrompt.Some? && Strip(customPrompt.value) != [] then
      StripEmptyIffBlank(customPrompt.value);
      customPrompt.value
    else if customPrompt.Some? then
      StripEmptyIffBlank(customPrompt.value);
      DefaultPrompt(table, formatType, language)
    else
      DefaultPrompt(table, formatType, language)
  }

  /** An unknown format is answered exactly as the `text` format is. */
  lemma UnknownFormatIsText(table: Table, formatType: string, language: string)
    requires formatType !in FormatTypes
    ensures DefaultPrompt(table, formatType, language) == DefaultPrompt(table, "text", language)
  {
    assert FormatIndex("text") == Some(1);
  }
}

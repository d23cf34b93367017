# ArabicFile-Renamer backend, modelled in Dafny

This project models the backend of a document-renaming service. A user uploads
PDFs or images, the backend extracts or OCRs their text, detects the language,
and asks a language model for a short, safe file name. The model covers five parts:

- **Daily upload quota** (`upload_quota.dfy`). `FileUploadLimiter` is a class whose
  `userFiles` map is updated in place. Its window is 24 hours and the clock is a `now`
  parameter. Pruning, the accept/reject decision, the reset time and the statistics are
  specified by functions (`Prune`, `Used`, `Decide`, `AfterCheck`). Every method keeps
  the window invariant (no user's surviving counts exceed the daily limit);
  `CheckAndIncrement` keeps it when the requested count is not negative.
- **File names** (`filenames.dfy`). This covers the sanitiser `_clean_filename`, the
  timestamped fallback, the 3000-character text sample, and the never-failing
  `generate_filename` of the OpenAI provider.
- **Document processing** (`uploads.dfy`, `documents.dfy`, `legacy_documents.dfy`).
  - Upload validation.
  - The scanned/digital test and language defaulting.
  - Content-type dispatch.
  - The two-pass OCR of scanned documents.
  - The older controller's dispatch and extraction-quality test, whose ratios are
    computed exactly.
- **OCR prompts** (`ocr_prompts.dfy`). The six format prompts of each OCR client, the
  custom-prompt override and the fallback to the `text` prompt.
- **OCR clients** (`ollama_ocr.dfy`, `qwen.dfy`).
  - `OCRProcessor1`: PDF detection, the page loop and the batch statistics.
  - `QwenProvider`: the chat request shapes, error strings, the ordered batch and file naming.

Shared modules:
- `text.dfy`: Python string semantics (`strip`, `lower`, `join`, character classes).
- `chat.dfy`: the chat request shapes.
- `wrappers.dfy`: `Option` and `Result`.

Every foreign call is a function parameter that returns a result or the message of
the exception it raised:
- the chat APIs;
- OCR, language detection and PDF text extraction;
- rasterisation and OpenCV preprocessing;
- base64 and JSON.

A loop or in-place update in the source is a method here. Each such method is proved
against a specification function, and the properties are proved as lemmas about those
functions.

Three details of the code are easy to miss:
- `is_scanned_pdf` counts the text after removing all whitespace, interior whitespace
  included, not only after stripping the ends.
- The fallback file name is not clamped to 50 characters
  (`Filenames.FallbackCanExceedClamp`).
- The OpenAI provider has no token-budget arithmetic. It truncates the text to
  3000 characters and returns a plain string.

## Model

| member | source | states |
|---|---|---|
| UploadQuota.Prune | Backend/stores/tracking/RateLimiter.py:18-24 | at most as many entries as before, each taken from the list and younger than 24 hours (order and exactness are `PruneConcat` and `PruneKeepsExactly`) |
| UploadQuota.PruneKeepsExactly | Backend/stores/tracking/RateLimiter.py:21-24 | an entry survives pruning iff it was in the list and its timestamp is strictly after `now` minus 24 hours, so an entry exactly 24 hours old is evicted |
| UploadQuota.PruneConcat | Backend/stores/tracking/RateLimiter.py:21-24 | pruning works entry by entry and keeps the original order |
| UploadQuota.PruneLater | Backend/stores/tracking/RateLimiter.py:18-24 | pruning at a time and then at a later time equals pruning once at the later time |
| UploadQuota.UsedConcat | Backend/stores/tracking/RateLimiter.py:37 | the usage sum is additive over concatenation |
| UploadQuota.UsedPruneMonotone | Backend/stores/tracking/RateLimiter.py:36-37 | with non-negative counts, pruning never increases the usage |
| UploadQuota.Oldest | Backend/stores/tracking/RateLimiter.py:41 | the result is the timestamp of some entry and no entry is older |
| UploadQuota.Decide | Backend/stores/tracking/RateLimiter.py:36-63 | rejected iff pruned usage plus the request exceeds the limit. A rejection reports usage, limit, `max(0, limit - usage)`, the request, and a reset time that is the oldest surviving timestamp plus 24 hours (or `now` plus 24 hours with no survivors). An acceptance reports usage plus request and the remaining count minus the request |
| UploadQuota.Report.Message | Backend/stores/tracking/RateLimiter.py:44-92 | every allow/deny verdict carries a non-empty message |
| UploadQuota.AfterCheck | Backend/stores/tracking/RateLimiter.py:36-54 | a rejection leaves the pruned list, and the list grows by at most one entry |
| UploadQuota.AcceptanceAppends | Backend/stores/tracking/RateLimiter.py:54-59 | an accepted request appends exactly `(now, count)` to the pruned list, and the new usage is within the limit |
| UploadQuota.CheckKeepsQuota | Backend/stores/tracking/RateLimiter.py:37-54 | window invariant: with non-negative counts, a within-quota list stays within quota after any check |
| UploadQuota.PruneKeepsQuota | Backend/stores/tracking/RateLimiter.py:18-24 | pruning preserves the window invariant |
| UploadQuota.UpdateKeepsQuota | Backend/stores/tracking/RateLimiter.py:21-54 | replacing one user's list by a within-quota list keeps every user within quota |
| UploadQuota.FileUploadLimiter.constructor | Backend/stores/tracking/RateLimiter.py:12-16 | the limiter starts with its limit, its enabled flag and no entries, and is valid |
| UploadQuota.FileUploadLimiter.CleanOldEntries | Backend/stores/tracking/RateLimiter.py:18-24 | only the caller's list changes, to its pruned form; validity is kept |
| UploadQuota.FileUploadLimiter.CheckAndIncrement | Backend/stores/tracking/RateLimiter.py:26-63 | disabled: the unlimited response, state unchanged. Empty user id: the error, state unchanged. Otherwise: the `Decide` verdict, and only the caller's list changes, to `AfterCheck`. With a non-negative count the window invariant is kept |
| UploadQuota.FileUploadLimiter.GetStats | Backend/stores/tracking/RateLimiter.py:65-93 | the same disabled and empty-id cases; otherwise the caller's list is pruned, nothing is appended, and the report gives pruned usage and `max(0, limit - usage)` |
| Filenames.RemoveKnownExtension | Backend/stores/llm/OpenAIProvider.py:107 | the result is a prefix of the input |
| Filenames.Normalized | Backend/stores/llm/OpenAIProvider.py:110-116 | no longer than its input, and only lower-case word characters and `-` |
| Filenames.NormalizedConcat | Backend/stores/llm/OpenAIProvider.py:110-116 | replacing spaces, filtering and lower-casing work character by character, so normalising distributes over concatenation |
| Filenames.NormalizedChar | Backend/stores/llm/OpenAIProvider.py:110-116 | one character becomes `_` if it is a space, its lower-case form if it is in `[\w-]`, and nothing otherwise |
| Filenames.SpaceBecomesUnderscore | Backend/stores/llm/OpenAIProvider.py:110 | a space anywhere in a name gives the same result as an underscore there |
| Filenames.ClampName | Backend/stores/llm/OpenAIProvider.py:118-124 | a clean name: non-empty, at most 50 characters, `document` for empty input, otherwise the first 50 characters of the input |
| Filenames.CleanFilename | Backend/stores/llm/OpenAIProvider.py:101-126 | always a clean name: non-empty, at most 50 characters, only word characters and `-`, no upper case. `document` when sanitising leaves nothing, otherwise the sanitised text cut to its first 50 characters |
| Filenames.CleanFilenameIdempotent | Backend/stores/llm/OpenAIProvider.py:101-126 | cleaning a cleaned name changes nothing |
| Filenames.SanitizedOfCleanName | Backend/stores/llm/OpenAIProvider.py:104-116 | a clean name passes the sanitising steps unchanged |
| Filenames.SuffixAfterDot | Backend/stores/llm/OpenAIProvider.py:107 | with dot-free `y` and `z`, `x.y` ends with `.z` iff `y == z` |
| Filenames.ExtensionMatchIsWholeSuffix | Backend/stores/llm/OpenAIProvider.py:107 | the case-insensitive extension pattern matches `b.e` iff the lower-cased final segment is exactly that extension |
| Filenames.RemoveExtensionOfSplit | Backend/stores/llm/OpenAIProvider.py:107 | a known extension (any case) is removed with its dot; any other final segment is left alone |
| Filenames.KnownExtensionDropped | Backend/stores/llm/OpenAIProvider.py:107-113 | `name.PDF`, `name.jpeg` and so on clean to the same name as `name` |
| Filenames.OtherExtensionLosesDot | Backend/stores/llm/OpenAIProvider.py:107-113 | any other extension only loses its dot, e.g. `report.docx` cleans like `reportdocx` |
| Filenames.NormalizedDropsDot | Backend/stores/llm/OpenAIProvider.py:110-113 | the character filter drops a dot and nothing else around it |
| Filenames.LastDot | Backend/stores/llm/OpenAIProvider.py:132 | the index of the last dot, or none when there is no dot |
| Filenames.StemSplit | Backend/stores/llm/OpenAIProvider.py:132 | a name without a dot is its own stem; otherwise the name is the stem, a dot and a dot-free suffix |
| Filenames.FallbackFilename | Backend/stores/llm/OpenAIProvider.py:128-134 | the cleaned stem (non-empty, clean), then `_`, then the timestamp |
| Filenames.FallbackNameChars | Backend/stores/llm/OpenAIProvider.py:128-134 | with a `%Y%m%d_%H%M%S` timestamp, the fallback uses only word characters and `-` |
| Filenames.FallbackCanExceedClamp | Backend/stores/llm/OpenAIProvider.py:131-134 | a long stem makes the fallback 50 + 1 + timestamp-length characters long, above the 50-character clamp |
| Filenames.TextSample | Backend/stores/llm/OpenAIProvider.py:68 | a prefix of the text of at most 3000 characters, the whole text when it is short enough |
| Filenames.NameFromReply | Backend/stores/llm/OpenAIProvider.py:88-99 | a reply gives the cleaned, stripped answer; a failure gives the fallback; never empty |
| Filenames.NameFromReplyIsSafe | Backend/stores/llm/OpenAIProvider.py:88-134 | either way the name is non-empty, at most 66 characters, and uses only word characters and `-` |
| Filenames.OpenAIProvider.NamingRequest | Backend/stores/llm/OpenAIProvider.py:68-86 | the request sends the system prompt, then the user prompt built from the language, the original name and the text sample, with the caller's token cap |
| Filenames.OpenAIProvider.GenerateFilename | Backend/stores/llm/OpenAIProvider.py:57-99 | the name is the reply-or-fallback choice on the provider's answer to that request, so it never raises |
| Filenames.OpenAIProvider.GeneratedNameIsSafe | Backend/stores/llm/OpenAIProvider.py:57-134 | every generated name is a safe file-name component |
| Uploads.ValidateFile | Backend/controllers/DataController.py:27-33 | accepted iff the type is allowed and the size is at most the limit. The type is checked before the size, and each rejection has its own message |
| Documents.IsScannedPdf | Backend/controllers/DataController.py:44-49 | empty text is scanned; otherwise scanned iff fewer than 100 non-whitespace characters |
| Documents.DetectLanguage | Backend/controllers/DataController.py:51-60 | always `eng` or `ara`; `eng` for text shorter than 10 characters after stripping; `ara` iff the text is long enough and the detector answers `ar` |
| Documents.ExtractTextFromPdf | Backend/controllers/DataController.py:36-42 | the stripped concatenation of the pages' text |
| Documents.PageTexts | Backend/controllers/DataController.py:141-151 | exactly one part per page in page order, `""` for a page whose OCR fails |
| Documents.ScannedResult | Backend/controllers/DataController.py:125-160 | no pages or a failed `eng+ara` sample aborts with that error. Otherwise the language comes from the sample, the text is the stripped blank-line join of the page texts in that language, the document is scanned, and it has 1 page for an image or one per image |
| Documents.ProcessScannedDocument | Backend/controllers/DataController.py:125-160 | the page loop computes `ScannedResult` |
| Documents.FailedSecondPage | Backend/controllers/DataController.py:141-156 | a failing page does not abort: with the second of two pages failing, the text is the first page's stripped text |
| Documents.ScannedSecondPageFails | Backend/controllers/DataController.py:132-156 | for a two-page scan whose second page fails in the full pass, the document still succeeds and its text is the first page's stripped text |
| Documents.ProcessDocumentResult | Backend/controllers/DataController.py:81-121 | images take the scanned path as one page, and unsupported types fail with their message. A PDF whose extracted text is not scanned-looking gives the digital result: that text, its detected language and the page count. Otherwise the PDF's page images take the scanned path. A failing library call aborts with its error, and a digital result comes only from such a PDF |
| Documents.ProcessDocument | Backend/controllers/DataController.py:81-121 | the method computes `ProcessDocumentResult` |
| LegacyDocuments.ProcessDocument | Backend/DataController.py:25-35 | a PDF gives its page images with the PDF signal, plain text gives the decoded text, and anything else gives one base64 image. A decode or conversion failure propagates |
| LegacyDocuments.IsBadExtraction | Backend/DataController.py:57-64 | blank text is bad; otherwise bad iff `len < 50 * max(pages, 1)` or twice the non-alphanumeric count exceeds `max(len, 1)` |
| LegacyDocuments.IntegerTestsMatchRatios | Backend/DataController.py:60-62 | the integer tests agree exactly with the source's two ratio comparisons over reals |
| LegacyDocuments.ZeroPagesCountAsOne | Backend/DataController.py:60 | zero pages and one page always get the same verdict |
| OcrPrompts.FormatIndex | Backend/OllamaOCR.py:103-143 | a format has a prompt iff it is one of markdown, text, json, structured, key_value, table |
| OcrPrompts.PromptLines | Backend/OllamaOCR.py:103-143 | a prompt exists exactly for the six known formats |
| OcrPrompts.DefaultPrompt | Backend/OllamaOCR.py:143 | a known format gets its own prompt, any other format gets the `text` prompt |
| OcrPrompts.GetPrompt | Backend/OllamaOCR.py:98-143 | a non-blank custom prompt is returned verbatim; a missing or whitespace-only one gives the default prompt |
| OcrPrompts.UnknownFormatIsText | Backend/Qwenprovider.py:155 | an unknown format's prompt is the `text` prompt |
| OllamaOcr.ThresholdingFor | Backend/OllamaOCR.py:78-88 | adaptive thresholding iff the lower-cased language is one of the six CJK names |
| OllamaOcr.UpperCasePdfExtension | Backend/OllamaOCR.py:177 | PDF detection is case-insensitive: `x.PDF` is a PDF |
| OllamaOcr.PageResponse | Backend/OllamaOCR.py:199-204 | a page gives `Page i:` and its text, or `Page i: Error - ` and the message, numbering from 1 |
| OllamaOcr.PageResponses | Backend/OllamaOCR.py:187-204 | exactly one response per page in page order; a failing page does not stop the loop |
| OllamaOcr.MaybeReformat | Backend/OllamaOCR.py:209-217 | only the `json` format is re-serialised: text that parses is replaced by its reformatted form, and text that does not is returned as is |
| OllamaOcr.OcrPages | Backend/OllamaOCR.py:182-204 | the loop computes `PageResponses` |
| OllamaOcr.ProcessImageResult | Backend/OllamaOCR.py:161-245 | a PDF gives its page responses joined by blank lines, and an image gives its OCR text, both reformatted for `json`. A failed conversion gives `Error processing image: Could not convert PDF to images: ` and the message, and a failed image gives `Error processing image: ` and the message, so nothing raises |
| OllamaOcr.ProcessImage | Backend/OllamaOCR.py:161-245 | the method, with its page loop, computes `ProcessImageResult` |
| OllamaOcr.FailedFirstPageKeepsSecond | Backend/OllamaOCR.py:187-207 | with the first of two pages failing, the joined text is its error line, a blank line, and the second page's text |
| OllamaOcr.ProcessBatch | Backend/OllamaOCR.py:283-341 | one result per distinct path, each the `process_image` result; no errors; `total` is the path count, `successful` the result count, `failed` the error count |
| OllamaOcr.DistinctPathCount | Backend/OllamaOCR.py:305-338 | `successful` never exceeds `total`, and equals it iff no path repeats |
| Qwen.ImageDataUrl | Backend/Qwenprovider.py:73-78 | the data URL is the JPEG base64 prefix followed by exactly the encoded image |
| Qwen.InOrder | Backend/Qwenprovider.py:103-106 | the in-order loop succeeds iff every call succeeds, with one result per path in order; otherwise it fails with the error of the first failing path |
| Qwen.InOrderStopsAtFailure | Backend/Qwenprovider.py:103-106 | once a prefix fails, later paths change nothing |
| Qwen.QwenProvider.OcrRequest | Backend/Qwenprovider.py:40-91 | Ollama: one user message with the prompt and the image in `images`, no token cap. Cloud: a text part and an image-URL part, with `max_tokens` 4096 |
| Qwen.QwenProvider.ProcessImage | Backend/Qwenprovider.py:29-95 | fails iff the image cannot be read, with that error. Otherwise it gives the model's answer, or the transport's `Error processing image with …` prefix and the message |
| Qwen.QwenProvider.CustomPromptIsSent | Backend/Qwenprovider.py:40-113 | a non-blank custom prompt, with the image, is exactly what either transport sends |
| Qwen.QwenProvider.ProcessImagesBatch | Backend/Qwenprovider.py:97-108 | one `process_image` per path in input order, joined with blank lines; an unreadable file ends the batch with its error |
| Qwen.QwenProvider.BatchFailsOnFirstUnreadable | Backend/Qwenprovider.py:40-108 | a batch fails iff some file cannot be read, then with the first such file's error; a failed chat call is just one more result |
| Qwen.QwenProvider.NamingRequest | Backend/Qwenprovider.py:164-197 | the renamer system prompt, then the caller's prompt; `max_tokens` 100 only on the cloud API |
| Qwen.QwenProvider.GenerateFileName | Backend/Qwenprovider.py:157-202 | the stripped answer, or the transport's `Error generating file name with …` prefix and the message; it never raises |
| Qwen.QwenProvider.NamingAnswerIsStripped | Backend/Qwenprovider.py:177-199 | a generated name has no surrounding whitespace |
| Text.StripIdempotent | Backend/Qwenprovider.py:177-199 | stripping twice equals stripping once |
| Text.StripAppendBlank | Backend/controllers/DataController.py:153-156 | appending whitespace, such as the `\n\n` after the last page, does not change what `strip` returns |

## Left out

- Unicode: `IsSpace` is Python's exact `str.isspace` set. `IsAlnum` and `\w` are exact on ASCII; any other non-whitespace character is treated as alphanumeric, so Arabic letters are kept but non-ASCII punctuation is kept too. `Lower` folds ASCII only.
- Filenames.CleanFilenameIdempotent: holds for every input under the character model above. Python's full Unicode `lower()` is not modelled.
- Concurrency: the limiter's lock is modelled as making each call atomic, and calls run one after another. The thread-pool branch of `process_batch` and the executor of the Tesseract wrapper are not modelled.
- Clock: `datetime.now()` is an integer `now` in microseconds, passed per call. The three reads of the clock inside one `check_and_increment` are one instant. The `isoformat()` rendering of `reset_at` is left out (the model reports the instant).
- The `strftime("%Y%m%d_%H%M%S")` timestamp of the fallback name is a parameter, required to be 8 digits, `_`, 6 digits where a lemma needs its shape.
- UploadQuota.CheckKeepsQuota: the window invariant is stated only for non-negative counts, because the source does not reject a negative `file_count`.
- Foreign services are parameters returning a value or the exception's message. These are the OpenAI, Ollama and Qwen chat calls, `requests.post`, Tesseract, `langdetect`, PyMuPDF, `pdf2image`, OpenCV, base64 and `json.loads`/`json.dumps`. So are file reads, including the Qwen `encode_image`.
- Floating point: the ratios of `_is_bad_extraction` are compared exactly (integer tests proved equal to real-number division); float rounding is not modelled. The sampling temperature of the OpenAI provider is not modelled.
- Temporary files, their directories and their cleanup in `OCRProcessor1` are filesystem I/O and are not modelled; neither are the progress prints.
- `process_batch` is modelled on a list of paths. Directory globbing, `Path` normalisation of the path strings and the parallel branch are not modelled.
- OpenCV preprocessing: only the choice between adaptive and Otsu thresholding is modelled; the image operations are not.
- Uploads.ValidateFile: an upload's `size` is an integer; the case where it is unknown is not modelled.
- The OCR prompt texts of the two clients are modelled separately, line by line. No lemma relates the two tables. They differ only in the `text` prompt, where one instruction line of the Ollama client ends with an extra space.
- `health_check`, the provider constructors and their client set-up, the HTTP routes, the service wrapper that forwards to the provider, telemetry, and configuration loading are not modelled. None of them holds logic beyond delegation.
- The older controller's `_extract_text_from_pdf`, `_count_pdf_pages` and `_pdf_to_images_in_memory` are library I/O; the dispatch receives their results through parameters.

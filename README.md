# Prescription extraction pipeline — a Dafny model

This project models the decision logic of a prescription-reading pipeline.
An uploaded prescription (an image or a PDF) is stored, and a path to a
picture is handed to `extract_text`. That function asks a multimodal model
for a JSON description of the prescription. If anything in that attempt
raises, it falls back to OCR, which returns the transcript together with a
fixed all-"N/A" record.

The modules follow the source:

- `PyStr` (pystr.dfy): the Python string operations the code relies on:
  `strip`, `rstrip(c)`, `startswith`, `endswith`, `rfind` and `lower`.
- `Json` (json_value.dfy): the values `json.loads` and `ast.literal_eval`
  return. Dicts are `map<string, Value>`.
- `Normalizer` (normalizer.dfy): `normalize_data`. A slot table (`Slot`,
  `Label`, `Default`, `Read`) gives an independent description of the nine
  slots, and the lemmas tie `NormalizeData` to that table.
- `Sanitizer` (sanitizer.dfy): the clean-up of the model's reply. It strips
  the reply; when the reply opens with a fence it also removes the
  ```` ```(?:json)?\n? ```` matches, strips trailing backticks and strips
  again.
- `PdfRouting` (pdf_routing.dfy): the two different PDF tests. The primary
  path uses `os.path.splitext`; the fallback uses `endswith(".pdf")`.
- `Orchestrator` (orchestrator.dfy): `extract_with_gemini`,
  `extract_with_tesseract` and `extract_text`. Each library call is a
  function-typed field of `Capabilities` that returns a success or the
  exception's text. The lemmas hold for every such function, that is, for
  every library behaviour in which a call with the same arguments always has
  the same outcome.
- `Uploads` (uploads.dfy): the path logic of `save_uploaded_file`: the
  extension, `os.path.join`, the PDF decision and the returned picture path.

Three observations come out of the proofs.

- The two PDF tests disagree on a file name made only of dots followed by
  `pdf`, such as `.pdf`. On such a path the primary path opens an image while
  the fallback converts a PDF (`PdfRulesDisagreement`, `DotPdfBasename`).
  Every path the primary path treats as a PDF, the fallback does too.
- The path that `save_uploaded_file` returns never passes either PDF test
  (`UploadedPathIsNeverPdf`). A converted PDF is returned as `<name>.jpg`, and
  any other name ending in `.pdf` would have been converted. When the
  extractor is reached through the upload, its PDF branches are therefore
  never taken.
- `normalize_data` copies every value unchanged. The code does not fill in
  any defaults inside individual medicines, and it does not check that fields
  are strings. The model follows the code here (`NormalizeKeepsMedicines`,
  `NormalizeExample`), so in the worked example the medicine keeps only the
  keys it came with.

## Model

| member | source | states |
|---|---|---|
| `PyStr.Strip` | ocr_utils.py:51 | the result is the input with a run of leading and a run of trailing whitespace (Python `isspace`) removed, and has no whitespace at either end; text already stripped is unchanged |
| `PyStr.RFind` | ocr_utils.py:29 | the index of the last occurrence of the character, or -1 when it does not occur |
| `PyStr.RStripChar` | ocr_utils.py:55 | the result is a prefix of the input, everything removed is the given character, and the result does not end with it |
| `PyStr.Lower` | ocr_utils.py:68 | lowercasing keeps the length |
| `Normalizer.NormalizeData` | ocr_utils.py:106-125 | the record always has exactly the keys Patient, Doctor, Date, Medicines, Notes, raw_text; Patient holds exactly Name/Age/Gender and Doctor exactly Name/RegistrationNumber |
| `Normalizer.LabelsAreDistinct` | ocr_utils.py:113-124 | the nine source labels are pairwise distinct and make up the label set |
| `Normalizer.NormalizeSlot` | ocr_utils.py:111-125 | every slot holds the input's value under its own label when that label is present, and the slot's default ("N/A", [] for Medicines, "" for raw_text) otherwise |
| `Normalizer.NormalizeEmpty` | ocr_utils.py:106-125 | total defaulting: an empty input gives every slot its default |
| `Normalizer.NormalizeSlotIsLocal` | ocr_utils.py:111-125 | each slot depends only on the input's entry under its own label |
| `Normalizer.NormalizeIgnoresOtherKeys` | ocr_utils.py:111-125 | adding keys outside the nine labels never changes the record |
| `Normalizer.NormalizeAgreeing` | ocr_utils.py:111-125 | inputs that agree on every slot once defaults are filled in give the same record |
| `Normalizer.NormalizeEqualIff` | ocr_utils.py:111-125 | two inputs give equal records if and only if they agree slot by slot once defaults are filled in |
| `Normalizer.NormalizeIsCanonical` | ocr_utils.py:111-125 | the record has the shape the UI reads |
| `Normalizer.NormalizeKeepsMedicines` | ocr_utils.py:122 | the medication list is passed through with the same items in the same order |
| `Normalizer.NormalizeExample` | ocr_utils.py:106-125 | Jane Doe with one partially filled medicine: name copied, age/gender/notes "N/A", medicine unchanged, raw_text "" |
| `Sanitizer.FenceMatchLength` | ocr_utils.py:54 | the match at a fence is at least the three backticks and lies within the text |
| `Sanitizer.FenceMatchIsToken` | ocr_utils.py:54 | what is deleted is one of "```", "```json", "```\n", "```json\n" |
| `Sanitizer.FenceMatchIsLongest` | ocr_utils.py:54 | the match is greedy: no token that opens the text is longer |
| `Sanitizer.RemoveFences` | ocr_utils.py:54 | the substitution never lengthens the text, and an output opening with a backtick comes from an input that does |
| `Sanitizer.Sanitize` | ocr_utils.py:51-55 | the cleaned reply has no whitespace at either end |
| `Sanitizer.RemoveFencesTwoBackticks` | ocr_utils.py:54 | an output opening with two backticks comes from an input opening with two |
| `Sanitizer.RemoveFencesLeavesNoFence` | ocr_utils.py:54 | after the substitution no three backticks remain anywhere |
| `Sanitizer.RemoveFencesOfFenceFree` | ocr_utils.py:54 | text without a fence passes the substitution unchanged |
| `Sanitizer.RemoveFencesCopies` | ocr_utils.py:54 | a prefix without backticks is copied unchanged |
| `Sanitizer.RemoveFencesSplice` | ocr_utils.py:54 | a backtick-free prefix, a whole match and the rest come out as the prefix followed by the rest's own substitution: only the match is deleted and the text after it is kept |
| `Sanitizer.SanitizeUnfenced` | ocr_utils.py:51-53 | a reply that does not open with a fence once stripped is only stripped |
| `Sanitizer.SanitizeFencedIsFenceFree` | ocr_utils.py:53-55 | a fenced reply comes out with no fence left in it |
| `Sanitizer.SanitizeIdempotent` | ocr_utils.py:51-55 | cleaning a cleaned reply changes nothing |
| `Sanitizer.SanitizeJsonFence` | ocr_utils.py:51-55 | any non-empty stripped body without backticks, wrapped as "```json\n" + body + "\n```", comes out as the bare body |
| `Sanitizer.SanitizePlainFence` | ocr_utils.py:51-55 | the same for an untagged fence: "```\n" + body + "\n```" comes out as the bare body |
| `Sanitizer.SanitizeFencedNewline` | ocr_utils.py:53-55 | a fenced reply whose substitution leaves a stripped body plus one newline comes out as that body |
| `Sanitizer.SanitizeExample` | ocr_utils.py:51-55 | the fenced reply "```json\n{\"a\":1}\n```" comes out as {"a":1} |
| `PdfRouting.ExtStart` | ocr_utils.py:29 | the extension starts at a dot after which the path has no dot and no separator, with some character other than a dot between the last separator and it; -1 exactly when the file name has no such dot (every dot in it follows only dots) |
| `PdfRouting.SplitExt` | ocr_utils.py:29 | the extension is empty or a suffix of the path that starts with its only dot and holds no separator |
| `PdfRouting.SplitExtRule` | ocr_utils.py:29 | the extension is empty if and only if every dot of the file name follows only dots; otherwise it starts at the last dot of the path |
| `PdfRouting.GeminiTreatsAsPdf` | ocr_utils.py:29-31 | a path the primary path treats as a PDF ends in ".pdf" in any letter case, and its extension starts at that dot |
| `PdfRouting.TesseractTreatsAsPdf` | ocr_utils.py:68 | the fallback treats a path as a PDF if and only if its last four characters lowercase to ".pdf" |
| `PdfRouting.GeminiPdfIsTesseractPdf` | ocr_utils.py:29-31 | every path the primary path converts as a PDF is converted by the fallback too |
| `PdfRouting.TesseractPdfTail` | ocr_utils.py:68 | a path the fallback treats as a PDF ends in a dot and three characters that are neither dots nor separators |
| `PdfRouting.PdfRulesDisagreement` | ocr_utils.py:29-31 | on a path the fallback's test (ocr_utils.py:68) treats as a PDF, the primary path agrees exactly when the file name has a character other than a dot before ".pdf" |
| `PdfRouting.DotPdfBasename` | ocr_utils.py:29-31 | a file named ".pdf" is a PDF to the fallback and not to the primary path |
| `PdfRouting.NamedPdfBothAgree` | ocr_utils.py:29-31 | a name ending in ".pdf" in any letter case, whose stem has no separator and does not start with a dot, is a PDF to both tests in any directory |
| `Orchestrator.GeminiImage` | ocr_utils.py:29-37 | a loaded picture is page 0 of the converted PDF when the path is a PDF to the primary test, and the opened image otherwise; loading succeeds exactly when the PDF converts to at least one page, or, for any other path, when the image opens; the missing-first-page failure happens exactly for a PDF that converts to no pages |
| `Orchestrator.ParseReply` | ocr_utils.py:57-60 | the reply parses if and only if json.loads accepts it, or reports a decode error and ast.literal_eval accepts it; the value is then the one the deciding parser returned |
| `Orchestrator.ExtractWithGemini` | ocr_utils.py:27-62 | on success the raw text is "" and the record has the canonical shape |
| `Orchestrator.TesseractImage` | ocr_utils.py:68-74 | a loaded picture is page 0 of the converted PDF when the path ends in ".pdf" in any case; such a PDF loads exactly when it converts to at least one page, a conversion error is passed on, and one that converts to no pages fails with "No pages found in PDF."; any other path gives exactly the outcome of opening the image |
| `Orchestrator.ExtractWithTesseract` | ocr_utils.py:65-97 | a picture that cannot be loaded makes the call fail with its error behind "Tesseract fallback failed: "; a loaded picture gives (transcript, fixed stub) when OCR succeeds and the OCR error behind the same prefix when it fails; so a success always carries the stub and every failure carries the prefix |
| `Orchestrator.ExtractText` | ocr_utils.py:15-24 | every success carries a canonical record; every failure's message starts with the fallback prefix |
| `Orchestrator.StubIsDefaultRecord` | ocr_utils.py:79-92 | the stub is the normalisation of an empty input without raw_text: every slot at its default, raw_text absent |
| `Orchestrator.ExtractTextFallback` | ocr_utils.py:15-24 | a primary success is returned unchanged; after any primary failure the result equals the fallback's result, success or error |
| `Orchestrator.ExtractTextFailsOnlyIfBothFail` | ocr_utils.py:15-24 | the call fails if and only if both tiers fail |
| `Orchestrator.StrictParseDecides` | ocr_utils.py:57-60 | unless json.loads reports a decode error, its verdict is final and ast.literal_eval is never consulted |
| `Orchestrator.StrictParseSucceeds` | ocr_utils.py:57-62 | a reply JSON reads as a dict yields ("", normalised dict) and no fallback |
| `Orchestrator.TolerantParseSucceeds` | ocr_utils.py:57-62 | a reply JSON rejects but the literal parser reads as a dict yields ("", normalised dict) and no fallback |
| `Orchestrator.GeminiSucceedsIff` | ocr_utils.py:27-62 | the primary path succeeds if and only if the picture loads, the model answers and a parser reads the cleaned reply as a dict; the result is then ("", normalize_data of that dict) for the reply the model gave on that picture |
| `Orchestrator.NonMappingFallsBack` | ocr_utils.py:57-62 | a parsed value that is not a dict sends the call to the fallback |
| `Orchestrator.UnparseableReplyFallsBack` | ocr_utils.py:57-60 | a reply both parsers reject sends the call to the fallback |
| `Orchestrator.ModelErrorFallsBack` | ocr_utils.py:50-51 | an error from the model call sends the call to the fallback |
| `Orchestrator.FallbackTranscript` | ocr_utils.py:65-94 | with the primary path down and a readable picture, the result is the transcript with the stub, whatever the transcript says |
| `Orchestrator.OpenedPictureIsTranscribed` | ocr_utils.py:65-94 | stated on library outcomes: with the primary path down, a non-PDF path whose image opens and is transcribed gives the transcript with the stub |
| `Orchestrator.UnopenablePictureFails` | ocr_utils.py:65-97 | stated on library outcomes: OCR failure is fatal; with the primary path down, a non-PDF path whose image does not open makes the call fail with the open error behind the fallback prefix |
| `Orchestrator.UntranscribablePictureFails` | ocr_utils.py:76-97 | with the primary path down, a picture that loads but cannot be transcribed makes the call fail with the OCR error behind the fallback prefix |
| `Orchestrator.OpenedPictureReachesModel` | ocr_utils.py:27-62 | stated on library outcomes: a non-PDF path whose image opens, with a reply that JSON reads as a dict, gives ("", that dict normalised) |
| `Orchestrator.EmptyPdfFailsBothTiers` | ocr_utils.py:29-71 | a PDF with no pages fails the primary path and makes the call fail with exactly "Tesseract fallback failed: No pages found in PDF." |
| `Uploads.PathJoin` | file_utils.py:12 | the joined path ends with the name, has a separator just before it and starts with the folder, or is the name itself when the name is absolute or the folder empty; otherwise its length is folder + name, plus one when the folder lacks a trailing separator |
| `Uploads.LastDotField` | file_utils.py:11 | the field is a suffix with no dot, preceded by a dot unless it is the whole name |
| `Uploads.FileExt` | file_utils.py:11 | the extension is a dot-free suffix of the lowercased name, preceded by a dot unless it is the whole name |
| `Uploads.SaveUploadedFile` | file_utils.py:6-27 | the upload is converted exactly when its extension is "pdf"; the stored path is the name joined under the data folder; the returned picture path is the name, plus ".jpg" for a converted PDF, joined under the upload folder |
| `Uploads.JoinUnderFolder` | file_utils.py:12 | under a folder ending in "/", a relative name is simply appended |
| `Uploads.PdfDecisionIff` | file_utils.py:11-18 | an upload is converted if and only if its lowercased name is "pdf" or ends with ".pdf" |
| `Uploads.BareNameIsConverted` | file_utils.py:11-18 | a name that lowercases to "pdf", with no dot at all, is converted |
| `Uploads.DecisionIgnoresFolders` | file_utils.py:6-18 | the conversion decision depends on the name alone |
| `Uploads.DefaultFolders` | file_utils.py:6-24 | with the default folders, the upload is stored at "data/raw/" + name and the picture at "static/uploads/" + name (+ ".jpg" for a PDF) |
| `Uploads.JoinedPdfNameIsPdf` | file_utils.py:24 | a joined path ending in ".pdf" gets that ending from the name |
| `Uploads.JoinedPdfIsConverted` | file_utils.py:11-18 | a name that, joined under any folder, ends in ".pdf" is one the upload converts |
| `Uploads.UploadedPathIsNotTesseractPdf` | file_utils.py:18-24 | the path returned by the upload never passes the fallback's PDF test |
| `Uploads.UploadedPathIsNeverPdf` | file_utils.py:18-24 | the path returned by the upload never passes either extractor's PDF test |

## Left out

- Calls to the model service, `genai.configure`, `pdf2image`, PIL and `pytesseract` are not modelled. Each is a `Capabilities` field whose outcome is an input.
- The grammars of `json.loads` and `ast.literal_eval` are not modelled. Their outcomes are inputs too, split into success, JSON decode error, and any other error.
- `genai.GenerativeModel(...)` failing before the image is loaded is not a separate case. It would fall back like any other primary failure.
- The text of exceptions is an input. The model fixes only the fallback prefix and the no-pages message.
- `print` diagnostics, `find_line` (which nothing calls), and app.py (the Streamlit UI, editing and export) are not modelled.
- Creating folders and writing files in `save_uploaded_file` are not modelled. `secure_filename` is not modelled; its result is the file name the model takes as input.
- `SaveUploadedFile` models only the case in which `save_uploaded_file` returns. The function raises instead when `convert_from_path` fails (file_utils.py:19), when the PDF has no pages (`images[0]`, file_utils.py:21), or when the upload cannot be opened as an image (`Image.open`, file_utils.py:23); those outcomes are not modelled.
- Each `Capabilities` field is a function, so two calls with the same arguments are taken to give the same outcome. The fallback repeats `convert_from_path` (ocr_utils.py:33 and 69) and `Image.open` (ocr_utils.py:37 and 74) on the same path; a library that answered differently the second time is not modelled. `EmptyPdfFailsBothTiers` relies on this for its second claim.
- Only POSIX path rules (`posixpath.splitext`, `posixpath.join`) are modelled: `/` is the only separator. Windows rules (`ntpath`, with `\` as a separator and drive letters) are not.
- Dict key order is not modelled, because records are maps. Non-string dict keys are dropped, because such a key can never equal a label.
- Numbers are kept as their literal text, so floating point is not modelled.
- `PyStr.Lower`: lowercases ASCII letters only, whereas Python's `str.lower` is full Unicode. Its contract states only that the length is kept.

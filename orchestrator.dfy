/**
  The two-tier extraction protocol of ocr_utils.py. `extract_text` tries the
  multimodal model (`extract_with_gemini`) and, when that raises anything,
  returns whatever the OCR fallback (`extract_with_tesseract`) returns or
  raises. The libraries the protocol calls are not modelled: each call is a
  field of `Capabilities`, a function from its inputs to an outcome. The
  lemmas below hold for every such function; because it is a function, two
  calls with the same arguments (the second `convert_from_path` or
  `Image.open` of the fallback) are taken to give the same outcome.
 */
module Orchestrator {
  import opened Outcomes
  import opened PyStr
  import opened Json
  import opened Normalizer
  import opened Sanitizer
  import opened PdfRouting

  /** A decoded page or picture; its pixels are not modelled. */
  datatype Image = Image(handle: nat)

  /** What `json.loads` does with a text. */
  datatype StrictParse =
    | Loaded(value: Value)
    | DecodeError(message: string)   // json.JSONDecodeError
    | Raised(message: string)        // any other exception

  /** The calls into libraries, each with the text of the exception it may
      raise. */
  datatype Capabilities = Capabilities(
    convertFromPath: string -> Result<seq<Image>, string>,       // pdf2image, dpi=300
    openImage: string -> Result<Image, string>,                  // PIL Image.open
    generateContent: (string, Image) -> Result<string, string>,  // the model's reply text
    jsonLoads: string -> StrictParse,
    literalEval: string -> Result<Value, string>,                // ast.literal_eval
    imageToString: Image -> Result<string, string>)              // pytesseract

  /** Why the primary path gave up; the protocol only logs it. */
  datatype PrimaryFailure =
    | LoadFailed(cause: string)           // the PDF conversion or the image load raised
    | NoFirstPage                         // the PDF gave no pages, so images[0] raised
    | ModelFailed(cause: string)          // the model call raised
    | StrictParseFailed(cause: string)    // json.loads raised something other than a decode error
    | LiteralParseFailed(cause: string)   // ast.literal_eval raised after a decode error
    | NotAMapping(parsed: Value)          // the parsed value has no .get

  /** The pair every extraction returns: raw text and the record. */
  type Extraction = (string, Mapping)

  const Prompt: string :=
    "Extract the following fields from this medical prescription image:\n" +
    "- Patient Name\n- Patient Age\n- Patient Gender\n" +
    "- Doctor Name\n- Doctor Registration Number\n" +
    "- Date of prescription\n" +
    "- Medications (Name, Dosage, Frequency, Duration)\n" +
    "- Instructions or additional notes\n" +
    "Return ONLY a raw JSON object using double quotes, without markdown, no triple backticks."

  const FallbackPrefix: string := "Tesseract fallback failed: "
  const NoPagesMessage: string := "No pages found in PDF."

  /** The record the OCR fallback returns whatever the transcript says. */
  const FallbackStub: Mapping := map[
    "Doctor" := Obj(map["Name" := NA, "RegistrationNumber" := NA]),
    "Patient" := Obj(map["Name" := NA, "Age" := NA, "Gender" := NA]),
    "Date" := NA,
    "Medicines" := List([]),
    "Notes" := NA]

  // ---------------------------------------------------------------------
  // Primary path: extract_with_gemini
  // ---------------------------------------------------------------------

  /** The picture sent to the model: the first page of a PDF, or the file
      opened as an image. */
  function GeminiImage(caps: Capabilities, path: string): (r: Result<Image, PrimaryFailure>)
    ensures r.Success? && GeminiTreatsAsPdf(path) ==>
      caps.convertFromPath(path).Success? && |caps.convertFromPath(path).value| > 0 &&
      r.value == caps.convertFromPath(path).value[0]
    ensures r.Success? && !GeminiTreatsAsPdf(path) ==> caps.openImage(path) == Success(r.value)
    ensures r == Failure(NoFirstPage) <==> GeminiTreatsAsPdf(path) && caps.convertFromPath(path) == Success([])
    ensures GeminiTreatsAsPdf(path) ==>
      (r.Success? <==> caps.convertFromPath(path).Success? && |caps.convertFromPath(path).value| > 0)
    ensures !GeminiTreatsAsPdf(path) ==> (r.Success? <==> caps.openImage(path).Success?)
  {
    if GeminiTreatsAsPdf(path) then
      match caps.convertFromPath(path)
      case Failure(e) => Failure(LoadFailed(e))
      case Success(pages) => if |pages| == 0 then Failure(NoFirstPage) else Success(pages[0])
    else
      match caps.openImage(path)
      case Failure(e) => Failure(LoadFailed(e))
      case Success(image) => Success(image)
  }

  /** Strict JSON first; the literal parser only after a JSON decode error. */
  function ParseReply(caps: Capabilities, text: string): (r: Result<Value, PrimaryFailure>)
    ensures r.Success? <==>
      caps.jsonLoads(text).Loaded? || (caps.jsonLoads(text).DecodeError? && caps.literalEval(text).Success?)
    ensures caps.jsonLoads(text).Loaded? ==> r == Success(caps.jsonLoads(text).value)
    ensures caps.jsonLoads(text).DecodeError? && caps.literalEval(text).Success? ==>
      r == Success(caps.literalEval(text).value)
  {
    match caps.jsonLoads(text)
    case Loaded(v) => Success(v)
    case Raised(e) => Failure(StrictParseFailed(e))
    case DecodeError(_) =>
      match caps.literalEval(text)
      case Success(v) => Success(v)
      case Failure(e) => Failure(LiteralParseFailed(e))
  }

  /** `extract_with_gemini`: on success the raw text is empty and the record
      is the normalised parse of the cleaned reply. */
  function ExtractWithGemini(caps: Capabilities, path: string): (r: Result<Extraction, PrimaryFailure>)
    ensures r.Success? ==> r.value.0 == "" && Canonical(r.value.1)
  {
    match GeminiImage(caps, path)
    case Failure(f) => Failure(f)
    case Success(image) =>
      match caps.generateContent(Prompt, image)
      case Failure(e) => Failure(ModelFailed(e))
      case Success(reply) =>
        match ParseReply(caps, Sanitize(reply))
        case Failure(f) => Failure(f)
        case Success(data) =>
          if data.Obj? then
            NormalizeIsCanonical(data.fields);
            Success(("", NormalizeData(data.fields)))
          else
            Failure(NotAMapping(data))
  }

  // ---------------------------------------------------------------------
  // Fallback: extract_with_tesseract
  // ---------------------------------------------------------------------

  /** The picture the OCR engine reads, or the text of the exception. */
  function TesseractImage(caps: Capabilities, path: string): (r: Result<Image, string>)
    ensures r.Success? && TesseractTreatsAsPdf(path) ==>
      caps.convertFromPath(path).Success? && |caps.convertFromPath(path).value| > 0 &&
      r.value == caps.convertFromPath(path).value[0]
    ensures r.Success? && !TesseractTreatsAsPdf(path) ==> caps.openImage(path) == Success(r.value)
    ensures TesseractTreatsAsPdf(path) && caps.convertFromPath(path) == Success([]) ==>
      r == Failure(NoPagesMessage)
    ensures TesseractTreatsAsPdf(path) ==>
      (r.Success? <==> caps.convertFromPath(path).Success? && |caps.convertFromPath(path).value| > 0)
    ensures TesseractTreatsAsPdf(path) && caps.convertFromPath(path).Failure? ==>
      r == Failure(caps.convertFromPath(path).error)
    ensures !TesseractTreatsAsPdf(path) ==> r == caps.openImage(path)
  {
    if TesseractTreatsAsPdf(path) then
      match caps.convertFromPath(path)
      case Failure(e) => Failure(e)
      case Success(pages) => if |pages| == 0 then Failure(NoPagesMessage) else Success(pages[0])
    else
      caps.openImage(path)
  }

  /** `extract_with_tesseract`: the transcript with the fixed stub, or one
      error carrying the fallback prefix; never a partial pair. */
  function ExtractWithTesseract(caps: Capabilities, path: string): (r: Result<Extraction, string>)
    ensures r.Success? ==> r.value.1 == FallbackStub
    ensures r.Failure? ==> StartsWith(r.error, FallbackPrefix)
    ensures TesseractImage(caps, path).Failure? ==>
      r == Failure(FallbackPrefix + TesseractImage(caps, path).error)
    ensures TesseractImage(caps, path).Success? ==>
      match caps.imageToString(TesseractImage(caps, path).value)
      case Success(text) => r == Success((text, FallbackStub))
      case Failure(e) => r == Failure(FallbackPrefix + e)
  {
    match TesseractImage(caps, path)
    case Failure(e) => Failure(FallbackPrefix + e)
    case Success(image) =>
      match caps.imageToString(image)
      case Failure(e) => Failure(FallbackPrefix + e)
      case Success(text) => Success((text, FallbackStub))
  }

  // ---------------------------------------------------------------------
  // extract_text
  // ---------------------------------------------------------------------

  /** `extract_text`: every success carries a record of the canonical shape;
      every failure is the fallback's error. */
  function ExtractText(caps: Capabilities, path: string): (r: Result<Extraction, string>)
    ensures r.Success? ==> Canonical(r.value.1)
    ensures r.Failure? ==> StartsWith(r.error, FallbackPrefix)
  {
    match ExtractWithGemini(caps, path)
    case Success(pair) => Success(pair)
    case Failure(_) =>
      StubIsCanonical();
      ExtractWithTesseract(caps, path)
  }

  // ---------------------------------------------------------------------
  // The fallback stub
  // ---------------------------------------------------------------------

  /** The stub is the all-defaults record without a raw_text entry. */
  lemma StubIsDefaultRecord()
    ensures FallbackStub == NormalizeData(map[]) - {"raw_text"}
    ensures forall s: Slot :: Read(FallbackStub, s) == if s == RawText then None else Some(Default(s))
  {
    var d := NormalizeData(map[]);
    assert (d - {"raw_text"}).Keys == FallbackStub.Keys;
  }

  lemma StubIsCanonical()
    ensures Canonical(FallbackStub)
  {
  }

  // ---------------------------------------------------------------------
  // Properties of the protocol
  // ---------------------------------------------------------------------

  /** A primary success is returned unchanged; after any primary failure the
      result is exactly the fallback's, success or error. */
  lemma ExtractTextFallback(caps: Capabilities, path: string)
    ensures ExtractWithGemini(caps, path).Success? ==>
      ExtractText(caps, path) == Success(ExtractWithGemini(caps, path).value)
    ensures ExtractWithGemini(caps, path).Failure? ==>
      ExtractText(caps, path) == ExtractWithTesseract(caps, path)
  {
  }

  /** The call fails exactly when both tiers fail. */
  lemma ExtractTextFailsOnlyIfBothFail(caps: Capabilities, path: string)
    ensures ExtractText(caps, path).Failure? <==>
      ExtractWithGemini(caps, path).Failure? && ExtractWithTesseract(caps, path).Failure?
  {
  }

  /** The strict parser's verdict is final unless it is a decode error: the
      literal parser is then never consulted. */
  lemma StrictParseDecides(caps: Capabilities, other: string -> Result<Value, string>, text: string)
    requires !caps.jsonLoads(text).DecodeError?
    ensures ParseReply(caps, text) == ParseReply(caps.(literalEval := other), text)
    ensures caps.jsonLoads(text).Loaded? ==> ParseReply(caps, text) == Success(caps.jsonLoads(text).value)
  {
  }

  /** The usual path: a cleaned reply that JSON reads as a mapping yields
      that mapping normalised, with empty raw text. */
  lemma StrictParseSucceeds(caps: Capabilities, path: string, image: Image, reply: string, data: Mapping)
    requires GeminiImage(caps, path) == Success(image)
    requires caps.generateContent(Prompt, image) == Success(reply)
    requires caps.jsonLoads(Sanitize(reply)) == Loaded(Obj(data))
    ensures ExtractText(caps, path) == Success(("", NormalizeData(data)))
  {
  }

  /** Tolerant parsing: a reply that JSON rejects but the literal parser
      reads as a mapping still yields a normalised record, not the fallback. */
  lemma TolerantParseSucceeds(caps: Capabilities, path: string, image: Image, reply: string, data: Mapping)
    requires GeminiImage(caps, path) == Success(image)
    requires caps.generateContent(Prompt, image) == Success(reply)
    requires caps.jsonLoads(Sanitize(reply)).DecodeError?
    requires caps.literalEval(Sanitize(reply)) == Success(Obj(data))
    ensures ExtractText(caps, path) == Success(("", NormalizeData(data)))
  {
  }

  /** The primary path succeeds exactly when the picture loads, the model
      answers, one of the parsers reads the cleaned reply, and what it reads
      is a mapping; the record is then that mapping normalised. */
  lemma {:induction false} GeminiSucceedsIff(caps: Capabilities, path: string)
    ensures ExtractWithGemini(caps, path).Success? <==>
      exists image, reply, data ::
        && GeminiImage(caps, path) == Success(image)
        && caps.generateContent(Prompt, image) == Success(reply)
        && ParseReply(caps, Sanitize(reply)) == Success(Obj(data))
    ensures ExtractWithGemini(caps, path).Success? ==>
      var image := GeminiImage(caps, path).value;
      var reply := caps.generateContent(Prompt, image).value;
      var parsed := ParseReply(caps, Sanitize(reply));
      && parsed.Success? && parsed.value.Obj?
      && ExtractWithGemini(caps, path).value == ("", NormalizeData(parsed.value.fields))
  {
    var r := ExtractWithGemini(caps, path);
    if r.Success? {
      var image := GeminiImage(caps, path).value;
      var reply := caps.generateContent(Prompt, image).value;
      var parsed := ParseReply(caps, Sanitize(reply)).value;
      assert GeminiImage(caps, path) == Success(image);
      assert caps.generateContent(Prompt, image) == Success(reply);
      assert ParseReply(caps, Sanitize(reply)) == Success(Obj(parsed.fields));
    }
  }

  /** A parsed value that is not a mapping sends the call to the fallback. */
  lemma NonMappingFallsBack(caps: Capabilities, path: string, image: Image, reply: string, v: Value)
    requires GeminiImage(caps, path) == Success(image)
    requires caps.generateContent(Prompt, image) == Success(reply)
    requires ParseReply(caps, Sanitize(reply)) == Success(v) && !v.Obj?
    ensures ExtractText(caps, path) == ExtractWithTesseract(caps, path)
  {
  }

  /** Both parsers failing sends the call to the fallback. */
  lemma UnparseableReplyFallsBack(caps: Capabilities, path: string, image: Image, reply: string)
    requires GeminiImage(caps, path) == Success(image)
    requires caps.generateContent(Prompt, image) == Success(reply)
    requires caps.jsonLoads(Sanitize(reply)).DecodeError?
    requires caps.literalEval(Sanitize(reply)).Failure?
    ensures ExtractText(caps, path) == ExtractWithTesseract(caps, path)
  {
  }

  /** A model error sends the call to the fallback. */
  lemma ModelErrorFallsBack(caps: Capabilities, path: string, image: Image)
    requires GeminiImage(caps, path) == Success(image)
    requires caps.generateContent(Prompt, image).Failure?
    ensures ExtractText(caps, path) == ExtractWithTesseract(caps, path)
  {
  }

  /** With the primary path down, a readable picture gives the transcript
      and the stub; the stub does not depend on the transcript. */
  lemma FallbackTranscript(caps: Capabilities, path: string, image: Image, text: string)
    requires ExtractWithGemini(caps, path).Failure?
    requires TesseractImage(caps, path) == Success(image)
    requires caps.imageToString(image) == Success(text)
    ensures ExtractText(caps, path) == Success((text, FallbackStub))
  {
  }

  /** Stated on library outcomes alone: with the primary path down, a
      picture that opens and is transcribed gives the transcript and the
      stub. */
  lemma OpenedPictureIsTranscribed(caps: Capabilities, path: string, image: Image, text: string)
    requires ExtractWithGemini(caps, path).Failure?
    requires !TesseractTreatsAsPdf(path)
    requires caps.openImage(path) == Success(image)
    requires caps.imageToString(image) == Success(text)
    ensures ExtractText(caps, path) == Success((text, FallbackStub))
  {
  }

  /** Stated on library outcomes alone: OCR failure is fatal. With the
      primary path down, a non-PDF picture that does not open makes the call
      fail with the open error behind the fallback prefix. */
  lemma UnopenablePictureFails(caps: Capabilities, path: string)
    requires ExtractWithGemini(caps, path).Failure?
    requires !TesseractTreatsAsPdf(path)
    requires caps.openImage(path).Failure?
    ensures ExtractText(caps, path) == Failure(FallbackPrefix + caps.openImage(path).error)
  {
  }

  /** Stated on library outcomes alone: with the primary path down, a
      picture that loads but cannot be transcribed makes the call fail with
      the OCR error behind the fallback prefix. */
  lemma UntranscribablePictureFails(caps: Capabilities, path: string, image: Image)
    requires ExtractWithGemini(caps, path).Failure?
    requires TesseractImage(caps, path) == Success(image)
    requires caps.imageToString(image).Failure?
    ensures ExtractText(caps, path) == Failure(FallbackPrefix + caps.imageToString(image).error)
  {
  }

  /** Stated on library outcomes alone: a picture that opens reaches the
      model, and a dict reply parsed strictly becomes the record. */
  lemma OpenedPictureReachesModel(caps: Capabilities, path: string, image: Image, reply: string, data: Mapping)
    requires !GeminiTreatsAsPdf(path)
    requires caps.openImage(path) == Success(image)
    requires caps.generateContent(Prompt, image) == Success(reply)
    requires caps.jsonLoads(Sanitize(reply)) == Loaded(Obj(data))
    ensures ExtractText(caps, path) == Success(("", NormalizeData(data)))
  {
    StrictParseSucceeds(caps, path, image, reply, data);
  }

  /** A PDF that converts to no pages fails both tiers: the primary path
      cannot take page one, and the fallback, which also reads the path as a
      PDF, raises its no-pages error, wrapped. */
  lemma {:induction false} EmptyPdfFailsBothTiers(caps: Capabilities, path: string)
    requires GeminiTreatsAsPdf(path)
    requires caps.convertFromPath(path) == Success([])
    ensures ExtractWithGemini(caps, path) == Failure(NoFirstPage)
    ensures ExtractText(caps, path) == Failure(FallbackPrefix + NoPagesMessage)
  {
    GeminiPdfIsTesseractPdf(path);
  }
}

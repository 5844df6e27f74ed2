/** The translation client (services/geminiService.ts): `translateText`
    wraps one page of Danish text in a fixed instruction prompt, sends it to
    the Gemini backend, and maps whatever comes back, including a thrown
    error, to a display string. The backend is an oracle passed in as a
    function from request to outcome. */
module GeminiService {
  import opened Wrappers
  import opened JsText

  /** The model every request names. */
  const ModelId: string := "gemini-3-flash-preview"

  /** Returned, without contacting the backend, for white-space-only text. */
  const NoTextMessage: string := "No text found on this page."

  /** Returned when the backend answers with no text or an empty text. */
  const EmptyResponseMessage: string := "Translation failed."

  /** Returned when the backend call throws. */
  const BackendErrorMessage: string :=
    "Error generating translation. Please check your API key and try again."

  /** The instruction block the source text is appended to, character for
      character as the template literal lays it out (including the
      indentation of its continuation lines). */
  const Preamble: string :=
    "You are a professional Danish to English translator. \n"
    + "      Translate the following Danish text from a PDF document into clear, academic English.\n"
    + "      \n"
    + "      Instructions:\n"
    + "      1. Preserve the original paragraph structure using Markdown (e.g., separate paragraphs with newlines).\n"
    + "      2. If you encounter mathematical formulas, keep them in their original format or LaTeX.\n"
    + "      3. If the text is just page numbers or headers, include them but formatted subtly.\n"
    + "      4. Output ONLY the translation, no preamble.\n"
    + "\n"
    + "      Source Text:\n"
    + "      "

  /** One `generateContent` call: a model name and the prompt contents. */
  datatype Request = Request(model: string, contents: string)

  /** What the backend oracle does with a request: resolve with a
      response whose `text` may be missing, or throw. */
  datatype Response = Responded(text: Option<string>) | Threw

  /** The string `translateText` resolves to, and the request it sent to
      the backend, if it sent one. */
  datatype Translation = Translation(result: string, request: Option<Request>)

  /** The prompt for `text`: the fixed preamble, then `text` unmodified. */
  function BuildPrompt(text: string): (p: string)
    ensures Preamble <= p
    ensures p[|Preamble|..] == text
  {
    Preamble + text
  }

  /** Reads the source text back out of a prompt, if it is one. */
  function SourceText(p: string): (r: Option<string>)
    ensures r.Some? <==> Preamble <= p
    ensures r.Some? ==> BuildPrompt(r.value) == p
  {
    if Preamble <= p then Some(p[|Preamble|..]) else None
  }

  /** The prompt carries the source text intact: it can be read back, so
      distinct texts give distinct prompts. */
  lemma PromptRoundTrip(text: string)
    ensures SourceText(BuildPrompt(text)) == Some(text)
  {
  }

  lemma PromptInjective(a: string, b: string)
    ensures BuildPrompt(a) == BuildPrompt(b) <==> a == b
  {
    PromptRoundTrip(a);
    PromptRoundTrip(b);
  }

  /** `response.text || "Translation failed."` on success, the fixed error
      message on a throw. */
  function ResultOf(response: Response): (r: string)
    ensures r != []
    ensures response.Threw? ==> r == BackendErrorMessage
    ensures response.Responded? && response.text.Some? && response.text.value != []
            ==> r == response.text.value
    ensures response.Responded? && response.text.GetOr([]) == [] ==> r == EmptyResponseMessage
  {
    match response
    case Threw => BackendErrorMessage
    case Responded(text) =>
      if text.Some? && text.value != [] then text.value else EmptyResponseMessage
  }

  /** `translateText(text)`. It never rejects: every outcome, including a
      thrown backend error, becomes a non-empty result string. */
  function TranslateText(text: string, backend: Request -> Response): (t: Translation)
    ensures t.request == None <==> AllWhitespace(text)
    ensures t.request == None ==> t.result == NoTextMessage
    ensures t.request.Some? ==> t.request.value == Request(ModelId, BuildPrompt(text))
    ensures t.request.Some? ==> t.result == ResultOf(backend(t.request.value))
    ensures t.result != []
  {
    if Trim(text) == [] then
      Translation(NoTextMessage, None)
    else
      var request := Request(ModelId, BuildPrompt(text));
      Translation(ResultOf(backend(request)), Some(request))
  }

  /** Every result is one of the three fixed messages or a non-empty text
      the backend produced for this very prompt. */
  lemma TranslateResultCases(text: string, backend: Request -> Response)
    ensures var t := TranslateText(text, backend);
      || t.result == NoTextMessage
      || t.result == EmptyResponseMessage
      || t.result == BackendErrorMessage
      || (t.request.Some? && backend(t.request.value) == Responded(Some(t.result)))
  {
  }
}

/** The viewing workspace (components/Workspace.tsx): page navigation, zoom,
    and the per-page "process page" effect that shows a cached translation
    or extracts the page's text, translates it and caches the result.

    The asynchronous effect is one atomic transition. PDF.js is an oracle
    `pdf` giving, for a page number, either the page's text items or a
    failure of `getPage`/`getTextContent`; the Gemini backend is the oracle
    of GeminiService. Calls to either are recorded as effects. Zoom is kept
    in integer tenths: 15 stands for a scale of 1.5. */
module Workspace {
  import opened Wrappers
  import opened JsText
  import opened GeminiService

  /** Scale bounds and step, in tenths. */
  const InitialScale: int := 15
  const MinScale: int := 5
  const MaxScale: int := 30
  const ScaleStep: int := 2

  /** Shown when fetching or extracting the page fails. */
  const ProcessingErrorMessage: string := "Error processing document text."

  /** The component's state. `docLoaded` stands for `pdfDoc !== null`; the
      cache maps a page number alone to the string shown for it. */
  datatype State = State(
    docLoaded: bool,
    page: int,
    totalPages: nat,
    scale: int,
    translation: string,
    isTranslating: bool,
    cache: map<int, string>)

  /** What the PDF.js oracle yields for `getPage(n)` followed by
      `getTextContent()`: the `str` of each item in order, or a rejection. */
  datatype PageContent = TextItems(items: seq<string>) | Unavailable

  /** Calls made to the oracles. */
  datatype Effect = FetchPage(page: int) | CallBackend(request: Request)

  /** One run of the effect: the state shown while awaiting (if the run
      awaits at all), the state it settles in, and the calls it made. */
  datatype Step = Step(loading: Option<State>, state: State, effects: seq<Effect>)

  /** The state on mount: page 1 of an unknown page count, scale 1.5. */
  function Initial(): (s: State)
    ensures !s.docLoaded && s.page == 1 && s.totalPages == 0 && s.scale == 15
    ensures s.translation == [] && !s.isTranslating && s.cache == map[]
  {
    State(false, 1, 0, InitialScale, [], false, map[])
  }

  /** `handlePrev`: one page back, never below page 1. */
  function Prev(s: State): (r: State)
    ensures r == s.(page := r.page)
    ensures r.page >= 1
    ensures s.page > 1 ==> r.page == s.page - 1
    ensures s.page <= 1 ==> r.page == 1
  {
    s.(page := if s.page - 1 > 1 then s.page - 1 else 1)
  }

  /** `handleNext`: one page on, never beyond `totalPages`. */
  function Next(s: State): (r: State)
    ensures r == s.(page := r.page)
    ensures r.page <= s.totalPages
    ensures s.page < s.totalPages ==> r.page == s.page + 1
    ensures s.page >= s.totalPages ==> r.page == s.totalPages
  {
    s.(page := if s.totalPages < s.page + 1 then s.totalPages else s.page + 1)
  }

  /** Zoom out by 0.2, never below 0.5. */
  function ZoomOut(s: State): (r: State)
    ensures r == s.(scale := r.scale)
    ensures r.scale >= MinScale
    ensures s.scale - ScaleStep >= MinScale ==> r.scale == s.scale - ScaleStep
    ensures s.scale - ScaleStep < MinScale ==> r.scale == MinScale
  {
    s.(scale := if s.scale - ScaleStep > MinScale then s.scale - ScaleStep else MinScale)
  }

  /** Zoom in by 0.2, never above 3.0. */
  function ZoomIn(s: State): (r: State)
    ensures r == s.(scale := r.scale)
    ensures r.scale <= MaxScale
    ensures s.scale + ScaleStep <= MaxScale ==> r.scale == s.scale + ScaleStep
    ensures s.scale + ScaleStep > MaxScale ==> r.scale == MaxScale
  {
    s.(scale := if s.scale + ScaleStep < MaxScale then s.scale + ScaleStep else MaxScale)
  }

  /** Zooming keeps the scale within [0.5, 3.0], moves it by at most 0.2,
      and out-then-in or in-then-out returns to the start away from the
      bounds. */
  lemma ZoomBounds(s: State)
    requires MinScale <= s.scale <= MaxScale
    ensures MinScale <= ZoomOut(s).scale <= MaxScale && MinScale <= ZoomIn(s).scale <= MaxScale
    ensures s.scale - ZoomOut(s).scale <= ScaleStep && ZoomIn(s).scale - s.scale <= ScaleStep
    ensures ZoomOut(s).scale == s.scale <==> s.scale == MinScale
    ensures ZoomIn(s).scale == s.scale <==> s.scale == MaxScale
    ensures s.scale - ScaleStep >= MinScale ==> ZoomIn(ZoomOut(s)) == s
    ensures s.scale + ScaleStep <= MaxScale ==> ZoomOut(ZoomIn(s)) == s
  {
  }

  /** The effect that loads the document: on success the document and its
      page count are stored; a failure is only logged. */
  function LoadDocument(s: State, numPages: Option<nat>): (r: State)
    ensures numPages.None? ==> r == s
    ensures numPages.Some? ==> r == s.(docLoaded := true, totalPages := numPages.value)
  {
    match numPages
    case None => s
    case Some(n) => s.(docLoaded := true, totalPages := n)
  }

  /** The text the workspace sends for translation: the items joined by
      single spaces. */
  function ExtractText(items: seq<string>): (text: string)
    ensures |items| > 0 ==> |text| == TotalLength(items) + |items| - 1
    ensures |items| == 0 ==> text == []
    ensures |items| > 0 ==> items[0] <= text
    ensures |items| == 1 ==> text == items[0]
  {
    Join(items, ' ')
  }

  /** The extracted text of two runs of items is the two texts with one
      space between them: no item is lost, duplicated or reordered, and
      nothing but a single space is inserted between neighbours. */
  lemma ExtractTextConcat(a: seq<string>, b: seq<string>)
    requires |a| > 0 && |b| > 0
    ensures ExtractText(a + b) == ExtractText(a) + [' '] + ExtractText(b)
  {
    JoinAppend(a, b, ' ');
  }

  /** When no item contains a space, splitting the extracted text on
      spaces gives back exactly the items, in order: the join loses
      nothing and reorders nothing. */
  lemma ExtractTextRecoversItems(items: seq<string>)
    requires |items| > 0
    requires forall i :: 0 <= i < |items| ==> ' ' !in items[i]
    ensures Split(ExtractText(items), ' ') == items
  {
    SplitJoin(items, ' ');
  }

  /** A cache hit needs a truthy entry: an empty cached string is a miss. */
  predicate IsCacheHit(s: State) {
    s.page in s.cache && s.cache[s.page] != []
  }

  /** The state shown while a miss is awaited: flag raised, text cleared. */
  function Loading(s: State): (r: State)
    ensures r.isTranslating && r.translation == []
    ensures r == s.(isTranslating := r.isTranslating, translation := r.translation)
  {
    s.(isTranslating := true, translation := [])
  }

  /** A miss whose page fetch or text extraction rejected. */
  function ExtractionFailed(s: State): (r: Step)
    ensures r.loading == Some(Loading(s))
    ensures r.state == s.(translation := ProcessingErrorMessage, isTranslating := false)
    ensures r.effects == [FetchPage(s.page)]
  {
    Step(Some(Loading(s)), Loading(s).(translation := ProcessingErrorMessage, isTranslating := false),
         [FetchPage(s.page)])
  }

  /** A miss whose page text was extracted and handed to `translateText`,
      which resolved to `t`: the result is shown and cached under the page
      number alone, and no other cache entry changes. */
  function Translated(s: State, t: Translation): (r: Step)
    ensures r.loading == Some(Loading(s))
    ensures r.state == s.(translation := t.result, cache := r.state.cache, isTranslating := false)
    ensures r.state.cache.Keys == s.cache.Keys + {s.page}
    ensures r.state.cache[s.page] == t.result
    ensures forall k :: k in s.cache && k != s.page ==> r.state.cache[k] == s.cache[k]
    ensures r.effects == [FetchPage(s.page)]
                         + (if t.request.Some? then [CallBackend(t.request.value)] else [])
  {
    var calls := if t.request.Some? then [CallBackend(t.request.value)] else [];
    Step(Some(Loading(s)),
         s.(translation := t.result, isTranslating := false, cache := s.cache[s.page := t.result]),
         [FetchPage(s.page)] + calls)
  }

  /** The `processPage` effect, run to completion. */
  function ProcessPage(s: State, pdf: int -> PageContent, backend: Request -> Response): (r: Step)
    // No document yet: nothing happens.
    ensures !s.docLoaded ==> r == Step(None, s, [])
    // Cache hit: the cached text is shown at once, nothing else changes.
    ensures s.docLoaded && IsCacheHit(s) ==>
              && r.loading == None && r.effects == []
              && r.state.translation == s.cache[s.page]
              && r.state == s.(translation := r.state.translation)
    // Cache miss: the loading state clears the text and raises the flag;
    // the page is fetched first, and the flag is down at the end.
    ensures s.docLoaded && !IsCacheHit(s) ==>
              && r.loading == Some(Loading(s))
              && |r.effects| > 0 && r.effects[0] == FetchPage(s.page)
              && !r.state.isTranslating
    // Fetching or extracting failed: an error message, cache untouched.
    ensures s.docLoaded && !IsCacheHit(s) && pdf(s.page).Unavailable? ==>
              && r.state == s.(translation := ProcessingErrorMessage, isTranslating := false)
              && r.effects == [FetchPage(s.page)]
    // Success: the joined items go to translateText, as Translated describes.
    ensures s.docLoaded && !IsCacheHit(s) && pdf(s.page).TextItems? ==>
              r == Translated(s, TranslateText(ExtractText(pdf(s.page).items), backend))
    // Whatever runs, the page settles on a non-empty text.
    ensures s.docLoaded ==> r.state.translation != []
  {
    if !s.docLoaded then
      Step(None, s, [])
    else if IsCacheHit(s) then
      Step(None, s.(translation := s.cache[s.page]), [])
    else
      match pdf(s.page)
      case Unavailable => ExtractionFailed(s)
      case TextItems(items) => Translated(s, TranslateText(ExtractText(items), backend))
  }

  /** The navigation buttons are disabled at the ends of the document. */
  predicate PrevDisabled(s: State) { s.page <= 1 }
  predicate NextDisabled(s: State) { s.page >= s.totalPages }

  /** The translation panel's "No text detected on this page." notice. */
  predicate ShowsNoTextNotice(s: State) { !s.isTranslating && s.translation == [] }

  /** The paragraphs the translation panel renders when it is not
      translating (while translating it shows a loading skeleton instead):
      one per line. */
  function RenderedLines(s: State): (lines: seq<string>)
    ensures |lines| >= 1
    ensures forall i :: 0 <= i < |lines| ==> '\n' !in lines[i]
    ensures Join(lines, '\n') == s.translation
  {
    JoinSplit(s.translation, '\n');
    Split(s.translation, '\n')
  }

  /** User and loader events the workspace reacts to. */
  datatype Event =
    | DocumentLoaded(numPages: nat)
    | DocumentLoadFailed
    | PressPrev
    | PressNext
    | PressZoomOut
    | PressZoomIn

  /** The state an event's handler leaves behind, before any effect has
      run: handlers change only the document, the page and the zoom, and
      each changes only its own part. */
  function Commit(s: State, e: Event): (r: State)
    ensures r.translation == s.translation && r.isTranslating == s.isTranslating
    ensures r.cache == s.cache
    ensures e.DocumentLoaded? ==> r.docLoaded && r.totalPages == e.numPages
    ensures !e.DocumentLoaded? ==> r.docLoaded == s.docLoaded && r.totalPages == s.totalPages
    ensures !(e.PressPrev? || e.PressNext?) ==> r.page == s.page
    ensures !(e.PressZoomOut? || e.PressZoomIn?) ==> r.scale == s.scale
    ensures e.PressPrev? ==> r == Prev(s)
    ensures e.PressNext? ==> r == Next(s)
    ensures e.PressZoomOut? ==> r == ZoomOut(s)
    ensures e.PressZoomIn? ==> r == ZoomIn(s)
    ensures e.DocumentLoadFailed? ==> r == s
  {
    match e
    case DocumentLoaded(n) => LoadDocument(s, Some(n))
    case DocumentLoadFailed => LoadDocument(s, None)
    case PressPrev => Prev(s)
    case PressNext => Next(s)
    case PressZoomOut => ZoomOut(s)
    case PressZoomIn => ZoomIn(s)
  }

  /** Whether the event changes a dependency of the process-page effect
      (the page number or the document), so that the effect runs again. */
  predicate EffectRuns(s: State, e: Event) {
    e.DocumentLoaded? || Commit(s, e).page != s.page
  }

  /** One event: the handler's update, followed by the process-page effect
      whenever one of its dependencies changed. */
  function Apply(s: State, e: Event, pdf: int -> PageContent, backend: Request -> Response): (r: Step)
    ensures e.PressZoomOut? || e.PressZoomIn? || e.DocumentLoadFailed? ==> r.effects == []
    ensures e.PressZoomOut? ==> r == Step(None, ZoomOut(s), [])
    ensures e.PressZoomIn? ==> r == Step(None, ZoomIn(s), [])
    ensures e.DocumentLoadFailed? ==> r == Step(None, s, [])
    ensures e.DocumentLoaded? ==> r == ProcessPage(LoadDocument(s, Some(e.numPages)), pdf, backend)
    ensures e.PressNext? && s.page < s.totalPages ==> r == ProcessPage(Next(s), pdf, backend)
    ensures e.PressPrev? && s.page > 1 ==> r == ProcessPage(Prev(s), pdf, backend)
    ensures (e.PressPrev? && s.page == 1) || (e.PressNext? && s.page == s.totalPages)
            ==> r == Step(None, s, [])
  {
    var c := Commit(s, e);
    if EffectRuns(s, e) then ProcessPage(c, pdf, backend) else Step(None, c, [])
  }

  /** Moving to the next page re-runs the effect on it: a page cached with a
      non-empty text is shown at once with no calls; any other page shows
      the loading state and is fetched first. */
  lemma NextReprocesses(s: State, pdf: int -> PageContent, backend: Request -> Response)
    requires s.docLoaded && s.page < s.totalPages
    ensures var r := Apply(s, PressNext, pdf, backend);
            var p := s.page + 1;
            && r.state.page == p
            && (p in s.cache && s.cache[p] != [] ==>
                  r.loading == None && r.effects == [] && r.state.translation == s.cache[p])
            && (!(p in s.cache && s.cache[p] != []) ==>
                  && r.loading.Some? && r.loading.value.isTranslating
                  && |r.effects| > 0 && r.effects[0] == FetchPage(p))
  {
  }

  /** Moving to the previous page re-runs the effect on it, likewise. */
  lemma PrevReprocesses(s: State, pdf: int -> PageContent, backend: Request -> Response)
    requires s.docLoaded && s.page > 1
    ensures var r := Apply(s, PressPrev, pdf, backend);
            var p := s.page - 1;
            && r.state.page == p
            && (p in s.cache && s.cache[p] != [] ==>
                  r.loading == None && r.effects == [] && r.state.translation == s.cache[p])
            && (!(p in s.cache && s.cache[p] != []) ==>
                  && r.loading.Some? && r.loading.value.isTranslating
                  && |r.effects| > 0 && r.effects[0] == FetchPage(p))
  {
  }

  /** Loading the document runs the effect on page 1 at once: with the
      cache still empty, page 1 is fetched and translated. */
  lemma LoadProcessesFirstPage(s: State, n: nat, pdf: int -> PageContent, backend: Request -> Response)
    requires Valid(s) && Admissible(s, DocumentLoaded(n))
    ensures var r := Apply(s, DocumentLoaded(n), pdf, backend);
            && r.state.docLoaded && r.state.totalPages == n && r.state.page == 1
            && r.loading.Some? && r.loading.value.isTranslating
            && |r.effects| > 0 && r.effects[0] == FetchPage(1)
  {
  }

  /** The render between the document loading and the effect starting
      has the document, an empty text and the flag down, so it shows the
      "No text detected" notice for that one render; the loading state and
      the settled state that follow do not. */
  lemma LoadFlashesNoTextNotice(s: State, n: nat, pdf: int -> PageContent, backend: Request -> Response)
    requires Valid(s) && Admissible(s, DocumentLoaded(n))
    ensures var c := Commit(s, DocumentLoaded(n));
            c.docLoaded && ShowsNoTextNotice(c)
    ensures var r := Apply(s, DocumentLoaded(n), pdf, backend);
            && r.loading.Some? && !ShowsNoTextNotice(r.loading.value)
            && !ShowsNoTextNotice(r.state)
  {
  }

  /** The events the component can actually receive: the document loads
      at most once, with at least one page, and the controls exist only
      once it has loaded. */
  predicate Admissible(s: State, e: Event) {
    match e
    case DocumentLoaded(n) => !s.docLoaded && n >= 1
    case DocumentLoadFailed => !s.docLoaded
    case _ => s.docLoaded
  }

  /** The invariant of the settled component. */
  predicate Valid(s: State) {
    && MinScale <= s.scale <= MaxScale
    && !s.isTranslating
    && (!s.docLoaded ==> s.page == 1 && s.cache == map[] && s.translation == [])
    && (s.docLoaded ==> 1 <= s.page <= s.totalPages && s.translation != [])
    && (forall k :: k in s.cache ==> 1 <= k <= s.totalPages && s.cache[k] != [])
  }

  /** Every admissible event keeps the invariant. */
  lemma ApplyPreservesValid(s: State, e: Event, pdf: int -> PageContent, backend: Request -> Response)
    requires Valid(s) && Admissible(s, e)
    ensures Valid(Apply(s, e, pdf, backend).state)
  {
    match e
    case DocumentLoaded(n) => ProcessPageSettles(Commit(s, e), pdf, backend);
    case PressPrev => ProcessPageSettles(Commit(s, e), pdf, backend);
    case PressNext => ProcessPageSettles(Commit(s, e), pdf, backend);
    case _ =>
  }

  /** Processing a page of a loaded document, from a state that is valid
      apart from the text shown, settles in a valid state. */
  lemma ProcessPageSettles(s: State, pdf: int -> PageContent, backend: Request -> Response)
    requires s.docLoaded && 1 <= s.page <= s.totalPages && !s.isTranslating
    requires MinScale <= s.scale <= MaxScale
    requires forall k :: k in s.cache ==> 1 <= k <= s.totalPages && s.cache[k] != []
    ensures Valid(ProcessPage(s, pdf, backend).state)
  {
    var r := ProcessPage(s, pdf, backend).state;
    if !IsCacheHit(s) && pdf(s.page).TextItems? {
      forall k | k in r.cache
        ensures 1 <= k <= r.totalPages && r.cache[k] != []
      {
        if k != s.page {
          assert k in s.cache;
        }
      }
    }
  }

  /** Runs a sequence of events, returning the settled state. */
  function Run(s: State, events: seq<Event>, pdf: int -> PageContent, backend: Request -> Response): State
    decreases |events|
  {
    if |events| == 0 then s
    else Run(Apply(s, events[0], pdf, backend).state, events[1..], pdf, backend)
  }

  /** Each event is admissible in the state it arrives in. */
  predicate AdmissibleRun(s: State, events: seq<Event>, pdf: int -> PageContent, backend: Request -> Response)
    decreases |events|
  {
    |events| == 0
    || (Admissible(s, events[0])
        && AdmissibleRun(Apply(s, events[0], pdf, backend).state, events[1..], pdf, backend))
  }

  /** From mount, every admissible run keeps the page within the document,
      the zoom within bounds, and the cache free of empty entries. */
  lemma {:induction false} RunPreservesValid(s: State, events: seq<Event>,
                                             pdf: int -> PageContent, backend: Request -> Response)
    requires Valid(s) && AdmissibleRun(s, events, pdf, backend)
    ensures Valid(Run(s, events, pdf, backend))
    decreases |events|
  {
    if |events| > 0 {
      ApplyPreservesValid(s, events[0], pdf, backend);
      RunPreservesValid(Apply(s, events[0], pdf, backend).state, events[1..], pdf, backend);
    }
  }

  lemma InitialValid()
    ensures Valid(Initial())
  {
  }

  /** Page bounds: prev from page 1 stays on page 1, next from the last
      page stays on the last page, and each button is disabled exactly
      when its handler would leave the page where it is. */
  lemma NavigationBounds(s: State)
    requires Valid(s) && s.docLoaded
    ensures 1 <= Prev(s).page <= s.totalPages && 1 <= Next(s).page <= s.totalPages
    ensures PrevDisabled(s) <==> Prev(s) == s
    ensures NextDisabled(s) <==> Next(s) == s
    ensures s.page == 1 ==> Prev(s).page == 1
    ensures s.page == s.totalPages ==> Next(s).page == s.totalPages
  {
  }

  /** In every settled state of a loaded document the "No text detected"
      notice is hidden: the service always answers with a placeholder
      instead. (It does show for the one render before the first effect
      starts; see LoadFlashesNoTextNotice.) */
  lemma NoTextNoticeNeverShown(s: State)
    requires Valid(s) && s.docLoaded
    ensures !ShowsNoTextNotice(s)
  {
  }

  /** A cached page is served again without fetching or translating:
      after a successful run on a page, any later visit with the same
      cache shows the same text and calls nothing. */
  lemma {:induction false} RevisitHitsCache(s: State, later: State,
                                            pdf: int -> PageContent, backend: Request -> Response)
    requires s.docLoaded && later.docLoaded && pdf(s.page).TextItems?
    ensures later.page == s.page && later.cache == ProcessPage(s, pdf, backend).state.cache ==>
              && ProcessPage(later, pdf, backend).effects == []
              && ProcessPage(later, pdf, backend).state.translation
                 == ProcessPage(s, pdf, backend).state.translation
  {
    var first := ProcessPage(s, pdf, backend);
    if later.page == s.page && later.cache == first.state.cache {
      if !IsCacheHit(s) {
        assert first.state.cache[s.page] == first.state.translation;
      }
      assert IsCacheHit(later);
    }
  }

  /** The service's placeholder and error strings are cached like any
      translation: a white-space-only page caches the "no text" message
      and a throwing backend caches the API-key error, so revisiting the
      page never retries. Only a failed fetch leaves the cache alone. */
  lemma PlaceholdersAreCached(s: State, pdf: int -> PageContent, backend: Request -> Response)
    requires s.docLoaded && !IsCacheHit(s) && pdf(s.page).TextItems?
    ensures var text := ExtractText(pdf(s.page).items);
            var cache := ProcessPage(s, pdf, backend).state.cache;
            var response := backend(Request(ModelId, BuildPrompt(text)));
            && (AllWhitespace(text) ==> cache[s.page] == NoTextMessage)
            && (!AllWhitespace(text) && response.Threw? ==> cache[s.page] == BackendErrorMessage)
            && (!AllWhitespace(text) && response.Responded? && response.text.GetOr([]) == [] ==>
                  cache[s.page] == EmptyResponseMessage)
  {
  }
}

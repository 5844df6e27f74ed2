# A verified model of the PDF translator's workspace logic

The application lets a user drop a Danish PDF, shows each page beside an
English translation produced by Gemini, and caches one translation per page.
This Dafny project models the logic behind that screen as pure functions
over immutable state:

- `Workspace` (components/Workspace.tsx): page navigation clamped to the
  document, zoom clamped to [0.5, 3.0] in steps of 0.2, and the
  `processPage` effect. That effect shows a cached translation, or it
  fetches the page, joins its text items with single spaces, translates
  them and caches the result under the page number. If the fetch fails it
  shows an error message instead.
- `GeminiService` (services/geminiService.ts): `translateText`. It
  short-circuits on white-space-only text and wraps the text in a fixed
  instruction prompt. It maps the backend's text, missing text or thrown
  error to a result string, so it never rejects.
- `App` (App.tsx): the IDLE/VIEWING shell, which shows either the landing
  screen or the workspace. It also tracks whether the mounted workspace has
  loaded its document, because the workspace's close button is rendered
  only after that.
- `Hero` (components/Hero.tsx): the drop zone, which accepts only a PDF,
  and the file input, which accepts anything.
- `ApiKeyModal` (components/ApiKeyModal.tsx): the key editor. It resets the
  typed key when its props change and has a show/hide toggle, a format hint
  and a save button that is disabled only for the empty key.
- `JsText`: the JavaScript string built-ins these rely on (`trim`, `join`,
  `split`, `startsWith`, UTF-16 `length`).
- `Files` and `Wrappers`: the browser `File` (name and MIME type) and
  `Option`.

Asynchronous work is collapsed into atomic transitions. Two external
services are oracles passed in as parameters. PDF.js is `pdf: int ->
PageContent`, which gives a page's text items or a failure. The Gemini
backend is `backend: Request -> Response`, which responds with an optional
text or throws. Every call a transition makes is recorded as an `Effect`,
so "nothing was fetched or sent" can be stated. Zoom is held in integer
tenths: the start is 15, the step 2 and the range [5, 30].

Behaviour of the code worth knowing:

- The cache is keyed by page number alone. There is no language pair or
  mode, and the comment in types.ts:25 about page-plus-direction keys does
  not describe what the code does.
- Failed translations are cached. `translateText` turns a thrown backend
  error into a message string, and the workspace stores that string like
  any translation. Revisiting the page therefore shows the error again and
  does not retry. Only a failed page fetch leaves the cache untouched.
- `translateText` has no credential check and no error classification.
  Every backend error becomes the same message.
- A late result for a page the user has left is not discarded. This model
  treats each run as atomic and claims nothing about overlapping runs.
- The file input does not check the MIME type. Only the drop zone does.
- A workspace whose document fails to load stays on "Loading Document...".
  That view has no close button, so there is no way back to the landing
  screen. A non-PDF chosen through the file input ends up there.

## Model

| member | source | states |
|---|---|---|
| JsText.Trim | services/geminiService.ts:7 | `text.trim()` is empty exactly when every character is ECMAScript white space or a line terminator. Otherwise it starts and ends with a non-white-space character. |
| JsText.TrimStart | services/geminiService.ts:7 | The first half of `trim`: the result is a suffix of the input, everything cut from the front is white space, and the result does not start with white space. |
| JsText.TrimEnd | services/geminiService.ts:7 | The second half of `trim`: the result is a prefix of the input, everything cut from the back is white space, and the result does not end with white space. |
| JsText.JoinSplit | components/Workspace.tsx:165 | Splitting the translation on newlines and joining the lines back gives the translation again, so the panel's paragraphs lose no text. |
| JsText.Join | components/Workspace.tsx:65 | `items.join(sep)`: no items give the empty string. Otherwise the result starts with the first item, and its length is the items' total length plus one separator between each pair of neighbours. |
| JsText.Split | components/Workspace.tsx:165 | `s.split(sep)` gives at least one piece, and no piece contains the separator. |
| JsText.SplitJoin | components/Workspace.tsx:65 | Splitting a join of items that contain no separator gives back exactly those items, in order. |
| JsText.JoinAppend | components/Workspace.tsx:65 | Joining two non-empty lists gives the first join, one separator, then the second join. |
| JsText.Utf16Length | components/ApiKeyModal.tsx:112 | `key.length` counts UTF-16 code units: a single character outside the Basic Multilingual Plane counts 2 and any other single character 1. The length lies between the number of characters and twice that, and equals the character count for text inside the Basic Multilingual Plane. |
| JsText.Utf16LengthAppend | components/ApiKeyModal.tsx:112 | `length` adds up over concatenation. With Utf16Length's one-character clause, a string's length is one unit per character inside the Basic Multilingual Plane and two per character outside it. For example, six emoji have length 12. |
| GeminiService.BuildPrompt | services/geminiService.ts:12-22 | The prompt is the fixed instruction preamble followed by the source text, unmodified. |
| GeminiService.SourceText | services/geminiService.ts:12-22 | The source text can be read back from any prompt, so the prompt round-trips through BuildPrompt. |
| GeminiService.PromptRoundTrip | services/geminiService.ts:12-22 | Reading the source text back out of the prompt built for a text gives exactly that text. |
| GeminiService.PromptInjective | services/geminiService.ts:12-22 | Two prompts are equal exactly when their source texts are equal. |
| GeminiService.ResultOf | services/geminiService.ts:25-29 | A non-empty backend text is returned verbatim. A missing or empty text yields "Translation failed.". A throw yields the API-key error message. The result is never empty. |
| GeminiService.TranslateText | services/geminiService.ts:6-30 | No request is sent exactly when the text is all white space, and then the result is "No text found on this page.". Otherwise one request is sent, to 'gemini-3-flash-preview' with the built prompt, and the result is ResultOf of the backend's answer. The result is never empty. The function is total: a throw is the backend's `Threw` outcome, which maps to the API-key message, so the call never rejects. |
| GeminiService.TranslateResultCases | services/geminiService.ts:7-29 | Every result is one of the three fixed messages or a non-empty text that the backend returned for this prompt. |
| Workspace.Initial | components/Workspace.tsx:21-27 | On mount there is no document, the page is 1 of 0, the scale is 1.5, the text is empty, nothing is loading and the cache is empty. |
| Workspace.Prev | components/Workspace.tsx:82 | Prev moves one page back and never goes below page 1. Nothing but the page changes. |
| Workspace.Next | components/Workspace.tsx:83 | Next moves one page forward and never goes past `totalPages`. Nothing but the page changes. |
| Workspace.ZoomOut | components/Workspace.tsx:121 | Zooming out lowers the scale by exactly 0.2 when that leaves it at or above 0.5, and otherwise sets it to 0.5. Nothing but the scale changes. |
| Workspace.ZoomIn | components/Workspace.tsx:124 | Zooming in raises the scale by exactly 0.2 when that leaves it at or below 3.0, and otherwise sets it to 3.0. Nothing but the scale changes. |
| Workspace.ZoomBounds | components/Workspace.tsx:121-124 | From any in-range scale, both zoom steps stay in [0.5, 3.0] and move by at most 0.2. Each step is a no-op exactly at its own bound. Away from the bounds, out-then-in and in-then-out return to the start. |
| Workspace.LoadDocument | components/Workspace.tsx:31-44 | A loaded document sets the document flag and the page count and changes nothing else. A failed load changes nothing. |
| Workspace.ExtractText | components/Workspace.tsx:65 | The extracted text starts with the first item, and a single item is returned as it is. Its length is the items' total length plus one separator between each pair of neighbours. No items give the empty text. |
| Workspace.ExtractTextRecoversItems | components/Workspace.tsx:65 | When no item contains a space, splitting the extracted text on spaces recovers the items in order. |
| Workspace.ExtractTextConcat | components/Workspace.tsx:65 | The text extracted from two runs of items is the two texts with exactly one space between them, so items are neither lost, duplicated nor reordered. |
| Workspace.Loading | components/Workspace.tsx:57-58 | On a cache miss, before any work, `isTranslating` is set and the text is cleared. Nothing else changes. |
| Workspace.ExtractionFailed | components/Workspace.tsx:71-76 | If the page fetch or text extraction fails, the text becomes "Error processing document text.", the cache is unchanged and `isTranslating` ends false. |
| Workspace.Translated | components/Workspace.tsx:60-76 | On success the text and cache[page] both become translateText's result, and the key set grows only by that page. Every other entry is unchanged, `isTranslating` ends false, and the calls are one page fetch plus at most one backend request. |
| Workspace.ProcessPage | components/Workspace.tsx:47-80 | With no document, nothing happens. On a hit (a non-empty cached string) the cached text is shown with no calls and `isTranslating` untouched. On a miss the page is fetched first and the run ends in ExtractionFailed or Translated. With a document, the page always ends with non-empty text. |
| Workspace.RenderedLines | components/Workspace.tsx:165 | When not translating, the panel renders one paragraph per line, and at least one. No paragraph contains a newline, and the paragraphs joined by newlines give back the translation. |
| Workspace.Commit | components/Workspace.tsx:82-124 | Each handler applies its own update: Prev, Next, ZoomOut and ZoomIn as those functions state, a load sets the document flag and page count, and a failed load changes nothing. Each changes only its own part of the state, and none touches the text, the loading flag or the cache. |
| Workspace.Apply | components/Workspace.tsx:80-83 | A zoom event settles at once in ZoomOut or ZoomIn of the state and calls nothing. A failed load leaves the state as it was. A successful load runs ProcessPage on the loaded state. Prev above page 1 and Next below the last page settle exactly as ProcessPage on the moved state, so the zoom and the other cache entries are kept. Prev on page 1 and Next on the last page change nothing, because the effect re-runs only when the page or document changes. |
| Workspace.NextReprocesses | components/Workspace.tsx:80-83 | Next below the last page moves to page+1 and re-runs the effect there. A page cached with non-empty text is shown at once with no calls. Otherwise the loading state shows and page+1 is fetched first. |
| Workspace.PrevReprocesses | components/Workspace.tsx:80-82 | Prev above page 1 moves to page-1 and re-runs the effect there, with the same hit and miss behaviour as Next. |
| Workspace.LoadProcessesFirstPage | components/Workspace.tsx:37-61 | Loading the document runs the effect on page 1 at once. The cache is still empty, so the loading state shows and page 1 is fetched first. |
| Workspace.LoadFlashesNoTextNotice | components/Workspace.tsx:173-177 | The one render after the document loads and before the effect starts has an empty text with loading off, so it shows the "No text detected on this page." notice. The loading state and the settled state after it do not. |
| Workspace.InitialValid | components/Workspace.tsx:21-27 | The mount state satisfies the workspace invariant. |
| Workspace.ProcessPageSettles | components/Workspace.tsx:47-80 | Processing an in-range page leaves the page in range, loading finished, the text non-empty and every cache entry non-empty and keyed by a page of the document. |
| Workspace.ApplyPreservesValid | components/Workspace.tsx:47-124 | Every event the UI can produce keeps the invariant. The invariant covers the page in [1, totalPages], the scale in [0.5, 3.0], loading finished, shown text non-empty, and cache entries non-empty and keyed by pages of the document. |
| Workspace.RunPreservesValid | components/Workspace.tsx:47-124 | Any sequence of such events from a valid state ends in a valid state. |
| Workspace.NavigationBounds | components/Workspace.tsx:82-115 | Prev from page 1 stays at 1 and Next from the last page stays there. Each button is disabled exactly when its handler would leave the page unchanged. |
| Workspace.NoTextNoticeNeverShown | components/Workspace.tsx:173-177 | In every settled state of a loaded document, the "No text detected on this page." notice is hidden, because the service always answers with a placeholder instead. The one render before the first effect is the exception covered by LoadFlashesNoTextNotice. |
| Workspace.RevisitHitsCache | components/Workspace.tsx:51-70 | After a successful run on a page, revisiting that page with the same cache shows the same text and fetches and sends nothing. |
| Workspace.PlaceholdersAreCached | components/Workspace.tsx:65-70 | The service's placeholder and error strings are cached under the page like any translation. This covers the no-text message for white-space-only pages, the API-key error for a throwing backend and "Translation failed." for an empty answer. |
| App.Initial | App.tsx:7-8 | The shell starts in IDLE with no file and no workspace mounted. |
| App.Render | App.tsx:22-28 | The landing screen shows exactly in IDLE. The workspace shows exactly in VIEWING with a file, and shows that file. The two never show together. |
| App.HandleFileSelect | App.tsx:10-13 | Selecting a file sets it as current and enters VIEWING, so only the workspace for that file is on screen. That workspace is freshly mounted and has not loaded its document yet. |
| App.HandleClose | App.tsx:15-18 | Closing clears the file and enters IDLE, so only the landing screen is on screen. |
| App.Apply | App.tsx:10-28 | On the landing screen, a drop whose first file is a PDF, or a file choice with at least one file, opens the workspace on that first file through `handleFileSelect`. A drop Hero does not select, or an empty choice, changes nothing. A drop or a file choice changes nothing unless the landing screen is on screen. A close takes effect exactly when the workspace is on screen and has loaded its document, since only the loaded view has the close button. A failed load changes nothing. A successful load marks the shown workspace as loaded and leaves the screen as it is. |
| App.RunKeepsOneScreen | App.tsx:10-28 | In every reachable state a file is set exactly in VIEWING, only IDLE and VIEWING occur, and exactly one of the two screens is shown. |
| App.UnloadedWorkspaceStays | components/Workspace.tsx:85-99 | A shown workspace whose document has not loaded stays on screen, on the same file, through any events that bring no successful load. The "Loading Document..." view has no close button. |
| App.NonPdfThroughInputIsStuck | components/Workspace.tsx:33-41 | From the landing screen, dropping a non-PDF changes nothing, but choosing it through the file input opens a workspace on it. After PDF.js fails on it, the shell stays in VIEWING on that file for any later events short of a successful load. |
| App.DropOpensOnlyPdf | components/Hero.tsx:20-26 | On the landing screen, a drop opens the workspace exactly when the first file is a PDF, and opens it on that file. Any other drop leaves the shell unchanged. |
| Hero.HandleDrop | components/Hero.tsx:20-26 | A drop with no files does nothing. A first file of type 'application/pdf' is selected. Any other first file raises the "Please upload a PDF file." alert. |
| Hero.DropIgnoresLaterFiles | components/Hero.tsx:20-21 | Files after the first never change what a drop does. |
| Hero.HandleInputChange | components/Hero.tsx:86-88 | The file input selects the first chosen file if there is one, with no type check. |
| Hero.InputPathSkipsTypeCheck | components/Hero.tsx:85-88 | For any files whose first is not a PDF, the drop zone raises the alert, but the file input selects that first file. |
| Hero.PathsAgreeOnPdf | components/Hero.tsx:20-23 | When the first file is a PDF, the drop zone and the file input select the same file. |
| ApiKeyModal.Mount | components/ApiKeyModal.tsx:13-14 | The dialog mounts with the stored key, hidden. |
| ApiKeyModal.PropsChanged | components/ApiKeyModal.tsx:16-18 | When `initialKey` or `isOpen` changes, the typed key resets to `initialKey`. When neither changes, the state is untouched. `showKey` is never reset. |
| ApiKeyModal.Edit | components/ApiKeyModal.tsx:99-100 | Typing replaces the key and leaves visibility alone. |
| ApiKeyModal.ToggleShow | components/ApiKeyModal.tsx:106 | The eye button flips `showKey` and leaves the key alone. |
| ApiKeyModal.ToggleTwice | components/ApiKeyModal.tsx:106 | Two toggles restore the state. |
| ApiKeyModal.Render | components/ApiKeyModal.tsx:20-122 | A closed dialog renders nothing. The input is a password field exactly when `showKey` is false. Save is enabled exactly for a non-empty key. The format hint follows the length/prefix rule and only ever appears while save is enabled. |
| ApiKeyModal.Save | components/ApiKeyModal.tsx:118-121 | A save passes the key as typed to `onSave`, untrimmed and unvalidated. It happens exactly when the dialog is open and the key is non-empty. |
| ApiKeyModal.FormatWarningByLength | components/ApiKeyModal.tsx:112-114 | The hint shows for any key of more than 10 characters without the "AIza" prefix. It never shows for a prefixed key or a key of 5 characters or fewer. For keys inside the Basic Multilingual Plane it shows exactly when the key is longer than 10 characters and lacks the prefix. |
| ApiKeyModal.ReopenDiscardsEdits | components/ApiKeyModal.tsx:16-20 | Closing and reopening the dialog discards typed edits and restores the stored key. The visibility choice survives, and the closed dialog renders nothing. |

## Left out

- components/PdfViewer.tsx: the fit-to-width scale is floating-point viewport arithmetic, canvas rendering is a call into PDF.js, and its cancellation flag only matters across overlapping renders.
- Overlapping `processPage` runs: each run is one atomic step, and nothing is claimed about a stale result arriving after the page changed (the source has no guard).
- PDF.js document loading and the Gemini SDK are oracles: their internal behaviour is not modelled.
- JavaScript strings: these are sequences of UTF-16 code units and may hold lone surrogates. The model's `string` holds only Unicode scalar values, so text with an unpaired surrogate is not modelled. `Utf16Length` supplies the code-unit count where the source reads `length`.
- Floating-point zoom: the scale is in exact tenths, so the tiny rounding residue of repeated `± 0.2` in JavaScript numbers is not modelled.
- Workspace.ApplyPreservesValid: assumes only events the UI can produce: the document loads once, with at least one page, and the navigation and zoom buttons are used only after it has loaded, since they are rendered only then.
- components/AboutModal.tsx, components/Button.tsx, all layout and styling, `splitRatio` (fixed at 50), console logging, and the alert dialog itself (a drop's alert is returned as a value).
- The `API_KEY` environment variable and the missing-key banner in App.tsx: environment plumbing.
- The workspace's header texts and the key dialog's static content (links, steps, privacy note).

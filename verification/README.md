# SnapEnglish, modelled in Dafny

SnapEnglish is a Next.js app. A student photographs a page of English text. A
server route sends the photo to a language model, and the page shows the
model's translation and sentence-structure analysis. The student can save an
analysis in a short local history.

This project models the parts of the app that make decisions and proves what
they promise:

- **`Ai`**: the normalisation of the model's free-text reply into an analysis
  (`parseAiResponse`), and the bounded retry loop around the provider call
  (`analyzeImage`).
  - The provider is a function from (payload, call number) to a reply.
  - JSON decoding is a function parameter.
  - The one-second back-off is counted rather than slept.
  - The loop appears twice: as a recursive function, and as the `for`
    loop of the source, written as `while` (`AnalyzeImageLoop`). A proof
    shows the two agree.
- **`AnalyzeRoute`**: the `POST /api/analyze` handler. It covers the one
  input check and the mapping of the analyser's outcome to status and body.
- **`Storage`**: the saved history. It is most-recent first, capped at 20
  items, and supports remove and find by id. `localStorage` is abstracted to
  the stored string and its decoder.
- **`ImageResize`**: the canvas size `resizeImage` computes, done in integer
  arithmetic, together with its three rejection paths.
- **`TextInput`**, **`SentenceSelector`** and **`PracticeView`**: the state
  of the three interactive components, with rendering reduced to the values
  it shows.
- **`HomePage`**: the home/loading/result/error state machine of `page.tsx`.
  It covers the `saved` flag and the error-message table.
- **`EndToEnd`**: the page reading the route's replies.

Helper modules:

- `Wrappers`: `Option` and `Result`.
- `JsString`: the JavaScript `trim`, `startsWith`, `endsWith` and
  `split(",")[1]`.
- `Json`: a JSON value.
- `JsSet`: a JavaScript `Set` with its insertion order.
- `Types`: the records of `src/lib/types.ts`.

Points the code decides on its own:

- `JSON.parse` may yield `null` or a primitive. `parseAiResponse` then throws
  a `TypeError`, because it reads or assigns a property in strict-mode code.
  The loop retries that like any parse failure (`NotAnObject`).
- A reply that decodes to an array gets both lists set to `[]`, so the call
  ends at once with `NO_TEXT_FOUND` (`Ai.ArrayReplyFindsNoText`).
- `image.split(",")[1]` is the text between the first and the second comma,
  not everything after the first comma.
- The analysis route returns 500 `API_ERROR` for provider rate limiting
  (`RATE_LIMITED`) and for refused credentials (`SERVICE_UNAVAILABLE`). It
  returns 400 only for a missing, empty or non-string `image`, and 500 when
  the request body cannot be read or is `null`.
- The page's message table has entries for `PARSE_ERROR` and
  `TEXT_TOO_LONG`, but the route never sends either type.
- After the third failed attempt, `analyzeImage` rethrows the failure
  itself, so its trailing `API_ERROR` throw is unreachable (`Ai.AnalyzeImage`
  proves `result != Failure(ApiError)`).
- The tagged fence `` ```json … ``` `` cleans to the trimmed payload for every
  payload. A bare fence does the same unless the payload begins with `json`,
  in which case the tagged test claims it first.
- `new Set` keeps insertion order. Toggling a sentence off and on again
  moves it to the end of the ids that `SentenceSelector` hands on
  (`JsSet.ToggleTwiceMovesToEnd`).

## Model

| member | source | states |
|---|---|---|
| JsString.Trim | src/lib/ai.ts:52 | `trim` leaves no whitespace at either end, never lengthens, and yields "" exactly for all-whitespace input |
| JsString.TrimUnique | src/lib/ai.ts:61 | whatever whitespace margins surround a middle with non-whitespace ends, trimming yields exactly that middle |
| JsString.TrimIdempotent | src/lib/ai.ts:61 | trimming an already trimmed string changes nothing |
| JsString.TrimSplits | src/lib/ai.ts:52 | every string is its trim between a leading and a trailing whitespace margin |
| JsString.SecondField | src/lib/ai.ts:96-98 | `split(sep)[1]`: the text right after the first separator, up to the next separator or the end; it holds no separator |
| JsString.SecondFieldOfPair | src/lib/ai.ts:96-98 | `split(",")[1]` of `header,data` (no other comma) is `data` |
| Ai.CleanReply | src/lib/ai.ts:52-61 | the cleaned reply never has whitespace at either end |
| Ai.CleanTaggedFence | src/lib/ai.ts:52-61 | a reply wrapped in "```json" … "```" (with any outer whitespace) cleans to the trimmed payload |
| Ai.CleanBareFence | src/lib/ai.ts:55-61 | a reply wrapped in "```" … "```" cleans to the trimmed payload when the payload does not start with "json" |
| Ai.TaggedFenceIsFence | src/lib/ai.ts:53-56 | a tagged opening is also a bare opening, which is why the tagged test must run first |
| Ai.CleanUnfenced | src/lib/ai.ts:52-61 | without fences, cleaning is trimming |
| Ai.CleanFencedLines | src/lib/ai.ts:52-61 | a tagged fence on lines of its own around a trimmed payload yields exactly the payload |
| Ai.CleanOpeningFenceOnly | src/lib/ai.ts:52-61 | a reply with a tagged opening fence and no closing fence cleans to the trimmed payload |
| Ai.CleanClosingFenceOnly | src/lib/ai.ts:52-61 | a reply with only a closing fence cleans to the trimmed payload, provided the payload does not start with a backtick (a payload beginning with "```" would have that taken for an opening fence) |
| Ai.ListField | src/lib/ai.ts:65-70 | a list field is kept when it is an array and becomes [] when it is missing or of any other type |
| Ai.Truncate | src/lib/ai.ts:73-75 | sentences are cut to the first min(n, 5), in order |
| Ai.ParseReply | src/lib/ai.ts:51-78 | undecodable text fails with InvalidJson, and null or a primitive fails with NotAnObject; a decoded object or array always succeeds, with a missing or non-array list defaulted to [], sentences cut to the first 5 and key phrases kept whole |
| Ai.ParseRoundTrip | src/lib/ai.ts:51-78 | an analysis serialised inside a tagged fence parses back to itself |
| Ai.ArrayReplyFindsNoText | src/lib/ai.ts:63-70 | a reply that decodes to an array ends the attempt with NO_TEXT_FOUND |
| Ai.FirstText | src/lib/ai.ts:129-132 | the first text block of the reply is found, or none exists |
| Ai.Attempt | src/lib/ai.ts:129-160 | 429 is RATE_LIMITED and 401/403 is SERVICE_UNAVAILABLE, both final; other statuses and connection errors are retried; a reply with no text block is retried as EmptyResponse and a parse failure with its own error; a parsed reply finishes with NO_TEXT_FOUND when both lists are empty and with the analysis otherwise |
| Ai.RetriedExactlyWhen | src/lib/ai.ts:129-160 | a call is retried exactly when the connection failed, the status is not 429, 401 or 403, the reply has no text block, or its text does not parse |
| Ai.ImagePayload | src/lib/ai.ts:96-98 | a string without a comma is sent unchanged; otherwise the text between the first comma and the next comma or the end is sent |
| Ai.DataUrlSendsData | src/lib/ai.ts:96-98 | a data URL `header,data` sends exactly `data` |
| Ai.RunFrom | src/lib/ai.ts:100-162 | calls stay within the attempts left; waits are calls minus one; every call but the last was retryable; the last either decided or was the final attempt and is rethrown |
| Ai.AnalyzeImage | src/lib/ai.ts:84-165 | at most 3 calls; no call and MissingApiKey exactly when the key is unset or empty; one wait between consecutive calls; API_ERROR is never produced; a success is acceptable |
| Ai.AnalyzeImageLoop | src/lib/ai.ts:100-164 | the `for` loop with its `catch` computes the same result, call count and wait count as the recursive policy |
| Ai.FirstDecisiveAttempt | src/lib/ai.ts:102-158 | if calls 0..k-1 were retryable and call k decided, the run returns call k's result after k+1 calls and k waits |
| Ai.ExhaustedRethrowsLast | src/lib/ai.ts:156-158 | three retryable failures rethrow the third failure after 3 calls and 2 waits |
| Ai.RetryThenSucceed | src/lib/ai.ts:156-160 | a connection error, then a 500, then a usable reply gives success after 3 calls and 2 waits |
| Ai.SucceedAtOnce | src/lib/ai.ts:134-140 | a usable first reply is returned after one call and no wait |
| Ai.RateLimitedAtOnce | src/lib/ai.ts:147-150 | a 429 on the first call fails with RATE_LIMITED after one call |
| Ai.AuthFailureAtOnce | src/lib/ai.ts:151-153 | a 401 or 403 on call k fails with SERVICE_UNAVAILABLE with no further call |
| Ai.EmptyListsStopTheLoop | src/lib/ai.ts:136-144 | a reply with both lists empty ends the loop with NO_TEXT_FOUND, with no further call |
| AnalyzeRoute.Admit | src/app/api/analyze/route.ts:7-15 | an unreadable or null body throws; a non-empty string `image` is accepted; anything else is rejected |
| AnalyzeRoute.Handle | src/app/api/analyze/route.ts:5-38 | success exactly when data is present and exactly when no error is present; an unreadable or null body gives 500 API_ERROR; 400 API_ERROR exactly for a rejected image; analyser success gives 200 with the data; NO_TEXT_FOUND gives 200; any other failure gives 500 API_ERROR |
| AnalyzeRoute.AnalyzerUnusedOnBadInput | src/app/api/analyze/route.ts:10-15 | the reply to a body that is not accepted does not depend on the analyser |
| AnalyzeRoute.ClassifiedFailuresCollapse | src/app/api/analyze/route.ts:33-36 | RATE_LIMITED, SERVICE_UNAVAILABLE and a missing key all give 500 API_ERROR |
| AnalyzeRoute.SuccessIs200 | src/app/api/analyze/route.ts:17-22 | a successful analysis is returned with status 200 |
| AnalyzeRoute.FencedReplyEndToEnd | src/app/api/analyze/route.ts:17-22 | a fenced serialised analysis from the provider reaches the client unchanged with status 200 |
| Storage.GetHistory | src/lib/storage.ts:9-18 | no window, no stored value, an empty one or an undecodable one gives []; otherwise the decoded list |
| Storage.DropOldest | src/lib/storage.ts:28-30 | popping until at most 20 items keeps the first min(n, 20) in order |
| Storage.AddHistory | src/lib/storage.ts:23-33 | the new item is first, the length is min(n+1, 20), and the rest is a prefix of the old list |
| Storage.RemoveHistory | src/lib/storage.ts:46-50 | no entry with the id remains; the result is a subsequence of the old list; an absent id changes nothing |
| Storage.RemoveKeepsOthers | src/lib/storage.ts:48 | every entry without the id is kept exactly as often as it occurred |
| Storage.RemoveIdempotent | src/lib/storage.ts:48 | removing twice is removing once |
| Storage.GetHistoryById | src/lib/storage.ts:38-41 | nothing is found exactly when no entry has the id; otherwise the first entry with it |
| Storage.RemovedIsNotFound | src/lib/storage.ts:38-49 | after a removal the id is not found |
| Storage.AddedIsFound | src/lib/storage.ts:23-41 | after an addition the new id is found and yields the new item |
| Storage.ReadAfterAdd | src/lib/storage.ts:23-33 | reading back what `addHistory` wrote gives the item first, within the cap |
| Storage.ReadAfterRemove | src/lib/storage.ts:46-50 | reading back what `removeHistory` wrote finds no entry with the id |
| ImageResize.RoundDiv | src/lib/image.ts:26 | `Math.round(a/b)` is the integer within one half of a/b, halves rounded up |
| ImageResize.FitWithin | src/lib/image.ts:21-32 | both sides end within maxSize; a fitting size is unchanged; when scaled, the longer side (the width only when strictly longer) becomes maxSize; orientation is kept |
| ImageResize.ScaledShorterSide | src/lib/image.ts:25-31 | the rounded shorter side never exceeds maxSize |
| ImageResize.FitKeepsRatio | src/lib/image.ts:25-31 | the scaled side is within one half of the exact proportional value |
| ImageResize.FitIdempotent | src/lib/image.ts:24 | resizing an already resized size changes nothing |
| ImageResize.ResizeImage | src/lib/image.ts:10-53 | a file-read, image-load or missing-canvas failure rejects with its own message, checked in that order; otherwise the fitted size |
| ImageResize.CompressForApi | src/lib/image.ts:58-60 | succeeds exactly when the file is read, the image loads and a canvas exists, and then gives the size fitted within 1600 pixels; a failure is passed on unchanged from the resize |
| ImageResize.ApiAndThumbnailDiffer | src/lib/image.ts:58-67 | the two variants differ only in the bound: 1000x800 is sent unchanged but shrunk to 300x240 for the thumbnail |
| ImageResize.CompressForThumbnail | src/lib/image.ts:65-67 | succeeds exactly when the file is read, the image loads and a canvas exists, and then gives the size fitted within 300 pixels; a failure is passed on unchanged from the resize |
| ImageResize.LandscapePhotoForApi | src/lib/image.ts:25-27 | a 4000x3000 photo is sent as 1600x1200 |
| ImageResize.SquareStaysSquare | src/lib/image.ts:28-31 | an oversized square becomes maxSize by maxSize |
| TextInput.OnChange | src/components/TextInput.tsx:34 | the stored text is the first min(n, 500) characters of the input |
| TextInput.HandleSubmit | src/components/TextInput.tsx:15-20 | blank text submits nothing and stays; otherwise a non-empty trimmed string no longer than the text is submitted and the text is cleared |
| TextInput.SubmitDropsMargins | src/components/TextInput.tsx:16-19 | what is submitted is exactly the text without its whitespace margins |
| TextInput.SubmittedWithinCap | src/components/TextInput.tsx:16-34 | a submitted string is non-empty and at most 500 characters |
| TextInput.HandleKeyDown | src/components/TextInput.tsx:22-27 | the default is prevented, and a submit runs, exactly for Enter with Ctrl or Meta; other keys change nothing |
| TextInput.PlainEnterDoesNotSubmit | src/components/TextInput.tsx:23 | Enter alone does not submit |
| TextInput.ButtonDisabled | src/components/TextInput.tsx:47 | the button is disabled exactly when `disabled` is set or the text is blank |
| TextInput.EnabledButtonSubmits | src/components/TextInput.tsx:15-20 | clicking an enabled button always submits |
| JsSet.Add | src/components/SentenceSelector.tsx:28 | adding puts a new element last and leaves a present one in place |
| JsSet.Delete | src/components/SentenceSelector.tsx:26 | deleting removes exactly that element, and the others keep their order with the gap closed |
| JsSet.WithoutAt | src/components/SentenceSelector.tsx:26 | removing the element at position k from a list without repeats gives the elements before k followed by those after it |
| JsSet.Toggle | src/components/SentenceSelector.tsx:22-32 | toggling flips membership of the one element |
| JsSet.FromSeq | src/components/SentenceSelector.tsx:15-17 | `new Set(xs)` holds exactly the elements of xs, in order when xs has no repeats |
| JsSet.SizeIsCardinality | src/components/SentenceSelector.tsx:19 | `size` is the number of distinct members |
| JsSet.ToggleTwice | src/components/SentenceSelector.tsx:22-32 | toggling twice restores the members |
| JsSet.ToggleTwiceMovesToEnd | src/components/SentenceSelector.tsx:22-32 | toggling a member off and on moves it from its place to the end, the others keeping their order |
| SentenceSelector.ConfirmAfterToggleTwice | src/components/SentenceSelector.tsx:22-32 | after a sentence is unticked and ticked again, confirming returns the other selected ids in their order followed by that sentence |
| JsSet.ToggleTwiceReorders | src/components/SentenceSelector.tsx:22-32 | toggling twice can change the insertion order |
| SentenceSelector.Init | src/components/SentenceSelector.tsx:15-17 | initially every sentence id is selected, the selector keeps the ids it was given and its state is consistent |
| SentenceSelector.ToggleSentence | src/components/SentenceSelector.tsx:22-32 | toggle flips the one id and no other |
| SentenceSelector.SelectAll | src/components/SentenceSelector.tsx:34 | select-all selects every id |
| SentenceSelector.DeselectAll | src/components/SentenceSelector.tsx:35 | deselect-all selects nothing |
| SentenceSelector.SelectionButtonsIdempotent | src/components/SentenceSelector.tsx:34-35 | both buttons are idempotent |
| SentenceSelector.AllSelectedMeansEvery | src/components/SentenceSelector.tsx:19 | with distinct ids, the size test holds exactly when every id is selected |
| SentenceSelector.RepeatedIdsNeverAllSelected | src/components/SentenceSelector.tsx:19 | with a repeated id, `allSelected` is never true |
| SentenceSelector.Confirm | src/components/SentenceSelector.tsx:124-125 | nothing is sent exactly when nothing is selected; otherwise exactly the selected ids, each once |
| SentenceSelector.ConfirmAllInitially | src/components/SentenceSelector.tsx:124-125 | confirming at once sends all ids in sentence order |
| SentenceSelector.ConfirmCaption | src/components/SentenceSelector.tsx:128-130 | the prompt shows exactly when nothing is selected; otherwise the count is the selection's size |
| PracticeView.Init | src/components/PracticeView.tsx:20-23 | the view starts in jp_to_en with direction en_to_jp and nothing revealed |
| PracticeView.ToggleSentence | src/components/PracticeView.tsx:28-35 | one sentence id flips; the other set, mode and direction are unchanged |
| PracticeView.ToggleVocab | src/components/PracticeView.tsx:37-44 | one vocabulary id flips; the other set, mode and direction are unchanged |
| PracticeView.ShowAll | src/components/PracticeView.tsx:46-52 | the current mode's set becomes all its ids; the other set is untouched |
| PracticeView.HideAll | src/components/PracticeView.tsx:54-60 | only the current mode's set is emptied |
| PracticeView.ChangeMode | src/components/PracticeView.tsx:101-105 | switching mode empties both sets |
| PracticeView.ChangeDirection | src/components/PracticeView.tsx:116-125 | switching direction leaves both sets unchanged |
| PracticeView.Cards | src/components/PracticeView.tsx:144 | each card shows its answer exactly when its id is revealed |
| PracticeView.ModeLabel | src/components/PracticeView.tsx:62-67 | every mode has a non-empty caption |
| PracticeView.ModeLabelIdentifiesMode | src/components/PracticeView.tsx:62-67 | two modes share a caption exactly when they are the same mode |
| PracticeView.Render | src/components/PracticeView.tsx:138-172 | sentence cards show exactly in a sentence mode with sentences, word cards exactly in vocabulary mode with words, and otherwise the mode's notice; cards follow the matching set |
| PracticeView.ShowAllShowsEveryCard | src/components/PracticeView.tsx:46-52 | after show-all, every card on screen shows its answer |
| PracticeView.HideAllHidesEveryCard | src/components/PracticeView.tsx:54-60 | after hide-all, no card on screen shows its answer |
| PracticeView.ModeChangeHidesEveryCard | src/components/PracticeView.tsx:101-105 | after a mode change, no card shows its answer |
| PracticeView.RevealDoesNotSurviveModeSwitch | src/components/PracticeView.tsx:101-105 | a card revealed in one sentence mode is hidden after switching to the other |
| HomePage.ErrorMessage | src/app/page.tsx:19-24 | the four known types have their table messages, and exactly the unknown types get the generic fallback |
| HomePage.ErrorKind | src/app/page.tsx:76 | an absent or empty error type becomes API_ERROR; any other type is kept |
| HomePage.Init | src/app/page.tsx:27-32 | the page starts at home with nothing loaded, nothing shown, nothing saved, an empty history list and no thumbnail |
| HomePage.Mount | src/app/page.tsx:35-37 | mounting loads the stored history and changes nothing else |
| HomePage.PadTwo | src/app/page.tsx:42 | `padStart(2, "0")` puts zeros in front up to two characters |
| HomePage.Decimal | src/app/page.tsx:42 | `String(n)` is a decimal numeral with no leading zero that reads back as n |
| HomePage.SaveLabel | src/app/page.tsx:42 | the label reads back (through `ReadLabel`) as the 1-based month, the date, the hour and the minutes |
| HomePage.SaveLabelEndsWithMinutes | src/app/page.tsx:42 | for minutes below 60 the label's last two characters are digits that read back as the minutes |
| HomePage.NumeralsReadBack | src/app/page.tsx:42 | any four numerals joined as `解析 M/D H:MM` are read back as their values |
| HomePage.MinutesTail | src/app/page.tsx:42 | padded minutes below 60 are two digits that read back as the minutes |
| HomePage.HandleSave | src/app/page.tsx:39-53 | no result or already saved: nothing changes; otherwise one item with the new id, the clock's ISO text, the thumbnail, the result and the label built from the same clock (reading back as its month, date, hour and minutes) goes first in storage, the list is reloaded and `saved` is set |
| HomePage.SaveTwiceSavesOnce | src/app/page.tsx:39-53 | saving twice stores one item |
| HomePage.StartAnalysis | src/app/page.tsx:57-59 | starting enters loading, clears the error and resets `saved` |
| HomePage.FinishAnalysis | src/app/page.tsx:61-94 | an exception shows the retry message under API_ERROR; an unsuccessful answer shows the table message for its type; a successful answer shows the result |
| HomePage.HandleImageSelected | src/app/page.tsx:55-95 | an image always settles on result or error, never saved, with something to show |
| HomePage.HistorySelect | src/app/page.tsx:97-101 | opening a saved item shows its data, marked as saved; the lists, the error and the thumbnail stay as they were |
| HomePage.OpenedItemIsNotSavedAgain | src/app/page.tsx:97-101 | an item opened from history cannot be saved again |
| HomePage.BackToHome | src/app/page.tsx:108-114 | going home clears result, error and `saved`, and reloads the list |
| HomePage.Render | src/app/page.tsx:117-165 | loading comes first and shows the thumbnail; the result view needs a result and shows it with the `saved` flag; the error view needs an error; home otherwise; the no-text hint shows exactly for NO_TEXT_FOUND |
| HomePage.TransitionsKeepConsistent | src/app/page.tsx:27-114 | every handler keeps "result state has a result, error state has an error, saved implies a result" |
| HomePage.RenderFollowsState | src/app/page.tsx:117-165 | on a consistent page the screen is exactly the one its state names |
| EndToEnd.PageAfter | src/app/page.tsx:73-86 | the page shows a result exactly when the body reports success with data |
| EndToEnd.ResultIffAnalysisSucceeded | src/app/page.tsx:75-86 | the page shows a result exactly when the route admitted the image and the analyser succeeded |
| EndToEnd.RouteErrorsHaveMessages | src/app/page.tsx:76-79 | every error the route sends has its own table message, never the fallback |
| EndToEnd.ProviderRefusalLooksLikeNetworkError | src/app/api/analyze/route.ts:33-36 | provider rate limiting or refusal reaches the user as the generic communication error |
| EndToEnd.NoTextShowsHint | src/app/page.tsx:143-147 | a photo without English text shows its message and the retake hint |

## Left out

- The provider SDK call, the request options and the prompt text in `src/lib/ai.ts` are left out. The provider is the parameter `provider`. The model name (from the `AI_MODEL` environment variable, with a fixed fallback) and the system prompt are passed through unchanged.
- `JSON.parse` and `JSON.stringify` are the parameters `decode` and `encode`. The text grammar of JSON is not modelled.
- `Ai.Analysis` keeps only the two lists the code inspects. Other top-level fields of the decoded reply pass through in the source but are dropped here. List elements are kept as decoded JSON values, and their shape is not checked, as in the source.
- `setTimeout`, `fetch`, `NextResponse`, `console.error` and `crypto.randomUUID` are left out. The new id and the clock reading are parameters of `HomePage.HandleSave`. The clock reading is the local month, date, hours and minutes, from which the label is built, together with the text `toISOString()` gives; that ISO formatting is not modelled.
- `window` and `localStorage` become the stored string and the in-page `stored` list. The home page assumes the stored history decodes, so `getHistory`'s fallback is modelled only in `Storage.GetHistory`.
- Storage.GetHistory: a stored value that decodes to something other than a list is cast, not checked, by the source. The model treats it as undecodable (`[]`).
- `addHistory` and `removeHistory` without a window are left out. The source's `localStorage` access then throws, and only the browser case is modelled.
- `FileReader`, `Image`, the canvas, `drawImage`, `toDataURL` and the JPEG quality factor are left out. `ImageResize.ResizeImage` returns the canvas size, and the data URL drawn at that size is not modelled.
- ImageResize.RoundDiv: the source divides in floating point before `Math.round`. The model uses exact integer rounding. The two agree whenever side times maxSize stays below 2^52, which covers every real photo.
- TextInput.OnChange: the 500-character cap counts characters. JavaScript counts UTF-16 code units, so a character outside the Basic Multilingual Plane counts once here and twice in the source.
- `handleClearAll` in `src/app/page.tsx` calls `clearAllHistory`, which `src/lib/storage.ts` does not export. Calling it throws before the list is cleared. The handler is left out rather than guessing the missing function.
- HomePage.ErrorMessage: `ERROR_MESSAGES` is a plain object, so a type named like an `Object.prototype` member would look up a function. The model treats every unknown type as missing. The route never sends such a type.
- `src/lib/generatePdf.ts` is not part of this model: it is layout over a PDF library whose code is not visible.
- The presentation components are not part of this model: `ResultView`, `HistoryList`, `SentenceCard`, `VocabularyCard`, `ModeToggle`, `CameraButton`, `LoadingScreen` and `PdfExportButton`. Neither are the static privacy, terms and contact pages. `ModeToggle`'s filtering of the vocabulary tab is left out with it.
- The shapes of the analysis disagree across files. `src/lib/types.ts` declares sentences and vocabulary; `src/lib/ai.ts` produces sentences and key phrases. The components and the page are generic in the analysis, or take only its id lists, so the model does not have to choose.

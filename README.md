# 3D model idea generator and slicer-render visualiser, modelled in Dafny

The application is a browser front end around a generative-image API. It has two pages.

- **The generator page** (`App.tsx`) asks the API for decorative 3D-model ideas. It then asks for four front-view variations of an idea, and for the left, right and back views of a chosen front view. Generated models can be saved to `localStorage`, deleted again and downloaded view by view.
- **The visualiser page** (`components/Visualizer.tsx`) keeps an ordered list of slots. Each slot holds an uploaded slicer screenshot and the photorealistic render made from it. A scene description is shared by all renders and is cached until the slicer images or the colour option change. The page also asks for a title, a description and tags for a model-sharing site.

The service layer (`services/geminiService.ts`) wraps every API call in a retry loop. It splits data URLs, assembles prompts and checks what the API returns.

The model has five modules, one per source file plus a string library:

- `Types` (`types.ts`): the four views in their fixed order, the per-view image slots, generated and saved models, and `Outcome`, the value-or-error shape every asynchronous call settles to.
- `Strings`: the JavaScript string operations the code relies on (`split` on one character, `join`, `trim` with ECMAScript whitespace, `toLowerCase` restricted to the ASCII letters, `includes`, and the UTF-16 code units a JavaScript string is made of).
- `GeminiService` (`services/geminiService.ts`):
  - `retryWithBackoff` as a recursive function that returns a trace of calls, waits and result.
  - `dataUrlToParts`, including the lazy regular expression `/:(.*?);/`.
  - The front-view prompt.
  - The structure of the idea request, built as `generateModelIdeas` builds it.
  - The response checks and keyword normalisation.
  - The front-view URL mapping.
  - The left, right and back loop of `generateOtherViews`.
  - The extraction of a fenced JSON block in `generateMakerWorldContent`.
- `App` (`App.tsx`): the class `GeneratorSession`. It holds the page's state fields, and each handler is a method that updates them.
- `Visualizer` (`components/Visualizer.tsx`): the class `VisualizerPage`. It holds the slot list, the scene-description cache and the page's flags, and each handler is a method.

Abstractions:

- Every API call is an oracle, a function from the attempt number (0 for the first call) to the outcome of that attempt. The visualiser's two service calls are oracles from their arguments to an outcome.
- `JSON.parse` is a parameter that returns `None` where the real parser throws.
- `localStorage` is the field `storage`.
- `crypto.randomUUID()` is a counter, so fresh ids are distinct.
- `FileReader` and clipboard results are parameters.
- `Date.now()` is the parameter `now`.
- A React effect is an explicit step after a change (`VisualizerPage.RunEffects`).
- Each handler runs as one atomic step.

## Model

| member | source | states |
|---|---|---|
| Types.ModelViewsEnumerateViews | types.ts:2 | `MODEL_VIEWS` has four entries, front first and back last, lists every view and has no duplicates |
| Types.ViewIndexLocates | types.ts:2 | every view sits at its index in `MODEL_VIEWS` |
| Types.ViewNamesDistinct | types.ts:3 | two views have the same name exactly when they are the same view |
| Types.ImageState.Set | types.ts:5 | `{ ...images, [v]: url }` gives view `v` the new value and every other view its old one |
| Strings.Split | services/geminiService.ts:28 | `split` on one character yields at least one piece, no piece holds the separator, and joining the pieces gives the input back |
| Strings.SplitJoin | services/geminiService.ts:28 | `split` undoes `join` when no piece holds the separator |
| Strings.JoinSnoc | components/Visualizer.tsx:118 | one more piece adds a separator and the piece to a non-empty join |
| Strings.JoinDistinguishesPiece | components/Visualizer.tsx:118 | two lists of pieces that differ in exactly one position join to different strings |
| Strings.TrimStart | services/geminiService.ts:141 | the result is a suffix of the input, everything dropped is whitespace, and it does not start with whitespace |
| Strings.TrimEnd | services/geminiService.ts:141 | the result is a prefix of the input, everything dropped is whitespace, and it does not end with whitespace |
| Strings.TrimIsTrimmed | services/geminiService.ts:375 | a trimmed string neither starts nor ends with whitespace, and trimming is idempotent |
| Strings.Trim | services/geminiService.ts:141 | `s.trim()` (also at line 375), defined by its body from `TrimStart` and `TrimEnd`; its properties are `Strings.TrimIsTrimmed` |
| Strings.Join | components/Visualizer.tsx:118 | `parts.join(sep)`, defined by its body; its properties are `Strings.Split`, `Strings.SplitJoin`, `Strings.JoinSnoc` and `Strings.JoinDistinguishesPiece` |
| Strings.Utf16Char | App.tsx:169 | a character is one code unit, itself, iff it is in the Basic Multilingual Plane; otherwise it is a high and a low surrogate that decode back to it |
| Strings.Utf16 | App.tsx:169 | a string has between one and two code units per character, each below 0x10000 |
| Strings.Utf16OfNarrow | App.tsx:169 | a string of Basic Multilingual Plane characters has exactly one unit per character, its code point |
| Strings.Utf16LongerWithWide | App.tsx:169 | one character outside the Basic Multilingual Plane makes the JavaScript length exceed the character count |
| Strings.LowerChar | services/geminiService.ts:141 | a lowered character is never an upper-case ASCII letter, and every other character is unchanged (ASCII-only, see Left out) |
| Strings.Lower | services/geminiService.ts:141 | ASCII lowering works character by character, so it keeps the length (JavaScript's full `toLowerCase` need not, see Left out) |
| GeminiService.Backoff | services/geminiService.ts:20-21 | the n waits before the retries are `delay * 2^i` |
| GeminiService.IsOverload | services/geminiService.ts:18 | the retry condition `error.message.includes('503')`, defined by its body; its use is stated by `GeminiService.RetryWithBackoffSpec` |
| GeminiService.Retried | services/geminiService.ts:14 | `retryWithBackoff(fn)` with the defaults 3 and 1000, defined by its body; its properties are `GeminiService.AlwaysOverloaded` |
| GeminiService.RetryWithBackoff | services/geminiService.ts:14-25 | a call makes between 1 and `retries + 1` attempts, with one wait between each two attempts |
| GeminiService.RetryWithBackoffSpec | services/geminiService.ts:14-25 | the result is the last attempt's outcome unchanged; every earlier attempt failed with a `503` message; a `503` failure is returned only when the budget is spent |
| GeminiService.RetryWaitsDouble | services/geminiService.ts:20-21 | the waits between attempts start at `delay` and double each time |
| GeminiService.AlwaysOverloaded | services/geminiService.ts:14 | with the defaults, an always-overloaded service is called 4 times, with waits of 1000, 2000 and 4000 ms, and its last error is passed on |
| GeminiService.CloseFrom | services/geminiService.ts:29 | finds the first `;` after the `:` unless a line terminator comes first, and reports no match exactly when none exists |
| GeminiService.MimeFrom | services/geminiService.ts:29 | finds the leftmost match of `/:(.*?);/`, and reports no match exactly when there is none |
| GeminiService.MimeOf | services/geminiService.ts:29 | the MIME type is never empty and holds neither `;` nor a line terminator |
| GeminiService.DataUrlToParts | services/geminiService.ts:27-35 | on success the MIME type and the data are non-empty and the data holds no comma; every failure is "Invalid data URL" |
| GeminiService.DataUrlRoundTrip | services/geminiService.ts:27-35 | `dataUrlToParts` reads back the MIME type and the data of `data:<mime>;base64,<data>` |
| GeminiService.MimeOfHeader | services/geminiService.ts:29 | the regular expression captures exactly the MIME type of `data:<mime>;base64` |
| GeminiService.DataUrlWithoutData | services/geminiService.ts:30-33 | a URL without a comma, ending at its first comma, or with an empty second segment is rejected |
| GeminiService.FrontViewPrompt | services/geminiService.ts:149-159 | the prompt opens with the subject line holding the idea verbatim in quotes, and its length is fixed by the idea's length |
| GeminiService.FrontViewPromptInjective | services/geminiService.ts:149-159 | equal prompts come from equal ideas |
| GeminiService.BuildIdeaRequest | services/geminiService.ts:44-87 | the request succeeds iff a keyword list is passed and any image is a readable data URL; the image part comes first and the single text part last; the text opens with the earlier ideas and ends with the response format; the focused section is present iff focused keywords are given; the sources section is present iff an image or a keyword is given, and it names exactly those |
| GeminiService.CheckIdeas | services/geminiService.ts:104-107 | an answer passes iff it is a non-empty array, and it passes unchanged |
| GeminiService.CheckIdeasAcceptsRepeats | services/geminiService.ts:104-108 | an answer repeating one idea passes the check |
| GeminiService.GenerateModelIdeas | services/geminiService.ts:37-114 | success iff a keyword list is given, the image is readable and the retried answer passes the check; the ideas are the answer's items; every failure has the one fixed message |
| GeminiService.MapNonEmpty | services/geminiService.ts:141 | `map(f).filter(Boolean)` is no longer than its input and keeps no empty string |
| GeminiService.MapNonEmptyAppend | services/geminiService.ts:141 | map-and-filter distributes over concatenation, so order is kept |
| GeminiService.MapNonEmptyMembers | services/geminiService.ts:141 | a string is kept iff it is the non-empty image of some input |
| GeminiService.MapNonEmptyIdempotent | services/geminiService.ts:141 | applying map-and-filter twice equals applying it once when `f` is idempotent on non-empty results |
| GeminiService.NormalizedKeywordIsClean | services/geminiService.ts:141 | a non-empty lowercased and trimmed keyword is lowercase and trimmed |
| GeminiService.CleanKeywordIsNormal | services/geminiService.ts:141 | normalising a clean keyword changes nothing |
| GeminiService.NormalizeKeyword | services/geminiService.ts:141 | `kw.toLowerCase().trim()`, defined by its body; its properties are `GeminiService.NormalizedKeywordIsClean` and `GeminiService.CleanKeywordIsNormal` |
| GeminiService.NormalizeKeywords | services/geminiService.ts:141 | normalisation never lengthens the list |
| GeminiService.NormalizeKeywordsMembers | services/geminiService.ts:141 | a keyword is kept iff it is the non-empty normal form of an input, and every kept keyword is clean |
| GeminiService.NormalizedKeywordsAreClean | services/geminiService.ts:141 | every returned keyword is non-empty, lowercase and trimmed |
| GeminiService.NormalizeKeywordsIdempotent | services/geminiService.ts:141 | normalising twice equals normalising once, so no deduplication or reordering happens |
| GeminiService.StringItems | services/geminiService.ts:141 | the items are read as strings iff every item is a string, and keep their order |
| GeminiService.ExtractKeywordsFromImage | services/geminiService.ts:116-147 | success iff the image is readable and the retried answer parses to an array of strings; then the result is the normalised string items, each clean |
| GeminiService.GenerateFrontViewVariations | services/geminiService.ts:162-186 | on success there is one `data:image/png;base64,<bytes>` URL per returned image, in order, and at least one; every failure has the one fixed message |
| GeminiService.VariationUrlsRoundTrip | services/geminiService.ts:180 | each variation URL reads back as a PNG holding its bytes |
| GeminiService.GenerateOtherViews | services/geminiService.ts:188-241 | the deliveries are the longest prefix of left, right, back whose responses carry an image, each delivered as `data:<mime>;base64,<bytes>`; success iff all three are delivered; the first view without an image, or an unreadable front image, ends the loop with the fixed message |
| GeminiService.FirstFence | services/geminiService.ts:370 | finds the first triple backtick from a position, or reports there is none |
| GeminiService.SkipSpace | services/geminiService.ts:370 | `\s*` consumes exactly the run of whitespace |
| GeminiService.CaptureEnd | services/geminiService.ts:370 | the lazy group stops at the first position from which whitespace and a fence follow |
| GeminiService.CaptureStart | services/geminiService.ts:370 | the capture starts after the fence, an optional `json` and whitespace |
| GeminiService.CaptureIsClean | services/geminiService.ts:370 | the lazy capture holds no fence and does not end in whitespace |
| GeminiService.ExtractFence | services/geminiService.ts:370-373 | an extracted block holds no fence and has no surrounding whitespace |
| GeminiService.CaptureStopsAt | services/geminiService.ts:370 | the capture stops at a newline followed by a fence when no fence starts earlier |
| GeminiService.FenceRoundTrip | services/geminiService.ts:369-375 | a body wrapped in a `json` fence, after text without backticks, is exactly what is parsed |
| GeminiService.JsonPayload | services/geminiService.ts:369-375 | the text handed to `JSON.parse`, defined by its body; its properties are `GeminiService.ExtractFence` and `GeminiService.FenceRoundTrip` |
| GeminiService.CheckMakerWorld | services/geminiService.ts:376-378 | an answer passes iff `title` and `description` are truthy and `tags` is an array, and it is returned with those values |
| GeminiService.GenerateMakerWorldContent | services/geminiService.ts:333-385 | no first image means failure; success means a readable first image and a retried answer whose payload passes the check; every failure has the one fixed message |
| App.Dedup | App.tsx:55 | `[...new Set(s)]` holds exactly the values of `s`, none twice, and is no longer than `s` |
| App.DedupOfDistinct | App.tsx:55 | a list without repeats comes through unchanged |
| App.DedupExtends | App.tsx:55 | the deduplicated list of a prefix is a prefix of the deduplicated whole |
| App.SessionIdeasGrow | App.tsx:55 | after a batch the session's ideas are the earlier ones in order, then new values, and hold exactly the earlier and the new values |
| App.WithoutId | App.tsx:153 | the filtered list has no entry with the id and is no longer than the input |
| App.WithoutIdMembers | App.tsx:153 | an entry is kept iff it was present and has another id |
| App.WithoutIdAppend | App.tsx:153 | the filter works entry by entry, so kept entries keep their order |
| App.WithoutAbsentId | App.tsx:153 | a list without the id is unchanged |
| App.WithoutIdHasId | App.tsx:153 | after deleting `id`, exactly the other ids remain |
| App.SanitizeIdeaProperties | App.tsx:169 | a sanitised idea holds only `a-z`, `0-9` and `_`, sanitising is idempotent, ASCII case does not matter, and a character outside the Basic Multilingual Plane becomes `__` |
| App.SanitizeUnit | App.tsx:169 | a code unit becomes `_` iff it is not an ASCII letter or digit; the result is always `a-z`, `0-9` or `_` |
| App.SanitizeIdea | App.tsx:169 | the sanitised idea has one character per UTF-16 code unit of the idea |
| App.SanitizeLowerUnits | App.tsx:169 | lowering ASCII capitals before sanitising changes nothing |
| App.Extension | App.tsx:176 | the extension is never empty and holds neither `;` nor `/` |
| App.ExtensionOfDataUrl | App.tsx:176 | the extension of a data URL is the subtype of its MIME type |
| App.ExtensionFallback | App.tsx:176 | with no `/` before the first `;` the extension is `png` |
| App.DownloadNameShape | App.tsx:177 | the name is the sanitised idea, `_`, the view, `.`, the extension, and its length counts the idea in UTF-16 code units; the last dot separates the extension |
| App.DownloadName | App.tsx:177 | `${sanitizedIdea}_${view}.${extension}`, defined by its body; its properties are `App.DownloadNameShape` |
| App.DownloadOf | App.tsx:172-181 | the anchor for one view, defined by its body; its properties are `App.DownloadOfSpec` |
| App.Downloads | App.tsx:171-182 | the anchors for a list of views, defined by its body; its properties are `App.DownloadsOfSetViews`, `App.DownloadsCoverSetViews` and `App.DownloadsInViewOrder` |
| App.DownloadOfSpec | App.tsx:171-181 | a view yields one anchor iff its image is set, linking that image under its download name |
| App.DownloadsOfSetViews | App.tsx:171-182 | every anchor is for a listed view whose image is set |
| App.DownloadsCoverSetViews | App.tsx:171-182 | every listed view whose image is set gets an anchor |
| App.DownloadsInViewOrder | App.tsx:171-182 | the anchors follow `MODEL_VIEWS` order strictly |
| App.DeliveriesComplete | App.tsx:102-117 | delivering all three other views to a fresh model fills all four slots |
| App.GeneratorSession.constructor | App.tsx:26-37 | the saved list is the stored list when storage holds one, and empty when storage is absent or unparsable; everything else starts empty |
| App.GeneratorSession.ResetForNewIdeas | App.tsx:39-46 | ideas, variations, generated models, both flag maps and the error are cleared; the session's ideas and saved models are kept |
| App.GeneratorSession.AcceptIdeas | App.tsx:52-57 | new ideas replace the shown ones and extend the session's ideas without repeats, keeping the earlier ones as a prefix; a failure sets the error |
| App.GeneratorSession.HandleGenerateIdeasAsWritten | App.tsx:48-61 | as written, every click ends with no ideas and the fixed failure message |
| App.GeneratorSession.HandleGenerateIdeas | App.tsx:48-61 | after the reset, a passing answer becomes the ideas and joins the session's ideas; otherwise the error is the fixed message; the flag ends false |
| App.GeneratorSession.BeginVisualizeIdea | App.tsx:64-66 | the idea is marked in flight, its variations are emptied and the error cleared |
| App.GeneratorSession.FinishVisualizeIdea | App.tsx:68-80 | variations are stored on success; on failure the idea's entry is deleted and the error set; the flag ends false |
| App.GeneratorSession.HandleVisualizeIdea | App.tsx:63-81 | the idea's variations become the result, or the entry is deleted with the error set; other ideas' entries are untouched; the flag ends false |
| App.GeneratorSession.OnImageGenerated | App.tsx:102-114 | only the named view of the one model changes, and nothing changes when the model is absent |
| App.GeneratorSession.StartModel | App.tsx:88-100 | the model keyed by the URL is created with only its front view, saved iff a saved model has that id, and marked in flight |
| App.GeneratorSession.ApplyDeliveries | App.tsx:117 | the deliveries are applied to the model one after the other |
| App.GeneratorSession.DiscardModel | App.tsx:118-124 | the error is set and the model's key is removed |
| App.GeneratorSession.EndGeneration | App.tsx:125-127 | the in-flight flag ends false |
| App.GeneratorSession.FinishModel | App.tsx:116-127 | all views generated give the model all four views; otherwise the key is removed and the error set; the flag ends false |
| App.GeneratorSession.HandleGenerateAllViews | App.tsx:84-128 | no-op when in flight or a back view exists; otherwise the model ends with all four views and no error, or is removed with the fixed failure message, and its flag ends false |
| App.GeneratorSession.HandleSaveModel | App.tsx:130-150 | no-op when the model is absent or saved; otherwise exactly one entry with id, idea, front-view prompt and images is appended, storage holds the new list, and the model is flagged saved |
| App.GeneratorSession.HandleDeleteModel | App.tsx:152-163 | every entry with the id is removed and the rest kept in order; storage holds the new list; a generated model with that id is flagged unsaved |
| App.GeneratorSession.HandleDownloadAll | App.tsx:165-183 | the anchors are those of the model's set views in `MODEL_VIEWS` order, and none when the model is absent |
| Visualizer.FindIndex | components/Visualizer.tsx:222 | `findIndex` returns the first slot with the id, or -1 iff there is none |
| Visualizer.FindIndexOfDistinct | components/Visualizer.tsx:222 | with distinct ids, looking up a slot's id finds its position |
| Visualizer.KeepMembers | components/Visualizer.tsx:187 | a filter keeps exactly the slots that meet its condition |
| Visualizer.Keep | components/Visualizer.tsx:187 | `slots.filter(c)` (also at lines 173, 190 and 219), defined by its body; its properties are `Visualizer.KeepMembers`, `Visualizer.KeepAppend` and `Visualizer.KeepIds` |
| Visualizer.KeepAppend | components/Visualizer.tsx:173 | a filter works piecewise, so kept slots keep their relative order |
| Visualizer.KeepIds | components/Visualizer.tsx:187 | filtering keeps ids distinct and fresh |
| Visualizer.NothingToGenerate | components/Visualizer.tsx:190 | the count is zero iff no slot has a slicer image without a render |
| Visualizer.ImagesToGenerateCount | components/Visualizer.tsx:190 | `imagesToGenerateCount`, defined by its body; its properties are `Visualizer.NothingToGenerate` |
| Visualizer.ReadAll | components/Visualizer.tsx:165 | the batch reads give every data URL in file order iff every read succeeded |
| Visualizer.AppendFresh | components/Visualizer.tsx:166-174 | kept slots followed by slots with fresh ids keep ids distinct and fresh |
| Visualizer.NewSlots | components/Visualizer.tsx:166-170 | the slots made for the uploaded files, defined by its body; its properties are `Visualizer.AppendFresh` |
| Visualizer.SetSlicer | components/Visualizer.tsx:141 | the map that gives one slot a new slicer image and no render (also clearing at line 183), defined by its body; its properties are `Visualizer.SlicerChangeChangesKey` and `Visualizer.VisualizerPage.SetSlotImage` |
| Visualizer.SetRenderAt | components/Visualizer.tsx:224 | with distinct ids, a render update by id changes only the slot at that position |
| Visualizer.SameSlicersSameKey | components/Visualizer.tsx:118 | changes that keep ids and slicer images keep `slicerImageUrls` |
| Visualizer.SlicerChangeChangesKey | components/Visualizer.tsx:118-125 | a slot's slicer image changing, with null read as empty, always changes `slicerImageUrls` |
| Visualizer.SlicerImageUrls | components/Visualizer.tsx:118 | the effect's key, defined by its body; its properties are `Visualizer.SameSlicersSameKey`, `Visualizer.SlicerChangeChangesKey`, `Visualizer.AddedSlotChangesKey` and `Visualizer.BlankSlotKeepsKey` |
| Visualizer.AddedSlotChangesKey | components/Visualizer.tsx:133-134 | adding a slot to a non-empty list always changes `slicerImageUrls` |
| Visualizer.BlankSlotKeepsKey | components/Visualizer.tsx:127-131 | the one blank slot added to an empty list joins to the same empty value |
| Visualizer.SceneRecordSound | components/Visualizer.tsx:202-207 | every record entry is a slot with a slicer image, keyed by its position in the whole list |
| Visualizer.SceneRecord | components/Visualizer.tsx:202-207 | the whole-list record, defined by its body; its properties are `Visualizer.SceneRecordSound`, `Visualizer.SceneRecordComplete` and `Visualizer.SceneRecordOrdered` |
| Visualizer.SceneRecordComplete | components/Visualizer.tsx:202-207 | every slot with a slicer image has its entry |
| Visualizer.SceneRecordOrdered | components/Visualizer.tsx:202-207 | the entries come in slot order |
| Visualizer.SceneRecordEmpty | components/Visualizer.tsx:209-211 | the record is empty iff no slot has a slicer image |
| Visualizer.SceneRecordNonEmpty | components/Visualizer.tsx:250 | the slot being re-rendered makes the record non-empty, so the throw cannot fire |
| Visualizer.GenerateHasSceneImages | components/Visualizer.tsx:209-211 | a positive count makes the record non-empty, so the throw cannot fire |
| Visualizer.CollectSceneImages | components/Visualizer.tsx:203-207 | the `forEach` builds the whole-list record |
| Visualizer.NumberFilled | components/Visualizer.tsx:281-283 | the `forEach` keys the filled slots by their position among filled slots |
| Visualizer.SceneImagesAgree | components/Visualizer.tsx:280-283 | both keyings send the same images in the same order |
| Visualizer.FirstFailureSpec | components/Visualizer.tsx:221-228 | no error is reported iff every selected render succeeds; otherwise the message is that of the first failing render |
| Visualizer.Rendered | components/Visualizer.tsx:219-228 | the slots after the renders, defined by its body; its properties are `Visualizer.RenderedKeepsSlicers` and `Visualizer.RenderEach` |
| Visualizer.FirstFailure | components/Visualizer.tsx:219-228 | the first failed render's message, defined by its body; its properties are `Visualizer.FirstFailureSpec` |
| Visualizer.RenderedKeepsSlicers | components/Visualizer.tsx:224 | renders keep every id and slicer image |
| Visualizer.RenderEach | components/Visualizer.tsx:219-225 | each selected slot whose render succeeds gets its image, other slots are unchanged, and the first failure is reported |
| Visualizer.RenderedStep | components/Visualizer.tsx:224 | storing one successful render by id advances the rendered prefix by one slot |
| Visualizer.VisualizerPage.constructor | components/Visualizer.tsx:104-131 | the page starts with one blank slot and nothing cached |
| Visualizer.VisualizerPage.RunEffects | components/Visualizer.tsx:120-131 | the description is dropped iff `slicerImageUrls` or the colour changed; an emptied list gets one blank slot, which does not change `slicerImageUrls` |
| Visualizer.VisualizerPage.AddNewSlot | components/Visualizer.tsx:133-135 | a blank slot with a fresh id is appended and the description is dropped |
| Visualizer.VisualizerPage.SetSlotImage | components/Visualizer.tsx:141 | only the slots with the id change, getting the new slicer image and no render; length, order and ids are kept; a changed slicer image drops the description |
| Visualizer.VisualizerPage.HandleImageUpload | components/Visualizer.tsx:137-145 | an unreadable file changes nothing; otherwise the slot takes the data URL, the description is dropped iff `slicerImageUrls` changed and kept otherwise (the same URL uploaded again), and the id counter is unchanged |
| Visualizer.VisualizerPage.HandleImageClear | components/Visualizer.tsx:182-184 | the slot's images are cleared; the description is dropped iff `slicerImageUrls` changed, so clearing a set image drops it and clearing an empty slot or an absent id keeps it; the id counter is unchanged |
| Visualizer.VisualizerPage.HandleSlotRemove | components/Visualizer.tsx:186-188 | exactly the slots with the id are removed, or one blank slot remains |
| Visualizer.VisualizerPage.HandleBatchUpload | components/Visualizer.tsx:147-180 | an empty file list changes nothing; a failed read sets the error and keeps the slots; otherwise the filled slots are followed by one new slot per file in order |
| Visualizer.VisualizerPage.SetColorOption | components/Visualizer.tsx:125 | a different colour option drops the description |
| Visualizer.VisualizerPage.HandleGenerate | components/Visualizer.tsx:192-233 | no-op when nothing awaits a render; a truthy cached description is reused, otherwise one is requested from the whole-list record and cached; a failed request sets its message and leaves the slots; otherwise exactly the awaiting slots are rendered, the error is the first failed render's message or none, and the loading flag ends false |
| Visualizer.VisualizerPage.RenderPending | components/Visualizer.tsx:219-225 | the renders are written back, and the first failure becomes the error |
| Visualizer.VisualizerPage.HandleReRender | components/Visualizer.tsx:235-266 | no-op unless the slot exists with a slicer image; a fresh description is always requested from the whole-list record, and a failure sets its message; otherwise only that slot is rendered, with angle label `index + 1`, or the render's failure becomes the error; the re-rendering id ends empty |
| Visualizer.VisualizerPage.DescribeScene | components/Visualizer.tsx:252-253 | a description is cached; a failure becomes the error and keeps the old description |
| Visualizer.VisualizerPage.RenderSlot | components/Visualizer.tsx:255-258 | one slot gets its render, or the failure becomes the error |
| Visualizer.VisualizerPage.HandleRegenerateAll | components/Visualizer.tsx:268-302 | no-op without filled slots; otherwise every filled slot's render is cleared and a description is requested from the record of filled slots; a failed request leaves the renders cleared with its message as the error; otherwise every filled slot is rendered and the first failed render's message becomes the error |
| Visualizer.VisualizerPage.ClearFilledRenders | components/Visualizer.tsx:276 | every filled slot loses its render; empty slots and `slicerImageUrls` are unchanged |
| Visualizer.VisualizerPage.HandleGenerateText | components/Visualizer.tsx:304-331 | the copy flags are reset; no slicer image gives the fixed error; otherwise the content or the service's error is stored |
| Visualizer.VisualizerPage.HandleCopyTag | components/Visualizer.tsx:346-354 | a tag already copied changes nothing; a successful write appends it once; a failed write sets the error |

## Left out

- The prose of every prompt. The idea request records only its sections, what each embeds and the order of the parts.
- The internals of `generateSceneDescription` and `generateRealisticView`. They are the oracles `describe` and `render`, and their data-URL splitting and retries are not repeated.
- The `setTimeout` waits in `retryWithBackoff`. They are recorded as values (`Trace.waits`), not as elapsed time.
- `Date.now()`. It is the parameter `now`.
- `crypto.randomUUID()`. Slot ids are natural numbers from a counter: fresh and distinct, but not UUID strings.
- The `image_<index>` record keys. They are natural numbers, because the service reads only the record's values.
- JSON numbers. They are kept as mantissa and decimal exponent, not as IEEE doubles. So `Dedup` treats `10` and `1e1` as two ideas, while the `Set` at App.tsx:55 compares the parsed numbers by value and keeps one.
- `JSON.stringify` and `JSON.parse` of the saved list. The storage field holds the list itself, so they are assumed to round-trip.
- React rendering, JSX, styling, `loadingStatus` and the `showLayerLines` toggle. `showLayerLines` is read by the renders but not changed by any modelled handler.
- Stale closures between React state updates. Each handler is one atomic step on the current state.
- `handleCopy`. It only writes text to the clipboard and sets a flag or the error, which is the pattern `HandleCopyTag` models.
- `handleDownloadUploads`. It only clicks DOM anchors, and its extension rule is the one `App.Extension` models.
- The presentational components (`components/*.tsx` other than the visualiser). Their only logic is a copy of the file-name rule, a library sort and button states.
- The inspiration-keyword handlers. `components/Inspiration.tsx` only forwards callbacks whose implementations are not part of this model.
- Visualizer.RenderEach: renders run one after the other in list order, while `Promise.all` runs them concurrently. The reported error is the first failure in list order, not the first to happen in time, and the successful renders are all written back as they are in the source.
- Visualizer.VisualizerPage.HandleBatchUpload: file reads are an input list of outcomes. A failure shows the fixed message; the concurrent reads are not modelled.
- Visualizer.VisualizerPage.HandleCopyTag: whether the clipboard write succeeds is the parameter `written`.
- Visualizer.VisualizerPage.HandleImageUpload: the `FileReader` result is the parameter `read`; `None` stands for a non-string result.
- App.GeneratorSession.HandleSaveModel: `localStorage.setItem` cannot fail in the model.
- Strings.Lower: only the ASCII letters are lowered. JavaScript's `toLowerCase` also lowers other letters (`Ä` to `ä`) and can lengthen a string (`İ`, U+0130, becomes two units), so keywords with non-ASCII capitals are normalised differently; the same holds for `NormalizeKeyword`, `NormalizeKeywords` and `ExtractKeywordsFromImage`.
- SanitizeIdeaProperties: its case clause is about ASCII lowering. Under JavaScript's full `toLowerCase` it fails for the Kelvin sign U+212A, which lowers to `k` but sanitises to `_`.
- GenerateModelIdeas: the API oracle is not given the request `BuildIdeaRequest` builds, so nothing ties the answer to what is sent; the request's structure is stated on `BuildIdeaRequest` alone.
- Saved models in storage that parse to something other than a list (`null`, `{}`) are not modelled: `Stored` holds a list or nothing. App.tsx:30-31 would keep such a value, and the spread at App.tsx:146 or the filter at App.tsx:155 would then throw.

## Findings

| source | as written | input that shows it | evidently intended | confidence | as-written member | corrected member |
|---|---|---|---|---|---|---|
| App.tsx:53 | `generateModelIdeas(sessionIdeas)` passes no keyword list, so `inspirationKeywords.length` at services/geminiService.ts:75 throws inside the `try`, and every click ends with the fixed failure message | any click of "Generate New Ideas", whatever the API answers | an empty keyword list passed, so that the API's answer is checked and shown | not executed | App.GeneratorSession.HandleGenerateIdeasAsWritten | App.GeneratorSession.HandleGenerateIdeas |

# Renz build view, template and chat endpoints in Dafny

Renz is a web application that turns a user's one-line request into a
generated project. The model covers three parts of it.

- **Backend `/template`.** The backend asks a language model whether the
  request is a React or a Node application. It rejects anything else. It then
  asks for the project and checks that the reply holds a `<boltArtifact>`
  element.
- **Backend `/chat`.** The frontend posts the conversation (`POST /chat`) and
  then reads the model's reply as a server-sent event stream (`GET /chat`).
  Each chunk goes out as `data: {"text":...}` followed by a blank line, and the
  stream ends with `data: [DONE]`.
- **Frontend build view.** The build view turns the parsed plan into build
  steps. It lays the steps' files out as a directory tree and picks the first
  file's code for the editor. On every streamed message with a non-empty text
  it completes the first pending step. The file explorer shows the tree,
  expands and collapses folders, and selects files.

The model is split into these modules:

- `Common`: `Option` and a first-occurrence search.
- `PathSegments`: `split('/')`, `join('/')` and `filter(Boolean)`.
- `FileTree`: the nested file structure.
- `BuildSteps`: step normalisation and "complete the first pending step".
- `CodeView`: the tree builder and the stream handler.
- `FileExplorer`: expansion state, the rendered rows and clicks.
- `JsValues`: the JavaScript values the code inspects.
- `JsonText`: `JSON.stringify` of the `{text}` payload and a decoder for it.
- `Template`: `POST /template`.
- `Chat`: `POST /chat`, `GET /chat` and the event-stream body.
- `EndToEnd`: the stream written by the backend and read by the build view.

Mutable state is modelled as classes:

- `Chat.Response` is an Express response: status, body text, JSON body and
  whether it has ended.
- `Chat.ChatServer` holds the module-level `lastMessage`.
- `FileExplorer.Explorer` holds the explorer's `expandedFolders` and
  `selectedFile`.

The tree-building loop of the build view is a method with a loop, proved
against a fold. The React state update of the stream handler is a pure
function on a `ViewState` value.

Calls to the language model are parameters. The classifier's answer, the
generated reply and the stream's chunks are passed in. `JSON.parse` in the
frontend is the parameter `parse`. The lemmas that need it assume only that
`parse` reads back every payload the backend writes. `JsonText.DecodeTextPayload`
is a concrete decoder proved to satisfy that assumption.

Some behaviours of the code that the model keeps as they are:

- The editor's initial code is the code of the first step that has a path
  with at least one segment and non-empty code. A step with an empty file
  does not set it.
- No step is ever set to `in-progress`. The statuses reached are `pending`
  and `completed` only.
- A later step whose path is a prefix of an earlier file's path reuses or
  replaces entries at the last segment. So the last write wins, whether the
  earlier entry was a file or a folder.
- Descending through a non-empty file (`a` is a file, then `a/b` arrives)
  reads `b` as an own key of a string. When that key is missing or a
  primitive (an index, `length`), the walk assigns a property of a
  primitive. In the module's strict mode that throws, and the catch of `init`
  abandons the whole layout. `FileTree.Insert` returns `None` for it. An empty
  file is falsy and is replaced by a folder.
- `init` sends the trimmed prompt to `/template` but the untrimmed prompt in
  the chat message.

## Model

| member | source | states |
|---|---|---|
| Common.IndexOf | Frontend/src/pages/CodeView.tsx:88-90 | the reader of the event stream finds the end of an event line: the first position of the line break, or the length when there is none, with no earlier occurrence |
| JsValues.Get | Backend/src/index.ts:110 | reading a property throws exactly on `null` and `undefined`, and an object's own key reads as its value |
| JsValues.TextObject | Backend/src/index.ts:121 | the object `{ text }` each chunk is sent as |
| JsValues.Truthy | Frontend/src/pages/CodeView.tsx:98 | exactly `undefined`, `null`, `false`, `0` and `""` are falsy |
| PathSegments.Split | Frontend/src/pages/CodeView.tsx:50 | `split('/')` yields at least one piece, even for the empty path |
| PathSegments.NonEmpty | Frontend/src/pages/CodeView.tsx:50 | `filter(Boolean)` keeps only non-empty pieces, each taken from the input, never more than the input |
| PathSegments.Segments | Frontend/src/pages/CodeView.tsx:50 | every segment of a path is a non-empty name free of separators |
| PathSegments.JoinSplit | Frontend/src/pages/CodeView.tsx:50 | joining the pieces of a split with `/` gives back the original path |
| PathSegments.SplitJoin | Frontend/src/pages/CodeView.tsx:50 | splitting the join of separator-free pieces gives back the pieces |
| PathSegments.JoinPrepend | Frontend/src/pages/CodeView.tsx:50 | a character added in front of the first piece is added in front of the joined path |
| PathSegments.SplitWhole | Frontend/src/pages/CodeView.tsx:50 | a string without separators splits into itself alone |
| PathSegments.SplitPiecesFree | Frontend/src/pages/CodeView.tsx:50 | no piece of a split contains the separator |
| PathSegments.SplitConcat | Frontend/src/pages/CodeView.tsx:50 | splitting `a/b` gives the pieces of `a` followed by those of `b` |
| PathSegments.NonEmptyConcat | Frontend/src/pages/CodeView.tsx:50 | filtering distributes over concatenation and keeps order |
| PathSegments.SegmentsConcat | Frontend/src/pages/CodeView.tsx:50 | the segments of `a/b` are those of `a` then those of `b` |
| PathSegments.SeparatorsCollapse | Frontend/src/pages/CodeView.tsx:50 | a leading `/` and a doubled `//` do not change the segments of a path |
| PathSegments.LeadingSeparator | Frontend/src/pages/CodeView.tsx:50 | `/a` and `a` have the same segments |
| PathSegments.OnlySeparators | Frontend/src/pages/CodeView.tsx:49-50 | a path made only of separators has no segments, so it places nothing |
| PathSegments.SegmentsOfJoin | Frontend/src/pages/CodeView.tsx:50 | the segments of a path joined from valid names are those names |
| PathSegments.NonEmptyAllKept | Frontend/src/pages/CodeView.tsx:50 | filtering a sequence without empty strings leaves it unchanged |
| PathSegments.NonEmptyFrom | Frontend/src/pages/CodeView.tsx:50 | filtering separator-free pieces yields valid segments |
| FileTree.Insert | Frontend/src/pages/CodeView.tsx:53-69 | writing a path adds exactly its first segment to the directory, leaves every other entry alone, and makes that entry a folder when the path goes deeper |
| FileTree.Lookup | Frontend/src/pages/CodeView.tsx:53-69 | what a path reaches in the structure, following `current[part]` one segment at a time |
| FileTree.InsertThenLookup | Frontend/src/pages/CodeView.tsx:55-57 | after a successful write, the path holds a file with the step's code |
| FileTree.InsertKeepsApart | Frontend/src/pages/CodeView.tsx:53-69 | a write leaves every path that is neither a prefix nor an extension of it unchanged |
| FileTree.LookupEmpty | Frontend/src/pages/CodeView.tsx:46 | the empty root holds nothing |
| FileTree.InsertMakesDirectories | Frontend/src/pages/CodeView.tsx:62-67 | after a successful write, every proper prefix of the path is a folder |
| FileTree.InsertFailsIff | Frontend/src/pages/CodeView.tsx:64-67 | a write fails exactly when some proper prefix of the path already holds a non-empty file |
| BuildSteps.OrElse | Frontend/src/pages/CodeView.tsx:37-40 | a JavaScript `or` with a fallback on an optional string: the value when it is non-empty, otherwise the fallback |
| BuildSteps.Normalize | Frontend/src/pages/CodeView.tsx:36-41 | a parsed step becomes pending with a non-empty title, `Unnamed Step` when it had none, and empty code and path for missing ones |
| BuildSteps.NormalizeAll | Frontend/src/pages/CodeView.tsx:36-43 | the plan maps step by step, in order, and every step starts pending |
| BuildSteps.FindPending | Frontend/src/pages/CodeView.tsx:103 | `findIndex`: -1 exactly when no step is pending, otherwise the lowest pending index |
| BuildSteps.CompleteNext | Frontend/src/pages/CodeView.tsx:101-108 | the update keeps the number of steps and changes nothing when no step is pending |
| BuildSteps.CompleteNextLowestPending | Frontend/src/pages/CodeView.tsx:101-108 | only the lowest pending step changes, and it becomes completed |
| BuildSteps.CompleteNextCounts | Frontend/src/pages/CodeView.tsx:101-108 | one update completes exactly one more step when one is pending, otherwise none |
| BuildSteps.CountAfterUpdate | Frontend/src/pages/CodeView.tsx:104 | marking one not-yet-completed step completed raises the count by one |
| BuildSteps.CompleteNextNSameSteps | Frontend/src/pages/CodeView.tsx:101-108 | repeated updates never reorder, add, drop or edit steps; only statuses change |
| BuildSteps.CompleteNextSameSteps | Frontend/src/pages/CodeView.tsx:102-107 | one update keeps every step's title, code and path |
| BuildSteps.SameStepsTransitive | Frontend/src/pages/CodeView.tsx:101-108 | keeping the same steps composes over successive updates |
| BuildSteps.CompleteNextNFromPending | Frontend/src/pages/CodeView.tsx:36-43 | from a freshly parsed plan, `k` updates complete exactly the first `min(k, n)` steps in order and leave the rest pending |
| BuildSteps.CompleteNextNGeneral | Frontend/src/pages/CodeView.tsx:101-108 | a completed prefix of length `m` grows to `min(m + k, n)` after `k` updates |
| CodeView.BuildFileStructure | Frontend/src/pages/CodeView.tsx:46-78 | the loop over the steps produces the tree and initial code that the step-by-step fold defines, or fails when a write fails |
| CodeView.PlaceStep | Frontend/src/pages/CodeView.tsx:49-70 | one callback places the step as the fold's step does, and sets the initial code only when none was set, the write succeeded and the code is non-empty |
| CodeView.TreeOfSnoc | Frontend/src/pages/CodeView.tsx:48-71 | the tree of the first `i + 1` steps is the tree of the first `i` steps with step `i` written into it, or none once a throw happened |
| CodeView.PlaceStepAdvances | Frontend/src/pages/CodeView.tsx:48-71 | one call of the callback turns the tree and initial code of the first `i` steps into those of the first `i + 1`, and a throw in it means no layout at all |
| CodeView.AddStep | Frontend/src/pages/CodeView.tsx:48-71 | a step without segments leaves the tree alone; a placing step that does not throw leaves its code at its path |
| CodeView.PlacesFile | Frontend/src/pages/CodeView.tsx:48-57 | a step reaches the leaf assignment: it has a path with at least one segment |
| CodeView.ShowsCode | Frontend/src/pages/CodeView.tsx:57-61 | a step sets the editor code when none is set yet: it places a file with non-empty code |
| CodeView.TreeOf | Frontend/src/pages/CodeView.tsx:47-71 | the tree after the steps in document order, absent from the first throwing step on |
| CodeView.FirstPreview | Frontend/src/pages/CodeView.tsx:59-61 | the code the loop keeps for the editor, characterised by `FirstPreviewIsFirst` |
| CodeView.LayoutOf | Frontend/src/pages/CodeView.tsx:46-78 | the structure and editor code `init` sets, or none when a step throws |
| CodeView.FirstPreviewSnoc | Frontend/src/pages/CodeView.tsx:59-61 | the initial code, once set, is never replaced; it is set by the first file step with non-empty code |
| CodeView.TreeOfFailed | Frontend/src/pages/CodeView.tsx:121-124 | once one step's write throws, the whole layout is abandoned |
| CodeView.AddStepBySegments | Frontend/src/pages/CodeView.tsx:49-50 | two paths with the same segments (`a//b`, `/a/b`, `a/b`) place a step identically |
| CodeView.LastWriteWins | Frontend/src/pages/CodeView.tsx:48-71 | a file keeps the code of its step unless a later step's path overlaps it |
| CodeView.LastWriteWinsApart | Frontend/src/pages/CodeView.tsx:48-71 | the induction behind last-write-wins: a step's file keeps its code after every later step whose path does not overlap it |
| CodeView.AddStepKeepsApart | Frontend/src/pages/CodeView.tsx:49-70 | a step whose path does not overlap a given path leaves what that path holds unchanged |
| CodeView.FirstPreviewIsFirst | Frontend/src/pages/CodeView.tsx:59-78 | the initial code is empty exactly when no step places a file with non-empty code, otherwise it is the code of the first one |
| CodeView.OnMessage | Frontend/src/pages/CodeView.tsx:90-113 | a closed source changes nothing; `[DONE]` closes it and ends loading; any other message keeps both flags and completes the next step exactly when `data.text` is truthy |
| CodeView.TextIsTruthy | Frontend/src/pages/CodeView.tsx:97-99 | the message counts exactly when it parses to an object whose own `text` is truthy |
| CodeView.OnMessageIgnored | Frontend/src/pages/CodeView.tsx:97-112 | a throwing parse, a non-object such as `null`, and a missing or falsy `text` leave the view unchanged |
| CodeView.Feed | Frontend/src/pages/CodeView.tsx:90-113 | the view after the handler has run on each event in arrival order |
| CodeView.OnMessageMonotone | Frontend/src/pages/CodeView.tsx:99-108 | a message never un-completes a step and completes at most one |
| CodeView.OnError | Frontend/src/pages/CodeView.tsx:115-119 | an error closes the source and ends loading without touching the steps |
| CodeView.FeedAfterClose | Frontend/src/pages/CodeView.tsx:91-94 | after the source is closed, no later message changes the view |
| CodeView.ChatRequest | Frontend/src/pages/CodeView.tsx:81-85 | the posted array holds every template prompt in order, then the user's prompt, each as `{parts}` |
| FileExplorer.Toggled | Frontend/src/components/FileExplorer.tsx:13-21 | the toggled path changes membership and every other path keeps its own |
| FileExplorer.ToggleTwice | Frontend/src/components/FileExplorer.tsx:13-21 | toggling the same folder twice restores the expansion state |
| FileExplorer.EntryRow | Frontend/src/components/FileExplorer.tsx:30-33 | a row's path is the parent's path, `/` and the key; it is a folder exactly for objects, expanded exactly when its path is in the set, and selected exactly when it is the selected file |
| FileExplorer.RenderNode | Frontend/src/components/FileExplorer.tsx:28-69 | the rows of one entry: its own row and, for an expanded folder, the rows of its children |
| FileExplorer.RenderTree | Frontend/src/components/FileExplorer.tsx:28-69 | the rows of every entry of a directory, characterised by `RenderedIff` |
| FileExplorer.RenderNodeUnfold | Frontend/src/components/FileExplorer.tsx:66 | an expanded folder shows its own row and the rows of its contents |
| FileExplorer.RenderedIff | Frontend/src/components/FileExplorer.tsx:28-69 | a row is shown exactly when it describes some entry all of whose ancestor folders are expanded |
| FileExplorer.RenderedIsShown | Frontend/src/components/FileExplorer.tsx:28-69 | every shown row describes an entry whose ancestor folders are all expanded |
| FileExplorer.ShowsBelow | Frontend/src/components/FileExplorer.tsx:66 | an entry shown inside an expanded folder is shown from that folder's parent |
| FileExplorer.ShownIsRendered | Frontend/src/components/FileExplorer.tsx:28-69 | every entry whose ancestor folders are all expanded is shown |
| FileExplorer.Explorer.constructor | Frontend/src/components/FileExplorer.tsx:10-11 | the explorer starts with `/src` expanded and no file selected |
| FileExplorer.Explorer.ToggleFolder | Frontend/src/components/FileExplorer.tsx:13-21 | the expansion set becomes the toggled set and the selection is kept |
| FileExplorer.Explorer.HandleFileClick | Frontend/src/components/FileExplorer.tsx:23-26 | the clicked file becomes selected, its code is handed on, and expansion is kept |
| FileExplorer.Explorer.Click | Frontend/src/components/FileExplorer.tsx:41-47 | a folder row toggles its folder, and a file row selects the file and hands on its code |
| FileExplorer.Explorer.Rows | Frontend/src/components/FileExplorer.tsx:74 | the rows shown for the structure under the current expansion and selection |
| Template.TrimStart | Backend/src/index.ts:43 | the result is a suffix of the input, everything removed is whitespace, and it does not start with whitespace |
| Template.IsSpace | Backend/src/index.ts:43 | the characters `trim` removes: the ECMAScript white space and line terminator characters |
| Template.TrimEnd | Backend/src/index.ts:43 | the result is a prefix of the input, everything removed is whitespace, and it does not end with whitespace |
| Template.Trim | Backend/src/index.ts:43 | the result is the input with whitespace removed at both ends, and it neither starts nor ends with whitespace |
| Template.Lower | Backend/src/index.ts:43 | lowercasing is character by character and keeps the length |
| Template.LowerChar | Backend/src/index.ts:43 | `toLowerCase` on one character: `A`-`Z` map to `a`-`z`, everything else is kept |
| Template.Classify | Backend/src/index.ts:45-54 | the answer selects React exactly for `react`, Node exactly for `node`, and rejects anything else |
| Template.ValidPrompt | Backend/src/index.ts:28-31 | a prompt is accepted exactly when it is a truthy string |
| Template.NormalizeAnswer | Backend/src/index.ts:43 | an undefined text stays undefined; otherwise the answer is no longer than the text and has no whitespace at either end |
| Template.NormalizedEnds | Backend/src/index.ts:43 | trimming then lowercasing leaves no whitespace at either end and never lengthens the text |
| Template.TrimmedBoth | Backend/src/index.ts:43 | removing whitespace at the front and then at the back removes it at both ends of the original |
| Template.TrimStartOfSpaced | Backend/src/index.ts:43 | leading whitespace before a word is removed exactly |
| Template.TrimEndOfSpaced | Backend/src/index.ts:43 | trailing whitespace after a word is removed exactly |
| Template.TrimAround | Backend/src/index.ts:43 | a word padded with whitespace on both sides trims to the word |
| Template.AcceptedAnswers | Backend/src/index.ts:43-48 | the classifier's text is accepted as a name exactly when it is that name in any letter case, padded with whitespace |
| Template.AcceptedIsSpacedName | Backend/src/index.ts:43-48 | an accepted text is the name in some case, padded with whitespace |
| Template.SpacedNameIsAccepted | Backend/src/index.ts:43-48 | the name in any case, padded with whitespace, is accepted |
| Template.NormalizeAnswerIdempotent | Backend/src/index.ts:43 | trimming and lowercasing a second time changes nothing |
| Template.LowerIdempotent | Backend/src/index.ts:43 | lowercasing twice is lowercasing once |
| Template.LowerCharIdempotent | Backend/src/index.ts:43 | lowercasing one character twice is lowercasing it once |
| Template.LowerCharSpace | Backend/src/index.ts:43 | lowercasing neither creates nor removes whitespace |
| Template.AppPrompt | Backend/src/index.ts:52-54 | the app prompt is the kind's preamble followed by the user's prompt |
| Template.Preamble | Backend/src/index.ts:52-54 | the fixed text before the prompt: `BASE_PROMPT` and the React line, or the Node line alone |
| Template.RequestOfAppPrompt | Backend/src/index.ts:52-54 | the user's prompt can be read back from the app prompt |
| Template.FindFrom | Backend/src/index.ts:66 | the first position at or after the start where the tag occurs, or -1 when it occurs nowhere there |
| Template.FindCharFrom | Backend/src/index.ts:66 | the first position at or after the start that holds the character, or -1 when none does |
| Template.HasArtifact | Backend/src/index.ts:66-70 | the check succeeds exactly when an opening `<boltArtifact` tag, closed by `>` with no `>` inside, is followed somewhere by `</boltArtifact>` |
| Template.SearchDecidesMatch | Backend/src/index.ts:66 | searching from the first opening tag and the first `>` after it loses no match of the pattern |
| Template.HandleTemplate | Backend/src/index.ts:25-76 | 400 with `{error}` exactly for a prompt that is not a non-empty string; 403 with `{message}` exactly when the answer is neither `react` nor `node`; 500 with `{error}` exactly when the reply has no artifact; success exactly otherwise, carrying the app prompt and the reply |
| JsonText.HexValue | Backend/src/index.ts:121 | exactly the characters `0-9`, `a-f` and `A-F` have a value, in 0..15, and the digit written for that value is the character, in lower case |
| JsonText.HexValueOfDigit | Backend/src/index.ts:121 | the digit written for a value reads back as that value |
| JsonText.EscapeChar | Backend/src/index.ts:121 | one character's serialisation is never empty, never contains a control character and never starts with a bare quote |
| JsonText.Escape | Backend/src/index.ts:121 | the serialised text contains no control character, so no line break |
| JsonText.EncodeTextPayload | Backend/src/index.ts:121 | `JSON.stringify({ text })` contains no line break and starts with `{` |
| JsonText.Quote | Backend/src/index.ts:121 | `JSON.stringify` of a string: the escaped text between double quotes |
| JsonText.Unescape | Frontend/src/pages/CodeView.tsx:98 | `JSON.parse` of the inside of a string literal, failing on raw quotes, raw control characters and unknown escapes |
| JsonText.DecodeTextPayload | Frontend/src/pages/CodeView.tsx:98 | `JSON.parse` of a `{"text":...}` payload, proved to invert `EncodeTextPayload` |
| JsonText.UnescapeControl | Backend/src/index.ts:121 | a control character written as `\u00XX` reads back as itself |
| JsonText.UnescapeEscapeChar | Backend/src/index.ts:121 | every escaped character reads back as itself, whatever follows |
| JsonText.UnescapeEscape | Backend/src/index.ts:121 | decoding the escaped text gives back the text |
| JsonText.DecodeEncodeTextPayload | Backend/src/index.ts:121 | the decoder reads back `{text}` from every payload the stream writes |
| Chat.ToContents | Backend/src/index.ts:108-111 | mapping succeeds exactly when no stored entry is `null` or `undefined`; it then gives one user content per entry, in order, holding that entry's `parts` |
| Chat.Payloads | Backend/src/index.ts:118-121 | one payload per chunk, in order, each the serialised `{text}` of that chunk |
| Chat.Frame | Backend/src/index.ts:121-125 | one event: `data: `, the payload and a blank line |
| Chat.Frames | Backend/src/index.ts:118-122 | the frames of the payloads in order, read back by `ParseFrames` |
| Chat.StreamBody | Backend/src/index.ts:118-126 | the whole body: the frames of the chunks then the end frame, read back by `ParseStreamBody` |
| Chat.ParseEvents | Frontend/src/pages/CodeView.tsx:88-90 | the events the reader delivers from a body of `data:` lines each closed by a blank line |
| Chat.ParseFrame | Backend/src/index.ts:121 | a frame with a payload free of line breaks reads back as that payload, followed by whatever follows it |
| Chat.FramesCons | Backend/src/index.ts:118-122 | the frames of a sequence of payloads are the first frame followed by the frames of the rest |
| Chat.FramesSnoc | Backend/src/index.ts:118-122 | the text written so far followed by the next frame is that text followed by the frames of one more payload |
| Chat.ParseDone | Backend/src/index.ts:125 | the end frame reads back as the end marker alone |
| Chat.ParseFrames | Backend/src/index.ts:118-126 | frames of payloads free of line breaks, then the end frame, read back as those payloads and the end marker |
| Chat.FramesPush | Backend/src/index.ts:118-125 | prepending a payload prepends its frame to the body |
| Chat.ParseFramesCons | Backend/src/index.ts:118-125 | one more payload in front reads back as one more event in front |
| Chat.ParseStreamBody | Backend/src/index.ts:118-126 | the streamed body reads back as one payload per chunk, in chunk order, then `[DONE]`, then nothing |
| Chat.DoneOnlyAtEnd | Backend/src/index.ts:121-125 | no chunk's payload can be mistaken for the end marker |
| Chat.Response.constructor | Backend/src/index.ts:96 | a fresh response has status 200, an empty body and has not ended |
| Chat.Response.Write | Backend/src/index.ts:121 | `res.write` appends the text and changes nothing else |
| Chat.Response.End | Backend/src/index.ts:126 | `res.end` ends the response and keeps the body |
| Chat.Response.WriteChunks | Backend/src/index.ts:118-122 | the loop writes the frames of the chunks' payloads, in chunk order |
| Chat.Response.Stream | Backend/src/index.ts:118-126 | the body gains one frame per chunk, in order, then the end frame, and the response ends |
| Chat.Response.Json | Backend/src/index.ts:98-100 | `res.status(s).json(v)` sets the status and the JSON body and ends the response |
| Chat.ChatServer.constructor | Backend/src/index.ts:23 | the stored message starts empty |
| Chat.ChatServer.PostChat | Backend/src/index.ts:78-94 | an array is stored and answered with `{success: true}`; anything else is answered with 400 and leaves the stored message as it was; either reply is a JSON value alone, with nothing written to the body |
| Chat.ChatServer.GetChat | Backend/src/index.ts:96-132 | 400 when nothing is stored and 500 when the contents mapping or the model call fails, each a JSON error alone with nothing written to the body; otherwise the body is exactly the event stream of the chunks and no JSON value is sent |
| Chat.ErrorObject | Backend/src/index.ts:29-30 | the `{ error }` body of an error reply |
| EndToEnd.CountNonEmpty | Frontend/src/pages/CodeView.tsx:99 | the count never exceeds the number of chunks and is zero exactly when every chunk's text is empty |
| EndToEnd.DecoderReadsPayloads | Backend/src/index.ts:121 | the concrete decoder reads back every payload the backend writes |
| EndToEnd.OnChunk | Frontend/src/pages/CodeView.tsx:97-109 | one chunk's payload completes the next step exactly when the chunk's text is not empty |
| EndToEnd.FeedStream | Frontend/src/pages/CodeView.tsx:90-113 | the payloads of a stream, then `[DONE]`, complete one step per non-empty chunk, then close the source and end loading |
| EndToEnd.EventsCons | Backend/src/index.ts:118-125 | the events of a non-empty stream are the first chunk's payload followed by the events of the rest |
| EndToEnd.FeedCons | Frontend/src/pages/CodeView.tsx:90-113 | feeding a message then the rest is handling that message and then feeding the rest |
| EndToEnd.StreamReachesView | Backend/src/index.ts:118-126 | the body written by `GET /chat`, read back as events and fed to the view, completes one step per non-empty chunk and closes the view's source |
| EndToEnd.StreamCompletesInOrder | Frontend/src/pages/CodeView.tsx:90-113 | from a freshly parsed plan, the stream completes the first steps in document order, one per non-empty chunk, and leaves the others pending |
| EndToEnd.RequestContents | Backend/src/index.ts:108-111 | the array the build view posts always maps to contents: one user content per prompt, in order, the user's prompt last |
| EndToEnd.Init | Frontend/src/pages/CodeView.tsx:23-127 | nothing is sent for an empty prompt; a rejected template leaves no steps and ends loading; a throwing layout still sets the steps, posts nothing and ends loading; otherwise the layout is set, the prompts and the user's prompt are posted and the event source is opened |
| EndToEnd.ViewOf | Frontend/src/pages/CodeView.tsx:88-90 | the state the stream handler starts from once `init` has returned |
| EndToEnd.InitThenStream | Frontend/src/pages/CodeView.tsx:23-127 | after a successful `init`, the streamed body completes the parsed steps in document order, one per non-empty chunk, and ends loading |
| EndToEnd.InitAgainstBackend | Backend/src/index.ts:25-76 | against the backend's own template answer, the chat post happens exactly when the trimmed prompt is valid, classified, answered with an artifact and laid out, and it carries the app prompt then the user's prompt |

## Left out

- The `parseXml` parser of the generated artifact is not part of this model. Build steps start from already parsed steps with optional title, code and path.
- `Backend/dist/index.js` is the compiled copy of `Backend/src/index.ts`. It is not modelled separately.
- The language model calls (`generateContent`, `generateContentStream`) are parameters: the classifier's answer, the generated reply and the chunk texts. Of the prompt texts they are sent with, only `BASE_PROMPT` is a parameter (`basePrompt`). `getSystemPrompt()` and the classifier instruction are not modelled: they only feed the model calls, whose answers are already free parameters.
- Express routing, CORS, `express.json()`, `dotenv`, the event-stream headers and `app.listen` are left out. They are framework configuration and hold no logic of the core.
- `axios` requests, the browser's `EventSource` and React's rendering and hooks are left out. The requests' bodies and the handlers' effects are modelled as values.
- Chat.ParseEvents: only the part of the `EventSource` event-stream parsing that the backend's bodies exercise is modelled: `data: ` with its space, lines ended by a line feed, one `data` line per event and a blank line after each. Carriage-return line ends, several `data` lines joined into one event, comment lines, the `event`, `id` and `retry` fields and reconnection are not modelled.
- `EndToEnd.Init` keeps `init` in the order of its awaits: the template request, the steps, the layout, the chat post, then the event source. React's batching of state updates and any interleaving with other effects are left out.
- EndToEnd.Init: `parsed` stands for `parseXml(uiPrompts[0])`; a throw inside `parseXml`, and a network failure of the `/chat` post, are not modelled.
- `JSON.parse` is a parameter of the stream handler. Only its behaviour on the payloads the backend writes is assumed. `JsonText.DecodeTextPayload` decodes exactly the `{"text":"..."}` shape.
- Numbers are reals and do not model `NaN` or `-0`. Their truthiness is `n != 0`. The model never reads a number from the payloads.
- Template.Lower and Template.LowerChar: fold only `A`-`Z`. JavaScript's `toLowerCase` also maps non-ASCII letters. The accepted answers `react` and `node` are ASCII, but a non-ASCII capital letter in the classifier's text is treated differently.
- FileExplorer.RenderTree: the rows are a set. The display order, which comes from `Object.entries` insertion order with integer-like keys first, is not modelled.
- FileTree.Insert: keys that the walk inherits are not modelled; the tree is a plain map of own keys. A segment named after an `Object.prototype` member (`constructor`, `toString`, `__proto__`) reads a function or object in the source. A segment that reaches a String.prototype member through a file (steps `a` with code `x`, then `a/trim/f.ts`) reads a truthy function too. The source then writes onto that shared object, so nothing throws and the layout is kept. The model instead creates a folder of that name, or returns `None` when the walk passes through a non-empty file.
- FileTree.Insert: the in-place walk with the `current` cursor is modelled as a rebuild of the path from the root. The resulting tree is the same; aliasing of the nested objects is not modelled.
- Chat.ChatServer.GetChat: a model failure after some chunks were written would make Express call `res.status(500)` on a response that has already sent its headers. The model treats the model call as failing before any chunk or succeeding with all of them.
- Template.HandleTemplate: a rejected model call in `/template` is an unhandled rejection with no response. It is not modelled.
- Error and success bodies are modelled as JSON values, not as their serialised text.
- JsonText.EscapeChar and JsonText.Unescape: Dafny strings are sequences of Unicode scalar values, while JavaScript strings are UTF-16 code units. A lone surrogate in a chunk's text cannot be represented. `JSON.stringify` writes one as a `\udXXX` escape, and `Unescape` rejects surrogate escapes. So chunk texts are taken to be well-formed Unicode.

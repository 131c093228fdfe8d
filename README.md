# Owen AI client: the Ollama stream, the chat sessions and the settings dialog

This project models in Dafny the core of a browser chat client for an Ollama
server, and proves properties of the model. The core has five parts:

- **The Ollama service** (`OllamaStream`, `OllamaClient`). `streamChat` frames
  the chunked reply of `/api/chat` into newline-terminated JSON records and
  decodes each one into a text delta, the end of the stream, or a failure.
  `cancelRequest` aborts the request in flight. `getModels` reads the list of
  models through a per-URL cache with a five-minute window. `checkConnection`
  matches the configured model against the server's list, with `:latest`
  normalisation, and classifies failures.
- **The chat screen** (`App`). It covers session titles, ids and creation
  times on save, the send handler (guard, prompt save, placeholder, streaming,
  final save or error notice), the stop handler, deleting and loading
  sessions, and choosing a model after the list is fetched.
- **The message renderer's `parseContent`** (`Markdown`). It cuts a message
  into text parts and fenced code parts with the expression
  ```` /```(\w*)\n([\s\S]*?)```/g ````.
- **`agentService.getAgents`** (`Agents`). It builds one preset per bundled
  markdown file and sorts the presets by name.
- **The settings dialog's handlers** (`Settings`).

`strings.dfy` holds the JavaScript string operations the code relies on
(`trim`, `split`, `join`, `includes`, `indexOf`, `replace` with a string
pattern). `types.dfy` holds the shared records.

Effects from outside the program become parameters:

- `JSON.parse` is a function `parse: string -> Option<Envelope>`, where `None`
  stands for a `SyntaxError`.
- The server's answers are datatypes: `ChatResponse` for `/api/chat` and
  `TagsResponse` for `/api/tags`.
- `Date.now()` readings and `crypto.randomUUID()` values are inputs, gathered
  for one send in `App.SendClock`.
- The answer to the delete confirmation is a boolean parameter.
- `localeCompare` is a total preorder `leq`.

The state the source keeps in objects is kept in classes:

- The IndexedDB model cache is `OllamaClient.ModelCache`.
- The history store is `App.HistoryStore`, a map from session id to session.
- The service's abort-controller slot is a field of `OllamaClient.OllamaService`.
- The React state cells are the fields of `App.ChatApp`.
- The dialog's working copy is `Settings.SettingsModal`.

The model follows the code as written, including:

- A record in the middle of the stream that does not parse is skipped. It does
  not end the stream.
- The unterminated rest of the stream is parsed untrimmed. Any failure there,
  including an `error` field, is swallowed.
- A cancelled reply is not dropped. The stream ends silently, so the send
  handler saves the partial reply like a complete one.
- The error notice of a failed stream is only shown. It is not saved by that
  send.
- A non-OK answer to the connection check is reported as "unreachable".
- `:latest` is removed at its first occurrence anywhere in a name, not only as
  a suffix.

## Model

| member | source | states |
|---|---|---|
| Strings.Trim | src/services/ollamaService.ts:297 | `trim()` gives an empty string exactly when the line is blank; otherwise its result neither starts nor ends with white space, and it is a piece of the line with only white space before and after it |
| Strings.TrimIsInfix | src/services/ollamaService.ts:297 | the trimmed line starts where the leading white space ends, and everything the trim drops at either end is white space |
| Strings.Split | src/services/ollamaService.ts:293 | `split('\n')` returns at least one piece, and no piece holds the separator |
| Strings.SplitJoinsBack | src/services/ollamaService.ts:293 | joining the pieces of `split` with the separator gives the input back, so splitting loses no text |
| Strings.SplitAppend | src/services/ollamaService.ts:289-294 | splitting `a + b` keeps every complete piece of `a` and re-splits the held-back last piece together with `b` |
| Strings.IndexOf | src/services/ollamaService.ts:174 | the position returned is an occurrence of the pattern, and no earlier position is one |
| OllamaStream.DecodeLine | src/services/ollamaService.ts:296-321 | once the stream has stopped, a line changes nothing; a line adds at most one delta, never an empty one, and never together with a failure; a blank line changes nothing; ContentLineContinues and DoneLineFinishes give the delta itself |
| OllamaStream.FinalDeltas | src/services/ollamaService.ts:268-285 | the unterminated rest yields at most one delta: exactly its content when it is non-blank, parses, has no `error` and has a non-empty content, and nothing otherwise |
| OllamaStream.StoppedStaysStopped | src/services/ollamaService.ts:303-313 | once `done` or `error` has stopped the stream, no later line changes anything |
| OllamaStream.BlankLineSkipped | src/services/ollamaService.ts:297-298 | removing a whitespace-only line from anywhere in the stream changes nothing |
| OllamaStream.MalformedLineSkipped | src/services/ollamaService.ts:300-321 | removing a line that does not parse changes nothing: decoding goes on past it |
| OllamaStream.ErrorLineFails | src/services/ollamaService.ts:303-305 | a line with an `error` field fails the stream with exactly that text and yields nothing more, whatever follows |
| OllamaStream.ContentLineContinues | src/services/ollamaService.ts:307-313 | an ordinary envelope (parsed, no `error`, not `done`) yields exactly its content when that is non-empty, nothing when it is empty or missing, and the stream goes on |
| OllamaStream.DoneLineFinishes | src/services/ollamaService.ts:307-313 | a `done` line yields its content, if any, then ends the stream normally, whatever follows |
| OllamaStream.DecodeLineExtends | src/services/ollamaService.ts:307-309 | one line adds at most one delta, and never an empty one |
| OllamaStream.DeltasOnlyGrow | src/services/ollamaService.ts:296-322 | more lines only append deltas: what was yielded is never revised |
| OllamaStream.DeltasAreNonEmpty | src/services/ollamaService.ts:307-309 | every delta is a non-empty content, and there are no more deltas than lines |
| OllamaStream.LinesAppend | src/services/ollamaService.ts:289-294 | feeding more text keeps every line already framed, so chunk boundaries do not change the framed lines |
| OllamaStream.StopIsFinal | src/services/ollamaService.ts:311-313 | after a stop, neither the rest of the body nor how reading ended changes the outcome |
| OllamaStream.AbortIsSilent | src/services/ollamaService.ts:324-329 | an abort, during the fetch or during a read, ends the stream without failure, after the complete lines read so far |
| OllamaStream.FinalRecordNeverFails | src/services/ollamaService.ts:268-285 | at the end of the body, a failure can only come from a complete line; the rest adds at most one delta after the earlier ones |
| OllamaStream.DecodeBatch | src/services/ollamaService.ts:296-322 | the loop over one chunk's lines decodes them in order, and otherwise looks at all of them; when it stops early, the stream was still open before the last line it looked at, so it left on the first `done` or `error` |
| OllamaStream.BodyOutcome | src/services/ollamaService.ts:261-331 | the outcome keeps the deltas of the complete lines and adds at most one more, only after a normal end of input with the stream still open; a failure comes only from an `error` line or from a read failure that is not an abort, with that failure's message; BodyFailure states the converse |
| OllamaStream.BodyFailure | src/services/ollamaService.ts:300-331 | an `error` line fails the stream with its text, and a read failure other than an abort, with the stream still open, always fails it with that failure's message |
| OllamaStream.ResponseOutcome | src/services/ollamaService.ts:246-331 | a rejected fetch, a non-OK status and a missing body yield no delta; of these only an aborted fetch ends without failure; a non-OK status without an `error` field fails with "Ollama API Error: " and the status text; ResponseFailure gives the other failures |
| OllamaStream.ResponseFailure | src/services/ollamaService.ts:246-259 | a rejected fetch that is not an abort fails with its message, a non-OK status whose body has an `error` field fails with that text, and a missing body fails with "ReadableStream not supported in this browser." |
| OllamaStream.ReadBody | src/services/ollamaService.ts:261-323 | whatever the chunk boundaries, the read loop yields exactly the decoding of the concatenated body |
| OllamaClient.GetModelsSpec | src/services/ollamaService.ts:112-145 | a forced refresh always fetches; an answer without a fetch is the fresh cached list and leaves the cache alone; a failed fetch answers `[]` and leaves the cache alone; a successful one answers the listed names and stores them under this URL with the write time |
| OllamaClient.ForcedRefreshFetches | src/services/ollamaService.ts:112-124 | a forced refresh always goes to the network |
| OllamaClient.FreshEntryAnswers | src/services/ollamaService.ts:53-74 | an entry younger than five minutes answers as it is, even an empty list, with no fetch and the cache unchanged |
| OllamaClient.SecondCallWithinWindowIsCached | src/services/ollamaService.ts:112-137 | after a successful fetch, a call within the window returns the same list without fetching |
| OllamaClient.FetchFailureKeepsCache | src/services/ollamaService.ts:126-144 | a failed fetch answers `[]` and leaves the cache as it was; a call changes at most its own URL's entry |
| OllamaClient.ClassifyFailure | src/services/ollamaService.ts:191-211 | a failure is reported with one of three messages: the timeout message exactly for a `TimeoutError`, the CORS message exactly for another error whose message mentions CORS, and the generic one otherwise |
| OllamaClient.NotFoundMessage | src/services/ollamaService.ts:182-187 | the error names the configured model and lists the available models joined by ", ", or "none" when that listing is empty |
| OllamaClient.NotFoundListsEveryModel | src/services/ollamaService.ts:182-187 | every name the server listed appears in the error |
| OllamaClient.ConnectionSpec | src/services/ollamaService.ts:150-212 | only a listed answer can succeed; any other answer fails with one of the four fixed messages; a body that is not JSON is classified like a thrown `SyntaxError` |
| OllamaClient.ModelMatches | src/services/ollamaService.ts:173-180 | the three-way match; it has no contract of its own, and NormalizeStripsSuffix, MatchingIsSuffixInsensitive, LatestTagIsFound and TagInsideNameIsRemoved state what it means |
| OllamaClient.ConnectionVerdicts | src/services/ollamaService.ts:150-212 | the check succeeds exactly when the server listed a matching name; a non-OK status is "unreachable"; a timeout is "timeout"; a listed answer without a match fails with the not-found error for the configured model and the listed names |
| OllamaClient.NormalizeStripsSuffix | src/services/ollamaService.ts:174-176 | for a name with `:latest` at most at its end, the normalisation strips that suffix |
| OllamaClient.MatchingIsSuffixInsensitive | src/services/ollamaService.ts:173-180 | for such names, the three-way match holds exactly when the names agree once a trailing `:latest` is stripped |
| OllamaClient.LatestTagIsFound | src/services/ollamaService.ts:177-179 | a configured `llama3` is found as the server's `llama3:latest` |
| OllamaClient.TagInsideNameIsRemoved | src/services/ollamaService.ts:174-176 | `:latest` inside a name is removed too: `a:latestb` matches the server's `ab` |
| OllamaClient.ModelCache.Put | src/services/ollamaService.ts:76-95 | one entry per URL, stamped with the write time; last write wins |
| OllamaClient.Wire | src/services/ollamaService.ts:225-228 | the request lists every message, in order, as its role name and content |
| OllamaClient.OllamaService.constructor | src/services/ollamaService.ts:97-103 | a new service holds its configuration and has no request in flight |
| OllamaClient.OllamaService.CancelRequest | src/services/ollamaService.ts:214-219 | the request in flight, if any, is aborted and the slot emptied; a second call aborts nothing |
| OllamaClient.OllamaService.StreamChat | src/services/ollamaService.ts:221-344 | aborts the previous request, sends model, messages and `stream: true`, yields exactly the response's outcome, and leaves the slot empty |
| OllamaClient.OllamaService.GetModels | src/services/ollamaService.ts:112-145 | the models and the cache afterwards are those of the cache-then-fetch rule |
| OllamaClient.OllamaService.CheckConnection | src/services/ollamaService.ts:150-212 | the verdict is the connection rule; a listed answer is cached before the model is looked for |
| App.FirstUser | src/App.tsx:158 | the position returned holds a user message, and no earlier one does |
| App.UntitledWithoutUserMessage | src/App.tsx:157-161 | a transcript without a user message is titled "New Chat" |
| App.TitleFromFirstUserMessage | src/App.tsx:157-161 | otherwise the title is the first user message cut to 30 characters, with "..." exactly when something was cut |
| App.TitleStable | src/App.tsx:157-161 | appending to a transcript that has a user message keeps its title |
| App.SessionToSave | src/App.tsx:156-171 | the saved record carries the transcript, its title and `updatedAt = now`; its id is the current id when that is non-empty, else the fresh UUID |
| App.ResaveKeepsIdentity | src/App.tsx:163-170 | saving a listed session again keeps its id and creation time and moves only `updatedAt` |
| App.FirstSaveStartsSession | src/App.tsx:163-170 | without a current id, a save starts a session with the fresh id, created now |
| App.UnlistedSessionCreatedNow | src/App.tsx:169 | a current id that is not listed, or is listed with no creation time, is stamped as created now |
| App.SendGate | src/App.tsx:183-192 | a send is ignored exactly on blank input or while loading; it is refused exactly when a failed connection's re-check fails, with that check's message or "Connection failed" |
| App.ReplaceTouchesOnlyPlaceholder | src/App.tsx:234-240 | a stream update changes only the placeholder's content; every other message, and the placeholder's role and timestamp, stay |
| App.ReplaceLatestWins | src/App.tsx:232-241 | each update overwrites the previous one: the placeholder shows only the latest accumulated text |
| App.StreamedStep | src/App.tsx:232-241 | one more delta extends the placeholder's text by exactly that delta |
| App.RequestExtendsTranscript | src/App.tsx:221-228 | the request is the transcript behind at most one system message with the trimmed prompt, present exactly when the prompt is non-blank |
| App.ErrorNotice | src/App.tsx:251-257 | a failure is shown as a system message "Error: " followed by its message, or "Error generating response." when that is empty |
| App.StoreAfterSend | src/App.tsx:163-177 | as written, a send loses no session, and the only new ids it can add are the current id and the two UUIDs, so a new chat can gain two sessions (NewChatSavedTwice) |
| App.NewChatSavedTwice | src/App.tsx:163-177 | as written, a send in a new chat leaves two sessions: one under the first UUID with only the prompt, one under the second with the reply |
| App.NewChatSavedTwiceExample | src/App.tsx:163-177 | a concrete send into an empty store leaves two sessions |
| App.StoreAfterSendCorrected | src/App.tsx:163-177 | with the correction, a send loses no session, and the only new id it can add is the first save's |
| App.CorrectedSendKeepsOneSession | src/App.tsx:163-177 | with the second save seeing the first save's id, a send adds at most one session, which holds the whole transcript and keeps its creation time |
| App.FirstContaining | src/App.tsx:107 | the position returned is a listed name containing the configured one, and no earlier name does |
| App.SelectModel | src/App.tsx:101-115 | the configured model stays when the list is empty or holds it; otherwise a listed model is chosen |
| App.SelectsFirstPartialMatch | src/App.tsx:105-109 | without an exact match, the first listed name containing the configured one is chosen |
| App.SelectsFirstWhenNoneContains | src/App.tsx:110-111 | when no listed name contains it, the first listed model is chosen |
| App.Exchange | src/App.tsx:194-262 | after a send the input is cleared, the flags are down and the listing is the store; the transcript grows by the prompt and the reply, and by the error notice after a failure |
| App.ExchangeStore | src/App.tsx:194-257 | a send loses no stored session and stores the prompt's session; after a failed stream the store holds nothing more |
| App.PromptSavedFirst | src/App.tsx:194-206 | whatever the stream does, the store keeps every earlier session and holds the transcript with the trimmed prompt |
| App.ReplyPersisted | src/App.tsx:243-249 | a completed or cancelled reply is saved as the prompt's transcript plus one assistant message holding the concatenated deltas |
| App.ExchangeSavesAsWritten | src/App.tsx:206-249 | the store a completed send leaves is exactly the as-written double save of the finding below |
| App.ErrorShownNotSaved | src/App.tsx:251-257 | a failed stream leaves only the first save in the store; the shown transcript ends with the error notice |
| App.PlaceholderHoldsReply | src/App.tsx:212-241 | with an unused placeholder id, the earlier messages and the prompt stay untouched and the placeholder holds exactly the concatenated deltas |
| App.HistoryStore.Save | src/App.tsx:173 | saving overwrites the record with the same id and nothing else |
| App.HistoryStore.Delete | src/App.tsx:148 | deleting removes that id's record and nothing else |
| App.ChatApp.constructor | src/App.tsx:15-43 | the screen starts with the default host and model, an empty prompt, no messages, no session, status "checking", and a service for that configuration |
| App.ChatApp.LoadHistory | src/App.tsx:88-95 | the listing becomes the store's records; nothing else changes |
| App.ChatApp.FetchModels | src/App.tsx:101-115 | the available models are those `getModels` returns, the configured model becomes the selected one, and nothing else changes |
| App.ChatApp.CheckOllamaConnection | src/App.tsx:117-127 | the status is "connected" or "error" by the connection rule; the error text is the check's message or "Unknown connection error" |
| App.ChatApp.ApplyConfig | src/App.tsx:57-61 | a change of URL or model installs a fresh service for the new settings, checks the connection (a listed answer is cached under the new URL, nothing else is) and reloads the listing |
| App.ChatApp.CreateNewChat | src/App.tsx:130-136 | the transcript, current session, input and streaming id are cleared; nothing else changes |
| App.ChatApp.LoadSession | src/App.tsx:138-143 | the session's messages and id become current; nothing else changes |
| App.ChatApp.DeleteSession | src/App.tsx:145-154 | unconfirmed, nothing changes; confirmed, the record is gone, the listing reloaded, and the chat cleared only when it was the current one |
| App.ChatApp.SaveCurrentSession | src/App.tsx:156-180 | the store gains the record of the save rule; a new chat's id becomes current; the listing is reloaded |
| App.ChatApp.HandleSendMessage | src/App.tsx:182-263 | an ignored send changes nothing; a refused one only sets the error; otherwise the new state is the exchange function of the old one, the error is kept, the request is the transcript with the prompt, the previous request is aborted and the new one's slot is empty afterwards; only the re-check of a failed connection touches the model cache |
| App.ChatApp.SendExchange | src/App.tsx:194-262 | after the guard, the new state is the exchange of the old state and the stream's outcome; both saves see the session id the handler started with; exactly one controller is created, the previous one is aborted, and the slot is empty afterwards |
| App.ChatApp.StartExchange | src/App.tsx:194-216 | the trimmed prompt is shown and saved, the input cleared, the flags raised, and an empty placeholder named one past the clock is added |
| App.ChatApp.FinishExchange | src/App.tsx:243-262 | on success the transcript with the reply is saved; on failure the notice is shown and nothing is saved; the flags are cleared either way |
| App.ChatApp.StreamReply | src/App.tsx:230-241 | the request lists the messages under the configured model; the text shown is the concatenation of the stream's deltas, its failure is handed on, and nothing else on the screen changes |
| App.ChatApp.ShowDeltas | src/App.tsx:232-241 | the loop accumulates the concatenation of the deltas, and the screen shows the placeholder holding it |
| App.ChatApp.HandleStop | src/App.tsx:265-270 | the request in flight is aborted and the flags are cleared; the transcript, the service's settings and its count of requests are kept |
| Markdown.WordRun | src/components/MessageBubble.tsx:13 | `\w*` takes the whole maximal run of word characters |
| Markdown.MatchAt | src/components/MessageBubble.tsx:13 | a match found at `p` starts there and ends within the content, after an opening and a closing fence |
| Markdown.MatchAtSound | src/components/MessageBubble.tsx:13 | what is matched is a fence, a word-only language, a line feed, code in which no fence starts, and the closing fence |
| Markdown.MatchAtComplete | src/components/MessageBubble.tsx:13 | conversely, a fence, a word-only language, a line feed, code in which no fence starts, and a fence, at `p`, are matched at `p` with exactly that language and code |
| Markdown.OneBlockIsCode | src/components/MessageBubble.tsx:11-31 | a message that is exactly one fenced block is one code part with that language and code |
| Markdown.FindMatch | src/components/MessageBubble.tsx:17 | a match `exec` returns starts at or after `lastIndex` and ends, after its start, within the content |
| Markdown.FindMatchIsLeftmost | src/components/MessageBubble.tsx:17 | the match `exec` returns is a fenced block at its start, and no earlier position at or after `lastIndex` starts one |
| Markdown.PartsFrom | src/components/MessageBubble.tsx:11-31 | the parts from `lastIndex` on; it has no contract of its own, and PartsReconstruct, PartsWellFormed, EmptyHasNoParts, UnfencedIsOneText, UnclosedFenceIsText and OneBlockIsCode state what it means |
| Markdown.PartsReconstruct | src/components/MessageBubble.tsx:11-31 | the parts, rendered back and concatenated, give the message: nothing is lost or reordered |
| Markdown.PartsWellFormed | src/components/MessageBubble.tsx:17-29 | text parts are never empty, languages are word characters, and code holds no fence |
| Markdown.EmptyHasNoParts | src/components/MessageBubble.tsx:27-29 | an empty message has no parts |
| Markdown.UnfencedIsOneText | src/components/MessageBubble.tsx:26-29 | a message with no complete fenced block is one text part |
| Markdown.UnclosedFenceIsText | src/components/MessageBubble.tsx:13-29 | in any message whose only fence is one at any position `p`, that fence is never closed, and the whole message is one text part |
| Markdown.ParseContent | src/components/MessageBubble.tsx:11-31 | the loop yields the parts of the message, and they render back to it and are well formed |
| Agents.LastSegment | services/agentService.ts:17 | the last path segment holds no `/` |
| Agents.AgentId | services/agentService.ts:17 | the id is never empty |
| Agents.LastSegmentOf | services/agentService.ts:17 | the last segment of `dir/name` is `name` |
| Agents.IdOfMarkdownFile | services/agentService.ts:17 | a file `dir/name.md` gives the id `name` |
| Agents.BareSuffixIsUnknown | services/agentService.ts:17 | a file called just `.md` gives the id "Unknown" |
| Agents.Upper | services/agentService.ts:22 | each lower-case letter becomes the same letter in upper case; other characters stay |
| Agents.Capitalize | services/agentService.ts:22 | only the first character of a word is upper-cased; the length is kept |
| Agents.CapitalizeAll | services/agentService.ts:20-22 | every word is capitalised, in order |
| Agents.FormatName | services/agentService.ts:20-23 | the display name; it has no contract of its own, and NameLength and NameWords state what it is |
| Agents.NameLength | services/agentService.ts:20-23 | the display name is exactly as long as the id |
| Agents.NameWords | services/agentService.ts:20-23 | the name's space-separated words are the id's dash-separated words, capitalised, in order |
| Agents.MakeAgent | services/agentService.ts:16-29 | an agent's id comes from its path, its name from its id, and its prompt is the trimmed content |
| Agents.Built | services/agentService.ts:15-30 | one agent per bundled file |
| Agents.BuiltInFileOrder | services/agentService.ts:15-30 | the `k`-th agent built is the one made from the `k`-th bundled file |
| Agents.BuildAgents | services/agentService.ts:15-30 | the loop over the bundled files pushes exactly the agents of `Built`, in file order |
| Agents.Insert | services/agentService.ts:32 | one step of the stable sort; it has no contract of its own, and InsertSorted and InsertPermutes state what it does |
| Agents.InsertSorted | services/agentService.ts:32 | inserting into a list ordered by name keeps it ordered |
| Agents.InsertPermutes | services/agentService.ts:32 | inserting adds exactly the one agent |
| Agents.SortByName | services/agentService.ts:32 | `sort` by `localeCompare`; it has no contract of its own, and SortSortsAndPermutes states what it does |
| Agents.SortSortsAndPermutes | services/agentService.ts:32 | the sorted list is ordered by name and holds exactly the agents it was given |
| Agents.GetAgents | services/agentService.ts:11-33 | the result is the bundled files' agents, sorted by name: as many as files, a permutation of them, ordered |
| Settings.FindByPrompt | components/SettingsModal.tsx:33 | the position returned holds an agent with exactly that prompt, and no earlier one does |
| Settings.FindById | components/SettingsModal.tsx:53 | the position returned holds the agent with that id, and no earlier one does |
| Settings.PresetSurvivesReopen | components/SettingsModal.tsx:29-58 | after choosing a preset, reopening the dialog shows a preset with that same prompt |
| Settings.UnknownPromptIsCustom | components/SettingsModal.tsx:33-38 | a prompt no agent has shows as "custom" |
| Settings.SettingsModal.constructor | components/SettingsModal.tsx:24-26 | the working copy starts as the configuration, with "custom" selected |
| Settings.SettingsModal.Open | components/SettingsModal.tsx:29-40 | opening copies the configuration and selects the first agent with its prompt, else "custom" |
| Settings.SettingsModal.HandleAgentChange | components/SettingsModal.tsx:48-58 | the choice is selected; a known agent's prompt replaces the working prompt, and nothing else changes |
| Settings.SettingsModal.EditPrompt | components/SettingsModal.tsx:145-147 | typing sets the prompt and selects "custom" |
| Settings.SettingsModal.EditModel | components/SettingsModal.tsx:76 | choosing a model changes only the model |
| Settings.SettingsModal.EditBaseUrl | components/SettingsModal.tsx:160 | typing the URL changes only the URL |
| Settings.SettingsModal.Save | components/SettingsModal.tsx:176-178 | saving hands over exactly the working copy |

## Left out

- Byte decoding: `TextDecoder` turns bytes into text, and the model starts from already-decoded text chunks. Splits inside a UTF-8 character are therefore not modelled.
- Characters are Dafny characters, not UTF-16 code units. This matters for the 30-character title cut.
- `JSON.parse` returning something other than an object is not modelled. For example, for `null`, reading `error` throws a `TypeError` that ends the stream. The parser parameter maps every text to an envelope or to a syntax error.
- A stream failure that is not an `Error` ("Unknown error occurred during streaming") is not modelled. Every failure carries a name and a message.
- Failures of the IndexedDB calls are not modelled: the cache reads and writes and the history store always succeed. The `catch` of `getCachedModels` therefore never fires.
- `historyService` is not part of this model. It is a map from id to session, with last write wins. The order in which it lists sessions is left out.
- `updateConfig` is never called by the client and is not modelled.
- Rendering and the browser UI are left out: JSX, themes, scrolling, textarea sizing, the sidebar on narrow screens, the `handleRefresh` spinner timer, and the Cancel button (it only closes the dialog). Saving the dialog calls `setConfig`, whose effect is `App.ChatApp.ApplyConfig`.
- Interleavings of asynchronous handlers are not modelled. Two examples are a stop pressed while the send handler is suspended, and a superseded stream's `finally` clearing a newer controller. The model runs one handler at a time to completion, and a stop is modelled as a read that ends with an `AbortError`.
- The initial model fetch on mount (`App.tsx:64-73`) is the same as `App.ChatApp.FetchModels` with `forceRefresh` false, and is not a separate member.
- The two `Date.now()` readings in one save are taken as one reading, so `updatedAt` and a new `createdAt` coincide.
- The order in which Vite lists the bundled agent files is an input.
- Agents.Upper: only ASCII letters are upper-cased; the full Unicode mapping of `toUpperCase` is not modelled.
- Agents.GetAgents: the sort is specified as a stable insertion sort by `leq`, but stability is not stated as a separate lemma.

## Findings

| source | as written | input that shows it | evidently intended | confidence | as-written member | corrected member |
|---|---|---|---|---|---|---|
| src/App.tsx:163-177 | both saves of one send use the `currentSessionId` captured when `handleSendMessage` started, so in a new chat the save after the reply draws a second UUID | a first message "hi" in a new chat, answered "hello": the store ends with one session holding only "hi" and another holding "hi" and "hello" | the save after the reply updates the session the first save created | not executed | App.NewChatSavedTwice | App.CorrectedSendKeepsOneSession |

/** The conversation bookkeeping of the chat screen: session titles, session
    ids and timestamps on save, the send and stop handlers, session deletion
    and model auto-selection. React state cells are the fields of `ChatApp`;
    the history store, the model cache and the Ollama service are objects it
    holds. */
module App {
  import opened Strings
  import opened Types
  import opened OllamaStream
  import opened OllamaClient

  const NewChatTitle: string := "New Chat"
  const TitleLength: nat := 30
  const Ellipsis: string := "..."
  const ConnectionFailedDefault: string := "Connection failed"
  const UnknownConnectionError: string := "Unknown connection error"
  const GenerationFailedDefault: string := "Error generating response."

  // ---------------------------------------------------------------------
  // Titles

  /** `currentMessages.find(m => m.role === Role.User)`, as a position. */
  function FirstUser(ms: seq<Message>): (r: Option<nat>)
    ensures r.Some? ==> r.value < |ms| && ms[r.value].role == User
    ensures forall j :: 0 <= j < |ms| && (r.None? || j < r.value) ==> ms[j].role != User
  {
    if ms == [] then None
    else if ms[0].role == User then Some(0)
    else
      match FirstUser(ms[1..])
      case None => None
      case Some(i) => Some(i + 1)
  }

  /** The title a saved session gets from its transcript. */
  function Title(ms: seq<Message>): string
  {
    match FirstUser(ms)
    case None => NewChatTitle
    case Some(i) =>
      var c := ms[i].content;
      (if |c| <= TitleLength then c else c[..TitleLength]) + (if |c| > TitleLength then Ellipsis else [])
  }

  /** A transcript without a user message is titled "New Chat". */
  lemma UntitledWithoutUserMessage(ms: seq<Message>)
    requires forall j :: 0 <= j < |ms| ==> ms[j].role != User
    ensures Title(ms) == NewChatTitle
  {
  }

  /** Otherwise the title is the first user message cut to 30 characters,
      with "..." exactly when something was cut. */
  lemma TitleFromFirstUserMessage(ms: seq<Message>, i: nat)
    requires i < |ms| && ms[i].role == User
    requires forall j :: 0 <= j < i ==> ms[j].role != User
    ensures var c := ms[i].content;
            && (|c| <= TitleLength ==> Title(ms) == c)
            && (|c| > TitleLength ==> Title(ms) == c[..TitleLength] + Ellipsis && |Title(ms)| == TitleLength + |Ellipsis|)
  {
  }

  /** Appending to a transcript that already has a user message keeps its
      title, so the save after the reply titles the session as the save
      before it did. */
  lemma {:induction false} TitleStable(ms: seq<Message>, more: seq<Message>)
    requires exists i :: 0 <= i < |ms| && ms[i].role == User
    ensures Title(ms + more) == Title(ms)
  {
    var i := FirstUser(ms).value;
    assert (ms + more)[i] == ms[i];
    TitleFromFirstUserMessage(ms + more, i);
    TitleFromFirstUserMessage(ms, i);
  }

  // ---------------------------------------------------------------------
  // Saving a session

  /** The record `saveCurrentSession(currentMessages)` writes, given the
      session id and the session listing the handler closed over, the clock
      reading and the UUID `crypto.randomUUID()` would return. The listing is
      keyed by session id. */
  function SessionToSave(seenId: Option<string>, seen: map<string, ChatSession>, ms: seq<Message>,
                         now: int, freshId: string): (r: ChatSession)
    ensures r.title == Title(ms) && r.messages == ms && r.updatedAt == now
    ensures r.id == if Truthy(seenId) then seenId.value else freshId
  {
    var id := if Truthy(seenId) then seenId.value else freshId;
    var createdAt :=
      if Truthy(seenId) && id in seen && seen[id].createdAt != 0 then seen[id].createdAt else now;
    ChatSession(id, Title(ms), ms, createdAt, now)
  }

  /** A session keeps its identity across saves: once it is listed with a
      non-zero creation time, saving it again under its id reuses the id and
      the creation time and only moves `updatedAt`. */
  lemma ResaveKeepsIdentity(s: ChatSession, seen: map<string, ChatSession>, ms: seq<Message>, now: int, freshId: string)
    requires s.id != [] && s.createdAt != 0
    requires s.id in seen && seen[s.id] == s
    ensures var r := SessionToSave(Some(s.id), seen, ms, now, freshId);
            r.id == s.id && r.createdAt == s.createdAt && r.updatedAt == now
  {
  }

  /** Without a (non-empty) session id a save starts a new session: fresh id,
      created now. */
  lemma FirstSaveStartsSession(seenId: Option<string>, seen: map<string, ChatSession>, ms: seq<Message>, now: int, freshId: string)
    requires !Truthy(seenId)
    ensures var r := SessionToSave(seenId, seen, ms, now, freshId);
            r.id == freshId && r.createdAt == now && r.updatedAt == now
  {
  }

  /** A listed session whose id is current but whose creation time is missing
      (zero) or which is not listed is stamped as created now. */
  lemma UnlistedSessionCreatedNow(id: string, seen: map<string, ChatSession>, ms: seq<Message>, now: int, freshId: string)
    requires id != []
    requires id !in seen || seen[id].createdAt == 0
    ensures SessionToSave(Some(id), seen, ms, now, freshId).createdAt == now
  {
  }

  // ---------------------------------------------------------------------
  // The send handler's pure parts

  /** How `handleSendMessage` gets past its guard: ignored on blank input or
      while loading; refused when a re-check of a failed connection fails. */
  datatype Gate = Ignored | Refused(error: string) | Proceed

  datatype ConnectionStatus = StatusChecking | StatusConnected | StatusError

  /** `result.error || fallback`. */
  function OrDefault(s: string, fallback: string): string
  {
    if s == [] then fallback else s
  }

  function SendGate(input: string, loading: bool, status: ConnectionStatus, model: string, probe: TagsResponse): (g: Gate)
    ensures g == Ignored <==> IsBlank(input) || loading
    ensures g.Refused? <==> !IsBlank(input) && !loading && status == StatusError && ConnectionSpec(model, probe).NotConnected?
    ensures g.Refused? ==> g.error == OrDefault(ConnectionSpec(model, probe).error, ConnectionFailedDefault)
  {
    if Trim(input) == [] || loading then Ignored
    else if status == StatusError && ConnectionSpec(model, probe).NotConnected? then
      Refused(OrDefault(ConnectionSpec(model, probe).error, ConnectionFailedDefault))
    else Proceed
  }

  /** `prev.map(msg => msg.timestamp === id ? { ...msg, content } : msg)`. */
  function ReplaceContent(ms: seq<Message>, id: int, content: string): seq<Message>
  {
    seq(|ms|, i requires 0 <= i < |ms| => if ms[i].timestamp == id then ms[i].(content := content) else ms[i])
  }

  /** Only the placeholder's content changes; every other message, and the
      placeholder's role and timestamp, stay as they were. */
  lemma ReplaceTouchesOnlyPlaceholder(ms: seq<Message>, id: int, content: string)
    ensures var r := ReplaceContent(ms, id, content);
            && |r| == |ms|
            && forall i :: 0 <= i < |ms| ==>
                 && r[i].role == ms[i].role && r[i].timestamp == ms[i].timestamp
                 && r[i].content == (if ms[i].timestamp == id then content else ms[i].content)
  {
  }

  /** Each update overwrites the last: the placeholder shows only the most
      recent accumulated text. */
  lemma ReplaceLatestWins(ms: seq<Message>, id: int, a: string, b: string)
    ensures ReplaceContent(ReplaceContent(ms, id, a), id, b) == ReplaceContent(ms, id, b)
  {
    var l, r := ReplaceContent(ReplaceContent(ms, id, a), id, b), ReplaceContent(ms, id, b);
    assert |l| == |r|;
    forall i | 0 <= i < |l| ensures l[i] == r[i] {
    }
  }

  /** The transcript on screen after the deltas `ds` have arrived into the
      placeholder `id`: untouched until the first delta, then the placeholder
      holds their concatenation. */
  function Streamed(base: seq<Message>, id: int, ds: seq<string>): seq<Message>
  {
    if ds == [] then base else ReplaceContent(base, id, Concat(ds))
  }

  /** One more delta extends the placeholder's text by exactly that delta. */
  lemma StreamedStep(base: seq<Message>, id: int, ds: seq<string>, d: string)
    ensures Streamed(base, id, ds + [d]) == ReplaceContent(Streamed(base, id, ds), id, Concat(ds) + d)
  {
    assert (ds + [d])[..|ds + [d]| - 1] == ds;
    if ds != [] {
      ReplaceLatestWins(base, id, Concat(ds), Concat(ds) + d);
    }
  }

  /** `StreamedStep` for the prefixes of one delta sequence. */
  lemma StreamedPrefixStep(base: seq<Message>, id: int, deltas: seq<string>, k: nat)
    requires k < |deltas|
    ensures Concat(deltas[..k + 1]) == Concat(deltas[..k]) + deltas[k]
    ensures Streamed(base, id, deltas[..k + 1]) == ReplaceContent(Streamed(base, id, deltas[..k]), id, Concat(deltas[..k]) + deltas[k])
  {
    assert deltas[..k + 1] == deltas[..k] + [deltas[k]];
    StreamedStep(base, id, deltas[..k], deltas[k]);
  }

  /** The system message the request is prefixed with, if the configured
      prompt is non-blank. */
  function PromptPrefix(systemPrompt: Option<string>, at: int): seq<Message>
  {
    if Truthy(systemPrompt) && Trim(systemPrompt.value) != [] then [Message(System, Trim(systemPrompt.value), at)] else []
  }

  /** The request carries the transcript unchanged behind at most one system
      message holding the trimmed prompt; the transcript itself never gets it. */
  lemma RequestExtendsTranscript(systemPrompt: Option<string>, at: int, ms: seq<Message>)
    ensures var req := PromptPrefix(systemPrompt, at) + ms;
            && req[|req| - |ms|..] == ms
            && (|req| == |ms| + 1 <==> systemPrompt.Some? && !IsBlank(systemPrompt.value))
            && (|req| != |ms| ==> |req| == |ms| + 1 && req[0] == Message(System, Trim(systemPrompt.value), at))
  {
    var req := PromptPrefix(systemPrompt, at) + ms;
    assert req[|req| - |ms|..] == ms;
  }

  /** The system message shown when the stream fails. */
  function ErrorNotice(message: string, at: int): (m: Message)
    ensures m.role == System && m.timestamp == at
    ensures m.content == "Error: " + (if message == [] then GenerationFailedDefault else message)
  {
    Message(System, "Error: " + OrDefault(message, GenerationFailedDefault), at)
  }

  /** The clock readings and UUIDs one send consumes. */
  datatype SendClock = SendClock(
    userAt: int,         // timestamp of the user message
    firstSaveAt: int,    // `Date.now()` inside the save before streaming
    firstUuid: string,   // `crypto.randomUUID()` in that save
    streamAt: int,       // `Date.now()` naming the placeholder (its id is one more)
    promptAt: int,       // timestamp of the system message in the request
    finalSaveAt: int,    // `Date.now()` inside the save after streaming
    finalUuid: string,   // `crypto.randomUUID()` in that save
    errorAt: int)        // timestamp of the error notice

  // ---------------------------------------------------------------------
  // The stale session id (see README "Findings")

  /** The store after a send that ends without failure, as written: both saves
      see the session id captured when the handler started, so the second
      save does not know the id the first one just assigned. */
  function StoreAfterSend(store: map<string, ChatSession>, seenId: Option<string>, seen: map<string, ChatSession>,
                          updated: seq<Message>, final: seq<Message>, clock: SendClock): (r: map<string, ChatSession>)
    ensures forall k :: k in store ==> k in r
    ensures forall k :: k in r && k !in store
              ==> (Truthy(seenId) && k == seenId.value) || k == clock.firstUuid || k == clock.finalUuid
  {
    var first := SessionToSave(seenId, seen, updated, clock.firstSaveAt, clock.firstUuid);
    var last := SessionToSave(seenId, seen, final, clock.finalSaveAt, clock.finalUuid);
    store[first.id := first][last.id := last]
  }

  /** In a new chat the store ends up with two sessions: one holding only the
      prompt, one holding prompt and reply. */
  lemma NewChatSavedTwice(store: map<string, ChatSession>, seenId: Option<string>, seen: map<string, ChatSession>,
                          updated: seq<Message>, final: seq<Message>, clock: SendClock)
    requires !Truthy(seenId)
    requires clock.firstUuid != clock.finalUuid
    ensures var r := StoreAfterSend(store, seenId, seen, updated, final, clock);
            && clock.firstUuid in r && r[clock.firstUuid].messages == updated
            && clock.finalUuid in r && r[clock.finalUuid].messages == final
  {
  }

  /** A concrete instance: an empty store, one prompt, one reply. */
  lemma NewChatSavedTwiceExample()
    ensures var u := [Message(User, "hi", 1)];
            var f := u + [Message(Assistant, "hello", 3)];
            |StoreAfterSend(map[], None, map[], u, f, SendClock(1, 2, "a", 2, 2, 4, "b", 5)).Keys| == 2
  {
    var u := [Message(User, "hi", 1)];
    var f := u + [Message(Assistant, "hello", 3)];
    var r := StoreAfterSend(map[], None, map[], u, f, SendClock(1, 2, "a", 2, 2, 4, "b", 5));
    assert r.Keys == {"a", "b"};
  }

  /** The evidently intended behaviour: the second save sees the id the first
      save assigned and the listing reloaded after it. */
  function StoreAfterSendCorrected(store: map<string, ChatSession>, seenId: Option<string>, seen: map<string, ChatSession>,
                                   updated: seq<Message>, final: seq<Message>, clock: SendClock)
    : (r: map<string, ChatSession>)
    ensures forall k :: k in store ==> k in r
    ensures clock.firstUuid != [] ==>
              forall k :: k in r && k !in store ==> k == SessionToSave(seenId, seen, updated, clock.firstSaveAt, clock.firstUuid).id
  {
    var first := SessionToSave(seenId, seen, updated, clock.firstSaveAt, clock.firstUuid);
    var between := store[first.id := first];
    var last := SessionToSave(Some(first.id), between, final, clock.finalSaveAt, clock.finalUuid);
    between[last.id := last]
  }

  /** With the correction a send adds at most one session, which ends up
      holding the whole transcript under the first save's id and creation
      time. */
  lemma CorrectedSendKeepsOneSession(store: map<string, ChatSession>, seenId: Option<string>, seen: map<string, ChatSession>,
                                     updated: seq<Message>, final: seq<Message>, clock: SendClock)
    requires clock.firstUuid != [] && clock.firstSaveAt != 0
    requires Truthy(seenId) ==> seenId.value in seen && seen[seenId.value].createdAt != 0
    ensures var first := SessionToSave(seenId, seen, updated, clock.firstSaveAt, clock.firstUuid);
            var r := StoreAfterSendCorrected(store, seenId, seen, updated, final, clock);
            && r.Keys == store.Keys + {first.id}
            && r[first.id].messages == final
            && r[first.id].createdAt == first.createdAt
  {
    var first := SessionToSave(seenId, seen, updated, clock.firstSaveAt, clock.firstUuid);
    assert first.createdAt != 0;
    ResaveKeepsIdentity(first, store[first.id := first], final, clock.finalSaveAt, clock.finalUuid);
  }

  // ---------------------------------------------------------------------
  // Model auto-selection

  /** `models.find(m => m.includes(model))`, as a position. */
  function FirstContaining(models: seq<string>, model: string): (r: Option<nat>)
    ensures r.Some? ==> r.value < |models| && Includes(models[r.value], model)
    ensures forall j :: 0 <= j < |models| && (r.None? || j < r.value) ==> !Includes(models[j], model)
  {
    if models == [] then None
    else if Includes(models[0], model) then Some(0)
    else
      match FirstContaining(models[1..], model)
      case None => None
      case Some(i) => Some(i + 1)
  }

  /** The model `fetchModels` leaves configured after listing `models`. */
  function SelectModel(models: seq<string>, current: string): (r: string)
    ensures models == [] || current in models ==> r == current
    ensures models != [] ==> r in models
  {
    if models == [] || current in models then current
    else
      match FirstContaining(models, current)
      case Some(i) => models[i]
      case None => models[0]
  }

  /** Without an exact match the first listed name containing the configured
      one is chosen. */
  lemma SelectsFirstPartialMatch(models: seq<string>, current: string, k: nat)
    requires current !in models
    requires k < |models| && Includes(models[k], current)
    requires forall j :: 0 <= j < k ==> !Includes(models[j], current)
    ensures SelectModel(models, current) == models[k]
  {
  }

  /** With no name containing the configured one, the first listed is chosen. */
  lemma SelectsFirstWhenNoneContains(models: seq<string>, current: string)
    requires models != []
    requires forall j :: 0 <= j < |models| ==> !Includes(models[j], current)
    ensures SelectModel(models, current) == models[0]
  {
  }

  // ---------------------------------------------------------------------
  // One exchange, as a function of the state before it

  /** The part of the screen's state a send changes, with the store's
      records. */
  datatype ChatView = ChatView(
    messages: seq<Message>,
    currentSessionId: Option<string>,
    sessions: map<string, ChatSession>,
    input: string,
    isLoading: bool,
    isStreaming: bool,
    streamingMessageId: Option<int>,
    store: map<string, ChatSession>)

  /** The transcript a send adds the prompt to. */
  function WithPrompt(v: ChatView, clock: SendClock): seq<Message>
  {
    v.messages + [Message(User, Trim(v.input), clock.userAt)]
  }

  /** The session saved before the reply streams. */
  function FirstSave(v: ChatView, clock: SendClock): ChatSession
  {
    SessionToSave(v.currentSessionId, v.sessions, WithPrompt(v, clock), clock.firstSaveAt, clock.firstUuid)
  }

  /** The session saved once the reply is complete; like the first save it
      sees the session id and listing the handler started with. */
  function FinalSave(v: ChatView, clock: SendClock, deltas: seq<string>): ChatSession
  {
    SessionToSave(v.currentSessionId, v.sessions,
                  WithPrompt(v, clock) + [Message(Assistant, Concat(deltas), clock.streamAt + 1)],
                  clock.finalSaveAt, clock.finalUuid)
  }

  /** The state after a send that got past its guard: the prompt is shown and
      saved, the reply streams into a placeholder named `streamAt + 1`; then
      either the transcript with the reply is saved, or an error notice is
      shown and nothing more is saved. Input is cleared and the flags are
      down. */
  function Exchange(v: ChatView, clock: SendClock, outcome: StreamResult): (r: ChatView)
    ensures r.input == [] && !r.isLoading && !r.isStreaming && r.streamingMessageId.None? && r.sessions == r.store
    ensures |r.messages| == |v.messages| + (if outcome.failure.None? then 2 else 3)
  {
    var id := clock.streamAt + 1;
    var updated := WithPrompt(v, clock);
    var shown := Streamed(updated + [Message(Assistant, [], id)], id, outcome.deltas);
    var first := FirstSave(v, clock);
    var afterFirst := v.store[first.id := first];
    if outcome.failure.None? then
      var final := FinalSave(v, clock, outcome.deltas);
      var store := afterFirst[final.id := final];
      ChatView(shown, if Truthy(v.currentSessionId) then v.currentSessionId else Some(final.id),
               store, [], false, false, None, store)
    else
      ChatView(shown + [ErrorNotice(outcome.failure.value, clock.errorAt)],
               if Truthy(v.currentSessionId) then v.currentSessionId else Some(first.id),
               afterFirst, [], false, false, None, afterFirst)
  }

  /** A proof step, not a property: `Exchange` unfolded by outcome, so that the
      proof of `SendExchange` can compare it with its state branch by branch. */
  lemma ExchangeByOutcome(v: ChatView, clock: SendClock, outcome: StreamResult)
    ensures var id := clock.streamAt + 1;
            var shown := Streamed(WithPrompt(v, clock) + [Message(Assistant, [], id)], id, outcome.deltas);
            var first := FirstSave(v, clock);
            var afterFirst := v.store[first.id := first];
            var final := FinalSave(v, clock, outcome.deltas);
            var store := afterFirst[final.id := final];
            && (outcome.failure.None? ==>
                  Exchange(v, clock, outcome)
                  == ChatView(shown, if Truthy(v.currentSessionId) then v.currentSessionId else Some(final.id),
                              store, [], false, false, None, store))
            && (outcome.failure.Some? ==>
                  Exchange(v, clock, outcome)
                  == ChatView(shown + [ErrorNotice(outcome.failure.value, clock.errorAt)],
                              if Truthy(v.currentSessionId) then v.currentSessionId else Some(first.id),
                              afterFirst, [], false, false, None, afterFirst))
  {
  }

  /** A send never loses a session: every stored session is still there, the
      prompt's session is stored, and a failed stream stores nothing more. */
  lemma ExchangeStore(v: ChatView, clock: SendClock, outcome: StreamResult)
    ensures var r := Exchange(v, clock, outcome);
            && (forall k :: k in v.store ==> k in r.store)
            && FirstSave(v, clock).id in r.store
            && (outcome.failure.Some? ==> r.store == v.store[FirstSave(v, clock).id := FirstSave(v, clock)])
  {
  }

  /** The request a send makes: the configured prompt, if any, ahead of the
      transcript with the new user message. */
  function ExchangeRequest(v: ChatView, model: string, systemPrompt: Option<string>, clock: SendClock): ChatRequest
  {
    ChatRequest(model, Wire(PromptPrefix(systemPrompt, clock.promptAt) + WithPrompt(v, clock)), true)
  }

  /** The prompt is persisted before the reply: whatever happens to the
      stream, the store holds the transcript with the user's trimmed message,
      and no session is lost. */
  lemma PromptSavedFirst(v: ChatView, clock: SendClock, outcome: StreamResult)
    ensures var after := Exchange(v, clock, outcome);
            var first := FirstSave(v, clock);
            && first.id in after.store
            && v.store.Keys <= after.store.Keys
            && first.messages == v.messages + [Message(User, Trim(v.input), clock.userAt)]
            && (outcome.failure.Some? ==> after.store[first.id] == first)
  {
  }

  /** A completed (or cancelled) reply is persisted as the prompt's
      transcript plus one assistant message holding the concatenated deltas;
      the system prompt is never part of it. */
  lemma ReplyPersisted(v: ChatView, clock: SendClock, outcome: StreamResult)
    requires outcome.failure.None?
    ensures var after := Exchange(v, clock, outcome);
            var final := FinalSave(v, clock, outcome.deltas);
            && final.id in after.store
            && after.store[final.id].messages
               == v.messages + [Message(User, Trim(v.input), clock.userAt),
                                Message(Assistant, Concat(outcome.deltas), clock.streamAt + 1)]
            && after.currentSessionId.Some?
  {
  }

  /** The store a completed send leaves is the one of the stale-id finding:
      the send handler saves exactly as `StoreAfterSend` describes. */
  lemma ExchangeSavesAsWritten(v: ChatView, clock: SendClock, outcome: StreamResult)
    requires outcome.failure.None?
    ensures Exchange(v, clock, outcome).store
            == StoreAfterSend(v.store, v.currentSessionId, v.sessions, WithPrompt(v, clock),
                              WithPrompt(v, clock) + [Message(Assistant, Concat(outcome.deltas), clock.streamAt + 1)], clock)
  {
  }

  /** A failed stream shows an error notice that is not saved: the store
      holds only the first save, of the transcript with the prompt, and the
      shown transcript ends with the notice. */
  lemma ErrorShownNotSaved(v: ChatView, clock: SendClock, outcome: StreamResult)
    requires outcome.failure.Some?
    ensures var after := Exchange(v, clock, outcome);
            && after.store == v.store[FirstSave(v, clock).id := FirstSave(v, clock)]
            && FirstSave(v, clock).messages == WithPrompt(v, clock)
            && after.messages[|after.messages| - 1] == ErrorNotice(outcome.failure.value, clock.errorAt)
            && after.sessions == after.store
  {
  }

  /** With a placeholder id no earlier message uses, the screen shows the
      earlier messages and the user's prompt untouched, followed by the
      placeholder holding exactly the concatenation of the deltas. */
  lemma PlaceholderHoldsReply(v: ChatView, clock: SendClock, outcome: StreamResult)
    requires forall i :: 0 <= i < |v.messages| ==> v.messages[i].timestamp != clock.streamAt + 1
    requires clock.userAt != clock.streamAt + 1
    ensures var after := Exchange(v, clock, outcome);
            var n := |v.messages| + 1;
            && |after.messages| >= n + 1
            && after.messages[..n] == WithPrompt(v, clock)
            && after.messages[n] == Message(Assistant, Concat(outcome.deltas), clock.streamAt + 1)
  {
    var id := clock.streamAt + 1;
    var updated := WithPrompt(v, clock);
    var base := updated + [Message(Assistant, [], id)];
    var shown := Streamed(base, id, outcome.deltas);
    var n := |v.messages| + 1;
    assert |shown| == n + 1;
    forall i | 0 <= i < n ensures shown[i] == updated[i] {
      assert base[i] == updated[i];
      assert updated[i].timestamp != id;
    }
    assert shown[..n] == updated;
    if outcome.deltas == [] {
      assert Concat(outcome.deltas) == [];
    }
    var after := Exchange(v, clock, outcome);
    assert after.messages[..n] == shown[..n] && after.messages[n] == shown[n];
  }

  // ---------------------------------------------------------------------
  // State

  /** The persisted sessions, by id; saving overwrites the record with the
      same id. */
  class HistoryStore {
    var records: map<string, ChatSession>

    constructor ()
      ensures records == map[]
    {
      records := map[];
    }

    method Save(session: ChatSession)
      modifies this
      ensures records == old(records)[session.id := session]
    {
      records := records[session.id := session];
    }

    method Delete(id: string)
      modifies this
      ensures records == old(records) - {id}
    {
      records := records - {id};
    }
  }

  class ChatApp {
    var config: OllamaConfig
    var messages: seq<Message>
    var currentSessionId: Option<string>
    /** The listing last loaded from the store. */
    var sessions: map<string, ChatSession>
    var input: string
    var isLoading: bool
    var isStreaming: bool
    var streamingMessageId: Option<int>
    var connectionStatus: ConnectionStatus
    var errorMessage: Option<string>
    var availableModels: seq<string>
    /** `ollamaService.current`. */
    var service: OllamaService
    const history: HistoryStore
    const cache: ModelCache

    constructor (history: HistoryStore, cache: ModelCache)
      ensures config == OllamaConfig(DefaultHost, DefaultModel, Some(""))
      ensures messages == [] && currentSessionId == None && sessions == map[] && input == []
      ensures !isLoading && !isStreaming && streamingMessageId == None
      ensures connectionStatus == StatusChecking && errorMessage == None && availableModels == []
      ensures fresh(service) && service.config == config && service.controller == None
      ensures this.history == history && this.cache == cache
    {
      config := OllamaConfig(DefaultHost, DefaultModel, Some(""));
      messages := [];
      currentSessionId := None;
      sessions := map[];
      input := [];
      isLoading := false;
      isStreaming := false;
      streamingMessageId := None;
      connectionStatus := StatusChecking;
      errorMessage := None;
      availableModels := [];
      service := new OllamaService(OllamaConfig(DefaultHost, DefaultModel, Some("")));
      this.history := history;
      this.cache := cache;
    }

    method LoadHistory()
      modifies this
      ensures sessions == history.records
      ensures config == old(config) && messages == old(messages) && currentSessionId == old(currentSessionId)
      ensures input == old(input) && isLoading == old(isLoading) && isStreaming == old(isStreaming)
      ensures streamingMessageId == old(streamingMessageId) && connectionStatus == old(connectionStatus)
      ensures errorMessage == old(errorMessage) && availableModels == old(availableModels) && service == old(service)
    {
      sessions := history.records;
    }

    /** `fetchModels(forceRefresh)`: list the models and, when the configured
        one is not listed, switch to a listed one. */
    method FetchModels(forceRefresh: bool, now: int, response: TagsResponse, writeTime: int)
      modifies this, cache
      ensures var f := GetModelsSpec(old(cache.entries), old(service.config).baseUrl, forceRefresh, now, response, writeTime);
              availableModels == f.models && cache.entries == f.entries
      ensures config == old(config).(model := SelectModel(availableModels, old(config).model))
      ensures messages == old(messages) && currentSessionId == old(currentSessionId) && sessions == old(sessions)
      ensures input == old(input) && isLoading == old(isLoading) && isStreaming == old(isStreaming)
      ensures streamingMessageId == old(streamingMessageId) && connectionStatus == old(connectionStatus)
      ensures errorMessage == old(errorMessage) && service == old(service)
    {
      var models, _ := service.GetModels(cache, forceRefresh, now, response, writeTime);
      availableModels := models;
      if |models| > 0 {
        if config.model !in models {
          var partial := FirstContaining(models, config.model);
          if partial.Some? {
            config := config.(model := models[partial.value]);
          } else {
            config := config.(model := models[0]);
          }
        }
      }
    }

    /** `checkOllamaConnection()`. */
    method CheckOllamaConnection(probe: TagsResponse, writeTime: int)
      modifies this, cache
      ensures var c := ConnectionSpec(old(service.config).model, probe);
              && connectionStatus == (if c.Connected? then StatusConnected else StatusError)
              && errorMessage == (if c.Connected? then None else Some(OrDefault(c.error, UnknownConnectionError)))
      ensures cache.entries == if probe.Listed?
                               then old(cache.entries)[old(service.config).baseUrl := CacheEntry(ListedNames(probe.models), writeTime)]
                               else old(cache.entries)
      ensures config == old(config) && messages == old(messages) && currentSessionId == old(currentSessionId)
      ensures sessions == old(sessions) && input == old(input) && isLoading == old(isLoading)
      ensures isStreaming == old(isStreaming) && streamingMessageId == old(streamingMessageId)
      ensures availableModels == old(availableModels) && service == old(service)
    {
      connectionStatus := StatusChecking;
      errorMessage := None;
      var result := service.CheckConnection(cache, probe, writeTime);
      if result.Connected? {
        connectionStatus := StatusConnected;
      } else {
        connectionStatus := StatusError;
        errorMessage := Some(OrDefault(result.error, UnknownConnectionError));
      }
    }

    /** The effect run when the configured URL or model changes: a new
        service for the new settings, a connection check and a history load. */
    method ApplyConfig(probe: TagsResponse, writeTime: int)
      modifies this, cache
      ensures fresh(service) && service.config == config && service.controller == None
      ensures var c := ConnectionSpec(config.model, probe);
              && connectionStatus == (if c.Connected? then StatusConnected else StatusError)
              && errorMessage == (if c.Connected? then None else Some(OrDefault(c.error, UnknownConnectionError)))
      ensures cache.entries == if probe.Listed?
                               then old(cache.entries)[config.baseUrl := CacheEntry(ListedNames(probe.models), writeTime)]
                               else old(cache.entries)
      ensures sessions == history.records
      ensures config == old(config) && messages == old(messages) && currentSessionId == old(currentSessionId)
      ensures input == old(input) && isLoading == old(isLoading) && isStreaming == old(isStreaming)
      ensures streamingMessageId == old(streamingMessageId) && availableModels == old(availableModels)
    {
      service := new OllamaService(config);
      CheckOllamaConnection(probe, writeTime);
      LoadHistory();
    }

    /** `createNewChat()`. */
    method CreateNewChat()
      modifies this
      ensures messages == [] && currentSessionId == None && input == [] && streamingMessageId == None
      ensures config == old(config) && sessions == old(sessions) && isLoading == old(isLoading)
      ensures isStreaming == old(isStreaming) && connectionStatus == old(connectionStatus)
      ensures errorMessage == old(errorMessage) && availableModels == old(availableModels) && service == old(service)
    {
      messages := [];
      currentSessionId := None;
      input := [];
      streamingMessageId := None;
    }

    /** `loadSession(session)`. */
    method LoadSession(session: ChatSession)
      modifies this
      ensures messages == session.messages && currentSessionId == Some(session.id) && streamingMessageId == None
      ensures config == old(config) && sessions == old(sessions) && input == old(input) && isLoading == old(isLoading)
      ensures isStreaming == old(isStreaming) && connectionStatus == old(connectionStatus)
      ensures errorMessage == old(errorMessage) && availableModels == old(availableModels) && service == old(service)
    {
      messages := session.messages;
      currentSessionId := Some(session.id);
      streamingMessageId := None;
    }

    /** `deleteSession(id)`, with the answer to the confirmation dialog. */
    method DeleteSession(id: string, confirmed: bool)
      modifies this, history
      ensures !confirmed ==> unchanged(this) && unchanged(history)
      ensures confirmed ==> history.records == old(history.records) - {id} && sessions == history.records
      ensures confirmed && old(currentSessionId) == Some(id) ==>
                messages == [] && currentSessionId == None && input == [] && streamingMessageId == None
      ensures old(currentSessionId) != Some(id) ==>
                && messages == old(messages) && currentSessionId == old(currentSessionId)
                && input == old(input) && streamingMessageId == old(streamingMessageId)
      ensures config == old(config) && isLoading == old(isLoading) && isStreaming == old(isStreaming)
      ensures connectionStatus == old(connectionStatus) && errorMessage == old(errorMessage)
      ensures availableModels == old(availableModels) && service == old(service)
    {
      if confirmed {
        history.Delete(id);
        LoadHistory();
        if currentSessionId == Some(id) {
          CreateNewChat();
        }
      }
    }

    /** `saveCurrentSession(currentMessages)`, with the session id and listing
        the calling handler captured passed in. */
    method SaveCurrentSession(seenId: Option<string>, seen: map<string, ChatSession>, ms: seq<Message>,
                              now: int, freshId: string)
      modifies this, history
      ensures var s := SessionToSave(seenId, seen, ms, now, freshId);
              && history.records == old(history.records)[s.id := s]
              && currentSessionId == (if Truthy(seenId) then old(currentSessionId) else Some(s.id))
      ensures sessions == history.records
      ensures config == old(config) && messages == old(messages) && input == old(input)
      ensures isLoading == old(isLoading) && isStreaming == old(isStreaming)
      ensures streamingMessageId == old(streamingMessageId) && connectionStatus == old(connectionStatus)
      ensures errorMessage == old(errorMessage) && availableModels == old(availableModels) && service == old(service)
    {
      var session := SessionToSave(seenId, seen, ms, now, freshId);
      history.Save(session);
      if !Truthy(seenId) {
        currentSessionId := Some(session.id);
      }
      LoadHistory();
    }

    /** The part of the state a send leaves alone. */
    ghost function Surroundings(): (OllamaConfig, ConnectionStatus, Option<string>, seq<string>, OllamaService)
      reads this
    {
      (config, connectionStatus, errorMessage, availableModels, service)
    }

    /** The part of the state a send changes. */
    ghost function View(): ChatView
      reads this, history
    {
      ChatView(messages, currentSessionId, sessions, input, isLoading, isStreaming, streamingMessageId, history.records)
    }

    /** `handleSendMessage()` for one completed or failed exchange. The
        `probe` answers the re-check of a failed connection; `response` is the
        chat endpoint's answer. The request sent, if any, is returned. */
    method HandleSendMessage(clock: SendClock, probe: TagsResponse, probeTime: int, response: ChatResponse, parse: Parser)
      returns (ghost sent: Option<ChatRequest>)
      modifies this, history, service, cache
      ensures service == old(service) && config == old(config) && availableModels == old(availableModels)
      ensures var g := SendGate(old(input), old(isLoading), old(connectionStatus), old(service.config).model, probe);
              cache.entries == if g != Ignored && old(connectionStatus) == StatusError && probe.Listed?
                               then old(cache.entries)[old(service.config).baseUrl := CacheEntry(ListedNames(probe.models), probeTime)]
                               else old(cache.entries)
      ensures var g := SendGate(old(input), old(isLoading), old(connectionStatus), old(service.config).model, probe);
              g == Ignored ==> sent == None && unchanged(this) && unchanged(history) && unchanged(service) && unchanged(cache)
      ensures var g := SendGate(old(input), old(isLoading), old(connectionStatus), old(service.config).model, probe);
              g.Refused? ==>
                && sent == None && View() == old(View()) && errorMessage == Some(g.error)
                && connectionStatus == old(connectionStatus) && unchanged(service)
      ensures SendGate(old(input), old(isLoading), old(connectionStatus), old(service.config).model, probe) == Proceed ==>
                && View() == Exchange(old(View()), clock, ResponseOutcome(response, parse))
                && sent == Some(ExchangeRequest(old(View()), old(service.config).model, old(config).systemPrompt, clock))
                && connectionStatus == (if old(connectionStatus) == StatusError then StatusConnected else old(connectionStatus))
                && errorMessage == old(errorMessage)
                && service.config == old(service.config) && service.controller == None
                && service.created == old(service.created) + 1
                && service.aborted == old(service.aborted) + Aborting(old(service.controller))
    {
      sent := None;
      ghost var g := SendGate(input, isLoading, connectionStatus, service.config.model, probe);
      if Trim(input) == [] || isLoading {
        assert g == Ignored;
        return;
      }
      if connectionStatus == StatusError {
        var result := service.CheckConnection(cache, probe, probeTime);
        if result.NotConnected? {
          assert g == Refused(OrDefault(result.error, ConnectionFailedDefault));
          errorMessage := Some(OrDefault(result.error, ConnectionFailedDefault));
          return;
        }
        connectionStatus := StatusConnected;
      }
      assert g == Proceed;
      ghost var probed := cache.entries;
      var request := SendExchange(clock, response, parse);
      assert cache.entries == probed;
      sent := Some(request);
    }

    /** The part of `handleSendMessage()` after its guard. Both saves see the
        session id and listing as they were when the handler started. */
    method SendExchange(clock: SendClock, response: ChatResponse, parse: Parser) returns (request: ChatRequest)
      modifies this, history, service
      ensures View() == Exchange(old(View()), clock, ResponseOutcome(response, parse))
      ensures request == ExchangeRequest(old(View()), old(service.config).model, old(config).systemPrompt, clock)
      ensures service == old(service) && errorMessage == old(errorMessage) && connectionStatus == old(connectionStatus)
      ensures config == old(config) && availableModels == old(availableModels)
      ensures service.config == old(service.config) && service.controller == None
      ensures service.created == old(service.created) + 1
      ensures service.aborted == old(service.aborted) + Aborting(old(service.controller))
    {
      // The values the handler closed over.
      var seenId, seen := currentSessionId, sessions;
      ghost var v := View();
      ghost var before := (service.config, service.controller, service.created, service.aborted);
      var updated, base, id := StartExchange(clock, Trim(input));
      assert updated == WithPrompt(v, clock);
      assert history.records == v.store[FirstSave(v, clock).id := FirstSave(v, clock)];
      assert (service.config, service.controller, service.created, service.aborted) == before;

      var apiMessages := PromptPrefix(config.systemPrompt, clock.promptAt) + updated;
      var acc, failure;
      request, acc, failure := StreamReply(base, id, apiMessages, response, parse);
      ghost var outcome := ResponseOutcome(response, parse);
      ghost var after := (service.config, service.controller, service.created, service.aborted);
      assert after == (before.0, None, before.2 + 1, before.3 + Aborting(before.1));
      ghost var shown := messages;
      assert shown == Streamed(WithPrompt(v, clock) + [Message(Assistant, [], id)], id, outcome.deltas);
      FinishExchange(seenId, seen, updated, id, acc, failure, clock);
      assert (service.config, service.controller, service.created, service.aborted) == after;

      assert View() == Exchange(v, clock, outcome) by {
        ExchangeByOutcome(v, clock, outcome);
        var first := FirstSave(v, clock);
        var afterFirst := v.store[first.id := first];
        if failure.None? {
          var final := FinalSave(v, clock, outcome.deltas);
          assert final == SessionToSave(seenId, seen, updated + [Message(Assistant, acc, id)], clock.finalSaveAt, clock.finalUuid);
          var store := afterFirst[final.id := final];
          assert View() == ChatView(shown, if Truthy(v.currentSessionId) then v.currentSessionId else Some(final.id),
                                    store, [], false, false, None, store);
        } else {
          assert View() == ChatView(shown + [ErrorNotice(outcome.failure.value, clock.errorAt)],
                                    if Truthy(v.currentSessionId) then v.currentSessionId else Some(first.id),
                                    afterFirst, [], false, false, None, afterFirst);
        }
      }
    }

    /** Show the (trimmed) prompt, clear the input, raise the flags, save the
        session with the prompt and add the empty placeholder for the reply. */
    method StartExchange(clock: SendClock, prompt: string) returns (updated: seq<Message>, base: seq<Message>, id: int)
      modifies this, history
      ensures updated == old(messages) + [Message(User, prompt, clock.userAt)]
      ensures id == clock.streamAt + 1 && base == updated + [Message(Assistant, [], id)] && messages == base
      ensures var first := SessionToSave(old(currentSessionId), old(sessions), updated, clock.firstSaveAt, clock.firstUuid);
              && history.records == old(history.records)[first.id := first] && sessions == history.records
              && currentSessionId == (if Truthy(old(currentSessionId)) then old(currentSessionId) else Some(first.id))
      ensures input == [] && isLoading && isStreaming && streamingMessageId == Some(id)
      ensures config == old(config) && connectionStatus == old(connectionStatus)
      ensures errorMessage == old(errorMessage) && availableModels == old(availableModels) && service == old(service)
    {
      var seenId, seen := currentSessionId, sessions;
      updated := messages + [Message(User, prompt, clock.userAt)];
      messages := updated;
      input := [];
      isLoading := true;
      isStreaming := true;
      SaveCurrentSession(seenId, seen, updated, clock.firstSaveAt, clock.firstUuid);
      id := clock.streamAt + 1;
      streamingMessageId := Some(id);
      base := messages + [Message(Assistant, [], id)];
      messages := base;
    }

    /** After the stream: save the transcript with the reply, or show the
        error without saving it; then clear the flags. */
    method FinishExchange(seenId: Option<string>, seen: map<string, ChatSession>, updated: seq<Message>,
                          id: int, acc: string, failure: Option<string>, clock: SendClock)
      modifies this, history
      ensures var final := SessionToSave(seenId, seen, updated + [Message(Assistant, acc, id)], clock.finalSaveAt, clock.finalUuid);
              failure.None? ==>
                && messages == old(messages)
                && history.records == old(history.records)[final.id := final] && sessions == history.records
                && currentSessionId == (if Truthy(seenId) then old(currentSessionId) else Some(final.id))
      ensures failure.Some? ==>
                && messages == old(messages) + [ErrorNotice(failure.value, clock.errorAt)]
                && history.records == old(history.records) && sessions == old(sessions)
                && currentSessionId == old(currentSessionId)
      ensures !isLoading && !isStreaming && streamingMessageId == None
      ensures config == old(config) && input == old(input) && connectionStatus == old(connectionStatus)
      ensures errorMessage == old(errorMessage) && availableModels == old(availableModels) && service == old(service)
    {
      if failure.None? {
        SaveCurrentSession(seenId, seen, updated + [Message(Assistant, acc, id)], clock.finalSaveAt, clock.finalUuid);
      } else {
        messages := messages + [ErrorNotice(failure.value, clock.errorAt)];
      }
      isLoading := false;
      isStreaming := false;
      streamingMessageId := None;
    }

    /** `for await (const chunk of ollamaService.current.streamChat(...))`:
        the request goes out, and each delta it yields is shown in the
        placeholder. */
    method StreamReply(base: seq<Message>, id: int, apiMessages: seq<Message>, response: ChatResponse, parse: Parser)
      returns (request: ChatRequest, acc: string, failure: Option<string>)
      requires messages == base
      modifies this, service
      ensures request == ChatRequest(old(service.config).model, Wire(apiMessages), true)
      ensures var outcome := ResponseOutcome(response, parse);
              && acc == Concat(outcome.deltas) && failure == outcome.failure
              && messages == Streamed(base, id, outcome.deltas)
      ensures View() == old(View()).(messages := messages) && Surroundings() == old(Surroundings())
      ensures service.config == old(service.config) && service.controller == None
      ensures service.created == old(service.created) + 1
      ensures service.aborted == old(service.aborted) + Aborting(old(service.controller))
    {
      var deltas;
      request, deltas, failure := service.StreamChat(apiMessages, response, parse);
      acc := ShowDeltas(base, id, deltas);
    }

    /** The `for await` loop over the stream: each delta is appended to the
        accumulated text, which replaces the placeholder's content. */
    method ShowDeltas(base: seq<Message>, id: int, deltas: seq<string>) returns (acc: string)
      requires messages == base
      modifies this
      ensures acc == Concat(deltas) && messages == Streamed(base, id, deltas)
      ensures View() == old(View()).(messages := messages) && Surroundings() == old(Surroundings())
    {
      acc := [];
      var k := 0;
      while k < |deltas|
        invariant 0 <= k <= |deltas|
        invariant acc == Concat(deltas[..k])
        invariant messages == Streamed(base, id, deltas[..k])
        invariant View() == old(View()).(messages := messages) && Surroundings() == old(Surroundings())
      {
        StreamedPrefixStep(base, id, deltas, k);
        acc := acc + deltas[k];
        messages := ReplaceContent(messages, id, acc);
        k := k + 1;
      }
      assert deltas[..k] == deltas;
    }

    /** `handleStop()`: abort the request in flight and clear the flags. */
    method HandleStop()
      modifies this, service
      ensures service == old(service) && service.controller == None
      ensures service.aborted == old(service.aborted) + Aborting(old(service.controller))
      ensures service.config == old(service.config) && service.created == old(service.created)
      ensures !isLoading && !isStreaming && streamingMessageId == None
      ensures config == old(config) && messages == old(messages) && currentSessionId == old(currentSessionId)
      ensures sessions == old(sessions) && input == old(input) && connectionStatus == old(connectionStatus)
      ensures errorMessage == old(errorMessage) && availableModels == old(availableModels)
    {
      service.CancelRequest();
      isLoading := false;
      isStreaming := false;
      streamingMessageId := None;
    }
  }
}

/** The rest of the Ollama client: the per-URL model-list cache with its
    five-minute freshness window, `getModels`, the connection check with its
    model-name matching and failure messages, and the single abort-controller
    slot that `streamChat` and `cancelRequest` manage. */
module OllamaClient {
  import opened Strings
  import opened Types
  import opened OllamaStream

  /** Five minutes, in milliseconds. */
  const CacheDuration: int := 5 * 60 * 1000

  /** What the cache stores for one base URL. */
  datatype CacheEntry = CacheEntry(models: seq<string>, timestamp: int)

  /** The lookup of `getCachedModels`: an entry counts only while
      `now - timestamp` is strictly below the window. An empty list is still
      an answer. */
  function CachedModels(entries: map<string, CacheEntry>, baseUrl: string, now: int): Option<seq<string>>
  {
    if baseUrl in entries && now - entries[baseUrl].timestamp < CacheDuration
    then Some(entries[baseUrl].models)
    else None
  }

  /** What `fetch` of `/api/tags` produced: a rejected fetch (its error name and
      message; the 5-second `AbortSignal.timeout` rejects with a
      `TimeoutError`), a non-OK status, a body that is not JSON, or the parsed
      `models` field (absent or a list of names). */
  datatype TagsResponse =
    | Unreachable(errorName: string, errorMessage: string)
    | NotOk
    | Malformed(errorMessage: string)
    | Listed(models: Option<seq<string>>)

  /** `(data.models || []).map(m => m.name)` */
  function ListedNames(models: Option<seq<string>>): seq<string>
  {
    if models.Some? then models.value else []
  }

  /** The result of `getModels` and the cache it leaves behind; `usedNetwork`
      says whether it fetched. */
  datatype Fetched = Fetched(models: seq<string>, entries: map<string, CacheEntry>, usedNetwork: bool)

  /** `getModels(forceRefresh)`: a fresh cache entry answers unless the refresh
      is forced; otherwise fetch, and on success overwrite the entry of this
      exact URL; any failure answers `[]`. */
  function GetModelsSpec(entries: map<string, CacheEntry>, baseUrl: string, forceRefresh: bool,
                         now: int, response: TagsResponse, writeTime: int): (r: Fetched)
    ensures forceRefresh ==> r.usedNetwork
    ensures !r.usedNetwork ==> CachedModels(entries, baseUrl, now) == Some(r.models) && r.entries == entries
    ensures r.usedNetwork && !response.Listed? ==> r.models == [] && r.entries == entries
    ensures (r.usedNetwork && response.Listed?)
            ==> (r.models == ListedNames(response.models)
                 && r.entries == entries[baseUrl := CacheEntry(r.models, writeTime)])
  {
    var cached := if forceRefresh then None else CachedModels(entries, baseUrl, now);
    if cached.Some? then Fetched(cached.value, entries, false)
    else
      match response
      case Listed(ms) =>
        var names := ListedNames(ms);
        Fetched(names, entries[baseUrl := CacheEntry(names, writeTime)], true)
      case _ => Fetched([], entries, true)
  }

  /** A forced refresh always goes to the network. */
  lemma ForcedRefreshFetches(entries: map<string, CacheEntry>, baseUrl: string, now: int,
                             response: TagsResponse, writeTime: int)
    ensures GetModelsSpec(entries, baseUrl, true, now, response, writeTime).usedNetwork
  {
  }

  /** A fresh entry is returned as it is, even an empty list, without a fetch. */
  lemma FreshEntryAnswers(entries: map<string, CacheEntry>, baseUrl: string, now: int,
                          response: TagsResponse, writeTime: int)
    requires baseUrl in entries && now - entries[baseUrl].timestamp < CacheDuration
    ensures GetModelsSpec(entries, baseUrl, false, now, response, writeTime)
            == Fetched(entries[baseUrl].models, entries, false)
  {
  }

  /** Two calls within the window: after a successful fetch, a second call that
      is not forced does not fetch again and returns the same list. */
  lemma SecondCallWithinWindowIsCached(entries: map<string, CacheEntry>, baseUrl: string, force: bool,
                                       now1: int, response1: TagsResponse, writeTime: int,
                                       now2: int, response2: TagsResponse, writeTime2: int)
    requires GetModelsSpec(entries, baseUrl, force, now1, response1, writeTime).usedNetwork
    requires response1.Listed?
    requires now2 - writeTime < CacheDuration
    ensures var first := GetModelsSpec(entries, baseUrl, force, now1, response1, writeTime);
            GetModelsSpec(first.entries, baseUrl, false, now2, response2, writeTime2)
            == Fetched(first.models, first.entries, false)
  {
  }

  /** A failed fetch answers `[]` and leaves the cache as it was; any call
      changes at most the entry of its own URL. */
  lemma FetchFailureKeepsCache(entries: map<string, CacheEntry>, baseUrl: string, force: bool,
                               now: int, response: TagsResponse, writeTime: int)
    ensures var r := GetModelsSpec(entries, baseUrl, force, now, response, writeTime);
            && (r.usedNetwork && !response.Listed? ==> r.models == [] && r.entries == entries)
            && (forall url :: url != baseUrl ==> (url in r.entries <==> url in entries))
            && (forall url :: url != baseUrl && url in entries ==> r.entries[url] == entries[url])
  {
  }

  // ---------------------------------------------------------------------------
  // Connection check

  datatype ConnectionResult = Connected | NotConnected(error: string)

  const UnreachableMessage: string := "Ollama server unreachable. Check URL or CORS settings."
  const TimeoutMessage: string := "Connection timeout. Is Ollama running and accessible?"
  const CorsMessage: string := "CORS error. Start Ollama with: OLLAMA_ORIGINS=\"*\" ollama serve"
  const FailedMessage: string := "Connection failed. Is Ollama running? Check console for details."
  const TimeoutErrorName: string := "TimeoutError"
  const LatestTag: string := ":latest"

  /** `name.replace(':latest', '')`: the first occurrence is removed, wherever
      it is. */
  function Normalize(name: string): string
  {
    ReplaceFirst(name, LatestTag, [])
  }

  /** The predicate of `models.some(...)` in `checkConnection`. */
  predicate ModelMatches(name: string, model: string)
  {
    || name == model
    || Normalize(name) == Normalize(model)
    || name == Normalize(model) + LatestTag
  }

  /** The `catch` of `checkConnection`: a timeout first, then anything whose
      message mentions CORS, then a generic failure. */
  function ClassifyFailure(errorName: string, message: string): (r: string)
    ensures r == TimeoutMessage || r == CorsMessage || r == FailedMessage
    ensures r == TimeoutMessage <==> errorName == TimeoutErrorName
    ensures r == CorsMessage <==> errorName != TimeoutErrorName && Includes(message, "CORS")
  {
    if errorName == TimeoutErrorName then TimeoutMessage
    else if Includes(message, "CORS") then CorsMessage
    else FailedMessage
  }

  /** The three sentences of the error for a configured model the server does
      not list. */
  function ModelNotFound(model: string): string
  {
    "Model '" + model + "' not found. "
  }

  function AvailableModels(listing: string): string
  {
    "Available models: " + listing + "."
  }

  function PullHint(model: string): string
  {
    " Run 'ollama pull " + model + "' to download it."
  }

  /** The error for a configured model the server does not list: it names the
      model and lists the available ones joined by ", ", or "none". */
  function NotFoundMessage(model: string, names: seq<string>): (r: string)
    ensures Includes(r, ModelNotFound(model))
    ensures Join(names, ", ") == [] ==> Includes(r, AvailableModels("none"))
    ensures Join(names, ", ") != [] ==> Includes(r, AvailableModels(Join(names, ", ")))
  {
    var available := Join(names, ", ");
    var listing := if available == [] then "none" else available;
    IncludesPiece([], ModelNotFound(model), AvailableModels(listing) + PullHint(model));
    IncludesPiece(ModelNotFound(model), AvailableModels(listing), PullHint(model));
    ModelNotFound(model) + AvailableModels(listing) + PullHint(model)
  }

  /** Every name the server lists appears in the not-found error. */
  lemma NotFoundListsEveryModel(model: string, names: seq<string>, i: nat)
    requires i < |names|
    ensures Includes(NotFoundMessage(model, names), names[i])
  {
    var m := NotFoundMessage(model, names);
    if names[i] == [] {
      IncludesPiece([], [], m);
    } else {
      var a, b := JoinPieces(names, ", ", i);
      IncludesPiece(a, names[i], b);
      IncludesWithin("Available models: ", a + names[i] + b, ".", names[i]);
      IncludesWithin(ModelNotFound(model), AvailableModels(a + names[i] + b), PullHint(model), names[i]);
    }
  }

  /** The verdict of `checkConnection` for the configured model. */
  function ConnectionSpec(model: string, response: TagsResponse): (r: ConnectionResult)
    ensures r.Connected? ==> response.Listed?
    ensures !response.Listed?
            ==> (r.NotConnected? && r.error in {UnreachableMessage, TimeoutMessage, CorsMessage, FailedMessage})
    ensures response.Malformed? ==> r == NotConnected(ClassifyFailure("SyntaxError", response.errorMessage))
  {
    match response
    case Unreachable(n, m) => NotConnected(ClassifyFailure(n, m))
    case NotOk => NotConnected(UnreachableMessage)
    case Malformed(m) => NotConnected(ClassifyFailure("SyntaxError", m))
    case Listed(ms) =>
      var names := ListedNames(ms);
      if exists i :: 0 <= i < |names| && ModelMatches(names[i], model) then Connected
      else NotConnected(NotFoundMessage(model, names))
  }

  /** The check succeeds exactly when the server answered with a list holding
      a matching name; a non-OK status is always reported as unreachable, and
      a missing model names the configured model. */
  lemma ConnectionVerdicts(model: string, response: TagsResponse)
    ensures ConnectionSpec(model, response).Connected? <==>
              response.Listed? && exists i :: 0 <= i < |ListedNames(response.models)|
                                              && ModelMatches(ListedNames(response.models)[i], model)
    ensures response.NotOk? ==> ConnectionSpec(model, response) == NotConnected(UnreachableMessage)
    ensures (response.Unreachable? && response.errorName == TimeoutErrorName)
              ==> ConnectionSpec(model, response) == NotConnected(TimeoutMessage)
    ensures (response.Listed? && !ConnectionSpec(model, response).Connected?)
              ==> ConnectionSpec(model, response) == NotConnected(NotFoundMessage(model, ListedNames(response.models)))
  {
  }

  /** A name containing `:latest` at most as its suffix. */
  predicate TagOnlyAsSuffix(s: string)
  {
    forall j :: 0 <= j <= |s| && OccursAt(s, LatestTag, j) ==> j == |s| - |LatestTag|
  }

  /** Stripping a trailing `:latest`. */
  function StripLatestSuffix(s: string): string
  {
    if |s| >= |LatestTag| && s[|s| - |LatestTag|..] == LatestTag then s[..|s| - |LatestTag|] else s
  }

  lemma NormalizeStripsSuffix(s: string)
    requires TagOnlyAsSuffix(s)
    ensures Normalize(s) == StripLatestSuffix(s)
  {
    match IndexOf(s, LatestTag)
    case None =>
      if |s| >= |LatestTag| && s[|s| - |LatestTag|..] == LatestTag {
        assert OccursAt(s, LatestTag, |s| - |LatestTag|);
      }
    case Some(i) =>
      assert i == |s| - |LatestTag|;
      assert s[i + |LatestTag|..] == [];
  }

  /** For names that carry `:latest` at most at the end, the three-way rule of
      `checkConnection` is the same as comparing the names with a trailing
      `:latest` stripped from both. */
  lemma {:induction false} MatchingIsSuffixInsensitive(name: string, model: string)
    requires TagOnlyAsSuffix(name) && TagOnlyAsSuffix(model)
    ensures ModelMatches(name, model) <==> StripLatestSuffix(name) == StripLatestSuffix(model)
  {
    NormalizeStripsSuffix(name);
    NormalizeStripsSuffix(model);
    if name == Normalize(model) + LatestTag {
      assert name[|name| - |LatestTag|..] == LatestTag;
    }
  }

  /** The configured `llama3` is found as `llama3:latest`. */
  lemma LatestTagIsFound()
    ensures ConnectionSpec("llama3", Listed(Some(["llama3:latest"]))) == Connected
  {
    var name := "llama3:latest";
    assert IndexOf("llama3", LatestTag) == None;
    assert ModelMatches(name, "llama3");
    assert ListedNames(Some([name]))[0] == name;
  }

  /** `replace` removes the first `:latest` anywhere: a configured
      `a:latestb` is taken to be the server's `ab`. */
  lemma TagInsideNameIsRemoved()
    ensures ModelMatches("ab", "a:latestb")
  {
    var m := "a:latestb";
    assert OccursAt(m, LatestTag, 1);
    assert m[0..|LatestTag|][0] == 'a' != LatestTag[0];
    assert IndexOf(m, LatestTag) == Some(1);
    assert Normalize(m) == "ab";
    assert IndexOf("ab", LatestTag) == None;
  }

  // ---------------------------------------------------------------------------
  // State: the cache table and the service object

  /** The model-list cache (an IndexedDB object store keyed by `baseUrl`). */
  class ModelCache {
    var entries: map<string, CacheEntry>

    constructor ()
      ensures entries == map[]
    {
      entries := map[];
    }

    /** `setCachedModels`: one row per URL, last write wins. */
    method Put(baseUrl: string, models: seq<string>, now: int)
      modifies this
      ensures entries == old(entries)[baseUrl := CacheEntry(models, now)]
    {
      entries := entries[baseUrl := CacheEntry(models, now)];
    }
  }

  /** One request on the wire: `{role, content}` per message. */
  datatype WireMessage = WireMessage(role: string, content: string)
  datatype ChatRequest = ChatRequest(model: string, messages: seq<WireMessage>, stream: bool)

  function Wire(messages: seq<Message>): (r: seq<WireMessage>)
    ensures |r| == |messages|
    ensures forall i :: 0 <= i < |r| ==> r[i] == WireMessage(RoleName(messages[i].role), messages[i].content)
  {
    if messages == [] then []
    else [WireMessage(RoleName(messages[0].role), messages[0].content)] + Wire(messages[1..])
  }

  /** Which controller `cancelRequest` aborts, if any. */
  function Aborting(slot: Option<nat>): set<nat>
  {
    if slot.Some? then {slot.value} else {}
  }

  class OllamaService {
    var config: OllamaConfig
    /** The `abortController` slot; controllers are named by the order in which
        they were created. */
    var controller: Option<nat>
    /** Controllers created so far. */
    var created: nat
    /** Controllers whose `abort()` has been called. */
    var aborted: set<nat>

    constructor (config: OllamaConfig)
      ensures this.config == config && controller == None && created == 0 && aborted == {}
    {
      this.config := config;
      controller := None;
      created := 0;
      aborted := {};
    }

    /** Abort the request in flight, if any, and empty the slot; a second call
        does nothing. */
    method CancelRequest()
      modifies this
      ensures controller == None
      ensures aborted == old(aborted) + Aborting(old(controller))
      ensures config == old(config) && created == old(created)
    {
      if controller.Some? {
        aborted := aborted + {controller.value};
        controller := None;
      }
    }

    /** `streamChat`: cancel the previous request, install a new controller,
        send the messages with `stream: true` and hand the consumer the deltas
        and the way the stream ended; the slot is empty afterwards. */
    method StreamChat(messages: seq<Message>, response: ChatResponse, parse: Parser)
      returns (request: ChatRequest, deltas: seq<string>, failure: Option<string>)
      modifies this
      ensures request == ChatRequest(config.model, Wire(messages), true)
      ensures StreamResult(deltas, failure) == ResponseOutcome(response, parse)
      ensures controller == None && created == old(created) + 1
      ensures aborted == old(aborted) + Aborting(old(controller))
      ensures config == old(config)
    {
      CancelRequest();
      controller := Some(created);
      created := created + 1;
      request := ChatRequest(config.model, Wire(messages), true);
      match response {
      case FetchRejected(name, message) =>
        deltas := [];
        failure := if name == AbortErrorName then None else Some(message);
      case HttpError(statusText, field) =>
        deltas := [];
        var errorMsg := "Ollama API Error: " + statusText;
        if Truthy(field) {
          errorMsg := field.value;
        }
        failure := Some(errorMsg);
      case NoBody =>
        deltas := [];
        failure := Some(NoBodyMessage);
      case Body(chunks, ending) =>
        deltas, failure := ReadBody(chunks, ending, parse);
      }
      controller := None;
    }

    /** `getModels(forceRefresh)` against the shared cache. */
    method GetModels(cache: ModelCache, forceRefresh: bool, now: int, response: TagsResponse, writeTime: int)
      returns (models: seq<string>, usedNetwork: bool)
      modifies cache
      ensures Fetched(models, cache.entries, usedNetwork)
              == GetModelsSpec(old(cache.entries), config.baseUrl, forceRefresh, now, response, writeTime)
    {
      if !forceRefresh {
        var cached := CachedModels(cache.entries, config.baseUrl, now);
        if cached.Some? {
          return cached.value, false;
        }
      }
      usedNetwork := true;
      match response
      case Listed(ms) =>
        models := ListedNames(ms);
        cache.Put(config.baseUrl, models, writeTime);
      case _ =>
        models := [];
    }

    /** `checkConnection()`: on a listed answer the names are cached before
        the configured model is looked for. */
    method CheckConnection(cache: ModelCache, response: TagsResponse, writeTime: int)
      returns (result: ConnectionResult)
      modifies cache
      ensures result == ConnectionSpec(config.model, response)
      ensures cache.entries == if response.Listed?
                               then old(cache.entries)[config.baseUrl := CacheEntry(ListedNames(response.models), writeTime)]
                               else old(cache.entries)
    {
      match response
      case Unreachable(name, message) =>
        result := NotConnected(ClassifyFailure(name, message));
      case NotOk =>
        result := NotConnected(UnreachableMessage);
      case Malformed(message) =>
        result := NotConnected(ClassifyFailure("SyntaxError", message));
      case Listed(ms) =>
        var names := ListedNames(ms);
        cache.Put(config.baseUrl, names, writeTime);
        var found := exists i :: 0 <= i < |names| && ModelMatches(names[i], config.model);
        if found {
          result := Connected;
        } else {
          result := NotConnected(NotFoundMessage(config.model, names));
        }
    }
  }
}

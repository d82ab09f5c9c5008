/**
 * The bot's message routing and model commands: which messages reach the
 * memory/model pipeline, how a search query is cut out of a message, what
 * one pipeline run does to the store, and the `!switch` rules for the model.
 */
module Router {
  import opened Wrappers
  import opened Text
  import opened MessageStore
  import opened Ranker
  import opened Retrieval

  /** The bot's command prefix: messages starting with it are commands, never prompts. */
  const CommandPrefix: string := "!"

  const SearchMarker: string := "search:"
  const LookUpMarker: string := "look up"

  const ErrorNotice: string := "\U{26A0}\U{FE0F} An error occurred while processing your message."

  /** Python's `s.startswith(p)`. */
  predicate StartsWith(s: string, p: string) {
    |p| <= |s| && s[..|p|] == p
  }

  /** An incoming Discord message, as the handler reads it. */
  datatype Incoming = Incoming(authorIsBot: bool, channelId: int, authorId: string, content: string)

  /** The `on_message` guard: a human's non-command message in the allowed channel. */
  predicate ReachesPipeline(m: Incoming, allowedChannel: int) {
    !m.authorIsBot && m.channelId == allowedChannel && !StartsWith(m.content, CommandPrefix)
  }

  /** Both markers are already lower-case, so a case-sensitive match is also a case-insensitive one. */
  lemma MarkersAreLowerCase()
    ensures ToLower(SearchMarker) == SearchMarker
    ensures ToLower(LookUpMarker) == LookUpMarker
  {
    var s := ToLower(SearchMarker);
    forall i | 0 <= i < |SearchMarker|
      ensures s[i] == SearchMarker[i]
    {
      assert 'a' <= SearchMarker[i] <= 'z' || SearchMarker[i] == ':';
    }
    var l := ToLower(LookUpMarker);
    forall i | 0 <= i < |LookUpMarker|
      ensures l[i] == LookUpMarker[i]
    {
      assert 'a' <= LookUpMarker[i] <= 'z' || LookUpMarker[i] == ' ';
    }
  }

  /**
   * The search query of a message, if it asks for a search: the marker test
   * is on the lower-cased message, `search:` before `look up`, but the split
   * is on the message as written.
   */
  function SearchQuery(content: string): (q: Option<string>)
    ensures q.Some? <==> Contains(ToLower(content), SearchMarker) || Contains(ToLower(content), LookUpMarker)
    ensures q.Some? ==> Trimmed(q.value)
  {
    var lower := ToLower(content);
    if Contains(lower, SearchMarker) then Some(Strip(AfterFirst(content, SearchMarker)))
    else if Contains(lower, LookUpMarker) then Some(Strip(AfterFirst(content, LookUpMarker)))
    else None
  }

  /**
   * `search:` written in lower case takes priority: the query is the text
   * after its first occurrence, stripped, whatever `look up` the message also
   * holds.
   */
  lemma SearchQueryAfterSearchMarker(content: string, i: nat)
    requires OccursAt(content, SearchMarker, i)
    requires forall j :: 0 <= j < i ==> !OccursAt(content, SearchMarker, j)
    ensures SearchQuery(content) == Some(Strip(content[i + |SearchMarker|..]))
  {
    MarkersAreLowerCase();
    LowerKeepsOccurrence(content, SearchMarker, i);
    OccurrenceContains(ToLower(content), SearchMarker, i);
    AfterFirstAt(content, SearchMarker, i);
  }

  /** Without any `search:`, a lower-case `look up` gives the text after its first occurrence, stripped. */
  lemma SearchQueryAfterLookUp(content: string, i: nat)
    requires !Contains(ToLower(content), SearchMarker)
    requires OccursAt(content, LookUpMarker, i)
    requires forall j :: 0 <= j < i ==> !OccursAt(content, LookUpMarker, j)
    ensures SearchQuery(content) == Some(Strip(content[i + |LookUpMarker|..]))
  {
    MarkersAreLowerCase();
    LowerKeepsOccurrence(content, LookUpMarker, i);
    OccurrenceContains(ToLower(content), LookUpMarker, i);
    AfterFirstAt(content, LookUpMarker, i);
  }

  /**
   * A marker that matches only case-insensitively (`Search:`, `LOOK UP`)
   * still triggers a search, but the split finds nothing and the query is the
   * whole message, stripped.
   */
  lemma CaseOnlyMarkerQueriesWholeMessage(content: string)
    requires || (Contains(ToLower(content), SearchMarker) && !Contains(content, SearchMarker))
             || (!Contains(ToLower(content), SearchMarker) && Contains(ToLower(content), LookUpMarker)
                 && !Contains(content, LookUpMarker))
    ensures SearchQuery(content) == Some(Strip(content))
  {
  }

  /** A message with neither marker in any case asks for no search. */
  lemma NoMarkerNoSearch(content: string)
    requires forall i :: 0 <= i <= |content| ==> !OccursAt(ToLower(content), SearchMarker, i)
    requires forall i :: 0 <= i <= |content| ==> !OccursAt(ToLower(content), LookUpMarker, i)
    ensures SearchQuery(content).None?
  {
  }

  /**
   * What one pipeline run needs from outside: the retrieval oracles, the web
   * search (`None` when it raises), the chat model's answer (given the model in
   * use, the message, the retrieved history and the internet context; `None`
   * when it raises), and the bot's own user id.
   */
  datatype Services<!E, !C> = Services(
    oracles: Oracles<E, C>,
    search: string -> Option<string>,
    invoke: (ChatModel, string, seq<ChatMessage>, string) -> Option<string>,
    botId: string)

  /** The clock readings of one run and which of its fallible steps succeed. */
  datatype Effects = Effects(now: real, userSavedAt: real, replySavedAt: real,
                             userWriteOk: bool, replyWriteOk: bool, sendOk: bool)

  /** What a run leaves behind: the store, what was sent to the channel, and the web query it made. */
  datatype Handled<E> = Handled(store: Store<E>, sent: seq<string>, searched: Option<string>)

  /** The text added after the retrieved history when a search was made. */
  function InternetContext(results: string): string {
    "\nInternet Search Results (DuckDuckGo):\n" + results + "\n"
  }

  /** The save of the user's message, as the pipeline issues it. */
  function UserSave(m: Incoming, fx: Effects): SaveRequest {
    SaveRequest(m.authorId, m.content, false, fx.userSavedAt, fx.userWriteOk)
  }

  /** The save of the model's reply, as the pipeline issues it. */
  function ReplySave(botId: string, reply: string, fx: Effects): SaveRequest {
    SaveRequest(botId, reply, true, fx.replySavedAt, fx.replyWriteOk)
  }

  /**
   * What a run that reaches the model call asks of the outside: the query it
   * passes to the web search, if it searches, and the model's reply (`None`
   * when the search or the model raises).
   */
  datatype ModelAnswer = ModelAnswer(searched: Option<string>, reply: Option<string>)

  /**
   * Retrieval for the asker, the web search when the message asks for one,
   * then the model call in use. The search is made exactly for the query the
   * message's markers give, and a raising search ends the run before the
   * model is called.
   */
  function ModelReply<E, C>(st: Store<E>, sv: Services<E, C>, model: ChatModel, m: Incoming, fx: Effects): (a: ModelAnswer)
    requires SearchBounded(st, sv.oracles, m.content, Defaults)
    ensures a.searched == SearchQuery(m.content)
    ensures a.searched.Some? && sv.search(a.searched.value).None? ==> a.reply.None?
  {
    var longTerm := GetRelevantLongTermHistory(st, sv.oracles, m.content, Some(m.authorId), fx.now, Defaults);
    match SearchQuery(m.content)
    case None => ModelAnswer(None, sv.invoke(model, m.content, longTerm, ""))
    case Some(q) =>
      match sv.search(q)
      case None => ModelAnswer(Some(q), None)
      case Some(results) => ModelAnswer(Some(q), sv.invoke(model, m.content, longTerm, InternetContext(results)))
  }

  /**
   * What the model is given: the model in use, the message, the asker's
   * retrieved long-term history (threshold 0.7, author weight 0.5), and the
   * internet context of the search results when a search was made and
   * answered, the empty text when no search was asked for.
   */
  lemma ModelReplyCases<E, C>(st: Store<E>, sv: Services<E, C>, model: ChatModel, m: Incoming, fx: Effects)
    requires SearchBounded(st, sv.oracles, m.content, Defaults)
    ensures var lt := GetRelevantLongTermHistory(st, sv.oracles, m.content, Some(m.authorId), fx.now, Defaults);
      var a := ModelReply(st, sv, model, m, fx);
      && (SearchQuery(m.content).None? ==> a.reply == sv.invoke(model, m.content, lt, ""))
      && (SearchQuery(m.content).Some? && sv.search(SearchQuery(m.content).value).Some? ==>
            a.reply == sv.invoke(model, m.content, lt,
                                 InternetContext(sv.search(SearchQuery(m.content).value).value)))
  {
  }

  /**
   * The search oracle is consulted only at the message's query: two search
   * oracles that agree there, or any two when the message asks for no search,
   * give the same answer.
   */
  lemma ModelReplySearchesOnlyItsQuery<E, C>(st: Store<E>, sv: Services<E, C>, search2: string -> Option<string>,
                                            model: ChatModel, m: Incoming, fx: Effects)
    requires SearchBounded(st, sv.oracles, m.content, Defaults)
    requires SearchQuery(m.content).Some? ==>
      search2(SearchQuery(m.content).value) == sv.search(SearchQuery(m.content).value)
    ensures ModelReply(st, sv.(search := search2), model, m, fx) == ModelReply(st, sv, model, m, fx)
  {
  }

  /**
   * The part of a run after the model has answered: save the user's
   * message, then the reply, then send the reply. A failed write raises, so
   * a failed first write skips the second, and either ends the run with the
   * error notice.
   */
  function AfterAnswer<E>(st: Store<E>, embed: string -> E, botId: string, m: Incoming, reply: string,
                          fx: Effects, query: Option<string>): (h: Handled<E>)
    ensures |st.index| < |h.store.index| <= |st.index| + 2 && h.store.index[..|st.index|] == st.index
    ensures h.searched == query && |h.sent| == 1
  {
    var u := SaveMessage(st, embed, m.authorId, m.content, false, fx.userSavedAt, fx.userWriteOk);
    if !fx.userWriteOk then Handled(u.store, [ErrorNotice], query)
    else
      var b := SaveMessage(u.store, embed, botId, reply, true, fx.replySavedAt, fx.replyWriteOk);
      assert b.store.index[..|st.index|] == u.store.index[..|u.store.index|][..|st.index|];
      if fx.replyWriteOk && fx.sendOk then Handled(b.store, [reply], query)
      else Handled(b.store, [ErrorNotice], query)
  }

  /**
   * The part of `on_message` after the command dispatch: the guard, then
   * retrieval (on the store as it is before this message), the optional web
   * search, the model call, and the saves and the reply. Any exception ends
   * the run with the error notice. `searched` is the query the run passed to
   * the web search.
   */
  function HandleMessage<E, C>(st: Store<E>, sv: Services<E, C>, model: ChatModel, allowedChannel: int,
                               m: Incoming, fx: Effects): (h: Handled<E>)
    requires SearchBounded(st, sv.oracles, m.content, Defaults)
    ensures !ReachesPipeline(m, allowedChannel) ==> h == Handled(st, [], None)
    ensures ReachesPipeline(m, allowedChannel) ==> h.searched == SearchQuery(m.content) && |h.sent| == 1
    ensures |st.index| <= |h.store.index| <= |st.index| + 2 && h.store.index[..|st.index|] == st.index
    ensures ModelReply(st, sv, model, m, fx).reply.None? ==> h.store == st
  {
    if !ReachesPipeline(m, allowedChannel) then Handled(st, [], None)
    else
      var a := ModelReply(st, sv, model, m, fx);
      match a.reply
      case None => Handled(st, [ErrorNotice], a.searched)
      case Some(reply) => AfterAnswer(st, sv.oracles.embed, sv.botId, m, reply, fx, a.searched)
  }

  /**
   * The saves after an answer are the user's message and then the reply, in
   * that order; the reply is saved only when the user's message was; and the
   * reply goes to the channel only when both rows were written and the send
   * succeeds.
   */
  lemma AfterAnswerSavesUserThenReply<E>(st: Store<E>, embed: string -> E, botId: string, m: Incoming,
                                         reply: string, fx: Effects, query: Option<string>)
    ensures var h := AfterAnswer(st, embed, botId, m, reply, fx, query);
      && (fx.userWriteOk ==> h.store == SaveAll(st, embed, [UserSave(m, fx), ReplySave(botId, reply, fx)]).store)
      && (!fx.userWriteOk ==> h.store == SaveAll(st, embed, [UserSave(m, fx)]).store)
      && h.sent == if fx.userWriteOk && fx.replyWriteOk && fx.sendOk then [reply] else [ErrorNotice]
  {
    var u := SaveMessage(st, embed, m.authorId, m.content, false, fx.userSavedAt, fx.userWriteOk);
    var reqs := [UserSave(m, fx), ReplySave(botId, reply, fx)];
    assert reqs[1..][1..] == [];
    assert SaveAll(st, embed, reqs).store == SaveAll(u.store, embed, reqs[1..]).store;
    assert [UserSave(m, fx)][1..] == [];
  }

  /** Once the model has answered, the run is the saves and the reply of that answer. */
  lemma AnsweredRun<E, C>(st: Store<E>, sv: Services<E, C>, model: ChatModel, allowedChannel: int, m: Incoming,
                          fx: Effects)
    requires SearchBounded(st, sv.oracles, m.content, Defaults)
    requires ReachesPipeline(m, allowedChannel)
    requires ModelReply(st, sv, model, m, fx).reply.Some?
    ensures HandleMessage(st, sv, model, allowedChannel, m, fx) ==
      AfterAnswer(st, sv.oracles.embed, sv.botId, m, ModelReply(st, sv, model, m, fx).reply.value, fx,
                  SearchQuery(m.content))
  {
  }

  /**
   * On a consistent store an answered run with both writes succeeding stores
   * the user's message at the next slot and the reply right after it, and no
   * other slot changes what it resolves to.
   */
  lemma AnsweredRunStoresBothRows<E, C>(st: Store<E>, sv: Services<E, C>, model: ChatModel, allowedChannel: int,
                                       m: Incoming, fx: Effects)
    requires Consistent(st)
    requires SearchBounded(st, sv.oracles, m.content, Defaults)
    requires ReachesPipeline(m, allowedChannel)
    requires ModelReply(st, sv, model, m, fx).reply.Some? && fx.userWriteOk && fx.replyWriteOk
    ensures var h := HandleMessage(st, sv, model, allowedChannel, m, fx);
      var reply := ModelReply(st, sv, model, m, fx).reply.value;
      var n := |st.index|;
      && |h.store.index| == n + 2
      && Lookup(h.store.rows, n) == Some(Row(m.authorId, m.content, m.content, false, fx.userSavedAt, n))
      && Lookup(h.store.rows, n + 1) == Some(Row(sv.botId, reply, reply, true, fx.replySavedAt, n + 1))
      && forall s :: s != n && s != n + 1 ==> Lookup(h.store.rows, s) == Lookup(st.rows, s)
  {
    var reply := ModelReply(st, sv, model, m, fx).reply.value;
    var reqs := [UserSave(m, fx), ReplySave(sv.botId, reply, fx)];
    AnsweredRun(st, sv, model, allowedChannel, m, fx);
    AfterAnswerSavesUserThenReply(st, sv.oracles.embed, sv.botId, m, reply, fx, SearchQuery(m.content));
    SaveAllLookup(st, sv.oracles.embed, reqs);
    SaveAllSlots(st, sv.oracles.embed, reqs);
    SaveAllIndex(st, sv.oracles.embed, reqs);
  }

  /** A message the guard stops, or a run whose search or model call raises, leaves the store untouched. */
  lemma UnansweredRunKeepsStore<E, C>(st: Store<E>, sv: Services<E, C>, model: ChatModel, allowedChannel: int,
                                     m: Incoming, fx: Effects)
    requires SearchBounded(st, sv.oracles, m.content, Defaults)
    requires !ReachesPipeline(m, allowedChannel) || ModelReply(st, sv, model, m, fx).reply.None?
    ensures HandleMessage(st, sv, model, allowedChannel, m, fx).store == st
  {
  }

  /**
   * A requested search whose web call raises never reaches the model: the
   * run ends with the error notice and the store untouched.
   */
  lemma FailedSearchStopsRun<E, C>(st: Store<E>, sv: Services<E, C>, model: ChatModel, allowedChannel: int,
                                  m: Incoming, fx: Effects)
    requires SearchBounded(st, sv.oracles, m.content, Defaults)
    requires ReachesPipeline(m, allowedChannel)
    requires SearchQuery(m.content).Some? && sv.search(SearchQuery(m.content).value).None?
    ensures HandleMessage(st, sv, model, allowedChannel, m, fx) == Handled(st, [ErrorNotice], SearchQuery(m.content))
  {
  }

  /** One entry of `MODEL_CONFIGS`. */
  datatype ModelConfig = ModelConfig(name: string, provider: string, apiKey: Option<string>)

  /** `MODEL_CONFIGS`: only `mistral` is configured; its key comes from the environment. */
  function ModelConfigs(mistralKey: Option<string>): (c: map<string, ModelConfig>)
    ensures c.Keys == {"mistral"}
    ensures c["mistral"].name == "mistral-tiny" && c["mistral"].apiKey == mistralKey
  {
    map["mistral" := ModelConfig("mistral-tiny", "mistralai", mistralKey)]
  }

  /** A chat model handle, with the settings it was created with. */
  datatype ChatModel = ChatModel(name: string, provider: string, apiKey: Option<string>, temperature: real)

  datatype ModelError = UnknownModelName | InitFailed

  /**
   * `get_model`: only `mistral-tiny` is known; any other name raises
   * `ValueError`. `initOk` is whether the provider's constructor succeeds.
   */
  function GetModel(name: string, apiKey: Option<string>, initOk: bool): (r: Result<ChatModel, ModelError>)
    ensures r.Ok? <==> name == "mistral-tiny" && initOk
    ensures name != "mistral-tiny" ==> r == Err(UnknownModelName)
    ensures r.Ok? ==>
      && r.value.name == name && r.value.apiKey == apiKey
      && r.value.provider == "mistralai" && r.value.temperature == 0.7
  {
    if name == "mistral-tiny" then
      if initOk then Ok(ChatModel(name, "mistralai", apiKey, 0.7)) else Err(InitFailed)
    else Err(UnknownModelName)
  }

  /** The model in use and the configuration it was made from. */
  datatype BotState = BotState(model: ChatModel, config: ModelConfig)

  /** The model in use was made from the current configuration. */
  predicate Coherent(s: BotState) {
    s.model.name == s.config.name && s.model.apiKey == s.config.apiKey
  }

  /** Start-up: the `mistral` configuration and a model made from it. */
  function Startup(mistralKey: Option<string>, initOk: bool): (r: Result<BotState, ModelError>)
    ensures r.Ok? <==> initOk
    ensures r.Ok? ==> Coherent(r.value) && r.value.config == ModelConfigs(mistralKey)["mistral"]
  {
    var config := ModelConfigs(mistralKey)["mistral"];
    match GetModel(config.name, config.apiKey, initOk)
    case Ok(model) => Ok(BotState(model, config))
    case Err(e) => Err(e)
  }

  /** What `!switch` answers. */
  datatype SwitchReply = InvalidName | NoApiKey(requested: string) | Switched(requested: string) | SwitchFailed(err: ModelError)

  datatype Switching = Switching(state: BotState, reply: SwitchReply)

  /**
   * `!switch <name>`: the name is looked up lower-cased; an unknown name or a
   * configuration without a key changes nothing; otherwise a model is made
   * from the configuration and, only if that succeeds, both the model and the
   * configuration are replaced.
   */
  function Switch(s: BotState, configs: map<string, ModelConfig>, requested: string, initOk: bool): (r: Switching)
    ensures ToLower(requested) !in configs ==> r == Switching(s, InvalidName)
    ensures ToLower(requested) in configs && configs[ToLower(requested)].apiKey.None? ==> r == Switching(s, NoApiKey(requested))
    ensures !r.reply.Switched? ==> r.state == s
    ensures r.reply.Switched? ==>
      && ToLower(requested) in configs
      && r.state.config == configs[ToLower(requested)]
      && r.state.config.apiKey.Some?
      && Coherent(r.state)
  {
    var key := ToLower(requested);
    if key !in configs then Switching(s, InvalidName)
    else
      var config := configs[key];
      if config.apiKey.None? then Switching(s, NoApiKey(requested))
      else match GetModel(config.name, config.apiKey, initOk)
        case Ok(model) => Switching(BotState(model, config), Switched(requested))
        case Err(e) => Switching(s, SwitchFailed(e))
  }

  /** Every `!switch` keeps the model and the configuration in step. */
  lemma SwitchKeepsCoherent(s: BotState, configs: map<string, ModelConfig>, requested: string, initOk: bool)
    requires Coherent(s)
    ensures Coherent(Switch(s, configs, requested, initOk).state)
  {
  }

  /** Names are matched case-insensitively: names that lower-case alike switch to the same state. */
  lemma SwitchIgnoresCase(s: BotState, configs: map<string, ModelConfig>, a: string, b: string, initOk: bool)
    requires ToLower(a) == ToLower(b)
    ensures Switch(s, configs, a, initOk).state == Switch(s, configs, b, initOk).state
  {
  }

  /**
   * With the bot's own configuration table, `!switch` succeeds exactly for a
   * name that lower-cases to `mistral`, when its key is set and the model can
   * be made.
   */
  lemma SwitchWithBotConfigs(s: BotState, mistralKey: Option<string>, requested: string, initOk: bool)
    ensures Switch(s, ModelConfigs(mistralKey), requested, initOk).reply.Switched?
      <==> ToLower(requested) == "mistral" && mistralKey.Some? && initOk
  {
  }

  /** The name the `!switch` command is registered under. */
  const SwitchName: string := "switch"

  /**
   * The first word of `s` and what follows it: the word runs up to the first
   * whitespace character, and the rest starts there.
   */
  function TakeWord(s: string): (r: (string, string))
    ensures r.0 + r.1 == s
    ensures forall i :: 0 <= i < |r.0| ==> !IsSpace(r.0[i])
    ensures r.1 == [] || IsSpace(r.1[0])
  {
    if s == [] || IsSpace(s[0]) then ([], s)
    else
      var (w, rest) := TakeWord(s[1..]);
      assert [s[0]] + w + rest == [s[0]] + (w + rest);
      ([s[0]] + w, rest)
  }

  /** The first word is determined by its shape: a word without whitespace followed by nothing or by whitespace. */
  lemma {:induction false} TakeWordUnique(w: string, rest: string)
    requires forall i :: 0 <= i < |w| ==> !IsSpace(w[i])
    requires rest == [] || IsSpace(rest[0])
    ensures TakeWord(w + rest) == (w, rest)
  {
    if w != [] {
      assert (w + rest)[1..] == w[1..] + rest;
      TakeWordUnique(w[1..], rest);
      assert [w[0]] + w[1..] == w;
    } else {
      assert w + rest == rest;
    }
  }

  /** What the command parser makes of a message: no command of this bot, or `!switch` with its argument, if any. */
  datatype CommandCall = NotACommand | SwitchCall(argument: Option<string>)

  /**
   * The command parser: after the `!` prefix, the first word names the
   * command (case-sensitively); the argument of `!switch` is the next word
   * after any whitespace, and later words are ignored.
   */
  function ParseCommand(content: string): (c: CommandCall)
    ensures c.SwitchCall? ==> StartsWith(content, CommandPrefix)
    ensures c.SwitchCall? && c.argument.Some? ==>
      && c.argument.value != []
      && forall i :: 0 <= i < |c.argument.value| ==> !IsSpace(c.argument.value[i])
  {
    if !StartsWith(content, CommandPrefix) then NotACommand
    else
      var (name, rest) := TakeWord(content[|CommandPrefix|..]);
      if name != SwitchName then NotACommand
      else
        var (arg, _) := TakeWord(TrimStart(rest));
        SwitchCall(if arg == [] then None else Some(arg))
  }

  /**
   * `!switch <name>` followed by nothing or by more words parses as a switch to
   * `name`, whatever whitespace separates the two.
   */
  lemma SwitchCommandParses(gap: string, name: string, tail: string)
    requires gap != [] && AllSpace(gap)
    requires name != [] && forall i :: 0 <= i < |name| ==> !IsSpace(name[i])
    requires tail == [] || IsSpace(tail[0])
    ensures ParseCommand(CommandPrefix + SwitchName + gap + name + tail) == SwitchCall(Some(name))
  {
    var rest := gap + (name + tail);
    var content := CommandPrefix + (SwitchName + rest);
    assert content == CommandPrefix + SwitchName + gap + name + tail;
    assert content[..|CommandPrefix|] == CommandPrefix;
    assert content[|CommandPrefix|..] == SwitchName + rest;
    TakeWordUnique(SwitchName, rest);
    TrimStartOfSpacePrefix(gap, name + tail);
    TakeWordUnique(name, tail);
    ParseSwitch(content, rest, name, tail);
  }

  /** The two parsing steps of `ParseCommand` for a `!switch` message, given their results. */
  lemma ParseSwitch(content: string, rest: string, name: string, tail: string)
    requires StartsWith(content, CommandPrefix)
    requires TakeWord(content[|CommandPrefix|..]) == (SwitchName, rest)
    requires TakeWord(TrimStart(rest)) == (name, tail) && name != []
    ensures ParseCommand(content) == SwitchCall(Some(name))
  {
  }

  /** What `on_message` leaves behind: the model state, the reply of a `!switch` that ran, and the pipeline run. */
  datatype Routed<E> = Routed(state: BotState, command: Option<SwitchReply>, run: Handled<E>)

  /**
   * `on_message`: the command dispatch runs first, for every human author in
   * every channel, and only then the guard and the pipeline, with the model in
   * use after the dispatch. A `!switch` without an argument raises inside the
   * command framework: nothing is sent and nothing changes. `configs` is the
   * configuration table and `initOk` whether the provider can make a model.
   */
  function OnMessage<E, C>(st: Store<E>, bs: BotState, sv: Services<E, C>, configs: map<string, ModelConfig>,
                           initOk: bool, allowedChannel: int, m: Incoming, fx: Effects): (r: Routed<E>)
    requires SearchBounded(st, sv.oracles, m.content, Defaults)
    ensures r.command.Some? <==>
      !m.authorIsBot && ParseCommand(m.content).SwitchCall? && ParseCommand(m.content).argument.Some?
    ensures r.command.None? ==> r.state == bs
    ensures r.command.Some? ==> r.run == Handled(st, [], None)
    ensures Coherent(bs) ==> Coherent(r.state)
  {
    var call := if m.authorIsBot then NotACommand else ParseCommand(m.content);
    if call.SwitchCall? && call.argument.Some? then
      var sw := Switch(bs, configs, call.argument.value, initOk);
      Routed(sw.state, Some(sw.reply), HandleMessage(st, sv, sw.state.model, allowedChannel, m, fx))
    else
      Routed(bs, None, HandleMessage(st, sv, bs.model, allowedChannel, m, fx))
  }

  /**
   * A human's `!switch <name>` runs the switch in every channel, the allowed
   * one included, and never reaches the pipeline.
   */
  lemma SwitchRunsInEveryChannel<E, C>(st: Store<E>, bs: BotState, sv: Services<E, C>,
                                      configs: map<string, ModelConfig>, initOk: bool, allowedChannel: int,
                                      m: Incoming, fx: Effects)
    requires SearchBounded(st, sv.oracles, m.content, Defaults)
    requires !m.authorIsBot && ParseCommand(m.content).SwitchCall? && ParseCommand(m.content).argument.Some?
    ensures var sw := Switch(bs, configs, ParseCommand(m.content).argument.value, initOk);
      OnMessage(st, bs, sv, configs, initOk, allowedChannel, m, fx) == Routed(sw.state, Some(sw.reply), Handled(st, [], None))
  {
  }

  /** The only configured model name is already lower-case. */
  lemma MistralIsLowerCase()
    ensures ToLower("mistral") == "mistral"
  {
  }

  /** A lower-case ASCII word holds no whitespace. */
  lemma LowerWordHasNoSpace(w: string)
    requires forall i :: 0 <= i < |w| ==> 'a' <= w[i] <= 'z'
    ensures forall i :: 0 <= i < |w| ==> !IsSpace(w[i])
  {
  }

  /** The message that asks for the `mistral` model: `!switch mistral`. */
  const SwitchToMistral: string := CommandPrefix + SwitchName + " " + "mistral"

  lemma SwitchToMistralParses()
    ensures ParseCommand(SwitchToMistral) == SwitchCall(Some("mistral"))
  {
    LowerWordHasNoSpace("mistral");
    SwitchCommandParses(" ", "mistral", "");
    assert CommandPrefix + SwitchName + " " + "mistral" + "" == SwitchToMistral;
  }

  /**
   * The message `!switch mistral` from a human replaces the model, in any
   * channel, exactly when the key is set and the provider can make the model.
   */
  lemma SwitchMistralAnywhere<E, C>(st: Store<E>, bs: BotState, sv: Services<E, C>, mistralKey: Option<string>,
                                   initOk: bool, allowedChannel: int, channelId: int, authorId: string, fx: Effects)
    requires SearchBounded(st, sv.oracles, SwitchToMistral, Defaults)
    ensures var r := OnMessage(st, bs, sv, ModelConfigs(mistralKey), initOk, allowedChannel,
                               Incoming(false, channelId, authorId, SwitchToMistral), fx);
      && r.command.Some?
      && (r.command.value.Switched? <==> mistralKey.Some? && initOk)
      && r.run == Handled(st, [], None)
  {
    var m := Incoming(false, channelId, authorId, SwitchToMistral);
    SwitchToMistralParses();
    SwitchRunsInEveryChannel(st, bs, sv, ModelConfigs(mistralKey), initOk, allowedChannel, m, fx);
    MistralIsLowerCase();
    SwitchWithBotConfigs(bs, mistralKey, "mistral", initOk);
  }

  /** Commands from bots are never dispatched, and a bot's message never reaches the pipeline either. */
  lemma BotMessagesChangeNothing<E, C>(st: Store<E>, bs: BotState, sv: Services<E, C>,
                                      configs: map<string, ModelConfig>, initOk: bool, allowedChannel: int,
                                      m: Incoming, fx: Effects)
    requires SearchBounded(st, sv.oracles, m.content, Defaults)
    requires m.authorIsBot
    ensures OnMessage(st, bs, sv, configs, initOk, allowedChannel, m, fx) == Routed(bs, None, Handled(st, [], None))
  {
  }

  /** A message that runs no command is handled by the pipeline with the model already in use. */
  lemma PipelineUsesModelInUse<E, C>(st: Store<E>, bs: BotState, sv: Services<E, C>,
                                    configs: map<string, ModelConfig>, initOk: bool, allowedChannel: int,
                                    m: Incoming, fx: Effects)
    requires SearchBounded(st, sv.oracles, m.content, Defaults)
    requires ReachesPipeline(m, allowedChannel)
    ensures var r := OnMessage(st, bs, sv, configs, initOk, allowedChannel, m, fx);
      && r.command.None? && r.state == bs
      && r.run == HandleMessage(st, sv, bs.model, allowedChannel, m, fx)
  {
  }
}

# Discord memory bot: a Dafny model of its core

This project models three parts of a Discord chat bot that are sequential logic rather than I/O.

- **Long-term memory (`MessageMemory`).**
  - `save_message` appends a message's embedding to a vector index and the message to a table. The message's slot is the index size before the append.
  - `get_relevant_long_term_history` embeds the query and asks the index for `2k` nearest neighbours. It ranks the hits by a distance adjusted for author affinity and recency, and keeps those below a threshold. It then diversifies the candidates down to at most `k` messages:
    - a greedy pass under a cosine-similarity cutoff when there are at most `k`;
    - otherwise a k-means pass that keeps one representative per cluster, with the greedy pass as a fallback when clustering raises.
- **The `/nai` agent.** A per-user map of conversation histories:
  - a history is opened with the system message;
  - each answered prompt grows it by one user/assistant exchange;
  - it is trimmed back to the system message plus the last ten entries;
  - `/new` resets it and `/stats` reports its length.
- **The bot's routing.**
  - The `on_message` handler: the dispatch of `!switch`, which runs first in every channel, then the guard. The framework's built-in `help` command is not modelled.
  - Extraction of the web-search query.
  - One pipeline run: retrieval, search, model call, the two saves, and the reply.
  - `get_model` and the `!switch` command.

Embeddings, cluster centres, cosine similarity, the index search, k-means, the chat model, the web search and the clock are all parameters: function-valued oracles or plain inputs. The exceptions the model covers are the web search, the chat model, k-means, the two table writes, the reply's send, `get_model`, and the agent's model call, send and stores. Each is an oracle answering `None` or a boolean input saying whether that step succeeds. The exceptions listed under "## Left out" are not modelled. Distances and times are `real`s.

Files, one module each:

- `wrappers.dfy`: `Option` and `Result`.
- `text.dfy`: the Python `str` operations the routing uses (`strip`, `lower`, `in`, `split(sep, 1)[-1]`).
- `store.dfy`: the index and the message table, and `save_message`.
- `ranker.dfy`: hits to candidates.
- `diversifier.dfy`: the greedy, k-means and top-up selection, and the dispatch between them.
- `retrieval.dfy`: `get_relevant_long_term_history` end to end.
- `conversations.dfy`: the agent's histories and commands.
- `router.dfy`: the bot's message handler, its command dispatch and the model commands.

Three behaviours of the code, each proved as a lemma:

- The index is not rebuilt from the table at start-up. A missing index file with a non-empty table makes new messages reuse old slots (`MessageStore.LostIndexShadowsNewMessage`).
- With exactly `k` candidates the greedy pass still applies the similarity cutoff, so near-duplicates are dropped (`Diversifier.DiversifyRegimes`, `Diversifier.GreedySpec`).
- The k-means pass never checks the similarity cutoff between the representatives it returns (`Diversifier.ClusterPathMayKeepNearDuplicates`).

## Model

| member | source | states |
|---|---|---|
| Text.Strip | bot/bot.py:108 | `strip()` never leaves whitespace at either end and never lengthens the text |
| Text.StripShape | bot/bot.py:108 | `strip()` removes only whitespace, and only from the two ends: the result is a slice of the input with whitespace on both sides |
| Text.StripUnique | bot/bot.py:108 | whitespace + trimmed middle + whitespace strips to exactly that middle, so `strip()` is determined by its shape |
| Text.StripIdempotent | bot/bot.py:108 | stripping twice is stripping once |
| Text.TrimStart | bot/bot.py:108 | the left half of `strip()` drops exactly the leading whitespace and leaves a suffix of the input |
| Text.TrimEnd | bot/bot.py:108 | the right half of `strip()` drops exactly the trailing whitespace and leaves a prefix of the input |
| Text.FindFrom | bot/bot.py:107 | the position found is an occurrence with no earlier one; `None` means no occurrence at all |
| Text.AfterFirst | bot/bot.py:108 | `split(sep, 1)[-1]` is the text after some occurrence of `sep`, or the whole text when there is none |
| Text.AfterFirstAt | bot/bot.py:108 | the text `split(sep, 1)[-1]` returns starts right after the first occurrence of `sep` |
| Text.OccurrenceContains | bot/bot.py:107 | `pat in s` holds whenever `pat` occurs at some position of `s` |
| Text.ToLower | bot/bot.py:62 | `lower()` keeps the length and lower-cases each character on its own |
| Text.LowerKeepsOccurrence | bot/bot.py:107-108 | a case-sensitive occurrence of a lower-case marker is also found in the lower-cased message |
| MessageStore.LookupPos | bot/memory.py:126-129 | `WHERE embedding_id = ?` + `fetchone()` finds the first row with that slot, or none when no row has it |
| MessageStore.SaveMessage | bot/memory.py:82-98 | the slot is the index size before the call; the index grows by exactly the message's embedding; only a successful insert makes the slot resolve to the new row; no other slot changes |
| MessageStore.SaveKeepsSynced | bot/memory.py:90-96 | index and table stay in lock-step exactly when the insert succeeds; a failed insert leaves an orphan vector |
| MessageStore.SaveAllAssignsConsecutiveSlots | bot/memory.py:85-90 | N saves assign the N slots counting up from the index size before them (0 to N-1 from an empty index), in call order, each growing the index by one, whether or not its row was written |
| MessageStore.SaveAllLookup | bot/memory.py:85-96 | after a run of saves, call i's slot resolves to the row it wrote exactly when its insert succeeded, and no earlier slot changes |
| MessageStore.LookupAfterAppend | bot/memory.py:91-96 | inserting a row changes the lookup of its own slot only |
| MessageStore.SyncedLookup | bot/memory.py:124-130 | on a synced store, a slot resolves to a row exactly when it is an index position |
| MessageStore.LostIndexShadowsNewMessage | bot/memory.py:52-56 | without the index file the index restarts empty, and the first new message's slot resolves to an old row, not to the new message |
| Ranker.RecencyScore | bot/memory.py:133 | for a message not from the future the recency bonus lies in [0, weight], and it is 0 from one day on; `Ranker.RecencyScoreBounds` adds the linear form and `Ranker.RecencyScoreMonotone` the ordering by age |
| Ranker.RecencyScoreBounds | bot/memory.py:133 | for age >= 0 the recency bonus lies in [0, weight]: full weight at age 0, linear in age, 0 from one day on |
| Ranker.RecencyScoreMonotone | bot/memory.py:133 | an older message never gets a larger recency bonus |
| Ranker.EffectiveDistance | bot/memory.py:134-135 | with non-negative weights and a message not from the future, the adjustments only bring a hit closer, by at most the two weights together; another author's day-old message keeps its raw distance |
| Ranker.EffectiveDistanceCases | bot/memory.py:134-135 | the effective distance is `dist - user_weight - recency` for the asker's own rows (non-empty id) and `dist - recency` otherwise |
| Ranker.OwnMessageRanksCloser | bot/memory.py:134 | of two equal hits, the asker's own is closer by exactly `user_weight` |
| Ranker.EffectiveDistanceExample | bot/memory.py:133-137 | raw 0.75, same author, age 0 gives 0.05, which is kept under threshold 0.7 |
| Ranker.ToMessage | bot/memory.py:139 | a row becomes an AI message iff it is a bot's, carrying its text |
| Ranker.Rank | bot/memory.py:123-142 | the ranking loop; its contract is `Ranker.RankIsFilter`: the candidates are exactly the kept hits, in hit order |
| Ranker.KeptFrom | bot/memory.py:123-137 | the reference filter: exactly the ascending positions whose hit resolves to a row and is below the threshold |
| Ranker.RankFrom | bot/memory.py:123-142 | the ranking loop yields one candidate per kept position, in order |
| Ranker.RankIsFilter | bot/memory.py:118-142 | candidates are exactly the kept hits, in hit order, skipping `-1` and row-less slots; each is its row's message (AI iff bot) with that message's embedding |
| Diversifier.TakeExtends | bot/memory.py:188-196 | accepting a candidate keeps the loop invariant: ascending, diverse picks, each earlier candidate picked or blocked |
| Diversifier.SkipExtends | bot/memory.py:193-194 | rejecting a candidate keeps the loop invariant, the rejected one being blocked by an earlier pick |
| Diversifier.GreedyFrom | bot/memory.py:188-198 | the greedy loop from a given candidate and pick list; its contract is `Diversifier.GreedyFromSpec` |
| Diversifier.GreedyFromSpec | bot/memory.py:186-198 | the greedy loop from any reachable state returns a result meeting the greedy promise |
| Diversifier.Greedy | bot/memory.py:186-198 | the greedy pass; its contract is `Diversifier.GreedySpec`: an order-preserving, diverse subsequence starting with the first candidate, skipping only blocked candidates or those past `k` picks |
| Diversifier.GreedySpec | bot/memory.py:186-198 | the greedy pass returns an order-preserving subsequence that starts with the first candidate, in which every pick is below the cutoff to every earlier pick, of length at most `k` (one when `k` is 0), skipping a candidate only when it is blocked or `k` picks were made |
| Diversifier.GreedyKeepsDiverseCandidates | bot/memory.py:186-198 | at most `k` pairwise-diverse candidates are all kept, in order |
| Diversifier.ClosestFrom | bot/memory.py:157 | `min(idxs, key=norm)` returns the first member of the cluster closest to its centre, or raises when the cluster is empty |
| Diversifier.ClusterPicksFrom | bot/memory.py:153-160 | one closest representative per remaining cluster, in cluster order, or a raise when some cluster is empty |
| Diversifier.ClusterSelect | bot/memory.py:146-160 | the k-means pass; its contract is `Diversifier.ClusterSelectSpec`: `k` clusters, `k` distinct closest picks, or a raise |
| Diversifier.ClusterSelectSpec | bot/memory.py:146-160 | with more than `k` candidates a successful cluster pass uses exactly `k` clusters and returns `k` distinct picks, each closest to its cluster's centre; it raises exactly for `k` = 0, a raising or malformed fit, or an empty cluster |
| Diversifier.TopUpFrom | bot/memory.py:162-168 | the top-up keeps the existing picks as a prefix, adds only new distinct positions, adds nothing once `k` are picked, and never exceeds `k` |
| Diversifier.TopUp | bot/memory.py:162 | the top-up runs only below `k` picks and then never exceeds `k` |
| Diversifier.DiversifyPicks | bot/memory.py:144-198 | every branch returns distinct candidate positions, at most `k` of them for `k` > 0, some whenever there are candidates, none when there are none |
| Diversifier.Diversify | bot/memory.py:144-200 | at most `k` messages for `k` > 0, each a candidate's message, some exactly when there are candidates |
| Diversifier.DiversifyKeepsFewDiverse | bot/memory.py:185-198 | at most `k` pairwise-diverse candidates come back unchanged, in order |
| Diversifier.DiversifyRegimes | bot/memory.py:146-185 | at most `k` candidates take the greedy pass; more take the cluster pass, returning exactly `k` picks with no top-up, and fall back to the greedy pass over all candidates exactly when clustering raises |
| Diversifier.ClusterPathMayKeepNearDuplicates | bot/memory.py:153-160 | the cluster pass can return two candidates whose similarity is above the cutoff |
| Diversifier.GreedyRegimeDiverse | bot/memory.py:169-198 | on the greedy and fallback regimes the result is ascending, diverse, and starts with the first candidate |
| Retrieval.GetRelevantLongTermHistory | bot/memory.py:110-200 | the index is asked for `k*2` neighbours of the query; at most `k` messages come back, each the message of a stored row whose hit was kept; something comes back exactly when some hit was kept |
| Retrieval.CandidatesAreKeptHits | bot/memory.py:117-142 | every candidate is the message of a kept hit, there are no more candidates than hits, and there are some exactly when a hit is kept |
| Retrieval.FewDiverseCandidatesAllReturned | bot/memory.py:185-200 | with at most `k` pairwise-diverse candidates, the call returns all of them in hit order |
| Conversations.Trim | bot/agent.py:166-168 | a history of more than 12 becomes its first entry plus its last 10, in order; a shorter one is untouched |
| Conversations.Opened | bot/agent.py:87-100 | a prompt starts from the stored history, or from the system message alone on first contact |
| Conversations.HasPrompt | bot/agent.py:76-78 | the prompt test; `Conversations.NaiCommand` states that a missing or empty prompt sends the notice and changes nothing |
| Conversations.Answered | bot/agent.py:143-146 | the reply test: a reply is accepted only when it is not blank; `Conversations.NaiFailureKeepsOpenedHistory` states that an unaccepted one leaves the opened history |
| Conversations.NaiCommand | bot/agent.py:72-177 | another channel changes and sends nothing; a missing or empty prompt sends the notice and changes nothing; other users' histories never change; an accepted prompt stores a history for the caller keeping its first entry and sends something |
| Conversations.StoredAfter | bot/agent.py:156-168 | the stored history keeps the opened history's first entry |
| Conversations.NaiDeliveredAppendsExchange | bot/agent.py:153-172 | a delivered answer appends the user entry then the assistant entry (then trims); the reply is sent first; a storage failure adds the error notice but keeps the exchange |
| Conversations.NaiFailureKeepsOpenedHistory | bot/agent.py:100-146 | when the model raises, answers blank, or the reply cannot be sent, the stored history is the opened one; the copy given to the model is not kept |
| Conversations.NaiOpensOnlyOnFirstContact | bot/agent.py:87-97 | an existing history is never reset by `/nai`, only kept or grown by one exchange; a new one starts with the system message |
| Conversations.ExchangeKeepsWellFormed | bot/agent.py:156-168 | one exchange plus the trim keeps a history well-formed: the system message first, then alternating user/assistant entries, odd length, at most 11 |
| Conversations.AppendAlternates | bot/agent.py:156-163 | appending a user entry then an assistant entry keeps the roles alternating |
| Conversations.TrimAlternates | bot/agent.py:166-168 | the trim drops an even number of entries after the first, so roles keep alternating |
| Conversations.NaiKeepsWellFormed | bot/agent.py:72-177 | `/nai` keeps every history well-formed |
| Conversations.NewConversation | bot/agent.py:182-196 | `/new` sets the caller's history to exactly the system message, leaves every other user's as it was, and sends the notice |
| Conversations.NewKeepsWellFormed | bot/agent.py:185-194 | `/new` keeps every history well-formed |
| Conversations.ConversationLength | bot/agent.py:221-225 | a length is reported exactly when the user has a history, and it is the number of entries minus one |
| Conversations.StatsCommand | bot/agent.py:198-229 | `/stats` changes no history and sends one report carrying the caller's conversation length |
| Conversations.ConversationLengthBounds | bot/agent.py:166-168 | on a well-formed history the reported length is even and between 0 and 10 |
| Conversations.DeliveredLengthGrowsByTwo | bot/agent.py:156-168 | a delivered answer grows the reported length by two, capped at 10 (a first contact counts from 0) |
| Conversations.OpenedLength | bot/agent.py:87-100 | the opened history is well-formed, and its length minus one is the length reported before the prompt |
| Conversations.ExchangeLength | bot/agent.py:156-168 | an exchange adds two entries to a well-formed history and the trim caps the total at 11 |
| Conversations.AgentOnMessage | bot/agent.py:66-69 | messages from bots or from other channels change and send nothing; no command changes another user's history |
| Conversations.AgentKeepsWellFormed | bot/agent.py:66-229 | every message the agent handles keeps every history well-formed |
| Router.MarkersAreLowerCase | bot/bot.py:107 | both search markers are already lower-case |
| Router.SearchQuery | bot/bot.py:107-108 | a search is made exactly when the lower-cased message contains `search:` or `look up`, and the query is always stripped |
| Router.SearchQueryAfterSearchMarker | bot/bot.py:107-108 | a lower-case `search:` takes priority: the query is the stripped text after its first occurrence, whatever `look up` the message holds |
| Router.SearchQueryAfterLookUp | bot/bot.py:107-108 | without `search:` in any case, the query is the stripped text after the first lower-case `look up` |
| Router.CaseOnlyMarkerQueriesWholeMessage | bot/bot.py:107-108 | a marker matching only case-insensitively still triggers a search, with the whole stripped message as the query |
| Router.NoMarkerNoSearch | bot/bot.py:107 | a message with neither marker in any case makes no search |
| Router.ReachesPipeline | bot/bot.py:83-86 | the guard: a human's message in the allowed channel not starting with `!`; `Router.HandleMessage` and `Router.PipelineUsesModelInUse` state what passing it means |
| Router.ModelReply | bot/bot.py:106-122 | the web search is made exactly for the query the message's markers give, and a raising search leaves no reply |
| Router.ModelReplyCases | bot/bot.py:92-122 | the model in use is called with the message, the asker's retrieved long-term history, and the internet context of the search results, or the empty text when no search was asked for |
| Router.ModelReplySearchesOnlyItsQuery | bot/bot.py:106-110 | the search oracle is consulted only at the message's query: without a marker, any search oracle gives the same answer |
| Router.HandleMessage | bot/bot.py:83-129 | after the command dispatch: bot authors, other channels and `!` messages reach no pipeline step, leave the store untouched and send nothing from the pipeline; an accepted message reports the query its run passed to the web search, which is the one its markers give, and sends exactly one message; the index only grows, by at most two; a run whose search or model call raises leaves the store untouched |
| Router.AfterAnswer | bot/bot.py:123-125 | after the answer the index grows by one or two and nothing earlier changes; one message is sent |
| Router.AfterAnswerSavesUserThenReply | bot/bot.py:122-129 | the user's message is saved and then the reply, in that order; a failed first save skips the second; the reply is sent only when both rows were written and the send succeeds, the error notice otherwise |
| Router.AnsweredRun | bot/bot.py:88-125 | once the model has answered, the run is the saves and the reply of that answer |
| Router.AnsweredRunStoresBothRows | bot/bot.py:122-124 | with both writes succeeding, the user's message lands at the next slot and the reply right after it; no other slot changes |
| Router.UnansweredRunKeepsStore | bot/bot.py:83-122 | a stopped message, or a run whose search or model call raises, leaves the store untouched |
| Router.FailedSearchStopsRun | bot/bot.py:107-129 | a raising web search ends the run with the error notice before the model is called |
| Router.ModelConfigs | bot/bot.py:18-29 | only `mistral` is configured, as `mistral-tiny` with the environment's key |
| Router.GetModel | bot/bot.py:31-47 | a model is made exactly for `mistral-tiny` (when the provider succeeds), with the given key and temperature 0.7; every other name is `ValueError` |
| Router.Startup | bot/bot.py:49-50 | start-up succeeds exactly when the provider does, with a model made from the `mistral` configuration |
| Router.Switch | bot/bot.py:57-78 | an unknown name or a missing key changes nothing; a failed `get_model` changes nothing; only a success replaces both model and configuration, consistently |
| Router.SwitchKeepsCoherent | bot/bot.py:71-73 | every `!switch` keeps the model and the configuration in step |
| Router.SwitchIgnoresCase | bot/bot.py:62-66 | names that lower-case alike switch to the same state |
| Router.SwitchWithBotConfigs | bot/bot.py:18-29 | with the bot's own table, `!switch` succeeds exactly for a name lower-casing to `mistral` with a key set and a working provider |
| Router.TakeWord | bot/bot.py:57 | the first word is a prefix of the text with no whitespace, and the rest is empty or starts with whitespace |
| Router.TakeWordUnique | bot/bot.py:57 | any split of that shape is the one `TakeWord` returns, so the first word is determined |
| Router.ParseCommand | bot/bot.py:15-57 | only a message starting with the `!` prefix can invoke `!switch`; the argument, when present, is a non-empty word without whitespace |
| Router.SwitchCommandParses | bot/bot.py:15-57 | `!switch`, then whitespace, then a name, then nothing or more words, is a switch to that name |
| Router.SwitchToMistralParses | bot/bot.py:57-58 | the message `!switch mistral` is a switch to `mistral` |
| Router.OnMessage | bot/bot.py:80-86 | the switch runs exactly for a human's `!switch` with an argument, in any channel; a command never reaches the pipeline; no other message changes the model; the model and configuration stay in step |
| Router.SwitchRunsInEveryChannel | bot/bot.py:57-86 | a human's `!switch <name>` gives exactly the switch's state and reply, whatever the channel, and no pipeline step |
| Router.SwitchMistralAnywhere | bot/bot.py:57-86 | `!switch mistral` from a human in any channel answers, replaces the model exactly when the key is set and the provider works, and runs no pipeline step |
| Router.BotMessagesChangeNothing | bot/bot.py:82-84 | a bot's message runs no command and no pipeline step |
| Router.PipelineUsesModelInUse | bot/bot.py:82-122 | a message that passes the guard runs no command and its pipeline run uses the model already in use, which `Router.ModelReplyCases` shows is the model called |

## Left out

- The FAISS index internals, `write_index` and `read_index`. The index is a sequence of embeddings; search is an oracle returning ordered `(slot, distance)` hits, assumed to return at most the number asked for (the `requires` of `Retrieval.GetRelevantLongTermHistory`).
- SQLite, the HuggingFace embedder, sklearn's `KMeans` and `cosine_similarity`: foreign code, modelled as a table of rows and as oracles.
- Exceptions that are not modelled, because each comes from foreign code the model treats as total:
  - the embedder raising, in `save_message` (bot/memory.py:84) or in the retrieval (bot/memory.py:117, 140-142);
  - the retrieval's SQLite reads raising (bot/memory.py:122-129);
  - `get_short_term_history` raising (bot/bot.py:91);
  - the typing indicator raising (bot/bot.py:89);
  - `faiss.write_index` raising after the commit (bot/memory.py:98). This would leave the user's row written and the reply's save skipped, a state `Router.AfterAnswer` cannot produce.
- float32 arithmetic and ISO timestamp parsing: distances, similarities and times are exact `real`s.
- Text.ToLower: models `str.lower()` for ASCII letters only; Unicode case mapping is not modelled.
- The `ConversationBufferWindowMemory` short-term history: library behaviour. The pipeline's prompt does not depend on it in the model.
- The prompt template. `prompt_template` is imported but `bot/prompt.py` does not define it. The model call is given the message, the retrieved history and the internet-context text instead of a formatted prompt.
- `call_mistral`, `bot/mistral.py`, `bot/search.py` (DuckDuckGo) and `bot/config.py`: HTTP clients and environment loading. They become oracles and inputs.
- The agent's `store_message` and the `/stats` SQL counts. The agent imports `ConversationMemory`, which `bot/memory.py` does not define, so that store is not part of this model. `store_message` is a success flag, and the stats report carries only the conversation length.
- The commented-out RAG and summarisation code: dead code.
- Discord plumbing: the command framework's quoted arguments and its error handler (a `!switch` without an argument sends nothing), typing indicators, `on_ready` greetings, logging and timing. What a failing error-notice send does after an exception is not modelled; the notice counts as sent.
- Diversifier.TopUpFrom: states bounds, distinctness and the prefix property, but not the per-candidate acceptance test (message not yet selected, below the cutoff to every pick). The top-up is unreachable in the source: a successful cluster pass over more than `k` candidates always picks `k` (`Diversifier.DiversifyRegimes`).
- Router.OnMessage: the `!switch` replies are kept as `SwitchReply` values and not rendered as text, because the text of a provider's exception is not known.
- Router.OnMessage: the command framework's built-in `help` command is not modelled. The bot is built without `help_command=None` (bot/bot.py:15), so a human's `!help` in any channel gets the command list as a reply. The model treats every command other than `!switch` as sending nothing.
- Conversations.AgentOnMessage: the built-in `help` command is not modelled either. The agent's bot is built without `help_command=None` (bot/agent.py:20), so `/help` in the allowed channel gets the command list as a reply. The model treats every command other than `/nai`, `/new` and `/stats` (`Unrecognised`) as sending nothing.
- Conversations.NaiCommand: each command is modelled as running atomically. In the source the command awaits the model and the send (bot/agent.py:143, 153) after copying the history (bot/agent.py:100) and before appending to the stored one (bot/agent.py:156-163). A `/new` or `/nai` from the same user in that window changes which history the exchange lands on. `Conversations.NaiDeliveredAppendsExchange` holds only under this assumption.

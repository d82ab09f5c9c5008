/**
 * The per-user conversation histories of the `/nai` agent: a map from user id
 * to the chat entries sent to the model, opened with the system message,
 * grown by one user/assistant exchange per answered prompt, and cut back to
 * the system message plus the last ten entries once it grows past twelve.
 */
module Conversations {
  import opened Wrappers
  import opened Text

  datatype Role = System | User | Assistant

  /** One chat entry, `{"role": ..., "content": ...}`. */
  datatype Entry = Entry(role: Role, content: string)

  type History = seq<Entry>

  /** `user_conversations`: user id to history. */
  type Histories = map<string, History>

  /** The system message every history starts with. */
  const SystemPrompt: string :=
    "You're a Discord AI assistant. \n- Answer ONLY the current question\n- Be concise and helpful\n- No prefixes like \"Assistant:\" in response"

  const SystemEntry: Entry := Entry(System, SystemPrompt)

  /** A history longer than this is trimmed after an exchange. */
  const TrimAbove: nat := 12

  /** How many of the latest entries a trim keeps after the first. */
  const KeepLast: nat := 10

  const PromptMissing: string := "\U{26A0}\U{FE0F} Please provide a prompt after /nai"
  const ErrorNotice: string := "\U{26A0}\U{FE0F} An error occurred while processing the command."
  const NewConversationNotice: string :=
    "Started a new conversation! Your previous conversation history has been cleared."

  /** The user entry of a prompt: the author's name, a colon and a space, then the prompt. */
  function UserEntry(author: string, prompt: string): Entry {
    Entry(User, author + ": " + prompt)
  }

  /**
   * The shape every history keeps: the system message first, then complete
   * user/assistant exchanges, at most five of them.
   */
  predicate WellFormed(h: History) {
    && |h| % 2 == 1
    && |h| <= KeepLast + 1
    && h[0] == SystemEntry
    && Alternates(h)
  }

  /** The role expected at position `i >= 1`: user entries at odd positions, assistant entries at even ones. */
  function RoleAt(i: nat): Role {
    if i % 2 == 1 then User else Assistant
  }

  /** After the first entry, user and assistant entries alternate, starting with a user entry. */
  predicate Alternates(h: History) {
    forall i :: 1 <= i < |h| ==> h[i].role == RoleAt(i)
  }

  ghost predicate AllWellFormed(convs: Histories) {
    forall u :: u in convs ==> WellFormed(convs[u])
  }

  /** Users other than `u` have the same entry, or none, in both maps. */
  ghost predicate OthersUnchanged(before: Histories, after: Histories, u: string) {
    forall v :: v != u ==> (v in after <==> v in before) && (v in before ==> after[v] == before[v])
  }

  /** The trim after an exchange: a history of more than twelve entries keeps its first entry and its last ten. */
  function Trim(h: History): (r: History)
    requires |h| > 0
    ensures 0 < |r| <= TrimAbove
    ensures r[0] == h[0]
    ensures |h| <= TrimAbove ==> r == h
    ensures |h| > TrimAbove ==> |r| == KeepLast + 1 && forall i :: 1 <= i < |r| ==> r[i] == h[|h| - KeepLast - 1 + i]
  {
    if |h| > TrimAbove then [h[0]] + h[|h| - KeepLast..] else h
  }

  /** The history a prompt starts from: the stored one, or a fresh one on first contact. */
  function Opened(convs: Histories, userId: string): (h: History)
    ensures userId in convs ==> h == convs[userId]
    ensures userId !in convs ==> h == [SystemEntry]
  {
    if userId in convs then convs[userId] else [SystemEntry]
  }

  /** `if not prompt`: no prompt, or an empty one. */
  predicate HasPrompt(prompt: Option<string>) {
    prompt.Some? && prompt.value != ""
  }

  /** A model reply the command accepts: one was returned and it is not blank (`reply.strip()` is non-empty). */
  predicate Answered(reply: Option<string>) {
    reply.Some? && Strip(reply.value) != ""
  }

  /** What a command leaves behind: the histories, and what was sent to the channel, in order. */
  datatype Outcome = Outcome(convs: Histories, sent: seq<Notice>)

  /** A message sent to the channel: text, or the stats report with its conversation-length line. */
  datatype Notice = Said(text: string) | StatsReport(convLength: Option<int>)

  /**
   * `/nai <prompt>`. `call` is the model: it sees the opened history plus the
   * user entry and returns a reply or raises (`None`). `sendOk` is whether
   * sending the reply succeeds and `storeOk` whether both `store_message` calls
   * that follow do; either raising lands in the error notice.
   */
  function NaiCommand(convs: Histories, channelId: int, allowedChannel: int, userId: string, author: string,
                      prompt: Option<string>, call: History -> Option<string>, sendOk: bool, storeOk: bool): (o: Outcome)
    ensures channelId != allowedChannel ==> o == Outcome(convs, [])
    ensures channelId == allowedChannel && !HasPrompt(prompt) ==> o == Outcome(convs, [Said(PromptMissing)])
    ensures OthersUnchanged(convs, o.convs, userId)
    ensures channelId == allowedChannel && HasPrompt(prompt) ==>
      && userId in o.convs
      && (|Opened(convs, userId)| > 0 ==> |o.convs[userId]| > 0 && o.convs[userId][0] == Opened(convs, userId)[0])
      && |o.sent| > 0
  {
    if channelId != allowedChannel then Outcome(convs, [])
    else if !HasPrompt(prompt) then Outcome(convs, [Said(PromptMissing)])
    else
      var h0 := Opened(convs, userId);
      var entry := UserEntry(author, prompt.value);
      var reply := call(h0 + [entry]);
      var delivered := Answered(reply) && sendOk;
      var sent := if !delivered then [Said(ErrorNotice)]
                  else [Said(reply.value)] + if storeOk then [] else [Said(ErrorNotice)];
      StoreOthersUnchanged(convs, userId, StoredAfter(h0, entry, reply, sendOk));
      Outcome(convs[userId := StoredAfter(h0, entry, reply, sendOk)], sent)
  }

  /**
   * The history stored after a prompt: the opened one grown by the exchange
   * when the answer was delivered, the opened one as it was otherwise.
   */
  function StoredAfter(h0: History, entry: Entry, reply: Option<string>, sendOk: bool): (h: History)
    ensures |h0| > 0 ==> |h| > 0 && h[0] == h0[0]
  {
    if Answered(reply) && sendOk then Trim(h0 + [entry, Entry(Assistant, reply.value)]) else h0
  }

  /** Storing one user's history leaves every other user's entry as it was. */
  lemma StoreOthersUnchanged(convs: Histories, userId: string, h: History)
    ensures OthersUnchanged(convs, convs[userId := h], userId)
  {
  }

  /** The prompt was accepted and the model's answer was delivered. */
  predicate Delivered(convs: Histories, userId: string, author: string, prompt: Option<string>,
                      call: History -> Option<string>, sendOk: bool)
    requires HasPrompt(prompt)
  {
    Answered(call(Opened(convs, userId) + [UserEntry(author, prompt.value)])) && sendOk
  }

  /**
   * A delivered answer appends exactly the user entry and then the assistant
   * entry to the opened history (then trims), and the reply is the first
   * thing sent; a storage failure afterwards adds the error notice but keeps
   * the exchange.
   */
  lemma NaiDeliveredAppendsExchange(convs: Histories, channelId: int, allowedChannel: int, userId: string,
                                    author: string, prompt: Option<string>, call: History -> Option<string>,
                                    sendOk: bool, storeOk: bool)
    requires channelId == allowedChannel && HasPrompt(prompt)
    requires Delivered(convs, userId, author, prompt, call, sendOk)
    ensures var o := NaiCommand(convs, channelId, allowedChannel, userId, author, prompt, call, sendOk, storeOk);
      var h0 := Opened(convs, userId);
      var reply := call(h0 + [UserEntry(author, prompt.value)]).value;
      && o.convs[userId] == Trim(h0 + [UserEntry(author, prompt.value), Entry(Assistant, reply)])
      && (|h0| + 2 <= TrimAbove ==> o.convs[userId] == h0 + [UserEntry(author, prompt.value), Entry(Assistant, reply)])
      && o.sent[0] == Said(reply)
      && (o.sent == [Said(reply)] <==> storeOk)
  {
  }

  /**
   * When the model raises, answers blank, or the reply cannot be sent, the
   * stored history is the opened one: the user entry given to the model was a
   * copy and is not kept, and only a first contact's fresh history remains.
   */
  lemma NaiFailureKeepsOpenedHistory(convs: Histories, channelId: int, allowedChannel: int, userId: string,
                                     author: string, prompt: Option<string>, call: History -> Option<string>,
                                     sendOk: bool, storeOk: bool)
    requires channelId == allowedChannel && HasPrompt(prompt)
    requires !Delivered(convs, userId, author, prompt, call, sendOk)
    ensures var o := NaiCommand(convs, channelId, allowedChannel, userId, author, prompt, call, sendOk, storeOk);
      && o.convs == convs[userId := Opened(convs, userId)]
      && (userId in convs ==> o.convs == convs)
      && o.sent == [Said(ErrorNotice)]
  {
  }

  /**
   * A fresh history is created only on first contact: a user who already has
   * one keeps it, extended by one exchange (and trimmed) or unchanged.
   */
  lemma NaiOpensOnlyOnFirstContact(convs: Histories, channelId: int, allowedChannel: int, userId: string,
                                   author: string, prompt: Option<string>, call: History -> Option<string>,
                                   sendOk: bool, storeOk: bool)
    ensures var o := NaiCommand(convs, channelId, allowedChannel, userId, author, prompt, call, sendOk, storeOk);
      && (userId in convs ==>
            || o.convs[userId] == convs[userId]
            || exists e1, e2 :: o.convs[userId] == Trim(convs[userId] + [e1, e2]))
      && (userId !in convs && userId in o.convs ==> o.convs[userId][0] == SystemEntry)
  {
    var o := NaiCommand(convs, channelId, allowedChannel, userId, author, prompt, call, sendOk, storeOk);
    if userId in convs && channelId == allowedChannel && HasPrompt(prompt)
       && Delivered(convs, userId, author, prompt, call, sendOk) {
      var h0 := convs[userId];
      var reply := call(h0 + [UserEntry(author, prompt.value)]).value;
      assert o.convs[userId] == Trim(h0 + [UserEntry(author, prompt.value), Entry(Assistant, reply)]);
    }
  }

  /** One exchange appended to a well-formed history, then trimmed, is well-formed again. */
  lemma ExchangeKeepsWellFormed(h: History, entry: Entry, answer: Entry)
    requires WellFormed(h)
    requires entry.role == User && answer.role == Assistant
    ensures WellFormed(Trim(h + [entry, answer]))
  {
    AppendAlternates(h, entry, answer);
    TrimAlternates(h + [entry, answer]);
  }

  lemma AppendAlternates(h: History, entry: Entry, answer: Entry)
    requires Alternates(h) && |h| % 2 == 1
    requires entry.role == User && answer.role == Assistant
    ensures Alternates(h + [entry, answer])
  {
    var h1 := h + [entry, answer];
    forall i | 1 <= i < |h1|
      ensures h1[i].role == RoleAt(i)
    {
      if i < |h| {
        assert h1[i] == h[i];
      }
    }
  }

  lemma TrimAlternates(h: History)
    requires Alternates(h) && |h| % 2 == 1
    ensures Alternates(Trim(h))
  {
    var r := Trim(h);
    if |h| > TrimAbove {
      forall i | 1 <= i < |r|
        ensures r[i].role == RoleAt(i)
      {
        assert r[i] == h[|h| - KeepLast - 1 + i];
      }
    }
  }

  /** `/nai` keeps every history well-formed. */
  lemma NaiKeepsWellFormed(convs: Histories, channelId: int, allowedChannel: int, userId: string,
                           author: string, prompt: Option<string>, call: History -> Option<string>,
                           sendOk: bool, storeOk: bool)
    requires AllWellFormed(convs)
    ensures AllWellFormed(NaiCommand(convs, channelId, allowedChannel, userId, author, prompt, call, sendOk, storeOk).convs)
  {
    if channelId == allowedChannel && HasPrompt(prompt) {
      var h0 := Opened(convs, userId);
      var entry := UserEntry(author, prompt.value);
      if Delivered(convs, userId, author, prompt, call, sendOk) {
        NaiDeliveredAppendsExchange(convs, channelId, allowedChannel, userId, author, prompt, call, sendOk, storeOk);
        ExchangeKeepsWellFormed(h0, entry, Entry(Assistant, call(h0 + [entry]).value));
      } else {
        NaiFailureKeepsOpenedHistory(convs, channelId, allowedChannel, userId, author, prompt, call, sendOk, storeOk);
      }
    }
  }

  /** `/new`: the caller's history becomes the system message alone. */
  function NewConversation(convs: Histories, userId: string): (o: Outcome)
    ensures userId in o.convs && o.convs[userId] == [SystemEntry]
    ensures OthersUnchanged(convs, o.convs, userId)
    ensures o.sent == [Said(NewConversationNotice)]
  {
    Outcome(convs[userId := [SystemEntry]], [Said(NewConversationNotice)])
  }

  /** `/new` keeps every history well-formed. */
  lemma NewKeepsWellFormed(convs: Histories, userId: string)
    requires AllWellFormed(convs)
    ensures AllWellFormed(NewConversation(convs, userId).convs)
  {
  }

  /** The conversation length `/stats` reports: entries minus the system message, only if the user has a history. */
  function ConversationLength(convs: Histories, userId: string): (n: Option<int>)
    ensures n.Some? <==> userId in convs
    ensures n.Some? ==> n.value + 1 == |convs[userId]|
  {
    if userId in convs then Some(|convs[userId]| - 1) else None
  }

  /**
   * `/stats`: the histories are untouched and one report is sent. The message
   * counts it also shows come from a store this model does not include.
   */
  function StatsCommand(convs: Histories, userId: string): (o: Outcome)
    ensures o.convs == convs
    ensures o.sent == [StatsReport(ConversationLength(convs, userId))]
  {
    Outcome(convs, [StatsReport(ConversationLength(convs, userId))])
  }

  /** On a well-formed history the reported length is an even number of entries from 0 to 10. */
  lemma ConversationLengthBounds(convs: Histories, userId: string)
    requires AllWellFormed(convs) && userId in convs
    ensures var n := ConversationLength(convs, userId).value;
      0 <= n <= KeepLast && n % 2 == 0
  {
  }

  /**
   * A delivered answer grows the reported length by two, capped at ten
   * (a first contact counts from zero).
   */
  lemma DeliveredLengthGrowsByTwo(convs: Histories, channelId: int, allowedChannel: int, userId: string,
                                  author: string, prompt: Option<string>, call: History -> Option<string>,
                                  sendOk: bool, storeOk: bool)
    requires AllWellFormed(convs)
    requires channelId == allowedChannel && HasPrompt(prompt)
    requires Delivered(convs, userId, author, prompt, call, sendOk)
    ensures var o := NaiCommand(convs, channelId, allowedChannel, userId, author, prompt, call, sendOk, storeOk);
      var before := if userId in convs then ConversationLength(convs, userId).value else 0;
      ConversationLength(o.convs, userId).value == if before + 2 <= KeepLast then before + 2 else KeepLast
  {
    var h0 := Opened(convs, userId);
    var entry := UserEntry(author, prompt.value);
    var reply := call(h0 + [entry]).value;
    OpenedLength(convs, userId);
    NaiDeliveredAppendsExchange(convs, channelId, allowedChannel, userId, author, prompt, call, sendOk, storeOk);
    ExchangeLength(h0, entry, Entry(Assistant, reply));
    ReportedLength(NaiCommand(convs, channelId, allowedChannel, userId, author, prompt, call, sendOk, storeOk).convs,
                   userId, Trim(h0 + [entry, Entry(Assistant, reply)]));
  }

  /** The history a prompt opens is well-formed, and its length less one is the length reported before. */
  lemma OpenedLength(convs: Histories, userId: string)
    requires AllWellFormed(convs)
    ensures WellFormed(Opened(convs, userId))
    ensures |Opened(convs, userId)| - 1 == if userId in convs then ConversationLength(convs, userId).value else 0
  {
  }

  lemma ReportedLength(convs: Histories, userId: string, h: History)
    requires userId in convs && convs[userId] == h
    ensures ConversationLength(convs, userId).value == |h| - 1
  {
  }

  /** On a well-formed history an exchange adds two entries, and the trim caps the total at eleven. */
  lemma ExchangeLength(h: History, entry: Entry, answer: Entry)
    requires WellFormed(h)
    ensures |Trim(h + [entry, answer])| == if |h| + 2 <= KeepLast + 1 then |h| + 2 else KeepLast + 1
  {
  }

  /** The agent's commands, as discord.py dispatches them; `Unrecognised` covers every other command, the built-in `help` included, and sends nothing here. */
  datatype Command = Nai(prompt: Option<string>) | New | Stats | Unrecognised

  /** The agent's `on_message` guard: only human messages in the allowed channel reach the commands. */
  predicate AgentAccepts(authorIsBot: bool, channelId: int, allowedChannel: int) {
    !authorIsBot && channelId == allowedChannel
  }

  /** One incoming message through the guard and the command it names. */
  function AgentOnMessage(convs: Histories, authorIsBot: bool, channelId: int, allowedChannel: int,
                          userId: string, author: string, cmd: Command,
                          call: History -> Option<string>, sendOk: bool, storeOk: bool): (o: Outcome)
    ensures !AgentAccepts(authorIsBot, channelId, allowedChannel) ==> o == Outcome(convs, [])
    ensures OthersUnchanged(convs, o.convs, userId)
  {
    if !AgentAccepts(authorIsBot, channelId, allowedChannel) then Outcome(convs, [])
    else match cmd
      case Nai(prompt) => NaiCommand(convs, channelId, allowedChannel, userId, author, prompt, call, sendOk, storeOk)
      case New => NewConversation(convs, userId)
      case Stats => StatsCommand(convs, userId)
      case Unrecognised => Outcome(convs, [])
  }

  /** Every message the agent handles keeps every history well-formed. */
  lemma AgentKeepsWellFormed(convs: Histories, authorIsBot: bool, channelId: int, allowedChannel: int,
                             userId: string, author: string, cmd: Command,
                             call: History -> Option<string>, sendOk: bool, storeOk: bool)
    requires AllWellFormed(convs)
    ensures AllWellFormed(AgentOnMessage(convs, authorIsBot, channelId, allowedChannel, userId, author, cmd,
                                         call, sendOk, storeOk).convs)
  {
    if AgentAccepts(authorIsBot, channelId, allowedChannel) && cmd.Nai? {
      NaiKeepsWellFormed(convs, channelId, allowedChannel, userId, author, cmd.prompt, call, sendOk, storeOk);
    }
  }
}

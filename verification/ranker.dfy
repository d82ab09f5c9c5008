/**
 * The retrieval ranker: turns the index's nearest-neighbour hits into the
 * candidate list handed to the diversifier, adjusting each raw distance for
 * author affinity and recency and dropping hits that are too far away.
 */
module Ranker {
  import opened Wrappers
  import opened MessageStore

  /** One search hit: a slot (`-1` for "no neighbour") and its squared distance to the query. */
  datatype Hit = Hit(slot: int, dist: real)

  /** The LangChain message a stored row is turned into. */
  datatype ChatMessage = HumanMessage(content: string) | AiMessage(content: string)

  /** A message that passed the threshold, with the embedding of its text. */
  datatype Candidate<E> = Candidate(msg: ChatMessage, emb: E)

  /** The caller's side of a ranking pass: who asks, when, and the tuning weights. */
  datatype Query = Query(userId: Option<string>, now: real, threshold: real, userWeight: real, recencyWeight: real)

  /** Seconds in a day: the recency bonus has decayed to nothing after this long. */
  const SecondsPerDay: real := 86400.0

  function Min(a: real, b: real): real {
    if a <= b then a else b
  }

  /**
   * The recency bonus of a message written at `timestamp`, as seen at `now`:
   * never more than the weight for a message that is not from the future,
   * and nothing at all from one day on.
   */
  function RecencyScore(recencyWeight: real, now: real, timestamp: real): (r: real)
    ensures recencyWeight >= 0.0 && now >= timestamp ==> 0.0 <= r <= recencyWeight
    ensures now - timestamp >= SecondsPerDay ==> r == 0.0
  {
    var x := Min((now - timestamp) / SecondsPerDay, 1.0);
    assert recencyWeight >= 0.0 && now >= timestamp ==> 0.0 <= x <= 1.0 && 0.0 <= recencyWeight * (1.0 - x);
    assert recencyWeight >= 0.0 && now >= timestamp ==> recencyWeight * (1.0 - x) <= recencyWeight * 1.0;
    recencyWeight * (1.0 - x)
  }

  /**
   * For a message that is not from the future the bonus lies in [0, weight]:
   * the full weight at age 0, falling linearly with age, and 0 from one day on.
   */
  lemma RecencyScoreBounds(recencyWeight: real, now: real, timestamp: real)
    requires recencyWeight >= 0.0
    requires now >= timestamp
    ensures 0.0 <= RecencyScore(recencyWeight, now, timestamp) <= recencyWeight
    ensures now == timestamp ==> RecencyScore(recencyWeight, now, timestamp) == recencyWeight
    ensures now - timestamp >= SecondsPerDay ==> RecencyScore(recencyWeight, now, timestamp) == 0.0
    ensures now - timestamp <= SecondsPerDay ==>
      RecencyScore(recencyWeight, now, timestamp) == recencyWeight - recencyWeight * (now - timestamp) / SecondsPerDay
  {
    var age := now - timestamp;
    var x := Min(age / SecondsPerDay, 1.0);
    assert 0.0 <= x <= 1.0;
    assert 0.0 <= recencyWeight * (1.0 - x);
    assert recencyWeight * (1.0 - x) <= recencyWeight * 1.0;
  }

  /** An older message never gets a larger recency bonus than a newer one. */
  lemma RecencyScoreMonotone(recencyWeight: real, now: real, older: real, newer: real)
    requires recencyWeight >= 0.0
    requires older <= newer
    ensures RecencyScore(recencyWeight, now, older) <= RecencyScore(recencyWeight, now, newer)
  {
    var xo := Min((now - older) / SecondsPerDay, 1.0);
    var xn := Min((now - newer) / SecondsPerDay, 1.0);
    assert (now - newer) / SecondsPerDay <= (now - older) / SecondsPerDay;
    assert xn <= xo;
    assert RecencyScore(recencyWeight, now, older) == recencyWeight * (1.0 - xo);
    assert RecencyScore(recencyWeight, now, newer) == recencyWeight * (1.0 - xn);
    assert recencyWeight * (1.0 - xo) <= recencyWeight * (1.0 - xn);
  }

  /** The affinity bonus applies when the asker is known (non-empty) and wrote the row. */
  predicate AuthorMatches(userId: Option<string>, rowUser: string) {
    userId.Some? && userId.value != "" && rowUser == userId.value
  }

  /**
   * The raw distance, less the affinity bonus when the author matches, less
   * the recency bonus. With non-negative weights and a message not from the
   * future, the adjustments only ever bring a hit closer, and by no more than
   * the two weights together.
   */
  function EffectiveDistance(q: Query, row: Row, dist: real): (r: real)
    ensures q.userWeight >= 0.0 && q.recencyWeight >= 0.0 && q.now >= row.timestamp ==>
      dist - q.userWeight - q.recencyWeight <= r <= dist
    ensures q.now - row.timestamp >= SecondsPerDay && !AuthorMatches(q.userId, row.userId) ==> r == dist
  {
    var d := if AuthorMatches(q.userId, row.userId) then dist - q.userWeight else dist;
    d - RecencyScore(q.recencyWeight, q.now, row.timestamp)
  }

  /**
   * Effective distance in closed form: `dist - user_weight - recency` for the
   * asker's own messages and `dist - recency` for everyone else's.
   */
  lemma EffectiveDistanceCases(q: Query, row: Row, dist: real)
    ensures AuthorMatches(q.userId, row.userId) ==>
      EffectiveDistance(q, row, dist) == dist - q.userWeight - RecencyScore(q.recencyWeight, q.now, row.timestamp)
    ensures !AuthorMatches(q.userId, row.userId) ==>
      EffectiveDistance(q, row, dist) == dist - RecencyScore(q.recencyWeight, q.now, row.timestamp)
  {
  }

  /** Of two equally distant, equally old messages, the asker's own ranks closer by exactly `user_weight`. */
  lemma OwnMessageRanksCloser(q: Query, mine: Row, theirs: Row, dist: real)
    requires q.userId.Some? && q.userId.value != ""
    requires mine.userId == q.userId.value && theirs.userId != q.userId.value
    requires mine.timestamp == theirs.timestamp
    ensures EffectiveDistance(q, mine, dist) == EffectiveDistance(q, theirs, dist) - q.userWeight
  {
  }

  /** The worked example: raw 0.75, same author (0.5), age 0 (0.2), threshold 0.7 is kept at 0.05. */
  lemma EffectiveDistanceExample(row: Row)
    requires row.userId == "A"
    ensures var q := Query(Some("A"), row.timestamp, 0.7, 0.5, 0.2);
      && EffectiveDistance(q, row, 0.75) == 0.05
      && EffectiveDistance(q, row, 0.75) < q.threshold
  {
    RecencyScoreBounds(0.2, row.timestamp, row.timestamp);
  }

  /** The row a hit resolves to: none for the `-1` padding slot or a slot without a row. */
  function Resolve(rows: seq<Row>, h: Hit): Option<Row> {
    if h.slot == -1 then None else Lookup(rows, h.slot)
  }

  /** A hit survives ranking iff it resolves to a row and its effective distance is below the threshold. */
  predicate Kept(q: Query, rows: seq<Row>, h: Hit) {
    var r := Resolve(rows, h);
    r.Some? && EffectiveDistance(q, r.value, h.dist) < q.threshold
  }

  /** AI rows become AI messages, all others human messages. */
  function ToMessage(row: Row): (m: ChatMessage)
    ensures m.content == row.message
    ensures m.AiMessage? <==> row.isBot
  {
    if row.isBot then AiMessage(row.message) else HumanMessage(row.message)
  }

  function ToCandidate<E>(embed: string -> E, row: Row): Candidate<E> {
    Candidate(ToMessage(row), embed(row.message))
  }

  /** The ranking loop over the hits, in the order the index returned them. */
  function Rank<E>(q: Query, rows: seq<Row>, embed: string -> E, hits: seq<Hit>): seq<Candidate<E>>
    decreases |hits|
  {
    if |hits| == 0 then []
    else
      var h := hits[0];
      var rest := Rank(q, rows, embed, hits[1..]);
      if h.slot == -1 then rest
      else match Lookup(rows, h.slot)
        case None => rest
        case Some(row) =>
          if EffectiveDistance(q, row, h.dist) < q.threshold then [ToCandidate(embed, row)] + rest else rest
  }

  /** The positions in `hits[i..]` whose hit is kept, ascending: the reference filter. */
  function KeptFrom(q: Query, rows: seq<Row>, hits: seq<Hit>, i: nat): (r: seq<nat>)
    requires i <= |hits|
    ensures forall a :: 0 <= a < |r| ==> i <= r[a] < |hits| && Kept(q, rows, hits[r[a]])
    ensures forall a, b :: 0 <= a < b < |r| ==> r[a] < r[b]
    ensures forall j :: i <= j < |hits| && Kept(q, rows, hits[j]) ==> j in r
    ensures |r| <= |hits| - i
    decreases |hits| - i
  {
    if i == |hits| then []
    else if Kept(q, rows, hits[i]) then [i] + KeptFrom(q, rows, hits, i + 1)
    else KeptFrom(q, rows, hits, i + 1)
  }

  lemma {:induction false} RankFrom<E>(q: Query, rows: seq<Row>, embed: string -> E, hits: seq<Hit>, i: nat)
    requires i <= |hits|
    ensures var pos := KeptFrom(q, rows, hits, i); var r := Rank(q, rows, embed, hits[i..]);
      && |r| == |pos|
      && forall j :: 0 <= j < |r| ==> r[j] == ToCandidate(embed, Resolve(rows, hits[pos[j]]).value)
    decreases |hits| - i
  {
    if i < |hits| {
      RankFrom(q, rows, embed, hits, i + 1);
      RankStep(q, rows, embed, hits[i..]);
      assert hits[i..][0] == hits[i];
      assert hits[i..][1..] == hits[i + 1..];
    }
  }

  /** One step of the ranking loop: the first hit contributes its candidate exactly when it is kept. */
  lemma RankStep<E>(q: Query, rows: seq<Row>, embed: string -> E, hs: seq<Hit>)
    requires |hs| > 0
    ensures Kept(q, rows, hs[0]) ==>
      Rank(q, rows, embed, hs) == [ToCandidate(embed, Resolve(rows, hs[0]).value)] + Rank(q, rows, embed, hs[1..])
    ensures !Kept(q, rows, hs[0]) ==> Rank(q, rows, embed, hs) == Rank(q, rows, embed, hs[1..])
  {
  }

  /**
   * Ranking is a filter: the candidates are exactly the kept hits, in the
   * index's hit order, each turned into its row's message (an AI message iff
   * the row is a bot's) and the embedding of that message.
   */
  lemma RankIsFilter<E>(q: Query, rows: seq<Row>, embed: string -> E, hits: seq<Hit>)
    ensures var pos := KeptFrom(q, rows, hits, 0); var r := Rank(q, rows, embed, hits);
      && |r| == |pos| <= |hits|
      && (forall j :: 0 <= j < |hits| ==> (Kept(q, rows, hits[j]) <==> j in pos))
      && forall j :: 0 <= j < |r| ==>
           var row := Resolve(rows, hits[pos[j]]).value;
           && r[j].msg == ToMessage(row)
           && r[j].msg.content == row.message
           && (r[j].msg.AiMessage? <==> row.isBot)
           && r[j].emb == embed(row.message)
  {
    RankFrom(q, rows, embed, hits, 0);
    assert hits[0..] == hits;
  }
}

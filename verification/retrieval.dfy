/**
 * `get_relevant_long_term_history`: embed the query, ask the index for twice
 * `k` nearest neighbours, rank them into candidates, and diversify those down
 * to at most `k` messages.
 */
module Retrieval {
  import opened Wrappers
  import opened MessageStore
  import opened Ranker
  import opened Diversifier

  /** The tuning parameters of one retrieval call. */
  datatype Config = Config(k: nat, distanceThreshold: real, userWeight: real, recencyWeight: real,
                           similarityCutoff: real)

  /** The defaults of `get_relevant_long_term_history`, which every caller in the bot uses. */
  const Defaults: Config := Config(6, 0.7, 0.5, 0.2, 0.92)

  /**
   * What the model does not compute itself: the sentence embedder, the
   * nearest-neighbour search (index, query vector, number of neighbours), the
   * cosine similarity, k-means, and the distance from an embedding to a centre.
   */
  datatype Oracles<!E, !C> = Oracles(
    embed: string -> E,
    search: (seq<E>, E, nat) -> seq<Hit>,
    sim: (E, E) -> real,
    kmeans: (seq<E>, nat) -> KMeansFit<C>,
    norm: (E, C) -> real)

  /** The one search call: `k * 2` neighbours of the query's embedding. */
  function Hits<E, C>(st: Store<E>, o: Oracles<E, C>, query: string, cfg: Config): seq<Hit> {
    o.search(st.index, o.embed(query), 2 * cfg.k)
  }

  /** The index answers with at most the number of neighbours it was asked for. */
  predicate SearchBounded<E, C>(st: Store<E>, o: Oracles<E, C>, query: string, cfg: Config) {
    |Hits(st, o, query, cfg)| <= 2 * cfg.k
  }

  function AskerQuery(userId: Option<string>, now: real, cfg: Config): Query {
    Query(userId, now, cfg.distanceThreshold, cfg.userWeight, cfg.recencyWeight)
  }

  /** The ranked candidates of one call. */
  function Candidates<E, C>(st: Store<E>, o: Oracles<E, C>, query: string, userId: Option<string>,
                            now: real, cfg: Config): seq<Candidate<E>> {
    Rank(AskerQuery(userId, now, cfg), st.rows, o.embed, Hits(st, o, query, cfg))
  }

  /** Message `m` is the message of a stored row whose hit survived ranking. */
  predicate FromKeptHit(q: Query, rows: seq<Row>, hits: seq<Hit>, m: ChatMessage) {
    exists j :: 0 <= j < |hits| && Kept(q, rows, hits[j]) && m == ToMessage(Resolve(rows, hits[j]).value)
  }

  /** Some hit survives ranking. */
  predicate AnyKept(q: Query, rows: seq<Row>, hits: seq<Hit>) {
    exists j :: 0 <= j < |hits| && Kept(q, rows, hits[j])
  }

  /**
   * The retrieval call. At most `k` messages come back; each is the message
   * of a stored row whose hit survived ranking; and something comes back
   * exactly when some hit survived.
   */
  function GetRelevantLongTermHistory<E, C>(st: Store<E>, o: Oracles<E, C>, query: string,
                                            userId: Option<string>, now: real, cfg: Config): (r: seq<ChatMessage>)
    requires SearchBounded(st, o, query, cfg)
    ensures |r| <= cfg.k
    ensures forall i :: 0 <= i < |r| ==>
      FromKeptHit(AskerQuery(userId, now, cfg), st.rows, Hits(st, o, query, cfg), r[i])
    ensures |r| > 0 <==> AnyKept(AskerQuery(userId, now, cfg), st.rows, Hits(st, o, query, cfg))
  {
    var cands := Candidates(st, o, query, userId, now, cfg);
    CandidatesAreKeptHits(st, o, query, userId, now, cfg);
    Diversify(cands, cfg.k, cfg.similarityCutoff, o.sim, o.kmeans, o.norm)
  }

  /** The candidates are the messages of the kept hits, and there are some exactly when a hit is kept. */
  lemma CandidatesAreKeptHits<E, C>(st: Store<E>, o: Oracles<E, C>, query: string, userId: Option<string>,
                                    now: real, cfg: Config)
    ensures var q := AskerQuery(userId, now, cfg); var hits := Hits(st, o, query, cfg);
      var cands := Candidates(st, o, query, userId, now, cfg);
      && |cands| <= |hits|
      && (forall a :: 0 <= a < |cands| ==> FromKeptHit(q, st.rows, hits, cands[a].msg))
      && (|cands| > 0 <==> AnyKept(q, st.rows, hits))
  {
    var q := AskerQuery(userId, now, cfg);
    var hits := Hits(st, o, query, cfg);
    var pos := KeptFrom(q, st.rows, hits, 0);
    var cands := Candidates(st, o, query, userId, now, cfg);
    RankIsFilter(q, st.rows, o.embed, hits);
    forall a | 0 <= a < |cands|
      ensures FromKeptHit(q, st.rows, hits, cands[a].msg)
    {
      assert Kept(q, st.rows, hits[pos[a]]);
    }
    if |cands| > 0 {
      assert Kept(q, st.rows, hits[pos[0]]);
    }
    if AnyKept(q, st.rows, hits) {
      var j :| 0 <= j < |hits| && Kept(q, st.rows, hits[j]);
      assert j in pos;
    }
  }

  /**
   * With at most `k` candidates, none too similar to an earlier one, the call
   * returns every candidate's message in the index's hit order.
   */
  lemma FewDiverseCandidatesAllReturned<E, C>(st: Store<E>, o: Oracles<E, C>, query: string,
                                              userId: Option<string>, now: real, cfg: Config)
    requires SearchBounded(st, o, query, cfg)
    requires var cands := Candidates(st, o, query, userId, now, cfg);
      && |cands| <= cfg.k
      && forall a, b :: 0 <= a < b < |cands| ==> o.sim(cands[b].emb, cands[a].emb) < cfg.similarityCutoff
    ensures GetRelevantLongTermHistory(st, o, query, userId, now, cfg) == Messages(Candidates(st, o, query, userId, now, cfg))
  {
    var cands := Candidates(st, o, query, userId, now, cfg);
    DiversifyKeepsFewDiverse(cands, cfg.k, cfg.similarityCutoff, o.sim, o.kmeans, o.norm);
  }
}

/**
 * The diversifier: reduces the ranked candidates to at most `k` mutually
 * dissimilar messages. Few candidates go through a greedy cosine-cutoff pass;
 * many go through k-means, one representative per cluster, with the greedy
 * pass as the fallback when clustering raises.
 *
 * Selections are sequences of candidate positions; the messages returned are
 * the candidates' messages at those positions.
 */
module Diversifier {
  import opened Wrappers
  import opened Ranker

  /** Every position is a position of the candidate list. */
  predicate InRange(picks: seq<nat>, n: nat) {
    forall a :: 0 <= a < |picks| ==> picks[a] < n
  }

  /** Positions strictly ascending: an order-preserving subsequence. */
  predicate Increasing(picks: seq<nat>) {
    forall a, b :: 0 <= a < b < |picks| ==> picks[a] < picks[b]
  }

  /** No position is picked twice. */
  predicate Distinct(picks: seq<nat>) {
    forall a, b :: 0 <= a < b < |picks| ==> picks[a] != picks[b]
  }

  /** The greedy acceptance test: `e` is strictly below the cutoff in similarity to every pick so far. */
  predicate BelowCutoffToAll<E>(cands: seq<Candidate<E>>, sim: (E, E) -> real, cutoff: real, picks: seq<nat>, e: E)
    requires InRange(picks, |cands|)
  {
    forall a :: 0 <= a < |picks| ==> sim(e, cands[picks[a]].emb) < cutoff
  }

  /** Every pick is below the cutoff in similarity to every earlier pick. */
  predicate Diverse<E>(cands: seq<Candidate<E>>, sim: (E, E) -> real, cutoff: real, picks: seq<nat>)
    requires InRange(picks, |cands|)
  {
    forall a, b :: 0 <= a < b < |picks| ==> sim(cands[picks[b]].emb, cands[picks[a]].emb) < cutoff
  }

  /** Position `j` is among the picks. */
  predicate Picked(picks: seq<nat>, j: nat) {
    exists a :: 0 <= a < |picks| && picks[a] == j
  }

  /** Candidate `j` is too similar to some pick made before it. */
  predicate Blocked<E>(cands: seq<Candidate<E>>, sim: (E, E) -> real, cutoff: real, picks: seq<nat>, j: nat)
    requires InRange(picks, |cands|) && j < |cands|
  {
    exists a :: 0 <= a < |picks| && picks[a] < j && sim(cands[j].emb, cands[picks[a]].emb) >= cutoff
  }

  /** One iteration's acceptance test: the first candidate always, later ones only below the cutoff to every pick. */
  function Accept<E>(cands: seq<Candidate<E>>, sim: (E, E) -> real, cutoff: real, i: nat, picks: seq<nat>): seq<nat>
    requires i < |cands| && InRange(picks, |cands|)
  {
    if |picks| == 0 || BelowCutoffToAll(cands, sim, cutoff, picks, cands[i].emb) then picks + [i] else picks
  }

  /** The greedy loop from candidate `i` on, with `picks` accepted so far; it stops once `k` are accepted. */
  function GreedyFrom<E>(cands: seq<Candidate<E>>, sim: (E, E) -> real, cutoff: real, k: nat,
                         i: nat, picks: seq<nat>): seq<nat>
    requires i <= |cands| && InRange(picks, |cands|)
    decreases |cands| - i
  {
    if i == |cands| then picks
    else
      var picks' := Accept(cands, sim, cutoff, i, picks);
      if |picks'| >= k then picks' else GreedyFrom(cands, sim, cutoff, k, i + 1, picks')
  }

  /** The greedy pass over all candidates. */
  function Greedy<E>(cands: seq<Candidate<E>>, sim: (E, E) -> real, cutoff: real, k: nat): seq<nat> {
    GreedyFrom(cands, sim, cutoff, k, 0, [])
  }

  /** What holds of the picks made among the first `i` candidates. */
  ghost predicate GreedyPrefix<E>(cands: seq<Candidate<E>>, sim: (E, E) -> real, cutoff: real, i: nat, picks: seq<nat>)
  {
    && i <= |cands|
    && InRange(picks, i)
    && Increasing(picks)
    && Diverse(cands, sim, cutoff, picks)
    && (i == 0 ==> picks == [])
    && (i > 0 ==> |picks| > 0 && picks[0] == 0)
    && (forall j :: 0 <= j < i ==> Picked(picks, j) || Blocked(cands, sim, cutoff, picks, j))
  }

  /** What the greedy pass promises of its result `r`. */
  ghost predicate GreedyResult<E>(cands: seq<Candidate<E>>, sim: (E, E) -> real, cutoff: real, k: nat, r: seq<nat>)
  {
    && InRange(r, |cands|)
    && Increasing(r)
    && Diverse(cands, sim, cutoff, r)
    && (|cands| > 0 ==> |r| > 0 && r[0] == 0)
    && (|r| <= k || |r| == 1)
    && (forall j :: 0 <= j < |cands| ==>
          || Picked(r, j)
          || Blocked(cands, sim, cutoff, r, j)
          || (|r| >= k && |r| > 0 && r[|r| - 1] < j))
  }

  lemma BlockedExtends<E>(cands: seq<Candidate<E>>, sim: (E, E) -> real, cutoff: real, picks: seq<nat>, i: nat, j: nat)
    requires InRange(picks, |cands|) && i < |cands| && j < |cands|
    requires Blocked(cands, sim, cutoff, picks, j)
    ensures Blocked(cands, sim, cutoff, picks + [i], j)
  {
    var a :| 0 <= a < |picks| && picks[a] < j && sim(cands[j].emb, cands[picks[a]].emb) >= cutoff;
    assert (picks + [i])[a] == picks[a];
  }

  /** Accepting candidate `i` extends the prefix facts to the first `i + 1` candidates. */
  lemma TakeExtends<E>(cands: seq<Candidate<E>>, sim: (E, E) -> real, cutoff: real, i: nat, picks: seq<nat>)
    requires GreedyPrefix(cands, sim, cutoff, i, picks) && i < |cands|
    requires |picks| == 0 || BelowCutoffToAll(cands, sim, cutoff, picks, cands[i].emb)
    ensures GreedyPrefix(cands, sim, cutoff, i + 1, picks + [i])
  {
    var p := picks + [i];
    assert InRange(p, i + 1);
    assert Increasing(p);
    forall a, b | 0 <= a < b < |p|
      ensures sim(cands[p[b]].emb, cands[p[a]].emb) < cutoff
    {
      if b == |picks| {
        assert p[a] == picks[a];
      }
    }
    forall j | 0 <= j < i + 1
      ensures Picked(p, j) || Blocked(cands, sim, cutoff, p, j)
    {
      if j == i {
        assert p[|picks|] == i;
      } else if Picked(picks, j) {
        var a :| 0 <= a < |picks| && picks[a] == j;
        assert p[a] == j;
      } else {
        BlockedExtends(cands, sim, cutoff, picks, i, j);
      }
    }
  }

  /** Rejecting candidate `i` extends the prefix facts too: it is blocked by an earlier pick. */
  lemma SkipExtends<E>(cands: seq<Candidate<E>>, sim: (E, E) -> real, cutoff: real, i: nat, picks: seq<nat>)
    requires GreedyPrefix(cands, sim, cutoff, i, picks) && i < |cands|
    requires !(|picks| == 0 || BelowCutoffToAll(cands, sim, cutoff, picks, cands[i].emb))
    ensures GreedyPrefix(cands, sim, cutoff, i + 1, picks)
  {
    var a :| 0 <= a < |picks| && !(sim(cands[i].emb, cands[picks[a]].emb) < cutoff);
    assert Blocked(cands, sim, cutoff, picks, i);
  }

  /** Picks that end with candidate `i` and number `k` (or one, at the start) keep the result promise. */
  lemma StopResult<E>(cands: seq<Candidate<E>>, sim: (E, E) -> real, cutoff: real, k: nat, i: nat, picks: seq<nat>)
    requires GreedyPrefix(cands, sim, cutoff, i + 1, picks + [i])
    requires i == 0 ==> picks == []
    requires i > 0 ==> |picks| < k
    requires |picks| + 1 >= k
    ensures GreedyResult(cands, sim, cutoff, k, picks + [i])
  {
  }

  /** Accepting candidate `i` as the `k`-th pick (or as the first) ends the loop keeping the result promise. */
  lemma TakeAndStop<E>(cands: seq<Candidate<E>>, sim: (E, E) -> real, cutoff: real, k: nat, i: nat, picks: seq<nat>)
    requires GreedyPrefix(cands, sim, cutoff, i, picks) && i < |cands|
    requires i > 0 ==> |picks| < k
    requires |picks| == 0 || BelowCutoffToAll(cands, sim, cutoff, picks, cands[i].emb)
    requires |picks| + 1 >= k
    ensures GreedyResult(cands, sim, cutoff, k, GreedyFrom(cands, sim, cutoff, k, i, picks))
  {
    TakeExtends(cands, sim, cutoff, i, picks);
    assert GreedyFrom(cands, sim, cutoff, k, i, picks) == picks + [i];
    StopResult(cands, sim, cutoff, k, i, picks);
  }

  /** Accepting candidate `i` short of `k` picks hands over to the loop from `i + 1`. */
  lemma TakeAndGoOn<E>(cands: seq<Candidate<E>>, sim: (E, E) -> real, cutoff: real, k: nat, i: nat, picks: seq<nat>)
    requires i < |cands| && InRange(picks, |cands|)
    requires |picks| == 0 || BelowCutoffToAll(cands, sim, cutoff, picks, cands[i].emb)
    requires |picks| + 1 < k
    ensures GreedyFrom(cands, sim, cutoff, k, i, picks) == GreedyFrom(cands, sim, cutoff, k, i + 1, picks + [i])
  {
  }

  /** Rejecting candidate `i` short of `k` picks hands over to the loop from `i + 1` with the same picks. */
  lemma SkipAndGoOn<E>(cands: seq<Candidate<E>>, sim: (E, E) -> real, cutoff: real, k: nat, i: nat, picks: seq<nat>)
    requires i < |cands| && InRange(picks, |cands|)
    requires !(|picks| == 0 || BelowCutoffToAll(cands, sim, cutoff, picks, cands[i].emb))
    requires |picks| < k
    ensures GreedyFrom(cands, sim, cutoff, k, i, picks) == GreedyFrom(cands, sim, cutoff, k, i + 1, picks)
  {
  }

  /** Running out of candidates short of `k` picks keeps the result promise. */
  lemma RunOut<E>(cands: seq<Candidate<E>>, sim: (E, E) -> real, cutoff: real, k: nat, picks: seq<nat>)
    requires GreedyPrefix(cands, sim, cutoff, |cands|, picks)
    requires |cands| > 0 ==> |picks| < k
    ensures GreedyResult(cands, sim, cutoff, k, GreedyFrom(cands, sim, cutoff, k, |cands|, picks))
  {
    assert GreedyFrom(cands, sim, cutoff, k, |cands|, picks) == picks;
  }

  /** The greedy loop, run from a state reached after candidate `i - 1`, keeps the result promise. */
  lemma {:induction false} GreedyFromSpec<E>(cands: seq<Candidate<E>>, sim: (E, E) -> real, cutoff: real, k: nat,
                                             i: nat, picks: seq<nat>)
    requires GreedyPrefix(cands, sim, cutoff, i, picks)
    requires i > 0 ==> |picks| < k
    ensures GreedyResult(cands, sim, cutoff, k, GreedyFrom(cands, sim, cutoff, k, i, picks))
    decreases |cands| - i, 2
  {
    if i == |cands| {
      RunOut(cands, sim, cutoff, k, picks);
    } else if !(|picks| == 0 || BelowCutoffToAll(cands, sim, cutoff, picks, cands[i].emb)) {
      GreedySkipSpec(cands, sim, cutoff, k, i, picks);
    } else if |picks| + 1 >= k {
      TakeAndStop(cands, sim, cutoff, k, i, picks);
    } else {
      GreedyTakeSpec(cands, sim, cutoff, k, i, picks);
    }
  }

  /** The loop keeps the result promise from a turn that accepts candidate `i` short of `k` picks. */
  lemma {:induction false} GreedyTakeSpec<E>(cands: seq<Candidate<E>>, sim: (E, E) -> real, cutoff: real, k: nat,
                                             i: nat, picks: seq<nat>)
    requires GreedyPrefix(cands, sim, cutoff, i, picks) && i < |cands|
    requires |picks| == 0 || BelowCutoffToAll(cands, sim, cutoff, picks, cands[i].emb)
    requires |picks| + 1 < k
    ensures GreedyResult(cands, sim, cutoff, k, GreedyFrom(cands, sim, cutoff, k, i, picks))
    decreases |cands| - i, 1
  {
    TakeExtends(cands, sim, cutoff, i, picks);
    TakeAndGoOn(cands, sim, cutoff, k, i, picks);
    HandOver(cands, sim, cutoff, k, i, picks + [i], GreedyFrom(cands, sim, cutoff, k, i, picks));
  }

  /** A result the loop from `i + 1` returns, from a state reached after candidate `i`, keeps the result promise. */
  lemma {:induction false} HandOver<E>(cands: seq<Candidate<E>>, sim: (E, E) -> real, cutoff: real, k: nat,
                                       i: nat, next: seq<nat>, r: seq<nat>)
    requires GreedyPrefix(cands, sim, cutoff, i + 1, next) && |next| < k
    requires r == GreedyFrom(cands, sim, cutoff, k, i + 1, next)
    ensures GreedyResult(cands, sim, cutoff, k, r)
    decreases |cands| - i, 0
  {
    GreedyFromSpec(cands, sim, cutoff, k, i + 1, next);
  }

  /** The loop keeps the result promise from a turn that rejects candidate `i`. */
  lemma {:induction false} GreedySkipSpec<E>(cands: seq<Candidate<E>>, sim: (E, E) -> real, cutoff: real, k: nat,
                                             i: nat, picks: seq<nat>)
    requires GreedyPrefix(cands, sim, cutoff, i, picks) && i < |cands|
    requires i > 0 ==> |picks| < k
    requires !(|picks| == 0 || BelowCutoffToAll(cands, sim, cutoff, picks, cands[i].emb))
    ensures GreedyResult(cands, sim, cutoff, k, GreedyFrom(cands, sim, cutoff, k, i, picks))
    decreases |cands| - i, 0
  {
    SkipExtends(cands, sim, cutoff, i, picks);
    GreedyFromSpec(cands, sim, cutoff, k, i + 1, picks);
    SkipAndGoOn(cands, sim, cutoff, k, i, picks);
  }

  /**
   * The greedy pass: an order-preserving subsequence of the candidates that
   * always starts with the first one, in which every pick is below the cutoff
   * to every earlier pick, of length at most `k` (one when `k` is 0), and
   * which skips a candidate only because it is too similar to an earlier pick
   * or because `k` picks had already been made.
   */
  lemma GreedySpec<E>(cands: seq<Candidate<E>>, sim: (E, E) -> real, cutoff: real, k: nat)
    ensures GreedyResult(cands, sim, cutoff, k, Greedy(cands, sim, cutoff, k))
  {
    GreedyFromSpec(cands, sim, cutoff, k, 0, []);
  }

  /** When no candidate is too similar to an earlier one and there are at most `k`, the greedy pass keeps them all. */
  lemma {:induction false} GreedyKeepsDiverseCandidates<E>(cands: seq<Candidate<E>>, sim: (E, E) -> real, cutoff: real, k: nat)
    requires |cands| <= k
    requires forall a, b :: 0 <= a < b < |cands| ==> sim(cands[b].emb, cands[a].emb) < cutoff
    ensures Greedy(cands, sim, cutoff, k) == seq(|cands|, j => j)
  {
    var r := Greedy(cands, sim, cutoff, k);
    GreedySpec(cands, sim, cutoff, k);
    forall j | 0 <= j < |cands|
      ensures Picked(r, j)
    {
      if !Picked(r, j) && !Blocked(cands, sim, cutoff, r, j) {
        IncreasingBound(r, |cands|);
      }
    }
    IncreasingCover(r, |cands|);
  }

  /** An ascending run of positions below `n` has at most `n` elements, and the last is at least `|r| - 1`. */
  lemma {:induction false} IncreasingBound(r: seq<nat>, n: nat)
    requires Increasing(r) && InRange(r, n)
    ensures |r| <= n
    ensures |r| > 0 ==> r[|r| - 1] >= |r| - 1
    decreases |r|
  {
    if |r| > 0 {
      var t := r[..|r| - 1];
      IncreasingBound(t, r[|r| - 1]);
    }
  }

  /** An ascending run of positions below `n` that contains each of them is `0, 1, ..., n-1`. */
  lemma {:induction false} IncreasingCover(r: seq<nat>, n: nat)
    requires Increasing(r) && InRange(r, n)
    requires forall j :: 0 <= j < n ==> Picked(r, j)
    ensures r == seq(n, j => j)
    decreases n
  {
    IncreasingBound(r, n);
    if n > 0 {
      assert Picked(r, n - 1);
      var t := r[..|r| - 1];
      assert r[|r| - 1] == n - 1 by {
        var a :| 0 <= a < |r| && r[a] == n - 1;
        assert r[a] <= r[|r| - 1];
      }
      forall j | 0 <= j < n - 1
        ensures Picked(t, j)
      {
        assert Picked(r, j);
        var a :| 0 <= a < |r| && r[a] == j;
        assert a != |r| - 1;
        assert t[a] == j;
      }
      IncreasingCover(t, n - 1);
      assert |r| == n;
      forall j | 0 <= j < n
        ensures r[j] == j
      {
        if j < n - 1 {
          assert r[j] == t[j];
        }
      }
    }
  }

  /** The outcome of the k-means oracle: raised, or one label per embedding and one centre per cluster. */
  datatype KMeansFit<C> = KMeansRaised | KMeansFit(labels: seq<int>, centres: seq<C>)

  function Embeddings<E>(cands: seq<Candidate<E>>): (r: seq<E>)
    ensures |r| == |cands| && forall j :: 0 <= j < |cands| ==> r[j] == cands[j].emb
  {
    seq(|cands|, j requires 0 <= j < |cands| => cands[j].emb)
  }

  /** No candidate carries label `c`. */
  predicate EmptyCluster(labels: seq<int>, c: int) {
    forall j :: 0 <= j < |labels| ==> labels[j] != c
  }

  /**
   * `b` is the representative the minimum by distance to the centre picks from the
   * members of cluster `c` among the first `upto` candidates: a member, at least as close as
   * every member, and strictly closer than every member before it.
   */
  predicate IsClosest<E, C>(cands: seq<Candidate<E>>, labels: seq<int>, centre: C, norm: (E, C) -> real,
                            c: int, b: nat, upto: nat)
    requires |labels| == |cands| && upto <= |cands|
  {
    && b < upto && labels[b] == c
    && (forall j :: 0 <= j < upto && labels[j] == c ==> norm(cands[b].emb, centre) <= norm(cands[j].emb, centre))
    && (forall j :: 0 <= j < b && labels[j] == c ==> norm(cands[b].emb, centre) < norm(cands[j].emb, centre))
  }

  /** The minimum by distance to the centre over the members of cluster `c`, from candidate `i` on, with the best so far. */
  function ClosestFrom<E, C>(cands: seq<Candidate<E>>, labels: seq<int>, centre: C, norm: (E, C) -> real,
                             c: int, i: nat, best: Option<nat>): (r: Option<nat>)
    requires |labels| == |cands| && i <= |cands|
    requires best.None? ==> forall j :: 0 <= j < i ==> labels[j] != c
    requires best.Some? ==> IsClosest(cands, labels, centre, norm, c, best.value, i)
    ensures r.None? ==> EmptyCluster(labels, c)
    ensures r.Some? ==> IsClosest(cands, labels, centre, norm, c, r.value, |cands|)
    decreases |cands| - i
  {
    if i == |cands| then best
    else if labels[i] != c then ClosestFrom(cands, labels, centre, norm, c, i + 1, best)
    else match best
      case None => ClosestFrom(cands, labels, centre, norm, c, i + 1, Some(i))
      case Some(b) =>
        if norm(cands[i].emb, centre) < norm(cands[b].emb, centre)
        then ClosestFrom(cands, labels, centre, norm, c, i + 1, Some(i))
        else ClosestFrom(cands, labels, centre, norm, c, i + 1, best)
  }

  /** One representative per cluster `c .. nClusters-1`, or none when some cluster is empty (`min` of nothing raises). */
  function ClusterPicksFrom<E, C>(cands: seq<Candidate<E>>, labels: seq<int>, centres: seq<C>, norm: (E, C) -> real,
                                  c: nat): (r: Option<seq<nat>>)
    requires |labels| == |cands| && c <= |centres|
    ensures r.Some? ==> |r.value| == |centres| - c
    ensures r.Some? ==> forall a :: 0 <= a < |r.value| ==>
      IsClosest(cands, labels, centres[c + a], norm, c + a, r.value[a], |cands|)
    ensures r.None? ==> exists e :: c <= e < |centres| && EmptyCluster(labels, e)
    decreases |centres| - c
  {
    if c == |centres| then Some([])
    else match ClosestFrom(cands, labels, centres[c], norm, c, 0, None)
      case None => None
      case Some(b) =>
        match ClusterPicksFrom(cands, labels, centres, norm, c + 1)
        case None => None
        case Some(rest) => Some([b] + rest)
  }

  /**
   * The k-means pass: `min(k, n)` clusters, then the representative of each
   * cluster in cluster order. `None` is the pass raising: KMeans rejecting zero
   * clusters, the oracle raising, or an empty cluster. The oracle is assumed to
   * return one label per embedding and one centre per cluster, as sklearn's
   * `KMeans` does; a fit of any other shape is treated as a raise.
   */
  function ClusterSelect<E, C>(cands: seq<Candidate<E>>, kmeans: (seq<E>, nat) -> KMeansFit<C>,
                               norm: (E, C) -> real, k: nat): Option<seq<nat>>
  {
    var nClusters := if k <= |cands| then k else |cands|;
    if nClusters == 0 then None
    else match kmeans(Embeddings(cands), nClusters)
      case KMeansRaised => None
      case KMeansFit(labels, centres) =>
        if |labels| != |cands| || |centres| != nClusters then None
        else ClusterPicksFrom(cands, labels, centres, norm, 0)
  }

  /**
   * Cluster path: with more than `k` candidates there are exactly `k` clusters,
   * and a successful pass picks, for each cluster in order, the member closest
   * to its centre (the first such on ties); a failed pass had an empty cluster
   * or the clustering itself raised.
   */
  lemma ClusterSelectSpec<E, C>(cands: seq<Candidate<E>>, kmeans: (seq<E>, nat) -> KMeansFit<C>,
                                norm: (E, C) -> real, k: nat)
    requires |cands| > k
    ensures var r := ClusterSelect(cands, kmeans, norm, k);
      r.Some? ==>
        && k > 0
        && var fit := kmeans(Embeddings(cands), k);
        && fit.KMeansFit? && |fit.labels| == |cands| && |fit.centres| == k
        && |r.value| == k
        && InRange(r.value, |cands|)
        && Distinct(r.value)
        && forall c :: 0 <= c < k ==>
             IsClosest(cands, fit.labels, fit.centres[c], norm, c, r.value[c], |cands|)
    ensures var fit := kmeans(Embeddings(cands), k);
      ClusterSelect(cands, kmeans, norm, k).None? <==>
        || k == 0
        || fit.KMeansRaised?
        || |fit.labels| != |cands| || |fit.centres| != k
        || exists c :: 0 <= c < k && EmptyCluster(fit.labels, c)
  {
    var fit := kmeans(Embeddings(cands), k);
    var r := ClusterSelect(cands, kmeans, norm, k);
    if r.Some? {
      forall a, b | 0 <= a < b < |r.value|
        ensures r.value[a] != r.value[b]
      {
        assert fit.labels[r.value[a]] == a;
        assert fit.labels[r.value[b]] == b;
      }
      forall c | 0 <= c < k
        ensures !EmptyCluster(fit.labels, c)
      {
        assert fit.labels[r.value[c]] == c;
      }
    }
  }

  /** A message equal in value to `m` has already been selected. */
  predicate MsgSelected<E>(cands: seq<Candidate<E>>, picks: seq<nat>, m: ChatMessage)
    requires InRange(picks, |cands|)
  {
    exists a :: 0 <= a < |picks| && cands[picks[a]].msg == m
  }

  /**
   * The top-up loop from candidate `i` on: it appends, in candidate order and
   * up to `k` picks in all, each candidate whose message is not yet selected
   * and which is below the cutoff to every pick.
   */
  function TopUpFrom<E>(cands: seq<Candidate<E>>, sim: (E, E) -> real, cutoff: real, k: nat,
                        i: nat, picks: seq<nat>): (r: seq<nat>)
    requires i <= |cands| && InRange(picks, |cands|) && Distinct(picks)
    ensures InRange(r, |cands|) && Distinct(r)
    ensures |r| >= |picks| && r[..|picks|] == picks
    ensures |picks| >= k ==> r == picks
    ensures |picks| <= k ==> |r| <= k
    decreases |cands| - i
  {
    if i == |cands| then picks
    else if !MsgSelected(cands, picks, cands[i].msg) && |picks| < k
            && BelowCutoffToAll(cands, sim, cutoff, picks, cands[i].emb)
    then
      var r := TopUpFrom(cands, sim, cutoff, k, i + 1, picks + [i]);
      assert r[..|picks| + 1][..|picks|] == picks;
      r
    else TopUpFrom(cands, sim, cutoff, k, i + 1, picks)
  }

  /** The top-up step: it runs only when fewer than `k` candidates were picked. */
  function TopUp<E>(cands: seq<Candidate<E>>, sim: (E, E) -> real, cutoff: real, k: nat, picks: seq<nat>): (r: seq<nat>)
    requires InRange(picks, |cands|) && Distinct(picks)
    ensures InRange(r, |cands|) && Distinct(r)
    ensures |picks| <= k ==> |r| <= k
    ensures |picks| >= k ==> r == picks
    ensures |r| >= |picks| && r[..|picks|] == picks
  {
    if |picks| < k then TopUpFrom(cands, sim, cutoff, k, 0, picks) else picks
  }

  /** The diversification step, as positions into the candidate list. */
  function DiversifyPicks<E, C>(cands: seq<Candidate<E>>, k: nat, cutoff: real, sim: (E, E) -> real,
                                kmeans: (seq<E>, nat) -> KMeansFit<C>, norm: (E, C) -> real): (r: seq<nat>)
    ensures InRange(r, |cands|)
    ensures Distinct(r)
    ensures k > 0 ==> |r| <= k
    ensures |cands| > 0 ==> |r| > 0
    ensures |cands| == 0 ==> r == []
  {
    if |cands| > k then
      match ClusterSelect(cands, kmeans, norm, k)
      case Some(picks) =>
        ClusterSelectSpec(cands, kmeans, norm, k);
        TopUp(cands, sim, cutoff, k, picks)
      case None =>
        GreedySpec(cands, sim, cutoff, k);
        Greedy(cands, sim, cutoff, k)
    else
      GreedySpec(cands, sim, cutoff, k);
      Greedy(cands, sim, cutoff, k)
  }

  /** The diversified messages, in selection order. */
  function Diversify<E, C>(cands: seq<Candidate<E>>, k: nat, cutoff: real, sim: (E, E) -> real,
                           kmeans: (seq<E>, nat) -> KMeansFit<C>, norm: (E, C) -> real): (r: seq<ChatMessage>)
    ensures k > 0 ==> |r| <= k
    ensures |cands| > 0 ==> |r| > 0
    ensures |cands| == 0 ==> r == []
    ensures forall j :: 0 <= j < |r| ==> r[j] in Messages(cands)
  {
    var picks := DiversifyPicks(cands, k, cutoff, sim, kmeans, norm);
    seq(|picks|, j requires 0 <= j < |picks| => cands[picks[j]].msg)
  }

  function Messages<E>(cands: seq<Candidate<E>>): (r: seq<ChatMessage>)
    ensures |r| == |cands| && forall j :: 0 <= j < |cands| ==> r[j] == cands[j].msg
  {
    seq(|cands|, j requires 0 <= j < |cands| => cands[j].msg)
  }

  /** At most `k` candidates, none too similar to an earlier one: every candidate's message comes back, in order. */
  lemma DiversifyKeepsFewDiverse<E, C>(cands: seq<Candidate<E>>, k: nat, cutoff: real, sim: (E, E) -> real,
                                       kmeans: (seq<E>, nat) -> KMeansFit<C>, norm: (E, C) -> real)
    requires |cands| <= k
    requires forall a, b :: 0 <= a < b < |cands| ==> sim(cands[b].emb, cands[a].emb) < cutoff
    ensures Diversify(cands, k, cutoff, sim, kmeans, norm) == Messages(cands)
  {
    DiversifyRegimes(cands, k, cutoff, sim, kmeans, norm);
    GreedyKeepsDiverseCandidates(cands, sim, cutoff, k);
  }

  /**
   * Which regime runs: at most `k` candidates take the greedy pass; more than
   * `k` take the cluster pass (whose top-up is never reached, the pass having
   * already picked `k`), and fall back to the greedy pass over all candidates
   * exactly when that pass raises.
   */
  lemma DiversifyRegimes<E, C>(cands: seq<Candidate<E>>, k: nat, cutoff: real, sim: (E, E) -> real,
                               kmeans: (seq<E>, nat) -> KMeansFit<C>, norm: (E, C) -> real)
    ensures |cands| <= k ==> DiversifyPicks(cands, k, cutoff, sim, kmeans, norm) == Greedy(cands, sim, cutoff, k)
    ensures |cands| > k && ClusterSelect(cands, kmeans, norm, k).None? ==>
      DiversifyPicks(cands, k, cutoff, sim, kmeans, norm) == Greedy(cands, sim, cutoff, k)
    ensures |cands| > k && ClusterSelect(cands, kmeans, norm, k).Some? ==>
      && DiversifyPicks(cands, k, cutoff, sim, kmeans, norm) == ClusterSelect(cands, kmeans, norm, k).value
      && |DiversifyPicks(cands, k, cutoff, sim, kmeans, norm)| == k
  {
    if |cands| > k {
      ClusterSelectSpec(cands, kmeans, norm, k);
    }
  }

  /**
   * The greedy regimes keep the similarity cutoff between every pair they
   * return; the cluster regime does not check it: three identical candidates,
   * `k` = 2 and clusters {0}, {1, 2} return candidates 0 and 1, whose
   * similarity is 1.
   */
  lemma ClusterPathMayKeepNearDuplicates()
    ensures var cands := [Candidate(HumanMessage("a"), 0), Candidate(HumanMessage("b"), 0), Candidate(HumanMessage("c"), 0)];
      var sim := (x: int, y: int) => 1.0;
      var kmeans := (es: seq<int>, n: nat) => KMeansFit([0, 1, 1], [0, 0]);
      var norm := (x: int, c: int) => 0.0;
      var r := DiversifyPicks(cands, 2, 0.92, sim, kmeans, norm);
      r == [0, 1] && sim(cands[r[1]].emb, cands[r[0]].emb) >= 0.92
  {
    var cands := [Candidate(HumanMessage("a"), 0), Candidate(HumanMessage("b"), 0), Candidate(HumanMessage("c"), 0)];
    var kmeans := (es: seq<int>, n: nat) => KMeansFit([0, 1, 1], [0, 0]);
    var norm := (x: int, c: int) => 0.0;
    var labels := [0, 1, 1];
    assert ClosestFrom(cands, labels, 0, norm, 0, 0, None) == Some(0);
    assert ClosestFrom(cands, labels, 0, norm, 1, 0, None) == Some(1);
  }

  /** On the greedy regimes every returned pair is below the cutoff, and the first candidate is returned. */
  lemma GreedyRegimeDiverse<E, C>(cands: seq<Candidate<E>>, k: nat, cutoff: real, sim: (E, E) -> real,
                                  kmeans: (seq<E>, nat) -> KMeansFit<C>, norm: (E, C) -> real)
    requires |cands| <= k || ClusterSelect(cands, kmeans, norm, k).None?
    ensures var r := DiversifyPicks(cands, k, cutoff, sim, kmeans, norm);
      && Increasing(r)
      && Diverse(cands, sim, cutoff, r)
      && (|cands| > 0 ==> r[0] == 0)
  {
    DiversifyRegimes(cands, k, cutoff, sim, kmeans, norm);
    GreedySpec(cands, sim, cutoff, k);
  }
}

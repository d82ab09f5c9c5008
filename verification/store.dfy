/**
 * The long-term message memory's two stores: the vector index (one embedding
 * per slot, append-only) and the `messages` table (one row per saved message,
 * carrying the slot of its vector in `embeddingId`).
 */
module MessageStore {
  import opened Wrappers

  /** A row of the `messages` table; `summary` is the whole message, summarisation being switched off. */
  datatype Row = Row(userId: string, message: string, summary: string, isBot: bool, timestamp: real, embeddingId: int)

  /** The vector index (vectors in slot order) and the message table (rows in insertion order). */
  datatype Store<E> = Store(index: seq<E>, rows: seq<Row>)

  /** Every row points at a vector the index holds. */
  ghost predicate Consistent<E>(st: Store<E>) {
    forall i :: 0 <= i < |st.rows| ==> 0 <= st.rows[i].embeddingId < |st.index|
  }

  /** Index and table in lock-step: row `i` describes the vector in slot `i`. */
  ghost predicate Synced<E>(st: Store<E>) {
    && |st.rows| == |st.index|
    && forall i :: 0 <= i < |st.rows| ==> st.rows[i].embeddingId == i
  }

  /** The position of the first row whose `embeddingId` is `slot`: the row the table lookup by slot fetches first. */
  function LookupPos(rows: seq<Row>, slot: int): (r: Option<nat>)
    ensures r.Some? ==> r.value < |rows| && rows[r.value].embeddingId == slot
    ensures r.Some? ==> forall j :: 0 <= j < r.value ==> rows[j].embeddingId != slot
    ensures r.None? ==> forall j :: 0 <= j < |rows| ==> rows[j].embeddingId != slot
  {
    if |rows| == 0 then None
    else if rows[0].embeddingId == slot then Some(0)
    else match LookupPos(rows[1..], slot)
      case None => None
      case Some(p) => Some(p + 1)
  }

  /** The row stored for `slot`, if any. */
  function Lookup(rows: seq<Row>, slot: int): Option<Row> {
    match LookupPos(rows, slot)
    case None => None
    case Some(p) => Some(rows[p])
  }

  /** Rows appended after the ones that mention `slot` do not change what a lookup of `slot` finds. */
  lemma LookupPastAppend(rows: seq<Row>, extra: seq<Row>, slot: int)
    requires forall j :: 0 <= j < |extra| ==> extra[j].embeddingId != slot
    ensures Lookup(rows + extra, slot) == Lookup(rows, slot)
  {
    var q := LookupPos(rows, slot);
    if q.Some? {
      assert (rows + extra)[q.value] == rows[q.value];
    }
  }

  /** In a synced store a slot resolves exactly when the index holds it, and to row `slot`. */
  lemma SyncedLookup<E>(st: Store<E>, slot: int)
    requires Synced(st)
    ensures 0 <= slot < |st.index| ==> Lookup(st.rows, slot) == Some(st.rows[slot])
    ensures !(0 <= slot < |st.index|) ==> Lookup(st.rows, slot) == None
  {
    if 0 <= slot < |st.index| {
      assert st.rows[slot].embeddingId == slot;
    }
  }

  /** Appending a row changes lookups of its own slot only, and makes a fresh slot resolve to it. */
  lemma LookupAfterAppend(rows: seq<Row>, row: Row)
    ensures forall s :: s != row.embeddingId ==> Lookup(rows + [row], s) == Lookup(rows, s)
    ensures (forall j :: 0 <= j < |rows| ==> rows[j].embeddingId != row.embeddingId) ==>
      Lookup(rows + [row], row.embeddingId) == Some(row)
  {
    forall s | s != row.embeddingId
      ensures Lookup(rows + [row], s) == Lookup(rows, s)
    {
      LookupPastAppend(rows, [row], s);
    }
    if forall j :: 0 <= j < |rows| ==> rows[j].embeddingId != row.embeddingId {
      assert (rows + [row])[|rows|] == row;
    }
  }

  /** What one `save_message` call leaves behind. */
  datatype Saved<E> = Saved(store: Store<E>, slot: nat, committed: bool)

  /**
   * `save_message`: the embedding goes into the index first (its slot is the
   * index size just before), then the row is inserted. `dbWriteOk` is whether
   * the insert succeeds; when it does not, the vector has already been added.
   */
  function SaveMessage<E>(st: Store<E>, embed: string -> E, userId: string, message: string,
                          isBot: bool, now: real, dbWriteOk: bool): (r: Saved<E>)
    ensures r.slot == |st.index|
    ensures |r.store.index| == |st.index| + 1
    ensures r.store.index[..|st.index|] == st.index && r.store.index[r.slot] == embed(message)
    ensures r.committed == dbWriteOk
    ensures Consistent(st) ==> Consistent(r.store)
    ensures dbWriteOk && Consistent(st) ==>
      Lookup(r.store.rows, r.slot) == Some(Row(userId, message, message, isBot, now, r.slot))
    ensures !dbWriteOk ==> r.store.rows == st.rows && Lookup(r.store.rows, r.slot) == Lookup(st.rows, r.slot)
    ensures !dbWriteOk && Consistent(st) ==> Lookup(r.store.rows, r.slot) == None
    ensures forall s :: s != r.slot ==> Lookup(r.store.rows, s) == Lookup(st.rows, s)
  {
    var slot := |st.index|;
    var index' := st.index + [embed(message)];
    if dbWriteOk then
      var row := Row(userId, message, message, isBot, now, slot);
      LookupAfterAppend(st.rows, row);
      Saved(Store(index', st.rows + [row]), slot, true)
    else
      Saved(Store(index', st.rows), slot, false)
  }

  /** A committed save keeps index and table in lock-step; a failed one leaves an orphan vector. */
  lemma SaveKeepsSynced<E>(st: Store<E>, embed: string -> E, userId: string, message: string,
                           isBot: bool, now: real, dbWriteOk: bool)
    requires Synced(st)
    ensures var r := SaveMessage(st, embed, userId, message, isBot, now, dbWriteOk);
      Synced(r.store) <==> dbWriteOk
  {
    var r := SaveMessage(st, embed, userId, message, isBot, now, dbWriteOk);
    if dbWriteOk {
      assert r.store.rows == st.rows + [Row(userId, message, message, isBot, now, r.slot)];
    } else {
      assert |r.store.rows| != |r.store.index|;
    }
  }

  /** The arguments of one `save_message` call. */
  datatype SaveRequest = SaveRequest(userId: string, message: string, isBot: bool, now: real, dbWriteOk: bool)

  datatype Batch<E> = Batch(store: Store<E>, slots: seq<nat>)

  /** A run of `save_message` calls in order, collecting the slot each one assigned. */
  function SaveAll<E>(st: Store<E>, embed: string -> E, reqs: seq<SaveRequest>): Batch<E>
    decreases |reqs|
  {
    if |reqs| == 0 then Batch(st, [])
    else
      var q := reqs[0];
      var s := SaveMessage(st, embed, q.userId, q.message, q.isBot, q.now, q.dbWriteOk);
      var rest := SaveAll(s.store, embed, reqs[1..]);
      Batch(rest.store, [s.slot] + rest.slots)
  }

  /**
   * Slot monotonicity: N saves assign the slots |index| .. |index|+N-1 in call
   * order (0 .. N-1 from an empty index), each call growing the index by exactly
   * one vector whether or not its row was written.
   */
  lemma {:induction false} SaveAllAssignsConsecutiveSlots<E>(st: Store<E>, embed: string -> E, reqs: seq<SaveRequest>)
    ensures var b := SaveAll(st, embed, reqs);
      && |b.slots| == |reqs|
      && (forall i :: 0 <= i < |reqs| ==> b.slots[i] == |st.index| + i)
      && |b.store.index| == |st.index| + |reqs|
      && b.store.index[..|st.index|] == st.index
      && (forall i :: 0 <= i < |reqs| ==> b.store.index[|st.index| + i] == embed(reqs[i].message))
  {
    SaveAllSlots(st, embed, reqs);
    SaveAllIndex(st, embed, reqs);
  }

  lemma {:induction false} SaveAllSlots<E>(st: Store<E>, embed: string -> E, reqs: seq<SaveRequest>)
    ensures var b := SaveAll(st, embed, reqs);
      && |b.slots| == |reqs|
      && (forall i :: 0 <= i < |reqs| ==> b.slots[i] == |st.index| + i)
    decreases |reqs|
  {
    if |reqs| > 0 {
      var q := reqs[0];
      var s := SaveMessage(st, embed, q.userId, q.message, q.isBot, q.now, q.dbWriteOk);
      SaveAllSlots(s.store, embed, reqs[1..]);
      var rest := SaveAll(s.store, embed, reqs[1..]);
      var b := SaveAll(st, embed, reqs);
      assert b.slots == [|st.index|] + rest.slots;
      forall i | 1 <= i < |reqs|
        ensures b.slots[i] == |st.index| + i
      {
        assert b.slots[i] == rest.slots[i - 1];
      }
    }
  }

  lemma {:induction false} SaveAllIndex<E>(st: Store<E>, embed: string -> E, reqs: seq<SaveRequest>)
    ensures var b := SaveAll(st, embed, reqs);
      && |b.store.index| == |st.index| + |reqs|
      && b.store.index[..|st.index|] == st.index
      && (forall i :: 0 <= i < |reqs| ==> b.store.index[|st.index| + i] == embed(reqs[i].message))
    decreases |reqs|
  {
    if |reqs| > 0 {
      var q := reqs[0];
      var s := SaveMessage(st, embed, q.userId, q.message, q.isBot, q.now, q.dbWriteOk);
      SaveAllIndex(s.store, embed, reqs[1..]);
      var rest := SaveAll(s.store, embed, reqs[1..]);
      var b := SaveAll(st, embed, reqs);
      assert b.store == rest.store;
      assert b.store.index[..|s.store.index|] == s.store.index;
      assert b.store.index[..|st.index|] == s.store.index[..|st.index|];
      forall i | 1 <= i < |reqs|
        ensures b.store.index[|st.index| + i] == embed(reqs[i].message)
      {
        assert reqs[1..][i - 1] == reqs[i];
      }
    }
  }

  /**
   * Store/index parity after a run of saves: the slot of call i resolves to a row
   * exactly when that call's insert succeeded, and then to the row it wrote.
   */
  lemma {:induction false} SaveAllLookup<E>(st: Store<E>, embed: string -> E, reqs: seq<SaveRequest>)
    requires Consistent(st)
    ensures var b := SaveAll(st, embed, reqs);
      && |b.slots| == |reqs|
      && Consistent(b.store)
      && (forall s :: !(|st.index| <= s < |st.index| + |reqs|) ==> Lookup(b.store.rows, s) == Lookup(st.rows, s))
      && (forall i :: 0 <= i < |reqs| ==>
            Lookup(b.store.rows, b.slots[i]) ==
              if reqs[i].dbWriteOk
              then Some(Row(reqs[i].userId, reqs[i].message, reqs[i].message, reqs[i].isBot, reqs[i].now, b.slots[i]))
              else None)
    decreases |reqs|
  {
    SaveAllAssignsConsecutiveSlots(st, embed, reqs);
    if |reqs| > 0 {
      var q := reqs[0];
      var s := SaveMessage(st, embed, q.userId, q.message, q.isBot, q.now, q.dbWriteOk);
      SaveAllLookup(s.store, embed, reqs[1..]);
      SaveAllAssignsConsecutiveSlots(s.store, embed, reqs[1..]);
      var b := SaveAll(st, embed, reqs);
      forall i | 1 <= i < |reqs|
        ensures Lookup(b.store.rows, b.slots[i]) ==
              if reqs[i].dbWriteOk
              then Some(Row(reqs[i].userId, reqs[i].message, reqs[i].message, reqs[i].isBot, reqs[i].now, b.slots[i]))
              else None
      {
        assert reqs[1..][i - 1] == reqs[i];
        assert b.slots[i] == SaveAll(s.store, embed, reqs[1..]).slots[i - 1];
      }
    }
  }

  /**
   * The index is not rebuilt from the table at start-up: when the index file is
   * missing but the table is not, new vectors reuse old slots and a lookup of the
   * new slot still finds the old row, not the message just saved.
   */
  lemma LostIndexShadowsNewMessage<E>(stale: Row, embed: string -> E, userId: string, message: string, isBot: bool, now: real)
    requires stale.embeddingId == 0
    ensures var r := SaveMessage(Store([], [stale]), embed, userId, message, isBot, now, true);
      && r.slot == 0
      && Lookup(r.store.rows, r.slot) == Some(stale)
  {
  }
}

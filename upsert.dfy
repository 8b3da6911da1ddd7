/**
 * The answers table's upsert with conflict key (question_id, user_id):
 * each entry replaces the text of the row with its key, or adds a row when
 * there is none. Together with the unique index on that key it keeps one
 * answer per question and author, holding the latest text, and never
 * touches another author's rows.
 */
module Upsert {
  import opened Wrappers
  import opened Rows

  predicate SameKey(a: AnswerRow, questionId: string, userId: string) {
    a.questionId == questionId && a.userId == userId
  }

  /** The unique index on (question_id, user_id). */
  predicate KeysUnique(rows: seq<AnswerRow>) {
    forall i, j :: 0 <= i < j < |rows| ==> !SameKey(rows[j], rows[i].questionId, rows[i].userId)
  }

  /** No two entries of one batch share a key (the database refuses such a batch). */
  predicate EntryKeysDistinct(entries: seq<AnswerEntry>) {
    forall i, j :: 0 <= i < j < |entries| ==>
      !(entries[i].questionId == entries[j].questionId && entries[i].userId == entries[j].userId)
  }

  /** A row with key (questionId, userId) holds `text` in session `sessionId`. */
  ghost predicate Holds(rows: seq<AnswerRow>, questionId: string, userId: string, sessionId: string, text: string) {
    exists i :: 0 <= i < |rows| && SameKey(rows[i], questionId, userId) && rows[i].sessionId == sessionId && rows[i].text == text
  }

  /** The rows written by authors other than `userId`, in table order. */
  function OtherAuthors(rows: seq<AnswerRow>, userId: string): (r: seq<AnswerRow>)
    ensures forall a :: a in r <==> a in rows && a.userId != userId
  {
    if rows == [] then []
    else
      var init := OtherAuthors(rows[..|rows| - 1], userId);
      var last := rows[|rows| - 1];
      assert rows == rows[..|rows| - 1] + [last];
      if last.userId != userId then init + [last] else init
  }

  function IndexOfKey(rows: seq<AnswerRow>, questionId: string, userId: string): (r: Option<nat>)
    ensures r.Some? ==> r.value < |rows| && SameKey(rows[r.value], questionId, userId)
    ensures r.None? ==> forall i :: 0 <= i < |rows| ==> !SameKey(rows[i], questionId, userId)
  {
    if rows == [] then None
    else if SameKey(rows[|rows| - 1], questionId, userId) then Some(|rows| - 1)
    else IndexOfKey(rows[..|rows| - 1], questionId, userId)
  }

  /** One entry: update the row with its key in place, or append a new row with key `id`. */
  function UpsertOne(rows: seq<AnswerRow>, e: AnswerEntry, id: nat): seq<AnswerRow> {
    match IndexOfKey(rows, e.questionId, e.userId)
    case Some(i) => rows[i := rows[i].(sessionId := e.sessionId, text := e.text)]
    case None => rows + [AnswerRow(id, e.questionId, e.sessionId, e.userId, e.text)]
  }

  /** A batch, entry by entry; new rows take keys from `nextId` on. */
  function UpsertAll(rows: seq<AnswerRow>, entries: seq<AnswerEntry>, nextId: nat): seq<AnswerRow>
    decreases |entries|
  {
    if entries == [] then rows
    else UpsertAll(UpsertOne(rows, entries[0], nextId), entries[1..], nextId + 1)
  }

  // ---------------------------------------------------------------------------
  // One entry
  // ---------------------------------------------------------------------------

  lemma UpsertOneKeepsKeysUnique(rows: seq<AnswerRow>, e: AnswerEntry, id: nat)
    requires KeysUnique(rows)
    ensures KeysUnique(UpsertOne(rows, e, id))
  {
    var r := UpsertOne(rows, e, id);
    match IndexOfKey(rows, e.questionId, e.userId)
    case Some(k) =>
      assert forall i :: 0 <= i < |rows| ==> r[i].questionId == rows[i].questionId && r[i].userId == rows[i].userId;
    case None =>
      assert forall i :: 0 <= i < |rows| ==> r[i] == rows[i];
  }

  lemma UpsertOneStores(rows: seq<AnswerRow>, e: AnswerEntry, id: nat)
    ensures Holds(UpsertOne(rows, e, id), e.questionId, e.userId, e.sessionId, e.text)
  {
    var r := UpsertOne(rows, e, id);
    match IndexOfKey(rows, e.questionId, e.userId)
    case Some(k) =>
      assert SameKey(r[k], e.questionId, e.userId) && r[k].sessionId == e.sessionId && r[k].text == e.text;
    case None =>
      assert SameKey(r[|rows|], e.questionId, e.userId) && r[|rows|].sessionId == e.sessionId && r[|rows|].text == e.text;
  }

  lemma UpsertOneKeepsOtherKey(rows: seq<AnswerRow>, e: AnswerEntry, id: nat,
                               questionId: string, userId: string, sessionId: string, text: string)
    requires Holds(rows, questionId, userId, sessionId, text)
    requires !(e.questionId == questionId && e.userId == userId)
    ensures Holds(UpsertOne(rows, e, id), questionId, userId, sessionId, text)
  {
    var r := UpsertOne(rows, e, id);
    var i :| 0 <= i < |rows| && SameKey(rows[i], questionId, userId) && rows[i].sessionId == sessionId && rows[i].text == text;
    assert r[i] == rows[i];
  }

  lemma {:induction false} OtherAuthorsUpdate(rows: seq<AnswerRow>, k: nat, a: AnswerRow, userId: string)
    requires k < |rows| && rows[k].userId == userId && a.userId == userId
    ensures OtherAuthors(rows[k := a], userId) == OtherAuthors(rows, userId)
    decreases |rows|
  {
    var n := |rows| - 1;
    var updated := rows[k := a];
    if k < n {
      assert updated[..n] == rows[..n][k := a];
      assert updated[n] == rows[n];
      OtherAuthorsUpdate(rows[..n], k, a, userId);
      assert OtherAuthors(updated, userId)
          == OtherAuthors(updated[..n], userId) + (if rows[n].userId != userId then [rows[n]] else []);
    } else {
      assert updated[..n] == rows[..n];
      assert OtherAuthors(updated, userId) == OtherAuthors(updated[..n], userId);
    }
  }

  lemma UpsertOneKeepsOtherAuthors(rows: seq<AnswerRow>, e: AnswerEntry, id: nat)
    ensures OtherAuthors(UpsertOne(rows, e, id), e.userId) == OtherAuthors(rows, e.userId)
  {
    match IndexOfKey(rows, e.questionId, e.userId)
    case Some(k) =>
      OtherAuthorsUpdate(rows, k, rows[k].(sessionId := e.sessionId, text := e.text), e.userId);
    case None =>
      var r := UpsertOne(rows, e, id);
      assert r[..|r| - 1] == rows;
  }

  // ---------------------------------------------------------------------------
  // A batch
  // ---------------------------------------------------------------------------

  /** The upsert keeps the unique index intact: at most one answer per (question, author). */
  lemma {:induction false} UpsertKeepsKeysUnique(rows: seq<AnswerRow>, entries: seq<AnswerEntry>, nextId: nat)
    requires KeysUnique(rows)
    ensures KeysUnique(UpsertAll(rows, entries, nextId))
    decreases |entries|
  {
    if entries != [] {
      UpsertOneKeepsKeysUnique(rows, entries[0], nextId);
      UpsertKeepsKeysUnique(UpsertOne(rows, entries[0], nextId), entries[1..], nextId + 1);
    }
  }

  /** A row whose key no entry carries keeps its session and text. */
  lemma {:induction false} UpsertKeepsUntouchedKey(rows: seq<AnswerRow>, entries: seq<AnswerEntry>, nextId: nat,
                                                   questionId: string, userId: string, sessionId: string, text: string)
    requires Holds(rows, questionId, userId, sessionId, text)
    requires forall e :: e in entries ==> !(e.questionId == questionId && e.userId == userId)
    ensures Holds(UpsertAll(rows, entries, nextId), questionId, userId, sessionId, text)
    decreases |entries|
  {
    if entries != [] {
      UpsertOneKeepsOtherKey(rows, entries[0], nextId, questionId, userId, sessionId, text);
      assert forall e :: e in entries[1..] ==> e in entries;
      UpsertKeepsUntouchedKey(UpsertOne(rows, entries[0], nextId), entries[1..], nextId + 1,
                              questionId, userId, sessionId, text);
    }
  }

  /** After a batch with distinct keys, every entry's key holds that entry's session and text. */
  lemma {:induction false} UpsertStoresEntries(rows: seq<AnswerRow>, entries: seq<AnswerEntry>, nextId: nat)
    requires EntryKeysDistinct(entries)
    ensures forall e :: e in entries ==> Holds(UpsertAll(rows, entries, nextId), e.questionId, e.userId, e.sessionId, e.text)
    decreases |entries|
  {
    if entries != [] {
      var first := entries[0];
      var mid := UpsertOne(rows, first, nextId);
      var rest := entries[1..];
      assert EntryKeysDistinct(rest) by {
        forall i, j | 0 <= i < j < |rest|
          ensures !(rest[i].questionId == rest[j].questionId && rest[i].userId == rest[j].userId)
        {
          assert rest[i] == entries[i + 1] && rest[j] == entries[j + 1];
        }
      }
      UpsertStoresEntries(mid, rest, nextId + 1);
      UpsertOneStores(rows, first, nextId);
      assert forall e :: e in rest ==> !(e.questionId == first.questionId && e.userId == first.userId) by {
        forall e | e in rest ensures !(e.questionId == first.questionId && e.userId == first.userId) {
          var j :| 0 <= j < |rest| && rest[j] == e;
          assert entries[j + 1] == e;
        }
      }
      UpsertKeepsUntouchedKey(mid, rest, nextId + 1, first.questionId, first.userId, first.sessionId, first.text);
      assert forall e :: e in entries ==> e == first || e in rest by {
        assert entries == [first] + rest;
      }
    }
  }

  /** The rows of every author not writing in the batch are exactly as before, in the same order. */
  lemma {:induction false} UpsertKeepsOtherAuthors(rows: seq<AnswerRow>, entries: seq<AnswerEntry>, nextId: nat, userId: string)
    requires forall e :: e in entries ==> e.userId == userId
    ensures OtherAuthors(UpsertAll(rows, entries, nextId), userId) == OtherAuthors(rows, userId)
    decreases |entries|
  {
    if entries != [] {
      UpsertOneKeepsOtherAuthors(rows, entries[0], nextId);
      assert forall e :: e in entries[1..] ==> e in entries;
      UpsertKeepsOtherAuthors(UpsertOne(rows, entries[0], nextId), entries[1..], nextId + 1, userId);
    }
  }

  /**
   * With the unique index in place, the stored answer for an entry's key is
   * the only row with that key, and it holds the entry's text.
   */
  lemma LatestAnswerIsTheOnlyOne(rows: seq<AnswerRow>, entries: seq<AnswerEntry>, nextId: nat, e: AnswerEntry)
    returns (i: nat)
    requires KeysUnique(rows) && EntryKeysDistinct(entries) && e in entries
    ensures var r := UpsertAll(rows, entries, nextId);
      && i < |r| && SameKey(r[i], e.questionId, e.userId) && r[i].text == e.text && r[i].sessionId == e.sessionId
      && forall j :: 0 <= j < |r| && j != i ==> !SameKey(r[j], e.questionId, e.userId)
  {
    var r := UpsertAll(rows, entries, nextId);
    UpsertStoresEntries(rows, entries, nextId);
    UpsertKeepsKeysUnique(rows, entries, nextId);
    i :| 0 <= i < |r| && SameKey(r[i], e.questionId, e.userId) && r[i].sessionId == e.sessionId && r[i].text == e.text;
    forall j | 0 <= j < |r| && j != i ensures !SameKey(r[j], e.questionId, e.userId) {
      if j < i {
        assert !SameKey(r[i], r[j].questionId, r[j].userId);
      } else {
        assert !SameKey(r[j], r[i].questionId, r[i].userId);
      }
    }
  }
}

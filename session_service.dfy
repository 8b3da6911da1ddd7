/**
 * The session data service (lib/services/session-service.ts): loading a
 * session, its questions and its answers grouped by question, checking and
 * recording a participant's submission, and appending a question, all over
 * the abstract `Store`.
 */
module SessionService {
  import opened Wrappers
  import opened Strings
  import opened Rows
  import opened Upsert
  import opened Store

  /** What `loadSession` hands back: a session's code and label. */
  datatype Session = Session(id: string, name: Option<string>)

  /** One answer as a page passes it to `submitAnswers`. */
  datatype AnswerInput = AnswerInput(questionId: string, text: string)

  /** The message `addQuestion` throws when the insert hands back no row. */
  const NoDataMessage := "No data returned from insert"

  /** The message of an error the database reports (its content is not modelled). */
  const DatabaseError := "database error"

  // ---------------------------------------------------------------------------
  // Grouping answers by question
  // ---------------------------------------------------------------------------

  /** Some row read is an answer to question `questionId`. */
  predicate HasQuestion(rows: seq<AnswerRow>, questionId: string) {
    exists i :: 0 <= i < |rows| && rows[i].questionId == questionId
  }

  /**
   * The rows for question `questionId`, in the order they were read. It is
   * written out like `Rows.AnswersOfSession` rather than shared through a
   * filter taking a predicate, so that its contract stays first-order.
   */
  function RowsFor(rows: seq<AnswerRow>, questionId: string): (r: seq<AnswerRow>)
    ensures forall a :: a in r <==> a in rows && a.questionId == questionId
  {
    if rows == [] then []
    else
      var init := RowsFor(rows[..|rows| - 1], questionId);
      var last := rows[|rows| - 1];
      assert rows == rows[..|rows| - 1] + [last];
      if last.questionId == questionId then init + [last] else init
  }

  /**
   * `grouped` has a key for every question some row answers and no other,
   * and each key holds exactly that question's rows in the order read.
   */
  ghost predicate IsGrouping(grouped: map<string, seq<AnswerRow>>, rows: seq<AnswerRow>) {
    && (forall i :: 0 <= i < |rows| ==> rows[i].questionId in grouped)
    && (forall q :: q in grouped ==> grouped[q] == RowsFor(rows, q) && grouped[q] != [])
  }

  /** The sum of the group sizes over `keys`. */
  function TotalSize(grouped: map<string, seq<AnswerRow>>, keys: seq<string>): nat
    requires forall k :: k in keys ==> k in grouped
  {
    if keys == [] then 0
    else TotalSize(grouped, keys[..|keys| - 1]) + |grouped[keys[|keys| - 1]]|
  }

  /** Reading rows one by one: the filter for a question grows by the new row exactly when it answers that question. */
  lemma RowsForSnoc(rows: seq<AnswerRow>, a: AnswerRow, questionId: string)
    ensures RowsFor(rows + [a], questionId) == RowsFor(rows, questionId) + (if a.questionId == questionId then [a] else [])
  {
    assert (rows + [a])[..|rows|] == rows;
  }

  /** Rows read earlier land earlier in their group: the grouping of two batches is the two groupings one after the other. */
  lemma {:induction false} RowsForAppend(first: seq<AnswerRow>, second: seq<AnswerRow>, questionId: string)
    ensures RowsFor(first + second, questionId) == RowsFor(first, questionId) + RowsFor(second, questionId)
    decreases |second|
  {
    if second == [] {
      assert first + second == first;
    } else {
      var init := second[..|second| - 1];
      var last := second[|second| - 1];
      assert second == init + [last];
      assert first + second == (first + init) + [last];
      RowsForAppend(first, init, questionId);
      RowsForSnoc(first + init, last, questionId);
      RowsForSnoc(init, last, questionId);
      var tail := if last.questionId == questionId then [last] else [];
      calc {
        RowsFor(first + second, questionId);
        RowsFor(first + init, questionId) + tail;
        RowsFor(first, questionId) + RowsFor(init, questionId) + tail;
        RowsFor(first, questionId) + (RowsFor(init, questionId) + tail);
        RowsFor(first, questionId) + RowsFor(second, questionId);
      }
    }
  }

  /** Adding one row to its group keeps `grouped` a grouping of the rows read so far. */
  lemma GroupingStep(grouped: map<string, seq<AnswerRow>>, rows: seq<AnswerRow>, a: AnswerRow, grouped': map<string, seq<AnswerRow>>)
    requires IsGrouping(grouped, rows)
    requires grouped' == grouped[a.questionId := (if a.questionId in grouped then grouped[a.questionId] else []) + [a]]
    ensures IsGrouping(grouped', rows + [a])
  {
    var rows' := rows + [a];
    forall i | 0 <= i < |rows'| ensures rows'[i].questionId in grouped' {
      if i < |rows| {
        assert rows'[i] == rows[i];
      }
    }
    forall q | q in grouped' ensures grouped'[q] == RowsFor(rows', q) {
      RowsForSnoc(rows, a, q);
      if q == a.questionId && a.questionId !in grouped {
        RowsForAbsent(rows, q);
      }
    }
  }

  lemma {:induction false} RowsForAbsent(rows: seq<AnswerRow>, questionId: string)
    requires forall i :: 0 <= i < |rows| ==> rows[i].questionId != questionId
    ensures RowsFor(rows, questionId) == []
  {
    if rows != [] {
      var init := rows[..|rows| - 1];
      assert forall i :: 0 <= i < |init| ==> init[i] == rows[i];
      RowsForAbsent(init, questionId);
    }
  }

  /**
   * What the grouping loop keeps after reading `rows`: `grouped` groups them,
   * `keys` lists its keys once each, and the group sizes add up to the rows read.
   */
  ghost predicate GroupedSoFar(grouped: map<string, seq<AnswerRow>>, keys: seq<string>, rows: seq<AnswerRow>) {
    && IsGrouping(grouped, rows)
    && Distinct(keys) && (forall k :: k in keys <==> k in grouped)
    && TotalSize(grouped, keys) == |rows|
  }

  /**
   * One turn of the grouping loop over `data`, at row `i`: append the row to
   * its group, opening the group if it is new.
   */
  lemma GroupingLoopStep(grouped: map<string, seq<AnswerRow>>, keys: seq<string>, data: seq<AnswerRow>, i: nat,
                         keys': seq<string>, grouped': map<string, seq<AnswerRow>>)
    requires i < |data| && GroupedSoFar(grouped, keys, data[..i])
    requires keys' == if data[i].questionId in grouped then keys else keys + [data[i].questionId]
    requires grouped' == grouped[data[i].questionId := (if data[i].questionId in grouped then grouped[data[i].questionId] else []) + [data[i]]]
    ensures GroupedSoFar(grouped', keys', data[..i + 1])
  {
    assert data[..i + 1] == data[..i] + [data[i]];
    GroupingStep(grouped, data[..i], data[i], grouped');
    KeysStep(grouped, keys, data[i], keys', grouped');
  }

  /** The bookkeeping half of a turn: the opened keys stay distinct and the sizes grow by one. */
  lemma KeysStep(grouped: map<string, seq<AnswerRow>>, keys: seq<string>, a: AnswerRow,
                 keys': seq<string>, grouped': map<string, seq<AnswerRow>>)
    requires Distinct(keys) && (forall k :: k in keys <==> k in grouped)
    requires keys' == if a.questionId in grouped then keys else keys + [a.questionId]
    requires grouped' == grouped[a.questionId := (if a.questionId in grouped then grouped[a.questionId] else []) + [a]]
    ensures Distinct(keys') && (forall k :: k in keys' <==> k in grouped')
    ensures TotalSize(grouped', keys') == TotalSize(grouped, keys) + 1
  {
    var ready := if a.questionId in grouped then grouped else grouped[a.questionId := []];
    assert grouped' == ready[a.questionId := ready[a.questionId] + [a]];
    if a.questionId !in grouped {
      TotalSizeOtherKey(grouped, keys, a.questionId, []);
      assert keys'[..|keys'| - 1] == keys;
    }
    TotalSizeGrow(ready, keys', a.questionId, a);
  }

  /** Growing one group by a row grows the total by one. */
  lemma {:induction false} TotalSizeGrow(grouped: map<string, seq<AnswerRow>>, keys: seq<string>, k: string, a: AnswerRow)
    requires forall x :: x in keys ==> x in grouped
    requires k in grouped && Distinct(keys)
    ensures TotalSize(grouped[k := grouped[k] + [a]], keys) == TotalSize(grouped, keys) + (if k in keys then 1 else 0)
    decreases |keys|
  {
    if keys != [] {
      var init := keys[..|keys| - 1];
      assert Distinct(init);
      assert forall x :: x in init ==> x in keys;
      TotalSizeGrow(grouped, init, k, a);
      assert k in keys <==> k in init || k == keys[|keys| - 1];
      assert k == keys[|keys| - 1] ==> k !in init;
    }
  }

  /** Adding a key absent from `keys` leaves the total over `keys` alone. */
  lemma {:induction false} TotalSizeOtherKey(grouped: map<string, seq<AnswerRow>>, keys: seq<string>, k: string, v: seq<AnswerRow>)
    requires forall x :: x in keys ==> x in grouped
    requires k !in keys
    ensures TotalSize(grouped[k := v], keys) == TotalSize(grouped, keys)
    decreases |keys|
  {
    if keys != [] {
      assert forall x :: x in keys[..|keys| - 1] ==> x in keys;
      TotalSizeOtherKey(grouped, keys[..|keys| - 1], k, v);
    }
  }

  /** The keys of a grouping are exactly the questions that some row read answers. */
  lemma GroupingKeys(grouped: map<string, seq<AnswerRow>>, rows: seq<AnswerRow>, questionId: string)
    requires IsGrouping(grouped, rows)
    ensures questionId in grouped <==> HasQuestion(rows, questionId)
  {
    if questionId in grouped {
      var x := grouped[questionId][0];
      assert x in rows;
      var i :| 0 <= i < |rows| && rows[i] == x;
      assert rows[i].questionId == questionId;
    }
  }

  /** Every row read lands in the group of its own question and in no other. */
  lemma RowInExactlyItsGroup(grouped: map<string, seq<AnswerRow>>, rows: seq<AnswerRow>, i: nat, questionId: string)
    requires IsGrouping(grouped, rows) && i < |rows|
    ensures rows[i].questionId in grouped && rows[i] in grouped[rows[i].questionId]
    ensures questionId in grouped && rows[i] in grouped[questionId] ==> questionId == rows[i].questionId
  {
  }

  /**
   * The grouping loop of `loadAllAnswers`: one pass over the rows, opening a
   * question's group at its first row and appending each row to its group.
   * `keys` lists the groups in the order they were opened.
   */
  method GroupByQuestion(data: seq<AnswerRow>) returns (grouped: map<string, seq<AnswerRow>>, ghost keys: seq<string>)
    ensures IsGrouping(grouped, data)
    ensures Distinct(keys) && (forall k :: k in keys <==> k in grouped) && TotalSize(grouped, keys) == |data|
  {
    grouped, keys := map[], [];
    var i := 0;
    while i < |data|
      invariant 0 <= i <= |data|
      invariant GroupedSoFar(grouped, keys, data[..i])
    {
      var answer := data[i];
      ghost var before, keysBefore := grouped, keys;
      var group := if answer.questionId in grouped then grouped[answer.questionId] else [];
      keys := if answer.questionId in grouped then keys else keys + [answer.questionId];
      grouped := grouped[answer.questionId := group + [answer]];
      GroupingLoopStep(before, keysBefore, data, i, keys, grouped);
      i := i + 1;
    }
    assert data[..i] == data;
  }

  // ---------------------------------------------------------------------------
  // Submitting answers
  // ---------------------------------------------------------------------------

  /** `answerEntries`: each answer tagged with the caller's session and identity. */
  function AnswerEntries(sessionId: string, userId: string, answers: seq<AnswerInput>): (r: seq<AnswerEntry>)
    ensures |r| == |answers|
    ensures forall e :: e in r ==> e.sessionId == sessionId && e.userId == userId
    ensures forall i :: 0 <= i < |answers| ==> r[i].questionId == answers[i].questionId && r[i].text == answers[i].text
  {
    seq(|answers|, i requires 0 <= i < |answers| =>
      AnswerEntry(answers[i].questionId, sessionId, answers[i].text, userId))
  }

  /** A submission leaves every other identity's answers exactly as they were. */
  lemma SubmissionKeepsOthersAnswers(rows: seq<AnswerRow>, sessionId: string, userId: string, answers: seq<AnswerInput>, nextId: nat)
    ensures OtherAuthors(UpsertAll(rows, AnswerEntries(sessionId, userId, answers), nextId), userId) == OtherAuthors(rows, userId)
  {
    UpsertKeepsOtherAuthors(rows, AnswerEntries(sessionId, userId, answers), nextId, userId);
  }

  /**
   * After a submission whose answers name distinct questions, each answer is
   * the one stored row for (its question, the caller), with the caller's
   * session and the submitted text.
   */
  lemma SubmissionStoresEachAnswer(rows: seq<AnswerRow>, sessionId: string, userId: string, answers: seq<AnswerInput>,
                                   nextId: nat, k: nat)
    returns (i: nat)
    requires KeysUnique(rows) && k < |answers|
    requires forall a, b :: 0 <= a < b < |answers| ==> answers[a].questionId != answers[b].questionId
    ensures var r := UpsertAll(rows, AnswerEntries(sessionId, userId, answers), nextId);
      && i < |r| && r[i].questionId == answers[k].questionId && r[i].userId == userId
      && r[i].text == answers[k].text && r[i].sessionId == sessionId
      && forall j :: 0 <= j < |r| && j != i ==> !SameKey(r[j], answers[k].questionId, userId)
  {
    var entries := AnswerEntries(sessionId, userId, answers);
    assert EntryKeysDistinct(entries);
    i := LatestAnswerIsTheOnlyOne(rows, entries, nextId, entries[k]);
  }

  // ---------------------------------------------------------------------------
  // The service
  // ---------------------------------------------------------------------------

  class SessionService {
    const store: Store

    constructor (store: Store)
      ensures this.store == store
    {
      this.store := store;
    }

    /** `loadSession`: the session with that code, or `None` on any failure; it never throws. */
    method LoadSession(sessionId: string) returns (r: Option<Session>)
      ensures r.Some? ==> r.value.id == sessionId && exists s :: s in store.sessions && s.id == sessionId && s.name == r.value.name
      ensures FindSession(store.sessions, sessionId).None? ==> r.None?
    {
      var q := store.SelectSession(sessionId);
      // Every error (no row, access denied, or any other) ends in `null`.
      if !q.Rows? {
        return None;
      }
      r := Some(Session(q.data.id, q.data.name));
    }

    /** `loadQuestions`: the session's questions by ascending order; errors are rethrown. */
    method LoadQuestions(sessionId: string) returns (r: Result<seq<QuestionRow>>)
      ensures r.Ok? ==> SortedByOrder(r.value)
      ensures r.Ok? ==> forall q :: q in r.value ==> q in store.questions && q.sessionId == sessionId
      ensures r.Ok? && r.value != [] ==> multiset(r.value) == multiset(QuestionsOfSession(store.questions, sessionId))
    {
      var q := store.SelectQuestionsInOrder(sessionId);
      match q
      case QueryError => r := Err(DatabaseError);
      case NoData => r := Ok([]);
      case Rows(data) =>
        assert forall x :: x in data ==> x in multiset(QuestionsOfSession(store.questions, sessionId));
        r := Ok(data);
    }

    /**
     * `loadAllAnswers`: reads the session's answers and groups them by
     * question in one pass; a read error is rethrown. `read` is what the
     * request delivered (nothing when it delivered no data) and `keys` the
     * groups in the order they were opened.
     */
    method LoadAllAnswers(sessionId: string) returns (r: Result<map<string, seq<AnswerRow>>>, ghost read: seq<AnswerRow>, ghost keys: seq<string>)
      ensures read == [] || multiset(read) == multiset(AnswersOfSession(store.answers, sessionId))
      ensures r.Ok? ==> IsGrouping(r.value, read)
      ensures r.Ok? ==> Distinct(keys) && (forall k :: k in keys <==> k in r.value) && TotalSize(r.value, keys) == |read|
      ensures r.Ok? ==> forall k, a :: k in r.value && a in r.value[k] ==>
        a.questionId == k && a.sessionId == sessionId && a in store.answers
      ensures r.Ok? && read != [] ==> forall a :: a in store.answers && a.sessionId == sessionId ==>
        a.questionId in r.value && a in r.value[a.questionId]
    {
      read, keys := [], [];
      var q := store.SelectAnswers(sessionId);
      if q.QueryError? {
        return Err(DatabaseError), read, keys;
      }
      var grouped: map<string, seq<AnswerRow>> := map[];
      if q.Rows? {
        grouped, keys := GroupByQuestion(q.data);
        read := q.data;
        PermutedAnswersOfSession(read, store.answers, sessionId);
      }
      r := Ok(grouped);
    }

    /**
     * `checkSubmissionStatus`: the participant's submission record, or `None`
     * when there is none (or more than one) or the read fails. It writes nothing.
     */
    method CheckSubmissionStatus(sessionId: string, userId: string) returns (r: Option<SubmissionRow>)
      ensures r.Some? ==> r.value in store.submissions && r.value.sessionId == sessionId && r.value.userId == userId
      ensures r.Some? ==> SubmissionsOf(store.submissions, sessionId, userId) == [r.value]
      ensures SubmissionsOf(store.submissions, sessionId, userId) == [] ==> r.None?
    {
      var q := store.SelectSubmission(sessionId, userId);
      if q.Rows? {
        assert q.data in SubmissionsOf(store.submissions, sessionId, userId);
        r := Some(q.data);
      } else {
        r := None;
      }
    }

    /**
     * `submitAnswers`: upserts the answers under the caller's identity, then,
     * only if that succeeded, inserts the submission record. The two writes
     * are not atomic: when the second fails, the answers stay written.
     */
    method SubmitAnswers(sessionId: string, userId: string, answers: seq<AnswerInput>) returns (r: Result<()>)
      requires store.Valid()
      modifies store
      ensures store.Valid()
      ensures var written := UpsertAll(old(store.answers), AnswerEntries(sessionId, userId, answers), old(store.nextId));
        && (store.answers == old(store.answers) || store.answers == written)
        && (store.submissions != old(store.submissions) ==> store.answers == written)
        && (r.Ok? ==> store.answers == written)
      ensures r.Ok? ==>
        |store.submissions| == |old(store.submissions)| + 1 && store.submissions[..|old(store.submissions)|] == old(store.submissions)
        && store.submissions[|old(store.submissions)|].sessionId == sessionId
        && store.submissions[|old(store.submissions)|].userId == userId
      ensures r.Err? ==> store.submissions == old(store.submissions)
      ensures OtherAuthors(store.answers, userId) == OtherAuthors(old(store.answers), userId)
      ensures store.sessions == old(store.sessions) && store.questions == old(store.questions)
    {
      var entries := AnswerEntries(sessionId, userId, answers);
      SubmissionKeepsOthersAnswers(store.answers, sessionId, userId, answers, store.nextId);
      var upserted := store.UpsertAnswers(entries);
      if !upserted {
        return Err(DatabaseError);
      }
      var inserted := store.InsertSubmission(sessionId, userId);
      if !inserted {
        return Err(DatabaseError);
      }
      r := Ok(());
    }

    /**
     * `addQuestion`: inserts the trimmed text at the given order and hands back
     * the stored row; throws when the insert fails or hands back no row.
     */
    method AddQuestion(sessionId: string, questionText: string, questionOrder: int) returns (r: Result<QuestionRow>)
      requires store.Valid()
      modifies store
      ensures store.Valid()
      ensures r.Ok? ==>
        Payload(r.value) == NewQuestion(sessionId, Trim(questionText), questionOrder)
        && store.questions == old(store.questions) + [r.value]
      ensures r.Err? ==>
        store.questions == old(store.questions)
        || (|store.questions| == |old(store.questions)| + 1 && store.questions[..|old(store.questions)|] == old(store.questions)
            && Payload(store.questions[|old(store.questions)|]) == NewQuestion(sessionId, Trim(questionText), questionOrder))
      ensures store.sessions == old(store.sessions) && store.answers == old(store.answers)
      ensures store.submissions == old(store.submissions)
    {
      var q := store.InsertQuestion(NewQuestion(sessionId, Trim(questionText), questionOrder));
      match q
      case QueryError => r := Err(DatabaseError);
      case NoData => r := Err(NoDataMessage);
      case Rows(row) =>
        assert store.questions == store.questions[..|old(store.questions)|] + [row];
        r := Ok(row);
    }
  }
}

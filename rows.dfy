/**
 * The records of the four tables the application keeps (sessions,
 * questions, answers, submissions), the reply shape of one database
 * request, and the row selections the requests make.
 */
module Rows {
  import opened Wrappers

  /** A session: its 4-character code, an optional label and the account that created it. */
  datatype SessionRow = SessionRow(id: string, name: Option<string>, ownerId: string)

  /** A stored question; `id` is the key the database assigns. */
  datatype QuestionRow = QuestionRow(id: nat, sessionId: string, text: string, order: int)

  /** The columns the application supplies when it inserts a question. */
  datatype NewQuestion = NewQuestion(sessionId: string, text: string, order: int)

  /** A stored answer; `userId` is the author's identity (account id or `anon_<name>_<token>`). */
  datatype AnswerRow = AnswerRow(id: nat, questionId: string, sessionId: string, userId: string, text: string)

  /** The columns of one entry of an answer upsert. */
  datatype AnswerEntry = AnswerEntry(questionId: string, sessionId: string, text: string, userId: string)

  /** A stored submission: the mark that an identity has submitted in a session. */
  datatype SubmissionRow = SubmissionRow(id: nat, sessionId: string, userId: string)

  /**
   * What one request to the database hands back: the data, a reply without
   * data and without error, or an error.
   */
  datatype Query<T> = Rows(data: T) | NoData | QueryError

  /** The supplied columns of a stored question. */
  function Payload(q: QuestionRow): NewQuestion {
    NewQuestion(q.sessionId, q.text, q.order)
  }

  /** `after` is `before` with rows carrying the columns of `batch` appended, in batch order. */
  predicate AppendedRows(before: seq<QuestionRow>, after: seq<QuestionRow>, batch: seq<NewQuestion>) {
    && |after| == |before| + |batch| && after[..|before|] == before
    && forall i :: 0 <= i < |batch| ==> Payload(after[|before| + i]) == batch[i]
  }

  /** The primary key of the sessions table. */
  predicate SessionIdsUnique(sessions: seq<SessionRow>) {
    forall i, j :: 0 <= i < j < |sessions| ==> sessions[i].id != sessions[j].id
  }

  /** `.from('sessions').eq('id', id)`: the row with that code, if any. */
  function FindSession(sessions: seq<SessionRow>, id: string): (r: Option<SessionRow>)
    ensures r.Some? ==> r.value in sessions && r.value.id == id
    ensures r.None? ==> forall s :: s in sessions ==> s.id != id
  {
    if sessions == [] then None
    else if sessions[|sessions| - 1].id == id then Some(sessions[|sessions| - 1])
    else
      var r := FindSession(sessions[..|sessions| - 1], id);
      assert sessions == sessions[..|sessions| - 1] + [sessions[|sessions| - 1]];
      r
  }

  /** `.from('questions').eq('session_id', sessionId)`, in table order. */
  function QuestionsOfSession(rows: seq<QuestionRow>, sessionId: string): (r: seq<QuestionRow>)
    ensures forall q :: q in r <==> q in rows && q.sessionId == sessionId
  {
    if rows == [] then []
    else
      var init := QuestionsOfSession(rows[..|rows| - 1], sessionId);
      var last := rows[|rows| - 1];
      assert rows == rows[..|rows| - 1] + [last];
      if last.sessionId == sessionId then init + [last] else init
  }

  /** `.from('answers').eq('session_id', sessionId)`, in table order. */
  function AnswersOfSession(rows: seq<AnswerRow>, sessionId: string): (r: seq<AnswerRow>)
    ensures forall a :: a in r <==> a in rows && a.sessionId == sessionId
  {
    if rows == [] then []
    else
      var init := AnswersOfSession(rows[..|rows| - 1], sessionId);
      var last := rows[|rows| - 1];
      assert rows == rows[..|rows| - 1] + [last];
      if last.sessionId == sessionId then init + [last] else init
  }

  /** The session's answer rows delivered in any order are still exactly the session's answer rows. */
  lemma PermutedAnswersOfSession(delivered: seq<AnswerRow>, rows: seq<AnswerRow>, sessionId: string)
    requires multiset(delivered) == multiset(AnswersOfSession(rows, sessionId))
    ensures forall a :: a in delivered <==> a in rows && a.sessionId == sessionId
  {
    forall a
      ensures a in delivered <==> a in rows && a.sessionId == sessionId
    {
      assert a in delivered <==> a in multiset(delivered);
      assert a in AnswersOfSession(rows, sessionId) <==> a in multiset(AnswersOfSession(rows, sessionId));
    }
  }

  /** `.from('submissions').eq('session_id', sessionId).eq('user_id', userId)`, in table order. */
  function SubmissionsOf(rows: seq<SubmissionRow>, sessionId: string, userId: string): (r: seq<SubmissionRow>)
    ensures forall s :: s in r <==> s in rows && s.sessionId == sessionId && s.userId == userId
  {
    if rows == [] then []
    else
      var init := SubmissionsOf(rows[..|rows| - 1], sessionId, userId);
      var last := rows[|rows| - 1];
      assert rows == rows[..|rows| - 1] + [last];
      if last.sessionId == sessionId && last.userId == userId then init + [last] else init
  }

  /** `.order('question_order', { ascending: true })` holds of the rows. */
  predicate SortedByOrder(qs: seq<QuestionRow>) {
    forall i, j :: 0 <= i < j < |qs| ==> qs[i].order <= qs[j].order
  }

  /** One way of ordering rows as the database does; ties may come in any order. */
  function SortByOrder(qs: seq<QuestionRow>): (r: seq<QuestionRow>)
    ensures SortedByOrder(r) && multiset(r) == multiset(qs)
  {
    if qs == [] then []
    else
      assert qs == [qs[0]] + qs[1..];
      InsertByOrder(qs[0], SortByOrder(qs[1..]))
  }

  function InsertByOrder(q: QuestionRow, sorted: seq<QuestionRow>): (r: seq<QuestionRow>)
    requires SortedByOrder(sorted)
    ensures SortedByOrder(r) && multiset(r) == multiset(sorted) + multiset{q}
    ensures forall x :: x in r ==> x == q || x in sorted
  {
    if sorted == [] || q.order <= sorted[0].order then
      HeadIsLeast(sorted);
      ConsSorted(q, sorted);
      [q] + sorted
    else
      var tail := InsertByOrder(q, sorted[1..]);
      assert sorted == [sorted[0]] + sorted[1..];
      HeadIsLeast(sorted);
      assert forall x :: x in tail ==> sorted[0].order <= x.order;
      ConsSorted(sorted[0], tail);
      [sorted[0]] + tail
  }

  /** The first row of a sorted sequence has the smallest order. */
  lemma HeadIsLeast(sorted: seq<QuestionRow>)
    requires SortedByOrder(sorted)
    ensures sorted != [] ==> forall x :: x in sorted ==> sorted[0].order <= x.order
  {
    forall x | x in sorted ensures sorted[0].order <= x.order {
      var k :| 0 <= k < |sorted| && sorted[k] == x;
      assert k == 0 || sorted[0].order <= sorted[k].order;
    }
  }

  /** Putting a row no larger than any other in front keeps a sequence sorted. */
  lemma ConsSorted(q: QuestionRow, sorted: seq<QuestionRow>)
    requires SortedByOrder(sorted)
    requires forall x :: x in sorted ==> q.order <= x.order
    ensures SortedByOrder([q] + sorted)
  {
    var r := [q] + sorted;
    forall i, j | 0 <= i < j < |r| ensures r[i].order <= r[j].order {
      if i == 0 {
        assert r[j] == sorted[j - 1];
      } else {
        assert r[i] == sorted[i - 1] && r[j] == sorted[j - 1];
      }
    }
  }
}

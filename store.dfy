/**
 * The database behind the application's client library, as an in-memory
 * object holding the four tables. Each request may fail: the outcome of
 * every call is chosen nondeterministically (`*`), so whatever is proved
 * about a caller holds for every pattern of failures. Read requests have no
 * `modifies` clause: they cannot write.
 */
module Store {
  import opened Wrappers
  import opened Rows
  import opened Upsert

  class Store {
    var sessions: seq<SessionRow>
    var questions: seq<QuestionRow>
    var answers: seq<AnswerRow>
    var submissions: seq<SubmissionRow>
    /** The next key the database hands out for a new row. */
    var nextId: nat

    /** The table constraints: session codes are a primary key, answers are unique per (question, author). */
    ghost predicate Valid()
      reads this
    {
      SessionIdsUnique(sessions) && KeysUnique(answers)
    }

    constructor Empty()
      ensures Valid()
      ensures sessions == [] && questions == [] && answers == [] && submissions == [] && nextId == 0
    {
      sessions, questions, answers, submissions, nextId := [], [], [], [], 0;
    }

    /** `.from('sessions').select(..).eq('id', id).single()`: an error unless exactly one row matches. */
    method SelectSession(id: string) returns (q: Query<SessionRow>)
      ensures q.Rows? ==> q.data in sessions && q.data.id == id
      ensures FindSession(sessions, id).None? ==> q.QueryError?
      ensures !q.NoData?
    {
      var fails: bool := *;
      var found := FindSession(sessions, id);
      if fails || found.None? {
        q := QueryError;
      } else {
        q := Rows(found.value);
      }
    }

    /** `.from('questions').select('*').eq('session_id', sessionId).order('question_order', { ascending: true })` */
    method SelectQuestionsInOrder(sessionId: string) returns (q: Query<seq<QuestionRow>>)
      ensures q.Rows? ==> SortedByOrder(q.data) && multiset(q.data) == multiset(QuestionsOfSession(questions, sessionId))
    {
      var fails: bool := *;
      var empty: bool := *;
      if fails {
        q := QueryError;
      } else if empty {
        q := NoData;
      } else {
        var matches := QuestionsOfSession(questions, sessionId);
        assert SortedByOrder(SortByOrder(matches));
        var ordered :| SortedByOrder(ordered) && multiset(ordered) == multiset(matches);
        q := Rows(ordered);
      }
    }

    /**
     * `.from('answers').select('*').eq('session_id', sessionId)`: the query asks
     * for no order, so the session's rows come back in any order.
     */
    method SelectAnswers(sessionId: string) returns (q: Query<seq<AnswerRow>>)
      ensures q.Rows? ==> multiset(q.data) == multiset(AnswersOfSession(answers, sessionId))
    {
      var fails: bool := *;
      var empty: bool := *;
      if fails {
        q := QueryError;
      } else if empty {
        q := NoData;
      } else {
        var matches := AnswersOfSession(answers, sessionId);
        var delivered :| multiset(delivered) == multiset(matches);
        q := Rows(delivered);
      }
    }

    /**
     * `.from('submissions').select('*').eq('session_id', ..).eq('user_id', ..).single()`:
     * an error unless exactly one row matches.
     */
    method SelectSubmission(sessionId: string, userId: string) returns (q: Query<SubmissionRow>)
      ensures q.Rows? ==> SubmissionsOf(submissions, sessionId, userId) == [q.data]
      ensures |SubmissionsOf(submissions, sessionId, userId)| != 1 ==> q.QueryError?
      ensures !q.NoData?
    {
      var fails: bool := *;
      var matches := SubmissionsOf(submissions, sessionId, userId);
      if fails || |matches| != 1 {
        q := QueryError;
      } else {
        q := Rows(matches[0]);
      }
    }

    /**
     * `.from('sessions').insert(row).select().single()`: refused when the code
     * is taken; once written, the row may or may not be handed back.
     */
    method InsertSession(row: SessionRow) returns (q: Query<SessionRow>)
      requires Valid()
      modifies this
      ensures Valid()
      ensures q.QueryError? ==> sessions == old(sessions)
      ensures !q.QueryError? ==> FindSession(old(sessions), row.id).None? && sessions == old(sessions) + [row]
      ensures q.Rows? ==> q.data == row
      ensures questions == old(questions) && answers == old(answers) && submissions == old(submissions)
      ensures nextId == old(nextId)
    {
      var fails: bool := *;
      var returned: bool := *;
      if fails || FindSession(sessions, row.id).Some? {
        q := QueryError;
        return;
      }
      sessions := sessions + [row];
      q := if returned then Rows(row) else NoData;
    }

    /** `.from('questions').insert(batch)`: all rows or none. */
    method InsertQuestions(batch: seq<NewQuestion>) returns (ok: bool)
      requires Valid()
      modifies this
      ensures Valid()
      ensures ok ==> AppendedRows(old(questions), questions, batch)
      ensures !ok ==> questions == old(questions)
      ensures sessions == old(sessions) && answers == old(answers) && submissions == old(submissions)
    {
      var fails: bool := *;
      if fails {
        return false;
      }
      var first := nextId;
      var added := seq(|batch|, i requires 0 <= i < |batch| =>
        QuestionRow(first + i, batch[i].sessionId, batch[i].text, batch[i].order));
      questions := questions + added;
      nextId := nextId + |batch|;
      ok := true;
    }

    /** `.from('questions').insert(q).select().single()`: once written, the row may or may not be handed back. */
    method InsertQuestion(nq: NewQuestion) returns (q: Query<QuestionRow>)
      requires Valid()
      modifies this
      ensures Valid()
      ensures q.QueryError? ==> questions == old(questions)
      ensures !q.QueryError? ==>
        |questions| == |old(questions)| + 1 && questions[..|old(questions)|] == old(questions)
        && Payload(questions[|old(questions)|]) == nq
      ensures q.Rows? ==> q.data == questions[|old(questions)|]
      ensures sessions == old(sessions) && answers == old(answers) && submissions == old(submissions)
    {
      var fails: bool := *;
      var returned: bool := *;
      if fails {
        return QueryError;
      }
      var row := QuestionRow(nextId, nq.sessionId, nq.text, nq.order);
      questions := questions + [row];
      nextId := nextId + 1;
      q := if returned then Rows(row) else NoData;
    }

    /**
     * `.from('answers').upsert(entries, { onConflict: 'question_id,user_id' })`:
     * one statement, so all entries or none; a batch that names one key twice
     * is refused.
     */
    method UpsertAnswers(entries: seq<AnswerEntry>) returns (ok: bool)
      requires Valid()
      modifies this
      ensures Valid()
      ensures ok ==> EntryKeysDistinct(entries) && answers == UpsertAll(old(answers), entries, old(nextId))
      ensures !ok ==> answers == old(answers)
      ensures sessions == old(sessions) && questions == old(questions) && submissions == old(submissions)
    {
      var fails: bool := *;
      if fails || !EntryKeysDistinct(entries) {
        return false;
      }
      UpsertKeepsKeysUnique(answers, entries, nextId);
      answers := UpsertAll(answers, entries, nextId);
      nextId := nextId + |entries|;
      ok := true;
    }

    /** `.from('submissions').insert({ session_id, user_id })` */
    method InsertSubmission(sessionId: string, userId: string) returns (ok: bool)
      requires Valid()
      modifies this
      ensures Valid()
      ensures ok ==>
        |submissions| == |old(submissions)| + 1 && submissions[..|old(submissions)|] == old(submissions)
        && submissions[|old(submissions)|].sessionId == sessionId && submissions[|old(submissions)|].userId == userId
      ensures !ok ==> submissions == old(submissions)
      ensures sessions == old(sessions) && questions == old(questions) && answers == old(answers)
    {
      var fails: bool := *;
      if fails {
        return false;
      }
      submissions := submissions + [SubmissionRow(nextId, sessionId, userId)];
      nextId := nextId + 1;
      ok := true;
    }
  }
}

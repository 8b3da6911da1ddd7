/**
 * The session-creation page (app/create-session/page.tsx): editing the list
 * of draft questions, choosing a fresh 4-character session code, and
 * writing the session and its non-blank questions to the store.
 */
module CreateSession {
  import opened Wrappers
  import opened Strings
  import opened Rows
  import opened Store

  // ---------------------------------------------------------------------------
  // The draft list
  // ---------------------------------------------------------------------------

  /** A question being edited; `id` only tells drafts apart. */
  datatype DraftQuestion = DraftQuestion(id: string, text: string)

  /** The page opens with one empty draft with id "1". */
  const InitialDrafts: seq<DraftQuestion> := [DraftQuestion("1", "")]

  predicate IdsDistinct(qs: seq<DraftQuestion>) {
    forall i, j :: 0 <= i < j < |qs| ==> qs[i].id != qs[j].id
  }

  /** `addQuestion`: one empty draft with the new id at the end. */
  function AddDraft(qs: seq<DraftQuestion>, newId: string): (r: seq<DraftQuestion>)
    ensures |r| == |qs| + 1 && r[..|qs|] == qs
    ensures r[|qs|].id == newId && r[|qs|].text == ""
  {
    qs + [DraftQuestion(newId, "")]
  }

  /** `questions.filter(q => q.id !== id)`, in list order. */
  function Without(qs: seq<DraftQuestion>, id: string): (r: seq<DraftQuestion>)
    ensures |r| <= |qs|
    ensures forall q :: q in r <==> q in qs && q.id != id
  {
    if qs == [] then []
    else
      var init := Without(qs[..|qs| - 1], id);
      var last := qs[|qs| - 1];
      assert qs == qs[..|qs| - 1] + [last];
      if last.id != id then init + [last] else init
  }

  /** `removeQuestion`: drops the drafts with that id, unless only one draft is left. */
  function RemoveDraft(qs: seq<DraftQuestion>, id: string): (r: seq<DraftQuestion>)
    ensures |qs| <= 1 ==> r == qs
    ensures |qs| > 1 ==> forall q :: q in r <==> q in qs && q.id != id
  {
    if |qs| > 1 then Without(qs, id) else qs
  }

  /** `updateQuestion`: the draft(s) with that id get the new text; nothing else changes. */
  function UpdateDraft(qs: seq<DraftQuestion>, id: string, text: string): (r: seq<DraftQuestion>)
    ensures |r| == |qs|
    ensures forall i :: 0 <= i < |qs| ==> r[i].id == qs[i].id
    ensures forall i :: 0 <= i < |qs| && qs[i].id != id ==> r[i] == qs[i]
    ensures forall i :: 0 <= i < |qs| && qs[i].id == id ==> r[i].text == text
  {
    seq(|qs|, i requires 0 <= i < |qs| => if qs[i].id == id then qs[i].(text := text) else qs[i])
  }

  /** Filtering distributes over concatenation, keeping list order. */
  lemma {:induction false} WithoutAppend(a: seq<DraftQuestion>, b: seq<DraftQuestion>, id: string)
    ensures Without(a + b, id) == Without(a, id) + Without(b, id)
    decreases |b|
  {
    if b == [] {
      assert a + b == a;
    } else {
      var init := b[..|b| - 1];
      var last := b[|b| - 1];
      assert (a + b)[..|a + b| - 1] == a + init;
      assert (a + b)[|a + b| - 1] == last;
      WithoutAppend(a, init, id);
    }
  }

  lemma {:induction false} WithoutAbsent(qs: seq<DraftQuestion>, id: string)
    requires forall i :: 0 <= i < |qs| ==> qs[i].id != id
    ensures Without(qs, id) == qs
    decreases |qs|
  {
    if qs != [] {
      var init := qs[..|qs| - 1];
      assert forall i :: 0 <= i < |init| ==> init[i] == qs[i];
      WithoutAbsent(init, id);
      assert qs == init + [qs[|qs| - 1]];
    }
  }

  /**
   * With distinct ids, removing the draft at position `k` from a list of two
   * or more cuts out exactly that draft and keeps the others in order.
   */
  lemma RemoveDistinct(qs: seq<DraftQuestion>, k: nat)
    requires IdsDistinct(qs) && |qs| > 1 && k < |qs|
    ensures RemoveDraft(qs, qs[k].id) == qs[..k] + qs[k + 1..]
  {
    var id := qs[k].id;
    var before, after := qs[..k], qs[k + 1..];
    assert qs == before + [qs[k]] + after;
    assert forall i :: 0 <= i < |before| ==> before[i].id != id by {
      forall i | 0 <= i < |before| ensures before[i].id != id {
        assert before[i] == qs[i];
      }
    }
    assert forall i :: 0 <= i < |after| ==> after[i].id != id by {
      forall i | 0 <= i < |after| ensures after[i].id != id {
        assert after[i] == qs[k + 1 + i];
      }
    }
    WithoutAppend(before + [qs[k]], after, id);
    WithoutAppend(before, [qs[k]], id);
    WithoutAbsent(before, id);
    WithoutAbsent(after, id);
    assert Without([qs[k]], id) == [] by {
      assert [qs[k]][..0] == [];
    }
  }

  /** Removing an id that no draft carries changes nothing. */
  lemma RemoveUnknownId(qs: seq<DraftQuestion>, id: string)
    requires forall i :: 0 <= i < |qs| ==> qs[i].id != id
    ensures RemoveDraft(qs, id) == qs
  {
    WithoutAbsent(qs, id);
  }

  /** Filtering keeps ids distinct, and with distinct ids it drops at most one draft. */
  lemma {:induction false} WithoutDistinct(qs: seq<DraftQuestion>, id: string)
    requires IdsDistinct(qs)
    ensures IdsDistinct(Without(qs, id))
    ensures |Without(qs, id)| + 1 >= |qs|
    ensures forall q :: q in Without(qs, id) ==> q in qs
    decreases |qs|
  {
    if qs != [] {
      var init := qs[..|qs| - 1];
      var last := qs[|qs| - 1];
      assert IdsDistinct(init);
      WithoutDistinct(init, id);
      var w := Without(init, id);
      if last.id != id {
        assert forall q :: q in w ==> q.id != last.id by {
          forall q | q in w ensures q.id != last.id {
            var j :| 0 <= j < |init| && init[j] == q;
            assert qs[j] == q;
          }
        }
        assert Without(qs, id) == w + [last];
      } else {
        assert forall i :: 0 <= i < |init| ==> init[i].id != id by {
          forall i | 0 <= i < |init| ensures init[i].id != id {
            assert qs[i] == init[i];
          }
        }
        WithoutAbsent(init, id);
      }
    }
  }

  // ---------------------------------------------------------------------------
  // A history of edits
  // ---------------------------------------------------------------------------

  /** One user action on the draft list. */
  datatype Edit = Add(newId: string) | Remove(id: string) | Update(id: string, text: string)

  function Apply(qs: seq<DraftQuestion>, e: Edit): seq<DraftQuestion> {
    match e
    case Add(newId) => AddDraft(qs, newId)
    case Remove(id) => RemoveDraft(qs, id)
    case Update(id, text) => UpdateDraft(qs, id, text)
  }

  /** The draft list after the edits, applied in order to `qs`. */
  function ApplyAll(qs: seq<DraftQuestion>, edits: seq<Edit>): seq<DraftQuestion> {
    if edits == [] then qs else Apply(ApplyAll(qs, edits[..|edits| - 1]), edits[|edits| - 1])
  }

  /** The ids the `Add` edits hand out, in order. */
  function AddedIds(edits: seq<Edit>): (r: seq<string>)
    ensures forall x :: x in r <==> exists i :: 0 <= i < |edits| && edits[i].Add? && edits[i].newId == x
  {
    if edits == [] then []
    else
      var init := AddedIds(edits[..|edits| - 1]);
      var last := edits[|edits| - 1];
      assert forall i :: 0 <= i < |edits| - 1 ==> edits[..|edits| - 1][i] == edits[i];
      if last.Add? then init + [last.newId] else init
  }

  /**
   * Starting from the initial list, and when every added draft gets an id
   * not used before (nor "1"), the list keeps distinct ids, every id is one
   * handed out, and it is never empty.
   */
  lemma {:induction false} DraftsNeverEmpty(edits: seq<Edit>)
    requires Distinct(["1"] + AddedIds(edits))
    ensures var qs := ApplyAll(InitialDrafts, edits);
      && |qs| >= 1 && IdsDistinct(qs)
      && forall q :: q in qs ==> q.id in ["1"] + AddedIds(edits)
    decreases |edits|
  {
    if edits != [] {
      var init := edits[..|edits| - 1];
      var e := edits[|edits| - 1];
      var ids := ["1"] + AddedIds(init);
      assert Distinct(ids) by {
        var all := ["1"] + AddedIds(edits);
        assert e.Add? ==> all == ids + [e.newId];
        assert !e.Add? ==> all == ids;
        forall i, j | 0 <= i < j < |ids| ensures ids[i] != ids[j] {
          assert ids[i] == all[i] && ids[j] == all[j];
        }
      }
      DraftsNeverEmpty(init);
      var qs := ApplyAll(InitialDrafts, init);
      match e
      case Add(newId) =>
        var all := ["1"] + AddedIds(edits);
        assert all == ids + [newId];
        assert newId !in ids by {
          forall i | 0 <= i < |ids| ensures ids[i] != newId {
            assert all[i] == ids[i] && all[|ids|] == newId;
          }
        }
        var r := AddDraft(qs, newId);
        forall i, j | 0 <= i < j < |r| ensures r[i].id != r[j].id {
          if j == |qs| {
            assert r[i] in qs;
          } else {
            assert r[i] == qs[i] && r[j] == qs[j];
          }
        }
        forall q | q in r ensures q.id in all {
          if q != r[|qs|] {
            var k :| 0 <= k < |r| && r[k] == q;
            assert q == qs[k];
          }
        }
      case Remove(id) =>
        WithoutDistinct(qs, id);
      case Update(id, text) =>
        var r := UpdateDraft(qs, id, text);
        assert forall q :: q in r ==> q.id in ids by {
          forall q | q in r ensures q.id in ids {
            var k :| 0 <= k < |r| && r[k] == q;
            assert qs[k] in qs;
          }
        }
    }
  }

  // ---------------------------------------------------------------------------
  // Validation and the rows to insert
  // ---------------------------------------------------------------------------

  /** A draft whose trimmed text is non-empty (`q.text.trim()` is truthy). */
  predicate IsFilled(q: DraftQuestion) {
    Trim(q.text) != []
  }

  /** `hasValidQuestions`: some draft is filled in. */
  predicate HasValidQuestions(qs: seq<DraftQuestion>) {
    exists i :: 0 <= i < |qs| && IsFilled(qs[i])
  }

  /** `validQuestions`: the filled drafts, in list order. */
  function ValidQuestions(qs: seq<DraftQuestion>): (r: seq<DraftQuestion>)
    ensures forall q :: q in r <==> q in qs && IsFilled(q)
    ensures |r| <= |qs|
  {
    if qs == [] then []
    else
      var init := ValidQuestions(qs[..|qs| - 1]);
      var last := qs[|qs| - 1];
      assert qs == qs[..|qs| - 1] + [last];
      if IsFilled(last) then init + [last] else init
  }

  /** The button is enabled exactly when the filtered list is non-empty. */
  lemma HasValidIffSomeValid(qs: seq<DraftQuestion>)
    ensures HasValidQuestions(qs) <==> ValidQuestions(qs) != []
  {
    if ValidQuestions(qs) != [] {
      var q := ValidQuestions(qs)[0];
      assert q in ValidQuestions(qs);
      var i :| 0 <= i < |qs| && qs[i] == q;
      assert IsFilled(qs[i]);
    }
    if HasValidQuestions(qs) {
      var i :| 0 <= i < |qs| && IsFilled(qs[i]);
      assert qs[i] in ValidQuestions(qs);
    }
  }

  /** Validation keeps the list order: filtering two halves one after the other. */
  lemma {:induction false} ValidQuestionsAppend(a: seq<DraftQuestion>, b: seq<DraftQuestion>)
    ensures ValidQuestions(a + b) == ValidQuestions(a) + ValidQuestions(b)
    decreases |b|
  {
    if b == [] {
      assert a + b == a;
    } else {
      var init := b[..|b| - 1];
      assert (a + b)[..|a + b| - 1] == a + init;
      assert (a + b)[|a + b| - 1] == b[|b| - 1];
      ValidQuestionsAppend(a, init);
    }
  }

  /** `questionsToInsert`: each filled draft, trimmed, under the session code, numbered from 1. */
  function QuestionsToInsert(valid: seq<DraftQuestion>, sessionId: string): (r: seq<NewQuestion>)
    ensures |r| == |valid|
  {
    seq(|valid|, i requires 0 <= i < |valid| => NewQuestion(sessionId, Trim(valid[i].text), i + 1))
  }

  /**
   * The inserted rows belong to the new session, carry non-blank trimmed
   * texts of the filled drafts in draft order, and are numbered 1..n, so
   * they come back in draft order when read by ascending order.
   */
  lemma InsertedQuestions(drafts: seq<DraftQuestion>, sessionId: string)
    ensures var valid := ValidQuestions(drafts);
      var r := QuestionsToInsert(valid, sessionId);
      && (forall i :: 0 <= i < |r| ==> r[i].sessionId == sessionId && r[i].order == i + 1)
      && (forall i :: 0 <= i < |r| ==>
            r[i].text == Trim(valid[i].text) && r[i].text != []
            && !IsWhitespace(r[i].text[0]) && !IsWhitespace(r[i].text[|r[i].text| - 1]))
      && (forall i, j :: 0 <= i < j < |r| ==> r[i].order < r[j].order)
  {
    var valid := ValidQuestions(drafts);
    forall i | 0 <= i < |valid| ensures IsFilled(valid[i]) {
      assert valid[i] in valid;
    }
    RowsOfFilledDrafts(valid, sessionId);
  }

  /** The rows built from filled drafts: numbered from 1 in draft order, with trimmed, non-empty text. */
  lemma RowsOfFilledDrafts(valid: seq<DraftQuestion>, sessionId: string)
    requires forall i :: 0 <= i < |valid| ==> IsFilled(valid[i])
    ensures var r := QuestionsToInsert(valid, sessionId);
      && (forall i :: 0 <= i < |r| ==> r[i].sessionId == sessionId && r[i].order == i + 1)
      && (forall i :: 0 <= i < |r| ==>
            r[i].text == Trim(valid[i].text) && r[i].text != []
            && !IsWhitespace(r[i].text[0]) && !IsWhitespace(r[i].text[|r[i].text| - 1]))
      && (forall i, j :: 0 <= i < j < |r| ==> r[i].order < r[j].order)
  {
    forall i | 0 <= i < |valid| {
      FilledText(valid[i]);
    }
  }

  /** The trimmed text of a filled draft is non-empty and has no white space at either end. */
  lemma FilledText(q: DraftQuestion)
    requires IsFilled(q)
    ensures var t := Trim(q.text); t != [] && !IsWhitespace(t[0]) && !IsWhitespace(t[|t| - 1])
  {
  }

  /** `sessionName?.trim() || null`: the trimmed name, or nothing when blank. */
  function StoredName(sessionName: string): (r: Option<string>)
    ensures r.Some? ==> r.value == Trim(sessionName) && r.value != []
    ensures r.None? <==> AllWhitespace(sessionName)
  {
    var t := Trim(sessionName);
    if t == [] then None else Some(t)
  }

  // ---------------------------------------------------------------------------
  // Session codes
  // ---------------------------------------------------------------------------

  /** The alphabet of session codes. */
  const Chars := "ABCDEFGHIJKLMNOPQRSTUVWXYZ0123456789"

  predicate IsCodeChar(c: char) {
    ('A' <= c <= 'Z') || ('0' <= c <= '9')
  }

  /** A session code: exactly four characters of the alphabet. */
  predicate IsSessionCode(s: string) {
    |s| == 4 && forall i :: 0 <= i < |s| ==> IsCodeChar(s[i])
  }

  /** The alphabet holds the 36 code characters and nothing else. */
  lemma CharsAreCodeChars(c: char)
    ensures c in Chars <==> IsCodeChar(c)
  {
    if c in Chars {
      var i :| 0 <= i < |Chars| && Chars[i] == c;
      CharsAt(i);
    }
    if 'A' <= c <= 'Z' {
      CharsAt(c as int - 'A' as int);
    } else if '0' <= c <= '9' {
      CharsAt(26 + c as int - '0' as int);
    }
  }

  /** Position `i` of the alphabet: the letters in order, then the digits in order. */
  lemma CharsAt(i: nat)
    requires i < |Chars|
    ensures Chars[i] as int == if i < 26 then 'A' as int + i else '0' as int + i - 26
  {
    var letters := "ABCDEFGHIJKLMNOPQRSTUVWXYZ";
    var digits := "0123456789";
    assert Chars == letters + digits;
    if i < 26 {
      assert Chars[i] == letters[i];
    } else {
      assert Chars[i] == digits[i - 26];
    }
  }

  /**
   * `generateSessionId`: four draws, each picking `chars[floor(random * 36)]`
   * with `random` in [0, 1) (`Math.random`, left free).
   */
  method GenerateSessionId() returns (result: string)
    ensures IsSessionCode(result)
  {
    result := "";
    for i := 0 to 4
      invariant |result| == i
      invariant forall k :: 0 <= k < |result| ==> IsCodeChar(result[k])
    {
      var random: real :| 0.0 <= random < 1.0;
      var index := (random * |Chars| as real).Floor;
      CharsAreCodeChars(Chars[index]);
      result := result + [Chars[index]];
    }
  }

  /** One existence check of the allocation loop: the candidate, and whether the lookup handed back a row. */
  datatype Check = Check(code: string, found: bool)

  /** The retry bound of the allocation loop. */
  const MaxAttempts := 10

  /** Every check in `checks` reported the candidate as taken. */
  predicate AllFound(checks: seq<Check>) {
    forall i :: 0 <= i < |checks| ==> checks[i].found
  }

  /**
   * The allocation loop of `createSession`: draw a candidate, look it up, and
   * draw again while the lookup hands back a row, at most `MaxAttempts`
   * times. A lookup that fails counts as "absent". Nothing is written.
   */
  method AllocateSessionId(db: Store) returns (code: Option<string>, ghost checks: seq<Check>)
    ensures 1 <= |checks| <= MaxAttempts
    ensures forall i :: 0 <= i < |checks| ==> IsSessionCode(checks[i].code)
    ensures forall i :: 0 <= i < |checks| && checks[i].found ==> FindSession(db.sessions, checks[i].code).Some?
    ensures code.Some? ==>
      AllFound(checks[..|checks| - 1]) && checks[|checks| - 1] == Check(code.value, false)
    ensures code.None? <==> |checks| == MaxAttempts && AllFound(checks)
    ensures code.Some? ==> IsSessionCode(code.value)
  {
    checks := [];
    var sessionId := GenerateSessionId();
    var attempts := 0;
    while attempts < MaxAttempts
      invariant 0 <= attempts <= MaxAttempts
      invariant IsSessionCode(sessionId)
      invariant |checks| == attempts && AllFound(checks)
      invariant forall i :: 0 <= i < |checks| ==> IsSessionCode(checks[i].code)
      invariant forall i :: 0 <= i < |checks| ==> FindSession(db.sessions, checks[i].code).Some?
    {
      var existing := db.SelectSession(sessionId);
      if !existing.Rows? {
        checks := checks + [Check(sessionId, false)];
        break;
      }
      checks := checks + [Check(sessionId, true)];
      sessionId := GenerateSessionId();
      attempts := attempts + 1;
    }
    if attempts >= MaxAttempts {
      return None, checks;
    }
    code := Some(sessionId);
  }

  // ---------------------------------------------------------------------------
  // Creating the session
  // ---------------------------------------------------------------------------

  /**
   * How `createSession` ends: sent to the login page, stopped by the
   * "add at least one question" alert, stopped by the failure alert, or
   * done, navigating to the session page when the insert handed the row back.
   */
  datatype Outcome = LoginRequired | NoQuestions | Failed | Created(code: string, route: Option<string>)

  /**
   * `createSession` for the signed-in account `user` (none when signed out):
   * validate the drafts, allocate a code, insert the session, then insert its
   * questions. The two inserts are not atomic.
   */
  method CreateSession(db: Store, user: Option<string>, sessionName: string, drafts: seq<DraftQuestion>)
    returns (r: Outcome, ghost checks: seq<Check>)
    requires db.Valid()
    modifies db
    ensures db.Valid()
    ensures user.None? ==> r == LoginRequired
    ensures user.Some? && ValidQuestions(drafts) == [] ==> r == NoQuestions
    ensures r.LoginRequired? || r.NoQuestions? ==> db.sessions == old(db.sessions) && db.questions == old(db.questions)
    ensures |checks| == MaxAttempts && AllFound(checks) ==>
      r == Failed && db.sessions == old(db.sessions) && db.questions == old(db.questions)
    ensures r.Failed? ==>
      db.questions == old(db.questions)
      && (db.sessions == old(db.sessions) || exists code :: db.sessions == old(db.sessions) + [SessionRow(code, StoredName(sessionName), user.value)])
    ensures r.Created? ==>
      user.Some? && IsSessionCode(r.code) && 1 <= |checks| <= MaxAttempts && checks[|checks| - 1] == Check(r.code, false)
      && db.sessions == old(db.sessions) + [SessionRow(r.code, StoredName(sessionName), user.value)]
    ensures r.Created? ==> AppendedRows(old(db.questions), db.questions, QuestionsToInsert(ValidQuestions(drafts), r.code))
    ensures r.Created? && r.route.Some? ==> r.route.value == "/session/" + r.code
    ensures db.answers == old(db.answers) && db.submissions == old(db.submissions)
  {
    checks := [];
    if user.None? {
      return LoginRequired, checks;
    }
    var valid := ValidQuestions(drafts);
    if |valid| == 0 {
      return NoQuestions, checks;
    }
    var candidate: Option<string>;
    candidate, checks := AllocateSessionId(db);
    if candidate.None? {
      return Failed, checks;
    }
    r := WriteSession(db, SessionRow(candidate.value, StoredName(sessionName), user.value), QuestionsToInsert(valid, candidate.value));
  }

  /**
   * The two writes of `createSession` once a code is chosen: the session row,
   * then, only if that succeeded, its questions as one batch.
   */
  method WriteSession(db: Store, row: SessionRow, batch: seq<NewQuestion>) returns (r: Outcome)
    requires db.Valid()
    modifies db
    ensures db.Valid()
    ensures r.Failed? || r.Created?
    ensures r.Failed? ==>
      db.questions == old(db.questions) && (db.sessions == old(db.sessions) || db.sessions == old(db.sessions) + [row])
    ensures r.Created? ==>
      r.code == row.id && db.sessions == old(db.sessions) + [row] && AppendedRows(old(db.questions), db.questions, batch)
    ensures r.Created? && r.route.Some? ==> r.route.value == "/session/" + row.id
    ensures db.answers == old(db.answers) && db.submissions == old(db.submissions)
  {
    var sessionData := db.InsertSession(row);
    if sessionData.QueryError? {
      return Failed;
    }
    var inserted := db.InsertQuestions(batch);
    if !inserted {
      return Failed;
    }
    if sessionData.Rows? {
      r := Created(row.id, Some("/session/" + sessionData.data.id));
    } else {
      r := Created(row.id, None);
    }
  }
}

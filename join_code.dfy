/**
 * The landing page's join form (app/page.tsx): normalising a typed session
 * code, and the join step that checks it and looks the session up before
 * navigating to it.
 */
module JoinCode {
  import opened Wrappers
  import opened Strings
  import opened Rows
  import opened Store
  import opened CreateSession

  const InvalidCodeMessage := "Skriv inn en gyldig kode (4 tegn)."
  const NotFoundMessage := "Fant ingen økt med den koden. Sjekk koden og prøv igjen."

  /** `.replace(/\s+/g, '')` */
  function StripWhitespace(s: string): (r: string)
    ensures |r| <= |s|
    ensures forall i :: 0 <= i < |r| ==> !IsWhitespace(r[i])
    ensures forall c :: c in r <==> c in s && !IsWhitespace(c)
  {
    if s == [] then []
    else if IsWhitespace(s[0]) then StripWhitespace(s[1..])
    else [s[0]] + StripWhitespace(s[1..])
  }

  /** `.replace(/[^A-Z0-9]/g, '')` */
  function KeepCodeChars(s: string): (r: string)
    ensures |r| <= |s|
    ensures forall i :: 0 <= i < |r| ==> IsCodeChar(r[i])
    ensures forall c :: c in r <==> c in s && IsCodeChar(c)
  {
    if s == [] then []
    else if IsCodeChar(s[0]) then [s[0]] + KeepCodeChars(s[1..])
    else KeepCodeChars(s[1..])
  }

  /**
   * `normalizeSessionCode`: upper-case, drop white space, drop everything but
   * A-Z and 0-9, keep at most four characters.
   */
  function Normalize(value: string): (r: string)
    ensures |r| <= 4
    ensures forall i :: 0 <= i < |r| ==> IsCodeChar(r[i])
  {
    Prefix(KeepCodeChars(StripWhitespace(ToUpper(value))), 4)
  }

  // ---------------------------------------------------------------------------
  // Properties of the pieces
  // ---------------------------------------------------------------------------

  lemma {:induction false} StripWhitespaceAppend(a: string, b: string)
    ensures StripWhitespace(a + b) == StripWhitespace(a) + StripWhitespace(b)
    decreases |a|
  {
    if a != [] {
      assert (a + b)[1..] == a[1..] + b;
      StripWhitespaceAppend(a[1..], b);
    } else {
      assert a + b == b;
    }
  }

  lemma {:induction false} KeepCodeCharsAppend(a: string, b: string)
    ensures KeepCodeChars(a + b) == KeepCodeChars(a) + KeepCodeChars(b)
    decreases |a|
  {
    if a != [] {
      assert (a + b)[1..] == a[1..] + b;
      KeepCodeCharsAppend(a[1..], b);
    } else {
      assert a + b == b;
    }
  }

  /** A code character is not white space, so white-space removal leaves strings of code characters alone. */
  lemma {:induction false} StripKeepsCodeChars(s: string)
    requires forall i :: 0 <= i < |s| ==> IsCodeChar(s[i])
    ensures StripWhitespace(s) == s
    decreases |s|
  {
    if s != [] {
      assert !IsWhitespace(s[0]);
      StripKeepsCodeChars(s[1..]);
    }
  }

  lemma {:induction false} KeepKeepsCodeChars(s: string)
    requires forall i :: 0 <= i < |s| ==> IsCodeChar(s[i])
    ensures KeepCodeChars(s) == s
    decreases |s|
  {
    if s != [] {
      KeepKeepsCodeChars(s[1..]);
    }
  }

  /** Dropping the characters that are not A-Z or 0-9 already drops the white space. */
  lemma {:induction false} KeepAfterStrip(s: string)
    ensures KeepCodeChars(StripWhitespace(s)) == KeepCodeChars(s)
    decreases |s|
  {
    if s != [] {
      KeepAfterStrip(s[1..]);
      if IsWhitespace(s[0]) {
        assert !IsCodeChar(s[0]);
      }
    }
  }

  lemma ToUpperAppend(a: string, b: string)
    ensures ToUpper(a + b) == ToUpper(a) + ToUpper(b)
  {
  }

  // ---------------------------------------------------------------------------
  // Properties of the normalisation
  // ---------------------------------------------------------------------------

  /**
   * The code is the first (at most) four A-Z0-9 characters of the upper-cased
   * input, in input order.
   */
  lemma NormalizeIsFirstCodeChars(value: string)
    ensures Normalize(value) == Prefix(KeepCodeChars(ToUpper(value)), 4)
  {
    KeepAfterStrip(ToUpper(value));
  }

  /** A string of at most four characters whose upper-case forms are code characters normalises to its upper-case form. */
  lemma NormalizeUpperCodeChars(s: string)
    requires |s| <= 4 && forall i :: 0 <= i < |s| ==> IsCodeChar(ToUpperChar(s[i]))
    ensures Normalize(s) == ToUpper(s)
  {
    var u := ToUpper(s);
    StripKeepsCodeChars(u);
    KeepKeepsCodeChars(u);
  }

  /** A string already made of at most four code characters is unchanged. */
  lemma NormalizeCodeChars(s: string)
    requires |s| <= 4 && forall i :: 0 <= i < |s| ==> IsCodeChar(s[i])
    ensures Normalize(s) == s
  {
    assert ToUpper(s) == s;
    NormalizeUpperCodeChars(s);
  }

  /** Every valid session code is left as it is. */
  lemma ValidCodeUnchanged(code: string)
    requires IsSessionCode(code)
    ensures Normalize(code) == code
  {
    NormalizeCodeChars(code);
  }

  lemma NormalizeIdempotent(value: string)
    ensures Normalize(Normalize(value)) == Normalize(value)
  {
    NormalizeCodeChars(Normalize(value));
  }

  /** Typing more characters only extends the normalised code. */
  lemma NormalizeExtends(value: string, more: string)
    ensures StartsWith(Normalize(value + more), Normalize(value))
  {
    ToUpperAppend(value, more);
    StripWhitespaceAppend(ToUpper(value), ToUpper(more));
    KeepCodeCharsAppend(StripWhitespace(ToUpper(value)), StripWhitespace(ToUpper(more)));
  }

  // ---------------------------------------------------------------------------
  // The join form
  // ---------------------------------------------------------------------------

  /** The state of the landing page's join form. */
  class JoinPage {
    var sessionCode: string
    var isJoining: bool
    var errorMessage: Option<string>
    /** The routes handed to the router, oldest first. */
    var pushed: seq<string>
    /** The codes looked up in the sessions table, oldest first. */
    ghost var lookups: seq<string>

    constructor ()
      ensures sessionCode == [] && !isJoining && errorMessage.None? && pushed == [] && lookups == []
    {
      sessionCode, isJoining, errorMessage, pushed := [], false, None, [];
      lookups := [];
    }

    /**
     * `joinSession`: normalise the typed code and show it; a code that is not
     * four characters long is refused without a lookup; otherwise look it up
     * and navigate to the session only when the lookup hands back its row.
     */
    method JoinSession(db: Store)
      modifies this
      ensures sessionCode == Normalize(old(sessionCode))
      ensures |sessionCode| != 4 ==>
        errorMessage == Some(InvalidCodeMessage) && isJoining == old(isJoining)
        && lookups == old(lookups) && pushed == old(pushed)
      ensures |sessionCode| == 4 ==> lookups == old(lookups) + [sessionCode] && !isJoining
      ensures |sessionCode| == 4 ==>
        (errorMessage.None? && pushed == old(pushed) + ["/session/" + sessionCode] && FindSession(db.sessions, sessionCode).Some?)
        || (errorMessage == Some(NotFoundMessage) && pushed == old(pushed))
      ensures FindSession(db.sessions, sessionCode).None? ==> pushed == old(pushed)
    {
      var code := Normalize(sessionCode);
      sessionCode := code;
      errorMessage := None;
      if |code| != 4 {
        errorMessage := Some(InvalidCodeMessage);
        return;
      }
      isJoining := true;
      var q := db.SelectSession(code);
      lookups := lookups + [code];
      if !q.Rows? {
        errorMessage := Some(NotFoundMessage);
        isJoining := false;
        return;
      }
      pushed := pushed + ["/session/" + code];
      isJoining := false;
    }
  }
}

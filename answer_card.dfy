/**
 * The author label of one answer card (components/session/AnswerCard.tsx):
 * "Deg" for the viewer's own answers, the name embedded in an anonymous
 * identity `anon_<name>_<token>`, or a shortened account id.
 */
module AnswerCard {
  import opened Strings

  const SelfLabel := "Deg"
  const AnonymousLabel := "Anonym"
  const AnonPrefix := "anon_"

  /** `submittedUserId || currentUserId`: the identity the viewer answered under. */
  function ViewerId(currentUserId: string, submittedUserId: string): (r: string)
    ensures submittedUserId != [] ==> r == submittedUserId
    ensures submittedUserId == [] ==> r == currentUserId
  {
    if submittedUserId != [] then submittedUserId else currentUserId
  }

  /** `isCurrentUser`: the answer was written under the viewer's identity (the "Ditt svar" badge). */
  predicate IsCurrentUser(authorId: string, currentUserId: string, submittedUserId: string) {
    authorId == ViewerId(currentUserId, submittedUserId)
  }

  /** The name part of an anonymous identity: the `_`-pieces between the first and the last, rejoined. */
  function AnonName(authorId: string): (r: string)
    requires |Split(authorId, '_')| >= 3
  {
    var parts := Split(authorId, '_');
    Join(parts[1..|parts| - 1], '_')
  }

  /** `displayName`: the label above the answer text. */
  function DisplayName(authorId: string, currentUserId: string, submittedUserId: string): (r: string)
    ensures r != []
    ensures IsCurrentUser(authorId, currentUserId, submittedUserId) ==> r == SelfLabel
    ensures !IsCurrentUser(authorId, currentUserId, submittedUserId) && !StartsWith(authorId, AnonPrefix) ==>
      StartsWith(r, "Bruker ") && EndsWith(r, "...") && |r| == 10 + Min(8, |authorId|)
      && r[7..|r| - 3] == Prefix(authorId, 8)
  {
    if IsCurrentUser(authorId, currentUserId, submittedUserId) then SelfLabel
    else if StartsWith(authorId, AnonPrefix) then
      if |Split(authorId, '_')| >= 3 then
        var name := AnonName(authorId);
        if name != [] then name else AnonymousLabel
      else AnonymousLabel
    else "Bruker " + Prefix(authorId, 8) + "..."
  }

  /** An anonymous identity splits into "anon" followed by the pieces of what follows the prefix. */
  lemma AnonSplit(authorId: string)
    requires StartsWith(authorId, AnonPrefix)
    ensures Split(authorId, '_') == ["anon"] + Split(authorId[5..], '_')
  {
    assert authorId == "anon" + ['_'] + authorId[5..];
    SplitAtSeparator("anon", authorId[5..], '_');
    SplitWithoutSeparator("anon", '_');
  }

  /**
   * Round trip: the identity built from any name and a token without `_`
   * displays that name (or "Anonym" for an empty name) to anyone else, even
   * when the name itself contains `_`.
   */
  lemma AnonRoundTrip(name: string, token: string, currentUserId: string, submittedUserId: string)
    requires '_' !in token
    requires !IsCurrentUser(AnonPrefix + name + "_" + token, currentUserId, submittedUserId)
    ensures DisplayName(AnonPrefix + name + "_" + token, currentUserId, submittedUserId)
         == if name == [] then AnonymousLabel else name
  {
    var id := AnonPrefix + name + "_" + token;
    assert StartsWith(id, AnonPrefix) by {
      assert id[..5] == AnonPrefix;
    }
    AnonSplit(id);
    var rest := id[5..];
    assert rest == name + ['_'] + token;
    SplitAtSeparator(name, token, '_');
    SplitWithoutSeparator(token, '_');
    var parts := Split(id, '_');
    var pieces := Split(name, '_');
    assert parts == ["anon"] + pieces + [token];
    assert parts[1..|parts| - 1] == pieces;
    JoinSplit(name, '_');
  }

  /**
   * The name of an anonymous identity is what lies between the prefix and the
   * last `_`; with no `_` after the prefix the label is "Anonym".
   */
  lemma AnonLabel(authorId: string, currentUserId: string, submittedUserId: string)
    requires StartsWith(authorId, AnonPrefix)
    requires !IsCurrentUser(authorId, currentUserId, submittedUserId)
    ensures var k := LastIndexOf(authorId, '_');
      && k.Some? && k.value >= 4
      && DisplayName(authorId, currentUserId, submittedUserId)
         == if k.value == 4 || k.value == 5 then AnonymousLabel else authorId[5..k.value]
  {
    assert authorId[4] == '_';
    var k := LastIndexOf(authorId, '_');
    assert k.Some? && k.value >= 4;
    var rest := authorId[5..];
    if k.value == 4 {
      assert '_' !in rest by {
        assert rest == authorId[k.value + 1..];
      }
      AnonSplit(authorId);
      SplitWithoutSeparator(rest, '_');
    } else {
      var name := authorId[5..k.value];
      var token := authorId[k.value + 1..];
      assert authorId == AnonPrefix + name + "_" + token;
      AnonRoundTrip(name, token, currentUserId, submittedUserId);
    }
  }

  /** An anonymous identity with no `_` after the prefix has fewer than three pieces and displays "Anonym". */
  lemma AnonWithoutName(authorId: string, currentUserId: string, submittedUserId: string)
    requires StartsWith(authorId, AnonPrefix) && '_' !in authorId[5..]
    requires !IsCurrentUser(authorId, currentUserId, submittedUserId)
    ensures |Split(authorId, '_')| == 2
    ensures DisplayName(authorId, currentUserId, submittedUserId) == AnonymousLabel
  {
    AnonSplit(authorId);
    SplitWithoutSeparator(authorId[5..], '_');
  }

  /**
   * The "Ditt svar" badge, not the label, marks the viewer's own answers: an
   * anonymous participant who chose the name "Deg" is labelled "Deg" for
   * everyone else too, but carries the badge for nobody else.
   */
  lemma SelfLabelWithoutBadge(token: string, currentUserId: string, submittedUserId: string)
    requires '_' !in token
    requires ViewerId(currentUserId, submittedUserId) != AnonPrefix + SelfLabel + "_" + token
    ensures var id := AnonPrefix + SelfLabel + "_" + token;
      && !IsCurrentUser(id, currentUserId, submittedUserId)
      && DisplayName(id, currentUserId, submittedUserId) == SelfLabel
  {
    AnonRoundTrip(SelfLabel, token, currentUserId, submittedUserId);
  }

  /**
   * The session page submits identities of the form `anon_<name>_<time>_<random>`,
   * with a base-36 random part. Others then see the name with `_<time>`
   * still attached, not the bare name.
   */
  lemma PageIdentityLabel(name: string, time: string, random: string, currentUserId: string, submittedUserId: string)
    requires '_' !in random
    requires !IsCurrentUser(AnonPrefix + name + "_" + time + "_" + random, currentUserId, submittedUserId)
    ensures DisplayName(AnonPrefix + name + "_" + time + "_" + random, currentUserId, submittedUserId)
         == name + "_" + time
  {
    assert AnonPrefix + name + "_" + time + "_" + random == AnonPrefix + (name + "_" + time) + "_" + random;
    AnonRoundTrip(name + "_" + time, random, currentUserId, submittedUserId);
  }
}

/**
 * The account menu in the page header (components/UserAvatarMenu.tsx): the
 * name, picture and initials shown for the signed-in account, and the flag
 * that opens and closes the menu.
 */
module UserAvatarMenu {
  import opened Wrappers
  import opened Strings

  /** The profile fields the identity provider supplies; a missing key is `undefined`. */
  type Metadata = map<string, string>

  /** The metadata keys tried for a name, in order. */
  const NameKeys: seq<string> := ["name", "full_name", "fullName", "user_name", "preferred_username"]

  /** The metadata keys tried for a picture, in order. */
  const AvatarKeys: seq<string> := ["avatar_url", "picture"]

  const FallbackName := "Bruker"
  const FallbackInitials := "U"

  /** The value under `key` is a non-empty string. */
  predicate IsTruthy(metadata: Metadata, key: string) {
    key in metadata && metadata[key] != []
  }

  /**
   * `metadata[k1] || metadata[k2] || ...`: the first non-empty value along
   * `keys`, or `None` when every one is missing or empty.
   */
  function FirstTruthy(metadata: Metadata, keys: seq<string>): (r: Option<string>)
    ensures r.Some? ==> exists i :: 0 <= i < |keys| && IsTruthy(metadata, keys[i]) && metadata[keys[i]] == r.value
                                   && forall j :: 0 <= j < i ==> !IsTruthy(metadata, keys[j])
    ensures r.Some? ==> r.value != []
    ensures r.None? <==> forall i :: 0 <= i < |keys| ==> !IsTruthy(metadata, keys[i])
  {
    if keys == [] then None
    else if IsTruthy(metadata, keys[0]) then
      Some(metadata[keys[0]])
    else
      var r := FirstTruthy(metadata, keys[1..]);
      assert forall i :: 1 <= i < |keys| ==> keys[i] == keys[1..][i - 1];
      if r.Some? then
        var i :| 0 <= i < |keys[1..]| && IsTruthy(metadata, keys[1..][i]) && metadata[keys[1..][i]] == r.value
                 && forall j :: 0 <= j < i ==> !IsTruthy(metadata, keys[1..][j]);
        assert IsTruthy(metadata, keys[i + 1]) && metadata[keys[i + 1]] == r.value;
        assert forall j :: 0 <= j < i + 1 ==> !IsTruthy(metadata, keys[j]);
        r
      else r
  }

  /** The value picked along `keys` comes from the first key with a non-empty value. */
  lemma FirstTruthyPicksFirst(metadata: Metadata, keys: seq<string>, i: nat)
    requires i < |keys| && IsTruthy(metadata, keys[i])
    requires forall j :: 0 <= j < i ==> !IsTruthy(metadata, keys[j])
    ensures FirstTruthy(metadata, keys) == Some(metadata[keys[i]])
  {
    var r := FirstTruthy(metadata, keys);
    var k :| 0 <= k < |keys| && IsTruthy(metadata, keys[k]) && metadata[keys[k]] == r.value
             && forall j :: 0 <= j < k ==> !IsTruthy(metadata, keys[j]);
    assert k == i;
  }

  /** `user.email?.split('@')[0]`: the part of the address before the first `@`. */
  function EmailLocalPart(email: Option<string>): (r: Option<string>)
    ensures r.Some? ==> email.Some? && StartsWith(email.value, r.value) && '@' !in r.value
    ensures email.Some? ==> r.Some? && (|r.value| == |email.value| || email.value[|r.value|] == '@')
  {
    match email
    case None => None
    case Some(address) =>
      SplitHead(address, '@');
      SplitPiecesWithoutSeparator(address, '@');
      Some(Split(address, '@')[0])
  }

  /**
   * `derivedName`: the metadata name, else the e-mail's local part, else
   * "Bruker". `metadata` is `user_metadata || {}`.
   */
  function DisplayName(metadata: Metadata, email: Option<string>): (r: string)
    ensures r != []
    ensures FirstTruthy(metadata, NameKeys).Some? ==> r == FirstTruthy(metadata, NameKeys).value
    ensures FirstTruthy(metadata, NameKeys).None? && Truthy(EmailLocalPart(email)) ==> r == EmailLocalPart(email).value
    ensures FirstTruthy(metadata, NameKeys).None? && !Truthy(EmailLocalPart(email)) ==> r == FallbackName
  {
    var fromMetadata := FirstTruthy(metadata, NameKeys);
    var local := EmailLocalPart(email);
    if fromMetadata.Some? then fromMetadata.value
    else if Truthy(local) then local.value
    else FallbackName
  }

  /** `derivedAvatar`: `avatar_url`, else `picture`. */
  function AvatarUrl(metadata: Metadata): (r: Option<string>)
    ensures IsTruthy(metadata, "avatar_url") ==> r == Some(metadata["avatar_url"])
    ensures !IsTruthy(metadata, "avatar_url") && IsTruthy(metadata, "picture") ==> r == Some(metadata["picture"])
    ensures !IsTruthy(metadata, "avatar_url") && !IsTruthy(metadata, "picture") ==> r.None?
  {
    if IsTruthy(metadata, "avatar_url") then
      FirstTruthyPicksFirst(metadata, AvatarKeys, 0);
      FirstTruthy(metadata, AvatarKeys)
    else if IsTruthy(metadata, "picture") then
      FirstTruthyPicksFirst(metadata, AvatarKeys, 1);
      FirstTruthy(metadata, AvatarKeys)
    else
      FirstTruthy(metadata, AvatarKeys)
  }

  // ---------------------------------------------------------------------------
  // Initials
  // ---------------------------------------------------------------------------

  /** `.filter(Boolean)`: the non-empty words, in order. */
  function NonEmpty(words: seq<string>): (r: seq<string>)
    ensures forall w :: w in r <==> w in words && w != []
    ensures forall i :: 0 <= i < |r| ==> r[i] != []
  {
    if words == [] then []
    else
      var rest := NonEmpty(words[1..]);
      assert words == [words[0]] + words[1..];
      if words[0] != [] then [words[0]] + rest else rest
  }

  /** `.map(part => part[0]?.toUpperCase() || '').join('')`: the upper-cased first letters. */
  function FirstLetters(words: seq<string>): (r: string)
    requires forall i :: 0 <= i < |words| ==> words[i] != []
    ensures |r| == |words|
    ensures forall i :: 0 <= i < |words| ==> r[i] == ToUpperChar(words[i][0])
  {
    if words == [] then []
    else [ToUpperChar(words[0][0])] + FirstLetters(words[1..])
  }

  /** `derivedInitials`: the first letters of the first two space-separated words, else "U". */
  function Initials(name: string): (r: string)
    ensures 1 <= |r| <= 2
    ensures var w := NonEmpty(Split(name, ' '));
      && (w == [] ==> r == FallbackInitials)
      && (|w| == 1 ==> r == [ToUpperChar(w[0][0])])
      && (|w| >= 2 ==> r == [ToUpperChar(w[0][0]), ToUpperChar(w[1][0])])
  {
    var words := NonEmpty(Split(name, ' '));
    var letters := Prefix(FirstLetters(words), 2);
    if letters != [] then letters else FallbackInitials
  }

  /** A name of two words separated by one space has the upper-cased first letters of both. */
  lemma InitialsOfTwoWords(first: string, second: string)
    requires first != [] && second != [] && ' ' !in first && ' ' !in second
    ensures Initials(first + " " + second) == [ToUpperChar(first[0]), ToUpperChar(second[0])]
  {
    SplitAtSeparator(first, second, ' ');
    SplitWithoutSeparator(first, ' ');
    SplitWithoutSeparator(second, ' ');
    assert first + " " + second == first + [' '] + second;
    assert Split(first + " " + second, ' ') == [first, second];
    assert NonEmpty([second]) == [second] by {
      assert [second][1..] == [];
    }
    assert NonEmpty([first, second]) == [first, second] by {
      assert [first, second][1..] == [second];
    }
    assert FirstLetters([first, second]) == [ToUpperChar(first[0]), ToUpperChar(second[0])] by {
      assert [first, second][1..] == [second];
      assert [second][1..] == [];
    }
  }

  /** A name of spaces only (or the empty name) has no words, so its initials are "U". */
  lemma BlankNameInitials(name: string)
    requires forall i :: 0 <= i < |name| ==> name[i] == ' '
    ensures Initials(name) == FallbackInitials
  {
    SpacesSplitIntoEmptyPieces(name);
    NonEmptyOfEmptyPieces(Split(name, ' '));
  }

  lemma {:induction false} NonEmptyOfEmptyPieces(words: seq<string>)
    requires forall w :: w in words ==> w == []
    ensures NonEmpty(words) == []
    decreases |words|
  {
    if words != [] {
      assert words[0] in words;
      assert forall w :: w in words[1..] ==> w in words;
      NonEmptyOfEmptyPieces(words[1..]);
    }
  }

  lemma {:induction false} SpacesSplitIntoEmptyPieces(name: string)
    requires forall i :: 0 <= i < |name| ==> name[i] == ' '
    ensures forall p :: p in Split(name, ' ') ==> p == []
    decreases |name|
  {
    if |name| > 0 {
      SpacesSplitIntoEmptyPieces(name[1..]);
    }
  }

  // ---------------------------------------------------------------------------
  // The menu
  // ---------------------------------------------------------------------------

  /** The open flag of the menu, and what the menu has asked of `onSignOut`. */
  class AvatarMenu {
    var isOpen: bool
    /** One entry per call of `onSignOut`: whether the menu was still open at that moment. */
    var signOutCalls: seq<bool>

    constructor ()
      ensures !isOpen && signOutCalls == []
    {
      isOpen, signOutCalls := false, [];
    }

    /** `handleToggle`: flips the flag, so two toggles restore it. */
    method Toggle()
      modifies this
      ensures isOpen == !old(isOpen) && signOutCalls == old(signOutCalls)
    {
      isOpen := !isOpen;
    }

    /** `handleClickOutside`: a click outside the mounted menu closes it; any other click changes nothing. */
    method Click(menuMounted: bool, insideMenu: bool)
      modifies this
      ensures menuMounted && !insideMenu ==> !isOpen
      ensures !(menuMounted && !insideMenu) ==> isOpen == old(isOpen)
      ensures signOutCalls == old(signOutCalls)
    {
      if menuMounted && !insideMenu {
        isOpen := false;
      }
    }

    /** `handleSignOut`: closes the menu, then calls `onSignOut` once. */
    method SignOut()
      modifies this
      ensures !isOpen
      ensures signOutCalls == old(signOutCalls) + [false]
    {
      isOpen := false;
      signOutCalls := signOutCalls + [isOpen];
    }
  }
}

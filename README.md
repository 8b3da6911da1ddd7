# Vote-then-discuss: a verified model of the session core

This model covers the core of a small web application for anonymous rounds of questions:
- An organiser creates a **session**: a four-character code (`A-Z0-9`), an optional name and an ordered list of questions.
- Participants join by typing the code, answer every question once and submit.
- A participant's later answer to the same question replaces the earlier one.
- Everyone then sees the answers grouped by question.
- A request middleware keeps non-public pages behind sign-in and serves the admin site under `/admin`.
- An OAuth callback route picks where the browser goes after sign-in.
- The header shows the signed-in account's name, picture or initials in a small menu.

The database is modelled as the class `Store.Store`, which holds the four tables (`sessions`, `questions`, `answers`, `submissions`) as sequences of rows. Each of its requests may fail. That outcome is chosen nondeterministically, so every property proved about a caller holds for every pattern of failures. Read requests cannot write.

Modules, one per core file, plus the shared pieces:

| module | models |
|---|---|
| `Wrappers` | `Option` and `Result` |
| `Strings` | the JavaScript string operations the core uses: `startsWith`, `endsWith`, `includes`, `slice(0, n)`, `trim` (with JavaScript's white-space set), `toUpperCase` on ASCII letters, `split` and `join` on one character; `LastIndexOf` is not used by the core and only serves to state `AnswerCard.AnonLabel` |
| `Rows` | the table rows, the query outcome `Rows`/`NoData`/`QueryError`, and the filters the queries apply |
| `Upsert` | `upsert(..., { onConflict: 'question_id,user_id' })` on the answers table |
| `Store` | the database client: the selects and inserts the core issues |
| `SessionService` | `lib/services/session-service.ts` |
| `CreateSession` | `app/create-session/page.tsx`: the question drafts, code generation, code allocation and the two inserts |
| `JoinCode` | `app/page.tsx`: code normalisation and the join form |
| `AnswerCard` | `components/session/AnswerCard.tsx`: the author label |
| `RouteGuard` | `middleware.ts` |
| `AuthCallback` | `app/auth/callback/route.ts` |
| `UserAvatarMenu` | `components/UserAvatarMenu.tsx` |

## Model

| member | source | states |
|---|---|---|
| Store.Store.SelectSession | lib/services/session-service.ts:38-42 | a delivered row is in the table and has the code asked for; an absent code always ends in an error (`.single()`), never in a row |
| Store.Store.SelectQuestionsInOrder | lib/services/session-service.ts:64-68 | a delivered list is sorted by `question_order` and is a permutation of exactly the session's question rows |
| Store.Store.SelectAnswers | lib/services/session-service.ts:80-83 | a delivered list is a permutation of exactly the session's answer rows, in any order, since the query asks for none |
| Store.Store.SelectSubmission | lib/services/session-service.ts:108-113 | a delivered row is the only submission of that participant for that session; zero or several matches end in an error |
| Store.Store.InsertSession | app/create-session/page.tsx:110-118 | on success the row is appended and its code was not taken; on error nothing changes; the row handed back is the row written; no other table changes |
| Store.Store.InsertQuestions | app/create-session/page.tsx:128 | the batch is appended as a whole, each stored row carrying its draft's payload in order, or nothing is written |
| Store.Store.InsertQuestion | lib/services/session-service.ts:163-171 | the question is appended with the given payload or nothing is written; a row handed back is the stored one |
| Store.Store.UpsertAnswers | lib/services/session-service.ts:136-138 | on success the answers table becomes the upsert of the batch, and a batch with two entries for one (question, author) key is refused; on error nothing changes; the (question, author) key stays unique |
| Store.Store.InsertSubmission | lib/services/session-service.ts:143-148 | on success one record for (session, participant) is appended; otherwise nothing changes |
| Rows.FindSession | app/page.tsx:36 | finds a row with the code, or reports that no row has it |
| Rows.QuestionsOfSession | lib/services/session-service.ts:64-67 | a row is kept exactly when it belongs to the session |
| Rows.AnswersOfSession | lib/services/session-service.ts:80-83 | a row is kept exactly when it belongs to the session |
| Rows.PermutedAnswersOfSession | lib/services/session-service.ts:80-83 | rows delivered in any order are still exactly the stored rows of the session |
| Rows.SubmissionsOf | lib/services/session-service.ts:108-112 | a record is kept exactly when it matches both session and participant |
| Rows.SortByOrder | lib/services/session-service.ts:68 | one ascending ordering by `question_order`: sorted and a permutation of its input |
| Rows.InsertByOrder | lib/services/session-service.ts:68 | inserting into a sorted list keeps it sorted and adds exactly that row |
| Upsert.OtherAuthors | lib/services/session-service.ts:136-138 | exactly the rows written by other authors |
| Upsert.IndexOfKey | lib/services/session-service.ts:138 | finds the row with the conflict key (question, author), or reports that none has it |
| Upsert.UpsertOne | lib/services/session-service.ts:136-138 | no contract of its own; the `UpsertOne...` lemmas state it |
| Upsert.UpsertAll | lib/services/session-service.ts:136-138 | no contract of its own; the `Upsert...` batch lemmas state it |
| Upsert.UpsertOneKeepsKeysUnique | lib/services/session-service.ts:136-138 | one upsert keeps the (question, author) key unique |
| Upsert.UpsertOneStores | lib/services/session-service.ts:136-138 | after one upsert the entry's text is stored under its key |
| Upsert.UpsertOneKeepsOtherKey | lib/services/session-service.ts:136-138 | one upsert leaves every other key's answer as it was |
| Upsert.OtherAuthorsUpdate | lib/services/session-service.ts:136-138 | replacing one author's row in place leaves every other author's rows unchanged |
| Upsert.UpsertOneKeepsOtherAuthors | lib/services/session-service.ts:136-138 | one upsert leaves the other authors' rows unchanged |
| Upsert.UpsertKeepsKeysUnique | lib/services/session-service.ts:136-138 | a batch upsert keeps the conflict key unique |
| Upsert.UpsertKeepsUntouchedKey | lib/services/session-service.ts:136-138 | a key no entry names keeps its answer |
| Upsert.UpsertStoresEntries | lib/services/session-service.ts:136-138 | every entry of a batch with distinct keys is stored under its key afterwards |
| Upsert.UpsertKeepsOtherAuthors | lib/services/session-service.ts:136-138 | a batch from one author leaves every other author's rows unchanged |
| Upsert.LatestAnswerIsTheOnlyOne | lib/services/session-service.ts:136-138 | after the upsert exactly one row holds each submitted (question, author) key, carrying the submitted text |
| SessionService.RowsFor | lib/services/session-service.ts:88-94 | the reference grouping: a row is in a question's group exactly when it answers that question |
| SessionService.RowsForSnoc | lib/services/session-service.ts:89-93 | reading one more row extends only its own question's group, at the end |
| SessionService.RowsForAppend | lib/services/session-service.ts:89-94 | grouping distributes over concatenation of the rows read |
| SessionService.GroupingStep | lib/services/session-service.ts:90-93 | one `forEach` step turns a grouping of the rows so far into a grouping of one row more |
| SessionService.RowsForAbsent | lib/services/session-service.ts:90-92 | a question nobody answered has an empty group |
| SessionService.GroupingLoopStep | lib/services/session-service.ts:89-94 | the loop invariant (grouping, group keys, total size) survives one step |
| SessionService.KeysStep | lib/services/session-service.ts:90-93 | a new question opens one new group; every row adds one to the total size |
| SessionService.TotalSizeGrow | lib/services/session-service.ts:93 | appending to one group grows the total by one |
| SessionService.TotalSizeOtherKey | lib/services/session-service.ts:91 | opening a group under a new key leaves the existing groups' total alone |
| SessionService.GroupingKeys | lib/services/session-service.ts:88-94 | a question has a group exactly when some row read answers it, so there are no empty groups |
| SessionService.RowInExactlyItsGroup | lib/services/session-service.ts:88-94 | every row read is in its own question's group and in no other |
| SessionService.GroupByQuestion | lib/services/session-service.ts:88-94 | the loop builds the reference grouping; its groups partition the rows read (distinct keys, sizes summing to the number of rows) |
| SessionService.AnswerEntries | lib/services/session-service.ts:129-134 | one entry per answer, in order, each under the session and the caller's identity and carrying that answer's question and text |
| SessionService.SubmissionKeepsOthersAnswers | lib/services/session-service.ts:129-138 | a submission never changes another participant's answers |
| SessionService.SubmissionStoresEachAnswer | lib/services/session-service.ts:129-138 | after a submission with distinct questions, each answer is the only row under its (question, participant) key and carries the submitted text |
| SessionService.SessionService.LoadSession | lib/services/session-service.ts:36-60 | a session is handed back only when a row with that code exists, with that row's name; an unknown code, and every error, ends in `None` |
| SessionService.SessionService.LoadQuestions | lib/services/session-service.ts:62-76 | success hands back the session's questions sorted by order, and all of them; no data is an empty list; a read error is an error |
| SessionService.SessionService.LoadAllAnswers | lib/services/session-service.ts:78-101 | success hands back a grouping of exactly what the read delivered, which is the session's answers in some order or nothing; every grouped answer is a stored answer of this session, filed under its own question; when anything was read, every stored answer of the session is in its question's group; a read error is an error |
| SessionService.SessionService.CheckSubmissionStatus | lib/services/session-service.ts:103-120 | a record is handed back only when it is the participant's only submission for the session; with none, `None` |
| SessionService.SessionService.SubmitAnswers | lib/services/session-service.ts:122-155 | the answers become the upsert of the caller's entries or stay as they were; success appends one submission record; the submission is written only after the answers; other authors' answers never change |
| SessionService.SessionService.AddQuestion | lib/services/session-service.ts:157-181 | success appends the trimmed question at the given order and hands back that row; an error leaves the table unchanged or holds the appended row (insert done, no row handed back) |
| CreateSession.AddDraft | app/create-session/page.tsx:59-62 | appends one empty draft with the new id, keeping the others |
| CreateSession.Without | app/create-session/page.tsx:66 | keeps exactly the drafts whose id differs |
| CreateSession.RemoveDraft | app/create-session/page.tsx:64-68 | with one draft or none nothing changes; otherwise exactly the drafts with that id go |
| CreateSession.UpdateDraft | app/create-session/page.tsx:70-72 | only the drafts with that id get the new text; order and ids are kept |
| CreateSession.WithoutAppend | app/create-session/page.tsx:66 | the filter distributes over concatenation |
| CreateSession.WithoutAbsent | app/create-session/page.tsx:66 | removing an unknown id changes nothing |
| CreateSession.RemoveDistinct | app/create-session/page.tsx:64-68 | with distinct ids, removing a draft's id takes out exactly that draft |
| CreateSession.RemoveUnknownId | app/create-session/page.tsx:64-68 | removing an unknown id leaves the drafts as they were |
| CreateSession.WithoutDistinct | app/create-session/page.tsx:66 | filtering keeps ids distinct and removes at most one draft when ids are distinct |
| CreateSession.AddedIds | app/create-session/page.tsx:60 | the ids handed out by the additions, in order |
| CreateSession.DraftsNeverEmpty | app/create-session/page.tsx:39-72 | from the initial draft, any sequence of edits with fresh ids leaves at least one draft, with distinct ids, each coming from the start or an addition |
| CreateSession.ValidQuestions | app/create-session/page.tsx:80 | keeps exactly the drafts whose trimmed text is not empty |
| CreateSession.HasValidQuestions | app/create-session/page.tsx:42 | no contract of its own; `HasValidIffSomeValid` ties it to the filtered list |
| CreateSession.HasValidIffSomeValid | app/create-session/page.tsx:42-81 | the `hasValidQuestions` flag agrees with a non-empty filtered list |
| CreateSession.ValidQuestionsAppend | app/create-session/page.tsx:80 | the filter distributes over concatenation |
| CreateSession.QuestionsToInsert | app/create-session/page.tsx:122-126 | one row per filled draft |
| CreateSession.InsertedQuestions | app/create-session/page.tsx:122-126 | each inserted question belongs to the new session, has order `index + 1` (strictly increasing) and the trimmed, non-empty text of its draft with no white space at either end |
| CreateSession.RowsOfFilledDrafts | app/create-session/page.tsx:122-126 | the rows built from filled drafts carry the session, order `index + 1` and each draft's trimmed text, non-empty and with no white space at either end |
| CreateSession.StoredName | app/create-session/page.tsx:114 | the trimmed name, or no name exactly when the name is blank |
| CreateSession.CharsAreCodeChars | app/create-session/page.tsx:51 | the 36 characters drawn from are exactly the code characters |
| CreateSession.CharsAt | app/create-session/page.tsx:51 | the alphabet is `A`..`Z` then `0`..`9` |
| CreateSession.GenerateSessionId | app/create-session/page.tsx:50-57 | whatever the random draws, the result is a valid session code |
| CreateSession.AllocateSessionId | app/create-session/page.tsx:88-108 | a chosen code is a valid session code; at most ten lookups; every candidate is a valid code; a candidate reported taken is in the table; a chosen code is the last candidate, after all earlier ones were reported taken; no code exactly when ten lookups all reported taken |
| CreateSession.CreateSession | app/create-session/page.tsx:74-141 | no user: login, nothing written; no filled draft: stop, nothing written; ten taken codes: failure with no table changed; success: the session row with the chosen code, trimmed name and owner is appended, then its filled questions in order, and the route is `/session/<code>`; a failure leaves the questions and at most the session row; answers and submissions never change |
| CreateSession.WriteSession | app/create-session/page.tsx:110-134 | the session row first; questions only after it; a failure after the first insert leaves the session without questions |
| JoinCode.StripWhitespace | app/page.tsx:12 | a character is in the result exactly when it is in the input and is not white space |
| JoinCode.KeepCodeChars | app/page.tsx:13 | a character is in the result exactly when it is in the input and is one of `A-Z0-9` |
| JoinCode.Normalize | app/page.tsx:9-14 | at most four characters, all of them code characters |
| JoinCode.StripWhitespaceAppend | app/page.tsx:12 | white-space removal distributes over concatenation |
| JoinCode.KeepCodeCharsAppend | app/page.tsx:13 | the character filter distributes over concatenation |
| JoinCode.StripKeepsCodeChars | app/page.tsx:12 | a string of code characters has no white space to remove |
| JoinCode.KeepKeepsCodeChars | app/page.tsx:13 | a string of code characters passes the filter unchanged |
| JoinCode.KeepAfterStrip | app/page.tsx:12-13 | removing white space first makes no difference to the character filter |
| JoinCode.ToUpperAppend | app/page.tsx:11 | upper-casing distributes over concatenation |
| JoinCode.NormalizeIsFirstCodeChars | app/page.tsx:9-14 | the code is the first four code characters of the upper-cased input |
| JoinCode.NormalizeUpperCodeChars | app/page.tsx:9-14 | a short input whose upper-case letters are code characters normalises to its upper-case form |
| JoinCode.NormalizeCodeChars | app/page.tsx:9-14 | a string of at most four code characters is unchanged |
| JoinCode.ValidCodeUnchanged | app/page.tsx:9-14 | every session code normalises to itself, so a generated code can always be typed back in |
| JoinCode.NormalizeIdempotent | app/page.tsx:9-14 | normalising twice is normalising once |
| JoinCode.NormalizeExtends | app/page.tsx:9-14 | typing more characters only extends the shown code |
| JoinCode.JoinPage.JoinSession | app/page.tsx:24-50 | the field shows the normalised code; a code that is not four characters long is refused without a lookup; otherwise one lookup, and navigation to `/session/<code>` only when the session exists; an unknown code never navigates |
| AnswerCard.ViewerId | components/session/AnswerCard.tsx:15 | the submitted identity when there is one, else the signed-in one |
| AnswerCard.IsCurrentUser | components/session/AnswerCard.tsx:30-33 | no contract of its own; `DisplayName` labels every such answer "Deg", and `SelfLabelWithoutBadge` shows the label alone does not identify the viewer |
| AnswerCard.AnonName | components/session/AnswerCard.tsx:20-23 | no contract of its own; `AnonRoundTrip` and `AnonLabel` state what it yields |
| AnswerCard.DisplayName | components/session/AnswerCard.tsx:14-28 | never empty; "Deg" for the viewer's own answers; for other account ids, "Bruker " then the first eight characters of the id (all of a shorter id) then "..." |
| AnswerCard.AnonSplit | components/session/AnswerCard.tsx:19-20 | an anonymous id splits into "anon" followed by the pieces of the rest |
| AnswerCard.AnonRoundTrip | components/session/AnswerCard.tsx:19-25 | `anon_<name>_<token>` with a token without `_` displays `name` (or "Anonym" when it is empty) to others, even when `name` contains `_` |
| AnswerCard.AnonLabel | components/session/AnswerCard.tsx:19-25 | the label is what lies between the prefix and the last `_`, or "Anonym" when that is empty or there is no `_` after the prefix |
| AnswerCard.AnonWithoutName | components/session/AnswerCard.tsx:21-25 | an anonymous id with no further `_` has two pieces and displays "Anonym" |
| AnswerCard.PageIdentityLabel | components/session/AnswerCard.tsx:19-24 | an identity of the form `anon_<name>_<time>_<random>` with a random part without `_`, as the session page submits, displays `<name>_<time>` to others, not the bare name |
| AnswerCard.SelfLabelWithoutBadge | components/session/AnswerCard.tsx:14-33 | an anonymous participant named "Deg" is labelled "Deg" to another viewer but carries no badge for them |
| RouteGuard.EffectivePath | middleware.ts:19-26 | on the admin host `/admin` is prepended to a path not already under `/admin`, and a path already there is unchanged; elsewhere it is the requested path |
| RouteGuard.EffectivePathIdempotent | middleware.ts:24-26 | rewriting twice is rewriting once |
| RouteGuard.IsPublicRoute | middleware.ts:8-11 | public exactly for `/` and for paths beginning with `/login`, `/auth` or `/session` |
| RouteGuard.IsAdminHost | middleware.ts:19-21 | no contract of its own; `ProductionAdminHost` and `LocalAdminHost` state which hosts it accepts |
| RouteGuard.ProductionAdminHost | middleware.ts:19-20 | the production admin host is an admin host, with or without a port |
| RouteGuard.LocalAdminHost | middleware.ts:19-21 | a `localhost:` host is an admin host only when it contains `admin.`; plain `localhost:3000` is not, and neither is `admin.localhost:3000`, which does not begin with `localhost:` |
| RouteGuard.PrefixHeads | middleware.ts:5 | each public prefix begins with `/lo`, `/au` or `/se` |
| RouteGuard.PublicHead | middleware.ts:8-11 | a public path other than `/` begins with one of those three heads |
| RouteGuard.AdminPathNotPublic | middleware.ts:8-11 | no path under `/admin` is public |
| RouteGuard.AdminHostNeverPublic | middleware.ts:19-35 | on the admin host no effective path is public |
| RouteGuard.PublicExamples | middleware.ts:5-11 | `/` and `/login` are public, and so are `/sessionsX` and `/authors` (a plain prefix test); `/workspace` and `/create-session` are not |
| RouteGuard.Middleware | middleware.ts:13-51 | redirect to `/login` with `redirectedFrom` exactly when the effective path is not public and nobody is signed in; rewrite exactly on the admin host for a signed-in user; pass through exactly off the admin host for public paths or signed-in users |
| AuthCallback.NextPath | app/auth/callback/route.ts:7-9 | always starts with `/`: `/` when absent, the parameter when it starts with `/`, otherwise `/` put in front |
| AuthCallback.NextPathIdempotent | app/auth/callback/route.ts:9 | normalising twice is normalising once |
| AuthCallback.EffectiveHost | app/auth/callback/route.ts:17 | the `host` header, else the URL's host |
| AuthCallback.IsLocalHost | app/auth/callback/route.ts:21-30 | no contract of its own; `LocalHostExamples` and `LocalHostIgnoresForwarding` state it |
| AuthCallback.RedirectTarget | app/auth/callback/route.ts:11-46 | without a code, or after a failed exchange, the error page on the request's origin; after a successful exchange the target ends with the normalised path: on the origin for local hosts or when nothing is forwarded, otherwise on the forwarded host over the forwarded protocol, by default https |
| AuthCallback.LocalHostIgnoresForwarding | app/auth/callback/route.ts:19-34 | for a local host the forwarded headers make no difference |
| AuthCallback.LocalHostExamples | app/auth/callback/route.ts:21-30 | loopback names with and without ports and `.localhost` names are local; `localhost.example.com` is not |
| UserAvatarMenu.FirstTruthy | components/UserAvatarMenu.tsx:17-22 | the value of the first key with a non-empty value, or `None` exactly when there is none |
| UserAvatarMenu.FirstTruthyPicksFirst | components/UserAvatarMenu.tsx:17-22 | when key `i` is the first with a value, that value is picked |
| UserAvatarMenu.EmailLocalPart | components/UserAvatarMenu.tsx:24 | for an address, the text before its first `@` (all of it when there is no `@`), containing no `@` |
| UserAvatarMenu.DisplayName | components/UserAvatarMenu.tsx:24 | never empty; the metadata name, else the address's local part, else "Bruker" |
| UserAvatarMenu.AvatarUrl | components/UserAvatarMenu.tsx:25 | `avatar_url`, else `picture`, else none |
| UserAvatarMenu.NonEmpty | components/UserAvatarMenu.tsx:29 | keeps exactly the non-empty words |
| UserAvatarMenu.FirstLetters | components/UserAvatarMenu.tsx:30-31 | one letter per word: the upper-cased first character of that word |
| UserAvatarMenu.Initials | components/UserAvatarMenu.tsx:26-32 | the upper-cased first letters of the first two non-empty space-separated words, of the only one when there is one, and "U" when there is none |
| UserAvatarMenu.InitialsOfTwoWords | components/UserAvatarMenu.tsx:26-32 | two words separated by a space give their upper-cased first letters |
| UserAvatarMenu.BlankNameInitials | components/UserAvatarMenu.tsx:26-32 | a name of spaces (or none) gives "U" |
| UserAvatarMenu.NonEmptyOfEmptyPieces | components/UserAvatarMenu.tsx:29 | only empty words leave nothing |
| UserAvatarMenu.SpacesSplitIntoEmptyPieces | components/UserAvatarMenu.tsx:28 | splitting spaces on spaces gives only empty pieces |
| UserAvatarMenu.AvatarMenu.Toggle | components/UserAvatarMenu.tsx:52 | flips the open flag |
| UserAvatarMenu.AvatarMenu.Click | components/UserAvatarMenu.tsx:42-46 | a click outside the mounted menu closes it; other clicks change nothing |
| UserAvatarMenu.AvatarMenu.SignOut | components/UserAvatarMenu.tsx:54-57 | the menu is closed before `onSignOut` is called, once |
| Strings.Prefix | components/session/AnswerCard.tsx:27 | `slice(0, n)`: a prefix of length min(n, length of `s`) |
| Strings.Split | components/session/AnswerCard.tsx:20 | at least one piece; `JoinSplit`, `SplitPiecesWithoutSeparator`, `SplitAtSeparator` and `SplitHead` state the rest |
| Strings.Join | components/session/AnswerCard.tsx:22 | no contract of its own; `JoinSplit` and `JoinAppend` state it |
| Strings.ToUpper | app/page.tsx:11 | no contract of its own; `JoinCode.ToUpperAppend` and the `Normalize...` lemmas state it |
| Strings.TrimStart | lib/services/session-service.ts:167 | drops exactly the leading white space |
| Strings.TrimEnd | lib/services/session-service.ts:167 | drops exactly the trailing white space |
| Strings.Trim | lib/services/session-service.ts:167 | the middle of the string with white space at neither end; empty exactly when the string is blank |
| Strings.TrimIdempotent | app/create-session/page.tsx:124 | trimming twice is trimming once |
| Strings.JoinSplit | components/session/AnswerCard.tsx:20-22 | joining the pieces of a split gives back the string |
| Strings.SplitPiecesWithoutSeparator | components/session/AnswerCard.tsx:20 | no piece contains the separator |
| Strings.SplitWithoutSeparator | components/session/AnswerCard.tsx:20 | a string without the separator is one piece |
| Strings.SplitAtSeparator | components/session/AnswerCard.tsx:20 | splitting `a + sep + b` gives the pieces of `a` followed by those of `b` |
| Strings.JoinAppend | components/session/AnswerCard.tsx:22 | joining two lists puts one separator between their joins |
| Strings.SplitHead | components/UserAvatarMenu.tsx:24 | the first piece is a prefix followed by the separator or the end |
| Strings.LastIndexOf | components/session/AnswerCard.tsx:20-22 | the last occurrence, or none when the character does not occur; the core does not call `lastIndexOf`, this only serves to state `AnswerCard.AnonLabel` |

## Left out

- `subscribeToAnswers` (lib/services/session-service.ts:183-201) registers a realtime callback. Channels and event delivery are outside the model.
- Rendering, `console.error` and `alert` output are not modelled. The loading and `isCreating` flags are not modelled either; the join form's `isJoining` flag is.
- Asynchronous scheduling is not modelled. Each `await` is one call on the store, taken in program order, and no other client writes in between.
- Session refresh, OAuth code exchange and auth context are foreign calls. Their outcome is a parameter: `user` in `RouteGuard.Middleware` and `exchangeSucceeded` in `AuthCallback.RedirectTarget`. Cookies are not modelled.
- Errors are not distinguished by kind. `loadSession` ends in `None` on every error, as the code does through its catch branch; the others carry one `DatabaseError` message.
- The join form's catch branch (app/page.tsx:44-46) is not modelled, because the modelled store reports errors instead of throwing.
- `Math.random` is an arbitrary real in [0, 1), chosen with `:|`. `Date.now() + Math.random()` draft ids are left free. `DraftsNeverEmpty` assumes they are fresh; the code relies on that too.
- Database-generated ids (uuid and serial keys) are modelled as `nat` values drawn from a counter.
- `toUpperCase` is modelled on ASCII letters only, with no locale handling.
- Strings are sequences of Dafny `char`s, which are Unicode scalar values. JavaScript counts UTF-16 code units, so `slice(0, 8)`, `part[0]` and lengths differ from the model for characters outside the Basic Multilingual Plane, where JavaScript can cut a surrogate pair in half.
- Row-level security is not modelled. In the database a policy hides the rows a user may not see, without an error. The "exactly the session's rows" contracts of `Store.Store.SelectQuestionsInOrder`, `Store.Store.SelectAnswers` and the loaders built on them hold only when every row is visible to the caller.
- Store.Store.SelectAnswers: the order of the delivered rows is left open, so the order of the answers inside a group is not stated.
- Upsert.UpsertOne: an updated answer keeps its place in the modelled table. The database may move the row, but no modelled read depends on table order.
- The session page that builds the anonymous identities (app/session/[id]/page.tsx) is not part of this model. `AnswerCard.PageIdentityLabel` takes the identity format it submits as given.
- Store.Store.InsertSession: an insert whose `.select().single()` reports an error is modelled as not written. In the database the row might still have been written.
- RouteGuard.Middleware: the `config.matcher` exclusion of static files (middleware.ts:53-64) is not modelled; every request reaches the middleware.
- SessionService.SessionService.LoadQuestions: completeness (the multiset of all the session's questions) is stated only for a non-empty result. An empty list is also what a response with no data gives.
- AnswerCard.AnonName carries no contract of its own. `AnonRoundTrip` and `AnonLabel` state what it yields.

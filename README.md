# Bragging-rights leaderboard: a Dafny model

The system is a small Next.js app. Participants log commits to a shared
repository and tag each message with a difficulty: `[Easy]`, `[Medium]` or
`[Hard]`.

- The API route `GET /api/leaderboard` is meant to fetch the commit list from
  the hosting API. As written it reads an undeclared `GITHUB_TOKEN` first, so it
  answers 500 unless that global is defined elsewhere (see "## Left out"). It
  resolves each commit's author name through a static alias table and
  scores the commit by its first difficulty tag, checked in the order Easy (1),
  Medium (2), Hard (3), ignoring letter case. Untagged commits are skipped. The
  route returns two dictionaries: participant -> total, and participant -> the
  scored commits. Any failure becomes a 500 response with a fixed error message.
- The page (`Home`) derives what it shows from that payload:
  - the participants sorted by descending score;
  - a two-party "tug of war" bar, shown when there are exactly two participants,
    together with its denominator;
  - a ranked table;
  - a debug list built from an optional `processedCommits` field and cut to ten
    entries.

The project has three modules:

- `Wrappers` (`wrappers.dfy`) holds `Option` and `Result`.
- `Leaderboard` (`leaderboard.dfy`) models the API route:
  - **Reference definitions.** The alias resolution is `Resolve`, ASCII
    case-insensitive tag search is `Test`, and the points rule is `Points`.
    One iteration of the `forEach` callback is the pure `Step`, and the whole
    loop is the left fold `Aggregate`.
  - **Imperative versions.** The callback is the method `Tally`, the loop is the
    method `ComputeLeaderboard`, and the handler is `Get`. Each is proved equal
    to the reference definitions.
  - **Lemmas.** They say what the dictionaries mean (`Attributed`, `SumPoints`,
    `QualifyingPoints`), that tag priority wins over tag position, and that
    untagged commits are ignored.
- `Home` (`home.dfy`) models the page's derivations as functions and lemmas. The
  derivations modelled here are pure expressions; the page's React state is
  not modelled.

Modelling decisions:

- **Alias resolution.** The alias table is a parameter (`Aliases`) of the
  reference definitions and of `ComputeLeaderboard`. The handler passes its
  static table `NameMapping`.
- **JavaScript truthiness is written out.**
  - `nameMapping[n] || n` falls back when the alias is missing or is "".
  - `!scores[who]` restarts an entry that is missing or whose total is 0.
  - `x || 0` and `sum || 1` work the same way.
- **Destructuring past the end.** `const [p1, p2]` yields `undefined` when the
  list is too short. Used as a key, that is the property name "undefined"
  (`KeyOf`).
- **Case folding.** The regular expressions `/\[Easy\]/i` and the others have
  no `u` flag. Their case-insensitive matching folds characters through
  upper-casing, but it never folds a non-ASCII character onto an ASCII one. All
  three tags are pure ASCII, so a message character matches a tag character
  exactly when the two are equal or are the two cases of one ASCII letter. That
  is what `Lower`, which folds exactly `A`-`Z`, gives
  (`LowerMatchesCaseVariants`).
- **Key order.** `Object.keys` order is left open: it is a parameter `order`,
  required to list each key exactly once. The sort is modelled as a stable
  sort, as `Array.prototype.sort` has been since ES2019.
- **Hard tag versus priority.** One might expect a `[Hard]` tag to score 3
  whatever other tags the message holds. The code instead gives the first of
  Easy, Medium and Hard that is present. The model follows the code
  (`EasyBeatsHard`, `MediumBeatsHard`).

## Model

| member | source | states |
|---|---|---|
| Leaderboard.Resolve | src/app/api/leaderboard/route.ts:31 | `nameMapping[githubAuthor]`, falling back to the author's own name; `NameMappingResolves` states its result for the static table |
| Leaderboard.NameMappingResolves | src/app/api/leaderboard/route.ts:7-10 | `Resolve` (the alias-or-name fallback of route.ts:31) with the static table sends `lolidrk` to `kalyani` and `Tanmay-Kulkarni101` to `tanmay`, and leaves every other name unchanged |
| Leaderboard.ResolveIdempotent | src/app/api/leaderboard/route.ts:7-10 | no participant name of the static table is itself an alias, so resolving twice is the same as resolving once |
| Leaderboard.Lower | src/app/api/leaderboard/route.ts:38-40 | the `/i` folding of one character; its meaning is stated by `LowerMatchesCaseVariants` |
| Leaderboard.LowerMatchesCaseVariants | src/app/api/leaderboard/route.ts:38-40 | two characters match under the `/i` flag exactly when they are equal or are the two cases of one ASCII letter |
| Leaderboard.SearchFrom | src/app/api/leaderboard/route.ts:38-40 | the scan over offsets behind `.test`; `SearchFromMeaning` proves it finds a match exactly when one exists |
| Leaderboard.Test | src/app/api/leaderboard/route.ts:38-40 | `/\[Tag\]/i.test(message)`; `TestMeaning` proves it equal to case-insensitive containment |
| Leaderboard.SearchFromMeaning | src/app/api/leaderboard/route.ts:38-40 | the search from offset `from` succeeds exactly when the pattern matches, ignoring ASCII case, at some offset `>= from` |
| Leaderboard.TestMeaning | src/app/api/leaderboard/route.ts:38-40 | a case-insensitive regex test succeeds exactly when the tag occurs somewhere in the message, ignoring ASCII case |
| Leaderboard.Points | src/app/api/leaderboard/route.ts:37-41 | a scored message earns between 1 and 3 points |
| Leaderboard.PointsMeaning | src/app/api/leaderboard/route.ts:37-41 | 1 point exactly when the Easy tag occurs; 2 exactly when Medium occurs without Easy; 3 exactly when only Hard occurs; not scored exactly when no tag occurs |
| Leaderboard.AbsentChar | src/app/api/leaderboard/route.ts:38-40 | a tag that has a character the message lacks, in either case, is not found |
| Leaderboard.PresentAt | src/app/api/leaderboard/route.ts:38-40 | a tag matching at some offset is found by the test |
| Leaderboard.TagFound | src/app/api/leaderboard/route.ts:38-40 | a tag placed between any two strings occurs in the result |
| Leaderboard.EasyBeatsHard | src/app/api/leaderboard/route.ts:38-40 | a message with both the Easy and the Hard tag scores 1, whichever comes first |
| Leaderboard.MediumBeatsHard | src/app/api/leaderboard/route.ts:39-40 | a message with the Medium and the Hard tag but no Easy tag scores 2, whichever comes first |
| Leaderboard.HardAlone | src/app/api/leaderboard/route.ts:40 | a Hard tag in any letter case, without Easy or Medium tags, scores 3 |
| Leaderboard.ToDetail | src/app/api/leaderboard/route.ts:49 | the pushed `{ message, sha, points, date }`; `DetailEntriesAreCommits` states what every entry holds |
| Leaderboard.DetailEntriesAreCommits | src/app/api/leaderboard/route.ts:30-35 | every detail entry of a participant is the message, sha and date of an input commit whose author resolves to that participant, with the points that commit's tags earn |
| Leaderboard.AttributedEntriesAreCommits | src/app/api/leaderboard/route.ts:49 | every entry attributed to a participant is the pushed `{ message, sha, points, date }` of one of its scored input commits |
| Leaderboard.SumPoints | src/app/api/leaderboard/route.ts:48 | a list of entries each worth at least 1 point totals at least its length |
| Leaderboard.SumPointsAppend | src/app/api/leaderboard/route.ts:48-49 | appending an entry adds its points to the total |
| Leaderboard.Step | src/app/api/leaderboard/route.ts:29-50 | one callback keeps both dictionaries' key sets equal; an untagged commit changes nothing; a scored commit adds exactly its participant's key |
| Leaderboard.Aggregate | src/app/api/leaderboard/route.ts:26-50 | after any commit list, both dictionaries have the same participants |
| Leaderboard.Attributed | src/app/api/leaderboard/route.ts:43-49 | every detail entry attributed to a participant is worth 1 to 3 points |
| Leaderboard.Share | src/app/api/leaderboard/route.ts:37-49 | a commit contributes at most one entry to a participant, and one exactly when it is scored and resolves to that participant |
| Leaderboard.QualifyingPoints | src/app/api/leaderboard/route.ts:37-41 | the points of all scored commits are never negative |
| Leaderboard.AttributedSnoc | src/app/api/leaderboard/route.ts:29-50 | one more commit extends a participant's attributed list by that commit's share |
| Leaderboard.StepScored | src/app/api/leaderboard/route.ts:43-49 | a scored commit either adds its points and entry to an existing non-zero entry, or starts the entry at its points and a one-entry list |
| Leaderboard.StepDescribesAuthor | src/app/api/leaderboard/route.ts:43-49 | after a scored commit, its participant's dictionaries are its attributed commits and their sum |
| Leaderboard.StepDescribesOthers | src/app/api/leaderboard/route.ts:43-49 | a scored commit leaves every other participant's entries as they were |
| Leaderboard.StepDescribes | src/app/api/leaderboard/route.ts:29-50 | one callback keeps the dictionaries equal to the attributed commits and their totals |
| Leaderboard.AggregateDescribes | src/app/api/leaderboard/route.ts:29-50 | the whole loop yields the attributed commits and their totals |
| Leaderboard.AggregateMeaning | src/app/api/leaderboard/route.ts:29-50 | a participant has an entry exactly when some scored commit is attributed to it; its detail list is those commits in input order; its score is their sum |
| Leaderboard.AggregateConsistent | src/app/api/leaderboard/route.ts:43-49 | every result has equal key sets, and every total is at least 1, has a non-empty detail list and equals the sum of that list's points |
| Leaderboard.StepExtends | src/app/api/leaderboard/route.ts:43-49 | on a consistent board the restart branch never fires for a known participant: its total grows by the points and its list by the entry |
| Leaderboard.UntaggedIsIgnored | src/app/api/leaderboard/route.ts:41 | inserting an untagged commit anywhere in the input does not change the result |
| Leaderboard.AttributedAppend | src/app/api/leaderboard/route.ts:29-50 | the attributed list of a concatenated input is the concatenation of the attributed lists |
| Leaderboard.SumValuesRemove | src/app/api/leaderboard/route.ts:48 | the sum of a dictionary's values is any one value plus the sum of the rest |
| Leaderboard.SumValuesUpdate | src/app/api/leaderboard/route.ts:44-48 | setting a key replaces its old value in the sum of all values |
| Leaderboard.StepTotal | src/app/api/leaderboard/route.ts:43-48 | one callback raises the sum of all totals by the commit's points, or by nothing if it is untagged |
| Leaderboard.TotalOfScores | src/app/api/leaderboard/route.ts:29-50 | the totals of all participants add up to the points of all scored commits |
| Leaderboard.TwoAuthorExample | src/app/api/leaderboard/route.ts:29-50 | an Easy and an untagged commit by one author and a Hard commit by another give totals 1 and 3, and a one-entry list for the first |
| Leaderboard.Tally | src/app/api/leaderboard/route.ts:29-50 | the callback body updates the two dictionaries exactly as the reference step does |
| Leaderboard.ComputeLeaderboard | src/app/api/leaderboard/route.ts:26-50 | the loop builds exactly the reference fold; its dictionaries have equal keys; every total is at least 1 with a non-empty list of the same sum |
| Leaderboard.Get | src/app/api/leaderboard/route.ts:12-60 | a failed upstream call gives status 500 with the fixed message; a commit list gives status 200 with the folded `scores` and `details`; 500 happens exactly on failure; an error body's message is non-empty |
| Home.ScoresOf | src/app/page.tsx:98 | the scores of the data, or `{}` when there is none; `MissingDataHasNoParticipants` states the empty case and `RouteBodyShowsNoDebugCommits` the route's case |
| Home.DescendingPairs | src/app/page.tsx:101 | along a list sorted by descending score, no later participant scores higher than an earlier one |
| Home.EnumeratesScored | src/app/page.tsx:101 | every key that `Object.keys` lists has a score |
| Home.ConsDescending | src/app/page.tsx:101 | putting a participant that scores at least the old head in front keeps a list descending |
| Home.TailDescending | src/app/page.tsx:101 | dropping the head keeps a descending list descending |
| Home.Insert | src/app/page.tsx:101 | inserting adds the participant exactly once to the list and keeps every entry scored |
| Home.InsertDescending | src/app/page.tsx:101 | inserting into a descending list keeps it descending, and the new head is the inserted participant or the old head |
| Home.SortByScore | src/app/page.tsx:101 | the sort is a permutation of its input, and its result is ordered by descending score |
| Home.AllParticipants | src/app/page.tsx:101 | the participant list is a permutation of the score keys, as long as the dictionary, and ordered by descending score |
| Home.RepeatCounts | src/app/page.tsx:101 | an element at two positions occurs at least twice in the multiset |
| Home.AllParticipantsAreTheKeys | src/app/page.tsx:101 | a name is a participant exactly when it has a score, and no participant is listed twice |
| Home.ShowTugOfWar | src/app/page.tsx:104 | `allParticipants.length === 2`; `TugOfWarIffTwoParticipants` states when it holds |
| Home.TugOfWarIffTwoParticipants | src/app/page.tsx:104 | the bar is shown exactly when the score dictionary has two keys |
| Home.Nth | src/app/page.tsx:105 | `const [p1, p2]`, `undefined` past the end; `TotalOfShownBar` and `TotalOfOneParticipant` state its effect |
| Home.KeyOf | src/app/page.tsx:105 | a destructured element used as a key, "undefined" past the end; `TotalOfOneParticipant` states its effect |
| Home.ScoreOrZero | src/app/page.tsx:106 | a score, or 0 when the key is missing; `TotalOfShownBar` and `TotalOfOneParticipant` state its effect on the denominator |
| Home.Total | src/app/page.tsx:106 | the bar's denominator; `TotalPositive`, `TotalOfShownBar`, `TotalOfOneParticipant` and `TotalOfHandlerScores` state its value |
| Home.TotalOfOneParticipant | src/app/page.tsx:105-106 | with one participant `p2` is `undefined`: the denominator is that participant's score, counted twice when the participant is named "undefined", or 1 if that is 0 |
| Home.TotalPositive | src/app/page.tsx:106 | with non-negative scores the bar's denominator is at least 1, so it never divides by zero |
| Home.TotalOfShownBar | src/app/page.tsx:105-106 | when the bar is shown, the denominator is the sum of both scores, or 1 if that sum is 0 |
| Home.MissingDataHasNoParticipants | src/app/page.tsx:98-106 | without data the score dictionary is empty: no participants, no bar, and a denominator of 1 |
| Home.TotalOfHandlerScores | src/app/page.tsx:104-106 | on the route's dictionaries a shown bar divides by the sum of both totals, which is at least 2 |
| Home.Rows | src/app/page.tsx:210-217 | one row per participant, in order, with its name and its score |
| Home.RowRanks | src/app/page.tsx:215 | row `i` has rank `i + 1` |
| Home.TableIsRanked | src/app/page.tsx:210-217 | the table has one row per key; ranks run 1, 2, 3, ...; every name has a score; no row scores higher than a row above it |
| Home.DebugData | src/app/page.tsx:52-62 | no `processedCommits` gives an empty debug list; otherwise the list has one entry per processed commit |
| Home.ToDebug | src/app/page.tsx:53-60 | the mapping of one processed commit to a debug entry; `DebugDataCopies` states what each entry holds |
| Home.DebugDataCopies | src/app/page.tsx:53-60 | each debug entry copies the sha, message and points, uses the author as both login and name, and is not skipped |
| Home.ShownDebug | src/app/page.tsx:153 | the panel shows the first `min(10, n)` entries as a prefix of the list |
| Home.PayloadOf | src/app/page.tsx:48-49 | the page's view of a response body; `RouteBodyShowsNoDebugCommits` states its effect |
| Home.RouteBodyShowsNoDebugCommits | src/app/page.tsx:52-62 | for the route's success body on any commit list, the page's debug panel lists no commits and its scores are the route's totals |

## Left out

- The fetch parameters (`REPO_OWNER`, `REPO_NAME`, the URL and the `Authorization` header) are left out. The upstream call is the input `Result` of `Get`.
- Leaderboard.Get: describes the handler once `GITHUB_TOKEN` resolves. As written, `route.ts:14` reads `GITHUB_TOKEN`, which `route.ts` does not declare. That read throws a `ReferenceError` inside the `try`, so every call takes the `catch` at `route.ts:54-59` and answers 500 with the fixed message. The only exception is a global of that name defined outside the files modelled here. `Get`'s `Success` branch therefore describes the handler only when that reference resolves.
- A non-2xx status and a body that is not a commit list (`response.json()` failing, or `forEach` throwing on a missing `commit.author`) both become `Failure` with no further distinction. The handler maps every such failure to the same 500 response.
- `NextResponse.json` serialisation is a `Response` value, and console logging is not modelled.
- JavaScript object quirks are not modelled. The first is inherited prototype properties such as `constructor` or `toString`, read through `nameMapping[name]` or `scores[who]`. The second is the order `Object.keys` uses, with integer-like keys first. The key order is a parameter.
- Leaderboard.NameMappingResolves: "every other name unchanged" holds only for names that are not inherited properties of a plain object. In JavaScript an author named `toString` or `constructor` gets a function as `displayAuthor` (route.ts:31), and is scored under that function's string form.
- Home.SortByScore: the result is proved to be a descending permutation. Stability (equal scores keep their `Object.keys` order) holds by construction of `Insert` but is not stated as a lemma.
- The percentages `p1Percent` and `p2Percent` are floating-point divisions and are not modelled. The model proves only that their denominator is at least 1.
- React state, the loading and error views, the retry button, the client fetch and JSX rendering are not modelled. The page's debug toggle and the `details` fallback are not modelled either, because the page never reads `details`.
- `next.config.js` and the rest of the repository are not part of this model.
- Leaderboard.Step: it requires equal key sets for the two dictionaries. The handler only ever builds such dictionaries (`Leaderboard.Aggregate`). With unequal key sets, the source's `details[who].push` could throw, which the model does not cover.
- Scores are unbounded integers. JavaScript numbers are doubles, but the totals stay small integers (at most 3 per commit), so precision loss and `NaN` do not arise.

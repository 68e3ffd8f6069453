# Docs review-board and release-issue automation, modelled in Dafny

This project models the logic inside a set of GitHub Actions scripts that the GitHub Docs team runs. Around that logic the scripts do API calls. The model covers five scripts:

- **`fr-add-docs-reviewers-requests.js`** (module `ProjectBoard`). It picks the open pull requests waiting for a docs review. It looks up the project board's field and option ids by exact name. It then builds two batched GraphQL mutations:
  - one adds every pull request to the board, with one aliased `addProjectNextItem` per item;
  - one fills six fields of every new item. The six fields are status, date posted, review due date, contributor type, feature and author.

  Mutations are modelled as sequences of aliased records (`AddItem`, `FieldUpdate`) and then serialised exactly as the script's template strings lay them out. Field values are a two-case datatype: a quoted literal or a bare variable reference. The due date is the posting date plus 3 days after a Sunday, 4 after a Saturday and 2 otherwise. Dates are written `Y-M-D` with a zero-based month and no padding (module `Calendar`).
- **`fr-add-docs-reviewers-requests.py`**, the earlier Python variant (module `ReviewBoardPy`). `filter_prs` is a loop that appends the ids of the pull requests meeting three conditions. `add_prs_to_board` sends one `addProjectCard` request per id, and carries on past the ones the API rejects.
- **`automation/docsParseReleaseIssue.js`** (module `ReleaseIssue`). It reads:
  - the release phase and tier: each is the first label of the release issue in a fixed set;
  - the ship date and the GHES answer: each is the trimmed text between two delimiters, found case-insensitively and lazily;
  - for the GHES answer, the issue's comments as a fallback.

  From these it derives the GHES labels ("GHES" and "GHES <first number in the body>") and fills the docs-issue body template.
- **`automation/docsOpenDocsIssue.js`** (module `OpenDocsIssue`). It assembles the labels of the docs issue: `priority-0` and `new-release`, then the GHES labels, then the tier when it is one of "Tier 1".."Tier 4". It then sends the issue-creation request.
- **`automation/docsUpdateReleaseChecklist.js`** (module `ReleaseChecklist`). The release issue's unlinked docs checklist item is replaced by a link to the new docs issue. This happens only if the item is still unlinked both in the event payload and in a freshly fetched copy of the body. Only the first occurrence is replaced, with the `$`-pattern expansion of `String.prototype.replace`.

Shared modules:

- `Wrappers`: `Option`, `Result`.
- `Seqs`: `Filter`, `FindIndex`, `Flatten`, with selection lemmas.
- `Strings`: decimal text, substring search, ECMAScript `trim`, `join`, ASCII case fold.
- `GitHub`: the requested-reviewer shape that both filters see.

How the model relates to the scripts:

- API answers, the comment list and the clock are inputs of the model.
- Which requests the API rejects is a function parameter.
- The two scripts' `await`ed calls become the results the model returns: the mutation text, the `CreateIssue` request, the `CardRequest`s and the new body to write.

As written, the Python filter selects pull requests that *are* drafts. Its condition is `pr['isDraft'] and ...`, with a comment beside it saying that a negation is still to be added. The model follows the code (`ReviewBoardPy.ShouldAdd`).

The comment above the due-date computation in the JavaScript script promises "2 weekdays". The code adds whole calendar days, so a Thursday or Friday posting falls due on a Saturday or Sunday. `ProjectBoard.DueDateOffset` states what the code does.

## Model

| member | source | states |
|---|---|---|
| ProjectBoard.AddItemOpsAliases | fr-add-docs-reviewers-requests.js:9-19 | N items give exactly N `addProjectNextItem` sub-operations, aliased `pr_0`..`pr_{N-1}` in input order, each carrying its own item id, with pairwise distinct aliases |
| ProjectBoard.ItemAliasInjective | fr-add-docs-reviewers-requests.js:10 | two item indices get the same `pr_<i>` alias only if they are equal |
| ProjectBoard.AddItemsMutationHolds | fr-add-docs-reviewers-requests.js:9-25 | the serialised batch mutation contains the text of every item's sub-operation |
| ProjectBoard.AddItemsMutationEmbedsItems | fr-add-docs-reviewers-requests.js:9-25 | for every item the mutation text holds `pr_<i>: addProjectNextItem(input: {` and `contentId: "<item id>"` |
| ProjectBoard.NewItemIdsFollowInputOrder | fr-add-docs-reviewers-requests.js:38 | when the answer lists one entry per alias in request order, the i-th new item id is the one answered for `pr_i`, and no other entry has that alias |
| ProjectBoard.ValueRoundTrip | fr-add-docs-reviewers-requests.js:76-82 | a value line is quoted exactly when the value is a literal; reading the rendered `value:` line back gives the value and its kind |
| ProjectBoard.DueDateOffset | fr-add-docs-reviewers-requests.js:62-73 | the due date is 3 whole days after a Sunday, 4 after a Saturday and 2 after any other day, counted by an independent day number; Thursday and Friday postings fall due on Saturday and Sunday |
| Calendar.NextDayIsOneDayLater | fr-add-docs-reviewers-requests.js:73 | stepping one calendar day adds one to the day count and advances the weekday by one modulo 7 |
| Calendar.AddDaysIsNDaysLater | fr-add-docs-reviewers-requests.js:73 | adding n days moves the day count forward by exactly n and the weekday by n modulo 7 |
| Calendar.FormatDateRoundTrip | fr-add-docs-reviewers-requests.js:56-58 | the `Y-M-D` text determines the year, the zero-based month and the day (it parses back to them) |
| Calendar.FormatDateExample | fr-add-docs-reviewers-requests.js:57 | the month is written zero-based and unpadded: 5 January 2022 is "2022-0-5" |
| ProjectBoard.UpdateOpsShape | fr-add-docs-reviewers-requests.js:99-107 | the update mutation has exactly 6·N updates; update k of item i targets item i and field k of the fixed order, under alias `set_<field>_item_<i>`, with that field's value |
| ProjectBoard.UpdateOpsValues | fr-add-docs-reviewers-requests.js:99-107 | per item: status and contributor type by variable reference; the posting date, the due date, "OpenAPI schema update" and `authors[i]` as literals ("undefined" past the end of the authors) |
| ProjectBoard.FieldSuffixes | fr-add-docs-reviewers-requests.js:100-105 | the six field variables, without their `$`, hold no `_` and are pairwise different |
| ProjectBoard.UpdateAliasInjective | fr-add-docs-reviewers-requests.js:85 | a `set_<field>_item_<index>` alias determines its field suffix and its index |
| ProjectBoard.UpdateAliasesDistinct | fr-add-docs-reviewers-requests.js:85-107 | across the whole update mutation the 6·N aliases are pairwise distinct |
| ProjectBoard.UpdateMutationHolds | fr-add-docs-reviewers-requests.js:84-125 | the serialised update mutation contains the text of every field update, with the day's date and its due date as the date values |
| ProjectBoard.FieldId | fr-add-docs-reviewers-requests.js:237-242 | succeeds exactly when some field has the name; then gives the id of the first field with exactly that name; otherwise the field-missing error |
| ProjectBoard.OptionId | fr-add-docs-reviewers-requests.js:245-246 | succeeds exactly when the first field of that name has options and one is named exactly `option`; then gives the first such option's id |
| ProjectBoard.ResolveBoardUsesLookups | fr-add-docs-reviewers-requests.js:237-246 | the board ids resolve exactly when all eight lookups succeed, and each id is what its lookup gives |
| ProjectBoard.RequestsTeamMeaning | fr-add-docs-reviewers-requests.js:221 | the `find` over review requests is true exactly when a request names the team with no null reviewer before it, false when none names it and none is null, and otherwise fails on the null reviewer |
| ProjectBoard.KeepPrMeaning | fr-add-docs-reviewers-requests.js:218-223 | where the filter condition evaluates, it holds exactly for pull requests that are not drafts, carry no deploy-train label, request the team and have no review on its behalf |
| ProjectBoard.SelectPrsIsFilter | fr-add-docs-reviewers-requests.js:218-223 | the selection succeeds exactly when the condition evaluates on every pull request, and is then the order-preserving filter by it |
| ProjectBoard.SelectPrsExactly | fr-add-docs-reviewers-requests.js:212-223 | the kept pull requests sit at strictly increasing input positions, and a position is kept exactly when its pull request meets the four conditions |
| ProjectBoard.PrAuthors | fr-add-docs-reviewers-requests.js:230 | the logins are read exactly when no pull request has a null author, and then they are the authors' logins in order; otherwise the null-author error |
| ProjectBoard.PlanRun | fr-add-docs-reviewers-requests.js:218-246 | a failing filter fails the run with its error; the run stops with nothing to add exactly when the selection is empty; for a non-empty selection it goes on to add the pull requests exactly when every author is present and the board ids resolve, and fails with the null-author error when some author is null; the ids and author logins are then index-aligned with the selection and the board ids are the resolved ones |
| ReviewBoardPy.RequestedIdsMeaning | fr-add-docs-reviewers-requests.py:117 | an id is among the comprehension's ids exactly when some requested reviewer is a team with that id (null and empty reviewers are skipped) |
| ReviewBoardPy.FilterPrs | fr-add-docs-reviewers-requests.py:107-122 | the loop returns the ids of the pull requests meeting the condition, in input order |
| ReviewBoardPy.FilterPrsSelects | fr-add-docs-reviewers-requests.py:113-120 | the chosen ids come from strictly increasing positions, and a position is chosen exactly when the pull request is a draft, requests the docs reviewers team and has no card on the docs project |
| ReviewBoardPy.AddPrsToBoard | fr-add-docs-reviewers-requests.py:75-105 | one `addProjectCard` request per id, in order, to the given column, whatever the earlier answers; the ids logged as failed are exactly the rejected ones, in order |
| ReviewBoardPy.Run | fr-add-docs-reviewers-requests.py:124-126 | one card request per selected pull request, in order, to the docs column; every failed id is a selected one |
| ReleaseIssue.GetStringBetweenMeaning | automation/docsParseReleaseIssue.js:4-16 | the search finds something exactly when some `before` is followed by an `after` (up to case); then the result is the trimmed text between the leftmost `before` and the nearest following `after`; otherwise null |
| Strings.TrimMeaning | automation/docsParseReleaseIssue.js:9 | the trimmed text occurs in the input with only white space before and after it, and it neither starts nor ends with white space |
| ReleaseIssue.CheckGhesInComments | automation/docsParseReleaseIssue.js:19-33 | the scan answers "Yes" exactly when some comment contains the ticked GHES checkbox, and "No" otherwise |
| ReleaseIssue.LabelChoiceMeaning | automation/docsParseReleaseIssue.js:74-97 | the choice is "unknown" exactly when no label is in the set; otherwise it is the first label, in label order, that is in the set |
| ReleaseIssue.FirstLabelIn | automation/docsParseReleaseIssue.js:74-97 | the loop with `break` returns the first label in the set, else "unknown" |
| ReleaseIssue.Phase | automation/docsParseReleaseIssue.js:74-89 | the phase is the first label among the six phase names, or "unknown" |
| ReleaseIssue.Tier | automation/docsParseReleaseIssue.js:91-97 | the tier is the first label among "Tier 1".."Tier 4", or "unknown" |
| ReleaseIssue.FirstNumberFromMeaning | automation/docsParseReleaseIssue.js:119-121 | the scan from p finds nothing exactly when the pattern starts nowhere from p; otherwise it gives the token at the leftmost position where it starts |
| ReleaseIssue.NumberTokenAt | automation/docsParseReleaseIssue.js:119 | the token taken has the shape `[+-]?\d+(\.\d+)?` and is the greedy one: no digit follows it, and no dot and digit follow a token without a fraction |
| ReleaseIssue.FirstNumberMeaning | automation/docsParseReleaseIssue.js:119-121 | the first number is null exactly when the pattern matches nowhere; otherwise it is the greedy token at the leftmost match position |
| ReleaseIssue.FirstNumberExample | automation/docsParseReleaseIssue.js:119-121 | in "GHES 16.2 and 17" the first number is "16.2" |
| ReleaseIssue.GhesLabels | automation/docsParseReleaseIssue.js:115-128 | no labels unless the answer starts with "Yes"; otherwise "GHES" first and at most two labels; the second exists exactly when the body holds a number and is "GHES " followed by the first one |
| ReleaseIssue.CompileIssueBodyRows | automation/docsParseReleaseIssue.js:35-65 | the body's table holds the ship date ("null" when not found) in the Target date row and the issue's address in the Release issue row right after it |
| ReleaseIssue.GhesLabelsOfIssue | automation/docsParseReleaseIssue.js:102-128 | the GHES labels are those of the answer in the body, or of the comments' answer when the body gives none or an empty one |
| ReleaseIssue.GhesAnswerFallback | automation/docsParseReleaseIssue.js:103-113 | a non-empty answer in the body is the answer, and the comments are then irrelevant; a missing or empty one is replaced by the comments' "Yes"/"No" |
| ReleaseIssue.DocsParseReleaseIssue | automation/docsParseReleaseIssue.js:67-140 | the outputs: the title unchanged, the body compiled from the ship date and the issue address, the first tier label, and the GHES labels of the (fallback) answer |
| ReleaseChecklist.SubstituteVerbatim | automation/docsUpdateReleaseChecklist.js:26-29 | a replacement without `$` is inserted as it is by the replacement-pattern expansion |
| ReleaseChecklist.ReplaceFirstMeaning | automation/docsUpdateReleaseChecklist.js:26-29 | without the placeholder the text is unchanged; otherwise the text before the first occurrence and after it is kept, and the expanded replacement stands in its place |
| ReleaseChecklist.ItemTextVerbatim | automation/docsUpdateReleaseChecklist.js:9 | the linked item text contains a `$` only if the owner or the issue number does |
| ReleaseChecklist.UpdateDecisionMeaning | automation/docsUpdateReleaseChecklist.js:14-29 | an update is made exactly when both the payload body and the fetched body contain the placeholder; the new body is the fetched one with its first placeholder, and only that, replaced by `<prefix><owner>/docs-content/issues/<number>` |
| OpenDocsIssue.DocsIssueLabels | automation/docsOpenDocsIssue.js:10-27 | the labels are `priority-0`, `new-release`, then the GHES labels in order, then the tier exactly when it is one of "Tier 1".."Tier 4"; the length is 2 + the number of GHES labels + (1 if the tier is recognised) |
| OpenDocsIssue.DocsOpenDocsIssue | automation/docsOpenDocsIssue.js:29-35 | the creation request goes to the owner's "second-repo" with the given title and body and the assembled labels |
| OpenDocsIssue.LabelsForRelease | automation/docsOpenDocsIssue.js:10-27 | with the tier the parser picks from the release issue's labels, the docs issue gets one label after the fixed pair and the GHES labels exactly when some release-issue label is a tier, and then it is the first such label; otherwise the labels are the fixed pair and the GHES labels |
| OpenDocsIssue.FirstTierLabel | automation/docsParseReleaseIssue.js:91-97 | the tier chosen from the labels is a tier name exactly when some label is one, and then it is the first such label |

## Left out

- API transport is not modelled. This covers `graphql`, `requests.post`, Octokit `issues.get/update/create/listComments`, tokens and headers. Answers are inputs, and rejection is a function parameter.
- Environment variables, Actions inputs and outputs, and `console.log`/`logging` output are not modelled. `setOutput`, `setFailed`, `process.exit` and the top-level `catch` handlers do no logic.
- `JSON.parse` of field `settings` and of `GHES_LABELS`, and the `JSON.stringify` of the GHES labels, are not modelled: parsed values are given as sequences. The Python `KeyError`s on a malformed answer are also left out.
- Query page sizes (`first: 10`, `last: 100`, `fields(first:20)`) truncate what the API returns. The model takes whatever lists are returned.
- Millisecond time values, time zones and daylight-saving shifts are not modelled. The posting day is an input calendar date together with its weekday. "Adding 24 hours" is one calendar day.
- `ProjectBoard.DueDateOffset`: the comment promising "2 weekdays" is not proved, because the code does not meet it (a Thursday posting falls due on Saturday).
- `GetStringBetween` uses literal delimiters, not a general regex engine, and the `i` flag folds ASCII letters only. The full Unicode case canonicalisation of ECMAScript regular expressions is not modelled.
- The runtime scoping defects of `docsParseReleaseIssue.js` are not modelled; the model follows the intended flow. These defects are:
  - `core` and `github` are used without being imported;
  - `octokit` and `context` are out of scope inside `checkGHESInComments`;
  - the undeclared `ghesVersion` assignment would throw in module strict mode, and the `catch` would swallow it, leaving only "GHES".
- The release phase is read but never output by the script. The model computes it the same way.
- Null issue or comment bodies are not modelled: `includes`, `match` or `trim` on `null` would throw. Bodies are strings.
- `ProjectBoard.ValueRoundTrip`: stated for references that are variables (start with `$`), as all of the script's references are. Literal text is interpolated unescaped, as the script does; a literal containing `"` makes the mutation malformed.
- `ProjectBoard.KeepPrMeaning`: stated where the condition evaluates. A null requested reviewer reached by the search is the `NullReviewer` error, described by `RequestsTeamMeaning`.
- `ReleaseChecklist.UpdateDecisionMeaning`: the resulting body is stated outright only when neither the owner nor the issue number holds a `$`. Otherwise the `$`-pattern expansion, modelled by `Substitute`, applies.
- The repository's other scripts are not part of this model. These include PR-size bucketing, contributor-type decisions and webhook redelivery, which the scripts here do not contain either.

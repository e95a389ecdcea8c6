# TheoryDeck core in Dafny

TheoryDeck is a Next.js/Prisma application where users post theories, attach
FOR and AGAINST evidence cards to them, vote on the strength of each card
(0–10), and report content for moderation. This project models the parts of
it that decide things:

- **Votes and scores.** The vote table keyed by (user, card), with upsert and
  delete (`Votes`). The per-card average strength and the caller's own vote
  (`Evidence`). The two theory-level rollups: `VoteStats` weights each card by
  its vote count, and `Confidence` adds up averages of ACTIVE cards without
  weighting. Each rollup keeps its own zero-vote default: 5 for a card with no
  votes, 0 for a card without `voteStats`.
- **Validation and request guards.** The form validators that fill an error
  dictionary (`Validation`). The ordered early-return guards of the POST
  handlers for votes, evidence, reports and theories, each as a function from
  the request and the caller to an HTTP status and the record written, plus a
  method on the table that performs the write (`VotesRoute`, `EvidenceRoute`,
  `ReportsRoute`, `TheoriesRoute`).
- **Authorization.** The role predicates (`Permissions`), the
  `requireAuth`/`requireRole` helpers (`AuthHelpers`), and the path-prefix gate
  of the middleware together with its `authorized` callback (`Middleware`).
- **Strings and lists.** Slug normalisation and the unique-slug search loop
  (`Slug`). The Cyrillic-aware slug, the listing filter and the pagination of
  the theories route (`TheoriesRoute`). The duplicate-free, bounded tag list
  (`TagInput`).

`Common` holds what several modules share:

- the value types: users, roles, stances, card statuses and votes;
- JavaScript's notion of a falsy string (`undefined`, `null` and `""`);
- the whitespace set of `String.prototype.trim` and of `\s`;
- `.length` counted in UTF-16 code units;
- `Math.round`, modelled as ⌊x + ½⌋ over the reals.

The current user, the database's fresh ids and the random slug suffix are
parameters. Database tables are Dafny `map`s or `seq`s held in a class, and
their methods have `modifies` clauses. A table the route only queries for
existence is a `set` of ids.

## Model

| member | source | states |
|---|---|---|
| Common.OrNull | app/api/evidence/route.ts:51-53 | the `or null` of the optional fields: the value itself exactly when it is truthy, and null otherwise |
| Common.TrimStart | lib/utils/validation.ts:11 | the leading half of `trim`: what remains is a suffix of the input, starts with no whitespace, and all that was cut is whitespace |
| Common.TrimEnd | lib/utils/validation.ts:11 | the trailing half of `trim`: what remains is a prefix of the input, ends with no whitespace, and all that was cut is whitespace |
| Common.Trim | lib/utils/validation.ts:11 | `String.prototype.trim` (leading then trailing whitespace): never longer than the input, and it neither starts nor ends with whitespace; Common.TrimEmptyIffAllWhitespace and Common.TrimNoWhitespace carry the rest |
| Common.TrimEmptyIffAllWhitespace | lib/utils/validation.ts:65 | trimming gives "" exactly when every character is whitespace |
| Common.TrimNoWhitespace | lib/utils/validation.ts:11 | a string without whitespace trims to itself |
| Common.JsLength | lib/utils/validation.ts:14 | `.length` counts UTF-16 code units: between the number of characters and twice that |
| Common.StartsWith | middleware.ts:10 | `String.prototype.startsWith`, a raw prefix test; its consequences are stated by the Middleware rows (e.g. Middleware.AdministratorGatedAsAdmin) |
| Common.Round | lib/utils/vote-stats.ts:53 | `Math.round` as ⌊x + ½⌋; Common.RoundNear, Common.RoundMonotone and Common.RoundPercentBounds carry its contract |
| Common.RoundNear | lib/utils/vote-stats.ts:53 | `Math.round` is never more than one half away from its argument |
| Common.RoundMonotone | lib/utils/vote-stats.ts:53 | `Math.round` is monotone |
| Common.RoundPercentBounds | lib/utils/confidence.ts:38 | a value in [0, 100] rounds into [0, 100] |
| Common.SharePercentBounds | lib/utils/vote-stats.ts:53 | the rounded share of a non-negative part in a positive total lies in [0, 100] |
| VoteStats.FilterCardsByStance | lib/utils/vote-stats.ts:66-71 | `filterCardsByStance`, never longer than its input; VoteStats.FilterCardsByStanceShape and VoteStats.FilterAppend state which cards it keeps and in what order |
| VoteStats.FilterCardsByStanceShape | lib/utils/vote-stats.ts:66-71 | the filter holds only input cards of the given stance, and every such card of the input |
| VoteStats.FilterAppend | lib/utils/vote-stats.ts:66-71 | filtering by stance distributes over concatenation, so it keeps the input order |
| VoteStats.CalculateVoteStats | lib/utils/vote-stats.ts:29-54 | `forScore` and `againstScore` are the weighted score sums of the FOR and of the AGAINST cards; with a positive total `forPercent` is Math.round(forScore / total · 100) and the two percentages add up to 100; with a zero total both are 50 |
| VoteStats.NoCards | lib/utils/vote-stats.ts:29-63 | no cards give scores 0, total 0 and the 50/50 split |
| VoteStats.AddCard | lib/utils/vote-stats.ts:33-50 | a card appended adds average×count to its own stance's score only when its count is positive; it adds its count (0 without stats) to the vote total, whatever its stance |
| VoteStats.ScoreSumAppend | lib/utils/vote-stats.ts:33-45 | the weighted score sum over a concatenation is the sum of the parts |
| VoteStats.CountSumAppend | lib/utils/vote-stats.ts:47-50 | the count sum over a concatenation is the sum of the parts |
| VoteStats.TotalVotesCountsEveryCard | lib/utils/vote-stats.ts:47-50 | `totalVotes` counts the votes of every card, and it equals the sum of the `voteCount` column that `mapEvidenceCards` shows |
| VoteStats.StanceCountsCover | lib/utils/vote-stats.ts:47-50 | counting the FOR cards and then the AGAINST cards counts every card once |
| VoteStats.DisplayCountsMatch | lib/utils/vote-stats.ts:74-85 | the `voteCount` column that `mapEvidenceCards` shows sums to the vote counts of the cards |
| VoteStats.ScoreSumNonNegative | lib/utils/vote-stats.ts:33-45 | with non-negative averages the weighted score is non-negative |
| VoteStats.FilterKeepsNonNegative | lib/utils/vote-stats.ts:30-31 | filtering by stance keeps averages non-negative |
| VoteStats.PercentagesBounded | lib/utils/vote-stats.ts:52-54 | with non-negative averages both percentages lie in [0, 100] |
| VoteStats.WeightedExample | lib/utils/vote-stats.ts:29-63 | a FOR card of two votes averaging 8 against an AGAINST card of one vote of 2 gives scores 16 and 2, 3 votes and 89/11 |
| VoteStats.WeightedScores | lib/utils/vote-stats.ts:29-50 | for a FOR card of two votes averaging 8 followed by an AGAINST card of one vote of 2, the FOR filter is the first card, the AGAINST filter the second, they weigh 16 and 2 and hold 3 votes |
| VoteStats.SixteenOfEighteen | lib/utils/vote-stats.ts:53 | Math.round(16/18·100) is 89 |
| VoteStats.DisplayAuthorName | lib/utils/vote-stats.ts:84 | the shown name is never empty; it is `author.name` when that is truthy, otherwise `authorName` when that is truthy, otherwise "Аноним" (each case its own clause) |
| VoteStats.DisplayCardOf | lib/utils/vote-stats.ts:75-85 | the flattened card copies id, content, source, sourceTitle, context and stance; a card without stats shows 0 votes and average 0 |
| VoteStats.MapEvidenceCards | lib/utils/vote-stats.ts:74-85 | the mapping keeps the length, and element i is the flattening of card i |
| Confidence.ActiveCards | lib/utils/confidence.ts:19 | the result holds exactly the ACTIVE cards of the input |
| Confidence.WithStance | lib/utils/confidence.ts:21-22 | the result holds exactly the input cards of the given stance |
| Confidence.ActiveAppend | lib/utils/confidence.ts:19 | the ACTIVE filter distributes over concatenation |
| Confidence.WithStanceAppend | lib/utils/confidence.ts:21-22 | the stance filter distributes over concatenation |
| Confidence.AverageSumAppend | lib/utils/confidence.ts:24-25 | the plain sum of averages over a concatenation is the sum of the parts |
| Confidence.StanceSplit | lib/utils/confidence.ts:21-22 | every card is FOR or AGAINST: the two filtered lengths add up to the input length |
| Confidence.ActiveIdempotent | lib/utils/confidence.ts:19 | filtering ACTIVE cards twice is filtering once |
| Confidence.CalculateConfidence | lib/utils/confidence.ts:12-42 | `forScore`/`againstScore` are the sums of the averages of the ACTIVE FOR/AGAINST cards and `forCards`/`againstCards` their numbers; `totalScore` is their sum; confidence is Math.round(forScore / totalScore · 100) for a positive total and 50 otherwise; `forCards + againstCards` is at most the input length |
| Confidence.NoCards | lib/utils/confidence.ts:19-41 | no cards give scores 0, confidence 50 and no counted cards |
| Confidence.OnlyActiveCount | lib/utils/confidence.ts:19 | dropping the non-ACTIVE cards first changes no output |
| Confidence.AddCard | lib/utils/confidence.ts:19-40 | a non-ACTIVE card appended changes nothing; an ACTIVE card adds its plain average (not weighted by any count) to its own stance's score and 1 to its own stance's card count |
| Confidence.AverageSumNonNegative | lib/utils/confidence.ts:24-25 | non-negative averages give a non-negative score |
| Confidence.SubsetNonNegative | lib/utils/confidence.ts:19-22 | a filtered subsequence keeps averages non-negative |
| Confidence.ConfidenceBounded | lib/utils/confidence.ts:29-38 | with non-negative averages the confidence lies in [0, 100] |
| Confidence.ScoreOfBounded | lib/utils/confidence.ts:27-38 | non-negative stance scores give a confidence in [0, 100] |
| Confidence.OneSidedConfidence | lib/utils/confidence.ts:29-38 | a positive FOR score with no AGAINST score gives 100, and the reverse gives 0 |
| Confidence.ConfidenceLabel | lib/utils/confidence.ts:44-50 | `getConfidenceLabel`; Confidence.LabelBuckets pins the label of every confidence and Confidence.LabelMonotone its order |
| Confidence.ConfidenceColor | lib/utils/confidence.ts:52-58 | `getConfidenceColor`; Confidence.ColorFollowsLabel states that it is the colour of the label, one colour per label |
| Confidence.LabelMonotone | lib/utils/confidence.ts:44-50 | a higher confidence never gets a lower-ranked label |
| Confidence.LabelBuckets | lib/utils/confidence.ts:44-50 | the label is "Very High" exactly from 80, "High" exactly on [65, 80), "Moderate" exactly on [45, 65), "Low" exactly on [30, 45) and "Very Low" exactly below 30 |
| Confidence.ColorFollowsLabel | lib/utils/confidence.ts:52-58 | the colour is a function of the label, and different labels get different colours (one-to-one buckets) |
| Votes.Lookup | lib/api/votes.ts:52-61 | the row is found exactly when the (user, card) key is in the table, and it carries the stored strength |
| Votes.Upsert | lib/api/votes.ts:18-38 | the key now holds the new strength; the key set grows by that key only; other entries are unchanged; the row count is unchanged for an existing key and grows by one otherwise |
| Votes.Delete | lib/api/votes.ts:41-50 | exactly the key leaves the table; the other entries are unchanged; the count drops by one when the key was present |
| Votes.VoteStore.GetUserVote | lib/api/votes.ts:52-61 | the method reads the table's row for the key |
| Votes.VoteStore.VoteOnCard | lib/api/votes.ts:4-39 | find, then update or create: the new table is the upsert of the old one, and the vote returned has the given strength |
| Votes.VoteStore.RemoveVote | lib/api/votes.ts:41-50 | succeeds exactly when the key exists and then deletes it; a missing key is an error that changes nothing |
| Votes.VoteThenGet | lib/api/votes.ts:4-39 | after a vote, reading it back gives the strength just cast |
| Votes.VoteLeavesOthers | lib/api/votes.ts:18-38 | a vote leaves every other (user, card) entry as it was |
| Votes.VoteIdempotent | lib/api/votes.ts:18-28 | voting the same strength twice equals voting once |
| Votes.ReVoteReplaces | lib/api/votes.ts:19-27 | a second vote replaces the first strength instead of adding to it |
| Votes.RemoveThenGet | lib/api/votes.ts:41-50 | after a removal the caller has no vote, and no other vote moved |
| Votes.RemoveUndoesFirstVote | lib/api/votes.ts:30-50 | removing a first vote restores the earlier table |
| Votes.RemoveThenVote | lib/api/votes.ts:4-50 | removing and voting again equals re-voting |
| Evidence.AverageStrength | lib/api/evidence.ts:32-35 | with no votes the average is 5; otherwise average × count equals the sum of strengths |
| Evidence.FirstVoteBy | lib/api/evidence.ts:38 | the index of the first vote by the user: no earlier vote is theirs |
| Evidence.UserVote | lib/api/evidence.ts:37-39 | no user id gives no vote; otherwise it is the first vote whose `userId` matches, and none means no vote matches |
| Evidence.WithVotes | lib/api/evidence.ts:31-46 | a loaded card is annotated with its average and the caller's vote |
| Evidence.ActiveCardsOf | lib/api/evidence.ts:5-9 | exactly the ACTIVE cards of the given theory |
| Evidence.MapWithVotes | lib/api/evidence.ts:31-46 | the mapping keeps length and order |
| Evidence.GetEvidenceCards | lib/api/evidence.ts:4-49 | entry i is card i of `ActiveCardsOf` annotated with its average and the caller's vote; every listed card is an ACTIVE card of the theory, and every such card is listed |
| Evidence.ActiveCardsOfAppend | lib/api/evidence.ts:5-9 | the ACTIVE cards of two runs of rows are those of the first run followed by those of the second |
| Evidence.ActiveCardsOfSingle | lib/api/evidence.ts:5-9 | one row is listed exactly when it is an ACTIVE card of the theory |
| Evidence.GetEvidenceCardsAppend | lib/api/evidence.ts:4-49 | the list keeps table order: that of two runs of rows is the first run's list followed by the second's |
| Evidence.RowIndex | lib/api/evidence.ts:52-53 | the index of the row with the given id, or the table length |
| Evidence.GetEvidenceCardById | lib/api/evidence.ts:51-88 | the card with that id, whatever its status, annotated; null exactly when no card has that id |
| Evidence.Patched | lib/api/evidence.ts:129-137 | only content, source, sourceTitle and context change, each only when given; id, theory, author, stance and status are kept |
| Evidence.SoftDeleted | lib/api/evidence.ts:151-155 | the status becomes DELETED and nothing else changes |
| Evidence.CardTable.CreateEvidenceCard | lib/api/evidence.ts:90-123 | the new card carries the form data, the theory, the author and status ACTIVE, is stored under its fresh id and is the newest in the order; the table stays valid |
| Evidence.CardTable.UpdateEvidenceCard | lib/api/evidence.ts:125-149 | an existing card is replaced by its patched form; a missing id is an error and changes nothing; the order is kept and the table stays valid |
| Evidence.CardTable.DeleteEvidenceCard | lib/api/evidence.ts:151-156 | an existing card is soft-deleted in place; a missing id is an error and changes nothing; the order is kept and the table stays valid |
| Evidence.StrengthSum | lib/api/evidence.ts:34 | the `reduce` of the strengths; Evidence.StrengthSumBounds, Evidence.ReVoteSum and Evidence.AverageStrength carry its contract |
| Evidence.StrengthSumBounds | lib/api/evidence.ts:34 | strengths in [lo, hi] give a sum between lo·n and hi·n |
| Evidence.AverageWithinScale | lib/api/evidence.ts:33-35 | strengths on the 0..10 scale give an average on the same scale |
| Evidence.AverageExample | lib/api/evidence.ts:33-35 | votes 0 and 10 average to 5 |
| Evidence.ReVoteSum | lib/api/evidence.ts:34 | replacing one vote's strength moves the sum by the difference |
| Evidence.DeletedCardStillFoundById | lib/api/evidence.ts:5-9 | a soft-deleted card is missing from its theory's list but still found by id |
| Evidence.UpdateKeepsStanceAndStatus | lib/api/evidence.ts:131-136 | an update never changes stance or status |
| Evidence.EmptyPatchIsIdentity | lib/api/evidence.ts:131-136 | a patch with only a stance changes nothing |
| Evidence.VotesFor | lib/api/evidence.ts:18 | the `votes: true` include: exactly the vote rows of that card |
| Evidence.TableRows | lib/api/evidence.ts:5-29 | the rows `findMany` loads from the card table, in `createdAt` order newest first, each card with its votes; no more rows than ids |
| Evidence.GetEvidenceCardsSingle | lib/api/evidence.ts:4-49 | one loaded row is listed, annotated, exactly when it is an ACTIVE card of the theory |
| Evidence.TableRowsUntouched | lib/api/evidence.ts:95-110 | writing a card under an id not yet in the order leaves the loaded rows unchanged |
| Evidence.CardTable.FreshIdUnordered | lib/api/evidence.ts:95-110 | in a valid table a fresh id is not yet in the order |
| Evidence.CreateThenList | lib/api/evidence.ts:90-123 | after `createEvidenceCard`, `getEvidenceCards` of the table lists the new card first among its theory's cards, with its votes, followed by the cards listed before; other theories' listings are unchanged |
| Evidence.DeleteThenList | lib/api/evidence.ts:151-156 | after `deleteEvidenceCard`, `getEvidenceCards` of the table is the former listing with that card's entry removed and everything else kept in order |
| Evidence.DeletedCardNotListed | lib/api/evidence.ts:151-156 | after `deleteEvidenceCard`, no listed entry is the deleted card |
| Evidence.WithoutCardAppend | lib/api/evidence.ts:151-156 | removing one card's entries distributes over concatenation |
| Evidence.TableRowsAt | lib/api/evidence.ts:5-29 | when every id of the order is stored, the loaded rows are the cards of the order, one per id, in that order |
| Evidence.TableRowsDistinct | lib/api/evidence.ts:5-29 | a table whose order lists each stored id once loads each card once, as `findMany` does |
| VotesRoute.PostVoteOutcome | app/api/votes/route.ts:6-77 | the guard order: 401 without a user, then 400 for a missing card id or strength, then 400 out of 0..10, then 404 for an unknown card, else 200 with the vote (user, card, strength) |
| VotesRoute.PostVote | app/api/votes/route.ts:40-66 | the response is the guard outcome; on 200 the table is upserted at (user id, card id); any other status writes nothing |
| VotesRoute.UnauthenticatedFirst | app/api/votes/route.ts:8 | no user gives 401 whatever the body |
| VotesRoute.RangeWiderThanScale | app/api/votes/route.ts:20-25 | strengths 7 and 1 pass the route's range check (200) although they are not on the {0,2,5,8,10} scale |
| VotesRoute.RangeBeforeExistence | app/api/votes/route.ts:20-37 | an out-of-range strength gets 400 even for an unknown card |
| VotesRoute.RepeatedVoteIdempotent | app/api/votes/route.ts:40-66 | posting the same vote twice leaves the table as one post does |
| Validation.CheckBounded | lib/utils/validation.ts:11-16 | one field's two sequential checks: only that key may change; its entry is the over-long message when too long, else the too-short message when too short, else absent |
| Validation.ValidateTheoryForm | lib/utils/validation.ts:8-36 | keys only among title, claim and tldr; bounds 5/200, 10/2000 and 10/500 (trimmed minimum, raw maximum); valid exactly when no errors |
| Validation.ValidateEvidenceForm | lib/utils/validation.ts:38-60 | keys only among content, stance and source; content 10/2000; stance FOR or AGAINST; source at most 500; valid exactly when no errors |
| Validation.ValidateCommentForm | lib/utils/validation.ts:62-76 | only the content key; non-empty after trimming and at most 1000; valid exactly when no errors |
| Validation.CommentAcceptance | lib/utils/validation.ts:65-75 | a comment passes the minimum exactly when it is not all whitespace, and the maximum exactly when its length is at most 1000 |
| Validation.BlankOverlongTitle | lib/utils/validation.ts:11-16 | a blank title over 200 characters is both too short and too long, so the too-long message is the one stored |
| Validation.ValidateVoteStrength | lib/utils/validation.ts:78-80 | `validateVoteStrength`, membership in `VOTE_STRENGTHS`; Validation.VoteStrengthScale states the scale |
| Validation.VoteStrengthScale | lib/utils/validation.ts:78-80 | `validateVoteStrength` holds exactly for 0, 2, 5, 8 and 10 |
| Validation.ValidateEmail | lib/utils/validation.ts:82-85 | the e-mail regex as the split it decides; Validation.EmailCharacterization, Validation.ValidEmailHasShape and Validation.EmailShapeIsValid state what it accepts |
| Validation.EmailCharacterization | lib/utils/validation.ts:82-85 | the regex accepts exactly: no whitespace, one '@' with a non-empty part before it, and after it a '.' that is neither the first nor the last character of the domain |
| Validation.ValidEmailHasShape | lib/utils/validation.ts:82-85 | every string the regex accepts has no whitespace, exactly one '@' with text before it, and a '.' strictly inside the part after it |
| Validation.EmailShapeIsValid | lib/utils/validation.ts:82-85 | every string of that shape is accepted by the regex |
| Validation.EmailExamples | lib/utils/validation.ts:82-85 | "a@b.c" is accepted; "a@b@c.d" and "a@b." are refused |
| Permissions.CanModerate | lib/utils/permissions.ts:3-5 | `canModerate`: MODERATOR or ADMIN; Permissions.RoleThresholds carries its contract |
| Permissions.CanAdmin | lib/utils/permissions.ts:7-9 | `canAdmin`: ADMIN only; Permissions.RoleThresholds carries its contract |
| Permissions.CanEditTheory | lib/utils/permissions.ts:11-13 | `canEditTheory`; Permissions.AuthorMayAlways, Permissions.ModeratorEditsButCannotDeleteTheory and Permissions.DeletingOthersTheoryNeedsAdmin carry its contract |
| Permissions.CanDeleteTheory | lib/utils/permissions.ts:15-17 | `canDeleteTheory`; Permissions.DeletingOthersTheoryNeedsAdmin and Permissions.DeleteTheoryImpliesEdit carry its contract |
| Permissions.CanEditEvidence | lib/utils/permissions.ts:19-21 | `canEditEvidence`; Permissions.AuthorMayAlways and Permissions.EvidenceEditIsDelete carry its contract |
| Permissions.CanDeleteEvidence | lib/utils/permissions.ts:23-25 | `canDeleteEvidence`; Permissions.EvidenceEditIsDelete and Permissions.PlainUserDenied carry its contract |
| Permissions.CanResolveReport | lib/utils/permissions.ts:27-29 | `canResolveReport`; Permissions.ResolveIsModerate carries its contract |
| Permissions.RoleThresholds | lib/utils/permissions.ts:3-9 | `canModerate` holds exactly from the MODERATOR level up, `canAdmin` exactly at the ADMIN level, and `canAdmin` implies `canModerate` |
| Permissions.AuthorMayAlways | lib/utils/permissions.ts:11-25 | an author may edit and delete their own theory and evidence, whatever their role |
| Permissions.ModeratorEditsButCannotDeleteTheory | lib/utils/permissions.ts:11-17 | a non-author MODERATOR may edit a theory but not delete it |
| Permissions.DeletingOthersTheoryNeedsAdmin | lib/utils/permissions.ts:15-17 | for someone else's theory, deleting is allowed exactly to ADMIN and editing exactly to MODERATOR and ADMIN |
| Permissions.DeleteTheoryImpliesEdit | lib/utils/permissions.ts:11-17 | whoever may delete a theory may edit it |
| Permissions.EvidenceEditIsDelete | lib/utils/permissions.ts:19-25 | `canEditEvidence` and `canDeleteEvidence` agree on every input |
| Permissions.PlainUserDenied | lib/utils/permissions.ts:3-29 | a non-author USER is denied every capability |
| Permissions.ResolveIsModerate | lib/utils/permissions.ts:27-29 | `canResolveReport` agrees with `canModerate` |
| AuthHelpers.GetCurrentUser | lib/auth/auth-helpers.ts:6-24 | no session user id gives null; otherwise the stored user with that id, or null when none exists |
| AuthHelpers.RequireAuth | lib/auth/auth-helpers.ts:26-34 | fails with Unauthorized exactly when there is no user, and otherwise returns that user unchanged |
| AuthHelpers.RequireRole | lib/auth/auth-helpers.ts:36-44 | Unauthorized without a user; otherwise Forbidden exactly when the role is not allowed; else the user unchanged |
| AuthHelpers.RequireModerator | lib/auth/auth-helpers.ts:46-48 | `requireRole([MODERATOR, ADMIN])`; AuthHelpers.RequireModeratorAgreesWithCanModerate carries its contract |
| AuthHelpers.RequireAdmin | lib/auth/auth-helpers.ts:50-52 | `requireRole([ADMIN])`; AuthHelpers.RequireAdminAgreesWithCanAdmin carries its contract |
| AuthHelpers.RequireModeratorAgreesWithCanModerate | lib/auth/auth-helpers.ts:46-48 | `requireModerator` succeeds exactly when there is a user and `canModerate` holds for their role |
| AuthHelpers.RequireAdminAgreesWithCanAdmin | lib/auth/auth-helpers.ts:50-52 | `requireAdmin` succeeds exactly when there is a user and `canAdmin` holds for their role |
| AuthHelpers.GuardsNested | lib/auth/auth-helpers.ts:26-52 | passing `requireAdmin` implies passing `requireModerator`, which implies passing `requireAuth` |
| AuthHelpers.NoSessionUnauthorized | lib/auth/auth-helpers.ts:9-11 | a session without a user id fails `requireAuth` with Unauthorized |
| Middleware.MiddlewareDecision | middleware.ts:5-31 | the inner `middleware`: the three prefix tests in source order; Middleware.AdminGate, Middleware.ModerationGate, Middleware.NewTheoryGate and Middleware.OtherPathsPass carry its contract |
| Middleware.Authorized | middleware.ts:34-49 | the `authorized` callback; Middleware.AuthorizedPaths and Middleware.NewTheoryNotPublic carry its contract |
| Middleware.Matched | middleware.ts:54-60 | `config.matcher`; Middleware.MatchedPathsNeedToken and Middleware.AdministratorNotMatched carry its contract |
| Middleware.WithAuth | middleware.ts:5-60 | a path outside the matcher is not handled; a handled path without a token goes to sign-in; otherwise the middleware decides |
| Middleware.AdminGate | middleware.ts:10-14 | a path starting with "/admin" redirects to "/" unless the token role is ADMIN, and a missing token redirects too |
| Middleware.ModerationGate | middleware.ts:17-21 | a path starting with "/moderation" redirects to "/" unless the role is ADMIN or MODERATOR |
| Middleware.NewTheoryGate | middleware.ts:24-28 | a path starting with "/theory/new" without a token redirects to "/login" |
| Middleware.OtherPathsPass | middleware.ts:30 | every other request passes through |
| Middleware.AdministratorGatedAsAdmin | middleware.ts:10 | the prefix test is on the raw string, so "/administrator" is gated as admin |
| Middleware.AuthorizedPaths | middleware.ts:34-49 | `authorized` is true for "/", "/login…", "/register…" and "/theory/…" other than "/theory/new…", and otherwise exactly when a token is present |
| Middleware.NewTheoryNotPublic | middleware.ts:40-44 | "/theory/new…" is not a public theory path |
| Middleware.MatchedPathsNeedToken | middleware.ts:34-60 | every path the matcher handles is non-public, so `authorized` asks for a token there |
| Middleware.LoginRedirectUnreachable | middleware.ts:24-28 | behind the callback, the "/login" redirect never fires: a handled request without a token never reaches the middleware |
| Middleware.AdminPagesOnlyForAdmins | middleware.ts:10-14 | a handled "/admin" path reaches its page only with an ADMIN token |
| Middleware.AdministratorNotMatched | middleware.ts:54-60 | "/administrator" lies outside the matcher, so the admin gate never sees it |
| Slug.LowerChar | lib/utils/slug.ts:3 | A–Z map to a–z, А–Я to а–я and Ѐ–Џ to ѐ–џ letter by letter, KELVIN SIGN to "k" and U+0130 to "i" + U+0307; the result holds no ASCII or Cyrillic capital; any other character stays as it is |
| Slug.Lower | lib/utils/slug.ts:3 | the lower-cased string holds no ASCII or Cyrillic capital |
| Slug.LowerAppend | lib/utils/slug.ts:3 | lower-casing distributes over concatenation |
| Slug.LowerSingle | lib/utils/slug.ts:3 | a one-character string lowers to the lower case of its character |
| Slug.KeepOnly | lib/utils/slug.ts:4 | only kept characters of the input remain, and a string of kept characters is unchanged |
| Slug.KeepOnlyAppend | lib/utils/slug.ts:4 | the filter distributes over concatenation, so kept characters survive in order |
| Slug.KeepOnlySingle | lib/utils/slug.ts:4 | one character survives exactly when it is a word character, whitespace or '-' |
| Slug.KeepOnlyNone | lib/utils/slug.ts:4 | a string with no kept character filters to nothing |
| Common.TrimStartAppend | lib/utils/slug.ts:5 | only leading whitespace is stripped: once a part holds a non-blank character, what follows it is kept |
| Common.TrimStartRun | lib/utils/slug.ts:5 | a whitespace run in front of a non-blank start is removed exactly |
| Slug.DashWhitespace | lib/utils/slug.ts:5 | `replace(/\s+/g, '-')`; Slug.DashWhitespaceShape, Slug.DashWhitespaceRunStart, Slug.DashWhitespaceAppend and Slug.WhitespaceRunBecomesDash carry its contract |
| Slug.DashWhitespaceShape | lib/utils/slug.ts:5 | no whitespace remains; each character is '-' or from the input; a string without whitespace is unchanged |
| Slug.DashWhitespaceRunStart | lib/utils/slug.ts:5 | a leading whitespace run becomes exactly one '-' |
| Slug.DashWhitespaceAppend | lib/utils/slug.ts:5 | cutting after a non-blank character splits no run: the replacement distributes over such a cut |
| Slug.WhitespaceRunBecomesDash | lib/utils/slug.ts:5 | a maximal whitespace run between two parts becomes one '-' between their replacements |
| Slug.DropDashes | lib/utils/slug.ts:6 | drops exactly the leading '-' run: the dropped prefix is all dashes, the rest does not start with '-', and an input not starting with '-' is unchanged |
| Slug.DropDashesAppend | lib/utils/slug.ts:6 | dropping the leading dashes of a part that ends in a non-dash keeps what follows |
| Slug.DropDashRun | lib/utils/slug.ts:6 | a dash run in front of a non-dash start is dropped exactly |
| Slug.CollapseDashes | lib/utils/slug.ts:6 | `replace(/-+/g, '-')`; Slug.CollapseDashesShape, Slug.CollapseDashesAppend, Slug.DashRunStart, Slug.DashRunCollapses and Slug.CollapseDashesFixpoint carry its contract |
| Slug.CollapseDashesShape | lib/utils/slug.ts:6 | no "--" remains; each character comes from the input; empty exactly when the input is; it starts with '-' exactly when the input does |
| Slug.CollapseDashesAppend | lib/utils/slug.ts:6 | cutting after a non-dash character splits no run: the collapse distributes over such a cut, so other characters are kept in order |
| Slug.DashRunStart | lib/utils/slug.ts:6 | a leading dash run becomes exactly one '-' |
| Slug.DashRunCollapses | lib/utils/slug.ts:6 | a maximal dash run between two parts becomes one '-' between their collapses |
| Slug.CollapseDashesFixpoint | lib/utils/slug.ts:6 | a string without "--" is unchanged |
| Slug.Slugify | lib/utils/slug.ts:1-8 | the chain lower-case, filter, dash whitespace, collapse dashes, trim, over the class the filter keeps; Slug.SlugifyShape, Slug.SlugifyFixpoint, Slug.SlugifyDropsOutside and Slug.SlugifyJoinsWords carry its contract |
| Slug.SlugifyShape | lib/utils/slug.ts:1-8 | the chain's output has no "--" and no whitespace, and each character is '-' or a kept character of the lower-cased title; the final trim removes nothing |
| Slug.SlugifyFixpoint | lib/utils/slug.ts:1-8 | a string already of that shape is its own slug |
| Slug.GenerateSlug | lib/utils/slug.ts:1-8 | `generateSlug`, the chain over `[\w\s-]`; Slug.GenerateSlugIsSlug, Slug.GenerateSlugIdempotent and Slug.GenerateSlugExample carry its contract |
| Slug.GenerateSlugIsSlug | lib/utils/slug.ts:1-8 | `generateSlug` output is in [a-z0-9_-] and never contains "--" |
| Slug.SlugFixpoint | lib/utils/slug.ts:1-8 | a slug is its own slug |
| Slug.GenerateSlugIdempotent | lib/utils/slug.ts:1-8 | `generateSlug(generateSlug(t)) == generateSlug(t)` |
| Slug.SlugifyDropsOutside | lib/utils/slug.ts:1-8 | a character whose lower case the class drops leaves no trace: the slug is that of the title without it |
| Slug.SlugifyJoinsWords | lib/utils/slug.ts:1-8 | two plain [a-z0-9]+ words around any whitespace run give the two words joined by one '-' |
| Slug.JoinedUnchangedByFilters | lib/utils/slug.ts:3-4 | lower-casing and the character filter leave plain words and whitespace unchanged |
| Slug.JoinedIsFixed | lib/utils/slug.ts:6-7 | two plain words joined by one '-' pass the dash collapse and the trim unchanged |
| Slug.PlainWordNoWhitespace | lib/utils/slug.ts:5-7 | a plain word has no whitespace and does not end in '-' |
| Slug.GenerateSlugExample | lib/utils/slug.ts:1-8 | for letters x and y, "x  y!" gives "x-y": the '!' is dropped and the two spaces become one '-' |
| Slug.TwoWordsExample | lib/utils/slug.ts:1-8 | for letters x and y, "x  y" gives "x-y" |
| Slug.NatToString | lib/utils/slug.ts:18 | the counter prints as a non-empty string of digits |
| Slug.ParsePrinted | lib/utils/slug.ts:18 | reading the printed counter back gives the counter |
| Slug.NatToStringInjective | lib/utils/slug.ts:18 | different counters print differently |
| Slug.CandidatesDistinct | lib/utils/slug.ts:14-20 | the candidates base, base-1, base-2, … are pairwise distinct |
| Slug.FirstFreeUnique | lib/utils/slug.ts:14-22 | at most one candidate is the first free one |
| Slug.GenerateUniqueSlug | lib/utils/slug.ts:10-23 | the loop ends for a finite taken set and returns the first candidate in the order base, base-1, base-2, … that is not taken; every earlier one is taken |
| Slug.FirstFreeCandidate | lib/utils/slug.ts:14-22 | the probing loop, started from any base, returns the first of base, base-1, base-2, … missing from the taken set, every earlier candidate being taken |
| Slug.TakenBound | lib/utils/slug.ts:17-20 | after n taken candidates the taken set holds at least n slugs, so the loop runs at most as many times as there are taken slugs |
| Slug.SubsetCard | lib/utils/slug.ts:17-20 | a subset is no larger than its superset (the loop's measure) |
| TagInput.AddTag | components/ui/tag-input.tsx:36-51 | the tags change exactly when the trimmed input is non-empty, new and there is room, and then it is appended; the box keeps a blank input and is cleared otherwise |
| TagInput.RemoveTag | components/ui/tag-input.tsx:53-55 | the result holds exactly the tags other than the one removed |
| TagInput.AddTagKeepsValid | components/ui/tag-input.tsx:36-51 | `addTag` keeps the tags distinct and at most `maxTags` |
| TagInput.RemoveTagAppend | components/ui/tag-input.tsx:53-55 | removal distributes over concatenation, so the other tags keep their order |
| TagInput.RemoveAbsentTag | components/ui/tag-input.tsx:53-55 | removing an absent tag changes nothing |
| TagInput.RemoveTagKeepsValid | components/ui/tag-input.tsx:53-55 | removal keeps the list valid and shortens it by one exactly when the tag was present |
| TagInput.RemoveUndoesAdd | components/ui/tag-input.tsx:36-55 | removing a tag just added gives the earlier list back |
| TagInput.AddDuplicateClearsInput | components/ui/tag-input.tsx:40-43 | a tag already present leaves the tags and clears the box |
| TagInput.AddWhenFullClearsInput | components/ui/tag-input.tsx:44-47 | a full list leaves the tags and clears the box |
| EvidenceRoute.ParseStance | app/api/evidence/route.ts:28-33 | exactly "FOR" and "AGAINST" name a stance |
| EvidenceRoute.PostEvidenceOutcome | app/api/evidence/route.ts:7-87 | 401 without a user; 400 for a missing theory id, content or stance, or an unknown stance; 404 for an unknown theory; else 201 with an ACTIVE card by the caller whose falsy source, sourceTitle and context are null |
| EvidenceRoute.PostEvidence | app/api/evidence/route.ts:47-57 | the response is the guard outcome; on 201 the card is stored under its fresh id; otherwise nothing is written |
| EvidenceRoute.UnauthenticatedFirst | app/api/evidence/route.ts:9 | no user gives 401 whatever the body |
| EvidenceRoute.StanceIsCaseSensitive | app/api/evidence/route.ts:28-33 | a lower-case "for" is refused with 400 |
| EvidenceRoute.CreatedCardIsListed | app/api/evidence/route.ts:47-57 | after a 201, `getEvidenceCards` of the card table lists the created card first among its theory's cards, with its votes, ahead of the cards listed before |
| ReportsRoute.PostReportOutcome | app/api/reports/route.ts:83-181 | 401 without a user; 400 without a valid reason or without any target; 404 for a missing theory (named first) or card; else 201 with a PENDING report by the caller with null for absent ids and empty details |
| ReportsRoute.WithStatus | app/api/reports/route.ts:14-18 | exactly the reports with the given status |
| ReportsRoute.StatusFilter | app/api/reports/route.ts:14-18 | a status filter exactly for a truthy parameter that is a `ReportStatus` |
| ReportsRoute.ReportTable.PostReport | app/api/reports/route.ts:137-144 | the response is the guard outcome; on 201 the report is the newest in the table; otherwise nothing is written |
| ReportsRoute.ReportTable.GetReports | app/api/reports/route.ts:7-73 | fails exactly as `requireModerator` fails; otherwise all reports, or those with the requested status when it is valid |
| ReportsRoute.TheoryCheckedFirst | app/api/reports/route.ts:113-135 | with both targets missing, the answer is 404 "Теория не найдена" |
| ReportsRoute.MissingCardRefused | app/api/reports/route.ts:125-135 | an existent theory with a missing card gives 404 "Карточка доказательства не найдена" |
| ReportsRoute.FiledReportIsPending | app/api/reports/route.ts:137-144 | a filed report heads the PENDING filter |
| ReportsRoute.UnknownStatusListsAll | app/api/reports/route.ts:14-18 | "pending" and "" set no filter, "RESOLVED" does |
| ReportsRoute.WithStatusAppend | app/api/reports/route.ts:14-18 | the status filter distributes over concatenation, so it keeps the newest-first order |
| TheoriesRoute.GenerateSlug | app/api/theories/route.ts:7-14 | the route's own `generateSlug`, the chain over `[а-яёa-z0-9\s-]`; TheoriesRoute.GenerateSlugIsTheorySlug, TheoriesRoute.GenerateSlugIdempotent and TheoriesRoute.UnderscoreExample carry its contract |
| TheoriesRoute.GenerateSlugIsTheorySlug | app/api/theories/route.ts:7-14 | the slug holds only а–я, ё, a–z, 0–9 and '-', and never "--" |
| TheoriesRoute.GenerateSlugIdempotent | app/api/theories/route.ts:7-14 | the route's slug function is idempotent |
| TheoriesRoute.UnderscoreExample | app/api/theories/route.ts:7-14 | unlike the library slug, the route's drops '_': for letters x and y, "x_ y" gives "x-y" |
| TheoriesRoute.SpaceJoinsLetters | app/api/theories/route.ts:7-14 | for letters x and y, "x y" gives "x-y" |
| TheoriesRoute.TheorySlugFixpoint | app/api/theories/route.ts:7-14 | a string of lower-case Cyrillic and Latin letters, digits and single inner dashes is left unchanged by the route's slug function |
| TheoriesRoute.UnderscoreDropped | app/api/theories/route.ts:10 | unlike the shared slug helper, this class drops '_' |
| TheoriesRoute.SearchHit | app/api/theories/route.ts:42-61 | the search `OR`: title or claim contains the search ignoring case, or a tag equals it; TheoriesRoute.Select and TheoriesRoute.GetTheories state where it filters |
| TheoriesRoute.BuildWhere | app/api/theories/route.ts:26-62 | the status is the parameter when truthy and ACTIVE otherwise; realm, topic and search filter only when truthy |
| TheoriesRoute.Select | app/api/theories/route.ts:64-87 | exactly the rows the `where` matches |
| TheoriesRoute.SelectAppend | app/api/theories/route.ts:64-87 | selecting from two runs of rows selects from each, in order, so the table order is kept |
| TheoriesRoute.SelectSingle | app/api/theories/route.ts:64-87 | one row is selected exactly when it matches |
| TheoriesRoute.Window | app/api/theories/route.ts:84-85 | `skip`/`take` yields at most `take` rows |
| TheoriesRoute.Paginate | app/api/theories/route.ts:90-91 | `hasMore` exactly when more than `limit` rows were fetched; the list is the prefix of length min(fetched, limit) |
| TheoriesRoute.GetTheories | app/api/theories/route.ts:16-106 | a status outside the enum fails with 500; otherwise every listed theory is a row that matches the filter, the list is at most `limit` long, `totalCount` is the number of matching rows, and the page number is echoed |
| TheoriesRoute.GetTheoriesIsSlice | app/api/theories/route.ts:84-91 | the listed theories are the matching rows from index `page·limit`, at most `limit` of them, and `hasMore` holds exactly when matching rows remain after them |
| TheoriesRoute.PageOf | app/api/theories/route.ts:84-91 | the page is the slice of the matching rows from the offset, at most `limit` long, with `hasMore` exactly when rows remain, and `totalCount` their number |
| TheoriesRoute.DefaultsToActive | app/api/theories/route.ts:28-32 | without a status parameter only ACTIVE theories are listed |
| TheoriesRoute.PageIsSlice | app/api/theories/route.ts:84-91 | a page is the slice of the matching rows from `page·limit`, at most `limit` long, and `hasMore` says whether rows remain after it |
| TheoriesRoute.OffsetIsProduct | app/api/theories/route.ts:84 | the rows skipped before a page number `page` are `page·limit` |
| TheoriesRoute.ConsecutivePages | app/api/theories/route.ts:84-91 | consecutive pages tile the matching rows without gap or overlap |
| TheoriesRoute.ChosenSlug | app/api/theories/route.ts:121-129 | the base slug when it is free, else base-suffix |
| TheoriesRoute.PostTheoryOutcome | app/api/theories/route.ts:108-170 | 401 exactly without a user; 400 exactly for a falsy title, claim or tldr; 500 exactly for a status outside the enum or a chosen slug still taken; 201 in every other case, with the chosen slug, null for falsy realm and topic, [] for missing tags, ACTIVE for a missing status and the caller as author |
| TheoriesRoute.ValidPostCreates | app/api/theories/route.ts:108-154 | a signed-in request with title, claim and tldr, an enum status and a free chosen slug gets 201 |
| TheoriesRoute.TheoryTable.PostTheory | app/api/theories/route.ts:108-170 | the response is the outcome above; on 201 the theory is the newest in the table; otherwise nothing is written |
| TheoriesRoute.PrependKeepsSlugsUnique | app/api/theories/route.ts:131-152 | a theory whose slug is free keeps the slugs unique |
| TheoriesRoute.PostKeepsSlugsUnique | app/api/theories/route.ts:121-152 | a successful POST keeps the slugs unique |
| TheoriesRoute.TakenSlugGetsSuffix | app/api/theories/route.ts:127-129 | a title whose base slug is taken is stored as base-suffix |
| TheoriesRoute.NewestMatchHeadsFirstPage | app/api/theories/route.ts:81-91 | the newest row, when it matches, heads the first page |
| TheoriesRoute.CreatedTheoryListedFirst | app/api/theories/route.ts:108-154 | a new theory left at the default status heads the first page of the default listing |

## Left out

- Rendering, the layouts and every UI component other than the tag list logic of the tag input. They are presentation only.
- The zod schemas of the forms. They are validation done by a foreign library.
- The Prisma client and its query builder. Tables are maps, sequences or sets of ids. A failing `update` or `delete` on a missing key is an error result.
- The NextAuth session lookup. The current user is an `Option` input; the session user id is an `Option` input of `GetCurrentUser`.
- `Math.random` in the theories slug suffix. The suffix is a parameter.
- Fresh database ids. They are parameters, and a new card's id is required not to be in the table.
- IEEE-754 arithmetic. Averages and percentages are reals, and `Math.round` is ⌊x + ½⌋.
- `console.error` logging, date formatting and initials. They are output only.
- Request and response JSON parsing. A strength that is not an integer, and body fields that are not strings, are not modelled.
- The theories GET's `page` and `limit` are taken as parsed natural numbers. `NaN` or negative values, which make the query fail, are not modelled.
- The `Promise.all` of the theories GET is taken as sequential.
- Evidence.TableRows: `createdAt` is not a column of the model. The card table keeps the ids in creation order instead, newest first, and a new card is the newest. The vote rows a card loads are given as a sequence of votes.
- Slug.Lower: `toLowerCase` is modelled for ASCII, Cyrillic А–Я and Ѐ–Џ, KELVIN SIGN and U+0130 only. Any other character is kept as it is. After the slug filters this agrees with JavaScript, since neither such a character nor its real lower case survives them.
- TheoriesRoute.SearchHit: Prisma's case-insensitive `contains` is delegated to the database's collation. It is modelled with the same partial lower-casing.
- Report, theory and status enum values come from the application's own label tables, because the Prisma schema is not part of this model.
- Validation, Middleware: every regex is modelled as the predicate it decides, not as a regex engine.

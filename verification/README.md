# Verified model of the recruiting platform

This project models the parts of the platform whose correctness depends on more than one function, and proves
properties of them over every input and every run. `dafny verify dfyconfig.toml` checks all of it.

**Accounts, workspaces and sessions** (`AuthTables`, `AuthProtocol`, `TokenFamilies`, `AuthInvariants`, `AuthRuns`,
`AuthTheorems`, `AuthSessions`, `AuthAnswers`, `AuthRules`, `AuthService`). The auth handlers are transitions of one
state: users, workspaces, members, invitations, verification tokens, refresh tokens. Runs are arbitrary sequences of
requests, clock ticks and outside edits of the columns that handlers read but never write (an account disabled or
deleted, a workspace deleted). `AuthTheorems` and `AuthSessions` hold the results over all runs. `AuthAnswers` says,
column by column, exactly when each handler gives which answer and what it then changes. `AuthRules` says what each
handler promises its caller. `AuthService` holds the handlers as they run, with their queries and updates as loops
over mutable tables; each is proved to be its transition, to keep the invariants, to follow its rule and to give that
answer.

**Rate limiting** (`RateLimiter`). The counter script over the Redis semantics it relies on: a key lives up to and
including its deadline, INCR keeps a deadline, EXPIRE takes whole seconds and deletes at zero, TTL rounds to the
nearest second. The reference it is compared with is a division of the requests into windows.

**Ranking** (`Basics`, `Rounding`, `StableSort`, `Scoring`, `ScoringRules`, `Ranking`, `RankingRules`, `Rerank`). The
baseline scorer in exact arithmetic with Python's rounding, its sort and rank assignment, and the merge of an
arbitrary AI payload with JavaScript's `toFixed`. The power 0.6 is any function whose result s at r in [0, 1)
satisfies s >= 0 and s^5 = r^3.

**Stores** (`DemoStore`, `JobVersions`, `ResumeUpload`). The bounded job store of the demo with its persistence and
its uploads; append-only job versions with ranking split into read, read and insert steps that interleave with
everything else; the upload that stores each content once and the join that scoring reads.

**Parsing and printing** (`Experience`, `Pages`, `Texts`, `Decimal`, `PdfText`, `PdfFile`). Merged employment ranges
against the set of years they cover; page offsets and excerpts; the PDF fixtures against a reader of ISO 32000-1.

Five properties one might expect do not hold of the code; each has a concrete run or input and its exact condition:

- Assessed experience is not monotone across the threshold: `ExperienceIsNotMonotone`, `ExperienceCliff`.
- A session that was just opened need not be usable: `VerificationMayOpenUselessSession`, `OpenedSessionIsUsableIff`.
- An excerpt need not lie within its own offsets, nor in the page it cites: `LongIndentedLineOverruns` and
  `CitationEnclosesExcerptIffItFits`, `EmptyFirstPageIsCitedWrongly` and `PassedOffsetIsCitedRightlyIff`.
- A window need not admit at most twice the limit within its own length: `PartSecondsAdmitMore`,
  `TwiceTheLimitBoundsIff`.
- Escaped PDF text is not always read back as it was: `CarriageReturnIsNotReadBack`, `LiteralRoundTrip`.

## Model

| member | source | states |
|---|---|---|
| `AuthProtocol.PreferredMembership` | backend/internal/auth/sessions.go:361-372 | the membership a login lands in: live, active, in a live workspace, most recently accessed (never accessed last), the oldest row among equals; found exactly when one exists |
| `TokenFamilies.RevokeKeepsChains` | backend/internal/auth/sessions.go:526-530 | revoking by family, member or row keeps every family one chain, changes no revocation or replacement already made, and revives no dead family |
| `TokenFamilies.RevokeKillsFamily` | backend/internal/auth/members.go:156-165 | a revocation that selects one token of a family by family or by membership leaves no token of that family unrevoked |
| `TokenFamilies.OpenKeepsChains` | backend/internal/auth/sessions.go:427-452 | a token in a fresh family keeps every family one chain |
| `TokenFamilies.RotateKeepsChains` | backend/internal/auth/sessions.go:578-585 | issuing a successor and marking the presented token replaced keeps every family one chain |
| `TokenFamilies.FamilyIsOneChain` | backend/internal/auth/sessions.go:578-585 | in issue order each token of a family is revoked and replaced by the next, and exactly the newest has no successor |
| `AuthInvariants.CountFindsAdmin` | backend/internal/auth/members.go:246-264 | the count of other active admins is positive if and only if another active admin exists |
| `AuthInvariants.MemberStepKeepsPeople` | backend/internal/auth/members.go:136-152 | an edit of one member keeps all rules on accounts, members and invitations if the member stays an active admin or another one is counted |
| `AuthInvariants.UpdateMemberKeepsPeople` | backend/internal/auth/members.go:71-178 | changing role or status keeps those rules, an active admin in every workspace among them |
| `AuthInvariants.RemoveMemberKeepsPeople` | backend/internal/auth/members.go:180-244 | removing a member keeps those rules |
| `AuthInvariants.CreateInvitationKeepsPeople` | backend/internal/auth/invitations.go:89-141 | creating an invitation keeps them: its address is not a member's and has no other pending invitation |
| `AuthInvariants.AdmitsOnlyOutsiders` | backend/internal/auth/invitations.go:409-431 | the membership row that accepting overwrites without a last-admin check is always a deleted one |
| `AuthInvariants.AdmitMemberKeepsPeople` | backend/internal/auth/invitations.go:409-441 | adding or reviving the member and closing the invitation keeps those rules |
| `AuthRuns.RegisterIsSound` | backend/internal/auth/sessions.go:70-112 | registering keeps all invariants and undoes nothing final |
| `AuthRuns.VerifyEmailIsSound` | backend/internal/auth/sessions.go:137-224 | so does consuming a verification link, which leaves at most one outstanding link per user |
| `AuthRuns.ResendVerificationIsSound` | backend/internal/auth/sessions.go:245-287 | so does resending, which revokes the older links first |
| `AuthRuns.LoginIsSound` | backend/internal/auth/sessions.go:330-385 | so does a login |
| `AuthRuns.RefreshIsSound` | backend/internal/auth/sessions.go:495-593 | so does every branch of refresh |
| `AuthRuns.LogoutIsSound` | backend/internal/auth/sessions.go:606-609 | so does a logout |
| `AuthRuns.SwitchWorkspaceIsSound` | backend/internal/auth/profile.go:98-148 | so does a workspace switch |
| `AuthRuns.ResendInvitationIsSound` | backend/internal/auth/invitations.go:165-224 | so does giving a pending invitation a new link |
| `AuthRuns.RevokeInvitationIsSound` | backend/internal/auth/invitations.go:226-261 | so does revoking an invitation |
| `AuthRuns.AcceptInvitationIsSound` | backend/internal/auth/invitations.go:335-464 | so does accepting one |
| `AuthRuns.UpdateMemberIsSound` | backend/internal/auth/members.go:71-178 | so does updating a member |
| `AuthRuns.RemoveMemberIsSound` | backend/internal/auth/members.go:180-244 | so does removing one |
| `AuthRuns.RunIsSound` | backend/internal/auth/handler.go:65-93 | from any state that meets the invariants, every sequence of requests, clock ticks and outside edits keeps them, and never undoes a revocation, replacement, verification, deletion of an account or spent link |
| `AuthTheorems.EveryWorkspaceKeepsAnAdmin` | backend/internal/auth/members.go:136-145 | in every reachable state every workspace has an active admin who is not deleted |
| `AuthTheorems.MembershipsAndInvitationsStayDisjoint` | backend/internal/auth/invitations.go:89-107 | in every reachable state each user has one row per workspace, an address has one pending invitation per workspace, and no pending invitation addresses a present member |
| `AuthTheorems.FamiliesAreChains` | backend/internal/auth/sessions.go:414-425 | in every reachable state each family is one chain of replacements whose tokens are all revoked but possibly the newest |
| `AuthTheorems.SessionsAreConsistent` | backend/internal/auth/sessions.go:427-452 | tokens belong to verified accounts, a family shares user, workspace and remember flag, its expiry never shrinks along the chain, and a user has at most one outstanding verification link |
| `AuthTheorems.DeadFamilyStaysShut` | backend/internal/auth/handler.go:113-148 | once all tokens of a family are revoked, neither authenticate nor refresh ever accepts it again, whatever runs afterwards |
| `AuthTheorems.SuspensionShutsSessions` | backend/internal/auth/members.go:156-165 | sessions open when a member is suspended stay shut, reactivation and new invitations included |
| `AuthTheorems.RemovalShutsSessions` | backend/internal/auth/members.go:220-228 | sessions open when a member is removed stay shut, joining again included |
| `AuthTheorems.LogoutShutsSession` | backend/internal/auth/sessions.go:606-609 | a session that logs out stays shut |
| `AuthTheorems.SwitchShutsSession` | backend/internal/auth/profile.go:137-148 | the session that asked for a switch stays shut |
| `AuthTheorems.ReplayOfRotatedToken` | backend/internal/auth/sessions.go:515-545 | a rotated token presented after any run: expired, it changes nothing; within five seconds of its own rotation, it changes nothing; later, its whole family is shut for good |
| `AuthTheorems.ExpiryBoundary` | backend/internal/auth/handler.go:122-122 | the refresh handler and authenticate disagree on an unrevoked token exactly at the instant of its expiry |
| `AuthTheorems.ExpiryBoundaryIsReached` | backend/internal/auth/handler.go:122-122 | a concrete run: seven days after a verification link opened a session, to the instant, refresh accepts the token that authenticate refuses |
| `AuthTheorems.SpentInvitationStaysSpent` | backend/internal/auth/invitations.go:362-365 | a link that no pending invitation carries is refused after every further run |
| `AuthTheorems.InvitationRequestsSpendTheLink` | backend/internal/auth/invitations.go:165-261 | accepting, revoking and resending each spend the link that the invitation had |
| `AuthTheorems.VerificationWorksOnce` | backend/internal/auth/sessions.go:181-198 | a verification link that opened a session is refused after every further run |
| `AuthTheorems.TenantsAreIsolated` | backend/internal/auth/members.go:97-118 | a request made under one workspace changes no account and no member, invitation or session of any other, except that the user who asks may open one session there (a switch), which records the time of access on that user's own membership |
| `AuthTheorems.StandingChangesOnlyWithAuthority` | backend/internal/auth/handler.go:166-175 | membership, role and status change only by registering, by an active admin of that workspace, or by accepting a pending unexpired invitation with the role it offers |
| `AuthSessions.OpenedSessionIsUsableIff` | backend/internal/auth/handler.go:113-148 | sessions from login, refresh and switch are accepted at once with the role they were opened with; one from a verification link exactly if membership, account and workspace are live and active, one from an invitation exactly if the workspace is live |
| `AuthSessions.OpenedTokenIsAsReplied` | backend/internal/auth/sessions.go:427-475 | the one token issued is owned as the reply claims, unrevoked, remembered as asked (by the presented token or family for refresh and switch), good for 30 days if so and 7 if not, in the presented family for refresh and a fresh one otherwise |
| `AuthSessions.VerificationMayOpenUselessSession` | backend/internal/auth/sessions.go:156-165 | a concrete run: an account disabled before it is verified still gets a session, which authenticate refuses |
| `AuthAnswers.ClaimsAnswer` | backend/internal/auth/handler.go:113-148 | claims are accepted exactly from a verified active account with an active membership in a live workspace and an unrevoked unexpired token of the session, under the role the membership has at that moment; otherwise the refusal says which of the two is missing |
| `AuthAnswers.AdminAnswer` | backend/internal/auth/handler.go:166-175 | where an admin is needed, exactly the claims of one pass; other accepted claims are forbidden |
| `AuthAnswers.PreferredIsWhereOneLands` | backend/internal/auth/sessions.go:361-372 | the membership picked for a login is one that no other precedes by last access, never last, and then by age; none is picked exactly if there is none |
| `AuthAnswers.EveryRequestIsAnswered` | backend/internal/auth/handler.go:65-93 | in every state that meets the invariants every request gets exactly the answer its columns decide, changes exactly what that answer says, and a session it opens has exactly its token |
| `AuthService.AuthStore.IssueSession` | backend/internal/auth/sessions.go:427-452 | the one new token lets exactly an active member in; no other token and nobody's standing changes |
| `AuthService.AuthStore.Register` | backend/internal/auth/sessions.go:70-112 | done exactly if no live account has the address: one unverified account, its workspace, its admin membership and a link good for a day are added; then the account cannot log in, and the link opens its session as admin; invariants kept, nothing final undone |
| `AuthService.AuthStore.VerifyEmail` | backend/internal/auth/sessions.go:154-224 | a session exactly for a link that is neither consumed nor revoked nor expired and whose user has a row in its workspace; an expired one is refused as expired, any other as invalid; it verifies the account, spends this link, revokes the user's others, and is of use exactly under the condition decided before; a refusal changes nothing; invariants kept |
| `AuthService.AuthStore.ResendVerification` | backend/internal/auth/sessions.go:245-304 | the answer is the same for every address; exactly an unverified active account with a membership gets a new link for the oldest one, good for a day, its older links being revoked, and the new one opens a session; otherwise nothing changes; invariants kept |
| `AuthService.AuthStore.Login` | backend/internal/auth/sessions.go:330-396 | a session exactly for the matching password of a verified active account with a live active membership, in the most recently accessed one (the oldest among equals), under its role, and accepted at once; each refusal has its exact reason and changes nothing; invariants kept |
| `AuthService.AuthStore.Refresh` | backend/internal/auth/sessions.go:495-596 | a rotation exactly for an unrevoked unexpired token of a user who still acts in the workspace: session accepted, the presented token alone marked replaced, and the same request sent again at once changes nothing; expired, lately rotated, reused and orphaned tokens each get their own refusal and effect; invariants kept |
| `AuthService.AuthStore.Logout` | backend/internal/auth/sessions.go:598-624 | done exactly for accepted claims, and then shuts the family of the session and nothing else; a refusal has its exact reason and changes nothing; invariants kept |
| `AuthService.AuthStore.SwitchWorkspace` | backend/internal/auth/profile.go:98-162 | a session exactly if the claims are accepted and the user acts in the other workspace: the session that asked is shut, the new one, under the role there, is accepted; a refusal has its exact reason and changes nothing; invariants kept |
| `AuthService.AuthStore.CreateInvitation` | backend/internal/auth/invitations.go:88-141 | done exactly for an admin, if no present member has the address and none is pending for it: one invitation is added with address, role and inviter as asked and an open link for seven days; each refusal has its exact reason and changes nothing; invariants kept |
| `AuthService.AuthStore.ResendInvitation` | backend/internal/auth/invitations.go:165-224 | done exactly for an admin of the workspace on a pending invitation: the old link is dead and the new one open for seven days, everything else as before; each refusal has its exact reason and changes nothing; invariants kept |
| `AuthService.AuthStore.RevokeInvitation` | backend/internal/auth/invitations.go:226-261 | done exactly for an admin of the workspace on a pending invitation, which is withdrawn, its link dead, and nothing else; each refusal has its exact reason and changes nothing; invariants kept |
| `AuthService.AuthStore.AcceptInvitation` | backend/internal/auth/invitations.go:335-464 | a session exactly for a pending unexpired invitation whose account is active, or new with a valid profile: the account is verified, an active member with the role offered and nobody else changed, and the link is dead; each refusal has its exact reason and changes nothing; invariants kept |
| `AuthService.AuthStore.UpdateMember` | backend/internal/auth/members.go:71-178 | done exactly for an admin of the workspace, on a live member, with a role or a status given, unless it takes active admin from the only one: what is given is set, every other field and row stays, and a member who is then not active is logged out there; each refusal has its exact reason and changes nothing; invariants kept, an active admin among them |
| `AuthService.AuthStore.RemoveMember` | backend/internal/auth/members.go:180-244 | done exactly for an admin of the workspace on a live member who is not its only active admin: the row is marked deleted and the member logged out there, nothing else; each refusal has its exact reason and changes nothing; invariants kept |
| `AuthService.AuthStore.CountOtherAdmins` | backend/internal/auth/members.go:246-264 | the count over the members is zero if and only if the excluded one is the only active admin |
| `AuthService.AuthStore.Serve` | backend/internal/auth/handler.go:65-93 | whichever request is served, the invariants survive and nothing final is undone |
| `RateLimiter.Limiter.Allow` | backend/internal/auth/rate_limit.go:30-46 | verdict and counter of one key as the script and its caller compute them; every other key keeps its counter |
| `RateLimiter.CounterFollowsWindows` | backend/internal/auth/rate_limit.go:13-20 | over any timed run the counter and deadline depend only on the request that opened the window: denied requests count but never extend it, and a request is admitted exactly if fewer than limit of its window came before |
| `RateLimiter.AtMostTwiceTheLimit` | backend/internal/auth/rate_limit.go:30-46 | a closed interval up to one millisecond longer than a counter lives (the window truncated to whole seconds) admits at most twice the limit; with a limit of one it may be a millisecond longer than two such lives |
| `RateLimiter.TwiceTheLimitBoundsIff` | backend/internal/auth/rate_limit.go:30-46 | at most twice the limit within any interval as long as the window, for all request times: this holds if and only if the limit is zero, or the window has at least a second and either the limit is one or truncation takes at most one millisecond of it |
| `RateLimiter.PartSecondsAdmitMore` | backend/internal/auth/rate_limit.go:32-32 | an instance of the failure: with a window of 1.5 seconds and a limit of 2, five requests are admitted within 1.5 seconds |
| `RateLimiter.WindowAdmitsExactly` | backend/internal/auth/rate_limit.go:45-45 | of the n requests of a window so far exactly min(n, limit) were admitted |
| `RateLimiter.RetryIsWithinWindow` | backend/internal/auth/rate_limit.go:41-44 | the wait reported lies between one second and the window |
| `RateLimiter.RetryIsTheRemainingTime` | backend/internal/auth/rate_limit.go:38-44 | it is the time until the counter ends, to the nearest second, and the full window if that is none |
| `RateLimiter.ShortWindowsNeverLimit` | backend/internal/auth/rate_limit.go:32-32 | under one second the truncated expiry deletes the key at once, and no request is ever limited unless the limit is zero |
| `Rounding.RoundEvenMonotone` | ai-service/app/ranking/baseline.py:357-358 | rounding half to even never reverses an order |
| `Rounding.RoundingIsNearest` | ai-service/app/ranking/baseline.py:357-358 | both roundings give a number with that many decimals within half a unit of the last one |
| `Rounding.RoundsToIff` | ai-service/app/ranking/baseline.py:357-358 | n units of the last decimal are the result exactly if at most half a unit away; half way Python takes the even one, toFixed the upper one |
| `Rounding.RoundingKeepsUnit` | ai-service/app/ranking/baseline.py:357-358 | both roundings fix zero and one and keep the unit interval |
| `Rounding.ToFixedKeepsRounded` | frontend/app/api/ranking-test/route.ts:855-856 | what Python rounded, toFixed prints unchanged |
| `Scoring.PartialExperienceIsWorthMore` | ai-service/app/ranking/baseline.py:163-165 | below the minimum the curve gives at least the linear ratio and at most one |
| `Scoring.ExperienceMonotoneOnEachSide` | ai-service/app/ranking/baseline.py:157-173 | of two candidates on the same side of the threshold the one with more years is never assessed lower |
| `Scoring.ExperienceCliff` | ai-service/app/ranking/baseline.py:157-173 | across it the candidate short of the years is assessed higher exactly if the cube of that ratio exceeds the fifth power of the half step above the other's rounded score, or equals it and that score is odd in its last digit |
| `Scoring.ExperienceIsNotMonotone` | ai-service/app/ranking/baseline.py:157-173 | a concrete inversion: of two candidates for ten years, nine years are assessed above the 0.92 of ten |
| `Scoring.BestMatch` | ai-service/app/ranking/baseline.py:84-99 | the first entry with the largest token overlap, none if every overlap is zero |
| `Scoring.FindBestMatch` | ai-service/app/ranking/baseline.py:84-99 | the loop returns that entry and its overlap |
| `Scoring.AssessmentsAreShares` | ai-service/app/ranking/baseline.py:102-301 | for every valid requirement and candidate score and confidence lie in [0, 1], and the status is never "not met" |
| `ScoringRules.SkillIsAssessed` | ai-service/app/ranking/baseline.py:103-146 | met with 1 exactly if the first entry of that name has no fewer years than required; with fewer, their share, at least 0.2; a related skill alone gives 0.55; without either it is not found with 0; evidence is that of the entry found |
| `ScoringRules.ExperienceIsAssessed` | ai-service/app/ranking/baseline.py:148-173 | unknown without years; met from the minimum on, with 0.92 and up to 0.08 more for as much again; below it the power 0.6 of the share |
| `ScoringRules.ListedIsAssessed` | ai-service/app/ranking/baseline.py:175-235 | education among educations, certificates among certificates: the first entry with the largest share of the expected tokens decides, met from half on; unknown without entries, not found without a share |
| `ScoringRules.LanguageIsAssessed` | ai-service/app/ranking/baseline.py:237-273 | the first entry of that language decides by what its proficiency is worth, met from 0.6 on; unknown without languages, not found among others |
| `ScoringRules.TitleIsAssessed` | ai-service/app/ranking/baseline.py:275-301 | any other requirement is compared with the title: met from half of its name on, unknown without a title |
| `Ranking.FinalScoreMonotone` | ai-service/app/ranking/baseline.py:316-322 | pointwise better assessments never give a lower final score |
| `Ranking.AverageIsBetween` | ai-service/app/ranking/baseline.py:316-322 | the weighted average lies between any bounds on the scores, so the final score is a share |
| `Ranking.WeightsAreProportions` | ai-service/app/ranking/baseline.py:315-322 | scaling all weights by one positive factor changes no final score |
| `RankingRules.AverageMoves` | ai-service/app/ranking/baseline.py:316-322 | a changed score moves the average by its share of the total weight: with the bounds above, only the weighted mean does |
| `RankingRules.ConfidenceIsMean` | ai-service/app/ranking/baseline.py:323-323 | the confidence is the average of the assessments' confidences with equal weights |
| `Ranking.ScoreCandidate` | ai-service/app/ranking/baseline.py:311-366 | the loop over requirements computes the result that the lemmas speak of |
| `Ranking.EligibilityMeaning` | ai-service/app/ranking/baseline.py:330-353 | the constraint fails if and only if a hard requirement was not found, and a must-have gap exists if and only if a must-have is not met |
| `Ranking.EveryRequirementIsReported` | ai-service/app/ranking/baseline.py:330-345 | every requirement is reported exactly once, as strength, gap or unknown |
| `RankingRules.ListsAreByStatus` | ai-service/app/ranking/baseline.py:330-345 | strengths are the requirements met, unknowns those without data, gaps all others, each in request order |
| `RankingRules.ResultIsOfItsAssessments` | ai-service/app/ranking/baseline.py:311-366 | a result has its candidate's id and assessments, their weighted score and mean confidence, the three lists, and is failed, potential or eligible exactly by a missing hard requirement or an unmet must-have |
| `RankingRules.HardSkillDecides` | ai-service/app/ranking/baseline.py:103-146 | a candidate without a hard skill and its relatives fails the constraint; one who lists it with the years asked for does not fail for it and has it as a strength |
| `Ranking.ScoresAreShares` | ai-service/app/ranking/baseline.py:314-323 | final score and confidence of a valid request lie in [0, 1] |
| `Ranking.KeyIsTotal` | ai-service/app/ranking/baseline.py:373-373 | the sort key is a total preorder that ties only equal ids |
| `Ranking.AssignRanks` | ai-service/app/ranking/baseline.py:374-375 | the loop sets rank i + 1 at position i and changes nothing else |
| `Ranking.RankCandidates` | ai-service/app/ranking/baseline.py:369-380 | scoring, sorting and rank assignment give the ranking that the lemmas speak of |
| `Ranking.RankingIsAnOrder` | ai-service/app/ranking/baseline.py:369-380 | the output is a permutation of the scored input, strictly ordered by (score desc, confidence desc, id), with ranks 1..n |
| `RankingRules.BestComesFirst` | ai-service/app/ranking/baseline.py:369-380 | higher score first, then higher confidence, then the id that is first by code point; rank and place agree, every result is some candidate's and every candidate has one |
| `Ranking.InputOrderIsIrrelevantIffTieFree` | ai-service/app/ranking/baseline.py:369-380 | every arrangement of the candidates is ranked identically if and only if no two different results tie |
| `Ranking.DistinctIdsRankTheSame` | ai-service/app/ranking/baseline.py:369-380 | with distinct ids the ranking is the same for every permutation of the candidates |
| `StableSort.SortSorts` | ai-service/app/ranking/baseline.py:373-373 | the result is in order and has exactly the elements of the input |
| `StableSort.SortIsStable` | frontend/app/api/ranking-test/route.ts:873-877 | tied elements keep the order they came in |
| `StableSort.SortIgnoresOrderIffTieFree` | ai-service/app/ranking/baseline.py:373-373 | all rearrangements of an input sort alike if and only if no two different elements tie |
| `Rerank.BuildAiRanking` | frontend/app/api/ranking-test/route.ts:836-887 | indexing the payload, merging, sorting and ranking give the result that the lemmas speak of: as many results as the baseline, best first, ranked 1..n, all numbers shares |
| `Rerank.IndexPayload` | frontend/app/api/ranking-test/route.ts:838-842 | the map built from the payload holds the last named entry of each candidate and nothing else |
| `Rerank.MergeIsConservative` | frontend/app/api/ranking-test/route.ts:844-880 | for every payload each baseline result is kept exactly once and no other appears, all numbers are shares, ranks are 1..n, the order is by score, confidence, baseline rank |
| `Rerank.PayloadNumbersAreTaken` | frontend/app/api/ranking-test/route.ts:838-856 | a finite score or confidence of the last entry for a candidate, clamped to [0, 1], is what that candidate gets, to six decimals |
| `Rerank.EntryIsMerged` | frontend/app/api/ranking-test/route.ts:853-871 | a candidate that the payload names gets eligibility, the first few of each list, score and confidence of its last entry, each where given and the baseline's otherwise |
| `Rerank.AssessmentIsMerged` | frontend/app/api/ranking-test/route.ts:862-870 | an assessment keeps key and evidence; status, score and confidence are those of the last entry for its key, each where given |
| `Rerank.MergedComeInOrder` | frontend/app/api/ranking-test/route.ts:873-880 | results come by score, then by confidence, both descending, then by the rank their candidates had in the baseline |
| `Rerank.LeftAloneKeepsOrder` | frontend/app/api/ranking-test/route.ts:873-877 | two candidates for whom the payload has no finite score and confidence keep their baseline order |
| `Rerank.ScorerOutputIsOk` | ai-service/app/ranking/baseline.py:369-380 | the scorer's response meets what the merge relies on: order, ranks, distinct ids, shares with their decimals |
| `Rerank.UnmentionedRankingIsUnchanged` | frontend/app/api/ranking-test/route.ts:836-887 | across both services: a payload that mentions no ranked candidate, the empty one included, reproduces the scorer's ranking entirely |
| `DemoStore.StoreIsTruncatedHistory` | frontend/app/api/ranking-test/route.ts:296-304 | after any saves since a reset the store is the first 30 of the whole history, newest first, older copies of each id removed |
| `DemoStore.RestartsLoseOnlyDocuments` | frontend/app/api/ranking-test/route.ts:245-282 | restarting the process anywhere in a run of saves and resets loses nothing but the documents themselves |
| `DemoStore.StripLosesOnlyDocuments` | frontend/app/api/ranking-test/route.ts:245-256 | a stored job keeps every field of every CV but the document itself, and the preview flag remembers that there was one |
| `DemoStore.UploadKeepsNumbering` | frontend/app/api/ranking-test/route.ts:423-492 | an upload keeps CV numbers a permutation of 1..n, each CV filed under its own number, and the count of parsed CVs right |
| `DemoStore.UploadStoresAnalyses` | frontend/app/api/ranking-test/route.ts:423-492 | an upload puts one CV for each file in front, in order: parsed exactly if its analysis succeeded, with the title, years, skills and name of that analysis; educations, certificates and languages are not kept; everything else of the job stays |
| `DemoStore.UploadAddsProfiles` | frontend/app/api/ranking-test/route.ts:889-892 | after an upload the scorer gets the profiles of the files that were parsed, then those it got before |
| `DemoStore.ParsedCvIsScored` | frontend/app/api/ranking-test/route.ts:889-892 | the scorer gets the profile of every parsed CV once, in order |
| `DemoStore.UploadsNumberEveryCv` | frontend/app/api/ranking-test/route.ts:982-988 | so it is after any sequence of uploads to a new job |
| `DemoStore.EveryJobStaysNumbered` | frontend/app/api/ranking-test/route.ts:963-1000 | and in every job of the store after any run of creations, uploads, rankings, resets and restarts |
| `DemoStore.CandidateIdsAreDistinct` | frontend/app/api/ranking-test/route.ts:889-892 | the profiles sent to the scorer have distinct ids |
| `DemoStore.RunShowsEachCvItsOwnSummary` | frontend/app/api/ranking-test/route.ts:503-530 | every entry of a run shows the result that was scored, and the summary of the very CV that was scored for it, whatever the AI answered |
| `DemoStore.RunFollowsScorer` | frontend/app/api/ranking-test/route.ts:898-905 | without an answer of the AI a run is the scorer's ranking of the parsed CVs; with one every entry is a result of that ranking with the payload merged in |
| `DemoStore.AnalyzeFiles` | frontend/app/api/ranking-test/route.ts:419-501 | the stored CVs, and accepted and failed counts that add up to the batch |
| `DemoStore.Store.SaveJob` | frontend/app/api/ranking-test/route.ts:296-304 | the job in front, older copies of its id removed, 30 kept, and the disk in step; numbering survives in every job if the new one has it |
| `DemoStore.Store.Reset` | frontend/app/api/ranking-test/route.ts:284-294 | memory and disk empty |
| `DemoStore.Store.Restart` | frontend/app/api/ranking-test/route.ts:267-282 | the store read back is the one in memory without documents; numbering is kept in every job |
| `DemoStore.Store.UploadCvs` | frontend/app/api/ranking-test/route.ts:971-991 | the three refusals change nothing; otherwise the job is saved with the new CVs as analysed, and numbering is kept in every job |
| `DemoStore.Store.RankJob` | frontend/app/api/ranking-test/route.ts:889-914 | the three refusals (no such job, no parsed CV, a request the scorer does not accept) change nothing; otherwise the job is saved with the run of its scores; numbering is kept in every job |
| `JobVersions.SnapshotsStayTrue` | backend/internal/ranking/handler.go:286-335 | under every interleaving of reads, scoring and replacements a run, once inserted, never changes, and its snapshot is for ever what its job version requires |
| `JobVersions.WeightsMatchSnapshot` | backend/internal/ranking/handler.go:549-580 | in a snapshot keys are distinct and the weight snapshot gives each requirement its own weight |
| `JobVersions.VersionsAreConsecutive` | backend/internal/job/handler.go:270-316 | the versions of a job are exactly 1..current_version, in order, and the current one of a live job exists |
| `JobVersions.ReplacementsNeverClash` | backend/internal/job/handler.go:262-269 | renumbered keys never violate the uniqueness of keys in a version |
| `JobVersions.JobStore.InsertRequirements` | backend/internal/job/handler.go:411-444 | the rows added are those of the valid requirements, each once and in order; it fails exactly if two of them share a key |
| `JobVersions.JobStore.Create` | backend/internal/job/handler.go:120-180 | done exactly if no two valid requirements share a key: a job with version 1, which has the row of each valid requirement, once and in order, unchanged; otherwise nothing at all |
| `JobVersions.JobStore.Replace` | backend/internal/job/handler.go:247-339 | done exactly for one to a hundred valid requirements of a live job: the next version keeps the description and has each requirement in order under R and its number, otherwise unchanged; a refusal changes nothing |
| `JobVersions.JobStore.ReadVersion` | backend/internal/ranking/handler.go:289-300 | for a live job it reads the row of the newest version there is at that moment; nothing else changes |
| `JobVersions.SelectRequirements` | backend/internal/ranking/handler.go:301-330 | the query yields exactly the requirements of the version's rows, in key order |
| `JobVersions.JobStore.ReadRequirements` | backend/internal/ranking/handler.go:301-330 | it reads each requirement of the version read before exactly once, in key order, whatever has been added since; a version without any ends the request |
| `JobVersions.JobStore.Persist` | backend/internal/ranking/handler.go:549-580 | exactly a scored request adds one run, with its job, version, the requirements read and their weights |
| `ResumeUpload.ProcessIsSound` | backend/internal/resume/handler.go:134-313 | one file keeps: candidate, resume and file rows in step, contents distinct per workspace, links distinct and to the candidate's own resume; nothing stored is changed |
| `ResumeUpload.FileFailsIff` | backend/internal/resume/handler.go:134-193 | a file fails exactly if its kind is not supported, it is empty or over 10 MiB, or its content is new and its analysis fails; it is a duplicate exactly if it may be read and the workspace has its content |
| `ResumeUpload.ResendingStoresNothing` | backend/internal/resume/handler.go:109-128 | after a batch, sending any selection of its files again to the job, in any order and number, stores nothing |
| `ResumeUpload.AcceptedIsNeverStoredAgain` | backend/internal/resume/handler.go:109-193 | its accepted files store nothing when sent to the job again after any later run of uploads to any jobs and workspaces |
| `ResumeUpload.AcceptedContentIsStoredOnce` | backend/internal/resume/handler.go:162-193 | an accepted file is exactly one stored content of the workspace, whose candidate is linked to the job; new content is stored under its name with the profile of its analysis |
| `ResumeUpload.WorkspaceStoresWhatItAccepted` | backend/internal/resume/handler.go:109-128 | after any run of uploads to any jobs and workspaces the contents stored for a workspace are those it had and those accepted for it, with exactly one candidate each |
| `ResumeUpload.JoinIsOneRowPerLink` | backend/internal/ranking/handler.go:337-350 | the join over links, candidates, resumes and files yields one row per link, with the candidate's own resume and file |
| `ResumeUpload.EveryLinkedCandidateIsScoredOnce` | backend/internal/ranking/handler.go:337-350 | scoring sees every candidate linked to the job, each once, and no other |
| `ResumeUpload.LoadCandidates` | backend/internal/ranking/handler.go:355-371 | the position recorded for a candidate is where that candidate stands |
| `ResumeUpload.ResumeStore.ProcessFile` | backend/internal/resume/handler.go:134-313 | tables and item after one file are those of the transition |
| `ResumeUpload.ResumeStore.BulkUpload` | backend/internal/resume/handler.go:70-132 | the three refusals change nothing; otherwise every file is processed in order, accepted and failed add up and failed counts the failures |
| `Experience.EstimateYears` | ai-service/app/parsing/mvp.py:240-269 | the estimate is the number of years that the accepted ranges cover and the offset of the first of them; none if they cover no year |
| `Experience.MergeRanges` | ai-service/app/parsing/mvp.py:261-267 | the merged ranges have gaps between them and cover exactly the years that the sorted ranges cover |
| `Experience.AcceptedRanges` | ai-service/app/parsing/mvp.py:244-258 | the loop over the matches keeps exactly the acceptable ranges, in order, and the offset of the first |
| `Experience.SpacedTotal` | ai-service/app/parsing/mvp.py:268-268 | adding up ranges with gaps between them counts every covered year once |
| `Experience.CountedYears` | ai-service/app/parsing/mvp.py:254-256 | a year is counted if and only if an accepted range spans it, and lies between 1970 and this year |
| `Experience.EstimateCountsYears` | ai-service/app/parsing/mvp.py:240-269 | the estimate is the number of years that some range from 1970 to next year spans, a range up to today ending this year, at the offset of the first such range; none without such years |
| `Experience.OrderAndRepetitionDoNotCount` | ai-service/app/parsing/mvp.py:261-268 | reordering or repeating ranges changes no years of the estimate |
| `Experience.EstimateIsBounded` | ai-service/app/parsing/mvp.py:254-269 | the estimate is at least 1 and at most current_year + 1 - 1970 |
| `Pages.ParsePages` | ai-service/app/parsing/mvp.py:199-225 | the loop gives the joined text and the page offsets that the lemmas speak of, or an error when no page has text |
| `Pages.SliceIsPage` | ai-service/app/parsing/mvp.py:204-219 | slicing the text at a page's offsets returns that page's text |
| `Pages.DocumentIsItsPages` | ai-service/app/parsing/mvp.py:199-225 | pages are numbered from one, each with its text, standing at its offsets, one newline apart, together the whole text |
| `Pages.EveryOffsetHasOnePage` | ai-service/app/parsing/mvp.py:165-169 | every offset from 0 to the length of the text lies in exactly one page, the one looked up; beyond there is none |
| `Pages.ExcerptsAreVerbatim` | ai-service/app/parsing/mvp.py:152-162 | an excerpt is a verbatim part of the text of at most 500 characters, 0 <= start <= end <= len(text), with only white space between start and the excerpt |
| `Pages.ExcerptIsOfItsLine` | ai-service/app/parsing/mvp.py:152-162 | the excerpt is what the line of the offset, or around a blank line the 100 characters before and 200 after, leaves without white space at either end, up to 500 characters |
| `Pages.CitationEnclosesExcerptIffItFits` | ai-service/app/parsing/mvp.py:152-162 | the excerpt lies within its own [start, end) if and only if the line has no leading white space, or white space and text together fit 500 characters |
| `Pages.LongIndentedLineOverruns` | ai-service/app/parsing/mvp.py:480-480 | a concrete job description whose excerpt, cited for its first word, ends beyond what is cited for it |
| `Pages.CitedPageHoldsExcerptIff` | ai-service/app/parsing/mvp.py:172-181 | the excerpt, where it was found, lies in the page cited for it if and only if its line is not blank or the stripped window ends in that page |
| `Pages.CitedPageContainsExcerpt` | ai-service/app/parsing/mvp.py:172-181 | so unless its line is blank, an excerpt is cited with a page that contains it |
| `Pages.PassedOffsetIsCitedRightlyIff` | ai-service/app/parsing/mvp.py:425-426 | for the offsets that the extraction passes (on a line with text, or 0 when there is no line to cite) and stripped pages, the excerpt lies in the page cited for it if and only if the offset is not 0 or the first page has text |
| `Pages.EmptyFirstPageIsCitedWrongly` | ai-service/app/parsing/mvp.py:425-426 | a concrete document, an empty page and a name: the empty page is cited for the name |
| `PdfText.EscapeByCharacter` | scripts/generate-ranking-fixtures.py:414-415 | the three replacements escape each character on its own; none touches what an earlier one wrote |
| `PdfText.LiteralIsReadBack` | scripts/generate-ranking-fixtures.py:414-415 | a reader of ISO 32000-1, section 7.3.4.2, gets the text in UTF-8 with line ends as line feeds, and stops at the closing parenthesis |
| `PdfText.LiteralRoundTrip` | scripts/generate-ranking-fixtures.py:414-415 | it gets the original text if and only if that has no carriage return |
| `PdfText.CarriageReturnIsNotReadBack` | scripts/generate-ranking-fixtures.py:414-415 | a concrete text: a carriage return between two letters comes back as a line feed |
| `PdfFile.WriteObjects` | scripts/generate-ranking-fixtures.py:510-514 | the objects in order, and for each the byte at which it begins |
| `PdfFile.WriteEntries` | scripts/generate-ranking-fixtures.py:517-518 | one entry per recorded offset, in order |
| `PdfFile.MakePdf` | scripts/generate-ranking-fixtures.py:510-520 | the whole file in bytes: objects, table, trailer, offset of the table |
| `PdfFile.TablePointsAtItsObjects` | scripts/generate-ranking-fixtures.py:510-520 | a reader that follows startxref and entry k (ISO 32000-1, sections 7.5.4 and 7.5.5) lands on the bytes "k 0 obj" of object k, whenever its offset fits ten digits |
| `PdfFile.StreamIsReadBack` | scripts/generate-ranking-fixtures.py:508-508 | the announced length is the length in bytes: a reader takes exactly the stream |
| `PdfFile.ReaderReachesStream` | scripts/generate-ranking-fixtures.py:501-520 | end to end: from the end of the file over the table to a stream object, a reader gets the bytes of that stream |
| `PdfFile.TrailerIsRead` | scripts/generate-ranking-fixtures.py:519-519 | behind the table that startxref leads to, a reader finds the trailer with one entry more than objects and object 1 as catalogue |
| `PdfFile.FileIsFramed` | scripts/generate-ranking-fixtures.py:502-517 | the file begins with its version, and the table has one entry more than objects, the first heading the free list |
| `Decimal.ReadPadded` | scripts/generate-ranking-fixtures.py:518-518 | a number printed with leading zeros reads back as itself |
| `Decimal.PrintInjective` | frontend/app/api/ranking-test/route.ts:426-426 | different numbers print differently, so ids made from them differ |

## Left out

Assumptions of the auth model:

- Serialisation: every handler is one atomic step. That includes the membership check that `createInvitation` runs before its transaction (backend/internal/auth/invitations.go:89-107) and the admin count that takes no lock (backend/internal/auth/members.go:246-264); two of them interleaved could break the rules proved here.
- One clock that never goes back; the database's `now()` and the service's clock are the same instant within a step.
- Fresh values: row ids, family ids and invitation links are never drawn twice, and a link or token is found by its own hash only. Hashes, passwords, JWT signatures and the expiry of access tokens are not modelled: `passwordMatches` and the claims of a request are inputs, and claims may be arbitrary.
- A refresh or verification token is presented by its row; an unknown token is a row that does not exist.
- E-mail addresses are normalised before they arrive; two are equal if and only if the strings are.
- Rows created in the same instant are ordered by insertion where the query orders by `created_at`.

Of the auth component:

- Validation of names, passwords and role strings, JSON decoding, problem responses, cookies, e-mail, audit rows, listing and inspecting.
- The rate limits inside the handlers: a refused request is a step that changes nothing. Which limit belongs to which route is not modelled; all of them pass windows of whole seconds.
- Users, workspaces and members are never deleted by the modelled handlers except through removal; deleting and disabling enter as outside edits.

Of the rate limiter:

- Errors of the Redis client, eviction of keys, and a clock that goes back.

Of ranking:

- Floats: scores are exact reals, so results hold up to the rounding of binary arithmetic.
- Regular expressions, token extraction, skill names and aliases, the table of related skills and the table of proficiency words: their results are inputs of a requirement or candidate.
- Texts of strengths, gaps and unknowns: each is the key of its requirement.
- Prompts, model calls, retries and the choice of candidates sent to the model: the payload is arbitrary. Payloads whose shape makes the merge throw are not representable (an entry that is null, a result list without a filter method), nor is a string in place of a list of texts, which the code cuts and passes on as a string.

Of the demo store:

- Failures to write the file (the code warns and goes on), so memory and disk agree after every save; timestamps, run ids and preview files.
- Interleaving of asynchronous requests: each action is one step.
- Creating a job by parsing a description; a new job starts without CVs and under the id it is given.

Of jobs and resumes:

- Role checks of jobs and rankings, and their workspace filter: the job store is that of one workspace.
- Collation: requirement keys are ordered by code point.
- Ranking results, explanations and the candidates of a run; what the scorer returns is the subject of `Ranking`.
- `deleted_at` of candidates, resumes and files, which no handler writes, a job deleted between uploads, and changes of a candidate's status; every stored resume is ready, as it is inserted.
- A checksum stands for the content: SHA-256 is taken to be injective. Analysis is a function of file name and bytes, as resending an unchanged file supposes; parse runs, skills and evidence rows, object storage and a failing database are not modelled.
- One upload is processed at a time: two uploads of the same content at once could store it twice, since no constraint forbids it.

Of parsing and printing:

- PDF and DOCX text extraction, and all patterns: page texts and matches are inputs; years are those the pattern yields.
- The digest in an evidence id.
- Layout of the fixture page: its content stream is an arbitrary string, its objects an arbitrary list.
- `PdfFile.TablePointsAtItsObjects`: says nothing of an object that begins beyond byte 9999999999; such an entry no longer has 20 bytes.

Not modelled at all: the background job queue (only a schema), the web pages, speech, copilot and health services.

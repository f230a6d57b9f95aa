# PollWave — a verified model of the poll and vote core

PollWave is an Angular/Firebase polling application. Signed-in users create
polls with a question and a list of options. They vote once per poll, open or
close their own polls, delete them together with their votes, and report
polls. The pages built on this show:

- per-option percentages and voter lists;
- a searchable, filterable poll list;
- an administrator's analytics summary and poll table;
- user initials;
- login and registration error messages.

This project models that core in Dafny and proves properties of the model.

- `models.dfy` (module `Models`): the records `User`, `PollOption`, `Poll`,
  `Vote` and `Report`, plus JavaScript's `||`-defaults (`TotalOrZero`,
  `Truthy`) and the option lookup `OptionIndex` (`findIndex`).
- `text.dfy` (module `Text`): the string operations the components use.
  These are `trim`, ASCII `toLowerCase`/`toUpperCase`, `includes`, and
  `split(' ')` with its first and last piece.
- `poll_service.dfy` (module `Polls`): the poll service. The store is a map
  from poll id to poll plus the vote ledger. Each service method is a pure
  step function on the store value (`CreateStep`, `VoteStep`, `ToggleStep`,
  `DeleteStep`). The class `PollService` performs the same steps in place:
  it assigns its `polls`, `votes` fields, and it walks the ledger in a loop
  for the delete cascade. Each of its methods is proved equal to its step
  function.
  - The store invariant `Consistent` has three parts:
    - every vote row names an existing poll;
    - no user has two rows on one poll;
    - for every poll, `totalVotes`, the sum of the option counts and the
      number of its ledger rows agree, and each option's count is the
      number of rows naming it.
  - Every operation is proved to preserve `Consistent`.
- `vote_service.dfy` (module `Votes`): the ledger queries `hasUserVoted`,
  `getUserVote` and `getPollVotes`.
- `report_service.dfy` (module `Reports`): `reportPoll` (check, then append)
  and `getReportsForPoll`, with the "one report per user and poll" invariant.
- `poll_details.dfy` (module `PollDetails`): the poll page, covering
  - percentages and bar colours;
  - per-option voter names;
  - the user's own vote;
  - the creator flag;
  - vote submission through the service.
- `create_poll.dfy` (module `CreatePoll`): form validation, adding and
  removing options, and submission of the non-blank options.
- `list_polls.dfy` (module `ListPolls`): the search and status filter.
- `admin_analytics.dfy` (module `Analytics`): the snapshot aggregation
  (counts, total votes, votes per category).
- `admin_polls.dfy` (module `AdminPolls`): user name and e-mail lookup, and
  the toggle and delete buttons with their busy flags.
- `user_profile.dfy` (module `UserProfile`): `getUserInitials`.
- `login.dfy`, `register.dfy` (modules `Login`, `Register`): the form guards
  and the error-code-to-message maps.

Integers are unbounded. JavaScript numbers never exceed 2^53 in this
application, so no wrap-around is modelled. The percentage is computed in
exact integer arithmetic (see "Left out").

## Model

| member | source | states |
|---|---|---|
| Models.OptionIndex | src/app/services/poll.service.ts:186-189 | `findIndex` on option ids: -1 exactly when no option has the id, otherwise the first position holding it |
| Models.SumVotesIncrement | src/app/services/poll.service.ts:191-197 | adding one vote to any single option raises the sum of option counts by exactly one |
| Text.TrimStart | src/app/components/poll/create-poll/create-poll.component.ts:225 | the result is a suffix of the input, and everything cut off in front of it is whitespace; it is empty exactly when the input is blank, and otherwise does not start with whitespace |
| Text.TrimEnd | src/app/components/poll/create-poll/create-poll.component.ts:225 | the result is a prefix of the input, and everything cut off behind it is whitespace; it is empty exactly when the input is blank, and otherwise does not end with whitespace |
| Text.Trim | src/app/components/poll/create-poll/create-poll.component.ts:225 | `trim()` is a contiguous piece of the input with only whitespace before and after it; it is empty exactly when every character is whitespace, and otherwise neither starts nor ends with whitespace |
| Text.TrimIsPiece | src/app/components/poll/create-poll/create-poll.component.ts:225 | trimming the front and then the back leaves a piece of the input framed by whitespace on both sides |
| Text.BlankFramed | src/app/components/poll/create-poll/create-poll.component.ts:225 | a suffix after blanks, cut to a prefix before blanks, is a piece of the input framed by blanks |
| Text.ToLower | src/app/components/poll/list-polls/list-polls.component.ts:230-234 | `toLowerCase()`: same length, no upper-case ASCII letter left, each upper-case letter replaced by its lower-case one (code point plus 32), every other character kept |
| Text.ToUpper | src/app/components/user/user-profile/user-profile.component.ts:302-305 | `toUpperCase()`: same length, no lower-case ASCII letter left, each lower-case letter replaced by its upper-case one (code point minus 32), every other character kept |
| Text.Contains | src/app/components/poll/list-polls/list-polls.component.ts:233-234 | `includes`: true exactly when the needle occurs at some position of the text |
| Text.IndexOfSpace | src/app/components/user/user-profile/user-profile.component.ts:300 | -1 exactly when there is no space, otherwise the position of the first space |
| Text.LastIndexOfSpace | src/app/components/user/user-profile/user-profile.component.ts:305 | -1 exactly when there is no space, otherwise the position of the last space |
| Text.SplitSpace | src/app/components/user/user-profile/user-profile.component.ts:300 | `split(' ')` always yields at least one piece |
| Text.SplitPiecesHaveNoSpace | src/app/components/user/user-profile/user-profile.component.ts:300 | no piece of `split(' ')` holds a space |
| Text.SplitThenJoin | src/app/components/user/user-profile/user-profile.component.ts:300 | joining the pieces of `split(' ')` with single spaces gives the text back |
| Text.JoinThenSplit | src/app/components/user/user-profile/user-profile.component.ts:300 | splitting space-free pieces joined with single spaces gives the pieces back |
| Text.SplitSingleIffNoSpace | src/app/components/user/user-profile/user-profile.component.ts:300-303 | `split(' ')` yields a single piece exactly when the text has no space |
| Text.SplitFirst | src/app/components/user/user-profile/user-profile.component.ts:305 | the first piece of `split(' ')` is the text before the first space |
| Text.SplitLast | src/app/components/user/user-profile/user-profile.component.ts:305 | the last piece of `split(' ')` is the text after the last space |
| Text.LastSpaceUnique | src/app/components/user/user-profile/user-profile.component.ts:305 | a space with no space after it is the last space |
| Text.LastWordAt | src/app/components/user/user-profile/user-profile.component.ts:305 | the text after a space with no space after it is the last word |
| Text.NoSpaceAfter | src/app/components/user/user-profile/user-profile.component.ts:305 | when nothing after a space is a space, the last word of the whole text and of the rest are that rest |
| Text.LastWordAfterFirstSpace | src/app/components/user/user-profile/user-profile.component.ts:305 | dropping everything up to a space does not change the last word |
| Votes.HasUserVoted | src/app/services/vote.service.ts:20-34 | true exactly when some ledger row has this poll id and this user id |
| Votes.GetUserVote | src/app/services/vote.service.ts:36-62 | none exactly when no row matches; otherwise the first matching row in ledger order |
| Votes.GetUserVoteIffVoted | src/app/services/vote.service.ts:20-62 | `getUserVote` finds a row exactly when `hasUserVoted` is true |
| Votes.GetPollVotes | src/app/services/vote.service.ts:64-83 | the result holds exactly the ledger rows of the poll and is no longer than the ledger |
| Votes.GetPollVotesSnoc | src/app/services/vote.service.ts:64-83 | appending a row extends the poll's rows by that row when it names the poll, and leaves them alone otherwise |
| Votes.GetPollVotesAppend | src/app/services/vote.service.ts:64-83 | the query distributes over concatenation, so the rows come out in ledger order |
| Polls.WithoutPoll | src/app/services/poll.service.ts:266-275 | the ledger after the cascade holds exactly the rows of other polls |
| Polls.CreateStep | src/app/services/poll.service.ts:57-85 | succeeds exactly when a user is signed in, then returning the assigned id, adding that one poll id and leaving the ledger alone; a failure changes nothing |
| Polls.VoteStep | src/app/services/poll.service.ts:156-213 | a failure changes nothing; poll ids never change; a success needs a user and appends that user's row for the poll and option |
| Polls.ToggleStep | src/app/services/poll.service.ts:215-242 | the ledger and the poll ids never change; a failure changes nothing; a success flips the poll's `isActive` |
| Polls.DeleteStep | src/app/services/poll.service.ts:244-280 | a failure changes nothing; a success removes exactly the poll id and exactly the rows naming it |
| Polls.Consistent | src/app/services/poll.service.ts:191-208 | the store invariant (no orphaned row, one row per user and poll, tallies agree); it implies that every poll's `totalVotes` is its number of ledger rows |
| Polls.EmptyConsistent | src/app/services/poll.service.ts:30-37 | the empty store satisfies the store invariant |
| Polls.VoterCountSnoc | src/app/services/poll.service.ts:202-208 | appending a row adds one to a (poll, user) count exactly when the row is by that user on that poll |
| Polls.OptionCountSnoc | src/app/services/poll.service.ts:202-208 | appending a row adds one to a (poll, option) count exactly when the row names that poll and option |
| Polls.VotedIffCounted | src/app/services/poll.service.ts:163-172 | the duplicate-vote query succeeds exactly when the user's row count on the poll is positive |
| Polls.OptionCountNoRows | src/app/services/poll.service.ts:70-79 | a poll id no row names has zero rows for every option |
| Polls.PollVotesNoRows | src/app/services/poll.service.ts:70-79 | a poll id no row names has no rows |
| Polls.NewOptionsSumZero | src/app/services/poll.service.ts:64-68 | freshly created options sum to zero votes |
| Polls.WithoutPollKeepsOthers | src/app/services/poll.service.ts:266-275 | the cascade leaves the rows of every other poll exactly as they were, in order |
| Polls.WithoutPollOptionCount | src/app/services/poll.service.ts:266-275 | the cascade keeps every option count of every other poll |
| Polls.WithoutPollVoterCount | src/app/services/poll.service.ts:266-275 | the cascade never raises a (poll, user) row count |
| Polls.CreateStepEffect | src/app/services/poll.service.ts:57-85 | no user: fails and changes nothing. Otherwise the new poll has the question, one option per text in order, each with its id and zero votes; it is active, has a zero total and belongs to the caller; it stores no anonymity flag or category; other polls and the ledger are unchanged |
| Polls.CreatePreservesConsistent | src/app/services/poll.service.ts:57-85 | creating a poll under a fresh id with distinct option ids keeps the store invariant |
| Polls.VoteRejections | src/app/services/poll.service.ts:156-189 | rejections in the source's order: not signed in, already voted, poll not found, poll closed, option not found (exactly when no option has the id); a rejected vote changes nothing |
| Polls.VoteSucceedsIff | src/app/services/poll.service.ts:156-189 | a vote succeeds exactly when the user is signed in, has no row on the poll, and the poll exists, is open and has the option |
| Polls.VoteSuccessEffect | src/app/services/poll.service.ts:191-208 | a successful vote adds one to the chosen option and to the total. Every other option, every other poll and the question, creator and status are unchanged. Exactly one row (poll, option, uid, display name) is appended |
| Polls.VoteSuccessShape | src/app/services/poll.service.ts:191-208 | a successful vote's new store is the poll with the found option tallied, plus the ledger with the vote row appended |
| Polls.TalliedAgrees | src/app/services/poll.service.ts:191-208 | tallying one option while appending one row of the poll keeps total, option sum and row count equal |
| Polls.OtherPollTallied | src/app/services/poll.service.ts:202-208 | a row on another poll leaves a poll's tally correct |
| Polls.VotedPollTallied | src/app/services/poll.service.ts:191-208 | tallying the chosen option and appending its row keeps every option count equal to its rows |
| Polls.VotePreservesTally | src/app/services/poll.service.ts:191-208 | if total, option sum and row count of the poll agree before a successful vote, they agree after it |
| Polls.SecondVoteRejected | src/app/services/poll.service.ts:163-172 | after a successful vote, any further vote by the same user on the same poll fails as a repeat |
| Polls.VotePreservesConsistent | src/app/services/poll.service.ts:156-213 | voting, successful or not, keeps the store invariant |
| Polls.ToggleEffect | src/app/services/poll.service.ts:215-242 | fails for no user, a missing poll or a caller who is not the creator (exactly then), changing nothing; otherwise flips only `isActive` |
| Polls.ToggleTwiceRestores | src/app/services/poll.service.ts:235-237 | two successful toggles in a row restore the store |
| Polls.TogglePreservesConsistent | src/app/services/poll.service.ts:215-242 | toggling keeps the store invariant |
| Polls.DeleteEffect | src/app/services/poll.service.ts:244-280 | fails for no user, a missing poll or a non-creator (exactly then), changing nothing. Otherwise the poll and all its rows are gone, and every other poll and the rows of every other poll are kept |
| Polls.DeletePreservesConsistent | src/app/services/poll.service.ts:244-280 | deleting keeps the store invariant (no orphaned rows) |
| Polls.FindOptionIndex | src/app/services/poll.service.ts:186 | the loop returns the `findIndex` result |
| Polls.PollService.constructor | src/app/services/poll.service.ts:29-37 | the service starts with an empty store, which is consistent |
| Polls.PollService.GetPoll | src/app/services/poll.service.ts:87-106 | a poll comes back exactly when its id is stored, carrying that id and the stored options, creator and status |
| Polls.PollService.CreatePoll | src/app/services/poll.service.ts:57-85 | result and new store are those of `CreateStep`; the invariant is kept |
| Polls.PollService.Vote | src/app/services/poll.service.ts:156-213 | result and new store are those of `VoteStep`; the invariant is kept |
| Polls.PollService.TogglePollStatus | src/app/services/poll.service.ts:215-242 | result and new store are those of `ToggleStep`; the invariant is kept |
| Polls.PollService.DeletePoll | src/app/services/poll.service.ts:244-280 | the cascade loop's result and new store are those of `DeleteStep`; the invariant is kept |
| Reports.HasReported | src/app/services/report.service.ts:15-17 | true exactly when a report with this poll and this reporter exists |
| Reports.GetReportsForPoll | src/app/services/report.service.ts:40-52 | exactly the reports of the poll, no more than all reports |
| Reports.ReportStep | src/app/services/report.service.ts:12-24 | a failure changes nothing; a success needs a user with no earlier report on the poll and appends exactly that user's report |
| Reports.ReportStepEffect | src/app/services/report.service.ts:12-24 | no user: fails; an existing report by the user on the poll: fails as already reported; a failure changes nothing; success appends exactly the report (poll, uid, reason) |
| Reports.SecondReportRejected | src/app/services/report.service.ts:15-17 | after a successful report, a second one by the same user on the same poll fails |
| Reports.ReportPreservesOneEach | src/app/services/report.service.ts:12-24 | reporting keeps at most one report per user and poll |
| Reports.ReportsForPollAppend | src/app/services/report.service.ts:40-52 | the poll filter distributes over appending one report |
| Reports.ReportService.constructor | src/app/services/report.service.ts:8-10 | the service starts with no reports |
| Reports.ReportService.ReportPoll | src/app/services/report.service.ts:12-24 | result and new report list are those of `ReportStep`; one report per user and poll is kept |
| PollDetails.GetPercentage | src/app/components/poll/poll-details/poll-details.component.ts:738-744 | zero when there is no poll or its total is absent or zero |
| PollDetails.PercentageRoundsHalfUp | src/app/components/poll/poll-details/poll-details.component.ts:743 | the result r is 100·votes/total rounded half up: 2·total·r ≤ 200·votes + total < 2·total·(r+1) |
| PollDetails.PercentageAtMost100 | src/app/components/poll/poll-details/poll-details.component.ts:738-744 | the percentage never exceeds 100 while the option's votes do not exceed the total |
| PollDetails.GetBarColor | src/app/components/poll/poll-details/poll-details.component.ts:746-759 | the colour is always one of the eight palette entries |
| PollDetails.BarColorCycles | src/app/components/poll/poll-details/poll-details.component.ts:746-759 | the colour of index i+8 is the colour of index i, and index i < 8 gets palette entry i |
| PollDetails.FindOption | src/app/components/poll/poll-details/poll-details.component.ts:637 | none exactly when no option has the id, otherwise the first option with the id |
| PollDetails.IsCreatorOf | src/app/components/poll/poll-details/poll-details.component.ts:598 | the creator flag; a signed-out visitor is never the creator |
| PollDetails.CreatorFlagAgrees | src/app/components/poll/poll-details/poll-details.component.ts:598 | for a stored poll, the service's toggle and delete succeed exactly when the page's creator flag holds |
| PollDetails.VoterName | src/app/components/poll/poll-details/poll-details.component.ts:654 | never empty; the row's display name when it has one ('Anonymous' otherwise) |
| PollDetails.VotersFor | src/app/components/poll/poll-details/poll-details.component.ts:652-654 | no more names than rows, none of them empty |
| PollDetails.VotersForSnoc | src/app/components/poll/poll-details/poll-details.component.ts:652-654 | one more row adds its name at the end exactly when it names the option, so names come in ledger order |
| PollDetails.WithVoters | src/app/components/poll/poll-details/poll-details.component.ts:651-655 | one option per option, each given the voter names of its id |
| PollDetails.WithVotersKeepsOptions | src/app/components/poll/poll-details/poll-details.component.ts:651-655 | the voter lists change nothing else: ids, texts and counts are kept |
| PollDetails.VotersCountRows | src/app/components/poll/poll-details/poll-details.component.ts:651-654 | an option's voter list has exactly as many names as the ledger has rows for it |
| PollDetails.VotersMatchTally | src/app/components/poll/poll-details/poll-details.component.ts:651-654 | in a consistent store every voter list is as long as the option's vote count |
| PollDetails.VotedOptionShown | src/app/components/poll/poll-details/poll-details.component.ts:678-681 | after a successful vote the poll read back still exists and has the chosen option |
| PollDetails.PollDetailsComponent.constructor | src/app/components/poll/poll-details/poll-details.component.ts:524-573 | the initial field values; loading exactly when the route carries an id |
| PollDetails.PollDetailsComponent.ShowFullName | src/app/components/poll/poll-details/poll-details.component.ts:539-541 | the selected voter is set |
| PollDetails.PollDetailsComponent.CloseFullName | src/app/components/poll/poll-details/poll-details.component.ts:542-544 | the selected voter is cleared |
| PollDetails.PollDetailsComponent.SelectOption | src/app/components/poll/poll-details/poll-details.component.ts:663-665 | the selected option is set |
| PollDetails.PollDetailsComponent.FetchVotes | src/app/components/poll/poll-details/poll-details.component.ts:646-661 | with an id and a loaded poll, the options become `WithVoters` of the poll's rows; otherwise nothing changes |
| PollDetails.PollDetailsComponent.CheckUserVote | src/app/components/poll/poll-details/poll-details.component.ts:614-644 | `hasVoted` is whether the user has a row; if so, `userVoteOption` is the option that row names |
| PollDetails.PollDetailsComponent.LoadPoll | src/app/components/poll/poll-details/poll-details.component.ts:589-612 | the stored poll is shown with voter lists; loading stops; the creator flag holds exactly when the user created it; with a user, `hasVoted` follows the ledger and `userVoteOption` is the stored option the user's row names (unchanged when there is no row); without a user both stay as they were |
| PollDetails.PollDetailsComponent.ShowRecordedVote | src/app/components/poll/poll-details/poll-details.component.ts:675-681 | the success message and flag are set, the poll is re-read and the chosen option found in it |
| PollDetails.PollDetailsComponent.SubmitVote | src/app/components/poll/poll-details/poll-details.component.ts:667-693 | nothing happens without an id, a selection or a user. Otherwise the store becomes `VoteStep`'s. On success the message, flag and re-read poll are shown, with the chosen option; on failure the error's message is shown. Voting ends either way and the invariant is kept |
| CreatePoll.IsFormValid | src/app/components/poll/create-poll/create-poll.component.ts:216-226 | the form is valid exactly when the question has at least 5 characters, there are at least 2 options and none is blank (all whitespace) |
| CreatePoll.InitialFormInvalid | src/app/components/poll/create-poll/create-poll.component.ts:198-226 | the initial two empty options never make a valid form |
| CreatePoll.NonBlankOptions | src/app/components/poll/create-poll/create-poll.component.ts:237 | every option that is non-blank after trimming, as many times as it occurs in the list, and no blank one |
| CreatePoll.NonBlankOfValid | src/app/components/poll/create-poll/create-poll.component.ts:237 | on a valid form the filter keeps every option in order |
| CreatePoll.ValidFormKeepsOptions | src/app/components/poll/create-poll/create-poll.component.ts:228-237 | on a form that passes `isFormValid` the option filter drops nothing |
| CreatePoll.SpliceStart | src/app/components/poll/create-poll/create-poll.component.ts:212 | the `splice` start is within the list and equals an in-range index |
| CreatePoll.SpliceOne | src/app/components/poll/create-poll/create-poll.component.ts:212 | removes one element when the start is inside the list, none otherwise |
| CreatePoll.SpliceOneAt | src/app/components/poll/create-poll/create-poll.component.ts:212 | at a valid index, earlier elements stay and later ones shift down by one |
| CreatePoll.CreatePollComponent.constructor | src/app/components/poll/create-poll/create-poll.component.ts:197-201 | empty question, two empty options, not anonymous, no error, not loading |
| CreatePoll.CreatePollComponent.AddOption | src/app/components/poll/create-poll/create-poll.component.ts:206-208 | one empty option appended, the others kept; at least two options remain |
| CreatePoll.CreatePollComponent.RemoveOption | src/app/components/poll/create-poll/create-poll.component.ts:210-214 | with more than two options, `splice(index, 1)`; otherwise nothing; never below two |
| CreatePoll.CreatePollComponent.CreatePoll | src/app/components/poll/create-poll/create-poll.component.ts:228-247 | an invalid form changes nothing. Otherwise the non-blank options (all of them, in order) go to `CreateStep`; success yields the new id, failure shows the generic message; loading ends |
| Models.Keep | src/app/components/poll/list-polls/list-polls.component.ts:231-241 | `filter`: every element meeting the condition, as many times as it occurs in the list, and no other; no longer than the list |
| ListPolls.KeepIsSubsequence | src/app/components/poll/list-polls/list-polls.component.ts:231-241 | a filter's result is an order-preserving subsequence of its input |
| ListPolls.SubsequenceTransitive | src/app/components/poll/list-polls/list-polls.component.ts:227-243 | a subsequence of a subsequence is a subsequence |
| ListPolls.SubsequenceRefl | src/app/components/poll/list-polls/list-polls.component.ts:227 | the unfiltered copy of the list is a subsequence of it |
| Models.KeepAll | src/app/components/poll/list-polls/list-polls.component.ts:231-241 | filtering with a condition every element meets keeps the list |
| ListPolls.KeepTwice | src/app/components/poll/list-polls/list-polls.component.ts:231-241 | filtering twice with one condition is filtering once |
| ListPolls.MatchesQuery | src/app/components/poll/list-polls/list-polls.component.ts:232-234 | the search condition; an empty query matches every poll and a matching query is no longer than the question |
| ListPolls.MatchesStatus | src/app/components/poll/list-polls/list-polls.component.ts:237-240 | the status condition: 'all' keeps every poll, 'active' the open ones, any other value the closed ones |
| ListPolls.Filtered | src/app/components/poll/list-polls/list-polls.component.ts:226-244 | `applyFilters()`: never longer than the loaded list; every shown poll is loaded and, unless the status is 'all', has the requested status |
| ListPolls.ApplyFiltersSubsequence | src/app/components/poll/list-polls/list-polls.component.ts:226-244 | the shown list is an order-preserving subsequence of all polls |
| ListPolls.ApplyFiltersMembers | src/app/components/poll/list-polls/list-polls.component.ts:226-244 | a poll is shown exactly when it is loaded, its lower-cased question contains the trimmed lower-cased query (if non-blank), and its status matches ('active' keeps open polls, any other value but 'all' keeps closed ones) |
| ListPolls.BlankQueryListsAll | src/app/components/poll/list-polls/list-polls.component.ts:230-238 | a blank query with status 'all' shows every poll |
| ListPolls.ApplyFiltersIdempotent | src/app/components/poll/list-polls/list-polls.component.ts:226-244 | filtering the shown list again with the same inputs changes nothing |
| ListPolls.ListPollsComponent.constructor | src/app/components/poll/list-polls/list-polls.component.ts:197-201 | loading, nothing loaded, empty query, status 'all' |
| ListPolls.ListPollsComponent.PollsLoaded | src/app/components/poll/list-polls/list-polls.component.ts:214-218 | all polls are stored and shown, and loading ends |
| ListPolls.ListPollsComponent.ApplyFilters | src/app/components/poll/list-polls/list-polls.component.ts:226-244 | only the shown list changes, to `Filtered` of the loaded polls, query and status |
| ListPolls.ListPollsComponent.ResetFilters | src/app/components/poll/list-polls/list-polls.component.ts:246-250 | empty query, status 'all', all polls shown, which is what the filter yields for them |
| Analytics.CountActive | src/app/components/admin/admin-analytics.component.ts:115 | the number of polls whose `isActive` flag is set; no more than the number of polls, and zero exactly when no poll is open |
| Analytics.CountClosed | src/app/components/admin/admin-analytics.component.ts:116 | the number of polls whose `isActive` flag is clear; no more than the number of polls, and zero exactly when no poll is closed |
| Analytics.Tally | src/app/components/admin/admin-analytics.component.ts:119-125 | the loop leaves the votes per category and the vote total of the whole snapshot |
| Analytics.ActivePlusClosed | src/app/components/admin/admin-analytics.component.ts:114-116 | open and closed polls add up to all polls |
| Analytics.CategoryOf | src/app/components/admin/admin-analytics.component.ts:122 | never empty; the poll's category when it has one ('Uncategorized' otherwise) |
| Analytics.SumTotals | src/app/components/admin/admin-analytics.component.ts:119-125 | the total vote count is at least every single poll's vote count |
| Analytics.CategoryVotes | src/app/components/admin/admin-analytics.component.ts:119-125 | the votes per category never use the empty string as a category |
| Analytics.PrefixStep | src/app/components/admin/admin-analytics.component.ts:121-124 | one more poll adds its votes to its category and to the total |
| Analytics.CategoryCredit | src/app/components/admin/admin-analytics.component.ts:121-124 | a category is listed exactly when some poll has it, with the summed votes of exactly those polls |
| Analytics.MapSumRemove | src/app/components/admin/admin-analytics.component.ts:119-125 | the sum of a map's values splits off any one key |
| Analytics.MapSumUpdate | src/app/components/admin/admin-analytics.component.ts:123 | setting one entry changes the sum by the difference |
| Analytics.CategoriesSumToTotal | src/app/components/admin/admin-analytics.component.ts:119-125 | the votes per category add up to the total vote count |
| Analytics.AdminAnalyticsComponent.constructor | src/app/components/admin/admin-analytics.component.ts:82-87 | loading, all counts zero, no categories |
| Analytics.AdminAnalyticsComponent.ProcessSnapshot | src/app/components/admin/admin-analytics.component.ts:100-128 | poll, open and closed counts, total votes and votes per category are functions of the snapshot alone (so re-running gives the same figures); loading ends |
| AdminPolls.UserIndex | src/app/components/admin/admin-polls.component.ts:149 | -1 exactly when no user has the uid, otherwise the first position with it |
| AdminPolls.FindUser | src/app/components/admin/admin-polls.component.ts:149 | `find`: none exactly when no user has the uid; otherwise the first listed user with that uid |
| AdminPolls.GetUserName | src/app/components/admin/admin-polls.component.ts:148-151 | never empty; 'Unknown' when no user matches; otherwise the first match's display name, or 'Unknown' when that is missing or empty |
| AdminPolls.GetUserEmail | src/app/components/admin/admin-polls.component.ts:153-156 | never empty; 'Unknown' when no user matches; otherwise the first match's e-mail, or 'Unknown' when that is empty |
| AdminPolls.LaterDuplicatesIgnored | src/app/components/admin/admin-polls.component.ts:148-156 | a later user with the same uid changes neither the name nor the e-mail shown |
| AdminPolls.AdminPollsComponent.constructor | src/app/components/admin/admin-polls.component.ts:130-135 | no polls, no users, loading, no busy flags |
| AdminPolls.AdminPollsComponent.UsersLoaded | src/app/components/admin/admin-polls.component.ts:142-146 | the user list is stored |
| AdminPolls.AdminPollsComponent.ToggleStatus | src/app/components/admin/admin-polls.component.ts:176-184 | nothing without an id; otherwise the store becomes `ToggleStep`'s and the busy flag of the id ends false whatever the outcome |
| AdminPolls.AdminPollsComponent.DeletePoll | src/app/components/admin/admin-polls.component.ts:186-195 | nothing without an id or confirmation; otherwise the store becomes `DeleteStep`'s and the busy flag of the id ends false whatever the outcome |
| UserProfile.CharAt0 | src/app/components/user/user-profile/user-profile.component.ts:302-305 | `charAt(0)`: the first character, or empty for the empty string |
| UserProfile.GetUserInitials | src/app/components/user/user-profile/user-profile.component.ts:297-306 | at most two characters; '?' without a display name |
| UserProfile.InitialsOfOneWord | src/app/components/user/user-profile/user-profile.component.ts:300-303 | a name without a space gives its first character upper-cased |
| UserProfile.InitialsOfSeveralWords | src/app/components/user/user-profile/user-profile.component.ts:300-305 | a name with a space gives the upper-cased first characters of the text before the first space and after the last |
| UserProfile.InitialsOfLeadingSpace | src/app/components/user/user-profile/user-profile.component.ts:300-305 | a name starting with a space contributes no first initial, only the last word's |
| Login.GetErrorMessage | src/app/components/auth/login/login.component.ts:194-212 | always one of the five fixed messages |
| Login.ErrorMessageCodes | src/app/components/auth/login/login.component.ts:194-212 | each message is produced exactly by its codes; unknown codes and 'auth/wrong-password' give 'Invalid email or password.' |
| Login.LoginComponent.constructor | src/app/components/auth/login/login.component.ts:169-172 | empty fields, no error, not loading |
| Login.LoginComponent.Login | src/app/components/auth/login/login.component.ts:176-192 | the service is called exactly when e-mail and password are non-empty; loading ends; the error is set exactly on failure, from its code |
| Register.GetErrorMessage | src/app/components/auth/register/register.component.ts:236-251 | always one of the five fixed messages |
| Register.ErrorMessageCodes | src/app/components/auth/register/register.component.ts:236-251 | each of the four known codes gives its message; every other code the generic failure |
| Register.RegisterComponent.constructor | src/app/components/auth/register/register.component.ts:208-213 | empty fields, no error, not loading |
| Register.RegisterComponent.Register | src/app/components/auth/register/register.component.ts:217-234 | differing passwords show 'Passwords do not match.' without calling the service; otherwise loading ends and the error is cleared or set from the failure's code |

## Left out

- Firestore I/O (`getDoc`, `getDocs`, `addDoc`, `updateDoc`, `deleteDoc`, `onSnapshot`), `getPolls`, `getUserPolls`, `latestPolls$` and the error-swallowing fallbacks. The store is an in-memory map plus a ledger sequence, and `getPoll` is a plain read of it.
- Concurrency: each service call is one atomic step. The read-then-write race in `vote` and the non-atomic parallel delete cascade are not modelled.
- Votes.GetPollVotes, Votes.GetUserVote: rows come out in ledger (insertion) order. Firestore returns query results in document-id order, which the model does not represent; so when a user holds several votes on one poll, `getUserVote` (src/app/services/vote.service.ts:49) returns the first in document-id order, while the model returns the first in the ledger.
- Ids: the poll id `addDoc` assigns and the `uuidv4` option ids are parameters, required fresh and pairwise distinct.
- `createdAt`, `isCustomCategory`, `photoURL`, `banned`, `isAdmin` and the report date: no operation in the model reads them.
- PollDetails.GetPercentage: computed in exact integers as (200·votes + total) div (2·total), which is `Math.round` of the exact quotient. Floating-point rounding of the quotient itself is not modelled.
- Text.ToLower, Text.ToUpper: ASCII letters only. Unicode case mapping is not modelled.
- Rendering: charts, DOM access, templates, router navigation and `setTimeout` are left out. The `confirm` dialog in the admin delete is a boolean parameter.
- PollDetails.PollDetailsComponent.SubmitVote: the poll read back after voting is one immediate read of the store, not a later subscription callback.
- PollDetails.PollDetailsComponent.LoadPoll: the `getPoll` subscription is modelled as a single load. The `user$` subscription in `ngOnInit` (src/app/components/poll/poll-details/poll-details.component.ts:564-569), which recomputes `isCreator` and reruns `checkUserVote` whenever the signed-in user changes, is not modelled: the user is fixed during a load. The no-id branch of `ngOnInit` (line 571) is the constructor's `isLoading` rule.
- Poll details' own `togglePollStatus`, `confirmDeletePoll` and `deletePoll` and their busy flags are not modelled. They call the same service steps that `AdminPolls` models.
- The admin poll table's `loadPolls`, `viewReports` and the report modal (Firestore reads and date formatting).
- `getReports` (a live listener over all reports).
- Login, register, analytics and admin pages: the authentication result is a parameter (`AuthOutcome`). Their page methods change fields, so their contracts use `old`.
- Authorisation: toggling and deleting are creator-only, with no administrator bypass (the creator checks at src/app/services/poll.service.ts:231 and 260).
- Voter lists do not consult `isAnonymous`: the details page lists voters for every poll.
- `createPoll` in the service stores neither `isAnonymous` nor `category`, although the form sends the anonymity flag. The model keeps the service's behaviour.
- CreatePoll.IsFormValid, UserProfile.CharAt0, UserProfile.GetUserInitials: a string is a sequence of code points, while JavaScript's `length` and `charAt` count UTF-16 code units. A question of three emoji has length 3 here and 6 in the browser, so the model rejects a question the page accepts. The bound of two characters on the initials also relies on the ASCII-only case mapping; the browser's `toUpperCase` turns 'ß' into "SS".
- Analytics.CategoryVotes, Analytics.CategoriesSumToTotal: the page keeps the sums in a plain JavaScript object. A category named after an inherited property ("constructor", "toString", "__proto__") starts from an inherited value, or the assignment is dropped, so the page's sum for it differs from the model's map. The model holds for every other category name.

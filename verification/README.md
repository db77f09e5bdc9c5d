# Verification model of the assessment platform

Two services hold the logic of the platform: the assessment service, with tests, their questions and
sections and the quiz game, and the attempt service, with attempts, their results and the reports over
them.  A third file imports questions from spreadsheets.  This project models their hardest parts in Dafny
and proves what they keep.  `dafny verify dfyconfig.toml` checks it.

## What is modelled

**The quiz game** (`Game`, `GameInvariant`, `GameWinner`, `GameRuns`, `GameAgreement`, `GameRoom`).  Each
player has an attempt record with a replicated scoreboard and a replicated name of the player in turn.  A
`playGame` request is a chain of awaited database writes, and the requests of several players interleave
between them.  `Game` is the state machine over single-document reads and writes for any number of players,
with one outstanding request per player; the invariant, finiteness and safety are proved over every
interleaving.  `GameRoom` is the object with one method per database call, proved to be a run of that machine.
The model shows two flaws of the code.  With three or more players, a late announcement
of the next player can overwrite a newer one, so records may name the wrong player; this cannot happen
exactly if there are at most two players (as `newGame` arranges), or if requests do not overlap.  And when
no player scored, the winner has no id, the look-up throws, and the game is never marked evaluated; every new
game can be played to such an end.

**Questions and sections of a test** (`QuestionOrder`, `Sections`, `PracticeSet`).  The class `Test` updates
the stored records as the code does; its methods are tied to functions on the records, and these refine
plain lists of questions.  `importQuestion` does not check for repeated ids within one request
(`PracticeSet.ImportKeptIff`).  `removeQuestion` throws between its two writes if the question's own record was
deleted by way of another test; the orders then have a gap, except exactly where `PracticeSet.PullKeepsExactly` says,
until a later removal completes.  Renaming throws when a submitted section without id stands before
the section that an old one is looked up as; the exact condition is `Sections.RenamingThrowsExactly`.

**Shuffling** (`Shuffling`).  The in-place exchange driven by any choices, as a bijection between choices and
permutations.

**Reports** (`Percentiles`, `Pipelines`, `FilterSplit`, `AttemptRows`, `AttemptSummary`, `Ranks`).  `Pipelines` gives `$match`,
`$lookup` with `$unwind` and `$group` a semantics on lists, in which the transformations are proved.
Percentages are rounded to hundredths; averages and accuracies are real numbers.

**Attempts** (`Lifecycle`).  Start, submission to the queue, the queue worker, hand-in and status update over any
number of tests and students, with the counters of the tests.  Grading follows
`AttemptProcessor.process`: it closes the attempt and may set or clear the abandoned flag, so a
hand-in that is an abandonment can leave `totalAttempt` too high; `Lifecycle.CountStaysTrueExactly` says
when.  The allowance of attempts is checked against finished attempts only, so it can be exceeded
by starting several attempts first: `Lifecycle.AllowanceHoldsExactly` says exactly when, and the excess is
bounded by the number of attempts unfinished at a time.

**The test cache** (`TestCache`).  Opening a test with a hit or a miss, updating, withdrawing, importing, and
expiry of cached copies.  A cached copy is a value, as it is serialised when stored.  A hit carries the
server time of the request that filled the cache.  `importQuestion`, `updateQuestionSection`, the update
of several questions' section and `changeOwnership` may change a published test without dropping its copies;
the last three are one operation of the model that changes the sections or the owner.

**Spreadsheets** (`FillBlanks`, `SheetImport`).  The scan for `{{answer}}` in a question text, and the concurrent
saving of rows with the sorted push.  Line 837 of practiceSetExcelService.ts calls `include` on an array; it is
read as `includes`.

`Lists` and `Wrappers` hold the shared list operations and the option type.

## Model

| member | source | states |
|---|---|---|
| Game.SummaryCounts | apps/assessment/src/assessment.service.ts:8555-8582 | a filed result counts the correct turns, the wrong ones with an answer as errors, those without as missed, with one mark per correct turn and the time in milliseconds |
| Game.SummaryAddsUp | apps/assessment/src/assessment.service.ts:8555-8582 | these three counts add up to the turns |
| GameInvariant.InitialInv | apps/assessment/src/assessment.service.ts:5871-5921 | a new game of any number of players satisfies the invariant: all are active without turns or marks, the requester alone is in turn, and every record names the requester |
| GameInvariant.StepKeepsInv | apps/assessment/src/assessment.service.ts:8599-8752 | every single database read or write of any player's request, in any interleaving, keeps the invariant: one turn token, boards that equal the turns, evaluation at most once |
| GameInvariant.RunKeepsInv | apps/assessment/src/assessment.service.ts:8599-8752 | so does every run of interleaved requests |
| GameInvariant.HolderAlone | apps/assessment/src/assessment.service.ts:8611-8621 | while a request is past its first write, no other player's request can be accepted |
| GameRuns.TokenSafety | apps/assessment/src/assessment.service.ts:8611-8740 | from any new game and over every interleaving: at most one player holds the turn, exactly one does until the evaluation, and the evaluation comes at most once, after everybody's tenth turn |
| GameRuns.RecordsStayTrue | apps/assessment/src/assessment.service.ts:8619-8649 | no player has more than ten turns; a record is inactive exactly when its result is filed, which takes ten turns; each replica's incremental mark is the number of correct turns, apart from a write the holder's request still owes |
| GameRuns.RecordsHoldTheTurns | apps/assessment/src/assessment.service.ts:8600-8621 | over every interleaving, a player's record holds exactly the turns of its accepted plays, in order |
| GameRuns.PlayPasses | apps/assessment/src/assessment.service.ts:8611-8658 | a play keeps the turn exactly if it was correct; a wrong one goes on to pass it, filing the result first if it was the tenth; nobody else's record changes |
| GameRuns.MarksPass | apps/assessment/src/assessment.service.ts:8627-8651 | after its marks a correct play is over, or files the result if it was the tenth |
| GameRuns.PlaysUseTurns | apps/assessment/src/assessment.service.ts:8611-8621 | each accepted play, and no other step, takes one from the total of remaining turns |
| GameRuns.StepUsesWork | apps/assessment/src/assessment.service.ts:8599-8752 | every step lowers a measure of the work left |
| GameRuns.RunsAreFinite | apps/assessment/src/assessment.service.ts:8599-8752 | a game of n players has at most (2n+4)*10n+1 database steps, whatever the interleaving |
| GameRuns.WriteBackIsHarmless | apps/assessment/src/assessment.service.ts:8736-8739 | writing the old document back returns the turn and changes nothing else but the name of the player in turn |
| GameRuns.RequestsMove | apps/assessment/src/assessment.service.ts:8611-8740 | a request on its way can always take its own next step: no interleaving blocks it |
| GameRuns.SettledGamesAreEvaluated | apps/assessment/src/assessment.service.ts:8645-8735 | a run that cannot go on, in a game that has not expired, was evaluated exactly once, with ten filed turns for everybody; every record is evaluated exactly if a winner exists, and then shows the final board |
| GameWinner.WinnerIsBest | apps/assessment/src/assessment.service.ts:8696-8709 | a player is selected exactly if it has a mark or a negative time, no one has a higher mark, or the same mark in less time, and no earlier player equals both |
| GameWinner.WinnerExistsIff | apps/assessment/src/assessment.service.ts:8696-8722 | the selection names someone exactly if a player scored or reported a negative total time; otherwise the look-up of the winner throws and the game is never marked evaluated |
| GameWinner.BoardHasOneWinner | apps/assessment/src/assessment.service.ts:8697-8729 | the stored board marks exactly the best player, and its marks and times are the totals of the turns |
| GameWinner.SelectWinner | apps/assessment/src/assessment.service.ts:8696-8722 | the selection loop computes that board, or fails where the code throws |
| GameWinner.Totals | apps/assessment/src/assessment.service.ts:8698-8705 | the inner loop counts the correct turns and adds up the seconds |
| GameAgreement.TwoPlayersAgree | apps/assessment/src/assessment.service.ts:8661-8673 | with at most two players, whenever no request is on its way and the game is unevaluated, every active record names the player in turn |
| GameAgreement.LateAnnouncement | apps/assessment/src/assessment.service.ts:8665-8673 | with three or more players a reachable quiet state has a record that names the wrong player: a late announcement overwrites a newer one |
| GameAgreement.AgreementExactlyForTwo | apps/assessment/src/assessment.service.ts:8661-8673 | the agreement holds in all reachable states if and only if there are at most two players |
| GameRoom.Room.constructor | apps/assessment/src/assessment.service.ts:5871-5921 | the object starts as the state machine's initial state |
| GameRoom.Room.SaveTurn | apps/assessment/src/assessment.service.ts:8611-8625 | a turn is stored exactly if the player is active and in turn and the game has not expired; it keeps the turn only if correct |
| GameRoom.Room.BumpMarks | apps/assessment/src/assessment.service.ts:8627-8633 | the mark is increased in every replica |
| GameRoom.Room.EndGame | apps/assessment/src/assessment.service.ts:8521-8596 | the player's result is filed, with each count as stated above, and the record closed |
| GameRoom.Room.FindNext | apps/assessment/src/assessment.service.ts:8652-8658 | finds an active player who is not in turn if there is one |
| GameRoom.Room.HandOver | apps/assessment/src/assessment.service.ts:8661-8673 | the next player gets the turn and the waiting records are told |
| GameRoom.Room.Evaluate | apps/assessment/src/assessment.service.ts:8691-8729 | all records get the final board, or nothing is stored if there is no winner |
| GameRoom.Room.PlayGame | apps/assessment/src/assessment.service.ts:8599-8752 | a whole request is a run of the state machine's steps, so it keeps the invariant; when requests do not overlap, the records agree on the player in turn for any number of players; exactly the played turn is added; the turn passes exactly after a wrong or tenth turn if somebody waits, the caller goes on exactly after a correct or unclaimed turn that is not the tenth, and the game is evaluated exactly after a tenth turn with nobody waiting |
| GameRuns.PlayToTheEnd | apps/assessment/src/assessment.service.ts:8599-8752 | from every unexpired state that keeps the invariant, some run leads to a state that cannot go on; if nobody has scored, to one where nobody has |
| GameRuns.GamesCanEnd | apps/assessment/src/assessment.service.ts:8599-8752 | every unexpired game, however it was played so far, can be played to its evaluation with ten turns for everybody |
| GameRuns.UnscoredGame | apps/assessment/src/assessment.service.ts:8696-8722 | every new game can be played to an end without winner: the evaluation is reached, and no record is ever marked evaluated |
| QuestionOrder.ListingShows | apps/assessment/src/assessment.service.ts:2359-2370 | of a test numbered 1..n, the listing is the one list that has the question numbered k at position k |
| QuestionOrder.MoveListing | apps/assessment/src/assessment.service.ts:4806-4827 | after a move, the listing is the old one with that question taken out and put in at the new position |
| QuestionOrder.MoveBack | apps/assessment/src/assessment.service.ts:4806-4827 | moving the question back restores every order |
| QuestionOrder.OthersKeepOrder | apps/assessment/src/assessment.service.ts:4810-4827 | any two other questions keep their relative order |
| QuestionOrder.WithOrdersKeepsListing | apps/assessment/src/assessment.service.ts:4786-4790 | numbering a test that has no numbers yet keeps its listing |
| QuestionOrder.ReorderedIsMoved | apps/assessment/src/assessment.service.ts:4810-4827 | on a numbered test with distinct ids, the shifts of the stored records are that move |
| QuestionOrder.RemoveListing | apps/assessment/src/assessment.service.ts:6429-6516 | after a completed removal the orders are 1..n, even if they had gaps, and the listing is the old one without the question |
| QuestionOrder.PullListing | apps/assessment/src/assessment.service.ts:6429-6440 | pulling a question without renumbering takes it out of the listing all the same |
| QuestionOrder.PullNumberedExactly | apps/assessment/src/assessment.service.ts:6429-6440 | but the remaining orders are 1..n exactly if the question had the last one |
| QuestionOrder.ImportListing | apps/assessment/src/assessment.service.ts:9197-9219 | after an import the orders are 1..n and the listing is the old one followed by the added questions |
| PracticeSet.EditListing | apps/assessment/src/assessment.service.ts:4767-4835 | every reorder, removal and import of well-kept records is the same edit of the plain list of questions, a removal that fails after the pull included |
| PracticeSet.PullKeepsExactly | apps/assessment/src/assessment.service.ts:6429-6448 | a removal that fails after the pull, because the question's own record is gone, leaves the orders well kept exactly if there are none or the question had the last one; ids stay distinct and the count right |
| PracticeSet.EditKeepsExactly | apps/assessment/src/assessment.service.ts:6429-6516 | an edit keeps ids distinct, orders exactly 1..n (or none) and totalQuestion equal to the length exactly if it is no import that repeats an id and no such failing removal |
| PracticeSet.RemoveRepairs | apps/assessment/src/assessment.service.ts:6499-6518 | a removal that completes makes the orders 1..n again, whatever gaps failed removals have left |
| PracticeSet.RunsKeepExactly | apps/assessment/src/assessment.service.ts:4767-4835 | a run of edits keeps the test well kept throughout exactly if none of its edits is such an import or failing removal where it is made |
| PracticeSet.EditKeepsRecords | apps/assessment/src/assessment.service.ts:4786-4827 | after an edit every record is an old one with at most its order changed, or one of an imported question with the name of its subject |
| PracticeSet.RunsKeepRecords | apps/assessment/src/assessment.service.ts:4767-4835 | so over every run, clean or not: nobody's section changes by reordering, numbering or removing |
| PracticeSet.ActiveAreRequested | apps/assessment/src/assessment.service.ts:9188-9217 | the questions added are exactly the requested ones that are active, in request order, each with the name of its subject |
| PracticeSet.RepeatedImportBreaks | apps/assessment/src/assessment.service.ts:9188-9217 | for example, an import of one question twice stores it twice |
| PracticeSet.FailedRemovalBreaks | apps/assessment/src/assessment.service.ts:6429-6448 | for example, two questions are imported and the first is removed after its record was deleted: the other is left with order 2 |
| PracticeSet.GapsMisplaceMoves | apps/assessment/src/assessment.service.ts:4806-4827 | with such gaps a move can miss: of two questions with the orders 2 and 3 the first does not go to position 2 |
| PracticeSet.ImportKeptIff | apps/assessment/src/assessment.service.ts:9182-9219 | an accepted import keeps them exactly if the added ids are distinct; the code does not check that |
| PracticeSet.RunsRefinePlainLists | apps/assessment/src/assessment.service.ts:4767-4835 | over every such run, the listing is that of a plain list under append, move and delete, ids stay distinct, orders 1..n, and the count the length |
| PracticeSet.Test.GetQuestionList | apps/assessment/src/assessment.service.ts:2359-2370 | returns the records sorted by order, as the listing |
| PracticeSet.Test.UpdateQuestionOrder | apps/assessment/src/assessment.service.ts:4767-4835 | the loops shift the orders, or leave the test alone; each answer is given exactly in its case, a save exactly if the question has another order; every record keeps all but its order; a well-kept test stays so |
| PracticeSet.Test.ShiftOrders | apps/assessment/src/assessment.service.ts:4810-4827 | the two shifting loops compute the shifts, on any records |
| PracticeSet.Test.RemoveQuestion | apps/assessment/src/assessment.service.ts:6411-6520 | removes the question from a draft and renumbers the rest, or fails after the pull if the question's own record is gone; each answer is given exactly in its case, every remaining record keeps all but its order, with the exact condition under which the test stays well kept |
| PracticeSet.Test.Pull | apps/assessment/src/assessment.service.ts:6429-6520 | the pull and what follows it, with and without the question's own record |
| PracticeSet.Test.Renumber | apps/assessment/src/assessment.service.ts:6511-6516 | the numbering loop gives each remaining question its position as order |
| PracticeSet.Test.ImportQuestion | apps/assessment/src/assessment.service.ts:9152-9225 | appends the active requested questions in the requested order, with their orders and sections, behind the old records, which at most get numbered; each answer is given exactly in its case, an empty search included; the test stays well kept exactly if an accepted import repeats no id |
| Sections.MergeNames | apps/assessment/src/assessment.service.ts:1110-1124 | merged sections have unique names, in the order of their first occurrence |
| Sections.MergeKeepsTime | apps/assessment/src/assessment.service.ts:1110-1124 | merging keeps the total time, and the total time under each name |
| Sections.MergedTime | apps/assessment/src/assessment.service.ts:1116-1121 | each merged section has the sum of the times given under its name |
| Sections.MergedId | apps/assessment/src/assessment.service.ts:1112-1122 | each merged section keeps the id of the first section of its name |
| Sections.MergeIdempotent | apps/assessment/src/assessment.service.ts:1110-1124 | merging twice is merging once |
| Sections.RenameIsSubstitution | apps/assessment/src/assessment.service.ts:1126-1149 | a question of an old section gets exactly the new name of the section with that id: a simultaneous substitution, swaps included |
| Sections.RenameLeavesOthers | apps/assessment/src/assessment.service.ts:1143-1147 | a question of no old section stays as it is |
| Sections.SectionExistsIff | apps/assessment/src/assessment.service.ts:1126-1149 | after rename and merge a question's section exists exactly if its old section was kept or its old name is still used, and it exists only once |
| Sections.QuestionsKeepTheirSection | apps/assessment/src/assessment.service.ts:1107-1149 | if no section is dropped, each question is in the one merged section that its old section became or was merged into |
| Sections.RenamingThrowsExactly | apps/assessment/src/assessment.service.ts:1130-1139 | the renaming throws exactly if a submitted section without id stands before any section with the id of some old section |
| Sections.NewSectionInFrontThrows | apps/assessment/src/assessment.service.ts:1132-1135 | for example, adding a section in front of the only one throws, and adding it behind does not |
| PracticeSet.Test.MergeSections | apps/assessment/src/assessment.service.ts:1110-1124 | the merging loop computes the merge |
| PracticeSet.Test.RenamingTable | apps/assessment/src/assessment.service.ts:1126-1139 | the loop builds the renaming table, or throws, exactly under that condition |
| PracticeSet.Test.RenameQuestions | apps/assessment/src/assessment.service.ts:1141-1148 | every question with a renamed section is renamed, and no other |
| PracticeSet.Test.UpdateSections | apps/assessment/src/assessment.service.ts:1106-1160 | the whole section part: it goes through exactly if the renaming does not throw, and leaves merged sections, renamed questions, ids only where there were none, and, with a time limit per section, a total time equal to the sum of times before merging |
| Shuffling.ShuffleIsPermutation | apps/assessment/src/assessment.service.ts:5657-5666 | every sequence of choices gives a permutation of the input |
| Shuffling.ShuffleIsInjective | apps/assessment/src/assessment.service.ts:5657-5666 | different choices give different results when the elements are distinct |
| Shuffling.ShuffleIsSurjective | apps/assessment/src/assessment.service.ts:5657-5666 | every permutation is reached by some choices |
| Shuffling.ShuffleIsBijection | apps/assessment/src/assessment.service.ts:5657-5666 | for distinct elements, each permutation comes from exactly one sequence of choices |
| Shuffling.LastIsDrawn | apps/assessment/src/assessment.service.ts:5660-5663 | the last element is the one drawn for it |
| Shuffling.Shuffle | apps/assessment/src/assessment.service.ts:5657-5666 | the in-place swaps compute that shuffle of the array |
| Percentiles.HundredthsAreNearest | apps/attempt/src/attempt.service.ts:1445-1447 | percentages are rounded to the nearest hundredth, halves away from 0 |
| Percentiles.CurrentIsQuotient | apps/attempt/src/attempt.service.ts:1440-1448 | the current percentage is the marks divided by the maximum marks, so rounded; 0 without marks, infinite for maximum marks of 0 |
| Percentiles.PercentileCounts | apps/attempt/src/attempt.service.ts:1461-1478 | the percentile is the number of scores below plus half of those equal, the current one included, by the number of all scores |
| Percentiles.OwnIsLast | apps/attempt/src/attempt.service.ts:1456-1458 | the current percentage joins the list of the other scores |
| Percentiles.PercentileBounds | apps/attempt/src/attempt.service.ts:1456-1478 | the percentile lies between 50/N and 100 - 50/N |
| Percentiles.PercentileMonotone | apps/attempt/src/attempt.service.ts:1470-1478 | a higher current score never has a lower percentile |
| Percentiles.PercentileOrderFree | apps/attempt/src/attempt.service.ts:1458-1478 | the percentile does not depend on the order of the other scores |
| Percentiles.RanksSumToHalfSquare | apps/attempt/src/attempt.service.ts:1466-1478 | the doubled mid-ranks of N scores in their own list sum to N squared |
| Percentiles.MeanPercentileIs50 | apps/attempt/src/attempt.service.ts:1456-1478 | the mean percentile of a whole list is exactly 50 |
| Percentiles.CountRanks | apps/attempt/src/attempt.service.ts:1461-1476 | the counting loop gives the mid-rank, for an infinite percentage too |
| Percentiles.CalculatePercentile | apps/attempt/src/attempt.service.ts:1435-1486 | the method returns that percentile and the sorted scores; with maximum marks of 0 the percentage is infinite, and the percentile the upper bound |
| Pipelines.GroupingConservesSums | apps/attempt/src/attempt.service.ts:6008-6113 | grouping conserves sums: over any choice of groups, group totals add up to the total of their rows |
| Pipelines.GroupingUndoesFlatMap | apps/attempt/src/attempt.service.ts:5978-6046 | grouping joined and unwound rows by the id of the record they came from gives back one group per record with rows, in order, with exactly its rows |
| FilterSplit.ReadersMention | apps/attempt/src/attempt.service.ts:3481-3490 | every key that reads the joined field contains its name, so it is moved behind the join |
| FilterSplit.SplitIsPartition | apps/attempt/src/attempt.service.ts:3481-3490 | the two parts are disjoint and together the whole filter object |
| FilterSplit.SplitByName | apps/attempt/src/attempt.service.ts:3481-3490 | exactly the conditions move whose key contains the letters QA, and none is changed |
| FilterSplit.MeetsAllSplit | apps/attempt/src/attempt.service.ts:1818-1827 | a joined record meets the whole filter exactly if the attempt meets the front parts and the record the moved ones |
| FilterSplit.SplitSelectsTheSame | apps/attempt/src/attempt.service.ts:1755-1787 | matching before and behind the join selects the same joined records, in the same order, as the whole filter behind it |
| FilterSplit.JoinedCount | apps/attempt/src/attempt.service.ts:1755-1787 | as many records meet a filter as there are pairs of an attempt and one of its own details whose joined record does |
| FilterSplit.ExtraAsks | apps/attempt/src/attempt.service.ts:1794-1816 | the added conditions ask exactly for a creation date from the given day on, an answer about the subject, and an attempt that is not abandoned |
| FilterSplit.OneDetailCount | apps/attempt/src/attempt.service.ts:1748-1791 | with one detail per attempt, as many records are returned as attempts meet the whole filter |
| FilterSplit.FilterObject.CreateMatch | apps/attempt/src/attempt.service.ts:3481-3490 | the loop that deletes keys leaves the front part and returns the moved part |
| FilterSplit.ExtractFromFilter | apps/attempt/src/attempt.service.ts:1818-1827 | every object is split in place; empty moved parts are dropped |
| FilterSplit.ConditionCount | apps/attempt/src/attempt.service.ts:1794-1816 | the conditions on day, subject and, unless abandoned attempts are asked for, abandonment are added at the end |
| FilterSplit.SummaryPractice | apps/attempt/src/attempt.service.ts:1748-1792 | returns the number of pairs of an attempt and one of its own details whose joined record meets the whole filter; with one detail each, the number of attempts that do |
| AttemptRows.PickedSum | apps/attempt/src/attempt.service.ts:5978-6007 | what the joined and unwound rows of an attempt add up to is the sum over the answers of its own details that pass the conditions |
| AttemptRows.PickedExists | apps/attempt/src/attempt.service.ts:5978-6007 | there is a row exactly if there is such an answer |
| AttemptSummary.AttemptLinesAreAttempts | apps/attempt/src/attempt.service.ts:6005-6046 | the first stage makes one line of every attempt with rows, its stored fields taken once |
| AttemptSummary.TestLinesConserve | apps/attempt/src/attempt.service.ts:6046-6079 | a quantity that the second stage adds up per test adds up over all attempts of the student |
| AttemptSummary.EachLineConservesTotals | apps/attempt/src/attempt.service.ts:5967-6113 | each final line has, summed over the student's attempts with its flag and the answers in their own details, the number of answers, of those not missed, their times and marks; the stored fields once per attempt with any answer; the number of those attempts, and of their distinct tests |
| AttemptSummary.OneLinePerStudent | apps/attempt/src/attempt.service.ts:6080-6118 | the result is sorted by student, not abandoned first, and has exactly one line for every student and flag of an attempt with any answer |
| Ranks.UserLineIsBest | apps/attempt/src/attempt.service.ts:4981-5001 | grouping by student keeps the best of that student's values |
| Ranks.IndexCountsAhead | apps/attempt/src/attempt.service.ts:5016-5028 | in a sorted list the first index of a value counts the lines ahead of it |
| Ranks.LinesAreUsers | apps/attempt/src/attempt.service.ts:4981-5004 | lines of distinct students are as many as the students |
| Ranks.SearchRank | apps/attempt/src/attempt.service.ts:5007-5031 | the two index searches give one more than the number of students strictly ahead, whatever the order of ties, or none for an absent student |
| Ranks.AttemptLinesOf | apps/attempt/src/attempt.service.ts:4901-4980 | the stages up to the second grouping give the scores of exactly the matching attempts with rows, with their students |
| Ranks.GetRank | apps/attempt/src/attempt.service.ts:5037-5162 | the whole query, for both kinds of rank |
| Ranks.ScoreIsDirect | apps/attempt/src/attempt.service.ts:4934-4980 | the ranked score is the time per answer given, or the correct answers per answer in percent, over the attempt's own answers on the subject |
| Ranks.GetSpeedRank | apps/attempt/src/attempt.service.ts:4899-5035 | one more than the number of students who have an evaluated attempt at the test, not abandoned and with an answer on the subject, with less time per answer than this student's best; none exactly if the student has no such attempt |
| Ranks.GetAccuracyRank | apps/attempt/src/attempt.service.ts:5037-5165 | one more than the number of students who have an attempt at the test, evaluated or not, not abandoned and with an answer on the subject, with more accuracy than this student's best; none exactly if the student has no such attempt |
| Ranks.BetterBestRanksHigher | apps/attempt/src/attempt.service.ts:5079-5162 | equal bests share the rank, and a strictly better best has a strictly better rank |
| Lifecycle.StartsExactly | apps/attempt/src/attempt.service.ts:6793-6853 | a start is accepted exactly from the author, or at a published, unexpired, open test that admits the student and whose allowance is not used up by finished attempts; each refusal comes exactly in its case, in the order of the code |
| Lifecycle.StudentCounts | apps/attempt/src/attempt.service.ts:6811-6813 | a student's finished attempts are those neither ongoing nor abandoned, the unfinished ones the others |
| Lifecycle.TestCounts | apps/attempt/src/attempt.service.ts:7467-7482 | the attempts counted are those of the test that are not abandoned |
| Lifecycle.GradedCount | libs/common/src/components/AttemptProcessor.ts:1261-1282 | all questions are graded, or those the hand-in names if the test shows a subset |
| Lifecycle.ProcessStores | libs/common/src/components/AttemptProcessor.ts:1119-1150 | grading closes the attempt and stores marks, time and number of graded questions; it is abandoned if the hand-in is, or the test gives feedback, unless the test is adaptive; if not, the test's attempts are counted; nothing else changes |
| Lifecycle.ClearStores | apps/attempt/src/attempt.service.ts:7429-7482 | only the student and staff clear the flag; then the test's attempts are counted |
| Lifecycle.WorkStores | libs/common/src/components/AttemptQueueProcessor.ts:18-46 | a draft is taken out and graded as any hand-in; without one nothing is graded |
| Lifecycle.FinishesExactly | apps/attempt/src/attempt.service.ts:7838-7858 | a hand-in is refused exactly for an attempt that is not the student's, one graded with questions, or a test that is gone |
| Lifecycle.OngoingNeverReturns | libs/common/src/components/AttemptProcessor.ts:1643-1645 | over every run of start, submission, queue work, hand-in and status update, a closed attempt stays closed, a graded one graded, and no attempt changes its student or test |
| Lifecycle.JoinedOverRuns | apps/attempt/src/attempt.service.ts:6865-6883 | totalJoinedStudent is the number of distinct students with an attempt |
| Lifecycle.RegradeExactly | apps/attempt/src/attempt.service.ts:7854-7858 | after every run from a new service, a graded attempt can be handed in again exactly if it was graded with no question at all |
| Lifecycle.ScoreChangesExactly | apps/attempt/src/attempt.service.ts:7836-7882 | a step changes an attempt's score exactly if it is queue work or an accepted hand-in of that attempt with other marks |
| Lifecycle.QueueRegradesExactly | apps/attempt/src/attempt.service.ts:7068-7089 | among all steps, only queue work changes the score of an attempt graded with questions, exactly if the draft has other marks |
| Lifecycle.ScoreStaysExactly | apps/attempt/src/attempt.service.ts:7836-7882 | a score stays the same throughout a run exactly if no step of the run regrades it |
| Lifecycle.ScoreStays | apps/attempt/src/attempt.service.ts:7852-7858 | after every run from a new service, an attempt graded with questions keeps its score over every further run in which the queue does not grade it otherwise: no hand-in changes it |
| Lifecycle.EmptyOrderRegrades | apps/attempt/src/attempt.service.ts:7854-7858 | for example, of a test that shows a subset, a hand-in whose order names none of its questions can be handed in again |
| Lifecycle.QueueOverwrites | apps/attempt/src/attempt.service.ts:7068-7089 | for example, a score of 1 from a hand-in becomes 2 by a later submission |
| Lifecycle.HandInCounts | apps/attempt/src/attempt.service.ts:7871-7875 | after every accepted hand-in that is no abandonment, totalAttempt is the number of attempts at the test that are not abandoned |
| Lifecycle.CountStaysTrueExactly | libs/common/src/components/AttemptProcessor.ts:1119-1150 | a true count stays true through every operation except exactly those that abandon an attempt that was counted |
| Lifecycle.AbandonmentUncounts | libs/common/src/components/AttemptProcessor.ts:1119-1150 | for example, a student starts, has the abandoned flag cleared, and then hands in as abandoned: the count stays one too high |
| Lifecycle.ExceedsAllowanceExactly | apps/attempt/src/attempt.service.ts:6808-6817 | a step takes a student, not the author, beyond a positive attemptAllowed exactly if it is a start at an open test by a student who already has as many attempts as allowed, some of them unfinished |
| Lifecycle.AllowanceHoldsExactly | apps/attempt/src/attempt.service.ts:6808-6817 | over every run, a student stays within attemptAllowed exactly if no attempt is started in that situation |
| Lifecycle.LimitPassesExactly | apps/attempt/src/attempt.service.ts:6811-6816 | at the allowed number, exactly those starts pass that are made at an open test by a student with an unfinished attempt |
| Lifecycle.AllCanBeFinished | apps/attempt/src/attempt.service.ts:7836-7882 | all attempts started can be handed in, so what was started beyond the allowance can also be finished |
| Lifecycle.AllowanceOverRuns | apps/attempt/src/attempt.service.ts:6808-6817 | with at most m unfinished attempts at a time, a student takes fewer than attemptAllowed + m attempts |
| Lifecycle.OneAtATimeKeepsAllowance | apps/attempt/src/attempt.service.ts:6808-6817 | with at most one unfinished attempt at a time, a student other than the author never takes, nor finishes, more attempts than a positive attemptAllowed |
| Lifecycle.TwoAtOnceExceedAllowance | apps/attempt/src/attempt.service.ts:6808-6817 | whenever the last attempt may be taken, two starts before the hand-ins exceed the allowance by one |
| Lifecycle.HandInIsTimed | apps/attempt/src/attempt.service.ts:7887-7900 | a hand-in is marked late exactly beyond limit and grace, its time on record is the reported one cut off at the limit, its score is that of the answers, and it is abandoned exactly if handed in so at a test that is not adaptive |
| Lifecycle.AttemptService.Start | apps/attempt/src/attempt.service.ts:6786-6893 | accepted exactly as stated above; then one new attempt, open, abandoned and ungraded, and the student counted once |
| Lifecycle.AttemptService.SubmitToQueue | apps/attempt/src/attempt.service.ts:7068-7089 | closes the attempt and stores a draft |
| Lifecycle.AttemptService.Work | libs/common/src/components/AttemptQueueProcessor.ts:14-56 | the worker grades a draft once |
| Lifecycle.AttemptService.Process | libs/common/src/components/AttemptProcessor.ts:1228-1651 | grading closes the attempt, sets score, time and number of graded questions, and recounts if it is not abandoned |
| Lifecycle.AttemptService.UpdateAbandonStatus | apps/attempt/src/attempt.service.ts:7421-7482 | students change only their own attempts; the test is recounted |
| Lifecycle.AttemptService.ApplyTimeLimit | apps/attempt/src/attempt.service.ts:7887-7900 | applies the limit as stated above, and nothing when there is none |
| Lifecycle.AttemptService.Finish | apps/attempt/src/attempt.service.ts:7836-7882 | refuses a foreign or graded attempt, else grades, counts and applies the limit |
| TestCache.OpensExactly | apps/assessment/src/assessment.service.ts:7676-7997 | cached or not, a test opens exactly if it is stored, published and not expired, the student is permitted, and, with an end fixed for everyone, time is left; each refusal comes exactly in its case |
| TestCache.OperationsStore | apps/assessment/src/assessment.service.ts:379-400 | a saved test is stored as given, a withdrawn one is revoked, imported questions come behind the others; a published or withdrawn test loses both copies |
| TestCache.MissIsFresh | apps/assessment/src/assessment.service.ts:8079-8193 | without a cached copy the document has the time of this request, the original time where the end is fixed, and the stored or drawn questions |
| TestCache.ImportKeepsCopiesExactly | apps/assessment/src/assessment.service.ts:9152-9225 | an import of questions keeps cached copies true exactly if it adds nothing or no copy of a published test is cached |
| TestCache.AmendKeepsCopiesExactly | apps/assessment/src/assessment.service.ts:1931-1940 | so does a change of owner or sections, which also leaves the copies in place, exactly if it changes nothing or no copy of a published test is cached |
| TestCache.CopiesStayTrueExactly | apps/assessment/src/assessment.service.ts:1168-1173 | a cached copy of a published test is the stored test with its original time and no student's limits, after every modelled operation but exactly such an import or change; random tests are never cached |
| TestCache.CopiesStayTrueOverRuns | apps/assessment/src/assessment.service.ts:8036-8193 | so over every run without them |
| TestCache.CopiesAreTrueExactly | apps/assessment/src/assessment.service.ts:8036-8193 | after every run, whatever was imported or changed on the way, the copies are true exactly if each copy of a published test was made of the test as it is now stored |
| TestCache.ImportLeavesOldCopy | apps/assessment/src/assessment.service.ts:9152-9225 | for example, a question imported into a test that was opened is missing from the next student's copy |
| TestCache.HitGivesWhatMissGives | apps/assessment/src/assessment.service.ts:8036-8193 | after every such run a student gets the same refusal, or the same questions, limits and remaining time, from the cache as without it |
| TestCache.HitIsMissExactly | apps/assessment/src/assessment.service.ts:8033-8077 | the two documents are equal exactly if the copy was stored at the same instant and with the same kind of end; else the server time or original time is that of an earlier request |
| TestCache.OpenedTestIsStoredTest | apps/assessment/src/assessment.service.ts:7974-8193 | an opened test is published, shows the stored questions in order, and leaves the time until the fixed end, or the full time |
| TestCache.TestService.GetAndSetOne | libs/common/src/services/redisCaching.service.ts:91-127 | returns the cached value, or stores the given one if there is any |
| TestCache.TestService.FindOneWithQuestions | apps/assessment/src/assessment.service.ts:7961-8193 | the code, with its two paths, gives the specified answer and new cache |
| TestCache.TestService.UpdateAssessment | apps/assessment/src/assessment.service.ts:1162-1173 | saves the test and drops both copies if it is now published |
| TestCache.TestService.WithDrawn | apps/assessment/src/assessment.service.ts:379-400 | revokes the test and drops both copies |
| FillBlanks.MatchesExactly | apps/assessment/src/practiceSetExcelService.ts:496-496 | a match is two opening braces, something without a closing brace, and two closing braces |
| FillBlanks.ScanIsUnique | apps/assessment/src/practiceSetExcelService.ts:495-508 | a text has at most one list of non-overlapping matches such that every match starts in one of them |
| FillBlanks.SpansAreTheScan | apps/assessment/src/practiceSetExcelService.ts:495-508 | the matches found are that list |
| FillBlanks.AnswersAreSpans | apps/assessment/src/practiceSetExcelService.ts:503-505 | the answers are what the matches enclose |
| FillBlanks.Scan | apps/assessment/src/practiceSetExcelService.ts:495-508 | the loop ends on every text and returns those answers |
| FillBlanks.PrintThenScan | apps/assessment/src/practiceSetExcelService.ts:495-508 | scanning a text printed from fragments without opening brace and non-empty answers without closing brace gives back exactly the answers |
| FillBlanks.ScanThenPrint | apps/assessment/src/practiceSetExcelService.ts:1257-1267 | every text is the print of its own pieces and answers |
| SheetImport.AnyCompletionOrder | apps/assessment/src/practiceSetExcelService.ts:905-1037 | whatever order the rows complete in, the sorted list is the saved rows in the order of the sheet |
| SheetImport.SheetOrderHolds | apps/assessment/src/practiceSetExcelService.ts:955-1027 | every saved row is in the list behind the saved rows before it, with its question and section, a stamp of 100 milliseconds per row, and the order of the sheet or else its row number |
| SheetImport.OrdersCountExactly | apps/assessment/src/practiceSetExcelService.ts:961-966 | without orders in the sheet the questions are numbered 1, 2, 3... exactly if no saved row comes after a dropped one |
| SheetImport.Import.Complete | apps/assessment/src/practiceSetExcelService.ts:1018-1027 | the end of a callback pushes the saved question, and nothing for a dropped row |
| SheetImport.Import.StorePracticeSetData | apps/assessment/src/practiceSetExcelService.ts:905-1040 | stores the saved rows in the order of the sheet, or nothing if a save failed |

## Left out

- The database, redis, gRPC, sockets, push messages, mail and file storage: replaced by in-memory records or dropped.
- Failures between two database writes of one game request: a request runs on to its end or throws where the code does; line 8528 does not await its `populate`, so that as written `gameAttempt.turns.forEach` at line 8555 throws on every tenth turn, no result is filed and the game stops there; `endGame` is modelled with the `populate` awaited, and the abandoned flag of game records, which no modelled code sets, is left out.
- The order of documents that `findOne` and `updateMany` choose in a game: any order is allowed in the state machine, and the object may find any that qualifies.
- Two overlapping requests of the same player in a game: one outstanding request per player is assumed.
- Concurrent starts or hand-ins within one attempt request, and a cache fill that overlaps an update: these requests are atomic in the model.
- Lifecycle.AttemptService.Process: does not model how answers are marked; the marks and the time that grading yields are part of the request.
- Lifecycle.AttemptService.SubmitToQueue: the submission names the attempt's own test; a client that names another test is not modelled.
- Lifecycle.AttemptService.Start: the classroom look-up is one flag that says whether the student is admitted; user logs and mail are left out.
- `questionSubmit`: it compares object references and may create attempts of its own that `totalJoinedStudent` does not count.
- TestCache.TestService.FindOneWithQuestions: the checks of subject, level, start date, attendance, attempt limit, payment and device are one flag, decided before the fixed end; the draw of a random test is a parameter; titles of university exams, the teacher's profile and the filter of coding languages are left out.
- TestCache.CopiesStayTrueExactly: writes of other services to a test or to the contents of its questions are not operations of the model.
- The refusal of a random test that has too few questions.
- FilterSplit.SplitSelectsTheSame: filters are flat objects of field conditions; nested operators such as `$or` are not split by the code and not modelled.
- FilterSplit.SummaryPractice: every detail holds an answer list.
- AttemptSummary.EachLineConservesTotals: numbers are integers, where the database may hold decimals.
- Percentiles.CalculatePercentile: exact real numbers instead of floating point; the override by a corrected percentage given in the request is left out.
- Ranks.GetRank: one model for both queries, which differ in score, direction and the condition on evaluation; unused columns are dropped.
- PracticeSet.Test.UpdateSections: a total time given in the request itself, which is saved if sections have no time limits, belongs to the other fields and is not modelled.
- Sections and renaming tables keyed by names that JavaScript objects inherit, such as `constructor`.
- PracticeSet.Test.RemoveQuestion: the clean-up of the question bank (lines 6446-6486) is left out, except that it throws, after the pull, if the question's own record is gone; it may itself delete the record of a question that another test still holds.
- PracticeSet.Test.ImportQuestion: a search without parameters is refused by the code and is not modelled; the search itself is a parameter.
- SheetImport.Import.StorePracticeSetData: reading and splitting of the two languages is one outcome per row; the fields of the test itself are left out.
- `FillBlanks.Scan`: the guard against empty matches in the loop never applies, because an answer has at least one character, and is left out.
- `storeQuestionData` and `saveAs`: they do not keep order and count when questions repeat or originals are missing.
- Career scoring, classroom speed summaries, access filters, login, locations, controllers: table look-ups, query building or wiring.

# LiveQuiz: verified models of the match, quiz, room and event protocols

LiveQuiz runs live quiz matches. Its difficult behaviour lives in a handful of protocols whose state is spread over Postgres rows, Redis keys, broker records and process fields. This project models those protocols in Dafny and proves what they keep over every run. Where a promise does not hold, it gives the run that breaks it and the exact condition under which it holds.

- `Lifecycle`: the life of one match (start, arm, close, pause, resume, end, crash, recover). Each database transaction is one step. What the service does after a commit is a pending task run by a later step, so timers may be late, duplicated or dropped.
- `Recovery`, `Ending`: how a match is put back on its timers, how it stalls, and who can end it.
- `Countdown`, `Grants`: the time a question is granted across pauses and resumes, and in any run at all.
- `MatchModel`, `MatchLedger`, `MatchHistory`, `MatchBoard`: the same match with its answers, outbox events, Redis leaderboard, idempotency cache and requests in flight.
- `MoveLaws`: what every move of a match writes, in full.
- `MatchService`: the service in its own imperative form; every method is proved to take the model's move and to keep what every run keeps.
- `Answers`, `Scoring`, `Ranking`, `Leaderboard`: sums over answers, points, the final ranking and the live leaderboards.
- `QuizOrder`: renumbering questions under a unique constraint that is checked row by row.
- `RateLimit`, `Snowflake`, `RoomAdmission`: the token bucket, the id generator and the seat counter.
- `Outbox`, `StreamWorker`, `ConsumerLaws`, `Pipeline`: the retrying publisher, the deduplicating consumer, and the two together from a committed answer to the analytics fact table.

Check the project with `dafny verify dfyconfig.toml`.

## Conventions

- Transactions are atomic; so is each Redis command and each Lua script. Post-commit work is a separate step, and so are a consumer's claim of an event and its dispatch.
- A call to the broker, to ClickHouse or for a claim may fail although it was carried out.
- A crash inside a dispatch or a flush of the consumer is a crash after it in which the inserts not reached have failed.
- Clocks, network outcomes, visiting orders, deliveries, selections and ids are parameters, so every theorem holds for all of them.
- Times in a match are microseconds; `total_seconds() * 1000` truncated to an integer is integer division by 1000. Floating point becomes exact integers or reals, with Python's `round` as half-to-even.
- Positions of questions are 1-based, as in the source.

## What was found false, and when it holds

- At most one open question: `resume_match` looks up the next question in a transaction of its own, so an `arm_question` that commits in between leaves two questions open (`Lifecycle.ResumeRace`). The same happens after a pause with no time left or a lost key. `Lifecycle.LookupSafeExactly` gives the exact condition on the look-up, `Lifecycle.TidyMatchesStayInOrder` one that a host can arrange.
- The leaderboard reset precedes the first answer: not if the host pauses and resumes before the post-commit hook of `start_match` has run; `MatchBoard.EarlyAnswerReached` is such a run, and it ends with points in the ledger and an empty board. `MatchBoard.ResetSafeExactly` says exactly when the reset is harmless.
- Idempotent answers: a request id that was used for another participant or question can be answered with that other row, from the transaction (`MatchLedger.ReusedRequestReached`) or from the cache (`MatchLedger.CachedForAnotherReached`). `MatchLedger.AcceptedIsOwnExactly` is the exact condition on every accepted response, and `MatchHistory.HitIsForeignExactly` says which earlier acceptance put a foreign response into the cache.
- A question gets its time limit once: not if a second copy of its arming is pending, as after a recovery right after the start (`Countdown.RestampReached`), and not if a resume reads an older pause key because the latest is still to be written (`Countdown.StaleKeyReached`: twenty seconds become thirty-four). `Countdown.LimitOnceExactly` is the exact condition when the question is armed, over continuations with clean look-ups and an ordered clock whose resumes hand out no more than was recorded; `Countdown.ResumePaysExactly` is the exact condition on a resume. After an unclean look-up the close of the question before stamps it again without any such copy (`Grants.UncleanRestampReached`). `Grants.TimeIsAccounted` accounts for every microsecond in every run, and `Grants.StampedAgainExactly` says when timers can stamp a question again.
- A match that is left to its timers ends: it does not. The timer that closes the last question is the registered task, `end_match` begins by cancelling the registered task, and so it dies before its commit (`Ending.UndisturbedMatchStalls`): every question is closed, the match stays running, nothing is pending and a recovery finds nothing to do. `Ending.EndsAloneExactly` says when a match can still end without the host, `Ending.NoMatchEndsAlone` that no run from the lobby does so without a recovery that finds the last question open and past its deadline, and `Ending.RecoveryEndsExactly` that such a recovery is exactly what it takes.
- A running match has something pending that will move it on: not after the end just described, a crash, or a pause at the deadline of the last question. `Ending.StuckExactly` says when no pending task can change anything any more, `Recovery.StallsExactly` which steps leave nothing pending. After a crash recovery helps if and only if some question is still to be closed (`Recovery.RecoveryRevivesExactly`, `Recovery.StalledMatchReached`); after a pause the resume helps if and only if its key names a position with time left or some question was never started (`Recovery.ResumeRevivesExactly`, `Recovery.ResumeStallReached`). The host can still end a stalled match.
- Positions stay 1..n: only for targets up to n + 1 (adding) or n (moving), since the request schema sets no upper bound (`QuizOrder.AddStaysDenseExactly`, `QuizOrder.MoveStaysDenseExactly`). Positions stay distinct and in order with gaps as well (`QuizOrder.EditKeepsOrder`).
- The rate bound: exactly for schedules in which the clock never goes back (`RateLimit.RateBoundExactly`).
- The room is never over capacity: a re-seed of the counter that overlaps joins can overfill it (`RoomAdmission.StaleReseedOverfills`). `RoomAdmission.ReseedSafeExactly`: a re-seed is safe if and only if it writes at least the seats taken when it is written.
- A poison message cannot stall the publisher: it can for as long as the dead-letter topic refuses (`Outbox.YoungerRowsStarve`, reached in `Outbox.StarvationReached`); `Outbox.BatchMovesExactly` is the exact condition for progress.
- A failed flush is repaired by redelivery: it is not, because the event id is claimed before the rows are safe (`StreamWorker.LossIsPermanent`, `StreamWorker.FailedInsertIsLost`, `StreamWorker.ClaimedIsLost`); `StreamWorker.ExactlyOnceExactly` is the exact condition. Offsets can even be committed for rows that are lost (`StreamWorker.CommittedButLost`); `StreamWorker.CommittedRowsExactly` says when they are not. The module text of workers/stream_worker/app/main.py promises redelivery; the model follows the code.

## Model

| member | source | states |
|---|---|---|
| `Lifecycle.OpenPosition` | backend/app/services/match_service.py:731-742 | the open question with the highest position, or that no question is open |
| `Lifecycle.NextUnstarted` | backend/app/services/match_service.py:836-846 | the first question that was never started, or that there is none |
| `Lifecycle.StatusStep` | backend/app/services/match_service.py:249-302 | one step keeps room and match status equal and the rows those snapshotted at the start, and changes nothing of a completed match |
| `Lifecycle.StatusRun` | backend/app/services/match_service.py:875-972 | in every run room and match status agree from the start on, and a completed match stays completed with its rows untouched |
| `Lifecycle.OrderArm` | backend/app/services/match_service.py:421-471 | arming keeps every pending timer safe to fire and the started questions a prefix |
| `Lifecycle.OrderClose` | backend/app/services/match_service.py:584-613 | closing does, and the task it schedules next is safe |
| `Lifecycle.OrderResume` | backend/app/services/match_service.py:802-833 | resuming does, whatever the pause key holds |
| `Lifecycle.OrderRecover` | backend/app/services/match_service.py:1419-1468 | recovery after a crash does |
| `Lifecycle.OrderStep` | backend/app/services/match_service.py:403-853 | every step with a clean look-up keeps the order invariant |
| `Lifecycle.QuestionsOpenInOrder` | backend/app/services/match_service.py:403-853 | over any run with clean look-ups, stale and duplicated timers included, started questions are a prefix, all but the last are closed, so at most one is open |
| `Lifecycle.LookupSafeExactly` | backend/app/services/match_service.py:834-851 | a pending look-up is safe for every continuation if and only if no question is open or none is left to start |
| `Lifecycle.TidyMatchesStayInOrder` | backend/app/services/match_service.py:743-851 | if each resume of an open question finds its key with time left and no arming commits before the look-up, the order holds in the whole match |
| `Lifecycle.ResumeRace` | backend/app/services/match_service.py:822-851 | a pause and resume before question 1 is armed can end with two open questions |
| `Lifecycle.OpenBeforeReset` | backend/app/services/match_service.py:325-385 | a question can be open while start_match still owes its leaderboard reset |
| `Ending.UndisturbedMatchStalls` | backend/app/services/match_service.py:537-866 | a match left to its timers plays every question in turn and then stays running with every question closed and nothing pending, because end_match cancels the registered timer it runs in; a recovery changes nothing |
| `Ending.NoMatchEndsAlone` | backend/app/services/match_service.py:686-866 | over any timers, pauses, resumes, crashes and recoveries no match is completed without the host's end_match or a recovery that finds its last question open and past its deadline |
| `Ending.EndsAloneExactly` | backend/app/services/match_service.py:148-156 | a match can still end without the host if and only if a finishing task that is not the registered one is pending, or a close of the open last question that will spawn one |
| `Ending.RecoveryEndsExactly` | backend/app/services/match_service.py:1454-1468 | after a crash a recovery lets the match end without the host if and only if it finds the last question open and past its deadline |
| `Ending.OverdueRecoveryReached` | backend/app/services/match_service.py:1454-1461 | a crash and a recovery after the deadline of the only question make such an end possible |
| `Ending.StuckExactly` | backend/app/services/match_service.py:403-703 | no continuation without the host and without a recovery changes a running match if and only if no pending task has an unclosed question to act on, a question to look up, or an end to bring |
| `Ending.StuckInRunExactly` | backend/app/services/match_service.py:403-703 | so it is in every run from the lobby |
| `Recovery.RecoveryRevivesExactly` | backend/app/services/match_service.py:1419-1468 | in every run, after a crash recovery puts a running match back on its timers if and only if some question is still to be closed |
| `Recovery.StalledMatchReached` | backend/app/services/match_service.py:1419-1468 | a crash after the last close leaves a running match with nothing pending, which recovery does not change |
| `Recovery.StallsExactly` | backend/app/services/match_service.py:403-853 | a step leaves a running match with nothing pending if and only if it takes the last pending task and schedules nothing in its place, or is a crash |
| `Recovery.ResumeRevivesExactly` | backend/app/services/match_service.py:802-851 | from a paused match with nothing pending, a resume and its look-up leave something pending if and only if the key names a position with time left or some question was never started |
| `Recovery.ResumeStallReached` | backend/app/services/match_service.py:743-851 | a pause at the deadline of the last question and a resume stall the match with that question open, without a crash |
| `Countdown.ClockStep` | backend/app/services/match_service.py:743-833 | one step spends its elapsed time from the question's budget, and a pause rounds off less than 1 ms |
| `Countdown.GrantedTimeMatchesLimit` | backend/app/services/match_service.py:743-833 | with clean look-ups, an ordered clock and no second copy of its arming about: while resumes hand out no more than the latest pause recorded, the un-paused time granted never exceeds the limit; while they read just that, granted plus still owed falls short by less than 1 ms per pause until the close |
| `Countdown.LimitOnceExactly` | backend/app/services/match_service.py:435-471 | no continuation with clean look-ups and an ordered clock, whose resumes hand out no more than the latest pause recorded, grants an armed question more than its limit if and only if no copy of its arming is pending and no start hook is about to schedule one |
| `Countdown.ResumePaysExactly` | backend/app/services/match_service.py:802-819 | after a resume no such continuation grants more than the latest pause recorded if and only if the key it reads says no more, or names another question and the old deadline leaves no more |
| `Countdown.StaleKeyReached` | backend/app/services/match_service.py:748-819 | a run from the lobby in which a resume overtakes the write of the pause key and a question of 20 seconds is granted 34 |
| `Countdown.RestampReached` | backend/app/services/match_service.py:1403-1469 | a recovery right after the start leads to a question whose limit can be granted twice |
| `Grants.TimeIsAccounted` | backend/app/services/match_service.py:435-833 | in every run, whatever its look-ups find, its keys say and its clocks read, the time granted to a question plus what it has left is what it had plus what arming, resumes, its close and the end added or took |
| `Grants.NoMoreThanLimit` | backend/app/services/match_service.py:435-833 | in every run in which no second stamp and no resume adds time a question is granted no more than its limit |
| `Grants.AddedTimeIsGranted` | backend/app/services/match_service.py:435-833 | each step that adds time can make the question exceed what it had left |
| `Grants.StampedAgainExactly` | backend/app/services/match_service.py:435-703 | the timers of a running match can stamp an unclosed question again if and only if a pending task leads to its arming: a copy of it, or a timer of an earlier question with no closed one from there on |
| `Grants.UncleanRestampReached` | backend/app/services/match_service.py:689-703 | a run from the lobby in which, after an unclean look-up, the close of question 1 stamps the open question 2 again and it is granted 40 seconds of 20 |
| `MatchService.Match.StartMatch` | backend/app/services/match_service.py:223-323 | the three refusals in order, otherwise the Start move; like every method below it keeps the constraints, one event per answer, one finish event and the final ranking, and leaves a completed match as it was |
| `MatchService.Match.AfterStart` | backend/app/services/match_service.py:325-385 | the post-commit hook resets the leaderboard and schedules question 1 |
| `MatchService.Match.ArmQuestion` | backend/app/services/match_service.py:403-541 | takes the FireArm move: started now, due the time limit later |
| `MatchService.Match.CloseQuestion` | backend/app/services/match_service.py:565-703 | takes the FireClose move: closed now |
| `MatchService.Match.PauseMatch` | backend/app/services/match_service.py:714-749 | the refusals, otherwise the PauseMatch move |
| `MatchService.Match.StorePauseKey` | backend/app/services/match_service.py:755-768 | the pause key is written after the commit |
| `MatchService.Match.ResumeMatch` | backend/app/services/match_service.py:777-833 | the refusals, otherwise the ResumeMatch move |
| `MatchService.Match.ArmNextQuestion` | backend/app/services/match_service.py:834-851 | the look-up of resume_match in its own transaction |
| `MatchService.Match.EndMatch` | backend/app/services/match_service.py:861-956 | the refusals, otherwise the match is completed, with exactly those who answered or were in the room ranked |
| `MatchService.Match.FinishMatch` | backend/app/services/match_service.py:686-866 | end_match as reached from the last close: nothing is committed if it runs in the registered task, which it cancels first |
| `MatchService.Match.Recover` | backend/app/services/match_service.py:1403-1469 | takes the Recover move |
| `MatchService.Match.ProbeCache` | backend/app/services/match_service.py:1043-1047 | a hit is returned as it stands |
| `MatchService.Match.CheckAnswer` | backend/app/services/match_service.py:1040-1120 | every check in order |
| `MatchService.Match.SubmitAnswer` | backend/app/services/match_service.py:1065-1234 | the insert under its constraints and the look-up after a collision; an inserted answer is the only row of its participant and question |
| `MatchService.Match.CreditLeaderboard` | backend/app/services/match_service.py:1253-1293 | the post-commit increment of a genuine insert and its reply, which conserves everybody's points |
| `MatchService.Match.CacheReply` | backend/app/cache/idempotency.py:48-68 | the first writer of a request id wins: a response is added only where there is none |
| `MatchService.Match.SendReply` | backend/app/services/match_service.py:1291-1293 | a response goes out once it is cached |
| `MatchModel.Find` | backend/app/services/match_service.py:1191-1202 | a matching row if there is one |
| `MatchModel.Announced` | backend/app/services/match_service.py:304-323 | a step announces the end exactly when it completes the match, and never an answer |
| `MoveLaws.StartWrites` | backend/app/services/match_service.py:223-323 | the start in full: statuses, one untouched row for each question, the event, the hook |
| `MoveLaws.HookWrites` | backend/app/services/match_service.py:325-385 | its hook empties the board and schedules question 1 |
| `MoveLaws.ArmWrites` | backend/app/services/match_service.py:421-542 | an arming in full: started now, due the time limit later, its event, its close timer registered |
| `MoveLaws.CloseWrites` | backend/app/services/match_service.py:584-703 | a close in full: closed now, its event, the next question or the end scheduled |
| `MoveLaws.EndWrites` | backend/app/services/match_service.py:861-956 | the end in full, and nothing the second time |
| `MoveLaws.FinishWrites` | backend/app/services/match_service.py:686-866 | the end after the last close, and nothing in the registered task |
| `MoveLaws.PauseWrites` | backend/app/services/match_service.py:714-768 | a pause in full, with the whole milliseconds up to the open question's deadline |
| `MoveLaws.ResumeWrites` | backend/app/services/match_service.py:777-834 | a resume in full, by the key it reads |
| `MoveLaws.RecoverWrites` | backend/app/services/match_service.py:1403-1469 | a recovery in full |
| `MoveLaws.KickWrites` | backend/app/services/moderation_service.py:613 | a kicked participant may not play, and nobody else changes |
| `MoveLaws.SubmitWrites` | backend/app/services/match_service.py:1152-1234 | the row with its event and hook, or the reply to a collision, or nothing |
| `MoveLaws.CreditWrites` | backend/app/services/match_service.py:1240-1293 | the score goes to its participant once, and the insert's own reply is on its way |
| `MoveLaws.CacheWrites` | backend/app/cache/idempotency.py:48-68 | a key that is there keeps its response |
| `MoveLaws.FirstWriterWins` | backend/app/cache/idempotency.py:48-68 | until its key expires a cached response stays what it is, over any run |
| `MoveLaws.AnswerTimeIsElapsed` | backend/app/services/match_service.py:466-1150 | an answer accepted d microseconds after its question was armed records d / 1000 ms whatever happened between, and without a resume a correct one earns its bonus over the whole time limit |
| `MatchLedger.NewRowEarned` | backend/app/services/match_service.py:1084-1150 | an accepted answer is on an armed question and within its points |
| `MatchLedger.InsertedExactly` | backend/app/services/match_service.py:1040-1187 | an attempt becomes a row if and only if its question is open with 200 ms of grace, its participant may play, its options belong to the question and nothing collides; and what the row then records, the score over the window between its question's own stamps included |
| `MatchLedger.VerdictExactly` | backend/app/services/match_service.py:1040-1202 | each refusal and each collision by its own condition, in the order of the checks |
| `MatchLedger.KickedScoresNoMore` | backend/app/services/match_service.py:1098-1109 | a kicked player never scores again |
| `MatchLedger.RowsStep` | backend/app/db/models/answer_submission.py:16-21 | one move keeps the constraints and one event per row |
| `MatchLedger.RowsRun` | backend/app/services/match_service.py:1152-1234 | in every run, crashes included, one row per request and per pair, one AnswerSubmitted event per row in the same order |
| `MatchLedger.TotalWithinArmedPoints` | backend/app/services/scoring_service.py:37-48 | nobody ever holds more than the points of the questions armed so far |
| `MatchLedger.RepliesAgree` | backend/app/services/match_service.py:1044-1293 | all accepted responses for a pair agree on id, correctness, score and time, over concurrent and retried submits, crashes and cache expiry |
| `MatchLedger.AcceptedIsOwnExactly` | backend/app/services/match_service.py:1043-1202 | an accepted response is of the caller's own participant and question if and only if what the cache probe found is not another pair's, or on a miss no other pair's row carries the request id |
| `MatchLedger.ToldRun` | backend/app/services/match_service.py:1291-1293 | in every run, whatever request ids are used, each cached, pending and accepted response tells a committed row |
| `MatchHistory.HistoryRun` | backend/app/services/match_service.py:1152-1293 | in every run each row, pending reply and cached response goes back to an acceptance under its request id, and each cached response to its write |
| `MatchHistory.HitIsForeignExactly` | backend/app/services/match_service.py:1043-1047 | the cache answers with another pair's row if and only if another pair was accepted under this request id with its own row and that response is the one that was cached |
| `MatchLedger.CachedForAnotherReached` | backend/app/services/match_service.py:1043-1047 | a run from the lobby in which a player is accepted from the cache with another player's row, although no row carries the request id |
| `MatchLedger.DuplicateIsOwnRowExactly` | backend/app/services/match_service.py:1188-1202 | inside the transaction: a collision is answered with a row of its own pair if and only if no other pair's row carries the request id |
| `MatchLedger.ReusedRequestReached` | backend/app/services/match_service.py:1188-1202 | a run from the lobby in which a player is accepted with another player's row |
| `MatchBoard.OwedStep` | backend/app/services/match_service.py:1240-1259 | what the leaderboard misses changes only by failed hooks, crashes and the reset, and by how much |
| `MatchBoard.PointsConserved` | backend/app/services/match_service.py:1152-1259 | in every run Redis score, deltas in flight and losses add up to the committed points |
| `MatchBoard.BalancedRun` | backend/app/services/match_service.py:1240-1259 | while no hook is dropped and no reset comes late nothing is lost and exactly the credited players are on the board |
| `MatchBoard.ResetSafeExactly` | backend/app/services/match_service.py:340-341 | the reset keeps the balance if and only if the board is still empty |
| `MatchBoard.PatientRunsAreLossless` | backend/app/services/match_service.py:325-385 | runs that drop no hook, and without a resume or recovery while the reset is owed, lose nothing |
| `MatchBoard.EarlyAnswerIsWiped` | backend/app/services/match_service.py:340-341 | an answer credited before the reset is wiped from the board |
| `MatchBoard.EarlyAnswerReached` | backend/app/services/match_service.py:325-385 | a crash-free run from the lobby that ends with points in the ledger, nothing in flight and an empty board |
| `MatchBoard.FrozenStep` | backend/app/services/match_service.py:883-886 | one move changes no status, row, answer or final score of a completed match |
| `MatchBoard.CompletedIsFinal` | backend/app/services/match_service.py:883-886 | no run does |
| `MatchBoard.RankedExactly` | backend/app/services/match_service.py:906-915 | the final list of a roster holds exactly those who answered or may play, ranked as promised |
| `MatchBoard.CompletedMatchStands` | backend/app/services/match_service.py:936-972 | whatever precedes and follows the end: exactly one MatchFinished event, a list of exactly those who answered or were in the room and not kicked at that moment, final totals equal to the sums of the answers for ever, and in all to every point awarded |
| `MatchBoard.CompletedMeansEnded` | backend/app/services/match_service.py:883-942 | every run of a completed match has such a moment |
| `MatchBoard.LeaderboardsAgree` | backend/app/services/match_service.py:1317-1395 | with no hook in flight Redis, SQL and the final list show the same score at every rank, with only zeros behind |
| `Answers.TotalsConserved` | backend/app/services/match_service.py:895-904 | totals over all who answered add up to every point awarded |
| `Scoring.RoundIsNearestEven` | backend/app/services/scoring_service.py:48 | the rounding is the nearest integer, ties to even, and nothing else is |
| `Scoring.ScoreBounds` | backend/app/services/scoring_service.py:37-48 | awards lie in 0..points, a correct speed-bonus award at least at half, rounded half to even |
| `Scoring.BonusExactly` | backend/app/services/scoring_service.py:41-48 | at every moment a correct speed-bonus answer earns points times one minus half the share of the window used, rounded half to even |
| `Scoring.ScoreExtremes` | backend/app/services/scoring_service.py:7-11 | an immediate answer earns everything, one at the deadline half |
| `Scoring.ScoreCases` | backend/app/services/scoring_service.py:37-48 | zero for a wrong answer, everything for a fixed, instant or zero-window one, the exact bonus for any other correct one |
| `Scoring.ScoreNeverRises` | backend/app/services/scoring_service.py:45-48 | a slower answer never earns more |
| `Ranking.TallySubmissions` | backend/app/services/match_service.py:894-904 | the dictionary holds each submitter's sums in order of first appearance |
| `Ranking.Aggregate` | backend/app/services/match_service.py:906-915 | with every player who was not kicked added once |
| `Ranking.SortLaws` | backend/app/services/match_service.py:924-929 | the sort orders by key and is a permutation |
| `Ranking.FinalTiesExact` | backend/app/services/match_service.py:925-927 | a tied non-answerer ranks behind an answerer if and only if that average is at most 10^9 |
| `Answers.CountsAreCardinalities` | backend/app/services/match_service.py:895-904 | the counts of answers and of correct answers count the rows |
| `Ranking.TiesKeepArrival` | backend/app/services/match_service.py:892-929 | entrants with the same total and average rank in the order in which they first answered or joined |
| `Ranking.FinalListIsFinalRanking` | backend/app/services/match_service.py:890-956 | ranks 1..n, each entrant once with its points, its number of correct answers and its average cut to whole milliseconds, ordered by total then average, totals conserved |
| `Ranking.Finalise` | backend/app/services/match_service.py:889-956 | the loops of end_match compute that ranking |
| `Leaderboard.Top` | backend/app/cache/leaderboard.py:111-141 | the first rows of the sorted set with ranks and nicknames, and nobody left out beats them |
| `Leaderboard.LimitsExactly` | backend/app/cache/leaderboard.py:120-124 | Redis lists at least one row if there is one, and as many as SQL for n at least 1 |
| `Leaderboard.GroupScores` | backend/app/services/match_service.py:1343-1362 | the grouped sums of the SQL leaderboard |
| `Leaderboard.ListingsAgree` | backend/app/cache/leaderboard.py:120-124 | any two orders of one board, however ties fall, show the same scores |
| `Leaderboard.LiveBoardsAgree` | backend/app/services/match_service.py:1343-1395 | Redis and SQL show the same score at every rank and cut off alike for n at least 1 |
| `Leaderboard.FinalContinuesLive` | backend/app/services/match_service.py:1317-1341 | the final list repeats the live scores and has zeros behind them |
| `QuizOrder.NeverClashesExactly` | backend/app/repositories/quiz_repo.py:241-246 | a bulk UPDATE is safe in every visiting order if and only if no pair of rows clashes |
| `QuizOrder.PlainShiftClashes` | backend/app/repositories/quiz_repo.py:241-246 | the one-statement shift fails in some order |
| `QuizOrder.ParkAndReturn` | backend/app/repositories/quiz_repo.py:249-292 | both statements are safe in every order and together they shift |
| `QuizOrder.ParkingSafeExactly` | backend/app/repositories/quiz_repo.py:253-262 | parking is safe exactly when no row sits where another would be parked |
| `QuizOrder.ShiftExactly` | backend/app/repositories/quiz_repo.py:249-292 | the two statements are the shift if and only if every row was below the sentinel |
| `QuizOrder.Questions.BulkUpdate` | backend/app/repositories/quiz_repo.py:254-270 | the row-by-row UPDATE succeeds when no order clashes, and otherwise undoes itself |
| `QuizOrder.Questions.ParkThenReturn` | backend/app/repositories/quiz_repo.py:249-292 | the two statements shift the matching rows |
| `QuizOrder.Questions.MaxPosition` | backend/app/repositories/quiz_repo.py:235-239 | the largest position, 0 for none |
| `QuizOrder.Questions.AddQuestion` | backend/app/services/quiz_service.py:212-235 | in any table below the park value: succeeds, repeats no position, keeps the order of the others; in a dense one inserts into the list |
| `QuizOrder.Questions.DeleteQuestion` | backend/app/services/quiz_service.py:383-411 | the same for a deletion; in a dense table removes from the list |
| `QuizOrder.Questions.Relocate` | backend/app/services/quiz_service.py:338-380 | the park, shift and drop writes succeed on a safe move |
| `QuizOrder.Questions.MoveQuestion` | backend/app/services/quiz_service.py:323-380 | the same for a move to any target below the park value; in a dense table removes and re-inserts |
| `QuizOrder.MoveIsSafe` | backend/app/services/quiz_service.py:338-380 | in any table below the park value no intermediate table of a move repeats a position, and the others keep their order |
| `QuizOrder.MakingRoomIsSafe` | backend/app/repositories/quiz_repo.py:249-270 | nor does the shift that makes room for a new question, which leaves its place free |
| `QuizOrder.ClosingGapIsSafe` | backend/app/repositories/quiz_repo.py:272-292 | nor the renumbering after a deletion |
| `QuizOrder.EditKeepsOrder` | backend/app/services/quiz_service.py:212-411 | each edit, gaps or not, puts its question where asked, repeats no position and keeps the others in order |
| `QuizOrder.SessionStaysRegular` | backend/app/services/quiz_service.py:212-411 | over any session below the park value no two questions share a position |
| `QuizOrder.EditRefines` | backend/app/services/quiz_service.py:212-411 | each edit of the table is the edit of the list |
| `QuizOrder.SessionRefinesList` | backend/app/services/quiz_service.py:212-411 | over any session positions are exactly 1..n in the order of the edited list |
| `QuizOrder.EditsUndo` | backend/app/services/quiz_service.py:323-411 | moving back, and deleting what was added, restores every position |
| `QuizOrder.AddStaysDenseExactly` | backend/app/services/quiz_service.py:214-225 | adding keeps 1..n+1 if and only if the target is at most n + 1 |
| `QuizOrder.MoveStaysDenseExactly` | backend/app/services/quiz_service.py:323-380 | moving keeps 1..n if and only if the target is at most n |
| `RateLimit.Limiter.Take` | backend/app/cache/rate_limit.py:31-69 | one script run on one key, the others untouched |
| `RateLimit.AcquireExactly` | backend/app/cache/rate_limit.py:31-69 | one call in full: tokens found, decision, tokens and time kept, answer |
| `RateLimit.FoundIsLevel` | backend/app/cache/rate_limit.py:44-54 | the tokens found are those left plus the refill since, at most the capacity, and the capacity for a new or expired key |
| `RateLimit.ExpiryIsInvisible` | backend/app/cache/rate_limit.py:98 | a key dropped after its TTL held a full bucket |
| `RateLimit.ExpiryNeverShows` | backend/app/cache/rate_limit.py:44-69 | over any run expiry changes no answer |
| `RateLimit.DeniedIsNoOp` | backend/app/cache/rate_limit.py:56-67 | a refused call changes no later answer |
| `RateLimit.RetryAfterIsExact` | backend/app/cache/rate_limit.py:61-64 | refused 1 ms before retry_after_ms, and allowed at it if and only if the cost fits the bucket |
| `RateLimit.RemainingIsExact` | backend/app/cache/rate_limit.py:56-69 | right after a call another is allowed if and only if it costs no more than `remaining` |
| `RateLimit.RateIsRespected` | backend/app/cache/rate_limit.py:44-66 | the cost allowed is at most the capacity plus the refill over the time |
| `RateLimit.AnyClockRateIsRespected` | backend/app/cache/rate_limit.py:48-51 | with any clock it is bounded by the clock's forward travel |
| `RateLimit.RateBoundExactly` | backend/app/cache/rate_limit.py:48-51 | the bound holds for all buckets and costs at given times if and only if they never go back |
| `Snowflake.DecodeInverts` | backend/app/core/ids/snowflake.py:86-107 | decode gives back time, worker and sequence |
| `Snowflake.FitsExactly` | backend/app/core/ids/snowflake.py:3-6 | an id fits 63 bits exactly while the offset is in [0, 2^41) |
| `Snowflake.SnowflakeGenerator.Create` | backend/app/core/ids/snowflake.py:56-72 | worker ids outside 0..1023 are refused |
| `Snowflake.SnowflakeGenerator.NextId` | backend/app/core/ids/snowflake.py:74-90 | one call takes the Mint step |
| `Snowflake.SnowflakeGenerator.WaitUntilNextMs` | backend/app/core/ids/snowflake.py:92-96 | the first reading past the last millisecond |
| `Snowflake.SequenceWraps` | backend/app/core/ids/snowflake.py:80 | the sequence counts to 4095 and wraps |
| `Snowflake.MintExactly` | backend/app/core/ids/snowflake.py:74-96 | every call by its first reading, with time and sequence as the id decodes to |
| `Snowflake.MintAdvances` | backend/app/core/ids/snowflake.py:74-90 | a minted id passes the previous one, an error changes nothing |
| `Snowflake.IdsStrictlyIncrease` | backend/app/core/ids/snowflake.py:74-96 | whatever the clock reads, one generator's ids strictly increase and name their worker |
| `Snowflake.WorkersNeverCollide` | backend/app/core/ids/snowflake.py:86-90 | different workers never mint the same id |
| `Snowflake.RestartSafeExactly` | backend/app/core/ids/snowflake.py:34-37 | whatever the clock reads, a restart is safe if and only if the first reading used is past the last millisecond used |
| `RoomAdmission.Shared.AdmitScript` | backend/app/cache/redis.py:59-65 | the new count, or -1 exactly when the room is full |
| `RoomAdmission.Shared.ReleaseScript` | backend/app/cache/redis.py:73-79 | a decrement floored at 0 |
| `RoomAdmission.Shared.BeginJoin` | backend/app/services/room_service.py:322-331 | admission takes the Admit step |
| `RoomAdmission.Shared.InsertParticipant` | backend/app/services/room_service.py:333-351 | the INSERT fails exactly on a taken nickname |
| `RoomAdmission.Shared.ReleaseSeat` | backend/app/services/room_service.py:347-357 | the compensating release |
| `RoomAdmission.Shared.CountParticipants` | backend/app/services/room_service.py:104-137 | the count read for a re-seed |
| `RoomAdmission.Shared.SeedCounter` | backend/app/services/room_service.py:448-451 | the re-seed overwrites the counter |
| `RoomAdmission.StepsExactly` | backend/app/services/room_service.py:322-451 | each step in full |
| `RoomAdmission.SeatsAfter` | backend/app/services/room_service.py:322-357 | how each step changes the seats taken |
| `RoomAdmission.NeverOverCapacity` | backend/app/services/room_service.py:322-357 | with no re-seed mid-join, active players plus seats in flight are within the counter, the counter within the room, and no release is floored |
| `RoomAdmission.ReseedSafeExactly` | backend/app/services/room_service.py:448-451 | a re-seed, however stale, is safe for every continuation if and only if it writes at least the seats taken when it is written |
| `RoomAdmission.CoveredNeverOverCapacity` | backend/app/services/room_service.py:322-451 | however joins and re-seeds overlap, if each re-seed writes at least the seats then taken the room is never over capacity |
| `RoomAdmission.Overfill` | backend/app/services/room_service.py:322-357 | whenever the counter is short of the seats taken, ordinary joins overfill the room |
| `RoomAdmission.StaleReseedOverfills` | backend/app/services/room_service.py:448-451 | a stale re-seed puts three players in a room of two |
| `RoomAdmission.SeatsConserved` | backend/app/services/room_service.py:322-357 | the counter is the seats taken plus one for each kick and crash |
| `RoomAdmission.FullExactly` | backend/app/services/room_service.py:324-331 | ROOM_FULL if and only if seats taken and lost fill the room |
| `Outbox.Publisher.Attempt` | workers/outbox_publisher/app/main.py:331-385 | one send: dead-letter or ordinary topic, counted failure, back-off |
| `Outbox.Publisher.SendAll` | workers/outbox_publisher/app/main.py:330-385 | the loop counts every failure, collects the acknowledged ids and records every stored send |
| `Outbox.Publisher.ProcessBatch` | workers/outbox_publisher/app/main.py:314-390 | one batch takes the model's step, committed or rolled back |
| `Outbox.TopicsExactly` | workers/outbox_publisher/app/topics.py:21-47 | the topic of each event type |
| `Outbox.SendExactly` | workers/outbox_publisher/app/main.py:331-385 | what one send does to its row, and the record it leaves on which topic |
| `Outbox.BatchExactly` | workers/outbox_publisher/app/main.py:314-390 | one batch in full, committed or rolled back |
| `Outbox.InvRun` | workers/outbox_publisher/app/main.py:314-390 | in every run attempts never pass 10 and the broker holds only the rows' own events on their own topic, or on the dead-letter topic after ten failures |
| `Outbox.PublishedMeansSent` | workers/outbox_publisher/app/main.py:364-388 | acknowledged sends of an event are one if published, none if not, plus those of rolled-back batches |
| `Outbox.BatchMovesExactly` | workers/outbox_publisher/app/main.py:342-385 | the sum of 11 - attempts over unpublished rows falls if and only if some send was not a refused dead-letter send |
| `Outbox.OutboxDrains` | workers/outbox_publisher/app/main.py:314-390 | with the dead-letter topic accepting, a finite outbox drains whichever ordinary sends fail, whatever other replicas lock and however often batches roll back |
| `Outbox.EveryBatchCounts` | workers/outbox_publisher/app/main.py:314-390 | with any number of publishers and new rows coming in, each committed batch that holds a row takes at least one off the backlog |
| `Outbox.PollMoves` | workers/outbox_publisher/app/main.py:314-390 | what one registration or batch does to the backlog |
| `Outbox.ElevenRoundsForEachRow` | workers/outbox_publisher/app/main.py:342-362 | from every reachable state eleven rounds for each row are enough |
| `Outbox.BatchExists` | workers/outbox_publisher/app/main.py:289-296 | every table has a selection as the SELECT describes it, with any row first or last among those of its time |
| `Outbox.SelectedExactly` | workers/outbox_publisher/app/main.py:289-296 | a row can be selected if and only if fewer than a hundred unlocked candidates are older, and must be if and only if fewer than a hundred others are no younger |
| `Outbox.YoungerRowsStarve` | workers/outbox_publisher/app/main.py:289-296 | a hundred exhausted rows refused by the dead-letter topic keep every younger row from being sent |
| `Outbox.StarvationReached` | workers/outbox_publisher/app/main.py:342-385 | ten batches during an outage get there |
| `StreamWorker.Consumer.DoInsert` | workers/stream_worker/app/clickhouse_client.py:69-81 | an insert of rows succeeds, fails, or is stored and reported as failed |
| `StreamWorker.Consumer.InsertRows` | workers/stream_worker/app/clickhouse_client.py:83-117 | buffered, and drained before the insert once the batch is full |
| `StreamWorker.Consumer.FlushTables` | workers/stream_worker/app/clickhouse_client.py:119-150 | due buffers are cleared, then inserted up to the first failure |
| `StreamWorker.Consumer.ClaimEvent` | workers/stream_worker/app/dedupe.py:27-37 | true exactly for the first claim of an id, and recorded even if the call fails after Redis stored it |
| `StreamWorker.Consumer.DispatchEvent` | workers/stream_worker/app/handlers/answer.py:37-83 | the audit row, then the fact row of a complete answer; a flush when a match finished |
| `StreamWorker.Consumer.HandleMessage` | workers/stream_worker/app/main.py:209-273 | whether the offset is safe, and the state after the claim and the dispatch |
| `StreamWorker.Consumer.Poll` | workers/stream_worker/app/main.py:342-379 | each partition handled before the first failure is committed past its last record, every other stays, only after a successful flush and commit call, and the buffers end up empty |
| `StreamWorker.OffsetsExactly` | workers/stream_worker/app/main.py:347-356 | the offsets to commit: one past the last record of each partition |
| `ConsumerLaws.CommitCoversExactly` | workers/stream_worker/app/main.py:347-376 | a record of the poll lies below the committed offset of its partition if and only if it was handled before the first failure |
| `ConsumerLaws.RowsExactly` | workers/stream_worker/app/handlers/answer.py:37-83 | the audit row of every event and the fact row of a complete answer |
| `ConsumerLaws.InsertManyWrites` | workers/stream_worker/app/clickhouse_client.py:83-117 | below the batch size rows are only buffered, a full batch is taken out and inserted as a whole |
| `ConsumerLaws.FlushWrites` | workers/stream_worker/app/clickhouse_client.py:119-150 | the due buffers are taken, audit rows first, facts only after those were reported stored |
| `ConsumerLaws.DispatchWrites` | workers/stream_worker/app/main.py:192-208 | the order of the handlers' inserts, and the flush at the end of a match |
| `ConsumerLaws.SafeExactly` | workers/stream_worker/app/main.py:209-273 | when an offset is safe |
| `StreamWorker.StepLaw` | workers/stream_worker/app/clickhouse_client.py:83-150 | a step only leaves rows out, and none exactly when its inserts land with nothing left behind, its claim is answered, and no crash hits rows or a claimed event |
| `StreamWorker.AtMostOnce` | workers/stream_worker/app/main.py:249-271 | whatever fails, tables, buffers and hand hold rows of first deliveries in order, none twice |
| `StreamWorker.ExactlyOnceExactly` | workers/stream_worker/app/clickhouse_client.py:83-150 | they hold all of them if and only if every insert landed with nothing left behind it, no claim was stored without an answer, and no crash hit rows in a buffer or an event between claim and dispatch |
| `StreamWorker.LossIsPermanent` | workers/stream_worker/app/main.py:249-271 | no redelivery brings lost rows back |
| `StreamWorker.FailedInsertIsLost` | workers/stream_worker/app/clickhouse_client.py:107-117 | one failed flush loses its row although the event is delivered again |
| `StreamWorker.ClaimedIsLost` | workers/stream_worker/app/main.py:249-264 | so does a process killed between claim and dispatch, and a claim stored without an answer |
| `StreamWorker.CommittedRowsExactly` | workers/stream_worker/app/main.py:342-379 | after a poll that flushed, the tables hold the rows of all events first delivered by the records whose offsets are committed if and only if handling those lost nothing and the record that failed spared their buffered rows |
| `StreamWorker.CommittedButLost` | workers/stream_worker/app/clickhouse_client.py:105-117 | an offset is committed for a row that a later record's failed insert took with it |
| `StreamWorker.BuffersBounded` | workers/stream_worker/app/clickhouse_client.py:105-150 | buffers stay under the batch size and are empty after every flush before a commit |
| `StreamWorker.TimeTriggerNeverFires` | workers/stream_worker/app/main.py:338-340 | in the poll loop's order the time trigger finds no row |
| `Pipeline.WantedRaw` | workers/stream_worker/app/dedupe.py:27-37 | the first deliveries are exactly the events delivered |
| `Pipeline.PublishedIsOnTopic` | workers/outbox_publisher/app/main.py:364-388 | a row published without ten failures left its event on a consumed topic |
| `Pipeline.EventsArriveOnce` | workers/stream_worker/app/main.py:60-65 | publisher and consumer together: with at-least-once delivery and nothing lost, the consumer holds each event on the topics exactly once and nothing else, in the tables themselves once it is idle |
| `Pipeline.FactsAreAnswers` | workers/stream_worker/app/handlers/answer.py:37-83 | the consumer holds exactly the committed answers, each once, in the fact table itself once it is idle |
| `Pipeline.AnalyticsMatchLedger` | backend/app/services/match_service.py:1210-1234 | the scores analytics add up for a participant, over the fact table once the consumer is idle, equal the ledger, and the announced final score |

## Left out

- When a timer fires: timers may be late without bound, so nothing is said about how soon a match moves on.
- Refusals for an unknown room code or match id, except ending a match that was never started: the model holds one room.
- MatchScheduler: a task carries whether it is the registered one; that registering a timer cancels the one before is the model's DropTask, which may also hit any other task at any moment.
- Reads of the matches row without a lock inside a transaction: transactions are atomic here.
- Editing a quiz while its match runs: limits, points and options are those at the start of the match.
- Request ids shared between matches: the model holds one match, so the uniqueness of a request id across matches is the binding hypothesis of MatchLedger.RepliesAgree.
- The answered set, the nickname cache and the current-question snapshot in Redis, and all broadcasts: they feed displays only.
- Loss of Redis data other than the pause key and idempotency keys: an evicted leaderboard or seat counter is not modelled beyond the reset and the re-seed.
- The 24-hour lifetime of consumer claims: a claim outlives the run.
- Redis expiry in the rate limiter follows the caller's clock.
- Floating-point rounding: exact integers and reals instead.
- Kafka partitions and rebalancing, the ClickHouse merge engines, the materialised view and the cache warming of the match handler.
- Sleeping between batches in the publisher; only the back-off values are modelled.
- Retry of a room code in create_room, moderation, authentication, routers, analytics queries, the quiz list cache, seeds and the whole frontend: input and output, or single branches that say nothing beyond themselves.
- QuizOrder.Questions.AddQuestion: states its effect for positions below the park value 999,999, because others can collide with parked rows (QuizOrder.ParkingSafeExactly).
- QuizOrder.Questions.MoveQuestion: the same, for the table and the target.

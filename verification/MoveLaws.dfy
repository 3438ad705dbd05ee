/** What each move of a match writes, in full and in its own terms
    (backend/app/services/match_service.py, backend/app/cache/idempotency.py). */
module MoveLaws {
  import opened Common
  import opened Answers
  import opened Leaderboard
  import opened Ranking
  import opened Scoring
  import opened MatchModel
  import opened MatchLedger
  import L = Lifecycle

  // ---------------------------------------------------------------------------
  // The match's life
  // ---------------------------------------------------------------------------

  ghost predicate Untouched(rows: seq<L.QuestionRow>, n: nat) {
    |rows| == n && forall i :: 0 <= i < n ==> rows[i] == L.QuestionRow(None, None, None)
  }

  /** start_match: the statuses, one untouched row for each question, the event, the hook. */
  lemma StartWrites(s: State, quiz: seq<Question>, now: int)
    ensures var s' := Apply(s, quiz, Live(L.Start(now)));
            if s.life.room == L.Lobby && quiz != [] then
              && Untouched(s'.life.rows, |quiz|)
              && s' == State(L.Life(L.Running, Some(L.Running), s'.life.rows, s.life.key, s.life.tasks + multiset{L.StartHook}),
                             s.ledger.(outbox := s.ledger.outbox + [MatchStarted(|quiz|)]))
            else s' == s
  {
  }

  /** Its hook: the board is emptied and question 1 scheduled. */
  lemma HookWrites(s: State, quiz: seq<Question>, now: int)
    ensures Apply(s, quiz, Live(L.RunStartHook(now))) ==
            if L.StartHook in s.life.tasks then
              s.(life := s.life.(tasks := s.life.tasks - multiset{L.StartHook} + multiset{L.Arm(1)}),
                 ledger := s.ledger.(board := map[]))
            else s
  {
  }

  /** May the timer of question k act? */
  predicate Acts(l: L.Life, task: L.Task, k: nat) {
    task in l.tasks && 1 <= k <= |l.rows| && l.rows[k - 1].closed.None? && l.game == Some(L.Running)
  }

  /** arm_question: started now, due the time limit later, the close timer registered. */
  lemma ArmWrites(s: State, quiz: seq<Question>, k: nat, now: int)
    requires |s.life.rows| <= |quiz|
    ensures var rest := s.life.tasks - multiset{L.Arm(k)};
            Apply(s, quiz, Live(L.FireArm(k, now))) ==
            if Acts(s.life, L.Arm(k), k) then
              State(s.life.(rows := s.life.rows[k - 1 := L.QuestionRow(Some(now), Some(now + quiz[k - 1].limitSeconds * 1_000_000), None)],
                            tasks := rest + multiset{L.Close(k, true)}),
                    s.ledger.(outbox := s.ledger.outbox + [QuestionStarted(k)]))
            else s.(life := s.life.(tasks := rest))
  {
  }

  /** close_question: closed now, and the next question or the end scheduled. */
  lemma CloseWrites(s: State, quiz: seq<Question>, k: nat, registered: bool, now: int)
    ensures var rest := s.life.tasks - multiset{L.Close(k, registered)};
            Apply(s, quiz, Live(L.FireClose(k, registered, now))) ==
            if Acts(s.life, L.Close(k, registered), k) then
              State(s.life.(rows := s.life.rows[k - 1 := L.QuestionRow(s.life.rows[k - 1].started, s.life.rows[k - 1].deadline, Some(now))],
                            tasks := rest + multiset{if k == |s.life.rows| then L.Finish(registered) else L.Arm(k + 1)}),
                    s.ledger.(outbox := s.ledger.outbox + [QuestionClosed(k)]))
            else s.(life := s.life.(tasks := rest))
  {
  }

  /** The completed match: both statuses, the final scores, the event. */
  function Completion(s: State): State {
    var finals := FinalList(s.ledger.subs, ActiveIds(s.ledger.roster));
    State(s.life.(room := L.Completed, game := Some(L.Completed)),
          s.ledger.(finals := finals, outbox := s.ledger.outbox + [MatchFinished(finals)]))
  }

  /** end_match, once: again, or before the start, it writes nothing. */
  lemma EndWrites(s: State, quiz: seq<Question>, now: int)
    ensures Apply(s, quiz, Live(L.EndMatch(now))) ==
            if s.life.game.Some? && s.life.game != Some(L.Completed) then Completion(s) else s
  {
  }

  /** end_match after the last close: in the registered task it writes nothing. */
  lemma FinishWrites(s: State, quiz: seq<Question>, registered: bool, now: int)
    ensures var spent := s.(life := s.life.(tasks := s.life.tasks - multiset{L.Finish(registered)}));
            Apply(s, quiz, Live(L.FireFinish(registered, now))) ==
            if L.Finish(registered) in s.life.tasks && !registered && s.life.game.Some? && s.life.game != Some(L.Completed)
            then Completion(spent) else spent
  {
  }

  /** pause_match: the statuses, and the key to write: the open question and the whole
      milliseconds up to its deadline. */
  lemma PauseWrites(s: State, quiz: seq<Question>, now: int)
    ensures var open := L.OpenPosition(s.life.rows);
            var left := if open.Some? && s.life.rows[open.value - 1].deadline.Some?
                        then AtLeastZero(s.life.rows[open.value - 1].deadline.value - now) / 1000 else 0;
            Apply(s, quiz, Live(L.PauseMatch(now))) ==
            if s.life.game == Some(L.Running) then
              s.(life := s.life.(room := L.Paused, game := Some(L.Paused),
                                 tasks := s.life.tasks + multiset{L.WriteKey(L.PauseKey(open, left))}))
            else s
  {
  }

  lemma KeyWrites(s: State, quiz: seq<Question>, key: L.PauseKey, now: int)
    ensures Apply(s, quiz, Live(L.RunWriteKey(key, now))) ==
            if L.WriteKey(key) in s.life.tasks then
              s.(life := s.life.(key := Some(key), tasks := s.life.tasks - multiset{L.WriteKey(key)}))
            else s
  {
  }

  /** The rows after a resume that read `key`. */
  function Redue(rows: seq<L.QuestionRow>, key: L.PauseKey, now: int): seq<L.QuestionRow> {
    if key.position.Some? && 1 <= key.position.value <= |rows| && rows[key.position.value - 1].closed.None? then
      var row := rows[key.position.value - 1];
      rows[key.position.value - 1 := L.QuestionRow(row.started, Some(now + key.remainingMs * 1000), row.closed)]
    else rows
  }

  /** resume_match: the statuses, the deadline of the question its key names, and that
      question's timer if the key leaves time, a look-up if not. */
  lemma ResumeWrites(s: State, quiz: seq<Question>, now: int)
    ensures var key := if s.life.key.Some? then s.life.key.value else L.PauseKey(None, 0);
            var task := if key.position.Some? && key.remainingMs > 0 then L.Close(key.position.value, true) else L.ArmNext;
            Apply(s, quiz, Live(L.ResumeMatch(now))) ==
            if s.life.game == Some(L.Paused) then
              s.(life := L.Life(L.Running, Some(L.Running), Redue(s.life.rows, key, now), s.life.key, s.life.tasks + multiset{task}))
            else s
  {
  }

  lemma LookupWrites(s: State, quiz: seq<Question>, now: int)
    ensures var next, rest := L.NextUnstarted(s.life.rows), s.life.tasks - multiset{L.ArmNext};
            Apply(s, quiz, Live(L.RunArmNext(now))) ==
            if L.ArmNext !in s.life.tasks then s
            else s.(life := s.life.(tasks := if next.Some? then rest + multiset{L.Arm(next.value)} else rest))
  {
  }

  /** recover_running_matches: the open question's timer, or the next question's arming. */
  lemma RecoverWrites(s: State, quiz: seq<Question>, now: int)
    ensures var open, next, tasks := L.OpenPosition(s.life.rows), L.NextUnstarted(s.life.rows), s.life.tasks;
            Apply(s, quiz, Live(L.Recover(now))) ==
            if s.life.game != Some(L.Running) then s
            else if open.Some? then
              var due := s.life.rows[open.value - 1].deadline;
              if due.None? then s else s.(life := s.life.(tasks := tasks + multiset{L.Close(open.value, now < due.value)}))
            else if next.Some? then s.(life := s.life.(tasks := tasks + multiset{L.Arm(next.value)}))
            else s
  {
  }

  /** What is lost: all pending work in a crash, one task, the pause key. */
  lemma LossesWrite(s: State, quiz: seq<Question>, task: L.Task, now: int)
    ensures Apply(s, quiz, Live(L.Crash(now))) ==
            State(s.life.(tasks := multiset{}), s.ledger.(uncredited := {}, unsent := multiset{}, ready := multiset{}))
    ensures Apply(s, quiz, Live(L.DropTask(task, now))) == s.(life := s.life.(tasks := s.life.tasks - multiset{task}))
    ensures Apply(s, quiz, Live(L.LoseKey(now))) == s.(life := s.life.(key := None))
  {
  }

  // ---------------------------------------------------------------------------
  // The room and the answers
  // ---------------------------------------------------------------------------

  /** A join adds an unknown participant, who may play, and nobody else changes. */
  lemma JoinWrites(s: State, quiz: seq<Question>, p: int)
    ensures var s' := Apply(s, quiz, Join(p));
            && s' == s.(ledger := s.ledger.(roster := s'.ledger.roster))
            && s'.ledger.roster == if OnRoster(s.ledger.roster, p) then s.ledger.roster else s.ledger.roster + [Member(p, false)]
  {
  }

  /** A kicked participant may not play, and everybody else stays as they were. */
  lemma KickWrites(s: State, quiz: seq<Question>, p: int)
    ensures var s' := Apply(s, quiz, Kick(p));
            && s' == s.(ledger := s.ledger.(roster := s'.ledger.roster))
            && !MayPlay(s'.ledger.roster, p)
            && (forall q :: q != p ==> (MayPlay(s'.ledger.roster, q) <==> MayPlay(s.ledger.roster, q)))
            && (forall q :: OnRoster(s'.ledger.roster, q) <==> OnRoster(s.ledger.roster, q))
  {
    var roster, roster' := s.ledger.roster, Apply(s, quiz, Kick(p)).ledger.roster;
    forall q ensures OnRoster(roster', q) <==> OnRoster(roster, q) {
      assert forall i :: 0 <= i < |roster| ==> roster'[i].participant == roster[i].participant;
    }
    forall q | q != p ensures MayPlay(roster', q) <==> MayPlay(roster, q) {
      assert forall i :: 0 <= i < |roster| && roster[i].participant == q ==> roster'[i] == roster[i];
    }
  }

  /** The probe: what the cache holds goes out, and nothing changes. */
  lemma ProbeWrites(s: State, quiz: seq<Question>, request: string, p: int, k: nat)
    ensures Apply(s, quiz, Probe(request, p, k)) ==
            if request in s.ledger.cache
            then s.(ledger := s.ledger.(replies := s.ledger.replies + [Reply(request, p, k, s.ledger.cache[request])]))
            else s
  {
  }

  /** The transaction: a row with its event and its hook to come, a reply for a
      collision, or nothing. */
  lemma SubmitWrites(s: State, quiz: seq<Question>, a: Attempt)
    ensures var g := s.ledger;
            Apply(s, quiz, Submit(a)) ==
            match Judge(s, quiz, a)
            case Refused(_) => s
            case Inserted(row) =>
              s.(ledger := g.(subs := g.subs + [row], outbox := g.outbox + [AnswerSubmitted(row)], uncredited := g.uncredited + {row.id}))
            case Duplicate(row) =>
              var response := Response(row.id, row.correct, row.score, row.responseMs, None);
              s.(ledger := g.(unsent := g.unsent + multiset{Reply(a.request, a.participant, a.question, response)}))
  {
  }

  /** The hook of a genuine insert: its score goes to its participant, once, and its own
      reply is on its way. */
  lemma CreditWrites(s: State, quiz: seq<Question>, id: int, rank: Option<nat>)
    ensures var g, found := s.ledger, WithId(s.ledger.subs, id);
            Apply(s, quiz, CreditBoard(id, rank)) ==
            if id in g.uncredited && found.Some? then
              var row := found.value;
              var had := if row.participant in g.board then g.board[row.participant] else 0;
              var response := Response(id, row.correct, row.score, row.responseMs, rank);
              s.(ledger := g.(board := g.board[row.participant := had + row.score], uncredited := g.uncredited - {id},
                              unsent := g.unsent + multiset{Reply(row.request, row.participant, row.question, response)}))
            else s
  {
  }

  lemma LoseHookWrites(s: State, quiz: seq<Question>, id: int)
    ensures Apply(s, quiz, LoseHook(id)) == s.(ledger := s.ledger.(uncredited := s.ledger.uncredited - {id}))
  {
  }

  /** SET NX: a key that is there keeps its response. */
  lemma CacheWrites(s: State, quiz: seq<Question>, r: Reply)
    ensures var s' := Apply(s, quiz, CacheReply(r));
            if r !in s.ledger.unsent then s' == s
            else
              && s' == s.(ledger := s.ledger.(unsent := s.ledger.unsent - multiset{r}, ready := s.ledger.ready + multiset{r},
                                              cache := s'.ledger.cache))
              && (r.request in s.ledger.cache ==> s'.ledger.cache == s.ledger.cache)
              && (r.request !in s.ledger.cache ==> s'.ledger.cache == s.ledger.cache[r.request := r.response])
  {
  }

  lemma SendWrites(s: State, quiz: seq<Question>, r: Reply, request: string)
    ensures Apply(s, quiz, Send(r)) ==
            if r !in s.ledger.ready then s
            else s.(ledger := s.ledger.(ready := s.ledger.ready - multiset{r}, replies := s.ledger.replies + [r]))
    ensures Apply(s, quiz, Expire(request)) == s.(ledger := s.ledger.(cache := s.ledger.cache - {request}))
  {
  }

  // ---------------------------------------------------------------------------
  // Across moves
  // ---------------------------------------------------------------------------

  lemma FirstWriterStep(s: State, quiz: seq<Question>, m: Move, request: string)
    requires request in s.ledger.cache && m != Expire(request)
    ensures request in Apply(s, quiz, m).ledger.cache
    ensures Apply(s, quiz, m).ledger.cache[request] == s.ledger.cache[request]
  {
    hide L.Next, Announced, FinalScores, Judge, Find;
  }

  /** The first writer of a request id wins: until its key expires the cached response
      stays what it is, through any number of retries, replicas and crashes. */
  lemma {:induction false} FirstWriterWins(s: State, quiz: seq<Question>, ms: seq<Move>, request: string)
    requires request in s.ledger.cache && Expire(request) !in ms
    ensures request in Play(s, quiz, ms).ledger.cache
    ensures Play(s, quiz, ms).ledger.cache[request] == s.ledger.cache[request]
    decreases |ms|
  {
    hide Apply;
    if ms != [] {
      assert ms[0] in ms && forall m :: m in ms[1..] ==> m in ms;
      FirstWriterStep(s, quiz, ms[0], request);
      FirstWriterWins(Apply(s, quiz, ms[0]), quiz, ms[1..], request);
    }
  }

  predicate Arms(m: Move, k: nat) {
    m.Live? && m.step.FireArm? && m.step.position == k
  }

  predicate Resumes(m: Move) {
    m.Live? && m.step.ResumeMatch?
  }

  /** Row k was started at `now` and, unless it is resumed, is due at `due`. */
  ghost predicate StartedAt(s: State, quiz: seq<Question>, k: nat, now: int, due: Option<int>) {
    && L.StatusInv(s.life, Limits(quiz)) && 1 <= k <= |s.life.rows|
    && s.life.rows[k - 1].started == Some(now) && (due.Some? ==> s.life.rows[k - 1].deadline == due)
  }

  lemma StampKept(s: State, quiz: seq<Question>, m: Move, k: nat, now: int, due: Option<int>)
    requires StartedAt(s, quiz, k, now, due) && !Arms(m, k) && (due.Some? ==> !Resumes(m))
    ensures StartedAt(Apply(s, quiz, m), quiz, k, now, due)
  {
    if m.Live? {
      L.StatusStep(s.life, Limits(quiz), m.step);
      RowKept(s.life, Limits(quiz), m.step, k);
    }
  }

  /** Only its arming moves a question's start, and only that and a resume its deadline. */
  lemma RowKept(l: L.Life, limits: seq<nat>, e: L.Step, k: nat)
    requires L.StatusInv(l, limits) && 1 <= k <= |l.rows| && !(e.FireArm? && e.position == k)
    ensures var rows := L.Next(l, limits, e).rows;
            |rows| == |l.rows| && rows[k - 1].started == l.rows[k - 1].started
            && (!e.ResumeMatch? ==> rows[k - 1].deadline == l.rows[k - 1].deadline)
  {
  }

  lemma {:induction false} StampKeptRun(s: State, quiz: seq<Question>, ms: seq<Move>, k: nat, now: int, due: Option<int>)
    requires StartedAt(s, quiz, k, now, due)
    requires forall m :: m in ms ==> !Arms(m, k) && (due.Some? ==> !Resumes(m))
    ensures StartedAt(Play(s, quiz, ms), quiz, k, now, due)
    decreases |ms|
  {
    hide Apply;
    if ms != [] {
      assert ms[0] in ms && forall m :: m in ms[1..] ==> m in ms;
      StampKept(s, quiz, ms[0], k, now, due);
      StampKeptRun(Apply(s, quiz, ms[0]), quiz, ms[1..], k, now, due);
    }
  }

  /** What an accepted answer records, by the stamps of its question. */
  lemma AnswerRecords(s: State, quiz: seq<Question>, a: Attempt, now: int, d: nat)
    requires RowsInv(s, quiz) && Judge(s, quiz, a).Inserted? && a.at == now + d
    requires StartedAt(s, quiz, a.question, now, None) && a.question <= |quiz|
    ensures var row, q := Judge(s, quiz, a).row, quiz[a.question - 1];
            && row.responseMs == d / 1000
            && (StartedAt(s, quiz, a.question, now, Some(now + q.limitSeconds * 1_000_000))
                && row.correct && a.mode == SpeedBonus && q.limitSeconds > 0 ==>
                  IsBonus(q.points, d / 1000, q.limitSeconds * 1000, row.score))
  {
    InsertedExactly(s, quiz, a);
    hide Judge, RowsInv, Records, Answerable, IsBonus;
    var row, q := Judge(s, quiz, a).row, quiz[a.question - 1];
    RecordedTime(s.life, q, a, row, now, d);
    if StartedAt(s, quiz, a.question, now, Some(now + q.limitSeconds * 1_000_000))
       && row.correct && a.mode == SpeedBonus && q.limitSeconds > 0 {
      RecordedBonus(s.life, q, a, row, now, d);
    }
  }

  /** A run from the arming of question k on. */
  function SinceArmed(s: State, quiz: seq<Question>, k: nat, now: int, ms: seq<Move>): State {
    Play(Apply(s, quiz, Live(L.FireArm(k, now))), quiz, ms)
  }

  lemma ArmedStays(s: State, quiz: seq<Question>, k: nat, now: int, ms: seq<Move>)
    requires RowsInv(s, quiz) && Acts(s.life, L.Arm(k), k) && forall m :: m in ms ==> !Arms(m, k)
    ensures var s' := SinceArmed(s, quiz, k, now, ms);
            && RowsInv(s', quiz) && k <= |quiz| && StartedAt(s', quiz, k, now, None)
            && ((forall m :: m in ms ==> !Resumes(m)) ==>
                  StartedAt(s', quiz, k, now, Some(now + quiz[k - 1].limitSeconds * 1_000_000)))
  {
    var s1 := Apply(s, quiz, Live(L.FireArm(k, now)));
    JustArmed(s, quiz, k, now);
    RowsStep(s, quiz, Live(L.FireArm(k, now)));
    hide Apply, Play, RowsInv, Acts, StartedAt;
    RowsRun(s1, quiz, ms);
    StampKeptRun(s1, quiz, ms, k, now, None);
    if forall m :: m in ms ==> !Resumes(m) {
      StampKeptRun(s1, quiz, ms, k, now, Some(now + quiz[k - 1].limitSeconds * 1_000_000));
    }
  }

  /** From the arming to the answer, whatever happens in between: an answer accepted d
      microseconds after its question was armed records d / 1000 ms; and if the match was
      not resumed meanwhile, a correct speed-bonus answer earns its bonus over the whole
      time limit. */
  lemma AnswerTimeIsElapsed(s: State, quiz: seq<Question>, k: nat, now: int, ms: seq<Move>, s': State, a: Attempt, d: nat)
    requires RowsInv(s, quiz) && Acts(s.life, L.Arm(k), k) && forall m :: m in ms ==> !Arms(m, k)
    requires s' == SinceArmed(s, quiz, k, now, ms) && a.question == k <= |quiz| && a.at == now + d
    requires Judge(s', quiz, a).Inserted?
    ensures var row := Judge(s', quiz, a).row;
            && row.responseMs == d / 1000
            && (row.correct && a.mode == SpeedBonus && quiz[k - 1].limitSeconds > 0 && (forall m :: m in ms ==> !Resumes(m)) ==>
                  IsBonus(quiz[k - 1].points, d / 1000, quiz[k - 1].limitSeconds * 1000, row.score))
  {
    hide SinceArmed, Judge, RowsInv, StartedAt, Acts, IsBonus;
    ArmedStays(s, quiz, k, now, ms);
    AnswerRecords(s', quiz, a, now, d);
  }

  lemma JustArmed(s: State, quiz: seq<Question>, k: nat, now: int)
    requires RowsInv(s, quiz) && Acts(s.life, L.Arm(k), k)
    ensures var s1 := Apply(s, quiz, Live(L.FireArm(k, now)));
            && StartedAt(s1, quiz, k, now, None)
            && k <= |quiz| && StartedAt(s1, quiz, k, now, Some(now + quiz[k - 1].limitSeconds * 1_000_000))
  {
    ArmWrites(s, quiz, k, now);
    L.StatusStep(s.life, Limits(quiz), L.FireArm(k, now));
    hide Apply;
  }

  lemma RecordedTime(l: L.Life, q: Question, a: Attempt, row: Submission, now: int, d: nat)
    requires Answerable(l, a.question, a.at) && Records(l, q, a, row)
    requires l.rows[a.question - 1].started == Some(now) && a.at == now + d
    ensures row.responseMs == d / 1000
  {
    hide IsBonus, RoundHalfEven;
  }

  lemma RecordedBonus(l: L.Life, q: Question, a: Attempt, row: Submission, now: int, d: nat)
    requires Answerable(l, a.question, a.at) && Records(l, q, a, row) && row.responseMs == d / 1000
    requires l.rows[a.question - 1].started == Some(now) && row.correct && a.mode == SpeedBonus && q.limitSeconds > 0
    requires l.rows[a.question - 1].deadline == Some(now + q.limitSeconds * 1_000_000)
    ensures IsBonus(q.points, d / 1000, q.limitSeconds * 1000, row.score)
  {
    assert (now + q.limitSeconds * 1_000_000 - now) / 1000 == q.limitSeconds * 1000;
    hide IsBonus, RoundHalfEven;
  }
}

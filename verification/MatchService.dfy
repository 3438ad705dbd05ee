/** The match service in its own form: rows, keys, counters and task registries
    updated in place (backend/app/services/match_service.py). Every method is one
    transaction or one piece of post-commit work, takes the corresponding move of
    MatchModel, and so keeps what MatchLedger and MatchBoard prove of every run. */
module MatchService {
  import opened Common
  import opened Answers
  import opened Leaderboard
  import opened Ranking
  import opened Scoring
  import opened MatchModel
  import opened MatchLedger
  import opened MatchBoard
  import opened MoveLaws
  import L = Lifecycle

  datatype HostError = NotFound | NotHost | NotJoinable | EmptyQuiz

  /** Constraints, events and scores as in every run; one finish event and the final
      ranking exactly once completed, of the roster `atEnd`. */
  ghost predicate Sound(s: State, quiz: seq<Question>, atEnd: seq<Member>) {
    RowsInv(s, quiz) && CompletionInv(s, atEnd)
  }

  /** What one move keeps, and what it leaves of a completed match. */
  lemma Kept(s: State, quiz: seq<Question>, m: Move, atEnd: seq<Member>)
    requires Sound(s, quiz, atEnd)
    ensures Sound(Apply(s, quiz, m), quiz, RosterAfter(s, m, atEnd))
    ensures s.life.game == Some(L.Completed) ==> Frozen(s, Apply(s, quiz, m))
    ensures |s.life.rows| <= |quiz| && (s.life.game.Some? ==> |s.life.rows| == |quiz|)
  {
    RowsStep(s, quiz, m);
    CompletionStep(s, quiz, m, atEnd);
    if s.life.game == Some(L.Completed) {
      FrozenStep(s, quiz, m);
    }
  }

  lemma InsertsOnce(s: State, quiz: seq<Question>, a: Attempt, atEnd: seq<Member>)
    requires Sound(s, quiz, atEnd) && Judge(s, quiz, a).Inserted?
    ensures var row, subs := Judge(s, quiz, a).row, AfterSubmit(s, quiz, a).subs;
            && Earned(s.life.rows, quiz, row) && OnlyRow(subs, a.question, a.participant, |subs| - 1)
  {
    NewRowEarned(s, quiz, a);
  }

  lemma CreditKeepsOwed(s: State, quiz: seq<Question>, id: int, rank: Option<nat>, atEnd: seq<Member>)
    requires Sound(s, quiz, atEnd)
    ensures forall p :: Owed(AfterCredit(s.ledger, id, rank), p) == Owed(s.ledger, p)
  {
    forall p ensures Owed(AfterCredit(s.ledger, id, rank), p) == Owed(s.ledger, p) {
      CreditOwed(s.ledger, id, rank, p);
    }
  }

  /** Row `k` and no other is the row of this question and participant. */
  ghost predicate OnlyRow(subs: seq<Submission>, question: nat, participant: int, k: int) {
    forall i :: 0 <= i < |subs| ==> (subs[i].question == question && subs[i].participant == participant <==> i == k)
  }

  class Match {
    const quiz: seq<Question>
    const host: int
    var room: L.Status
    var game: Option<L.Status>
    var rows: seq<L.QuestionRow>
    var pauseKey: Option<L.PauseKey>
    var tasks: multiset<L.Task>
    var roster: seq<Member>
    var subs: seq<Submission>
    var outbox: seq<Event>
    var finals: seq<FinalScore>
    var board: Board
    var cache: map<string, Response>
    var uncredited: set<int>
    var unsent: multiset<Reply>
    var ready: multiset<Reply>
    var replies: seq<Reply>
    ghost var atEnd: seq<Member>  // the roster when the match completed

    ghost function Whole(): State
      reads this
    {
      State(L.Life(room, game, rows, pauseKey, tasks),
            Ledger(roster, subs, outbox, finals, board, cache, uncredited, unsent, ready, replies))
    }

    ghost predicate Valid()
      reads this
    {
      Sound(Whole(), quiz, atEnd)
    }

    /** The move `m` was taken, and a completed match is what it was. */
    twostate predicate Took(m: Move)
      reads this
    {
      && Whole() == Apply(old(Whole()), quiz, m)
      && (old(game) == Some(L.Completed) ==> Frozen(old(Whole()), Whole()))
    }

    constructor (quiz: seq<Question>, host: int, roster: seq<Member>)
      ensures Valid() && Whole() == NewMatch(roster) && this.quiz == quiz && this.host == host
    {
      this.quiz, this.host, this.roster := quiz, host, roster;
      room, game, rows, pauseKey, tasks := L.Lobby, None, [], None, multiset{};
      subs, outbox, finals := [], [], [];
      board, cache := map[], map[];
      uncredited, unsent, ready, replies := {}, multiset{}, multiset{}, [];
      atEnd := [];
    }

    /** The writes of start_match: the snapshot of the quiz, the statuses, the event. */
    method OpenMatch(now: int)
      requires room == L.Lobby && quiz != []
      modifies this
      ensures Whole() == Apply(old(Whole()), quiz, Live(L.Start(now))) && atEnd == old(atEnd)
    {
      hide Apply;
      StartWrites(Whole(), quiz, now);
      var snapshot := [];
      for i := 0 to |quiz|
        invariant snapshot == L.FreshRows(i)
      {
        snapshot := snapshot + [L.FRESH_ROW];
      }
      game, rows, room := Some(L.Running), snapshot, L.Running;
      tasks := tasks + multiset{L.StartHook};
      outbox := outbox + [MatchStarted(|quiz|)];
    }

    method StartMatch(caller: int, now: int) returns (error: Option<HostError>)
      requires Valid()
      modifies this
      ensures Valid()
      ensures error == if caller != host then Some(NotHost)
                       else if old(room) != L.Lobby then Some(NotJoinable)
                       else if quiz == [] then Some(EmptyQuiz) else None
      ensures if error.Some? then Whole() == old(Whole()) else Took(Live(L.Start(now)))
    {
      hide Sound, Frozen, Apply;
      if caller != host {
        return Some(NotHost);
      }
      if room != L.Lobby {
        return Some(NotJoinable);
      }
      if quiz == [] {
        return Some(EmptyQuiz);
      }
      Kept(Whole(), quiz, Live(L.Start(now)), atEnd);
      OpenMatch(now);
      return None;
    }

    /** start_match after its commit: reset the leaderboard, schedule the first question. */
    method AfterStart(now: int)
      requires Valid()
      modifies this
      ensures Valid() && Took(Live(L.RunStartHook(now)))
    {
      hide Sound, Frozen, Apply;
      Kept(Whole(), quiz, Live(L.RunStartHook(now)), atEnd);
      HookWrites(Whole(), quiz, now);
      if L.StartHook in tasks {
        board := map[];
        tasks := tasks - multiset{L.StartHook} + multiset{L.Arm(1)};
      }
    }

    method ArmQuestion(position: nat, now: int)
      requires Valid()
      modifies this
      ensures Valid() && Took(Live(L.FireArm(position, now)))
      ensures old(Acts(Whole().life, L.Arm(position), position)) ==>
                && position <= |quiz|
                && rows == old(rows)[position - 1 := L.QuestionRow(Some(now), Some(now + quiz[position - 1].limitSeconds * 1_000_000), None)]
                && outbox == old(outbox) + [QuestionStarted(position)]
      ensures old(!Acts(Whole().life, L.Arm(position), position)) ==> rows == old(rows) && outbox == old(outbox)
    {
      hide Sound, Frozen, Apply;
      Kept(Whole(), quiz, Live(L.FireArm(position, now)), atEnd);
      ArmWrites(Whole(), quiz, position, now);
      var pending := L.Arm(position) in tasks;
      tasks := tasks - multiset{L.Arm(position)};
      if !pending || !(1 <= position <= |rows|) {
        return;
      }
      var row := rows[position - 1];
      if row.closed.Some? || game != Some(L.Running) {
        return;
      }
      row := row.(started := Some(now));
      row := row.(deadline := Some(now + quiz[position - 1].limitSeconds * 1_000_000));
      rows := rows[position - 1 := row];
      outbox := outbox + [QuestionStarted(position)];
      tasks := tasks + multiset{L.Close(position, true)};
    }

    method CloseQuestion(position: nat, registered: bool, now: int)
      requires Valid()
      modifies this
      ensures Valid() && Took(Live(L.FireClose(position, registered, now)))
      ensures old(Acts(Whole().life, L.Close(position, registered), position)) ==>
                && rows == old(rows[position - 1 := rows[position - 1].(closed := Some(now))])
                && outbox == old(outbox) + [QuestionClosed(position)]
      ensures old(!Acts(Whole().life, L.Close(position, registered), position)) ==> rows == old(rows) && outbox == old(outbox)
    {
      hide Sound, Frozen, Apply;
      Kept(Whole(), quiz, Live(L.FireClose(position, registered, now)), atEnd);
      CloseWrites(Whole(), quiz, position, registered, now);
      var pending := L.Close(position, registered) in tasks;
      tasks := tasks - multiset{L.Close(position, registered)};
      if !pending || !(1 <= position <= |rows|) || rows[position - 1].closed.Some? || game != Some(L.Running) {
        return;
      }
      rows := rows[position - 1 := rows[position - 1].(closed := Some(now))];
      outbox := outbox + [QuestionClosed(position)];
      var lastQuestion := position >= |rows|;
      tasks := tasks + multiset{if lastQuestion then L.Finish(registered) else L.Arm(position + 1)};
    }

    /** The writes of pause_match: what the open question has left, and the statuses. */
    method Park(now: int)
      requires game == Some(L.Running)
      modifies this
      ensures Whole() == Apply(old(Whole()), quiz, Live(L.PauseMatch(now))) && atEnd == old(atEnd)
    {
      hide Apply;
      PauseWrites(Whole(), quiz, now);
      var open := L.OpenPosition(rows);
      var remainingMs := 0;
      if open.Some? && rows[open.value - 1].deadline.Some? {
        remainingMs := AtLeastZero(rows[open.value - 1].deadline.value - now) / 1000;
      }
      game, room := Some(L.Paused), L.Paused;
      tasks := tasks + multiset{L.WriteKey(L.PauseKey(open, remainingMs))};
    }

    method PauseMatch(caller: int, now: int) returns (error: Option<HostError>)
      requires Valid()
      modifies this
      ensures Valid()
      ensures error == if caller != host then Some(NotHost)
                       else if old(game) != Some(L.Running) then Some(NotJoinable) else None
      ensures if error.Some? then Whole() == old(Whole()) else Took(Live(L.PauseMatch(now)))
    {
      hide Sound, Frozen, Apply;
      if caller != host {
        return Some(NotHost);
      }
      if game != Some(L.Running) {
        return Some(NotJoinable);
      }
      Kept(Whole(), quiz, Live(L.PauseMatch(now)), atEnd);
      Park(now);
      return None;
    }

    /** pause_match after its commit. */
    method StorePauseKey(key: L.PauseKey, now: int)
      requires Valid()
      modifies this
      ensures Valid() && Took(Live(L.RunWriteKey(key, now)))
    {
      hide Sound, Frozen, Apply;
      Kept(Whole(), quiz, Live(L.RunWriteKey(key, now)), atEnd);
      KeyWrites(Whole(), quiz, key, now);
      if L.WriteKey(key) in tasks {
        tasks := tasks - multiset{L.WriteKey(key)};
        pauseKey := Some(key);
      }
    }

    method ExtendDeadline(key: L.PauseKey, now: int)
      modifies this`rows
      ensures rows == Redue(old(rows), key, now)
    {
      if key.position.Some? && 1 <= key.position.value <= |rows| && rows[key.position.value - 1].closed.None? {
        var i := key.position.value - 1;
        rows := rows[i := rows[i].(deadline := Some(now + key.remainingMs * 1000))];
      }
    }

    method ResumeMatch(caller: int, now: int) returns (error: Option<HostError>)
      requires Valid()
      modifies this
      ensures Valid()
      ensures error == if caller != host then Some(NotHost)
                       else if old(game) != Some(L.Paused) then Some(NotJoinable) else None
      ensures if error.Some? then Whole() == old(Whole()) else Took(Live(L.ResumeMatch(now)))
    {
      hide Sound, Frozen, Apply, Redue;
      if caller != host {
        return Some(NotHost);
      }
      if game != Some(L.Paused) {
        return Some(NotJoinable);
      }
      Kept(Whole(), quiz, Live(L.ResumeMatch(now)), atEnd);
      var key := if pauseKey.Some? then pauseKey.value else L.PauseKey(None, 0);
      ResumeWrites(Whole(), quiz, now);
      ExtendDeadline(key, now);
      game, room := Some(L.Running), L.Running;
      var sameTimer := key.position.Some? && key.remainingMs > 0;
      tasks := tasks + multiset{if sameTimer then L.Close(key.position.value, true) else L.ArmNext};
      return None;
    }

    /** resume_match after its commit, when there is no timer to resume. */
    method ArmNextQuestion(now: int)
      requires Valid()
      modifies this
      ensures Valid() && Took(Live(L.RunArmNext(now)))
    {
      hide Sound, Frozen, Apply;
      Kept(Whole(), quiz, Live(L.RunArmNext(now)), atEnd);
      LookupWrites(Whole(), quiz, now);
      if L.ArmNext !in tasks {
        return;
      }
      tasks := tasks - multiset{L.ArmNext};
      var next := L.NextUnstarted(rows);
      if next.Some? {
        tasks := tasks + multiset{L.Arm(next.value)};
      }
    }

    /** The completing half of end_match: final scores, the finish event, the statuses. */
    method Complete()
      modifies this
      ensures Whole() == Completion(old(Whole())) && atEnd == roster
      ensures IsFinalRanking(subs, ActiveIds(roster), finals)
    {
      hide IsFinalRanking, FinalList, ActiveIds, L.Next, Apply;
      var ranking := Finalise(subs, ActiveIds(roster));
      finals := ranking;
      outbox := outbox + [MatchFinished(ranking)];
      game, room := Some(L.Completed), L.Completed;
      atEnd := roster;
    }

    /** The host's end_match, or a timer's without a caller: once completed, the final
        scores rank exactly those who answered or were in the room and not kicked. */
    method EndMatch(caller: Option<int>, now: int) returns (error: Option<HostError>)
      requires Valid()
      modifies this
      ensures Valid()
      ensures error == if old(game).None? then Some(NotFound)
                       else if caller.Some? && caller.value != host then Some(NotHost) else None
      ensures if error.Some? then Whole() == old(Whole()) else Took(Live(L.EndMatch(now)))
      ensures error.None? ==> game == Some(L.Completed)
      ensures error.None? && old(game) != Some(L.Completed) ==>
                && IsFinalRanking(subs, ActiveIds(roster), finals)
                && forall p :: p in Ranking.Ids(finals) <==> Answered(subs, p) || MayPlay(roster, p)
    {
      hide Sound, Frozen, IsFinalRanking, FinalList, Apply;
      if game.None? {
        return Some(NotFound);
      }
      if caller.Some? && caller.value != host {
        return Some(NotHost);
      }
      Kept(Whole(), quiz, Live(L.EndMatch(now)), atEnd);
      EndWrites(Whole(), quiz, now);
      if game.value != L.Completed {
        RankedExactly(subs, roster);
        Complete();
      }
      return None;
    }

    /** end_match as reached from the close of the last question. It cancels the registered
        task first; when that is the one it runs in, nothing of it is committed. */
    method FinishMatch(registered: bool, now: int)
      requires Valid()
      modifies this
      ensures Valid() && Took(Live(L.FireFinish(registered, now)))
      ensures old(L.Finish(registered) in tasks && game.Some? && !registered) ==> game == Some(L.Completed)
      ensures registered ==> game == old(game) && finals == old(finals) && outbox == old(outbox)
    {
      hide Sound, Frozen, IsFinalRanking, FinalList, Apply;
      Kept(Whole(), quiz, Live(L.FireFinish(registered, now)), atEnd);
      FinishWrites(Whole(), quiz, registered, now);
      var due := L.Finish(registered) in tasks && game.Some? && game.value != L.Completed;
      var cancelled := registered;
      tasks := tasks - multiset{L.Finish(registered)};
      if due && !cancelled {
        Complete();
      }
    }

    /** recover_running_matches, for this match. */
    method Recover(now: int)
      requires Valid()
      modifies this
      ensures Valid() && Took(Live(L.Recover(now)))
    {
      hide Sound, Frozen, Apply;
      Kept(Whole(), quiz, Live(L.Recover(now)), atEnd);
      RecoverWrites(Whole(), quiz, now);
      if game != Some(L.Running) {
        return;
      }
      var open := L.OpenPosition(rows);
      if open.None? {
        var next := L.NextUnstarted(rows);
        if next.Some? {
          tasks := tasks + multiset{L.Arm(next.value)};
        }
      } else if rows[open.value - 1].deadline.Some? {
        var overdue := rows[open.value - 1].deadline.value <= now;
        tasks := tasks + multiset{L.Close(open.value, !overdue)};
      }
    }

    /** The cache probe that opens submit_answer. */
    method ProbeCache(request: string, participant: int, question: nat) returns (hit: Option<Response>)
      requires Valid()
      modifies this
      ensures Valid() && Took(Probe(request, participant, question))
      ensures hit == if request in cache then Some(cache[request]) else None
    {
      hide Sound, Frozen;
      Kept(Whole(), quiz, Probe(request, participant, question), atEnd);
      hit := None;
      if request in cache {
        hit := Some(cache[request]);
        replies := replies + [Reply(request, participant, question, cache[request])];
      }
    }

    /** The checks of submit_answer before its insert. */
    method CheckAnswer(a: Attempt) returns (refusal: Option<Code>)
      ensures refusal == Gate(Whole(), quiz, a)
    {
      if a.request == "" || !(1 <= a.question <= |rows| && a.question <= |quiz|) {
        return Some(ValidationError);
      }
      var row, question := rows[a.question - 1], quiz[a.question - 1];
      if game != Some(L.Running) || row.closed.Some? || row.deadline.None? || row.started.None? {
        return Some(QuestionClosedCode);
      }
      if a.at > row.deadline.value + DEADLINE_GRACE_US {
        return Some(QuestionClosedCode);
      }
      if !MayPlay(roster, a.participant) {
        return Some(Forbidden);
      }
      if !(a.selected <= question.options) {
        return Some(ValidationError);
      }
      return None;
    }

    /** Correctness, response time and score of an answer that passed them. */
    method ScoreAnswer(a: Attempt) returns (inserted: Submission)
      requires Gate(Whole(), quiz, a).None?
      ensures inserted == NewRow(Whole(), quiz, a)
    {
      var row, question := rows[a.question - 1], quiz[a.question - 1];
      var isCorrect := a.selected == question.correct && |question.correct| > 0;
      var responseMs := AtLeastZero(a.at - row.started.value) / 1000;
      var windowMs := (row.deadline.value - row.started.value) / 1000;
      var score := Score(question.points, responseMs, windowMs, a.mode, isCorrect);
      return Submission(a.id, a.question, a.participant, a.selected, isCorrect, score, responseMs, a.request);
    }

    /** The transaction of submit_answer: an accepted attempt leaves exactly one row of
        its participant and question. */
    method SubmitAnswer(a: Attempt) returns (verdict: Verdict)
      requires Valid()
      modifies this
      ensures Valid() && Took(Submit(a))
      ensures verdict == Judge(old(Whole()), quiz, a)
      ensures verdict.Inserted? ==>
                && subs == old(subs) + [verdict.row] && Earned(rows, quiz, verdict.row)
                && OnlyRow(subs, a.question, a.participant, |subs| - 1)
      ensures !verdict.Inserted? ==> subs == old(subs) && outbox == old(outbox)
    {
      hide Sound, Frozen, Gate, NewRow, OnlyRow, Earned, WithRequest, WithPair, WithId, L.Next, AfterLive;
      Kept(Whole(), quiz, Submit(a), atEnd);
      if Judge(Whole(), quiz, a).Inserted? {
        InsertsOnce(Whole(), quiz, a, atEnd);
      }
      var refusal := CheckAnswer(a);
      if refusal.Some? {
        return Refused(refusal.value);
      }
      var inserted := ScoreAnswer(a);
      var byRequest, byPair := WithRequest(subs, a.request), WithPair(subs, a.question, a.participant);
      if byRequest.None? && byPair.None? && WithId(subs, a.id).None? {
        subs := subs + [inserted];
        outbox := outbox + [AnswerSubmitted(inserted)];
        uncredited := uncredited + {inserted.id};
        return Inserted(inserted);
      }
      var existing := if byRequest.Some? then byRequest else byPair;
      if existing.None? {
        return Refused(AnswerAlreadySubmitted);
      }
      unsent := unsent + multiset{Reply(a.request, a.participant, a.question, ResponseFor(existing.value, None))};
      return Duplicate(existing.value);
    }

    /** The post-commit leaderboard hook of a genuine insert: what the board misses of
        anybody's points stays the same. */
    method CreditLeaderboard(id: int, rank: Option<nat>)
      requires Valid()
      modifies this
      ensures Valid() && Took(CreditBoard(id, rank))
      ensures var found := WithId(subs, id);
              id in old(uncredited) && found.Some? ==>
                && ScoreOf(board, found.value.participant) == old(ScoreOf(board, WithId(subs, id).value.participant)) + found.value.score
                && unsent == old(unsent) + multiset{Reply(found.value.request, found.value.participant, found.value.question,
                                                         Response(id, found.value.correct, found.value.score, found.value.responseMs, rank))}
      ensures forall p :: Owed(Whole().ledger, p) == old(Owed(Whole().ledger, p))
    {
      hide Sound, Frozen;
      Kept(Whole(), quiz, CreditBoard(id, rank), atEnd);
      CreditKeepsOwed(Whole(), quiz, id, rank, atEnd);
      var found := WithId(subs, id);
      if id in uncredited && found.Some? {
        var row := found.value;
        board := Increment(board, row.participant, row.score);
        uncredited := uncredited - {id};
        unsent := unsent + multiset{Reply(row.request, row.participant, row.question, ResponseFor(row, rank))};
      }
    }

    /** Write the idempotency key if absent. */
    method CacheReply(r: Reply)
      requires Valid()
      modifies this
      ensures Valid() && Took(MatchModel.CacheReply(r))
      ensures cache == if r in old(unsent) && r.request !in old(cache) then old(cache)[r.request := r.response] else old(cache)
    {
      hide Sound, Frozen;
      Kept(Whole(), quiz, MatchModel.CacheReply(r), atEnd);
      if r in unsent {
        unsent, ready := unsent - multiset{r}, ready + multiset{r};
        if r.request !in cache {
          cache := cache[r.request := r.response];
        }
      }
    }

    /** Return the response. */
    method SendReply(r: Reply)
      requires Valid()
      modifies this
      ensures Valid() && Took(Send(r))
    {
      hide Sound, Frozen;
      Kept(Whole(), quiz, Send(r), atEnd);
      if r in ready {
        ready := ready - multiset{r};
        replies := replies + [r];
      }
    }
  }
}

/** Rows of `answer_submissions` and the sums taken over them. */
module Answers {
  import opened Common

  /** `question` is the position of the match question. */
  datatype Submission = Submission(id: int, question: nat, participant: int, selected: set<int>,
                                   correct: bool, score: int, responseMs: nat, request: string)

  function Total(subs: seq<Submission>, p: int): int {
    if subs == [] then 0
    else
      var s := subs[|subs| - 1];
      Total(subs[..|subs| - 1], p) + if s.participant == p then s.score else 0
  }

  function CorrectCount(subs: seq<Submission>, p: int): nat {
    if subs == [] then 0
    else
      var s := subs[|subs| - 1];
      CorrectCount(subs[..|subs| - 1], p) + if s.participant == p && s.correct then 1 else 0
  }

  function ResponseSum(subs: seq<Submission>, p: int): nat {
    if subs == [] then 0
    else
      var s := subs[|subs| - 1];
      ResponseSum(subs[..|subs| - 1], p) + if s.participant == p then s.responseMs else 0
  }

  function AnswerCount(subs: seq<Submission>, p: int): nat {
    if subs == [] then 0
    else
      var s := subs[|subs| - 1];
      AnswerCount(subs[..|subs| - 1], p) + if s.participant == p then 1 else 0
  }

  function GrandTotal(subs: seq<Submission>): int {
    if subs == [] then 0 else GrandTotal(subs[..|subs| - 1]) + subs[|subs| - 1].score
  }

  function Participants(subs: seq<Submission>): (ps: seq<int>)
    ensures |ps| == |subs|
    ensures forall i :: 0 <= i < |subs| ==> ps[i] == subs[i].participant
  {
    seq(|subs|, i requires 0 <= i < |subs| => subs[i].participant)
  }

  ghost predicate Answered(subs: seq<Submission>, p: int) {
    exists i :: 0 <= i < |subs| && subs[i].participant == p
  }

  lemma {:induction false} CountsAnswers(subs: seq<Submission>, p: int)
    ensures AnswerCount(subs, p) > 0 <==> Answered(subs, p)
    ensures !Answered(subs, p) ==> Total(subs, p) == 0
  {
    if subs != [] {
      var init, s := subs[..|subs| - 1], subs[|subs| - 1];
      CountsAnswers(init, p);
      if Answered(init, p) {
        var i :| 0 <= i < |init| && init[i].participant == p;
        assert subs[i].participant == p;
      }
      if Answered(subs, p) && s.participant != p {
        var i :| 0 <= i < |subs| && subs[i].participant == p;
        assert init[i].participant == p;
      }
    }
  }

  /** The rows of p, and those that are correct. */
  ghost function AnswersOf(subs: seq<Submission>, p: int): set<int> {
    set i | 0 <= i < |subs| && subs[i].participant == p
  }

  ghost function CorrectOf(subs: seq<Submission>, p: int): set<int> {
    set i | 0 <= i < |subs| && subs[i].participant == p && subs[i].correct
  }

  lemma AnswersSnoc(subs: seq<Submission>, p: int)
    requires subs != []
    ensures var n := |subs| - 1;
            && n !in AnswersOf(subs[..n], p) && n !in CorrectOf(subs[..n], p)
            && AnswersOf(subs, p) == AnswersOf(subs[..n], p) + (if subs[n].participant == p then {n} else {})
            && CorrectOf(subs, p) == CorrectOf(subs[..n], p) + (if subs[n].participant == p && subs[n].correct then {n} else {})
  {
  }

  /** The counts count. */
  lemma {:induction false} CountsAreCardinalities(subs: seq<Submission>, p: int)
    ensures AnswerCount(subs, p) == |AnswersOf(subs, p)| && CorrectCount(subs, p) == |CorrectOf(subs, p)|
  {
    if subs == [] {
      assert AnswersOf(subs, p) == {} && CorrectOf(subs, p) == {};
    } else {
      CountsAreCardinalities(subs[..|subs| - 1], p);
      AnswersSnoc(subs, p);
      hide AnswersOf, CorrectOf;
    }
  }

  /** The sum of the response times starts at zero and grows with each row of p only. */
  lemma ResponseSumLaw(subs: seq<Submission>, s: Submission, p: int)
    ensures ResponseSum([], p) == 0
    ensures ResponseSum(subs + [s], p) == ResponseSum(subs, p) + if s.participant == p then s.responseMs else 0
  {
  }

  /** Appending one row adds its score to its participant only. */
  lemma TotalAppend(subs: seq<Submission>, s: Submission, p: int)
    ensures Total([], p) == 0
    ensures Total(subs + [s], p) == Total(subs, p) + if s.participant == p then s.score else 0
  {
  }

  function SumTotals(subs: seq<Submission>, ps: seq<int>): int {
    if ps == [] then 0 else SumTotals(subs, ps[..|ps| - 1]) + Total(subs, ps[|ps| - 1])
  }

  lemma {:induction false} SumTotalsStep(subs: seq<Submission>, ps: seq<int>)
    requires subs != [] && NoDuplicates(ps)
    ensures var s := subs[|subs| - 1];
            SumTotals(subs, ps) == SumTotals(subs[..|subs| - 1], ps) + if s.participant in ps then s.score else 0
  {
    if ps != [] {
      var s, init := subs[|subs| - 1], ps[..|ps| - 1];
      SumTotalsStep(subs, init);
      assert s.participant in ps <==> s.participant in init || s.participant == ps[|ps| - 1];
      if s.participant == ps[|ps| - 1] {
        assert s.participant !in init;
      }
    }
  }

  /** Totals over any duplicate-free list of people that covers everyone who
      answered add up to every point awarded. */
  lemma {:induction false} TotalsConserved(subs: seq<Submission>, ps: seq<int>)
    requires NoDuplicates(ps)
    requires forall i :: 0 <= i < |subs| ==> subs[i].participant in ps
    ensures SumTotals(subs, ps) == GrandTotal(subs)
  {
    if subs == [] {
      NobodyScores(ps);
    } else {
      SumTotalsStep(subs, ps);
      TotalsConserved(subs[..|subs| - 1], ps);
    }
  }

  lemma {:induction false} NobodyScores(ps: seq<int>)
    ensures SumTotals([], ps) == 0
  {
    if ps != [] {
      NobodyScores(ps[..|ps| - 1]);
    }
  }
}

/** Live and final leaderboards: the Redis sorted set
    (backend/app/cache/leaderboard.py) and the three branches of read_leaderboard
    (backend/app/services/match_service.py). */
module Leaderboard {
  import opened Common
  import opened Answers
  import opened Ranking

  /** Members of the sorted set with their scores. */
  type Board = map<int, int>

  datatype Entry = Entry(rank: nat, participant: int, nickname: string, score: int)

  /** An order a store may list a board in: everybody once, best score first.
      Ties fall as they please (Redis: by member; SQL: by average response). */
  ghost predicate IsListing(board: Board, order: seq<int>) {
    && NoDuplicates(order)
    && (forall p :: p in order <==> p in board)
    && (forall i, j :: 0 <= i < j < |order| ==> ScoreOf(board, order[i]) >= ScoreOf(board, order[j]))
  }

  /** ZSCORE, with zero for a missing member. */
  function ScoreOf(board: Board, p: int): int {
    if p in board then board[p] else 0
  }

  function ScoresOf(board: Board, order: seq<int>): (r: seq<int>)
    ensures |r| == |order| && forall i :: 0 <= i < |order| ==> r[i] == ScoreOf(board, order[i])
  {
    seq(|order|, i requires 0 <= i < |order| => ScoreOf(board, order[i]))
  }

  /** `ZREVRANGE key 0 max(0, n-1)`: how many rows come back. */
  function RedisLimit(total: nat, n: int): nat {
    var k := AtLeastZero(n - 1) + 1;
    if k <= total then k else total
  }

  /** `LIMIT n` in SQL and `rows[:n]` in Python, for the n >= 1 the router admits. */
  function SqlLimit(total: nat, n: nat): nat {
    if n <= total then n else total
  }

  /** Redis lists at least one row if there is one, SQL exactly n if there are so many. */
  lemma LimitsExactly(total: nat, n: int)
    ensures RedisLimit(total, n) == if total == 0 then 0 else if n <= 1 then 1 else if n <= total then n else total
    ensures n >= 1 ==> SqlLimit(total, n) == RedisLimit(total, n)
  {
  }

  /** ZINCRBY: a missing member counts as zero. */
  function Increment(board: Board, p: int, delta: int): Board {
    board[p := ScoreOf(board, p) + delta]
  }

  /** `top`: the first rows of the listing, numbered from 1, with nicknames where
      the hash has them. */
  method Top(board: Board, order: seq<int>, nicknames: map<int, string>, n: int) returns (entries: seq<Entry>)
    requires IsListing(board, order)
    ensures |entries| == RedisLimit(|order|, n)
    ensures forall i :: 0 <= i < |entries| ==>
              && entries[i].rank == i + 1
              && entries[i].participant == order[i] && entries[i].score == ScoreOf(board, order[i])
              && entries[i].nickname == if order[i] in nicknames then nicknames[order[i]] else ""
    ensures forall p :: p in board && (forall i :: 0 <= i < |entries| ==> entries[i].participant != p) ==>
              forall i :: 0 <= i < |entries| ==> entries[i].score >= board[p]
  {
    var count := RedisLimit(|order|, n);
    entries := [];
    for i := 0 to count
      invariant |entries| == i
      invariant forall j :: 0 <= j < i ==>
                  && entries[j].rank == j + 1
                  && entries[j].participant == order[j] && entries[j].score == ScoreOf(board, order[j])
                  && entries[j].nickname == if order[j] in nicknames then nicknames[order[j]] else ""
    {
      var p := order[i];
      entries := entries + [Entry(i + 1, p, if p in nicknames then nicknames[p] else "", ScoreOf(board, p))];
    }
    forall p, i | p in board && (forall i :: 0 <= i < |entries| ==> entries[i].participant != p) && 0 <= i < |entries|
      ensures entries[i].score >= board[p]
    {
      var k :| 0 <= k < |order| && order[k] == p;
      assert k >= |entries|;
    }
  }

  /** `SELECT participant_id, sum(score_awarded) ... GROUP BY participant_id`. */
  function GroupScores(subs: seq<Submission>): (m: Board)
    ensures forall p :: p in m <==> Answered(subs, p)
    ensures forall p :: p in m ==> m[p] == Total(subs, p)
  {
    var ps := FirstSeen(Participants(subs));
    assert forall p :: p in ps <==> Answered(subs, p) by {
      forall p ensures p in ps <==> Answered(subs, p) {
        EntrantsExact(subs, [], p);
        assert Participants(subs) + [] == Participants(subs);
      }
    }
    map p | p in ps :: Total(subs, p)
  }

  // ---------------------------------------------------------------------------
  // Any two listings show the same scores
  // ---------------------------------------------------------------------------

  ghost predicate Descending(s: seq<int>) {
    forall i, j :: 0 <= i < j < |s| ==> s[i] >= s[j]
  }

  /** The last element of a descending sequence is its least. */
  lemma LastIsLeast(a: seq<int>, x: int)
    requires a != [] && Descending(a) && x in multiset(a)
    ensures a[|a| - 1] <= x
  {
  }

  lemma InitBag(a: seq<int>)
    requires a != []
    ensures multiset(a[..|a| - 1]) == multiset(a) - multiset{a[|a| - 1]}
    ensures a[|a| - 1] in multiset(a)
  {
    assert a == a[..|a| - 1] + [a[|a| - 1]];
  }

  lemma SameEnds(a: seq<int>, b: seq<int>)
    requires a != [] && b != [] && Descending(a) && Descending(b) && multiset(a) == multiset(b)
    ensures a[|a| - 1] == b[|b| - 1]
    ensures multiset(a[..|a| - 1]) == multiset(b[..|b| - 1])
  {
    InitBag(a);
    InitBag(b);
    LastIsLeast(a, b[|b| - 1]);
    LastIsLeast(b, a[|a| - 1]);
  }

  lemma {:induction false} DescendingIsUnique(a: seq<int>, b: seq<int>)
    requires Descending(a) && Descending(b) && multiset(a) == multiset(b)
    ensures a == b
  {
    if a == [] || b == [] {
      assert |multiset(a)| == |multiset(b)| == 0;
    } else {
      SameEnds(a, b);
      var x, y := a[..|a| - 1], b[..|b| - 1];
      DescendingIsUnique(x, y);
      assert a == x + [a[|a| - 1]] && b == y + [b[|b| - 1]];
    }
  }

  function Drop(b: seq<int>, j: nat): seq<int>
    requires j < |b|
  {
    b[..j] + b[j + 1..]
  }

  /** Taking one person out of a duplicate-free list. */
  lemma DropElements(b: seq<int>, j: nat)
    requires j < |b| && NoDuplicates(b)
    ensures NoDuplicates(Drop(b, j))
    ensures forall p :: p in Drop(b, j) <==> p in b && p != b[j]
  {
  }

  lemma BagWithout(s: seq<int>, j: nat)
    requires j < |s|
    ensures multiset(s) == multiset(s[..j] + s[j + 1..]) + multiset{s[j]}
  {
    assert s == s[..j] + ([s[j]] + s[j + 1..]);
  }

  lemma DropScores(board: Board, b: seq<int>, j: nat)
    requires j < |b|
    ensures multiset(ScoresOf(board, b)) == multiset(ScoresOf(board, Drop(b, j))) + multiset{ScoreOf(board, b[j])}
  {
    var s := ScoresOf(board, b);
    BagWithout(s, j);
    assert ScoresOf(board, Drop(b, j)) == s[..j] + s[j + 1..];
  }

  lemma SomeMember(b: seq<int>) returns (p: int)
    requires b != []
    ensures p in b
  {
    p := b[0];
  }

  lemma NoneLeft(a: seq<int>, b: seq<int>)
    requires a == [] && forall p :: p in b ==> p in a
    ensures b == []
  {
    if b != [] {
      var _ := SomeMember(b);
    }
  }

  lemma {:induction false} SameBag(board: Board, a: seq<int>, b: seq<int>)
    requires NoDuplicates(a) && NoDuplicates(b)
    requires forall p :: p in a <==> p in b
    ensures multiset(ScoresOf(board, a)) == multiset(ScoresOf(board, b))
  {
    if a == [] {
      NoneLeft(a, b);
    } else {
      assert a[0] in a;
      var j :| 0 <= j < |b| && b[j] == a[0];
      DropElements(a, 0);
      DropElements(b, j);
      DropScores(board, a, 0);
      DropScores(board, b, j);
      SameBag(board, Drop(a, 0), Drop(b, j));
    }
  }

  lemma ListingsAgree(board: Board, a: seq<int>, b: seq<int>)
    requires IsListing(board, a) && IsListing(board, b)
    ensures ScoresOf(board, a) == ScoresOf(board, b)
  {
    SameBag(board, a, b);
    DescendingIsUnique(ScoresOf(board, a), ScoresOf(board, b));
  }

  /** With the sorted set equal to the ledger's sums, the Redis top-n and the SQL
      top-n show the same score at every rank. */
  lemma LiveBoardsAgree(board: Board, subs: seq<Submission>, redis: seq<int>, sql: seq<int>, n: nat)
    requires board == GroupScores(subs) && IsListing(board, redis) && IsListing(GroupScores(subs), sql)
    ensures ScoresOf(board, redis) == ScoresOf(GroupScores(subs), sql)
    ensures n >= 1 ==> RedisLimit(|redis|, n) == SqlLimit(|sql|, n)
    ensures n == 0 && redis != [] ==> RedisLimit(|redis|, n) == 1 != SqlLimit(|sql|, n)
  {
    ListingsAgree(board, redis, sql);
    assert |ScoresOf(board, redis)| == |ScoresOf(board, sql)|;
  }

  // ---------------------------------------------------------------------------
  // The final list continues the live one with zeros
  // ---------------------------------------------------------------------------

  function Silent(subs: seq<Submission>, ps: seq<int>): (r: seq<int>)
    ensures forall p :: p in r <==> p in ps && AnswerCount(subs, p) == 0
    ensures NoDuplicates(ps) ==> NoDuplicates(r)
  {
    if ps == [] then []
    else
      var n := |ps| - 1;
      var init := Silent(subs, ps[..n]);
      assert forall p :: p in ps <==> p in ps[..n] || p == ps[n];
      assert NoDuplicates(ps) ==> NoDuplicates(ps[..n]) && ps[n] !in ps[..n];
      if AnswerCount(subs, ps[n]) == 0 then init + [ps[n]] else init
  }

  function TotalsOf(fs: seq<FinalScore>): (r: seq<int>)
    ensures |r| == |fs| && forall i :: 0 <= i < |fs| ==> r[i] == fs[i].total
  {
    seq(|fs|, i requires 0 <= i < |fs| => fs[i].total)
  }

  lemma {:induction false} TotalsNotNegative(subs: seq<Submission>, p: int)
    requires forall i :: 0 <= i < |subs| ==> subs[i].score >= 0
    ensures Total(subs, p) >= 0
  {
    if subs != [] {
      TotalsNotNegative(subs[..|subs| - 1], p);
    }
  }

  /** A live listing followed by everybody who never answered lists all entrants. */
  lemma SilentExtendsListing(subs: seq<Submission>, live: seq<int>, ids: seq<int>, m: Board)
    requires forall i :: 0 <= i < |subs| ==> subs[i].score >= 0
    requires IsListing(GroupScores(subs), live)
    requires NoDuplicates(ids) && (forall p :: Answered(subs, p) ==> p in ids)
    requires (forall p :: p in m <==> p in ids) && (forall p :: p in m ==> m[p] == Total(subs, p))
    ensures IsListing(m, live + Silent(subs, ids))
  {
    var rest := Silent(subs, ids);
    var all := live + rest;
    forall p ensures p in all <==> p in m {
      CountsAnswers(subs, p);
      assert p in all <==> p in live || p in rest;
    }
    forall i | 0 <= i < |all|
      ensures ScoreOf(m, all[i]) == Total(subs, all[i]) >= 0
      ensures i < |live| ==> all[i] == live[i] && Answered(subs, all[i]) && Total(subs, all[i]) == ScoreOf(GroupScores(subs), live[i])
      ensures i >= |live| ==> all[i] == rest[i - |live|] && !Answered(subs, all[i]) && Total(subs, all[i]) == 0
    {
      assert all[i] in all;
      assert i < |live| ==> all[i] in live;
      assert i >= |live| ==> all[i] in rest;
      CountsAnswers(subs, all[i]);
      TotalsNotNegative(subs, all[i]);
    }
  }

  /** After end_match the final list shows, rank for rank, the scores of the live
      leaderboard, and only zeros behind them. */
  lemma FinalContinuesLive(subs: seq<Submission>, roster: seq<int>, live: seq<int>)
    requires forall i :: 0 <= i < |subs| ==> subs[i].score >= 0
    requires IsListing(GroupScores(subs), live)
    ensures var totals := TotalsOf(FinalList(subs, roster));
            && |live| <= |totals|
            && totals[..|live|] == ScoresOf(GroupScores(subs), live)
            && forall i :: |live| <= i < |totals| ==> totals[i] == 0
  {
    var fs := FinalList(subs, roster);
    var ids := Ids(fs);
    FinalFacts(subs, roster);
    var m := map p | p in ids :: Total(subs, p);
    FinalIsListing(subs, fs, m);
    ListingContinues(subs, live, ids, m);
  }

  lemma ListingContinues(subs: seq<Submission>, live: seq<int>, ids: seq<int>, m: Board)
    requires forall i :: 0 <= i < |subs| ==> subs[i].score >= 0
    requires IsListing(GroupScores(subs), live) && IsListing(m, ids)
    requires forall p :: Answered(subs, p) ==> p in ids
    requires forall p :: p in m ==> m[p] == Total(subs, p)
    ensures |live| <= |ids|
    ensures forall i :: 0 <= i < |ids| ==>
              ScoresOf(m, ids)[i] == if i < |live| then ScoreOf(GroupScores(subs), live[i]) else 0
  {
    SilentExtendsListing(subs, live, ids, m);
    var all := live + Silent(subs, ids);
    ListingsAgree(m, ids, all);
    assert |all| == |ScoresOf(m, all)| == |ids|;
    forall i | 0 <= i < |ids|
      ensures ScoresOf(m, ids)[i] == if i < |live| then ScoreOf(GroupScores(subs), live[i]) else 0
    {
      ScoreInExtension(subs, live, ids, m, i);
    }
  }

  lemma ScoreInExtension(subs: seq<Submission>, live: seq<int>, ids: seq<int>, m: Board, i: nat)
    requires i < |live + Silent(subs, ids)|
    requires forall p :: p in live <==> p in GroupScores(subs)
    requires forall p :: Answered(subs, p) ==> p in ids
    requires (forall p :: p in m <==> p in ids) && (forall p :: p in m ==> m[p] == Total(subs, p))
    ensures ScoreOf(m, (live + Silent(subs, ids))[i]) == if i < |live| then ScoreOf(GroupScores(subs), live[i]) else 0
  {
    var p := (live + Silent(subs, ids))[i];
    CountsAnswers(subs, p);
    if i < |live| {
      assert p == live[i] && p in live;
    } else {
      assert p in Silent(subs, ids);
    }
  }

  lemma FinalFacts(subs: seq<Submission>, roster: seq<int>)
    ensures var fs := FinalList(subs, roster);
            && NoDuplicates(Ids(fs)) && (forall p :: Answered(subs, p) ==> p in Ids(fs))
            && (forall i :: 0 <= i < |fs| ==> fs[i].total == Total(subs, fs[i].participant))
            && (forall i, j :: 0 <= i < j < |fs| ==> fs[i].total >= fs[j].total)
  {
    FinalListIsFinalRanking(subs, roster);
  }

  lemma FinalIsListing(subs: seq<Submission>, fs: seq<FinalScore>, m: Board)
    requires NoDuplicates(Ids(fs))
    requires forall i :: 0 <= i < |fs| ==> fs[i].total == Total(subs, fs[i].participant)
    requires forall i, j :: 0 <= i < j < |fs| ==> fs[i].total >= fs[j].total
    requires (forall p :: p in m <==> p in Ids(fs)) && (forall p :: p in m ==> m[p] == Total(subs, p))
    ensures IsListing(m, Ids(fs)) && ScoresOf(m, Ids(fs)) == TotalsOf(fs)
  {
  }
}

/** The final ranking computed by end_match
    (backend/app/services/match_service.py). */
module Ranking {
  import opened Common
  import opened Answers

  /** One `per_participant` record. */
  datatype Tally = Tally(total: int, correct: nat, responseSum: nat, answers: nat)

  datatype Standing = Standing(participant: int, total: int, correct: nat, average: Option<nat>)

  datatype FinalScore = FinalScore(participant: int, total: int, correct: nat, average: Option<nat>, rank: nat)

  /** The sort key of somebody without answers. */
  const NO_AVERAGE := 1_000_000_000

  // ---------------------------------------------------------------------------
  // Specification
  // ---------------------------------------------------------------------------

  function TallyOf(subs: seq<Submission>, p: int): Tally {
    Tally(Total(subs, p), CorrectCount(subs, p), ResponseSum(subs, p), AnswerCount(subs, p))
  }

  function StandingOf(p: int, t: Tally): Standing {
    Standing(p, t.total, t.correct, if t.answers > 0 then Some(t.responseSum / t.answers) else None)
  }

  /** The keys of a dictionary filled with `setdefault` in this order. */
  function FirstSeen(ps: seq<int>): seq<int> {
    if ps == [] then []
    else
      var init, p := FirstSeen(ps[..|ps| - 1]), ps[|ps| - 1];
      if p in init then init else init + [p]
  }

  lemma {:induction false} FirstSeenLaws(ps: seq<int>)
    ensures NoDuplicates(FirstSeen(ps))
    ensures forall p :: p in FirstSeen(ps) <==> p in ps
  {
    if ps != [] {
      FirstSeenLaws(ps[..|ps| - 1]);
      assert forall q :: q in ps <==> q in ps[..|ps| - 1] || q == ps[|ps| - 1];
    }
  }

  /** Everybody who gets a final score: submitters, then the other players who
      were not kicked (`roster`). */
  function Entrants(subs: seq<Submission>, roster: seq<int>): seq<int> {
    FirstSeen(Participants(subs) + roster)
  }

  function AverageKey(s: Standing): int {
    if s.average.Some? then s.average.value else NO_AVERAGE
  }

  /** `_sort_key(a) <= _sort_key(b)`. */
  predicate Precedes(a: Standing, b: Standing) {
    a.total > b.total || (a.total == b.total && AverageKey(a) <= AverageKey(b))
  }

  /** Insert after everything that does not come strictly later: stable. */
  function InsertStable(sorted: seq<Standing>, x: Standing): seq<Standing> {
    if sorted == [] then [x]
    else if Precedes(sorted[|sorted| - 1], x) then sorted + [x]
    else InsertStable(sorted[..|sorted| - 1], x) + [sorted[|sorted| - 1]]
  }

  /** Python's `rows.sort(key=_sort_key)`. */
  function StableSort(rows: seq<Standing>): seq<Standing> {
    if rows == [] then [] else InsertStable(StableSort(rows[..|rows| - 1]), rows[|rows| - 1])
  }

  function Standings(subs: seq<Submission>, ps: seq<int>): (r: seq<Standing>)
    ensures |r| == |ps|
    ensures forall i :: 0 <= i < |ps| ==> r[i] == StandingOf(ps[i], TallyOf(subs, ps[i]))
  {
    seq(|ps|, i requires 0 <= i < |ps| => StandingOf(ps[i], TallyOf(subs, ps[i])))
  }

  function Ranked(s: Standing, rank: nat): FinalScore {
    FinalScore(s.participant, s.total, s.correct, s.average, rank)
  }

  function WithRanks(rows: seq<Standing>): (r: seq<FinalScore>)
    ensures |r| == |rows|
    ensures forall i :: 0 <= i < |rows| ==> r[i] == Ranked(rows[i], i + 1)
  {
    seq(|rows|, i requires 0 <= i < |rows| => Ranked(rows[i], i + 1))
  }

  function SortedStandings(subs: seq<Submission>, roster: seq<int>): seq<Standing> {
    StableSort(Standings(subs, Entrants(subs, roster)))
  }

  function FinalList(subs: seq<Submission>, roster: seq<int>): seq<FinalScore> {
    WithRanks(SortedStandings(subs, roster))
  }

  // ---------------------------------------------------------------------------
  // The sort
  // ---------------------------------------------------------------------------

  ghost predicate Sorted(rows: seq<Standing>) {
    forall i, j :: 0 <= i < j < |rows| ==> Precedes(rows[i], rows[j])
  }

  /** Nobody without answers stands before somebody with the same total who
      answered, unless that average lies beyond the key of non-answerers. */
  ghost predicate AnswerersFirst(rows: seq<Standing>) {
    forall i, j :: 0 <= i < j < |rows| ==> InOrder(rows[i], rows[j])
  }

  ghost predicate InOrder(a: Standing, b: Standing) {
    a.average.None? && b.average.Some? ==> a.total > b.total || b.average.value > NO_AVERAGE
  }

  /** Every row of the result is the new one or an old one. */
  lemma {:induction false} InsertFrom(sorted: seq<Standing>, x: Standing, i: nat) returns (k: int)
    requires i < |InsertStable(sorted, x)|
    ensures (k == -1 && InsertStable(sorted, x)[i] == x)
            || (0 <= k < |sorted| && InsertStable(sorted, x)[i] == sorted[k])
  {
    var n := |sorted| - 1;
    if sorted == [] || Precedes(sorted[n], x) {
      k := if i < |sorted| then i else -1;
    } else if i < |InsertStable(sorted[..n], x)| {
      k := InsertFrom(sorted[..n], x, i);
    } else {
      k := n;
    }
  }

  lemma {:induction false} InsertSorted(sorted: seq<Standing>, x: Standing)
    requires Sorted(sorted)
    ensures Sorted(InsertStable(sorted, x))
  {
    if sorted != [] {
      var n := |sorted| - 1;
      InsertSorted(sorted[..n], x);
      if !Precedes(sorted[n], x) {
        var low := InsertStable(sorted[..n], x);
        forall i | 0 <= i < |low| ensures Precedes(low[i], sorted[n]) {
          var k := InsertFrom(sorted[..n], x, i);
        }
      } else {
        assert forall i :: 0 <= i < n ==> Precedes(sorted[i], sorted[n]);
      }
    }
  }

  lemma {:induction false} InsertBag(sorted: seq<Standing>, x: Standing)
    ensures multiset(InsertStable(sorted, x)) == multiset(sorted) + multiset{x}
  {
    if sorted != [] {
      var n := |sorted| - 1;
      InsertBag(sorted[..n], x);
      assert sorted == sorted[..n] + [sorted[n]];
    }
  }

  /** A non-answerer inserted last goes behind every tied answerer; an answerer is
      only inserted while no non-answerer is there. */
  lemma {:induction false} InsertAnswerersFirst(sorted: seq<Standing>, x: Standing)
    requires Sorted(sorted) && AnswerersFirst(sorted)
    requires x.average.Some? ==> forall i :: 0 <= i < |sorted| ==> sorted[i].average.Some?
    ensures AnswerersFirst(InsertStable(sorted, x))
  {
    if sorted != [] && !Precedes(sorted[|sorted| - 1], x) {
      var n := |sorted| - 1;
      var init, last := sorted[..n], sorted[n];
      InsertAnswerersFirst(init, x);
      var low := InsertStable(init, x);
      forall i | 0 <= i < |low| ensures InOrder(low[i], last) {
        var k := InsertFrom(init, x, i);
        assert 0 <= k ==> InOrder(sorted[k], last);
      }
    }
  }

  lemma {:induction false} SortLaws(rows: seq<Standing>)
    ensures Sorted(StableSort(rows))
    ensures multiset(StableSort(rows)) == multiset(rows)
    ensures |StableSort(rows)| == |rows|
  {
    if rows != [] {
      var init := rows[..|rows| - 1];
      SortLaws(init);
      InsertSorted(StableSort(init), rows[|rows| - 1]);
      InsertBag(StableSort(init), rows[|rows| - 1]);
      assert rows == init + [rows[|rows| - 1]];
    }
    assert |multiset(StableSort(rows))| == |multiset(rows)|;
  }

  lemma SortMembers(rows: seq<Standing>, s: Standing)
    ensures s in StableSort(rows) <==> s in rows
  {
    SortLaws(rows);
    assert s in multiset(rows) <==> s in multiset(StableSort(rows));
  }

  lemma {:induction false} SortAnswerersFirst(rows: seq<Standing>)
    requires forall i, j :: 0 <= i < j < |rows| && rows[j].average.Some? ==> rows[i].average.Some?
    ensures AnswerersFirst(StableSort(rows))
  {
    if rows != [] {
      var n := |rows| - 1;
      var init := rows[..n];
      SortAnswerersFirst(init);
      SortLaws(init);
      var low := StableSort(init);
      if rows[n].average.Some? {
        forall i | 0 <= i < |low| ensures low[i].average.Some? {
          SortMembers(init, low[i]);
          var k :| 0 <= k < n && init[k] == low[i];
          assert rows[k].average.Some?;
        }
      }
      InsertAnswerersFirst(low, rows[n]);
    }
  }

  /** Sorting rows of distinct people keeps them distinct. */
  lemma DistinctAfterSort(rows: seq<Standing>, sorted: seq<Standing>)
    requires multiset(rows) == multiset(sorted)
    requires forall i, j :: 0 <= i < j < |rows| ==> rows[i].participant != rows[j].participant
    ensures forall i, j :: 0 <= i < j < |sorted| ==> sorted[i].participant != sorted[j].participant
  {
    forall i, j | 0 <= i < j < |sorted| ensures sorted[i].participant != sorted[j].participant {
      assert sorted[i] in multiset(sorted) && sorted[j] in multiset(sorted);
      var a :| 0 <= a < |rows| && rows[a] == sorted[i];
      var b :| 0 <= b < |rows| && rows[b] == sorted[j];
      if a == b {
        Twice(sorted, i, j);
        Once(rows, a);
      }
    }
  }

  lemma Twice(s: seq<Standing>, i: nat, j: nat)
    requires i < j < |s| && s[i] == s[j]
    ensures multiset(s)[s[i]] >= 2
  {
    assert s == s[..i] + [s[i]] + s[i + 1..j] + [s[j]] + s[j + 1..];
  }

  lemma Once(s: seq<Standing>, a: nat)
    requires a < |s| && forall i, j :: 0 <= i < j < |s| ==> s[i].participant != s[j].participant
    ensures multiset(s)[s[a]] == 1
  {
    assert s == s[..a] + [s[a]] + s[a + 1..];
    assert s[a] !in s[..a] && s[a] !in s[a + 1..];
  }

  // ---------------------------------------------------------------------------
  // The final list
  // ---------------------------------------------------------------------------

  function Ids(fs: seq<FinalScore>): (ps: seq<int>)
    ensures |ps| == |fs| && forall i :: 0 <= i < |fs| ==> ps[i] == fs[i].participant
  {
    seq(|fs|, i requires 0 <= i < |fs| => fs[i].participant)
  }

  function SumFinal(fs: seq<FinalScore>): int {
    if fs == [] then 0 else SumFinal(fs[..|fs| - 1]) + fs[|fs| - 1].total
  }

  /** The row holds the points, the number of correct answers and the average response
      time of its participant, cut to whole milliseconds. */
  ghost predicate IsFinalRow(subs: seq<Submission>, f: FinalScore) {
    var n := |AnswersOf(subs, f.participant)|;
    && f.total == Total(subs, f.participant)
    && f.correct == |CorrectOf(subs, f.participant)|
    && (f.average.Some? <==> n > 0)
    && (f.average.Some? ==> f.average.value * n <= ResponseSum(subs, f.participant) < (f.average.value + 1) * n)
  }

  lemma DividesDown(sum: nat, n: nat)
    requires n > 0
    ensures sum / n * n <= sum < (sum / n + 1) * n
  {
  }

  lemma StandingIsRow(subs: seq<Submission>, p: int, rank: nat)
    ensures IsFinalRow(subs, Ranked(StandingOf(p, TallyOf(subs, p)), rank))
  {
    CountsAreCardinalities(subs, p);
    if AnswerCount(subs, p) > 0 {
      DividesDown(ResponseSum(subs, p), AnswerCount(subs, p));
    }
  }

  /** Ranks are 1..n; each submitter and each player who was not kicked appears
      exactly once, with its own row; a better total, or the same
      total with a lower average, ranks first; a tied non-answerer ranks behind an
      answerer if and only if that answerer's average is at most 10^9; and the
      totals add up to every point awarded. */
  ghost predicate IsFinalRanking(subs: seq<Submission>, roster: seq<int>, fs: seq<FinalScore>) {
    && (forall i :: 0 <= i < |fs| ==> fs[i].rank == i + 1)
    && NoDuplicates(Ids(fs))
    && (forall p :: p in Ids(fs) <==> Answered(subs, p) || p in roster)
    && (forall i :: 0 <= i < |fs| ==> IsFinalRow(subs, fs[i]))
    && (forall i, j :: 0 <= i < j < |fs| ==> fs[i].total >= fs[j].total)
    && (forall i, j :: 0 <= i < j < |fs| && fs[i].total == fs[j].total && fs[i].average.Some? && fs[j].average.Some? ==>
          fs[i].average.value <= fs[j].average.value)
    && (forall i, j :: 0 <= i < |fs| && 0 <= j < |fs| && fs[i].total == fs[j].total
                       && fs[i].average.Some? && fs[j].average.None? ==>
          (i < j <==> fs[i].average.value <= 1_000_000_000))
    && SumFinal(fs) == GrandTotal(subs)
  }

  lemma {:induction false} SumFinalIsSumTotals(subs: seq<Submission>, fs: seq<FinalScore>)
    requires forall i :: 0 <= i < |fs| ==> fs[i].total == Total(subs, fs[i].participant)
    ensures SumFinal(fs) == SumTotals(subs, Ids(fs))
  {
    if fs != [] {
      SumFinalIsSumTotals(subs, fs[..|fs| - 1]);
      assert Ids(fs)[..|fs| - 1] == Ids(fs[..|fs| - 1]);
    }
  }

  lemma EntrantsExact(subs: seq<Submission>, roster: seq<int>, p: int)
    ensures p in Entrants(subs, roster) <==> Answered(subs, p) || p in roster
  {
    var ps := Participants(subs) + roster;
    FirstSeenLaws(ps);
    assert p in ps <==> p in Participants(subs) || p in roster;
    if p in Participants(subs) {
      var i :| 0 <= i < |subs| && Participants(subs)[i] == p;
      assert subs[i].participant == p;
    }
    if Answered(subs, p) {
      var i :| 0 <= i < |subs| && subs[i].participant == p;
      assert Participants(subs)[i] == p;
    }
  }

  /** In dictionary order everybody who answered comes before everybody who did not. */
  lemma {:induction false} SubmittersComeFirst(subs: seq<Submission>, roster: seq<int>, i: nat, j: nat)
    requires i < j < |Entrants(subs, roster)| && Answered(subs, Entrants(subs, roster)[j])
    ensures Answered(subs, Entrants(subs, roster)[i])
    decreases |roster|
  {
    var ps := Participants(subs) + roster;
    if roster == [] {
      EntrantsExact(subs, roster, Entrants(subs, roster)[i]);
    } else {
      var n := |roster| - 1;
      assert ps[..|ps| - 1] == Participants(subs) + roster[..n];
      var init := Entrants(subs, roster[..n]);
      assert FirstSeen(ps) == if roster[n] in init then init else init + [roster[n]];
      EntrantsExact(subs, roster[..n], roster[n]);
      SubmittersComeFirst(subs, roster[..n], i, j);
    }
  }

  /** Facts about the sorted standings, before ranks are attached. */
  lemma SortedStandingsLaws(subs: seq<Submission>, roster: seq<int>)
    ensures var r := SortedStandings(subs, roster);
            && Sorted(r) && AnswerersFirst(r)
            && |r| == |Entrants(subs, roster)|
            && (forall i, j :: 0 <= i < j < |r| ==> r[i].participant != r[j].participant)
            && (forall i :: 0 <= i < |r| ==> r[i] == StandingOf(r[i].participant, TallyOf(subs, r[i].participant)))
            && (forall p :: (exists i :: 0 <= i < |r| && r[i].participant == p) <==> p in Entrants(subs, roster))
  {
    var ps := Entrants(subs, roster);
    FirstSeenLaws(Participants(subs) + roster);
    var rows := Standings(subs, ps);
    var r := StableSort(rows);
    SortLaws(rows);
    forall i, j | 0 <= i < j < |rows| && rows[j].average.Some? ensures rows[i].average.Some? {
      CountsAnswers(subs, ps[j]);
      SubmittersComeFirst(subs, roster, i, j);
      CountsAnswers(subs, ps[i]);
    }
    SortAnswerersFirst(rows);
    DistinctAfterSort(rows, r);
    forall i | 0 <= i < |r| ensures r[i] == StandingOf(r[i].participant, TallyOf(subs, r[i].participant)) {
      SortMembers(rows, r[i]);
    }
    forall p ensures (exists i :: 0 <= i < |r| && r[i].participant == p) <==> p in ps {
      SortedParticipants(rows, ps, p);
    }
  }

  lemma SortedParticipants(rows: seq<Standing>, ps: seq<int>, p: int)
    requires |rows| == |ps| && forall i :: 0 <= i < |ps| ==> rows[i].participant == ps[i]
    ensures (exists i :: 0 <= i < |StableSort(rows)| && StableSort(rows)[i].participant == p) <==> p in ps
  {
    var r := StableSort(rows);
    if p in ps {
      var k :| 0 <= k < |ps| && ps[k] == p;
      SortMembers(rows, rows[k]);
    }
    if i :| 0 <= i < |r| && r[i].participant == p {
      SortMembers(rows, r[i]);
    }
  }

  lemma FinalIdsExact(subs: seq<Submission>, roster: seq<int>, p: int)
    ensures p in Ids(FinalList(subs, roster)) <==> Answered(subs, p) || p in roster
  {
    var r, fs := SortedStandings(subs, roster), FinalList(subs, roster);
    SortedStandingsLaws(subs, roster);
    EntrantsExact(subs, roster, p);
    if p in Ids(fs) {
      var i :| 0 <= i < |fs| && Ids(fs)[i] == p;
      assert r[i].participant == p;
    }
    if p in Entrants(subs, roster) {
      var i :| 0 <= i < |r| && r[i].participant == p;
      assert Ids(fs)[i] == p;
    }
  }

  lemma FinalTiesExact(subs: seq<Submission>, roster: seq<int>, i: nat, j: nat)
    requires var fs := FinalList(subs, roster);
             i < |fs| && j < |fs| && fs[i].total == fs[j].total && fs[i].average.Some? && fs[j].average.None?
    ensures i < j <==> FinalList(subs, roster)[i].average.value <= 1_000_000_000
  {
    var r := SortedStandings(subs, roster);
    SortedStandingsLaws(subs, roster);
    assert i < j ==> Precedes(r[i], r[j]);
    assert i > j ==> Precedes(r[j], r[i]);
  }

  lemma FinalTotalsConserved(subs: seq<Submission>, roster: seq<int>)
    ensures SumFinal(FinalList(subs, roster)) == GrandTotal(subs)
    ensures NoDuplicates(Ids(FinalList(subs, roster)))
  {
    var fs := FinalList(subs, roster);
    SortedStandingsLaws(subs, roster);
    SumFinalIsSumTotals(subs, fs);
    forall i | 0 <= i < |subs| ensures subs[i].participant in Ids(fs) {
      assert Answered(subs, subs[i].participant);
      FinalIdsExact(subs, roster, subs[i].participant);
    }
    TotalsConserved(subs, Ids(fs));
  }

  lemma FinalOrder(subs: seq<Submission>, roster: seq<int>)
    ensures var fs := FinalList(subs, roster);
            forall i, j :: 0 <= i < j < |fs| ==>
              && fs[i].total >= fs[j].total
              && (fs[i].total == fs[j].total && fs[i].average.Some? && fs[j].average.Some? ==>
                    fs[i].average.value <= fs[j].average.value)
  {
    var r, fs := SortedStandings(subs, roster), FinalList(subs, roster);
    SortedStandingsLaws(subs, roster);
    forall i, j | 0 <= i < j < |fs|
      ensures fs[i].total >= fs[j].total
      ensures fs[i].total == fs[j].total && fs[i].average.Some? && fs[j].average.Some? ==>
                fs[i].average.value <= fs[j].average.value
    {
      assert Precedes(r[i], r[j]);
    }
  }

  lemma FinalRows(subs: seq<Submission>, roster: seq<int>)
    ensures var fs := FinalList(subs, roster);
            forall i :: 0 <= i < |fs| ==> fs[i].rank == i + 1 && IsFinalRow(subs, fs[i])
  {
    SortedStandingsLaws(subs, roster);
    var r := SortedStandings(subs, roster);
    forall i | 0 <= i < |r| ensures IsFinalRow(subs, Ranked(r[i], i + 1)) {
      StandingIsRow(subs, r[i].participant, i + 1);
    }
  }

  lemma FinalListIsFinalRanking(subs: seq<Submission>, roster: seq<int>)
    ensures IsFinalRanking(subs, roster, FinalList(subs, roster))
  {
    var fs := FinalList(subs, roster);
    FinalTotalsConserved(subs, roster);
    forall p ensures p in Ids(fs) <==> Answered(subs, p) || p in roster {
      FinalIdsExact(subs, roster, p);
    }
    forall i: nat, j: nat | i < |fs| && j < |fs| && fs[i].total == fs[j].total
                            && fs[i].average.Some? && fs[j].average.None?
      ensures i < j <==> fs[i].average.value <= 1_000_000_000
    {
      FinalTiesExact(subs, roster, i, j);
    }
    FinalOrder(subs, roster);
    FinalRows(subs, roster);
  }

  // ---------------------------------------------------------------------------
  // Ties keep the order of arrival
  // ---------------------------------------------------------------------------

  /** x first occurs in `ps` before y does. */
  ghost predicate Earlier(ps: seq<int>, x: int, y: int) {
    exists a :: 0 <= a < |ps| && ps[a] == x && forall b :: 0 <= b <= a ==> ps[b] != y
  }

  lemma EarlierMore(ps: seq<int>, p: int, x: int, y: int)
    requires Earlier(ps, x, y)
    ensures Earlier(ps + [p], x, y)
  {
    var a :| 0 <= a < |ps| && ps[a] == x && forall b :: 0 <= b <= a ==> ps[b] != y;
    assert (ps + [p])[a] == x && forall b :: 0 <= b <= a ==> (ps + [p])[b] == ps[b];
  }

  /** The dictionary lists its keys in the order in which they first came. */
  lemma {:induction false} FirstSeenInOrder(ps: seq<int>, i: nat, j: nat)
    requires i < j < |FirstSeen(ps)|
    ensures Earlier(ps, FirstSeen(ps)[i], FirstSeen(ps)[j])
    decreases |ps|
  {
    var n := |ps| - 1;
    var init, p := ps[..n], ps[n];
    assert ps == init + [p];
    FirstSeenLaws(init);
    if j < |FirstSeen(init)| {
      FirstSeenInOrder(init, i, j);
      EarlierMore(init, p, FirstSeen(init)[i], FirstSeen(init)[j]);
    } else {
      var x := FirstSeen(init)[i];
      assert x in FirstSeen(init) && p !in init;
      var a :| 0 <= a < n && init[a] == x;
      assert ps[a] == x && forall b :: 0 <= b <= a ==> ps[b] == init[b];
    }
  }

  /** Where the sort puts a new row: behind everything it does not strictly precede. */
  lemma {:induction false} InsertPlaces(sorted: seq<Standing>, x: Standing) returns (m: nat)
    ensures m <= |sorted| && InsertStable(sorted, x) == sorted[..m] + [x] + sorted[m..]
    ensures forall q :: m <= q < |sorted| ==> !Precedes(sorted[q], x)
  {
    var n := |sorted| - 1;
    if sorted == [] || Precedes(sorted[n], x) {
      m := |sorted|;
      assert sorted[..m] == sorted && sorted[m..] == [];
    } else {
      m := InsertPlaces(sorted[..n], x);
      assert sorted[..n][..m] == sorted[..m] && sorted[..n][m..] + [sorted[n]] == sorted[m..];
    }
  }

  /** Row x stands before row y. */
  ghost predicate Ahead(rows: seq<Standing>, x: Standing, y: Standing) {
    exists a, b :: 0 <= a < b < |rows| && rows[a] == x && rows[b] == y
  }

  /** Rows that the sort key does not tell apart stay in their order. */
  ghost predicate Stable(rows: seq<Standing>, sorted: seq<Standing>) {
    forall i, j :: 0 <= i < j < |sorted| && Precedes(sorted[j], sorted[i]) ==> Ahead(rows, sorted[i], sorted[j])
  }

  lemma StableInsert(init: seq<Standing>, low: seq<Standing>, x: Standing, m: nat)
    requires Stable(init, low) && m <= |low| && forall q :: m <= q < |low| ==> !Precedes(low[q], x)
    requires forall s :: s in low ==> s in init
    ensures Stable(init + [x], low[..m] + [x] + low[m..])
  {
    var rows, sorted := init + [x], low[..m] + [x] + low[m..];
    forall i, j | 0 <= i < j < |sorted| && Precedes(sorted[j], sorted[i]) ensures Ahead(rows, sorted[i], sorted[j]) {
      if i != m && j != m {
        var i', j' := if i < m then i else i - 1, if j < m then j else j - 1;
        assert sorted[i] == low[i'] && sorted[j] == low[j'];
        var a, b :| 0 <= a < b < |init| && init[a] == low[i'] && init[b] == low[j'];
        assert rows[a] == init[a] && rows[b] == init[b];
      } else if j == m {
        assert sorted[i] == low[i] && low[i] in init;
        var a :| 0 <= a < |init| && init[a] == low[i];
        assert rows[a] == sorted[i] && rows[|init|] == sorted[j];
      }
    }
  }

  lemma {:induction false} SortIsStable(rows: seq<Standing>)
    ensures Stable(rows, StableSort(rows))
  {
    if rows != [] {
      var n := |rows| - 1;
      var init := rows[..n];
      SortIsStable(init);
      forall s | s in StableSort(init) ensures s in init {
        SortMembers(init, s);
      }
      var m := InsertPlaces(StableSort(init), rows[n]);
      StableInsert(init, StableSort(init), rows[n], m);
      assert rows == init + [rows[n]];
    }
  }

  /** Two entrants with the same total and the same average, or none, rank in the order in
      which they first answered, or else joined. */
  lemma TiesKeepArrival(subs: seq<Submission>, roster: seq<int>, i: nat, j: nat)
    requires i < j < |FinalList(subs, roster)|
    requires var fs := FinalList(subs, roster); fs[i].total == fs[j].total && fs[i].average == fs[j].average
    ensures Earlier(Participants(subs) + roster, FinalList(subs, roster)[i].participant, FinalList(subs, roster)[j].participant)
  {
    var ps := Entrants(subs, roster);
    var rows := Standings(subs, ps);
    var sorted := StableSort(rows);
    SortIsStable(rows);
    assert Precedes(sorted[j], sorted[i]);
    var a, b :| 0 <= a < b < |rows| && rows[a] == sorted[i] && rows[b] == sorted[j];
    FirstSeenInOrder(Participants(subs) + roster, a, b);
  }

  // ---------------------------------------------------------------------------
  // The loops of end_match
  // ---------------------------------------------------------------------------

  const ZERO_TALLY := Tally(0, 0, 0, 0)

  function Bump(t: Tally, s: Submission): Tally {
    Tally(t.total + s.score, t.correct + (if s.correct then 1 else 0), t.responseSum + s.responseMs, t.answers + 1)
  }

  lemma TallyStep(subs: seq<Submission>, i: nat, p: int)
    requires i < |subs|
    ensures TallyOf(subs[..i + 1], p) ==
            if subs[i].participant == p then Bump(TallyOf(subs[..i], p), subs[i]) else TallyOf(subs[..i], p)
  {
    assert subs[..i + 1][..i] == subs[..i];
  }

  lemma FirstSeenStep(ps: seq<int>, n: nat)
    requires n < |ps|
    ensures FirstSeen(ps[..n + 1]) ==
            if ps[n] in FirstSeen(ps[..n]) then FirstSeen(ps[..n]) else FirstSeen(ps[..n]) + [ps[n]]
  {
    assert ps[..n + 1][..n] == ps[..n];
  }

  ghost predicate Tallied(subs: seq<Submission>, order: seq<int>, tallies: map<int, Tally>) {
    forall p ::
      && (p in tallies <==> p in order)
      && TallyOf(subs, p) == if p in tallies then tallies[p] else ZERO_TALLY
  }

  /** `setdefault` of somebody new. */
  lemma TallyNew(subs: seq<Submission>, order: seq<int>, tallies: map<int, Tally>, p: int)
    requires Tallied(subs, order, tallies) && p !in tallies
    ensures Tallied(subs, order + [p], tallies[p := ZERO_TALLY])
  {
  }

  lemma TallyBump(subs: seq<Submission>, i: nat, order: seq<int>, tallies: map<int, Tally>)
    requires i < |subs| && Tallied(subs[..i], order, tallies) && subs[i].participant in tallies
    ensures var p := subs[i].participant;
            Tallied(subs[..i + 1], order, tallies[p := Bump(tallies[p], subs[i])])
  {
    forall q {
      TallyStep(subs, i, q);
    }
  }

  /** The first loop: one dictionary entry per submitter. */
  method TallySubmissions(subs: seq<Submission>) returns (order: seq<int>, tallies: map<int, Tally>)
    ensures order == FirstSeen(Participants(subs)) && Tallied(subs, order, tallies)
  {
    order, tallies := [], map[];
    ghost var ps := Participants(subs);
    for i := 0 to |subs|
      invariant order == FirstSeen(ps[..i]) && Tallied(subs[..i], order, tallies)
    {
      var p := subs[i].participant;
      FirstSeenStep(ps, i);
      if p !in tallies {
        TallyNew(subs[..i], order, tallies, p);
        order, tallies := order + [p], tallies[p := ZERO_TALLY];
      }
      TallyBump(subs, i, order, tallies);
      tallies := tallies[p := Bump(tallies[p], subs[i])];
    }
    assert subs[..|subs|] == subs && ps[..|subs|] == ps;
  }

  /** `per_participant`: a dictionary and its insertion order. */
  method Aggregate(subs: seq<Submission>, roster: seq<int>) returns (order: seq<int>, tallies: map<int, Tally>)
    ensures order == Entrants(subs, roster) && Tallied(subs, order, tallies)
  {
    hide FirstSeen, TallyOf;
    order, tallies := TallySubmissions(subs);
    ghost var ps := Participants(subs) + roster;
    assert ps[..|subs|] == Participants(subs);
    for i := 0 to |roster|
      invariant order == FirstSeen(ps[..|subs| + i]) && Tallied(subs, order, tallies)
    {
      FirstSeenStep(ps, |subs| + i);
      assert ps[|subs| + i] == roster[i];
      assert ps[..|subs| + (i + 1)] == ps[..|subs| + i + 1];
      if roster[i] !in tallies {
        TallyNew(subs, order, tallies, roster[i]);
        order, tallies := order + [roster[i]], tallies[roster[i] := ZERO_TALLY];
      }
    }
    assert ps[..|ps|] == ps;
  }

  method Finalise(subs: seq<Submission>, roster: seq<int>) returns (finals: seq<FinalScore>)
    ensures finals == FinalList(subs, roster)
    ensures IsFinalRanking(subs, roster, finals)
  {
    var order, tallies := Aggregate(subs, roster);
    var rows: seq<Standing> := [];
    for i := 0 to |order|
      invariant |rows| == i
      invariant forall j :: 0 <= j < i ==> rows[j] == StandingOf(order[j], TallyOf(subs, order[j]))
    {
      rows := rows + [StandingOf(order[i], tallies[order[i]])];
    }
    assert rows == Standings(subs, order);
    rows := StableSort(rows);
    finals := [];
    for i := 0 to |rows|
      invariant |finals| == i
      invariant forall j :: 0 <= j < i ==> finals[j] == Ranked(rows[j], j + 1)
    {
      finals := finals + [Ranked(rows[i], i + 1)];
    }
    assert finals == WithRanks(rows);
    FinalListIsFinalRanking(subs, roster);
  }
}

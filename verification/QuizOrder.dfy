/** Question positions within one quiz set
    (backend/app/repositories/quiz_repo.py, backend/app/services/quiz_service.py).

    The (quiz_set_id, position) constraint is not deferrable, so it is checked row
    by row while a bulk UPDATE runs, in whatever order the database visits rows. */
module QuizOrder {
  import opened Common

  /** Question id to position, for the rows of one quiz set. */
  type Positions = map<int, int>

  const SENTINEL := 1_000_000
  const PARK := SENTINEL - 1

  ghost predicate Unique(pos: Positions) {
    forall a, b :: a in pos && b in pos && a != b ==> pos[a] != pos[b]
  }

  // ---------------------------------------------------------------------------
  // One bulk UPDATE
  // ---------------------------------------------------------------------------

  function Matching(pos: Positions, where: (int, int) -> bool): set<int> {
    set a | a in pos && where(a, pos[a])
  }

  /** The table once exactly the rows in `done` have been rewritten. */
  function Updated(pos: Positions, done: set<int>, f: int -> int): Positions {
    map a | a in pos :: if a in done then f(pos[a]) else pos[a]
  }

  /** No order of visiting the rows ever shows two rows at one position. */
  ghost predicate NeverClashes(pos: Positions, where: (int, int) -> bool, f: int -> int) {
    forall done :: done <= Matching(pos, where) ==> Unique(Updated(pos, done, f))
  }

  /** A new position meets neither another row's old position nor its new one. */
  ghost predicate ClashFree(pos: Positions, where: (int, int) -> bool, f: int -> int) {
    && Unique(pos)
    && forall a, b :: a in pos && b in pos && a != b && where(a, pos[a]) ==>
         f(pos[a]) != pos[b] && (where(b, pos[b]) ==> f(pos[a]) != f(pos[b]))
  }

  /** Safety for every visiting order comes down to a check on pairs of rows. */
  lemma NeverClashesExactly(pos: Positions, where: (int, int) -> bool, f: int -> int)
    ensures NeverClashes(pos, where, f) <==> ClashFree(pos, where, f)
  {
    if NeverClashes(pos, where, f) {
      assert Updated(pos, {}, f) == pos;
      assert Unique(Updated(pos, {}, f));
      forall a, b | a in pos && b in pos && a != b && where(a, pos[a])
        ensures f(pos[a]) != pos[b] && (where(b, pos[b]) ==> f(pos[a]) != f(pos[b]))
      {
        var one, two := Updated(pos, {a}, f), Updated(pos, {a, b}, f);
        assert {a} <= Matching(pos, where);
        assert Unique(one) && one[a] == f(pos[a]) && one[b] == pos[b];
        if where(b, pos[b]) {
          assert {a, b} <= Matching(pos, where);
          assert Unique(two) && two[a] == f(pos[a]) && two[b] == f(pos[b]);
        }
      }
    }
  }

  /** The plain one-statement shift is what the source avoids: with two
      neighbouring rows to move, some visiting order clashes. */
  lemma PlainShiftClashes(pos: Positions, from: int, a: int, b: int)
    requires a in pos && b in pos && pos[a] >= from && pos[b] == pos[a] + 1
    ensures !NeverClashes(pos, AtOrAfter(from), Plus(1))
  {
    NeverClashesExactly(pos, AtOrAfter(from), Plus(1));
  }

  // ---------------------------------------------------------------------------
  // Park above the sentinel, then bring back
  // ---------------------------------------------------------------------------

  function Plus(delta: int): int -> int {
    p => p + delta
  }

  function AtOrAfter(from: int): (int, int) -> bool {
    (a, p) => p >= from
  }

  function After(from: int): (int, int) -> bool {
    (a, p) => p > from
  }

  function Shifted(pos: Positions, where: (int, int) -> bool, delta: int): Positions {
    Updated(pos, Matching(pos, where), Plus(delta))
  }

  ghost predicate BelowSentinel(pos: Positions) {
    forall a :: a in pos ==> 0 <= pos[a] < SENTINEL
  }

  /** The WHERE clause of the first statement. */
  function Parkable(where: (int, int) -> bool): (int, int) -> bool {
    (a, p) => where(a, p) && p < SENTINEL
  }

  /** The WHERE clause of the second. */
  function Parked(): (int, int) -> bool {
    (a, p) => p >= SENTINEL
  }

  /** Both statements are safe in every order, and together they shift. */
  lemma ParkAndReturn(pos: Positions, where: (int, int) -> bool, delta: int)
    requires Unique(pos) && BelowSentinel(pos)
    requires Unique(Shifted(pos, where, delta)) && BelowSentinel(Shifted(pos, where, delta))
    ensures NeverClashes(pos, Parkable(where), Plus(SENTINEL))
    ensures var parked := Shifted(pos, Parkable(where), SENTINEL);
            && NeverClashes(parked, Parked(), Plus(delta - SENTINEL))
            && Updated(parked, Matching(parked, Parked()), Plus(delta - SENTINEL))
               == Shifted(pos, where, delta)
  {
    var w1, w2 := Parkable(where), Parked();
    var parked, final := Shifted(pos, w1, SENTINEL), Shifted(pos, where, delta);
    assert ClashFree(pos, w1, Plus(SENTINEL));
    NeverClashesExactly(pos, w1, Plus(SENTINEL));
    forall a | a in pos
      ensures parked[a] == (if where(a, pos[a]) then pos[a] + SENTINEL else pos[a])
      ensures w2(a, parked[a]) <==> where(a, pos[a])
      ensures final[a] == (if where(a, pos[a]) then pos[a] + delta else pos[a])
    {
    }
    assert ClashFree(parked, w2, Plus(delta - SENTINEL));
    NeverClashesExactly(parked, w2, Plus(delta - SENTINEL));
  }

  /** Parking alone is safe exactly when no row already sits where an affected row
      would be parked; positions at or above the sentinel can break it. */
  lemma ParkingSafeExactly(pos: Positions, where: (int, int) -> bool)
    requires Unique(pos)
    ensures NeverClashes(pos, Parkable(where), Plus(SENTINEL)) <==>
            forall a, b :: a in pos && b in pos && Parkable(where)(a, pos[a]) ==> pos[b] != pos[a] + SENTINEL
  {
    NeverClashesExactly(pos, Parkable(where), Plus(SENTINEL));
  }

  /** Where the two statements leave one row. */
  lemma ReturnedAt(pos: Positions, where: (int, int) -> bool, delta: int, a: int)
    requires a in pos && pos[a] >= 0
    ensures var parked := Shifted(pos, Parkable(where), SENTINEL);
            var back := Updated(parked, Matching(parked, Parked()), Plus(delta - SENTINEL));
            a in back && back[a] == if pos[a] >= SENTINEL then pos[a] + delta - SENTINEL
                                    else if where(a, pos[a]) then pos[a] + delta else pos[a]
  {
    var parked := Shifted(pos, Parkable(where), SENTINEL);
    assert Parkable(where)(a, pos[a]) <==> where(a, pos[a]) && pos[a] < SENTINEL;
    assert parked[a] == if Parkable(where)(a, pos[a]) then pos[a] + SENTINEL else pos[a];
    assert Parked()(a, parked[a]) <==> parked[a] >= SENTINEL;
  }

  /** The second statement brings back whatever it finds at or above the sentinel, parked
      or not: the two statements are the shift if and only if no row was there before. */
  lemma ShiftExactly(pos: Positions, where: (int, int) -> bool, delta: int)
    requires (forall a :: a in pos ==> pos[a] >= 0) && delta < SENTINEL
    ensures var parked := Shifted(pos, Parkable(where), SENTINEL);
            Updated(parked, Matching(parked, Parked()), Plus(delta - SENTINEL)) == Shifted(pos, where, delta)
            <==> forall a :: a in pos ==> pos[a] < 1_000_000
  {
    var parked, final := Shifted(pos, Parkable(where), SENTINEL), Shifted(pos, where, delta);
    var back := Updated(parked, Matching(parked, Parked()), Plus(delta - SENTINEL));
    forall a | a in pos
      ensures final[a] == if where(a, pos[a]) then pos[a] + delta else pos[a]
      ensures back[a] == final[a] <==> pos[a] < SENTINEL
    {
      ReturnedAt(pos, where, delta, a);
    }
    assert back.Keys == pos.Keys == final.Keys;
    if forall a :: a in pos ==> pos[a] < SENTINEL {
      assert forall a :: a in pos <==> a in back;
      assert back == final;
    }
  }

  // ---------------------------------------------------------------------------
  // Lists
  // ---------------------------------------------------------------------------

  /** Positions are exactly 1..n, in the order of `list`. */
  ghost predicate Represents(pos: Positions, list: seq<int>) {
    && (forall i :: 0 <= i < |list| ==> list[i] in pos && pos[list[i]] == i + 1)
    && (forall a {:trigger HasPlace(pos, list, a)} :: a in pos ==> HasPlace(pos, list, a))
  }

  ghost predicate HasPlace(pos: Positions, list: seq<int>, a: int) {
    a in pos && 1 <= pos[a] <= |list| && list[pos[a] - 1] == a
  }

  /** In particular the list holds exactly the rows, each once. */
  lemma RepresentsEach(pos: Positions, list: seq<int>)
    requires Represents(pos, list)
    ensures NoDuplicates(list) && forall a :: a in list <==> a in pos
  {
    forall a | a in pos ensures a in list {
      assert HasPlace(pos, list, a);
    }
    forall i, j | 0 <= i < j < |list| ensures list[i] != list[j] {
      assert pos[list[i]] == i + 1 && pos[list[j]] == j + 1;
    }
    forall a | a in list ensures a in pos {
      var i :| 0 <= i < |list| && list[i] == a;
    }
  }

  function Inserted(list: seq<int>, i: nat, a: int): seq<int>
    requires i <= |list|
  {
    list[..i] + [a] + list[i..]
  }

  function Removed(list: seq<int>, i: nat): seq<int>
    requires i < |list|
  {
    list[..i] + list[i + 1..]
  }

  function Moved(list: seq<int>, i: nat, j: nat): seq<int>
    requires i < |list| && j < |list|
  {
    Inserted(Removed(list, i), j, list[i])
  }

  /** Moving back restores the list. */
  lemma MoveRoundTrip(list: seq<int>, i: nat, j: nat)
    requires i < |list| && j < |list|
    ensures Moved(Moved(list, i, j), j, i) == list
  {
    var rest := Removed(list, i);
    var there := Moved(list, i, j);
    assert Removed(there, j) == rest;
    assert there[j] == list[i];
  }

  lemma RepresentedIsUnique(pos: Positions, list: seq<int>)
    requires Represents(pos, list)
    ensures Unique(pos) && forall a :: a in pos ==> 1 <= pos[a] <= |list|
  {
    forall a, b | a in pos && b in pos && a != b ensures pos[a] != pos[b] {
      assert HasPlace(pos, list, a);
      var i := pos[a] - 1;
      assert HasPlace(pos, list, b);
      var j := pos[b] - 1;
    }
    forall a | a in pos ensures 1 <= pos[a] <= |list| {
      assert HasPlace(pos, list, a);
      var i := pos[a] - 1;
    }
  }

  /** The table once the rows from p on have made room. */
  lemma MadeRoomAt(pos: Positions, list: seq<int>, p: int, k: nat)
    requires Represents(pos, list) && k < |list| && 1 <= p <= |list| + 1
    ensures Shifted(pos, AtOrAfter(p), 1)[list[k]] == if k >= p - 1 then k + 2 else k + 1
  {
  }

  lemma InsertRefines(pos: Positions, list: seq<int>, id: int, p: int)
    requires Represents(pos, list) && id !in pos && 1 <= p <= |list| + 1
    ensures Represents(Shifted(pos, AtOrAfter(p), 1)[id := p], Inserted(list, p - 1, id))
  {
    var list', pos' := Inserted(list, p - 1, id), Shifted(pos, AtOrAfter(p), 1)[id := p];
    forall a | a in pos' ensures HasPlace(pos', list', a) {
      if a != id {
        assert HasPlace(pos, list, a);
        var k := pos[a] - 1;
        MadeRoomAt(pos, list, p, k);
      }
    }
    forall n | 0 <= n < |list'| ensures list'[n] in pos' && pos'[list'[n]] == n + 1 {
      if n != p - 1 {
        var k := if n < p - 1 then n else n - 1;
        assert list'[n] == list[k];
        MadeRoomAt(pos, list, p, k);
      }
    }
  }

  lemma RemoveRefines(pos: Positions, list: seq<int>, i: nat)
    requires Represents(pos, list) && i < |list|
    ensures var rest := pos - {list[i]};
            var shifted := Shifted(rest, After(i + 1), -1);
            && Unique(rest) && Unique(shifted) && (forall a :: a in shifted ==> 1 <= shifted[a] <= |list|)
            && Represents(shifted, Removed(list, i))
  {
    var rest := pos - {list[i]};
    var shifted := Shifted(rest, After(i + 1), -1);
    var list' := Removed(list, i);
    RepresentedIsUnique(pos, list);
    forall a | a in shifted ensures HasPlace(shifted, list', a) {
      assert HasPlace(pos, list, a);
      var k := pos[a] - 1;
      assert k != i;
    }
    RepresentedIsUnique(shifted, list');
  }

  /** Which siblings a move from `from` to `to` touches. */
  function Between(id: int, from: int, to: int): (int, int) -> bool {
    (a, q) => a != id && if to < from then to <= q < from else from < q <= to
  }

  /** Where a move from index i to index j puts index k. */
  function MovedIndex(i: nat, j: nat, k: nat): nat {
    if k == i then j
    else if j <= k < i then k + 1
    else if i < k <= j then k - 1
    else k
  }

  lemma MovedAt(list: seq<int>, i: nat, j: nat, k: nat)
    requires i < |list| && j < |list| && k < |list|
    ensures |Moved(list, i, j)| == |list| && MovedIndex(i, j, k) < |list|
    ensures Moved(list, i, j)[MovedIndex(i, j, k)] == list[k]
  {
  }

  /** The row is parked, the siblings in between step aside by one. */
  function SteppedAside(pos: Positions, id: int, from: int, to: int): Positions
    requires id in pos
  {
    Shifted(pos[id := PARK], Between(id, from, to), if to < from then 1 else -1)
  }

  lemma SteppedAsideAt(pos: Positions, list: seq<int>, i: nat, to: int, k: nat)
    requires Represents(pos, list) && i < |list| && 1 <= to <= |list| && k < |list| && i + 1 != to
    ensures SteppedAside(pos, list[i], i + 1, to)[list[k]] == if k == i then PARK else MovedIndex(i, to - 1, k) + 1
  {
  }

  /** Where each row of the list ends up, in the table and in the list. */
  lemma MovedPlace(pos: Positions, list: seq<int>, i: nat, to: int, k: nat)
    requires Represents(pos, list) && i < |list| && 1 <= to <= |list| && i + 1 != to && k < |list|
    ensures var list', pos' := Moved(list, i, to - 1), SteppedAside(pos, list[i], i + 1, to)[list[i] := to];
            && |list'| == |list| && list[k] in pos' && pos'[list[k]] == MovedIndex(i, to - 1, k) + 1
            && HasPlace(pos', list', list[k])
  {
    MovedAt(list, i, to - 1, k);
    SteppedAsideAt(pos, list, i, to, k);
    assert k != i ==> list[k] != list[i];
  }

  lemma MoveRefines(pos: Positions, list: seq<int>, i: nat, to: int)
    requires Represents(pos, list) && i < |list| && 1 <= to <= |list| && i + 1 != to
    ensures Represents(SteppedAside(pos, list[i], i + 1, to)[list[i] := to], Moved(list, i, to - 1))
  {
    var list', pos' := Moved(list, i, to - 1), SteppedAside(pos, list[i], i + 1, to)[list[i] := to];
    assert pos'.Keys == pos.Keys;
    hide Moved, SteppedAside;
    forall a | a in pos' ensures HasPlace(pos', list', a) {
      assert HasPlace(pos, list, a);
      MovedPlace(pos, list, i, to, pos[a] - 1);
    }
    MovedPlace(pos, list, i, to, i);
    forall n | 0 <= n < |list'| ensures list'[n] in pos' && pos'[list'[n]] == n + 1 {
      var k := MovedIndex(to - 1, i, n);
      assert MovedIndex(i, to - 1, k) == n;
      MovedPlace(pos, list, i, to, k);
    }
  }

  /** No intermediate table of the move repeats a position. */
  ghost predicate SafeMove(pos: Positions, id: int, from: int, to: int)
    requires id in pos
  {
    var parked, aside := pos[id := PARK], SteppedAside(pos, id, from, to);
    && Unique(parked) && BelowSentinel(parked) && Unique(aside) && BelowSentinel(aside)
    && forall a :: a in aside && a != id ==> aside[a] != to
  }

  // ---------------------------------------------------------------------------
  // Tables with gaps
  // ---------------------------------------------------------------------------

  /** Distinct positions below the park value, dense or not. */
  ghost predicate Regular(pos: Positions) {
    Unique(pos) && forall a :: a in pos ==> 1 <= pos[a] < 999_999
  }

  /** Rows other than `but` follow each other as before. */
  ghost predicate SameOrder(pos: Positions, pos': Positions, but: int) {
    forall a, b :: a in pos && b in pos && a != but && b != but ==>
      a in pos' && b in pos' && (pos[a] < pos[b] <==> pos'[a] < pos'[b])
  }

  /** Making room at p repeats no position, leaves p free and keeps the order. */
  lemma MakingRoomIsSafe(pos: Positions, id: int, p: int)
    requires Regular(pos) && id !in pos && p >= 1
    ensures var room := Shifted(pos, AtOrAfter(p), 1);
            && Unique(room) && BelowSentinel(room) && Unique(room[id := p])
            && SameOrder(pos, room[id := p], id)
            && room.Keys == pos.Keys
            && forall a :: a in pos ==> 1 <= room[a] <= pos[a] + 1 && (if pos[a] < p then room[a] < p else room[a] > p)
  {
    var room := Shifted(pos, AtOrAfter(p), 1);
    assert forall a :: a in pos ==> room[a] == if pos[a] >= p then pos[a] + 1 else pos[a];
  }

  /** So does closing the gap that a deleted row leaves. */
  lemma ClosingGapIsSafe(pos: Positions, id: int)
    requires Regular(pos) && id in pos
    ensures var rest := pos - {id};
            var closed := Shifted(rest, After(pos[id]), -1);
            Regular(rest) && Regular(closed) && closed.Keys == rest.Keys && SameOrder(pos, closed, id)
  {
    var rest := pos - {id};
    var closed := Shifted(rest, After(pos[id]), -1);
    forall a | a in rest
      ensures rest[a] == pos[a] != pos[id] && closed[a] == if pos[a] > pos[id] then pos[a] - 1 else pos[a]
    {
    }
  }

  /** Where the rows stand while the one that moves is parked. */
  ghost predicate IsAside(pos: Positions, aside: Positions, id: int, to: int) {
    && id in pos && aside.Keys == pos.Keys && aside[id] == 999_999
    && forall a :: a in pos && a != id ==>
         aside[a] == if to < pos[id] && to <= pos[a] < pos[id] then pos[a] + 1
                     else if to >= pos[id] && pos[id] < pos[a] <= to then pos[a] - 1 else pos[a]
  }

  lemma SteppedAsideAs(pos: Positions, id: int, to: int)
    requires id in pos
    ensures IsAside(pos, SteppedAside(pos, id, pos[id], to), id, to)
  {
  }

  lemma ParkedApart(pos: Positions, id: int)
    requires Regular(pos) && id in pos
    ensures Unique(pos[id := PARK]) && BelowSentinel(pos[id := PARK])
  {
  }

  /** Stepping aside keeps the others apart and in order, and the target free. */
  lemma OthersApart(pos: Positions, aside: Positions, id: int, to: int)
    requires Regular(pos) && IsAside(pos, aside, id, to) && 1 <= to < PARK && to != pos[id]
    ensures Unique(aside) && SameOrder(pos, aside, id)
    ensures forall a :: a in pos && a != id ==> 1 <= aside[a] < PARK && aside[a] != to
    ensures forall a :: a in pos && a != id ==> (aside[a] < to <==> if to < pos[id] then pos[a] < to else pos[a] <= to)
  {
    assert forall a :: a in pos && a != id ==> pos[a] != pos[id];
  }

  lemma DroppedApart(pos: Positions, aside: Positions, id: int, to: int)
    requires id in pos && aside.Keys == pos.Keys && 1 <= to < PARK && Unique(aside) && SameOrder(pos, aside, id)
    requires forall a :: a in pos && a != id ==> 1 <= aside[a] < PARK && aside[a] != to
    ensures Regular(aside[id := to]) && SameOrder(pos, aside[id := to], id) && aside[id := to].Keys == pos.Keys
  {
  }

  /** No intermediate table of a move repeats a position, whatever gaps the table has;
      the other rows keep their order, and those up to the target come before it. */
  lemma MoveIsSafe(pos: Positions, id: int, to: int)
    requires Regular(pos) && id in pos && 1 <= to < PARK && to != pos[id]
    ensures SafeMove(pos, id, pos[id], to)
    ensures var moved := SteppedAside(pos, id, pos[id], to)[id := to];
            && Regular(moved) && moved.Keys == pos.Keys && SameOrder(pos, moved, id)
            && forall a :: a in pos && a != id ==>
                 (moved[a] < to <==> if to < pos[id] then pos[a] < to else pos[a] <= to)
  {
    var aside := SteppedAside(pos, id, pos[id], to);
    SteppedAsideAs(pos, id, to);
    ParkedApart(pos, id);
    OthersApart(pos, aside, id, to);
    DroppedApart(pos, aside, id, to);
    hide SteppedAside, SameOrder, Unique;
  }

  // ---------------------------------------------------------------------------
  // Whole editing sessions
  // ---------------------------------------------------------------------------

  datatype Edit = Add(id: int, position: int) | Move(id: int, position: int) | Delete(id: int)

  /** The net effect of an edit on the table. */
  function Edited(pos: Positions, e: Edit): Positions {
    match e
    case Add(id, p) => Shifted(pos, AtOrAfter(p), 1)[id := p]
    case Move(id, p) =>
      if id !in pos || pos[id] == p then pos else SteppedAside(pos, id, pos[id], p)[id := p]
    case Delete(id) =>
      if id !in pos then pos else Shifted(pos - {id}, After(pos[id]), -1)
  }

  /** What the request schema and the row look-up let through; moves below the park value. */
  predicate Proper(pos: Positions, e: Edit) {
    match e
    case Add(id, p) => id !in pos && 1 <= p
    case Move(id, p) => id in pos && 1 <= p < PARK
    case Delete(id) => id in pos
  }

  /** An added question and the rows it moves up stay below the park value. */
  ghost predicate Headroom(pos: Positions, e: Edit) {
    e.Add? ==> e.position < PARK && forall a :: a in pos ==> pos[a] < PARK - 1
  }

  ghost predicate ProperRun(pos: Positions, es: seq<Edit>)
    decreases |es|
  {
    es == [] || (Proper(pos, es[0]) && Headroom(pos, es[0]) && ProperRun(Edited(pos, es[0]), es[1..]))
  }

  /** Each edit of a table with or without gaps repeats no position, puts its question
      where it was asked to, and keeps the others in order. */
  lemma EditKeepsOrder(pos: Positions, e: Edit)
    requires Regular(pos) && Proper(pos, e)
    ensures var pos' := Edited(pos, e);
            && Unique(pos') && SameOrder(pos, pos', e.id) && (Headroom(pos, e) ==> Regular(pos'))
            && pos'.Keys == (if e.Delete? then pos.Keys - {e.id} else pos.Keys + {e.id})
            && (!e.Delete? ==> pos'[e.id] == e.position)
  {
    hide Shifted, SteppedAside, SameOrder, SafeMove;
    match e
    case Add(id, p) => MakingRoomIsSafe(pos, id, p);
    case Move(id, p) => if p != pos[id] { MoveIsSafe(pos, id, p); } else { OrderStays(pos, id); }
    case Delete(id) => ClosingGapIsSafe(pos, id);
  }

  lemma OrderStays(pos: Positions, but: int)
    ensures SameOrder(pos, pos, but)
  {
  }

  /** Over any session within the park value, no two questions ever share a position. */
  lemma {:induction false} SessionStaysRegular(pos: Positions, es: seq<Edit>)
    requires Regular(pos) && ProperRun(pos, es)
    ensures Regular(EditedBy(pos, es))
    decreases |es|
  {
    if es != [] {
      EditKeepsOrder(pos, es[0]);
      SessionStaysRegular(Edited(pos, es[0]), es[1..]);
    }
  }

  /** A new question at 1..n+1, or an existing one to 1..n or away. */
  predicate Allowed(list: seq<int>, e: Edit) {
    match e
    case Add(id, p) => id !in list && 1 <= p <= |list| + 1
    case Move(id, p) => id in list && 1 <= p <= |list|
    case Delete(id) => id in list
  }

  /** Insert, remove-then-insert, and remove. */
  function EditedList(list: seq<int>, e: Edit): seq<int>
    requires Allowed(list, e)
  {
    match e
    case Add(id, p) => Inserted(list, p - 1, id)
    case Move(id, p) => Moved(list, IndexOf(list, id), p - 1)
    case Delete(id) => Removed(list, IndexOf(list, id))
  }

  ghost predicate AllowedRun(list: seq<int>, es: seq<Edit>)
    decreases |es|
  {
    es == [] || (Allowed(list, es[0]) && AllowedRun(EditedList(list, es[0]), es[1..]))
  }

  function EditedBy(pos: Positions, es: seq<Edit>): Positions
    decreases |es|
  {
    if es == [] then pos else EditedBy(Edited(pos, es[0]), es[1..])
  }

  ghost function ListEditedBy(list: seq<int>, es: seq<Edit>): seq<int>
    requires AllowedRun(list, es)
    decreases |es|
  {
    if es == [] then list else ListEditedBy(EditedList(list, es[0]), es[1..])
  }

  lemma EditRefines(pos: Positions, list: seq<int>, e: Edit)
    requires Represents(pos, list) && Allowed(list, e)
    ensures Represents(Edited(pos, e), EditedList(list, e))
  {
    hide Represents, Shifted, SteppedAside, Inserted, Removed, Moved;
    RepresentsEach(pos, list);
    match e
    case Add(id, p) => InsertRefines(pos, list, id, p);
    case Move(id, p) =>
      var i := IndexOf(list, id);
      PositionAt(pos, list, i);
      if i + 1 == p {
        MoveNowhere(list, i);
      } else {
        MoveRefines(pos, list, i, p);
      }
    case Delete(id) =>
      PositionAt(pos, list, IndexOf(list, id));
      RemoveRefines(pos, list, IndexOf(list, id));
  }

  lemma PositionAt(pos: Positions, list: seq<int>, i: nat)
    requires Represents(pos, list) && i < |list|
    ensures list[i] in pos && pos[list[i]] == i + 1
  {
  }

  lemma MoveNowhere(list: seq<int>, i: nat)
    requires i < |list|
    ensures Moved(list, i, i) == list
  {
  }

  /** Over any session of adds within 1..n+1, moves within 1..n and deletes, the
      positions are exactly 1..n and their order is that of the edited list. */
  lemma {:induction false} SessionRefinesList(pos: Positions, list: seq<int>, es: seq<Edit>)
    requires Represents(pos, list) && AllowedRun(list, es)
    ensures Represents(EditedBy(pos, es), ListEditedBy(list, es))
    decreases |es|
  {
    hide Edited, Represents;
    if es != [] {
      EditRefines(pos, list, es[0]);
      SessionRefinesList(Edited(pos, es[0]), EditedList(list, es[0]), es[1..]);
    }
  }

  lemma SameListSamePositions(a: Positions, b: Positions, list: seq<int>)
    requires Represents(a, list) && Represents(b, list)
    ensures a == b
  {
    RepresentsEach(a, list);
    RepresentsEach(b, list);
    assert forall x :: x in a <==> x in b;
    forall x | x in a ensures a[x] == b[x] {
      assert HasPlace(a, list, x);
      assert HasPlace(b, list, x);
    }
  }

  /** Moving a question and then moving it back restores every position, and so does
      deleting a question just added. */
  lemma EditsUndo(pos: Positions, list: seq<int>, id: int, p: int)
    requires Represents(pos, list)
    ensures id in pos && 1 <= p <= |list| ==> Edited(Edited(pos, Move(id, p)), Move(id, pos[id])) == pos
    ensures id !in pos && 1 <= p <= |list| + 1 ==> Edited(Edited(pos, Add(id, p)), Delete(id)) == pos
  {
    RepresentsEach(pos, list);
    if id in pos && 1 <= p <= |list| {
      assert HasPlace(pos, list, id);
      MoveBack(pos, list, pos[id] - 1, p);
    }
    if id !in pos && 1 <= p <= |list| + 1 {
      AddThenDelete(pos, list, id, p);
    }
  }

  lemma MoveBack(pos: Positions, list: seq<int>, i: nat, p: int)
    requires Represents(pos, list) && i < |list| && 1 <= p <= |list|
    ensures Edited(Edited(pos, Move(list[i], p)), Move(list[i], i + 1)) == pos
  {
    var id, there := list[i], Moved(list, i, p - 1);
    var pos1 := Edited(pos, Move(id, p));
    hide Represents, Edited, Moved;
    RepresentsEach(pos, list);
    PlaceIsUnique(list, i);
    EditRefines(pos, list, Move(id, p));
    MovedAt(list, i, p - 1, i);
    RepresentsEach(pos1, there);
    PlaceIsUnique(there, p - 1);
    EditRefines(pos1, there, Move(id, i + 1));
    MoveRoundTrip(list, i, p - 1);
    SameListSamePositions(Edited(pos1, Move(id, i + 1)), pos, list);
  }

  lemma AddThenDelete(pos: Positions, list: seq<int>, id: int, p: int)
    requires Represents(pos, list) && id !in pos && 1 <= p <= |list| + 1
    ensures Edited(Edited(pos, Add(id, p)), Delete(id)) == pos
  {
  }

  lemma PlaceIsUnique(list: seq<int>, i: nat)
    requires NoDuplicates(list) && i < |list|
    ensures list[i] in list && IndexOf(list, list[i]) == i
  {
  }

  // ---------------------------------------------------------------------------
  // The table
  // ---------------------------------------------------------------------------

  class Questions {
    var pos: Positions

    constructor (pos: Positions)
      ensures this.pos == pos
    {
      this.pos := pos;
    }

    /** One UPDATE statement: rows in any order, the constraint checked after each.
        On a violation the statement, and with it the transaction, is undone. */
    method BulkUpdate(where: (int, int) -> bool, f: int -> int) returns (ok: bool)
      modifies this
      ensures NeverClashes(old(pos), where, f) ==> ok
      ensures pos == if ok then Updated(old(pos), Matching(old(pos), where), f) else old(pos)
    {
      var start := pos;
      var all := Matching(start, where);
      var todo := all;
      while todo != {}
        invariant todo <= all
        invariant pos == Updated(start, all - todo, f)
        decreases |todo|
      {
        var a := AnyRow(todo);
        UpdatedMore(start, all - todo, a, f);
        assert all - todo + {a} == all - (todo - {a});
        pos := pos[a := f(pos[a])];
        todo := todo - {a};
        var clash := exists b :: b in pos.Keys && b != a && pos[b] == pos[a];
        if clash {
          assert !Unique(Updated(start, all - todo, f));
          pos := start;
          return false;
        }
      }
      assert all - todo == all;
      return true;
    }

    /** The two statements every renumbering uses. */
    method ParkThenReturn(where: (int, int) -> bool, delta: int) returns (ok: bool)
      modifies this
      ensures Unique(old(pos)) && BelowSentinel(old(pos))
              && Unique(Shifted(old(pos), where, delta)) && BelowSentinel(Shifted(old(pos), where, delta)) ==>
                ok && pos == Shifted(old(pos), where, delta)
    {
      ghost var good := Unique(pos) && BelowSentinel(pos)
                        && Unique(Shifted(pos, where, delta)) && BelowSentinel(Shifted(pos, where, delta));
      if good {
        ParkAndReturn(pos, where, delta);
      }
      ok := BulkUpdate(Parkable(where), Plus(SENTINEL));
      if ok {
        ok := BulkUpdate(Parked(), Plus(delta - SENTINEL));
      }
    }

    /** `coalesce(max(position), 0)`. */
    method MaxPosition() returns (m: int)
      ensures forall a :: a in pos ==> pos[a] <= m
      ensures m == 0 || exists a :: a in pos && pos[a] == m
      ensures pos != map[] ==> exists a :: a in pos && pos[a] == m
    {
      m := 0;
      var todo, first := pos.Keys, true;
      while todo != {}
        invariant todo <= pos.Keys
        invariant first ==> todo == pos.Keys && m == 0
        invariant !first ==> exists a :: a in pos && pos[a] == m
        invariant !first ==> forall a :: a in pos && a !in todo ==> pos[a] <= m
        decreases |todo|
      {
        var a := AnyRow(todo);
        if first || pos[a] > m {
          m := pos[a];
        }
        todo, first := todo - {a}, false;
      }
    }

    /** INSERT of one row under both unique constraints. */
    method InsertRow(id: int, position: int) returns (ok: bool)
      modifies this
      ensures ok <==> id !in old(pos) && forall a :: a in old(pos) ==> old(pos)[a] != position
      ensures pos == if ok then old(pos)[id := position] else old(pos)
    {
      ok := id !in pos && !exists a :: a in pos.Keys && pos[a] == position;
      if ok {
        pos := pos[id := position];
      }
    }

    /** add_question: at the end, or at a given position with the later rows moved on,
        in any table below the park value. */
    method AddQuestion(id: int, position: Option<int>) returns (ok: bool, target: int)
      requires position.Some? ==> position.value >= 1
      modifies this
      ensures position.Some? ==> target == position.value
      ensures position.None? ==> IsLast(old(pos), target)
      ensures Regular(old(pos)) && id !in old(pos) ==>
                && ok && pos == Edited(old(pos), Add(id, target))
                && Unique(pos) && SameOrder(old(pos), pos, id)
      ensures forall list :: Represents(old(pos), list) && |list| < PARK && Allowed(list, Add(id, target)) ==>
                Represents(pos, EditedList(list, Add(id, target)))
    {
      ghost var before := pos;
      var max := MaxPosition();
      target := if position.None? then max + 1 else position.value;
      if Regular(pos) && id !in pos {
        assert target >= 1;
        MakingRoomIsSafe(pos, id, target);
        if target > max {
          NothingToShift(pos, target);
        }
      }
      ok := true;
      if position.Some? && target <= max {
        ok := ParkThenReturn(AtOrAfter(target), 1);
      }
      if ok {
        ok := InsertRow(id, target);
      }
      ListEdits(before, pos, Add(id, target));
    }

    /** delete_question. */
    method DeleteQuestion(id: int) returns (ok: bool)
      modifies this
      ensures id !in old(pos) ==> !ok && pos == old(pos)
      ensures Regular(old(pos)) && id in old(pos) ==>
                ok && pos == Edited(old(pos), Delete(id)) && Regular(pos) && SameOrder(old(pos), pos, id)
      ensures forall list :: Represents(old(pos), list) && |list| < PARK && Allowed(list, Delete(id)) ==>
                Represents(pos, EditedList(list, Delete(id)))
    {
      ghost var before := pos;
      if id in pos {
        var deleted := pos[id];
        if Regular(pos) {
          ClosingGapIsSafe(pos, id);
        }
        pos := pos - {id};
        ok := ParkThenReturn(After(deleted), -1);
      } else {
        ok := false;
      }
      ListEdits(before, pos, Delete(id));
    }

    /** UPDATE of one row's position under the unique constraint. */
    method PlaceRow(id: int, position: int) returns (ok: bool)
      requires id in pos
      modifies this
      ensures ok <==> forall a :: a in old(pos) && a != id ==> old(pos)[a] != position
      ensures pos == if ok then old(pos)[id := position] else old(pos)
    {
      ok := !exists a :: a in pos.Keys && a != id && pos[a] == position;
      if ok {
        pos := pos[id := position];
      }
    }

    /** The three writes of _move_question_to: park the row, renumber the siblings
        in between, drop the row at its target. */
    method Relocate(id: int, was: int, position: int) returns (ok: bool)
      requires id in pos
      modifies this
      ensures SafeMove(old(pos), id, was, position) ==>
                ok && pos == SteppedAside(old(pos), id, was, position)[id := position]
    {
      FreeSlot(pos, id, PARK);
      ok := PlaceRow(id, PARK);
      if ok {
        ok := ParkThenReturn(Between(id, was, position), if position < was then 1 else -1);
      }
      if ok && id in pos {
        ok := PlaceRow(id, position);
      }
    }

    /** _move_question_to. */
    method MoveQuestion(id: int, position: int) returns (ok: bool)
      requires position >= 1 && id in pos
      modifies this
      ensures Regular(old(pos)) && position < PARK ==>
                ok && pos == Edited(old(pos), Move(id, position)) && Regular(pos) && SameOrder(old(pos), pos, id)
      ensures forall list :: Represents(old(pos), list) && |list| < PARK && Allowed(list, Move(id, position)) ==>
                Represents(pos, EditedList(list, Move(id, position)))
    {
      hide SteppedAside, SafeMove;
      ghost var before := pos;
      var was := pos[id];
      if Regular(pos) && position < PARK && position != was {
        MoveIsSafe(pos, id, position);
      }
      if position == was {
        ok := true;
      } else {
        ok := Relocate(id, was, position);
      }
      ListEdits(before, pos, Move(id, position));
    }
  }

  /** The place after every row. */
  ghost predicate IsLast(pos: Positions, p: int) {
    && (forall a :: a in pos ==> pos[a] < p)
    && (p == 1 || exists a :: a in pos && pos[a] == p - 1)
  }

  /** On a dense table below the park value, the edit of the table is that of the list. */
  lemma ListEdits(pos: Positions, pos': Positions, e: Edit)
    requires Regular(pos) && Proper(pos, e) ==> pos' == Edited(pos, e)
    ensures forall list :: Represents(pos, list) && |list| < PARK && Allowed(list, e) ==>
              Represents(pos', EditedList(list, e))
  {
    forall list | Represents(pos, list) && |list| < PARK && Allowed(list, e)
      ensures Represents(pos', EditedList(list, e))
    {
      RepresentedIsUnique(pos, list);
      RepresentsEach(pos, list);
      EditRefines(pos, list, e);
    }
  }

  method AnyRow(ids: set<int>) returns (a: int)
    requires ids != {}
    ensures a in ids
  {
    EmptyOrMember(ids);
    a :| a in ids;
  }

  lemma FreeSlot(pos: Positions, id: int, p: int)
    ensures Unique(pos[id := p]) ==> forall a :: a in pos && a != id ==> pos[a] != p
  {
    var pos' := pos[id := p];
    if Unique(pos') {
      forall a | a in pos && a != id ensures pos[a] != p {
        assert pos'[a] != pos'[id];
      }
    }
  }

  lemma UpdatedMore(pos: Positions, done: set<int>, a: int, f: int -> int)
    requires a in pos && a !in done
    ensures Updated(pos, done + {a}, f) == Updated(pos, done, f)[a := f(pos[a])]
    ensures Updated(pos, done, f)[a] == pos[a]
  {
  }

  lemma NothingToShift(pos: Positions, p: int)
    requires forall a :: a in pos ==> pos[a] < p
    ensures Shifted(pos, AtOrAfter(p), 1) == pos
  {
    var where := AtOrAfter(p);
    forall a | a in pos ensures !where(a, pos[a]) {
      assert pos[a] < p;
    }
  }

  lemma GapIsNotDense(pos: Positions, list: seq<int>, id: int, p: int, list': seq<int>)
    requires Represents(pos, list) && id !in pos && p > |list| + 1
    ensures !Represents(pos[id := p], list')
  {
    RepresentedIsUnique(pos, list);
    var pos' := pos[id := p];
    if Represents(pos', list') {
      assert HasPlace(pos', list', id);
      var k := pos'[id] - 1;
      NoneAt(pos', list', |list|);
    }
  }

  lemma NoneAt(pos: Positions, list: seq<int>, i: nat)
    requires i < |list| && forall a :: a in pos ==> pos[a] != i + 1
    ensures !Represents(pos, list)
  {
    var a := list[i];
    assert a in pos ==> pos[a] != i + 1;
  }

  /** A gap is the only alternative: adding at p keeps positions at exactly 1..n+1
      if and only if p is at most n + 1. */
  lemma AddStaysDenseExactly(pos: Positions, list: seq<int>, id: int, p: int, pos': Positions)
    requires Represents(pos, list) && id !in pos && p >= 1
    requires pos' == if p <= |list| then Shifted(pos, AtOrAfter(p), 1)[id := p] else pos[id := p]
    ensures (exists list' :: Represents(pos', list')) <==> p <= |list| + 1
  {
    if p <= |list| + 1 {
      InsertRefines(pos, list, id, p);
      if p == |list| + 1 {
        RepresentedIsUnique(pos, list);
        NothingToShift(pos, p);
      }
      assert Represents(pos', Inserted(list, p - 1, id));
    } else {
      forall list' ensures !Represents(pos', list') {
        GapIsNotDense(pos, list, id, p, list');
      }
    }
  }

  /** Likewise a move keeps positions at exactly 1..n if and only if its target
      is at most n. */
  lemma MoveStaysDenseExactly(pos: Positions, list: seq<int>, i: nat, to: int, pos': Positions)
    requires Represents(pos, list) && i < |list| && to >= 1 && i + 1 != to
    requires pos' == SteppedAside(pos, list[i], i + 1, to)[list[i] := to]
    ensures (exists list' :: Represents(pos', list')) <==> to <= |list|
  {
    var n := |list|;
    if to <= n {
      MoveRefines(pos, list, i, to);
    } else {
      forall a | a in pos' ensures pos'[a] != n {
        assert HasPlace(pos, list, a);
        assert list[i] in pos;
      }
      forall list' ensures !Represents(pos', list') {
        if |list'| >= n {
          NoneAt(pos', list', n - 1);
        } else {
          NoRoom(pos', list', list[i]);
        }
      }
    }
  }

  lemma NoRoom(pos: Positions, list: seq<int>, a: int)
    requires a in pos && pos[a] > |list|
    ensures !Represents(pos, list)
  {
    assert !HasPlace(pos, list, a);
  }
}

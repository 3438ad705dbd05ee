/** Small shared vocabulary. */
module Common {

  datatype Option<+T> = None | Some(value: T)

  datatype Result<+T, +E> = Ok(value: T) | Err(error: E)

  /** `max(0, x)`, the clamp the source applies to every elapsed time. */
  function AtLeastZero(x: int): nat {
    if x < 0 then 0 else x
  }

  ghost predicate NoDuplicates<T(!new)>(s: seq<T>) {
    forall i, j :: 0 <= i < j < |s| ==> s[i] != s[j]
  }

  lemma EmptyOrMember(ids: set<int>)
    ensures ids == {} || exists a :: a in ids
  {
    if !exists a :: a in ids {
      assert ids == {};
    }
  }

  /** Some element of a set that is not empty. */
  ghost function Any(ids: set<int>): (id: int)
    requires ids != {}
    ensures id in ids
  {
    EmptyOrMember(ids);
    var id :| id in ids;
    id
  }

  /** The last place where `x` occurs. */
  function IndexOf(s: seq<int>, x: int): (i: nat)
    requires x in s
    ensures i < |s| && s[i] == x
  {
    if s[|s| - 1] == x then |s| - 1 else IndexOf(s[..|s| - 1], x)
  }
}

/**
 The array updates the controllers apply to id lists: Mongo's `$push`,
 `$addToSet` and `$pull`, JavaScript's `push` and `filter`, and the
 "remove if present, otherwise add" toggle several handlers build from them.
 */
module Lists {

  import opened Base

  /** `$addToSet` (and "push unless `includes`"): add x at the end unless it
      is already there. */
  function AddToSet(s: seq<Id>, x: Id): (r: seq<Id>)
    ensures x in r
    ensures forall y :: y in r <==> y in s || y == x
    ensures |s| <= |r| <= |s| + 1 && r[..|s|] == s
  {
    if x in s then s else s + [x]
  }

  /** `$pull` (and `filter(id => id !== x)`): drop every occurrence of x,
      keeping the other elements in order and with their multiplicity. */
  function Pull(s: seq<Id>, x: Id): (r: seq<Id>)
    ensures x !in r
    ensures multiset(r) == multiset(s)[x := 0]
    ensures forall y :: y in r <==> y in s && y != x
  {
    if s == [] then []
    else
      var rest := Pull(s[1..], x);
      assert s == [s[0]] + s[1..];
      if s[0] == x then rest else [s[0]] + rest
  }

  /** The toggle built from `includes`: pull x when present, else append it. */
  function Toggle(s: seq<Id>, x: Id): (r: seq<Id>)
    ensures x in r <==> x !in s
    ensures forall y :: y != x ==> (y in r <==> y in s)
  {
    if x in s then Pull(s, x) else s + [x]
  }

  /** Pulling an absent element leaves the list exactly as it was. */
  lemma {:induction false} PullAbsent(s: seq<Id>, x: Id)
    requires x !in s
    ensures Pull(s, x) == s
  {
    if s != [] {
      PullAbsent(s[1..], x);
    }
  }

  /** Pull works element by element, so it distributes over concatenation. */
  lemma {:induction false} PullConcat(a: seq<Id>, b: seq<Id>, x: Id)
    ensures Pull(a + b, x) == Pull(a, x) + Pull(b, x)
  {
    if a == [] {
      assert a + b == b;
    } else {
      assert (a + b)[1..] == a[1..] + b;
      PullConcat(a[1..], b, x);
    }
  }

  /** `$pull` is idempotent. */
  lemma PullIdempotent(s: seq<Id>, x: Id)
    ensures Pull(Pull(s, x), x) == Pull(s, x)
  {
    PullAbsent(Pull(s, x), x);
  }

  /** `$addToSet` is idempotent. */
  lemma AddToSetIdempotent(s: seq<Id>, x: Id)
    ensures AddToSet(AddToSet(s, x), x) == AddToSet(s, x)
  {
  }

  /** Toggling twice restores membership of every element; when x was
      absent it restores the list itself. */
  lemma ToggleTwice(s: seq<Id>, x: Id)
    ensures forall y :: y in Toggle(Toggle(s, x), x) <==> y in s
    ensures x !in s ==> Toggle(Toggle(s, x), x) == s
  {
    if x !in s {
      PullConcat(s, [x], x);
      PullAbsent(s, x);
      assert Pull([x], x) == [];
    }
  }

  /** Pulling what was just appended to a list without it gives the list back. */
  lemma PullAppended(s: seq<Id>, x: Id)
    requires x !in s
    ensures Pull(s + [x], x) == s
  {
    PullConcat(s, [x], x);
    PullAbsent(s, x);
    assert Pull([x], x) == [];
  }

  /** No element twice. */
  predicate Distinct(s: seq<Id>) {
    forall i, j :: 0 <= i < j < |s| ==> s[i] != s[j]
  }

  /** `$addToSet` and add-if-absent never introduce a duplicate. */
  lemma AddToSetDistinct(s: seq<Id>, x: Id)
    requires Distinct(s)
    ensures Distinct(AddToSet(s, x))
  {
    if x !in s {
      var r := s + [x];
      forall i, j | 0 <= i < j < |r|
        ensures r[i] != r[j]
      {
        if j == |s| {
          assert r[i] == s[i];
        }
      }
    }
  }
}

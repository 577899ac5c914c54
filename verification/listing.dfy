/**
 `find(filter).sort({ createdAt: -1 })`: the ids of the matching documents,
 newest first. Documents created in the same millisecond may come in any
 order, as the database gives no tie-break either.
 */
module Listing {

  import opened Base

  /** Newest first: creation times never increase along the list. */
  ghost predicate NewestFirstOrder(r: seq<Id>, times: map<Id, Millis>)
    requires forall k :: 0 <= k < |r| ==> r[k] in times
  {
    forall i, j :: 0 <= i < j < |r| ==> times[r[i]] >= times[r[j]]
  }

  /** No id twice. */
  ghost predicate NoRepeats(r: seq<Id>) {
    forall i, j :: 0 <= i < j < |r| ==> r[i] != r[j]
  }

  /** Each document's creation time, by id. */
  function CreationTimes<T>(docs: map<Id, T>, createdAt: T -> Millis): (r: map<Id, Millis>)
    ensures r.Keys == docs.Keys
    ensures forall k :: k in r ==> r[k] == createdAt(docs[k])
  {
    map k | k in docs :: createdAt(docs[k])
  }

  /** Places `k` before the first entry that is no newer than it. */
  function Insert(r: seq<Id>, k: Id, times: map<Id, Millis>): (q: seq<Id>)
    requires k in times && forall i :: 0 <= i < |r| ==> r[i] in times
    requires NewestFirstOrder(r, times)
    requires NoRepeats(r) && k !in r
    ensures |q| == |r| + 1
    ensures forall x :: x in q <==> x in r || x == k
    ensures forall i :: 0 <= i < |q| ==> q[i] in times
    ensures NewestFirstOrder(q, times)
    ensures NoRepeats(q)
  {
    if r == [] then [k]
    else if times[k] >= times[r[0]] then [k] + r
    else
      var rest := Insert(r[1..], k, times);
      assert forall x :: x in r[1..] ==> times[r[0]] >= times[x];
      assert r[0] !in r[1..];
      assert r[0] !in rest;
      [r[0]] + rest
  }

  /** The listing: every key of `times` exactly once, newest first. */
  method NewestFirst(times: map<Id, Millis>) returns (r: seq<Id>)
    ensures forall x :: x in r <==> x in times
    ensures forall i :: 0 <= i < |r| ==> r[i] in times
    ensures NoRepeats(r)
    ensures NewestFirstOrder(r, times)
    ensures |r| == |times|
  {
    r := [];
    var rest := times.Keys;
    while rest != {}
      invariant rest <= times.Keys
      invariant forall x :: x in r <==> x in times && x !in rest
      invariant forall i :: 0 <= i < |r| ==> r[i] in times
      invariant NoRepeats(r)
      invariant NewestFirstOrder(r, times)
      invariant |r| + |rest| == |times.Keys|
      decreases |rest|
    {
      var k :| k in rest;
      r := Insert(r, k, times);
      rest := rest - {k};
    }
  }
}

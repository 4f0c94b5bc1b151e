/** The orders in which the document store hands back the documents of an
    index query.  Ids are allocated in increasing order, so a document's id
    also stands for its creation time, the store's final tie-breaker. */
module Index {

  type Id = nat

  /** A document as a query returns it: its id and its fields. */
  datatype Doc<T> = Doc(id: Id, value: T)

  /** The ids of `s` below `bound` in ascending order: creation order. */
  function Ascending(s: set<Id>, bound: nat): (r: seq<Id>)
    ensures forall i :: 0 <= i < |r| ==> r[i] in s && r[i] < bound
    ensures forall x :: x in s && x < bound ==> x in r
    ensures forall i, j :: 0 <= i < j < |r| ==> r[i] < r[j]
    decreases bound
  {
    if bound == 0 then []
    else Ascending(s, bound - 1) + (if bound - 1 in s then [bound - 1] else [])
  }

  /** Index order on a numeric field `key`, ties broken by creation order. */
  predicate Precedes(key: map<Id, int>, a: Id, b: Id)
    requires a in key && b in key
  {
    key[a] < key[b] || (key[a] == key[b] && a < b)
  }

  predicate AllKeyed(s: seq<Id>, key: map<Id, int>) {
    forall i :: 0 <= i < |s| ==> s[i] in key
  }

  predicate Distinct(s: seq<Id>) {
    forall i, j :: 0 <= i < j < |s| ==> s[i] != s[j]
  }

  predicate IncreasingBy(s: seq<Id>, key: map<Id, int>)
    requires AllKeyed(s, key)
  {
    forall i, j :: 0 <= i < j < |s| ==> Precedes(key, s[i], s[j])
  }

  function InsertBy(x: Id, s: seq<Id>, key: map<Id, int>): (r: seq<Id>)
    requires x in key && AllKeyed(s, key) && x !in s
    requires IncreasingBy(s, key)
    ensures AllKeyed(r, key) && IncreasingBy(r, key)
    ensures |r| == |s| + 1
    ensures forall y :: y in r <==> y == x || y in s
  {
    if s == [] then [x]
    else if Precedes(key, x, s[0]) then [x] + s
    else
      var t := InsertBy(x, s[1..], key);
      assert forall j :: 0 <= j < |t| ==> t[j] == x || t[j] in s[1..];
      assert forall y :: y in s[1..] ==> Precedes(key, s[0], y);
      [s[0]] + t
  }

  /** Distinct ids sorted into index order on `key`. */
  function SortBy(s: seq<Id>, key: map<Id, int>): (r: seq<Id>)
    requires AllKeyed(s, key) && Distinct(s)
    ensures AllKeyed(r, key) && IncreasingBy(r, key)
    ensures |r| == |s|
    ensures forall y :: y in r <==> y in s
  {
    if s == [] then []
    else InsertBy(s[0], SortBy(s[1..], key), key)
  }

  function Reverse(s: seq<Id>): (r: seq<Id>)
    ensures |r| == |s|
    ensures forall i :: 0 <= i < |s| ==> r[i] == s[|s| - 1 - i]
  {
    if s == [] then [] else Reverse(s[1..]) + [s[0]]
  }

  /** `take(limit)`: the first `limit` entries. */
  function Take(s: seq<Id>, limit: nat): (r: seq<Id>)
    ensures |r| == if |s| <= limit then |s| else limit
    ensures forall i :: 0 <= i < |r| ==> r[i] == s[i]
  {
    if |s| <= limit then s else s[..limit]
  }

  /** `order("desc").take(limit)` over the members of `s`: the `limit` latest
      ids in index order on `key`, latest first.  Every member left out comes
      before every member returned, and fewer than `limit` come back only
      when every member does. */
  function Latest(s: set<Id>, bound: nat, key: map<Id, int>, limit: nat): (r: seq<Id>)
    requires forall x :: x in s ==> x in key
    ensures AllKeyed(r, key)
    ensures forall i :: 0 <= i < |r| ==> r[i] in s && r[i] < bound
    ensures forall i, j :: 0 <= i < j < |r| ==> Precedes(key, r[j], r[i])
    ensures |r| <= limit
    ensures |r| < limit ==> forall x :: x in s && x < bound ==> x in r
    ensures forall x, i :: x in s && x < bound && x !in r && 0 <= i < |r| ==> Precedes(key, x, r[i])
  {
    var sorted := SortBy(Ascending(s, bound), key);
    TakeOfReversed(sorted, key, limit);
    var r := Take(Reverse(sorted), limit);
    assert forall i :: 0 <= i < |r| ==> r[i] in sorted;
    r
  }

  lemma TakeOfReversed(sorted: seq<Id>, key: map<Id, int>, limit: nat)
    requires AllKeyed(sorted, key) && IncreasingBy(sorted, key)
    ensures var r := Take(Reverse(sorted), limit);
      && (forall i, j :: 0 <= i < j < |r| ==> r[i] in key && r[j] in key && Precedes(key, r[j], r[i]))
      && (|r| < limit ==> forall x :: x in sorted ==> x in r)
      && (forall x, i :: x in sorted && x !in r && 0 <= i < |r| ==> r[i] in key && Precedes(key, x, r[i]))
  {
    var r := Take(Reverse(sorted), limit);
    assert forall i :: 0 <= i < |r| ==> r[i] == sorted[|sorted| - 1 - i];
    if |r| < limit {
      forall x | x in sorted ensures x in r {
        var p :| 0 <= p < |sorted| && sorted[p] == x;
        assert r[|sorted| - 1 - p] == x;
      }
    }
    forall q | |sorted| - |r| <= q < |sorted| ensures sorted[q] in r {
      assert r[|sorted| - 1 - q] == sorted[q];
    }
    forall x, i | x in sorted && x !in r && 0 <= i < |r|
      ensures r[i] in key && Precedes(key, x, r[i])
    {
      var p :| 0 <= p < |sorted| && sorted[p] == x;
      assert p < |sorted| - |r|;
      assert r[i] == sorted[|sorted| - 1 - i];
    }
  }

  /** The documents of `table` with the given ids, in the same order. */
  function Docs<T>(ids: seq<Id>, table: map<Id, T>): (r: seq<Doc<T>>)
    requires forall i :: 0 <= i < |ids| ==> ids[i] in table
    ensures |r| == |ids|
    ensures forall i :: 0 <= i < |r| ==> r[i] == Doc(ids[i], table[ids[i]])
  {
    seq(|ids|, i requires 0 <= i < |ids| => Doc(ids[i], table[ids[i]]))
  }

  /** `Latest` fetched from `table`: the documents themselves, with the same
      promises. */
  function LatestDocs<T>(s: set<Id>, bound: nat, key: map<Id, int>, limit: nat, table: map<Id, T>): (r: seq<Doc<T>>)
    requires forall x :: x in s ==> x in key && x in table
    ensures |r| <= limit
    ensures forall i :: 0 <= i < |r| ==>
      r[i].id in s && r[i].id < bound && r[i].id in key && r[i].value == table[r[i].id]
    ensures forall i, j :: 0 <= i < j < |r| ==> r[i].id in key && r[j].id in key && Precedes(key, r[j].id, r[i].id)
    ensures forall x :: x in s && x < bound && Doc(x, table[x]) !in r ==>
      |r| == limit && forall i :: 0 <= i < |r| ==> r[i].id in key && Precedes(key, x, r[i].id)
  {
    var ids := Latest(s, bound, key, limit);
    var r := Docs(ids, table);
    forall x | x in s && x < bound && Doc(x, table[x]) !in r
      ensures |r| == limit && forall i :: 0 <= i < |r| ==> r[i].id in key && Precedes(key, x, r[i].id)
    {
      assert x !in ids;
    }
    r
  }

  /** The documents of `s` below `bound` in index order on `key`. */
  function SortedDocs<T>(s: set<Id>, bound: nat, key: map<Id, int>, table: map<Id, T>): (r: seq<Doc<T>>)
    requires forall x :: x in s ==> x in key && x in table
    ensures forall i :: 0 <= i < |r| ==> r[i].id in s && r[i].id in key && r[i].value == table[r[i].id]
    ensures forall x :: x in s && x < bound ==> Doc(x, table[x]) in r
    ensures forall i, j :: 0 <= i < j < |r| ==> r[i].id in key && r[j].id in key && Precedes(key, r[i].id, r[j].id)
  {
    var asc := Ascending(s, bound);
    var ids := SortBy(asc, key);
    assert forall i :: 0 <= i < |ids| ==> ids[i] in asc;
    var r := Docs(ids, table);
    forall x | x in s && x < bound ensures Doc(x, table[x]) in r {
      var i :| 0 <= i < |ids| && ids[i] == x;
      assert r[i] == Doc(x, table[x]);
    }
    r
  }

  /** The set of elements of a sequence. */
  function Elements(s: seq<Id>): (r: set<Id>)
    ensures forall x :: x in r <==> x in s
  {
    set x | x in s
  }
}

/** The comparator shared by `GET /api/v1/animals`, `my_posts` and
    `all_posts`, and `Array.prototype.sort` run with it on the fetched
    documents. */
module Sorting {
  import opened Wrappers
  import opened Http

  /** The comparator: `mostrecent` and any other value order by
      descending creation date, `oldest` by ascending creation date. */
  function Compare(sorting: Option<string>, a: Timestamp, b: Timestamp): (r: int)
    ensures sorting == Some("oldest") ==> (r <= 0 <==> a <= b)
    ensures sorting != Some("oldest") ==> (r <= 0 <==> b <= a)
    ensures r == 0 <==> a == b
  {
    if sorting == Some("mostrecent") then b - a
    else if sorting == Some("oldest") then a - b
    else b - a
  }

  /** Swapping the arguments negates the comparator, as `sort` requires. */
  lemma CompareAntisymmetric(sorting: Option<string>, a: Timestamp, b: Timestamp)
    ensures Compare(sorting, a, b) == -Compare(sorting, b, a)
  {
  }

  /** Every earlier element compares at most equal to every later one. */
  predicate Sorted<T>(s: seq<T>, date: T -> Timestamp, sorting: Option<string>) {
    forall i, j :: 0 <= i < j < |s| ==> Compare(sorting, date(s[i]), date(s[j])) <= 0
  }

  predicate NonDecreasing<T>(s: seq<T>, date: T -> Timestamp) {
    forall i, j :: 0 <= i < j < |s| ==> date(s[i]) <= date(s[j])
  }

  predicate NonIncreasing<T>(s: seq<T>, date: T -> Timestamp) {
    forall i, j :: 0 <= i < j < |s| ==> date(s[i]) >= date(s[j])
  }

  /** Sorted under `oldest` means oldest first; under `mostrecent`,
      absent or any other value it means newest first. */
  lemma SortedMeaning<T>(s: seq<T>, date: T -> Timestamp, sorting: Option<string>)
    ensures sorting == Some("oldest") ==> (Sorted(s, date, sorting) <==> NonDecreasing(s, date))
    ensures sorting != Some("oldest") ==> (Sorted(s, date, sorting) <==> NonIncreasing(s, date))
  {
  }

  /** Whether a document dated `x` may stand before one dated `y`: the
      sign of `Compare` with the query value settled once, so that the
      sort's invariants do not compare strings at every step. */
  predicate Precedes(oldestFirst: bool, x: Timestamp, y: Timestamp) {
    if oldestFirst then x <= y else y <= x
  }

  /** Exchanges two elements, leaving every other one in place. */
  method Swap<T>(a: array<T>, i: int, j: int)
    requires 0 <= i < a.Length && 0 <= j < a.Length
    modifies a
    ensures a[i] == old(a[j]) && a[j] == old(a[i])
    ensures forall k :: 0 <= k < a.Length && k != i && k != j ==> a[k] == old(a[k])
    ensures multiset(a[..]) == old(multiset(a[..]))
  {
    a[i], a[j] := a[j], a[i];
  }

  /** `array.sort(comparator)` in place: the array ends sorted by the
      comparator and holds the same documents. */
  method Sort<T>(a: array<T>, date: T -> Timestamp, sorting: Option<string>)
    modifies a
    ensures Sorted(a[..], date, sorting)
    ensures multiset(a[..]) == old(multiset(a[..]))
  {
    var oldestFirst := sorting == Some("oldest");
    var i := 0;
    while i < a.Length
      invariant 0 <= i <= a.Length
      invariant forall k, l :: 0 <= k < l < i ==> Precedes(oldestFirst, date(a[k]), date(a[l]))
      invariant multiset(a[..]) == old(multiset(a[..]))
    {
      var j := i;
      while 0 < j && !Precedes(oldestFirst, date(a[j - 1]), date(a[j]))
        invariant 0 <= j <= i
        invariant forall k, l :: 0 <= k < l <= i && l != j ==> Precedes(oldestFirst, date(a[k]), date(a[l]))
        invariant 0 < j < i ==> Precedes(oldestFirst, date(a[j - 1]), date(a[j + 1]))
        invariant multiset(a[..]) == old(multiset(a[..]))
      {
        Swap(a, j - 1, j);
        j := j - 1;
      }
      i := i + 1;
    }
    assert forall k, l :: 0 <= k < l < a.Length ==> Precedes(oldestFirst, date(a[..][k]), date(a[..][l]));
  }

  /** The documents a query returns, in an array of their own. */
  method ToArray<T>(s: seq<T>) returns (a: array<T>)
    ensures fresh(a) && a[..] == s
  {
    a := new T[|s|](i requires 0 <= i < |s| => s[i]);
  }
}

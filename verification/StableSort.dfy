/**
 * A stable sort over values, standing for `Array.prototype.sort` with a comparator.
 *
 * `before(x, y)` says `x` must come strictly ahead of `y`; elements neither ahead of the other keep
 * the order they arrived in.
 */
module StableSort {

  ghost predicate IsStrictOrder<T(!new)>(before: (T, T) -> bool) {
    && (forall x, y :: before(x, y) ==> !before(y, x))
    && (forall x, y, z :: before(x, z) ==> before(x, y) || before(y, z))
  }

  predicate Sorted<T>(s: seq<T>, before: (T, T) -> bool) {
    forall i, j :: 0 <= i < j < |s| ==> !before(s[j], s[i])
  }

  /** Place `x` ahead of everything in `s` that is not strictly before it. */
  function Insert<T>(x: T, s: seq<T>, before: (T, T) -> bool): seq<T> {
    if s == [] then [x]
    else if before(s[0], x) then [s[0]] + Insert(x, s[1..], before)
    else [x] + s
  }

  function Sort<T>(s: seq<T>, before: (T, T) -> bool): seq<T> {
    if s == [] then [] else Insert(s[0], Sort(s[1..], before), before)
  }

  lemma {:induction false} InsertKeepsElements<T>(x: T, s: seq<T>, before: (T, T) -> bool)
    ensures multiset(Insert(x, s, before)) == multiset{x} + multiset(s)
  {
    if s != [] {
      assert s == [s[0]] + s[1..];
      if before(s[0], x) {
        InsertKeepsElements(x, s[1..], before);
      }
    }
  }

  lemma {:induction false} SortKeepsElements<T>(s: seq<T>, before: (T, T) -> bool)
    ensures multiset(Sort(s, before)) == multiset(s)
  {
    if s != [] {
      assert s == [s[0]] + s[1..];
      SortKeepsElements(s[1..], before);
      InsertKeepsElements(s[0], Sort(s[1..], before), before);
    }
  }

  lemma SortKeepsLength<T>(s: seq<T>, before: (T, T) -> bool)
    ensures |Sort(s, before)| == |s|
  {
    SortKeepsElements(s, before);
    assert |multiset(Sort(s, before))| == |multiset(s)|;
  }

  lemma SortKeepsMembers<T>(s: seq<T>, before: (T, T) -> bool)
    ensures forall x :: x in Sort(s, before) <==> x in s
  {
    SortKeepsElements(s, before);
    forall x ensures x in Sort(s, before) <==> x in s {
      assert x in Sort(s, before) <==> x in multiset(Sort(s, before));
      assert x in s <==> x in multiset(s);
    }
  }

  lemma {:induction false} InsertSorts<T(!new)>(x: T, s: seq<T>, before: (T, T) -> bool)
    requires IsStrictOrder(before) && Sorted(s, before)
    ensures Sorted(Insert(x, s, before), before)
  {
    if s != [] {
      if before(s[0], x) {
        var tail := Insert(x, s[1..], before);
        InsertSorts(x, s[1..], before);
        InsertKeepsElements(x, s[1..], before);
        forall j | 0 <= j < |tail| ensures !before(tail[j], s[0]) {
          assert tail[j] in multiset(tail);
          assert tail[j] == x || tail[j] in s[1..];
        }
      } else {
        forall j | 0 <= j < |s| ensures !before(s[j], x) {
        }
      }
    }
  }

  lemma {:induction false} SortSorts<T(!new)>(s: seq<T>, before: (T, T) -> bool)
    requires IsStrictOrder(before)
    ensures Sorted(Sort(s, before), before)
  {
    if s != [] {
      SortSorts(s[1..], before);
      InsertSorts(s[0], Sort(s[1..], before), before);
    }
  }

  ghost predicate Strict<T>(s: seq<T>, before: (T, T) -> bool) {
    forall i, j :: 0 <= i < j < |s| ==> before(s[i], s[j])
  }

  ghost predicate Comparable<T>(s: seq<T>, before: (T, T) -> bool) {
    forall i, j :: 0 <= i < j < |s| ==> before(s[i], s[j]) || before(s[j], s[i])
  }

  lemma {:induction false} InsertStaysStrict<T(!new)>(x: T, s: seq<T>, before: (T, T) -> bool)
    requires IsStrictOrder(before) && Strict(s, before)
    requires forall y :: y in s ==> before(x, y) || before(y, x)
    ensures Strict(Insert(x, s, before), before)
  {
    if s != [] {
      if before(s[0], x) {
        var tail := Insert(x, s[1..], before);
        InsertStaysStrict(x, s[1..], before);
        InsertKeepsElements(x, s[1..], before);
        forall j | 0 <= j < |tail| ensures before(s[0], tail[j]) {
          assert tail[j] in multiset(tail);
          assert tail[j] == x || tail[j] in s[1..];
        }
      } else {
        forall j | 0 <= j < |s| ensures before(x, s[j]) {
          assert s[0] in s;
          assert before(x, s[0]);
        }
      }
    }
  }

  /** Sorting things of which one always comes first leaves no two level. */
  lemma {:induction false} SortIsStrict<T(!new)>(s: seq<T>, before: (T, T) -> bool)
    requires IsStrictOrder(before) && Comparable(s, before)
    ensures Strict(Sort(s, before), before)
  {
    if s != [] {
      SortIsStrict(s[1..], before);
      SortKeepsMembers(s[1..], before);
      InsertStaysStrict(s[0], Sort(s[1..], before), before);
    }
  }

  /**
   * The head of a stable sort: nothing is strictly before it, and everything that stood ahead of it
   * is strictly after it.
   */
  lemma {:induction false} SortHead<T(!new)>(s: seq<T>, before: (T, T) -> bool) returns (i: nat)
    requires IsStrictOrder(before) && s != []
    ensures |Sort(s, before)| == |s| && i < |s| && s[i] == Sort(s, before)[0]
    ensures forall j :: 0 <= j < |s| ==> !before(s[j], s[i])
    ensures forall j :: 0 <= j < i ==> before(s[i], s[j])
  {
    SortKeepsLength(s, before);
    i := 0;
    if |s| > 1 {
      var k := SortHead(s[1..], before);
      if before(s[1..][k], s[0]) {
        i := k + 1;
      }
    }
  }
}

/** Sorting distinct elements by a strict total order. */
module Sorting {
  import opened Lists

  /** `less` is a strict total order on the elements of `s`. */
  ghost predicate StrictOrder<T(!new)>(s: set<T>, less: (T, T) -> bool) {
    && (forall x | x in s :: !less(x, x))
    && (forall x, y | x in s && y in s && x != y :: less(x, y) || less(y, x))
    && (forall x, y, z | x in s && y in s && z in s && less(x, y) && less(y, z) :: less(x, z))
  }

  ghost predicate Sorted<T>(s: seq<T>, less: (T, T) -> bool) { forall i, j | 0 <= i < j < |s| :: less(s[i], s[j]) }

  function Insert<T(==)>(x: T, s: seq<T>, less: (T, T) -> bool): seq<T> {
    if s == [] then [x] else if less(x, s[0]) then [x] + s else [s[0]] + Insert(x, s[1..], less)
  }

  lemma {:induction false} InsertKeeps<T(!new)>(x: T, s: seq<T>, less: (T, T) -> bool, all: set<T>)
    requires StrictOrder(all, less) && x in all && (forall y | y in s :: y in all) && x !in s && Sorted(s, less)
    ensures Sorted(Insert(x, s, less), less) && |Insert(x, s, less)| == |s| + 1
    ensures forall y :: y in Insert(x, s, less) <==> y == x || y in s
  {
    if s == [] {
    } else if less(x, s[0]) {
      assert forall j | 0 <= j < |s| :: s[j] in s;
      assert forall j | 0 < j < |s| :: less(s[0], s[j]) && less(x, s[j]);
    } else {
      var rest := s[1..];
      assert s == [s[0]] + rest && s[0] in s;
      InsertKeeps(x, rest, less, all);
      var r := Insert(x, rest, less);
      assert forall y | y in r :: less(s[0], y) by {
        assert forall j | 0 <= j < |rest| :: less(s[0], rest[j]);
      }
      assert forall j | 0 <= j < |r| :: r[j] in r;
    }
  }

  function Sort<T(==)>(s: seq<T>, less: (T, T) -> bool): seq<T> {
    if s == [] then [] else Insert(s[0], Sort(s[1..], less), less)
  }

  /** The result is sorted and holds exactly the elements sorted. */
  lemma {:induction false} SortKeeps<T(!new)>(s: seq<T>, less: (T, T) -> bool, all: set<T>)
    requires StrictOrder(all, less) && (forall y | y in s :: y in all) && Distinct(s)
    ensures Sorted(Sort(s, less), less) && |Sort(s, less)| == |s|
    ensures forall y :: y in Sort(s, less) <==> y in s
  {
    if s == [] {
    } else {
      var rest := s[1..];
      assert s == [s[0]] + rest && s[0] in s;
      assert s[0] !in rest by {
        assert forall j | 0 <= j < |rest| :: rest[j] == s[j + 1];
      }
      SortKeeps(rest, less, all);
      InsertKeeps(s[0], Sort(rest, less), less, all);
    }
  }
}

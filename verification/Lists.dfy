/** Lists read as sets. */
module Lists {

  function SetOf<T(==)>(list: seq<T>): set<T> { set x | x in list }

  ghost predicate Distinct<T>(list: seq<T>) { forall i, j | 0 <= i < j < |list| :: list[i] != list[j] }

  lemma SetOfAppend<T>(list: seq<T>, x: T)
    ensures SetOf(list + [x]) == SetOf(list) + {x}
    ensures Distinct(list) && x !in SetOf(list) ==> Distinct(list + [x])
  {
  }

  lemma SetOfPrefix<T>(list: seq<T>, k: nat)
    requires k < |list|
    ensures SetOf(list[..k + 1]) == SetOf(list[..k]) + {list[k]}
    ensures Distinct(list) ==> list[k] !in SetOf(list[..k])
  {
    assert list[..k + 1] == list[..k] + [list[k]];
  }

  lemma SplitSet<T>(list: seq<T>, i: nat, j: nat)
    requires i <= j <= |list| && Distinct(list)
    ensures SetOf(list[i..]) == SetOf(list[i..j]) + SetOf(list[j..])
    ensures SetOf(list[i..j]) !! SetOf(list[j..])
  {
    assert list[i..] == list[i..j] + list[j..];
    assert forall x | x in SetOf(list[j..]) :: exists b :: j <= b < |list| && list[b] == x;
  }

  /** Taking one element out of a list of distinct elements. */
  lemma WithoutIndex<T>(list: seq<T>, i: nat)
    requires i < |list| && Distinct(list)
    ensures var rest := list[..i] + list[i + 1..];
            Distinct(rest) && forall x :: x in rest <==> x in list && x != list[i]
  {
    var rest := list[..i] + list[i + 1..];
    assert list == list[..i] + [list[i]] + list[i + 1..];
    assert forall k | 0 <= k < |rest| :: rest[k] == list[if k < i then k else k + 1];
  }

  lemma {:induction false} SubsetSize<T>(a: set<T>, b: set<T>)
    requires a <= b
    ensures |a| <= |b|
  {
    if a != {} {
      var x :| x in a;
      SubsetSize(a - {x}, b - {x});
    }
  }

  /** The elements of a set in some order, each once. */
  method ListSet<T(==)>(all: set<T>) returns (list: seq<T>)
    ensures Distinct(list) && SetOf(list) == all && |list| == |all|
  {
    list := [];
    var rest := all;
    while rest != {}
      invariant rest <= all && Distinct(list) && SetOf(list) == all - rest && |list| == |all| - |rest|
      decreases rest
    {
      var x :| x in rest;
      rest := rest - {x};
      SetOfAppend(list, x);
      list := list + [x];
    }
  }
}

/** Insertion into an ordered sequence, for any strict order given as a relation. */
module Sorting {

  ghost predicate Ordered<T>(s: seq<T>, before: (T, T) -> bool) {
    forall i, j :: 0 <= i < j < |s| ==> before(s[i], s[j])
  }

  ghost predicate Transitive<T(!new)>(before: (T, T) -> bool) {
    forall a, b, c :: before(a, b) && before(b, c) ==> before(a, c)
  }

  function Insert<T(!new)>(s: seq<T>, x: T, before: (T, T) -> bool): (r: seq<T>)
    ensures |r| == |s| + 1
    ensures forall y :: y in r <==> y in s || y == x
    ensures multiset(r) == multiset(s) + multiset{x}
  {
    if s == [] then [x]
    else if before(s[0], x) then
      assert s == [s[0]] + s[1..];
      [s[0]] + Insert(s[1..], x, before)
    else [x] + s
  }

  lemma {:induction false} InsertOrdered<T(!new)>(s: seq<T>, x: T, before: (T, T) -> bool)
    requires Ordered(s, before) && Transitive(before)
    requires forall y :: y in s ==> before(y, x) || before(x, y)
    ensures Ordered(Insert(s, x, before), before)
  {
    if s != [] {
      if before(s[0], x) {
        InsertOrdered(s[1..], x, before);
        var rest := Insert(s[1..], x, before);
        forall y | y in rest
          ensures before(s[0], y)
        {
        }
      } else {
        forall y | y in s
          ensures before(x, y)
        {
          assert y == s[0] || before(s[0], y);
        }
      }
    }
  }
}

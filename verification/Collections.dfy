/** Options and the few list operations of Qt's containers that the modules below share. */
module Collections {

  datatype Option<+T> = None | Some(value: T)

  // QList::indexOf: the first position of x, or -1.
  function IndexOf<T(==)>(s: seq<T>, x: T): (r: int)
    ensures -1 <= r < |s|
    ensures r == -1 <==> x !in s
    ensures r >= 0 ==> s[r] == x && x !in s[..r]
  {
    if s == [] then -1
    else if s[0] == x then 0
    else
      var r := IndexOf(s[1..], x);
      if r == -1 then -1 else r + 1
  }

  // QList::removeAt
  function RemoveAt<T>(s: seq<T>, i: nat): (r: seq<T>)
    requires i < |s|
    ensures |r| == |s| - 1
    ensures forall k | 0 <= k < i :: r[k] == s[k]
    ensures forall k | i <= k < |r| :: r[k] == s[k + 1]
  {
    s[..i] + s[i + 1..]
  }

  // QList::removeAll
  function Without<T(==)>(s: seq<T>, x: T): seq<T> {
    if s == [] then []
    else (if s[0] == x then [] else [s[0]]) + Without(s[1..], x)
  }

  lemma {:induction false} WithoutMembers<T>(s: seq<T>, x: T)
    ensures x !in Without(s, x)
    ensures forall y | y in Without(s, x) :: y in s
    ensures forall y | y in s && y != x :: y in Without(s, x)
  {
    if s != [] {
      WithoutMembers(s[1..], x);
    }
  }

  ghost predicate Distinct<T>(s: seq<T>) {
    forall i, j | 0 <= i < j < |s| :: s[i] != s[j]
  }

  lemma {:induction false} WithoutDistinct<T>(s: seq<T>, x: T)
    requires Distinct(s)
    ensures Distinct(Without(s, x))
  {
    if s != [] {
      WithoutDistinct(s[1..], x);
      WithoutMembers(s[1..], x);
      assert s[0] !in s[1..];
      assert s[0] !in Without(s[1..], x);
    }
  }

  lemma {:induction false} WithoutAbsent<T>(s: seq<T>, x: T)
    requires x !in s
    ensures Without(s, x) == s
  {
    if s != [] {
      WithoutAbsent(s[1..], x);
    }
  }

  // In a list without duplicates, removing the first occurrence removes the element.
  lemma {:induction false} RemoveFirstIsWithout<T>(s: seq<T>, x: T)
    requires Distinct(s) && x in s
    ensures RemoveAt(s, IndexOf(s, x)) == Without(s, x)
  {
    if s[0] == x {
      assert x !in s[1..];
      WithoutAbsent(s[1..], x);
    } else {
      RemoveFirstIsWithout(s[1..], x);
      var i := IndexOf(s[1..], x);
      assert RemoveAt(s, i + 1) == [s[0]] + RemoveAt(s[1..], i);
    }
  }
}

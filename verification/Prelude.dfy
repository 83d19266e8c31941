/** Small datatypes and sequence facts shared by the models. */
module Prelude {

  datatype Option<+T> = None | Some(value: T)

  datatype Result<+T, +E> = Ok(value: T) | Err(error: E)

  /** The elements of an option, as a sequence of length zero or one. */
  function OptSeq<T>(o: Option<T>): seq<T> {
    if o.Some? then [o.value] else []
  }

  /** The last n elements of s, or all of s when it is shorter. */
  function LastN<T>(s: seq<T>, n: nat): seq<T> {
    if |s| <= n then s else s[|s| - n..]
  }

  ghost predicate NoDup<T>(s: seq<T>) {
    forall i, j :: 0 <= i < j < |s| ==> s[i] != s[j]
  }

  function Max(a: int, b: int): int {
    if a < b then b else a
  }

  /** The elements of s that are not in drop, in order. */
  function Without<T(==)>(s: seq<T>, drop: set<T>): seq<T> {
    if s == [] then []
    else if s[0] in drop then Without(s[1..], drop)
    else [s[0]] + Without(s[1..], drop)
  }

  lemma {:induction false} WithoutAppend<T>(a: seq<T>, b: seq<T>, drop: set<T>)
    ensures Without(a + b, drop) == Without(a, drop) + Without(b, drop)
  {
    if a == [] {
      assert a + b == b;
    } else {
      assert (a + b)[1..] == a[1..] + b;
      WithoutAppend(a[1..], b, drop);
    }
  }

  lemma {:induction false} WithoutTwice<T>(s: seq<T>, d: set<T>, e: set<T>)
    ensures Without(Without(s, d), e) == Without(s, d + e)
  {
    if s == [] {
    } else {
      WithoutTwice(s[1..], d, e);
      if s[0] !in d {
        assert Without(s, d)[1..] == Without(s[1..], d);
      }
    }
  }

  lemma {:induction false} WithoutDisjoint<T>(s: seq<T>, drop: set<T>)
    requires forall x :: x in s ==> x !in drop
    ensures Without(s, drop) == s
  {
    if s == [] {
    } else {
      WithoutDisjoint(s[1..], drop);
    }
  }

  lemma {:induction false} WithoutAll<T>(s: seq<T>, drop: set<T>)
    requires forall x :: x in s ==> x in drop
    ensures Without(s, drop) == []
  {
    if s == [] {
    } else {
      WithoutAll(s[1..], drop);
    }
  }
}

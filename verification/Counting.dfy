/** How many elements of a sequence satisfy a test, what mapping a sequence gives,
    and what rearranging the sequence keeps of either. The order statistics, the
    sign test, Holm's correction and the block balance are stated with these. */
module Counting {
  import opened Sorting

  function Count<T>(s: seq<T>, test: T -> bool): (n: nat)
    ensures n <= |s|
  {
    if s == [] then 0 else (if test(s[0]) then 1 else 0) + Count(s[1..], test)
  }

  lemma {:induction false} CountConcat<T>(a: seq<T>, b: seq<T>, test: T -> bool)
    ensures Count(a + b, test) == Count(a, test) + Count(b, test)
  {
    if a == [] {
      assert a + b == b;
    } else {
      CountConcat(a[1..], b, test);
      assert (a + b)[1..] == a[1..] + b;
    }
  }

  lemma CountWithout<T>(s: seq<T>, k: nat, test: T -> bool)
    requires k < |s|
    ensures Count(s, test) == (if test(s[k]) then 1 else 0) + Count(s[..k] + s[k+1..], test)
  {
    assert s == s[..k] + s[k..];
    CountConcat(s[..k], s[k..], test);
    CountConcat(s[..k], s[k+1..], test);
    assert s[k..][1..] == s[k+1..];
  }

  /** Counting forgets the order. */
  lemma {:induction false} CountPermutation<T>(a: seq<T>, b: seq<T>, test: T -> bool)
    requires multiset(a) == multiset(b)
    ensures Count(a, test) == Count(b, test)
  {
    MembersOfPermutation(a, b);
    if a != [] {
      assert a[0] in b;
      var k :| 0 <= k < |b| && b[k] == a[0];
      WithoutPosition(a, 0);
      WithoutPosition(b, k);
      CountWithout(a, 0, test);
      CountWithout(b, k, test);
      CountPermutation(a[..0] + a[1..], b[..k] + b[k+1..], test);
    }
  }

  lemma {:induction false} CountAll<T>(s: seq<T>, test: T -> bool)
    ensures Count(s, test) == |s| <==> forall x :: x in s ==> test(x)
    ensures Count(s, test) == 0 <==> forall x :: x in s ==> !test(x)
  {
    if s != [] {
      CountAll(s[1..], test);
      assert s == [s[0]] + s[1..];
    }
  }

  /** `weak` holds of `b[k]` wherever `strong` holds of `a[k]`. */
  lemma {:induction false} CountPointwise<T, U>(a: seq<T>, strong: T -> bool, b: seq<U>, weak: U -> bool)
    requires |a| == |b| && forall k :: 0 <= k < |a| && strong(a[k]) ==> weak(b[k])
    ensures Count(a, strong) <= Count(b, weak)
  {
    if a != [] { CountPointwise(a[1..], strong, b[1..], weak); }
  }

  /** A test and its negation share out the elements. */
  lemma {:induction false} CountComplement<T>(s: seq<T>, test: T -> bool, other: T -> bool)
    requires forall k :: 0 <= k < |s| ==> test(s[k]) != other(s[k])
    ensures Count(s, test) + Count(s, other) == |s|
  {
    if s != [] { CountComplement(s[1..], test, other); }
  }

  function Map<T, U>(f: T -> U, s: seq<T>): (r: seq<U>)
    ensures |r| == |s| && forall k :: 0 <= k < |s| ==> r[k] == f(s[k])
  {
    seq(|s|, k requires 0 <= k < |s| => f(s[k]))
  }

  lemma MapWithout<T, U>(f: T -> U, s: seq<T>, k: nat)
    requires k < |s|
    ensures multiset(Map(f, s)) == multiset(Map(f, s[..k] + s[k+1..])) + multiset{f(s[k])}
  {
    WithoutPosition(Map(f, s), k);
    assert Map(f, s)[..k] + Map(f, s)[k+1..] == Map(f, s[..k] + s[k+1..]);
    assert Map(f, s)[k] in multiset(Map(f, s));
  }

  lemma {:induction false} MapPermutation<T, U>(f: T -> U, a: seq<T>, b: seq<T>)
    requires multiset(a) == multiset(b)
    ensures multiset(Map(f, a)) == multiset(Map(f, b))
  {
    MembersOfPermutation(a, b);
    if a != [] {
      assert a[0] in b;
      var k :| 0 <= k < |b| && b[k] == a[0];
      var restA, restB := a[..0] + a[1..], b[..k] + b[k+1..];
      assert multiset(restA) == multiset(restB) by {
        WithoutPosition(a, 0);
        WithoutPosition(b, k);
      }
      MapPermutation(f, restA, restB);
      MapWithout(f, a, 0);
      MapWithout(f, b, k);
    }
  }
}

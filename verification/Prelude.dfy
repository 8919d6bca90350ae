/** Small shared datatypes, and sequence functions used by every other module. */
module Prelude {

  datatype Option<+T> = None | Some(value: T)

  datatype Result<+T, +E> = Ok(value: T) | Err(error: E)

  /** `[f(x) for x in s]` */
  function Map<T, U>(f: T -> U, s: seq<T>): (r: seq<U>)
    ensures |r| == |s|
    ensures forall i :: 0 <= i < |s| ==> r[i] == f(s[i])
  {
    seq(|s|, i requires 0 <= i < |s| => f(s[i]))
  }

  /** `[x for x in s if keep(x)]` */
  function Filter<T>(keep: T -> bool, s: seq<T>): seq<T> {
    if s == [] then []
    else (if keep(s[0]) then [s[0]] else []) + Filter(keep, s[1..])
  }

  /** How many elements of `s` satisfy `keep`. */
  function Count<T>(keep: T -> bool, s: seq<T>): nat {
    if s == [] then 0
    else (if keep(s[0]) then 1 else 0) + Count(keep, s[1..])
  }

  lemma AppendAssociates<T>(a: seq<T>, b: seq<T>, c: seq<T>)
    ensures (a + b) + c == a + (b + c)
  {}

  lemma MapConcat<T, U>(f: T -> U, a: seq<T>, b: seq<T>)
    ensures Map(f, a + b) == Map(f, a) + Map(f, b)
  {}

  lemma {:induction false} FilterConcat<T>(keep: T -> bool, a: seq<T>, b: seq<T>)
    ensures Filter(keep, a + b) == Filter(keep, a) + Filter(keep, b)
  {
    if a == [] {
      assert a + b == b;
    } else {
      FilterConcat(keep, a[1..], b);
      assert (a + b)[0] == a[0] && (a + b)[1..] == a[1..] + b;
      AppendAssociates(if keep(a[0]) then [a[0]] else [], Filter(keep, a[1..]), Filter(keep, b));
    }
  }

  lemma FilterSnoc<T>(keep: T -> bool, s: seq<T>, x: T)
    ensures Filter(keep, s + [x]) == if keep(x) then Filter(keep, s) + [x] else Filter(keep, s)
  {
    FilterConcat(keep, s, [x]);
    assert Filter(keep, [x][1..]) == [];
    assert Filter(keep, [x]) == if keep(x) then [x] else [];
  }

  lemma {:induction false} FilterMembers<T>(keep: T -> bool, s: seq<T>)
    ensures forall x :: x in Filter(keep, s) <==> x in s && keep(x)
    ensures |Filter(keep, s)| <= |s|
  {
    if s != [] {
      FilterMembers(keep, s[1..]);
    }
  }

  lemma {:induction false} FilterLength<T>(keep: T -> bool, s: seq<T>)
    ensures |Filter(keep, s)| == Count(keep, s)
  {
    if s != [] {
      FilterLength(keep, s[1..]);
    }
  }

  lemma {:induction false} CountConcat<T>(keep: T -> bool, a: seq<T>, b: seq<T>)
    ensures Count(keep, a + b) == Count(keep, a) + Count(keep, b)
  {
    if a == [] {
      assert a + b == b;
    } else {
      CountConcat(keep, a[1..], b);
      assert a + b == [a[0]] + (a[1..] + b);
    }
  }

  /** Appending one element changes a count by at most that element. */
  lemma CountSnoc<T>(keep: T -> bool, s: seq<T>, x: T)
    ensures Count(keep, s + [x]) == Count(keep, s) + if keep(x) then 1 else 0
  {
    CountConcat(keep, s, [x]);
    assert Count(keep, [x]) == (if keep(x) then 1 else 0) + Count(keep, [x][1..]);
  }

  lemma {:induction false} CountZero<T>(keep: T -> bool, s: seq<T>)
    requires forall x :: x in s ==> !keep(x)
    ensures Count(keep, s) == 0
  {
    if s != [] {
      assert s[0] in s;
      CountZero(keep, s[1..]);
    }
  }

  lemma {:induction false} CountPositive<T>(keep: T -> bool, s: seq<T>, x: T)
    requires x in s && keep(x)
    ensures Count(keep, s) >= 1
  {
    if s[0] != x {
      CountPositive(keep, s[1..], x);
    }
  }

  lemma CountPositiveIff<T>(keep: T -> bool, s: seq<T>)
    ensures Count(keep, s) > 0 <==> exists x :: x in s && keep(x)
  {
    if x :| x in s && keep(x) {
      CountPositive(keep, s, x);
    } else {
      CountZero(keep, s);
    }
  }

  /** A count depends on the predicate only through the elements counted. */
  lemma {:induction false} CountAgree<T>(p: T -> bool, q: T -> bool, s: seq<T>)
    requires forall x :: x in s ==> p(x) == q(x)
    ensures Count(p, s) == Count(q, s)
  {
    if s != [] {
      assert s[0] in s;
      CountAgree(p, q, s[1..]);
    }
  }

  /** A sequence without the element at one index. */
  function Without<T>(s: seq<T>, i: nat): seq<T>
    requires i < |s|
  {
    s[..i] + s[i + 1..]
  }

  lemma {:induction false} WithoutCount<T>(keep: T -> bool, s: seq<T>, i: nat)
    requires i < |s|
    ensures Count(keep, s) == Count(keep, Without(s, i)) + if keep(s[i]) then 1 else 0
  {
    if i == 0 {
      assert Without(s, i) == s[1..];
    } else {
      WithoutCount(keep, s[1..], i - 1);
      assert Without(s, i)[0] == s[0] && Without(s, i)[1..] == Without(s[1..], i - 1);
    }
  }

  lemma WithoutMultiset<T>(s: seq<T>, i: nat)
    requires i < |s|
    ensures multiset(Without(s, i)) == multiset(s) - multiset{s[i]}
  {
    assert s[..i] + [s[i]] + s[i + 1..] == s;
  }

  /** Two sequences with equal multisets give equal counts for every predicate. */
  lemma {:induction false} CountPermutation<T>(keep: T -> bool, a: seq<T>, b: seq<T>)
    requires multiset(a) == multiset(b)
    ensures Count(keep, a) == Count(keep, b)
    decreases |a|
  {
    if a == [] {
      assert |multiset(b)| == |b|;
    } else {
      assert a[0] in multiset(b);
      var i :| 0 <= i < |b| && b[i] == a[0];
      WithoutMultiset(a, 0);
      WithoutMultiset(b, i);
      CountPermutation(keep, Without(a, 0), Without(b, i));
      WithoutCount(keep, a, 0);
      WithoutCount(keep, b, i);
    }
  }

  /** No element occurs twice. */
  ghost predicate Distinct<T>(s: seq<T>) {
    forall i, j :: 0 <= i < j < |s| ==> s[i] != s[j]
  }

  lemma {:induction false} DistinctMultiset<T>(s: seq<T>)
    requires Distinct(s)
    ensures forall x :: x in s ==> multiset(s)[x] == 1
  {
    if s != [] {
      assert s == [s[0]] + s[1..];
      DistinctMultiset(s[1..]);
      assert s[0] !in s[1..];
    }
  }

  lemma {:induction false} SingleMultiplicityDistinct<T>(s: seq<T>)
    requires forall x :: x in s ==> multiset(s)[x] == 1
    ensures Distinct(s)
  {
    if s != [] {
      assert s == [s[0]] + s[1..];
      assert multiset(s) == multiset{s[0]} + multiset(s[1..]);
      assert s[0] in s && s[0] !in multiset(s[1..]);
      forall x | x in s[1..] ensures multiset(s[1..])[x] == 1 {
        assert x in s && x in multiset(s[1..]);
      }
      SingleMultiplicityDistinct(s[1..]);
      assert s[0] !in s[1..];
    }
  }
}

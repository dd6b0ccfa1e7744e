/** Python's `sorted` with a string key: stable, in code point order. */
module Sorting {

  /** `a <= b` for strings. */
  predicate Below(a: string, b: string) {
    a == "" || (b != "" && (a[0] < b[0] || (a[0] == b[0] && Below(a[1..], b[1..]))))
  }

  lemma {:induction false} BelowTotal(a: string, b: string)
    ensures Below(a, b) || Below(b, a)
    ensures Below(a, b) && Below(b, a) ==> a == b
  {
    if a != "" && b != "" {
      BelowTotal(a[1..], b[1..]);
      assert a == [a[0]] + a[1..] && b == [b[0]] + b[1..];
    }
  }

  /** The order is that of the first difference, a string coming before what it begins. */
  lemma {:induction false} BelowIff(a: string, b: string)
    ensures Below(a, b) <==> a <= b || exists k :: 0 <= k < |a| && k < |b| && a[..k] == b[..k] && a[k] < b[k]
  {
    if a != "" && b != "" {
      BelowIff(a[1..], b[1..]);
      assert a == [a[0]] + a[1..] && b == [b[0]] + b[1..];
      if a[0] == b[0] {
        if k :| 0 <= k < |a| && k < |b| && a[..k] == b[..k] && a[k] < b[k] {
          assert a[..k][0] == a[0] && a[1..][..k - 1] == a[..k][1..] && b[1..][..k - 1] == b[..k][1..];
        }
        if k :| 0 <= k < |a[1..]| && k < |b[1..]| && a[1..][..k] == b[1..][..k] && a[1..][k] < b[1..][k] {
          assert a[..k + 1] == [a[0]] + a[1..][..k] && b[..k + 1] == [b[0]] + b[1..][..k];
          assert a[k + 1] < b[k + 1];
        }
      } else {
        assert a[0] < b[0] ==> a[..0] == b[..0];
      }
    }
  }

  lemma {:induction false} BelowTransitive(a: string, b: string, c: string)
    requires Below(a, b) && Below(b, c)
    ensures Below(a, c)
  {
    if a != "" && a[0] == b[0] && b[0] == c[0] { BelowTransitive(a[1..], b[1..], c[1..]); }
  }

  function Insert<T>(key: T -> string, x: T, xs: seq<T>): seq<T> {
    if xs == [] || Below(key(x), key(xs[0])) then [x] + xs else [xs[0]] + Insert(key, x, xs[1..])
  }

  function SortBy<T>(key: T -> string, xs: seq<T>): seq<T> {
    if xs == [] then [] else Insert(key, xs[0], SortBy(key, xs[1..]))
  }

  predicate Sorted<T>(key: T -> string, xs: seq<T>) {
    |xs| <= 1 || (Below(key(xs[0]), key(xs[1])) && Sorted(key, xs[1..]))
  }

  lemma {:induction false} InsertKeeps<T>(key: T -> string, x: T, xs: seq<T>)
    requires Sorted(key, xs)
    ensures Sorted(key, Insert(key, x, xs))
    ensures multiset(Insert(key, x, xs)) == multiset(xs) + multiset{x}
  {
    if xs == [] {
      assert [x] + xs == [x];
    } else if Below(key(x), key(xs[0])) {
      assert ([x] + xs)[1..] == xs;
    } else {
      BelowTotal(key(x), key(xs[0]));
      InsertKeeps(key, x, xs[1..]);
      var tail := Insert(key, x, xs[1..]);
      assert ([xs[0]] + tail)[1..] == tail;
      assert xs == [xs[0]] + xs[1..];
    }
  }

  /** Sorting gives a sorted permutation. */
  lemma {:induction false} SortIsPermutation<T>(key: T -> string, xs: seq<T>)
    ensures Sorted(key, SortBy(key, xs)) && multiset(SortBy(key, xs)) == multiset(xs)
  {
    if xs != [] {
      SortIsPermutation(key, xs[1..]);
      InsertKeeps(key, xs[0], SortBy(key, xs[1..]));
      assert xs == [xs[0]] + xs[1..];
    }
  }

  function Keys<T>(key: T -> string, xs: seq<T>): (ks: seq<string>)
    ensures |ks| == |xs| && forall i :: 0 <= i < |xs| ==> ks[i] == key(xs[i])
  {
    if xs == [] then [] else [key(xs[0])] + Keys(key, xs[1..])
  }

  lemma {:induction false} HeadIsLeast<T>(key: T -> string, xs: seq<T>, i: nat)
    requires Sorted(key, xs) && i < |xs|
    ensures Below(key(xs[0]), key(xs[i]))
  {
    BelowTotal(key(xs[0]), key(xs[0]));
    if i > 0 {
      HeadIsLeast(key, xs[1..], i - 1);
      if i > 1 { BelowTransitive(key(xs[0]), key(xs[1]), key(xs[i])); }
    }
  }

  /** Sorted with no key twice: each key is below every later one, and another. */
  lemma {:induction false} StrictlySortedIff<T>(key: T -> string, xs: seq<T>)
    ensures Sorted(key, xs) && DistinctKeys(key, xs) <==>
            forall i, j :: 0 <= i < j < |xs| ==> Below(key(xs[i]), key(xs[j])) && key(xs[i]) != key(xs[j])
  {
    if |xs| > 1 {
      StrictlySortedIff(key, xs[1..]);
      assert forall i :: 0 <= i < |xs[1..]| ==> xs[1..][i] == xs[i + 1];
      if Sorted(key, xs) && DistinctKeys(key, xs) {
        forall i, j | 0 <= i < j < |xs| ensures Below(key(xs[i]), key(xs[j])) {
          if i == 0 { HeadIsLeast(key, xs, j); } else { assert xs[i] == xs[1..][i - 1] && xs[j] == xs[1..][j - 1]; }
        }
      }
    }
  }

  predicate DistinctKeys<T>(key: T -> string, xs: seq<T>) {
    forall i, j :: 0 <= i < j < |xs| ==> key(xs[i]) != key(xs[j])
  }

  lemma SameHead<T>(key: T -> string, xs: seq<T>, ys: seq<T>)
    requires Sorted(key, xs) && Sorted(key, ys) && DistinctKeys(key, xs)
    requires xs != [] && ys != [] && xs[0] in ys && ys[0] in xs
    ensures xs[0] == ys[0]
  {
    var i :| 0 <= i < |xs| && xs[i] == ys[0];
    var j :| 0 <= j < |ys| && ys[j] == xs[0];
    HeadIsLeast(key, xs, i);
    HeadIsLeast(key, ys, j);
    BelowTotal(key(xs[0]), key(ys[0]));
    assert i == 0;
  }

  lemma NoMembers<T>(xs: seq<T>, ys: seq<T>)
    requires forall x :: x in ys ==> x in xs
    ensures xs == [] ==> ys == []
  {
    if ys != [] { assert ys[0] in ys; }
  }

  lemma HeadKeyDiffers<T>(key: T -> string, xs: seq<T>, y: T)
    requires DistinctKeys(key, xs) && xs != [] && y in xs[1..]
    ensures key(y) != key(xs[0])
  {
    var i :| 0 <= i < |xs[1..]| && xs[1..][i] == y;
    assert xs[i + 1] == y;
  }

  /** With distinct keys the elements have only one sorted order. */
  lemma {:induction false} SortedIsUnique<T>(key: T -> string, xs: seq<T>, ys: seq<T>)
    requires Sorted(key, xs) && Sorted(key, ys) && DistinctKeys(key, xs) && DistinctKeys(key, ys)
    requires forall x :: x in xs <==> x in ys
    ensures xs == ys
  {
    if xs == [] || ys == [] {
      NoMembers(xs, ys);
      NoMembers(ys, xs);
    } else {
      SameHead(key, xs, ys);
      forall x ensures x in xs[1..] <==> x in ys[1..] {
        TailMembers(key, xs, x);
        TailMembers(key, ys, x);
      }
      SortedIsUnique(key, xs[1..], ys[1..]);
      assert xs == [xs[0]] + xs[1..] && ys == [ys[0]] + ys[1..];
    }
  }

  lemma TailMembers<T>(key: T -> string, xs: seq<T>, x: T)
    requires xs != [] && DistinctKeys(key, xs)
    ensures x in xs[1..] <==> x in xs && x != xs[0]
  {
  }

  lemma SortMembers<T>(key: T -> string, xs: seq<T>)
    ensures Sorted(key, SortBy(key, xs)) && |SortBy(key, xs)| == |xs|
    ensures forall x :: x in SortBy(key, xs) <==> x in xs
  {
    SortIsPermutation(key, xs);
    assert |multiset(SortBy(key, xs))| == |multiset(xs)|;
    forall x ensures x in SortBy(key, xs) <==> x in xs {
      assert x in multiset(SortBy(key, xs)) <==> x in multiset(xs);
    }
  }

  lemma {:induction false} InsertMember<T>(key: T -> string, x: T, xs: seq<T>, y: T)
    ensures y in Insert(key, x, xs) <==> y == x || y in xs
  {
    if xs != [] && !Below(key(x), key(xs[0])) {
      InsertMember(key, x, xs[1..], y);
      assert xs == [xs[0]] + xs[1..];
    }
  }

  lemma SortMember<T>(key: T -> string, xs: seq<T>, y: T)
    ensures y in SortBy(key, xs) <==> y in xs
  {
    SortIsPermutation(key, xs);
    assert y in SortBy(key, xs) <==> y in multiset(SortBy(key, xs));
    assert y in xs <==> y in multiset(xs);
  }

  lemma {:induction false} InsertDistinct<T>(key: T -> string, x: T, xs: seq<T>)
    requires DistinctKeys(key, xs) && forall y :: y in xs ==> key(y) != key(x)
    ensures DistinctKeys(key, Insert(key, x, xs))
  {
    if xs != [] && !Below(key(x), key(xs[0])) {
      InsertDistinct(key, x, xs[1..]);
      var tail := Insert(key, x, xs[1..]);
      assert xs == [xs[0]] + xs[1..];
      forall i | 0 <= i < |tail| ensures key(tail[i]) != key(xs[0]) {
        InsertMember(key, x, xs[1..], tail[i]);
        if tail[i] != x { HeadKeyDiffers(key, xs, tail[i]); }
      }
    }
  }

  lemma {:induction false} SortDistinct<T>(key: T -> string, xs: seq<T>)
    requires DistinctKeys(key, xs)
    ensures DistinctKeys(key, SortBy(key, xs))
  {
    if xs != [] {
      SortDistinct(key, xs[1..]);
      forall y | y in SortBy(key, xs[1..]) ensures key(y) != key(xs[0]) {
        SortMember(key, xs[1..], y);
        HeadKeyDiffers(key, xs, y);
      }
      InsertDistinct(key, xs[0], SortBy(key, xs[1..]));
    }
  }
}

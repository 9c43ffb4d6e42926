/** Stable sorting by a key, and the order of strings. */
module Sorting {
  /** Lexicographic order by character. */
  predicate Less(a: string, b: string) {
    b != [] && (a == [] || a[0] < b[0] || (a[0] == b[0] && Less(a[1..], b[1..])))
  }

  predicate PartAt(a: string, b: string, k: int) {
    0 <= k < |a| && k < |b| && a[..k] == b[..k] && a[k] < b[k]
  }

  /** A beginning comes before the whole, and otherwise the first different character decides. */
  lemma {:induction false} LessExactly(a: string, b: string)
    ensures Less(a, b) <==> a < b || exists k :: PartAt(a, b, k)
  {
    if a != [] && b != [] && a[0] == b[0] {
      LessExactly(a[1..], b[1..]);
      assert a < b <==> a[1..] < b[1..];
      if k :| PartAt(a[1..], b[1..], k) {
        assert a[..k + 1] == [a[0]] + a[1..][..k] && b[..k + 1] == [b[0]] + b[1..][..k];
        assert PartAt(a, b, k + 1);
      }
      if k :| PartAt(a, b, k) {
        assert a[1..][..k - 1] == a[..k][1..] && b[1..][..k - 1] == b[..k][1..];
        assert PartAt(a[1..], b[1..], k - 1);
      }
    } else if a != [] && b != [] {
      assert PartAt(a, b, 0) <==> a[0] < b[0];
      assert forall k :: PartAt(a, b, k) ==> k == 0 || a[..k][0] == b[..k][0];
    }
  }

  lemma {:induction false} LessIsTotal(a: string, b: string)
    ensures a == b || Less(a, b) || Less(b, a)
    ensures !(Less(a, b) && Less(b, a)) && !Less(a, a)
  {
    if a != [] {
      if b != [] && a[0] == b[0] {
        LessIsTotal(a[1..], b[1..]);
        assert a == [a[0]] + a[1..] && b == [b[0]] + b[1..];
      } else {
        LessIsTotal(a[1..], a[1..]);
      }
    }
  }

  lemma {:induction false} LessIsTransitive(a: string, b: string, c: string)
    requires Less(a, b) && Less(b, c)
    ensures Less(a, c)
  {
    if a != [] && a[0] == b[0] == c[0] {
      LessIsTransitive(a[1..], b[1..], c[1..]);
    }
  }

  /** The order of pairs of strings. */
  predicate PairLess(a: (string, string), b: (string, string)) {
    Less(a.0, b.0) || (a.0 == b.0 && Less(a.1, b.1))
  }

  lemma PairLessIsTotal(a: (string, string), b: (string, string))
    ensures a == b || PairLess(a, b) || PairLess(b, a)
    ensures !(PairLess(a, b) && PairLess(b, a))
  {
    LessIsTotal(a.0, b.0);
    LessIsTotal(a.1, b.1);
    LessIsTotal(a.0, a.0);
  }

  lemma PairLessIsTransitive(a: (string, string), b: (string, string), c: (string, string))
    requires PairLess(a, b) && PairLess(b, c)
    ensures PairLess(a, c)
  {
    if Less(a.0, b.0) && Less(b.0, c.0) {
      LessIsTransitive(a.0, b.0, c.0);
    } else if a.0 == b.0 == c.0 {
      LessIsTransitive(a.1, b.1, c.1);
    }
  }

  /** Puts `x` behind everything whose key is not greater. */
  function InsertBy<T>(key: T -> (string, string), xs: seq<T>, x: T): seq<T> {
    if xs == [] || PairLess(key(x), key(xs[0])) then [x] + xs
    else [xs[0]] + InsertBy(key, xs[1..], x)
  }

  function SortBy<T>(key: T -> (string, string), xs: seq<T>): seq<T> {
    if xs == [] then [] else InsertBy(key, SortBy(key, xs[..|xs| - 1]), xs[|xs| - 1])
  }

  /** No element stands before one with a smaller key. */
  ghost predicate InOrder<T>(key: T -> (string, string), xs: seq<T>) {
    forall i, j :: 0 <= i < j < |xs| ==> key(xs[i]) == key(xs[j]) || PairLess(key(xs[i]), key(xs[j]))
  }

  lemma {:induction false} InsertKeeps<T>(key: T -> (string, string), xs: seq<T>, x: T)
    requires InOrder(key, xs)
    ensures InOrder(key, InsertBy(key, xs, x))
    ensures multiset(InsertBy(key, xs, x)) == multiset(xs) + multiset{x}
  {
    hide PairLess;
    if xs == [] || PairLess(key(x), key(xs[0])) {
      forall i | 0 <= i < |xs| ensures NotAfter(key, x, xs[i]) {
        if key(xs[0]) != key(xs[i]) { PairLessIsTransitive(key(x), key(xs[0]), key(xs[i])); }
      }
      InFront(key, x, xs);
    } else {
      assert xs == [xs[0]] + xs[1..];
      RestInOrder(key, xs);
      InsertKeeps(key, xs[1..], x);
      var rest := InsertBy(key, xs[1..], x);
      PairLessIsTotal(key(x), key(xs[0]));
      hide InOrder;
      forall i | 0 <= i < |rest| ensures NotAfter(key, xs[0], rest[i]) {
        OneOfThem(xs[1..], x, rest, i);
      }
      InFront(key, xs[0], rest);
    }
  }

  predicate NotAfter<T>(key: T -> (string, string), a: T, b: T) {
    key(a) == key(b) || PairLess(key(a), key(b))
  }

  lemma RestInOrder<T>(key: T -> (string, string), xs: seq<T>)
    requires InOrder(key, xs) && xs != []
    ensures InOrder(key, xs[1..]) && forall y :: y in xs[1..] ==> NotAfter(key, xs[0], y)
  {
  }

  lemma InFront<T>(key: T -> (string, string), x: T, xs: seq<T>)
    requires InOrder(key, xs) && forall i :: 0 <= i < |xs| ==> NotAfter(key, x, xs[i])
    ensures InOrder(key, [x] + xs) && multiset([x] + xs) == multiset{x} + multiset(xs)
  {
  }

  lemma OneOfThem<T>(xs: seq<T>, x: T, ys: seq<T>, i: nat)
    requires multiset(ys) == multiset(xs) + multiset{x} && i < |ys|
    ensures ys[i] == x || ys[i] in xs
  {
    assert ys[i] in multiset(ys);
  }

  lemma {:induction false} SortSorts<T>(key: T -> (string, string), xs: seq<T>)
    ensures InOrder(key, SortBy(key, xs)) && multiset(SortBy(key, xs)) == multiset(xs)
  {
    if xs != [] {
      var n := |xs| - 1;
      SortSorts(key, xs[..n]);
      hide InOrder, InsertBy, PairLess;
      InsertKeeps(key, SortBy(key, xs[..n]), xs[n]);
      assert xs == xs[..n] + [xs[n]];
    }
  }

  lemma SameElements<T>(xs: seq<T>, ys: seq<T>)
    requires multiset(xs) == multiset(ys)
    ensures |xs| == |ys| && forall x :: x in xs <==> x in ys
  {
    assert |multiset(xs)| == |xs| && |multiset(ys)| == |ys|;
    assert forall x :: x in xs <==> x in multiset(xs);
    assert forall x :: x in ys <==> x in multiset(ys);
  }
}

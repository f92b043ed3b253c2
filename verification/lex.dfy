// Byte-wise string order and sorting by a string key: what sort.Strings and
// slices.SortFunc with strings.Compare provide.
module Lex {
  predicate Lt(a: string, b: string) {
    |b| > 0 && (|a| == 0 || a[0] < b[0] || (a[0] == b[0] && Lt(a[1..], b[1..])))
  }

  predicate Le(a: string, b: string) {
    a == b || Lt(a, b)
  }

  lemma {:induction false} LtIrreflexive(a: string)
    ensures !Lt(a, a)
  {
    if a != "" {
      LtIrreflexive(a[1..]);
    }
  }

  lemma {:induction false} LtTransitive(a: string, b: string, c: string)
    requires Lt(a, b) && Lt(b, c)
    ensures Lt(a, c)
  {
    if |a| > 0 && a[0] == b[0] == c[0] {
      LtTransitive(a[1..], b[1..], c[1..]);
    }
  }

  lemma {:induction false} LtTotal(a: string, b: string)
    ensures a == b || Lt(a, b) || Lt(b, a)
  {
    if |a| > 0 && |b| > 0 && a[0] == b[0] {
      LtTotal(a[1..], b[1..]);
      assert a == [a[0]] + a[1..] && b == [b[0]] + b[1..];
    }
  }

  // The order in plain terms: up to some place the two agree, and there the first one
  // ends while the second goes on, or has the smaller byte.
  lemma {:induction false} LtMeans(a: string, b: string)
    ensures Lt(a, b) <==> exists k: nat :: DiffersAt(a, b, k) && (k == |a| || a[k] < b[k])
  {
    if |a| > 0 && |b| > 0 && a[0] == b[0] {
      LtMeans(a[1..], b[1..]);
      if Lt(a, b) {
        var k: nat :| DiffersAt(a[1..], b[1..], k) && (k == |a| - 1 || a[1..][k] < b[1..][k]);
        assert a[..k + 1] == [a[0]] + a[1..][..k] && b[..k + 1] == [b[0]] + b[1..][..k];
        assert DiffersAt(a, b, k + 1);
      }
      if k: nat :| DiffersAt(a, b, k) && (k == |a| || a[k] < b[k]) {
        assert k > 0;
        assert a[1..][..k - 1] == a[..k][1..] && b[1..][..k - 1] == b[..k][1..];
        assert DiffersAt(a[1..], b[1..], k - 1);
      }
    } else if Lt(a, b) {
      assert DiffersAt(a, b, 0);
    } else if k: nat :| DiffersAt(a, b, k) && (k == |a| || a[k] < b[k]) {
      assert k > 0 ==> a[..k][0] == b[..k][0];
    }
  }

  // a and b agree on the first k bytes, and b goes on.
  ghost predicate DiffersAt(a: string, b: string, k: nat) {
    k <= |a| && k < |b| && a[..k] == b[..k]
  }

  // A common prefix does not matter.
  lemma {:induction false} LtPrefix(p: string, a: string, b: string)
    ensures Lt(p + a, p + b) <==> Lt(a, b)
  {
    if p == "" {
      assert p + a == a && p + b == b;
    } else {
      LtPrefix(p[1..], a, b);
      assert (p + a)[1..] == p[1..] + a && (p + b)[1..] == p[1..] + b;
    }
  }

  // The key of a string that is sorted as it is.
  function Self(s: string): string {
    s
  }

  ghost predicate SortedBy<T(!new)>(s: seq<T>, key: T -> string) {
    forall i, j :: 0 <= i < j < |s| ==> Le(key(s[i]), key(s[j]))
  }

  function InsertBy<T(!new)>(x: T, s: seq<T>, key: T -> string): (r: seq<T>)
    ensures multiset(r) == multiset(s) + multiset{x}
  {
    if s == [] then [x]
    else if Le(key(x), key(s[0])) then [x] + s
    else
      assert s == [s[0]] + s[1..];
      [s[0]] + InsertBy(x, s[1..], key)
  }

  function SortBy<T(!new)>(s: seq<T>, key: T -> string): (r: seq<T>)
    ensures multiset(r) == multiset(s)
  {
    if s == [] then []
    else
      assert s == [s[0]] + s[1..];
      InsertBy(s[0], SortBy(s[1..], key), key)
  }

  lemma {:induction false} InsertBySorted<T(!new)>(x: T, s: seq<T>, key: T -> string)
    requires SortedBy(s, key)
    ensures SortedBy(InsertBy(x, s, key), key)
  {
    if s != [] {
      LtTotal(key(x), key(s[0]));
      if Le(key(x), key(s[0])) {
        SortedByCons(x, s, key);
      } else {
        InsertBySorted(x, s[1..], key);
        var r := InsertBy(x, s[1..], key);
        forall y | y in r
          ensures Le(key(s[0]), key(y))
        {
          assert y in multiset(r);
          if y != x {
            assert y in multiset(s[1..]);
            var k :| 0 <= k < |s| - 1 && s[1..][k] == y;
            assert s[k + 1] == y;
          }
        }
        SortedByCons(s[0], r, key);
      }
    }
  }

  lemma SortedByCons<T(!new)>(x: T, s: seq<T>, key: T -> string)
    requires SortedBy(s, key)
    requires (forall y :: y in s ==> Le(key(x), key(y))) || (s != [] && Le(key(x), key(s[0])))
    ensures SortedBy([x] + s, key)
  {
    var r := [x] + s;
    forall i, j | 0 <= i < j < |r|
      ensures Le(key(r[i]), key(r[j]))
    {
      if i == 0 && j > 1 {
        assert s[j - 1] in s;
        assert Le(key(s[0]), key(s[j - 1]));
        LeTransitive(key(x), key(s[0]), key(s[j - 1]));
      } else if i == 0 {
        assert s[0] in s;
      }
    }
  }

  lemma LeTransitive(a: string, b: string, c: string)
    ensures Le(a, b) && Le(b, c) ==> Le(a, c)
  {
    if Lt(a, b) && Lt(b, c) {
      LtTransitive(a, b, c);
    }
  }

  lemma {:induction false} SortBySorted<T(!new)>(s: seq<T>, key: T -> string)
    ensures SortedBy(SortBy(s, key), key)
  {
    if s != [] {
      SortBySorted(s[1..], key);
      InsertBySorted(s[0], SortBy(s[1..], key), key);
    }
  }

  ghost predicate KeysDistinct<T(!new)>(s: multiset<T>, key: T -> string) {
    forall x, y :: x in s && y in s && key(x) == key(y) ==> x == y
  }

  lemma SortedHeads<T(!new)>(a: seq<T>, b: seq<T>, key: T -> string)
    requires SortedBy(a, key) && SortedBy(b, key) && multiset(a) == multiset(b) && KeysDistinct(multiset(a), key)
    requires a != []
    ensures b != [] && a[0] == b[0]
  {
    assert a[0] in multiset(b);
    assert b[0] in multiset(a);
    var i :| 0 <= i < |b| && b[i] == a[0];
    var j :| 0 <= j < |a| && a[j] == b[0];
    assert Le(key(b[0]), key(b[i])) && Le(key(a[0]), key(a[j]));
    if key(a[0]) != key(b[0]) {
      LtTransitive(key(a[0]), key(b[0]), key(a[0]));
      LtIrreflexive(key(a[0]));
    }
  }

  lemma TailMultiset<T>(a: seq<T>)
    requires a != []
    ensures multiset(a[1..]) == multiset(a) - multiset{a[0]}
  {
    assert a == [a[0]] + a[1..];
  }

  lemma SortedTails<T(!new)>(a: seq<T>, b: seq<T>, key: T -> string)
    requires SortedBy(a, key) && SortedBy(b, key) && multiset(a) == multiset(b) && KeysDistinct(multiset(a), key)
    requires a != [] && b != [] && a[0] == b[0]
    ensures SortedBy(a[1..], key) && SortedBy(b[1..], key)
    ensures multiset(a[1..]) == multiset(b[1..]) && KeysDistinct(multiset(a[1..]), key)
  {
    hide Le;
    TailMultiset(a);
    TailMultiset(b);
  }

  // Items with pairwise different keys can be sorted in one way only.
  lemma {:induction false} SortedUnique<T(!new)>(a: seq<T>, b: seq<T>, key: T -> string)
    requires SortedBy(a, key) && SortedBy(b, key) && multiset(a) == multiset(b) && KeysDistinct(multiset(a), key)
    ensures a == b
  {
    hide Le;
    if a == [] {
      assert |b| == |multiset(b)|;
    } else {
      SortedHeads(a, b, key);
      SortedTails(a, b, key);
      SortedUnique(a[1..], b[1..], key);
      assert a == [a[0]] + a[1..] && b == [b[0]] + b[1..];
    }
  }
}

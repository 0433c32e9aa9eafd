/** Sorting under a total order, and Python's orders on strings and on pairs of strings. */
module Ordering {

  ghost predicate TotalOrder<T(!new)>(leq: (T, T) -> bool) {
    && (forall a, b :: leq(a, b) || leq(b, a))
    && (forall a, b :: leq(a, b) && leq(b, a) ==> a == b)
    && (forall a, b, c :: leq(a, b) && leq(b, c) ==> leq(a, c))
  }

  predicate Sorted<T>(leq: (T, T) -> bool, s: seq<T>) {
    forall i, j :: 0 <= i < j < |s| ==> leq(s[i], s[j])
  }

  function Insert<T>(leq: (T, T) -> bool, x: T, s: seq<T>): seq<T> {
    if s == [] then [x]
    else if leq(x, s[0]) then [x] + s
    else [s[0]] + Insert(leq, x, s[1..])
  }

  /** A stable sort: the value of Python's `sorted`. */
  function Sort<T>(leq: (T, T) -> bool, s: seq<T>): seq<T> {
    if s == [] then [] else Insert(leq, s[0], Sort(leq, s[1..]))
  }

  lemma {:induction false} InsertMultiset<T>(leq: (T, T) -> bool, x: T, s: seq<T>)
    ensures multiset(Insert(leq, x, s)) == multiset(s) + multiset{x}
  {
    if s == [] || leq(x, s[0]) {
    } else {
      InsertMultiset(leq, x, s[1..]);
      assert s == [s[0]] + s[1..];
    }
  }

  lemma {:induction false} SortMultiset<T>(leq: (T, T) -> bool, s: seq<T>)
    ensures multiset(Sort(leq, s)) == multiset(s)
    ensures |Sort(leq, s)| == |s|
  {
    if s != [] {
      SortMultiset(leq, s[1..]);
      InsertMultiset(leq, s[0], Sort(leq, s[1..]));
      assert s == [s[0]] + s[1..];
    }
    assert |multiset(Sort(leq, s))| == |multiset(s)|;
  }

  lemma {:induction false} InsertSorted<T(!new)>(leq: (T, T) -> bool, x: T, s: seq<T>)
    requires TotalOrder(leq) && Sorted(leq, s)
    ensures Sorted(leq, Insert(leq, x, s))
  {
    if s == [] || leq(x, s[0]) {
    } else {
      InsertSorted(leq, x, s[1..]);
      var r := Insert(leq, x, s[1..]);
      forall j | 0 <= j < |r| ensures leq(s[0], r[j]) {
        InsertMultiset(leq, x, s[1..]);
        assert r[j] in multiset(r);
        assert r[j] == x || r[j] in s[1..];
      }
    }
  }

  lemma {:induction false} SortSorted<T(!new)>(leq: (T, T) -> bool, s: seq<T>)
    requires TotalOrder(leq)
    ensures Sorted(leq, Sort(leq, s))
  {
    if s != [] {
      SortSorted(leq, s[1..]);
      InsertSorted(leq, s[0], Sort(leq, s[1..]));
    }
  }

  lemma TailMultiset<T>(s: seq<T>)
    requires s != []
    ensures multiset(s[1..]) == multiset(s) - multiset{s[0]} && s[0] in multiset(s)
  {
    assert s == [s[0]] + s[1..];
  }

  /** Under a total order a multiset has one sorted listing. */
  lemma {:induction false} SortedUnique<T(!new)>(leq: (T, T) -> bool, a: seq<T>, b: seq<T>)
    requires TotalOrder(leq) && Sorted(leq, a) && Sorted(leq, b)
    requires multiset(a) == multiset(b)
    ensures a == b
    decreases |a|
  {
    assert |multiset(a)| == |multiset(b)|;
    if a != [] {
      TailMultiset(a);
      TailMultiset(b);
      LeastFirst(leq, a, b[0]);
      LeastFirst(leq, b, a[0]);
      SortedUnique(leq, a[1..], b[1..]);
      assert a == [a[0]] + a[1..] && b == [b[0]] + b[1..];
    }
  }

  lemma LeastFirst<T(!new)>(leq: (T, T) -> bool, s: seq<T>, x: T)
    requires TotalOrder(leq) && Sorted(leq, s) && x in multiset(s)
    ensures leq(s[0], x)
  {
    var i :| 0 <= i < |s| && s[i] == x;
    assert leq(x, x) || leq(x, x);
  }

  /** Two lists sort to the same list exactly when they are reorderings of each other. */
  lemma SortIff<T(!new)>(leq: (T, T) -> bool, a: seq<T>, b: seq<T>)
    requires TotalOrder(leq)
    ensures Sort(leq, a) == Sort(leq, b) <==> multiset(a) == multiset(b)
  {
    SortMultiset(leq, a);
    SortMultiset(leq, b);
    if multiset(a) == multiset(b) {
      SortSorted(leq, a);
      SortSorted(leq, b);
      SortedUnique(leq, Sort(leq, a), Sort(leq, b));
    }
  }

  lemma SortOfSorted<T(!new)>(leq: (T, T) -> bool, s: seq<T>)
    requires TotalOrder(leq) && Sorted(leq, s)
    ensures Sort(leq, s) == s
  {
    SortMultiset(leq, s);
    SortSorted(leq, s);
    SortedUnique(leq, Sort(leq, s), s);
  }

  // ----- rearrangements -----

  function Map<T, U>(f: T -> U, s: seq<T>): (r: seq<U>)
    ensures |r| == |s| && forall i :: 0 <= i < |s| ==> r[i] == f(s[i])
  {
    seq(|s|, i requires 0 <= i < |s| => f(s[i]))
  }

  function Without<T>(s: seq<T>, j: nat): seq<T>
    requires j < |s|
  {
    s[..j] + s[j + 1..]
  }

  lemma WithoutMultiset<T>(s: seq<T>, j: nat)
    requires j < |s|
    ensures multiset(s) == multiset(Without(s, j)) + multiset{s[j]}
  {
    assert s == s[..j] + [s[j]] + s[j + 1..];
  }

  lemma MapWithout<T, U>(f: T -> U, s: seq<T>, j: nat)
    requires j < |s|
    ensures multiset(Map(f, s)) == multiset(Map(f, Without(s, j))) + multiset{f(s[j])}
    ensures |Without(s, j)| == |s| - 1
  {
    WithoutMultiset(Map(f, s), j);
    assert Map(f, Without(s, j)) == Without(Map(f, s), j);
  }

  lemma MapCons<T, U>(f: T -> U, x: T, s: seq<T>)
    ensures Map(f, [x] + s) == [f(x)] + Map(f, s)
  {
  }

  lemma FindImage<T, U>(f: T -> U, y: U, s: seq<T>) returns (j: nat)
    requires y in multiset(Map(f, s))
    ensures j < |s| && f(s[j]) == y
  {
    var i :| 0 <= i < |Map(f, s)| && Map(f, s)[i] == y;
    j := i;
  }

  /** A rearrangement of the images of a list comes from a rearrangement of the list. */
  lemma {:induction false} Rearrange<T, U>(f: T -> U, images: seq<U>, s: seq<T>) returns (r: seq<T>)
    requires multiset(images) == multiset(Map(f, s))
    ensures multiset(r) == multiset(s) && Map(f, r) == images
    decreases |images|
  {
    hide Map, Without;
    if images == [] {
      assert |multiset(Map(f, s))| == 0;
      r := [];
    } else {
      TailMultiset(images);
      var j := FindImage(f, images[0], s);
      MapWithout(f, s, j);
      WithoutMultiset(s, j);
      assert multiset(Map(f, Without(s, j))) == multiset(Map(f, s)) - multiset{images[0]};
      var rest := Rearrange(f, images[1..], Without(s, j));
      MapCons(f, s[j], rest);
      r := [s[j]] + rest;
    }
  }

  lemma {:induction false} RearrangedImage<T, U>(f: T -> U, r: seq<T>, s: seq<T>)
    requires multiset(r) == multiset(s)
    ensures multiset(Map(f, r)) == multiset(Map(f, s))
    decreases |r|
  {
    hide Map, Without;
    if r == [] {
      assert |multiset(s)| == 0;
    } else {
      TailMultiset(r);
      assert r[0] in multiset(s);
      var j :| 0 <= j < |s| && s[j] == r[0];
      MapWithout(f, s, j);
      WithoutMultiset(s, j);
      assert multiset(Without(s, j)) == multiset(s) - multiset{r[0]};
      RearrangedImage(f, r[1..], Without(s, j));
      MapCons(f, r[0], r[1..]);
      assert [r[0]] + r[1..] == r;
    }
  }

  // ----- strings, by code point -----

  predicate StrLeq(a: string, b: string) {
    if a == [] then true
    else if b == [] then false
    else a[0] < b[0] || (a[0] == b[0] && StrLeq(a[1..], b[1..]))
  }

  lemma {:induction false} StrTotal(a: string, b: string)
    ensures StrLeq(a, b) || StrLeq(b, a)
    ensures StrLeq(a, b) && StrLeq(b, a) ==> a == b
  {
    if a != [] && b != [] {
      StrTotal(a[1..], b[1..]);
      assert a == [a[0]] + a[1..] && b == [b[0]] + b[1..];
    }
  }

  lemma {:induction false} StrTrans(a: string, b: string, c: string)
    requires StrLeq(a, b) && StrLeq(b, c)
    ensures StrLeq(a, c)
  {
    if a != [] && a[0] == b[0] == c[0] {
      StrTrans(a[1..], b[1..], c[1..]);
    }
  }

  lemma StrOrder()
    ensures TotalOrder(StrLeq)
  {
    forall a, b ensures StrLeq(a, b) || StrLeq(b, a) {
      StrTotal(a, b);
    }
    forall a, b | StrLeq(a, b) && StrLeq(b, a) ensures a == b {
      StrTotal(a, b);
    }
    forall a, b, c | StrLeq(a, b) && StrLeq(b, c) ensures StrLeq(a, c) {
      StrTrans(a, b, c);
    }
  }

  /** The order is lexicographic: the first is a prefix of the second, or has the smaller character
      where they first differ. */
  lemma {:induction false} StrLeqIff(a: string, b: string)
    ensures StrLeq(a, b) <==> a <= b || exists i :: 0 <= i < |a| && i < |b| && a[..i] == b[..i] && a[i] < b[i]
  {
    if a != [] && b != [] {
      if a[0] == b[0] {
        StrLeqIff(a[1..], b[1..]);
        assert a == [a[0]] + a[1..] && b == [b[0]] + b[1..];
        assert a <= b <==> a[1..] <= b[1..];
        if i :| 0 <= i < |a[1..]| && i < |b[1..]| && a[1..][..i] == b[1..][..i] && a[1..][i] < b[1..][i] {
          assert a[..i + 1] == [a[0]] + a[1..][..i] && b[..i + 1] == [b[0]] + b[1..][..i];
          assert a[i + 1] < b[i + 1];
        }
        if i :| 0 <= i < |a| && i < |b| && a[..i] == b[..i] && a[i] < b[i] {
          assert a[1..][..i - 1] == a[..i][1..] == b[..i][1..] == b[1..][..i - 1];
          assert a[1..][i - 1] < b[1..][i - 1];
        }
      } else {
        assert a[0] < b[0] ==> a[..0] == b[..0];
        forall i | 0 < i < |a| && i < |b| ensures a[..i] != b[..i] {
          assert a[..i][0] == a[0] && b[..i][0] == b[0];
        }
      }
    }
  }

  // ----- pairs of strings, as Python compares tuples -----

  predicate PairLeq(a: (string, string), b: (string, string)) {
    (a.0 != b.0 && StrLeq(a.0, b.0)) || (a.0 == b.0 && StrLeq(a.1, b.1))
  }

  lemma PairOrder()
    ensures TotalOrder(PairLeq)
  {
    forall a, b ensures PairLeq(a, b) || PairLeq(b, a) {
      StrTotal(a.0, b.0);
      StrTotal(a.1, b.1);
    }
    forall a, b | PairLeq(a, b) && PairLeq(b, a) ensures a == b {
      StrTotal(a.0, b.0);
      StrTotal(a.1, b.1);
    }
    forall a, b, c | PairLeq(a, b) && PairLeq(b, c) ensures PairLeq(a, c) {
      StrTotal(a.0, b.0);
      StrTotal(b.0, c.0);
      if a.0 == b.0 == c.0 {
        StrTrans(a.1, b.1, c.1);
      } else {
        StrTrans(a.0, b.0, c.0);
      }
    }
  }

  // ----- the sorted listing of a finite set of keys -----

  predicate IsLeast(m: string, s: set<string>) {
    m in s && forall k :: k in s ==> StrLeq(m, k)
  }

  lemma {:induction false} LeastExists(s: set<string>)
    requires s != {}
    ensures exists m :: IsLeast(m, s)
    decreases s
  {
    var x :| x in s;
    StrTotal(x, x);
    if s == {x} {
      assert IsLeast(x, s);
    } else {
      LeastExists(s - {x});
      var y :| IsLeast(y, s - {x});
      StrTotal(x, y);
      if StrLeq(x, y) {
        forall k | k in s ensures StrLeq(x, k) {
          if k != x {
            StrTrans(x, y, k);
          }
        }
        assert IsLeast(x, s);
      } else {
        assert IsLeast(y, s);
      }
    }
  }

  function Least(s: set<string>): (m: string)
    requires s != {}
    ensures IsLeast(m, s)
  {
    LeastExists(s);
    StrOrder();
    var m :| m in s && IsLeast(m, s);
    m
  }

  /** The keys in ascending order, each once: `sorted` of a dictionary's keys. */
  function SortedKeys(s: set<string>): (r: seq<string>)
    ensures forall k :: k in r <==> k in s
    ensures |r| == |s|
    ensures Sorted(StrLeq, r)
  {
    if s == {} then [] else
      var m := Least(s);
      [m] + SortedKeys(s - {m})
  }
}

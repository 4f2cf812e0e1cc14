/**
 Helpers shared by the other modules: an optional value, Go's library sort seen as a
 function, and a few facts about sums and multisets of sequences.
 */
module Common {

  datatype Option<+T> = None | Some(value: T)

  // The value inside, or a default: Go's ptr.Deref.
  function GetOr<T>(o: Option<T>, default: T): T {
    match o
    case Some(v) => v
    case None => default
  }

  function Max(a: int, b: int): int {
    if a >= b then a else b
  }

  function Min(a: int, b: int): int {
    if a <= b then a else b
  }

  // ----- Go's sort.Slice and sort.SliceStable with a less function -----

  function Insert<T>(less: (T, T) -> bool, x: T, s: seq<T>): seq<T> {
    if s == [] then [x]
    else if less(s[0], x) then [s[0]] + Insert(less, x, s[1..])
    else [x] + s
  }

  function Sort<T>(less: (T, T) -> bool, s: seq<T>): seq<T> {
    if s == [] then [] else Insert(less, s[0], Sort(less, s[1..]))
  }

  // No element is less than one before it.
  ghost predicate Sorted<T>(less: (T, T) -> bool, s: seq<T>) {
    forall i, j :: 0 <= i < j < |s| ==> !less(s[j], s[i])
  }

  // less behaves as a strict weak order on the elements of m.
  ghost predicate OrderOn<T(!new)>(less: (T, T) -> bool, m: multiset<T>) {
    && (forall x, y :: x in m && y in m && less(x, y) ==> !less(y, x))
    && (forall x, y, z :: x in m && y in m && z in m && less(x, z) ==> less(x, y) || less(y, z))
  }

  lemma {:induction false} InsertPermutes<T>(less: (T, T) -> bool, x: T, s: seq<T>)
    ensures multiset(Insert(less, x, s)) == multiset(s) + multiset{x}
  {
    if s != [] && less(s[0], x) {
      InsertPermutes(less, x, s[1..]);
      assert s == [s[0]] + s[1..];
    }
  }

  lemma SortedCons<T(!new)>(less: (T, T) -> bool, a: T, s: seq<T>)
    requires Sorted(less, s) && forall y :: y in s ==> !less(y, a)
    ensures Sorted(less, [a] + s)
  {
    var t := [a] + s;
    forall i, j | 0 <= i < j < |t| ensures !less(t[j], t[i]) {
      assert t[j] == s[j - 1] && t[j] in s;
      if i > 0 { assert t[i] == s[i - 1]; }
    }
  }

  lemma SortedTail<T(!new)>(less: (T, T) -> bool, s: seq<T>)
    requires Sorted(less, s) && s != []
    ensures Sorted(less, s[1..]) && forall y :: y in s[1..] ==> !less(y, s[0])
  {
    var t := s[1..];
    forall i, j | 0 <= i < j < |t| ensures !less(t[j], t[i]) {
      assert !less(s[j + 1], s[i + 1]);
    }
    forall y | y in t ensures !less(y, s[0]) {
      var j :| 0 <= j < |t| && t[j] == y;
      assert !less(s[j + 1], s[0]);
    }
  }

  lemma OrderOnFewer<T(!new)>(less: (T, T) -> bool, m: multiset<T>, n: multiset<T>)
    requires OrderOn(less, m) && forall x :: x in n ==> x in m
    ensures OrderOn(less, n)
  {
  }

  // Where x does not go after the head of a sorted sequence, nothing in it is less than x.
  lemma NoneLess<T(!new)>(less: (T, T) -> bool, x: T, s: seq<T>)
    requires OrderOn(less, multiset(s) + multiset{x}) && Sorted(less, s) && s != [] && !less(s[0], x)
    ensures forall y :: y in s ==> !less(y, x)
  {
    var m := multiset(s) + multiset{x};
    SortedTail(less, s);
    hide Sorted;
    assert s == [s[0]] + s[1..];
    assert s[0] in m && x in m;
    forall y | y in s ensures !less(y, x) {
      assert y in m;
      var head := s[0];
      assert less(y, x) ==> less(y, head) || less(head, x);
    }
  }

  lemma {:induction false} InsertSorted<T(!new)>(less: (T, T) -> bool, x: T, s: seq<T>)
    requires OrderOn(less, multiset(s) + multiset{x}) && Sorted(less, s)
    ensures Sorted(less, Insert(less, x, s))
  {
    if s == [] {
    } else if less(s[0], x) {
      var t, m := s[1..], multiset(s) + multiset{x};
      assert s == [s[0]] + t;
      SortedTail(less, s);
      OrderOnFewer(less, m, multiset(t) + multiset{x});
      assert s[0] in m && x in m && !less(x, s[0]);
      hide OrderOn, Sorted;
      InsertSorted(less, x, t);
      InsertPermutes(less, x, t);
      forall y | y in Insert(less, x, t) ensures !less(y, s[0]) {
        assert y in multiset(t) + multiset{x};
      }
      SortedCons(less, s[0], Insert(less, x, t));
    } else {
      NoneLess(less, x, s);
      hide OrderOn, Sorted;
      SortedCons(less, x, s);
    }
  }

  // Sorting permutes its input, and orders it whenever less is an order on the elements.
  lemma {:induction false} SortSorts<T(!new)>(less: (T, T) -> bool, s: seq<T>)
    ensures multiset(Sort(less, s)) == multiset(s)
    ensures OrderOn(less, multiset(s)) ==> Sorted(less, Sort(less, s))
  {
    if s != [] {
      var t := s[1..];
      assert s == [s[0]] + t;
      SortSorts(less, t);
      InsertPermutes(less, s[0], Sort(less, t));
      hide Sorted;
      if OrderOn(less, multiset(s)) {
        OrderOnFewer(less, multiset(s), multiset(t));
        assert multiset(Sort(less, t)) + multiset{s[0]} == multiset(s);
        InsertSorted(less, s[0], Sort(less, t));
      }
    }
  }

  // ----- sums over sequences -----

  function Sum<T>(f: T -> int, s: seq<T>): int {
    if s == [] then 0 else f(s[0]) + Sum(f, s[1..])
  }

  lemma {:induction false} SumConcat<T>(f: T -> int, a: seq<T>, b: seq<T>)
    ensures Sum(f, a + b) == Sum(f, a) + Sum(f, b)
  {
    if a == [] {
      assert a + b == b;
    } else {
      assert (a + b)[1..] == a[1..] + b;
      SumConcat(f, a[1..], b);
    }
  }

  lemma {:induction false} SumSplit<T>(f: T -> int, s: seq<T>, i: nat)
    requires i < |s|
    ensures Sum(f, s) == Sum(f, s[..i]) + f(s[i]) + Sum(f, s[i + 1..])
  {
    assert s == s[..i] + ([s[i]] + s[i + 1..]);
    SumConcat(f, s[..i], [s[i]] + s[i + 1..]);
    SumConcat(f, [s[i]], s[i + 1..]);
  }

  function RemoveAt<T>(s: seq<T>, i: nat): (r: seq<T>)
    requires i < |s|
    ensures |r| == |s| - 1
  {
    s[..i] + s[i + 1..]
  }

  lemma RemoveAtMultiset<T>(s: seq<T>, i: nat)
    requires i < |s|
    ensures multiset(RemoveAt(s, i)) == multiset(s) - multiset{s[i]}
  {
    assert s == s[..i] + ([s[i]] + s[i + 1..]);
    assert multiset(s) == multiset(RemoveAt(s, i)) + multiset{s[i]};
  }

  lemma {:induction false} SumPermutes<T>(f: T -> int, a: seq<T>, b: seq<T>)
    requires multiset(a) == multiset(b)
    ensures Sum(f, a) == Sum(f, b)
    decreases |a|
  {
    if a == [] {
      assert |multiset(b)| == 0;
    } else {
      assert a[0] in multiset(b);
      var i :| 0 <= i < |b| && b[i] == a[0];
      SumSplit(f, b, i);
      SumConcat(f, b[..i], b[i + 1..]);
      RemoveAtMultiset(b, i);
      RemoveAtMultiset(a, 0);
      assert RemoveAt(a, 0) == a[1..];
      SumPermutes(f, a[1..], RemoveAt(b, i));
    }
  }

  lemma MultisetOfUpdate<T>(s: seq<T>, i: nat, x: T)
    requires i < |s|
    ensures multiset(s[i := x]) == multiset(s) - multiset{s[i]} + multiset{x}
  {
    assert s == s[..i] + ([s[i]] + s[i + 1..]) && s[i := x] == s[..i] + ([x] + s[i + 1..]);
  }

  // ----- sequences without repetition -----

  ghost predicate Distinct<T(!new)>(s: seq<T>) {
    forall i, j :: 0 <= i < j < |s| ==> s[i] != s[j]
  }

  lemma {:induction false} DistinctCounts<T(!new)>(s: seq<T>)
    ensures Distinct(s) <==> forall x :: multiset(s)[x] <= 1
  {
    if s != [] {
      var t := s[1..];
      assert s == [s[0]] + t;
      DistinctCounts(t);
      if Distinct(s) {
        assert Distinct(t) by { forall i, j | 0 <= i < j < |t| ensures t[i] != t[j] { assert s[i + 1] != s[j + 1]; } }
        assert s[0] !in t;
      } else {
        var i, j :| 0 <= i < j < |s| && s[i] == s[j];
        if i > 0 {
          assert t[i - 1] == t[j - 1];
          var x :| multiset(t)[x] > 1;
          assert multiset(s)[x] > 1;
        } else {
          assert t[j - 1] == s[0];
          assert multiset(s)[s[0]] > 1;
        }
      }
    }
  }

  lemma DistinctPermutes<T(!new)>(a: seq<T>, b: seq<T>)
    requires multiset(a) == multiset(b)
    ensures Distinct(a) <==> Distinct(b)
  {
    DistinctCounts(a);
    DistinctCounts(b);
  }

  function Map<T, U>(f: T -> U, s: seq<T>): (r: seq<U>)
    ensures |r| == |s|
  {
    seq(|s|, i requires 0 <= i < |s| => f(s[i]))
  }

  lemma MapHead<T, U>(f: T -> U, s: seq<T>)
    requires s != []
    ensures multiset(Map(f, s)) == multiset{f(s[0])} + multiset(Map(f, s[1..]))
  {
    assert Map(f, s) == [f(s[0])] + Map(f, s[1..]);
  }

  lemma MapRemoveAt<T, U>(f: T -> U, s: seq<T>, i: nat)
    requires i < |s|
    ensures multiset(Map(f, s)) == multiset{f(s[i])} + multiset(Map(f, RemoveAt(s, i)))
  {
    assert Map(f, RemoveAt(s, i)) == RemoveAt(Map(f, s), i);
    RemoveAtMultiset(Map(f, s), i);
    assert Map(f, s)[i] in multiset(Map(f, s));
  }

  lemma {:induction false} MapPermutes<T, U>(f: T -> U, a: seq<T>, b: seq<T>)
    requires multiset(a) == multiset(b)
    ensures multiset(Map(f, a)) == multiset(Map(f, b))
    decreases |a|
  {
    if a == [] {
      assert |multiset(b)| == 0;
    } else {
      assert a[0] in multiset(b);
      var i :| 0 <= i < |b| && b[i] == a[0];
      RemoveAtMultiset(b, i);
      RemoveAtMultiset(a, 0);
      assert RemoveAt(a, 0) == a[1..];
      MapHead(f, a);
      MapRemoveAt(f, b, i);
      hide Map, RemoveAt;
      MapPermutes(f, a[1..], RemoveAt(b, i));
    }
  }

  lemma DistinctConcat<T(!new)>(x: seq<T>, y: seq<T>)
    ensures Distinct(x + y) <==> Distinct(x) && Distinct(y) && forall a :: a in x ==> a !in y
  {
    if Distinct(x + y) {
      forall i, j | 0 <= i < j < |x| ensures x[i] != x[j] { assert (x + y)[i] != (x + y)[j]; }
      forall i, j | 0 <= i < j < |y| ensures y[i] != y[j] { assert (x + y)[|x| + i] != (x + y)[|x| + j]; }
      forall a | a in x ensures a !in y {
        var i :| 0 <= i < |x| && x[i] == a;
        forall j | 0 <= j < |y| ensures y[j] != a { assert (x + y)[i] != (x + y)[|x| + j]; }
      }
    }
    if Distinct(x) && Distinct(y) && forall a :: a in x ==> a !in y {
      forall i, j | 0 <= i < j < |x + y| ensures (x + y)[i] != (x + y)[j] {
        if i < |x| <= j { assert x[i] in x && y[j - |x|] in y; }
      }
    }
  }

  lemma WithoutAbsent<K, V>(m: map<K, V>, key: K)
    ensures m - {key} == m <==> key !in m
  {
  }

  lemma WithoutThenWith<K, V>(m: map<K, V>, key: K, value: V)
    ensures (m - {key})[key := value] == m[key := value]
  {
  }
}

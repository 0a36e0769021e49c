/** Byte-wise string order and sorted listings of sets: what the map-then-sort loops compute. */
module Ordering {

  /** less is a strict total order on the members of s. */
  ghost predicate TotalOn<T(!new)>(less: (T, T) -> bool, s: set<T>) {
    && (forall x <- s :: !less(x, x))
    && (forall x <- s, y <- s, z <- s :: less(x, y) && less(y, z) ==> less(x, z))
    && (forall x <- s, y <- s :: x != y ==> less(x, y) || less(y, x))
  }

  ghost predicate Sorted<T(!new)>(less: (T, T) -> bool, xs: seq<T>) {
    forall i, j :: 0 <= i < j < |xs| ==> less(xs[i], xs[j])
  }

  ghost function Elements<T>(xs: seq<T>): set<T> {
    set x | x in xs
  }

  ghost predicate Distinct<T(!new)>(xs: seq<T>) {
    forall i, j :: 0 <= i < j < |xs| ==> xs[i] != xs[j]
  }

  /** Stand-in for the library sort: straight insertion. */
  function Insert<T>(less: (T, T) -> bool, x: T, xs: seq<T>): seq<T> {
    if xs == [] then [x]
    else if less(x, xs[0]) then [x] + xs
    else [xs[0]] + Insert(less, x, xs[1..])
  }

  function SortSlice<T>(less: (T, T) -> bool, xs: seq<T>): seq<T> {
    if xs == [] then [] else Insert(less, xs[0], SortSlice(less, xs[1..]))
  }

  lemma {:induction false} InsertElements<T>(less: (T, T) -> bool, x: T, xs: seq<T>)
    ensures Elements(Insert(less, x, xs)) == Elements(xs) + {x}
    ensures |Insert(less, x, xs)| == |xs| + 1
  {
    if xs == [] {
    } else if less(x, xs[0]) {
    } else {
      InsertElements(less, x, xs[1..]);
      var tail := Insert(less, x, xs[1..]);
      assert Elements([xs[0]] + tail) == {xs[0]} + Elements(tail);
      assert Elements(xs) == {xs[0]} + Elements(xs[1..]);
    }
  }

  lemma {:induction false} InsertSorted<T(!new)>(less: (T, T) -> bool, x: T, xs: seq<T>)
    requires TotalOn(less, Elements(xs) + {x}) && x !in xs && Sorted(less, xs)
    ensures Sorted(less, Insert(less, x, xs))
  {
    hide TotalOn;
    if xs == [] {
    } else if less(x, xs[0]) {
      NewHead(less, x, xs);
    } else {
      assert xs == [xs[0]] + xs[1..];
      TotalSubset(less, Elements(xs) + {x}, Elements(xs[1..]) + {x});
      InsertSorted(less, x, xs[1..]);
      InsertElements(less, x, xs[1..]);
      HeadFirst(less, x, xs, Insert(less, x, xs[1..]));
    }
  }

  lemma NewHead<T(!new)>(less: (T, T) -> bool, x: T, xs: seq<T>)
    requires xs != [] && less(x, xs[0]) && Sorted(less, xs) && TotalOn(less, Elements(xs) + {x})
    ensures Sorted(less, [x] + xs)
  {
    forall j | 0 <= j < |xs| ensures less(x, xs[j]) {
      assert xs[0] in Elements(xs) && xs[j] in Elements(xs);
    }
  }

  lemma HeadFirst<T(!new)>(less: (T, T) -> bool, x: T, xs: seq<T>, tail: seq<T>)
    requires xs != [] && x !in xs && !less(x, xs[0]) && Sorted(less, xs) && Sorted(less, tail)
    requires TotalOn(less, Elements(xs) + {x}) && Elements(tail) == Elements(xs[1..]) + {x}
    ensures Sorted(less, [xs[0]] + tail)
  {
    forall j | 0 <= j < |tail| ensures less(xs[0], tail[j]) {
      assert tail[j] in Elements(tail);
      assert xs[0] in Elements(xs);
    }
  }

  lemma {:induction false} SortSliceSorts<T(!new)>(less: (T, T) -> bool, xs: seq<T>)
    requires TotalOn(less, Elements(xs)) && Distinct(xs)
    ensures Sorted(less, SortSlice(less, xs))
    ensures Elements(SortSlice(less, xs)) == Elements(xs)
    ensures |SortSlice(less, xs)| == |xs|
  {
    if xs != [] {
      assert xs == [xs[0]] + xs[1..];
      assert Elements(xs[1..]) <= Elements(xs);
      SortSliceSorts(less, xs[1..]);
      var rest := SortSlice(less, xs[1..]);
      assert xs[0] !in Elements(rest);
      assert Elements(rest) + {xs[0]} == Elements(xs);
      InsertSorted(less, xs[0], rest);
      InsertElements(less, xs[0], rest);
    }
  }

  lemma {:induction false} InsertPermutes<T>(less: (T, T) -> bool, x: T, xs: seq<T>)
    ensures multiset(Insert(less, x, xs)) == multiset(xs) + multiset{x}
  {
    if xs != [] {
      assert xs == [xs[0]] + xs[1..];
      if !less(x, xs[0]) { InsertPermutes(less, x, xs[1..]); }
    }
  }

  /** Sorting rearranges, whatever the order. */
  lemma {:induction false} SortSlicePermutes<T>(less: (T, T) -> bool, xs: seq<T>)
    ensures multiset(SortSlice(less, xs)) == multiset(xs)
  {
    if xs != [] {
      SortSlicePermutes(less, xs[1..]);
      InsertPermutes(less, xs[0], SortSlice(less, xs[1..]));
      assert xs == [xs[0]] + xs[1..];
    }
  }

  /** No element is less than one before it: sorted, with equal keys in any order. */
  ghost predicate InOrder<T(!new)>(less: (T, T) -> bool, xs: seq<T>) {
    forall i, j :: 0 <= i < j < |xs| ==> !less(xs[j], xs[i])
  }

  lemma {:induction false} InsertInOrder<T(!new)>(less: (T, T) -> bool, key: T -> string, x: T, xs: seq<T>)
    requires forall a, b :: less(a, b) == StringLess(key(a), key(b))
    requires InOrder(less, xs)
    ensures InOrder(less, Insert(less, x, xs))
  {
    if xs == [] {
    } else if less(x, xs[0]) {
      forall j | 0 <= j < |xs| ensures !less(xs[j], x) {
        if less(xs[j], x) {
          StringLessTransitive(key(xs[j]), key(x), key(xs[0]));
          StringLessIrreflexive(key(xs[0]));
        }
      }
    } else {
      InsertInOrder(less, key, x, xs[1..]);
      InsertPermutes(less, x, xs[1..]);
      var tail := Insert(less, x, xs[1..]);
      forall j | 0 <= j < |tail| ensures !less(tail[j], xs[0]) {
        assert tail[j] in multiset(tail);
      }
    }
  }

  /** Sorting by a string key orders any sequence, repeated keys included. */
  lemma {:induction false} SortSliceInOrder<T(!new)>(less: (T, T) -> bool, key: T -> string, xs: seq<T>)
    requires forall a, b :: less(a, b) == StringLess(key(a), key(b))
    ensures InOrder(less, SortSlice(less, xs))
  {
    if xs != [] {
      SortSliceInOrder(less, key, xs[1..]);
      InsertInOrder(less, key, xs[0], SortSlice(less, xs[1..]));
    }
  }

  lemma NoElements<T>(xs: seq<T>)
    ensures xs == [] <==> Elements(xs) == {}
  {
    if xs != [] { assert xs[0] in Elements(xs); }
  }

  /** A sorted listing is determined by its members. */
  lemma {:induction false} SortedUnique<T(!new)>(less: (T, T) -> bool, xs: seq<T>, ys: seq<T>)
    requires Sorted(less, xs) && Sorted(less, ys) && Elements(xs) == Elements(ys)
    requires TotalOn(less, Elements(xs))
    ensures xs == ys
  {
    NoElements(xs);
    NoElements(ys);
    if xs != [] {
      SameHead(less, xs, ys);
      assert xs == [xs[0]] + xs[1..] && ys == [ys[0]] + ys[1..];
      assert xs[0] !in xs[1..] && ys[0] !in ys[1..];
      assert Elements(xs[1..]) == Elements(xs) - {xs[0]};
      assert Elements(ys[1..]) == Elements(ys) - {ys[0]};
      SortedUnique(less, xs[1..], ys[1..]);
    }
  }

  lemma SameHead<T(!new)>(less: (T, T) -> bool, xs: seq<T>, ys: seq<T>)
    requires Sorted(less, xs) && Sorted(less, ys) && Elements(xs) == Elements(ys)
    requires TotalOn(less, Elements(xs)) && xs != [] && ys != []
    ensures xs[0] == ys[0]
  {
    assert xs[0] in Elements(ys) && ys[0] in Elements(xs);
    var i :| 0 <= i < |ys| && ys[i] == xs[0];
    var j :| 0 <= j < |xs| && xs[j] == ys[0];
  }

  /** The sorted listing of a set. */
  ghost function SortedSeq<T(!new)>(less: (T, T) -> bool, s: set<T>): (r: seq<T>)
    ensures Elements(r) == s
    ensures |r| == |s|
  {
    if s == {} then [] else
      var x :| x in s;
      InsertElements(less, x, SortedSeq(less, s - {x}));
      Insert(less, x, SortedSeq(less, s - {x}))
  }

  lemma NothingSorted<T(!new)>(less: (T, T) -> bool)
    ensures Sorted(less, [])
  {
  }

  lemma TotalSubset<T(!new)>(less: (T, T) -> bool, s: set<T>, t: set<T>)
    requires TotalOn(less, s) && t <= s
    ensures TotalOn(less, t)
  {
  }

  lemma {:induction false} SortedSeqSorted<T(!new)>(less: (T, T) -> bool, s: set<T>)
    requires TotalOn(less, s)
    ensures Sorted(less, SortedSeq(less, s))
  {
    hide Insert, Sorted;
    if s == {} {
      NothingSorted(less);
    } else {
      var x :| x in s && SortedSeq(less, s) == Insert(less, x, SortedSeq(less, s - {x}));
      TotalSubset(less, s, s - {x});
      SortedSeqSorted(less, s - {x});
      assert x !in Elements(SortedSeq(less, s - {x}));
      assert Elements(SortedSeq(less, s - {x})) + {x} == s;
      InsertSorted(less, x, SortedSeq(less, s - {x}));
    }
  }

  /** Collecting a set in any order and sorting gives the set's one sorted listing. */
  lemma SortSliceIsSortedSeq<T(!new)>(less: (T, T) -> bool, xs: seq<T>, s: set<T>)
    requires TotalOn(less, s) && Distinct(xs) && Elements(xs) == s
    ensures SortSlice(less, xs) == SortedSeq(less, s)
  {
    SortSliceSorts(less, xs);
    SortedSeqSorted(less, s);
    SortedUnique(less, SortSlice(less, xs), SortedSeq(less, s));
  }

  function Filter<T>(p: T -> bool, xs: seq<T>): seq<T> {
    if xs == [] then []
    else if p(xs[0]) then [xs[0]] + Filter(p, xs[1..])
    else Filter(p, xs[1..])
  }

  lemma {:induction false} FilterMembers<T(!new)>(p: T -> bool, xs: seq<T>)
    ensures forall x :: x in Filter(p, xs) <==> x in xs && p(x)
  {
    if xs != [] {
      FilterMembers(p, xs[1..]);
      assert xs == [xs[0]] + xs[1..];
    }
  }

  lemma {:induction false} FilterSorted<T(!new)>(less: (T, T) -> bool, p: T -> bool, xs: seq<T>)
    requires Sorted(less, xs)
    ensures Sorted(less, Filter(p, xs))
  {
    if xs != [] {
      FilterSorted(less, p, xs[1..]);
      FilterMembers(p, xs[1..]);
      var rest := Filter(p, xs[1..]);
      forall j | 0 <= j < |rest| ensures less(xs[0], rest[j]) {
        assert rest[j] in xs[1..];
      }
    }
  }

  /** Sort-then-filter lists exactly what filter-then-sort lists. */
  lemma {:induction false} FilterSortedSeq<T(!new)>(less: (T, T) -> bool, p: T -> bool, s: set<T>)
    requires TotalOn(less, s)
    ensures Filter(p, SortedSeq(less, s)) == SortedSeq(less, set x | x in s && p(x))
  {
    var t := set x | x in s && p(x);
    SortedSeqSorted(less, s);
    SortedSeqSorted(less, t);
    FilterSorted(less, p, SortedSeq(less, s));
    FilterMembers(p, SortedSeq(less, s));
    assert Elements(Filter(p, SortedSeq(less, s))) == t by {
      forall x ensures x in Filter(p, SortedSeq(less, s)) <==> x in t {
        assert x in SortedSeq(less, s) <==> x in Elements(SortedSeq(less, s));
      }
    }
    SortedUnique(less, Filter(p, SortedSeq(less, s)), SortedSeq(less, t));
  }

  /** Lexicographic order on strings. */
  predicate StringLess(a: string, b: string) {
    b != [] && (a == [] || a[0] < b[0] || (a[0] == b[0] && StringLess(a[1..], b[1..])))
  }

  /** What the order is: a proper prefix comes first, and otherwise the first different character decides. */
  lemma {:induction false} StringLessExact(a: string, b: string)
    ensures StringLess(a, b) <==>
      (a != b && a <= b) || exists i :: 0 <= i < |a| && i < |b| && a[..i] == b[..i] && a[i] < b[i]
    decreases |a|
  {
    if a != [] && b != [] {
      assert a == [a[0]] + a[1..] && b == [b[0]] + b[1..];
      if a[0] < b[0] {
        assert a[..0] == b[..0];
      } else if a[0] == b[0] {
        var (x, y) := (a[1..], b[1..]);
        StringLessExact(x, y);
        if i :| 0 <= i < |x| && i < |y| && x[..i] == y[..i] && x[i] < y[i] {
          assert a[..i + 1] == [a[0]] + x[..i] && b[..i + 1] == [b[0]] + y[..i];
          assert a[i + 1] < b[i + 1];
        }
        if i :| 0 <= i < |a| && i < |b| && a[..i] == b[..i] && a[i] < b[i] {
          assert i > 0;
          assert x[..i - 1] == a[..i][1..] && y[..i - 1] == b[..i][1..];
          assert x[i - 1] < y[i - 1];
        }
      }
    }
  }

  lemma {:induction false} StringLessIrreflexive(a: string)
    ensures !StringLess(a, a)
  {
    if a != [] { StringLessIrreflexive(a[1..]); }
  }

  lemma {:induction false} StringLessTransitive(a: string, b: string, c: string)
    requires StringLess(a, b) && StringLess(b, c)
    ensures StringLess(a, c)
  {
    if a != [] && a[0] == b[0] == c[0] { StringLessTransitive(a[1..], b[1..], c[1..]); }
  }

  lemma {:induction false} StringLessConnected(a: string, b: string)
    ensures a == b || StringLess(a, b) || StringLess(b, a)
  {
    if a != [] && b != [] && a[0] == b[0] {
      StringLessConnected(a[1..], b[1..]);
      assert a == [a[0]] + a[1..] && b == [b[0]] + b[1..];
    }
  }

  /** Ordering records by a string key is total on records whose keys are distinct. */
  lemma KeyOrderTotal<T(!new)>(less: (T, T) -> bool, key: T -> string, s: set<T>)
    requires forall x <- s, y <- s :: less(x, y) == StringLess(key(x), key(y))
    requires forall x <- s, y <- s :: key(x) == key(y) ==> x == y
    ensures TotalOn(less, s)
  {
    forall x | x in s ensures !less(x, x) { StringLessIrreflexive(key(x)); }
    forall x, y, z | x in s && y in s && z in s && less(x, y) && less(y, z) ensures less(x, z) {
      StringLessTransitive(key(x), key(y), key(z));
    }
    forall x, y | x in s && y in s && x != y ensures less(x, y) || less(y, x) {
      StringLessConnected(key(x), key(y));
    }
  }

  ghost function Kept<T>(m: map<string, T>, keep: T -> bool): set<T> {
    set k | k in m && keep(m[k]) :: m[k]
  }

  /** The records of m carry their own key, so no two entries hold the same record. */
  ghost predicate KeyedBy<T>(m: map<string, T>, key: T -> string) {
    forall k <- m :: key(m[k]) == k
  }

  lemma KeptOfAll<T(!new)>(m: map<string, T>, all: T -> bool, p: T -> bool)
    requires forall x :: all(x)
    ensures (set x | x in Kept(m, all) && p(x)) == Kept(m, p)
  {
    forall x ensures x in Kept(m, all) && p(x) <==> x in Kept(m, p) {
      if x in Kept(m, all) && p(x) {
        var k :| k in m && m[k] == x;
      }
      if x in Kept(m, p) {
        var k :| k in m && p(m[k]) && m[k] == x;
        assert all(m[k]);
      }
    }
  }

  lemma KeptOrderTotal<T(!new)>(m: map<string, T>, keep: T -> bool, less: (T, T) -> bool, key: T -> string)
    requires KeyedBy(m, key)
    requires forall x, y :: less(x, y) == StringLess(key(x), key(y))
    ensures TotalOn(less, Kept(m, keep))
  {
    KeyOrderTotal(less, key, Kept(m, keep));
  }

  /**
   * Ranges over a map in an unspecified order, keeps some of the records and sorts them. The result does
   * not depend on the order of iteration.
   */
  method CollectSorted<T(!new, ==)>(m: map<string, T>, keep: T -> bool, less: (T, T) -> bool, ghost key: T -> string)
    returns (r: seq<T>)
    requires KeyedBy(m, key) && TotalOn(less, Kept(m, keep))
    ensures r == SortedSeq(less, Kept(m, keep))
  {
    var out: seq<T> := [];
    var todo := m.Keys;
    while todo != {}
      invariant todo <= m.Keys
      invariant Distinct(out)
      invariant forall x :: x in out <==> exists k <- m :: k !in todo && keep(m[k]) && m[k] == x
    {
      var k :| k in todo;
      todo := todo - {k};
      if keep(m[k]) {
        assert m[k] !in out;
        out := out + [m[k]];
      }
    }
    assert Elements(out) == Kept(m, keep);
    SortSliceIsSortedSeq(less, out, Kept(m, keep));
    r := SortSlice(less, out);
  }
}

/** `Array.prototype.filter`, and the order the datastore applies for
    `.order(column, { ascending })` on a text or date column: lexicographic
    order of the stored strings. The datastore leaves the order of equal keys
    open; the model keeps them in insertion order (a stable sort). */
module Sorting {

  /** `s.filter(p)`. */
  function Filter<T>(s: seq<T>, p: T -> bool): (r: seq<T>)
    ensures |r| <= |s|
    ensures forall i :: 0 <= i < |r| ==> p(r[i])
  {
    if s == [] then []
    else (if p(s[0]) then [s[0]] else []) + Filter(s[1..], p)
  }

  /** The filter keeps exactly the elements that satisfy `p`. */
  lemma {:induction false} FilterMembers<T>(s: seq<T>, p: T -> bool, x: T)
    ensures x in Filter(s, p) <==> x in s && p(x)
  {
    if s != [] {
      FilterMembers(s[1..], p, x);
      assert s == [s[0]] + s[1..];
    }
  }

  /** `FilterMembers` for every element at once. */
  lemma FilterMembersAll<T>(s: seq<T>, p: T -> bool)
    ensures forall x :: x in Filter(s, p) <==> x in s && p(x)
  {
    forall x ensures x in Filter(s, p) <==> x in s && p(x) {
      FilterMembers(s, p, x);
    }
  }

  lemma {:induction false} FilterAppend<T>(a: seq<T>, b: seq<T>, p: T -> bool)
    ensures Filter(a + b, p) == Filter(a, p) + Filter(b, p)
  {
    if a == [] {
      assert a + b == b;
    } else {
      assert (a + b)[1..] == a[1..] + b;
      FilterAppend(a[1..], b, p);
    }
  }

  /** Filtering by two predicates in turn is filtering by both at once. */
  lemma {:induction false} FilterFilter<T>(s: seq<T>, p: T -> bool, q: T -> bool)
    ensures Filter(Filter(s, p), q) == Filter(s, x => p(x) && q(x))
  {
    if s != [] {
      FilterFilter(s[1..], p, q);
      var head := if p(s[0]) then [s[0]] else [];
      FilterAppend(head, Filter(s[1..], p), q);
    }
  }

  lemma {:induction false} FilterMultiset<T>(s: seq<T>, p: T -> bool)
    ensures multiset(Filter(s, p)) <= multiset(s)
  {
    if s != [] {
      FilterMultiset(s[1..], p);
      assert s == [s[0]] + s[1..];
    }
  }

  /** A predicate that holds on no element keeps nothing. */
  lemma {:induction false} FilterNone<T>(s: seq<T>, p: T -> bool)
    requires forall i :: 0 <= i < |s| ==> !p(s[i])
    ensures Filter(s, p) == []
  {
    if s != [] { FilterNone(s[1..], p); }
  }

  /** A predicate that holds on every element keeps everything. */
  lemma {:induction false} FilterAll<T>(s: seq<T>, p: T -> bool)
    requires forall i :: 0 <= i < |s| ==> p(s[i])
    ensures Filter(s, p) == s
  {
    if s != [] {
      FilterAll(s[1..], p);
      assert s == [s[0]] + s[1..];
    }
  }

  /** Filtering depends only on what the predicate says, not on how it is written. */
  lemma {:induction false} FilterSamePredicate<T>(s: seq<T>, p: T -> bool, q: T -> bool)
    requires forall x :: p(x) == q(x)
    ensures Filter(s, p) == Filter(s, q)
  {
    if s != [] { FilterSamePredicate(s[1..], p, q); }
  }

  /** Filtering by a predicate that agrees with `q` on the elements kept by
      `p` is filtering by `q` alone. */
  lemma FilterRedundant<T>(s: seq<T>, p: T -> bool, q: T -> bool)
    requires forall x :: q(x) ==> p(x)
    ensures Filter(Filter(s, p), q) == Filter(s, q)
  {
    FilterFilter(s, p, q);
    FilterSamePredicate(s, x => p(x) && q(x), q);
  }

  /** No two elements share a key (a primary key column). */
  predicate UniqueBy<T>(s: seq<T>, key: T -> string) {
    forall i, j :: 0 <= i < j < |s| ==> key(s[i]) != key(s[j])
  }

  lemma UniqueTail<T>(s: seq<T>, key: T -> string)
    requires s != [] && UniqueBy(s, key)
    ensures UniqueBy(s[1..], key)
  {
    forall i, j | 0 <= i < j < |s| - 1 ensures key(s[1..][i]) != key(s[1..][j]) {
      assert s[1..][i] == s[i + 1] && s[1..][j] == s[j + 1];
    }
  }

  /** With unique keys, a key names one element. */
  lemma SameKeySameElement<T>(s: seq<T>, key: T -> string, x: T, y: T)
    requires UniqueBy(s, key) && x in s && y in s && key(x) == key(y)
    ensures x == y
  {
    var i :| 0 <= i < |s| && s[i] == x;
    var j :| 0 <= j < |s| && s[j] == y;
    assert key(s[i]) == key(s[j]);
    assert i == j;
  }

  /** Inserting a row whose key is new keeps keys unique. */
  lemma AppendUnique<T>(s: seq<T>, x: T, key: T -> string)
    requires UniqueBy(s, key)
    requires forall i :: 0 <= i < |s| ==> key(s[i]) != key(x)
    ensures UniqueBy(s + [x], key)
  {
  }

  /** When the rows `p` selects all share one key, a table with unique keys
      has at most one of them: `.single()` on a key lookup never sees two rows. */
  lemma {:induction false} AtMostOne<T>(s: seq<T>, key: T -> string, p: T -> bool)
    requires UniqueBy(s, key)
    requires forall i, j :: 0 <= i < |s| && 0 <= j < |s| && p(s[i]) && p(s[j]) ==> key(s[i]) == key(s[j])
    ensures |Filter(s, p)| <= 1
  {
    if s != [] {
      var t := s[1..];
      UniqueTail(s, key);
      forall i, j | 0 <= i < |t| && 0 <= j < |t| && p(t[i]) && p(t[j]) ensures key(t[i]) == key(t[j]) {
        assert t[i] == s[i + 1] && t[j] == s[j + 1];
      }
      AtMostOne(t, key, p);
      if p(s[0]) {
        forall i | 0 <= i < |t| ensures !p(t[i]) {
          assert t[i] == s[i + 1];
          assert key(s[0]) != key(s[i + 1]);
        }
        FilterNone(t, p);
      }
    }
  }

  /** In a table with unique keys, a filter keeps exactly one row precisely
      when one row satisfies it and every row that does is that row. */
  lemma FilterSingle<T>(s: seq<T>, key: T -> string, p: T -> bool)
    requires UniqueBy(s, key)
    ensures |Filter(s, p)| == 1 <==> exists x :: x in s && p(x) && forall y :: y in s && p(y) ==> y == x
  {
    if |Filter(s, p)| == 1 {
      SingleFilterIsOnly(s, p);
    }
    if exists x :: x in s && p(x) && forall y :: y in s && p(y) ==> y == x {
      var x :| x in s && p(x) && forall y :: y in s && p(y) ==> y == x;
      OnlyIsSingleFilter(s, key, p, x);
    }
  }

  /** The one element a filter keeps is the only element satisfying `p`. */
  lemma SingleFilterIsOnly<T>(s: seq<T>, p: T -> bool)
    requires |Filter(s, p)| == 1
    ensures Filter(s, p)[0] in s && p(Filter(s, p)[0])
    ensures forall y :: y in s && p(y) ==> y == Filter(s, p)[0]
  {
    var x := Filter(s, p)[0];
    FilterMembers(s, p, x);
    forall y | y in s && p(y) ensures y == x {
      FilterMembers(s, p, y);
    }
  }

  /** With unique keys, the only element satisfying `p` is kept alone. */
  lemma OnlyIsSingleFilter<T>(s: seq<T>, key: T -> string, p: T -> bool, x: T)
    requires UniqueBy(s, key)
    requires x in s && p(x) && forall y :: y in s && p(y) ==> y == x
    ensures |Filter(s, p)| == 1
  {
    FilterMembers(s, p, x);
    forall i, j | 0 <= i < |s| && 0 <= j < |s| && p(s[i]) && p(s[j]) ensures key(s[i]) == key(s[j]) {
      assert s[i] in s && s[j] in s;
    }
    AtMostOne(s, key, p);
  }

  /** Deleting rows keeps keys unique. */
  lemma {:induction false} FilterUnique<T>(s: seq<T>, key: T -> string, p: T -> bool)
    requires UniqueBy(s, key)
    ensures UniqueBy(Filter(s, p), key)
  {
    if s != [] {
      var rest := Filter(s[1..], p);
      assert UniqueBy(s[1..], key) by {
        forall i, j | 0 <= i < j < |s| - 1 ensures key(s[1..][i]) != key(s[1..][j]) {
          assert s[1..][i] == s[i + 1] && s[1..][j] == s[j + 1];
        }
      }
      FilterUnique(s[1..], key, p);
      if p(s[0]) {
        var r := [s[0]] + rest;
        forall i, j | 0 <= i < j < |r| ensures key(r[i]) != key(r[j]) {
          if i == 0 {
            assert r[j] == rest[j - 1];
            FilterMembers(s[1..], p, rest[j - 1]);
            var k :| 0 <= k < |s[1..]| && s[1..][k] == rest[j - 1];
            assert s[k + 1] == r[j];
          } else {
            assert r[i] == rest[i - 1] && r[j] == rest[j - 1];
          }
        }
      }
    }
  }

  /** Lexicographic order of strings by character code (`a <= b` in SQL
      with the C collation). */
  predicate LexLe(a: string, b: string)
    decreases |a|
  {
    a == [] || (b != [] && (a[0] < b[0] || (a[0] == b[0] && LexLe(a[1..], b[1..]))))
  }

  lemma {:induction false} LexLeTotal(a: string, b: string)
    ensures LexLe(a, b) || LexLe(b, a)
    decreases |a|
  {
    if a != [] && b != [] && a[0] == b[0] {
      LexLeTotal(a[1..], b[1..]);
    }
  }

  lemma {:induction false} LexLeTransitive(a: string, b: string, c: string)
    requires LexLe(a, b) && LexLe(b, c)
    ensures LexLe(a, c)
    decreases |a|
  {
    if a != [] && a[0] == b[0] && b[0] == c[0] {
      LexLeTransitive(a[1..], b[1..], c[1..]);
    }
  }

  /** `x` may come before `y` in an ascending (or descending) ordering. */
  predicate InOrder(asc: bool, x: string, y: string) {
    if asc then LexLe(x, y) else LexLe(y, x)
  }

  lemma InOrderTotal(asc: bool, x: string, y: string)
    ensures InOrder(asc, x, y) || InOrder(asc, y, x)
  {
    LexLeTotal(x, y);
  }

  lemma InOrderTransitive(asc: bool, x: string, y: string, z: string)
    requires InOrder(asc, x, y) && InOrder(asc, y, z)
    ensures InOrder(asc, x, z)
  {
    if asc { LexLeTransitive(x, y, z); } else { LexLeTransitive(z, y, x); }
  }

  ghost predicate SortedBy<T>(s: seq<T>, key: T -> string, asc: bool) {
    forall i, j :: 0 <= i < j < |s| ==> InOrder(asc, key(s[i]), key(s[j]))
  }

  /** Places `x` before the first element it may precede. */
  function Insert<T>(x: T, s: seq<T>, key: T -> string, asc: bool): (r: seq<T>)
    ensures multiset(r) == multiset(s) + multiset{x}
  {
    if s == [] || InOrder(asc, key(x), key(s[0])) then [x] + s
    else
      assert s == [s[0]] + s[1..];
      [s[0]] + Insert(x, s[1..], key, asc)
  }

  /** `.order(column, { ascending: asc })` applied to `s`. */
  function SortBy<T>(s: seq<T>, key: T -> string, asc: bool): (r: seq<T>)
    ensures multiset(r) == multiset(s)
  {
    if s == [] then []
    else
      assert s == [s[0]] + s[1..];
      Insert(s[0], SortBy(s[1..], key, asc), key, asc)
  }

  lemma {:induction false} InsertSorted<T>(x: T, s: seq<T>, key: T -> string, asc: bool)
    requires SortedBy(s, key, asc)
    ensures SortedBy(Insert(x, s, key, asc), key, asc)
  {
    if s == [] || InOrder(asc, key(x), key(s[0])) {
      var r := [x] + s;
      forall i, j | 0 <= i < j < |r| ensures InOrder(asc, key(r[i]), key(r[j])) {
        if i == 0 && j > 1 {
          InOrderTransitive(asc, key(x), key(s[0]), key(s[j - 1]));
        }
      }
    } else {
      InsertSorted(x, s[1..], key, asc);
      var t := Insert(x, s[1..], key, asc);
      var r := [s[0]] + t;
      InOrderTotal(asc, key(x), key(s[0]));
      forall i, j | 0 <= i < j < |r| ensures InOrder(asc, key(r[i]), key(r[j])) {
        if i == 0 {
          assert r[j] in multiset(t);
          assert r[j] == x || r[j] in multiset(s[1..]);
          if r[j] != x {
            var k :| 0 <= k < |s[1..]| && s[1..][k] == r[j];
            assert s[k + 1] == r[j];
          }
        }
      }
    }
  }

  /** The rows come back ordered, and they are the same rows. */
  lemma {:induction false} SortBySorted<T>(s: seq<T>, key: T -> string, asc: bool)
    ensures SortedBy(SortBy(s, key, asc), key, asc)
    ensures multiset(SortBy(s, key, asc)) == multiset(s)
  {
    if s != [] {
      SortBySorted(s[1..], key, asc);
      InsertSorted(s[0], SortBy(s[1..], key, asc), key, asc);
    }
  }

  lemma SortedTail<T>(s: seq<T>, key: T -> string, asc: bool)
    requires s != [] && SortedBy(s, key, asc)
    ensures SortedBy(s[1..], key, asc)
  {
    forall i, j | 0 <= i < j < |s| - 1 ensures InOrder(asc, key(s[1..][i]), key(s[1..][j])) {
      assert s[1..][i] == s[i + 1] && s[1..][j] == s[j + 1];
    }
  }

  /** In a sorted sequence, what may precede the head may precede every element. */
  lemma {:induction false} PrecedesAll<T>(x: T, s: seq<T>, key: T -> string, asc: bool, p: T -> bool)
    requires s != [] && SortedBy(s, key, asc) && InOrder(asc, key(x), key(s[0]))
    ensures Filter(s, p) != [] ==> InOrder(asc, key(x), key(Filter(s, p)[0]))
  {
    var fs := Filter(s, p);
    if fs != [] {
      FilterMembers(s, p, fs[0]);
      var k :| 0 <= k < |s| && s[k] == fs[0];
      if k > 0 { InOrderTransitive(asc, key(x), key(s[0]), key(s[k])); }
    }
  }

  lemma {:induction false} FilterInsert<T>(x: T, s: seq<T>, key: T -> string, asc: bool, p: T -> bool)
    requires SortedBy(s, key, asc)
    ensures Filter(Insert(x, s, key, asc), p)
         == if p(x) then Insert(x, Filter(s, p), key, asc) else Filter(s, p)
  {
    if s == [] {
      assert Insert(x, s, key, asc) == [x];
      assert Filter([x], p) == (if p(x) then [x] else []) + Filter([], p);
    } else if InOrder(asc, key(x), key(s[0])) {
      var fs := Filter(s, p);
      assert Insert(x, s, key, asc) == [x] + s;
      assert ([x] + s)[1..] == s;
      assert Filter([x] + s, p) == (if p(x) then [x] else []) + fs;
      PrecedesAll(x, s, key, asc, p);
      if p(x) {
        assert Insert(x, fs, key, asc) == [x] + fs;
      }
    } else {
      var t := Insert(x, s[1..], key, asc);
      var head := if p(s[0]) then [s[0]] else [];
      assert Insert(x, s, key, asc) == [s[0]] + t;
      assert ([s[0]] + t)[1..] == t;
      assert Filter([s[0]] + t, p) == head + Filter(t, p);
      SortedTail(s, key, asc);
      FilterInsert(x, s[1..], key, asc, p);
      var fs1 := Filter(s[1..], p);
      assert Filter(s, p) == head + fs1;
      if p(s[0]) {
        assert (head + fs1)[0] == s[0] && (head + fs1)[1..] == fs1;
        if p(x) {
          assert Insert(x, head + fs1, key, asc) == [s[0]] + Insert(x, fs1, key, asc);
        }
      } else {
        assert head + fs1 == fs1;
        assert head + Filter(t, p) == Filter(t, p);
      }
    }
  }

  /** Filtering commutes with the stable sort: the rows of one owner, taken
      from the ordered rows of many owners, are that owner's rows in order. */
  lemma {:induction false} FilterSortBy<T>(s: seq<T>, key: T -> string, asc: bool, p: T -> bool)
    ensures Filter(SortBy(s, key, asc), p) == SortBy(Filter(s, p), key, asc)
  {
    if s != [] {
      var rest := SortBy(s[1..], key, asc);
      SortBySorted(s[1..], key, asc);
      FilterInsert(s[0], rest, key, asc, p);
      FilterSortBy(s[1..], key, asc, p);
      var fs := Filter(s[1..], p);
      if p(s[0]) {
        assert Filter(s, p) == [s[0]] + fs;
        assert ([s[0]] + fs)[0] == s[0] && ([s[0]] + fs)[1..] == fs;
        assert SortBy([s[0]] + fs, key, asc) == Insert(s[0], SortBy(fs, key, asc), key, asc);
      } else {
        assert Filter(s, p) == fs;
      }
    }
  }
}

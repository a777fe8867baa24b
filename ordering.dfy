/** Sorting: JavaScript's `<` on cell values, the three-way comparator shape every viewer passes to
    `sort`, and `Array.prototype.sort` itself as a stable insertion sort on values. */
module Ordering {
  import opened Base
  import opened JsStrings
  import opened JsValues

  datatype Direction = Asc | Desc

  /** `a < b` on two cells: numbers by value and strings by character code. JavaScript converts
      mixed operands to numbers; here they are incomparable (neither is less). */
  predicate JsLess(a: Val, b: Val) {
    if a.Num? && b.Num? then a.n < b.n
    else if a.Str? && b.Str? then StrLess(a.s, b.s)
    else false
  }

  /** `<` on cells is a strict partial order. */
  lemma JsLessStrictOrder(a: Val, b: Val, c: Val)
    ensures !JsLess(a, a)
    ensures JsLess(a, b) ==> !JsLess(b, a)
    ensures JsLess(a, b) && JsLess(b, c) ==> JsLess(a, c)
  {
    if a.Str? {
      StrLessIrreflexive(a.s);
    }
    if a.Str? && b.Str? && JsLess(a, b) && JsLess(b, a) {
      StrLessTransitive(a.s, b.s, a.s);
    }
    if a.Str? && b.Str? && c.Str? && JsLess(a, b) && JsLess(b, c) {
      StrLessTransitive(a.s, b.s, c.s);
    }
  }

  /** The comparator body shared by the viewers:
      `if (a < b) return asc ? -1 : 1; if (a > b) return asc ? 1 : -1; return 0`. */
  function Compare(a: Val, b: Val, dir: Direction): (r: int)
    ensures -1 <= r <= 1
    ensures r < 0 <==> if dir == Asc then JsLess(a, b) else JsLess(b, a)
    ensures r > 0 <==> if dir == Asc then JsLess(b, a) else JsLess(a, b)
  {
    JsLessStrictOrder(a, b, a);
    if JsLess(a, b) then (if dir == Asc then -1 else 1)
    else if JsLess(b, a) then (if dir == Asc then 1 else -1)
    else 0
  }

  /** `desc` is `asc` with the sign reversed, or equally with the operands swapped. */
  lemma CompareDesc(a: Val, b: Val)
    ensures Compare(a, b, Desc) == -Compare(a, b, Asc)
    ensures Compare(a, b, Desc) == Compare(b, a, Asc)
  {
    JsLessStrictOrder(a, b, a);
  }

  /** Insert `x` into a sorted sequence after every element it is not less than (so stably). */
  function Insert<T>(x: T, s: seq<T>, cmp: (T, T) -> int): (r: seq<T>)
    ensures multiset(r) == multiset(s) + multiset{x}
    ensures |r| == |s| + 1
  {
    if s == [] then [x]
    else if cmp(x, s[0]) < 0 then [x] + s
    else
      assert s == [s[0]] + s[1..];
      [s[0]] + Insert(x, s[1..], cmp)
  }

  /** `Array.prototype.sort(cmp)` on a copy of `s`: stable insertion sort. */
  function SortWith<T>(s: seq<T>, cmp: (T, T) -> int): (r: seq<T>)
    ensures multiset(r) == multiset(s)
    ensures |r| == |s|
  {
    if s == [] then []
    else
      assert s == s[..|s| - 1] + [s[|s| - 1]];
      Insert(s[|s| - 1], SortWith(s[..|s| - 1], cmp), cmp)
  }

  /** No element is strictly less than (by `cmp`) one before it. */
  ghost predicate SortedBy<T>(s: seq<T>, cmp: (T, T) -> int) {
    forall i, j :: 0 <= i < j < |s| ==> cmp(s[j], s[i]) >= 0
  }

  /** `cmp(x, y) < 0` is a strict order on the elements of `s`: irreflexive and transitive. */
  ghost predicate StrictOn<T>(cmp: (T, T) -> int, s: seq<T>) {
    (forall a :: a in s ==> cmp(a, a) >= 0)
    && (forall a, b, c :: a in s && b in s && c in s && cmp(a, b) < 0 && cmp(b, c) < 0 ==> cmp(a, c) < 0)
  }

  /** Putting `x` in front of a sorted `s` whose head it is less than keeps it sorted. */
  lemma InsertFront<T>(x: T, s: seq<T>, cmp: (T, T) -> int)
    requires s != [] && cmp(x, s[0]) < 0
    requires SortedBy(s, cmp) && StrictOn(cmp, [x] + s)
    ensures SortedBy([x] + s, cmp)
  {
    var r := [x] + s;
    forall j | 0 <= j < |s|
      ensures cmp(s[j], x) >= 0
    {
      assert s[j] in r && s[0] in r && x in r;
      if j > 0 {
        assert cmp(s[j], s[0]) >= 0;
      }
    }
    assert forall i, j :: 0 <= i < j < |r| ==> (i == 0 && r[j] == s[j - 1]) || (r[i] == s[i - 1] && r[j] == s[j - 1]);
  }

  /** Keeping the head of a sorted `s` in front of the sorted rest-with-`x`, when `x` is not less
      than that head. */
  lemma InsertBehind<T>(x: T, s: seq<T>, t: seq<T>, cmp: (T, T) -> int)
    requires s != [] && cmp(x, s[0]) >= 0
    requires SortedBy(s, cmp) && SortedBy(t, cmp)
    requires multiset(t) == multiset(s[1..]) + multiset{x}
    ensures SortedBy([s[0]] + t, cmp)
  {
    var r := [s[0]] + t;
    forall j | 0 <= j < |t|
      ensures cmp(t[j], s[0]) >= 0
    {
      assert t[j] in multiset(t);
      if t[j] != x {
        assert t[j] in multiset(s[1..]);
        assert t[j] in s[1..];
        var k :| 0 <= k < |s[1..]| && s[1..][k] == t[j];
        assert s[k + 1] == t[j];
      }
    }
    assert forall i, j :: 0 <= i < j < |r| ==> (i == 0 && r[j] == t[j - 1]) || (r[i] == t[i - 1] && r[j] == t[j - 1]);
  }

  lemma {:induction false} InsertSorted<T>(x: T, s: seq<T>, cmp: (T, T) -> int)
    requires SortedBy(s, cmp) && StrictOn(cmp, [x] + s)
    ensures SortedBy(Insert(x, s, cmp), cmp)
  {
    if s != [] {
      if cmp(x, s[0]) < 0 {
        InsertFront(x, s, cmp);
      } else {
        assert SortedBy(s[1..], cmp);
        assert forall y :: y in [x] + s[1..] ==> y in [x] + s;
        InsertSorted(x, s[1..], cmp);
        InsertBehind(x, s, Insert(x, s[1..], cmp), cmp);
      }
    }
  }

  /** With a comparator that is a strict order on the elements, the sort's result is sorted. */
  lemma {:induction false} SortSorted<T>(s: seq<T>, cmp: (T, T) -> int)
    requires StrictOn(cmp, s)
    ensures SortedBy(SortWith(s, cmp), cmp)
  {
    if s != [] {
      var p := s[..|s| - 1];
      var x := s[|s| - 1];
      assert forall y :: y in p ==> y in s;
      SortSorted(p, cmp);
      var q := SortWith(p, cmp);
      assert forall y :: y in [x] + q ==> y in s by {
        forall y | y in [x] + q
          ensures y in s
        {
          if y != x {
            assert y in multiset(q);
          }
        }
      }
      InsertSorted(x, q, cmp);
    }
  }

  /** The elements whose key is `v`. */
  function KeyIs<T, K(==)>(key: T -> K, v: K): T -> bool {
    (z: T) => key(z) == v
  }

  /** `cmp` looks at its first operand through `key` only. */
  ghost predicate KeyDetermined<T(!new), K>(cmp: (T, T) -> int, key: T -> K) {
    forall a, b, c :: key(a) == key(c) ==> cmp(a, b) == cmp(c, b)
  }

  /** When `x` goes in front of a sorted sequence, no element of it shares the key of `x`. */
  lemma InsertTiesFront<T(!new), K>(x: T, q: seq<T>, cmp: (T, T) -> int, key: T -> K, v: K)
    requires q != [] && cmp(x, q[0]) < 0
    requires SortedBy(q, cmp) && StrictOn(cmp, [x] + q) && KeyDetermined(cmp, key)
    ensures Filter([x] + q, KeyIs(key, v)) == Filter(q, KeyIs(key, v)) + Filter([x], KeyIs(key, v))
  {
    var p := KeyIs(key, v);
    FilterAppend([x], q, p);
    if key(x) == v {
      forall k | 0 <= k < |q|
        ensures !p(q[k])
      {
        assert q[0] in [x] + q;
        assert cmp(q[k], q[0]) >= 0;
      }
      FilterNone(q, p);
    } else {
      assert Filter([x], p) == [] by {
        assert [x][1..] == [];
      }
    }
  }

  /** Filtering distributes over keeping the head of `q` in front of `t`. */
  lemma FilterConsTies<T(!new)>(q: seq<T>, t: seq<T>, xs: seq<T>, p: T -> bool)
    requires q != [] && Filter(t, p) == Filter(q[1..], p) + Filter(xs, p)
    ensures Filter([q[0]] + t, p) == Filter(q, p) + Filter(xs, p)
  {
    assert q == [q[0]] + q[1..];
    FilterAppend([q[0]], t, p);
    FilterAppend([q[0]], q[1..], p);
  }

  /** Inserting `x` into a sorted sequence puts it after every element with the same key. */
  lemma {:induction false} InsertKeepsTies<T(!new), K>(x: T, q: seq<T>, cmp: (T, T) -> int, key: T -> K, v: K)
    requires SortedBy(q, cmp) && StrictOn(cmp, [x] + q) && KeyDetermined(cmp, key)
    ensures Filter(Insert(x, q, cmp), KeyIs(key, v)) == Filter(q, KeyIs(key, v)) + Filter([x], KeyIs(key, v))
  {
    var p := KeyIs(key, v);
    if q == [] {
      assert Insert(x, q, cmp) == [x];
    } else if cmp(x, q[0]) < 0 {
      assert Insert(x, q, cmp) == [x] + q;
      InsertTiesFront(x, q, cmp, key, v);
    } else {
      assert Insert(x, q, cmp) == [q[0]] + Insert(x, q[1..], cmp);
      assert SortedBy(q[1..], cmp);
      assert forall y :: y in [x] + q[1..] ==> y in [x] + q;
      InsertKeepsTies(x, q[1..], cmp, key, v);
      FilterConsTies(q, Insert(x, q[1..], cmp), [x], p);
    }
  }

  /** The sort is stable: with a comparator that is a strict order and looks at elements through
      `key` only, the elements with any one key keep their input order. */
  lemma {:induction false} SortStable<T(!new), K>(s: seq<T>, cmp: (T, T) -> int, key: T -> K, v: K)
    requires StrictOn(cmp, s) && KeyDetermined(cmp, key)
    ensures Filter(SortWith(s, cmp), KeyIs(key, v)) == Filter(s, KeyIs(key, v))
  {
    if s != [] {
      var init := s[..|s| - 1];
      var x := s[|s| - 1];
      assert s == init + [x];
      assert forall y :: y in init ==> y in s;
      SortStable(init, cmp, key, v);
      SortSorted(init, cmp);
      var q := SortWith(init, cmp);
      assert forall y :: y in [x] + q ==> y in s by {
        forall y | y in [x] + q
          ensures y in s
        {
          if y != x {
            assert y in multiset(q);
          }
        }
      }
      InsertKeepsTies(x, q, cmp, key, v);
      FilterAppend(init, [x], KeyIs(key, v));
    }
  }

  /** The comparator that compares one field of each element with `Compare`. */
  function KeyCmp<T>(key: T -> Val, dir: Direction): (T, T) -> int {
    (a: T, b: T) => Compare(key(a), key(b), dir)
  }

  lemma KeyCmpStrict<T>(key: T -> Val, dir: Direction, s: seq<T>)
    ensures StrictOn(KeyCmp(key, dir), s)
  {
    forall a, b, c | a in s && b in s && c in s
      ensures KeyCmp(key, dir)(a, a) >= 0
      ensures KeyCmp(key, dir)(a, b) < 0 && KeyCmp(key, dir)(b, c) < 0 ==> KeyCmp(key, dir)(a, c) < 0
    {
      JsLessStrictOrder(key(a), key(b), key(c));
      JsLessStrictOrder(key(c), key(b), key(a));
    }
  }

  /** Sorting by one field: the result is a permutation, and ascending (descending) means no
      element's key is below (above) the key of an element before it; on numeric keys this is
      numeric order. */
  lemma SortByKey<T>(s: seq<T>, key: T -> Val, dir: Direction)
    ensures multiset(SortWith(s, KeyCmp(key, dir))) == multiset(s)
    ensures var r := SortWith(s, KeyCmp(key, dir));
      forall i, j :: 0 <= i < j < |r| ==>
        if dir == Asc then !JsLess(key(r[j]), key(r[i])) else !JsLess(key(r[i]), key(r[j]))
    ensures var r := SortWith(s, KeyCmp(key, dir));
      forall i, j :: 0 <= i < j < |r| && key(r[i]).Num? && key(r[j]).Num? ==>
        if dir == Asc then key(r[i]).n <= key(r[j]).n else key(r[i]).n >= key(r[j]).n
  {
    KeyCmpStrict(key, dir, s);
    SortSorted(s, KeyCmp(key, dir));
  }

  /** Sorting by one field is stable: the elements with equal values of that field keep their
      input order. */
  lemma SortByKeyStable<T(!new)>(s: seq<T>, key: T -> Val, dir: Direction, v: Val)
    ensures Filter(SortWith(s, KeyCmp(key, dir)), KeyIs(key, v)) == Filter(s, KeyIs(key, v))
  {
    KeyCmpStrict(key, dir, s);
    SortStable(s, KeyCmp(key, dir), key, v);
  }
}

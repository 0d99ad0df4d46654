/**
 The column sort shared by the claims list and the W9 validation panel.

 Both tables sort a copy of the filtered rows with `Array.prototype.sort`,
 which is stable, using a comparator on one string-valued column and a
 direction flag. String comparison is JavaScript's `<` on strings: the
 lexicographic order on characters.
 */
module Sorting {
  import opened Text

  datatype Direction = Asc | Desc

  /** A table's `sortConfig`: the column sorted on, if any, and the direction. */
  datatype SortConfig<K> = SortConfig(key: Option<K>, direction: Direction)

  /**
   A header click (`requestSort` in the claims list, the inline handlers in
   the W9 panel): the clicked column becomes the key, and the direction turns
   descending only when that column was already the ascending key.
   */
  function RequestSort<K(==)>(cfg: SortConfig<K>, k: K): (r: SortConfig<K>)
    ensures r.key == Some(k)
    ensures r.direction == Desc <==> cfg.key == Some(k) && cfg.direction == Asc
  {
    SortConfig(Some(k), if cfg.key == Some(k) && cfg.direction == Asc then Desc else Asc)
  }

  /** Clicking the same header again always reverses the direction it just set. */
  lemma RequestSortTwiceFlips<K>(cfg: SortConfig<K>, k: K)
    ensures RequestSort(RequestSort(cfg, k), k).direction != RequestSort(cfg, k).direction
  {
  }

  /** JavaScript's `a < b` on strings. */
  predicate LexLess(a: string, b: string) {
    if a == [] then b != []
    else if b == [] then false
    else a[0] < b[0] || (a[0] == b[0] && LexLess(a[1..], b[1..]))
  }

  lemma {:induction false} LexLessIrreflexive(a: string)
    ensures !LexLess(a, a)
  {
    if a != [] {
      LexLessIrreflexive(a[1..]);
    }
  }

  lemma {:induction false} LexLessTransitive(a: string, b: string, c: string)
    requires LexLess(a, b) && LexLess(b, c)
    ensures LexLess(a, c)
  {
    if a != [] && b != [] && c != [] && a[0] == b[0] == c[0] {
      LexLessTransitive(a[1..], b[1..], c[1..]);
    }
  }

  lemma {:induction false} LexLessTotal(a: string, b: string)
    ensures a == b || LexLess(a, b) || LexLess(b, a)
  {
    if a != [] && b != [] && a[0] == b[0] {
      LexLessTotal(a[1..], b[1..]);
      if a[1..] == b[1..] {
        assert a == [a[0]] + a[1..] && b == [b[0]] + b[1..];
      }
    }
  }

  /** Key `a` may stand before key `b` when sorting in direction `dir`. */
  predicate InOrder(dir: Direction, a: string, b: string) {
    match dir
    case Asc => !LexLess(b, a)
    case Desc => !LexLess(a, b)
  }

  lemma InOrderTotal(dir: Direction, a: string, b: string)
    ensures InOrder(dir, a, b) || InOrder(dir, b, a)
  {
    LexLessTotal(a, b);
    if a == b {
      LexLessIrreflexive(a);
    } else if LexLess(a, b) && LexLess(b, a) {
      LexLessTransitive(a, b, a);
      LexLessIrreflexive(a);
    }
  }

  lemma InOrderTransitive(dir: Direction, a: string, b: string, c: string)
    requires InOrder(dir, a, b) && InOrder(dir, b, c)
    ensures InOrder(dir, a, c)
  {
    match dir
    case Asc =>
      if LexLess(c, a) {
        LexLessTotal(a, b);
        LexLessTotal(b, c);
        if a == b {
        } else if b == c {
        } else {
          LexLessTransitive(a, b, c);
          LexLessTransitive(c, a, c);
          LexLessIrreflexive(c);
        }
      }
    case Desc =>
      if LexLess(a, c) {
        LexLessTotal(a, b);
        LexLessTotal(b, c);
        if a == b {
        } else if b == c {
        } else {
          LexLessTransitive(c, b, a);
          LexLessTransitive(a, c, a);
          LexLessIrreflexive(a);
        }
      }
  }

  /** Every earlier row's key may stand before every later row's key. */
  predicate SortedBy<T>(xs: seq<T>, key: T -> string, dir: Direction) {
    forall i, j :: 0 <= i < j < |xs| ==> InOrder(dir, key(xs[i]), key(xs[j]))
  }

  /** Places `x` before the first row it may precede, after every row that must precede it. */
  function Insert<T>(x: T, xs: seq<T>, key: T -> string, dir: Direction): (r: seq<T>)
    requires SortedBy(xs, key, dir)
    ensures multiset(r) == multiset(xs) + multiset{x}
    ensures SortedBy(r, key, dir)
  {
    if xs == [] then [x]
    else if InOrder(dir, key(x), key(xs[0])) then
      assert forall j :: 0 < j < |xs| ==> InOrder(dir, key(x), key(xs[j])) by {
        forall j | 0 < j < |xs| ensures InOrder(dir, key(x), key(xs[j])) {
          InOrderTransitive(dir, key(x), key(xs[0]), key(xs[j]));
        }
      }
      [x] + xs
    else
      InOrderTotal(dir, key(x), key(xs[0]));
      var rest := Insert(x, xs[1..], key, dir);
      assert xs == [xs[0]] + xs[1..];
      assert forall j :: 0 <= j < |rest| ==> InOrder(dir, key(xs[0]), key(rest[j])) by {
        forall j | 0 <= j < |rest| ensures InOrder(dir, key(xs[0]), key(rest[j])) {
          assert rest[j] in multiset(rest);
          if rest[j] != x {
            assert rest[j] in multiset(xs[1..]);
            var k :| 0 <= k < |xs[1..]| && xs[1..][k] == rest[j];
            assert xs[k + 1] == rest[j];
          }
        }
      }
      [xs[0]] + rest
  }

  /** Insertion sort of `xs` by `key` in direction `dir`; `SortByStable` states that it is stable. */
  function SortBy<T>(xs: seq<T>, key: T -> string, dir: Direction): (r: seq<T>)
    ensures multiset(r) == multiset(xs)
    ensures SortedBy(r, key, dir)
  {
    if xs == [] then []
    else
      assert xs == [xs[0]] + xs[1..];
      Insert(xs[0], SortBy(xs[1..], key, dir), key, dir)
  }

  /** `xs.filter(p)`: the rows that satisfy `p`, in their original order. */
  function Keep<T(!new)>(xs: seq<T>, p: T -> bool): (r: seq<T>)
    ensures |r| <= |xs|
    ensures forall x :: x in r <==> x in xs && p(x)
    ensures (forall i :: 0 <= i < |xs| ==> p(xs[i])) ==> r == xs
  {
    if xs == [] then [] else (if p(xs[0]) then [xs[0]] else []) + Keep(xs[1..], p)
  }

  /** `filter` keeps order and multiplicity: it distributes over concatenation. */
  lemma {:induction false} KeepConcat<T(!new)>(a: seq<T>, b: seq<T>, p: T -> bool)
    ensures Keep(a + b, p) == Keep(a, p) + Keep(b, p)
  {
    if a != [] {
      assert (a + b)[1..] == a[1..] + b;
      KeepConcat(a[1..], b, p);
    } else {
      assert a + b == b;
    }
  }

  /** The rows whose key is `v`. */
  function KeyIs<T>(key: T -> string, v: string): T -> bool {
    y => key(y) == v
  }

  /** Inserting `x` leaves the rows with any one key in their order, `x` first among its ties. */
  lemma {:induction false} InsertKeepsTies<T(!new)>(x: T, ys: seq<T>, key: T -> string, dir: Direction, v: string)
    requires SortedBy(ys, key, dir)
    ensures Keep(Insert(x, ys, key, dir), KeyIs(key, v)) == (if key(x) == v then [x] else []) + Keep(ys, KeyIs(key, v))
    decreases |ys|
  {
    var p := KeyIs(key, v);
    if ys == [] {
      KeepCons(x, [], p);
    } else if InOrder(dir, key(x), key(ys[0])) {
      InsertInFront(x, ys, key, dir);
      KeepCons(x, ys, p);
    } else {
      InsertPastFirst(x, ys, key, dir);
      InsertKeepsTies(x, ys[1..], key, dir, v);
      KeepCons(ys[0], Insert(x, ys[1..], key, dir), p);
      KeepCons(ys[0], ys[1..], p);
    }
  }

  lemma InsertInFront<T>(x: T, ys: seq<T>, key: T -> string, dir: Direction)
    requires SortedBy(ys, key, dir) && ys != [] && InOrder(dir, key(x), key(ys[0]))
    ensures Insert(x, ys, key, dir) == [x] + ys
  {
  }

  /** `x` goes past a first row that must precede it, which therefore has a different key. */
  lemma InsertPastFirst<T>(x: T, ys: seq<T>, key: T -> string, dir: Direction)
    requires SortedBy(ys, key, dir) && ys != [] && !InOrder(dir, key(x), key(ys[0]))
    ensures key(ys[0]) != key(x)
    ensures SortedBy(ys[1..], key, dir)
    ensures Insert(x, ys, key, dir) == [ys[0]] + Insert(x, ys[1..], key, dir)
    ensures ys == [ys[0]] + ys[1..]
  {
    LexLessIrreflexive(key(x));
    assert InOrder(dir, key(x), key(x));
    var tail := ys[1..];
    forall i, j | 0 <= i < j < |tail| ensures InOrder(dir, key(tail[i]), key(tail[j])) {
      assert tail[i] == ys[i + 1] && tail[j] == ys[j + 1];
    }
    assert ys == [ys[0]] + tail;
  }

  /** `filter` on a list with a first element. */
  lemma KeepCons<T(!new)>(y: T, rest: seq<T>, p: T -> bool)
    ensures Keep([y] + rest, p) == (if p(y) then [y] else []) + Keep(rest, p)
  {
    assert ([y] + rest)[1..] == rest;
  }

  /** The sort is stable: rows with equal keys keep their relative order. */
  lemma {:induction false} SortByStable<T(!new)>(xs: seq<T>, key: T -> string, dir: Direction, v: string)
    ensures Keep(SortBy(xs, key, dir), KeyIs(key, v)) == Keep(xs, KeyIs(key, v))
  {
    if xs != [] {
      SortByStable(xs[1..], key, dir, v);
      InsertKeepsTies(xs[0], SortBy(xs[1..], key, dir), key, dir, v);
    }
  }

  /** Sorting keeps the row count. */
  lemma SortByLength<T>(xs: seq<T>, key: T -> string, dir: Direction)
    ensures |SortBy(xs, key, dir)| == |xs|
  {
    assert |multiset(SortBy(xs, key, dir))| == |multiset(xs)|;
  }

  /** `xs.reverse()`. */
  function Reverse<T>(xs: seq<T>): (r: seq<T>)
    ensures |r| == |xs|
    ensures forall i :: 0 <= i < |xs| ==> r[i] == xs[|xs| - 1 - i]
  {
    if xs == [] then [] else Reverse(xs[1..]) + [xs[0]]
  }

  /** The opposite direction. */
  function Flip(dir: Direction): Direction {
    if dir == Asc then Desc else Asc
  }

  /** Rows sorted in one direction, reversed, are sorted in the other. */
  lemma ReverseFlipsOrder<T>(xs: seq<T>, key: T -> string, dir: Direction)
    requires SortedBy(xs, key, dir)
    ensures SortedBy(Reverse(xs), key, Flip(dir))
  {
    var r := Reverse(xs);
    forall i, j | 0 <= i < j < |r| ensures InOrder(Flip(dir), key(r[i]), key(r[j])) {
      assert InOrder(dir, key(xs[|xs| - 1 - j]), key(xs[|xs| - 1 - i]));
    }
  }
}

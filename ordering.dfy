/**
 * `listaOrdenada`: a copy of the filtered places, sorted in place by the chosen key.
 * JavaScript's `Array.prototype.sort` is stable, so for a comparator that is a total
 * preorder its result is the stable sort, modelled here by insertion sort.
 */
module Ordering {
  import opened Entities
  import opened Collections
  import opened Ratings

  /** `le(a, b)`: the comparator lets `a` stay before `b` (`compare(a, b) <= 0`). */
  ghost predicate TotalPreorder<T(!new)>(le: (T, T) -> bool) {
    && (forall a, b :: le(a, b) || le(b, a))
    && (forall a, b, c :: le(a, b) && le(b, c) ==> le(a, c))
  }

  ghost predicate Sorted<T>(s: seq<T>, le: (T, T) -> bool) {
    forall i, j | 0 <= i < j < |s| :: le(s[i], s[j])
  }

  /** The elements the comparator cannot tell apart from `c`. */
  function TiesWith<T>(le: (T, T) -> bool, c: T): T -> bool {
    (y: T) => le(y, c) && le(c, y)
  }

  /** Inserts `x` into `s` from the right, after every element it may follow. */
  function Insert<T>(s: seq<T>, x: T, le: (T, T) -> bool): (r: seq<T>)
    ensures |r| == |s| + 1
    decreases |s|
  {
    if s == [] then [x]
    else if le(s[|s| - 1], x) then s + [x]
    else Insert(s[..|s| - 1], x, le) + [s[|s| - 1]]
  }

  /** Stable insertion sort: each element, in input order, is inserted into the sorted prefix. */
  function InsertionSort<T>(s: seq<T>, le: (T, T) -> bool): (r: seq<T>)
    ensures |r| == |s|
    decreases |s|
  {
    if s == [] then [] else Insert(InsertionSort(s[..|s| - 1], le), s[|s| - 1], le)
  }

  lemma {:induction false} InsertPermutes<T>(s: seq<T>, x: T, le: (T, T) -> bool)
    ensures multiset(Insert(s, x, le)) == multiset(s) + multiset{x}
  {
    if s != [] && !le(s[|s| - 1], x) {
      var init := s[..|s| - 1];
      InsertPermutes(init, x, le);
      assert s == init + [s[|s| - 1]];
    }
  }

  /** Sorting only rearranges: the result is a permutation of the input. */
  lemma {:induction false} SortPermutes<T>(s: seq<T>, le: (T, T) -> bool)
    ensures multiset(InsertionSort(s, le)) == multiset(s)
  {
    if s != [] {
      var init := s[..|s| - 1];
      SortPermutes(init, le);
      InsertPermutes(InsertionSort(init, le), s[|s| - 1], le);
      assert s == init + [s[|s| - 1]];
    }
  }

  lemma {:induction false} InsertSorted<T(!new)>(s: seq<T>, x: T, le: (T, T) -> bool)
    requires TotalPreorder(le) && Sorted(s, le)
    ensures Sorted(Insert(s, x, le), le)
  {
    if s != [] && !le(s[|s| - 1], x) {
      var init, last := s[..|s| - 1], s[|s| - 1];
      assert Sorted(init, le);
      InsertSorted(init, x, le);
      var t := Insert(init, x, le);
      InsertPermutes(init, x, le);
      forall y | y in t ensures le(y, last) {
        assert y in multiset(t);
        if y != x {
          assert y in init;
          var i :| 0 <= i < |init| && init[i] == y;
          assert s[i] == y;
        }
      }
    }
  }

  /** Given a total preorder, the result is in the comparator's order. */
  lemma {:induction false} SortSorted<T(!new)>(s: seq<T>, le: (T, T) -> bool)
    requires TotalPreorder(le)
    ensures Sorted(InsertionSort(s, le), le)
  {
    if s != [] {
      SortSorted(s[..|s| - 1], le);
      InsertSorted(InsertionSort(s[..|s| - 1], le), s[|s| - 1], le);
    }
  }

  lemma FilterSingleton<T(!new)>(y: T, p: T -> bool)
    ensures Filter([y], p) == if p(y) then [y] else []
  {
    assert [y][1..] == [];
  }

  /** An element that must come after `x` cannot be tied with `c` when `x` is. */
  lemma NotBothTied<T(!new)>(x: T, last: T, le: (T, T) -> bool, c: T)
    requires TotalPreorder(le) && !le(last, x)
    ensures !(TiesWith(le, c)(x) && TiesWith(le, c)(last))
  {
  }

  lemma {:induction false} InsertStable<T(!new)>(s: seq<T>, x: T, le: (T, T) -> bool, c: T)
    requires TotalPreorder(le)
    ensures Filter(Insert(s, x, le), TiesWith(le, c)) == Filter(s, TiesWith(le, c)) + Filter([x], TiesWith(le, c))
  {
    var p := TiesWith(le, c);
    if s == [] {
      assert Filter(s, p) == [];
    } else if le(s[|s| - 1], x) {
      FilterAppend(s, [x], p);
    } else {
      var init, last := s[..|s| - 1], s[|s| - 1];
      assert s == init + [last];
      var fx, fl := Filter([x], p), Filter([last], p);
      NotBothTied(x, last, le, c);
      var f := Filter(init, p);
      assert f + fx + fl == f + fl + fx by {
        FilterSingleton(x, p);
        FilterSingleton(last, p);
        if fx == [] {
          assert f + fx == f;
          assert f + fl + fx == f + fl;
        } else {
          assert fl == [];
          assert f + fl == f;
          assert f + fx + fl == f + fx;
        }
      }
      calc {
        Filter(Insert(s, x, le), p);
        Filter(Insert(init, x, le) + [last], p);
        { FilterAppend(Insert(init, x, le), [last], p); }
        Filter(Insert(init, x, le), p) + fl;
        { InsertStable(init, x, le, c); }
        f + fx + fl;
        f + fl + fx;
        { FilterAppend(init, [last], p); }
        Filter(s, p) + fx;
      }
    }
  }

  /** Stability: the elements tied with any `c` keep their relative input order. */
  lemma {:induction false} SortStable<T(!new)>(s: seq<T>, le: (T, T) -> bool, c: T)
    requires TotalPreorder(le)
    ensures Filter(InsertionSort(s, le), TiesWith(le, c)) == Filter(s, TiesWith(le, c))
  {
    if s != [] {
      var init, last := s[..|s| - 1], s[|s| - 1];
      assert s == init + [last];
      SortStable(init, le, c);
      InsertStable(InsertionSort(init, le), last, le, c);
      FilterAppend(init, [last], TiesWith(le, c));
    }
  }

  /** `x` is inserted right after the last element it may follow, when everything after that must follow `x`. */
  lemma {:induction false} InsertAt<T>(s: seq<T>, j: int, x: T, le: (T, T) -> bool)
    requires 0 <= j <= |s|
    requires j == 0 || le(s[j - 1], x)
    requires forall k :: j <= k < |s| ==> !le(s[k], x)
    ensures Insert(s, x, le) == s[..j] + [x] + s[j..]
    decreases |s|
  {
    if |s| == j {
      assert s[..j] == s && s[j..] == [];
      if j == 0 {
        assert Insert(s, x, le) == [x];
      } else {
        assert Insert(s, x, le) == s + [x];
      }
    } else {
      var init, last := s[..|s| - 1], s[|s| - 1];
      assert !le(last, x);
      assert Insert(s, x, le) == Insert(init, x, le) + [last];
      assert j == 0 || le(init[j - 1], x);
      assert forall k :: j <= k < |init| ==> init[k] == s[k];
      InsertAt(init, j, x, le);
      var front, back := init[..j], init[j..];
      assert front == s[..j];
      assert back + [last] == s[j..];
      assert front + [x] + back + [last] == front + [x] + (back + [last]);
    }
  }

  /** The array contents after the shift and the final write, read as a sequence. */
  lemma ShiftedInsert<T>(b: seq<T>, sorted: seq<T>, j: int, x: T)
    requires 0 <= j <= |sorted| < |b|
    requires forall k :: 0 <= k < j ==> b[k] == sorted[k]
    requires b[j] == x
    requires forall k :: j < k <= |sorted| ==> b[k] == sorted[k - 1]
    ensures b[..|sorted| + 1] == sorted[..j] + [x] + sorted[j..]
  {
    var result := sorted[..j] + [x] + sorted[j..];
    forall k | 0 <= k <= |sorted| ensures b[k] == result[k] {
      if k < j {
        assert result[k] == sorted[k];
      } else if k > j {
        assert result[k] == sorted[k - 1];
      }
    }
  }

  /** Inserts `a[i]` into the sorted prefix `a[..i]`, shifting the elements it may not follow one place right. */
  method InsertLast<T>(a: array<T>, i: int, le: (T, T) -> bool)
    requires 0 <= i < a.Length
    modifies a
    ensures a[..i + 1] == Insert(old(a[..i]), old(a[i]), le)
    ensures a[i + 1..] == old(a[i + 1..])
  {
    var x := a[i];
    ghost var sorted := a[..i];
    var j := i;
    while j > 0 && !le(a[j - 1], x)
      invariant 0 <= j <= i
      invariant forall k :: 0 <= k < j ==> a[k] == sorted[k]
      invariant forall k :: j < k <= i ==> a[k] == sorted[k - 1]
      invariant forall k :: i < k < a.Length ==> a[k] == old(a[k])
      invariant forall k :: j <= k < i ==> !le(sorted[k], x)
    {
      a[j] := a[j - 1];
      j := j - 1;
    }
    InsertAt(sorted, j, x, le);
    a[j] := x;
    ShiftedInsert(a[..], sorted, j, x);
    assert a[i + 1..] == old(a[i + 1..]);
  }

  /** `arr.sort(cmp)` on an array: afterwards the array holds the stable sort of what it held. */
  method SortInPlace<T>(a: array<T>, le: (T, T) -> bool)
    modifies a
    ensures a[..] == InsertionSort(old(a[..]), le)
  {
    ghost var input := a[..];
    var i := 0;
    while i < a.Length
      invariant 0 <= i <= a.Length
      invariant a[..i] == InsertionSort(input[..i], le)
      invariant a[i..] == input[i..]
    {
      assert input[..i + 1][..i] == input[..i];
      InsertLast(a, i, le);
      i := i + 1;
    }
    assert a[..] == a[..a.Length];
    assert input == input[..a.Length];
  }

  /** The sort menu: `'default'`, `'name'` or `'rating'`. */
  datatype SortKey = DefaultOrder | ByName | ByRating

  /**
   * `(a.nombre || "").localeCompare(b.nombre || "") <= 0`, for a given collation `nameLe`:
   * a total preorder on places whenever the collation is one on names.
   */
  function NameOrder(nameLe: (string, string) -> bool): (le: (Place, Place) -> bool)
    ensures TotalPreorder(nameLe) ==> TotalPreorder(le)
  {
    var le := (a: Place, b: Place) => nameLe(a.nombre, b.nombre);
    assert TotalPreorder(nameLe) ==> TotalPreorder(le) by {
      if TotalPreorder(nameLe) {
        forall a: Place, b: Place ensures le(a, b) || le(b, a) {
          assert nameLe(a.nombre, b.nombre) || nameLe(b.nombre, a.nombre);
        }
        forall a: Place, b: Place, d: Place | le(a, b) && le(b, d) ensures le(a, d) {
          assert nameLe(a.nombre, b.nombre) && nameLe(b.nombre, d.nombre);
        }
      }
    }
    le
  }

  /** `avg(b) - avg(a) <= 0`: higher averages first, a total preorder on places. */
  function RatingOrder(ratings: map<string, Rating>): (le: (Place, Place) -> bool)
    ensures TotalPreorder(le)
  {
    (a: Place, b: Place) => AvgOf(ratings, b.id) <= AvgOf(ratings, a.id)
  }

  /**
   * The list the side panel shows for a sort key: a permutation of `s`, `s` itself for
   * the default key, and non-increasing averages for the rating key.
   */
  function Ordered(s: seq<Place>, key: SortKey, ratings: map<string, Rating>,
                   nameLe: (string, string) -> bool): (r: seq<Place>)
    ensures multiset(r) == multiset(s)
    ensures key == DefaultOrder ==> r == s
    ensures key == ByRating ==>
      forall i, j | 0 <= i < j < |r| :: AvgOf(ratings, r[i].id) >= AvgOf(ratings, r[j].id)
  {
    match key
    case DefaultOrder => s
    case ByName =>
      SortPermutes(s, NameOrder(nameLe));
      InsertionSort(s, NameOrder(nameLe))
    case ByRating =>
      SortPermutes(s, RatingOrder(ratings));
      SortSorted(s, RatingOrder(ratings));
      InsertionSort(s, RatingOrder(ratings))
  }

  /**
   * `listaOrdenada`: copies the filtered places into a fresh array and, for `'name'`
   * or `'rating'`, sorts the copy in place.
   */
  method ListaOrdenada(filtrados: seq<Place>, key: SortKey, ratings: map<string, Rating>,
                       nameLe: (string, string) -> bool) returns (lista: seq<Place>)
    ensures lista == Ordered(filtrados, key, ratings, nameLe)
    ensures multiset(lista) == multiset(filtrados)
    ensures key == DefaultOrder ==> lista == filtrados
    ensures key == ByRating ==>
      forall i, j | 0 <= i < j < |lista| :: AvgOf(ratings, lista[i].id) >= AvgOf(ratings, lista[j].id)
  {
    var arr := new Place[|filtrados|](i requires 0 <= i < |filtrados| => filtrados[i]);
    assert arr[..] == filtrados;
    if key == ByName {
      SortInPlace(arr, NameOrder(nameLe));
    } else if key == ByRating {
      SortInPlace(arr, RatingOrder(ratings));
    }
    lista := arr[..];
  }

  /** The places that share an average. */
  function SameAverage(ratings: map<string, Rating>, c: Place): Place -> bool {
    (y: Place) => AvgOf(ratings, y.id) == AvgOf(ratings, c.id)
  }

  /** Sorting by rating keeps places with equal averages in their filtered order. */
  lemma RatingSortStable(s: seq<Place>, ratings: map<string, Rating>, c: Place)
    ensures Filter(Ordered(s, ByRating, ratings, (x: string, y: string) => true), SameAverage(ratings, c))
         == Filter(s, SameAverage(ratings, c))
  {
    var le := RatingOrder(ratings);
    SortStable(s, le, c);
    var sorted := InsertionSort(s, le);
    SortPermutes(s, le);
    forall y | y in sorted ensures TiesWith(le, c)(y) == SameAverage(ratings, c)(y) {
    }
    FilterExt(sorted, TiesWith(le, c), SameAverage(ratings, c));
    FilterExt(s, TiesWith(le, c), SameAverage(ratings, c));
  }

  /** Given a collation that is a total preorder, sorting by name orders the names by it and keeps ties in order. */
  lemma NameSortSortedAndStable(s: seq<Place>, nameLe: (string, string) -> bool, c: Place)
    requires forall x, y :: nameLe(x, y) || nameLe(y, x)
    requires forall x, y, z :: nameLe(x, y) && nameLe(y, z) ==> nameLe(x, z)
    ensures var r := Ordered(s, ByName, map[], nameLe);
      && multiset(r) == multiset(s)
      && (forall i, j | 0 <= i < j < |r| :: nameLe(r[i].nombre, r[j].nombre))
      && Filter(r, TiesWith(NameOrder(nameLe), c)) == Filter(s, TiesWith(NameOrder(nameLe), c))
  {
    var le := NameOrder(nameLe);
    SortPermutes(s, le);
    SortSorted(s, le);
    SortStable(s, le, c);
  }

  /** `listaOrdenada.slice(0, 12)`: the side panel shows at most the first twelve. */
  function Sidebar(lista: seq<Place>): (r: seq<Place>)
    ensures |r| == if |lista| < 12 then |lista| else 12
    ensures r <= lista
  {
    if |lista| <= 12 then lista else lista[..12]
  }
}

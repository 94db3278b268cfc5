/**
 The contract of a stable sort. For a strict weak order the sorted and stable arrangement of
 a list exists and is unique, so whatever algorithm the library uses, its result is
 `SortStable`.
 */
module StableSort {

  ghost predicate StrictWeakOrder<T(!new)>(less: (T, T) -> bool) {
    && (forall x :: !less(x, x))
    && (forall x, y, z :: less(x, y) && less(y, z) ==> less(x, z))
    && (forall x, y, z :: !less(x, y) && !less(y, z) ==> !less(x, z))
  }

  predicate Tied<T>(x: T, y: T, less: (T, T) -> bool) {
    !less(x, y) && !less(y, x)
  }

  ghost predicate Sorted<T>(s: seq<T>, less: (T, T) -> bool) {
    forall i, j :: 0 <= i < j < |s| ==> !less(s[j], s[i])
  }

  /** The elements tied with `x`, in list order. */
  function Ties<T>(s: seq<T>, x: T, less: (T, T) -> bool): seq<T> {
    if s == [] then []
    else (if Tied(s[0], x, less) then [s[0]] else []) + Ties(s[1..], x, less)
  }

  ghost predicate Stable<T(!new)>(before: seq<T>, after: seq<T>, less: (T, T) -> bool) {
    forall x :: Ties(before, x, less) == Ties(after, x, less)
  }

  /** `x` goes behind everything it does not precede. */
  function Insert<T>(s: seq<T>, x: T, less: (T, T) -> bool): seq<T> {
    if s == [] || !less(x, s[|s| - 1]) then s + [x]
    else Insert(s[..|s| - 1], x, less) + [s[|s| - 1]]
  }

  function SortStable<T>(s: seq<T>, less: (T, T) -> bool): seq<T> {
    if s == [] then [] else Insert(SortStable(s[..|s| - 1], less), s[|s| - 1], less)
  }

  // ----- The result is sorted and stable -----

  lemma {:induction false} TiesAppend<T>(a: seq<T>, b: seq<T>, x: T, less: (T, T) -> bool)
    ensures Ties(a + b, x, less) == Ties(a, x, less) + Ties(b, x, less)
  {
    if a == [] {
      assert a + b == b;
    } else {
      assert (a + b)[1..] == a[1..] + b && (a + b)[0] == a[0];
      TiesAppend(a[1..], b, x, less);
      var head := if Tied(a[0], x, less) then [a[0]] else [];
      assert Ties(a + b, x, less) == head + Ties((a + b)[1..], x, less);
      assert Ties(a, x, less) == head + Ties(a[1..], x, less);
    }
  }

  lemma {:induction false} InsertElements<T>(s: seq<T>, x: T, less: (T, T) -> bool)
    ensures multiset(Insert(s, x, less)) == multiset(s) + multiset{x}
  {
    if s != [] && less(x, s[|s| - 1]) {
      InsertElements(s[..|s| - 1], x, less);
      assert s == s[..|s| - 1] + [s[|s| - 1]];
    }
  }

  lemma {:induction false} InsertSorted<T(!new)>(s: seq<T>, x: T, less: (T, T) -> bool)
    requires StrictWeakOrder(less) && Sorted(s, less)
    ensures Sorted(Insert(s, x, less), less)
  {
    if s != [] && less(x, s[|s| - 1]) {
      var front, last := s[..|s| - 1], s[|s| - 1];
      InsertSorted(front, x, less);
      InsertElements(front, x, less);
      var r := Insert(front, x, less);
      forall i | 0 <= i < |r| ensures !less(last, r[i]) {
        assert r[i] in multiset(r);
        assert r[i] == x || r[i] in multiset(front);
        if r[i] != x {
          assert r[i] in front;
        }
      }
    } else if s != [] {
      forall i | 0 <= i < |s| ensures !less(x, s[i]) {
        assert !less(s[|s| - 1], s[i]);
      }
    }
  }

  lemma {:induction false} InsertTies<T(!new)>(s: seq<T>, x: T, less: (T, T) -> bool, y: T)
    requires StrictWeakOrder(less) && Sorted(s, less)
    ensures Ties(Insert(s, x, less), y, less) == Ties(s + [x], y, less)
  {
    if s != [] && less(x, s[|s| - 1]) {
      var front, last := s[..|s| - 1], s[|s| - 1];
      InsertTies(front, x, less, y);
      TiesAppend(Insert(front, x, less), [last], y, less);
      TiesAppend(front, [x], y, less);
      TiesAppend(front, [last], y, less);
      TiesAppend(s, [x], y, less);
      assert s == front + [last];
      assert !(Tied(x, y, less) && Tied(last, y, less));
    }
  }

  lemma {:induction false} SortElements<T>(s: seq<T>, less: (T, T) -> bool)
    ensures multiset(SortStable(s, less)) == multiset(s)
  {
    if s != [] {
      SortElements(s[..|s| - 1], less);
      InsertElements(SortStable(s[..|s| - 1], less), s[|s| - 1], less);
      assert s == s[..|s| - 1] + [s[|s| - 1]];
    }
  }

  lemma {:induction false} SortIsSorted<T(!new)>(s: seq<T>, less: (T, T) -> bool)
    requires StrictWeakOrder(less)
    ensures Sorted(SortStable(s, less), less)
  {
    if s != [] {
      SortIsSorted(s[..|s| - 1], less);
      InsertSorted(SortStable(s[..|s| - 1], less), s[|s| - 1], less);
    }
  }

  lemma {:induction false} SortTies<T(!new)>(s: seq<T>, less: (T, T) -> bool, y: T)
    requires StrictWeakOrder(less)
    ensures Ties(SortStable(s, less), y, less) == Ties(s, y, less)
  {
    if s != [] {
      var front, x := s[..|s| - 1], s[|s| - 1];
      SortTies(front, less, y);
      SortIsSorted(front, less);
      InsertTies(SortStable(front, less), x, less, y);
      TiesAppend(SortStable(front, less), [x], y, less);
      TiesAppend(front, [x], y, less);
      assert s == front + [x];
    }
  }

  lemma SortContract<T(!new)>(s: seq<T>, less: (T, T) -> bool)
    requires StrictWeakOrder(less)
    ensures Sorted(SortStable(s, less), less) && Stable(s, SortStable(s, less), less)
    ensures multiset(SortStable(s, less)) == multiset(s)
  {
    SortIsSorted(s, less);
    SortElements(s, less);
    forall y ensures Ties(s, y, less) == Ties(SortStable(s, less), y, less) {
      SortTies(s, less, y);
    }
  }

  // ----- and it is the only such arrangement -----

  lemma {:induction false} TiesWitness<T>(s: seq<T>, x: T, less: (T, T) -> bool)
    requires Ties(s, x, less) != []
    ensures exists i :: 0 <= i < |s| && Tied(s[i], x, less)
  {
    if !Tied(s[0], x, less) {
      TiesWitness(s[1..], x, less);
      var i :| 0 <= i < |s[1..]| && Tied(s[1..][i], x, less);
      assert Tied(s[i + 1], x, less);
    }
  }

  lemma HeadPrecedes<T(!new)>(a: seq<T>, b: seq<T>, less: (T, T) -> bool)
    requires StrictWeakOrder(less) && Sorted(b, less) && Stable(a, b, less)
    requires a != []
    ensures b != [] && !less(a[0], b[0])
  {
    assert Ties(a, a[0], less) != [];
    TiesWitness(b, a[0], less);
    var i :| 0 <= i < |b| && Tied(b[i], a[0], less);
    assert i == 0 || !less(b[i], b[0]);
  }

  lemma {:induction false} StableSortUnique<T(!new)>(a: seq<T>, b: seq<T>, less: (T, T) -> bool)
    requires StrictWeakOrder(less) && Sorted(a, less) && Sorted(b, less) && Stable(a, b, less)
    ensures a == b
  {
    if a == [] {
      if b != [] {
        HeadPrecedes(b, a, less);
      }
    } else {
      HeadPrecedes(a, b, less);
      HeadPrecedes(b, a, less);
      assert a[0] == b[0] by {
        assert Tied(a[0], a[0], less) && Tied(b[0], a[0], less);
        assert Ties(a, a[0], less)[0] == a[0] && Ties(b, a[0], less)[0] == b[0];
        assert Ties(a, a[0], less) == Ties(b, a[0], less);
      }
      forall x ensures Ties(a[1..], x, less) == Ties(b[1..], x, less) {
        assert Ties(a, x, less) == Ties(b, x, less);
        if Tied(a[0], x, less) {
          assert Ties(a, x, less)[1..] == Ties(a[1..], x, less);
          assert Ties(b, x, less)[1..] == Ties(b[1..], x, less);
        } else {
          assert Ties(a, x, less) == Ties(a[1..], x, less);
          assert Ties(b, x, less) == Ties(b[1..], x, less);
        }
      }
      StableSortUnique(a[1..], b[1..], less);
    }
  }

  /** Any list that meets the library's promise is `SortStable`. */
  lemma ContractDeterminesSort<T(!new)>(s: seq<T>, r: seq<T>, less: (T, T) -> bool)
    requires StrictWeakOrder(less) && Sorted(r, less) && Stable(s, r, less)
    ensures r == SortStable(s, less)
  {
    SortContract(s, less);
    StableSortUnique(r, SortStable(s, less), less);
  }

  /** Sorting looks at the comparison's answers only. */
  lemma {:induction false} SortAgrees<T(!new)>(s: seq<T>, less: (T, T) -> bool, less': (T, T) -> bool)
    requires forall x, y :: less(x, y) == less'(x, y)
    ensures SortStable(s, less) == SortStable(s, less')
  {
    if s != [] {
      SortAgrees(s[..|s| - 1], less, less');
      InsertAgrees(SortStable(s[..|s| - 1], less), s[|s| - 1], less, less');
    }
  }

  lemma {:induction false} InsertAgrees<T(!new)>(s: seq<T>, x: T, less: (T, T) -> bool, less': (T, T) -> bool)
    requires forall x, y :: less(x, y) == less'(x, y)
    ensures Insert(s, x, less) == Insert(s, x, less')
  {
    if s != [] && less(x, s[|s| - 1]) {
      InsertAgrees(s[..|s| - 1], x, less, less');
    }
  }
}

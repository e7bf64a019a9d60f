/**
 Python's `list.sort(key=...)`: the one ordering of a list that is sorted by key and
 keeps elements of equal key in their original order.
 */
module StableSort {

  ghost predicate SortedBy<T>(s: seq<T>, key: T -> int) {
    forall i, j :: 0 <= i < j < |s| ==> key(s[i]) <= key(s[j])
  }

  /** The elements of key `k`, in order. */
  ghost function WithKey<T>(s: seq<T>, key: T -> int, k: int): (r: seq<T>)
    ensures forall x | x in r :: x in s && key(x) == k
    ensures forall x | x in s && key(x) == k :: x in r
  {
    if s == [] then []
    else
      var rest := WithKey(s[..|s| - 1], key, k);
      if key(s[|s| - 1]) == k then rest + [s[|s| - 1]] else rest
  }

  ghost predicate SameClasses<T>(r: seq<T>, s: seq<T>, key: T -> int) {
    forall k :: WithKey(r, key, k) == WithKey(s, key, k)
  }

  /** Inserts `x` behind every element whose key is not larger. */
  function Insert<T>(s: seq<T>, x: T, key: T -> int): (r: seq<T>)
    ensures multiset(r) == multiset(s) + multiset{x}
  {
    if s == [] || key(s[|s| - 1]) <= key(x) then s + [x]
    else
      assert s == s[..|s| - 1] + [s[|s| - 1]];
      Insert(s[..|s| - 1], x, key) + [s[|s| - 1]]
  }

  function Sort<T>(s: seq<T>, key: T -> int): (r: seq<T>)
    ensures multiset(r) == multiset(s)
  {
    if s == [] then []
    else
      assert s == s[..|s| - 1] + [s[|s| - 1]];
      Insert(Sort(s[..|s| - 1], key), s[|s| - 1], key)
  }

  lemma SameElements<T>(r: seq<T>, s: seq<T>)
    requires multiset(r) == multiset(s)
    ensures |r| == |s| && forall x :: x in r <==> x in s
  {
    assert |multiset(r)| == |multiset(s)|;
    forall x ensures x in r <==> x in s {
      assert x in multiset(r) <==> x in multiset(s);
    }
  }

  lemma WithKeyOfAppend<T>(s: seq<T>, x: T, key: T -> int, k: int)
    ensures WithKey(s + [x], key, k) == WithKey(s, key, k) + (if key(x) == k then [x] else [])
  {
  }

  lemma InsertKeepsClass<T>(s: seq<T>, x: T, key: T -> int, k: int)
    ensures WithKey(Insert(s, x, key), key, k) == WithKey(s + [x], key, k)
  {
    WithKeyOfAppend(s, x, key, k);
    if s != [] && key(s[|s| - 1]) > key(x) {
      var front, last := s[..|s| - 1], s[|s| - 1];
      InsertKeepsClass(front, x, key, k);
      WithKeyOfAppend(front, x, key, k);
      WithKeyOfAppend(Insert(front, x, key), last, key, k);
    }
  }

  lemma InsertElement<T>(s: seq<T>, x: T, key: T -> int, y: T)
    requires y in Insert(s, x, key)
    ensures y in s || y == x
  {
  }

  lemma SortedSnoc<T>(s: seq<T>, last: T, key: T -> int)
    requires SortedBy(s, key) && forall y | y in s :: key(y) <= key(last)
    ensures SortedBy(s + [last], key)
  {
  }

  lemma SortedFront<T>(front: seq<T>, last: T, key: T -> int)
    requires SortedBy(front + [last], key)
    ensures SortedBy(front, key) && forall y | y in front :: key(y) <= key(last)
  {
    var s := front + [last];
    forall i | 0 <= i < |front| ensures key(front[i]) <= key(last) {
      assert s[i] == front[i] && s[|front|] == last;
    }
    forall i, j | 0 <= i < j < |front| ensures key(front[i]) <= key(front[j]) {
      assert s[i] == front[i] && s[j] == front[j];
    }
  }

  lemma {:induction false} InsertKeepsSorted<T>(s: seq<T>, x: T, key: T -> int)
    requires SortedBy(s, key)
    ensures SortedBy(Insert(s, x, key), key)
  {
    if s == [] {
      assert Insert(s, x, key) == [x];
    } else {
      var front, last := s[..|s| - 1], s[|s| - 1];
      assert s == front + [last];
      SortedFront(front, last, key);
      if key(last) <= key(x) {
        SortedSnoc(s, x, key);
      } else {
        InsertKeepsSorted(front, x, key);
        forall y | y in Insert(front, x, key) ensures key(y) <= key(last) {
          InsertElement(front, x, key, y);
        }
        SortedSnoc(Insert(front, x, key), last, key);
      }
    }
  }

  lemma {:induction false} SortIsStable<T>(s: seq<T>, key: T -> int)
    ensures SortedBy(Sort(s, key), key)
    ensures SameClasses(Sort(s, key), s, key)
  {
    if s != [] {
      var front, last := s[..|s| - 1], s[|s| - 1];
      SortIsStable(front, key);
      var r := Sort(front, key);
      assert s == front + [last];
      InsertKeepsSorted(r, last, key);
      forall k ensures WithKey(Insert(r, last, key), key, k) == WithKey(s, key, k) {
        InsertKeepsClass(r, last, key, k);
        WithKeyOfAppend(r, last, key, k);
        WithKeyOfAppend(front, last, key, k);
        assert WithKey(r, key, k) == WithKey(front, key, k);
      }
    }
  }

  /** The last element of a sorted list bounds every key of a list with the same classes. */
  lemma LastBoundsKeys<T>(r: seq<T>, s: seq<T>, key: T -> int)
    requires SortedBy(r, key) && SameClasses(r, s, key) && s != []
    ensures r != [] && key(s[|s| - 1]) <= key(r[|r| - 1])
  {
    var y := s[|s| - 1];
    assert WithKey(r, key, key(y)) == WithKey(s, key, key(y));
    assert y in s && y in r;
    var j :| 0 <= j < |r| && r[j] == y;
  }

  lemma LastOfClass<T>(s: seq<T>, key: T -> int)
    requires s != []
    ensures var c := WithKey(s, key, key(s[|s| - 1]));
            c != [] && c[|c| - 1] == s[|s| - 1]
  {
  }

  lemma DropLastKeepsClasses<T>(r: seq<T>, s: seq<T>, x: T, key: T -> int)
    requires SameClasses(r + [x], s + [x], key)
    ensures SameClasses(r, s, key)
  {
    forall k ensures WithKey(r, key, k) == WithKey(s, key, k) {
      var tail := if key(x) == k then [x] else [];
      WithKeyOfAppend(r, x, key, k);
      WithKeyOfAppend(s, x, key, k);
      assert WithKey(r + [x], key, k) == WithKey(s + [x], key, k);
      var a, b := WithKey(r, key, k), WithKey(s, key, k);
      assert |a| == |b| && (a + tail)[..|a|] == a && (b + tail)[..|b|] == b;
    }
  }

  lemma LastsAgree<T>(r: seq<T>, s: seq<T>, key: T -> int)
    requires SortedBy(r, key) && SortedBy(s, key) && SameClasses(r, s, key) && r != [] && s != []
    ensures r[|r| - 1] == s[|s| - 1]
  {
    LastBoundsKeys(r, s, key);
    LastBoundsKeys(s, r, key);
    LastOfClass(r, key);
    LastOfClass(s, key);
    assert WithKey(r, key, key(r[|r| - 1])) == WithKey(s, key, key(r[|r| - 1]));
  }

  lemma SortedPrefix<T>(s: seq<T>, key: T -> int)
    requires SortedBy(s, key) && s != []
    ensures SortedBy(s[..|s| - 1], key)
  {
  }

  /** Sortedness and stability leave no freedom. */
  lemma {:induction false} StableSortIsUnique<T>(r: seq<T>, s: seq<T>, key: T -> int)
    requires SortedBy(r, key) && SortedBy(s, key) && SameClasses(r, s, key)
    ensures r == s
    decreases |r|
  {
    if s == [] {
      if r != [] { LastBoundsKeys(s, r, key); }
    } else {
      LastBoundsKeys(r, s, key);
      LastsAgree(r, s, key);
      var front, back, x := r[..|r| - 1], s[..|s| - 1], r[|r| - 1];
      assert r == front + [x] && s == back + [x];
      DropLastKeepsClasses(front, back, x, key);
      SortedPrefix(r, key);
      SortedPrefix(s, key);
      StableSortIsUnique(front, back, key);
    }
  }

  /** Sorting after every append ends where one final sort ends. */
  lemma AppendThenSort<T>(s: seq<T>, x: T, key: T -> int)
    ensures Sort(Sort(s, key) + [x], key) == Sort(s + [x], key)
  {
    var a, b := Sort(s, key) + [x], s + [x];
    SortIsStable(a, key);
    SortIsStable(b, key);
    SortIsStable(s, key);
    forall k ensures WithKey(Sort(a, key), key, k) == WithKey(Sort(b, key), key, k) {
      WithKeyOfAppend(Sort(s, key), x, key, k);
      WithKeyOfAppend(s, x, key, k);
      assert WithKey(Sort(s, key), key, k) == WithKey(s, key, k);
      assert WithKey(Sort(a, key), key, k) == WithKey(a, key, k);
      assert WithKey(Sort(b, key), key, k) == WithKey(b, key, k);
    }
    StableSortIsUnique(Sort(a, key), Sort(b, key), key);
  }

  // ------------------------------------------------------ who comes first

  /** Some occurrence of `x` stands before some occurrence of `y`. */
  ghost predicate Before<T(!new)>(s: seq<T>, x: T, y: T) {
    exists i, j :: 0 <= i < j < |s| && s[i] == x && s[j] == y
  }

  lemma BeforeOfAppend<T(!new)>(s: seq<T>, z: T, x: T, y: T)
    ensures Before(s + [z], x, y) <==> Before(s, x, y) || (x in s && y == z)
  {
    var all := s + [z];
    if Before(s, x, y) {
      var i, j :| 0 <= i < j < |s| && s[i] == x && s[j] == y;
      assert all[i] == x && all[j] == y;
    }
    if x in s && y == z {
      var i :| 0 <= i < |s| && s[i] == x;
      assert all[i] == x && all[|s|] == y;
    }
    if Before(all, x, y) {
      var i, j :| 0 <= i < j < |all| && all[i] == x && all[j] == y;
      assert s[i] == x;
      assert j < |s| ==> s[j] == y;
    }
  }

  lemma {:induction false} WithKeyKeepsBefore<T(!new)>(s: seq<T>, key: T -> int, x: T, y: T)
    requires key(x) == key(y)
    ensures Before(WithKey(s, key, key(x)), x, y) <==> Before(s, x, y)
  {
    if s != [] {
      var front, last := s[..|s| - 1], s[|s| - 1];
      assert s == front + [last];
      WithKeyKeepsBefore(front, key, x, y);
      BeforeOfAppend(front, last, x, y);
      BeforeOfAppend(WithKey(front, key, key(x)), last, x, y);
    }
  }

  /** Elements of equal key keep their order; all others are ordered by key. */
  lemma SortOrders<T(!new)>(s: seq<T>, key: T -> int, x: T, y: T)
    ensures key(x) == key(y) ==> (Before(Sort(s, key), x, y) <==> Before(s, x, y))
    ensures key(x) < key(y) ==> !Before(Sort(s, key), y, x)
  {
    SortIsStable(s, key);
    if key(x) == key(y) {
      assert WithKey(Sort(s, key), key, key(x)) == WithKey(s, key, key(x));
      WithKeyKeepsBefore(s, key, x, y);
      WithKeyKeepsBefore(Sort(s, key), key, x, y);
    }
  }
}

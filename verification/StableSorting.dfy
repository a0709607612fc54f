/** Stable sorting by a key, and the first element of the sorted sequence that passes a test. */
module StableSorting {
  import opened QuotaTypes

  function InsertBy<T>(x: T, s: seq<T>, key: T -> int): seq<T> {
    if s == [] || key(x) <= key(s[0]) then [x] + s else [s[0]] + InsertBy(x, s[1..], key)
  }

  function SortBy<T>(s: seq<T>, key: T -> int): seq<T> {
    if s == [] then [] else InsertBy(s[0], SortBy(s[1..], key), key)
  }

  predicate Sorted<T>(s: seq<T>, key: T -> int) {
    forall i, j :: 0 <= i < j < |s| ==> key(s[i]) <= key(s[j])
  }

  lemma {:induction false} InsertKeepsAll<T>(x: T, s: seq<T>, key: T -> int)
    ensures multiset(InsertBy(x, s, key)) == multiset{x} + multiset(s)
  {
    if s != [] && key(x) > key(s[0]) {
      InsertKeepsAll(x, s[1..], key);
      assert s == [s[0]] + s[1..];
    }
  }

  lemma {:induction false} InsertKeepsSorted<T>(x: T, s: seq<T>, key: T -> int)
    requires Sorted(s, key)
    ensures Sorted(InsertBy(x, s, key), key)
    ensures s != [] && key(s[0]) < key(x) ==> key(InsertBy(x, s, key)[0]) == key(s[0])
    ensures s == [] || key(x) <= key(s[0]) ==> key(InsertBy(x, s, key)[0]) == key(x)
  {
    if s != [] && key(x) > key(s[0]) {
      InsertKeepsSorted(x, s[1..], key);
    }
  }

  lemma {:induction false} SortByIsSorted<T>(s: seq<T>, key: T -> int)
    ensures Sorted(SortBy(s, key), key)
    ensures multiset(SortBy(s, key)) == multiset(s)
  {
    if s != [] {
      SortByIsSorted(s[1..], key);
      InsertKeepsSorted(s[0], SortBy(s[1..], key), key);
      InsertKeepsAll(s[0], SortBy(s[1..], key), key);
      assert s == [s[0]] + s[1..];
    }
  }

  function First<T>(s: seq<T>, test: T -> bool): Option<T> {
    if s == [] then None else if test(s[0]) then Some(s[0]) else First(s[1..], test)
  }

  /** `s[i]` passes the test and no other passing element has a smaller key, or the same key and an
      earlier place. */
  predicate Leads<T>(s: seq<T>, key: T -> int, test: T -> bool, i: int) {
    && 0 <= i < |s| && test(s[i])
    && forall j :: 0 <= j < |s| && test(s[j]) ==> key(s[i]) < key(s[j]) || (key(s[i]) == key(s[j]) && i <= j)
  }

  lemma {:induction false} FirstAfterInsert<T>(x: T, s: seq<T>, key: T -> int, test: T -> bool)
    requires Sorted(s, key)
    ensures First(InsertBy(x, s, key), test) ==
      if test(x) && (First(s, test).None? || key(x) <= key(First(s, test).value)) then Some(x) else First(s, test)
  {
    if s != [] {
      if key(x) <= key(s[0]) {
        assert ([x] + s)[1..] == s;
        FirstIsMember(s, test);
      } else {
        FirstAfterInsert(x, s[1..], key, test);
        assert ([s[0]] + InsertBy(x, s[1..], key))[1..] == InsertBy(x, s[1..], key);
      }
    }
  }

  lemma {:induction false} FirstIsMember<T>(s: seq<T>, test: T -> bool)
    ensures First(s, test).Some? ==> First(s, test).value in s && test(First(s, test).value)
    ensures First(s, test).None? <==> forall i :: 0 <= i < |s| ==> !test(s[i])
  {
    if s != [] && !test(s[0]) {
      FirstIsMember(s[1..], test);
      assert forall i :: 1 <= i < |s| ==> s[i] == s[1..][i - 1];
    }
  }

  lemma LeadsLater<T>(s: seq<T>, key: T -> int, test: T -> bool, i: int)
    requires s != [] && Leads(s[1..], key, test, i)
    ensures if test(s[0]) && key(s[0]) <= key(s[1..][i]) then Leads(s, key, test, 0) else Leads(s, key, test, i + 1)
  {
    var rest := s[1..];
    assert forall j :: 1 <= j < |s| ==> s[j] == rest[j - 1];
  }

  lemma {:induction false} FirstOfAppended<T>(s: seq<T>, x: T, test: T -> bool)
    ensures First(s + [x], test) == if First(s, test).Some? then First(s, test) else if test(x) then Some(x) else None
  {
    if s != [] {
      FirstOfAppended(s[1..], x, test);
      assert (s + [x])[1..] == s[1..] + [x];
    } else {
      assert (s + [x])[1..] == [];
    }
  }

  /** The first hit after sorting is the element with the smallest key among the hits, the earliest
      of them on a tie; sorting creates no hit and loses none. */
  lemma {:induction false} FirstAfterSort<T>(s: seq<T>, key: T -> int, test: T -> bool)
    ensures First(SortBy(s, key), test).None? <==> forall i :: 0 <= i < |s| ==> !test(s[i])
    ensures First(SortBy(s, key), test).Some? ==>
      exists i :: Leads(s, key, test, i) && First(SortBy(s, key), test) == Some(s[i])
  {
    if s != [] {
      var rest := s[1..];
      FirstAfterSort(rest, key, test);
      SortByIsSorted(rest, key);
      FirstAfterInsert(s[0], SortBy(rest, key), key, test);
      assert forall i :: 1 <= i < |s| ==> s[i] == rest[i - 1];
      var before := First(SortBy(rest, key), test);
      if before.Some? {
        var i :| Leads(rest, key, test, i) && before == Some(rest[i]);
        LeadsLater(s, key, test, i);
      } else if test(s[0]) {
        assert Leads(s, key, test, 0);
      }
    }
  }

  function Filter<T>(s: seq<T>, keep: T -> bool): seq<T> {
    if s == [] then [] else (if keep(s[0]) then [s[0]] else []) + Filter(s[1..], keep)
  }

  function Both<T>(f: T -> bool, g: T -> bool): T -> bool {
    (x: T) => f(x) && g(x)
  }

  /** Filtering before sorting finds the same first hit as testing both conditions after it. */
  lemma {:induction false} FirstOfFiltered<T>(s: seq<T>, key: T -> int, keep: T -> bool, test: T -> bool)
    ensures First(SortBy(Filter(s, keep), key), test) == First(SortBy(s, key), Both(keep, test))
  {
    if s != [] {
      var rest, both := s[1..], Both(keep, test);
      FirstOfFiltered(rest, key, keep, test);
      SortByIsSorted(rest, key);
      FirstAfterInsert(s[0], SortBy(rest, key), key, both);
      if keep(s[0]) {
        var kept := Filter(rest, keep);
        SortByIsSorted(kept, key);
        FirstAfterInsert(s[0], SortBy(kept, key), key, test);
        assert Filter(s, keep) == [s[0]] + kept;
        assert ([s[0]] + kept)[1..] == kept;
      } else {
        assert Filter(s, keep) == Filter(rest, keep);
      }
    }
  }

  lemma {:induction false} FilterAppends<T>(a: seq<T>, b: seq<T>, keep: T -> bool)
    ensures Filter(a + b, keep) == Filter(a, keep) + Filter(b, keep)
  {
    if a == [] {
      assert a + b == b;
    } else {
      var head := if keep(a[0]) then [a[0]] else [];
      FilterAppends(a[1..], b, keep);
      assert (a + b)[1..] == a[1..] + b;
      assert Filter(a + b, keep) == head + Filter(a[1..] + b, keep);
    }
  }

  lemma {:induction false} FirstAppends<T>(a: seq<T>, b: seq<T>, test: T -> bool)
    ensures First(a + b, test) == if First(a, test).Some? then First(a, test) else First(b, test)
  {
    if a == [] {
      assert a + b == b;
    } else {
      FirstAppends(a[1..], b, test);
      assert (a + b)[1..] == a[1..] + b;
    }
  }
}

/** `[...invoices].sort((a, b) => dateA - dateB)`: an ascending, stable sort by
    invoice date of a copy of the input. Section 23.1.3.30 of ECMA-262 (2023)
    requires `Array.prototype.sort` to be stable, so invoices with the same date
    keep their input order. */
module DateSort {
  import opened Invoices

  /** The sort key: for dates in range it orders exactly as `getTime()` of the
      dates at midnight does, that is lexicographically by year, month, day. */
  function Key(d: Date): (k: int)
  {
    d.year * 372 + (d.month - 1) * 31 + (d.day - 1)
  }

  /** Key agrees with calendar order and tells dates apart. */
  lemma KeyIsCalendarOrder(a: Date, b: Date)
    ensures Key(a) < Key(b) <==>
      a.year < b.year || (a.year == b.year && (a.month < b.month || (a.month == b.month && a.day < b.day)))
    ensures Key(a) == Key(b) <==> a == b
  {
  }

  function DateKey(inv: Invoice): (k: int)
  {
    Key(inv.invoiceDate)
  }

  /** Non-decreasing by date. */
  predicate Sorted(s: seq<Invoice>)
  {
    forall i, j :: 0 <= i < j < |s| ==> DateKey(s[i]) <= DateKey(s[j])
  }

  /** Places `x` after every element of `t` whose date is not later than its own,
      which is where a stable insertion puts the element that came last. */
  function Insert(t: seq<Invoice>, x: Invoice): (r: seq<Invoice>)
    ensures |r| == |t| + 1
    decreases |t|
  {
    if t == [] then [x]
    else if DateKey(t[|t| - 1]) <= DateKey(x) then t + [x]
    else Insert(t[..|t| - 1], x) + [t[|t| - 1]]
  }

  /** The specification of the sorted copy: insert each invoice, in input order. */
  function StableSortByDate(s: seq<Invoice>): (t: seq<Invoice>)
    ensures |t| == |s|
    decreases |s|
  {
    if s == [] then [] else Insert(StableSortByDate(s[..|s| - 1]), s[|s| - 1])
  }

  /** The invoices of `s` dated with key `k`, in their order in `s`. */
  function WithKey(s: seq<Invoice>, k: int): (r: seq<Invoice>)
    ensures |r| <= |s|
    decreases |s|
  {
    if s == [] then []
    else WithKey(s[..|s| - 1], k) + (if DateKey(s[|s| - 1]) == k then [s[|s| - 1]] else [])
  }

  /** Stability: for every date, the invoices carrying it appear in the same order. */
  ghost predicate SameOrderPerDate(s: seq<Invoice>, t: seq<Invoice>)
  {
    forall k :: WithKey(s, k) == WithKey(t, k)
  }

  // ---- Insert

  lemma {:induction false} InsertMultiset(t: seq<Invoice>, x: Invoice)
    ensures multiset(Insert(t, x)) == multiset(t) + multiset{x}
    decreases |t|
  {
    if t != [] && DateKey(t[|t| - 1]) > DateKey(x) {
      var init, last := t[..|t| - 1], t[|t| - 1];
      InsertMultiset(init, x);
      assert t == init + [last];
    }
  }

  lemma {:induction false} InsertSorted(t: seq<Invoice>, x: Invoice)
    requires Sorted(t)
    ensures Sorted(Insert(t, x))
    decreases |t|
  {
    if t != [] && DateKey(t[|t| - 1]) > DateKey(x) {
      var init, last := t[..|t| - 1], t[|t| - 1];
      InsertSorted(init, x);
      InsertMultiset(init, x);
      var u := Insert(init, x);
      forall y | y in u ensures DateKey(y) <= DateKey(last) {
        assert y in multiset(u);
        if y != x {
          assert y in multiset(init);
          var i :| 0 <= i < |init| && init[i] == y;
          assert t[i] == y;
        }
      }
    } else if t != [] {
      assert forall i :: 0 <= i < |t| ==> DateKey(t[i]) <= DateKey(t[|t| - 1]);
    }
  }

  lemma {:induction false} InsertWithKey(t: seq<Invoice>, x: Invoice, k: int)
    ensures WithKey(Insert(t, x), k) == WithKey(t, k) + (if DateKey(x) == k then [x] else [])
    decreases |t|
  {
    if t == [] {
      assert [x][..0] == [];
    } else if DateKey(t[|t| - 1]) <= DateKey(x) {
      assert (t + [x])[..|t|] == t;
    } else {
      var init, last := t[..|t| - 1], t[|t| - 1];
      InsertWithKey(init, x, k);
      var u := Insert(init, x);
      assert (u + [last])[..|u|] == u;
      assert t[..|t| - 1] == init;
    }
  }

  // ---- The specification function

  /** The sorted copy holds exactly the input's invoices. */
  lemma {:induction false} StableSortPermutation(s: seq<Invoice>)
    ensures multiset(StableSortByDate(s)) == multiset(s)
    decreases |s|
  {
    if s != [] {
      var init := s[..|s| - 1];
      StableSortPermutation(init);
      InsertMultiset(StableSortByDate(init), s[|s| - 1]);
      assert s == init + [s[|s| - 1]];
    }
  }

  /** The sorted copy is non-decreasing by date. */
  lemma {:induction false} StableSortSorted(s: seq<Invoice>)
    ensures Sorted(StableSortByDate(s))
    decreases |s|
  {
    if s != [] {
      StableSortSorted(s[..|s| - 1]);
      InsertSorted(StableSortByDate(s[..|s| - 1]), s[|s| - 1]);
    }
  }

  /** The sorted copy keeps invoices of equal date in input order. */
  lemma {:induction false} StableSortStable(s: seq<Invoice>)
    ensures SameOrderPerDate(StableSortByDate(s), s)
    decreases |s|
  {
    if s != [] {
      var init := s[..|s| - 1];
      StableSortStable(init);
      forall k ensures WithKey(StableSortByDate(s), k) == WithKey(s, k) {
        InsertWithKey(StableSortByDate(init), s[|s| - 1], k);
      }
    }
  }

  // ---- Uniqueness: sortedness and stability determine the result

  lemma {:induction false} WithKeyMembers(s: seq<Invoice>, k: int, y: Invoice)
    requires y in WithKey(s, k)
    ensures y in s && DateKey(y) == k
    decreases |s|
  {
    var init := s[..|s| - 1];
    if y in WithKey(init, k) {
      WithKeyMembers(init, k, y);
      assert y in s;
    }
  }

  lemma LastHasItsKey(s: seq<Invoice>)
    requires s != []
    ensures WithKey(s, DateKey(s[|s| - 1])) != []
  {
  }

  lemma SameOrderPerDateEmpty(u: seq<Invoice>, v: seq<Invoice>)
    requires SameOrderPerDate(u, v)
    ensures u == [] <==> v == []
  {
    if v != [] {
      LastHasItsKey(v);
      assert WithKey(u, DateKey(v[|v| - 1])) == WithKey(v, DateKey(v[|v| - 1]));
    }
    if u != [] {
      LastHasItsKey(u);
      assert WithKey(u, DateKey(u[|u| - 1])) == WithKey(v, DateKey(u[|u| - 1]));
    }
  }

  /** In a sorted sequence the last invoice carries the latest date. */
  lemma SortedLastIsLatest(s: seq<Invoice>, y: Invoice)
    requires Sorted(s) && y in s
    ensures DateKey(y) <= DateKey(s[|s| - 1])
  {
    var i :| 0 <= i < |s| && s[i] == y;
    assert i == |s| - 1 || DateKey(s[i]) <= DateKey(s[|s| - 1]);
  }

  /** Two sorted sequences with the same order per date end in the same invoice. */
  lemma SameLast(u: seq<Invoice>, v: seq<Invoice>)
    requires Sorted(u) && Sorted(v) && u != [] && v != []
    requires SameOrderPerDate(u, v)
    ensures DateKey(u[|u| - 1]) == DateKey(v[|v| - 1])
    ensures u[|u| - 1] == v[|v| - 1]
  {
    var ku, kv := DateKey(u[|u| - 1]), DateKey(v[|v| - 1]);
    LastHasItsKey(u);
    LastHasItsKey(v);
    var wu, wv := WithKey(u, ku), WithKey(v, kv);
    assert wu == WithKey(v, ku);
    assert wv == WithKey(u, kv);
    WithKeyMembers(v, ku, wu[0]);
    WithKeyMembers(u, kv, wv[0]);
    SortedLastIsLatest(v, wu[0]);
    SortedLastIsLatest(u, wv[0]);
    assert wu == WithKey(u[..|u| - 1], ku) + [u[|u| - 1]];
    assert wu == WithKey(v[..|v| - 1], ku) + [v[|v| - 1]];
    assert wu[|wu| - 1] == u[|u| - 1];
  }

  /** Dropping a common last invoice keeps the order per date equal. */
  lemma DropLast(u: seq<Invoice>, v: seq<Invoice>)
    requires u != [] && v != [] && u[|u| - 1] == v[|v| - 1]
    requires SameOrderPerDate(u, v)
    ensures SameOrderPerDate(u[..|u| - 1], v[..|v| - 1])
  {
    var u', v', last := u[..|u| - 1], v[..|v| - 1], u[|u| - 1];
    forall k ensures WithKey(u', k) == WithKey(v', k) {
      assert WithKey(u, k) == WithKey(v, k);
      var pu, pv := WithKey(u', k), WithKey(v', k);
      if DateKey(last) == k {
        assert WithKey(u, k) == pu + [last];
        assert WithKey(v, k) == pv + [last];
        assert pu == (pu + [last])[..|pu|];
        assert pv == (pv + [last])[..|pv|];
      } else {
        assert WithKey(u, k) == pu + [] == pu;
        assert WithKey(v, k) == pv + [] == pv;
      }
    }
  }

  lemma {:induction false} SortedSameOrderPerDateEqual(u: seq<Invoice>, v: seq<Invoice>)
    requires Sorted(u) && Sorted(v)
    requires SameOrderPerDate(u, v)
    ensures u == v
    decreases |u|
  {
    SameOrderPerDateEmpty(u, v);
    if u != [] {
      SameLast(u, v);
      DropLast(u, v);
      var u', v' := u[..|u| - 1], v[..|v| - 1];
      assert Sorted(u') && Sorted(v');
      SortedSameOrderPerDateEqual(u', v');
      assert u == u' + [u[|u| - 1]];
      assert v == v' + [v[|v| - 1]];
    }
  }

  /** Any result that is sorted by date and keeps equal dates in input order is the
      specification's: every stable sort with this comparator yields StableSortByDate. */
  lemma StableSortUnique(s: seq<Invoice>, t: seq<Invoice>)
    requires Sorted(t) && SameOrderPerDate(t, s)
    ensures t == StableSortByDate(s)
  {
    StableSortSorted(s);
    StableSortStable(s);
    SortedSameOrderPerDateEqual(t, StableSortByDate(s));
  }

  // ---- The in-place sort of the copy

  /** Stable insertion sort with the comparator `dateA - dateB`: an element moves
      left only past elements with a strictly later date. */
  method InsertionSortByDate(a: array<Invoice>)
    modifies a
    ensures a[..] == StableSortByDate(old(a[..]))
  {
    ghost var s := a[..];
    var i := 0;
    while i < a.Length
      invariant 0 <= i <= a.Length
      invariant a[..i] == StableSortByDate(s[..i])
      invariant a[i..] == s[i..]
    {
      InsertAt(a, i);
      assert s[..i + 1][..i] == s[..i];
      i := i + 1;
    }
    assert a[..] == a[..a.Length];
    assert s == s[..a.Length];
  }

  /** One pass of the outer loop: moves `a[i]` left into the sorted prefix `a[..i]`. */
  method InsertAt(a: array<Invoice>, i: nat)
    requires i < a.Length
    modifies a
    ensures a[..i + 1] == Insert(old(a[..i]), old(a[i]))
    ensures a[i + 1..] == old(a[i + 1..])
  {
    ghost var p := a[..i];
    var x := a[i];
    var j := i;
    while j > 0 && DateKey(a[j - 1]) > DateKey(x)
      invariant 0 <= j <= i
      invariant a[j] == x
      invariant Insert(p, x) == Insert(a[..j], x) + a[j + 1..i + 1]
      invariant a[i + 1..] == old(a[i + 1..])
    {
      ghost var b := a[..];
      a[j - 1], a[j] := a[j], a[j - 1];
      SwapStep(b, a[..], j, i, x);
      j := j - 1;
    }
    ExitStep(a[..], j, i, x);
  }

  /** One move of the inner loop: swapping `x` left past a strictly later invoice
      keeps the pending insertion the same. */
  lemma SwapStep(b: seq<Invoice>, c: seq<Invoice>, j: nat, i: nat, x: Invoice)
    requires 0 < j <= i < |b| && b[j] == x && DateKey(b[j - 1]) > DateKey(x)
    requires c == b[j - 1 := x][j := b[j - 1]]
    ensures c[j - 1] == x
    ensures Insert(b[..j], x) + b[j + 1..i + 1] == Insert(c[..j - 1], x) + c[j..i + 1]
    ensures c[i + 1..] == b[i + 1..]
  {
    assert b[..j][..j - 1] == c[..j - 1];
    assert c[j..i + 1] == [b[j - 1]] + b[j + 1..i + 1];
  }

  /** When the inner loop stops, `x` sits where Insert puts it. */
  lemma ExitStep(a: seq<Invoice>, j: nat, i: nat, x: Invoice)
    requires j <= i < |a| && a[j] == x
    requires j == 0 || DateKey(a[j - 1]) <= DateKey(x)
    ensures Insert(a[..j], x) + a[j + 1..i + 1] == a[..i + 1]
  {
    assert Insert(a[..j], x) == a[..j] + [x];
    assert a[..i + 1] == a[..j] + [x] + a[j + 1..i + 1];
  }

  /** `[...invoices].sort(...)`: sorts a fresh copy; the caller's array is not in
      this method's frame, so its contents and order are unchanged. */
  method SortedCopy(invoices: array<Invoice>) returns (sorted: seq<Invoice>)
    ensures sorted == StableSortByDate(invoices[..])
    ensures |sorted| == invoices.Length
    ensures Sorted(sorted)
    ensures multiset(sorted) == multiset(invoices[..])
    ensures SameOrderPerDate(sorted, invoices[..])
  {
    var copy := new Invoice[invoices.Length](i reads invoices requires 0 <= i < invoices.Length => invoices[i]);
    assert copy[..] == invoices[..];
    InsertionSortByDate(copy);
    sorted := copy[..];
    StableSortSorted(invoices[..]);
    StableSortPermutation(invoices[..]);
    StableSortStable(invoices[..]);
  }
}

/**
 * The re-sort applied to the recorded variables after each block: entries by
 * size, largest first, keeping entries of equal size in the order they had
 * (a stable sort, as a sort with a key and `reverse` is). It is written as an
 * insertion sort that takes the entries from first to last.
 */
module SizeSort {
  import opened Inspector

  /** Sizes never increase from one entry to the next. */
  predicate SortedBySize(t: seq<Entry>) {
    forall i :: 0 < i < |t| ==> t[i - 1].size >= t[i].size
  }

  /** In a sorted table every entry is at least as large as every later one. */
  lemma {:induction false} SortedPairs(t: seq<Entry>)
    requires SortedBySize(t)
    ensures forall i, j :: 0 <= i < j < |t| ==> t[i].size >= t[j].size
  {
    if |t| > 1 {
      var tail := t[1..];
      assert forall i :: 0 < i < |tail| ==> tail[i - 1] == t[i] && tail[i] == t[i + 1];
      SortedPairs(tail);
      forall i, j | 0 <= i < j < |t| ensures t[i].size >= t[j].size {
        if i > 0 {
          assert tail[i - 1] == t[i] && tail[j - 1] == t[j];
        } else if j > 1 {
          assert tail[0] == t[1] && tail[j - 1] == t[j];
        }
      }
    }
  }

  /** The entries of `t` whose size is `k`, in their order in `t`. */
  function OfSize(t: seq<Entry>, k: nat): seq<Entry> {
    if t == [] then [] else (if t[0].size == k then [t[0]] else []) + OfSize(t[1..], k)
  }

  /** `a` occurs in `u` at some position before one where `b` occurs. */
  ghost predicate Before(u: seq<Entry>, a: Entry, b: Entry) {
    exists p, q :: 0 <= p < q < |u| && u[p] == a && u[q] == b
  }

  lemma BeforeShift(pre: seq<Entry>, u: seq<Entry>, a: Entry, b: Entry)
    requires Before(u, a, b)
    ensures Before(pre + u, a, b)
  {
    var p, q :| 0 <= p < q < |u| && u[p] == a && u[q] == b;
    assert (pre + u)[|pre| + p] == a && (pre + u)[|pre| + q] == b;
  }

  lemma BeforeHead(h: Entry, u: seq<Entry>, b: Entry)
    requires b in u
    ensures Before([h] + u, h, b)
  {
    var q :| 0 <= q < |u| && u[q] == b;
    assert ([h] + u)[0] == h && ([h] + u)[q + 1] == b;
  }

  /** The entries of one size are exactly the entries of `t` that have that size. */
  lemma {:induction false} OfSizeMembers(t: seq<Entry>, k: nat)
    ensures forall e :: e in OfSize(t, k) <==> e in t && e.size == k
  {
    if t != [] {
      OfSizeMembers(t[1..], k);
      assert t == [t[0]] + t[1..];
    }
  }

  /** Two entries of size `k`, one before the other in `t`, keep that order among the entries of size `k`. */
  lemma {:induction false} OfSizeKeepsOrder(t: seq<Entry>, k: nat)
    ensures forall i, j :: 0 <= i < j < |t| && t[i].size == k && t[j].size == k ==>
              Before(OfSize(t, k), t[i], t[j])
  {
    if t != [] {
      var h, r := t[0], t[1..];
      var head := if h.size == k then [h] else [];
      assert OfSize(t, k) == head + OfSize(r, k);
      OfSizeKeepsOrder(r, k);
      OfSizeMembers(r, k);
      forall i, j | 0 <= i < j < |t| && t[i].size == k && t[j].size == k
        ensures Before(OfSize(t, k), t[i], t[j])
      {
        assert t[j] == r[j - 1];
        if i == 0 {
          assert r[j - 1] in OfSize(r, k);
          BeforeHead(h, OfSize(r, k), t[j]);
        } else {
          assert t[i] == r[i - 1];
          BeforeShift(head, OfSize(r, k), t[i], t[j]);
        }
      }
    }
  }

  /** Two entries, one before the other among the entries of size `k`, come in that order in `t`. */
  lemma {:induction false} OfSizeFrom(t: seq<Entry>, k: nat, p: nat, q: nat)
    requires p < q < |OfSize(t, k)|
    ensures Before(t, OfSize(t, k)[p], OfSize(t, k)[q])
    decreases |t|
  {
    var h, r := t[0], t[1..];
    var o, or := OfSize(t, k), OfSize(r, k);
    assert t == [h] + r;
    if h.size != k {
      assert o == or;
      OfSizeFrom(r, k, p, q);
      BeforeShift([h], r, o[p], o[q]);
    } else if p == 0 {
      assert o == [h] + or && o[q] == or[q - 1];
      OfSizeMembers(r, k);
      BeforeHead(h, r, o[q]);
    } else {
      assert o == [h] + or && o[p] == or[p - 1] && o[q] == or[q - 1];
      OfSizeFrom(r, k, p - 1, q - 1);
      BeforeShift([h], r, o[p], o[q]);
    }
  }

  /**
   * Two entries of one size, one before the other in the sorted table, come
   * in that order in the table that was sorted.
   */
  lemma SortKeepsTies(t: seq<Entry>, i: nat, j: nat)
    requires i < j < |SortBySize(t)| && SortBySize(t)[i].size == SortBySize(t)[j].size
    ensures Before(t, SortBySize(t)[i], SortBySize(t)[j])
  {
    var r, k := SortBySize(t), SortBySize(t)[i].size;
    OfSizeKeepsOrder(r, k);
    var p, q :| 0 <= p < q < |OfSize(r, k)| && OfSize(r, k)[p] == r[i] && OfSize(r, k)[q] == r[j];
    SortIsStable(t, k);
    OfSizeFrom(t, k, p, q);
  }

  /** Puts `x` after the leading entries that are at least as large as it. */
  function Insert(t: seq<Entry>, x: Entry): seq<Entry> {
    if t == [] then [x]
    else if t[0].size >= x.size then [t[0]] + Insert(t[1..], x)
    else [x] + t
  }

  lemma {:induction false} InsertSorted(t: seq<Entry>, x: Entry)
    requires SortedBySize(t)
    ensures SortedBySize(Insert(t, x))
    ensures Insert(t, x)[0] == x || (t != [] && Insert(t, x)[0] == t[0])
  {
    if t != [] && t[0].size >= x.size {
      var tail := t[1..];
      assert forall i :: 0 < i < |tail| ==> tail[i - 1] == t[i] && tail[i] == t[i + 1];
      InsertSorted(tail, x);
    }
  }

  lemma {:induction false} InsertPermutes(t: seq<Entry>, x: Entry)
    ensures multiset(Insert(t, x)) == multiset(t) + multiset{x}
  {
    if t != [] && t[0].size >= x.size {
      var tail := t[1..];
      InsertPermutes(tail, x);
      assert Insert(t, x) == [t[0]] + Insert(tail, x);
      assert t == [t[0]] + tail;
      assert multiset(Insert(t, x)) == multiset{t[0]} + multiset(Insert(tail, x));
    }
  }

  /** The entries of `t` by size, largest first; equal sizes keep their order. */
  function SortBySize(t: seq<Entry>): (r: seq<Entry>)
    ensures SortedBySize(r)
    ensures multiset(r) == multiset(t)
  {
    if t == [] then []
    else
      var init, x := t[..|t| - 1], t[|t| - 1];
      assert t == init + [x];
      InsertSorted(SortBySize(init), x);
      InsertPermutes(SortBySize(init), x);
      Insert(SortBySize(init), x)
  }

  lemma {:induction false} OfSizeAppend(a: seq<Entry>, b: seq<Entry>, k: nat)
    ensures OfSize(a + b, k) == OfSize(a, k) + OfSize(b, k)
  {
    if a != [] {
      var head := if a[0].size == k then [a[0]] else [];
      calc {
        OfSize(a + b, k);
        { assert (a + b)[0] == a[0] && (a + b)[1..] == a[1..] + b; }
        head + OfSize(a[1..] + b, k);
        { OfSizeAppend(a[1..], b, k); }
        head + (OfSize(a[1..], k) + OfSize(b, k));
        (head + OfSize(a[1..], k)) + OfSize(b, k);
        OfSize(a, k) + OfSize(b, k);
      }
    } else {
      assert a + b == b;
    }
  }

  lemma {:induction false} OfSizeSmaller(t: seq<Entry>, k: nat)
    requires SortedBySize(t)
    requires t != [] ==> t[0].size < k
    ensures OfSize(t, k) == []
  {
    if t != [] {
      OfSizeSmaller(t[1..], k);
    }
  }

  lemma OfSizeCons(a: Entry, t: seq<Entry>, k: nat)
    ensures OfSize([a] + t, k) == (if a.size == k then [a] else []) + OfSize(t, k)
  {
    assert ([a] + t)[0] == a && ([a] + t)[1..] == t;
  }

  lemma {:induction false} InsertStable(t: seq<Entry>, x: Entry, k: nat)
    requires SortedBySize(t)
    ensures OfSize(Insert(t, x), k) == OfSize(t, k) + (if x.size == k then [x] else [])
  {
    var tail := if x.size == k then [x] else [];
    if t == [] {
      OfSizeCons(x, [], k);
    } else if t[0].size >= x.size {
      var head := if t[0].size == k then [t[0]] else [];
      calc {
        OfSize(Insert(t, x), k);
        OfSize([t[0]] + Insert(t[1..], x), k);
        { OfSizeCons(t[0], Insert(t[1..], x), k); }
        head + OfSize(Insert(t[1..], x), k);
        { InsertStable(t[1..], x, k); }
        head + (OfSize(t[1..], k) + tail);
        (head + OfSize(t[1..], k)) + tail;
        OfSize(t, k) + tail;
      }
    } else {
      OfSizeCons(x, t, k);
      if x.size == k {
        OfSizeSmaller(t, k);
      }
    }
  }

  /** Entries of one size come out of the sort in the order they went in. */
  lemma {:induction false} SortIsStable(t: seq<Entry>, k: nat)
    ensures OfSize(SortBySize(t), k) == OfSize(t, k)
  {
    if t != [] {
      var init, x := t[..|t| - 1], t[|t| - 1];
      var tail := if x.size == k then [x] else [];
      calc {
        OfSize(SortBySize(t), k);
        OfSize(Insert(SortBySize(init), x), k);
        { InsertStable(SortBySize(init), x, k); }
        OfSize(SortBySize(init), k) + tail;
        { SortIsStable(init, k); }
        OfSize(init, k) + tail;
        { assert [x][1..] == []; }
        OfSize(init, k) + OfSize([x], k);
        { OfSizeAppend(init, [x], k); }
        OfSize(init + [x], k);
        { assert init + [x] == t; }
        OfSize(t, k);
      }
    }
  }

  lemma {:induction false} InsertLast(t: seq<Entry>, x: Entry)
    requires SortedBySize(t)
    requires t != [] ==> t[|t| - 1].size >= x.size
    ensures Insert(t, x) == t + [x]
  {
    if t != [] {
      var tail := t[1..];
      assert forall i :: 0 < i < |tail| ==> tail[i - 1] == t[i] && tail[i] == t[i + 1];
      SortedPairs(t);
      InsertLast(tail, x);
      assert t == [t[0]] + tail;
    }
  }

  lemma SortedPrefix(t: seq<Entry>, n: nat)
    requires SortedBySize(t) && n <= |t|
    ensures SortedBySize(t[..n])
  {
    assert forall i :: 0 <= i < n ==> t[..n][i] == t[i];
  }

  /** Sorting what is already sorted changes nothing. */
  lemma {:induction false} SortOfSorted(t: seq<Entry>)
    requires SortedBySize(t)
    ensures SortBySize(t) == t
  {
    if t != [] {
      var init, x := t[..|t| - 1], t[|t| - 1];
      SortedPrefix(t, |t| - 1);
      assert SortBySize(init) == init by {
        SortOfSorted(init);
      }
      assert Insert(init, x) == t by {
        assert init != [] ==> init[|init| - 1] == t[|t| - 2];
        InsertLast(init, x);
        assert init + [x] == t;
      }
      assert SortBySize(t) == Insert(SortBySize(init), x);
    }
  }

  lemma SortSnoc(s: seq<Entry>, y: Entry)
    ensures SortBySize(s + [y]) == Insert(SortBySize(s), y)
  {
    assert (s + [y])[..|s + [y]| - 1] == s;
  }

  /** Re-sorting after appending gives what one sort of everything gives. */
  lemma {:induction false} SortAfterSort(a: seq<Entry>, b: seq<Entry>)
    ensures SortBySize(SortBySize(a) + b) == SortBySize(a + b)
  {
    var sa := SortBySize(a);
    if b == [] {
      assert sa + b == sa;
      assert a + b == a;
      SortOfSorted(sa);
    } else {
      var init, y := b[..|b| - 1], b[|b| - 1];
      assert sa + b == (sa + init) + [y];
      assert a + b == (a + init) + [y];
      SortSnoc(sa + init, y);
      SortSnoc(a + init, y);
      SortAfterSort(a, init);
    }
  }

  lemma InsertNames(t: seq<Entry>, x: Entry)
    ensures Names(Insert(t, x)) == Names(t) + {x.name}
  {
    InsertPermutes(t, x);
    NamesOfPermutation(Insert(t, x), t + [x]);
    NamesAppend(t, [x]);
    assert Names([x]) == {x.name};
  }

  lemma {:induction false} InsertKeepsDistinct(t: seq<Entry>, x: Entry)
    requires Distinct(t)
    requires x.name !in Names(t)
    ensures Distinct(Insert(t, x))
  {
    if t == [] {
    } else if t[0].size >= x.size {
      var a, tail := t[0], t[1..];
      assert t == [a] + tail;
      assert x.name !in Names(tail) && a.name != x.name by {
        NamesAppend([a], tail);
        NameIn(t, 0);
      }
      assert Distinct(tail);
      assert a.name !in Names(tail) by {
        NameNotIn(tail, a.name);
      }
      InsertKeepsDistinct(tail, x);
      InsertNames(tail, x);
      DistinctCons(a, Insert(tail, x));
    } else {
      DistinctCons(x, t);
    }
  }

  lemma {:induction false} SortKeepsDistinct(t: seq<Entry>)
    requires Distinct(t)
    ensures Distinct(SortBySize(t))
  {
    if t != [] {
      var init, x := t[..|t| - 1], t[|t| - 1];
      SortKeepsDistinct(init);
      NamesOfPermutation(SortBySize(init), init);
      forall e | e in init ensures e.name != x.name {
        var i :| 0 <= i < |init| && init[i] == e;
        assert t[i] == e;
      }
      assert x.name !in Names(init);
      InsertKeepsDistinct(SortBySize(init), x);
    }
  }
}

/** Sparse indexed arrays as values: index-sorted entries and the finite maps they stand for. */
module Entries {
  import opened Options

  /** An element's value; a null `char *` is None. */
  type Text = Option<string>

  datatype Entry = Entry(ind: int, value: Text)

  type Contents = map<int, Text>

  ghost predicate Sorted(es: seq<Entry>) {
    && (forall j :: 0 <= j < |es| ==> es[j].ind >= 0)
    && (forall j, k :: 0 <= j < k < |es| ==> es[j].ind < es[k].ind)
  }

  /** The highest index, or -1 for an empty array. */
  function Highest(es: seq<Entry>): int {
    if es == [] then -1 else es[|es| - 1].ind
  }

  /** The finite map a list of entries stands for. */
  function MapOf(es: seq<Entry>): Contents {
    if es == [] then map[]
    else MapOf(es[..|es| - 1])[es[|es| - 1].ind := es[|es| - 1].value]
  }

  lemma {:induction false} MapKeys(es: seq<Entry>, i: int)
    ensures i in MapOf(es) <==> exists j :: 0 <= j < |es| && es[j].ind == i
  {
    if es != [] {
      var n := |es| - 1;
      MapKeys(es[..n], i);
      if i in MapOf(es[..n]) {
        var j :| 0 <= j < n && es[..n][j].ind == i;
        assert es[j].ind == i;
      }
    }
  }

  lemma {:induction false} MapAt(es: seq<Entry>, j: nat)
    requires Sorted(es) && j < |es|
    ensures es[j].ind in MapOf(es) && MapOf(es)[es[j].ind] == es[j].value
  {
    var n := |es| - 1;
    if j < n {
      MapAt(es[..n], j);
      assert es[..n][j] == es[j];
    }
  }

  ghost function IndexOf(es: seq<Entry>, i: int): (j: nat)
    requires i in MapOf(es)
    ensures j < |es| && es[j].ind == i
  {
    MapKeys(es, i);
    var j :| 0 <= j < |es| && es[j].ind == i;
    j
  }

  /** An index strictly between its neighbours is not present. */
  lemma AbsentBetween(es: seq<Entry>, k: nat, i: int)
    requires Sorted(es) && k <= |es|
    requires (k > 0 ==> es[k - 1].ind < i) && (k < |es| ==> i < es[k].ind)
    ensures i !in MapOf(es)
  {
    MapKeys(es, i);
  }

  /** No entry lies strictly between indices x and i. */
  ghost predicate Beside(es: seq<Entry>, x: int, i: int) {
    forall e <- es :: !(x < e.ind < i) && !(i < e.ind < x)
  }

  lemma BesideItself(es: seq<Entry>, i: int)
    ensures Beside(es, i, i)
  {}

  lemma BesideGap(es: seq<Entry>, k: nat, i: int)
    requires Sorted(es) && 0 < k < |es| && es[k - 1].ind < i < es[k].ind
    ensures Beside(es, es[k - 1].ind, i) && Beside(es, es[k].ind, i)
  {}

  function InsertAt<T>(s: seq<T>, k: nat, x: T): (t: seq<T>)
    requires k <= |s|
    ensures |t| == |s| + 1 && t[k] == x
    ensures forall j :: 0 <= j < |t| && j != k ==> t[j] == s[if j < k then j else j - 1]
  {
    s[..k] + [x] + s[k..]
  }

  function DeleteAt<T>(s: seq<T>, k: nat): (t: seq<T>)
    requires k < |s|
    ensures |t| == |s| - 1
    ensures forall j :: 0 <= j < |t| ==> t[j] == s[if j < k then j else j + 1]
  {
    s[..k] + s[k + 1..]
  }

  /** A sorted list stands for the map that agrees with it on every entry and has no other key. */
  lemma MapBy(es: seq<Entry>, m: Contents)
    requires Sorted(es)
    requires forall j :: 0 <= j < |es| ==> es[j].ind in m && m[es[j].ind] == es[j].value
    requires forall i :: i in m ==> exists j :: 0 <= j < |es| && es[j].ind == i
    ensures MapOf(es) == m
  {
    forall i ensures i in MapOf(es) <==> i in m { MapKeys(es, i); }
    forall i | i in MapOf(es) ensures MapOf(es)[i] == m[i] {
      MapAt(es, IndexOf(es, i));
    }
  }

  lemma InOrder(es: seq<Entry>, j: nat, k: nat)
    requires Sorted(es) && j < k < |es|
    ensures es[j].ind < es[k].ind
  {}

  lemma NonNegative(es: seq<Entry>)
    requires Sorted(es) && es != []
    ensures es[0].ind >= 0
  {}

  /** An index that goes in at k is above the entries before it and below the others. */
  lemma NotThere(es: seq<Entry>, k: nat, i: int, j: nat)
    requires Sorted(es) && k <= |es| && j < |es|
    requires (k > 0 ==> es[k - 1].ind < i) && (k < |es| ==> i < es[k].ind)
    ensures j < k ==> es[j].ind < i
    ensures j >= k ==> i < es[j].ind
  {}

  lemma InsertInOrder(es: seq<Entry>, k: nat, e: Entry)
    requires Sorted(es) && k <= |es| && e.ind >= 0
    requires (k > 0 ==> es[k - 1].ind < e.ind) && (k < |es| ==> e.ind < es[k].ind)
    ensures Sorted(InsertAt(es, k, e))
  {
    hide InsertAt;
  }

  /** An insertion between its neighbours is the update of the map. */
  lemma InsertSorted(es: seq<Entry>, k: nat, e: Entry)
    requires Sorted(es) && k <= |es| && e.ind >= 0
    requires (k > 0 ==> es[k - 1].ind < e.ind) && (k < |es| ==> e.ind < es[k].ind)
    ensures Sorted(InsertAt(es, k, e)) && MapOf(InsertAt(es, k, e)) == MapOf(es)[e.ind := e.value]
  {
    hide MapOf, InsertAt, Sorted;
    var fs, m := InsertAt(es, k, e), MapOf(es)[e.ind := e.value];
    InsertInOrder(es, k, e);
    forall j | 0 <= j < |fs| ensures fs[j].ind in m && m[fs[j].ind] == fs[j].value {
      if j != k {
        var j0 := if j < k then j else j - 1;
        NotThere(es, k, e.ind, j0);
        MapAt(es, j0);
      }
    }
    forall i | i in m ensures exists j :: 0 <= j < |fs| && fs[j].ind == i {
      if i == e.ind {
        assert fs[k].ind == i;
      } else {
        var j := IndexOf(es, i);
        assert fs[if j < k then j else j + 1].ind == i;
      }
    }
    MapBy(fs, m);
  }

  lemma ReplaceSorted(es: seq<Entry>, k: nat, v: Text)
    requires Sorted(es) && k < |es|
    ensures var e := Entry(es[k].ind, v); Sorted(es[k := e]) && MapOf(es[k := e]) == MapOf(es)[e.ind := v]
  {
    hide MapOf;
    var e := Entry(es[k].ind, v);
    var fs, m := es[k := e], MapOf(es)[e.ind := v];
    forall j | 0 <= j < |es| ensures fs[j].ind in m && m[fs[j].ind] == fs[j].value {
      MapAt(es, j);
    }
    forall i | i in m ensures exists j :: 0 <= j < |fs| && fs[j].ind == i {
      var j := if i == e.ind then k else IndexOf(es, i);
      assert fs[j].ind == i;
    }
    MapBy(fs, m);
  }

  lemma DeleteInOrder(es: seq<Entry>, k: nat)
    requires Sorted(es) && k < |es|
    ensures Sorted(DeleteAt(es, k))
  {
    hide DeleteAt;
  }

  /** A deletion removes the one key from the map. */
  lemma DeleteSorted(es: seq<Entry>, k: nat)
    requires Sorted(es) && k < |es|
    ensures Sorted(DeleteAt(es, k)) && MapOf(DeleteAt(es, k)) == MapOf(es) - {es[k].ind}
  {
    hide MapOf, DeleteAt, Sorted;
    var fs, m := DeleteAt(es, k), MapOf(es) - {es[k].ind};
    DeleteInOrder(es, k);
    forall j | 0 <= j < |fs| ensures fs[j].ind in m && m[fs[j].ind] == fs[j].value {
      var j0 := if j < k then j else j + 1;
      if j0 < k { InOrder(es, j0, k); } else { InOrder(es, k, j0); }
      MapAt(es, j0);
    }
    forall i | i in m ensures exists j :: 0 <= j < |fs| && fs[j].ind == i {
      var j := IndexOf(es, i);
      assert fs[if j < k then j else j - 1].ind == i;
    }
    MapBy(fs, m);
  }

  /** The k-th lowest index is at least k, however sparse the array. */
  lemma {:induction false} IndexAtLeast(es: seq<Entry>, k: nat)
    requires Sorted(es) && k < |es|
    ensures es[k].ind >= k
  {
    if k > 0 { IndexAtLeast(es, k - 1); }
  }

  function Renumber(es: seq<Entry>, delta: int): (fs: seq<Entry>)
    ensures |fs| == |es| && forall j :: 0 <= j < |es| ==> fs[j] == Entry(es[j].ind + delta, es[j].value)
  {
    seq(|es|, j requires 0 <= j < |es| => Entry(es[j].ind + delta, es[j].value))
  }

  /** The entries with the indices from the k-th on moved by delta. */
  function Raised(es: seq<Entry>, k: nat, delta: int): (fs: seq<Entry>)
    requires k <= |es|
    ensures |fs| == |es|
    ensures forall j :: 0 <= j < |es| ==> fs[j] == Entry(es[j].ind + if j < k then 0 else delta, es[j].value)
  {
    es[..k] + Renumber(es[k..], delta)
  }

  /** `array_shift`: drop the n lowest entries and lower the others by n. */
  function Shifted(es: seq<Entry>, n: int): seq<Entry> {
    if n <= 0 then es else if n >= |es| then [] else Renumber(es[n..], -n)
  }

  /** `array_rshift`: raise all indices by n; a given value becomes the new element 0. */
  function RShifted(es: seq<Entry>, n: int, s: Text): seq<Entry> {
    if (es == [] && s == None) || n <= 0 then es
    else (if s.Some? then [Entry(0, s)] else []) + Renumber(es, n)
  }

  lemma ShiftedSorted(es: seq<Entry>, n: int)
    requires Sorted(es)
    ensures Sorted(Shifted(es, n))
  {
    if 0 < n < |es| {
      var fs := Renumber(es[n..], -n);
      forall j | 0 <= j < |fs| ensures fs[j].ind >= 0 {
        IndexAtLeast(es, n + j);
      }
    }
  }

  lemma RShiftedSorted(es: seq<Entry>, n: int, s: Text)
    requires Sorted(es)
    ensures Sorted(RShifted(es, n, s))
  {}

  /** Shifting moves every kept value from index i to index i - n and nothing else. */
  lemma ShiftedMap(es: seq<Entry>, n: nat, i: int)
    requires Sorted(es) && 0 < n < |es|
    ensures i in MapOf(Shifted(es, n)) <==> i + n >= es[n].ind && i + n in MapOf(es)
    ensures i in MapOf(Shifted(es, n)) ==> MapOf(Shifted(es, n))[i] == MapOf(es)[i + n]
  {
    hide MapOf;
    var fs := Shifted(es, n);
    ShiftedSorted(es, n);
    if i in MapOf(fs) {
      var j := IndexOf(fs, i);
      MapAt(fs, j);
      MapAt(es, n + j);
    }
    if i + n >= es[n].ind && i + n in MapOf(es) {
      var j := IndexOf(es, i + n);
      assert j >= n;
      MapAt(fs, j - n);
    }
  }

  /** Raising moves every value from index i to index i + n, and a given value is the new element 0. */
  lemma RShiftedMap(es: seq<Entry>, n: nat, s: Text, i: int)
    requires Sorted(es) && n > 0
    ensures var m := MapOf(RShifted(es, n, s));
            && (i in m <==> (i == 0 && s.Some?) || i - n in MapOf(es))
            && (i - n in MapOf(es) ==> m[i] == MapOf(es)[i - n])
            && (i == 0 && s.Some? ==> m[i] == s)
  {
    hide MapOf, RShifted, Sorted, Renumber;
    var fs, up, d := RShifted(es, n, s), Renumber(es, n), if s.Some? then 1 else 0;
    RShiftedSorted(es, n, s);
    RShiftedIs(es, n, s);
    if i in MapOf(fs) {
      var j := IndexOf(fs, i);
      MapAt(fs, j);
      if j >= d {
        assert fs[j] == up[j - d];
        MapAt(es, j - d);
      }
    }
    if i - n in MapOf(es) {
      var j := IndexOf(es, i - n);
      MapAt(es, j);
      assert fs[j + d] == up[j];
      MapAt(fs, j + d);
    }
    if i == 0 && s.Some? {
      MapAt(fs, 0);
    }
  }

  lemma RShiftedIs(es: seq<Entry>, n: nat, s: Text)
    requires n > 0
    ensures s.None? ==> RShifted(es, n, s) == Renumber(es, n)
    ensures s.Some? ==> RShifted(es, n, s) == [Entry(0, s)] + Renumber(es, n)
  {}

  /** A push (`array_rshift` by one with a value) and then a pop (`array_shift` by one) restore the array. */
  lemma PushPop(es: seq<Entry>, v: string)
    ensures Shifted(RShifted(es, 1, Some(v)), 1) == es
  {
    var up := RShifted(es, 1, Some(v));
    assert up == [Entry(0, Some(v))] + Renumber(es, 1);
    if es == [] {
      assert |up| == 1;
    } else {
      assert up[1..] == Renumber(es, 1);
    }
  }

  lemma RaisedIsShifted(es: seq<Entry>, n: nat)
    requires 0 < n < |es|
    ensures Raised(es[n..], 0, 0 - n) == Shifted(es, n)
  {}

  /** A new element 0 in front, before the others are renumbered. */
  function Pushed(s: Text, es: seq<Entry>): (fs: seq<Entry>)
    ensures |fs| == |es| + 1
  {
    [Entry(0, s)] + es
  }

  lemma RaisedIsRShifted(es: seq<Entry>, n: nat, s: Text)
    requires n > 0 && (es != [] || s.Some?)
    ensures RShifted(es, n, s) == if s.Some? then Raised(Pushed(s, es), 1, n) else Raised(es, 0, n)
  {}

  lemma RShiftedNothing(es: seq<Entry>, n: int, s: Text)
    requires (es == [] && s == None) || n <= 0
    ensures RShifted(es, n, s) == es
  {}

  lemma RShiftedEmpty(n: nat, s: Text)
    requires n > 0 && s.Some?
    ensures RShifted([], n, s) == Pushed(s, []) && Highest(Pushed(s, [])) == 0
  {}
}

/** Indexed arrays kept as a growable flat table (array2.c). */
module FlatArray {
  import opened Entries
  import opened Options

  const ARRAY_MAX_DOUBLE := 16777216
  const ARRAY_DEFAULT_SIZE := 1024

  /** A table slot: null, or an element with its value (its index is the slot's). */
  type Slot = Option<Text>

  /** The finite map a table stands for. */
  function Table(s: seq<Slot>): Contents {
    map i | 0 <= i < |s| && s[i].Some? :: s[i].value
  }

  lemma TableAt(s: seq<Slot>, i: int)
    ensures i in Table(s) <==> 0 <= i < |s| && s[i].Some?
    ensures i in Table(s) ==> Table(s)[i] == s[i].value
  {}

  lemma TableSet(s: seq<Slot>, i: nat, v: Text)
    requires i < |s|
    ensures Table(s[i := Some(v)]) == Table(s)[i := v]
    ensures |Table(s[i := Some(v)])| == |Table(s)| + if s[i].Some? then 0 else 1
  {
    var m, m' := Table(s), Table(s[i := Some(v)]);
    forall j ensures j in m' <==> j in m || j == i {
      TableAt(s, j);
    }
    assert m' == m[i := v];
    assert m'.Keys == m.Keys + {i};
  }

  lemma TableClear(s: seq<Slot>, i: nat)
    requires i < |s|
    ensures Table(s[i := None]) == Table(s) - {i}
    ensures |Table(s[i := None])| == |Table(s)| - if s[i].Some? then 1 else 0
  {
    var m, m' := Table(s), Table(s[i := None]);
    assert m' == m - {i};
    assert m'.Keys == m.Keys - {i};
  }

  lemma TableEmpty(s: seq<Slot>)
    ensures |Table(s)| == 0 <==> forall i :: 0 <= i < |s| ==> s[i] == None
  {
    if |Table(s)| == 0 {
      forall i | 0 <= i < |s| ensures s[i] == None {
        assert i !in Table(s).Keys;
      }
    } else {
      var i :| i in Table(s).Keys;
      assert s[i] != None;
    }
  }

  /** The slots after a resize: kept when there are enough, else the first n, filled up with nulls. */
  function Resized(s: seq<Slot>, n: nat, max: int): (t: seq<Slot>)
    ensures n > max ==> |t| >= n
  {
    if |s| > 0 && max <= n <= |s| then s
    else seq(n, i requires 0 <= i < n => if i < |s| then s[i] else None)
  }

  class FlatArray {
    var maxIndex: int
    var firstIndex: int
    var numElements: int
    var elements: array<Slot>

    ghost function Contents(): Entries.Contents
      reads this`elements, elements
    {
      Table(elements[..])
    }

    /** `max_index` and `num_elements` are exact; `first_index` is only a lower bound. */
    ghost predicate Valid()
      reads this, elements
    {
      && -1 <= firstIndex <= maxIndex + 1 <= elements.Length
      && (forall i :: 0 <= i < elements.Length && elements[i] != None ==> 0 <= firstIndex <= i <= maxIndex)
      && (maxIndex >= 0 ==> elements[maxIndex] != None)
      && numElements == |Contents()|
    }

    constructor ()
      ensures Valid() && fresh(elements) && Contents() == map[]
    {
      maxIndex, firstIndex, numElements := -1, -1, 0;
      elements := new Slot[0];
      new;
      TableEmpty(elements[..]);
    }

    /** `array_resize`: the table gets n slots unless it has them; below `max_index` it is cut and no longer valid. */
    method Resize(n: nat)
      requires Valid()
      modifies this`elements
      ensures elements[..] == Resized(old(elements[..]), n, maxIndex)
      ensures elements == old(elements) || fresh(elements)
      ensures Valid() <==> n >= maxIndex
      ensures Valid() ==> Contents() == old(Contents())
    {
      if elements.Length > 0 && n >= maxIndex && n <= elements.Length {
        return;
      }
      var e := new Slot[n];
      var i := 0;
      while i < n
        invariant 0 <= i <= n
        invariant forall j :: 0 <= j < i ==> e[j] == if j < elements.Length then elements[j] else None
        modifies e
      {
        e[i] := if i < elements.Length then elements[i] else None;
        i := i + 1;
      }
      elements := e;
      assert elements[..] == Resized(old(elements[..]), n, maxIndex);
      if n > maxIndex {
        assert Contents() == old(Contents());
      }
    }

    /** `array_expand`: doubling, or a fixed step above the limit, always leaves a slot for n. */
    method Expand(n: nat)
      requires Valid()
      modifies this
      ensures Valid() && Contents() == old(Contents()) && n < elements.Length
      ensures elements == old(elements) || fresh(elements)
    {
      if n >= elements.Length {
        var nsize := if elements.Length != 0 then elements.Length else ARRAY_DEFAULT_SIZE;
        while n >= nsize
          invariant nsize > 0
        {
          nsize := nsize * 2;
        }
        if nsize > ARRAY_MAX_DOUBLE {
          nsize := n + ARRAY_DEFAULT_SIZE;
        }
        Resize(nsize);
      }
    }

    /** `array_flush`. */
    method Flush()
      requires Valid()
      modifies this, elements
      ensures Valid() && Contents() == map[] && elements == old(elements)
    {
      TableEmpty(elements[..]);
      if numElements == 0 {
        maxIndex, firstIndex := -1, -1;
        return;
      }
      var r := firstIndex;
      while r <= maxIndex
        invariant 0 <= firstIndex <= r <= maxIndex + 1 <= elements.Length
        invariant forall i :: 0 <= i < elements.Length && elements[i] != None ==> r <= i <= maxIndex
        modifies elements
      {
        elements[r] := None;
        r := r + 1;
      }
      maxIndex, firstIndex, numElements := -1, -1, 0;
      TableEmpty(elements[..]);
    }

    /** `array_insert`: the map gains or changes the one key; a new element is reported as -1. */
    method Insert(i: nat, v: Text) returns (r: int)
      requires Valid()
      modifies this, elements
      ensures Valid() && Contents() == old(Contents())[i := v]
      ensures r == if i in old(Contents()) then 0 else -1
      ensures elements == old(elements) || fresh(elements)
    {
      hide Table;
      TableAt(elements[..], i);
      if i >= elements.Length {
        Expand(i);
      }
      r := Store(i, v);
    }

    /** The end of `array_insert`, with a slot for i. */
    method Store(i: nat, v: Text) returns (r: int)
      requires Valid() && i < elements.Length
      modifies this`maxIndex, this`firstIndex, this`numElements, elements
      ensures Valid() && Contents() == old(Contents())[i := v]
      ensures r == if i in old(Contents()) then 0 else -1
    {
      hide Table;
      TableAt(elements[..], i);
      TableSet(elements[..], i, v);
      var prior := elements[i];
      if i > maxIndex {
        maxIndex := i;
      }
      if firstIndex < 0 || i < firstIndex {
        firstIndex := i;
      }
      ghost var s := elements[..];
      elements[i] := Some(v);
      assert elements[..] == s[i := Some(v)];
      if prior != None {
        return 0;
      }
      numElements := numElements + 1;
      return -1;
    }

    /** Every element lies between the two bounds. */
    ghost predicate Bounded()
      reads this, elements
    {
      && 0 <= firstIndex <= maxIndex + 1 <= elements.Length
      && forall i :: 0 <= i < elements.Length && elements[i] != None ==> firstIndex <= i <= maxIndex
    }

    /** After slot i was cleared, bring `max_index` down to the highest element. */
    method LowerMax(i: int)
      requires Bounded() && 0 <= i <= maxIndex && elements[i] == None
      requires maxIndex != i ==> elements[maxIndex] != None
      requires (forall j :: 0 <= j < elements.Length ==> elements[j] == None) ==> firstIndex == 0
      modifies this`maxIndex
      ensures Bounded() && (maxIndex >= 0 ==> elements[maxIndex] != None)
    {
      if i == maxIndex {
        var ind := i;
        while ind >= firstIndex && elements[ind] == None
          invariant firstIndex - 1 <= ind <= i
          invariant forall j :: ind < j < elements.Length ==> elements[j] == None
        {
          ind := ind - 1;
        }
        maxIndex := ind;
      }
    }

    /** After slot i was cleared, bring `first_index` up if it pointed there. */
    method RaiseFirst(i: int)
      requires Bounded() && 0 <= i < elements.Length && elements[i] == None
      modifies this`firstIndex
      ensures Bounded()
    {
      if i == firstIndex {
        var ind := i;
        while ind <= maxIndex && elements[ind] == None
          invariant firstIndex <= ind <= maxIndex + 1
          invariant forall j :: 0 <= j < ind ==> elements[j] == None
        {
          ind := ind + 1;
        }
        firstIndex := ind;
      }
    }

    /** `array_remove`: the element leaves and both bounds are repaired. */
    method Remove(i: int) returns (e: Slot)
      requires Valid()
      modifies this, elements
      ensures Valid() && Contents() == old(Contents()) - {i} && elements == old(elements)
      ensures e == if i in old(Contents()) then Some(old(Contents())[i]) else None
    {
      hide Table;
      TableAt(elements[..], i);
      TableEmpty(elements[..]);
      if numElements == 0 {
        return None;
      }
      if i > maxIndex || i < firstIndex {
        return None;
      }
      e := elements[i];
      TableClear(elements[..], i);
      ghost var s := elements[..];
      elements[i] := None;
      assert elements[..] == s[i := None];
      if e != None {
        numElements := numElements - 1;
        TableEmpty(elements[..]);
        if numElements == 0 {
          firstIndex := if maxIndex == -1 then 1 else 0;
        }
        LowerMax(i);
        RaiseFirst(i);
      }
    }

    /** `array_reference`. */
    method Reference(i: int) returns (v: Text)
      requires Valid()
      ensures v == if i in Contents() then Contents()[i] else None
    {
      hide Table;
      TableAt(elements[..], i);
      TableEmpty(elements[..]);
      if numElements == 0 {
        return None;
      }
      if i > maxIndex || i < firstIndex {
        return None;
      }
      var ae := elements[i];
      return if ae != None then ae.value else None;
    }
  }
}

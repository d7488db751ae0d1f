/** Compound assignment to an indexed array, and the words an array prints as (arrayfunc.c, array.c). */
module Compound {
  import opened Int64
  import opened Numerals
  import opened Ladder
  import opened Expressions
  import opened Options
  import Faithful
  import ExprLaws
  import Evaluator
  import En = Entries
  import L = LinkedArray

  type Contents = En.Contents

  /** A word of the list: a bare value, or `[sub]=value` or `[sub]+=value`. */
  datatype Element = Bare(text: string) | Subscripted(sub: string, append: bool, value: string)

  /** The array's contents, the next index to use, the shell variables, and whether an error stopped the list. */
  datatype Progress = Progress(m: Contents, next: int, store: Store, stopped: bool)

  ghost predicate IsTop(m: Contents, k: int) {
    k in m && forall j :: j in m ==> j <= k
  }

  /** The highest index, or -1 when there is none. */
  ghost function MaxKey(m: Contents): int {
    if exists k :: IsTop(m, k) then var k :| IsTop(m, k); k else -1
  }

  /** The text at an index, with an unset or null element read as the empty string. */
  function TextAt(m: Contents, i: int): string {
    if i in m && m[i].Some? then m[i].value else ""
  }

  function Put(m: Contents, i: int, append: bool, v: string): Contents {
    m[i := Some(if append then TextAt(m, i) + v else v)]
  }

  ghost function AssignWord(s: Progress, w: Element): Progress {
    if s.stopped then s
    else
      match w
      case Bare(t) => s.(m := Put(s.m, s.next, false, t), next := s.next + 1)
      case Subscripted(sub, append, v) =>
        if sub == "" || sub == "@" || sub == "*" then s
        else
          match SubExpr(sub, 0, s.store)
          case Failed(_, st) => s.(store := st, stopped := true)
          case Value(n, st) =>
            var i := if n < 0 then MaxKey(s.m) + 1 + n else n;
            if i < 0 then s.(store := st)
            else Progress(Put(s.m, i, append, v), i + 1, st, false)
  }

  ghost function AssignAll(s: Progress, ws: seq<Element>): Progress {
    if ws == [] then s else AssignWord(AssignAll(s, ws[..|ws| - 1]), ws[|ws| - 1])
  }

  /** Where a list starts: over the old contents when appending, from nothing otherwise. */
  ghost function StartOf(m: Contents, append: bool, store: Store): Progress {
    if append then Progress(m, MaxKey(m) + 1, store, false) else Progress(map[], 0, store, false)
  }

  lemma HighestIsMax(es: seq<En.Entry>)
    requires En.Sorted(es)
    ensures En.Highest(es) == MaxKey(En.MapOf(es))
  {
    var m := En.MapOf(es);
    if es != [] {
      var top := es[|es| - 1].ind;
      En.MapAt(es, |es| - 1);
      forall j | j in m ensures j <= top {
        var i := En.IndexOf(es, j);
      }
      assert IsTop(m, top);
    }
  }

  /** `bind_array_var_internal` on an indexed array. */
  method BindElement(a: L.LinkedArray, i: int, v: string, append: bool)
    requires a.Valid() && i >= 0
    modifies a, a.nodes
    ensures a.Valid() && a.Contents() == Put(old(a.Contents()), i, append, v)
    ensures forall n <- a.nodes :: n in old(a.nodes) || fresh(n)
  {
    hide En.MapOf;
    var newval := v;
    if append {
      var prior := a.Reference(i);
      newval := (if prior.Some? then prior.value else "") + v;
    }
    var _ := a.Insert(i, Some(newval));
  }

  /** One word of `assign_compound_array_list`; ends the list when the subscript does not evaluate. */
  method AssignElement(a: L.LinkedArray, ev: Evaluator.Evaluator, w: Element, last: int)
    returns (next: int, stopped: bool)
    requires a.Valid() && ev.stack == [] && last >= 0
    modifies a, a.nodes, ev
    ensures a.Valid() && ev.stack == [] && next >= 0
    ensures Progress(a.Contents(), next, ev.store, stopped) ==
            AssignWord(Progress(old(a.Contents()), last, old(ev.store), false), w)
    ensures forall n <- a.nodes :: n in old(a.nodes) || fresh(n)
  {
    hide En.MapOf, MaxKey, SubExpr, Put;
    if w.Bare? {
      BindElement(a, last, w.text, false);
      return last + 1, false;
    }
    if w.sub == "" {
      return last, false;
    }
    if w.sub == "@" || w.sub == "*" {
      return last, false;
    }
    var ind, valid := ev.EvalExp(w.sub);
    if !valid {
      return last, true;
    }
    HighestIsMax(a.entries);
    if ind < 0 {
      ind := a.maxIndex + 1 + ind;
    }
    if ind < 0 {
      return last, false;
    }
    BindElement(a, ind, w.value, w.append);
    return ind + 1, false;
  }

  /** `assign_compound_array_list` for an indexed array is the fold of its words. */
  method AssignCompound(a: L.LinkedArray, ev: Evaluator.Evaluator, words: seq<Element>, append: bool)
    returns (stopped: bool)
    requires a.Valid() && ev.stack == []
    modifies a, a.nodes, ev
    ensures a.Valid() && ev.stack == []
    ensures var s := AssignAll(StartOf(old(a.Contents()), append, old(ev.store)), words);
            a.Contents() == s.m && ev.store == s.store && stopped == s.stopped
  {
    hide En.MapOf, MaxKey, AssignWord, StartOf;
    StartFields(a.entries, append, ev.store);
    ghost var s := StartOf(a.Contents(), append, ev.store);
    if !append {
      a.Flush();
    }
    var last := if append then a.maxIndex + 1 else 0;
    stopped := false;
    var k := 0;
    while k < |words| && !stopped
      invariant 0 <= k <= |words| && last >= 0
      invariant a.Valid() && ev.stack == []
      invariant forall j :: 0 <= j < |a.nodes| ==> a.nodes[j] in old(a.nodes) || fresh(a.nodes[j])
      invariant Progress(a.Contents(), last, ev.store, stopped) == AssignAll(s, words[..k])
    {
      assert words[..k + 1][..k] == words[..k];
      ghost var before := a.nodes;
      last, stopped := AssignElement(a, ev, words[k], last);
      forall j | 0 <= j < |a.nodes| ensures a.nodes[j] in old(a.nodes) || fresh(a.nodes[j]) {
        if a.nodes[j] in before {
          var i :| 0 <= i < |before| && before[i] == a.nodes[j];
        }
      }
      k := k + 1;
    }
    if stopped {
      StoppedStays(s, words, k);
    }
    assert words[..|words|] == words;
  }

  lemma StartFields(es: seq<En.Entry>, append: bool, store: Store)
    requires En.Sorted(es)
    ensures StartOf(En.MapOf(es), append, store) ==
            if append then Progress(En.MapOf(es), En.Highest(es) + 1, store, false)
            else Progress(En.MapOf([]), 0, store, false)
  {
    HighestIsMax(es);
  }

  lemma {:induction false} StoppedStays(s: Progress, ws: seq<Element>, k: nat)
    requires k <= |ws| && AssignAll(s, ws[..k]).stopped
    ensures AssignAll(s, ws) == AssignAll(s, ws[..k])
    decreases |ws|
  {
    if k < |ws| {
      var rest := ws[..|ws| - 1];
      assert rest[..k] == ws[..k];
      StoppedStays(s, rest, k);
    } else {
      assert ws[..k] == ws;
    }
  }

  /** A decimal subscript evaluates to itself, whatever the shell variables are. */
  lemma DecimalSubscript(v: int, store: Store)
    requires InRange(v)
    ensures SubExpr(Itos(v), 0, store) == Value(v, store)
  {
    hide SubExpr, Itos, Spells, Print, WellFormed, Constant, Meaning;
    var env := Env(map[], store);
    assert store + map[] == store;
    Faithful.AnyStore(store);
    Faithful.ItosSpells(v);
    Faithful.ConstantWellFormed(v);
    Faithful.TextMeans(Constant(v), Itos(v), 0, store, env);
    ExprLaws.ConstantMeans(v, 1, env);
  }

  lemma TopIsMax(m: Contents, h: int)
    requires IsTop(m, h)
    ensures MaxKey(m) == h
  {}

  /** `[i]=v` or `[i]+=v` with a decimal subscript. */
  function Indexed(i: int, append: bool, v: string): Element {
    Subscripted(Itos(i), append, v)
  }

  lemma IndexedAssigns(s: Progress, i: int, append: bool, v: string)
    requires !s.stopped && InRange(i)
    ensures var j := if i < 0 then MaxKey(s.m) + 1 + i else i;
            AssignWord(s, Indexed(i, append, v)) ==
            if j < 0 then s else Progress(Put(s.m, j, append, v), j + 1, s.store, false)
  {
    hide SubExpr, Itos, Put, MaxKey;
    IndexText(i);
    DecimalSubscript(i, s.store);
  }

  /** `[i]=v` sets one element, and the next bare word goes behind it. */
  lemma SetsOne(s: Progress, i: nat, v: string)
    requires !s.stopped && InRange(i)
    ensures AssignWord(s, Indexed(i, false, v)) == Progress(s.m[i := Some(v)], i + 1, s.store, false)
  {
    hide SubExpr, Itos, MaxKey, AssignWord;
    IndexedAssigns(s, i, false, v);
  }

  /** `[i]+=v` is `[i]=` with v behind the text that was there; an element that is unset or null counts as empty. */
  lemma AppendsBehind(s: Progress, i: nat, u: string, v: string)
    requires !s.stopped && InRange(i)
    ensures i in s.m && s.m[i] == Some(u) ==>
              AssignWord(s, Indexed(i, true, v)) == AssignWord(s, Indexed(i, false, u + v))
    ensures i !in s.m || s.m[i] == None ==>
              AssignWord(s, Indexed(i, true, v)) == AssignWord(s, Indexed(i, false, v))
    ensures AssignWord(AssignWord(s, Indexed(i, false, u)), Indexed(i, true, v)) ==
            AssignWord(s, Indexed(i, false, u + v))
  {
    hide SubExpr, Itos, MaxKey, AssignWord, Indexed;
    IndexedAssigns(s, i, true, v);
    IndexedAssigns(s, i, false, v);
    IndexedAssigns(s, i, false, u);
    IndexedAssigns(s, i, false, u + v);
    IndexedAssigns(Progress(s.m[i := Some(u)], i + 1, s.store, false), i, true, v);
    assert s.m[i := Some(u)][i := Some(u + v)] == s.m[i := Some(u + v)];
    assert "" + v == v;
  }

  /** `[-k]` counts from the highest index h: it means `[h + 1 - k]`, and nothing if that is negative. */
  lemma CountsFromTop(s: Progress, h: int, k: int, append: bool, v: string)
    requires !s.stopped && IsTop(s.m, h) && InRange(h) && k > 0 && InRange(-k)
    ensures AssignWord(s, Indexed(-k, append, v)) ==
            if k <= h + 1 then AssignWord(s, Indexed(h + 1 - k, append, v)) else s
  {
    hide SubExpr, Itos, MaxKey, AssignWord, Indexed, Put, IsTop;
    TopIsMax(s.m, h);
    IndexedAssigns(s, -k, append, v);
    if k <= h + 1 {
      IndexedAssigns(s, h + 1 - k, append, v);
    }
  }

  /** An empty array has nothing to count from. */
  lemma NothingToCount(s: Progress, k: int, append: bool, v: string)
    requires !s.stopped && s.m == map[] && k > 0 && InRange(-k)
    ensures AssignWord(s, Indexed(-k, append, v)) == s
  {
    hide SubExpr, Itos, AssignWord, Indexed, Put;
    assert forall j :: !IsTop(s.m, j);
    IndexedAssigns(s, -k, append, v);
  }

  /** Any subscript counts by its value alone, and what its evaluation does to variables stays. */
  lemma SubscriptByValue(s: Progress, sub: string, append: bool, v: string)
    requires !s.stopped && sub !in {"", "@", "*"}
    ensures match SubExpr(sub, 0, s.store)
            case Value(n, st) =>
              AssignWord(s, Subscripted(sub, append, v)) == AssignWord(s.(store := st), Indexed(n, append, v))
            case Failed(_, st) => AssignWord(s, Subscripted(sub, append, v)) == s.(store := st, stopped := true)
  {
    hide SubExpr, Itos, Put, MaxKey;
    match SubExpr(sub, 0, s.store)
    case Value(n, st) => IndexedAssigns(s.(store := st), n, append, v);
    case Failed(_, _) =>
  }

  /** An empty subscript, `@` and `*` are passed over. */
  lemma NoSubscript(s: Progress, sub: string, append: bool, v: string)
    requires sub in {"", "@", "*"}
    ensures AssignWord(s, Subscripted(sub, append, v)) == s
  {}

  /** The element words of `array_to_assign`. */
  function Words(es: seq<En.Entry>): seq<Element> {
    seq(|es|, j requires 0 <= j < |es| => WordOf(es[j]))
  }

  function WordOf(e: En.Entry): Element {
    Subscripted(Itos(e.ind), false, if e.value.Some? then e.value.value else "")
  }

  /** Every null value read as the empty string. */
  function Filled(m: Contents): Contents {
    map i | i in m :: Some(TextAt(m, i))
  }

  /** The loop of `array_to_assign` over the list. */
  method ToWords(a: L.LinkedArray) returns (ws: seq<Element>)
    requires a.Valid()
    ensures ws == Words(a.entries)
  {
    hide L.Ring, L.Carries, a.Linked;
    ws := [];
    a.Ends();
    var ae := a.head.next;
    ghost var q := 0;
    while ae != a.head
      invariant 0 <= q <= |a.entries| && ae == a.nodes[if q == |a.entries| then 0 else q + 1]
      invariant ws == Words(a.entries)[..q]
      decreases |a.entries| - q
    {
      a.At(q);
      ws := ws + [Subscripted(Itos(ae.ind), false, if ae.value.Some? then ae.value.value else "")];
      ae, q := ae.next, q + 1;
    }
    if q < |a.entries| { a.At(q); }
  }

  /** Printing an array and assigning the words to any array restores the contents. */
  lemma {:induction false} PrintAssign(es: seq<En.Entry>, store: Store)
    requires En.Sorted(es) && forall e <- es :: InRange(e.ind)
    ensures AssignAll(Progress(map[], 0, store, false), Words(es)) ==
            Progress(Filled(En.MapOf(es)), En.Highest(es) + 1, store, false)
  {
    hide SubExpr, Itos, Put, Filled, AssignWord, Words, En.Sorted;
    FilledEmpty();
    WordsSplit(es);
    if es != [] {
      var n := |es| - 1;
      SortedFront(es);
      PrintAssign(es[..n], store);
      WordAssigns(En.MapOf(es[..n]), En.Highest(es[..n]) + 1, es[n], store);
    }
  }

  lemma SortedFront(es: seq<En.Entry>)
    requires En.Sorted(es) && es != []
    ensures En.Sorted(es[..|es| - 1]) && es[|es| - 1].ind >= 0
  {}

  lemma WordsSplit(es: seq<En.Entry>)
    ensures |Words(es)| == |es|
    ensures es != [] ==> var n := |es| - 1; Words(es)[..n] == Words(es[..n]) && Words(es)[n] == WordOf(es[n])
  {}

  /** One printed element puts its value back. */
  lemma WordAssigns(m: Contents, next: int, e: En.Entry, store: Store)
    requires 0 <= e.ind && InRange(e.ind)
    ensures AssignWord(Progress(Filled(m), next, store, false), WordOf(e)) ==
            Progress(Filled(m[e.ind := e.value]), e.ind + 1, store, false)
  {
    hide SubExpr, Itos, Put, Filled, MaxKey;
    FilledPut(m, e);
    IndexText(e.ind);
    DecimalSubscript(e.ind, store);
  }

  lemma IndexText(n: int)
    ensures Itos(n) != "" && Itos(n) != "@" && Itos(n) != "*"
  {}

  lemma FilledEmpty()
    ensures Filled(map[]) == map[]
  {}

  lemma FilledPut(m: Contents, e: En.Entry)
    ensures Filled(m[e.ind := e.value]) == Put(Filled(m), e.ind, false, if e.value.Some? then e.value.value else "")
  {}

  /** Any array, even the printed one itself, holds the printed contents after assigning their words without append. */
  method Restore(a: L.LinkedArray, b: L.LinkedArray, ev: Evaluator.Evaluator)
    requires a.Valid() && b.Valid() && ev.stack == [] && forall e <- a.entries :: InRange(e.ind)
    modifies b, b.nodes, ev
    ensures b.Valid() && b.Contents() == Filled(old(a.Contents())) && ev.store == old(ev.store)
  {
    PrintAssign(a.entries, ev.store);
    hide En.MapOf, AssignAll, Filled, MaxKey;
    var ws := ToWords(a);
    var _ := AssignCompound(b, ev, ws, false);
  }

  function Bares(texts: seq<string>): seq<Element> {
    seq(|texts|, j requires 0 <= j < |texts| => Bare(texts[j]))
  }

  lemma BareAssigns(s: Progress, t: string)
    requires !s.stopped
    ensures AssignWord(s, Bare(t)) == s.(m := s.m[s.next := Some(t)], next := s.next + 1)
  {}

  /** Bare words fill consecutive indices from the next one on, and touch nothing else. */
  lemma {:induction false} BareWordsFill(s: Progress, texts: seq<string>)
    requires !s.stopped
    ensures var r := AssignAll(s, Bares(texts));
            && !r.stopped && r.store == s.store && r.next == s.next + |texts|
            && (forall i :: i in r.m <==> i in s.m || s.next <= i < r.next)
            && (forall i :: i in r.m ==> r.m[i] == if s.next <= i < r.next then Some(texts[i - s.next]) else s.m[i])
  {
    hide AssignWord;
    if texts == [] {
      assert Bares(texts) == [];
    } else {
      var n := |texts| - 1;
      BareWordsFill(s, texts[..n]);
      assert Bares(texts)[..n] == Bares(texts[..n]) && Bares(texts)[n] == Bare(texts[n]);
      BareAssigns(AssignAll(s, Bares(texts[..n])), texts[n]);
    }
  }

  /** Appending bare words keeps every element and puts the words behind the highest index. */
  lemma AppendKeeps(es: seq<En.Entry>, texts: seq<string>, store: Store)
    requires En.Sorted(es)
    ensures var m, h := En.MapOf(es), En.Highest(es);
            var r := AssignAll(StartOf(m, true, store), Bares(texts));
            && (forall i :: i in m ==> i in r.m && r.m[i] == m[i])
            && (forall i :: h < i <= h + |texts| ==> i !in m && i in r.m && r.m[i] == Some(texts[i - h - 1]))
  {
    hide AssignAll, StartOf, En.MapOf, En.Sorted, En.Highest;
    StartFields(es, true, store);
    BareWordsFill(StartOf(En.MapOf(es), true, store), texts);
    forall i | i in En.MapOf(es) ensures i <= En.Highest(es) { NotAbove(es, i); }
  }

  lemma NotAbove(es: seq<En.Entry>, i: int)
    requires En.Sorted(es) && i in En.MapOf(es)
    ensures i <= En.Highest(es)
  {
    var j := En.IndexOf(es, i);
  }
}

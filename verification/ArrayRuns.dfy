/** The linked list and the flat table answer every run of operations alike. */
module ArrayRuns {
  import opened Entries
  import opened Options
  import L = LinkedArray
  import F = FlatArray

  datatype Op = Insert(ind: nat, v: Text) | Remove(i: int) | Reference(i: int) | Flush

  /** What an operation shows: the value removed, the value referenced, or nothing. */
  datatype Answer = Done | Removed(e: Option<Text>) | Value(v: Text)

  function Find(m: Contents, i: int): Option<Text> {
    if i in m then Some(m[i]) else None
  }

  /** One operation on a finite map. */
  function Next(m: Contents, op: Op): Contents {
    match op
    case Insert(i, v) => m[i := v]
    case Remove(i) => m - {i}
    case Reference(_) => m
    case Flush => map[]
  }

  function Shown(m: Contents, op: Op): Answer {
    match op
    case Insert(_, _) => Done
    case Remove(i) => Removed(Find(m, i))
    case Reference(i) => Value(if i in m then m[i] else None)
    case Flush => Done
  }

  function Answers(m: Contents, ops: seq<Op>): seq<Answer>
    decreases |ops|
  {
    if ops == [] then [] else [Shown(m, ops[0])] + Answers(Next(m, ops[0]), ops[1..])
  }

  method ListStep(a: L.LinkedArray, op: Op) returns (r: Answer)
    requires a.Valid()
    modifies a, a.nodes
    ensures a.Valid() && (forall n <- a.nodes :: n in old(a.nodes) || fresh(n))
    ensures a.Contents() == Next(old(a.Contents()), op) && r == Shown(old(a.Contents()), op)
  {
    hide MapOf;
    match op {
      case Insert(i, v) =>
        var _ := a.Insert(i, v);
        r := Done;
      case Remove(i) =>
        var e := a.Remove(i);
        r := Removed(if e == null then None else Some(e.value));
      case Reference(i) =>
        var v := a.Reference(i);
        r := Value(v);
      case Flush =>
        a.Flush();
        EmptyMap();
        r := Done;
    }
  }

  lemma EmptyMap()
    ensures MapOf([]) == map[]
  {}

  method TableStep(b: F.FlatArray, op: Op) returns (r: Answer)
    requires b.Valid()
    modifies b, b.elements
    ensures b.Valid() && (b.elements == old(b.elements) || fresh(b.elements))
    ensures b.Contents() == Next(old(b.Contents()), op) && r == Shown(old(b.Contents()), op)
  {
    hide F.Table;
    match op {
      case Insert(i, v) =>
        var _ := b.Insert(i, v);
        r := Done;
      case Remove(i) =>
        var e := b.Remove(i);
        r := Removed(e);
      case Reference(i) =>
        var v := b.Reference(i);
        r := Value(v);
      case Flush =>
        b.Flush();
        r := Done;
    }
  }

  lemma AnswersStep(m: Contents, ops: seq<Op>, k: nat, xs: seq<Answer>)
    requires k < |ops|
    ensures xs + Answers(m, ops[k..]) == (xs + [Shown(m, ops[k])]) + Answers(Next(m, ops[k]), ops[k + 1..])
  {
    assert ops[k..][0] == ops[k] && ops[k..][1..] == ops[k + 1..];
  }

  method RunList(ops: seq<Op>) returns (xs: seq<Answer>)
    ensures xs == Answers(map[], ops)
  {
    hide MapOf, Next, Shown;
    var a := new L.LinkedArray();
    xs := [];
    assert ops[0..] == ops;
    for k := 0 to |ops|
      invariant fresh(a) && fresh(a.nodes) && a.Valid()
      invariant xs + Answers(a.Contents(), ops[k..]) == Answers(map[], ops)
    {
      AnswersStep(a.Contents(), ops, k, xs);
      ghost var before := a.nodes;
      var x := ListStep(a, ops[k]);
      forall j | 0 <= j < |a.nodes| ensures fresh(a.nodes[j]) {
        if a.nodes[j] in before {
          var i :| 0 <= i < |before| && before[i] == a.nodes[j];
        }
      }
      xs := xs + [x];
    }
  }

  method RunTable(ops: seq<Op>) returns (ys: seq<Answer>)
    ensures ys == Answers(map[], ops)
  {
    hide F.Table, Next, Shown;
    var b := new F.FlatArray();
    ys := [];
    assert ops[0..] == ops;
    for k := 0 to |ops|
      invariant fresh(b) && fresh(b.elements) && b.Valid()
      invariant ys + Answers(b.Contents(), ops[k..]) == Answers(map[], ops)
    {
      AnswersStep(b.Contents(), ops, k, ys);
      var y := TableStep(b, ops[k]);
      ys := ys + [y];
    }
  }

  /** For every sequence of operations from creation on, both forms give the answers of a finite map. */
  method SameRun(ops: seq<Op>) returns (xs: seq<Answer>, ys: seq<Answer>)
    ensures xs == ys == Answers(map[], ops)
  {
    xs := RunList(ops);
    ys := RunTable(ops);
  }
}

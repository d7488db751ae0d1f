/** The addresses in a command tree, and which of them errexit does not reach. */
module Marks {
  import opened Commands

  /** A CMD_IGNORE_RETURN bit: on a COMMAND, or on the structure its `value` points to. */
  datatype Flag = OnCommand(id: nat) | OnValue(id: nat)

  function Ids(c: Cmd): set<nat> {
    match c
    case Null => {}
    case Simple(i, _, _) => {i}
    case Group(i, _, b) => {i} + Ids(b)
    case Seq(i, _, a, b) => {i} + Ids(a) + Ids(b)
    case AndOr(i, _, _, a, b) => {i} + Ids(a) + Ids(b)
    case If(i, _, t, a, b) => {i} + Ids(t) + Ids(a) + Ids(b)
    case Loop(i, _, _, t, a) => {i} + Ids(t) + Ids(a)
    case For(i, _, _, _, a) => {i} + Ids(a)
    case Case(i, _, _, cs) => {i} + ClauseIds(cs)
  }

  function ClauseIds(cs: Clauses): set<nat> {
    if cs.NoClause? then {} else Ids(cs.action) + ClauseIds(cs.next)
  }

  /** No two commands of the tree share an address. */
  predicate Own(c: Cmd) {
    match c
    case Null => true
    case Simple(_, _, _) => true
    case Group(i, _, b) => i !in Ids(b) && Own(b)
    case Seq(i, _, a, b) => i !in Ids(a) + Ids(b) && Ids(a) !! Ids(b) && Own(a) && Own(b)
    case AndOr(i, _, _, a, b) => i !in Ids(a) + Ids(b) && Ids(a) !! Ids(b) && Own(a) && Own(b)
    case If(i, _, t, a, b) =>
      i !in Ids(t) + Ids(a) + Ids(b) && Ids(t) !! Ids(a) !! Ids(b) && Own(t) && Own(a) && Own(b)
    case Loop(i, _, _, t, a) => i !in Ids(t) + Ids(a) && Ids(t) !! Ids(a) && Own(t) && Own(a)
    case For(i, _, _, _, a) => i !in Ids(a) && Own(a)
    case Case(i, _, _, cs) => i !in ClauseIds(cs) && OwnClauses(cs)
  }

  predicate OwnClauses(cs: Clauses) {
    cs.Clause? ==> Ids(cs.action) !! ClauseIds(cs.next) && Own(cs.action) && OwnClauses(cs.next)
  }

  /** The commands that errexit does not reach when the tree is run with `ign`. */
  function Cover(w: World, c: Cmd, ign: bool): (s: set<nat>)
    ensures s <= Ids(c)
  {
    if c.Null? then {}
    else
      var g := Covered(w, ign, c.inv);
      (if g then {c.id} else {}) +
      match c
      case Simple(_, _, _) => {}
      case Group(_, _, b) => Cover(w, b, g)
      case Seq(_, _, a, b) => Cover(w, a, g) + Cover(w, b, g)
      case AndOr(_, _, _, a, b) => Cover(w, a, true) + Cover(w, b, g)
      case If(_, _, t, a, b) => Cover(w, t, true) + Cover(w, a, g) + Cover(w, b, g)
      case Loop(_, _, _, t, a) => Cover(w, t, true) + Cover(w, a, g)
      case For(_, _, _, _, a) => Cover(w, a, g)
      case Case(_, _, _, cs) => CoverClauses(w, cs, g)
  }

  function CoverClauses(w: World, cs: Clauses, g: bool): (s: set<nat>)
    ensures s <= ClauseIds(cs)
  {
    if cs.NoClause? then {} else Cover(w, cs.action, g) + CoverClauses(w, cs.next, g)
  }

  /** The bits on the given addresses lie within the cover. */
  ghost predicate Within(marks: set<Flag>, ids: set<nat>, cover: set<nat>) {
    forall f :: f in marks && f.id in ids ==> f.id in cover
  }

  /** Bits are only added, and only within the cover or on addresses from n on. */
  ghost predicate Grows(m0: set<Flag>, m1: set<Flag>, cover: set<nat>, n: nat) {
    m0 <= m1 && forall f :: f in m1 && f !in m0 ==> f.id in cover || f.id >= n
  }

  /** Equal trees up to addresses. */
  predicate Same(c: Cmd, d: Cmd) {
    match c
    case Null => d.Null?
    case Simple(_, inv, p) => d.Simple? && d.inv == inv && d.prog == p
    case Group(_, inv, b) => d.Group? && d.inv == inv && Same(b, d.body)
    case Seq(_, inv, a, b) => d.Seq? && d.inv == inv && Same(a, d.first) && Same(b, d.second)
    case AndOr(_, inv, isAnd, a, b) =>
      d.AndOr? && d.inv == inv && d.isAnd == isAnd && Same(a, d.first) && Same(b, d.second)
    case If(_, inv, t, a, b) => d.If? && d.inv == inv && Same(t, d.test) && Same(a, d.thn) && Same(b, d.els)
    case Loop(_, inv, u, t, a) => d.Loop? && d.inv == inv && d.isUntil == u && Same(t, d.test) && Same(a, d.action)
    case For(_, inv, x, l, a) => d.For? && d.inv == inv && d.name == x && d.list == l && Same(a, d.action)
    case Case(_, inv, word, cs) => d.Case? && d.inv == inv && d.word == word && SameClauses(cs, d.clauses)
  }

  predicate SameClauses(cs: Clauses, ds: Clauses) {
    match cs
    case NoClause => ds.NoClause?
    case Clause(p, a, e, next) =>
      ds.Clause? && ds.pattern == p && ds.ending == e && Same(a, ds.action) && SameClauses(next, ds.next)
  }

  /** Running a tree does not depend on its addresses. */
  lemma {:induction false} RunSame(w: World, c: Cmd, d: Cmd, ign: bool, lvl: nat, st: State, fuel: nat)
    requires Same(c, d)
    ensures Run(w, c, ign, lvl, st, fuel) == Run(w, d, ign, lvl, st, fuel)
    decreases fuel, c, 1
  {
    if !c.Null? {
      var g := Covered(w, ign, c.inv);
      match c
      case Simple(_, _, _) =>
        assert SimpleOutcome(w, c, g, lvl, st, fuel) == SimpleOutcome(w, d, g, lvl, st, fuel);
        assert RunSimple(w, c, g, lvl, st, fuel) == RunSimple(w, d, g, lvl, st, fuel);
      case Group(_, _, b) => RunSame(w, b, d.body, g, lvl, st, fuel);
      case Seq(_, _, a, b) =>
        RunSame(w, a, d.first, g, lvl, st, fuel);
        RunSame(w, b, d.second, g, lvl, Run(w, a, g, lvl, st, fuel).st, fuel);
      case AndOr(_, _, _, a, b) =>
        RunSame(w, a, d.first, true, lvl, st, fuel);
        RunSame(w, b, d.second, g, lvl, Run(w, a, true, lvl, st, fuel).st, fuel);
      case If(_, _, t, a, b) =>
        RunSame(w, t, d.test, true, lvl, st, fuel);
        RunSame(w, a, d.thn, g, lvl, Run(w, t, true, lvl, st, fuel).st, fuel);
        RunSame(w, b, d.els, g, lvl, Run(w, t, true, lvl, st, fuel).st, fuel);
      case Loop(_, _, _, _, _) => RunLoopSame(w, c, d, g, lvl + 1, 0, st, fuel);
      case For(_, _, x, l, a) => RunForSame(w, x, w.words(l, st.env), a, d.action, g, lvl + 1, 0, st, fuel);
      case Case(_, _, word, cs) => RunCaseSame(w, w.text(word, st.env), cs, d.clauses, g, lvl, 0, st, fuel);
    }
  }

  lemma {:induction false} RunLoopSame(w: World, c: Cmd, d: Cmd, g: bool, lvl: nat, status: int, st: State, fuel: nat)
    requires c.Loop? && Same(c, d) && lvl >= 1
    ensures RunLoop(w, c, g, lvl, status, st, fuel) == RunLoop(w, d, g, lvl, status, st, fuel)
    decreases fuel, c, 0
  {
    RunSame(w, c.test, d.test, true, lvl, st, fuel);
    var r := Run(w, c.test, true, lvl, st, fuel);
    RunSame(w, c.action, d.action, g, lvl, r.st, fuel);
    var turn := LoopTurn(w, c, g, lvl, status, st, fuel);
    assert LoopTurn(w, d, g, lvl, status, st, fuel) == turn;
    if fuel > 0 && turn.Again? {
      RunLoopSame(w, c, d, g, lvl, turn.status, turn.st, fuel - 1);
    }
  }

  lemma {:induction false} RunForSame(w: World, x: string, words: seq<string>, a: Cmd, b: Cmd, g: bool, lvl: nat,
                                      status: int, st: State, fuel: nat)
    requires Same(a, b) && lvl >= 1
    ensures RunFor(w, x, words, a, g, lvl, status, st, fuel) == RunFor(w, x, words, b, g, lvl, status, st, fuel)
    decreases fuel, a, 2, |words|
  {
    if words != [] {
      var st1 := st.(env := st.env[x := words[0]]);
      RunSame(w, a, b, g, lvl, st1, fuel);
      var r := Run(w, a, g, lvl, st1, fuel);
      if Returns(r.exit) {
        RunForSame(w, x, words[1..], a, b, g, lvl, r.exit.status, r.st, fuel);
      }
    }
  }

  lemma {:induction false} RunCaseSame(w: World, word: string, cs: Clauses, ds: Clauses, g: bool, lvl: nat,
                                       status: int, st: State, fuel: nat)
    requires SameClauses(cs, ds)
    ensures RunCase(w, word, cs, g, lvl, status, st, fuel) == RunCase(w, word, ds, g, lvl, status, st, fuel)
    decreases fuel, cs, 3
  {
    if cs.Clause? {
      RunActionsSame(w, word, cs, ds, g, lvl, st, fuel);
      RunCaseSame(w, word, cs.next, ds.next, g, lvl, status, st, fuel);
    }
  }

  lemma {:induction false} RunActionsSame(w: World, word: string, cs: Clauses, ds: Clauses, g: bool, lvl: nat,
                                          st: State, fuel: nat)
    requires cs.Clause? && SameClauses(cs, ds)
    ensures RunActions(w, word, cs, g, lvl, st, fuel) == RunActions(w, word, ds, g, lvl, st, fuel)
    decreases fuel, cs, 2
  {
    RunSame(w, cs.action, ds.action, g, lvl, st, fuel);
    var r := Run(w, cs.action, g, lvl, st, fuel);
    if r.exit.Done? {
      RunCaseSame(w, word, cs.next, ds.next, g, lvl, r.exit.status, r.st, fuel);
      if cs.next.Clause? {
        RunActionsSame(w, word, cs.next, ds.next, g, lvl, r.st, fuel);
      }
    }
  }

  /** A tree that may be run with `ign`: its own addresses, below n, none of a function's, and bits within its cover. */
  ghost predicate Safe(w: World, m: set<Flag>, n: nat, c: Cmd, ign: bool) {
    && Own(c)
    && (forall i :: i in Ids(c) ==> i < n)
    && (forall f :: f in w.functions ==> Ids(w.functions[f]) !! Ids(c))
    && Within(m, Ids(c), Cover(w, c, ign))
    && (ign && !c.Null? ==> OnCommand(c.id) in m)
  }

  ghost predicate Under(ids: set<nat>, n: nat) {
    forall i :: i in ids ==> i < n
  }

  ghost predicate Below(m: set<Flag>, n: nat) {
    forall f :: f in m ==> f.id < n
  }

  /** No function definition carries a bit. */
  ghost predicate Pristine(w: World, m: set<Flag>, n: nat) {
    forall f :: f in w.functions ==>
      && Own(w.functions[f])
      && (forall i :: i in Ids(w.functions[f]) ==> i < n)
      && Within(m, Ids(w.functions[f]), {})
  }

  lemma GrowKeeps(w: World, m: set<Flag>, n: nat, m': set<Flag>, n': nat, cover: set<nat>, c: Cmd, ign: bool)
    requires Safe(w, m, n, c, ign) && Grows(m, m', cover, n) && n <= n'
    requires cover * Ids(c) <= Cover(w, c, ign)
    ensures Safe(w, m', n', c, ign)
  {}

  lemma GrowPristine(w: World, m: set<Flag>, n: nat, m': set<Flag>, n': nat, cover: set<nat>)
    requires Pristine(w, m, n) && Grows(m, m', cover, n) && n <= n'
    requires forall f :: f in w.functions ==> Ids(w.functions[f]) !! cover
    ensures Pristine(w, m', n')
  {}

  lemma SafeOwn(w: World, m: set<Flag>, n: nat, c: Cmd, ign: bool)
    requires Safe(w, m, n, c, ign)
    ensures Own(c)
  {}

  lemma GrowSelf(m: set<Flag>, cover: set<nat>, n: nat)
    ensures Grows(m, m, cover, n)
  {}

  lemma GrowWider(m: set<Flag>, m': set<Flag>, cover: set<nat>, n: nat)
    requires Grows(m, m', {}, n)
    ensures Grows(m, m', cover, n)
  {}

  lemma GrowTrans(m: set<Flag>, m1: set<Flag>, m2: set<Flag>, c1: set<nat>, c2: set<nat>, cover: set<nat>, n: nat,
                  n1: nat)
    requires Grows(m, m1, c1, n) && Grows(m1, m2, c2, n1) && n <= n1 && c1 <= cover && c2 <= cover
    ensures Grows(m, m2, cover, n)
  {}

  /** Corresponding commands of the two trees carry the same bits. */
  ghost predicate Mirrors(m: set<Flag>, c: Cmd, d: Cmd)
    requires Same(c, d)
  {
    c.Null? ||
    (&& SameBits(m, c.id, d.id)
     && match c
        case Simple(_, _, _) => true
        case Group(_, _, b) => Mirrors(m, b, d.body)
        case Seq(_, _, a, b) => Mirrors(m, a, d.first) && Mirrors(m, b, d.second)
        case AndOr(_, _, _, a, b) => Mirrors(m, a, d.first) && Mirrors(m, b, d.second)
        case If(_, _, t, a, b) => Mirrors(m, t, d.test) && Mirrors(m, a, d.thn) && Mirrors(m, b, d.els)
        case Loop(_, _, _, t, a) => Mirrors(m, t, d.test) && Mirrors(m, a, d.action)
        case For(_, _, _, _, a) => Mirrors(m, a, d.action)
        case Case(_, _, _, cs) => MirrorsClauses(m, cs, d.clauses))
  }

  ghost predicate MirrorsClauses(m: set<Flag>, cs: Clauses, ds: Clauses)
    requires SameClauses(cs, ds)
  {
    cs.Clause? ==> Mirrors(m, cs.action, ds.action) && MirrorsClauses(m, cs.next, ds.next)
  }

  ghost predicate SameBits(m: set<Flag>, i: nat, j: nat) {
    (OnCommand(i) in m <==> OnCommand(j) in m) && (OnValue(i) in m <==> OnValue(j) in m)
  }

  lemma {:induction false} MirrorClean(m: set<Flag>, c: Cmd, d: Cmd)
    requires Same(c, d) && Mirrors(m, c, d) && Within(m, Ids(c), {})
    ensures Within(m, Ids(d), {})
  {
    match c
    case Null =>
    case Simple(_, _, _) =>
    case Group(_, _, b) => MirrorClean(m, b, d.body);
    case Seq(_, _, a, b) => MirrorClean(m, a, d.first); MirrorClean(m, b, d.second);
    case AndOr(_, _, _, a, b) => MirrorClean(m, a, d.first); MirrorClean(m, b, d.second);
    case If(_, _, t, a, b) => MirrorClean(m, t, d.test); MirrorClean(m, a, d.thn); MirrorClean(m, b, d.els);
    case Loop(_, _, _, t, a) => MirrorClean(m, t, d.test); MirrorClean(m, a, d.action);
    case For(_, _, _, _, a) => MirrorClean(m, a, d.action);
    case Case(_, _, _, cs) => MirrorCleanClauses(m, cs, d.clauses);
  }

  lemma {:induction false} MirrorCleanClauses(m: set<Flag>, cs: Clauses, ds: Clauses)
    requires SameClauses(cs, ds) && MirrorsClauses(m, cs, ds) && Within(m, ClauseIds(cs), {})
    ensures Within(m, ClauseIds(ds), {})
  {
    if cs.Clause? {
      MirrorClean(m, cs.action, ds.action);
      MirrorCleanClauses(m, cs.next, ds.next);
    }
  }

  /** Bits added outside both trees leave the correspondence alone. */
  lemma {:induction false} MirrorKeeps(m: set<Flag>, m': set<Flag>, c: Cmd, d: Cmd)
    requires Same(c, d) && Mirrors(m, c, d) && m <= m'
    requires forall f :: f in m' && f !in m ==> f.id !in Ids(c) + Ids(d)
    ensures Mirrors(m', c, d)
  {
    match c
    case Null =>
    case Simple(_, _, _) =>
    case Group(_, _, b) => MirrorKeeps(m, m', b, d.body);
    case Seq(_, _, a, b) => MirrorKeeps(m, m', a, d.first); MirrorKeeps(m, m', b, d.second);
    case AndOr(_, _, _, a, b) => MirrorKeeps(m, m', a, d.first); MirrorKeeps(m, m', b, d.second);
    case If(_, _, t, a, b) => MirrorKeeps(m, m', t, d.test); MirrorKeeps(m, m', a, d.thn); MirrorKeeps(m, m', b, d.els);
    case Loop(_, _, _, t, a) => MirrorKeeps(m, m', t, d.test); MirrorKeeps(m, m', a, d.action);
    case For(_, _, _, _, a) => MirrorKeeps(m, m', a, d.action);
    case Case(_, _, _, cs) => MirrorKeepsClauses(m, m', cs, d.clauses);
  }

  lemma {:induction false} MirrorKeepsClauses(m: set<Flag>, m': set<Flag>, cs: Clauses, ds: Clauses)
    requires SameClauses(cs, ds) && MirrorsClauses(m, cs, ds) && m <= m'
    requires forall f :: f in m' && f !in m ==> f.id !in ClauseIds(cs) + ClauseIds(ds)
    ensures MirrorsClauses(m', cs, ds)
  {
    if cs.Clause? {
      MirrorKeeps(m, m', cs.action, ds.action);
      MirrorKeepsClauses(m, m', cs.next, ds.next);
    }
  }

  lemma MirrorGrow(m: set<Flag>, m': set<Flag>, n: nat, c: Cmd, d: Cmd)
    requires Same(c, d) && Mirrors(m, c, d) && Grows(m, m', {}, n)
    requires forall i :: i in Ids(c) + Ids(d) ==> i < n
    ensures Mirrors(m', c, d)
  {
    MirrorKeeps(m, m', c, d);
  }

  lemma MirrorGrowClauses(m: set<Flag>, m': set<Flag>, n: nat, cs: Clauses, ds: Clauses)
    requires SameClauses(cs, ds) && MirrorsClauses(m, cs, ds) && Grows(m, m', {}, n)
    requires forall i :: i in ClauseIds(cs) + ClauseIds(ds) ==> i < n
    ensures MirrorsClauses(m', cs, ds)
  {
    MirrorKeepsClauses(m, m', cs, ds);
  }

  function Size(c: Cmd): nat {
    match c
    case Null => 0
    case Simple(_, _, _) => 1
    case Group(_, _, b) => 1 + Size(b)
    case Seq(_, _, a, b) => 1 + Size(a) + Size(b)
    case AndOr(_, _, _, a, b) => 1 + Size(a) + Size(b)
    case If(_, _, t, a, b) => 1 + Size(t) + Size(a) + Size(b)
    case Loop(_, _, _, t, a) => 1 + Size(t) + Size(a)
    case For(_, _, _, _, a) => 1 + Size(a)
    case Case(_, _, _, cs) => 1 + ClauseSize(cs)
  }

  function ClauseSize(cs: Clauses): nat {
    if cs.NoClause? then 0 else 1 + Size(cs.action) + ClauseSize(cs.next)
  }

  /** rest is cs or comes later in it. */
  predicate Suffix(rest: Clauses, cs: Clauses) {
    rest == cs || (cs.Clause? && Suffix(rest, cs.next))
  }

  lemma {:induction false} SuffixFacts(rest: Clauses, cs: Clauses)
    requires Suffix(rest, cs)
    ensures ClauseSize(rest) <= ClauseSize(cs)
    ensures rest.Clause? ==> Suffix(rest.next, cs)
    decreases cs
  {
    if rest != cs { SuffixFacts(rest, cs.next); }
  }

  lemma {:induction false} SuffixTrans(a: Clauses, b: Clauses, c: Clauses)
    requires Suffix(a, b) && Suffix(b, c)
    ensures Suffix(a, c)
    decreases c
  {
    if b != c { SuffixTrans(a, b, c.next); }
  }

  /** d is a part of c that is run with `ign` when c is covered as g says. */
  ghost predicate Kid(w: World, c: Cmd, g: bool, d: Cmd, ign: bool) {
    && Own(d) && Ids(d) <= Ids(c) && Size(d) < Size(c)
    && Cover(w, d, ign) <= Cover(w, c, g) && Cover(w, c, g) * Ids(d) <= Cover(w, d, ign)
  }

  lemma Kids(w: World, c: Cmd, g: bool)
    requires (c.Group? || c.Seq? || c.AndOr? || c.For?) && Own(c) && g == Covered(w, g, c.inv)
    ensures c.Group? ==> Kid(w, c, g, c.body, g)
    ensures c.Seq? ==> Kid(w, c, g, c.first, g) && Kid(w, c, g, c.second, g)
    ensures c.AndOr? ==> Kid(w, c, g, c.first, true) && Kid(w, c, g, c.second, g)
    ensures c.For? ==> Kid(w, c, g, c.action, g)
  {}

  lemma IfKids(w: World, c: Cmd, g: bool)
    requires c.If? && Own(c) && g == Covered(w, g, c.inv)
    ensures Kid(w, c, g, c.test, true) && Kid(w, c, g, c.thn, g) && Kid(w, c, g, c.els, g)
  {}

  lemma LoopKids(w: World, c: Cmd, g: bool)
    requires c.Loop? && Own(c) && g == Covered(w, g, c.inv)
    ensures Kid(w, c, g, c.test, true) && Kid(w, c, g, c.action, g)
  {}

  lemma {:induction false} ClausePart(w: World, cs: Clauses, g: bool, rest: Clauses)
    requires OwnClauses(cs) && Suffix(rest, cs) && rest.Clause?
    ensures var d := rest.action;
            && Own(d) && Ids(d) <= ClauseIds(cs) && Size(d) < ClauseSize(rest)
            && Cover(w, d, g) <= CoverClauses(w, cs, g) && CoverClauses(w, cs, g) * Ids(d) <= Cover(w, d, g)
    decreases cs
  {
    if rest != cs { ClausePart(w, cs.next, g, rest); }
  }

  lemma ClauseKid(w: World, c: Cmd, g: bool, rest: Clauses)
    requires c.Case? && Own(c) && g == Covered(w, g, c.inv) && Suffix(rest, c.clauses) && rest.Clause?
    ensures Kid(w, c, g, rest.action, g) && Size(rest.action) < ClauseSize(rest)
  {
    ClausePart(w, c.clauses, g, rest);
    SuffixFacts(rest, c.clauses);
  }

  /** The machine's bits are sound: none on a function definition, none on an address not yet used. */
  ghost predicate Sound(w: World, m: set<Flag>, n: nat) {
    Pristine(w, m, n) && Below(m, n)
  }

  lemma KidSafe(w: World, m: set<Flag>, n: nat, c: Cmd, g: bool, d: Cmd, ign: bool)
    requires Safe(w, m, n, c, g) && Kid(w, c, g, d, ign) && (ign && !d.Null? ==> OnCommand(d.id) in m)
    ensures Safe(w, m, n, d, ign)
  {}

  /** Setting the bit of a covered part keeps everything in order. */
  lemma KidMarked(w: World, m0: set<Flag>, n0: nat, m: set<Flag>, n: nat, c: Cmd, g: bool, d: Cmd)
    requires Safe(w, m, n, c, g) && Sound(w, m, n) && Kid(w, c, g, d, true) && !d.Null?
    requires Grows(m0, m, Cover(w, c, g), n0) && n0 <= n
    ensures var m' := m + {OnCommand(d.id)};
            Safe(w, m', n, c, g) && Sound(w, m', n) && Grows(m0, m', Cover(w, c, g), n0)
  {
    assert d.id in Cover(w, d, true) && d.id in Ids(d);
  }

  /** Running a part keeps the whole ready to run. */
  lemma KidRan(w: World, m0: set<Flag>, n0: nat, m: set<Flag>, n: nat, m': set<Flag>, n': nat, c: Cmd, g: bool,
               d: Cmd, ign: bool)
    requires Safe(w, m, n, c, g) && Kid(w, c, g, d, ign)
    requires Grows(m0, m, Cover(w, c, g), n0) && n0 <= n && Grows(m, m', Cover(w, d, ign), n) && n <= n'
    ensures Safe(w, m', n', c, g) && Grows(m0, m', Cover(w, c, g), n0)
  {
    GrowKeeps(w, m, n, m', n', Cover(w, d, ign), c, g);
    GrowTrans(m0, m, m', Cover(w, c, g), Cover(w, d, ign), Cover(w, c, g), n0, n);
  }

  lemma SelfMarked(w: World, m: set<Flag>, n: nat, c: Cmd, ign: bool, f: Flag)
    requires Safe(w, m, n, c, ign) && Sound(w, m, n) && !c.Null? && Covered(w, ign, c.inv) && f.id == c.id
    ensures var m' := m + {f}; Safe(w, m', n, c, ign) && Sound(w, m', n) && Grows(m, m', Cover(w, c, ign), n)
  {
    assert c.id in Ids(c) && c.id in Cover(w, c, ign);
  }

  /** The bit on a command says whether it is covered, and so does the bit on its value once set. */
  lemma BitsTell(w: World, m: set<Flag>, n: nat, c: Cmd, ign: bool)
    requires Safe(w, m, n, c, ign) && !c.Null?
    ensures OnCommand(c.id) in m || OnValue(c.id) in m ==> Covered(w, ign, c.inv)
    ensures Covered(w, ign, c.inv) == (var g := Covered(w, ign, c.inv); Covered(w, g, c.inv))
    ensures Cover(w, c, ign) == Cover(w, c, Covered(w, ign, c.inv))
  {
    assert c.id in Ids(c);
    OwnRoot(w, c, ign);
  }

  /** After `!` has set its bit, the bit on the command is exactly its cover. */
  lemma Settled(w: World, m: set<Flag>, n: nat, c: Cmd, ign: bool)
    requires Safe(w, m, n, c, ign) && !c.Null? && (w.errexit && c.inv ==> OnCommand(c.id) in m)
    ensures var g := OnCommand(c.id) in m;
            && g == Covered(w, ign, c.inv) == Covered(w, g, c.inv)
            && Safe(w, m, n, c, g) && Cover(w, c, g) == Cover(w, c, ign)
  {
    BitsTell(w, m, n, c, ign);
    hide Cover;
  }

  lemma OwnRoot(w: World, c: Cmd, ign: bool)
    requires !c.Null? && Own(c)
    ensures c.id in Cover(w, c, ign) <==> Covered(w, ign, c.inv)
  {}

  /** A fresh copy of a function definition may be run, once its bit is set if the call is covered. */
  lemma CopyReady(w: World, m0: set<Flag>, n0: nat, m: set<Flag>, n: nat, f: string, tc: Cmd, ignore: bool)
    requires Sound(w, m0, n0) && f in w.functions && Grows(m0, m, {}, n0) && n0 <= n && Below(m, n)
    requires Same(w.functions[f], tc) && Own(tc) && Mirrors(m, w.functions[f], tc)
    requires forall i :: i in Ids(tc) ==> n0 <= i < n
    ensures var m' := if ignore && !tc.Null? then m + {OnCommand(tc.id)} else m;
            Safe(w, m', n, tc, ignore) && Sound(w, m', n) && Grows(m0, m', {}, n0)
  {
    GrowPristine(w, m0, n0, m, n, {});
    MirrorClean(m, w.functions[f], tc);
    if ignore && !tc.Null? {
      assert tc.id in Ids(tc) && tc.id in Cover(w, tc, true);
    }
  }

  lemma CopyRan(w: World, m0: set<Flag>, n0: nat, m: set<Flag>, n: nat, m': set<Flag>, n': nat, tc: Cmd, ignore: bool)
    requires Grows(m0, m, {}, n0) && n0 <= n && Grows(m, m', Cover(w, tc, ignore), n) && n <= n'
    requires forall i :: i in Ids(tc) ==> n0 <= i
    ensures Grows(m0, m', {}, n0)
  {}

  /** With bits m and addresses below n in use, d is a fresh and faithful copy of c made since m0 and n0. */
  ghost predicate Copied(m: set<Flag>, n: nat, c: Cmd, d: Cmd, m0: set<Flag>, n0: nat) {
    && Same(c, d) && Own(d) && Mirrors(m, c, d)
    && (forall i :: i in Ids(d) ==> n0 <= i < n)
    && Below(m, n) && Grows(m0, m, {}, n0) && n0 <= n
  }

  lemma CopiedKeeps(m: set<Flag>, n: nat, m': set<Flag>, n': nat, c: Cmd, d: Cmd, m0: set<Flag>, n0: nat)
    requires Copied(m, n, c, d, m0, n0) && Under(Ids(c), n0)
    requires Grows(m, m', {}, n) && n <= n' && Below(m', n')
    ensures Copied(m', n', c, d, m0, n0)
  {
    MirrorGrow(m, m', n, c, d);
    GrowTrans(m0, m, m', {}, {}, {}, n0, n);
  }

  lemma CopiedSince(m: set<Flag>, n: nat, c: Cmd, d: Cmd, m1: set<Flag>, n1: nat, m0: set<Flag>, n0: nat)
    requires Copied(m, n, c, d, m1, n1) && Grows(m0, m1, {}, n0) && n0 <= n1
    ensures Copied(m, n, c, d, m0, n0)
  {
    GrowTrans(m0, m1, m, {}, {}, {}, n0, n1);
  }

  /** Something on the way from c down to the command at i is a test, the left of `&&` or `||`, or inverted. */
  predicate Shielded(w: World, c: Cmd, i: nat) {
    !c.Null? &&
    ((w.errexit && c.inv) ||
     match c
     case Simple(_, _, _) => false
     case Group(_, _, b) => i in Ids(b) && Shielded(w, b, i)
     case Seq(_, _, a, b) => (i in Ids(a) && Shielded(w, a, i)) || (i in Ids(b) && Shielded(w, b, i))
     case AndOr(_, _, _, a, b) => i in Ids(a) || (i in Ids(b) && Shielded(w, b, i))
     case If(_, _, t, a, b) =>
       i in Ids(t) || (i in Ids(a) && Shielded(w, a, i)) || (i in Ids(b) && Shielded(w, b, i))
     case Loop(_, _, _, t, a) => i in Ids(t) || (i in Ids(a) && Shielded(w, a, i))
     case For(_, _, _, _, a) => i in Ids(a) && Shielded(w, a, i)
     case Case(_, _, _, cs) => i in ClauseIds(cs) && ShieldedClause(w, cs, i))
  }

  predicate ShieldedClause(w: World, cs: Clauses, i: nat) {
    cs.Clause? &&
    ((i in Ids(cs.action) && Shielded(w, cs.action, i)) || (i in ClauseIds(cs.next) && ShieldedClause(w, cs.next, i)))
  }

  /** The commands errexit does not reach are exactly those with such a shield above them. */
  lemma {:induction false} CoverIsShield(w: World, c: Cmd, ign: bool, i: nat)
    requires Own(c) && i in Ids(c)
    ensures i in Cover(w, c, ign) <==> ign || Shielded(w, c, i)
    decreases c
  {
    var g := Covered(w, ign, c.inv);
    match c
    case Simple(_, _, _) =>
    case Group(_, _, b) => if i in Ids(b) { CoverIsShield(w, b, g, i); }
    case Seq(_, _, a, b) =>
      if i in Ids(a) { CoverIsShield(w, a, g, i); }
      if i in Ids(b) { CoverIsShield(w, b, g, i); }
    case AndOr(_, _, _, a, b) =>
      if i in Ids(a) { CoverIsShield(w, a, true, i); }
      if i in Ids(b) { CoverIsShield(w, b, g, i); }
    case If(_, _, t, a, b) =>
      if i in Ids(t) { CoverIsShield(w, t, true, i); }
      if i in Ids(a) { CoverIsShield(w, a, g, i); }
      if i in Ids(b) { CoverIsShield(w, b, g, i); }
    case Loop(_, _, _, t, a) =>
      if i in Ids(t) { CoverIsShield(w, t, true, i); }
      if i in Ids(a) { CoverIsShield(w, a, g, i); }
    case For(_, _, _, _, a) => if i in Ids(a) { CoverIsShield(w, a, g, i); }
    case Case(_, _, _, cs) => if i in ClauseIds(cs) { ClauseCoverIsShield(w, cs, g, i); }
  }

  lemma {:induction false} ClauseCoverIsShield(w: World, cs: Clauses, g: bool, i: nat)
    requires OwnClauses(cs) && i in ClauseIds(cs)
    ensures i in CoverClauses(w, cs, g) <==> g || ShieldedClause(w, cs, i)
    decreases cs
  {
    if i in Ids(cs.action) { CoverIsShield(w, cs.action, g, i); }
    if i in ClauseIds(cs.next) { ClauseCoverIsShield(w, cs.next, g, i); }
  }
}

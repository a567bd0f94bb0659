/**
 `+=` on a String metric.  The generator walks the left side twice, once for
 the cell to store in and once for the text to add to
 (`internal/vm/codegen/codegen.go`, ADD_ASSIGN); in this model that is a
 store of `Joined(lv, e)`.  This module says when it is one update of one cell.
 */
module Appends {
  import opened Common
  import opened Syntax
  import opened Machine
  import opened Semantics
  import opened Decorators

  function Append(lv: LValue, e: Expr): Stmt { Store(lv, Joined(lv, e), SetTo(TString)) }

  /** What is meant: find the cell once, evaluate, put the text behind what the cell then holds. */
  function AppendCell(inp: Input, lv: LValue, e: Expr, s: State, hist: History): Exec {
    match EvalLValue(inp, lv, s, hist)
    case NoPlace(s1) => ExecError(s1)
    case Place(keys, s1) =>
      match EvalExpr(inp, e, s1, hist)
      case EvalError(s2) => ExecError(s2)
      case Val(p, s2) =>
        if ToStr(inp.host, p).Some? && Holds(s2, lv.metric, keys) && s2.tables[lv.metric].cells[keys].datum.DStr? then
          var c := s2.tables[lv.metric].cells[keys];
          Done(Put(s2, lv.metric, keys, c.(datum := DStr(c.datum.s + ToStr(inp.host, p).value))), hist)
        else ExecError(s2)
  }

  // ---- expressions that can be evaluated twice ----

  /** No `++`, no `--`, no search: nothing but metrics that are read, and may be created by that. */
  predicate Steady(e: Expr)
    decreases e, 1
  {
    match e
    case Leaf(t) => !t.Pattern?
    case Use(lv, how) => how.Get? && SteadyArgs(lv.args)
    case Unary(_, e1) => Steady(e1)
    case Binary(_, l, r) => Steady(l) && Steady(r)
    case Compare(_, _, l, r) => Steady(l) && Steady(r)
    case Logic(_, l, r) => Steady(l) && Steady(r)
    case StrMatch(_, _, _, _) => false
    case Joined(_, _) => false
  }

  predicate SteadyArgs(es: seq<Expr>)
    decreases es, 0
  {
    es != [] ==> Steady(es[0]) && SteadyArgs(es[1..])
  }

  /** More cells, and nothing else changed. */
  ghost predicate Wider(s: State, s': State) {
    && s'.matches == s.matches && |s'.tables| == |s.tables|
    && forall m :: 0 <= m < |s.tables| ==>
         && s'.tables[m].typ == s.tables[m].typ && s'.tables[m].arity == s.tables[m].arity
         && forall k :: k in s.tables[m].cells ==> k in s'.tables[m].cells && s'.tables[m].cells[k] == s.tables[m].cells[k]
  }

  lemma WiderThen(a: State, b: State, c: State)
    requires Wider(a, b) && Wider(b, c)
    ensures Wider(a, c)
  {
  }

  lemma {:induction false} Widens(inp: Input, e: Expr, s: State, hist: History)
    requires Steady(e)
    ensures Wider(s, EvalExpr(inp, e, s, hist).s)
    decreases e, 2
  {
    match e
    case Leaf(_) =>
    case Use(lv, _) => PlaceWidens(inp, lv, s, hist);
    case Unary(_, e1) => Widens(inp, e1, s, hist);
    case Binary(_, l, r) => PairWidens(inp, l, r, e, s, hist);
    case Compare(_, _, l, r) => PairWidens(inp, l, r, e, s, hist);
    case Logic(_, l, r) => PairWidens(inp, l, r, e, s, hist);
  }

  lemma {:induction false} PairWidens(inp: Input, l: Expr, r: Expr, e: Expr, s: State, hist: History)
    requires l < e && r < e && Steady(l) && Steady(r)
    ensures var x := EvalExpr(inp, l, s, hist);
            Wider(s, x.s) && Wider(x.s, EvalExpr(inp, r, x.s, hist).s) && Wider(s, EvalExpr(inp, r, x.s, hist).s)
    decreases e, 1
  {
    hide EvalExpr;
    var x := EvalExpr(inp, l, s, hist);
    Widens(inp, l, s, hist);
    Widens(inp, r, x.s, hist);
    WiderThen(s, x.s, EvalExpr(inp, r, x.s, hist).s);
  }

  lemma {:induction false} PlaceWidens(inp: Input, lv: LValue, s: State, hist: History)
    requires SteadyArgs(lv.args)
    ensures Wider(s, EvalTarget(inp, lv, s, hist).s) && Wider(s, EvalLValue(inp, lv, s, hist).s)
    decreases lv, 1
  {
    ArgsWiden(inp, lv.args, s, hist);
  }

  lemma {:induction false} ArgsWiden(inp: Input, es: seq<Expr>, s: State, hist: History)
    requires SteadyArgs(es)
    ensures Wider(s, EvalAll(inp, es, s, hist).s)
    decreases es, 0
  {
    if es != [] {
      var x := EvalExpr(inp, es[0], s, hist);
      Widens(inp, es[0], s, hist);
      if x.Val? {
        ArgsWiden(inp, es[1..], x.s, hist);
      }
    }
  }

  /** Wherever everything is that a first evaluation found or made, a second one gives the same and adds nothing. */
  lemma {:induction false} Repeats(inp: Input, e: Expr, s: State, hist: History, t: State)
    requires Steady(e) && EvalExpr(inp, e, s, hist).Val? && Wider(EvalExpr(inp, e, s, hist).s, t)
    ensures EvalExpr(inp, e, t, hist) == Val(EvalExpr(inp, e, s, hist).p, t)
    decreases e, 2
  {
    match e
    case Leaf(_) =>
    case Use(lv, _) => PlaceRepeats(inp, lv, s, hist, t);
    case Unary(_, e1) => Repeats(inp, e1, s, hist, t);
    case Binary(_, l, r) => PairRepeats(inp, l, r, e, s, hist, t);
    case Compare(_, _, l, r) => PairRepeats(inp, l, r, e, s, hist, t);
    case Logic(conj, l, r) =>
      if Decides(conj, EvalExpr(inp, l, s, hist).p) {
        Repeats(inp, l, s, hist, t);
      } else {
        PairRepeats(inp, l, r, e, s, hist, t);
      }
  }

  lemma {:induction false} PairRepeats(inp: Input, l: Expr, r: Expr, e: Expr, s: State, hist: History, t: State)
    requires l < e && r < e && Steady(l) && Steady(r) && EvalExpr(inp, l, s, hist).Val?
    requires var x := EvalExpr(inp, l, s, hist);
             EvalExpr(inp, r, x.s, hist).Val? && Wider(EvalExpr(inp, r, x.s, hist).s, t)
    ensures var x := EvalExpr(inp, l, s, hist);
            && EvalExpr(inp, l, t, hist) == Val(x.p, t)
            && EvalExpr(inp, r, t, hist) == Val(EvalExpr(inp, r, x.s, hist).p, t)
    decreases e, 1
  {
    hide EvalExpr;
    var x := EvalExpr(inp, l, s, hist);
    Widens(inp, r, x.s, hist);
    WiderThen(x.s, EvalExpr(inp, r, x.s, hist).s, t);
    Repeats(inp, l, s, hist, t);
    Repeats(inp, r, x.s, hist, t);
  }

  lemma {:induction false} PlaceRepeats(inp: Input, lv: LValue, s: State, hist: History, t: State)
    requires SteadyArgs(lv.args) && EvalLValue(inp, lv, s, hist).Place? && Wider(EvalLValue(inp, lv, s, hist).s, t)
    ensures EvalLValue(inp, lv, t, hist) == Place(EvalLValue(inp, lv, s, hist).keys, t)
    decreases lv, 1
  {
    var pl := EvalTarget(inp, lv, s, hist);
    assert Wider(pl.s, EvalLValue(inp, lv, s, hist).s);
    WiderThen(pl.s, EvalLValue(inp, lv, s, hist).s, t);
    ArgsRepeat(inp, lv.args, s, hist, t);
  }

  lemma {:induction false} ArgsRepeat(inp: Input, es: seq<Expr>, s: State, hist: History, t: State)
    requires SteadyArgs(es) && EvalAll(inp, es, s, hist).Vals? && Wider(EvalAll(inp, es, s, hist).s, t)
    ensures EvalAll(inp, es, t, hist) == Vals(EvalAll(inp, es, s, hist).ps, t)
    decreases es, 0
  {
    if es != [] {
      var x := EvalExpr(inp, es[0], s, hist);
      ArgsWiden(inp, es[1..], x.s, hist);
      WiderThen(x.s, EvalAll(inp, es[1..], x.s, hist).s, t);
      Repeats(inp, es[0], s, hist, t);
      ArgsRepeat(inp, es[1..], x.s, hist, t);
    }
  }

  // ---- the two walks differ in the slots of strings only ----

  /** The expression with its string slots taken off. */
  function Bare(e: Expr): Expr
    decreases e, 1
  {
    match e
    case Leaf(StrLit(text, _)) => Leaf(StrLit(text, 0))
    case Use(lv, how) => Use(BarePlace(lv), how)
    case Unary(op, e1) => Unary(op, Bare(e1))
    case Binary(op, l, r) => Binary(op, Bare(l), Bare(r))
    case Compare(rel, left, l, r) => Compare(rel, left, Bare(l), Bare(r))
    case Logic(conj, l, r) => Logic(conj, Bare(l), Bare(r))
    case _ => e
  }

  function BarePlace(lv: LValue): LValue
    decreases lv, 0
  {
    LValue(lv.metric, BareArgs(lv.args))
  }

  function BareArgs(es: seq<Expr>): seq<Expr>
    decreases es, 0
  {
    if es == [] then [] else [Bare(es[0])] + BareArgs(es[1..])
  }

  /** No slot has a part in what an expression means. */
  lemma {:induction false} BareMeans(inp: Input, e: Expr, s: State, hist: History)
    ensures EvalExpr(inp, Bare(e), s, hist) == EvalExpr(inp, e, s, hist)
    decreases e, 2
  {
    match e
    case Leaf(_) =>
    case Use(lv, _) => BarePlaceMeans(inp, lv, s, hist);
    case Unary(_, e1) => BareMeans(inp, e1, s, hist);
    case Binary(_, l, r) => BareMeans(inp, l, s, hist); BareMeans(inp, r, EvalExpr(inp, l, s, hist).s, hist);
    case Compare(_, _, l, r) => BareMeans(inp, l, s, hist); BareMeans(inp, r, EvalExpr(inp, l, s, hist).s, hist);
    case Logic(_, l, r) => BareMeans(inp, l, s, hist); BareMeans(inp, r, EvalExpr(inp, l, s, hist).s, hist);
    case _ =>
  }

  lemma {:induction false} BarePlaceMeans(inp: Input, lv: LValue, s: State, hist: History)
    ensures EvalLValue(inp, BarePlace(lv), s, hist) == EvalLValue(inp, lv, s, hist)
    decreases lv, 1
  {
    BareArgsMean(inp, lv.args, s, hist);
  }

  lemma {:induction false} BareArgsMean(inp: Input, es: seq<Expr>, s: State, hist: History)
    ensures EvalAll(inp, BareArgs(es), s, hist) == EvalAll(inp, es, s, hist)
    decreases es, 0
  {
    if es != [] {
      assert BareArgs(es)[1..] == BareArgs(es[1..]);
      BareMeans(inp, es[0], s, hist);
      BareArgsMean(inp, es[1..], EvalExpr(inp, es[0], s, hist).s, hist);
    }
  }

  /** Numbering changes nothing but slots, which depend on what was emitted before. */
  lemma {:induction false} NumSteady(e: Expr, g: Tables, h: Tables)
    requires Steady(e) && g.index == h.index
    ensures Steady(NumExpr(e, g).v) && NumExpr(e, g).g.index == g.index
    ensures Bare(NumExpr(e, g).v) == Bare(NumExpr(e, h).v)
    decreases e, 2
  {
    match e
    case Leaf(_) =>
    case Use(lv, _) => NumSteadyArgs(lv.args, g, h);
    case Unary(_, e1) => NumSteady(e1, g, h);
    case Binary(_, l, r) => NumSteadyPair(l, r, e, g, h);
    case Compare(_, _, l, r) => NumSteadyPair(l, r, e, g, h);
    case Logic(_, l, r) => NumSteadyPair(l, r, e, g, h);
  }

  lemma {:induction false} NumSteadyPair(l: Expr, r: Expr, e: Expr, g: Tables, h: Tables)
    requires l < e && r < e && Steady(l) && Steady(r) && g.index == h.index
    ensures var a, b := NumExpr(l, g), NumExpr(l, h);
            var c, d := NumExpr(r, a.g), NumExpr(r, b.g);
            Steady(a.v) && Steady(c.v) && c.g.index == g.index && Bare(a.v) == Bare(b.v) && Bare(c.v) == Bare(d.v)
    decreases e, 1
  {
    hide NumExpr;
    NumSteady(l, g, h);
    NumSteady(l, h, g);
    NumSteady(r, NumExpr(l, g).g, NumExpr(l, h).g);
  }

  lemma {:induction false} NumSteadyArgs(es: seq<Expr>, g: Tables, h: Tables)
    requires SteadyArgs(es) && g.index == h.index
    ensures SteadyArgs(NumArgs(es, g).v) && NumArgs(es, g).g.index == g.index
    ensures BareArgs(NumArgs(es, g).v) == BareArgs(NumArgs(es, h).v)
    decreases es, 0
  {
    if es != [] {
      var a, b := NumExpr(es[0], g), NumExpr(es[0], h);
      NumSteady(es[0], g, h);
      NumSteady(es[0], h, g);
      NumSteadyArgs(es[1..], a.g, b.g);
      assert NumArgs(es, g).v[1..] == NumArgs(es[1..], a.g).v && NumArgs(es, h).v[1..] == NumArgs(es[1..], b.g).v;
    }
  }

  // ---- one update ----

  /** Two walks that name the same cell, the second where the first has been: one update. */
  lemma SamePlace(inp: Input, lv: LValue, again: LValue, e: Expr, s: State, hist: History)
    requires SteadyArgs(lv.args) && BarePlace(lv) == BarePlace(again)
    ensures ExecStmt(inp, Store(lv, Joined(again, e), SetTo(TString)), s, hist) == AppendCell(inp, lv, e, s, hist)
  {
    var pl := EvalLValue(inp, lv, s, hist);
    if pl.Place? {
      assert lv.metric == again.metric;
      PlaceRepeats(inp, lv, s, hist, pl.s);
      BarePlaceMeans(inp, lv, pl.s, hist);
      BarePlaceMeans(inp, again, pl.s, hist);
      hide EvalLValue;
      assert EvalLValue(inp, again, pl.s, hist) == Place(pl.keys, pl.s);
    }
  }

  /**
   `+=` with index expressions that can be evaluated twice, as the generator
   numbers it: one update of one cell, whatever the value does meanwhile.
   */
  lemma AppendOnce(inp: Input, lv: LValue, e: Expr, g: Tables, scoped: bool, s: State, hist: History)
    requires SteadyArgs(lv.args)
    ensures var st := NumStmt(Append(lv, e), g, scoped).v;
            st.Store? && st.e.Joined? && ExecStmt(inp, st, s, hist) == AppendCell(inp, st.lv, st.e.e, s, hist)
  {
    var a := NumPlace(lv, g);
    var b := NumPlace(lv, a.g);
    NumSteadyArgs(lv.args, g, g);
    NumSteadyArgs(lv.args, g, a.g);
    SamePlace(inp, a.v, b.v, NumExpr(e, b.g).v, s, hist);
  }

  // ---- two updates of two cells ----

  const COUNTED: LValue := LValue(1, [Use(LValue(0, []), Inc)])

  function Counter(n: int): Table { Table(TInt, 0, map[[] := Cell(DInt(n), 0)]) }

  lemma Counted(inp: Input, s: State, hist: History, n: int, key: string)
    requires 0 <= n < 9 && |s.tables| == 2 && s.tables[0] == Counter(n) && inp.host.formatInt(n + 1) == key
    requires s.tables[1].arity == 1
    ensures EvalLValue(inp, COUNTED, s, hist) == Place([key], Touch(s.(tables := s.tables[0 := Counter(n + 1)]), 1, [key]))
  {
    var index := COUNTED.args[0];
    var s1 := s.(tables := s.tables[0 := Counter(n + 1)]);
    assert EvalAll(inp, [], s, hist) == Vals([], s);
    assert EvalLValue(inp, index.lv, s, hist) == Place([], s);
    assert Wrap(n + 1) == n + 1;
    assert Bump(s, 0, [], 1) == Val(IntV(n + 1), s1) by {
      assert Counter(n).cells[[] := Cell(DInt(n + 1), 0)] == Counter(n + 1).cells;
    }
    assert EvalExpr(inp, index, s, hist) == Val(IntV(n + 1), s1);
    assert COUNTED.args[1..] == [] && EvalAll(inp, [], s1, hist) == Vals([], s1);
    assert [IntV(n + 1)] + [] == [IntV(n + 1)];
    assert EvalAll(inp, COUNTED.args, s, hist) == Vals([IntV(n + 1)], s1);
    assert [IntV(n + 1)][1..] == [] && [key] + [] == [key];
    assert KeyStrings(inp.host, [IntV(n + 1)]) == Some([key]);
  }

  /**
   `m[n++] += "x"`: the cell of the first index gets the text of the cell of
   the second.  What it held is gone, and a cell nobody asked for is created.
   */
  lemma AppendElsewhere(inp: Input, s: State, hist: History, was: string)
    requires inp.host.formatInt(1) == "1" && inp.host.formatInt(2) == "2"
    requires s.tables == [Counter(0), Table(TString, 1, map[["1"] := Cell(DStr(was), 0)])]
    ensures var r := ExecStmt(inp, Append(COUNTED, Leaf(StrLit("x", 0))), s, hist);
            r.Done? && r.s.tables[1].cells == map[["1"] := Cell(DStr("x"), 0), ["2"] := Cell(DStr(""), 0)]
  {
    var s1 := s.(tables := s.tables[0 := Counter(1)]);
    var s2 := Touch(s1.(tables := s1.tables[0 := Counter(2)]), 1, ["2"]);
    Counted(inp, s, hist, 0, "1");
    Counted(inp, s1, hist, 1, "2");
    hide EvalLValue;
    assert EvalLValue(inp, COUNTED, s, hist) == Place(["1"], s1);
    assert EvalLValue(inp, COUNTED, s1, hist) == Place(["2"], s2);
    assert s2.tables[1].cells == map[["1"] := Cell(DStr(was), 0), ["2"] := Cell(DStr(""), 0)];
    assert "" + "x" == "x";
    assert EvalExpr(inp, Joined(COUNTED, Leaf(StrLit("x", 0))), s1, hist) == Val(StrV("x"), s2);
  }
}

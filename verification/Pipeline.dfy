/**
 From source to metrics: generating code for a checked program and running it
 on a line does what the program, as it is written, means.
 */
module Pipeline {
  import opened Syntax
  import opened Machine
  import opened Semantics
  import opened Compile
  import opened Decorators
  import opened Captures
  import opened Source
  import opened Numbering
  import opened CodeGen
  import opened Refine
  import opened Correct

  // ---- the constant tables hold what the slots refer to ----

  predicate Holding(o: Object, g: Tables) { g.regexps <= o.regexps && g.strings <= o.strings }

  predicate Extends(g: Tables, g': Tables) { g.regexps <= g'.regexps && g.strings <= g'.strings }

  lemma {:induction false} NumExprOk(e: Expr, g: Tables, o: Object)
    ensures Extends(g, NumExpr(e, g).g)
    ensures Holding(o, NumExpr(e, g).g) ==> ExprOk(o, NumExpr(e, g).v)
    decreases e, 1
  {
    match e
    case Leaf(_) =>
    case Use(lv, _) => NumArgsOk(lv.args, g, o);
    case Unary(_, e1) => NumExprOk(e1, g, o);
    case Binary(_, l, r) => NumExprOk(l, g, o); NumExprOk(r, NumExpr(l, g).g, o);
    case Compare(_, _, l, r) => NumExprOk(l, g, o); NumExprOk(r, NumExpr(l, g).g, o);
    case Logic(_, l, r) => NumExprOk(l, g, o); NumExprOk(r, NumExpr(l, g).g, o);
    case StrMatch(e1, _, _, _) => NumExprOk(e1, g, o);
    case Joined(lv, e1) => NumArgsOk(lv.args, g, o); NumExprOk(e1, NumArgs(lv.args, g).g, o);
  }

  lemma {:induction false} NumArgsOk(es: seq<Expr>, g: Tables, o: Object)
    ensures Extends(g, NumArgs(es, g).g)
    ensures Holding(o, NumArgs(es, g).g) ==> ArgsOk(o, NumArgs(es, g).v)
    decreases es, 0
  {
    if es != [] {
      var a := NumExpr(es[0], g);
      NumExprOk(es[0], g, o);
      NumArgsOk(es[1..], a.g, o);
      var r := NumArgs(es[1..], a.g);
      assert ([a.v] + r.v)[1..] == r.v;
    }
  }

  lemma {:induction false} NumStmtOk(st: Stmt, g: Tables, scoped: bool, o: Object)
    ensures Extends(g, NumStmt(st, g, scoped).g)
    ensures Holding(o, NumStmt(st, g, scoped).g) ==> StmtOk(o, NumStmt(st, g, scoped).v)
    decreases st, 1
  {
    match st
    case ExprStmt(e) => NumExprOk(e, g, o);
    case Store(lv, e, _) => NumArgsOk(lv.args, g, o); NumExprOk(e, NumArgs(lv.args, g).g, o);
    case Cond(c, truth, els) =>
      NumExprOk(c, g, o);
      NumStmtOk(truth, NumExpr(c, g).g, scoped, o);
      if els.Some? {
        NumStmtOk(els.value, NumStmt(truth, NumExpr(c, g).g, scoped).g, scoped, o);
      }
    case Block(stmts) => NumBlockOk(stmts, g, scoped, o);
    case Instance(body) => NumStmtOk(body, g, scoped, o);
    case Stop =>
    case Remove(lv, _) => NumArgsOk(lv.args, g, o);
  }

  lemma {:induction false} NumBlockOk(stmts: seq<Stmt>, g: Tables, scoped: bool, o: Object)
    ensures Extends(g, NumBlock(stmts, g, scoped).g)
    ensures Holding(o, NumBlock(stmts, g, scoped).g) ==> BlockOk(o, NumBlock(stmts, g, scoped).v)
    decreases stmts, 0
  {
    if stmts != [] {
      var a := NumStmt(stmts[0], g, scoped);
      NumStmtOk(stmts[0], g, scoped, o);
      NumBlockOk(stmts[1..], a.g, scoped, o);
      var r := NumBlock(stmts[1..], a.g, scoped);
      assert ([a.v] + r.v)[1..] == r.v;
    }
  }

  // ---- end to end ----

  /** The meaning of a program on one line: no block waits, and nothing has matched. */
  function Meaning(decls: seq<Src>, src: Src, inp: Input, tables: seq<Table>): Exec
    requires Acceptable(decls, src)
  {
    Means(inp, decls, src, |decls|, NoBlock, State(tables, map[]), [])
  }

  /**
   Inlining with slots of its own for every instance keeps the meaning: the
   same outcome and the same metrics for every program whose captures are in
   the reach of their patterns.
   */
  lemma InliningMeans(decls: seq<Src>, src: Src, inp: Input, tables: seq<Table>)
    requires Acceptable(decls, src) && Visible(Whole(decls, src))
    ensures var m := ExecStmt(inp, NumStmt(Whole(decls, src), FRESH, true).v, State(tables, map[]), []);
            OutcomeOf(m) == OutcomeOf(Meaning(decls, src, inp, tables))
            && m.s.tables == Meaning(decls, src, inp, tables).s.tables
  {
    var s := State(tables, map[]);
    assert Inlining(decls, NoBlock) == Block([]);
    StmtMeans(inp, decls, src, |decls|, NoBlock, FRESH, BEGIN, s, s, []);
  }

  /** The stores that hold a state hold every other with the same metrics. */
  lemma SimTables(store: Storage, s: State, s': State)
    requires Sim(store, s) && s.tables == s'.tables
    ensures Sim(store, s')
  {
  }

  /** The object the generator returns for a program. */
  predicate Compiles(decls: seq<Src>, src: Src, o: Object)
    requires Acceptable(decls, src)
  {
    var n := NumStmt(Whole(decls, src), FRESH, false);
    IsProgram(o.prog, n.v) && o.regexps == n.g.regexps && o.strings == n.g.strings
  }

  /**
   Without any condition on captures: the code does what the inlined program
   does when every reference reads the slot its pattern node was given last.
   */
  lemma SharedSlotsRun(decls: seq<Src>, src: Src, o: Object, inp: Input, store: Storage, tables: seq<Table>)
    requires Acceptable(decls, src) && Compiles(decls, src, o)
    requires Sim(store, State(tables, map[]))
    ensures Forward(o.prog) && Cycles(inp, o, Start(store)) <= |o.prog|
    ensures var m := ExecStmt(inp, NumStmt(Whole(decls, src), FRESH, false).v, State(tables, map[]), []);
            var r := Run(inp, o, Start(store));
            r.outcome == OutcomeOf(m) && Sim(r.store, m.s)
  {
    var st := Whole(decls, src);
    NumStmtOk(st, FRESH, false, o);
    ProgramCorrect(inp, o, NumStmt(st, FRESH, false).v, store, State(tables, map[]));
    CyclesBounded(inp, o, Start(store));
  }

  /**
   End to end: for every checked program whose captures are clean, every line
   and every storage, one run of the generated code terminates within one
   cycle per instruction and leaves the metrics, and the outcome, that the
   program means.
   */
  lemma EndToEnd(decls: seq<Src>, src: Src, o: Object, inp: Input, store: Storage, tables: seq<Table>)
    requires Acceptable(decls, src) && Compiles(decls, src, o)
    requires Visible(Whole(decls, src)) && Clean(Whole(decls, src))
    requires Sim(store, State(tables, map[]))
    ensures Forward(o.prog) && Cycles(inp, o, Start(store)) <= |o.prog|
    ensures var m := Meaning(decls, src, inp, tables);
            var r := Run(inp, o, Start(store));
            r.outcome == OutcomeOf(m) && Sim(r.store, m.s)
  {
    hide Run, Sim, Forward, Cycles, Means, ExecStmt, NumStmt;
    SlotsScoped(Whole(decls, src));
    SharedSlotsRun(decls, src, o, inp, store, tables);
    InliningMeans(decls, src, inp, tables);
    var m := ExecStmt(inp, NumStmt(Whole(decls, src), FRESH, true).v, State(tables, map[]), []);
    SimTables(Run(inp, o, Start(store)).store, m.s, Meaning(decls, src, inp, tables).s);
  }
}

/**
 What a program means as it is written, with its decorators: no inlining, no
 slots and no tables.  `next` runs the block that waits for it, and a match
 belongs to the pattern it was found for, in the instance that looked for it.
 */
module Source {
  import opened Common
  import opened Syntax
  import opened Machine
  import opened Semantics
  import opened Decorators

  /** The patterns an expression looks for, by identity. */
  function Patterns(e: Expr): set<nat>
    decreases e, 1
  {
    match e
    case Leaf(t) => if t.Pattern? then {t.id} else {}
    case Use(lv, _) => ArgPatterns(lv.args)
    case Unary(_, e1) => Patterns(e1)
    case Binary(_, l, r) => Patterns(l) + Patterns(r)
    case Compare(_, _, l, r) => Patterns(l) + Patterns(r)
    case Logic(_, l, r) => Patterns(l) + Patterns(r)
    case StrMatch(e1, _, id, _) => Patterns(e1) + {id}
    case Joined(lv, e1) => ArgPatterns(lv.args) + Patterns(e1)
  }

  function ArgPatterns(es: seq<Expr>): set<nat>
    decreases es, 0
  {
    if es == [] then {} else Patterns(es[0]) + ArgPatterns(es[1..])
  }

  /** The patterns of a statement; those of a decorator or a waiting block are another instance's. */
  function PatternsIn(s: Src): set<nat>
    decreases s, 1
  {
    match s
    case SExpr(e) => Patterns(e)
    case SStore(lv, e, _) => ArgPatterns(lv.args) + Patterns(e)
    case SCond(c, truth, els) => Patterns(c) + PatternsIn(truth) + PatternsInElse(els)
    case SBlock(stmts) => PatternsInAll(stmts)
    case SRemove(lv, _) => ArgPatterns(lv.args)
    case _ => {}
  }

  function PatternsInElse(els: Option<Src>): set<nat>
    decreases els, 0
  {
    if els.Some? then PatternsIn(els.value) else {}
  }

  function PatternsInAll(stmts: seq<Src>): set<nat>
    decreases stmts, 0
  {
    if stmts == [] then {} else PatternsIn(stmts[0]) + PatternsInAll(stmts[1..])
  }

  /** Code that is passed over leaves its patterns without a match. */
  function Passed(s: State, ids: set<nat>): State { s.(matches := s.matches - ids) }

  // ---- expressions ----

  /** Only a false boolean and the integer zero count as false. */
  predicate IsFalse(p: Plain) {
    match p
    case BoolV(b) => !b
    case IntV(i) => i == 0
    case _ => false
  }

  /** `&&` is settled by a false left side, `||` by one that is a boolean or an integer and not false. */
  predicate Settles(conj: bool, p: Plain) {
    if conj then IsFalse(p) else (p.BoolV? || p.IntV?) && !IsFalse(p)
  }

  /** The cell an expression names. */
  function MeanTarget(inp: Input, lv: LValue, s: State, hist: History): (r: Place)
    ensures r.Place? ==> lv.metric < |r.s.tables| && |r.keys| == r.s.tables[lv.metric].arity
    decreases lv, 0
  {
    match MeanAll(inp, lv.args, s, hist)
    case ArgsError(s1) => NoPlace(s1)
    case Vals(ps, s1) =>
      match KeyStrings(inp.host, ps)
      case None => NoPlace(s1)
      case Some(keys) =>
        if lv.metric < |s1.tables| && |keys| == s1.tables[lv.metric].arity
        then Place(keys, s1)
        else NoPlace(s1)
  }

  function MeanPlace(inp: Input, lv: LValue, s: State, hist: History): Place
    decreases lv, 1
  {
    match MeanTarget(inp, lv, s, hist)
    case NoPlace(s1) => NoPlace(s1)
    case Place(keys, s1) => Place(keys, Touch(s1, lv.metric, keys))
  }

  function MeanAll(inp: Input, es: seq<Expr>, s: State, hist: History): EvalArgs
    decreases es, 0
  {
    if es == [] then Vals([], s)
    else
      match MeanExpr(inp, es[0], s, hist)
      case EvalError(s1) => ArgsError(s1)
      case Val(p, s1) =>
        match MeanAll(inp, es[1..], s1, hist)
        case ArgsError(s2) => ArgsError(s2)
        case Vals(ps, s2) => Vals([p] + ps, s2)
  }

  function MeanExpr(inp: Input, e: Expr, s: State, hist: History): Eval
    decreases e, 1
  {
    match e
    case Leaf(t) => EvalTerm(inp, t, s, hist)
    case Use(lv, how) =>
      (match MeanPlace(inp, lv, s, hist)
       case NoPlace(s1) => EvalError(s1)
       case Place(keys, s1) => UseCell(s1, lv.metric, keys, how))
    case Unary(op, e1) =>
      (match MeanExpr(inp, e1, s, hist)
       case EvalError(s1) => EvalError(s1)
       case Val(p, s1) => Give(UnResult(inp.host, op, p), s1))
    case Binary(op, l, r) =>
      (match MeanExpr(inp, l, s, hist)
       case EvalError(s1) => EvalError(s1)
       case Val(a, s1) =>
         match MeanExpr(inp, r, s1, hist)
         case EvalError(s2) => EvalError(s2)
         case Val(b, s2) => Give(BinResult(inp.host, op, a, b), s2))
    case Compare(rel, left, l, r) =>
      (match MeanExpr(inp, l, s, hist)
       case EvalError(s1) => EvalError(s1)
       case Val(a, s1) =>
         match MeanExpr(inp, r, s1, hist)
         case EvalError(s2) => EvalError(s2)
         case Val(b, s2) =>
           match RelResult(inp.host, rel, left, a, b)
           case None => EvalError(s2)
           case Some(holds) => Val(BoolV(holds), s2))
    case Logic(conj, l, r) =>
      (match MeanExpr(inp, l, s, hist)
       case EvalError(s1) => EvalError(s1)
       case Val(a, s1) =>
         if Settles(conj, a) then Val(BoolV(!conj), Passed(s1, Patterns(r)))
         else
           match MeanExpr(inp, r, s1, hist)
           case EvalError(s2) => EvalError(s2)
           case Val(b, s2) => Val(BoolV(Settles(conj, b) != conj), s2))
    case StrMatch(e1, re, id, negated) =>
      (match MeanExpr(inp, e1, s, hist)
       case EvalError(s1) => EvalError(s1)
       case Val(p, s1) =>
         match ToStr(inp.host, p)
         case None => EvalError(s1)
         case Some(text) => Search(inp, s1, re, id, text, negated))
    case Joined(lv, e1) =>
      match MeanPlace(inp, lv, s, hist)
      case NoPlace(s1) => EvalError(s1)
      case Place(keys, s1) =>
        match MeanExpr(inp, e1, s1, hist)
        case EvalError(s2) => EvalError(s2)
        case Val(p, s2) => Give(JoinResult(inp.host, s2, lv.metric, keys, p), s2)
  }

  // ---- statements ----

  /** The block `next` runs: one given to a decorator, seen from the decorators and the block around it. */
  datatype Env = NoBlock | Waiting(block: Src, lim: nat, outer: Env)

  /** A waiting block applies complete decorators only. */
  predicate Open(decls: seq<Src>, env: Env) {
    env.Waiting? ==> env.lim <= |decls| && Uses(env.block, env.lim) && Open(decls, env.outer)
  }

  /** The statement a `next` would be inlined as; it says only that evaluation ends. */
  ghost function Inlining(decls: seq<Src>, env: Env): Stmt
    requires Checked(decls) && Open(decls, env)
  {
    match env
    case NoBlock => Block([])
    case Waiting(block, lim, outer) => Expand(decls, block, lim, Inlining(decls, outer))
  }

  /** Leaving an instance, its matches are forgotten and those around it are back. */
  function Leave(s: State, r: Exec): Exec {
    match r
    case Done(s1, hist) => Done(s1.(matches := s.matches), hist)
    case _ => r
  }

  function Means(inp: Input, decls: seq<Src>, s: Src, lim: nat, env: Env, st: State, hist: History): Exec
    requires Checked(decls) && Uses(s, lim) && lim <= |decls| && Open(decls, env)
    decreases Expand(decls, s, lim, Inlining(decls, env)), 1
  {
    match s
    case SExpr(e) =>
      (match MeanExpr(inp, e, st, hist)
       case EvalError(s1) => ExecError(s1)
       case Val(_, s1) => Done(s1, hist))
    case SStore(lv, e, how) =>
      (match MeanPlace(inp, lv, st, hist)
       case NoPlace(s1) => ExecError(s1)
       case Place(keys, s1) =>
         match MeanExpr(inp, e, s1, hist)
         case EvalError(s2) => ExecError(s2)
         case Val(p, s2) => UpdateCell(inp.host, s2, lv.metric, keys, how, p, hist))
    case SCond(c, truth, els) =>
      (match MeanExpr(inp, c, st, hist)
       case EvalError(s1) => ExecError(s1)
       case Val(p, s1) =>
         if !IsFalse(p) then
           match Means(inp, decls, truth, lim, env, s1, [])
           case Done(s2, _) => Done(Passed(s2, PatternsInElse(els)), hist + [true])
           case r => r
         else
           var s2 := Passed(s1, PatternsIn(truth));
           match els
           case None => Done(s2, hist + [false])
           case Some(e) => Means(inp, decls, e, lim, env, s2, hist + [false]))
    case SBlock(stmts) => MeansAll(inp, decls, stmts, lim, env, st, hist)
    case SStop => Stopping(st)
    case SRemove(lv, after) =>
      (match MeanTarget(inp, lv, st, hist)
       case NoPlace(s1) => ExecError(s1)
       case Place(keys, s1) => RemoveCell(s1, lv.metric, keys, after, hist))
    case SDeco(d, block) =>
      Leave(st, Means(inp, decls, decls[d], d, Waiting(block, lim, env), st, hist))
    case SNext =>
      match env
      case NoBlock => Done(st, hist)
      case Waiting(block, l, outer) => Leave(st, Means(inp, decls, block, l, outer, st, hist))
  }

  function MeansAll(inp: Input, decls: seq<Src>, stmts: seq<Src>, lim: nat, env: Env, st: State, hist: History): Exec
    requires Checked(decls) && UsesAll(stmts, lim) && lim <= |decls| && Open(decls, env)
    decreases ExpandAll(decls, stmts, lim, Inlining(decls, env)), 0
  {
    if stmts == [] then Done(st, hist)
    else
      ghost var all := ExpandAll(decls, stmts, lim, Inlining(decls, env));
      assert all[0] == Expand(decls, stmts[0], lim, Inlining(decls, env));
      assert all[1..] == ExpandAll(decls, stmts[1..], lim, Inlining(decls, env));
      match Means(inp, decls, stmts[0], lim, env, st, hist)
      case Done(s1, h1) => MeansAll(inp, decls, stmts[1..], lim, env, s1, h1)
      case r => r
  }
}

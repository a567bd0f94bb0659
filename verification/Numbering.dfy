/**
 Inlining decorators and handing out slots changes nothing but the names of
 patterns: the numbered program has the text of the source, and what it
 evaluates to is what the source means.
 */
module Numbering {
  import opened Common
  import opened Syntax
  import opened Machine
  import opened Semantics
  import opened Decorators
  import opened Captures
  import opened Source

  // ---- the text of a program, without its slots ----

  function EraseTerm(t: Term): Term {
    match t
    case StrLit(text, _) => StrLit(text, 0)
    case Capref(_, group) => Capref(0, group)
    case Pattern(re, _) => Pattern(re, 0)
    case _ => t
  }

  function Erase(e: Expr): Expr
    decreases e, 1
  {
    match e
    case Leaf(t) => Leaf(EraseTerm(t))
    case Use(lv, how) => Use(ErasePlace(lv), how)
    case Unary(op, e1) => Unary(op, Erase(e1))
    case Binary(op, l, r) => Binary(op, Erase(l), Erase(r))
    case Compare(rel, left, l, r) => Compare(rel, left, Erase(l), Erase(r))
    case Logic(conj, l, r) => Logic(conj, Erase(l), Erase(r))
    case StrMatch(e1, re, _, negated) => StrMatch(Erase(e1), re, 0, negated)
    case Joined(lv, e1) => Joined(ErasePlace(lv), Erase(e1))
  }

  function EraseArgs(es: seq<Expr>): seq<Expr>
    decreases es, 0
  {
    if es == [] then [] else [Erase(es[0])] + EraseArgs(es[1..])
  }

  function ErasePlace(lv: LValue): LValue
    decreases lv, 0
  {
    LValue(lv.metric, EraseArgs(lv.args))
  }

  function EraseStmt(st: Stmt): Stmt
    decreases st, 1
  {
    match st
    case ExprStmt(e) => ExprStmt(Erase(e))
    case Store(lv, e, how) => Store(ErasePlace(lv), Erase(e), how)
    case Cond(c, truth, els) => Cond(Erase(c), EraseStmt(truth), EraseElse(els))
    case Block(stmts) => Block(EraseBlock(stmts))
    case Instance(body) => Instance(EraseStmt(body))
    case Stop => Stop
    case Remove(lv, after) => Remove(ErasePlace(lv), after)
  }

  function EraseElse(els: Option<Stmt>): Option<Stmt>
    decreases els, 0
  {
    match els
    case None => None
    case Some(e) => Some(EraseStmt(e))
  }

  function EraseBlock(stmts: seq<Stmt>): seq<Stmt>
    decreases stmts, 0
  {
    if stmts == [] then [] else [EraseStmt(stmts[0])] + EraseBlock(stmts[1..])
  }

  /** Numbering keeps every expression's text. */
  lemma {:induction false} NumExprKeeps(e: Expr, g: Tables)
    ensures Erase(NumExpr(e, g).v) == Erase(e)
    decreases e, 1
  {
    match e
    case Leaf(_) =>
    case Use(lv, _) => NumArgsKeeps(lv.args, g);
    case Unary(_, e1) => NumExprKeeps(e1, g);
    case Binary(_, l, r) => NumExprKeeps(l, g); NumExprKeeps(r, NumExpr(l, g).g);
    case Compare(_, _, l, r) => NumExprKeeps(l, g); NumExprKeeps(r, NumExpr(l, g).g);
    case Logic(_, l, r) => NumExprKeeps(l, g); NumExprKeeps(r, NumExpr(l, g).g);
    case StrMatch(e1, _, _, _) => NumExprKeeps(e1, g);
    case Joined(lv, e1) => NumArgsKeeps(lv.args, g); NumExprKeeps(e1, NumArgs(lv.args, g).g);
  }

  lemma {:induction false} NumArgsKeeps(es: seq<Expr>, g: Tables)
    ensures EraseArgs(NumArgs(es, g).v) == EraseArgs(es)
    decreases es, 0
  {
    if es != [] {
      var a := NumExpr(es[0], g);
      var b := NumArgs(es[1..], a.g);
      NumExprKeeps(es[0], g);
      NumArgsKeeps(es[1..], a.g);
      assert ([a.v] + b.v)[1..] == b.v;
    }
  }

  lemma {:induction false} NumPlaceKeeps(lv: LValue, g: Tables)
    ensures ErasePlace(NumPlace(lv, g).v) == ErasePlace(lv)
  {
    NumArgsKeeps(lv.args, g);
  }

  /** And every statement's, whether slots are scoped or shared. */
  lemma {:induction false} NumStmtKeeps(st: Stmt, g: Tables, scoped: bool)
    ensures EraseStmt(NumStmt(st, g, scoped).v) == EraseStmt(st)
    decreases st, 1
  {
    match st
    case ExprStmt(e) => NumExprKeeps(e, g);
    case Store(lv, e, _) => NumPlaceKeeps(lv, g); NumExprKeeps(e, NumPlace(lv, g).g);
    case Cond(c, truth, els) =>
      NumExprKeeps(c, g);
      NumStmtKeeps(truth, NumExpr(c, g).g, scoped);
      if els.Some? {
        NumStmtKeeps(els.value, NumStmt(truth, NumExpr(c, g).g, scoped).g, scoped);
      }
    case Block(stmts) => NumBlockKeeps(stmts, g, scoped);
    case Instance(body) => NumStmtKeeps(body, g, scoped);
    case Stop =>
    case Remove(lv, _) => NumPlaceKeeps(lv, g);
  }

  lemma {:induction false} NumBlockKeeps(stmts: seq<Stmt>, g: Tables, scoped: bool)
    ensures EraseBlock(NumBlock(stmts, g, scoped).v) == EraseBlock(stmts)
    decreases stmts, 0
  {
    if stmts != [] {
      var a := NumStmt(stmts[0], g, scoped);
      var b := NumBlock(stmts[1..], a.g, scoped);
      NumStmtKeeps(stmts[0], g, scoped);
      NumBlockKeeps(stmts[1..], a.g, scoped);
      assert ([a.v] + b.v)[1..] == b.v;
    }
  }

  // ---- which slots are new ----

  lemma SinceJoins(g: Tables, g1: Tables, g2: Tables, ids: set<nat>, ids': set<nat>)
    requires Since(g, g1, ids) && Since(g1, g2, ids')
    ensures Since(g, g2, ids + ids')
  {
  }

  /** Numbering gives new slots to the patterns an expression looks for, and to no other. */
  lemma {:induction false} NumExprSince(e: Expr, g: Tables)
    ensures Since(g, NumExpr(e, g).g, Patterns(e))
    decreases e, 1
  {
    hide Since;
    match e
    case Leaf(t) => NumTermSince(t, g);
    case Use(lv, _) => NumArgsSince(lv.args, g);
    case Unary(_, e1) => NumExprSince(e1, g);
    case Binary(_, l, r) => NumPairSince(l, r, e, g);
    case Compare(_, _, l, r) => NumPairSince(l, r, e, g);
    case Logic(_, l, r) => NumPairSince(l, r, e, g);
    case StrMatch(e1, re, id, _) =>
      var a := NumExpr(e1, g);
      NumExprSince(e1, g);
      NumTermSince(Pattern(re, id), a.g);
      SinceJoins(g, a.g, Emit(a.g, re, id), Patterns(e1), {id});
    case Joined(lv, e1) =>
      var a := NumArgs(lv.args, g);
      NumArgsSince(lv.args, g);
      NumExprSince(e1, a.g);
      SinceJoins(g, a.g, NumExpr(e1, a.g).g, ArgPatterns(lv.args), Patterns(e1));
  }

  lemma NumTermSince(t: Term, g: Tables)
    ensures Since(g, NumTerm(t, g).g, Patterns(Leaf(t)))
  {
  }

  lemma {:induction false} NumPairSince(l: Expr, r: Expr, e: Expr, g: Tables)
    requires l < e && r < e
    ensures Since(g, NumExpr(r, NumExpr(l, g).g).g, Patterns(l) + Patterns(r))
    decreases e, 0
  {
    var a := NumExpr(l, g);
    NumExprSince(l, g);
    NumExprSince(r, a.g);
    SinceJoins(g, a.g, NumExpr(r, a.g).g, Patterns(l), Patterns(r));
  }

  lemma {:induction false} NumArgsSince(es: seq<Expr>, g: Tables)
    ensures Since(g, NumArgs(es, g).g, ArgPatterns(es))
    decreases es, 0
  {
    if es != [] {
      var a := NumExpr(es[0], g);
      NumExprSince(es[0], g);
      NumArgsSince(es[1..], a.g);
      SinceJoins(g, a.g, NumArgs(es[1..], a.g).g, Patterns(es[0]), ArgPatterns(es[1..]));
    }
  }

  lemma {:induction false} NumStmtGrows(st: Stmt, g: Tables)
    ensures |g.regexps| <= |NumStmt(st, g, true).g.regexps|
    decreases st, 1
  {
    match st
    case ExprStmt(e) => NumExprSince(e, g);
    case Store(lv, e, _) => NumArgsSince(lv.args, g); NumExprSince(e, NumArgs(lv.args, g).g);
    case Cond(c, truth, els) =>
      NumExprSince(c, g);
      NumStmtGrows(truth, NumExpr(c, g).g);
      if els.Some? {
        NumStmtGrows(els.value, NumStmt(truth, NumExpr(c, g).g, true).g);
      }
    case Block(stmts) => NumBlockGrows(stmts, g);
    case Instance(body) => NumStmtGrows(body, g);
    case Stop =>
    case Remove(lv, _) => NumArgsSince(lv.args, g);
  }

  lemma {:induction false} NumBlockGrows(stmts: seq<Stmt>, g: Tables)
    ensures |g.regexps| <= |NumBlock(stmts, g, true).g.regexps|
    decreases stmts, 0
  {
    if stmts != [] {
      NumStmtGrows(stmts[0], g);
      NumBlockGrows(stmts[1..], NumStmt(stmts[0], g, true).g);
    }
  }

  /** Once an inlined instance is left, only the patterns of the statement itself have new slots. */
  lemma {:induction false} NumSrcSince(decls: seq<Src>, s: Src, lim: nat, k: Stmt, g: Tables)
    requires Checked(decls) && Uses(s, lim) && lim <= |decls|
    ensures Since(g, NumStmt(Expand(decls, s, lim, k), g, true).g, PatternsIn(s))
    decreases s, 1
  {
    match s
    case SExpr(e) => NumExprSince(e, g);
    case SStore(lv, e, _) =>
      var a := NumArgs(lv.args, g);
      NumArgsSince(lv.args, g);
      NumExprSince(e, a.g);
      SinceJoins(g, a.g, NumExpr(e, a.g).g, ArgPatterns(lv.args), Patterns(e));
    case SCond(_, _, _) => NumCondSince(decls, s, lim, k, g);
    case SBlock(stmts) => NumAllSince(decls, stmts, lim, k, g);
    case SStop =>
    case SRemove(lv, _) => NumArgsSince(lv.args, g);
    case SDeco(_, _) => NumStmtGrows(Expand(decls, s, lim, k), g);
    case SNext => NumStmtGrows(Instance(k), g);
  }

  lemma {:induction false} NumCondSince(decls: seq<Src>, s: Src, lim: nat, k: Stmt, g: Tables)
    requires s.SCond? && Checked(decls) && Uses(s, lim) && lim <= |decls|
    ensures Since(g, NumStmt(Expand(decls, s, lim, k), g, true).g, PatternsIn(s))
    decreases s, 0
  {
    hide Since;
    var a := NumExpr(s.c, g);
    var b := NumStmt(Expand(decls, s.truth, lim, k), a.g, true);
    NumExprSince(s.c, g);
    NumSrcSince(decls, s.truth, lim, k, a.g);
    SinceJoins(g, a.g, b.g, Patterns(s.c), PatternsIn(s.truth));
    if s.els.Some? {
      NumSrcSince(decls, s.els.value, lim, k, b.g);
      SinceJoins(g, b.g, NumStmt(Expand(decls, s.els.value, lim, k), b.g, true).g,
                 Patterns(s.c) + PatternsIn(s.truth), PatternsIn(s.els.value));
    } else {
      assert PatternsIn(s) == Patterns(s.c) + PatternsIn(s.truth);
    }
  }

  lemma {:induction false} NumAllSince(decls: seq<Src>, stmts: seq<Src>, lim: nat, k: Stmt, g: Tables)
    requires Checked(decls) && UsesAll(stmts, lim) && lim <= |decls|
    ensures Since(g, NumBlock(ExpandAll(decls, stmts, lim, k), g, true).g, PatternsInAll(stmts))
    decreases stmts, 0
  {
    if stmts != [] {
      var x, xs := Expand(decls, stmts[0], lim, k), ExpandAll(decls, stmts[1..], lim, k);
      var a := NumStmt(x, g, true);
      NumSrcSince(decls, stmts[0], lim, k, g);
      NumAllSince(decls, stmts[1..], lim, k, a.g);
      assert ([x] + xs)[1..] == xs;
      SinceJoins(g, a.g, NumBlock(xs, a.g, true).g, PatternsIn(stmts[0]), PatternsInAll(stmts[1..]));
    }
  }

  // ---- the scan binds the same patterns ----

  lemma {:induction false} ScanBound(e: Expr, s: Scan)
    ensures ScanExpr(e, s).bound == s.bound + Patterns(e)
    decreases e, 1
  {
    match e
    case Leaf(_) =>
    case Use(lv, _) => ScanArgsBound(lv.args, s);
    case Unary(_, e1) => ScanBound(e1, s);
    case Binary(_, l, r) => ScanBound(l, s); ScanBound(r, ScanExpr(l, s));
    case Compare(_, _, l, r) => ScanBound(l, s); ScanBound(r, ScanExpr(l, s));
    case Logic(_, l, r) => ScanBound(l, s); ScanBound(r, ScanExpr(l, s));
    case StrMatch(e1, _, _, _) => ScanBound(e1, s);
    case Joined(lv, e1) => ScanArgsBound(lv.args, s); ScanBound(e1, ScanArgs(lv.args, s));
  }

  lemma {:induction false} ScanArgsBound(es: seq<Expr>, s: Scan)
    ensures ScanArgs(es, s).bound == s.bound + ArgPatterns(es)
    decreases es, 0
  {
    if es != [] {
      ScanBound(es[0], s);
      ScanArgsBound(es[1..], ScanExpr(es[0], s));
    }
  }

  lemma {:induction false} ScanSrcBound(decls: seq<Src>, s: Src, lim: nat, k: Stmt, t: Scan)
    requires Checked(decls) && Uses(s, lim) && lim <= |decls|
    ensures ScanStmt(Expand(decls, s, lim, k), t).bound == t.bound + PatternsIn(s)
    decreases s, 1
  {
    match s
    case SExpr(e) => ScanBound(e, t);
    case SStore(lv, e, _) => ScanArgsBound(lv.args, t); ScanBound(e, ScanArgs(lv.args, t));
    case SCond(c, truth, els) =>
      ScanBound(c, t);
      ScanSrcBound(decls, truth, lim, k, ScanExpr(c, t));
      if els.Some? {
        ScanSrcBound(decls, els.value, lim, k, ScanStmt(Expand(decls, truth, lim, k), ScanExpr(c, t)));
      }
    case SBlock(stmts) => ScanAllBound(decls, stmts, lim, k, t);
    case SStop =>
    case SRemove(lv, _) => ScanArgsBound(lv.args, t);
    case SDeco(_, _) =>
    case SNext =>
  }

  lemma {:induction false} ScanAllBound(decls: seq<Src>, stmts: seq<Src>, lim: nat, k: Stmt, t: Scan)
    requires Checked(decls) && UsesAll(stmts, lim) && lim <= |decls|
    ensures ScanBlock(ExpandAll(decls, stmts, lim, k), t).bound == t.bound + PatternsInAll(stmts)
    decreases stmts, 0
  {
    if stmts != [] {
      var x, xs := Expand(decls, stmts[0], lim, k), ExpandAll(decls, stmts[1..], lim, k);
      ScanSrcBound(decls, stmts[0], lim, k, t);
      ScanAllBound(decls, stmts[1..], lim, k, ScanStmt(x, t));
      assert ([x] + xs)[1..] == xs;
    }
  }

  // ---- matches by pattern, and by slot ----

  /** A pattern has in `a` the match that its slot has in `b`. */
  predicate SameMatch(g: Tables, id: nat, a: State, b: State) {
    && id in g.index && g.index[id] < |g.regexps|
    && (id in a.matches <==> g.index[id] in b.matches)
    && (id in a.matches ==> a.matches[id] == b.matches[g.index[id]])
  }

  /** The same metrics, and the same matches for the patterns in reach; no slot is ahead of the tables. */
  ghost predicate Match(g: Tables, bound: set<nat>, a: State, b: State) {
    && a.tables == b.tables
    && (forall slot :: slot in b.matches ==> 0 <= slot < |g.regexps|)
    && (forall id :: id in bound ==> SameMatch(g, id, a, b))
  }

  /** Slots handed out before are not written again. */
  ghost predicate Kept(g: Tables, b: State, b': State) {
    forall slot :: 0 <= slot < |g.regexps| ==>
      && (slot in b.matches <==> slot in b'.matches)
      && (slot in b.matches ==> b.matches[slot] == b'.matches[slot])
  }

  /** From matching states `(_, b)` at tables `g` to matching states `(a', b')` at tables `g'`. */
  ghost predicate After(g: Tables, g': Tables, bound: set<nat>, b: State, a': State, b': State) {
    |g.regexps| <= |g'.regexps| && Match(g', bound, a', b') && Kept(g, b, b')
  }

  ghost predicate Agree(g: Tables, g': Tables, bound: set<nat>, b: State, x: Eval, y: Eval) {
    match (x, y)
    case (Val(p, a'), Val(q, b')) => p == q && After(g, g', bound, b, a', b')
    case (EvalError(a'), EvalError(b')) => a'.tables == b'.tables
    case _ => false
  }

  ghost predicate AgreeArgs(g: Tables, g': Tables, bound: set<nat>, b: State, x: EvalArgs, y: EvalArgs) {
    match (x, y)
    case (Vals(ps, a'), Vals(qs, b')) => ps == qs && After(g, g', bound, b, a', b')
    case (ArgsError(a'), ArgsError(b')) => a'.tables == b'.tables
    case _ => false
  }

  ghost predicate AgreePlace(g: Tables, g': Tables, bound: set<nat>, b: State, x: Place, y: Place) {
    match (x, y)
    case (Place(keys, a'), Place(keys', b')) => keys == keys' && After(g, g', bound, b, a', b')
    case (NoPlace(a'), NoPlace(b')) => a'.tables == b'.tables
    case _ => false
  }

  ghost predicate AgreeExec(g: Tables, g': Tables, bound: set<nat>, b: State, x: Exec, y: Exec) {
    match (x, y)
    case (Done(a', hist), Done(b', hist')) => hist == hist' && After(g, g', bound, b, a', b')
    case (Stopping(a'), Stopping(b')) => a'.tables == b'.tables
    case (ExecError(a'), ExecError(b')) => a'.tables == b'.tables
    case _ => false
  }

  lemma AfterJoins(g: Tables, g1: Tables, g2: Tables, bound: set<nat>, bound': set<nat>,
                   b: State, a1: State, b1: State, a2: State, b2: State)
    requires After(g, g1, bound, b, a1, b1) && After(g1, g2, bound', b1, a2, b2)
    ensures After(g, g2, bound', b, a2, b2)
  {
  }

  /** Metrics change alike and matches stay. */
  lemma Retabled(g: Tables, g': Tables, bound: set<nat>, b: State, a1: State, b1: State, a2: State, b2: State)
    requires After(g, g', bound, b, a1, b1)
    requires a2.tables == b2.tables && a2.matches == a1.matches && b2.matches == b1.matches
    ensures After(g, g', bound, b, a2, b2)
  {
  }

  /** What is passed over has new slots, and those hold no match. */
  lemma PassedOver(g: Tables, g': Tables, bound: set<nat>, ids: set<nat>, a: State, b: State)
    requires Match(g, bound, a, b) && Since(g, g', ids)
    ensures After(g, g', bound + ids, b, Passed(a, ids), b)
  {
    forall id | id in bound + ids
      ensures SameMatch(g', id, Passed(a, ids), b)
    {
      if id in ids {
        assert g'.index[id] !in b.matches;
      } else {
        assert SameMatch(g, id, a, b);
      }
    }
  }

  /** A search is remembered under the pattern and under its new slot. */
  lemma SearchAgrees(inp: Input, g: Tables, bound: set<nat>, a: State, b: State, re: string, id: nat, text: string,
                     negated: bool)
    requires Match(g, bound, a, b)
    ensures Agree(g, Emit(g, re, id), bound + {id}, b, Search(inp, a, re, id, text, negated),
                  Search(inp, b, re, |g.regexps|, text, negated))
  {
    var g' := Emit(g, re, id);
    var a', b' := Search(inp, a, re, id, text, negated).s, Search(inp, b, re, |g.regexps|, text, negated).s;
    forall x | x in bound + {id}
      ensures SameMatch(g', x, a', b')
    {
      if x != id {
        assert SameMatch(g, x, a, b);
      }
    }
  }

  // ---- expressions ----

  lemma UseAgrees(g: Tables, g': Tables, bound: set<nat>, b0: State, a: State, b: State, m: nat, keys: seq<string>,
                  how: Access)
    requires After(g, g', bound, b0, a, b)
    ensures Agree(g, g', bound, b0, UseCell(a, m, keys, how), UseCell(b, m, keys, how))
  {
    AfterMatch(g, g', bound, b0, a, b);
    var x, y := UseCell(a, m, keys, how).s, UseCell(b, m, keys, how).s;
    assert x.matches == a.matches && y.matches == b.matches;
    Retabled(g, g', bound, b0, a, b, x, y);
    hide After;
  }

  lemma AfterMatch(g: Tables, g': Tables, bound: set<nat>, b: State, a': State, b': State)
    requires After(g, g', bound, b, a', b')
    ensures Match(g', bound, a', b') && a'.tables == b'.tables
  {
  }

  lemma TermAgrees(inp: Input, t: Term, g: Tables, s: Scan, a: State, b: State, hist: History)
    requires Match(g, s.bound, a, b) && ScanTerm(t, s).visible
    ensures Agree(g, NumTerm(t, g).g, ScanTerm(t, s).bound, b,
                  EvalTerm(inp, t, a, hist), EvalTerm(inp, NumTerm(t, g).v, b, hist))
  {
    match t
    case Pattern(re, id) => SearchAgrees(inp, g, s.bound, a, b, re, id, inp.line, false);
    case Capref(pat, _) => assert SameMatch(g, pat, a, b);
    case StrLit(_, _) =>
      forall id | id in s.bound
        ensures SameMatch(NumTerm(t, g).g, id, a, b)
      {
        assert SameMatch(g, id, a, b);
      }
    case _ =>
  }

  /** An expression means what its numbering evaluates to. */
  lemma {:induction false} ExprMeans(inp: Input, e: Expr, g: Tables, s: Scan, a: State, b: State, hist: History)
    requires Match(g, s.bound, a, b) && ScanExpr(e, s).visible
    ensures Agree(g, NumExpr(e, g).g, ScanExpr(e, s).bound, b,
                  MeanExpr(inp, e, a, hist), EvalExpr(inp, NumExpr(e, g).v, b, hist))
    decreases e, 3
  {
    hide After, Match, EvalTerm, UseCell, UnResult, JoinResult, Search;
    match e
    case Leaf(t) => TermAgrees(inp, t, g, s, a, b, hist);
    case Use(lv, how) =>
      PlaceMeans(inp, lv, g, s, a, b, hist);
      var x, y := MeanPlace(inp, lv, a, hist), EvalLValue(inp, NumPlace(lv, g).v, b, hist);
      if x.Place? {
        UseAgrees(g, NumPlace(lv, g).g, ScanExpr(e, s).bound, b, x.s, y.s, lv.metric, x.keys, how);
      }
    case Unary(_, e1) =>
      ExprMeans(inp, e1, g, s, a, b, hist);
      var x, y := MeanExpr(inp, e1, a, hist), EvalExpr(inp, NumExpr(e1, g).v, b, hist);
      if x.Val? {
        AfterMatch(g, NumExpr(e1, g).g, ScanExpr(e1, s).bound, b, x.s, y.s);
      }
    case Binary(_, l, r) => OperandsMean(inp, l, r, e, g, s, a, b, hist);
    case Compare(_, _, l, r) => OperandsMean(inp, l, r, e, g, s, a, b, hist);
    case Logic(_, _, _) => LogicMeans(inp, e, g, s, a, b, hist);
    case StrMatch(_, _, _, _) => StrMatchMeans(inp, e, g, s, a, b, hist);
    case Joined(_, _) => JoinedMeans(inp, e, g, s, a, b, hist);
  }

  /** Both operands in turn: where the first one gives a value, the second starts from it. */
  lemma {:induction false} PairMeans(inp: Input, l: Expr, r: Expr, e: Expr, g: Tables, s: Scan, a: State, b: State,
                                     hist: History)
    requires l < e && r < e
    requires Match(g, s.bound, a, b) && ScanExpr(r, ScanExpr(l, s)).visible
    ensures var n := NumExpr(l, g);
            var x, y := MeanExpr(inp, l, a, hist), EvalExpr(inp, n.v, b, hist);
            && Agree(g, n.g, ScanExpr(l, s).bound, b, x, y)
            && (x.Val? ==> Agree(g, NumExpr(r, n.g).g, ScanExpr(r, ScanExpr(l, s)).bound, b,
                                 MeanExpr(inp, r, x.s, hist), EvalExpr(inp, NumExpr(r, n.g).v, y.s, hist)))
    decreases e, 0
  {
    hide MeanExpr, EvalExpr, NumExpr, ScanExpr;
    var n := NumExpr(l, g);
    var x, y := MeanExpr(inp, l, a, hist), EvalExpr(inp, n.v, b, hist);
    Monotone(r, ScanExpr(l, s));
    ExprMeans(inp, l, g, s, a, b, hist);
    if x.Val? {
      ExprMeans(inp, r, n.g, ScanExpr(l, s), x.s, y.s, hist);
      var x', y' := MeanExpr(inp, r, x.s, hist), EvalExpr(inp, NumExpr(r, n.g).v, y.s, hist);
      if x'.Val? {
        AfterJoins(g, n.g, NumExpr(r, n.g).g, ScanExpr(l, s).bound, ScanExpr(r, ScanExpr(l, s)).bound, b, x.s, y.s, x'.s, y'.s);
      }
    }
  }

  lemma {:induction false} OperandsMean(inp: Input, l: Expr, r: Expr, e: Expr, g: Tables, s: Scan, a: State,
                                        b: State, hist: History)
    requires l < e && r < e
    requires Match(g, s.bound, a, b) && ScanExpr(r, ScanExpr(l, s)).visible
    ensures var n := NumExpr(l, g);
            var x, y := MeanExpr(inp, l, a, hist), EvalExpr(inp, n.v, b, hist);
            && Agree(g, n.g, ScanExpr(l, s).bound, b, x, y)
            && (x.Val? ==>
                  var x', y' := MeanExpr(inp, r, x.s, hist), EvalExpr(inp, NumExpr(r, n.g).v, y.s, hist);
                  && Agree(g, NumExpr(r, n.g).g, ScanExpr(r, ScanExpr(l, s)).bound, b, x', y')
                  && x'.s.tables == y'.s.tables)
    decreases e, 1
  {
    hide MeanExpr, EvalExpr, NumExpr, ScanExpr;
    PairMeans(inp, l, r, e, g, s, a, b, hist);
  }

  lemma {:induction false} LogicMeans(inp: Input, e: Expr, g: Tables, s: Scan, a: State, b: State, hist: History)
    requires e.Logic?
    requires Match(g, s.bound, a, b) && ScanExpr(e, s).visible
    ensures Agree(g, NumExpr(e, g).g, ScanExpr(e, s).bound, b,
                  MeanExpr(inp, e, a, hist), EvalExpr(inp, NumExpr(e, g).v, b, hist))
    decreases e, 2
  {
    hide After, Match, Since;
    PairMeans(inp, e.l, e.r, e, g, s, a, b, hist);
    var n := NumExpr(e.l, g);
    var x, y := MeanExpr(inp, e.l, a, hist), EvalExpr(inp, n.v, b, hist);
    if x.Val? && Settles(e.conj, x.p) {
      SkipAgrees(e.r, g, n.g, ScanExpr(e.l, s), b, x.s, y.s);
    }
  }

  lemma SkipAgrees(e: Expr, g: Tables, g1: Tables, s: Scan, b: State, a1: State, b1: State)
    requires After(g, g1, s.bound, b, a1, b1)
    ensures After(g, NumExpr(e, g1).g, ScanExpr(e, s).bound, b, Passed(a1, Patterns(e)), b1)
  {
    NumExprSince(e, g1);
    ScanBound(e, s);
    PassedOver(g1, NumExpr(e, g1).g, s.bound, Patterns(e), a1, b1);
    AfterJoins(g, g1, NumExpr(e, g1).g, s.bound, s.bound + Patterns(e), b, a1, b1, Passed(a1, Patterns(e)), b1);
  }

  lemma {:induction false} StrMatchMeans(inp: Input, e: Expr, g: Tables, s: Scan, a: State, b: State, hist: History)
    requires e.StrMatch?
    requires Match(g, s.bound, a, b) && ScanExpr(e, s).visible
    ensures Agree(g, NumExpr(e, g).g, ScanExpr(e, s).bound, b,
                  MeanExpr(inp, e, a, hist), EvalExpr(inp, NumExpr(e, g).v, b, hist))
    decreases e, 2
  {
    hide Match, Kept, Search;
    ExprMeans(inp, e.e, g, s, a, b, hist);
    var n := NumExpr(e.e, g);
    var x, y := MeanExpr(inp, e.e, a, hist), EvalExpr(inp, n.v, b, hist);
    if x.Val? {
      AfterMatch(g, n.g, ScanExpr(e.e, s).bound, b, x.s, y.s);
    }
    if x.Val? && ToStr(inp.host, x.p).Some? {
      var text, s1 := ToStr(inp.host, x.p).value, ScanExpr(e.e, s);
      SearchAgrees(inp, n.g, s1.bound, x.s, y.s, e.re, e.id, text, e.negated);
      SearchValue(inp, x.s, e.re, e.id, text, e.negated);
      SearchValue(inp, y.s, e.re, |n.g.regexps|, text, e.negated);
      AfterJoins(g, n.g, Emit(n.g, e.re, e.id), s1.bound, s1.bound + {e.id}, b, x.s, y.s,
                 Search(inp, x.s, e.re, e.id, text, e.negated).s, Search(inp, y.s, e.re, |n.g.regexps|, text, e.negated).s);
    }
  }

  lemma SearchValue(inp: Input, s: State, re: string, id: nat, text: string, negated: bool)
    ensures Search(inp, s, re, id, text, negated).Val?
  {
  }

  lemma {:induction false} JoinedMeans(inp: Input, e: Expr, g: Tables, s: Scan, a: State, b: State, hist: History)
    requires e.Joined?
    requires Match(g, s.bound, a, b) && ScanExpr(e, s).visible
    ensures Agree(g, NumExpr(e, g).g, ScanExpr(e, s).bound, b,
                  MeanExpr(inp, e, a, hist), EvalExpr(inp, NumExpr(e, g).v, b, hist))
    decreases e, 2
  {
    hide After, JoinResult;
    var n, s1 := NumPlace(e.lv, g), ScanArgs(e.lv.args, s);
    var x, y := MeanPlace(inp, e.lv, a, hist), EvalLValue(inp, n.v, b, hist);
    Monotone(e.e, s1);
    PlaceMeans(inp, e.lv, g, s, a, b, hist);
    if x.Place? {
      AfterMatch(g, n.g, s1.bound, b, x.s, y.s);
      ExprMeans(inp, e.e, n.g, s1, x.s, y.s, hist);
      var x', y' := MeanExpr(inp, e.e, x.s, hist), EvalExpr(inp, NumExpr(e.e, n.g).v, y.s, hist);
      if x'.Val? {
        AfterJoins(g, n.g, NumExpr(e.e, n.g).g, s1.bound, ScanExpr(e.e, s1).bound, b, x.s, y.s, x'.s, y'.s);
        AfterMatch(g, NumExpr(e.e, n.g).g, ScanExpr(e.e, s1).bound, b, x'.s, y'.s);
        JoinAgrees(inp, x'.s, y'.s, e.lv.metric, x.keys, x'.p);
      }
    }
  }

  lemma JoinAgrees(inp: Input, a: State, b: State, m: nat, keys: seq<string>, p: Plain)
    requires a.tables == b.tables
    ensures JoinResult(inp.host, a, m, keys, p) == JoinResult(inp.host, b, m, keys, p)
  {
  }

  lemma {:induction false} TargetMeans(inp: Input, lv: LValue, g: Tables, s: Scan, a: State, b: State, hist: History)
    requires Match(g, s.bound, a, b) && ScanArgs(lv.args, s).visible
    ensures AgreePlace(g, NumPlace(lv, g).g, ScanArgs(lv.args, s).bound, b,
                       MeanTarget(inp, lv, a, hist), EvalTarget(inp, NumPlace(lv, g).v, b, hist))
    decreases lv, 1
  {
    ArgsMean(inp, lv.args, g, s, a, b, hist);
  }

  lemma {:induction false} PlaceMeans(inp: Input, lv: LValue, g: Tables, s: Scan, a: State, b: State, hist: History)
    requires Match(g, s.bound, a, b) && ScanArgs(lv.args, s).visible
    ensures AgreePlace(g, NumPlace(lv, g).g, ScanArgs(lv.args, s).bound, b,
                       MeanPlace(inp, lv, a, hist), EvalLValue(inp, NumPlace(lv, g).v, b, hist))
    decreases lv, 2
  {
    TargetMeans(inp, lv, g, s, a, b, hist);
    var x, y := MeanTarget(inp, lv, a, hist), EvalTarget(inp, NumPlace(lv, g).v, b, hist);
    if x.Place? {
      Retabled(g, NumPlace(lv, g).g, ScanArgs(lv.args, s).bound, b, x.s, y.s,
               Touch(x.s, lv.metric, x.keys), Touch(y.s, lv.metric, x.keys));
    }
  }

  lemma {:induction false} ArgsMean(inp: Input, es: seq<Expr>, g: Tables, s: Scan, a: State, b: State, hist: History)
    requires Match(g, s.bound, a, b) && ScanArgs(es, s).visible
    ensures AgreeArgs(g, NumArgs(es, g).g, ScanArgs(es, s).bound, b,
                      MeanAll(inp, es, a, hist), EvalAll(inp, NumArgs(es, g).v, b, hist))
    decreases es, 0
  {
    hide Match, Kept;
    if es == [] {
      KeptSame(g, s.bound, a, b);
    } else {
      var n, s1 := NumExpr(es[0], g), ScanExpr(es[0], s);
      var rest := NumArgs(es[1..], n.g);
      assert ([n.v] + rest.v)[1..] == rest.v;
      MonotoneArgs(es[1..], s1);
      ExprMeans(inp, es[0], g, s, a, b, hist);
      var x, y := MeanExpr(inp, es[0], a, hist), EvalExpr(inp, n.v, b, hist);
      if x.Val? {
        ArgsMean(inp, es[1..], n.g, s1, x.s, y.s, hist);
        var x', y' := MeanAll(inp, es[1..], x.s, hist), EvalAll(inp, rest.v, y.s, hist);
        if x'.Vals? {
          AfterJoins(g, n.g, rest.g, s1.bound, ScanArgs(es[1..], s1).bound, b, x.s, y.s, x'.s, y'.s);
        }
      }
    }
  }

  lemma KeptSame(g: Tables, bound: set<nat>, a: State, b: State)
    requires Match(g, bound, a, b)
    ensures After(g, g, bound, b, a, b)
  {
  }

  // ---- statements ----

  /** The block a `next` runs means what it is inlined and numbered as; so does every statement. */
  lemma {:induction false} StmtMeans(inp: Input, decls: seq<Src>, s: Src, lim: nat, env: Env, g: Tables, t: Scan,
                                     a: State, b: State, hist: History)
    requires Checked(decls) && Uses(s, lim) && lim <= |decls| && Open(decls, env)
    requires var st := Expand(decls, s, lim, Inlining(decls, env));
             Match(g, t.bound, a, b) && ScanStmt(st, t).visible
    ensures var st := Expand(decls, s, lim, Inlining(decls, env));
            var n := NumStmt(st, g, true);
            AgreeExec(g, n.g, ScanStmt(st, t).bound, b, Means(inp, decls, s, lim, env, a, hist), ExecStmt(inp, n.v, b, hist))
    decreases Expand(decls, s, lim, Inlining(decls, env)), 2
  {
    hide After, Match, MeanExpr, EvalExpr, NumExpr, ScanExpr, UpdateCell, RemoveCell, Touch;
    match s
    case SExpr(e) => ExprMeans(inp, e, g, t, a, b, hist);
    case SStore(_, _, _) => StoreMeans(inp, s, g, t, a, b, hist, decls, lim, env);
    case SCond(_, _, _) => CondMeans(inp, decls, s, lim, env, g, t, a, b, hist);
    case SBlock(stmts) => AllMean(inp, decls, stmts, lim, env, g, t, a, b, hist);
    case SStop => MatchTables(g, t.bound, a, b);
    case SRemove(_, _) => RemoveMeans(inp, s, g, t, a, b, hist, decls, lim, env);
    case SDeco(d, block) =>
      var inner := Waiting(block, lim, env);
      StmtMeans(inp, decls, decls[d], d, inner, g, t.(emitted := {}), a, b, hist);
      LeaveAgrees(g, NumStmt(Expand(decls, decls[d], d, Inlining(decls, inner)), g, true).g, t.bound,
                  ScanStmt(Expand(decls, decls[d], d, Inlining(decls, inner)), t.(emitted := {})).bound, a, b,
                  Means(inp, decls, decls[d], d, inner, a, hist),
                  ExecStmt(inp, NumStmt(Expand(decls, decls[d], d, Inlining(decls, inner)), g, true).v, b, hist));
    case SNext => NextMeans(inp, decls, lim, env, g, t, a, b, hist);
  }

  lemma MatchTables(g: Tables, bound: set<nat>, a: State, b: State)
    requires Match(g, bound, a, b)
    ensures a.tables == b.tables
  {
  }

  /** Leaving an instance, slots and matches from before it are back together. */
  lemma LeaveAgrees(g: Tables, g': Tables, bound: set<nat>, inner: set<nat>, a: State, b: State, x: Exec, y: Exec)
    requires Match(g, bound, a, b) && AgreeExec(g, g', inner, b, x, y)
    ensures AgreeExec(g, g'.(index := g.index), bound, b, Leave(a, x), y)
  {
    if x.Done? {
      forall id | id in bound
        ensures SameMatch(g'.(index := g.index), id, x.s.(matches := a.matches), y.s)
      {
        assert SameMatch(g, id, a, b);
      }
    }
  }

  lemma {:induction false} NextMeans(inp: Input, decls: seq<Src>, lim: nat, env: Env, g: Tables, t: Scan,
                                     a: State, b: State, hist: History)
    requires Checked(decls) && lim <= |decls| && Open(decls, env)
    requires Match(g, t.bound, a, b) && ScanStmt(Instance(Inlining(decls, env)), t).visible
    ensures var n := NumStmt(Instance(Inlining(decls, env)), g, true);
            AgreeExec(g, n.g, t.bound, b, Means(inp, decls, SNext, lim, env, a, hist), ExecStmt(inp, n.v, b, hist))
    decreases Instance(Inlining(decls, env)), 1
  {
    match env
    case NoBlock => KeptSame(g, t.bound, a, b);
    case Waiting(block, l, outer) =>
      StmtMeans(inp, decls, block, l, outer, g, t.(emitted := {}), a, b, hist);
      var k := Inlining(decls, env);
      LeaveAgrees(g, NumStmt(k, g, true).g, t.bound, ScanStmt(k, t.(emitted := {})).bound, a, b,
                  Means(inp, decls, block, l, outer, a, hist), ExecStmt(inp, NumStmt(k, g, true).v, b, hist));
  }

  lemma UpdateAgrees(h: Host, g: Tables, g': Tables, bound: set<nat>, b0: State, a: State, b: State, m: nat,
                     keys: seq<string>,
                     how: Update, p: Plain, hist: History)
    requires After(g, g', bound, b0, a, b)
    ensures AgreeExec(g, g', bound, b0, UpdateCell(h, a, m, keys, how, p, hist), UpdateCell(h, b, m, keys, how, p, hist))
  {
    AfterMatch(g, g', bound, b0, a, b);
    var x, y := UpdateCell(h, a, m, keys, how, p, hist).s, UpdateCell(h, b, m, keys, how, p, hist).s;
    assert x.matches == a.matches && y.matches == b.matches;
    Retabled(g, g', bound, b0, a, b, x, y);
    hide After;
  }

  lemma StoreMeans(inp: Input, s: Src, g: Tables, t: Scan, a: State, b: State, hist: History, decls: seq<Src>,
                   lim: nat, env: Env)
    requires s.SStore? && Checked(decls) && lim <= |decls| && Open(decls, env)
    requires var st := Store(s.lv, s.e, s.how);
             Match(g, t.bound, a, b) && ScanStmt(st, t).visible
    ensures var st := Store(s.lv, s.e, s.how);
            var n := NumStmt(st, g, true);
            AgreeExec(g, n.g, ScanStmt(st, t).bound, b, Means(inp, decls, s, lim, env, a, hist), ExecStmt(inp, n.v, b, hist))
  {
    hide After, UpdateCell, Match, MeanExpr, EvalExpr;
    var n, t1 := NumPlace(s.lv, g), ScanArgs(s.lv.args, t);
    var x, y := MeanPlace(inp, s.lv, a, hist), EvalLValue(inp, n.v, b, hist);
    Monotone(s.e, t1);
    PlaceMeans(inp, s.lv, g, t, a, b, hist);
    if x.Place? {
      AfterMatch(g, n.g, t1.bound, b, x.s, y.s);
      ExprMeans(inp, s.e, n.g, t1, x.s, y.s, hist);
      var m, t2 := NumExpr(s.e, n.g), ScanExpr(s.e, t1);
      var x', y' := MeanExpr(inp, s.e, x.s, hist), EvalExpr(inp, m.v, y.s, hist);
      if x'.Val? {
        AfterJoins(g, n.g, m.g, t1.bound, t2.bound, b, x.s, y.s, x'.s, y'.s);
        UpdateAgrees(inp.host, g, m.g, t2.bound, b, x'.s, y'.s, s.lv.metric, x.keys, s.how, x'.p, hist);
      }
    }
  }

  lemma RemoveMeans(inp: Input, s: Src, g: Tables, t: Scan, a: State, b: State, hist: History, decls: seq<Src>,
                    lim: nat, env: Env)
    requires s.SRemove? && Checked(decls) && lim <= |decls| && Open(decls, env)
    requires var st := Remove(s.lv, s.after);
             Match(g, t.bound, a, b) && ScanStmt(st, t).visible
    ensures var st := Remove(s.lv, s.after);
            var n := NumStmt(st, g, true);
            AgreeExec(g, n.g, ScanStmt(st, t).bound, b, Means(inp, decls, s, lim, env, a, hist), ExecStmt(inp, n.v, b, hist))
  {
    hide After, Match;
    var n, t1 := NumPlace(s.lv, g), ScanArgs(s.lv.args, t);
    var x, y := MeanTarget(inp, s.lv, a, hist), EvalTarget(inp, n.v, b, hist);
    TargetMeans(inp, s.lv, g, t, a, b, hist);
    if x.Place? {
      AfterMatch(g, n.g, t1.bound, b, x.s, y.s);
      var x' := RemoveCell(x.s, s.lv.metric, x.keys, s.after, hist).s;
      var y' := RemoveCell(y.s, s.lv.metric, x.keys, s.after, hist).s;
      Retabled(g, n.g, t1.bound, b, x.s, y.s, x', y');
    }
  }

  lemma {:induction false} AllMean(inp: Input, decls: seq<Src>, stmts: seq<Src>, lim: nat, env: Env, g: Tables, t: Scan,
                                   a: State, b: State, hist: History)
    requires Checked(decls) && UsesAll(stmts, lim) && lim <= |decls| && Open(decls, env)
    requires var sts := ExpandAll(decls, stmts, lim, Inlining(decls, env));
             Match(g, t.bound, a, b) && ScanBlock(sts, t).visible
    ensures var sts := ExpandAll(decls, stmts, lim, Inlining(decls, env));
            var n := NumBlock(sts, g, true);
            AgreeExec(g, n.g, ScanBlock(sts, t).bound, b,
                      MeansAll(inp, decls, stmts, lim, env, a, hist), ExecAll(inp, n.v, b, hist))
    decreases ExpandAll(decls, stmts, lim, Inlining(decls, env)), 0
  {
    hide After, Match;
    if stmts == [] {
      KeptSame(g, t.bound, a, b);
    } else {
      var k := Inlining(decls, env);
      var st, sts := Expand(decls, stmts[0], lim, k), ExpandAll(decls, stmts[1..], lim, k);
      assert ([st] + sts)[1..] == sts && ([st] + sts)[0] == st;
      var n, t1 := NumStmt(st, g, true), ScanStmt(st, t);
      var ns := NumBlock(sts, n.g, true);
      assert ([n.v] + ns.v)[1..] == ns.v;
      MonotoneBlock(sts, t1);
      StmtMeans(inp, decls, stmts[0], lim, env, g, t, a, b, hist);
      var x, y := Means(inp, decls, stmts[0], lim, env, a, hist), ExecStmt(inp, n.v, b, hist);
      if x.Done? {
        AfterMatch(g, n.g, t1.bound, b, x.s, y.s);
        AllMean(inp, decls, stmts[1..], lim, env, n.g, t1, x.s, y.s, x.hist);
        var x', y' := MeansAll(inp, decls, stmts[1..], lim, env, x.s, x.hist), ExecAll(inp, ns.v, y.s, x.hist);
        if x'.Done? {
          AfterJoins(g, n.g, ns.g, t1.bound, ScanBlock(sts, t1).bound, b, x.s, y.s, x'.s, y'.s);
        }
      }
    }
  }

  lemma {:induction false} CondMeans(inp: Input, decls: seq<Src>, s: Src, lim: nat, env: Env, g: Tables, t: Scan,
                                     a: State, b: State, hist: History)
    requires s.SCond? && Checked(decls) && Uses(s, lim) && lim <= |decls| && Open(decls, env)
    requires var st := Expand(decls, s, lim, Inlining(decls, env));
             Match(g, t.bound, a, b) && ScanStmt(st, t).visible
    ensures var st := Expand(decls, s, lim, Inlining(decls, env));
            var n := NumStmt(st, g, true);
            AgreeExec(g, n.g, ScanStmt(st, t).bound, b, Means(inp, decls, s, lim, env, a, hist), ExecStmt(inp, n.v, b, hist))
    decreases Expand(decls, s, lim, Inlining(decls, env)), 1
  {
    hide After, Match, MeanExpr, EvalExpr, NumExpr, ScanExpr;
    var k := Inlining(decls, env);
    var n, t1 := NumExpr(s.c, g), ScanExpr(s.c, t);
    var tr := Expand(decls, s.truth, lim, k);
    var n2, t2 := NumStmt(tr, n.g, true), ScanStmt(tr, t1);
    if s.els.Some? {
      MonotoneStmt(Expand(decls, s.els.value, lim, k), t2);
    }
    MonotoneStmt(tr, t1);
    ExprMeans(inp, s.c, g, t, a, b, hist);
    var x, y := MeanExpr(inp, s.c, a, hist), EvalExpr(inp, n.v, b, hist);
    if x.Val? {
      AfterMatch(g, n.g, t1.bound, b, x.s, y.s);
      if !IsFalse(x.p) {
        StmtMeans(inp, decls, s.truth, lim, env, n.g, t1, x.s, y.s, []);
        var x2, y2 := Means(inp, decls, s.truth, lim, env, x.s, []), ExecStmt(inp, n2.v, y.s, []);
        if x2.Done? {
          AfterJoins(g, n.g, n2.g, t1.bound, t2.bound, b, x.s, y.s, x2.s, y2.s);
          SkipElse(decls, s.els, lim, k, g, n2.g, t2, b, x2.s, y2.s);
        }
      } else {
        SkipStmt(decls, s.truth, lim, k, g, n.g, t1, b, x.s, y.s);
        var x2 := Passed(x.s, PatternsIn(s.truth));
        AfterMatch(g, n2.g, t2.bound, b, x2, y.s);
        if s.els.Some? {
          var e := Expand(decls, s.els.value, lim, k);
          StmtMeans(inp, decls, s.els.value, lim, env, n2.g, t2, x2, y.s, hist + [false]);
          var x3 := Means(inp, decls, s.els.value, lim, env, x2, hist + [false]);
          var y3 := ExecStmt(inp, NumStmt(e, n2.g, true).v, y.s, hist + [false]);
          if x3.Done? {
            AfterJoins(g, n2.g, NumStmt(e, n2.g, true).g, t2.bound, ScanStmt(e, t2).bound, b, x2, y.s, x3.s, y3.s);
          }
        }
      }
    }
  }

  lemma SkipStmt(decls: seq<Src>, s: Src, lim: nat, k: Stmt, g: Tables, g1: Tables, t: Scan, b: State, a1: State, b1: State)
    requires Checked(decls) && Uses(s, lim) && lim <= |decls|
    requires After(g, g1, t.bound, b, a1, b1)
    ensures var st := Expand(decls, s, lim, k);
            After(g, NumStmt(st, g1, true).g, ScanStmt(st, t).bound, b, Passed(a1, PatternsIn(s)), b1)
  {
    var st := Expand(decls, s, lim, k);
    var g2 := NumStmt(st, g1, true).g;
    NumSrcSince(decls, s, lim, k, g1);
    ScanSrcBound(decls, s, lim, k, t);
    PassedOver(g1, g2, t.bound, PatternsIn(s), a1, b1);
    AfterJoins(g, g1, g2, t.bound, t.bound + PatternsIn(s), b, a1, b1, Passed(a1, PatternsIn(s)), b1);
  }

  lemma SkipElse(decls: seq<Src>, els: Option<Src>, lim: nat, k: Stmt, g: Tables, g1: Tables, t: Scan, b: State,
                 a1: State, b1: State)
    requires Checked(decls) && lim <= |decls| && (els.Some? ==> Uses(els.value, lim))
    requires After(g, g1, t.bound, b, a1, b1)
    ensures var a2 := Passed(a1, PatternsInElse(els));
            match els
            case None => After(g, g1, t.bound, b, a2, b1)
            case Some(s) =>
              var st := Expand(decls, s, lim, k);
              After(g, NumStmt(st, g1, true).g, ScanStmt(st, t).bound, b, a2, b1)
  {
    if els.Some? {
      SkipStmt(decls, els.value, lim, k, g, g1, t, b, a1, b1);
    } else {
      assert a1.matches - {} == a1.matches;
    }
  }
}

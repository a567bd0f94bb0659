/**
 Decorators.  `@d { B }` stands for the body of `d` with `B` in place of its
 `next`; the generator inlines it with a stack of pending blocks
 (`internal/vm/codegen/codegen.go`, DecoStmt and NextStmt).
 */
module Decorators {
  import opened Common
  import opened Syntax

  /** Programs as parsed: pattern identities are AST nodes, decorators are not yet expanded. */
  datatype Src =
    | SExpr(e: Expr)
    | SStore(lv: LValue, e: Expr, how: Update)
    | SCond(c: Expr, truth: Src, els: Option<Src>)
    | SBlock(stmts: seq<Src>)
    | SStop
    | SRemove(lv: LValue, after: Option<int>)
    | SDeco(decl: nat, block: Src)
    | SNext

  /** `next` statements belonging to the enclosing decorator. */
  function Nexts(s: Src): nat
    decreases s, 1
  {
    match s
    case SCond(_, truth, els) => Nexts(truth) + (if els.Some? then Nexts(els.value) else 0)
    case SBlock(stmts) => NextsAll(stmts)
    case SDeco(_, block) => Nexts(block)
    case SNext => 1
    case _ => 0
  }

  function NextsAll(stmts: seq<Src>): nat
    decreases stmts, 0
  {
    if stmts == [] then 0 else Nexts(stmts[0]) + NextsAll(stmts[1..])
  }

  /** Every decorator applied is among the first `lim` declared, so it was complete before this use. */
  predicate Uses(s: Src, lim: nat)
    decreases s, 1
  {
    match s
    case SCond(_, truth, els) => Uses(truth, lim) && (els.Some? ==> Uses(els.value, lim))
    case SBlock(stmts) => UsesAll(stmts, lim)
    case SDeco(d, block) => d < lim && Uses(block, lim)
    case _ => true
  }

  predicate UsesAll(stmts: seq<Src>, lim: nat)
    decreases stmts, 0
  {
    stmts != [] ==> Uses(stmts[0], lim) && UsesAll(stmts[1..], lim)
  }

  /** What the checker accepts: each declaration has one `next` and applies earlier ones only. */
  predicate Checked(decls: seq<Src>) {
    forall d :: 0 <= d < |decls| ==> Nexts(decls[d]) == 1 && Uses(decls[d], d)
  }

  /** The program with decorators inlined; `k` is the block a `next` stands for. */
  function Expand(decls: seq<Src>, s: Src, lim: nat, k: Stmt): Stmt
    requires Checked(decls) && Uses(s, lim) && lim <= |decls|
    decreases lim, s, 1
  {
    match s
    case SExpr(e) => ExprStmt(e)
    case SStore(lv, e, how) => Store(lv, e, how)
    case SCond(c, truth, els) =>
      Cond(c, Expand(decls, truth, lim, k),
           match els case None => None case Some(e) => Some(Expand(decls, e, lim, k)))
    case SBlock(stmts) => Block(ExpandAll(decls, stmts, lim, k))
    case SStop => Stop
    case SRemove(lv, after) => Remove(lv, after)
    case SDeco(d, block) => Instance(Expand(decls, decls[d], d, Expand(decls, block, lim, k)))
    case SNext => Instance(k)
  }

  function ExpandAll(decls: seq<Src>, stmts: seq<Src>, lim: nat, k: Stmt): (r: seq<Stmt>)
    requires Checked(decls) && UsesAll(stmts, lim) && lim <= |decls|
    ensures |r| == |stmts|
    decreases lim, stmts, 0
  {
    if stmts == [] then []
    else [Expand(decls, stmts[0], lim, k)] + ExpandAll(decls, stmts[1..], lim, k)
  }

  /** Code without a `next` of its own does not see the pending block. */
  lemma {:induction false} ExpandNoNext(decls: seq<Src>, s: Src, lim: nat, k: Stmt, k': Stmt)
    requires Checked(decls) && Uses(s, lim) && lim <= |decls| && Nexts(s) == 0
    ensures Expand(decls, s, lim, k) == Expand(decls, s, lim, k')
    decreases s, 1
  {
    match s
    case SCond(_, truth, els) =>
      ExpandNoNext(decls, truth, lim, k, k');
      if els.Some? {
        ExpandNoNext(decls, els.value, lim, k, k');
      }
    case SBlock(stmts) => ExpandAllNoNext(decls, stmts, lim, k, k');
    case SDeco(_, block) => ExpandNoNext(decls, block, lim, k, k');
    case _ =>
  }

  lemma {:induction false} ExpandAllNoNext(decls: seq<Src>, stmts: seq<Src>, lim: nat, k: Stmt, k': Stmt)
    requires Checked(decls) && UsesAll(stmts, lim) && lim <= |decls| && NextsAll(stmts) == 0
    ensures ExpandAll(decls, stmts, lim, k) == ExpandAll(decls, stmts, lim, k')
    decreases stmts, 0
  {
    if stmts != [] {
      ExpandNoNext(decls, stmts[0], lim, k, k');
      ExpandAllNoNext(decls, stmts[1..], lim, k, k');
    }
  }

  // ---- slots for patterns and strings ----

  /** The generator's constant tables, and the slot last written into each pattern node. */
  datatype Tables = Tables(regexps: seq<string>, strings: seq<string>, index: map<nat, nat>)

  /** A node's Index field starts at zero. */
  function IndexOf(g: Tables, id: nat): nat { if id in g.index then g.index[id] else 0 }

  function Emit(g: Tables, re: string, id: nat): Tables {
    g.(regexps := g.regexps + [re], index := g.index[id := |g.regexps|])
  }

  datatype Numbered<T> = Numbered(v: T, g: Tables)

  function NumTerm(t: Term, g: Tables): Numbered<Term> {
    match t
    case StrLit(text, _) => Numbered(StrLit(text, |g.strings|), g.(strings := g.strings + [text]))
    case Capref(pat, group) => Numbered(Capref(IndexOf(g, pat), group), g)
    case Pattern(re, id) => Numbered(Pattern(re, |g.regexps|), Emit(g, re, id))
    case _ => Numbered(t, g)
  }

  function NumExpr(e: Expr, g: Tables): Numbered<Expr>
    decreases e, 1
  {
    match e
    case Leaf(t) => var r := NumTerm(t, g); Numbered(Leaf(r.v), r.g)
    case Use(lv, how) => var r := NumPlace(lv, g); Numbered(Use(r.v, how), r.g)
    case Unary(op, e1) => var r := NumExpr(e1, g); Numbered(Unary(op, r.v), r.g)
    case Binary(op, l, r) =>
      var a := NumExpr(l, g);
      var b := NumExpr(r, a.g);
      Numbered(Binary(op, a.v, b.v), b.g)
    case Compare(rel, left, l, r) =>
      var a := NumExpr(l, g);
      var b := NumExpr(r, a.g);
      Numbered(Compare(rel, left, a.v, b.v), b.g)
    case Logic(conj, l, r) =>
      var a := NumExpr(l, g);
      var b := NumExpr(r, a.g);
      Numbered(Logic(conj, a.v, b.v), b.g)
    case StrMatch(e1, re, id, negated) =>
      var a := NumExpr(e1, g);
      Numbered(StrMatch(a.v, re, |a.g.regexps|, negated), Emit(a.g, re, id))
    case Joined(lv, e1) =>
      var a := NumPlace(lv, g);
      var b := NumExpr(e1, a.g);
      Numbered(Joined(a.v, b.v), b.g)
  }

  function NumPlace(lv: LValue, g: Tables): Numbered<LValue>
    decreases lv, 0
  {
    var r := NumArgs(lv.args, g);
    Numbered(LValue(lv.metric, r.v), r.g)
  }

  function NumArgs(es: seq<Expr>, g: Tables): (r: Numbered<seq<Expr>>)
    ensures |r.v| == |es|
    decreases es, 0
  {
    if es == [] then Numbered([], g)
    else
      var a := NumExpr(es[0], g);
      var b := NumArgs(es[1..], a.g);
      Numbered([a.v] + b.v, b.g)
  }

  /**
   Slots for a statement.  With `scoped` a pattern belongs to the instance
   that emitted it: leaving an instance restores the slots seen before it.
   Without, the slot stays in the shared AST node, as the generator leaves it.
   */
  function NumStmt(st: Stmt, g: Tables, scoped: bool): Numbered<Stmt>
    decreases st, 1
  {
    match st
    case ExprStmt(e) => var r := NumExpr(e, g); Numbered(ExprStmt(r.v), r.g)
    case Store(lv, e, how) =>
      var a := NumPlace(lv, g);
      var b := NumExpr(e, a.g);
      Numbered(Store(a.v, b.v, how), b.g)
    case Cond(c, truth, els) =>
      var a := NumExpr(c, g);
      var b := NumStmt(truth, a.g, scoped);
      var d := NumElse(els, b.g, scoped);
      Numbered(Cond(a.v, b.v, d.v), d.g)
    case Block(stmts) => var r := NumBlock(stmts, g, scoped); Numbered(Block(r.v), r.g)
    case Instance(body) =>
      var r := NumStmt(body, g, scoped);
      Numbered(Instance(r.v), if scoped then r.g.(index := g.index) else r.g)
    case Stop => Numbered(Stop, g)
    case Remove(lv, after) => var r := NumPlace(lv, g); Numbered(Remove(r.v, after), r.g)
  }

  function NumElse(els: Option<Stmt>, g: Tables, scoped: bool): Numbered<Option<Stmt>>
    decreases els, 0
  {
    match els
    case None => Numbered(None, g)
    case Some(e) => var r := NumStmt(e, g, scoped); Numbered(Some(r.v), r.g)
  }

  function NumBlock(stmts: seq<Stmt>, g: Tables, scoped: bool): (r: Numbered<seq<Stmt>>)
    ensures |r.v| == |stmts|
    decreases stmts, 0
  {
    if stmts == [] then Numbered([], g)
    else
      var a := NumStmt(stmts[0], g, scoped);
      var b := NumBlock(stmts[1..], a.g, scoped);
      Numbered([a.v] + b.v, b.g)
  }

  const FRESH: Tables := Tables([], [], map[])
}

/**
 What the checker's scopes guarantee (`internal/vm/checker/checker.go`): the
 walk that resolves capture references and decorators, with the zygote scope
 a declaration leaves behind for its applications.
 */
module Scopes {
  import opened Common
  import opened Syntax
  import opened Machine
  import opened Semantics
  import opened Decorators
  import opened Captures
  import opened CodeGen
  import opened Pipeline
  import opened Refine
  import opened Correct

  /** What a scope can hold: a declared decorator, the capture groups of a pattern. */
  datatype Symbol = Decorator(decl: nat) | Groups(pat: nat)

  /**
   The checker on its way: whether every name so far was found and every
   `next` in order, all symbols on the scope chain, and the zygote of the
   declaration being walked.
   */
  datatype Walk = Walk(found: bool, inOrder: bool, chain: set<Symbol>, zygote: Option<set<Symbol>>)

  function InReach(chain: set<Symbol>): set<nat> { set x | x in chain && x.Groups? :: x.pat }

  /** The scan that looks up what stands in an expression. */
  function Lookups(w: Walk): Scan { Scan(w.found, true, InReach(w.chain), {}, {}) }

  function Looked(w: Walk, s: Scan): Walk {
    w.(found := s.visible, chain := w.chain + set pat | pat in s.bound :: Groups(pat))
  }

  /** `done` are the zygotes of the declarations complete by now. */
  function WalkSrc(s: Src, done: seq<set<Symbol>>, w: Walk): Walk
    decreases s, 1
  {
    match s
    case SExpr(e) => Looked(w, ScanExpr(e, Lookups(w)))
    case SStore(lv, e, _) => Looked(w, ScanExpr(e, ScanArgs(lv.args, Lookups(w))))
    case SCond(c, truth, els) =>
      var t := WalkSrc(truth, done, Looked(w, ScanExpr(c, Lookups(w))));
      (match els case None => t case Some(e) => WalkSrc(e, done, t)).(chain := w.chain)
    case SBlock(stmts) => WalkAll(stmts, done, w).(chain := w.chain)
    case SStop => w
    case SRemove(lv, _) => Looked(w, ScanArgs(lv.args, Lookups(w)))
    case SDeco(d, block) =>
      if Decorator(d) in w.chain && d < |done|
      then WalkSrc(block, done, w.(chain := w.chain + done[d])).(chain := w.chain)
      else w.(found := false)
    case SNext =>
      if w.zygote.None? || w.zygote.value != {} then w.(inOrder := false)
      else w.(zygote := Some(w.chain))
  }

  function WalkAll(stmts: seq<Src>, done: seq<set<Symbol>>, w: Walk): Walk
    decreases stmts, 0
  {
    if stmts == [] then w else WalkAll(stmts[1..], done, WalkSrc(stmts[0], done, w))
  }

  /** The decorators declared so far. */
  function Declared(n: nat): set<Symbol> { set d: nat | d < n :: Decorator(d) }

  /** A declaration is in scope in its own body, but not complete there. */
  function AtDecl(d: nat): Walk { Walk(true, true, Declared(d + 1), Some({})) }

  function WalkDecl(decl: Src, done: seq<set<Symbol>>): Walk { WalkSrc(decl, done, AtDecl(|done|)) }

  function Zygote(w: Walk): set<Symbol> { if w.zygote.Some? then w.zygote.value else {} }

  /** What each declaration leaves for its applications. */
  function Zygotes(decls: seq<Src>): (r: seq<set<Symbol>>)
    ensures |r| == |decls|
  {
    if decls == [] then []
    else
      var done := Zygotes(decls[..|decls| - 1]);
      done + [Zygote(WalkDecl(decls[|decls| - 1], done))]
  }

  function DeclWalk(decls: seq<Src>, d: nat): Walk
    requires d < |decls|
  {
    WalkDecl(decls[d], Zygotes(decls[..d]))
  }

  function MainWalk(decls: seq<Src>, src: Src): Walk {
    WalkSrc(src, Zygotes(decls), Walk(true, true, Declared(|decls|), None))
  }

  predicate Found(decls: seq<Src>, src: Src) {
    (forall d :: 0 <= d < |decls| ==> DeclWalk(decls, d).found) && MainWalk(decls, src).found
  }

  /** No error: names found, no stray or second `next`, and no declaration that left no symbols. */
  predicate Accepts(decls: seq<Src>, src: Src) {
    && Found(decls, src)
    && (forall d :: 0 <= d < |decls| ==> DeclWalk(decls, d).inOrder && Zygote(DeclWalk(decls, d)) != {})
    && MainWalk(decls, src).inOrder
  }

  // ---- the symbol count tells how often `next` was used ----

  lemma {:induction false} ZygotesPrefix(decls: seq<Src>, n: nat)
    requires n <= |decls|
    ensures Zygotes(decls)[..n] == Zygotes(decls[..n])
  {
    if n < |decls| {
      ZygotesPrefix(decls[..|decls| - 1], n);
      assert decls[..|decls| - 1][..n] == decls[..n];
    } else {
      assert decls[..n] == decls;
    }
  }

  lemma ZygoteOf(decls: seq<Src>, d: nat)
    requires d < |decls|
    ensures Zygotes(decls)[d] == Zygote(DeclWalk(decls, d))
  {
    hide WalkDecl;
    ZygotesPrefix(decls, d + 1);
    assert decls[..d + 1][..d] == decls[..d];
    assert Zygotes(decls)[d] == Zygotes(decls)[..d + 1][d];
  }

  /** Where every name is found, zygote and error flag count the `next`s. */
  lemma {:induction false} NextsCounted(s: Src, done: seq<set<Symbol>>, w: Walk)
    requires WalkSrc(s, done, w).found && (w.zygote.Some? ==> w.chain != {})
    ensures var r := WalkSrc(s, done, w);
            && w.found && w.chain <= r.chain && (r.inOrder ==> w.inOrder)
            && (r.zygote.Some? <==> w.zygote.Some?)
            && (Nexts(s) == 0 ==> r.zygote == w.zygote && r.inOrder == w.inOrder)
            && (Nexts(s) > 0 && r.inOrder ==> Nexts(s) == 1 && w.zygote == Some({}))
            && (Nexts(s) > 0 && r.inOrder ==> Zygote(r) != {})
            && (w.inOrder && Nexts(s) == 1 && w.zygote == Some({}) ==> r.inOrder)
    decreases s, 1
  {
    match s
    case SExpr(e) => Monotone(e, Lookups(w));
    case SStore(lv, e, _) => Monotone(e, ScanArgs(lv.args, Lookups(w))); MonotoneArgs(lv.args, Lookups(w));
    case SCond(c, truth, els) =>
      var w1 := Looked(w, ScanExpr(c, Lookups(w)));
      var t := WalkSrc(truth, done, w1);
      if els.Some? {
        FoundBefore(els.value, done, t);
        NextsCounted(truth, done, w1);
        NextsCounted(els.value, done, t);
      } else {
        NextsCounted(truth, done, w1);
      }
      Monotone(c, Lookups(w));
    case SBlock(stmts) => NextsAllCounted(stmts, done, w);
    case SRemove(lv, _) => MonotoneArgs(lv.args, Lookups(w));
    case SDeco(d, block) => NextsCounted(block, done, w.(chain := w.chain + done[d]));
    case _ =>
  }

  lemma {:induction false} NextsAllCounted(stmts: seq<Src>, done: seq<set<Symbol>>, w: Walk)
    requires WalkAll(stmts, done, w).found && (w.zygote.Some? ==> w.chain != {})
    ensures var r := WalkAll(stmts, done, w);
            && w.found && w.chain <= r.chain && (r.inOrder ==> w.inOrder)
            && (r.zygote.Some? <==> w.zygote.Some?)
            && (NextsAll(stmts) == 0 ==> r.zygote == w.zygote && r.inOrder == w.inOrder)
            && (NextsAll(stmts) > 0 && r.inOrder ==> NextsAll(stmts) == 1 && w.zygote == Some({}))
            && (NextsAll(stmts) > 0 && r.inOrder ==> Zygote(r) != {})
            && (w.inOrder && NextsAll(stmts) == 1 && w.zygote == Some({}) ==> r.inOrder)
    decreases stmts, 0
  {
    if stmts != [] {
      var r := WalkSrc(stmts[0], done, w);
      FoundBeforeAll(stmts[1..], done, r);
      NextsCounted(stmts[0], done, w);
      NextsAllCounted(stmts[1..], done, r);
    }
  }

  /** A name that was not found stays an error. */
  lemma {:induction false} FoundBefore(s: Src, done: seq<set<Symbol>>, w: Walk)
    requires WalkSrc(s, done, w).found
    ensures w.found
    decreases s, 1
  {
    match s
    case SExpr(e) => Monotone(e, Lookups(w));
    case SStore(lv, e, _) => Monotone(e, ScanArgs(lv.args, Lookups(w))); MonotoneArgs(lv.args, Lookups(w));
    case SCond(c, truth, els) =>
      var w1 := Looked(w, ScanExpr(c, Lookups(w)));
      if els.Some? {
        FoundBefore(els.value, done, WalkSrc(truth, done, w1));
      }
      FoundBefore(truth, done, w1);
      Monotone(c, Lookups(w));
    case SBlock(stmts) => FoundBeforeAll(stmts, done, w);
    case SRemove(lv, _) => MonotoneArgs(lv.args, Lookups(w));
    case SDeco(d, block) => FoundBefore(block, done, w.(chain := w.chain + done[d]));
    case _ =>
  }

  lemma {:induction false} FoundBeforeAll(stmts: seq<Src>, done: seq<set<Symbol>>, w: Walk)
    requires WalkAll(stmts, done, w).found
    ensures w.found
    decreases stmts, 0
  {
    if stmts != [] {
      FoundBeforeAll(stmts[1..], done, WalkSrc(stmts[0], done, w));
      FoundBefore(stmts[0], done, w);
    }
  }

  lemma DeclaredSome(n: nat)
    ensures Declared(n + 1) != {}
  {
    assert Decorator(n) in Declared(n + 1);
  }

  /**
   The tests on the number of symbols are exact: where all names are found,
   a program passes if and only if every declaration has one `next` and
   nothing else has any.
   */
  lemma NextTest(decls: seq<Src>, src: Src)
    requires Found(decls, src)
    ensures Accepts(decls, src) <==> (forall d :: 0 <= d < |decls| ==> Nexts(decls[d]) == 1) && Nexts(src) == 0
  {
    forall d | 0 <= d < |decls|
      ensures DeclWalk(decls, d).inOrder && Zygote(DeclWalk(decls, d)) != {} <==> Nexts(decls[d]) == 1
    {
      DeclaredSome(d);
      assert DeclWalk(decls, d).found && |Zygotes(decls[..d])| == d;
      NextsCounted(decls[d], Zygotes(decls[..d]), AtDecl(d));
    }
    NextsCounted(src, Zygotes(decls), Walk(true, true, Declared(|decls|), None));
  }

  // ---- a decorator is complete before it is applied ----

  lemma {:induction false} UsesFound(s: Src, done: seq<set<Symbol>>, w: Walk)
    requires WalkSrc(s, done, w).found
    ensures Uses(s, |done|)
    decreases s, 1
  {
    match s
    case SCond(c, truth, els) =>
      var w1 := Looked(w, ScanExpr(c, Lookups(w)));
      if els.Some? {
        FoundBefore(els.value, done, WalkSrc(truth, done, w1));
        UsesFound(els.value, done, WalkSrc(truth, done, w1));
      }
      UsesFound(truth, done, w1);
    case SBlock(stmts) => UsesAllFound(stmts, done, w);
    case SDeco(d, block) => UsesFound(block, done, w.(chain := w.chain + done[d]));
    case _ =>
  }

  lemma {:induction false} UsesAllFound(stmts: seq<Src>, done: seq<set<Symbol>>, w: Walk)
    requires WalkAll(stmts, done, w).found
    ensures UsesAll(stmts, |done|)
    decreases stmts, 0
  {
    if stmts != [] {
      var r := WalkSrc(stmts[0], done, w);
      FoundBeforeAll(stmts[1..], done, r);
      UsesFound(stmts[0], done, w);
      UsesAllFound(stmts[1..], done, r);
    }
  }

  lemma AcceptsAcceptable(decls: seq<Src>, src: Src)
    requires Accepts(decls, src)
    ensures Acceptable(decls, src)
  {
    NextTest(decls, src);
    forall d | 0 <= d < |decls|
      ensures Uses(decls[d], d)
    {
      assert DeclWalk(decls, d).found && |Zygotes(decls[..d])| == d;
      UsesFound(decls[d], Zygotes(decls[..d]), AtDecl(d));
    }
    UsesFound(src, Zygotes(decls), Walk(true, true, Declared(|decls|), None));
  }

  // ---- a capture the walk has found is bound wherever its code ends up ----

  /** More patterns bound is no harm, and a scan only binds more. */
  lemma {:induction false} ExprMore(e: Expr, s: Scan, t: Scan)
    requires ScanExpr(e, s).visible && t.visible && s.bound <= t.bound
    ensures ScanExpr(e, t).visible && ScanExpr(e, s).bound <= ScanExpr(e, t).bound && t.bound <= ScanExpr(e, t).bound
    decreases e, 1
  {
    match e
    case Leaf(_) =>
    case Use(lv, _) => ArgsMore(lv.args, s, t);
    case Unary(_, e1) => ExprMore(e1, s, t);
    case Binary(_, l, r) => PairMore(l, r, e, s, t);
    case Compare(_, _, l, r) => PairMore(l, r, e, s, t);
    case Logic(_, l, r) => PairMore(l, r, e, s, t);
    case StrMatch(e1, _, _, _) => ExprMore(e1, s, t);
    case Joined(lv, e1) =>
      Monotone(e1, ScanArgs(lv.args, s));
      ArgsMore(lv.args, s, t);
      ExprMore(e1, ScanArgs(lv.args, s), ScanArgs(lv.args, t));
  }

  lemma {:induction false} PairMore(l: Expr, r: Expr, e: Expr, s: Scan, t: Scan)
    requires l < e && r < e
    requires ScanExpr(r, ScanExpr(l, s)).visible && t.visible && s.bound <= t.bound
    ensures var u := ScanExpr(r, ScanExpr(l, t));
            u.visible && ScanExpr(r, ScanExpr(l, s)).bound <= u.bound && t.bound <= u.bound
    decreases e, 0
  {
    Monotone(r, ScanExpr(l, s));
    ExprMore(l, s, t);
    ExprMore(r, ScanExpr(l, s), ScanExpr(l, t));
  }

  lemma {:induction false} ArgsMore(es: seq<Expr>, s: Scan, t: Scan)
    requires ScanArgs(es, s).visible && t.visible && s.bound <= t.bound
    ensures ScanArgs(es, t).visible && ScanArgs(es, s).bound <= ScanArgs(es, t).bound && t.bound <= ScanArgs(es, t).bound
    decreases es, 0
  {
    if es != [] {
      MonotoneArgs(es[1..], ScanExpr(es[0], s));
      ExprMore(es[0], s, t);
      ArgsMore(es[1..], ScanExpr(es[0], s), ScanExpr(es[0], t));
    }
  }

  lemma LookedBound(w: Walk, s: Scan)
    ensures InReach(Looked(w, s).chain) == InReach(w.chain) + s.bound
  {
    forall pat
      ensures pat in InReach(Looked(w, s).chain) <==> pat in InReach(w.chain) + s.bound
    {
      if pat in s.bound {
        assert Groups(pat) in Looked(w, s).chain;
      }
      if pat in InReach(Looked(w, s).chain) {
        assert Groups(pat) in Looked(w, s).chain;
      }
      if pat in InReach(w.chain) {
        assert Groups(pat) in w.chain && Groups(pat) in Looked(w, s).chain;
      }
    }
  }

  lemma BoundUnion(a: set<Symbol>, b: set<Symbol>)
    ensures InReach(a + b) == InReach(a) + InReach(b)
  {
    forall pat
      ensures pat in InReach(a + b) <==> pat in InReach(a) + InReach(b)
    {
      assert pat in InReach(a) <==> Groups(pat) in a;
      assert pat in InReach(b) <==> Groups(pat) in b;
      assert pat in InReach(a + b) <==> Groups(pat) in a + b;
    }
  }

  /** Wherever these patterns are bound, every reference in the code is. */
  ghost predicate Fine(k: Stmt, bound: set<nat>) {
    forall t: Scan :: t.visible && bound <= t.bound ==> ScanStmt(k, t).visible
  }

  /** The scan after a statement: all references bound, and no fewer patterns than the walk and the start have. */
  ghost predicate Carries(t: Scan, t': Scan, w: Walk, base: set<nat>) {
    t'.visible && InReach(w.chain) + base <= t'.bound && t.bound <= t'.bound
  }

  /** The pending block is fine at this statement's own `next`. */
  ghost predicate Pending(nexts: nat, r: Walk, base: set<nat>, k: Stmt) {
    nexts > 0 ==> r.inOrder && r.zygote.Some? && Fine(k, InReach(r.zygote.value) + base)
  }

  ghost predicate Ready(decls: seq<Src>, done: seq<set<Symbol>>, w: Walk, base: set<nat>, t: Scan) {
    && Checked(decls) && |done| <= |decls| && done == Zygotes(decls[..|done|])
    && (forall d :: 0 <= d < |decls| ==> DeclWalk(decls, d).found && DeclWalk(decls, d).inOrder)
    && (w.zygote.Some? ==> w.chain != {})
    && t.visible && InReach(w.chain) + base <= t.bound
  }

  lemma {:induction false} SrcVisible(decls: seq<Src>, s: Src, done: seq<set<Symbol>>, w: Walk, base: set<nat>, k: Stmt, t: Scan)
    requires Ready(decls, done, w, base, t) && WalkSrc(s, done, w).found && Uses(s, |done|)
    requires Pending(Nexts(s), WalkSrc(s, done, w), base, k)
    ensures Carries(t, ScanStmt(Expand(decls, s, |done|, k), t), WalkSrc(s, done, w), base)
    decreases |done|, s, 1
  {
    match s
    case SExpr(e) => LookedBound(w, ScanExpr(e, Lookups(w))); ExprMore(e, Lookups(w), t);
    case SStore(lv, e, _) =>
      Monotone(e, ScanArgs(lv.args, Lookups(w)));
      LookedBound(w, ScanExpr(e, ScanArgs(lv.args, Lookups(w))));
      ArgsMore(lv.args, Lookups(w), t);
      ExprMore(e, ScanArgs(lv.args, Lookups(w)), ScanArgs(lv.args, t));
    case SCond(_, _, _) => CondVisible(decls, s, done, w, base, k, t);
    case SBlock(stmts) => AllVisible(decls, stmts, done, w, base, k, t); NextsAllCounted(stmts, done, w);
    case SStop =>
    case SRemove(lv, _) => LookedBound(w, ScanArgs(lv.args, Lookups(w))); ArgsMore(lv.args, Lookups(w), t);
    case SDeco(_, _) => DecoVisible(decls, s, done, w, base, k, t);
    case SNext =>
  }

  lemma {:induction false} CondVisible(decls: seq<Src>, s: Src, done: seq<set<Symbol>>, w: Walk, base: set<nat>, k: Stmt, t: Scan)
    requires s.SCond?
    requires Ready(decls, done, w, base, t) && WalkSrc(s, done, w).found && Uses(s, |done|)
    requires Pending(Nexts(s), WalkSrc(s, done, w), base, k)
    ensures Carries(t, ScanStmt(Expand(decls, s, |done|, k), t), WalkSrc(s, done, w), base)
    decreases |done|, s, 0
  {
    var w1 := Looked(w, ScanExpr(s.c, Lookups(w)));
    var w2 := WalkSrc(s.truth, done, w1);
    if s.els.Some? {
      FoundBefore(s.els.value, done, w2);
    }
    FoundBefore(s.truth, done, w1);
    NextsCounted(s.truth, done, w1);
    if s.els.Some? {
      NextsCounted(s.els.value, done, w2);
    }
    LookedBound(w, ScanExpr(s.c, Lookups(w)));
    ExprMore(s.c, Lookups(w), t);
    var t1 := ScanExpr(s.c, t);
    SrcVisible(decls, s.truth, done, w1, base, k, t1);
    if s.els.Some? {
      SrcVisible(decls, s.els.value, done, w2, base, k, ScanStmt(Expand(decls, s.truth, |done|, k), t1));
    }
  }

  lemma {:induction false} AllVisible(decls: seq<Src>, stmts: seq<Src>, done: seq<set<Symbol>>, w: Walk, base: set<nat>,
                                      k: Stmt, t: Scan)
    requires Ready(decls, done, w, base, t) && WalkAll(stmts, done, w).found && UsesAll(stmts, |done|)
    requires Pending(NextsAll(stmts), WalkAll(stmts, done, w), base, k)
    ensures Carries(t, ScanBlock(ExpandAll(decls, stmts, |done|, k), t), WalkAll(stmts, done, w), base)
    decreases |done|, stmts, 0
  {
    if stmts != [] {
      var r := WalkSrc(stmts[0], done, w);
      FoundBeforeAll(stmts[1..], done, r);
      NextsCounted(stmts[0], done, w);
      NextsAllCounted(stmts[1..], done, r);
      SrcVisible(decls, stmts[0], done, w, base, k, t);
      AllVisible(decls, stmts[1..], done, r, base, k, ScanStmt(Expand(decls, stmts[0], |done|, k), t));
    }
  }

  /** What a complete declaration left is the chain at its one `next`. */
  lemma DeclLeaves(decls: seq<Src>, done: seq<set<Symbol>>, w: Walk, base: set<nat>, t: Scan, d: nat)
    requires Ready(decls, done, w, base, t) && d < |done|
    ensures var r := WalkSrc(decls[d], Zygotes(decls[..d]), AtDecl(d));
            && r.found && r.inOrder && r.zygote == Some(done[d])
            && InReach(AtDecl(d).chain) == {} && AtDecl(d).chain != {}
  {
    assert decls[..|done|][..d] == decls[..d];
    ZygoteOf(decls[..|done|], d);
    DeclaredSome(d);
    assert DeclWalk(decls, d).found && |Zygotes(decls[..d])| == d;
    NextsCounted(decls[d], Zygotes(decls[..d]), AtDecl(d));
  }

  lemma {:induction false} BlockFine(decls: seq<Src>, s: Src, done: seq<set<Symbol>>, w: Walk, base: set<nat>, k: Stmt, t: Scan)
    requires s.SDeco?
    requires Ready(decls, done, w, base, t) && WalkSrc(s, done, w).found && Uses(s, |done|)
    requires Pending(Nexts(s), WalkSrc(s, done, w), base, k)
    ensures Fine(Expand(decls, s.block, |done|, k), InReach(done[s.decl]) + (InReach(w.chain) + base))
    decreases |done|, s, -1
  {
    var w1 := w.(chain := w.chain + done[s.decl]);
    BoundUnion(w.chain, done[s.decl]);
    forall u: Scan | u.visible && InReach(done[s.decl]) + (InReach(w.chain) + base) <= u.bound
      ensures ScanStmt(Expand(decls, s.block, |done|, k), u).visible
    {
      SrcVisible(decls, s.block, done, w1, base, k, u);
    }
  }

  /** An application: its block is fine wherever the zygote and what is bound here are, and so at the `next`. */
  lemma {:induction false} DecoVisible(decls: seq<Src>, s: Src, done: seq<set<Symbol>>, w: Walk, base: set<nat>, k: Stmt, t: Scan)
    requires s.SDeco?
    requires Ready(decls, done, w, base, t) && WalkSrc(s, done, w).found && Uses(s, |done|)
    requires Pending(Nexts(s), WalkSrc(s, done, w), base, k)
    ensures Carries(t, ScanStmt(Expand(decls, s, |done|, k), t), WalkSrc(s, done, w), base)
    decreases |done|, s, 0
  {
    var d, here := s.decl, InReach(w.chain) + base;
    hide ScanExpr;
    hide Checked;
    hide Zygotes;
    var inner, t1 := Expand(decls, s.block, |done|, k), t.(emitted := {});
    DeclLeaves(decls, done, w, base, t, d);
    BlockFine(decls, s, done, w, base, k, t);
    SrcVisible(decls, decls[d], Zygotes(decls[..d]), AtDecl(d), here, inner, t1);
    assert Expand(decls, s, |done|, k) == Instance(Expand(decls, decls[d], d, inner));
    assert ScanStmt(Instance(Expand(decls, decls[d], d, inner)), t).bound == t.bound;
  }

  /** What the checker accepts is what the compiler theorem asks for: complete decorators and captures in reach. */
  lemma AcceptsVisible(decls: seq<Src>, src: Src)
    requires Accepts(decls, src)
    ensures Acceptable(decls, src) && Visible(Whole(decls, src))
  {
    AcceptsAcceptable(decls, src);
    var w := Walk(true, true, Declared(|decls|), None);
    assert decls[..|decls|] == decls;
    assert InReach(Declared(|decls|)) == {};
    SrcVisible(decls, src, Zygotes(decls), w, {}, Block([]), BEGIN);
  }

  /** End to end from what the checker looks at: an accepted program whose captures are clean runs to its meaning. */
  lemma AcceptedRun(decls: seq<Src>, src: Src, o: Object, inp: Input, store: Storage, tables: seq<Table>)
    requires Accepts(decls, src) && Sim(store, State(tables, map[]))
    requires Acceptable(decls, src) ==> Compiles(decls, src, o) && Clean(Whole(decls, src))
    ensures Acceptable(decls, src)
    ensures Forward(o.prog) && Cycles(inp, o, Start(store)) <= |o.prog|
    ensures var m := Meaning(decls, src, inp, tables);
            var r := Run(inp, o, Start(store));
            r.outcome == OutcomeOf(m) && Sim(r.store, m.s)
  {
    hide Run;
    hide Sim;
    hide Forward;
    hide Cycles;
    AcceptsVisible(decls, src);
    EndToEnd(decls, src, o, inp, store, tables);
  }
}

/**
 Which regular expression a capture reference reads.

 A pattern inside a decorator is emitted once per application, each time with
 a new slot, but its AST node remembers only the last one
 (`internal/vm/codegen/codegen.go`, PatternExpr and CaprefTerm).  Scoped
 numbering gives every reference the slot of its own instance; the scan below
 says exactly when the generator's shared slots agree with it.
 */
module Captures {
  import opened Syntax
  import opened Decorators

  /**
   A left-to-right scan: `bound` are the patterns visible here, `dirty` those
   emitted again inside an instance that has since ended, `emitted` all seen.
   */
  datatype Scan = Scan(visible: bool, clean: bool, bound: set<nat>, dirty: set<nat>, emitted: set<nat>)

  function Bind(s: Scan, id: nat): Scan {
    s.(bound := s.bound + {id}, dirty := s.dirty - {id}, emitted := s.emitted + {id})
  }

  function ScanTerm(t: Term, s: Scan): Scan {
    match t
    case Capref(pat, _) => s.(visible := s.visible && pat in s.bound, clean := s.clean && pat !in s.dirty)
    case Pattern(_, id) => Bind(s, id)
    case _ => s
  }

  function ScanExpr(e: Expr, s: Scan): Scan
    decreases e, 1
  {
    match e
    case Leaf(t) => ScanTerm(t, s)
    case Use(lv, _) => ScanArgs(lv.args, s)
    case Unary(_, e1) => ScanExpr(e1, s)
    case Binary(_, l, r) => ScanExpr(r, ScanExpr(l, s))
    case Compare(_, _, l, r) => ScanExpr(r, ScanExpr(l, s))
    case Logic(_, l, r) => ScanExpr(r, ScanExpr(l, s))
    case StrMatch(e1, _, id, _) => Bind(ScanExpr(e1, s), id)
    case Joined(lv, e1) => ScanExpr(e1, ScanArgs(lv.args, s))
  }

  function ScanArgs(es: seq<Expr>, s: Scan): Scan
    decreases es, 0
  {
    if es == [] then s else ScanArgs(es[1..], ScanExpr(es[0], s))
  }

  function ScanStmt(st: Stmt, s: Scan): Scan
    decreases st, 1
  {
    match st
    case ExprStmt(e) => ScanExpr(e, s)
    case Store(lv, e, _) => ScanExpr(e, ScanArgs(lv.args, s))
    case Cond(c, truth, els) =>
      var t := ScanStmt(truth, ScanExpr(c, s));
      (match els case None => t case Some(e) => ScanStmt(e, t))
    case Block(stmts) => ScanBlock(stmts, s)
    case Instance(body) =>
      var r := ScanStmt(body, s.(emitted := {}));
      r.(bound := s.bound, dirty := s.dirty + r.emitted, emitted := s.emitted + r.emitted)
    case Stop => s
    case Remove(lv, _) => ScanArgs(lv.args, s)
  }

  function ScanBlock(stmts: seq<Stmt>, s: Scan): Scan
    decreases stmts, 0
  {
    if stmts == [] then s else ScanBlock(stmts[1..], ScanStmt(stmts[0], s))
  }

  // ---- scoped against shared slots ----

  /** Since `base`, exactly the `emitted` patterns got new slots. */
  ghost predicate Since(base: Tables, g: Tables, emitted: set<nat>) {
    && |base.regexps| <= |g.regexps|
    && (forall id :: id in emitted ==> id in g.index && |base.regexps| <= g.index[id] < |g.regexps|)
    && (forall id :: id !in emitted ==> (id in g.index <==> id in base.index))
    && (forall id :: id !in emitted && id in base.index ==> id in g.index && g.index[id] == base.index[id])
  }

  /** Scoped tables `g` and shared tables `h` differ in the slots of the dirty patterns only. */
  ghost predicate Rel(base: Tables, g: Tables, h: Tables, s: Scan) {
    && g.regexps == h.regexps && g.strings == h.strings
    && Since(base, h, s.emitted)
    && (forall id :: id in s.bound ==>
          && id in g.index && g.index[id] < |g.regexps|
          && id in h.index && h.index[id] < |h.regexps|
          && (g.index[id] == h.index[id] <==> id !in s.dirty))
  }

  /** What one numbered node must satisfy: equal exactly when the scan found nothing. */
  ghost predicate Tracks<T>(base: Tables, a: Numbered<T>, b: Numbered<T>, s: Scan, s': Scan) {
    && Rel(base, a.g, b.g, s')
    && (s.clean ==> (a.v == b.v <==> s'.clean))
    && (!s.clean ==> !s'.clean)
  }

  lemma BindRel(base: Tables, g: Tables, h: Tables, s: Scan, re: string, id: nat)
    requires Rel(base, g, h, s)
    ensures Rel(base, Emit(g, re, id), Emit(h, re, id), Bind(s, id))
  {
  }

  lemma TermTracks(t: Term, base: Tables, g: Tables, h: Tables, s: Scan)
    requires Rel(base, g, h, s) && ScanTerm(t, s).visible
    ensures s.visible && Tracks(base, NumTerm(t, g), NumTerm(t, h), s, ScanTerm(t, s))
  {
    if t.Pattern? {
      BindRel(base, g, h, s, t.re, t.id);
    }
  }

  lemma {:induction false} ExprTracks(e: Expr, base: Tables, g: Tables, h: Tables, s: Scan)
    requires Rel(base, g, h, s) && ScanExpr(e, s).visible
    ensures s.visible && Tracks(base, NumExpr(e, g), NumExpr(e, h), s, ScanExpr(e, s))
    decreases e, 2
  {
    hide Rel;
    match e
    case Leaf(t) => TermTracks(t, base, g, h, s);
    case Use(lv, _) => ArgsTracks(lv.args, base, g, h, s);
    case Unary(_, e1) => ExprTracks(e1, base, g, h, s);
    case Binary(_, l, r) => PairTracks(l, r, e, base, g, h, s);
    case Compare(_, _, l, r) => PairTracks(l, r, e, base, g, h, s);
    case Logic(_, l, r) => PairTracks(l, r, e, base, g, h, s);
    case StrMatch(e1, re, id, _) =>
      ExprTracks(e1, base, g, h, s);
      BindRel(base, NumExpr(e1, g).g, NumExpr(e1, h).g, ScanExpr(e1, s), re, id);
    case Joined(lv, e1) =>
      Monotone(e1, ScanArgs(lv.args, s));
      ArgsTracks(lv.args, base, g, h, s);
      ExprTracks(e1, base, NumArgs(lv.args, g).g, NumArgs(lv.args, h).g, ScanArgs(lv.args, s));
  }

  lemma {:induction false} PairTracks(l: Expr, r: Expr, e: Expr, base: Tables, g: Tables, h: Tables, s: Scan)
    requires l < e && r < e
    requires Rel(base, g, h, s) && ScanExpr(r, ScanExpr(l, s)).visible
    ensures s.visible
    ensures var s1 := ScanExpr(l, s);
            var a, b := NumExpr(l, g), NumExpr(l, h);
            Tracks(base, a, b, s, s1) && Tracks(base, NumExpr(r, a.g), NumExpr(r, b.g), s1, ScanExpr(r, s1))
    decreases e, 1
  {
    hide Rel;
    Monotone(r, ScanExpr(l, s));
    ExprTracks(l, base, g, h, s);
    ExprTracks(r, base, NumExpr(l, g).g, NumExpr(l, h).g, ScanExpr(l, s));
  }

  /** Visibility once lost stays lost. */
  lemma {:induction false} Monotone(e: Expr, s: Scan)
    ensures ScanExpr(e, s).visible ==> s.visible
    decreases e, 1
  {
    match e
    case Leaf(_) =>
    case Use(lv, _) => MonotoneArgs(lv.args, s);
    case Unary(_, e1) => Monotone(e1, s);
    case Binary(_, l, r) => Monotone(l, s); Monotone(r, ScanExpr(l, s));
    case Compare(_, _, l, r) => Monotone(l, s); Monotone(r, ScanExpr(l, s));
    case Logic(_, l, r) => Monotone(l, s); Monotone(r, ScanExpr(l, s));
    case StrMatch(e1, _, _, _) => Monotone(e1, s);
    case Joined(lv, e1) => MonotoneArgs(lv.args, s); Monotone(e1, ScanArgs(lv.args, s));
  }

  lemma {:induction false} MonotoneArgs(es: seq<Expr>, s: Scan)
    ensures ScanArgs(es, s).visible ==> s.visible
    decreases es, 0
  {
    if es != [] {
      Monotone(es[0], s);
      MonotoneArgs(es[1..], ScanExpr(es[0], s));
    }
  }

  lemma {:induction false} MonotoneStmt(st: Stmt, s: Scan)
    ensures ScanStmt(st, s).visible ==> s.visible
    decreases st, 1
  {
    match st
    case ExprStmt(e) => Monotone(e, s);
    case Store(lv, e, _) => MonotoneArgs(lv.args, s); Monotone(e, ScanArgs(lv.args, s));
    case Cond(c, truth, els) =>
      Monotone(c, s);
      MonotoneStmt(truth, ScanExpr(c, s));
      if els.Some? {
        MonotoneStmt(els.value, ScanStmt(truth, ScanExpr(c, s)));
      }
    case Block(stmts) => MonotoneBlock(stmts, s);
    case Instance(body) => MonotoneStmt(body, s.(emitted := {}));
    case Stop =>
    case Remove(lv, _) => MonotoneArgs(lv.args, s);
  }

  lemma {:induction false} MonotoneBlock(stmts: seq<Stmt>, s: Scan)
    ensures ScanBlock(stmts, s).visible ==> s.visible
    decreases stmts, 0
  {
    if stmts != [] {
      MonotoneStmt(stmts[0], s);
      MonotoneBlock(stmts[1..], ScanStmt(stmts[0], s));
    }
  }

  lemma {:induction false} ArgsTracks(es: seq<Expr>, base: Tables, g: Tables, h: Tables, s: Scan)
    requires Rel(base, g, h, s) && ScanArgs(es, s).visible
    ensures s.visible && Tracks(base, NumArgs(es, g), NumArgs(es, h), s, ScanArgs(es, s))
    decreases es, 0
  {
    hide Rel;
    if es == [] {
      MonotoneArgs(es, s);
    } else {
      var s1, a, b := ScanExpr(es[0], s), NumExpr(es[0], g), NumExpr(es[0], h);
      MonotoneArgs(es[1..], s1);
      ExprTracks(es[0], base, g, h, s);
      ArgsTracks(es[1..], base, a.g, b.g, s1);
      var x, y := NumArgs(es[1..], a.g).v, NumArgs(es[1..], b.g).v;
      assert ([a.v] + x)[0] == a.v && ([a.v] + x)[1..] == x;
      assert ([b.v] + y)[0] == b.v && ([b.v] + y)[1..] == y;
    }
  }

  lemma {:induction false} StmtTracks(st: Stmt, base: Tables, g: Tables, h: Tables, s: Scan)
    requires Rel(base, g, h, s) && ScanStmt(st, s).visible
    ensures s.visible && Tracks(base, NumStmt(st, g, true), NumStmt(st, h, false), s, ScanStmt(st, s))
    decreases st, 1
  {
    hide Rel;
    match st
    case ExprStmt(e) => ExprTracks(e, base, g, h, s);
    case Store(lv, e, _) =>
      Monotone(e, ScanArgs(lv.args, s));
      ArgsTracks(lv.args, base, g, h, s);
      ExprTracks(e, base, NumArgs(lv.args, g).g, NumArgs(lv.args, h).g, ScanArgs(lv.args, s));
    case Cond(_, _, _) => CondTracks(st, base, g, h, s);
    case Block(stmts) => BlockTracks(stmts, base, g, h, s);
    case Instance(_) => InstanceTracks(st, base, g, h, s);
    case Stop =>
    case Remove(lv, _) => ArgsTracks(lv.args, base, g, h, s);
  }

  lemma {:induction false} CondTracks(st: Stmt, base: Tables, g: Tables, h: Tables, s: Scan)
    requires st.Cond? && Rel(base, g, h, s) && ScanStmt(st, s).visible
    ensures s.visible && Tracks(base, NumStmt(st, g, true), NumStmt(st, h, false), s, ScanStmt(st, s))
    decreases st, 0
  {
    hide Rel;
    var s1 := ScanExpr(st.c, s);
    var s2 := ScanStmt(st.truth, s1);
    var a1, b1 := NumExpr(st.c, g), NumExpr(st.c, h);
    if st.els.Some? {
      MonotoneStmt(st.els.value, s2);
    }
    MonotoneStmt(st.truth, s1);
    ExprTracks(st.c, base, g, h, s);
    StmtTracks(st.truth, base, a1.g, b1.g, s1);
    if st.els.Some? {
      StmtTracks(st.els.value, base, NumStmt(st.truth, a1.g, true).g, NumStmt(st.truth, b1.g, false).g, s2);
    }
  }

  /** Leaving an instance makes every pattern it emitted dirty, and no other. */
  lemma {:induction false} InstanceTracks(st: Stmt, base: Tables, g: Tables, h: Tables, s: Scan)
    requires st.Instance? && Rel(base, g, h, s) && ScanStmt(st, s).visible
    ensures s.visible && Tracks(base, NumStmt(st, g, true), NumStmt(st, h, false), s, ScanStmt(st, s))
    decreases st, 0
  {
    assert Since(h, h, {});
    StmtTracks(st.body, h, g, h, s.(emitted := {}));
    var a, b, r := NumStmt(st.body, g, true), NumStmt(st.body, h, false), ScanStmt(st.body, s.(emitted := {}));
    LeaveRel(base, g, h, a.g, b.g, s, r);
  }

  lemma LeaveRel(base: Tables, g: Tables, h: Tables, g': Tables, h': Tables, s: Scan, r: Scan)
    requires Rel(base, g, h, s) && Rel(h, g', h', r)
    ensures Rel(base, g'.(index := g.index), h',
                r.(bound := s.bound, dirty := s.dirty + r.emitted, emitted := s.emitted + r.emitted))
  {
    assert Since(h, h', r.emitted) && Since(base, h, s.emitted);
    forall id | id in s.bound
      ensures id in h'.index && h'.index[id] < |h'.regexps|
      ensures g.index[id] == h'.index[id] <==> id !in s.dirty + r.emitted
    {
      if id in r.emitted {
        assert h'.index[id] >= |h.regexps|;
      }
    }
  }

  lemma {:induction false} BlockTracks(stmts: seq<Stmt>, base: Tables, g: Tables, h: Tables, s: Scan)
    requires Rel(base, g, h, s) && ScanBlock(stmts, s).visible
    ensures s.visible && Tracks(base, NumBlock(stmts, g, true), NumBlock(stmts, h, false), s, ScanBlock(stmts, s))
    decreases stmts, 0
  {
    hide Rel;
    if stmts == [] {
      MonotoneBlock(stmts, s);
    } else {
      var s1, a, b := ScanStmt(stmts[0], s), NumStmt(stmts[0], g, true), NumStmt(stmts[0], h, false);
      MonotoneBlock(stmts[1..], s1);
      StmtTracks(stmts[0], base, g, h, s);
      BlockTracks(stmts[1..], base, a.g, b.g, s1);
      var x, y := NumBlock(stmts[1..], a.g, true).v, NumBlock(stmts[1..], b.g, false).v;
      assert ([a.v] + x)[0] == a.v && ([a.v] + x)[1..] == x;
      assert ([b.v] + y)[0] == b.v && ([b.v] + y)[1..] == y;
    }
  }

  const BEGIN: Scan := Scan(true, true, {}, {}, {})

  /** Every reference is to a pattern in its lexical reach, as the checker's scopes guarantee. */
  predicate Visible(st: Stmt) { ScanStmt(st, BEGIN).visible }

  /** No reference to a pattern stands behind a nested instance that emitted that pattern again. */
  predicate Clean(st: Stmt) { ScanStmt(st, BEGIN).clean }

  /**
   The generator's slots are the scoped ones, so that every capture reads the
   match of its own instance, if and only if the program is clean.
   */
  lemma SlotsScoped(st: Stmt)
    requires Visible(st)
    ensures NumStmt(st, FRESH, false).v == NumStmt(st, FRESH, true).v <==> Clean(st)
    ensures NumStmt(st, FRESH, false).g.regexps == NumStmt(st, FRESH, true).g.regexps
    ensures NumStmt(st, FRESH, false).g.strings == NumStmt(st, FRESH, true).g.strings
  {
    StmtTracks(st, FRESH, FRESH, FRESH, BEGIN);
  }
}

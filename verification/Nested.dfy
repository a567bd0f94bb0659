/**
 A decorator applied inside its own application: the case where the shared
 slots of Captures.dfy go wrong.
 */
module Nested {
  import opened Common
  import opened Syntax
  import opened Machine
  import opened Semantics
  import opened Decorators
  import opened Captures
  import opened CodeGen
  import opened Pipeline
  import opened Refine
  import opened Scopes

  function CountTarget(pat: nat): LValue { LValue(0, [Leaf(Capref(pat, 1))]) }

  /** `m[$1]++`, reading the pattern with the given identity. */
  function Count(pat: nat): Stmt { ExprStmt(Use(CountTarget(pat), Inc)) }

  const COUNT_SRC: Src := SExpr(Use(CountTarget(0), Inc))

  /** `def d { /(x)/ { next  m[$1]++ } }` */
  const D: Src := SBlock([SCond(Leaf(Pattern("(x)", 0)), SBlock([SNext, COUNT_SRC]), None)])

  /** `/y/ { @d { } }` */
  const BLOCK: Src := SBlock([SCond(Leaf(Pattern("y", 1)), SBlock([SDeco(0, SBlock([]))]), None)])

  /** `@d { /y/ { @d { } } }` */
  const TWICE: Src := SDeco(0, BLOCK)

  function If(re: string, id: nat, body: seq<Stmt>): Stmt { Cond(Leaf(Pattern(re, id)), Block(body), None) }

  /** One application of `d`, with the slots of its pattern and of its reference. */
  function Applied(slot: nat, used: nat, k: Stmt): Stmt {
    Instance(Block([If("(x)", slot, [Instance(k), Count(used)])]))
  }

  function Inner(y: nat, slot: nat): Stmt {
    Block([If("y", y, [Applied(slot, slot, Block([]))])])
  }

  // ---- expansion and numbering of short blocks ----

  lemma OfTwo(a: Src, b: Src, lim: nat)
    ensures NextsAll([a]) == Nexts(a) && NextsAll([a, b]) == Nexts(a) + Nexts(b)
    ensures UsesAll([a], lim) <==> Uses(a, lim)
    ensures UsesAll([a, b], lim) <==> Uses(a, lim) && Uses(b, lim)
  {
    assert [a][1..] == [] && [b][1..] == [] && [a, b][1..] == [b];
  }

  lemma DChecked()
    ensures Checked([D]) && UsesAll(D.stmts, 0) && UsesAll([SNext, COUNT_SRC], 0) && UsesAll([COUNT_SRC], 0)
  {
    OfTwo(SNext, COUNT_SRC, 0);
    OfTwo(COUNT_SRC, SNext, 0);
    OfTwo(D.stmts[0], SNext, 0);
    assert Nexts(SBlock([SNext, COUNT_SRC])) == 1 && Uses(SBlock([SNext, COUNT_SRC]), 0);
    assert Nexts(D.stmts[0]) == 1 && Uses(D.stmts[0], 0);
  }

  lemma ExpandD(k: Stmt)
    ensures Checked([D]) && Uses(D, 0) && Expand([D], D, 0, k) == Applied(0, 0, k).body
  {
    DChecked();
    var decls := [D];
    assert Checked(decls);
    var inner := [SNext, COUNT_SRC];
    assert inner[1..] == [COUNT_SRC] && [COUNT_SRC][1..] == [];
    assert ExpandAll(decls, [COUNT_SRC], 0, k) == [Count(0)];
    assert ExpandAll(decls, inner, 0, k) == [Instance(k), Count(0)];
    var c := SCond(Leaf(Pattern("(x)", 0)), SBlock(inner), None);
    assert [c][1..] == [] && ExpandAll(decls, [], 0, k) == [];
    assert Expand(decls, SBlock(inner), 0, k) == Block([Instance(k), Count(0)]);
    assert Expand(decls, c, 0, k) == If("(x)", 0, [Instance(k), Count(0)]);
    assert ExpandAll(decls, [c], 0, k) == [If("(x)", 0, [Instance(k), Count(0)])];
  }

  lemma NestedExpands()
    ensures Acceptable([D], TWICE) && Whole([D], TWICE) == Applied(0, 0, Inner(1, 0))
  {
    var decls, nop := [D], Block([]);
    ExpandD(nop);
    ExpandD(Inner(1, 0));
    var again := SDeco(0, SBlock([]));
    assert Expand(decls, SBlock([]), 1, nop) == nop;
    assert Expand(decls, again, 1, nop) == Applied(0, 0, nop);
    assert UsesAll([], 1);
    assert [again][1..] == [] && UsesAll([again], 1);
    assert ExpandAll(decls, [again], 1, nop) == [Applied(0, 0, nop)];
    var c := SCond(Leaf(Pattern("y", 1)), SBlock([again]), None);
    assert [c][1..] == [] && Uses(c, 1) && UsesAll([c], 1);
    assert Expand(decls, c.truth, 1, nop) == Block([Applied(0, 0, nop)]);
    assert Expand(decls, c, 1, nop) == If("y", 1, [Applied(0, 0, nop)]);
    assert ExpandAll(decls, [], 1, nop) == [];
    assert ExpandAll(decls, [c], 1, nop) == [If("y", 1, [Applied(0, 0, nop)])];
    assert Expand(decls, BLOCK, 1, nop) == Inner(1, 0);
    assert Acceptable(decls, TWICE);
  }

  lemma NumOne(a: Stmt, g: Tables, scoped: bool)
    ensures NumStmt(Block([a]), g, scoped) == Numbered(Block([NumStmt(a, g, scoped).v]), NumStmt(a, g, scoped).g)
  {
    var r := NumStmt(a, g, scoped);
    assert [a][1..] == [] && [r.v] + [] == [r.v];
    assert NumBlock([], r.g, scoped) == Numbered([], r.g);
    assert NumBlock([a], g, scoped) == Numbered([r.v], r.g);
  }

  lemma NumTwo(a: Stmt, b: Stmt, g: Tables, scoped: bool)
    ensures var x := NumStmt(a, g, scoped);
            var y := NumStmt(b, x.g, scoped);
            NumStmt(Block([a, b]), g, scoped) == Numbered(Block([x.v, y.v]), y.g)
  {
    NumBlockOf([a, b], g, scoped);
    hide NumStmt;
    var x := NumStmt(a, g, scoped);
    var y := NumStmt(b, x.g, scoped);
    assert [b][1..] == [] && [y.v] + [] == [y.v] && NumBlock([], y.g, scoped) == Numbered([], y.g);
    assert NumBlock([b], x.g, scoped) == Numbered([y.v], y.g);
    assert [a, b][1..] == [b] && [x.v] + [y.v] == [x.v, y.v];
    assert NumBlock([a, b], g, scoped) == Numbered([x.v] + [y.v], y.g);
  }

  lemma NumBlockOf(stmts: seq<Stmt>, g: Tables, scoped: bool)
    ensures var r := NumBlock(stmts, g, scoped);
            NumStmt(Block(stmts), g, scoped) == Numbered(Block(r.v), r.g)
  {
  }

  lemma NumCount(pat: nat, g: Tables, scoped: bool)
    ensures NumStmt(Count(pat), g, scoped) == Numbered(Count(IndexOf(g, pat)), g)
  {
    var args := CountTarget(pat).args;
    assert args[1..] == [] && NumArgs([], g) == Numbered([], g);
    assert NumExpr(args[0], g) == Numbered(Leaf(Capref(IndexOf(g, pat), 1)), g);
    assert NumArgs(args, g) == Numbered(CountTarget(IndexOf(g, pat)).args, g) by {
      assert [args[0].(t := Capref(IndexOf(g, pat), 1))] + [] == CountTarget(IndexOf(g, pat)).args;
    }
    assert NumPlace(CountTarget(pat), g) == Numbered(CountTarget(IndexOf(g, pat)), g);
    assert NumExpr(Use(CountTarget(pat), Inc), g) == Numbered(Use(CountTarget(IndexOf(g, pat)), Inc), g);
  }

  /** Numbering one application: the reference gets whatever slot node 0 has after `k`. */
  lemma NumApplied(k: Stmt, g: Tables, scoped: bool)
    ensures var k' := NumStmt(Instance(k), Emit(g, "(x)", 0), scoped);
            var r := NumStmt(Applied(0, 0, k), g, scoped);
            k'.v.Instance?
            && r == Numbered(Applied(|g.regexps|, IndexOf(k'.g, 0), k'.v.body),
                             if scoped then k'.g.(index := g.index) else k'.g)
  {
    var g1 := Emit(g, "(x)", 0);
    var k' := NumStmt(Instance(k), g1, scoped);
    NumTwo(Instance(k), Count(0), g1, scoped);
    NumCount(0, k'.g, scoped);
    var c := If("(x)", 0, [Instance(k), Count(0)]);
    NumOne(c, g, scoped);
    assert NumExpr(c.c, g) == Numbered(Leaf(Pattern("(x)", |g.regexps|)), g1);
    assert NumStmt(c, g, scoped) == Numbered(If("(x)", |g.regexps|, [k'.v, Count(IndexOf(k'.g, 0))]), k'.g);
  }

  lemma NestedNumbers()
    ensures NumStmt(Applied(0, 0, Inner(1, 0)), FRESH, true).v == Applied(0, 0, Inner(1, 2))
    ensures NumStmt(Applied(0, 0, Inner(1, 0)), FRESH, false).v == Applied(0, 2, Inner(1, 2))
  {
    NumInner(true);
    NumInner(false);
    NumApplied(Inner(1, 0), FRESH, true);
    NumApplied(Inner(1, 0), FRESH, false);
  }

  lemma NumInner(scoped: bool)
    ensures var r := NumStmt(Instance(Inner(1, 0)), Emit(FRESH, "(x)", 0), scoped);
            r.v == Instance(Inner(1, 2)) && IndexOf(r.g, 0) == if scoped then 0 else 2
  {
    var g1 := Emit(FRESH, "(x)", 0);
    var g2 := Emit(g1, "y", 1);
    var nop := Block([]);
    assert NumStmt(Instance(nop), Emit(g2, "(x)", 0), scoped).v == Instance(nop);
    NumApplied(nop, g2, scoped);
    NumOne(Applied(0, 0, nop), g2, scoped);
    var c := If("y", 1, [Applied(0, 0, nop)]);
    NumOne(c, g1, scoped);
    assert NumExpr(c.c, g1) == Numbered(Leaf(Pattern("y", 1)), g2);
  }

  // ---- every reference is visible ----

  lemma ScanOne(a: Stmt, s: Scan)
    ensures ScanStmt(Block([a]), s) == ScanStmt(a, s)
  {
    var s1 := ScanStmt(a, s);
    assert [a][1..] == [] && ScanBlock([], s1) == s1;
    assert ScanBlock([a], s) == s1;
  }

  lemma ScanTwo(a: Stmt, b: Stmt, s: Scan)
    ensures ScanStmt(Block([a, b]), s) == ScanStmt(b, ScanStmt(a, s))
  {
    var s1 := ScanStmt(a, s);
    ScanOne(b, s1);
    assert [a, b][1..] == [b] && ScanBlock([b], s1) == ScanStmt(b, s1);
    assert ScanBlock([a, b], s) == ScanStmt(b, s1);
  }

  lemma ScanApplied(k: Stmt, s: Scan)
    ensures ScanStmt(Applied(0, 0, k), s).visible ==
            ScanStmt(Instance(k), Bind(s.(emitted := {}), 0)).visible
  {
    ScanCount(ScanStmt(Instance(k), Bind(s.(emitted := {}), 0)));
    var s0 := s.(emitted := {});
    var s1 := Bind(s0, 0);
    var s2 := ScanStmt(Instance(k), s1);
    assert s2.bound == s1.bound;
    ScanOne(If("(x)", 0, [Instance(k), Count(0)]), s0);
    ScanTwo(Instance(k), Count(0), s1);
    assert ScanExpr(Leaf(Pattern("(x)", 0)), s0) == s1;
  }

  lemma ScanCount(s: Scan)
    ensures ScanStmt(Count(0), s) == ScanTerm(Capref(0, 1), s)
  {
    var args := CountTarget(0).args;
    assert args[1..] == [];
    assert ScanArgs([], ScanTerm(Capref(0, 1), s)) == ScanTerm(Capref(0, 1), s);
    assert ScanArgs(args, s) == ScanTerm(Capref(0, 1), s);
  }

  lemma NestedVisible()
    ensures Visible(Applied(0, 0, Inner(1, 0)))
  {
    var nop := Block([]);
    var s1 := Bind(BEGIN.(emitted := {}), 0).(emitted := {});
    var s2 := Bind(s1, 1);
    ScanApplied(Inner(1, 0), BEGIN);
    ScanApplied(nop, s2);
    ScanOne(Applied(0, 0, nop), s2);
    ScanOne(If("y", 1, [Applied(0, 0, nop)]), s1);
    assert ScanExpr(Leaf(Pattern("y", 1)), s1) == s2;
  }

  // ---- the checker's walk ----

  lemma WalkOne(a: Src, done: seq<set<Symbol>>, w: Walk)
    ensures WalkSrc(SBlock([a]), done, w) == WalkSrc(a, done, w).(chain := w.chain)
  {
    var r := WalkSrc(a, done, w);
    assert [a][1..] == [] && WalkAll([], done, r) == r;
    assert WalkAll([a], done, w) == r;
  }

  lemma WalkPattern(re: string, id: nat, truth: Src, done: seq<set<Symbol>>, w: Walk)
    requires w.found
    ensures var c := SCond(Leaf(Pattern(re, id)), truth, None);
            exists w1: Walk :: w1 == w.(chain := w1.chain) && w.chain <= w1.chain && Groups(id) in w1.chain
              && WalkSrc(c, done, w) == WalkSrc(truth, done, w1).(chain := w.chain)
  {
    var s := ScanExpr(Leaf(Pattern(re, id)), Lookups(w));
    assert s == Bind(Lookups(w), id);
    var w1 := Looked(w, s);
    assert id in s.bound && Groups(id) in w1.chain;
    assert w1 == w.(chain := w1.chain);
  }

  lemma CountFound(done: seq<set<Symbol>>, w: Walk)
    requires w.found && Groups(0) in w.chain
    ensures var r := WalkSrc(COUNT_SRC, done, w);
            r.found && r.inOrder == w.inOrder && r.zygote == w.zygote
  {
    var args := CountTarget(0).args;
    assert 0 in InReach(w.chain) && args[1..] == [];
    assert ScanArgs([], Lookups(w)) == Lookups(w);
    assert ScanExpr(args[0], Lookups(w)) == Lookups(w);
    assert ScanArgs(args, Lookups(w)) == Lookups(w);
  }

  /** In `d` the `next` comes first, and `$1` is in reach behind it. */
  lemma BodyAccepted(w: Walk)
    requires w.found && w.inOrder && w.zygote == Some({}) && Groups(0) in w.chain
    ensures WalkSrc(SBlock([SNext, COUNT_SRC]), [], w) == w.(zygote := Some(w.chain))
  {
    var w2 := w.(zygote := Some(w.chain));
    var w3 := WalkSrc(COUNT_SRC, [], w2);
    CountFound([], w2);
    hide ScanExpr;
    assert [SNext, COUNT_SRC][1..] == [COUNT_SRC];
    WalkOne(COUNT_SRC, [], w2);
    assert WalkAll([COUNT_SRC], [], w2).(chain := w.chain) == w3.(chain := w.chain);
    assert WalkAll([SNext, COUNT_SRC], [], w) == WalkAll([COUNT_SRC], [], w2);
  }

  lemma DeclAccepted()
    ensures DeclWalk([D], 0).found && DeclWalk([D], 0).inOrder && Zygote(DeclWalk([D], 0)) != {}
  {
    var body := SBlock([SNext, COUNT_SRC]);
    var c := SCond(Leaf(Pattern("(x)", 0)), body, None);
    hide ScanExpr;
    hide WalkSrc;
    assert [D][..0] == [] && Zygotes([]) == [];
    WalkOne(c, [], AtDecl(0));
    WalkPattern("(x)", 0, body, [], AtDecl(0));
    var w: Walk :| w == AtDecl(0).(chain := w.chain) && AtDecl(0).chain <= w.chain && Groups(0) in w.chain
      && WalkSrc(c, [], AtDecl(0)) == WalkSrc(body, [], w).(chain := AtDecl(0).chain);
    BodyAccepted(w);
  }

  lemma AgainFound(done: seq<set<Symbol>>, w: Walk)
    requires |done| == 1 && Decorator(0) in w.chain
    ensures WalkSrc(SBlock([SDeco(0, SBlock([]))]), done, w) == w
  {
    var again := SDeco(0, SBlock([]));
    var w1 := w.(chain := w.chain + done[0]);
    assert WalkAll([], done, w1) == w1;
    assert WalkSrc(SBlock([]), done, w1) == w1;
    assert WalkSrc(again, done, w) == w;
    WalkOne(again, done, w);
  }

  lemma BlockFound(done: seq<set<Symbol>>, w: Walk)
    requires w.found && |done| == 1 && Decorator(0) in w.chain
    ensures WalkSrc(BLOCK, done, w) == w
  {
    var body := SBlock([SDeco(0, SBlock([]))]);
    var c := SCond(Leaf(Pattern("y", 1)), body, None);
    hide ScanExpr;
    hide WalkSrc;
    WalkOne(c, done, w);
    WalkPattern("y", 1, body, done, w);
    var w1: Walk :| w1 == w.(chain := w1.chain) && w.chain <= w1.chain && Groups(1) in w1.chain
      && WalkSrc(c, done, w) == WalkSrc(body, done, w1).(chain := w.chain);
    AgainFound(done, w1);
  }

  lemma NestedAccepted()
    ensures Accepts([D], TWICE)
  {
    var done := Zygotes([D]);
    var w := Walk(true, true, Declared(1), None);
    DeclAccepted();
    assert Decorator(0) in Declared(1);
    BlockFound(done, w.(chain := w.chain + done[0]));
  }

  // ---- what happens on a line with an x and no y ----

  lemma RunOne(inp: Input, a: Stmt, s: State, h: History)
    ensures ExecStmt(inp, Block([a]), s, h) == ExecStmt(inp, a, s, h)
  {
    assert [a][1..] == [];
    assert ExecAll(inp, [a], s, h) == ExecStmt(inp, a, s, h);
  }

  lemma RunTwo(inp: Input, a: Stmt, b: Stmt, s: State, h: History)
    ensures ExecStmt(inp, Block([a, b]), s, h) ==
            match ExecStmt(inp, a, s, h) case Done(s1, h1) => ExecStmt(inp, b, s1, h1) case r => r
  {
    assert [a, b][1..] == [b];
    var r := ExecStmt(inp, a, s, h);
    if r.Done? {
      RunOne(inp, b, r.s, r.hist);
      assert ExecAll(inp, [b], r.s, r.hist) == ExecStmt(inp, b, r.s, r.hist);
    }
    assert ExecAll(inp, [a, b], s, h) ==
           match r case Done(s1, h1) => ExecAll(inp, [b], s1, h1) case _ => r;
  }

  lemma RunCount(inp: Input, pat: nat, s: State, h: History)
    requires |s.tables| == 1 && s.tables[0] == Table(TInt, 1, map[])
    ensures pat !in s.matches ==> ExecStmt(inp, Count(pat), s, h).ExecError?
    ensures pat in s.matches && |s.matches[pat]| == 2 ==>
              var r := ExecStmt(inp, Count(pat), s, h);
              r.Done? && r.s.tables == [Table(TInt, 1, map[[s.matches[pat][1]] := Cell(DInt(1), 0)])]
  {
    var args := CountTarget(pat).args;
    assert args[1..] == [];
    assert EvalExpr(inp, args[0], s, h) == EvalTerm(inp, Capref(pat, 1), s, h);
    if pat in s.matches && |s.matches[pat]| == 2 {
      var k := s.matches[pat][1];
      assert EvalAll(inp, [], s, h) == Vals([], s);
      assert EvalAll(inp, args, s, h) == Vals([StrV(k)] + [], s);
      assert [StrV(k)] + [] == [StrV(k)] && [StrV(k)][1..] == [] && [k] + [] == [k];
      assert KeyStrings(inp.host, [StrV(k)]) == Some([k]);
      assert EvalTarget(inp, CountTarget(pat), s, h) == Place([k], s);
      var s1 := Touch(s, 0, [k]);
      assert EvalLValue(inp, CountTarget(pat), s, h) == Place([k], s1);
      assert EvalExpr(inp, Use(CountTarget(pat), Inc), s, h) == Bump(s1, 0, [k], 1);
      assert s1.tables[0].cells == map[[k] := Cell(DInt(0), 0)];
      assert map[[k] := Cell(DInt(0), 0)][[k] := Cell(DInt(1), 0)] == map[[k] := Cell(DInt(1), 0)];
      assert Wrap(1) == 1;
      assert Bump(s1, 0, [k], 1).s.tables[0] == Table(TInt, 1, map[[k] := Cell(DInt(1), 0)]);
      assert Bump(s1, 0, [k], 1).s.tables == [Table(TInt, 1, map[[k] := Cell(DInt(1), 0)])];
    } else if pat !in s.matches {
      assert EvalAll(inp, args, s, h).ArgsError?;
      assert EvalLValue(inp, CountTarget(pat), s, h).NoPlace?;
      assert EvalExpr(inp, Use(CountTarget(pat), Inc), s, h).EvalError?;
    }
  }

  lemma RunApplied(inp: Input, used: nat, s: State)
    requires inp.host.find("(x)", inp.line).Some? && |inp.host.find("(x)", inp.line).value| == 2
    requires inp.host.find("y", inp.line).None?
    requires s == State([Table(TInt, 1, map[])], map[])
    ensures var r := ExecStmt(inp, Applied(0, used, Inner(1, 2)), s, []);
            if used == 0 then
              r.Done? && r.s.tables == [Table(TInt, 1, map[[inp.host.find("(x)", inp.line).value[1]] := Cell(DInt(1), 0)])]
            else if used == 2 then r.ExecError?
            else true
  {
    var s1 := Search(inp, s, "(x)", 0, inp.line, false).s;
    var s2 := Search(inp, s1, "y", 1, inp.line, false).s;
    var c := Inner(1, 2).stmts[0];
    RunOne(inp, c, s1, []);
    assert ExecStmt(inp, c, s1, []) == Done(s2, [] + [false]);
    assert ExecStmt(inp, Instance(Inner(1, 2)), s1, []) == Done(s2, [] + [false]);
    RunTwo(inp, Instance(Inner(1, 2)), Count(used), s1, []);
    RunCount(inp, used, s2, [] + [false]);
    RunOne(inp, If("(x)", 0, [Instance(Inner(1, 2)), Count(used)]), s, []);
  }

  /**
   `@d { /y/ { @d { } } }`: the checker accepts it and every reference is
   visible, yet on a line with an x and no y, where the program means to
   count `$1`, the generated code fails: the reference behind `next` reads
   the slot of the inner application.
   */
  lemma NestedCapture(decls: seq<Src>, src: Src, o: Object, inp: Input, store: Storage, tables: seq<Table>)
    requires decls == [D] && src == TWICE && tables == [Table(TInt, 1, map[])]
    requires inp.host.find("(x)", inp.line).Some? && |inp.host.find("(x)", inp.line).value| == 2
    requires inp.host.find("y", inp.line).None?
    requires Sim(store, State(tables, map[]))
    requires Acceptable(decls, src) ==> Compiles(decls, src, o)
    ensures Accepts(decls, src) && Acceptable(decls, src)
    ensures var r := Meaning(decls, src, inp, tables);
            var x := inp.host.find("(x)", inp.line).value[1];
            r.Done? && r.s.tables == [Table(TInt, 1, map[[x] := Cell(DInt(1), 0)])]
    ensures Forward(o.prog) && Run(inp, o, Start(store)).outcome.Errored?
    ensures Visible(Whole(decls, src)) && !Clean(Whole(decls, src))
  {
    hide Run;
    hide Sim;
    hide ExecStmt;
    hide NumStmt;
    hide Forward;
    hide Cycles;
    hide Compiles;
    hide Acceptable;
    hide Whole;
    hide Accepts;
    hide Meaning;
    NestedAccepted();
    NestedExpands();
    NestedNumbers();
    RunApplied(inp, 0, State(tables, map[]));
    RunApplied(inp, 2, State(tables, map[]));
    SharedSlotsRun(decls, src, o, inp, store, tables);
    NestedUnclean();
    InliningMeans(decls, src, inp, tables);
  }

  lemma NestedUnclean()
    ensures Visible(Applied(0, 0, Inner(1, 0))) && !Clean(Applied(0, 0, Inner(1, 0)))
  {
    NestedNumbers();
    NestedVisible();
    SlotsScoped(Applied(0, 0, Inner(1, 0)));
    assert Count(0) != Count(2);
    assert Applied(0, 0, Inner(1, 2)).body.stmts[0].truth.stmts[1] == Count(0);
  }
}

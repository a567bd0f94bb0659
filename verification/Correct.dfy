/**
 Compiler correctness: running the compiled code on a line does to the metrics
 what the evaluator says, with the same stop and error outcomes.
 */
module Correct {
  import opened Common
  import opened Syntax
  import opened Machine
  import opened Semantics
  import opened Compile
  import opened Refine

  // ---- what a stretch of code does ----

  /** From `t` the machine gets to `t'`, so both have the same rest of the run. */
  ghost predicate Same(inp: Input, o: Object, t: Vm, t': Vm) {
    Forward(o.prog) && 0 <= t.pc && 0 <= t'.pc && Run(inp, o, t) == Run(inp, o, t')
  }

  ghost predicate Ends(inp: Input, o: Object, t: Vm, oc: Outcome, s: State) {
    Forward(o.prog) && 0 <= t.pc && Run(inp, o, t).outcome == oc && Sim(Run(inp, o, t).store, s)
  }

  ghost predicate Agrees(t: Vm, s: State, hist: History) {
    t.matched == AnyTaken(hist) && t.matches == s.matches && Sim(t.store, s)
  }

  /** After `n` instructions' worth of code: `pushed` on the entry stack, storage as in `s`. */
  ghost predicate Lands(inp: Input, o: Object, t: Vm, t': Vm, n: nat, pushed: seq<Any>, s: State) {
    && Same(inp, o, t, t')
    && t'.pc == t.pc + n
    && t'.stack == t.stack + pushed
    && t'.matched == t.matched
    && t'.matches == s.matches
    && Sim(t'.store, s)
    && Keeps(t.store, t'.store)
  }

  /** Where an expression must leave the machine. */
  ghost predicate Computes(inp: Input, o: Object, t: Vm, t': Vm, n: nat, r: Eval) {
    match r
    case Val(p, s) => Lands(inp, o, t, t', n, [P(p)], s)
    case EvalError(s) => Ends(inp, o, t, Errored, s)
  }

  lemma Go(inp: Input, o: Object, t: Vm, t': Vm)
    requires Forward(o.prog) && 0 <= t.pc < |o.prog|
    requires Fetch(inp, o, t) == Next(t')
    ensures Same(inp, o, t, t')
  {
  }

  lemma Die(inp: Input, o: Object, t: Vm, oc: Outcome, s: State)
    requires Forward(o.prog) && 0 <= t.pc < |o.prog|
    requires Fetch(inp, o, t).Halt? && Fetch(inp, o, t).outcome == oc
    requires Sim(Fetch(inp, o, t).store, s)
    ensures Ends(inp, o, t, oc, s)
  {
  }

  lemma LandsThen(inp: Input, o: Object, t: Vm, t1: Vm, t2: Vm, n1: nat, p1: seq<Any>, s1: State, n2: nat, p2: seq<Any>, s2: State)
    requires Lands(inp, o, t, t1, n1, p1, s1) && Lands(inp, o, t1, t2, n2, p2, s2)
    ensures Lands(inp, o, t, t2, n1 + n2, p1 + p2, s2)
  {
    hide Run;
    KeepsTrans(t.store, t1.store, t2.store);
    assert t.stack + p1 + p2 == t.stack + (p1 + p2);
  }

  // ---- constant tables ----

  /** The object's tables hold the constants the program's slots refer to. */
  predicate TermOk(o: Object, t: Term) {
    match t
    case StrLit(text, slot) => slot < |o.strings| && o.strings[slot] == text
    case Pattern(re, id) => id < |o.regexps| && o.regexps[id] == re
    case _ => true
  }

  predicate ExprOk(o: Object, e: Expr)
    decreases e, 1
  {
    match e
    case Leaf(t) => TermOk(o, t)
    case Use(lv, _) => ArgsOk(o, lv.args)
    case Unary(_, e1) => ExprOk(o, e1)
    case Binary(_, l, r) => ExprOk(o, l) && ExprOk(o, r)
    case Compare(_, _, l, r) => ExprOk(o, l) && ExprOk(o, r)
    case Logic(_, l, r) => ExprOk(o, l) && ExprOk(o, r)
    case StrMatch(e1, re, id, _) => ExprOk(o, e1) && id < |o.regexps| && o.regexps[id] == re
    case Joined(lv, e1) => ArgsOk(o, lv.args) && ExprOk(o, e1)
  }

  predicate ArgsOk(o: Object, es: seq<Expr>)
    decreases es, 0
  {
    es != [] ==> ExprOk(o, es[0]) && ArgsOk(o, es[1..])
  }

  predicate StmtOk(o: Object, st: Stmt)
    decreases st, 1
  {
    match st
    case ExprStmt(e) => ExprOk(o, e)
    case Store(lv, e, _) => ArgsOk(o, lv.args) && ExprOk(o, e)
    case Cond(c, truth, els) => ExprOk(o, c) && StmtOk(o, truth) && (els.Some? ==> StmtOk(o, els.value))
    case Block(stmts) => BlockOk(o, stmts)
    case Instance(body) => StmtOk(o, body)
    case Stop => true
    case Remove(lv, _) => ArgsOk(o, lv.args)
  }

  predicate BlockOk(o: Object, stmts: seq<Stmt>)
    decreases stmts, 0
  {
    stmts != [] ==> StmtOk(o, stmts[0]) && BlockOk(o, stmts[1..])
  }

  // ---- single instructions ----

  lemma TermCorrect(inp: Input, o: Object, t: Vm, a: Term, s: State, hist: History) returns (t': Vm)
    requires Forward(o.prog) && 0 <= t.pc && TermAt(o.prog, t.pc, a) && TermOk(o, a) && Agrees(t, s, hist)
    ensures Computes(inp, o, t, t', Size(Leaf(a)), EvalTerm(inp, a, s, hist))
  {
    if a.Capref? {
      t' := CaprefCorrect(inp, o, t, a, s, hist);
    } else {
      t' := Fetch(inp, o, t).vm;
      Go(inp, o, t, t');
    }
  }

  lemma CaprefCorrect(inp: Input, o: Object, t: Vm, a: Term, s: State, hist: History) returns (t': Vm)
    requires Forward(o.prog) && 0 <= t.pc && a.Capref? && TermAt(o.prog, t.pc, a) && Agrees(t, s, hist)
    ensures Computes(inp, o, t, t', 2, EvalTerm(inp, a, s, hist))
  {
    var t1 := t.(pc := t.pc + 1, stack := t.stack + [Nat(a.pat)]);
    assert Fetch(inp, o, t) == Next(t1);
    Go(inp, o, t, t1);
    assert Rest(t1.stack) == t.stack;
    var groups := if a.pat in s.matches then s.matches[a.pat] else [];
    if a.group < |groups| {
      t' := t.(pc := t.pc + 2, stack := t.stack + [P(StrV(groups[a.group]))]);
      assert Fetch(inp, o, t1) == Next(t');
      Go(inp, o, t1, t');
    } else {
      Die(inp, o, t1, Errored, s);
      t' := t;
    }
  }

  /** Extend a stretch of code by one more instruction that answers `r`. */
  lemma AnswerStep(inp: Input, o: Object, t: Vm, t1: Vm, n: nat, args: seq<Any>, s: State, r: Option<Plain>)
    returns (t': Vm)
    requires Lands(inp, o, t, t1, n, args, s) && t1.pc < |o.prog|
    requires match r
             case Some(p) => Fetch(inp, o, t1) == Next(t1.(pc := t1.pc + 1, stack := t.stack + [P(p)]))
             case None => Fetch(inp, o, t1) == Halt(Errored, t1.store)
    ensures Computes(inp, o, t, t', n + 1, Give(r, s))
  {
    if r.Some? {
      t' := t1.(pc := t1.pc + 1, stack := t.stack + [P(r.value)]);
      Go(inp, o, t1, t');
    } else {
      t' := t1;
      Die(inp, o, t1, Errored, s);
    }
  }

  lemma UnaryStep(inp: Input, o: Object, t: Vm, base: seq<Any>, op: UnOp, p: Plain)
    requires 0 <= t.pc < |o.prog| && o.prog[t.pc] == UnCode(op) && t.stack == base + [P(p)]
    ensures match UnResult(inp.host, op, p)
            case Some(q) => Fetch(inp, o, t) == Next(t.(pc := t.pc + 1, stack := base + [P(q)]))
            case None => Fetch(inp, o, t) == Halt(Errored, t.store)
  {
    hide Execute;
    UnFetch(inp, o, t, op);
    assert Top(t.stack) == P(p) && Rest(t.stack) == base;
    match op {
      case BitNot =>
      case ToLower =>
      case Length =>
      case IntToStr =>
      case StrToInt =>
    }
  }

  lemma UnFetch(inp: Input, o: Object, t: Vm, op: UnOp)
    requires 0 <= t.pc < |o.prog| && o.prog[t.pc] == UnCode(op)
    ensures Fetch(inp, o, t) == UnStep(inp, t.(pc := t.pc + 1), UnCode(op).op)
  {
    hide UnStep;
  }

  lemma UnaryCorrect(inp: Input, o: Object, t: Vm, t1: Vm, n: nat, op: UnOp, p: Plain, s: State) returns (t': Vm)
    requires Lands(inp, o, t, t1, n, [P(p)], s) && Is(o.prog, t1.pc, UnCode(op))
    ensures Computes(inp, o, t, t', n + 1, Give(UnResult(inp.host, op, p), s))
  {
    hide Run;
    hide Execute;
    hide Forward;
    hide Sim;
    hide Keeps;
    UnaryStep(inp, o, t1, t.stack, op, p);
    t' := AnswerStep(inp, o, t, t1, n, [P(p)], s, UnResult(inp.host, op, p));
  }

  lemma TwoOnTop(base: seq<Any>, a: Any, b: Any)
    ensures var st := base + [a, b];
            Top(st) == b && Rest(st) == base + [a] && Top(Rest(st)) == a && Rest(Rest(st)) == base
  {
    assert Rest(base + [a, b]) == base + [a];
  }

  lemma BinaryCorrect(inp: Input, o: Object, t: Vm, t1: Vm, n: nat, op: BinOp, a: Plain, b: Plain, s: State)
    returns (t': Vm)
    requires Lands(inp, o, t, t1, n, [P(a), P(b)], s) && Is(o.prog, t1.pc, BinCode(op))
    ensures Computes(inp, o, t, t', n + 1, Give(BinResult(inp.host, op, a, b), s))
  {
    hide Run;
    TwoOnTop(t.stack, P(a), P(b));
    t' := AnswerStep(inp, o, t, t1, n, [P(a), P(b)], s, BinResult(inp.host, op, a, b));
  }

  /** The answer of the comparison instruction itself. */
  function CmpResult(h: Host, rel: Rel, left: Left, a: Plain, b: Plain): Option<bool> {
    match left
    case Typed(TInt) =>
      (match (ToInt(h, a), ToInt(h, b))
       case (Some(x), Some(y)) => CompareInt(x, y, RelArg(rel))
       case _ => None)
    case Typed(TString) =>
      (match (ToStr(h, a), ToStr(h, b))
       case (Some(x), Some(y)) => CompareStr(x, y, RelArg(rel))
       case _ => None)
    case Untyped => CompareAny(h, P(a), P(b), RelArg(rel))
  }

  lemma {:induction false} StrLessTotal(a: string, b: string)
    ensures StrLess(a, b) <==> a != b && !StrLess(b, a)
  {
    if a != [] && b != [] {
      StrLessTotal(a[1..], b[1..]);
      assert a == [a[0]] + a[1..] && b == [b[0]] + b[1..];
    }
  }

  /** On integers: one asked order and the sense of the jump give each relation. */
  lemma IntFromOrder(rel: Rel, x: int, y: int)
    ensures CompareInt(x, y, RelArg(rel)).Some?
    ensures IntRel(rel, x, y) <==> CompareInt(x, y, RelArg(rel)).value == RelJump(rel).OJnm?
  {
  }

  lemma StrFromOrder(rel: Rel, x: string, y: string)
    ensures CompareStr(x, y, RelArg(rel)).Some?
    ensures StrRel(rel, x, y) <==> CompareStr(x, y, RelArg(rel)).value == RelJump(rel).OJnm?
  {
    StrLessTotal(x, y);
  }

  lemma FloatFromOrder(h: Host, rel: Rel, x: Float, y: Float)
    ensures CompareFloat(h, x, y, RelArg(rel)).Some?
    ensures FloatRel(h, rel, x, y) <==> CompareFloat(h, x, y, RelArg(rel)).value == RelJump(rel).OJnm?
  {
  }

  /** The machine's comparison sorts its operands as the evaluator does. */
  lemma SidesCompared(h: Host, a: Plain, b: Plain, arg: int)
    ensures CompareAny(h, P(a), P(b), arg) ==
            match SidesOf(h, a, b)
            case Ints(x, y) => CompareInt(x, y, arg)
            case Floats(f, g) => CompareFloat(h, f, g, arg)
            case Strings(x, y) => CompareStr(x, y, arg)
            case Incomparable => None
  {
    hide CompareInt, CompareFloat, CompareStr;
    match a
    case IntV(_) =>
    case NatV(_) =>
    case StrV(s) =>
    case BoolV(_) =>
  }

  /** All six relations from one asked order and the sense of the jump, typed or not. */
  lemma RelFromOrder(h: Host, rel: Rel, left: Left, a: Plain, b: Plain)
    ensures match CmpResult(h, rel, left, a, b)
            case None => RelResult(h, rel, left, a, b).None?
            case Some(x) => RelResult(h, rel, left, a, b) == Some(x == RelJump(rel).OJnm?)
  {
    SidesCompared(h, a, b, RelArg(rel));
    hide CompareInt, CompareFloat, CompareStr, CompareAny, SidesOf, IntRel, StrRel, FloatRel;
    match left
    case Typed(TInt) =>
      if ToInt(h, a).Some? && ToInt(h, b).Some? {
        IntFromOrder(rel, ToInt(h, a).value, ToInt(h, b).value);
      }
    case Typed(TString) =>
      if ToStr(h, a).Some? && ToStr(h, b).Some? {
        StrFromOrder(rel, ToStr(h, a).value, ToStr(h, b).value);
      }
    case Untyped =>
      match SidesOf(h, a, b) {
        case Ints(x, y) => IntFromOrder(rel, x, y);
        case Floats(f, g) => FloatFromOrder(h, rel, f, g);
        case Strings(x, y) => StrFromOrder(rel, x, y);
        case Incomparable =>
      }
  }

  lemma CmpFetch(inp: Input, o: Object, t: Vm, base: seq<Any>, rel: Rel, left: Left, a: Plain, b: Plain)
    requires 0 <= t.pc < |o.prog| && o.prog[t.pc] == CmpCode(rel, left) && t.stack == base + [P(a), P(b)]
    ensures match CmpResult(inp.host, rel, left, a, b)
            case Some(r) => Fetch(inp, o, t) == Next(t.(pc := t.pc + 1, stack := base + [P(BoolV(r))]))
            case None => Fetch(inp, o, t) == Halt(Errored, t.store)
  {
    hide CompareInt, CompareStr, CompareAny;
    TwoOnTop(base, P(a), P(b));
    match left
    case Typed(TInt) =>
    case Typed(TString) =>
    case Untyped =>
  }

  lemma CmpCorrect(inp: Input, o: Object, t: Vm, t1: Vm, n: nat, rel: Rel, left: Left, a: Plain, b: Plain, s: State)
    returns (t': Vm)
    requires Lands(inp, o, t, t1, n, [P(a), P(b)], s) && Is(o.prog, t1.pc, CmpCode(rel, left))
    ensures Computes(inp, o, t, t', n + 1, Give(BoolPlain(CmpResult(inp.host, rel, left, a, b)), s))
  {
    hide Run, Execute, Forward, Sim, Keeps, CmpResult;
    CmpFetch(inp, o, t1, t.stack, rel, left, a, b);
    t' := AnswerStep(inp, o, t, t1, n, [P(a), P(b)], s, BoolPlain(CmpResult(inp.host, rel, left, a, b)));
  }

  /** A conditional jump pops its operand and goes on or away. */
  lemma JumpCorrect(inp: Input, o: Object, t: Vm, t1: Vm, n: nat, op: Opcode, p: Plain, s: State, to: nat) returns (t': Vm)
    requires Lands(inp, o, t, t1, n, [P(p)], s)
    requires (op.OJnm? || op.OJm?) && Is(o.prog, t1.pc, Instr(op, Nat(to)))
    requires t.pc <= to
    ensures var leave := if op.OJnm? then Falsy(p) else Truthy(p);
            Lands(inp, o, t, t', if leave then to - t.pc else n + 1, [], s)
  {
    var leave := if op.OJnm? then Falsy(p) else Truthy(p);
    assert Top(t1.stack) == P(p) && Rest(t1.stack) == t.stack;
    t' := t1.(pc := if leave then to else t1.pc + 1, stack := t.stack);
    assert Fetch(inp, o, t1) == Next(t');
    Go(inp, o, t1, t');
    assert t.stack + [] == t.stack;
  }

  /** Falling into a verdict pushes `straight`. */
  lemma VerdictStraight(inp: Input, o: Object, t: Vm, t1: Vm, n: nat, k: bool, s: State) returns (t': Vm)
    requires Lands(inp, o, t, t1, n, [], s) && VerdictAt(o.prog, t1.pc, k)
    ensures Lands(inp, o, t, t', n + 3, [Flag(k)], s)
  {
    var t2 := t1.(pc := t1.pc + 1, stack := t1.stack + [Flag(k)]);
    assert Fetch(inp, o, t1) == Next(t2);
    Go(inp, o, t1, t2);
    t' := t2.(pc := t1.pc + 3);
    assert Fetch(inp, o, t2) == Next(t');
    Go(inp, o, t2, t');
    assert t.stack + [] == t.stack;
  }

  /** Jumping to its last instruction pushes the opposite. */
  lemma VerdictExit(inp: Input, o: Object, t: Vm, t1: Vm, n: nat, k: bool, s: State) returns (t': Vm)
    requires Lands(inp, o, t, t1, n, [], s) && Is(o.prog, t1.pc, Instr(OPush, Flag(k)))
    ensures Lands(inp, o, t, t', n + 1, [Flag(k)], s)
  {
    t' := t1.(pc := t1.pc + 1, stack := t1.stack + [Flag(k)]);
    assert Fetch(inp, o, t1) == Next(t');
    Go(inp, o, t1, t');
    assert t.stack + [] == t.stack;
  }

  lemma CompareCorrect(inp: Input, o: Object, t: Vm, t1: Vm, n: nat, rel: Rel, left: Left, a: Plain, b: Plain, s: State)
    returns (t': Vm)
    requires Lands(inp, o, t, t1, n, [P(a), P(b)], s) && CompareAt(o.prog, t1.pc, rel, left)
    ensures Computes(inp, o, t, t', n + 5, Give(BoolPlain(RelResult(inp.host, rel, left, a, b)), s))
  {
    hide Run;
    hide Execute;
    hide Forward;
    var r := CmpResult(inp.host, rel, left, a, b);
    RelFromOrder(inp.host, rel, left, a, b);
    var t2 := CmpCorrect(inp, o, t, t1, n, rel, left, a, b, s);
    if r.None? {
      t' := t2;
    } else {
      var t3 := JumpCorrect(inp, o, t, t2, n + 1, RelJump(rel), BoolV(r.value), s, t1.pc + 4);
      if r.value == RelJump(rel).OJnm? {
        t' := VerdictStraight(inp, o, t, t3, n + 2, true, s);
      } else {
        t' := VerdictExit(inp, o, t, t3, n + 4, false, s);
      }
    }
  }

  lemma MatchCorrect(inp: Input, o: Object, t: Vm, t1: Vm, n: nat, p: Plain, re: string, id: nat, negated: bool, s: State)
    returns (t': Vm)
    requires Lands(inp, o, t, t1, n, [P(p)], s) && id < |o.regexps| && o.regexps[id] == re
    requires Is(o.prog, t1.pc, Instr(OSmatch, Nat(id)))
    requires negated ==> Is(o.prog, t1.pc + 1, Instr(ONot, Nil))
    ensures Computes(inp, o, t, t', n + if negated then 2 else 1,
                     match ToStr(inp.host, p)
                     case None => EvalError(s)
                     case Some(text) => Search(inp, s, re, id, text, negated))
  {
    hide Run;
    assert Top(t1.stack) == P(p) && Rest(t1.stack) == t.stack;
    t' := t1;
    match ToStr(inp.host, p)
    case None => Die(inp, o, t1, Errored, s);
    case Some(text) =>
      var plain := Search(inp, s, re, id, text, false);
      t' := t1.(pc := t1.pc + 1, stack := t.stack + [P(plain.p)], matches := plain.s.matches);
      assert Fetch(inp, o, t1) == Next(t');
      Go(inp, o, t1, t');
      if negated {
        t' := NotCorrect(inp, o, t, t', n + 1, plain.p.b, plain.s);
      }
  }

  lemma NotCorrect(inp: Input, o: Object, t: Vm, t1: Vm, n: nat, b: bool, s: State) returns (t': Vm)
    requires Lands(inp, o, t, t1, n, [P(BoolV(b))], s) && Is(o.prog, t1.pc, Instr(ONot, Nil))
    ensures Lands(inp, o, t, t', n + 1, [P(BoolV(!b))], s)
  {
    hide Run;
    assert Top(t1.stack) == P(BoolV(b)) && Rest(t1.stack) == t.stack;
    t' := AnswerStep(inp, o, t, t1, n, [P(BoolV(b))], s, Some(BoolV(!b)));
  }

  // ---- metrics ----

  /** Plain values as stack slots. */
  function Slots(ps: seq<Plain>): (r: seq<Any>)
    ensures |r| == |ps| && forall i :: 0 <= i < |ps| ==> r[i] == P(ps[i])
  {
    seq(|ps|, i requires 0 <= i < |ps| => P(ps[i]))
  }

  lemma {:induction false} KeyStringsSnoc(h: Host, ps: seq<Plain>, p: Plain)
    ensures KeyStrings(h, ps + [p]) ==
            match (KeyStrings(h, ps), ToStr(h, p))
            case (Some(ks), Some(k)) => Some(ks + [k])
            case _ => None
  {
    if ps != [] {
      assert (ps + [p])[1..] == ps[1..] + [p];
      KeyStringsSnoc(h, ps[1..], p);
      match (KeyStrings(h, ps[1..]), ToStr(h, p), ToStr(h, ps[0]))
      case (Some(ks), Some(k), Some(k0)) => assert [k0] + (ks + [k]) == ([k0] + ks) + [k];
      case _ =>
    } else {
      assert ps + [p] == [p] && [p][1..] == [];
      if ToStr(h, p).Some? {
        assert [ToStr(h, p).value] + [] == [] + [ToStr(h, p).value];
      }
    }
  }

  /** Popping `|ps|` strings yields the keys in order, or fails exactly when one has no string form. */
  lemma {:induction false} PopKeysExact(h: Host, base: seq<Any>, ps: seq<Plain>, heap: seq<Datum>)
    ensures PopKeys(h, base + Slots(ps), |ps|, heap) ==
            match KeyStrings(h, ps)
            case None => KeysBad
            case Some(ks) => Keys(ks, base)
    decreases |ps|
  {
    if ps == [] {
      assert base + Slots(ps) == base;
    } else {
      var init, p := ps[..|ps| - 1], ps[|ps| - 1];
      var stack := base + Slots(ps);
      assert ps == init + [p];
      assert Top(stack) == P(p);
      assert Rest(stack) == base + Slots(init);
      PopKeysExact(h, base, init, heap);
      KeyStringsSnoc(h, init, p);
    }
  }

  /** Where evaluating an operand list must leave the machine. */
  ghost predicate ComputesAll(inp: Input, o: Object, t: Vm, t': Vm, n: nat, r: EvalArgs) {
    match r
    case Vals(ps, s) => Lands(inp, o, t, t', n, Slots(ps), s)
    case ArgsError(s) => Ends(inp, o, t, Errored, s)
  }

  /** Load the metric above its keys. */
  lemma MloadCorrect(inp: Input, o: Object, t: Vm, t1: Vm, n: nat, ps: seq<Plain>, m: nat, s: State) returns (t': Vm)
    requires Lands(inp, o, t, t1, n, Slots(ps), s) && Is(o.prog, t1.pc, Instr(OMload, Nat(m)))
    ensures if m < |s.tables| then Lands(inp, o, t, t', n + 1, Slots(ps) + [MetricV(m)], s)
            else Ends(inp, o, t, Errored, s)
  {
    if m < |s.tables| {
      t' := t1.(pc := t1.pc + 1, stack := t1.stack + [MetricV(m)]);
      assert Fetch(inp, o, t1) == Next(t');
      Go(inp, o, t1, t');
      assert t.stack + Slots(ps) + [MetricV(m)] == t.stack + (Slots(ps) + [MetricV(m)]);
    } else {
      t' := t1;
      Die(inp, o, t1, Errored, s);
    }
  }

  /** Is the operand list a usable key for metric `m`? */
  function KeysFor(h: Host, ps: seq<Plain>, m: nat, s: State): Option<seq<string>> {
    match KeyStrings(h, ps)
    case None => None
    case Some(keys) => if m < |s.tables| && |keys| == s.tables[m].arity then Some(keys) else None
  }

  lemma MetricFetch(inp: Input, o: Object, t: Vm, op: Opcode, n: nat)
    requires 0 <= t.pc && Is(o.prog, t.pc, Instr(op, Nat(n))) && (op.ODload? || op.ODel? || op.OExpire?)
    ensures Fetch(inp, o, t) == MetricStep(inp, t.(pc := t.pc + 1), Instr(op, Nat(n)))
  {
    hide MetricStep;
  }

  /** A metric above its keys. */
  lemma KeysOnTop(h: Host, stack: seq<Any>, base: seq<Any>, ps: seq<Plain>, m: nat, heap: seq<Datum>)
    requires stack == base + (Slots(ps) + [MetricV(m)])
    ensures Top(stack) == MetricV(m)
    ensures PopKeys(h, Rest(stack), |ps|, heap) ==
            match KeyStrings(h, ps)
            case None => KeysBad
            case Some(ks) => Keys(ks, base)
  {
    assert Rest(stack) == base + Slots(ps);
    PopKeysExact(h, base, ps, heap);
  }

  lemma SameCount(st: Storage, s: State)
    requires Sim(st, s)
    ensures |st.metrics| == |s.tables|
  {
  }

  /** `dload` leaves the address of the cell the keys name. */
  lemma DloadCorrect(inp: Input, o: Object, t: Vm, t1: Vm, n: nat, ps: seq<Plain>, m: nat, s: State) returns (t': Vm)
    requires m < |s.tables| && Lands(inp, o, t, t1, n, Slots(ps) + [MetricV(m)], s)
    requires Is(o.prog, t1.pc, Instr(ODload, Nat(|ps|)))
    ensures match KeysFor(inp.host, ps, m, s)
            case None => Ends(inp, o, t, Errored, s)
            case Some(keys) =>
              && Bound(t'.store, m, keys)
              && Lands(inp, o, t, t', n + 1, [DatumV(Address(t'.store, m, keys))], Touch(s, m, keys))
  {
    hide Run;
    hide Execute;
    hide Keeps;
    hide Sim;
    hide Forward;
    hide PopKeys;
    hide KeyStrings;
    hide Slots;
    SameCount(t1.store, s);
    KeysOnTop(inp.host, t1.stack, t.stack, ps, m, t1.store.heap);
    MetricFetch(inp, o, t1, ODload, |ps|);
    t' := t1;
    if KeyStrings(inp.host, ps).None? {
      Die(inp, o, t1, Errored, s);
    } else {
      var keys := KeyStrings(inp.host, ps).value;
      GetDatumSim(t1.store, s, m, keys);
      match GetDatum(t1.store, m, keys)
      case None => Die(inp, o, t1, Errored, s);
      case Some((st, a)) =>
        t' := t1.(pc := t1.pc + 1, stack := t.stack + [DatumV(a)], store := st);
        Go(inp, o, t1, t');
        KeepsTrans(t.store, t1.store, st);
    }
  }

  /** The instruction after a loaded cell: read it or change it by one. */
  lemma AccessCorrect(inp: Input, o: Object, t: Vm, t1: Vm, n: nat, how: Access, m: nat, keys: seq<string>, s: State)
    returns (t': Vm)
    requires Bound(t1.store, m, keys)
    requires Lands(inp, o, t, t1, n, [DatumV(Address(t1.store, m, keys))], s)
    requires Is(o.prog, t1.pc, AccessCode(how))
    ensures Computes(inp, o, t, t', n + 1, UseCell(s, m, keys, how))
  {
    hide Run;
    var a := Address(t1.store, m, keys);
    assert Top(t1.stack) == DatumV(a) && Rest(t1.stack) == t.stack;
    match how
    case Get(typ) => t' := GetCorrect(inp, o, t, t1, n, typ, m, keys, s);
    case Inc => t' := BumpCorrect(inp, o, t, t1, n, [DatumV(a)], t.stack, m, keys, 1, s);
    case Dec => t' := BumpCorrect(inp, o, t, t1, n, [DatumV(a)], t.stack, m, keys, -1, s);
  }

  lemma GetCorrect(inp: Input, o: Object, t: Vm, t1: Vm, n: nat, typ: Typ, m: nat, keys: seq<string>, s: State)
    returns (t': Vm)
    requires Bound(t1.store, m, keys)
    requires Lands(inp, o, t, t1, n, [DatumV(Address(t1.store, m, keys))], s)
    requires Is(o.prog, t1.pc, AccessCode(Get(typ)))
    ensures Computes(inp, o, t, t', n + 1, ReadCell(s, m, keys, typ))
  {
    hide Run;
    hide Forward;
    hide Keeps;
    var a := Address(t1.store, m, keys);
    assert Top(t1.stack) == DatumV(a) && Rest(t1.stack) == t.stack;
    WriteSim(t1.store, s, m, keys, DInt(0));
    hide Sim;
    GetFetch(inp, o, t1, typ, a);
    hide Execute;
    t' := AnswerStep(inp, o, t, t1, n, [DatumV(a)], s, GetResult(typ, s.tables[m].cells[keys].datum));
  }

  /** What reading a datum gives: the two must be of the same type. */
  function GetResult(typ: Typ, d: Datum): Option<Plain> {
    match d
    case DInt(i) => if typ.TInt? then Some(IntV(i)) else None
    case DStr(x) => if typ.TString? then Some(StrV(x)) else None
  }

  lemma GetFetch(inp: Input, o: Object, t: Vm, typ: Typ, a: nat)
    requires 0 <= t.pc && Is(o.prog, t.pc, AccessCode(Get(typ))) && t.stack != [] && Top(t.stack) == DatumV(a) && a < |t.store.heap|
    ensures Fetch(inp, o, t) ==
            match GetResult(typ, t.store.heap[a])
            case Some(p) => Next(t.(pc := t.pc + 1, stack := Rest(t.stack) + [P(p)]))
            case None => Halt(Errored, t.store)
  {
  }

  /** An instruction that adds `delta` to the cell and pushes the result on `below`. */
  lemma BumpCorrect(inp: Input, o: Object, t: Vm, t1: Vm, n: nat, args: seq<Any>, below: seq<Any>,
                    m: nat, keys: seq<string>, delta: int, s: State) returns (t': Vm)
    requires Bound(t1.store, m, keys) && t1.pc < |o.prog| && below == t.stack
    requires Lands(inp, o, t, t1, n, args, s)
    requires Fetch(inp, o, t1) ==
             BumpStep(t1.(pc := t1.pc + 1, stack := below + [DatumV(Address(t1.store, m, keys))]), delta)
    ensures Computes(inp, o, t, t', n + 1, Bump(s, m, keys, delta))
  {
    hide Run;
    hide Execute;
    hide Forward;
    hide Sim;
    hide Keeps;
    hide Bound;
    hide Address;
    var a := Address(t1.store, m, keys);
    var u := t1.(pc := t1.pc + 1, stack := below + [DatumV(a)]);
    assert Top(u.stack) == DatumV(a) && Rest(u.stack) == below;
    WriteSim(t1.store, s, m, keys, DInt(0));
    if t1.store.heap[a].DInt? {
      var v := Wrap(t1.store.heap[a].i + delta);
      WriteSim(t1.store, s, m, keys, DInt(v));
      t' := u.(stack := below + [P(IntV(v))], store := t1.store.(heap := t1.store.heap[a := DInt(v)]));
      assert Fetch(inp, o, t1) == Next(t');
      Go(inp, o, t1, t');
      KeepsTrans(t.store, t1.store, t'.store);
    } else {
      t' := t1;
      Die(inp, o, t1, Errored, s);
    }
  }

  // ---- expressions ----

  /** A stretch that ends the run ends it from every earlier point too. */
  lemma EndsEarlier(inp: Input, o: Object, t: Vm, t1: Vm, oc: Outcome, s: State)
    requires Same(inp, o, t, t1) && Ends(inp, o, t1, oc, s)
    ensures Ends(inp, o, t, oc, s)
  {
  }

  /** Second operand on top of a first stretch. */
  lemma ThenComputes(inp: Input, o: Object, t: Vm, t1: Vm, t2: Vm, n1: nat, p1: seq<Any>, s1: State, n2: nat, r: Eval)
    requires Lands(inp, o, t, t1, n1, p1, s1) && Computes(inp, o, t1, t2, n2, r)
    ensures match r
            case Val(p, s2) => Lands(inp, o, t, t2, n1 + n2, p1 + [P(p)], s2)
            case EvalError(s2) => Ends(inp, o, t, Errored, s2)
  {
    hide Run;
    if r.Val? {
      LandsThen(inp, o, t, t1, t2, n1, p1, s1, n2, [P(r.p)], r.s);
    }
  }

  /** Every expression's code leaves its value, and nothing else, on the entry stack. */
  lemma {:induction false} ExprCorrect(inp: Input, o: Object, t: Vm, e: Expr, s: State, hist: History) returns (t': Vm)
    requires Forward(o.prog) && 0 <= t.pc && CodeAt(o.prog, t.pc, e) && ExprOk(o, e) && Agrees(t, s, hist)
    ensures Computes(inp, o, t, t', Size(e), EvalExpr(inp, e, s, hist))
    decreases e, 2
  {
    hide Run;
    hide Execute;
    hide Forward;
    hide Sim;
    hide Keeps;
    match e {
      case Leaf(a) => t' := TermCorrect(inp, o, t, a, s, hist);
      case Use(lv, how) =>
        t' := PlaceCorrect(inp, o, t, lv, s, hist);
        var r := EvalLValue(inp, lv, s, hist);
        if r.Place? {
          t' := AccessCorrect(inp, o, t, t', PlaceSize(lv), how, lv.metric, r.keys, r.s);
        }
      case Unary(op, e1) =>
        t' := ExprCorrect(inp, o, t, e1, s, hist);
        var r := EvalExpr(inp, e1, s, hist);
        if r.Val? {
          t' := UnaryCorrect(inp, o, t, t', Size(e1), op, r.p, r.s);
        }
      case StrMatch(e1, re, id, negated) =>
        t' := ExprCorrect(inp, o, t, e1, s, hist);
        var r := EvalExpr(inp, e1, s, hist);
        if r.Val? {
          t' := MatchCorrect(inp, o, t, t', Size(e1), r.p, re, id, negated, r.s);
        }
      case Binary(_, _, _) => t' := PairCorrect(inp, o, t, e, s, hist);
      case Compare(_, _, _, _) => t' := PairCorrect(inp, o, t, e, s, hist);
      case Logic(_, _, _) => t' := LogicCorrect(inp, o, t, e, s, hist);
      case Joined(_, _) => t' := JoinedCorrect(inp, o, t, e, s, hist);
    }
  }

  /** The cell's address stays good while the second operand is evaluated; its text is read after that. */
  lemma {:induction false} JoinedCorrect(inp: Input, o: Object, t: Vm, e: Expr, s: State, hist: History) returns (t': Vm)
    requires e.Joined?
    requires Forward(o.prog) && 0 <= t.pc && CodeAt(o.prog, t.pc, e) && ExprOk(o, e) && Agrees(t, s, hist)
    ensures Computes(inp, o, t, t', Size(e), EvalExpr(inp, e, s, hist))
    decreases e, 1
  {
    hide Run;
    hide Execute;
    hide Forward;
    hide Sim;
    hide PlaceAt;
    hide JoinResult;
    var t1 := PlaceCorrect(inp, o, t, e.lv, s, hist);
    t' := t1;
    var pl := EvalLValue(inp, e.lv, s, hist);
    if pl.Place? {
      var a, m := Address(t1.store, e.lv.metric, pl.keys), e.lv.metric;
      t' := ExprCorrect(inp, o, t1, e.e, pl.s, hist);
      var r := EvalExpr(inp, e.e, pl.s, hist);
      ThenComputes(inp, o, t, t1, t', PlaceSize(e.lv), [DatumV(a)], pl.s, Size(e.e), r);
      if r.Val? {
        assert [DatumV(a)] + [P(r.p)] == [DatumV(a), P(r.p)];
        t' := CatCorrect(inp, o, t, t', PlaceSize(e.lv) + Size(e.e), m, pl.keys, r.p, r.s);
      }
    }
  }

  lemma CatCorrect(inp: Input, o: Object, t: Vm, t1: Vm, n: nat, m: nat, keys: seq<string>, p: Plain, s: State)
    returns (t': Vm)
    requires Bound(t1.store, m, keys)
    requires Lands(inp, o, t, t1, n, [DatumV(Address(t1.store, m, keys)), P(p)], s)
    requires Is(o.prog, t1.pc, Instr(OCat, Nil))
    ensures Computes(inp, o, t, t', n + 1, Give(JoinResult(inp.host, s, m, keys, p), s))
  {
    hide Run;
    hide Execute;
    hide Forward;
    hide Keeps;
    hide Sim;
    var a := Address(t1.store, m, keys);
    WriteSim(t1.store, s, m, keys, DInt(0));
    CatFetch(inp, o, t1, t.stack, a, p);
    t' := AnswerStep(inp, o, t, t1, n, [DatumV(a), P(p)], s, JoinResult(inp.host, s, m, keys, p));
  }

  lemma CatFetch(inp: Input, o: Object, t: Vm, base: seq<Any>, a: nat, p: Plain)
    requires 0 <= t.pc && Is(o.prog, t.pc, Instr(OCat, Nil)) && t.stack == base + [DatumV(a), P(p)] && a < |t.store.heap|
    ensures var d := t.store.heap[a];
            Fetch(inp, o, t) ==
            if ToStr(inp.host, p).Some? && d.DStr?
            then Next(t.(pc := t.pc + 1, stack := base + [P(StrV(d.s + ToStr(inp.host, p).value))]))
            else Halt(Errored, t.store)
  {
    TwoOnTop(base, DatumV(a), P(p));
  }

  /** Both operands of a binary node, left first. */
  function EvalPair(inp: Input, l: Expr, r: Expr, s: State, hist: History): (v: EvalArgs)
    ensures v.Vals? ==> |v.ps| == 2
  {
    match EvalExpr(inp, l, s, hist)
    case EvalError(s1) => ArgsError(s1)
    case Val(a, s1) =>
      match EvalExpr(inp, r, s1, hist)
      case EvalError(s2) => ArgsError(s2)
      case Val(b, s2) => Vals([a, b], s2)
  }

  lemma {:induction false} OperandsCorrect(inp: Input, o: Object, t: Vm, e: Expr, s: State, hist: History) returns (t': Vm)
    requires e.Binary? || e.Compare?
    requires Forward(o.prog) && 0 <= t.pc && CodeAt(o.prog, t.pc, e.l) && CodeAt(o.prog, t.pc + Size(e.l), e.r)
    requires ExprOk(o, e.l) && ExprOk(o, e.r) && Agrees(t, s, hist)
    ensures ComputesAll(inp, o, t, t', Size(e.l) + Size(e.r), EvalPair(inp, e.l, e.r, s, hist))
    decreases e, 0
  {
    hide Run;
    hide Execute;
    hide Forward;
    hide Sim;
    hide Keeps;
    var t1 := ExprCorrect(inp, o, t, e.l, s, hist);
    t' := t1;
    var l := EvalExpr(inp, e.l, s, hist);
    if l.Val? {
      t' := ExprCorrect(inp, o, t1, e.r, l.s, hist);
      var r := EvalExpr(inp, e.r, l.s, hist);
      ThenComputes(inp, o, t, t1, t', Size(e.l), [P(l.p)], l.s, Size(e.r), r);
      if r.Val? {
        assert [P(l.p)] + [P(r.p)] == Slots([l.p, r.p]);
      }
    }
  }

  lemma PairParts(o: Object, b: int, e: Expr)
    requires (e.Binary? || e.Compare?) && 0 <= b && CodeAt(o.prog, b, e) && ExprOk(o, e)
    ensures CodeAt(o.prog, b, e.l) && CodeAt(o.prog, b + Size(e.l), e.r) && ExprOk(o, e.l) && ExprOk(o, e.r)
    ensures var n := Size(e.l) + Size(e.r);
            if e.Binary? then Is(o.prog, b + n, BinCode(e.bop)) && Size(e) == n + 1
            else CompareAt(o.prog, b + n, e.rel, e.left) && Size(e) == n + 5
  {
  }

  lemma PairValue(inp: Input, e: Expr, s: State, hist: History)
    requires e.Binary? || e.Compare?
    ensures EvalExpr(inp, e, s, hist) ==
            match EvalPair(inp, e.l, e.r, s, hist)
            case ArgsError(s1) => EvalError(s1)
            case Vals(ps, s2) =>
              if e.Binary? then Give(BinResult(inp.host, e.bop, ps[0], ps[1]), s2)
              else Give(BoolPlain(RelResult(inp.host, e.rel, e.left, ps[0], ps[1])), s2)
  {
  }

  lemma {:induction false} PairCorrect(inp: Input, o: Object, t: Vm, e: Expr, s: State, hist: History) returns (t': Vm)
    requires e.Binary? || e.Compare?
    requires Forward(o.prog) && 0 <= t.pc && CodeAt(o.prog, t.pc, e) && ExprOk(o, e) && Agrees(t, s, hist)
    ensures Computes(inp, o, t, t', Size(e), EvalExpr(inp, e, s, hist))
    decreases e, 1
  {
    hide Run;
    hide Execute;
    hide Forward;
    hide Sim;
    hide Keeps;
    hide CodeAt;
    hide Size;
    hide ExprOk;
    hide EvalExpr;
    hide CompareAt;
    PairParts(o, t.pc, e);
    PairValue(inp, e, s, hist);
    t' := OperandsCorrect(inp, o, t, e, s, hist);
    var r := EvalPair(inp, e.l, e.r, s, hist);
    if r.Vals? {
      assert Slots(r.ps) == [P(r.ps[0]), P(r.ps[1])];
      if e.Binary? {
        t' := BinaryCorrect(inp, o, t, t', Size(e.l) + Size(e.r), e.bop, r.ps[0], r.ps[1], r.s);
      } else {
        t' := CompareCorrect(inp, o, t, t', Size(e.l) + Size(e.r), e.rel, e.left, r.ps[0], r.ps[1], r.s);
      }
    }
  }

  /** The second operand of `&&` or `||` gives the verdict. */
  lemma LogicTail(inp: Input, o: Object, t: Vm, t1: Vm, n: nat, conj: bool, b: Plain, s: State) returns (t': Vm)
    requires Lands(inp, o, t, t1, n, [P(b)], s)
    requires Is(o.prog, t1.pc, Instr(LogicJump(conj), Nat(t1.pc + 3))) && VerdictAt(o.prog, t1.pc + 1, conj)
    ensures Lands(inp, o, t, t', n + 4, [Flag(Decides(conj, b) != conj)], s)
  {
    hide Run;
    hide Execute;
    hide Forward;
    hide Sim;
    hide Keeps;
    t' := JumpCorrect(inp, o, t, t1, n, LogicJump(conj), b, s, t1.pc + 3);
    if Decides(conj, b) {
      t' := VerdictExit(inp, o, t, t', n + 3, !conj, s);
    } else {
      t' := VerdictStraight(inp, o, t, t', n + 1, conj, s);
    }
  }

  /** Short circuit: the right operand runs exactly when the left one settles nothing. */
  lemma {:induction false} LogicCorrect(inp: Input, o: Object, t: Vm, e: Expr, s: State, hist: History) returns (t': Vm)
    requires e.Logic?
    requires Forward(o.prog) && 0 <= t.pc && CodeAt(o.prog, t.pc, e) && ExprOk(o, e) && Agrees(t, s, hist)
    ensures Computes(inp, o, t, t', Size(e), EvalExpr(inp, e, s, hist))
    decreases e, 1
  {
    hide Run;
    hide Execute;
    hide Forward;
    hide Sim;
    hide Keeps;
    var exit := t.pc + Size(e.l) + Size(e.r) + 4;
    t' := ExprCorrect(inp, o, t, e.l, s, hist);
    var l := EvalExpr(inp, e.l, s, hist);
    if l.Val? {
      t' := JumpCorrect(inp, o, t, t', Size(e.l), LogicJump(e.conj), l.p, l.s, exit);
      if Decides(e.conj, l.p) {
        t' := VerdictExit(inp, o, t, t', exit - t.pc, !e.conj, l.s);
      } else {
        t' := LogicRight(inp, o, t, t', e, l.s, hist);
      }
    }
  }

  lemma {:induction false} LogicRight(inp: Input, o: Object, t: Vm, t1: Vm, e: Expr, s: State, hist: History) returns (t': Vm)
    requires e.Logic? && Lands(inp, o, t, t1, Size(e.l) + 1, [], s) && t.matched == AnyTaken(hist)
    requires CodeAt(o.prog, t1.pc, e.r) && ExprOk(o, e.r)
    requires Is(o.prog, t1.pc + Size(e.r), Instr(LogicJump(e.conj), Nat(t1.pc + Size(e.r) + 3)))
    requires VerdictAt(o.prog, t1.pc + Size(e.r) + 1, e.conj)
    ensures Computes(inp, o, t, t', Size(e),
                     match EvalExpr(inp, e.r, s, hist)
                     case EvalError(s2) => EvalError(s2)
                     case Val(b, s2) => Val(BoolV(Decides(e.conj, b) != e.conj), s2))
    decreases e, 0
  {
    hide Run;
    hide Execute;
    hide Forward;
    hide Sim;
    hide Keeps;
    hide CodeAt;
    hide ExprOk;
    hide EvalExpr;
    t' := ExprCorrect(inp, o, t1, e.r, s, hist);
    var r := EvalExpr(inp, e.r, s, hist);
    ThenComputes(inp, o, t, t1, t', Size(e.l) + 1, [], s, Size(e.r), r);
    if r.Val? {
      assert [] + [P(r.p)] == [P(r.p)];
      t' := LogicTail(inp, o, t, t', Size(e.l) + 1 + Size(e.r), e.conj, r.p, r.s);
    }
  }

  /** Operand lists leave one value per expression, in order. */
  lemma {:induction false} ArgsCorrect(inp: Input, o: Object, t: Vm, es: seq<Expr>, s: State, hist: History) returns (t': Vm)
    requires Forward(o.prog) && 0 <= t.pc && ArgsAt(o.prog, t.pc, es) && ArgsOk(o, es) && Agrees(t, s, hist)
    ensures ComputesAll(inp, o, t, t', ArgsSize(es), EvalAll(inp, es, s, hist))
    decreases es, 0
  {
    hide Run;
    hide Execute;
    hide Forward;
    hide Sim;
    if es == [] {
      t' := t;
      assert t.stack + Slots([]) == t.stack;
    } else {
      var t1 := ExprCorrect(inp, o, t, es[0], s, hist);
      t' := t1;
      match EvalExpr(inp, es[0], s, hist)
      case EvalError(_) =>
      case Val(p, s1) =>
        t' := ArgsCorrect(inp, o, t1, es[1..], s1, hist);
        match EvalAll(inp, es[1..], s1, hist)
        case ArgsError(s2) => EndsEarlier(inp, o, t, t1, Errored, s2);
        case Vals(ps, s2) =>
          LandsThen(inp, o, t, t1, t', Size(es[0]), [P(p)], s1, ArgsSize(es[1..]), Slots(ps), s2);
          assert [P(p)] + Slots(ps) == Slots([p] + ps);
    }
  }

  /** A use of a metric leaves the address of exactly the cell the evaluator names. */
  lemma {:induction false} PlaceCorrect(inp: Input, o: Object, t: Vm, lv: LValue, s: State, hist: History) returns (t': Vm)
    requires Forward(o.prog) && 0 <= t.pc && PlaceAt(o.prog, t.pc, lv, ODload) && ArgsOk(o, lv.args) && Agrees(t, s, hist)
    ensures match EvalLValue(inp, lv, s, hist)
            case NoPlace(s1) => Ends(inp, o, t, Errored, s1)
            case Place(keys, s1) =>
              && Bound(t'.store, lv.metric, keys)
              && Lands(inp, o, t, t', PlaceSize(lv), [DatumV(Address(t'.store, lv.metric, keys))], s1)
    decreases lv, 0
  {
    hide Run;
    hide Execute;
    hide Forward;
    hide Sim;
    hide Keeps;
    t' := ArgsCorrect(inp, o, t, lv.args, s, hist);
    match EvalAll(inp, lv.args, s, hist)
    case ArgsError(_) =>
    case Vals(ps, s1) =>
      EvalAllCount(inp, lv.args, s, hist);
      t' := MloadCorrect(inp, o, t, t', ArgsSize(lv.args), ps, lv.metric, s1);
      if lv.metric < |s1.tables| {
        t' := DloadCorrect(inp, o, t, t', ArgsSize(lv.args) + 1, ps, lv.metric, s1);
      }
  }

  lemma {:induction false} EvalAllCount(inp: Input, es: seq<Expr>, s: State, hist: History)
    ensures var r := EvalAll(inp, es, s, hist); r.Vals? ==> |r.ps| == |es|
    decreases |es|
  {
    if es != [] && EvalExpr(inp, es[0], s, hist).Val? {
      EvalAllCount(inp, es[1..], EvalExpr(inp, es[0], s, hist).s, hist);
    }
  }

  // ---- statements ----

  /** Where a statement must leave the machine: the entry stack is kept as a prefix. */
  ghost predicate Executes(inp: Input, o: Object, t: Vm, t': Vm, n: nat, r: Exec) {
    match r
    case Done(s, hist) =>
      Same(inp, o, t, t') && t'.pc == t.pc + n && t.stack <= t'.stack && Agrees(t', s, hist)
    case Stopping(s) => Ends(inp, o, t, Stopped, s)
    case ExecError(s) => Ends(inp, o, t, Errored, s)
  }

  /** Store through the loaded address, which still is the address of that cell. */
  lemma UpdateCorrect(inp: Input, o: Object, t: Vm, t1: Vm, n: nat, m: nat, keys: seq<string>, how: Update, p: Plain,
                      s: State, hist: History) returns (t': Vm)
    requires Bound(t1.store, m, keys) && t.matched == AnyTaken(hist)
    requires Lands(inp, o, t, t1, n, [DatumV(Address(t1.store, m, keys)), P(p)], s)
    requires Is(o.prog, t1.pc, UpdateCode(how))
    ensures Executes(inp, o, t, t', n + 1, UpdateCell(inp.host, s, m, keys, how, p, hist))
  {
    if how.AddTo? {
      t' := AddCorrect(inp, o, t, t1, n, m, keys, p, s, hist);
    } else {
      t' := SetCorrect(inp, o, t, t1, n, m, keys, how.typ, p, s, hist);
    }
  }

  lemma AddCorrect(inp: Input, o: Object, t: Vm, t1: Vm, n: nat, m: nat, keys: seq<string>, p: Plain,
                   s: State, hist: History) returns (t': Vm)
    requires Bound(t1.store, m, keys) && t.matched == AnyTaken(hist)
    requires Lands(inp, o, t, t1, n, [DatumV(Address(t1.store, m, keys)), P(p)], s)
    requires Is(o.prog, t1.pc, UpdateCode(AddTo))
    ensures Executes(inp, o, t, t', n + 1, UpdateCell(inp.host, s, m, keys, AddTo, p, hist))
  {
    hide Run;
    hide Keeps;
    hide Sim;
    var a := Address(t1.store, m, keys);
    TwoOnTop(t.stack, DatumV(a), P(p));
    t' := t1;
    var r := ToInt(inp.host, p);
    if r.None? {
      Die(inp, o, t1, Errored, s);
    } else {
      t' := BumpCorrect(inp, o, t, t1, n, [DatumV(a), P(p)], t.stack, m, keys, r.value, s);
    }
  }

  lemma SetCorrect(inp: Input, o: Object, t: Vm, t1: Vm, n: nat, m: nat, keys: seq<string>, typ: Typ, p: Plain,
                   s: State, hist: History) returns (t': Vm)
    requires Bound(t1.store, m, keys) && t.matched == AnyTaken(hist)
    requires Lands(inp, o, t, t1, n, [DatumV(Address(t1.store, m, keys)), P(p)], s)
    requires Is(o.prog, t1.pc, UpdateCode(SetTo(typ)))
    ensures Executes(inp, o, t, t', n + 1, UpdateCell(inp.host, s, m, keys, SetTo(typ), p, hist))
  {
    hide Run;
    hide Keeps;
    hide Sim;
    var a := Address(t1.store, m, keys);
    TwoOnTop(t.stack, DatumV(a), P(p));
    t' := t1;
    var r := Stored(inp.host, typ, p);
    if r.None? {
      Die(inp, o, t1, Errored, s);
    } else {
      t' := WriteCorrect(inp, o, t, t1, n, [DatumV(a), P(p)], m, keys, r.value, s, hist);
    }
  }

  lemma WriteCorrect(inp: Input, o: Object, t: Vm, t1: Vm, n: nat, args: seq<Any>, m: nat, keys: seq<string>, d: Datum,
                     s: State, hist: History) returns (t': Vm)
    requires Bound(t1.store, m, keys) && t1.pc < |o.prog| && t.matched == AnyTaken(hist)
    requires Lands(inp, o, t, t1, n, args, s)
    requires Fetch(inp, o, t1) ==
             SetStep(t1.(pc := t1.pc + 1, stack := t.stack + [DatumV(Address(t1.store, m, keys))]), d)
    ensures Executes(inp, o, t, t', n + 1, Write(s, m, keys, d, hist))
  {
    hide Run;
    hide Execute;
    hide NoAlias;
    var a := Address(t1.store, m, keys);
    var u := t1.(pc := t1.pc + 1, stack := t.stack + [DatumV(a)]);
    assert Top(u.stack) == DatumV(a) && Rest(u.stack) == t.stack;
    WriteSim(t1.store, s, m, keys, d);
    t' := t1;
    if t1.store.heap[a].DInt? == d.DInt? {
      t' := u.(stack := t.stack, store := t1.store.(heap := t1.store.heap[a := d]));
      assert Fetch(inp, o, t1) == Next(t');
      Go(inp, o, t1, t');
    } else {
      Die(inp, o, t1, Errored, s);
    }
  }

  lemma StoreCorrect(inp: Input, o: Object, t: Vm, st: Stmt, s: State, hist: History) returns (t': Vm)
    requires st.Store? && Forward(o.prog) && 0 <= t.pc && StmtAt(o.prog, t.pc, st) && StmtOk(o, st) && Agrees(t, s, hist)
    ensures Executes(inp, o, t, t', StmtSize(st), ExecStmt(inp, st, s, hist))
  {
    hide Run;
    hide Execute;
    hide Forward;
    hide Sim;
    hide CodeAt;
    hide Size;
    hide ExprOk;
    hide EvalExpr;
    hide PlaceAt;
    var t1 := PlaceCorrect(inp, o, t, st.lv, s, hist);
    t' := t1;
    var pl := EvalLValue(inp, st.lv, s, hist);
    if pl.Place? {
      var a, m := Address(t1.store, st.lv.metric, pl.keys), st.lv.metric;
      t' := ExprCorrect(inp, o, t1, st.e, pl.s, hist);
      var r := EvalExpr(inp, st.e, pl.s, hist);
      ThenComputes(inp, o, t, t1, t', PlaceSize(st.lv), [DatumV(a)], pl.s, Size(st.e), r);
      if r.Val? {
        assert [DatumV(a)] + [P(r.p)] == [DatumV(a), P(r.p)];
        t' := UpdateCorrect(inp, o, t, t', PlaceSize(st.lv) + Size(st.e), m, pl.keys, st.how, r.p, r.s, hist);
      }
    }
  }

  /** Arguments and metric of a deletion. */
  lemma TargetCorrect(inp: Input, o: Object, t: Vm, lv: LValue, last: Opcode, s: State, hist: History)
    returns (t': Vm, ps: seq<Plain>)
    requires Forward(o.prog) && 0 <= t.pc && PlaceAt(o.prog, t.pc, lv, last) && ArgsOk(o, lv.args) && Agrees(t, s, hist)
    ensures match EvalTarget(inp, lv, s, hist)
            case Place(keys, s1) =>
              && |ps| == |lv.args| && KeyStrings(inp.host, ps) == Some(keys)
              && Lands(inp, o, t, t', ArgsSize(lv.args) + 1, Slots(ps) + [MetricV(lv.metric)], s1)
            case NoPlace(s1) =>
              || Ends(inp, o, t, Errored, s1)
              || (&& |ps| == |lv.args| && lv.metric < |s1.tables| && KeysFor(inp.host, ps, lv.metric, s1).None?
                  && Lands(inp, o, t, t', ArgsSize(lv.args) + 1, Slots(ps) + [MetricV(lv.metric)], s1))
  {
    hide Run;
    hide Execute;
    hide Forward;
    hide Sim;
    hide Keeps;
    t' := ArgsCorrect(inp, o, t, lv.args, s, hist);
    ps := [];
    var r := EvalAll(inp, lv.args, s, hist);
    if r.Vals? {
      EvalAllCount(inp, lv.args, s, hist);
      ps := r.ps;
      t' := MloadCorrect(inp, o, t, t', ArgsSize(lv.args), ps, lv.metric, r.s);
    }
  }

  /** `del` above `base`. */
  lemma DelStep(inp: Input, o: Object, t: Vm, base: seq<Any>, ps: seq<Plain>, m: nat, s: State) returns (t': Vm)
    requires Forward(o.prog) && 0 <= t.pc && Sim(t.store, s) && m < |s.tables|
    requires Is(o.prog, t.pc, Instr(ODel, Nat(|ps|))) && t.stack == base + (Slots(ps) + [MetricV(m)])
    ensures match KeysFor(inp.host, ps, m, s)
            case None => Ends(inp, o, t, Errored, s)
            case Some(keys) =>
              && Same(inp, o, t, t')
              && t' == t.(pc := t.pc + 1, stack := base, store := t'.store)
              && Sim(t'.store, Drop(s, m, keys))
  {
    hide Run;
    hide NoAlias;
    KeysOnTop(inp.host, t.stack, base, ps, m, t.store.heap);
    MetricFetch(inp, o, t, ODel, |ps|);
    t' := t;
    if KeysFor(inp.host, ps, m, s).None? {
      Die(inp, o, t, Errored, s);
    } else {
      var keys := KeyStrings(inp.host, ps).value;
      RemoveSim(t.store, s, m, keys);
      t' := t.(pc := t.pc + 1, stack := base, store := RemoveDatum(t.store, m, keys).value);
      Go(inp, o, t, t');
    }
  }

  /** `expire` above `base` and a duration. */
  lemma ExpireStep(inp: Input, o: Object, t: Vm, base: seq<Any>, d: int, ps: seq<Plain>, m: nat, s: State) returns (t': Vm)
    requires Forward(o.prog) && 0 <= t.pc && Sim(t.store, s) && m < |s.tables|
    requires Is(o.prog, t.pc, Instr(OExpire, Nat(|ps|)))
    requires t.stack == (base + [DurationV(d)]) + (Slots(ps) + [MetricV(m)])
    ensures match KeysFor(inp.host, ps, m, s)
            case None => Ends(inp, o, t, Errored, s)
            case Some(keys) =>
              if Holds(s, m, keys) then
                && Same(inp, o, t, t')
                && t' == t.(pc := t.pc + 1, stack := base, store := t'.store)
                && Sim(t'.store, Put(s, m, keys, s.tables[m].cells[keys].(expiry := d)))
              else Ends(inp, o, t, Errored, s)
  {
    hide PopKeys;
    hide KeyStrings;
    hide Slots;
    hide Run;
    hide Execute;
    hide NoAlias;
    hide Forward;
    var below := base + [DurationV(d)];
    KeysOnTop(inp.host, t.stack, below, ps, m, t.store.heap);
    assert Top(below) == DurationV(d) && Rest(below) == base;
    MetricFetch(inp, o, t, OExpire, |ps|);
    t' := t;
    if KeysFor(inp.host, ps, m, s).None? {
      Die(inp, o, t, Errored, s);
    } else {
      var keys := KeyStrings(inp.host, ps).value;
      ExpireSim(t.store, s, m, keys, d);
      if Holds(s, m, keys) {
        t' := t.(pc := t.pc + 1, stack := base, store := ExpireDatum(t.store, m, keys, d).value);
        Go(inp, o, t, t');
      } else {
        Die(inp, o, t, Errored, s);
      }
    }
  }

  lemma RemoveCorrect(inp: Input, o: Object, t: Vm, st: Stmt, s: State, hist: History) returns (t': Vm)
    requires st.Remove? && Forward(o.prog) && 0 <= t.pc && StmtAt(o.prog, t.pc, st) && StmtOk(o, st) && Agrees(t, s, hist)
    ensures Executes(inp, o, t, t', StmtSize(st), ExecStmt(inp, st, s, hist))
  {
    hide Run;
    hide Execute;
    hide Forward;
    hide Sim;
    hide Keeps;
    var pl := EvalTarget(inp, st.lv, s, hist);
    if st.after.None? {
      var t1, ps := TargetCorrect(inp, o, t, st.lv, ODel, s, hist);
      t' := t1;
      if pl.Place? || !Ends(inp, o, t, Errored, pl.s) {
        t' := DelStep(inp, o, t1, t.stack, ps, st.lv.metric, pl.s);
      }
    } else {
      var t0 := DurationStep(inp, o, t, st.after.value);
      var t1, ps := TargetCorrect(inp, o, t0, st.lv, OExpire, s, hist);
      t' := t1;
      if pl.Place? || !Ends(inp, o, t0, Errored, pl.s) {
        t' := ExpireStep(inp, o, t1, t.stack, st.after.value, ps, st.lv.metric, pl.s);
      }
    }
  }

  lemma DurationStep(inp: Input, o: Object, t: Vm, d: int) returns (t': Vm)
    requires Forward(o.prog) && 0 <= t.pc && Is(o.prog, t.pc, Instr(OPush, DurationV(d)))
    ensures Same(inp, o, t, t') && t' == t.(pc := t.pc + 1, stack := t.stack + [DurationV(d)])
  {
    t' := t.(pc := t.pc + 1, stack := t.stack + [DurationV(d)]);
    Go(inp, o, t, t');
  }

  lemma FlagStep(inp: Input, o: Object, t: Vm, b: bool) returns (t': Vm)
    requires Forward(o.prog) && 0 <= t.pc && Is(o.prog, t.pc, Instr(OSetmatched, Flag(b)))
    ensures Same(inp, o, t, t') && t' == t.(pc := t.pc + 1, matched := b)
  {
    t' := t.(pc := t.pc + 1, matched := b);
    Go(inp, o, t, t');
  }

  lemma SkipStep(inp: Input, o: Object, t: Vm, to: nat) returns (t': Vm)
    requires Forward(o.prog) && 0 <= t.pc && Is(o.prog, t.pc, Instr(OJmp, Nat(to)))
    ensures Same(inp, o, t, t') && t' == t.(pc := to)
  {
    t' := t.(pc := to);
    Go(inp, o, t, t');
  }

  /** Every statement's code does what the statement means and keeps its entry stack as a prefix. */
  lemma {:induction false} StmtCorrect(inp: Input, o: Object, t: Vm, st: Stmt, s: State, hist: History) returns (t': Vm)
    requires Forward(o.prog) && 0 <= t.pc && StmtAt(o.prog, t.pc, st) && StmtOk(o, st) && Agrees(t, s, hist)
    ensures Executes(inp, o, t, t', StmtSize(st), ExecStmt(inp, st, s, hist))
    decreases st, 2
  {
    hide Run;
    hide Execute;
    hide Forward;
    hide Sim;
    hide Keeps;
    match st
    case ExprStmt(e) => t' := ExprCorrect(inp, o, t, e, s, hist);
    case Store(_, _, _) => t' := StoreCorrect(inp, o, t, st, s, hist);
    case Cond(_, _, _) => t' := CondCorrect(inp, o, t, st, s, hist);
    case Block(stmts) => t' := BlockCorrect(inp, o, t, stmts, s, hist);
    case Instance(body) => t' := StmtCorrect(inp, o, t, body, s, hist);
    case Stop => t' := t; StopStep(inp, o, t, s);
    case Remove(_, _) => t' := RemoveCorrect(inp, o, t, st, s, hist);
  }

  lemma StopStep(inp: Input, o: Object, t: Vm, s: State)
    requires Forward(o.prog) && 0 <= t.pc && Is(o.prog, t.pc, Instr(OStop, Nil)) && Sim(t.store, s)
    ensures Ends(inp, o, t, Stopped, s)
  {
    Die(inp, o, t, Stopped, s);
  }

  /** Earlier code in front of a statement. */
  lemma SameExecutes(inp: Input, o: Object, t: Vm, t1: Vm, t2: Vm, k: nat, n: nat, r: Exec)
    requires Same(inp, o, t, t1) && t1.pc == t.pc + k && t.stack <= t1.stack && Executes(inp, o, t1, t2, n, r)
    ensures Executes(inp, o, t, t2, k + n, r)
  {
    hide Run;
  }

  /** The block runs with a clear flag, which is raised again behind it. */
  lemma {:induction false} CondCorrect(inp: Input, o: Object, t: Vm, st: Stmt, s: State, hist: History) returns (t': Vm)
    requires st.Cond? && Forward(o.prog) && 0 <= t.pc && StmtAt(o.prog, t.pc, st) && StmtOk(o, st) && Agrees(t, s, hist)
    ensures Executes(inp, o, t, t', StmtSize(st), ExecStmt(inp, st, s, hist))
    decreases st, 1
  {
    hide Run;
    hide Execute;
    hide Forward;
    hide Sim;
    hide Keeps;
    hide CodeAt;
    hide Size;
    hide ExprOk;
    hide EvalExpr;
    var c := EvalExpr(inp, st.c, s, hist);
    t' := ExprCorrect(inp, o, t, st.c, s, hist);
    if c.Val? {
      var n := t.pc + Size(st.c) + 3 + StmtSize(st.truth);
      var other := if st.els.None? then n else n + 1;
      var t1 := JumpCorrect(inp, o, t, t', Size(st.c), OJnm, c.p, c.s, other);
      assert t.stack + [] == t.stack;
      if Falsy(c.p) {
        assert AnyTaken(hist + [false]) == AnyTaken(hist);
        t' := t1;
        if st.els.Some? {
          t' := StmtCorrect(inp, o, t1, st.els.value, c.s, hist + [false]);
          SameExecutes(inp, o, t, t1, t', other - t.pc, StmtSize(st.els.value),
                       ExecStmt(inp, st.els.value, c.s, hist + [false]));
        }
      } else {
        t' := TakenCorrect(inp, o, t1, st, c.s, hist);
        SameExecutes(inp, o, t, t1, t', Size(st.c) + 1, 2 + StmtSize(st.truth) + ElseSize(st.els),
                     Taken(inp, st, c.s, hist));
      }
    }
  }

  /** The taken branch of a conditional. */
  function Taken(inp: Input, st: Stmt, s: State, hist: History): Exec
    requires st.Cond?
  {
    match ExecStmt(inp, st.truth, s, [])
    case Done(s2, _) => Done(s2, hist + [true])
    case r => r
  }

  lemma {:induction false} TakenCorrect(inp: Input, o: Object, t: Vm, st: Stmt, s: State, hist: History) returns (t': Vm)
    requires st.Cond? && Forward(o.prog) && 0 <= t.pc && t.matches == s.matches && Sim(t.store, s)
    requires StmtOk(o, st.truth)
    requires Is(o.prog, t.pc, Instr(OSetmatched, Flag(false))) && StmtAt(o.prog, t.pc + 1, st.truth)
    requires Is(o.prog, t.pc + 1 + StmtSize(st.truth), Instr(OSetmatched, Flag(true)))
    requires ElseAt(o.prog, t.pc + 2 + StmtSize(st.truth), st.els)
    ensures Executes(inp, o, t, t', 2 + StmtSize(st.truth) + ElseSize(st.els), Taken(inp, st, s, hist))
    decreases st, 0
  {
    hide Run;
    hide Execute;
    hide Forward;
    hide Sim;
    hide Keeps;
    hide ExecStmt;
    hide StmtAt;
    hide StmtOk;
    var t1 := FlagStep(inp, o, t, false);
    var r := ExecStmt(inp, st.truth, s, []);
    t' := StmtCorrect(inp, o, t1, st.truth, s, []);
    if r.Done? {
      t' := FlagStep(inp, o, t', true);
      if st.els.Some? {
        t' := SkipStep(inp, o, t', t.pc + 3 + StmtSize(st.truth) + StmtSize(st.els.value));
      }
      assert (hist + [true])[|hist|];
    }
  }

  lemma {:induction false} BlockCorrect(inp: Input, o: Object, t: Vm, stmts: seq<Stmt>, s: State, hist: History) returns (t': Vm)
    requires Forward(o.prog) && 0 <= t.pc && BlockAt(o.prog, t.pc, stmts) && BlockOk(o, stmts) && Agrees(t, s, hist)
    ensures Executes(inp, o, t, t', BlockSize(stmts), ExecAll(inp, stmts, s, hist))
    decreases stmts, 0
  {
    hide Run;
    hide Execute;
    hide Forward;
    hide Sim;
    t' := t;
    if stmts != [] {
      var t1 := StmtCorrect(inp, o, t, stmts[0], s, hist);
      var r := ExecStmt(inp, stmts[0], s, hist);
      t' := t1;
      if r.Done? {
        t' := BlockCorrect(inp, o, t1, stmts[1..], r.s, r.hist);
        SameExecutes(inp, o, t, t1, t', StmtSize(stmts[0]), BlockSize(stmts[1..]), ExecAll(inp, stmts[1..], r.s, r.hist));
      }
    }
  }

  // ---- whole programs ----

  function OutcomeOf(r: Exec): Outcome {
    match r
    case Done(_, _) => Finished
    case Stopping(_) => Stopped
    case ExecError(_) => Errored
  }

  /**
   Compiler correctness.  For every program, line and storage, the machine
   ends as the evaluator does (so never by popping an empty stack), with
   metrics holding exactly the evaluator's tables.
   */
  lemma ProgramCorrect(inp: Input, o: Object, st: Stmt, store: Storage, s: State)
    requires IsProgram(o.prog, st) && StmtOk(o, st)
    requires Sim(store, s) && s.matches == map[]
    ensures Forward(o.prog)
    ensures var r := ExecStmt(inp, st, s, []);
            Run(inp, o, Start(store)).outcome == OutcomeOf(r) && Sim(Run(inp, o, Start(store)).store, r.s)
  {
    ProgramForward(o.prog, st);
    var t' := StmtCorrect(inp, o, Start(store), st, s, []);
  }
}

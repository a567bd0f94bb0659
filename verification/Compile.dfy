/**
 The code a program compiles to, with absolute jump targets: `StmtAt(prog, b,
 st)` says which instruction stands at every offset from `b` on.  CodeGen.dfy
 shows that the label-and-back-patch generator of
 `internal/vm/codegen/codegen.go` produces exactly this.
 */
module Compile {
  import opened Common
  import opened Syntax
  import opened Machine

  function Nat(n: int): Any { P(NatV(n)) }
  function Flag(b: bool): Any { P(BoolV(b)) }

  /** The program has this instruction at `k`. */
  predicate Is(prog: seq<Instr>, k: nat, i: Instr) { k < |prog| && prog[k] == i }

  function UnCode(op: UnOp): Instr {
    match op
    case BitNot => Instr(ONeg, Nil)
    case ToLower => Instr(OTolower, Nat(1))
    case Length => Instr(OLength, Nat(1))
    case IntToStr => Instr(OI2s, Nil)
    case StrToInt => Instr(OS2i, Nil)
  }

  function BinCode(op: BinOp): Instr {
    match op
    case IntBin(i) => Instr(OInt(i), Nil)
    case Concat => Instr(OCat, Nil)
  }

  function AccessCode(how: Access): Instr {
    match how
    case Get(t) => Instr(if t.TInt? then OIget else OSget, Nil)
    case Inc => Instr(OInc, Nil)
    case Dec => Instr(ODec, Nil)
  }

  function UpdateCode(how: Update): Instr {
    match how
    case SetTo(t) => Instr(if t.TInt? then OIset else OSset, Nil)
    case AddTo => Instr(OInc, Nat(0))
  }

  /** Operand of the comparison: the one order it asks about. */
  function RelArg(rel: Rel): int {
    match rel
    case LT => -1
    case GT => 1
    case LE => 1
    case GE => -1
    case EQ => 0
    case NE => 0
  }

  /** Leave on "no match" when the order asked about is the one wanted. */
  function RelJump(rel: Rel): Opcode {
    match rel
    case LT => OJnm
    case GT => OJnm
    case LE => OJm
    case GE => OJm
    case EQ => OJnm
    case NE => OJm
  }

  /** A typed comparison only if the left operand's type is known as such. */
  function CmpCode(rel: Rel, left: Left): Instr {
    Instr(match left case Typed(TInt) => OIcmp case Typed(TString) => OScmp case Untyped => OCmp, Nat(RelArg(rel)))
  }

  function LogicJump(conj: bool): Opcode { if conj then OJnm else OJm }

  /** Push `straight`, or its negation when arriving at `k + 2`; both leave at `k + 3`. */
  predicate VerdictAt(prog: seq<Instr>, k: nat, straight: bool) {
    && Is(prog, k, Instr(OPush, Flag(straight)))
    && Is(prog, k + 1, Instr(OJmp, Nat(k + 3)))
    && Is(prog, k + 2, Instr(OPush, Flag(!straight)))
  }

  /** Instructions a compiled expression occupies. */
  function Size(e: Expr): nat
    decreases e, 1
  {
    match e
    case Leaf(t) => if t.Capref? then 2 else 1
    case Use(lv, _) => PlaceSize(lv) + 1
    case Unary(_, e1) => Size(e1) + 1
    case Binary(_, l, r) => Size(l) + Size(r) + 1
    case Compare(_, _, l, r) => Size(l) + Size(r) + 5
    case Logic(_, l, r) => Size(l) + Size(r) + 5
    case StrMatch(e1, _, _, negated) => Size(e1) + if negated then 2 else 1
    case Joined(lv, e1) => PlaceSize(lv) + Size(e1) + 1
  }

  function PlaceSize(lv: LValue): nat
    decreases lv, 0
  {
    ArgsSize(lv.args) + 2
  }

  function ArgsSize(es: seq<Expr>): nat
    decreases es, 0
  {
    if es == [] then 0 else Size(es[0]) + ArgsSize(es[1..])
  }

  predicate TermAt(prog: seq<Instr>, b: nat, t: Term) {
    match t
    case IntLit(i) => Is(prog, b, Instr(OPush, P(IntV(i))))
    case StrLit(_, slot) => Is(prog, b, Instr(OStr, Nat(slot)))
    case Capref(pat, group) => Is(prog, b, Instr(OPush, Nat(pat))) && Is(prog, b + 1, Instr(OCapref, Nat(group)))
    case FileName => Is(prog, b, Instr(OGetfilename, Nat(0)))
    case Pattern(_, id) => Is(prog, b, Instr(OMatch, Nat(id)))
    case Otherwise => Is(prog, b, Instr(OOtherwise, Nil))
  }

  /** The program holds the code of `e` from `b` on. */
  predicate CodeAt(prog: seq<Instr>, b: nat, e: Expr)
    decreases e, 1
  {
    match e
    case Leaf(t) => TermAt(prog, b, t)
    case Use(lv, how) => PlaceAt(prog, b, lv, ODload) && Is(prog, b + PlaceSize(lv), AccessCode(how))
    case Unary(op, e1) => CodeAt(prog, b, e1) && Is(prog, b + Size(e1), UnCode(op))
    case Binary(op, l, r) =>
      && CodeAt(prog, b, l)
      && CodeAt(prog, b + Size(l), r)
      && Is(prog, b + Size(l) + Size(r), BinCode(op))
    case Compare(rel, left, l, r) =>
      && CodeAt(prog, b, l)
      && CodeAt(prog, b + Size(l), r)
      && CompareAt(prog, b + Size(l) + Size(r), rel, left)
    case Logic(conj, l, r) =>
      var exit := Instr(LogicJump(conj), Nat(b + Size(l) + Size(r) + 4));
      && CodeAt(prog, b, l)
      && Is(prog, b + Size(l), exit)
      && CodeAt(prog, b + Size(l) + 1, r)
      && Is(prog, b + Size(l) + 1 + Size(r), exit)
      && VerdictAt(prog, b + Size(l) + Size(r) + 2, conj)
    case StrMatch(e1, _, id, negated) =>
      && CodeAt(prog, b, e1)
      && Is(prog, b + Size(e1), Instr(OSmatch, Nat(id)))
      && (negated ==> Is(prog, b + Size(e1) + 1, Instr(ONot, Nil)))
    case Joined(lv, e1) =>
      && PlaceAt(prog, b, lv, ODload)
      && CodeAt(prog, b + PlaceSize(lv), e1)
      && Is(prog, b + PlaceSize(lv) + Size(e1), Instr(OCat, Nil))
  }

  /** Compare, then turn the answer into the truth of the relation. */
  predicate CompareAt(prog: seq<Instr>, n: nat, rel: Rel, left: Left) {
    && Is(prog, n, CmpCode(rel, left))
    && Is(prog, n + 1, Instr(RelJump(rel), Nat(n + 4)))
    && VerdictAt(prog, n + 2, true)
  }

  /** Keys, metric, then the instruction that consumes them. */
  predicate PlaceAt(prog: seq<Instr>, b: nat, lv: LValue, last: Opcode)
    decreases lv, 0
  {
    && ArgsAt(prog, b, lv.args)
    && Is(prog, b + ArgsSize(lv.args), Instr(OMload, Nat(lv.metric)))
    && Is(prog, b + ArgsSize(lv.args) + 1, Instr(last, Nat(|lv.args|)))
  }

  predicate ArgsAt(prog: seq<Instr>, b: nat, es: seq<Expr>)
    decreases es, 0
  {
    es != [] ==> CodeAt(prog, b, es[0]) && ArgsAt(prog, b + Size(es[0]), es[1..])
  }

  function StmtSize(st: Stmt): nat
    decreases st, 1
  {
    match st
    case ExprStmt(e) => Size(e)
    case Store(lv, e, _) => PlaceSize(lv) + Size(e) + 1
    case Cond(c, truth, els) => Size(c) + StmtSize(truth) + 3 + ElseSize(els)
    case Block(stmts) => BlockSize(stmts)
    case Instance(body) => StmtSize(body)
    case Stop => 1
    case Remove(lv, after) => PlaceSize(lv) + if after.Some? then 1 else 0
  }

  function ElseSize(els: Option<Stmt>): nat
    decreases els, 0
  {
    match els
    case None => 0
    case Some(e) => 1 + StmtSize(e)
  }

  function BlockSize(stmts: seq<Stmt>): nat
    decreases stmts, 0
  {
    if stmts == [] then 0 else StmtSize(stmts[0]) + BlockSize(stmts[1..])
  }

  /** The program holds the code of `st` from `b` on. */
  predicate StmtAt(prog: seq<Instr>, b: nat, st: Stmt)
    decreases st, 1
  {
    match st
    case ExprStmt(e) => CodeAt(prog, b, e)
    case Store(lv, e, how) =>
      && PlaceAt(prog, b, lv, ODload)
      && CodeAt(prog, b + PlaceSize(lv), e)
      && Is(prog, b + PlaceSize(lv) + Size(e), UpdateCode(how))
    case Cond(c, truth, els) =>
      var n := b + Size(c) + 3 + StmtSize(truth);
      && CodeAt(prog, b, c)
      && Is(prog, b + Size(c), Instr(OJnm, Nat(if els.None? then n else n + 1)))
      && Is(prog, b + Size(c) + 1, Instr(OSetmatched, Flag(false)))
      && StmtAt(prog, b + Size(c) + 2, truth)
      && Is(prog, n - 1, Instr(OSetmatched, Flag(true)))
      && ElseAt(prog, n, els)
    case Block(stmts) => BlockAt(prog, b, stmts)
    case Instance(body) => StmtAt(prog, b, body)
    case Stop => Is(prog, b, Instr(OStop, Nil))
    case Remove(lv, after) =>
      match after
      case None => PlaceAt(prog, b, lv, ODel)
      case Some(expiry) => Is(prog, b, Instr(OPush, DurationV(expiry))) && PlaceAt(prog, b + 1, lv, OExpire)
  }

  /** Skip over the else block, which follows. */
  predicate ElseAt(prog: seq<Instr>, b: nat, els: Option<Stmt>)
    decreases els, 0
  {
    match els
    case None => true
    case Some(e) => Is(prog, b, Instr(OJmp, Nat(b + 1 + StmtSize(e)))) && StmtAt(prog, b + 1, e)
  }

  predicate BlockAt(prog: seq<Instr>, b: nat, stmts: seq<Stmt>)
    decreases stmts, 0
  {
    stmts != [] ==> StmtAt(prog, b, stmts[0]) && BlockAt(prog, b + StmtSize(stmts[0]), stmts[1..])
  }

  /** The program is the code of `st` and nothing else. */
  predicate IsProgram(prog: seq<Instr>, st: Stmt) {
    |prog| == StmtSize(st) && StmtAt(prog, 0, st)
  }

  // ---- every jump goes forward ----

  /** A jump at `k` is resolved, goes strictly forward and at most to `end`. */
  predicate GoodJump(prog: seq<Instr>, k: nat, end: nat) {
    && k < |prog|
    && (IsJump(prog[k].op) ==> prog[k].arg.P? && prog[k].arg.p.NatV? && k < prog[k].arg.p.n <= end)
  }

  lemma {:induction false} CodeJumps(prog: seq<Instr>, b: nat, e: Expr, k: nat)
    requires CodeAt(prog, b, e) && b <= k < b + Size(e)
    ensures GoodJump(prog, k, b + Size(e))
    decreases e, 1
  {
    match e
    case Leaf(t) =>
    case Use(lv, how) => if k < b + PlaceSize(lv) { PlaceJumps(prog, b, lv, ODload, k); }
    case Unary(op, e1) => if k < b + Size(e1) { CodeJumps(prog, b, e1, k); }
    case Binary(_, _, _) => PairJumps(prog, b, e, k);
    case Compare(_, _, _, _) => PairJumps(prog, b, e, k);
    case Logic(_, _, _) => LogicJumps(prog, b, e, k);
    case StrMatch(e1, _, id, negated) => if k < b + Size(e1) { CodeJumps(prog, b, e1, k); }
    case Joined(_, _) => JoinedJumps(prog, b, e, k);
  }

  lemma {:induction false} PairJumps(prog: seq<Instr>, b: nat, e: Expr, k: nat)
    requires (e.Binary? || e.Compare?) && CodeAt(prog, b, e) && b <= k < b + Size(e)
    ensures GoodJump(prog, k, b + Size(e))
    decreases e, 0
  {
    if k < b + Size(e.l) {
      CodeJumps(prog, b, e.l, k);
    } else if k < b + Size(e.l) + Size(e.r) {
      CodeJumps(prog, b + Size(e.l), e.r, k);
    }
  }

  lemma {:induction false} JoinedJumps(prog: seq<Instr>, b: nat, e: Expr, k: nat)
    requires e.Joined? && CodeAt(prog, b, e) && b <= k < b + Size(e)
    ensures GoodJump(prog, k, b + Size(e))
    decreases e, 0
  {
    if k < b + PlaceSize(e.lv) {
      PlaceJumps(prog, b, e.lv, ODload, k);
    } else if k < b + PlaceSize(e.lv) + Size(e.e) {
      CodeJumps(prog, b + PlaceSize(e.lv), e.e, k);
    }
  }

  lemma {:induction false} LogicJumps(prog: seq<Instr>, b: nat, e: Expr, k: nat)
    requires e.Logic? && CodeAt(prog, b, e) && b <= k < b + Size(e)
    ensures GoodJump(prog, k, b + Size(e))
    decreases e, 0
  {
    if k < b + Size(e.l) {
      CodeJumps(prog, b, e.l, k);
    } else if b + Size(e.l) < k < b + Size(e.l) + 1 + Size(e.r) {
      CodeJumps(prog, b + Size(e.l) + 1, e.r, k);
    }
  }

  lemma {:induction false} PlaceJumps(prog: seq<Instr>, b: nat, lv: LValue, last: Opcode, k: nat)
    requires PlaceAt(prog, b, lv, last) && !IsJump(last) && b <= k < b + PlaceSize(lv)
    ensures GoodJump(prog, k, b + PlaceSize(lv))
    decreases lv, 0
  {
    if k < b + ArgsSize(lv.args) {
      ArgsJumps(prog, b, lv.args, k);
    }
  }

  lemma {:induction false} ArgsJumps(prog: seq<Instr>, b: nat, es: seq<Expr>, k: nat)
    requires ArgsAt(prog, b, es) && b <= k < b + ArgsSize(es)
    ensures GoodJump(prog, k, b + ArgsSize(es))
    decreases es, 0
  {
    if k < b + Size(es[0]) {
      CodeJumps(prog, b, es[0], k);
    } else {
      ArgsJumps(prog, b + Size(es[0]), es[1..], k);
    }
  }

  lemma {:induction false} StmtJumps(prog: seq<Instr>, b: nat, st: Stmt, k: nat)
    requires StmtAt(prog, b, st) && b <= k < b + StmtSize(st)
    ensures GoodJump(prog, k, b + StmtSize(st))
    decreases st, 1
  {
    match st
    case ExprStmt(e) => CodeJumps(prog, b, e, k);
    case Store(_, _, _) => StoreJumps(prog, b, st, k);
    case Cond(_, _, _) => CondJumps(prog, b, st, k);
    case Block(stmts) => BlockJumps(prog, b, stmts, k);
    case Instance(body) => StmtJumps(prog, b, body, k);
    case Stop =>
    case Remove(_, _) => RemoveJumps(prog, b, st, k);
  }

  lemma {:induction false} StoreJumps(prog: seq<Instr>, b: nat, st: Stmt, k: nat)
    requires st.Store? && StmtAt(prog, b, st) && b <= k < b + StmtSize(st)
    ensures GoodJump(prog, k, b + StmtSize(st))
    decreases st, 0
  {
    if k < b + PlaceSize(st.lv) {
      PlaceJumps(prog, b, st.lv, ODload, k);
    } else if k < b + PlaceSize(st.lv) + Size(st.e) {
      CodeJumps(prog, b + PlaceSize(st.lv), st.e, k);
    }
  }

  lemma {:induction false} RemoveJumps(prog: seq<Instr>, b: nat, st: Stmt, k: nat)
    requires st.Remove? && StmtAt(prog, b, st) && b <= k < b + StmtSize(st)
    ensures GoodJump(prog, k, b + StmtSize(st))
    decreases st, 0
  {
    if st.after.None? {
      PlaceJumps(prog, b, st.lv, ODel, k);
    } else if b < k {
      PlaceJumps(prog, b + 1, st.lv, OExpire, k);
    }
  }

  lemma {:induction false} CondJumps(prog: seq<Instr>, b: nat, st: Stmt, k: nat)
    requires st.Cond? && StmtAt(prog, b, st) && b <= k < b + StmtSize(st)
    ensures GoodJump(prog, k, b + StmtSize(st))
    decreases st, 0
  {
    var n := b + Size(st.c) + 3 + StmtSize(st.truth);
    if k < b + Size(st.c) {
      CodeJumps(prog, b, st.c, k);
    } else if b + Size(st.c) + 2 <= k < n - 1 {
      StmtJumps(prog, b + Size(st.c) + 2, st.truth, k);
    } else if n <= k {
      ElseJumps(prog, n, st.els, k);
    }
  }

  lemma {:induction false} ElseJumps(prog: seq<Instr>, b: nat, els: Option<Stmt>, k: nat)
    requires ElseAt(prog, b, els) && b <= k < b + ElseSize(els)
    ensures GoodJump(prog, k, b + ElseSize(els))
    decreases els, 0
  {
    if b < k {
      StmtJumps(prog, b + 1, els.value, k);
    }
  }

  lemma {:induction false} BlockJumps(prog: seq<Instr>, b: nat, stmts: seq<Stmt>, k: nat)
    requires BlockAt(prog, b, stmts) && b <= k < b + BlockSize(stmts)
    ensures GoodJump(prog, k, b + BlockSize(stmts))
    decreases stmts, 0
  {
    if k < b + StmtSize(stmts[0]) {
      StmtJumps(prog, b, stmts[0], k);
    } else {
      BlockJumps(prog, b + StmtSize(stmts[0]), stmts[1..], k);
    }
  }

  /** In every compiled program each jump is resolved, strictly forward and inside the program. */
  lemma ProgramForward(prog: seq<Instr>, st: Stmt)
    requires IsProgram(prog, st)
    ensures Forward(prog)
  {
    forall i | 0 <= i < |prog| && IsJump(prog[i].op)
      ensures prog[i].arg.P? && prog[i].arg.p.NatV? && i < prog[i].arg.p.n <= |prog|
    {
      StmtJumps(prog, 0, st, i);
    }
  }

  // ---- code depends on its own stretch of the program only ----

  predicate Agree(p: seq<Instr>, q: seq<Instr>, lo: nat, hi: nat) {
    hi <= |p| && hi <= |q| && forall k :: lo <= k < hi ==> p[k] == q[k]
  }

  lemma {:induction false} CodeLocal(p: seq<Instr>, q: seq<Instr>, b: nat, e: Expr)
    requires CodeAt(p, b, e) && Agree(p, q, b, b + Size(e))
    ensures CodeAt(q, b, e)
    decreases e, 1
  {
    hide TermAt;
    hide PlaceAt;
    hide CompareAt;
    hide VerdictAt;
    match e
    case Leaf(t) => TermLocal(p, q, b, t);
    case Use(_, _) => UseLocal(p, q, b, e);
    case Unary(op, e1) => CodeLocal(p, q, b, e1);
    case Binary(_, _, _) => BinaryLocal(p, q, b, e);
    case Compare(_, _, _, _) => CompareLocal(p, q, b, e);
    case Logic(_, _, _) => LogicLocal(p, q, b, e);
    case StrMatch(e1, _, _, _) => CodeLocal(p, q, b, e1);
    case Joined(_, _) => UseLocal(p, q, b, e);
  }

  lemma TermLocal(p: seq<Instr>, q: seq<Instr>, b: nat, t: Term)
    requires TermAt(p, b, t) && Agree(p, q, b, b + Size(Leaf(t)))
    ensures TermAt(q, b, t)
  {
  }

  lemma {:induction false} UseLocal(p: seq<Instr>, q: seq<Instr>, b: nat, e: Expr)
    requires (e.Use? || e.Joined?) && CodeAt(p, b, e) && Agree(p, q, b, b + Size(e))
    ensures CodeAt(q, b, e)
    decreases e, 0
  {
    hide PlaceAt;
    PlaceLocal(p, q, b, e.lv, ODload);
    if e.Joined? {
      CodeLocal(p, q, b + PlaceSize(e.lv), e.e);
    }
  }

  lemma {:induction false} BinaryLocal(p: seq<Instr>, q: seq<Instr>, b: nat, e: Expr)
    requires e.Binary? && CodeAt(p, b, e) && Agree(p, q, b, b + Size(e))
    ensures CodeAt(q, b, e)
    decreases e, 0
  {
    CodeLocal(p, q, b, e.l);
    CodeLocal(p, q, b + Size(e.l), e.r);
  }

  lemma CompareTailLocal(p: seq<Instr>, q: seq<Instr>, n: nat, rel: Rel, left: Left)
    requires CompareAt(p, n, rel, left) && Agree(p, q, n, n + 5)
    ensures CompareAt(q, n, rel, left)
  {
  }

  lemma {:induction false} CompareLocal(p: seq<Instr>, q: seq<Instr>, b: nat, e: Expr)
    requires e.Compare? && CodeAt(p, b, e) && Agree(p, q, b, b + Size(e))
    ensures CodeAt(q, b, e)
    decreases e, 0
  {
    hide CompareAt;
    CompareTailLocal(p, q, b + Size(e.l) + Size(e.r), e.rel, e.left);
    CodeLocal(p, q, b, e.l);
    CodeLocal(p, q, b + Size(e.l), e.r);
  }

  lemma {:induction false} LogicLocal(p: seq<Instr>, q: seq<Instr>, b: nat, e: Expr)
    requires e.Logic? && CodeAt(p, b, e) && Agree(p, q, b, b + Size(e))
    ensures CodeAt(q, b, e)
    decreases e, 0
  {
    CodeLocal(p, q, b, e.l);
    CodeLocal(p, q, b + Size(e.l) + 1, e.r);
  }

  lemma {:induction false} PlaceLocal(p: seq<Instr>, q: seq<Instr>, b: nat, lv: LValue, last: Opcode)
    requires PlaceAt(p, b, lv, last) && Agree(p, q, b, b + PlaceSize(lv))
    ensures PlaceAt(q, b, lv, last)
    decreases lv, 0
  {
    ArgsLocal(p, q, b, lv.args);
  }

  lemma {:induction false} ArgsLocal(p: seq<Instr>, q: seq<Instr>, b: nat, es: seq<Expr>)
    requires ArgsAt(p, b, es) && Agree(p, q, b, b + ArgsSize(es))
    ensures ArgsAt(q, b, es)
    decreases es, 0
  {
    if es != [] {
      CodeLocal(p, q, b, es[0]);
      ArgsLocal(p, q, b + Size(es[0]), es[1..]);
    }
  }

  lemma {:induction false} StmtLocal(p: seq<Instr>, q: seq<Instr>, b: nat, st: Stmt)
    requires StmtAt(p, b, st) && Agree(p, q, b, b + StmtSize(st))
    ensures StmtAt(q, b, st)
    decreases st, 2
  {
    hide CodeAt;
    hide Size;
    hide ArgsSize;
    match st
    case ExprStmt(e) => CodeLocal(p, q, b, e);
    case Store(lv, e, _) => PlaceLocal(p, q, b, lv, ODload); CodeLocal(p, q, b + PlaceSize(lv), e);
    case Cond(_, _, _) => CondLocal(p, q, b, st);
    case Block(stmts) => BlockLocal(p, q, b, stmts);
    case Instance(body) => StmtLocal(p, q, b, body);
    case Stop =>
    case Remove(lv, after) =>
      if after.None? {
        PlaceLocal(p, q, b, lv, ODel);
      } else {
        PlaceLocal(p, q, b + 1, lv, OExpire);
      }
  }

  lemma {:induction false} CondLocal(p: seq<Instr>, q: seq<Instr>, b: nat, st: Stmt)
    requires st.Cond? && StmtAt(p, b, st) && Agree(p, q, b, b + StmtSize(st))
    ensures StmtAt(q, b, st)
    decreases st, 1
  {
    var t := b + Size(st.c);
    var n := t + 3 + StmtSize(st.truth);
    var end := n + ElseSize(st.els);
    assert end == b + StmtSize(st);
    CondAt(p, b, st, t, n);
    CondAt(q, b, st, t, n);
    hide StmtAt;
    hide ElseAt;
    hide CodeAt;
    hide Size;
    hide StmtSize;
    hide ElseSize;
    CondCopies(p, q, b, st, t, n, end);
  }

  lemma {:induction false} CondCopies(p: seq<Instr>, q: seq<Instr>, b: nat, st: Stmt, t: nat, n: nat, end: nat)
    requires st.Cond? && t == b + Size(st.c) && n == t + 3 + StmtSize(st.truth) && end == n + ElseSize(st.els)
    requires CodeAt(p, b, st.c) && StmtAt(p, t + 2, st.truth) && ElseAt(p, n, st.els) && Agree(p, q, b, end)
    ensures CodeAt(q, b, st.c) && StmtAt(q, t + 2, st.truth) && ElseAt(q, n, st.els)
    ensures n <= |p| && n <= |q| && p[t] == q[t] && p[t + 1] == q[t + 1] && p[n - 1] == q[n - 1]
    decreases st, 0
  {
    AgreeWithin(p, q, b, end, b, t);
    AgreeWithin(p, q, b, end, t + 2, n - 1);
    AgreeWithin(p, q, b, end, n, end);
    assert p[t] == q[t] && p[t + 1] == q[t + 1] && p[n - 1] == q[n - 1];
    hide Agree;
    hide StmtAt;
    hide ElseAt;
    hide CodeAt;
    CodeLocal(p, q, b, st.c);
    StmtLocal(p, q, t + 2, st.truth);
    ElseLocal(p, q, n, st.els);
  }

  /** A conditional's code, by the positions of its parts. */
  lemma CondAt(p: seq<Instr>, b: nat, st: Stmt, t: nat, n: nat)
    requires st.Cond? && t == b + Size(st.c) && n == t + 3 + StmtSize(st.truth)
    ensures StmtAt(p, b, st) <==>
            && CodeAt(p, b, st.c)
            && Is(p, t, Instr(OJnm, Nat(if st.els.None? then n else n + 1)))
            && Is(p, t + 1, Instr(OSetmatched, Flag(false)))
            && StmtAt(p, t + 2, st.truth)
            && Is(p, n - 1, Instr(OSetmatched, Flag(true)))
            && ElseAt(p, n, st.els)
  {
  }

  lemma AgreeWithin(p: seq<Instr>, q: seq<Instr>, lo: nat, hi: nat, lo': nat, hi': nat)
    requires Agree(p, q, lo, hi) && lo <= lo' && hi' <= hi
    ensures Agree(p, q, lo', hi')
  {
  }

  lemma {:induction false} ElseLocal(p: seq<Instr>, q: seq<Instr>, b: nat, els: Option<Stmt>)
    requires ElseAt(p, b, els) && Agree(p, q, b, b + ElseSize(els))
    ensures ElseAt(q, b, els)
    decreases els, 0
  {
    if els.Some? {
      StmtLocal(p, q, b + 1, els.value);
    }
  }

  lemma {:induction false} BlockLocal(p: seq<Instr>, q: seq<Instr>, b: nat, stmts: seq<Stmt>)
    requires BlockAt(p, b, stmts) && Agree(p, q, b, b + BlockSize(stmts))
    ensures BlockAt(q, b, stmts)
    decreases stmts, 0
  {
    if stmts != [] {
      StmtLocal(p, q, b, stmts[0]);
      BlockLocal(p, q, b + StmtSize(stmts[0]), stmts[1..]);
    }
  }

  // The same, for a piece of a larger stretch on which the programs agree.

  lemma CodeKept(p: seq<Instr>, q: seq<Instr>, lo: nat, hi: nat, b: nat, e: Expr)
    requires CodeAt(p, b, e) && Agree(p, q, lo, hi) && lo <= b && b + Size(e) <= hi
    ensures CodeAt(q, b, e)
  {
    CodeLocal(p, q, b, e);
  }

  lemma StmtKept(p: seq<Instr>, q: seq<Instr>, lo: nat, hi: nat, b: nat, st: Stmt)
    requires StmtAt(p, b, st) && Agree(p, q, lo, hi) && lo <= b && b + StmtSize(st) <= hi
    ensures StmtAt(q, b, st)
  {
    StmtLocal(p, q, b, st);
  }
}

/**
 The code generator of `internal/vm/codegen/codegen.go`: one walk that appends
 instructions whose jumps name labels, then a pass that writes the labels'
 offsets into the jumps.
 */
module CodeGen {
  import opened Common
  import opened Syntax
  import opened Machine
  import opened Compile
  import opened Decorators

  // ---- jumps before and after patching ----

  predicate IsLabel(a: Any, lo: nat, hi: nat) { a.P? && a.p.NatV? && lo <= a.p.n < hi }

  /** A jump with its label's offset written in. */
  function Patched(i: Instr, labels: seq<int>): Instr {
    if IsJump(i.op) && IsLabel(i.arg, 0, |labels|) then Instr(i.op, Nat(labels[i.arg.p.n])) else i
  }

  function PatchAll(p: seq<Instr>, labels: seq<int>): (r: seq<Instr>)
    ensures |r| == |p| && forall k :: 0 <= k < |p| ==> r[k] == Patched(p[k], labels)
  {
    seq(|p|, k requires 0 <= k < |p| => Patched(p[k], labels))
  }

  /** Only appended to; the new jumps use the new labels, all of them set. */
  predicate Grew(p0: seq<Instr>, l0: seq<int>, p: seq<Instr>, l: seq<int>) {
    && p0 <= p
    && l0 <= l
    && (forall i :: |p0| <= i < |p| && IsJump(p[i].op) ==> IsLabel(p[i].arg, |l0|, |l|))
    && (forall x :: |l0| <= x < |l| ==> l[x] >= 0)
  }

  /** Later emission leaves the patched form of a finished stretch alone. */
  lemma Settled(p: seq<Instr>, l: seq<int>, p': seq<Instr>, l': seq<int>, lo: nat, b: nat)
    requires p <= p' && |l| <= |l'| && b <= |p|
    requires forall i :: b <= i < |p| && IsJump(p[i].op) ==> IsLabel(p[i].arg, lo, |l|)
    requires forall x :: lo <= x < |l| ==> l'[x] == l[x]
    ensures Agree(PatchAll(p, l), PatchAll(p', l'), b, |p|)
  {
  }

  lemma GrewThen(p0: seq<Instr>, l0: seq<int>, p1: seq<Instr>, l1: seq<int>, p2: seq<Instr>, l2: seq<int>)
    requires Grew(p0, l0, p1, l1) && Grew(p1, l1, p2, l2)
    ensures Grew(p0, l0, p2, l2)
    ensures Agree(PatchAll(p1, l1), PatchAll(p2, l2), |p0|, |p1|)
  {
    Settled(p1, l1, p2, l2, |l0|, |p0|);
    forall i | |p0| <= i < |p2| && IsJump(p2[i].op)
      ensures IsLabel(p2[i].arg, |l0|, |l2|)
    {
      if i < |p1| {
        assert p2[i] == p1[i];
      }
    }
  }

  lemma GrewLengths(p0: seq<Instr>, l0: seq<int>, p: seq<Instr>, l: seq<int>)
    requires Grew(p0, l0, p, l)
    ensures |p0| <= |p| && |l0| <= |l|
  {
  }

  /** One instruction that is not a jump. */
  lemma OneMore(p: seq<Instr>, l: seq<int>, i: Instr)
    requires !IsJump(i.op)
    ensures Grew(p, l, p + [i], l) && Is(PatchAll(p + [i], l), |p|, i)
  {
  }

  // ---- the stack of decorated blocks ----

  /** A block waiting for the `next` of the decorator applied to it. */
  datatype Frame = Frame(block: Src, lim: nat)

  predicate FramesOk(decls: seq<Src>, st: seq<Frame>) {
    forall i :: 0 <= i < |st| ==> st[i].lim <= |decls| && Uses(st[i].block, st[i].lim) && Nexts(st[i].block) <= 1
  }

  function TopFrame(st: seq<Frame>): Frame requires st != [] { st[|st| - 1] }
  function Popped(st: seq<Frame>): seq<Frame> requires st != [] { st[..|st| - 1] }

  /** What the innermost pending `next` stands for. */
  function Pending(decls: seq<Src>, st: seq<Frame>): Stmt
    requires Checked(decls) && FramesOk(decls, st)
    decreases |st|
  {
    if st == [] then Block([])
    else Expand(decls, TopFrame(st).block, TopFrame(st).lim, Pending(decls, Popped(st)))
  }

  /** A `next` here finds its block, and so does a `next` in that block, and so on. */
  predicate CanUnwind(st: seq<Frame>)
    decreases |st|
  {
    st != [] && (Nexts(TopFrame(st).block) > 0 ==> CanUnwind(Popped(st)))
  }

  /** The stack after a `next`: its frame is gone, and those its block's own `next` used. */
  function Unwind(st: seq<Frame>): seq<Frame>
    requires CanUnwind(st)
    decreases |st|
  {
    if Nexts(TopFrame(st).block) == 0 then Popped(st) else Unwind(Popped(st))
  }

  /** The stack after walking code with `n` nexts of its own. */
  function After(st: seq<Frame>, n: nat): seq<Frame>
    requires n > 0 ==> CanUnwind(st)
  {
    if n == 0 then st else Unwind(st)
  }

  lemma {:induction false} UnwindOk(decls: seq<Src>, st: seq<Frame>)
    requires FramesOk(decls, st) && CanUnwind(st)
    ensures FramesOk(decls, Unwind(st))
    decreases |st|
  {
    if Nexts(TopFrame(st).block) > 0 {
      UnwindOk(decls, Popped(st));
    }
  }

  /** How many of the patterns the regular expression library refuses. */
  function CountBroken(broken: set<string>, regexps: seq<string>): nat {
    if regexps == [] then 0
    else CountBroken(broken, regexps[..|regexps| - 1]) + if regexps[|regexps| - 1] in broken then 1 else 0
  }

  lemma {:induction false} CountBrokenNone(broken: set<string>, regexps: seq<string>)
    ensures CountBroken(broken, regexps) == 0 <==> forall i :: 0 <= i < |regexps| ==> regexps[i] !in broken
    decreases |regexps|
  {
    if regexps != [] {
      CountBrokenNone(broken, regexps[..|regexps| - 1]);
    }
  }

  class Generator {
    const decls: seq<Src>
    /** The patterns that do not compile. */
    const broken: set<string>

    var program: seq<Instr>
    var labels: seq<int>
    var decos: seq<Frame>
    var regexps: seq<string>
    var strings: seq<string>
    var index: map<nat, nat>
    var errors: nat

    /** Errors beyond those of broken patterns: none, until jumps are written. */
    ghost function Excess(): int reads this { errors - CountBroken(broken, regexps) }

    ghost function Tabs(): Tables reads this { Tables(regexps, strings, index) }

    /** The program as it will read once patched. */
    ghost function View(): seq<Instr> reads this { PatchAll(program, labels) }

    constructor (decls: seq<Src>, broken: set<string>)
      ensures this.decls == decls && this.broken == broken && program == [] && labels == [] && decos == [] && errors == 0
      ensures Tabs() == FRESH
    {
      this.decls, this.broken := decls, broken;
      program, labels, decos, errors := [], [], [], 0;
      regexps, strings, index := [], [], map[];
    }

    method Emit(op: Opcode, arg: Any)
      modifies this`program
      ensures program == old(program) + [Instr(op, arg)]
    {
      program := program + [Instr(op, arg)];
    }

    method NewLabel() returns (l: nat)
      modifies this`labels
      ensures l == |old(labels)| && labels == old(labels) + [-1]
    {
      l := |labels|;
      labels := labels + [-1];
    }

    /** Point a label at the next instruction. */
    method SetLabel(l: nat)
      requires l < |labels|
      modifies this`labels
      ensures labels == old(labels)[l := |program|]
    {
      labels := labels[l := |program|];
    }

    /**
     A broken pattern is an error.  Its instruction is emitted all the same:
     once there are errors no object is handed out, so it is never seen.
     */
    method WalkPattern(re: string, id: nat)
      modifies this`program, this`regexps, this`index, this`errors
      ensures Excess() == old(Excess())
      ensures Tabs() == Decorators.Emit(old(Tabs()), re, id)
      ensures program == old(program) + [Instr(OMatch, Nat(|old(regexps)|))]
    {
      if re in broken {
        errors := errors + 1;
      }
      assert (regexps + [re])[..|regexps|] == regexps;
      regexps := regexps + [re];
      index := index[id := |regexps| - 1];
      Emit(OMatch, Nat(index[id]));
    }

    method WalkTerm(t: Term)
      modifies this`program, this`regexps, this`strings, this`index, this`errors
      ensures Excess() == old(Excess())
      ensures Grew(old(program), labels, program, labels)
      ensures var r := NumTerm(t, old(Tabs()));
              Tabs() == r.g && |program| == |old(program)| + Size(Leaf(r.v)) && TermAt(View(), |old(program)|, r.v)
    {
      match t
      case IntLit(i) => Emit(OPush, P(IntV(i)));
      case StrLit(text, _) =>
        strings := strings + [text];
        Emit(OStr, Nat(|strings| - 1));
      case Capref(pat, group) =>
        Emit(OPush, Nat(if pat in index then index[pat] else 0));
        Emit(OCapref, Nat(group));
      case FileName => Emit(OGetfilename, Nat(0));
      case Pattern(re, id) => WalkPattern(re, id);
      case Otherwise => Emit(OOtherwise, Nil);
    }

    // What walking a node from program `p0` and labels `l0` must have appended.

    ghost predicate MadeExpr(p0: seq<Instr>, l0: seq<int>, e: Expr) reads this {
      Grew(p0, l0, program, labels) && |program| == |p0| + Size(e) && CodeAt(View(), |p0|, e)
    }

    ghost predicate MadePlace(p0: seq<Instr>, l0: seq<int>, lv: LValue, last: Opcode) reads this {
      Grew(p0, l0, program, labels) && |program| == |p0| + PlaceSize(lv) && PlaceAt(View(), |p0|, lv, last)
    }

    ghost predicate MadeArgs(p0: seq<Instr>, l0: seq<int>, es: seq<Expr>) reads this {
      Grew(p0, l0, program, labels) && |program| == |p0| + ArgsSize(es) && ArgsAt(View(), |p0|, es)
    }

    method WalkExpr(e: Expr)
      modifies this
      ensures decos == old(decos) && Excess() == old(Excess())
      ensures var r := NumExpr(e, old(Tabs()));
              Tabs() == r.g && MadeExpr(old(program), old(labels), r.v)
      decreases e, 2
    {
      match e
      case Leaf(t) => WalkTerm(t);
      case Use(_, _) => WalkUse(e);
      case Unary(_, _) => WalkUnary(e);
      case Binary(_, _, _) => WalkBinary(e);
      case Compare(_, _, _, _) => WalkCompare(e);
      case Logic(_, _, _) => WalkLogic(e);
      case StrMatch(_, _, _, _) => WalkStrMatch(e);
      case Joined(_, _) => WalkJoined(e);
    }

    method WalkUse(e: Expr)
      requires e.Use?
      modifies this
      ensures decos == old(decos) && Excess() == old(Excess())
      ensures var r := NumExpr(e, old(Tabs()));
              Tabs() == r.g && MadeExpr(old(program), old(labels), r.v)
      decreases e, 1
    {
      hide PlaceAt;
      hide PlaceSize;
      hide Grew;
      hide PatchAll;
      ghost var p0, l0, g0 := program, labels, Tabs();
      WalkPlace(e.lv);
      ghost var p1, l1 := program, labels;
      Emit(AccessCode(e.how).op, AccessCode(e.how).arg);
      OneMore(p1, labels, AccessCode(e.how));
      GrewThen(p0, l0, p1, l1, program, labels);
      PlaceLocal(PatchAll(p1, l1), View(), |p0|, NumPlace(e.lv, g0).v, ODload);
    }

    method WalkUnary(e: Expr)
      requires e.Unary?
      modifies this
      ensures decos == old(decos) && Excess() == old(Excess())
      ensures var r := NumExpr(e, old(Tabs()));
              Tabs() == r.g && MadeExpr(old(program), old(labels), r.v)
      decreases e, 1
    {
      hide CodeAt;
      hide Size;
      hide Grew;
      hide PatchAll;
      hide Agree;
      ghost var p0, l0, g0 := program, labels, Tabs();
      WalkExpr(e.e);
      ghost var p1, l1 := program, labels;
      Emit(UnCode(e.uop).op, UnCode(e.uop).arg);
      OneMore(p1, labels, UnCode(e.uop));
      GrewThen(p0, l0, p1, l1, program, labels);
      CodeKept(PatchAll(p1, l1), View(), |p0|, |p1|, |p0|, NumExpr(e.e, g0).v);
      UnaryAssembled(View(), |p0|, e.uop, NumExpr(e.e, g0).v);
    }

    /** Left operand, right operand. */
    method WalkPair(e: Expr)
      requires e.Binary? || e.Compare?
      modifies this
      ensures decos == old(decos) && Excess() == old(Excess())
      ensures var a := NumExpr(e.l, old(Tabs()));
              var b := NumExpr(e.r, a.g);
              && Tabs() == b.g
              && Grew(old(program), old(labels), program, labels)
              && |program| == |old(program)| + Size(a.v) + Size(b.v)
              && CodeAt(View(), |old(program)|, a.v)
              && CodeAt(View(), |old(program)| + Size(a.v), b.v)
      decreases e, 0
    {
      hide CodeAt;
      hide Size;
      hide Grew;
      hide PatchAll;
      hide Agree;
      ghost var p0, l0, g0 := program, labels, Tabs();
      WalkExpr(e.l);
      ghost var p1, l1, v1 := program, labels, View();
      WalkExpr(e.r);
      GrewThen(p0, l0, p1, l1, program, labels);
      CodeKept(v1, View(), |p0|, |p1|, |p0|, NumExpr(e.l, g0).v);
    }

    method WalkBinary(e: Expr)
      requires e.Binary?
      modifies this
      ensures decos == old(decos) && Excess() == old(Excess())
      ensures var r := NumExpr(e, old(Tabs()));
              Tabs() == r.g && MadeExpr(old(program), old(labels), r.v)
      decreases e, 1
    {
      hide CodeAt;
      hide Size;
      hide Grew;
      hide PatchAll;
      ghost var p0, l0, g0 := program, labels, Tabs();
      WalkPair(e);
      ghost var p1, l1 := program, labels;
      Emit(BinCode(e.bop).op, BinCode(e.bop).arg);
      ghost var a := NumExpr(e.l, g0);
      ghost var b := NumExpr(e.r, a.g);
      OneMore(p1, l1, BinCode(e.bop));
      PairMade(p0, l0, p1, l1, program, labels, a.v, b.v);
      BinaryAssembled(View(), |p0|, e.bop, a.v, b.v);
    }

    /** The comparison, its jump, and the two constants it chooses between. */
    method WalkCompare(e: Expr)
      requires e.Compare?
      modifies this
      ensures decos == old(decos) && Excess() == old(Excess())
      ensures var r := NumExpr(e, old(Tabs()));
              Tabs() == r.g && MadeExpr(old(program), old(labels), r.v)
      decreases e, 1
    {
      hide CodeAt;
      hide Size;
      hide CompareAt;
      hide Grew;
      hide PatchAll;
      ghost var p0, l0, g0 := program, labels, Tabs();
      WalkPair(e);
      ghost var p1, l1 := program, labels;
      CompareTail(e.rel, e.left);
      ghost var a := NumExpr(e.l, g0);
      ghost var b := NumExpr(e.r, a.g);
      PairMade(p0, l0, p1, l1, program, labels, a.v, b.v);
      CompareAssembled(View(), |p0|, e.rel, e.left, a.v, b.v);
    }

    method CompareTail(rel: Rel, left: Left)
      modifies this`program, this`labels
      ensures Grew(old(program), old(labels), program, labels)
      ensures |program| == |old(program)| + 5 && CompareAt(View(), |old(program)|, rel, left)
    {
      var fail := NewLabel();
      var end := NewLabel();
      Emit(CmpCode(rel, left).op, CmpCode(rel, left).arg);
      Emit(RelJump(rel), Nat(fail));
      Emit(OPush, Flag(true));
      Emit(OJmp, Nat(end));
      SetLabel(fail);
      Emit(OPush, Flag(false));
      SetLabel(end);
    }

    /** Both operands may leave to the settled answer. */
    method WalkLogic(e: Expr)
      requires e.Logic?
      modifies this
      ensures decos == old(decos) && Excess() == old(Excess())
      ensures var r := NumExpr(e, old(Tabs()));
              Tabs() == r.g && MadeExpr(old(program), old(labels), r.v)
      decreases e, 1
    {
      hide CountBroken;
      hide CodeAt;
      hide Size;
      hide Grew;
      hide PatchAll;
      ghost var p0, l0, g0 := program, labels, Tabs();
      var settled := NewLabel();
      var end := NewLabel();
      WalkExpr(e.l);
      ghost var p2, l2 := program, labels;
      Emit(LogicJump(e.conj), Nat(settled));
      WalkExpr(e.r);
      ghost var p4, l4 := program, labels;
      GrewLengths(p0, l0 + [-1] + [-1], p2, l2);
      GrewLengths(p2 + [Instr(LogicJump(e.conj), Nat(settled))], l2, p4, l4);
      LogicTail(e.conj, settled, end);
      ghost var a := NumExpr(e.l, g0);
      LogicMade(e.conj, p0, l0, p2, l2, p4, l4, program, labels, a.v, NumExpr(e.r, a.g).v);
    }

    method LogicTail(conj: bool, settled: nat, end: nat)
      requires settled < end < |labels|
      modifies this`program, this`labels
      ensures program == old(program) + [Instr(LogicJump(conj), Nat(settled)), Instr(OPush, Flag(conj)),
                                         Instr(OJmp, Nat(end)), Instr(OPush, Flag(!conj))]
      ensures labels == old(labels)[settled := |program| - 1][end := |program|]
    {
      Emit(LogicJump(conj), Nat(settled));
      Emit(OPush, Flag(conj));
      Emit(OJmp, Nat(end));
      SetLabel(settled);
      Emit(OPush, Flag(!conj));
      SetLabel(end);
    }

    method WalkStrMatch(e: Expr)
      requires e.StrMatch?
      modifies this
      ensures decos == old(decos) && Excess() == old(Excess())
      ensures var r := NumExpr(e, old(Tabs()));
              Tabs() == r.g && MadeExpr(old(program), old(labels), r.v)
      decreases e, 1
    {
      hide CodeAt;
      hide Size;
      hide Grew;
      hide PatchAll;
      ghost var p0, l0, g0 := program, labels, Tabs();
      WalkExpr(e.e);
      ghost var p1, l1 := program, labels;
      ghost var id := |regexps|;
      WalkMatch(e.re, e.id, e.negated);
      StrMatchMade(p0, l0, p1, l1, program, labels, NumExpr(e.e, g0).v, e.re, id, e.negated);
    }

    /** The place once more, the value, and their concatenation. */
    method WalkJoined(e: Expr)
      requires e.Joined?
      modifies this
      ensures decos == old(decos) && Excess() == old(Excess())
      ensures var r := NumExpr(e, old(Tabs()));
              Tabs() == r.g && MadeExpr(old(program), old(labels), r.v)
      decreases e, 1
    {
      hide CodeAt;
      hide PlaceAt;
      hide Size;
      hide PlaceSize;
      hide Grew;
      hide PatchAll;
      ghost var p0, l0, g0 := program, labels, Tabs();
      WalkPlace(e.lv);
      ghost var p1, l1 := program, labels;
      WalkExpr(e.e);
      ghost var p2 := program;
      Emit(OCat, Nil);
      OneMore(p2, labels, Instr(OCat, Nil));
      ghost var a := NumPlace(e.lv, g0);
      JoinedMade(p0, l0, p1, l1, p2, program, labels, a.v, NumExpr(e.e, a.g).v);
    }

    /** A pattern whose match becomes a match against the top of the stack. */
    method WalkMatch(re: string, id: nat, negated: bool)
      modifies this`program, this`regexps, this`index, this`errors
      ensures Excess() == old(Excess())
      ensures Tabs() == Decorators.Emit(old(Tabs()), re, id)
      ensures program == old(program) + [Instr(OSmatch, Nat(|old(regexps)|))] + if negated then [Instr(ONot, Nil)] else []
    {
      WalkPattern(re, id);
      program := program[|program| - 1 := program[|program| - 1].(op := OSmatch)];
      assert program == old(program) + [program[|program| - 1]];
      if negated {
        Emit(ONot, Nil);
      }
    }

    /** Index expressions left to right, then the metric. */
    method WalkPlace(lv: LValue)
      modifies this
      ensures decos == old(decos) && Excess() == old(Excess())
      ensures var r := NumPlace(lv, old(Tabs()));
              Tabs() == r.g && MadePlace(old(program), old(labels), r.v, ODload)
      decreases lv, 1
    {
      ghost var p0, l0, g0 := program, labels, Tabs();
      WalkArgs(lv.args);
      ghost var p1, v1 := program, View();
      Emit(OMload, Nat(lv.metric));
      Emit(ODload, Nat(|lv.args|));
      GrewThen(p0, l0, p1, labels, program, labels);
      ArgsLocal(v1, View(), |p0|, NumArgs(lv.args, g0).v);
    }

    method WalkArgs(es: seq<Expr>)
      modifies this
      ensures decos == old(decos) && Excess() == old(Excess())
      ensures var r := NumArgs(es, old(Tabs()));
              Tabs() == r.g && MadeArgs(old(program), old(labels), r.v)
      decreases es, 0
    {
      hide CodeAt;
      hide ArgsAt;
      hide Size;
      hide ArgsSize;
      hide Grew;
      hide PatchAll;
      ghost var p0, l0, g0 := program, labels, Tabs();
      NoArgsMade(p0, l0);
      for i := 0 to |es|
        invariant decos == old(decos) && Excess() == old(Excess())
        invariant Tabs() == NumArgs(es[..i], g0).g && MadeArgs(p0, l0, NumArgs(es[..i], g0).v)
      {
        ghost var p1, l1, done := program, labels, NumArgs(es[..i], g0);
        WalkExpr(es[i]);
        ArgsMade(p0, l0, p1, l1, program, labels, done.v, NumExpr(es[i], done.g).v);
        NumArgsSnoc(es[..i], es[i], g0);
        assert es[..i + 1] == es[..i] + [es[i]];
      }
      assert es[..|es|] == es;
    }

    // ---- statements ----

    ghost predicate MadeStmt(p0: seq<Instr>, l0: seq<int>, st: Stmt) reads this {
      Grew(p0, l0, program, labels) && |program| == |p0| + StmtSize(st) && StmtAt(View(), |p0|, st)
    }

    ghost predicate MadeBlock(p0: seq<Instr>, l0: seq<int>, stmts: seq<Stmt>) reads this {
      Grew(p0, l0, program, labels) && |program| == |p0| + BlockSize(stmts) && BlockAt(View(), |p0|, stmts)
    }

    /** The walk may meet `s` here: decorators it applies are declared, and a `next` in it finds its block. */
    ghost predicate Walkable(s: Src, lim: nat) reads this {
      && Checked(decls) && lim <= |decls| && Uses(s, lim)
      && FramesOk(decls, decos) && Nexts(s) <= 1 && (Nexts(s) > 0 ==> CanUnwind(decos))
    }

    /** `s` with every decorator inlined, given the blocks now pending. */
    ghost function Inlined(s: Src, lim: nat): Stmt
      requires Walkable(s, lim)
      reads this
    {
      Expand(decls, s, lim, Pending(decls, decos))
    }

    /**
     Walking a statement appends exactly the code of its inlined form, and
     pops exactly the frames its `next` uses.
     */
    method WalkStmt(s: Src, lim: nat)
      requires Walkable(s, lim)
      modifies this
      ensures decos == old(After(decos, Nexts(s))) && Excess() == old(Excess())
      ensures var r := old(NumStmt(Inlined(s, lim), Tabs(), false));
              Tabs() == r.g && MadeStmt(old(program), old(labels), r.v)
      decreases Inlined(s, lim), 1, 0
    {
      hide CodeAt;
      hide PlaceAt;
      hide Size;
      hide Grew;
      hide PatchAll;
      match s
      case SExpr(e) => WalkExpr(e);
      case SStore(lv, e, how) => WalkStore(lv, e, how);
      case SCond(_, _, _) => WalkCond(s, lim);
      case SBlock(stmts) => WalkBlock(stmts, lim);
      case SStop =>
        OneMore(program, labels, Instr(OStop, Nil));
        Emit(OStop, Nil);
      case SRemove(lv, after) => WalkRemove(lv, after);
      case SDeco(_, _) => WalkDeco(s, lim);
      case SNext => WalkNext(lim);
    }

    /** The block of an application waits for the `next` of its decorator. */
    method WalkDeco(s: Src, lim: nat)
      requires s.SDeco? && Walkable(s, lim)
      modifies this
      ensures decos == old(After(decos, Nexts(s))) && Excess() == old(Excess())
      ensures var r := old(NumStmt(Inlined(s, lim), Tabs(), false));
              Tabs() == r.g && MadeStmt(old(program), old(labels), r.v)
      decreases Inlined(s, lim), 0, 0
    {
      hide CodeAt;
      hide PlaceAt;
      hide Size;
      hide Grew;
      hide PatchAll;
      ghost var before := decos;
      decos := decos + [Frame(s.block, lim)];
      assert Popped(decos) == before && TopFrame(decos) == Frame(s.block, lim);
      WalkStmt(decls[s.decl], s.decl);
    }

    /** The innermost waiting block is walked in place of the `next`. */
    method WalkNext(lim: nat)
      requires Walkable(SNext, lim)
      modifies this
      ensures decos == old(After(decos, 1)) && Excess() == old(Excess())
      ensures var r := old(NumStmt(Inlined(SNext, lim), Tabs(), false));
              Tabs() == r.g && MadeStmt(old(program), old(labels), r.v)
      decreases Inlined(SNext, lim), 0, 0
    {
      hide CodeAt;
      hide PlaceAt;
      hide Size;
      hide Grew;
      hide PatchAll;
      var top := decos[|decos| - 1];
      decos := decos[..|decos| - 1];
      WalkStmt(top.block, top.lim);
    }

    method WalkStore(lv: LValue, e: Expr, how: Update)
      modifies this
      ensures decos == old(decos) && Excess() == old(Excess())
      ensures var r := NumStmt(Store(lv, e, how), old(Tabs()), false);
              Tabs() == r.g && MadeStmt(old(program), old(labels), r.v)
    {
      hide CodeAt;
      hide PlaceAt;
      hide Size;
      hide PlaceSize;
      hide Grew;
      hide PatchAll;
      ghost var p0, l0, g0 := program, labels, Tabs();
      WalkPlace(lv);
      ghost var p1, l1 := program, labels;
      WalkExpr(e);
      ghost var p2 := program;
      Emit(UpdateCode(how).op, UpdateCode(how).arg);
      OneMore(p2, labels, UpdateCode(how));
      ghost var a := NumPlace(lv, g0);
      StoreMade(p0, l0, p1, l1, p2, program, labels, a.v, NumExpr(e, a.g).v, how);
    }

    method WalkRemove(lv: LValue, after: Option<int>)
      modifies this
      ensures decos == old(decos) && Excess() == old(Excess())
      ensures var r := NumStmt(Remove(lv, after), old(Tabs()), false);
              Tabs() == r.g && MadeStmt(old(program), old(labels), r.v)
    {
      ghost var p0, l0, g0 := program, labels, Tabs();
      if after.Some? {
        OneMore(program, labels, Instr(OPush, DurationV(after.value)));
        Emit(OPush, DurationV(after.value));
      }
      ghost var p1 := program;
      WalkPlace(lv);
      // The load just emitted becomes a deletion.
      ghost var p2 := program;
      var last := |program| - 1;
      program := program[last := program[last].(op := ODel)];
      if after.Some? {
        program := program[last := program[last].(op := OExpire)];
      }
      RemoveMade(p0, l0, p1, p2, program, labels, NumPlace(lv, g0).v, after);
    }

    /** Condition, then the block under a clear flag. */
    method WalkThen(s: Src, lim: nat, other: nat) returns (ghost p2: seq<Instr>, ghost l2: seq<int>)
      requires s.SCond? && Walkable(s, lim)
      modifies this
      ensures decos == old(After(decos, Nexts(s.truth))) && Excess() == old(Excess())
      ensures var c := NumExpr(s.c, old(Tabs()));
              var t := NumStmt(old(Inlined(s, lim)).truth, c.g, false);
              && Tabs() == t.g
              && Grew(old(program), old(labels), p2, l2)
              && |p2| == |old(program)| + Size(c.v) && CodeAt(PatchAll(p2, l2), |old(program)|, c.v)
              && Grew(p2 + [Instr(OJnm, Nat(other))] + [Instr(OSetmatched, Flag(false))], l2, program, labels)
              && |program| == |p2| + 2 + StmtSize(t.v) && StmtAt(View(), |p2| + 2, t.v)
      decreases Inlined(s, lim), 0, 0
    {
      hide CodeAt;
      hide StmtAt;
      hide Size;
      hide StmtSize;
      hide Grew;
      hide PatchAll;
      ghost var whole := Inlined(s, lim);
      WalkExpr(s.c);
      p2, l2 := program, labels;
      Emit(OJnm, Nat(other));
      Emit(OSetmatched, Flag(false));
      assert Inlined(s.truth, lim) == whole.truth;
      WalkStmt(s.truth, lim);
    }

    /** A conditional: two labels, the block behind its condition, and the else block. */
    method WalkCond(s: Src, lim: nat)
      requires s.SCond? && Walkable(s, lim)
      modifies this
      ensures decos == old(After(decos, Nexts(s))) && Excess() == old(Excess())
      ensures var r := old(NumStmt(Inlined(s, lim), Tabs(), false));
              Tabs() == r.g && MadeStmt(old(program), old(labels), r.v)
      decreases Inlined(s, lim), 0, 1
    {
      hide NumExpr;
      hide CountBroken;
      hide CodeAt;
      hide StmtAt;
      hide Size;
      hide StmtSize;
      hide Grew;
      hide PatchAll;
      ghost var p0, l0, g0, k := program, labels, Tabs(), Pending(decls, decos);
      ghost var whole := Inlined(s, lim);
      ghost var c := NumExpr(s.c, g0);
      ghost var t := NumStmt(whole.truth, c.g, false);
      var other := NewLabel();
      var end := NewLabel();
      ghost var p2, l2 := WalkThen(s, lim, other);
      ghost var p4, l4 := program, labels;
      GrewLengths(p0, l0 + [-1] + [-1], p2, l2);
      GrewLengths(p2 + [Instr(OJnm, Nat(other))] + [Instr(OSetmatched, Flag(false))], l2, p4, l4);
      Emit(OSetmatched, Flag(true));
      if s.els.None? {
        SetLabel(other);
        SetLabel(end);
        ThenMade(p0, l0, p2, l2, p4, l4, program, labels, c.v, t.v);
      } else {
        Emit(OJmp, Nat(end));
        SetLabel(other);
        ghost var p6, l6 := program, labels;
        if Nexts(s.truth) > 0 {
          UnwindOk(decls, old(decos));
          ExpandNoNext(decls, s.els.value, lim, Pending(decls, decos), k);
        }
        assert Inlined(s.els.value, lim) == whole.els.value;
        WalkStmt(s.els.value, lim);
        ghost var p7, l7 := program, labels;
        GrewLengths(p6, l6, p7, l7);
        SetLabel(end);
        ElseMade(p0, l0, p2, l2, p4, l4, p6, l6, p7, l7, labels, c.v, t.v, NumStmt(whole.els.value, t.g, false).v);
      }
    }

    method WalkBlock(stmts: seq<Src>, lim: nat)
      requires Walkable(SBlock(stmts), lim)
      modifies this
      ensures decos == old(After(decos, NextsAll(stmts))) && Excess() == old(Excess())
      ensures var r := old(NumStmt(Inlined(SBlock(stmts), lim), Tabs(), false));
              Tabs() == r.g && MadeStmt(old(program), old(labels), r.v)
      decreases Inlined(SBlock(stmts), lim), 0, 0
    {
      hide CountBroken;
      hide StmtAt;
      hide BlockAt;
      hide StmtSize;
      hide BlockSize;
      hide Grew;
      hide PatchAll;
      hide NumStmt;
      ghost var p0, l0, g0, k := program, labels, Tabs(), Pending(decls, decos);
      ghost var all := ExpandAll(decls, stmts, lim, k);
      EmptyMade(p0, l0);
      for i := 0 to |stmts|
        invariant Excess() == old(Excess())
        invariant NextsAll(stmts[..i]) <= NextsAll(stmts)
        invariant decos == After(old(decos), NextsAll(stmts[..i]))
        invariant Tabs() == NumBlock(all[..i], g0, false).g
        invariant MadeBlock(p0, l0, NumBlock(all[..i], g0, false).v)
      {
        ghost var p1, l1, done := program, labels, NumBlock(all[..i], g0, false);
        BlockStep(decls, stmts, lim, k, i);
        if NextsAll(stmts[..i]) > 0 {
          UnwindOk(decls, old(decos));
          ExpandNoNext(decls, stmts[i], lim, Pending(decls, decos), k);
        }
        assert Inlined(stmts[i], lim) == all[i];
        WalkStmt(stmts[i], lim);
        BlockMade(p0, l0, p1, l1, program, labels, done.v, NumStmt(all[i], done.g, false).v);
        NumBlockSnoc(all[..i], all[i], g0);
        assert all[..i + 1] == all[..i] + [all[i]];
      }
      assert all[..|stmts|] == all && stmts[..|stmts|] == stmts;
      BlockDone(View(), |p0|, NumBlock(all, g0, false).v, all, g0);
    }

    /**
     The back-patch pass: write each label's offset into the jumps naming it,
     or report a label that is out of the table or was never set.  An operand
     equal to the table's length is outside the source's test and the table.
     */
    method WriteJumps()
      requires forall i :: 0 <= i < |program| && IsJump(program[i].op) ==>
                 program[i].arg.P? && program[i].arg.p.NatV? && 0 <= program[i].arg.p.n != |labels|
      modifies this`program, this`errors
      ensures errors >= old(errors) && (AllSet(old(program), labels) <==> errors == old(errors))
      ensures AllSet(old(program), labels) ==> program == PatchAll(old(program), labels)
    {
      ghost var p0 := program;
      for j := 0 to |program|
        invariant |program| == |p0|
        invariant forall i :: j <= i < |program| ==> program[i] == p0[i]
        invariant forall i :: 0 <= i < j ==> program[i] == if Unset(p0[i], labels) then p0[i] else Patched(p0[i], labels)
        invariant errors >= old(errors)
        invariant errors == old(errors) <==> forall i :: 0 <= i < j ==> !Unset(p0[i], labels)
      {
        if IsJump(program[j].op) {
          var index := program[j].arg.p.n;
          if index > |labels| {
            errors := errors + 1;
          } else if labels[index] < 0 {
            errors := errors + 1;
          } else {
            program := program[j := program[j].(arg := Nat(labels[index]))];
          }
        }
      }
      assert AllSet(p0, labels) <==> errors == old(errors);
    }
  }

  /** A jump to a label nobody set, or nobody made. */
  predicate Unset(i: Instr, labels: seq<int>) {
    IsJump(i.op) && i.arg.P? && i.arg.p.NatV? && 0 <= i.arg.p.n && (i.arg.p.n >= |labels| || labels[i.arg.p.n] < 0)
  }

  predicate AllSet(p: seq<Instr>, labels: seq<int>) {
    forall i :: 0 <= i < |p| ==> !Unset(p[i], labels)
  }

  /** A program the checker passes: decorators complete before use, no stray `next`. */
  predicate Acceptable(decls: seq<Src>, src: Src) {
    Checked(decls) && Uses(src, |decls|) && Nexts(src) == 0
  }

  /** The program with all decorators inlined. */
  function Whole(decls: seq<Src>, src: Src): Stmt
    requires Acceptable(decls, src)
  {
    Expand(decls, src, |decls|, Block([]))
  }

  /**
   Walk, patch, and hand over the object.  On an accepted program generation
   fails exactly when a pattern is broken, leaves no decorated block pending,
   and its program is exactly the code of the inlined source under the
   generator's slots.
   */
  method Generate(decls: seq<Src>, src: Src, broken: set<string>) returns (r: Option<Object>)
    requires Acceptable(decls, src)
    ensures var n := NumStmt(Whole(decls, src), FRESH, false);
            && (r.Some? <==> forall i :: 0 <= i < |n.g.regexps| ==> n.g.regexps[i] !in broken)
            && (r.Some? ==> IsProgram(r.value.prog, n.v) && r.value.regexps == n.g.regexps && r.value.strings == n.g.strings)
  {
    var c := new Generator(decls, broken);
    c.WalkStmt(src, |decls|);
    assert c.decos == [];
    c.WriteJumps();
    CountBrokenNone(broken, c.regexps);
    if c.errors > 0 {
      return None;
    }
    return Some(Object(c.program, c.regexps, c.strings));
  }

  lemma {:induction false} NumArgsSnoc(es: seq<Expr>, e: Expr, g: Tables)
    ensures var r := NumArgs(es, g);
            NumArgs(es + [e], g) == Numbered(r.v + [NumExpr(e, r.g).v], NumExpr(e, r.g).g)
    decreases |es|
  {
    hide NumExpr;
    if es != [] {
      var a := NumExpr(es[0], g);
      NumArgsSnoc(es[1..], e, a.g);
      assert (es + [e])[1..] == es[1..] + [e];
      var b := NumArgs(es[1..], a.g);
      assert [a.v] + (b.v + [NumExpr(e, b.g).v]) == [a.v] + b.v + [NumExpr(e, b.g).v];
    } else {
      assert es + [e] == [e] && [e][1..] == [];
      assert [NumExpr(e, g).v] + [] == [NumExpr(e, g).v] == [] + [NumExpr(e, g).v];
      assert NumArgs([e], g) == Numbered([NumExpr(e, g).v] + [], NumExpr(e, g).g);
    }
  }

  lemma {:induction false} ArgsSnoc(p: seq<Instr>, b: nat, es: seq<Expr>, e: Expr)
    requires ArgsAt(p, b, es) && CodeAt(p, b + ArgsSize(es), e)
    ensures ArgsAt(p, b, es + [e]) && ArgsSize(es + [e]) == ArgsSize(es) + Size(e)
    decreases |es|
  {
    if es != [] {
      ArgsSnoc(p, b + Size(es[0]), es[1..], e);
      assert (es + [e])[1..] == es[1..] + [e];
    } else {
      assert es + [e] == [e] && [e][1..] == [];
    }
  }

  lemma NoArgsMade(p: seq<Instr>, l: seq<int>)
    ensures Grew(p, l, p, l) && ArgsSize([]) == 0 && ArgsAt(PatchAll(p, l), |p|, [])
  {
  }

  /** One more index expression behind those made. */
  lemma ArgsMade(p0: seq<Instr>, l0: seq<int>, p1: seq<Instr>, l1: seq<int>, p: seq<Instr>, l: seq<int>,
                 done: seq<Expr>, e: Expr)
    requires Grew(p0, l0, p1, l1) && |p1| == |p0| + ArgsSize(done) && ArgsAt(PatchAll(p1, l1), |p0|, done)
    requires Grew(p1, l1, p, l) && |p| == |p1| + Size(e) && CodeAt(PatchAll(p, l), |p1|, e)
    ensures Grew(p0, l0, p, l) && |p| == |p0| + ArgsSize(done + [e]) && ArgsAt(PatchAll(p, l), |p0|, done + [e])
  {
    hide CodeAt;
    hide ArgsAt;
    hide Size;
    hide Grew;
    hide PatchAll;
    GrewThen(p0, l0, p1, l1, p, l);
    ArgsLocal(PatchAll(p1, l1), PatchAll(p, l), |p0|, done);
    ArgsSnoc(PatchAll(p, l), |p0|, done, e);
  }

  /** Two operands stay in place behind whatever was emitted after them. */
  lemma PairMade(p0: seq<Instr>, l0: seq<int>, p1: seq<Instr>, l1: seq<int>, p: seq<Instr>, l: seq<int>, a: Expr, b: Expr)
    requires Grew(p0, l0, p1, l1) && Grew(p1, l1, p, l) && |p1| == |p0| + Size(a) + Size(b)
    requires CodeAt(PatchAll(p1, l1), |p0|, a) && CodeAt(PatchAll(p1, l1), |p0| + Size(a), b)
    ensures Grew(p0, l0, p, l)
    ensures CodeAt(PatchAll(p, l), |p0|, a) && CodeAt(PatchAll(p, l), |p0| + Size(a), b)
  {
    hide CodeAt;
    hide Size;
    hide PatchAll;
    hide Agree;
    hide Grew;
    GrewThen(p0, l0, p1, l1, p, l);
    CodeKept(PatchAll(p1, l1), PatchAll(p, l), |p0|, |p1|, |p0|, a);
    CodeKept(PatchAll(p1, l1), PatchAll(p, l), |p0|, |p1|, |p0| + Size(a), b);
  }

  /** The pieces of a short-circuit node after its two labels have been set. */
  lemma LogicMade(conj: bool, p0: seq<Instr>, l0: seq<int>, p2: seq<Instr>, l2: seq<int>, p4: seq<Instr>, l4: seq<int>,
                  p: seq<Instr>, l: seq<int>, a: Expr, b: Expr)
    requires Grew(p0, l0 + [-1] + [-1], p2, l2) && |p2| == |p0| + Size(a) && CodeAt(PatchAll(p2, l2), |p0|, a)
    requires Grew(p2 + [Instr(LogicJump(conj), Nat(|l0|))], l2, p4, l4)
    requires |p4| == |p2| + 1 + Size(b) && CodeAt(PatchAll(p4, l4), |p2| + 1, b)
    requires p == p4 + [Instr(LogicJump(conj), Nat(|l0|)), Instr(OPush, Flag(conj)),
                        Instr(OJmp, Nat(|l0| + 1)), Instr(OPush, Flag(!conj))]
    requires |l0| + 2 <= |l4| && l == l4[|l0| := |p| - 1][|l0| + 1 := |p|]
    ensures Grew(p0, l0, p, l) && |p| == |p0| + Size(Expr.Logic(conj, a, b))
    ensures CodeAt(PatchAll(p, l), |p0|, Expr.Logic(conj, a, b))
  {
    hide *;
    var p3 := p2 + [Instr(LogicJump(conj), Nat(|l0|))];
    LogicPieces(conj, p0, l0, p2, l2, p3, p4, l4, p, l);
    LogicPut(conj, PatchAll(p2, l2), PatchAll(p4, l4), PatchAll(p, l), |p0|, |p2|, |p4|, a, b);
  }

  lemma LogicPut(conj: bool, v2: seq<Instr>, v4: seq<Instr>, v: seq<Instr>, b0: nat, b2: nat, b4: nat, a: Expr, b: Expr)
    requires |v2| == b2 == b0 + Size(a) && CodeAt(v2, b0, a) && Agree(v2, v, b0, b2)
    requires |v4| == b4 == b2 + 1 + Size(b) && CodeAt(v4, b2 + 1, b) && Agree(v4, v, b2 + 1, b4)
    requires Is(v, b2, Instr(LogicJump(conj), Nat(b4 + 3))) && Is(v, b4, Instr(LogicJump(conj), Nat(b4 + 3)))
    requires VerdictAt(v, b4 + 1, conj)
    ensures CodeAt(v, b0, Expr.Logic(conj, a, b)) && b4 + 4 == b0 + Size(Expr.Logic(conj, a, b))
  {
    hide CodeAt;
    hide Size;
    CodeKept(v2, v, b0, b2, b0, a);
    CodeKept(v4, v, b2 + 1, b4, b2 + 1, b);
    LogicAssembled(conj, v, b0, a, b);
  }

  lemma LogicPieces(conj: bool, p0: seq<Instr>, l0: seq<int>, p2: seq<Instr>, l2: seq<int>, p3: seq<Instr>,
                    p4: seq<Instr>, l4: seq<int>, p: seq<Instr>, l: seq<int>)
    requires Grew(p0, l0 + [-1] + [-1], p2, l2) && p3 == p2 + [Instr(LogicJump(conj), Nat(|l0|))]
    requires Grew(p3, l2, p4, l4)
    requires p == p4 + [Instr(LogicJump(conj), Nat(|l0|)), Instr(OPush, Flag(conj)),
                        Instr(OJmp, Nat(|l0| + 1)), Instr(OPush, Flag(!conj))]
    requires |l0| + 2 <= |l4| && l == l4[|l0| := |p| - 1][|l0| + 1 := |p|]
    ensures Grew(p0, l0, p, l)
    ensures Agree(PatchAll(p2, l2), PatchAll(p, l), |p0|, |p2|)
    ensures Agree(PatchAll(p4, l4), PatchAll(p, l), |p3|, |p4|)
    ensures Is(PatchAll(p, l), |p2|, Instr(LogicJump(conj), Nat(|p| - 1)))
    ensures Is(PatchAll(p, l), |p4|, Instr(LogicJump(conj), Nat(|p| - 1)))
    ensures VerdictAt(PatchAll(p, l), |p4| + 1, conj)
  {
    hide PatchAll;
    Settled(p2, l2, p, l, |l0| + 2, |p0|);
    Settled(p4, l4, p, l, |l2|, |p3|);
    LogicGrew(p0, l0, p2, p3, p4, l2, l4, p, l);
    assert p[|p2|] == p4[|p2|] == p3[|p2|];
  }

  lemma StrMatchMade(p0: seq<Instr>, l0: seq<int>, p1: seq<Instr>, l1: seq<int>, p: seq<Instr>, l: seq<int>, a: Expr,
                     re: string, id: nat, negated: bool)
    requires Grew(p0, l0, p1, l1) && |p1| == |p0| + Size(a) && CodeAt(PatchAll(p1, l1), |p0|, a) && l == l1
    requires p == p1 + [Instr(OSmatch, Nat(id))] + if negated then [Instr(ONot, Nil)] else []
    ensures Grew(p0, l0, p, l) && |p| == |p0| + Size(StrMatch(a, re, id, negated))
    ensures CodeAt(PatchAll(p, l), |p0|, StrMatch(a, re, id, negated))
  {
    hide CodeAt;
    hide PatchAll;
    var v := PatchAll(p, l);
    assert Grew(p1, l1, p, l);
    GrewThen(p0, l0, p1, l1, p, l);
    hide Grew;
    assert Is(v, |p1|, Instr(OSmatch, Nat(id))) && (negated ==> Is(v, |p1| + 1, Instr(ONot, Nil)));
    CodeLocal(PatchAll(p1, l1), v, |p0|, a);
    StrMatchAssembled(v, |p0|, |p1|, a, re, id, negated);
  }

  lemma StrMatchAssembled(v: seq<Instr>, b: nat, m: nat, a: Expr, re: string, id: nat, negated: bool)
    requires CodeAt(v, b, a) && m == b + Size(a)
    requires Is(v, m, Instr(OSmatch, Nat(id))) && (negated ==> Is(v, m + 1, Instr(ONot, Nil)))
    ensures CodeAt(v, b, StrMatch(a, re, id, negated))
  {
  }

  lemma JoinedMade(p0: seq<Instr>, l0: seq<int>, p1: seq<Instr>, l1: seq<int>, p2: seq<Instr>, p: seq<Instr>, l: seq<int>,
                   lv: LValue, e: Expr)
    requires Grew(p0, l0, p1, l1) && |p1| == |p0| + PlaceSize(lv) && PlaceAt(PatchAll(p1, l1), |p0|, lv, ODload)
    requires Grew(p1, l1, p2, l) && |p2| == |p1| + Size(e) && CodeAt(PatchAll(p2, l), |p1|, e)
    requires Grew(p2, l, p, l) && |p| == |p2| + 1 && Is(PatchAll(p, l), |p2|, Instr(OCat, Nil))
    ensures Grew(p0, l0, p, l) && |p| == |p0| + Size(Joined(lv, e))
    ensures CodeAt(PatchAll(p, l), |p0|, Joined(lv, e))
  {
    hide *;
    StorePieces(p0, l0, p1, l1, p2, p, l);
    JoinedPut(PatchAll(p1, l1), PatchAll(p2, l), PatchAll(p, l), |p0|, |p1|, |p2|, lv, e);
  }

  lemma JoinedPut(v1: seq<Instr>, v2: seq<Instr>, v: seq<Instr>, b0: nat, b1: nat, b2: nat, lv: LValue, e: Expr)
    requires b1 == b0 + PlaceSize(lv) && PlaceAt(v1, b0, lv, ODload) && Agree(v1, v, b0, b1)
    requires b2 == b1 + Size(e) && CodeAt(v2, b1, e) && Agree(v2, v, b1, b2)
    requires Is(v, b2, Instr(OCat, Nil))
    ensures CodeAt(v, b0, Joined(lv, e)) && b2 + 1 == b0 + Size(Joined(lv, e))
  {
    hide CodeAt;
    hide PlaceAt;
    hide Size;
    hide PlaceSize;
    PlaceLocal(v1, v, b0, lv, ODload);
    CodeKept(v2, v, b1, b2, b1, e);
    JoinedAssembled(v, b0, lv, e);
  }

  lemma JoinedAssembled(v: seq<Instr>, b: nat, lv: LValue, e: Expr)
    requires PlaceAt(v, b, lv, ODload) && CodeAt(v, b + PlaceSize(lv), e)
    requires Is(v, b + PlaceSize(lv) + Size(e), Instr(OCat, Nil))
    ensures CodeAt(v, b, Joined(lv, e)) && Size(Joined(lv, e)) == PlaceSize(lv) + Size(e) + 1
  {
  }

  lemma UnaryAssembled(v: seq<Instr>, b: nat, op: UnOp, a: Expr)
    requires CodeAt(v, b, a) && Is(v, b + Size(a), UnCode(op))
    ensures CodeAt(v, b, Unary(op, a)) && Size(Unary(op, a)) == Size(a) + 1
  {
  }

  lemma CompareAssembled(v: seq<Instr>, b0: nat, rel: Rel, left: Left, a: Expr, b: Expr)
    requires CodeAt(v, b0, a) && CodeAt(v, b0 + Size(a), b) && CompareAt(v, b0 + Size(a) + Size(b), rel, left)
    ensures CodeAt(v, b0, Compare(rel, left, a, b)) && Size(Compare(rel, left, a, b)) == Size(a) + Size(b) + 5
  {
  }

  lemma BinaryAssembled(v: seq<Instr>, b0: nat, op: BinOp, a: Expr, b: Expr)
    requires CodeAt(v, b0, a) && CodeAt(v, b0 + Size(a), b) && Is(v, b0 + Size(a) + Size(b), BinCode(op))
    ensures CodeAt(v, b0, Binary(op, a, b)) && Size(Binary(op, a, b)) == Size(a) + Size(b) + 1
  {
  }

  lemma LogicAssembled(conj: bool, v: seq<Instr>, b0: nat, a: Expr, b: Expr)
    requires var exit := Instr(LogicJump(conj), Nat(b0 + Size(a) + Size(b) + 4));
             && CodeAt(v, b0, a) && Is(v, b0 + Size(a), exit) && CodeAt(v, b0 + Size(a) + 1, b)
             && Is(v, b0 + Size(a) + 1 + Size(b), exit) && VerdictAt(v, b0 + Size(a) + Size(b) + 2, conj)
    ensures CodeAt(v, b0, Expr.Logic(conj, a, b)) && Size(Expr.Logic(conj, a, b)) == Size(a) + Size(b) + 5
  {
  }

  lemma LogicGrew(p0: seq<Instr>, l0: seq<int>, p2: seq<Instr>, p3: seq<Instr>, p4: seq<Instr>, l2: seq<int>, l4: seq<int>,
                  p: seq<Instr>, l: seq<int>)
    requires Grew(p0, l0 + [-1] + [-1], p2, l2) && Grew(p3, l2, p4, l4) && p4 <= p
    requires |p3| == |p2| + 1 && p3[..|p2|] == p2 && IsLabel(p3[|p2|].arg, |l0|, |l0| + 2)
    requires forall i :: |p4| <= i < |p| && IsJump(p[i].op) ==> IsLabel(p[i].arg, |l0|, |l0| + 2)
    requires |l| == |l4| && l[|l0|] >= 0 && l[|l0| + 1] >= 0
    requires forall x :: 0 <= x < |l| && x != |l0| && x != |l0| + 1 ==> l[x] == l4[x]
    ensures Grew(p0, l0, p, l)
  {
    assert l0 <= l0 + [-1] + [-1] <= l2 <= l4;
    forall i | |p0| <= i < |p| && IsJump(p[i].op)
      ensures IsLabel(p[i].arg, |l0|, |l|)
    {
      if i < |p2| {
        assert p[i] == p2[i];
      } else if i == |p2| {
        assert p[i] == p3[i];
      } else if i < |p4| {
        assert p[i] == p4[i];
      }
    }
  }

  // ---- assembling statements ----

  lemma StoreMade(p0: seq<Instr>, l0: seq<int>, p1: seq<Instr>, l1: seq<int>, p2: seq<Instr>, p: seq<Instr>, l: seq<int>,
                  lv: LValue, e: Expr, how: Update)
    requires Grew(p0, l0, p1, l1) && |p1| == |p0| + PlaceSize(lv) && PlaceAt(PatchAll(p1, l1), |p0|, lv, ODload)
    requires Grew(p1, l1, p2, l) && |p2| == |p1| + Size(e) && CodeAt(PatchAll(p2, l), |p1|, e)
    requires Grew(p2, l, p, l) && |p| == |p2| + 1 && Is(PatchAll(p, l), |p2|, UpdateCode(how))
    ensures Grew(p0, l0, p, l) && |p| == |p0| + StmtSize(Store(lv, e, how))
    ensures StmtAt(PatchAll(p, l), |p0|, Store(lv, e, how))
  {
    hide *;
    StorePieces(p0, l0, p1, l1, p2, p, l);
    StorePut(PatchAll(p1, l1), PatchAll(p2, l), PatchAll(p, l), |p0|, |p1|, |p2|, lv, e, how);
  }

  lemma StorePieces(p0: seq<Instr>, l0: seq<int>, p1: seq<Instr>, l1: seq<int>, p2: seq<Instr>, p: seq<Instr>, l: seq<int>)
    requires Grew(p0, l0, p1, l1) && Grew(p1, l1, p2, l) && Grew(p2, l, p, l)
    ensures Grew(p0, l0, p, l)
    ensures Agree(PatchAll(p1, l1), PatchAll(p, l), |p0|, |p1|)
    ensures Agree(PatchAll(p2, l), PatchAll(p, l), |p1|, |p2|)
  {
    hide PatchAll;
    hide Grew;
    hide Agree;
    GrewThen(p1, l1, p2, l, p, l);
    GrewThen(p0, l0, p1, l1, p, l);
  }

  lemma StorePut(v1: seq<Instr>, v2: seq<Instr>, v: seq<Instr>, b0: nat, b1: nat, b2: nat, lv: LValue, e: Expr, how: Update)
    requires b1 == b0 + PlaceSize(lv) && PlaceAt(v1, b0, lv, ODload) && Agree(v1, v, b0, b1)
    requires b2 == b1 + Size(e) && CodeAt(v2, b1, e) && Agree(v2, v, b1, b2)
    requires Is(v, b2, UpdateCode(how))
    ensures StmtAt(v, b0, Store(lv, e, how)) && b2 + 1 == b0 + StmtSize(Store(lv, e, how))
  {
    hide CodeAt;
    hide PlaceAt;
    hide Size;
    hide PlaceSize;
    PlaceLocal(v1, v, b0, lv, ODload);
    CodeKept(v2, v, b1, b2, b1, e);
    StoreAssembled(v, b0, lv, e, how);
  }

  lemma StoreAssembled(v: seq<Instr>, b: nat, lv: LValue, e: Expr, how: Update)
    requires PlaceAt(v, b, lv, ODload) && CodeAt(v, b + PlaceSize(lv), e)
    requires Is(v, b + PlaceSize(lv) + Size(e), UpdateCode(how))
    ensures StmtAt(v, b, Store(lv, e, how)) && StmtSize(Store(lv, e, how)) == PlaceSize(lv) + Size(e) + 1
  {
  }

  /** Overwriting the load turns a use of a cell into its removal. */
  lemma RemoveMade(p0: seq<Instr>, l0: seq<int>, p1: seq<Instr>, p2: seq<Instr>, p: seq<Instr>, l: seq<int>,
                   lv: LValue, after: Option<int>)
    requires Grew(p0, l0, p1, l0) && |p1| == |p0| + if after.None? then 0 else 1
    requires after.Some? ==> Is(p1, |p0|, Instr(OPush, DurationV(after.value)))
    requires Grew(p1, l0, p2, l) && |p2| == |p1| + PlaceSize(lv) && PlaceAt(PatchAll(p2, l), |p1|, lv, ODload)
    requires p == p2[|p2| - 1 := p2[|p2| - 1].(op := if after.None? then ODel else OExpire)]
    ensures Grew(p0, l0, p, l) && |p| == |p0| + StmtSize(Remove(lv, after))
    ensures StmtAt(PatchAll(p, l), |p0|, Remove(lv, after))
  {
    hide *;
    RemovePieces(p0, l0, p1, p2, p, l, lv, after);
    RemovePut(PatchAll(p2, l), PatchAll(p, l), |p0|, |p1|, |p| - 2, lv, after);
  }

  lemma RemovePieces(p0: seq<Instr>, l0: seq<int>, p1: seq<Instr>, p2: seq<Instr>, p: seq<Instr>, l: seq<int>,
                     lv: LValue, after: Option<int>)
    requires Grew(p0, l0, p1, l0) && |p1| == |p0| + if after.None? then 0 else 1
    requires after.Some? ==> Is(p1, |p0|, Instr(OPush, DurationV(after.value)))
    requires Grew(p1, l0, p2, l) && |p2| == |p1| + PlaceSize(lv) && PlaceAt(PatchAll(p2, l), |p1|, lv, ODload)
    requires p == p2[|p2| - 1 := p2[|p2| - 1].(op := if after.None? then ODel else OExpire)]
    ensures Grew(p0, l0, p, l) && |p| == |p2|
    ensures var v, m := PatchAll(p, l), |p| - 2;
            && Agree(PatchAll(p2, l), v, |p1|, m) && Is(v, m, Instr(OMload, Nat(lv.metric)))
            && (after.Some? ==> Is(v, |p0|, Instr(OPush, DurationV(after.value))))
            && Is(v, m + 1, Instr(if after.None? then ODel else OExpire, Nat(|lv.args|)))
  {
    hide ArgsAt;
    hide ArgsSize;
    hide PatchAll;
    var v2, v := PatchAll(p2, l), PatchAll(p, l);
    var m := |p| - 2;
    assert p2[m + 1] == v2[m + 1] && p[m] == p2[m] && v2[m] == p2[m] && v[m] == p[m] && v[m + 1] == p[m + 1];
    RemoveGrew(p0, l0, p1, p2, p, l);
  }

  lemma RemovePut(v2: seq<Instr>, v: seq<Instr>, b: nat, c: nat, m: int, lv: LValue, after: Option<int>)
    requires c == (if after.None? then b else b + 1) && m + 2 == c + PlaceSize(lv) && PlaceAt(v2, c, lv, ODload)
    requires Agree(v2, v, c, m) && Is(v, m, Instr(OMload, Nat(lv.metric)))
    requires after.Some? ==> Is(v, b, Instr(OPush, DurationV(after.value)))
    requires Is(v, m + 1, Instr(if after.None? then ODel else OExpire, Nat(|lv.args|)))
    ensures StmtAt(v, b, Remove(lv, after)) && b + StmtSize(Remove(lv, after)) == m + 2
  {
    hide CodeAt;
    hide ArgsAt;
    hide ArgsSize;
    ArgsLocal(v2, v, c, lv.args);
    RemoveAssembled(v, b, c, c + ArgsSize(lv.args), lv, after);
  }

  lemma RemoveGrew(p0: seq<Instr>, l0: seq<int>, p1: seq<Instr>, p2: seq<Instr>, p: seq<Instr>, l: seq<int>)
    requires p0 <= p1 && (forall i :: |p0| <= i < |p1| ==> !IsJump(p1[i].op)) && Grew(p1, l0, p2, l)
    requires |p| == |p2| > |p1| && p[..|p| - 1] == p2[..|p| - 1] && !IsJump(p[|p| - 1].op)
    ensures Grew(p0, l0, p, l)
  {
    forall i | |p0| <= i < |p| && IsJump(p[i].op)
      ensures IsLabel(p[i].arg, |l0|, |l|)
    {
      assert p[i] == p[..|p| - 1][i] == p2[i];
    }
    assert forall i :: 0 <= i < |p0| ==> p[i] == p[..|p| - 1][i] == p2[i];
  }

  lemma RemoveAssembled(v: seq<Instr>, b: nat, c: nat, m: nat, lv: LValue, after: Option<int>)
    requires c == (if after.None? then b else b + 1) && m == c + ArgsSize(lv.args)
    requires after.Some? ==> Is(v, b, Instr(OPush, DurationV(after.value)))
    requires ArgsAt(v, c, lv.args) && Is(v, m, Instr(OMload, Nat(lv.metric)))
    requires Is(v, m + 1, Instr(if after.None? then ODel else OExpire, Nat(|lv.args|)))
    ensures StmtAt(v, b, Remove(lv, after))
    ensures StmtSize(Remove(lv, after)) == PlaceSize(lv) + if after.None? then 0 else 1
  {
  }

  lemma ThenMade(p0: seq<Instr>, l0: seq<int>, p2: seq<Instr>, l2: seq<int>, p4: seq<Instr>, l4: seq<int>,
                 p: seq<Instr>, l: seq<int>, c: Expr, t: Stmt)
    requires Grew(p0, l0 + [-1] + [-1], p2, l2) && |p2| == |p0| + Size(c) && CodeAt(PatchAll(p2, l2), |p0|, c)
    requires Grew(p2 + [Instr(OJnm, Nat(|l0|))] + [Instr(OSetmatched, Flag(false))], l2, p4, l4)
    requires |p4| == |p2| + 2 + StmtSize(t) && StmtAt(PatchAll(p4, l4), |p2| + 2, t)
    requires p == p4 + [Instr(OSetmatched, Flag(true))]
    requires |l0| + 2 <= |l4| && l == l4[|l0| := |p|][|l0| + 1 := |p|]
    ensures Grew(p0, l0, p, l) && |p| == |p0| + StmtSize(Cond(c, t, None))
    ensures StmtAt(PatchAll(p, l), |p0|, Cond(c, t, None))
  {
    hide *;
    ThenPieces(p0, l0, p2, l2, p4, l4, p, l);
    ThenPut(PatchAll(p2, l2), PatchAll(p4, l4), PatchAll(p, l), |p0|, |p2|, |p4|, c, t);
  }

  lemma ThenPut(v2: seq<Instr>, v4: seq<Instr>, v: seq<Instr>, b0: nat, b2: nat, b4: nat, c: Expr, t: Stmt)
    requires b2 == b0 + Size(c) && CodeAt(v2, b0, c) && Agree(v2, v, b0, b2)
    requires b4 == b2 + 2 + StmtSize(t) && StmtAt(v4, b2 + 2, t) && Agree(v4, v, b2 + 2, b4)
    requires Is(v, b2, Instr(OJnm, Nat(b4 + 1))) && Is(v, b2 + 1, Instr(OSetmatched, Flag(false)))
    requires Is(v, b4, Instr(OSetmatched, Flag(true)))
    ensures StmtAt(v, b0, Cond(c, t, None)) && b4 + 1 == b0 + StmtSize(Cond(c, t, None))
  {
    hide CodeAt;
    hide StmtAt;
    hide Size;
    hide StmtSize;
    CodeKept(v2, v, b0, b2, b0, c);
    StmtKept(v4, v, b2 + 2, b4, b2 + 2, t);
    ThenAssembled(v, b0, b2, b4, c, t);
  }

  /** What a conditional has around its condition and block. */
  lemma CondGrew(p0: seq<Instr>, l0: seq<int>, p2: seq<Instr>, l2: seq<int>, p4: seq<Instr>, l4: seq<int>, p: seq<Instr>, l: seq<int>)
    requires Grew(p0, l0 + [-1] + [-1], p2, l2)
    requires Grew(p2 + [Instr(OJnm, Nat(|l0|))] + [Instr(OSetmatched, Flag(false))], l2, p4, l4)
    requires p4 <= p && |l4| <= |l| && |l0| + 2 <= |l4|
    requires forall x :: 0 <= x < |l4| && x != |l0| && x != |l0| + 1 ==> l[x] == l4[x]
    requires forall x :: |l4| <= x < |l| ==> l[x] >= 0
    requires l[|l0|] >= 0 && l[|l0| + 1] >= 0
    requires forall i :: |p4| <= i < |p| && IsJump(p[i].op) ==> IsLabel(p[i].arg, |l0|, |l|)
    ensures Grew(p0, l0, p, l)
    ensures Agree(PatchAll(p2, l2), PatchAll(p, l), |p0|, |p2|)
    ensures Agree(PatchAll(p4, l4), PatchAll(p, l), |p2| + 2, |p4|)
    ensures Is(PatchAll(p, l), |p2|, Instr(OJnm, Nat(l[|l0|])))
    ensures Is(PatchAll(p, l), |p2| + 1, Instr(OSetmatched, Flag(false)))
  {
    hide PatchAll;
    var p3 := p2 + [Instr(OJnm, Nat(|l0|))] + [Instr(OSetmatched, Flag(false))];
    assert l0 <= l0 + [-1] + [-1] <= l2 <= l4;
    Settled(p2, l2, p, l, |l0| + 2, |p0|);
    Settled(p4, l4, p, l, |l2|, |p3|);
    assert p[|p2|] == p4[|p2|] == p3[|p2|] && p[|p2| + 1] == p4[|p2| + 1] == p3[|p2| + 1];
    forall i | |p0| <= i < |p| && IsJump(p[i].op)
      ensures IsLabel(p[i].arg, |l0|, |l|)
    {
      if i < |p2| {
        assert p[i] == p2[i];
      } else if |p2| + 2 <= i < |p4| {
        assert p[i] == p4[i];
      }
    }
  }

  lemma ThenPieces(p0: seq<Instr>, l0: seq<int>, p2: seq<Instr>, l2: seq<int>, p4: seq<Instr>, l4: seq<int>,
                   p: seq<Instr>, l: seq<int>)
    requires Grew(p0, l0 + [-1] + [-1], p2, l2)
    requires Grew(p2 + [Instr(OJnm, Nat(|l0|))] + [Instr(OSetmatched, Flag(false))], l2, p4, l4)
    requires p == p4 + [Instr(OSetmatched, Flag(true))]
    requires |l0| + 2 <= |l4| && l == l4[|l0| := |p|][|l0| + 1 := |p|]
    ensures Grew(p0, l0, p, l)
    ensures Agree(PatchAll(p2, l2), PatchAll(p, l), |p0|, |p2|)
    ensures Agree(PatchAll(p4, l4), PatchAll(p, l), |p2| + 2, |p4|)
    ensures Is(PatchAll(p, l), |p2|, Instr(OJnm, Nat(|p|)))
    ensures Is(PatchAll(p, l), |p2| + 1, Instr(OSetmatched, Flag(false)))
    ensures Is(PatchAll(p, l), |p4|, Instr(OSetmatched, Flag(true)))
  {
    hide PatchAll;
    CondGrew(p0, l0, p2, l2, p4, l4, p, l);
  }

  lemma ElseMade(p0: seq<Instr>, l0: seq<int>, p2: seq<Instr>, l2: seq<int>, p4: seq<Instr>, l4: seq<int>,
                 p6: seq<Instr>, l6: seq<int>, p: seq<Instr>, l7: seq<int>, l: seq<int>, c: Expr, t: Stmt, e: Stmt)
    requires Grew(p0, l0 + [-1] + [-1], p2, l2) && |p2| == |p0| + Size(c) && CodeAt(PatchAll(p2, l2), |p0|, c)
    requires Grew(p2 + [Instr(OJnm, Nat(|l0|))] + [Instr(OSetmatched, Flag(false))], l2, p4, l4)
    requires |p4| == |p2| + 2 + StmtSize(t) && StmtAt(PatchAll(p4, l4), |p2| + 2, t)
    requires p6 == p4 + [Instr(OSetmatched, Flag(true))] + [Instr(OJmp, Nat(|l0| + 1))]
    requires |l0| + 2 <= |l4| && l6 == l4[|l0| := |p6|]
    requires Grew(p6, l6, p, l7) && |p| == |p6| + StmtSize(e) && StmtAt(PatchAll(p, l7), |p6|, e)
    requires |l0| + 2 <= |l7| && l == l7[|l0| + 1 := |p|]
    ensures Grew(p0, l0, p, l) && |p| == |p0| + StmtSize(Cond(c, t, Some(e)))
    ensures StmtAt(PatchAll(p, l), |p0|, Cond(c, t, Some(e)))
  {
    hide *;
    ElsePieces(p0, l0, p2, l2, p4, l4, p6, l6, p, l7, l);
    ElsePut(PatchAll(p2, l2), PatchAll(p4, l4), PatchAll(p, l7), PatchAll(p, l), |p0|, |p2|, |p4|, |p|, c, t, e);
  }

  lemma ElsePut(v2: seq<Instr>, v4: seq<Instr>, v7: seq<Instr>, v: seq<Instr>, b0: nat, b2: nat, b4: nat, end: nat,
                   c: Expr, t: Stmt, e: Stmt)
    requires b2 == b0 + Size(c) && CodeAt(v2, b0, c) && Agree(v2, v, b0, b2)
    requires b4 == b2 + 2 + StmtSize(t) && StmtAt(v4, b2 + 2, t) && Agree(v4, v, b2 + 2, b4)
    requires end == b4 + 2 + StmtSize(e) && StmtAt(v7, b4 + 2, e) && Agree(v7, v, b4 + 2, end)
    requires Is(v, b2, Instr(OJnm, Nat(b4 + 2))) && Is(v, b2 + 1, Instr(OSetmatched, Flag(false)))
    requires Is(v, b4, Instr(OSetmatched, Flag(true))) && Is(v, b4 + 1, Instr(OJmp, Nat(end)))
    ensures StmtAt(v, b0, Cond(c, t, Some(e))) && end == b0 + StmtSize(Cond(c, t, Some(e)))
  {
    hide CodeAt;
    hide StmtAt;
    hide Size;
    hide StmtSize;
    CodeKept(v2, v, b0, b2, b0, c);
    StmtKept(v4, v, b2 + 2, b4, b2 + 2, t);
    StmtKept(v7, v, b4 + 2, end, b4 + 2, e);
    ElseAssembled(v, b0, b2, b4, b4 + 2, end, c, t, e);
  }

  lemma ElsePieces(p0: seq<Instr>, l0: seq<int>, p2: seq<Instr>, l2: seq<int>, p4: seq<Instr>, l4: seq<int>,
                   p6: seq<Instr>, l6: seq<int>, p: seq<Instr>, l7: seq<int>, l: seq<int>)
    requires Grew(p0, l0 + [-1] + [-1], p2, l2)
    requires Grew(p2 + [Instr(OJnm, Nat(|l0|))] + [Instr(OSetmatched, Flag(false))], l2, p4, l4)
    requires p6 == p4 + [Instr(OSetmatched, Flag(true))] + [Instr(OJmp, Nat(|l0| + 1))]
    requires |l0| + 2 <= |l4| && l6 == l4[|l0| := |p6|]
    requires Grew(p6, l6, p, l7) && |l0| + 2 <= |l7| && l == l7[|l0| + 1 := |p|]
    ensures Grew(p0, l0, p, l)
    ensures Agree(PatchAll(p2, l2), PatchAll(p, l), |p0|, |p2|)
    ensures Agree(PatchAll(p4, l4), PatchAll(p, l), |p2| + 2, |p4|)
    ensures Agree(PatchAll(p, l7), PatchAll(p, l), |p6|, |p|)
    ensures Is(PatchAll(p, l), |p2|, Instr(OJnm, Nat(|p6|)))
    ensures Is(PatchAll(p, l), |p2| + 1, Instr(OSetmatched, Flag(false)))
    ensures Is(PatchAll(p, l), |p4|, Instr(OSetmatched, Flag(true)))
    ensures Is(PatchAll(p, l), |p4| + 1, Instr(OJmp, Nat(|p|)))
  {
    hide PatchAll;
    assert l6 <= l7 && p6 <= p;
    assert p[|p4|] == p6[|p4|] && p[|p4| + 1] == p6[|p4| + 1];
    forall i | |p4| <= i < |p| && IsJump(p[i].op)
      ensures IsLabel(p[i].arg, |l0|, |l|)
    {
      if i < |p6| {
        assert p[i] == p6[i];
      }
    }
    CondGrew(p0, l0, p2, l2, p4, l4, p, l);
    Settled(p, l7, p, l, |l6|, |p6|);
  }

  lemma ThenAssembled(v: seq<Instr>, b: nat, m: nat, q: nat, c: Expr, t: Stmt)
    requires m == b + Size(c) && q == m + 2 + StmtSize(t)
    requires CodeAt(v, b, c) && StmtAt(v, m + 2, t)
    requires Is(v, m, Instr(OJnm, Nat(q + 1))) && Is(v, m + 1, Instr(OSetmatched, Flag(false)))
    requires Is(v, q, Instr(OSetmatched, Flag(true)))
    ensures StmtAt(v, b, Cond(c, t, None)) && StmtSize(Cond(c, t, None)) == q + 1 - b
  {
  }

  lemma ElseAssembled(v: seq<Instr>, b: nat, m: nat, q: nat, r: nat, end: nat, c: Expr, t: Stmt, e: Stmt)
    requires m == b + Size(c) && q == m + 2 + StmtSize(t) && r == q + 2 && end == r + StmtSize(e)
    requires CodeAt(v, b, c) && StmtAt(v, m + 2, t) && StmtAt(v, r, e)
    requires Is(v, m, Instr(OJnm, Nat(r))) && Is(v, m + 1, Instr(OSetmatched, Flag(false)))
    requires Is(v, q, Instr(OSetmatched, Flag(true))) && Is(v, q + 1, Instr(OJmp, Nat(end)))
    ensures StmtAt(v, b, Cond(c, t, Some(e))) && StmtSize(Cond(c, t, Some(e))) == end - b
  {
    assert ElseAt(v, q + 1, Some(e));
  }

  // ---- assembling blocks ----

  lemma EmptyMade(p: seq<Instr>, l: seq<int>)
    ensures Grew(p, l, p, l) && BlockSize([]) == 0 && BlockAt(PatchAll(p, l), |p|, [])
  {
  }

  /** The statement at `i` of a block and what it expands to. */
  lemma BlockStep(decls: seq<Src>, stmts: seq<Src>, lim: nat, k: Stmt, i: nat)
    requires Checked(decls) && UsesAll(stmts, lim) && lim <= |decls| && i < |stmts|
    ensures Uses(stmts[i], lim) && ExpandAll(decls, stmts, lim, k)[i] == Expand(decls, stmts[i], lim, k)
    ensures NextsAll(stmts[..i]) + Nexts(stmts[i]) == NextsAll(stmts[..i + 1]) <= NextsAll(stmts)
    decreases |stmts|
  {
    if i == 0 {
      assert stmts[..0] == [] && stmts[..1] == [stmts[0]] && [stmts[0]][1..] == [];
    } else {
      BlockStep(decls, stmts[1..], lim, k, i - 1);
      assert stmts[..i][1..] == stmts[1..][..i - 1] && stmts[..i + 1][1..] == stmts[1..][..i];
    }
  }

  lemma BlockMade(p0: seq<Instr>, l0: seq<int>, p1: seq<Instr>, l1: seq<int>, p: seq<Instr>, l: seq<int>,
                  done: seq<Stmt>, st: Stmt)
    requires Grew(p0, l0, p1, l1) && |p1| == |p0| + BlockSize(done) && BlockAt(PatchAll(p1, l1), |p0|, done)
    requires Grew(p1, l1, p, l) && |p| == |p1| + StmtSize(st) && StmtAt(PatchAll(p, l), |p1|, st)
    ensures Grew(p0, l0, p, l) && |p| == |p0| + BlockSize(done + [st]) && BlockAt(PatchAll(p, l), |p0|, done + [st])
  {
    hide StmtAt;
    hide BlockAt;
    hide Grew;
    hide PatchAll;
    GrewThen(p0, l0, p1, l1, p, l);
    BlockLocal(PatchAll(p1, l1), PatchAll(p, l), |p0|, done);
    BlockSnoc(PatchAll(p, l), |p0|, done, st);
  }

  lemma {:induction false} BlockSnoc(p: seq<Instr>, b: nat, done: seq<Stmt>, st: Stmt)
    requires BlockAt(p, b, done) && StmtAt(p, b + BlockSize(done), st)
    ensures BlockAt(p, b, done + [st]) && BlockSize(done + [st]) == BlockSize(done) + StmtSize(st)
    decreases |done|
  {
    hide StmtAt;
    if done != [] {
      BlockSnoc(p, b + StmtSize(done[0]), done[1..], st);
      assert (done + [st])[1..] == done[1..] + [st];
    } else {
      assert done + [st] == [st] && [st][1..] == [];
    }
  }

  lemma {:induction false} NumBlockSnoc(stmts: seq<Stmt>, st: Stmt, g: Tables)
    ensures var r := NumBlock(stmts, g, false);
            NumBlock(stmts + [st], g, false) == Numbered(r.v + [NumStmt(st, r.g, false).v], NumStmt(st, r.g, false).g)
    decreases |stmts|
  {
    hide NumStmt;
    if stmts != [] {
      var a := NumStmt(stmts[0], g, false);
      NumBlockSnoc(stmts[1..], st, a.g);
      assert (stmts + [st])[1..] == stmts[1..] + [st];
      var b := NumBlock(stmts[1..], a.g, false);
      assert [a.v] + (b.v + [NumStmt(st, b.g, false).v]) == [a.v] + b.v + [NumStmt(st, b.g, false).v];
    } else {
      assert stmts + [st] == [st] && [st][1..] == [];
      var a := NumStmt(st, g, false);
      assert [a.v] + [] == [a.v] == [] + [a.v];
      assert NumBlock([st], g, false) == Numbered([a.v] + [], a.g);
    }
  }

  lemma BlockDone(v: seq<Instr>, b: nat, done: seq<Stmt>, all: seq<Stmt>, g: Tables)
    requires done == NumBlock(all, g, false).v && BlockAt(v, b, done)
    ensures NumStmt(Block(all), g, false) == Numbered(Block(done), NumBlock(all, g, false).g)
    ensures StmtAt(v, b, Block(done)) && StmtSize(Block(done)) == BlockSize(done)
  {
  }
}

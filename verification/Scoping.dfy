/**
 `otherwise` and `else`.  The language reference (docs/Language.md) gives every
 block its own scope for `otherwise`; the generated code lets an else block
 share the flag of the block around it.  The evaluator of Semantics.dfy
 follows the code; this module says when the two readings agree.
 */
module Scoping {
  import opened Common
  import opened Syntax
  import opened Machine
  import opened Semantics

  // ---- the documented reading ----

  /** As ExecStmt, but an else block starts with nothing taken and reports nothing back. */
  function DocStmt(inp: Input, st: Stmt, s: State, hist: History): Exec
    decreases st, 1
  {
    match st
    case Cond(c, truth, els) =>
      (match EvalExpr(inp, c, s, hist)
       case EvalError(s1) => ExecError(s1)
       case Val(p, s1) =>
         if !Falsy(p) then
           match DocStmt(inp, truth, s1, [])
           case Done(s2, _) => Done(s2, hist + [true])
           case r => r
         else
           match els
           case None => Done(s1, hist + [false])
           case Some(e) =>
             match DocStmt(inp, e, s1, [])
             case Done(s2, _) => Done(s2, hist + [false])
             case r => r)
    case Block(stmts) => DocAll(inp, stmts, s, hist)
    case Instance(body) => DocStmt(inp, body, s, hist)
    case _ => ExecStmt(inp, st, s, hist)
  }

  function DocAll(inp: Input, stmts: seq<Stmt>, s: State, hist: History): Exec
    decreases stmts, 0
  {
    if stmts == [] then Done(s, hist)
    else
      match DocStmt(inp, stmts[0], s, hist)
      case Done(s1, h1) => DocAll(inp, stmts[1..], s1, h1)
      case r => r
  }

  // ---- expressions that do not ask ----

  /** `otherwise` occurs only as a condition, so no other expression looks at the history. */
  predicate Plain(e: Expr)
    decreases e, 1
  {
    match e
    case Leaf(t) => !t.Otherwise?
    case Use(lv, _) => PlainArgs(lv.args)
    case Unary(_, e1) => Plain(e1)
    case Binary(_, l, r) => Plain(l) && Plain(r)
    case Compare(_, _, l, r) => Plain(l) && Plain(r)
    case Logic(_, l, r) => Plain(l) && Plain(r)
    case StrMatch(e1, _, _, _) => Plain(e1)
    case Joined(lv, e1) => PlainArgs(lv.args) && Plain(e1)
  }

  predicate PlainArgs(es: seq<Expr>)
    decreases es, 0
  {
    es != [] ==> Plain(es[0]) && PlainArgs(es[1..])
  }

  /** Two histories an expression cannot tell apart: it does not ask, or they give the same answer. */
  predicate Alike(plain: bool, h: History, h': History) { plain || AnyTaken(h) == AnyTaken(h') }

  lemma {:induction false} ExprIgnores(inp: Input, e: Expr, s: State, h: History, h': History)
    requires Alike(Plain(e), h, h')
    ensures EvalExpr(inp, e, s, h) == EvalExpr(inp, e, s, h')
    decreases e, 1
  {
    match e
    case Leaf(_) =>
    case Use(lv, _) => PlaceIgnores(inp, lv, s, h, h');
    case Unary(_, e1) => ExprIgnores(inp, e1, s, h, h');
    case Binary(_, l, r) => PairIgnores(inp, e, s, h, h');
    case Compare(_, _, l, r) => PairIgnores(inp, e, s, h, h');
    case Logic(_, l, r) => PairIgnores(inp, e, s, h, h');
    case StrMatch(e1, _, _, _) => ExprIgnores(inp, e1, s, h, h');
    case Joined(lv, e1) =>
      PlaceIgnores(inp, lv, s, h, h');
      var p := EvalLValue(inp, lv, s, h);
      if p.Place? {
        ExprIgnores(inp, e1, p.s, h, h');
      }
  }

  lemma {:induction false} PlaceIgnores(inp: Input, lv: LValue, s: State, h: History, h': History)
    requires Alike(PlainArgs(lv.args), h, h')
    ensures EvalTarget(inp, lv, s, h) == EvalTarget(inp, lv, s, h')
    ensures EvalLValue(inp, lv, s, h) == EvalLValue(inp, lv, s, h')
    decreases lv, 0
  {
    ArgsIgnore(inp, lv.args, s, h, h');
  }

  lemma {:induction false} PairIgnores(inp: Input, e: Expr, s: State, h: History, h': History)
    requires (e.Binary? || e.Compare? || e.Logic?) && Alike(Plain(e), h, h')
    ensures EvalExpr(inp, e, s, h) == EvalExpr(inp, e, s, h')
    decreases e, 0
  {
    ExprIgnores(inp, e.l, s, h, h');
    var l := EvalExpr(inp, e.l, s, h);
    if l.Val? {
      ExprIgnores(inp, e.r, l.s, h, h');
    }
  }

  lemma {:induction false} ArgsIgnore(inp: Input, es: seq<Expr>, s: State, h: History, h': History)
    requires Alike(PlainArgs(es), h, h')
    ensures EvalAll(inp, es, s, h) == EvalAll(inp, es, s, h')
    decreases es, 0
  {
    if es != [] {
      ExprIgnores(inp, es[0], s, h, h');
      var a := EvalExpr(inp, es[0], s, h);
      if a.Val? {
        ArgsIgnore(inp, es[1..], a.s, h, h');
      }
    }
  }

  // ---- when the readings agree ----

  /** No conditional directly in this block, so it neither asks about nor adds to the history. */
  predicate Flat(st: Stmt)
    decreases st, 1
  {
    match st
    case ExprStmt(e) => Plain(e)
    case Store(lv, e, _) => PlainArgs(lv.args) && Plain(e)
    case Cond(_, _, _) => false
    case Block(stmts) => FlatAll(stmts)
    case Instance(body) => Flat(body)
    case Stop => true
    case Remove(lv, _) => PlainArgs(lv.args)
  }

  predicate FlatAll(stmts: seq<Stmt>)
    decreases stmts, 0
  {
    stmts != [] ==> Flat(stmts[0]) && FlatAll(stmts[1..])
  }

  /** Every else block is flat. */
  predicate ElseSafe(st: Stmt)
    decreases st, 1
  {
    match st
    case Cond(_, truth, els) => ElseSafe(truth) && (els.Some? ==> Flat(els.value))
    case Block(stmts) => ElseSafeAll(stmts)
    case Instance(body) => ElseSafe(body)
    case _ => true
  }

  predicate ElseSafeAll(stmts: seq<Stmt>)
    decreases stmts, 0
  {
    stmts != [] ==> ElseSafe(stmts[0]) && ElseSafeAll(stmts[1..])
  }

  /** A result with its history replaced. */
  function WithHist(r: Exec, h: History): Exec {
    match r
    case Done(s, _) => Done(s, h)
    case _ => r
  }

  /** A flat block does the same under any history, in both readings, and passes it on. */
  lemma {:induction false} FlatIgnores(inp: Input, st: Stmt, s: State, h: History, h': History)
    requires Flat(st)
    ensures ExecStmt(inp, st, s, h) == WithHist(ExecStmt(inp, st, s, h'), h)
    ensures DocStmt(inp, st, s, h') == ExecStmt(inp, st, s, h')
    decreases st, 1
  {
    match st
    case ExprStmt(e) => ExprIgnores(inp, e, s, h, h');
    case Store(lv, e, how) =>
      StoreIgnores(inp, st, s, h, h');
    case Block(stmts) => FlatAllIgnores(inp, stmts, s, h, h');
    case Instance(body) => FlatIgnores(inp, body, s, h, h');
    case Stop =>
    case Remove(lv, _) => PlaceIgnores(inp, lv, s, h, h');
  }

  lemma {:induction false} StoreIgnores(inp: Input, st: Stmt, s: State, h: History, h': History)
    requires st.Store? && Alike(PlainArgs(st.lv.args) && Plain(st.e), h, h')
    ensures ExecStmt(inp, st, s, h) == WithHist(ExecStmt(inp, st, s, h'), h)
    decreases st, 0
  {
    PlaceIgnores(inp, st.lv, s, h, h');
    var p := EvalLValue(inp, st.lv, s, h);
    if p.Place? {
      ExprIgnores(inp, st.e, p.s, h, h');
      var v := EvalExpr(inp, st.e, p.s, h);
      assert v == EvalExpr(inp, st.e, p.s, h');
      if v.Val? {
        assert UpdateCell(inp.host, v.s, st.lv.metric, p.keys, st.how, v.p, h)
               == WithHist(UpdateCell(inp.host, v.s, st.lv.metric, p.keys, st.how, v.p, h'), h);
      }
    }
  }

  lemma {:induction false} FlatAllIgnores(inp: Input, stmts: seq<Stmt>, s: State, h: History, h': History)
    requires FlatAll(stmts)
    ensures ExecAll(inp, stmts, s, h) == WithHist(ExecAll(inp, stmts, s, h'), h)
    ensures DocAll(inp, stmts, s, h') == ExecAll(inp, stmts, s, h')
    decreases stmts, 0
  {
    if stmts != [] {
      FlatIgnores(inp, stmts[0], s, h, h');
      FlatIgnores(inp, stmts[0], s, h', h');
      var r := ExecStmt(inp, stmts[0], s, h');
      if r.Done? {
        FlatAllIgnores(inp, stmts[1..], r.s, h, h');
      }
    }
  }

  // ---- following the flags ----

  /**
   Which pairs of answers to "was anything taken in this block?" are possible
   at a point, by the documentation and by the code: no and no, yes and yes,
   or no and yes.  The code never says no where the documentation says yes.
   */
  datatype Flags = Flags(none: bool, both: bool, apart: bool)

  const NOWHERE: Flags := Flags(false, false, false)
  const ENTRY: Flags := Flags(true, false, false)
  const APART: Flags := Flags(false, false, true)

  function Join(f: Flags, g: Flags): Flags {
    Flags(f.none || g.none, f.both || g.both, f.apart || g.apart)
  }

  predicate In(doc: bool, code: bool, f: Flags) {
    (f.none && !doc && !code) || (f.both && doc && code) || (f.apart && !doc && code)
  }

  datatype Verdict = Verdict(ok: bool, out: Flags)

  predicate IsOtherwise(e: Expr) { e == Leaf(Otherwise) }

  /** From a point where `f` is possible: is every `otherwise` met with one answer, and what is possible afterwards? */
  function Follow(st: Stmt, f: Flags): Verdict
    decreases st, 1
  {
    match st
    case ExprStmt(e) => Verdict(Plain(e) || !f.apart, f)
    case Store(lv, e, _) => Verdict((PlainArgs(lv.args) && Plain(e)) || !f.apart, f)
    case Cond(c, truth, els) =>
      var sure := IsOtherwise(c);
      var taken := if sure then f.none else f != NOWHERE;
      var t := Follow(truth, ENTRY);
      var after := Flags(false, taken && t.out != NOWHERE, false);
      var passed := if sure then f.(none := false) else f;
      var p := FollowElse(els, passed);
      Verdict((Plain(c) || !f.apart) && (taken ==> t.ok) && p.ok, Join(after, p.out))
    case Block(stmts) => FollowAll(stmts, f)
    case Instance(body) => Follow(body, f)
    case Stop => Verdict(true, NOWHERE)
    case Remove(lv, _) => Verdict(PlainArgs(lv.args) || !f.apart, f)
  }

  /** The documentation starts an else block afresh and forgets it; the code goes on with its flag. */
  function FollowElse(els: Option<Stmt>, f: Flags): Verdict
    decreases els, 0
  {
    match els
    case None => Verdict(true, f)
    case Some(e) =>
      var n, a := Follow(e, ENTRY), Follow(e, APART);
      Verdict((f.none ==> n.ok) && (f.both || f.apart ==> a.ok),
              Flags(f.none && n.out.none,
                    f.both && a.out != NOWHERE,
                    (f.none && (n.out.both || n.out.apart)) || (f.apart && a.out != NOWHERE)))
  }

  function FollowAll(stmts: seq<Stmt>, f: Flags): Verdict
    decreases stmts, 0
  {
    if stmts == [] then Verdict(true, f)
    else
      var a := Follow(stmts[0], f);
      var b := FollowAll(stmts[1..], a.out);
      Verdict(a.ok && b.ok, b.out)
  }

  // ---- the readings agree ----

  /** The same outcome, metrics and matches; the history is not for the user to see. */
  predicate SameEnd(r: Exec, r': Exec) {
    match (r, r')
    case (Done(s, _), Done(s', _)) => s == s'
    case (Stopping(s), Stopping(s')) => s == s'
    case (ExecError(s), ExecError(s')) => s == s'
    case _ => false
  }

  predicate Fits(doc: History, code: History, f: Flags) { In(AnyTaken(doc), AnyTaken(code), f) }

  predicate Agrees(r: Exec, r': Exec, f: Flags) {
    SameEnd(r, r') && (r.Done? ==> Fits(r.hist, r'.hist, f))
  }

  lemma {:induction false} FollowAgrees(inp: Input, st: Stmt, s: State, doc: History, code: History, f: Flags)
    requires Follow(st, f).ok && Fits(doc, code, f)
    ensures Agrees(DocStmt(inp, st, s, doc), ExecStmt(inp, st, s, code), Follow(st, f).out)
    decreases st, 1
  {
    match st
    case ExprStmt(e) => ExprIgnores(inp, e, s, doc, code);
    case Store(lv, e, how) => StoreIgnores(inp, st, s, doc, code);
    case Cond(_, _, _) => CondAgrees(inp, st, s, doc, code, f);
    case Block(stmts) => FollowAllAgrees(inp, stmts, s, doc, code, f);
    case Instance(body) => FollowAgrees(inp, body, s, doc, code, f);
    case Stop =>
    case Remove(lv, _) => PlaceIgnores(inp, lv, s, doc, code);
  }

  lemma TakenAfter(h: History, b: bool)
    ensures AnyTaken(h + [b]) == (AnyTaken(h) || b)
  {
    if b {
      assert (h + [b])[|h|];
    }
    if AnyTaken(h) {
      var i :| 0 <= i < |h| && h[i];
      assert (h + [b])[i];
    }
  }

  lemma {:induction false} CondAgrees(inp: Input, st: Stmt, s: State, doc: History, code: History, f: Flags)
    requires st.Cond? && Follow(st, f).ok && Fits(doc, code, f)
    ensures Agrees(DocStmt(inp, st, s, doc), ExecStmt(inp, st, s, code), Follow(st, f).out)
    decreases st, 0
  {
    ExprIgnores(inp, st.c, s, doc, code);
    var v := EvalExpr(inp, st.c, s, code);
    if v.Val? {
      assert IsOtherwise(st.c) ==> (Falsy(v.p) <==> AnyTaken(code));
      TakenAfter(doc, true);
      TakenAfter(code, true);
      TakenAfter(doc, false);
      TakenAfter(code, false);
      if !Falsy(v.p) {
        FollowAgrees(inp, st.truth, v.s, [], [], ENTRY);
      } else if st.els.Some? {
        ElseAgrees(inp, st.els.value, v.s, doc, code, if IsOtherwise(st.c) then f.(none := false) else f);
      }
    }
  }

  lemma {:induction false} ElseAgrees(inp: Input, e: Stmt, s: State, doc: History, code: History, f: Flags)
    requires FollowElse(Some(e), f).ok && Fits(doc, code, f)
    ensures var r, r' := DocStmt(inp, e, s, []), ExecStmt(inp, e, s, code + [false]);
            SameEnd(r, r') && (r.Done? ==> Fits(doc + [false], r'.hist, FollowElse(Some(e), f).out))
    decreases e, 2
  {
    TakenAfter(doc, false);
    TakenAfter(code, false);
    assert !AnyTaken([]);
    FollowAgrees(inp, e, s, [], code + [false], if AnyTaken(code) then APART else ENTRY);
    var r' := ExecStmt(inp, e, s, code + [false]);
    if r'.Done? {
      HistoryGrows(inp, e, s, code + [false]);
      if AnyTaken(code) {
        TakenStays(code + [false], r'.hist);
      }
    }
  }

  lemma {:induction false} FollowAllAgrees(inp: Input, stmts: seq<Stmt>, s: State, doc: History, code: History, f: Flags)
    requires FollowAll(stmts, f).ok && Fits(doc, code, f)
    ensures Agrees(DocAll(inp, stmts, s, doc), ExecAll(inp, stmts, s, code), FollowAll(stmts, f).out)
    decreases stmts, 0
  {
    if stmts != [] {
      FollowAgrees(inp, stmts[0], s, doc, code, f);
      var r, r' := DocStmt(inp, stmts[0], s, doc), ExecStmt(inp, stmts[0], s, code);
      if r.Done? {
        FollowAllAgrees(inp, stmts[1..], r.s, r.hist, r'.hist, Follow(stmts[0], f).out);
      }
    }
  }

  /**
   A program that passes the scan ends as the documentation says, on every
   line and in every state: same outcome, same metrics, same matches.
   */
  lemma OtherwiseDocumented(inp: Input, st: Stmt, s: State)
    requires Follow(st, ENTRY).ok
    ensures SameEnd(DocStmt(inp, st, s, []), ExecStmt(inp, st, s, []))
  {
    FollowAgrees(inp, st, s, [], [], ENTRY);
  }

  // ---- where the flags part ----

  /** A statement adds to the history and changes nothing in it. */
  lemma {:induction false} HistoryGrows(inp: Input, st: Stmt, s: State, h: History)
    ensures ExecStmt(inp, st, s, h).Done? ==> h <= ExecStmt(inp, st, s, h).hist
    decreases st, 1
  {
    match st
    case Cond(c, truth, els) =>
      var v := EvalExpr(inp, c, s, h);
      if v.Val? && Falsy(v.p) && els.Some? {
        HistoryGrows(inp, els.value, v.s, h + [false]);
      }
    case Block(stmts) => HistoryGrowsAll(inp, stmts, s, h);
    case Instance(body) => HistoryGrows(inp, body, s, h);
    case _ =>
  }

  lemma {:induction false} HistoryGrowsAll(inp: Input, stmts: seq<Stmt>, s: State, h: History)
    ensures ExecAll(inp, stmts, s, h).Done? ==> h <= ExecAll(inp, stmts, s, h).hist
    decreases stmts, 0
  {
    if stmts != [] {
      HistoryGrows(inp, stmts[0], s, h);
      var r := ExecStmt(inp, stmts[0], s, h);
      if r.Done? {
        HistoryGrowsAll(inp, stmts[1..], r.s, r.hist);
      }
    }
  }

  lemma TakenStays(h: History, h': History)
    requires h <= h'
    ensures AnyTaken(h') <==> AnyTaken(h) || AnyTaken(h'[|h|..])
  {
    assert h' == h + h'[|h|..];
  }

  /**
   On every run: after a conditional whose else block ran to its end, the two
   flags are the same if and only if a conditional of this block had been
   taken before, or none was taken in the else block.
   */
  lemma FlagsAfterElse(inp: Input, st: Stmt, s: State, h: History)
    requires st.Cond? && st.els.Some?
    requires EvalExpr(inp, st.c, s, h).Val? && Falsy(EvalExpr(inp, st.c, s, h).p)
    requires DocStmt(inp, st, s, h).Done? && ExecStmt(inp, st, s, h).Done?
    ensures var doc, code := DocStmt(inp, st, s, h).hist, ExecStmt(inp, st, s, h).hist;
            h + [false] <= code
            && (AnyTaken(doc) == AnyTaken(code) <==> AnyTaken(h) || !AnyTaken(code[|h| + 1..]))
  {
    var v := EvalExpr(inp, st.c, s, h);
    var code := ExecStmt(inp, st, s, h).hist;
    HistoryGrows(inp, st.els.value, v.s, h + [false]);
    TakenAfter(h, false);
    TakenStays(h + [false], code);
  }

  // ---- the scan is exact ----

  /** One way through a program, given what each condition other than `otherwise` comes out as. */
  datatype Way = Way(doc: bool, code: bool, rest: seq<bool>) | Over | Clash | Short

  function Meet(plain: bool, doc: bool, code: bool, w: Way): Way { if plain || doc == code then w else Clash }

  function Walk(st: Stmt, doc: bool, code: bool, ch: seq<bool>): Way
    decreases st, 1
  {
    var on := Way(doc, code, ch);
    match st
    case ExprStmt(e) => Meet(Plain(e), doc, code, on)
    case Store(lv, e, _) => Meet(PlainArgs(lv.args) && Plain(e), doc, code, on)
    case Cond(c, truth, els) =>
      if IsOtherwise(c) then Meet(false, doc, code, WalkBranch(st, !code, doc, code, ch))
      else if !Plain(c) && doc != code then Clash
      else if ch == [] then Short
      else WalkBranch(st, ch[0], doc, code, ch[1..])
    case Block(stmts) => WalkAll(stmts, doc, code, ch)
    case Instance(body) => Walk(body, doc, code, ch)
    case Stop => Over
    case Remove(lv, _) => Meet(PlainArgs(lv.args), doc, code, on)
  }

  function WalkBranch(st: Stmt, take: bool, doc: bool, code: bool, ch: seq<bool>): Way
    requires st.Cond?
    decreases st, 0
  {
    if take then
      match Walk(st.truth, false, false, ch)
      case Way(_, _, rest) => Way(true, true, rest)
      case w => w
    else
      match st.els
      case None => Way(doc, code, ch)
      case Some(e) =>
        match Walk(e, false, code, ch)
        case Way(_, code', rest) => Way(doc, code', rest)
        case w => w
  }

  function WalkAll(stmts: seq<Stmt>, doc: bool, code: bool, ch: seq<bool>): Way
    decreases stmts, 0
  {
    if stmts == [] then Way(doc, code, ch)
    else
      match Walk(stmts[0], doc, code, ch)
      case Way(doc', code', rest) => WalkAll(stmts[1..], doc', code', rest)
      case w => w
  }

  /** No way through leaves what the scan says is possible, or clashes where it says none can. */
  lemma {:induction false} WalkWithin(st: Stmt, f: Flags, doc: bool, code: bool, ch: seq<bool>)
    requires Follow(st, f).ok && In(doc, code, f)
    ensures var w := Walk(st, doc, code, ch);
            !w.Clash? && (w.Way? ==> In(w.doc, w.code, Follow(st, f).out))
    decreases st, 1
  {
    match st
    case Cond(c, truth, els) =>
      var passed := if IsOtherwise(c) then f.(none := false) else f;
      var take, rest := !code, ch;
      if !IsOtherwise(c) && ch != [] {
        take, rest := ch[0], ch[1..];
      }
      if take {
        if IsOtherwise(c) ==> !code {
          WalkWithin(truth, ENTRY, false, false, rest);
        }
      } else if els.Some? && In(doc, code, passed) {
        WalkWithin(els.value, if code then APART else ENTRY, false, code, rest);
        CodeStays(els.value, false, code, rest);
      }
    case Block(stmts) => WalkWithinAll(stmts, f, doc, code, ch);
    case Instance(body) => WalkWithin(body, f, doc, code, ch);
    case _ =>
  }

  lemma {:induction false} WalkWithinAll(stmts: seq<Stmt>, f: Flags, doc: bool, code: bool, ch: seq<bool>)
    requires FollowAll(stmts, f).ok && In(doc, code, f)
    ensures var w := WalkAll(stmts, doc, code, ch);
            !w.Clash? && (w.Way? ==> In(w.doc, w.code, FollowAll(stmts, f).out))
    decreases stmts, 0
  {
    if stmts != [] {
      WalkWithin(stmts[0], f, doc, code, ch);
      var w := Walk(stmts[0], doc, code, ch);
      if w.Way? {
        WalkWithinAll(stmts[1..], Follow(stmts[0], f).out, w.doc, w.code, w.rest);
      }
    }
  }

  /** The code's flag is never lowered within a block. */
  lemma {:induction false} CodeStays(st: Stmt, doc: bool, code: bool, ch: seq<bool>)
    ensures var w := Walk(st, doc, code, ch);
            w.Way? && code ==> w.code
    decreases st, 1
  {
    match st
    case Cond(c, _, els) =>
      if els.Some? {
        CodeStays(els.value, false, code, ch);
        if ch != [] {
          CodeStays(els.value, false, code, ch[1..]);
        }
      }
    case Block(stmts) => CodeStaysAll(stmts, doc, code, ch);
    case Instance(body) => CodeStays(body, doc, code, ch);
    case _ =>
  }

  lemma {:induction false} CodeStaysAll(stmts: seq<Stmt>, doc: bool, code: bool, ch: seq<bool>)
    ensures var w := WalkAll(stmts, doc, code, ch);
            w.Way? && code ==> w.code
    decreases stmts, 0
  {
    if stmts != [] {
      CodeStays(stmts[0], doc, code, ch);
      var w := Walk(stmts[0], doc, code, ch);
      if w.Way? {
        CodeStaysAll(stmts[1..], w.doc, w.code, w.rest);
      }
    }
  }

  /** Outcomes left over are not looked at. */
  function WithMore(w: Way, more: seq<bool>): Way {
    match w
    case Way(doc, code, rest) => Way(doc, code, rest + more)
    case _ => w
  }

  lemma {:induction false} WalkMore(st: Stmt, doc: bool, code: bool, ch: seq<bool>, more: seq<bool>)
    requires !Walk(st, doc, code, ch).Short?
    ensures Walk(st, doc, code, ch + more) == WithMore(Walk(st, doc, code, ch), more)
    decreases st, 1
  {
    match st
    case Cond(c, truth, els) =>
      if IsOtherwise(c) {
        if doc == code {
          BranchMore(st, !code, doc, code, ch, more);
        }
      } else if Plain(c) || doc == code {
        assert (ch + more)[1..] == ch[1..] + more;
        BranchMore(st, ch[0], doc, code, ch[1..], more);
      }
    case Block(stmts) => WalkAllMore(stmts, doc, code, ch, more);
    case Instance(body) => WalkMore(body, doc, code, ch, more);
    case _ =>
  }

  lemma {:induction false} BranchMore(st: Stmt, take: bool, doc: bool, code: bool, ch: seq<bool>, more: seq<bool>)
    requires st.Cond? && !WalkBranch(st, take, doc, code, ch).Short?
    ensures WalkBranch(st, take, doc, code, ch + more) == WithMore(WalkBranch(st, take, doc, code, ch), more)
    decreases st, 0
  {
    if take {
      WalkMore(st.truth, false, false, ch, more);
    } else if st.els.Some? {
      WalkMore(st.els.value, false, code, ch, more);
    }
  }

  lemma {:induction false} WalkAllMore(stmts: seq<Stmt>, doc: bool, code: bool, ch: seq<bool>, more: seq<bool>)
    requires !WalkAll(stmts, doc, code, ch).Short?
    ensures WalkAll(stmts, doc, code, ch + more) == WithMore(WalkAll(stmts, doc, code, ch), more)
    decreases stmts, 0
  {
    if stmts != [] {
      WalkMore(stmts[0], doc, code, ch, more);
      var w := Walk(stmts[0], doc, code, ch);
      if w.Way? {
        WalkAllMore(stmts[1..], w.doc, w.code, w.rest, more);
      }
    }
  }

  /** Some pair that is possible. */
  lemma Pick(f: Flags) returns (doc: bool, code: bool)
    requires f != NOWHERE
    ensures In(doc, code, f)
  {
    doc := !f.none && f.both;
    code := !f.none;
  }

  /** Whatever the scan says is possible afterwards, some way through gets there. */
  lemma {:induction false} Reach(st: Stmt, f: Flags, doc': bool, code': bool) returns (doc: bool, code: bool, ch: seq<bool>)
    requires Follow(st, f).ok && In(doc', code', Follow(st, f).out)
    ensures In(doc, code, f) && Walk(st, doc, code, ch) == Way(doc', code', [])
    decreases st, 1
  {
    match st
    case Cond(_, _, _) => doc, code, ch := ReachCond(st, f, doc', code');
    case Block(stmts) => doc, code, ch := ReachAll(stmts, f, doc', code');
    case Instance(body) => doc, code, ch := Reach(body, f, doc', code');
    case _ => doc, code, ch := doc', code', [];
  }

  /** The outcomes that lead into a branch of a conditional and then `rest`. */
  function Choose(st: Stmt, take: bool, rest: seq<bool>): seq<bool>
    requires st.Cond?
  {
    if IsOtherwise(st.c) then rest else [take] + rest
  }

  lemma ChooseWalks(st: Stmt, take: bool, doc: bool, code: bool, rest: seq<bool>)
    requires st.Cond? && (Plain(st.c) || doc == code) && (IsOtherwise(st.c) ==> take == !code)
    ensures Walk(st, doc, code, Choose(st, take, rest)) == WalkBranch(st, take, doc, code, rest)
  {
    assert ([take] + rest)[1..] == rest;
  }

  lemma {:induction false} ReachCond(st: Stmt, f: Flags, doc': bool, code': bool) returns (doc: bool, code: bool, ch: seq<bool>)
    requires st.Cond? && Follow(st, f).ok && In(doc', code', Follow(st, f).out)
    ensures In(doc, code, f) && Walk(st, doc, code, ch) == Way(doc', code', [])
    decreases st, 0
  {
    var sure := IsOtherwise(st.c);
    var passed := if sure then f.(none := false) else f;
    if doc' && f != NOWHERE && (sure ==> f.none) && Follow(st.truth, ENTRY).out != NOWHERE {
      var d, c := Pick(Follow(st.truth, ENTRY).out);
      var x, y, rest := Reach(st.truth, ENTRY, d, c);
      if sure {
        doc, code := false, false;
      } else {
        doc, code := Pick(f);
      }
      ch := Choose(st, true, rest);
      ChooseWalks(st, true, doc, code, rest);
    } else {
      var rest;
      doc, code, rest := ReachElse(st, passed, doc', code');
      ch := Choose(st, false, rest);
      ChooseWalks(st, false, doc, code, rest);
    }
  }

  lemma {:induction false} ReachElse(st: Stmt, f: Flags, doc': bool, code': bool) returns (doc: bool, code: bool, ch: seq<bool>)
    requires st.Cond? && FollowElse(st.els, f).ok && In(doc', code', FollowElse(st.els, f).out)
    ensures In(doc, code, f) && WalkBranch(st, false, doc, code, ch) == Way(doc', code', [])
    decreases st, -1
  {
    match st.els
    case None => doc, code, ch := doc', code', [];
    case Some(e) =>
      var n, a := Follow(e, ENTRY).out, Follow(e, APART).out;
      if f.none && !doc' && (if code' then n.both || n.apart else n.none) {
        doc, code := false, false;
        var x, y;
        x, y, ch := Reach(e, ENTRY, code' && n.both, code');
      } else {
        doc, code := doc', true;
        var d, c := Pick(a);
        var x, y;
        x, y, ch := Reach(e, APART, d, c);
        CodeStays(e, false, true, ch);
      }
  }

  lemma {:induction false} ReachAll(stmts: seq<Stmt>, f: Flags, doc': bool, code': bool)
    returns (doc: bool, code: bool, ch: seq<bool>)
    requires FollowAll(stmts, f).ok && In(doc', code', FollowAll(stmts, f).out)
    ensures In(doc, code, f) && WalkAll(stmts, doc, code, ch) == Way(doc', code', [])
    decreases stmts, 0
  {
    if stmts == [] {
      doc, code, ch := doc', code', [];
    } else {
      var d, c, rest := ReachAll(stmts[1..], Follow(stmts[0], f).out, doc', code');
      doc, code, ch := Reach(stmts[0], f, d, c);
      WalkMore(stmts[0], doc, code, ch, rest);
      assert [] + rest == rest;
      ch := ch + rest;
    }
  }

  /** Whenever the scan objects, some way through brings an `otherwise` to where the flags differ. */
  lemma {:induction false} Object(st: Stmt, f: Flags) returns (doc: bool, code: bool, ch: seq<bool>)
    requires !Follow(st, f).ok
    ensures In(doc, code, f) && Walk(st, doc, code, ch).Clash?
    decreases st, 1
  {
    match st
    case Cond(_, _, _) => doc, code, ch := ObjectCond(st, f);
    case Block(stmts) => doc, code, ch := ObjectAll(stmts, f);
    case Instance(body) => doc, code, ch := Object(body, f);
    case _ => doc, code, ch := false, true, [];
  }

  lemma {:induction false} ObjectCond(st: Stmt, f: Flags) returns (doc: bool, code: bool, ch: seq<bool>)
    requires st.Cond? && !Follow(st, f).ok
    ensures In(doc, code, f) && Walk(st, doc, code, ch).Clash?
    decreases st, 0
  {
    var sure := IsOtherwise(st.c);
    var passed := if sure then f.(none := false) else f;
    var x, y, rest;
    if !Plain(st.c) && f.apart {
      doc, code, ch := false, true, [];
    } else if (if sure then f.none else f != NOWHERE) && !Follow(st.truth, ENTRY).ok {
      x, y, rest := Object(st.truth, ENTRY);
      if sure {
        doc, code := false, false;
      } else {
        doc, code := Pick(f);
      }
      ch := Choose(st, true, rest);
      ChooseWalks(st, true, doc, code, rest);
    } else {
      if passed.none && !Follow(st.els.value, ENTRY).ok {
        doc, code := false, false;
        x, y, rest := Object(st.els.value, ENTRY);
      } else {
        doc, code := !passed.apart, true;
        x, y, rest := Object(st.els.value, APART);
      }
      ch := Choose(st, false, rest);
      ChooseWalks(st, false, doc, code, rest);
    }
  }

  lemma {:induction false} ObjectAll(stmts: seq<Stmt>, f: Flags) returns (doc: bool, code: bool, ch: seq<bool>)
    requires !FollowAll(stmts, f).ok
    ensures In(doc, code, f) && WalkAll(stmts, doc, code, ch).Clash?
    decreases stmts, 0
  {
    if !Follow(stmts[0], f).ok {
      doc, code, ch := Object(stmts[0], f);
    } else {
      var d, c, rest := ObjectAll(stmts[1..], Follow(stmts[0], f).out);
      doc, code, ch := Reach(stmts[0], f, d, c);
      WalkMore(stmts[0], doc, code, ch, rest);
      assert [] + rest == rest;
      ch := ch + rest;
    }
  }

  /**
   A program passes the scan if and only if no outcome of its conditions can
   bring an `otherwise` to a point where the two readings answer differently.
   */
  lemma FollowExact(st: Stmt)
    ensures Follow(st, ENTRY).ok <==> forall ch :: !Walk(st, false, false, ch).Clash?
  {
    if Follow(st, ENTRY).ok {
      forall ch
        ensures !Walk(st, false, false, ch).Clash?
      {
        WalkWithin(st, ENTRY, false, false, ch);
      }
    } else {
      var doc, code, ch := Object(st, ENTRY);
    }
  }

  /**
   Every run follows a way through its program: either the two readings end
   alike, with the flags the way says, or the way brings an `otherwise` to
   where they answer differently.
   */
  lemma {:induction false} RunFollows(inp: Input, st: Stmt, s: State, doc: History, code: History) returns (ch: seq<bool>)
    ensures var w := Walk(st, AnyTaken(doc), AnyTaken(code), ch);
            var r, r' := DocStmt(inp, st, s, doc), ExecStmt(inp, st, s, code);
            w.Clash? || (SameEnd(r, r') && (r'.Done? ==> w == Way(AnyTaken(r.hist), AnyTaken(r'.hist), [])))
    decreases st, 1
  {
    ch := [];
    match st
    case ExprStmt(e) => if Alike(Plain(e), doc, code) { ExprIgnores(inp, e, s, doc, code); }
    case Store(lv, e, _) =>
      if Alike(PlainArgs(lv.args) && Plain(e), doc, code) {
        StoreIgnores(inp, st, s, doc, code);
      }
    case Cond(_, _, _) => ch := CondFollows(inp, st, s, doc, code);
    case Block(stmts) => ch := AllFollow(inp, stmts, s, doc, code);
    case Instance(body) => ch := RunFollows(inp, body, s, doc, code);
    case Stop =>
    case Remove(lv, _) => if Alike(PlainArgs(lv.args), doc, code) { PlaceIgnores(inp, lv, s, doc, code); }
  }

  lemma {:induction false} CondFollows(inp: Input, st: Stmt, s: State, doc: History, code: History) returns (ch: seq<bool>)
    requires st.Cond?
    ensures var w := Walk(st, AnyTaken(doc), AnyTaken(code), ch);
            var r, r' := DocStmt(inp, st, s, doc), ExecStmt(inp, st, s, code);
            w.Clash? || (SameEnd(r, r') && (r'.Done? ==> w == Way(AnyTaken(r.hist), AnyTaken(r'.hist), [])))
    decreases st, 0
  {
    ch := [];
    if Alike(Plain(st.c), doc, code) {
      ExprIgnores(inp, st.c, s, doc, code);
      var v := EvalExpr(inp, st.c, s, code);
      if v.Val? {
        var take, rest := !Falsy(v.p), [];
        assert IsOtherwise(st.c) ==> take == !AnyTaken(code);
        TakenAfter(doc, take);
        TakenAfter(code, take);
        if take {
          assert !AnyTaken([]);
          rest := RunFollows(inp, st.truth, v.s, [], []);
        } else if st.els.Some? {
          assert !AnyTaken([]);
          rest := RunFollows(inp, st.els.value, v.s, [], code + [false]);
        }
        ch := Choose(st, take, rest);
        ChooseWalks(st, take, AnyTaken(doc), AnyTaken(code), rest);
      }
    }
  }

  lemma {:induction false} AllFollow(inp: Input, stmts: seq<Stmt>, s: State, doc: History, code: History) returns (ch: seq<bool>)
    ensures var w := WalkAll(stmts, AnyTaken(doc), AnyTaken(code), ch);
            var r, r' := DocAll(inp, stmts, s, doc), ExecAll(inp, stmts, s, code);
            w.Clash? || (SameEnd(r, r') && (r'.Done? ==> w == Way(AnyTaken(r.hist), AnyTaken(r'.hist), [])))
    decreases stmts, 0
  {
    ch := [];
    if stmts != [] {
      ch := RunFollows(inp, stmts[0], s, doc, code);
      var w := Walk(stmts[0], AnyTaken(doc), AnyTaken(code), ch);
      var r, r' := DocStmt(inp, stmts[0], s, doc), ExecStmt(inp, stmts[0], s, code);
      if !w.Clash? && r'.Done? {
        var rest := AllFollow(inp, stmts[1..], r'.s, r.hist, r'.hist);
        WalkMore(stmts[0], AnyTaken(doc), AnyTaken(code), ch, rest);
        assert [] + rest == rest;
        ch := ch + rest;
      }
    }
  }

  // ---- programs that always pass ----

  /** A program that never asks passes. */
  predicate Silent(st: Stmt)
    decreases st, 1
  {
    match st
    case ExprStmt(e) => Plain(e)
    case Store(lv, e, _) => PlainArgs(lv.args) && Plain(e)
    case Cond(c, truth, els) => Plain(c) && Silent(truth) && (els.Some? ==> Silent(els.value))
    case Block(stmts) => SilentAll(stmts)
    case Instance(body) => Silent(body)
    case Stop => true
    case Remove(lv, _) => PlainArgs(lv.args)
  }

  predicate SilentAll(stmts: seq<Stmt>)
    decreases stmts, 0
  {
    stmts != [] ==> Silent(stmts[0]) && SilentAll(stmts[1..])
  }

  lemma {:induction false} SilentPasses(st: Stmt, f: Flags)
    requires Silent(st)
    ensures Follow(st, f).ok
    decreases st, 1
  {
    match st
    case Cond(c, truth, els) =>
      SilentPasses(truth, ENTRY);
      if els.Some? {
        SilentPasses(els.value, ENTRY);
        SilentPasses(els.value, APART);
      }
    case Block(stmts) => SilentAllPasses(stmts, f);
    case Instance(body) => SilentPasses(body, f);
    case _ =>
  }

  lemma {:induction false} SilentAllPasses(stmts: seq<Stmt>, f: Flags)
    requires SilentAll(stmts)
    ensures FollowAll(stmts, f).ok
    decreases stmts, 0
  {
    if stmts != [] {
      SilentPasses(stmts[0], f);
      SilentAllPasses(stmts[1..], Follow(stmts[0], f).out);
    }
  }

  /** A program whose else blocks hold no conditional, in particular one without else, passes. */
  lemma {:induction false} ElseSafePasses(st: Stmt, f: Flags)
    requires ElseSafe(st) && !f.apart
    ensures Follow(st, f).ok && !Follow(st, f).out.apart
    decreases st, 1
  {
    match st
    case Cond(c, truth, els) =>
      ElseSafePasses(truth, ENTRY);
      if els.Some? {
        FlatPasses(els.value, ENTRY);
        FlatPasses(els.value, APART);
      }
    case Block(stmts) => ElseSafeAllPasses(stmts, f);
    case Instance(body) => ElseSafePasses(body, f);
    case _ =>
  }

  lemma {:induction false} ElseSafeAllPasses(stmts: seq<Stmt>, f: Flags)
    requires ElseSafeAll(stmts) && !f.apart
    ensures FollowAll(stmts, f).ok && !FollowAll(stmts, f).out.apart
    decreases stmts, 0
  {
    if stmts != [] {
      ElseSafePasses(stmts[0], f);
      ElseSafeAllPasses(stmts[1..], Follow(stmts[0], f).out);
    }
  }

  lemma {:induction false} FlatPasses(st: Stmt, f: Flags)
    requires Flat(st)
    ensures Follow(st, f).ok && (Follow(st, f).out == f || Follow(st, f).out == NOWHERE)
    decreases st, 1
  {
    match st
    case Block(stmts) => FlatAllPasses(stmts, f);
    case Instance(body) => FlatPasses(body, f);
    case _ =>
  }

  lemma {:induction false} FlatAllPasses(stmts: seq<Stmt>, f: Flags)
    requires FlatAll(stmts)
    ensures FollowAll(stmts, f).ok && (FollowAll(stmts, f).out == f || FollowAll(stmts, f).out == NOWHERE)
    decreases stmts, 0
  {
    if stmts != [] {
      FlatPasses(stmts[0], f);
      FlatAllPasses(stmts[1..], Follow(stmts[0], f).out);
    }
  }

  // ---- when they do not ----

  function When(re: string, id: nat, truth: Stmt, els: Option<Stmt>): Stmt {
    Cond(Leaf(Pattern(re, id)), truth, els)
  }

  const NOTHING: Stmt := Block([])
  const STOP_OTHERWISE: Stmt := Cond(Leaf(Otherwise), Stop, None)

  /** A block of two statements runs the second where the first finished. */
  lemma {:induction false} Pair(inp: Input, a: Stmt, b: Stmt, s: State, h: History)
    ensures ExecStmt(inp, Block([a, b]), s, h) ==
            match ExecStmt(inp, a, s, h) case Done(s1, h1) => ExecStmt(inp, b, s1, h1) case r => r
    ensures DocStmt(inp, Block([a, b]), s, h) ==
            match DocStmt(inp, a, s, h) case Done(s1, h1) => DocStmt(inp, b, s1, h1) case r => r
  {
    assert [a, b][1..] == [b] && [b][1..] == [];
    assert forall s1, h1 :: ExecAll(inp, [b], s1, h1) == ExecStmt(inp, b, s1, h1);
    assert forall s1, h1 :: DocAll(inp, [b], s1, h1) == DocStmt(inp, b, s1, h1);
  }

  /**
   A conditional taken inside an else block silences a later `otherwise` of
   the block around it, although no conditional of that block was taken.
   */
  lemma ElseLeaksOut(inp: Input, s: State)
    requires inp.host.find("a", inp.line).None? && inp.host.find("b", inp.line).Some?
    ensures var els := Block([When("b", 1, NOTHING, None)]);
            var prog := Block([When("a", 0, NOTHING, Some(els)), STOP_OTHERWISE]);
            DocStmt(inp, prog, s, []).Stopping? && ExecStmt(inp, prog, s, []).Done?
  {
    var inner := When("b", 1, NOTHING, None);
    var els := Block([inner]);
    var first := When("a", 0, NOTHING, Some(els));
    var s1 := EvalExpr(inp, first.c, s, []).s;
    var s2 := EvalExpr(inp, inner.c, s1, [false]).s;
    Pair(inp, first, STOP_OTHERWISE, s, []);
    assert [inner][1..] == [];
    assert ExecStmt(inp, inner, s1, [false]) == Done(s2, [false] + [true]);
    assert ExecAll(inp, [inner], s1, [false]) == Done(s2, [false] + [true]);
    assert ExecStmt(inp, first, s, []) == Done(s2, [false] + [true]) by { assert [] + [false] == [false]; }
    assert ([false] + [true])[1];
    assert DocStmt(inp, inner, s1, []).Done? && DocAll(inp, [inner], s1, []).Done?;
    assert DocStmt(inp, first, s, []).Done? && DocStmt(inp, first, s, []).hist == [] + [false];
    assert !AnyTaken([] + [false]);
  }

  /**
   A conditional taken before silences an `otherwise` inside a later else
   block, although nothing in that else block was taken.
   */
  lemma ElseLeaksIn(inp: Input, s: State)
    requires inp.host.find("a", inp.line).Some? && inp.host.find("b", inp.line).None?
    ensures var prog := Block([When("a", 0, NOTHING, None), When("b", 1, NOTHING, Some(STOP_OTHERWISE))]);
            DocStmt(inp, prog, s, []).Stopping? && ExecStmt(inp, prog, s, []).Done?
  {
    var first := When("a", 0, NOTHING, None);
    var second := When("b", 1, NOTHING, Some(STOP_OTHERWISE));
    Pair(inp, first, second, s, []);
    var s1 := EvalExpr(inp, first.c, s, []).s;
    var h := [] + [true];
    assert h[0];
    assert ExecStmt(inp, first, s, []) == Done(s1, h) == DocStmt(inp, first, s, []);
    var s2 := EvalExpr(inp, second.c, s1, h).s;
    assert (h + [false])[0] && AnyTaken(h + [false]);
    assert ExecStmt(inp, STOP_OTHERWISE, s2, h + [false]).Done?;
    assert ExecStmt(inp, second, s1, h).Done?;
    assert !AnyTaken([]);
    assert DocStmt(inp, STOP_OTHERWISE, s2, []).Stopping?;
    assert DocStmt(inp, second, s1, h).Stopping?;
  }
}

/**
 Comparisons whose left operand has a type variable for a type: most metrics,
 and calls of builtins.  The generator emits `cmp` for them,
 which looks at the operands (`internal/vm/vm.go`, compare).  For integers
 that makes no difference; for strings it may.
 */
module Comparisons {
  import opened Common
  import opened Syntax
  import opened Machine
  import opened Semantics

  // ---- integers ----

  predicate IsInteger(p: Plain) { p.IntV? || p.NatV? }

  /** On two integers `cmp` and `icmp` are the same instruction. */
  lemma CmpIsIcmp(inp: Input, o: Object, t: Vm, base: seq<Any>, a: Plain, b: Plain, arg: Any)
    requires IsInteger(a) && IsInteger(b) && t.stack == base + [P(a), P(b)]
    ensures Execute(inp, o, t, Instr(OCmp, arg)) == Execute(inp, o, t, Instr(OIcmp, arg))
  {
    assert Rest(t.stack) == base + [P(a)] && Rest(base + [P(a)]) == base;
  }

  /** Expressions of type Int: whatever they are evaluated on, they give an integer. */
  predicate GivesInteger(e: Expr) {
    match e
    case Leaf(t) => t.IntLit?
    case Use(_, how) => how != Get(TString)
    case Unary(op, _) => op.BitNot? || op.Length? || op.StrToInt?
    case Binary(op, _, _) => op.IntBin?
    case _ => false
  }

  lemma IntegerValue(inp: Input, e: Expr, s: State, hist: History)
    requires GivesInteger(e) && EvalExpr(inp, e, s, hist).Val?
    ensures IsInteger(EvalExpr(inp, e, s, hist).p)
  {
    match e
    case Use(_, how) =>
      match how {
        case Get(t) =>
        case Inc =>
        case Dec =>
      }
    case Unary(op, _) =>
      match op {
        case BitNot =>
        case Length =>
        case StrToInt =>
        case _ =>
      }
    case _ =>
  }

  /** Between expressions of type Int an untyped comparison means what the typed one means. */
  lemma UntypedIntegers(inp: Input, rel: Rel, l: Expr, r: Expr, s: State, hist: History)
    requires GivesInteger(l) && GivesInteger(r)
    ensures EvalExpr(inp, Compare(rel, Untyped, l, r), s, hist) == EvalExpr(inp, Compare(rel, Typed(TInt), l, r), s, hist)
  {
    var x := EvalExpr(inp, l, s, hist);
    if x.Val? {
      IntegerValue(inp, l, s, hist);
      if EvalExpr(inp, r, x.s, hist).Val? {
        IntegerValue(inp, r, x.s, hist);
      }
    }
  }

  // ---- strings ----

  /** As the typed comparison of two strings would have it. */
  ghost predicate ComparesAsString(h: Host, a: string) {
    forall b, rel :: RelResult(h, rel, Untyped, StrV(a), StrV(b)) == RelResult(h, rel, Typed(TString), StrV(a), StrV(b))
  }

  /**
   An untyped comparison with a given string on the left is the comparison of
   strings, for every string on the right and every relation, if and only if
   the left one cannot be read as a number.
   */
  lemma UntypedStrings(h: Host, a: string, word: string)
    requires h.parseFloat(word).None?
    ensures ComparesAsString(h, a) <==> h.parseFloat(a).None? && h.parseInt32(a).None?
  {
    if h.parseFloat(a).Some? || h.parseInt32(a).Some? {
      assert RelResult(h, EQ, Untyped, StrV(a), StrV(word)).None?;
      assert RelResult(h, EQ, Typed(TString), StrV(a), StrV(word)).Some?;
    }
  }

  /** `tolower($1) == text`. */
  function LowerIs(text: string): Expr {
    Compare(EQ, Untyped, Unary(ToLower, Leaf(Capref(0, 1))), Leaf(StrLit(text, 0)))
  }

  /** On `1E1`, `tolower($1) == "10"` holds: both sides are ten. */
  lemma TenIsTen(inp: Input, s: State, hist: History, ten: Float)
    requires 0 in s.matches && |s.matches[0]| == 2 && s.matches[0][1] == "1E1" && inp.host.toLower("1E1") == "1e1"
    requires inp.host.parseFloat("1e1") == inp.host.parseFloat("10") == Some(ten) && inp.host.floatEqual(ten, ten)
    ensures EvalExpr(inp, LowerIs("10"), s, hist) == Val(BoolV(true), s)
    ensures EvalExpr(inp, LowerIs("10").(left := Typed(TString)), s, hist) == Val(BoolV(false), s)
  {
    assert EvalExpr(inp, LowerIs("10").l, s, hist) == Val(StrV("1e1"), s);
    assert |"1e1"| != |"10"|;
  }

  /** On `5`, `tolower($1) == "foo"` is an error and not false. */
  lemma NumberAgainstWord(inp: Input, s: State, hist: History)
    requires 0 in s.matches && |s.matches[0]| == 2 && s.matches[0][1] == "5" && inp.host.toLower("5") == "5"
    requires inp.host.parseFloat("5").Some? && inp.host.parseFloat("foo").None?
    ensures EvalExpr(inp, LowerIs("foo"), s, hist) == EvalError(s)
    ensures EvalExpr(inp, LowerIs("foo").(left := Typed(TString)), s, hist) == Val(BoolV(false), s)
  {
    assert EvalExpr(inp, LowerIs("foo").l, s, hist) == Val(StrV("5"), s);
    assert |"5"| != |"foo"|;
  }
}

/**
 How the checker types a binary expression (`internal/vm/checker/checker.go`,
 VisitAfter on BinaryExpr): the least upper bound, unification, and the
 conversions put on the operands.
 */
module Checker {
  import opened Common
  import opened Types
  import opened Unify

  // ---- equality and bound ----

  /** What Equals says, unless it indexes an argument list past its end. */
  datatype Answer = Yes | No | Panics

  /** Equals on resolved types: every argument of the left is held against the third of the right. */
  function EqualsType(a: Type, b: Type): Answer
    decreases a, 1
  {
    match a
    case Var(x) => if x in Vars(b) then Yes else No
    case Op(f, ts) =>
      if b.Var? || f != b.name || |ts| != |b.args| then No
      else if ts == [] then Yes
      else if |b.args| < 3 then Panics
      else EqualsThird(ts, b.args[2])
  }

  function EqualsThird(ts: seq<Type>, u: Type): Answer
    decreases ts, 0
  {
    if ts == [] then Yes
    else
      match EqualsType(ts[0], u)
      case Yes => EqualsThird(ts[1..], u)
      case other => other
  }

  /** Equality of types. */
  function Same(a: Type, b: Type): Answer { if a == b then Yes else No }

  lemma EqualsLeaves(a: Type, b: Type)
    requires Leaf(a) && Leaf(b)
    ensures EqualsType(a, b) == Same(a, b)
  {
    assert b.Op? ==> b.args == [] && Vars(b) == VarsAll([]) == {};
    assert a.Op? && b.Op? ==> (a == b <==> a.name == b.name);
  }

  /** Equals is equality, whatever it is compared with, if and only if its left side is an operator without arguments. */
  lemma EqualsExact(a: Type)
    ensures (a.Op? && a.args == []) <==> forall b :: EqualsType(a, b) == Same(a, b)
  {
    if a.Var? {
      var b := Function([a]);
      assert VarsAll([a]) == Vars(a) + VarsAll([a][1..]);
      assert EqualsType(a, b) == Yes && a != b;
    } else if a.args != [] {
      if EqualsType(a, a) == Yes {
        var other := Op("", [a.args[0]]);
        SizeOfFirst(a.args[0]);
        var b := Op(a.name, [other] + a.args[1..]);
        assert b.args[2] == a.args[2] && b.args[0] == other;
        assert EqualsType(a, b) == Yes && a != b;
      } else {
        assert EqualsType(a, a) != Same(a, a);
      }
    }
  }

  lemma SizeOfFirst(t: Type)
    ensures Op("", [t]) != t
  {
    assert SizeAll([t]) == Size(t) + SizeAll([]);
    assert Size(Op("", [t])) == 1 + Size(t);
  }

  /** LeastUpperBound on resolved leaves. */
  function LubType(a: Type, b: Type): Type {
    if a == b then a
    else if a.Var? then b
    else if b.Var? then a
    else Nullary(LubName(a.name, b.name))
  }

  /** LeastUpperBound on resolved types; the table has entries for operators without arguments only. */
  function Lub(a: Type, b: Type): Option<Type> {
    if EqualsType(a, b) == Panics then None
    else if EqualsType(a, b) == Yes then Some(a)
    else if a.Var? then Some(b)
    else if b.Var? then Some(a)
    else if a == UNDEF then Some(b)
    else if b == UNDEF then Some(a)
    else if a.args == [] && b.args == [] then Some(Nullary(LubName(a.name, b.name)))
    else Some(ERROR)
  }

  lemma LubLeaves(a: Type, b: Type)
    requires Leaf(a) && Leaf(b)
    ensures Lub(a, b) == Some(LubType(a, b))
  {
    EqualsLeaves(a, b);
  }

  /** Number and text types, each of which has a form for every value of the ones before it. */
  const CHAIN: seq<string> := ["Undef", "Int", "Float", "String"]

  predicate AtMost(a: string, b: string) {
    exists i, j :: 0 <= i <= j < |CHAIN| && CHAIN[i] == a && CHAIN[j] == b
  }

  predicate UpperBound(a: string, b: string, c: string) { AtMost(a, c) && AtMost(b, c) }

  lemma ChainOrder(i: nat, j: nat)
    requires i < |CHAIN| && j < |CHAIN|
    ensures AtMost(CHAIN[i], CHAIN[j]) <==> i <= j
    ensures CHAIN[i] == CHAIN[j] <==> i == j
  {
  }

  lemma ChainTop(i: nat, j: nat)
    requires i < |CHAIN| && j < |CHAIN|
    ensures LubName(CHAIN[i], CHAIN[j]) == CHAIN[if i < j then j else i]
  {
  }

  /** On the chain the bound found is the least of all upper bounds. */
  lemma ChainBound(a: string, b: string, c: string)
    requires a in CHAIN && b in CHAIN
    ensures Lub(Nullary(a), Nullary(b)) == Some(Nullary(c)) <==>
            UpperBound(a, b, c) && forall d :: UpperBound(a, b, d) ==> AtMost(c, d)
  {
    hide LubName, AtMost;
    LubLeaves(Nullary(a), Nullary(b));
    var i: nat :| i < |CHAIN| && CHAIN[i] == a;
    var j: nat :| j < |CHAIN| && CHAIN[j] == b;
    var k := if i < j then j else i;
    ChainTop(i, j);
    ChainTop(j, j);
    ChainOrder(i, k);
    ChainOrder(j, k);
    assert UpperBound(a, b, CHAIN[k]);
    forall d | UpperBound(a, b, d)
      ensures AtMost(CHAIN[k], d)
    {
      OnChain(b, d);
    }
    if UpperBound(a, b, c) && AtMost(c, CHAIN[k]) {
      OnlyTop(i, j, k, c);
    }
  }

  lemma OnChain(a: string, b: string)
    requires AtMost(a, b)
    ensures a in CHAIN && b in CHAIN
  {
  }

  lemma OnlyTop(i: nat, j: nat, k: nat, c: string)
    requires i < |CHAIN| && j < |CHAIN| && k == if i < j then j else i
    requires UpperBound(CHAIN[i], CHAIN[j], c) && AtMost(c, CHAIN[k])
    ensures c == CHAIN[k]
  {
    hide AtMost;
    OnChain(c, CHAIN[k]);
    var n: nat :| n < |CHAIN| && CHAIN[n] == c;
    ChainOrder(i, n);
    ChainOrder(j, n);
    ChainOrder(n, k);
  }

  /** What bounds two different types that are not both on the chain; for other pairs there is only the error type. */
  function Mixed(names: set<string>): string {
    if names == {"Pattern", "Bool"} || names == {"Pattern", "Int"} then "Bool"
    else if names == {"Bool", "Int"} then "Int"
    else if names == {"Pattern", "String"} then "Pattern"
    else "Error"
  }

  /** Off the chain: the undefined type is below every type, and the other pairs are those of the table. */
  lemma MixedBound(a: string, b: string)
    requires a != b && !(a in CHAIN && b in CHAIN)
    ensures a == "Undef" ==> Lub(Nullary(a), Nullary(b)) == Some(Nullary(b))
    ensures b == "Undef" ==> Lub(Nullary(a), Nullary(b)) == Some(Nullary(a))
    ensures "Undef" !in {a, b} ==> Lub(Nullary(a), Nullary(b)) == Some(Nullary(Mixed({a, b})))
  {
    LubLeaves(Nullary(a), Nullary(b));
    assert a in {a, b} && b in {a, b};
    assert b == "Undef" || b != "Undef";
  }

  /** IsErrorType looks at the type itself, not at what it resolves to. */
  predicate IsErrorType(t: Type) { t.Op? && t.name == "Error" }

  /** The type of a node, what its operands are converted to, and which of them were wrapped in a conversion. */
  datatype Node = Node(typ: Type, to: Type, convL: bool, convR: bool)

  /** Equals on what the types resolve to. */
  method Equals(h: TypeHeap, a: Type, b: Type) returns (r: Answer)
    requires h.Valid() && h.Known(a) && h.Known(b)
    modifies h`inst
    ensures h.Valid() && h.inst.Keys == old(h.inst.Keys)
    ensures r == EqualsType(Apply(h.sigma, a), Apply(h.sigma, b))
    decreases Size(Apply(h.sigma, a)), 0
  {
    hide Solves;
    hide Acyclic;
    var a1 := h.Root(a);
    var b1 := h.Root(b);
    RootUnbound(h.inst, h.sigma, a1);
    RootUnbound(h.inst, h.sigma, b1);
    if a1.Var? {
      if b1.Var? {
        r := if a1.id == b1.id then Yes else No;
      } else {
        var occurs := h.OccursInType(a1.id, b1);
        r := if occurs then Yes else No;
      }
    } else if b1.Var? || a1.name != b1.name || |a1.args| != |b1.args| {
      r := No;
    } else if a1.args == [] {
      r := Yes;
    } else if |b1.args| < 3 {
      r := Panics;
    } else {
      assert Vars(a1) == VarsAll(a1.args) && Vars(b1) == VarsAll(b1.args);
      VarsOfArg(b1.args, 2);
      r := EqualsArgs(h, a1.args, b1.args[2]);
    }
  }

  /** The loop over the arguments. */
  method EqualsArgs(h: TypeHeap, ts: seq<Type>, u: Type) returns (r: Answer)
    requires h.Valid() && h.KnownAll(ts) && h.Known(u)
    modifies h`inst
    ensures h.Valid() && h.inst.Keys == old(h.inst.Keys)
    ensures r == EqualsThird(ApplyAll(h.sigma, ts), Apply(h.sigma, u))
    decreases SizeAll(ApplyAll(h.sigma, ts)), 1
  {
    ghost var us, v := ApplyAll(h.sigma, ts), Apply(h.sigma, u);
    for i := 0 to |ts|
      invariant h.Valid() && h.inst.Keys == old(h.inst.Keys)
      invariant EqualsThird(us, v) == EqualsThird(us[i..], v)
    {
      VarsOfArg(ts, i);
      VarsOfArg(us, i);
      r := Equals(h, ts[i], u);
      assert us[i..][1..] == us[i + 1..];
      if r != Yes {
        return;
      }
    }
    r := Yes;
  }

  /** LeastUpperBound of what the types resolve to; `None` where Equals panics. */
  method LeastUpperBound(h: TypeHeap, a: Type, b: Type) returns (t: Option<Type>)
    requires h.Valid() && h.Known(a) && h.Known(b)
    modifies h`inst
    ensures h.Valid() && h.inst.Keys == old(h.inst.Keys)
    ensures t.None? <==> Lub(Apply(h.sigma, a), Apply(h.sigma, b)).None?
    ensures t.Some? ==>
              && h.Known(t.value) && Some(Apply(h.sigma, t.value)) == Lub(Apply(h.sigma, a), Apply(h.sigma, b))
              && (Leaf(Apply(h.sigma, t.value)) ==> t.value == Apply(h.sigma, t.value))
  {
    hide Solves;
    hide Acyclic;
    hide EqualsType;
    var a1 := h.Root(a);
    var b1 := h.Root(b);
    var eq := Equals(h, a1, b1);
    ApplyRoot(h.inst, h.sigma, a1);
    ApplyRoot(h.inst, h.sigma, b1);
    if eq == Panics {
      return None;
    }
    if eq == Yes {
      t := Some(a1);
    } else if a1.Var? {
      t := Some(b1);
    } else if b1.Var? {
      t := Some(a1);
    } else if a1 == UNDEF {
      t := Some(b1);
    } else if b1 == UNDEF {
      t := Some(a1);
    } else if a1.args == [] && b1.args == [] {
      t := Some(Nullary(LubName(a1.name, b1.name)));
      assert Vars(t.value) == VarsAll([]);
    } else {
      t := Some(ERROR);
      assert Vars(t.value) == VarsAll([]);
    }
  }

  lemma ApplyRoot(inst: Subst, sigma: Subst, r: Type)
    requires Solves(inst, sigma) && (r.Var? ==> r.id !in inst)
    ensures Leaf(Apply(sigma, r)) ==> Apply(sigma, r) == r
    ensures r.Var? <==> Apply(sigma, r).Var?
    ensures r.Op? ==> Apply(sigma, r).name == r.name && (r.args == [] <==> Apply(sigma, r).args == [])
  {
  }

  /** `sigma` followed by `m`. */
  ghost function Then(sigma: Subst, m: Subst): Subst {
    (map y | y in sigma :: Apply(m, sigma[y])) + m
  }

  lemma ThenApply(inst: Subst, sigma: Subst, m: Subst, t: Type)
    requires Solves(inst, sigma) && m.Keys !! inst.Keys
    ensures Apply(Then(sigma, m), t) == Apply(m, Apply(sigma, t))
    ensures Extends(Then(sigma, m), sigma)
  {
    Compose(sigma, m, Then(sigma, m), t);
    forall x | x in sigma
      ensures Apply(Then(sigma, m), Var(x)) == Apply(Then(sigma, m), sigma[x])
    {
      Compose(sigma, m, Then(sigma, m), sigma[x]);
      ApplyId(sigma, sigma[x]);
    }
  }

  /** Binds the operand that is a variable, and `t`, to the common type. */
  function Both(a: Type, b: Type, t: nat): Subst
    requires a.Var? || b.Var?
  {
    map[(if a.Var? then a.id else b.id) := LubType(a, b), t := LubType(a, b)]
  }

  lemma BothApply(a: Type, b: Type, t: nat)
    requires (a.Var? || b.Var?) && Leaf(a) && Leaf(b) && a != Var(t) && b != Var(t)
    ensures var m, k := Both(a, b, t), LubType(a, b);
            Leaf(k) && Apply(m, a) == k && Apply(m, b) == k && Apply(m, Var(t)) == k && Apply(m, k) == k
  {
  }

  /** If either operand is a variable, the two sides of an arithmetic node can be made equal. */
  lemma ArithUnifier(inst: Subst, sigma: Subst, t: nat, l: Type, r: Type, typ: Type) returns (th: Subst)
    requires Solves(inst, sigma) && t !in inst
    requires t !in Vars(Apply(sigma, l)) && t !in Vars(Apply(sigma, r))
    requires Leaf(Apply(sigma, l)) && Leaf(Apply(sigma, r))
    requires Apply(sigma, typ) == LubType(Apply(sigma, l), Apply(sigma, r))
    requires Apply(sigma, l).Var? || Apply(sigma, r).Var?
    ensures Unifier(th, sigma, Function([Var(t), Var(t), Var(t)]), Function([l, r, typ]))
    ensures Leaf(Apply(th, typ))
  {
    var a, b := Apply(sigma, l), Apply(sigma, r);
    var k := LubType(a, b);
    var m: Subst := Both(a, b, t);
    ResolvedVars(inst, sigma, l);
    ResolvedVars(inst, sigma, r);
    th := Then(sigma, m);
    ThenApply(inst, sigma, m, Var(t));
    ThenApply(inst, sigma, m, l);
    ThenApply(inst, sigma, m, r);
    ThenApply(inst, sigma, m, typ);
    assert Apply(sigma, Var(t)) == Var(t);
    BothApply(a, b, t);
    hide Then;
    hide Both;
    ApplyThree(th, Var(t), Var(t), Var(t));
    ApplyThree(th, l, r, typ);
  }

  lemma ApplyThree(s: Subst, a: Type, b: Type, c: Type)
    ensures Apply(s, Function([a, b, c])) == Function([Apply(s, a), Apply(s, b), Apply(s, c)])
  {
    assert ApplyAll(s, [a, b, c]) == [Apply(s, a), Apply(s, b), Apply(s, c)];
  }

  lemma VarsThree(a: Type, b: Type, c: Type)
    ensures Vars(Function([a, b, c])) == Vars(a) + Vars(b) + Vars(c)
  {
    assert [a, b, c][1..] == [b, c] && [b, c][1..] == [c] && [c][1..] == [];
    assert VarsAll([c]) == Vars(c) + VarsAll([]);
    assert VarsAll([b, c]) == Vars(b) + VarsAll([c]);
    assert VarsAll([a, b, c]) == Vars(a) + VarsAll([b, c]);
  }

  /** Resolving brings in no variable that was not handed out. */
  lemma KnownResolved(h: TypeHeap, t: Type)
    requires h.Valid() && h.Known(t)
    ensures h.Known(Apply(h.sigma, t))
  {
    forall y | y in Vars(Apply(h.sigma, t))
      ensures y < h.next
    {
      VarsApply(h.sigma, t, y);
      var x :| x in Vars(t) && y in Vars(Apply(h.sigma, Var(x)));
      KnownVar(h, x, y);
    }
  }

  lemma {:induction false} KnownVar(h: TypeHeap, x: nat, y: nat)
    requires h.Valid() && x < h.next && y in Vars(Apply(h.sigma, Var(x)))
    ensures y < h.next
    decreases At(h.rank, x)
  {
    if x in h.inst {
      VarsApply(h.sigma, h.inst[x], y);
      var z :| z in Vars(h.inst[x]) && y in Vars(Apply(h.sigma, Var(z)));
      KnownVar(h, z, y);
    }
  }

  lemma ArithLeaf(th: Subst, before: Subst, after: Subst, a: Type, b: Type, ok: bool, typ: Type)
    requires Unified(before, after, a, b, ok) && Unifier(th, before, a, b) && Leaf(Apply(th, typ))
    ensures Leaf(Apply(after, typ))
  {
    ExtendsApply(th, after, typ);
  }

  lemma ArithEqual(th: Subst, before: Subst, after: Subst, t: Type, l: Type, r: Type, typ: Type, ok: bool)
    requires Unified(before, after, Function([t, t, t]), Function([l, r, typ]), ok)
    requires Unifier(th, before, Function([t, t, t]), Function([l, r, typ]))
    requires Leaf(Apply(th, typ))
    ensures ok && Apply(after, l) == Apply(after, r) == Apply(after, typ)
    ensures Leaf(Apply(after, typ))
  {
    hide Unified;
    hide Extends;
    hide ApplyAll;
    UnifiedEqual(th, before, after, Function([t, t, t]), Function([l, r, typ]), ok);
    ApplyThree(after, t, t, t);
    ApplyThree(after, l, r, typ);
    var x, y := [Apply(after, t), Apply(after, t), Apply(after, t)], [Apply(after, l), Apply(after, r), Apply(after, typ)];
    assert x == y;
    assert x[0] == y[0] && x[1] == y[1] && x[2] == y[2];
    ArithLeaf(th, before, after, Function([t, t, t]), Function([l, r, typ]), ok, typ);
  }

  /** `t -> t -> t` for a new `t` against the operand types and their least upper bound. */
  method UnifyOperands(h: TypeHeap, lT: Type, rT: Type, typ: Type) returns (ok: bool)
    requires h.Valid() && h.Known(lT) && h.Known(rT) && h.Known(typ)
    requires Leaf(Apply(h.sigma, lT)) && Leaf(Apply(h.sigma, rT))
    requires Apply(h.sigma, typ) == LubType(Apply(h.sigma, lT), Apply(h.sigma, rT)) && !IsErrorType(Apply(h.sigma, typ))
    modifies h`inst, h`next, h`sigma, h`rank
    ensures h.Valid() && h.Known(lT) && h.Known(rT) && h.Known(typ) && Extends(h.sigma, old(h.sigma)) && ok
    ensures old(Apply(h.sigma, lT)).Var? || old(Apply(h.sigma, rT)).Var? ==>
              Leaf(Apply(h.sigma, typ)) && Apply(h.sigma, lT) == Apply(h.sigma, rT) == Apply(h.sigma, typ)
  {
    hide Extends;
    hide Unified;
    hide Reasoned;
    hide Solves;
    hide Acyclic;
    KnownResolved(h, lT);
    KnownResolved(h, rT);
    var t := h.NewVariable();
    ghost var before, inst := h.sigma, h.inst;
    ghost var open := Apply(before, lT).Var? || Apply(before, rT).Var?;
    VarsThree(t, t, t);
    VarsThree(lT, rT, typ);
    ghost var th: Subst := map[];
    if open {
      th := ArithUnifier(h.inst, before, t.id, lT, rT, typ);
    }
    var err := h.Unify(Function([t, t, t]), Function([lT, rT, typ]));
    ok := err.None?;
    UnifiedExtends(before, h.sigma, Function([t, t, t]), Function([lT, rT, typ]), ok);
    if open {
      ArithEqual(th, before, h.sigma, t, lT, rT, typ, ok);
    } else {
      ArithAccepted(inst, before, h.sigma, t, lT, rT, typ, ok);
    }
  }

  /** A common type is compatible with what it bounds. */
  lemma LubAbsorbs(l: Type, r: Type)
    requires l.Op? && r.Op? && Leaf(l) && Leaf(r) && !IsErrorType(LubType(l, r))
    ensures Compat(l, r) && Compat(l, LubType(l, r))
  {
  }

  /** Later bindings leave a concrete leaf as it is. */
  lemma Fixed(before: Subst, after: Subst, u: Type)
    requires Extends(after, before) && Apply(before, u).Op? && Leaf(Apply(before, u))
    ensures Apply(after, u) == Apply(before, u)
  {
    ExtendsApply(after, before, u);
  }

  /** The new variable, unified with a concrete type, becomes that type. */
  lemma FirstStep(inst: Subst, before: Subst, after: Subst, t: Type, l: Type)
    requires Solves(inst, before) && t.Var? && t.id !in inst
    requires Apply(before, l).Op? && Leaf(Apply(before, l)) && Unified(before, after, t, l, true)
    ensures Apply(after, t) == Apply(before, l)
  {
    var m: Subst := map[t.id := Apply(before, l)];
    var th := Then(before, m);
    ThenApply(inst, before, m, t);
    ThenApply(inst, before, m, l);
    UnifiedEqual(th, before, after, t, l, true);
    Fixed(before, after, l);
  }

  /** Concrete operands: the new variable takes the left type, which goes with the right one and with their bound. */
  lemma ArithAccepted(inst: Subst, before: Subst, after: Subst, t: Type, l: Type, r: Type, typ: Type, ok: bool)
    requires Solves(inst, before) && t.Var? && t.id !in inst
    requires Apply(before, l).Op? && Leaf(Apply(before, l)) && Apply(before, r).Op? && Leaf(Apply(before, r))
    requires Apply(before, typ) == LubType(Apply(before, l), Apply(before, r)) && !IsErrorType(Apply(before, typ))
    requires Reasoned(before, after, Function([t, t, t]), Function([l, r, typ]), ok)
    ensures ok
  {
    var ts, us := [t, t, t], [l, r, typ];
    var ss :| Chain(before, after, ts, us, ss, ok);
    LubAbsorbs(Apply(before, l), Apply(before, r));
    if !ok {
      ArithSteps(inst, before, t, l, r, typ, ss, |ss| - 1);
    }
  }

  /** Whichever pair comes next, it goes together. */
  lemma ArithSteps(inst: Subst, before: Subst, t: Type, l: Type, r: Type, typ: Type, ss: seq<Subst>, n: nat)
    requires Solves(inst, before) && t.Var? && t.id !in inst && n < 3
    requires Apply(before, l).Op? && Leaf(Apply(before, l)) && Apply(before, r).Op? && Leaf(Apply(before, r))
    requires Apply(before, typ) == LubType(Apply(before, l), Apply(before, r)) && !IsErrorType(Apply(before, typ))
    requires |ss| == n + 1 && Linked(before, ss[n], [t, t, t], [l, r, typ], ss, n)
    ensures var x, y := Apply(ss[n], t), Apply(ss[n], [l, r, typ][n]);
            Leaf(x) && Leaf(y) && (x.Var? || Compat(x, y))
  {
    hide Unified;
    hide LeafRule;
    LubAbsorbs(Apply(before, l), Apply(before, r));
    if n > 0 {
      assert [t, t, t][0] == t && [l, r, typ][0] == l;
      assert Unified(ss[0], ss[1], t, l, true);
      FirstStep(inst, before, ss[1], t, l);
      UnifiedExtends(before, ss[1], t, l, true);
      Fixed(before, ss[1], r);
      Fixed(before, ss[1], typ);
      if n == 2 {
        assert LeafRule(ss[1], ss[2], [t, t, t][1], [l, r, typ][1], true);
        SecondStep(ss[1], ss[2], t, r);
      }
    }
  }

  lemma SecondStep(before: Subst, after: Subst, a: Type, b: Type)
    requires LeafRule(before, after, a, b, true) && Leaf(Apply(before, a)) && Leaf(Apply(before, b))
    requires Apply(before, a).Op? && Apply(before, b).Op?
    ensures after == before
  {
  }

  /** Nothing but Error bounds an Error. */
  lemma ErrorBounds(sigma: Subst, l: Type, r: Type)
    requires Leaf(Apply(sigma, l)) && Leaf(Apply(sigma, r))
    ensures IsErrorType(l) || IsErrorType(r) ==> IsErrorType(LubType(Apply(sigma, l), Apply(sigma, r)))
  {
  }

  /** A concrete operand is converted if it is not of the common type already; an open one never is. */
  predicate Converts(a: Type, b: Type, operand: Type) { a.Op? && b.Op? && LubType(a, b) != operand }

  /** Division or modulus by a literal zero, seen if the literal has not been wrapped in a conversion. */
  predicate ZeroDivisor(a: Type, b: Type, divides: bool, rhs: Option<int>) {
    divides && rhs == Some(0) && !Converts(a, b, b)
  }

  /** After unification, which operands differ from the common type. */
  lemma Promoted(before: Subst, after: Subst, lT: Type, rT: Type, typ: Type)
    requires Leaf(Apply(before, lT)) && Leaf(Apply(before, rT)) && Extends(after, before)
    requires Apply(before, typ) == LubType(Apply(before, lT), Apply(before, rT))
    requires Apply(before, lT).Var? || Apply(before, rT).Var? ==>
               Leaf(Apply(after, typ)) && Apply(after, lT) == Apply(after, rT) == Apply(after, typ)
    ensures var a, b := Apply(before, lT), Apply(before, rT);
            && Leaf(Apply(after, lT)) && Leaf(Apply(after, rT)) && Leaf(Apply(after, typ))
            && (Apply(after, typ) != Apply(after, lT) <==> Converts(a, b, a))
            && (Apply(after, typ) != Apply(after, rT) <==> Converts(a, b, b))
  {
    hide Extends;
    var a, b := Apply(before, lT), Apply(before, rT);
    if a.Op? && b.Op? {
      Fixed(before, after, lT);
      Fixed(before, after, rT);
      Fixed(before, after, typ);
    }
  }

  /** Convert each operand whose type is not the common one. */
  method Promote(h: TypeHeap, typ: Type, lT: Type, rT: Type, ghost before: Subst) returns (convL: bool, convR: bool)
    requires h.Valid() && h.Known(typ) && h.Known(lT) && h.Known(rT)
    requires Leaf(Apply(before, lT)) && Leaf(Apply(before, rT)) && Extends(h.sigma, before)
    requires Apply(before, typ) == LubType(Apply(before, lT), Apply(before, rT))
    requires Apply(before, lT).Var? || Apply(before, rT).Var? ==>
               Leaf(Apply(h.sigma, typ)) && Apply(h.sigma, lT) == Apply(h.sigma, rT) == Apply(h.sigma, typ)
    modifies h`inst
    ensures h.Valid() && Leaf(Apply(h.sigma, typ))
    ensures var a, b := Apply(before, lT), Apply(before, rT);
            (convL <==> Converts(a, b, a)) && (convR <==> Converts(a, b, b))
    ensures Apply(h.sigma, if convL then typ else lT) == Apply(h.sigma, typ)
    ensures Apply(h.sigma, if convR then typ else rT) == Apply(h.sigma, typ)
  {
    Promoted(before, h.sigma, lT, rT, typ);
    hide Apply;
    hide Extends;
    EqualsLeaves(Apply(h.sigma, typ), Apply(h.sigma, lT));
    EqualsLeaves(Apply(h.sigma, typ), Apply(h.sigma, rT));
    var l := Equals(h, typ, lT);
    var r := Equals(h, typ, rT);
    convL, convR := l != Yes, r != Yes;
  }

  /**
   `+ - * / % **`, with the value of a right operand that is an integer
   literal.  A node is rejected exactly when its operands have no common type
   or it divides by a literal zero that needs no conversion; the operands of an
   accepted node have its type once the conversions are applied.
   */
  method CheckArith(h: TypeHeap, lT: Type, rT: Type, divides: bool, rhs: Option<int>) returns (n: Option<Node>)
    requires h.Valid() && h.Known(lT) && h.Known(rT)
    requires Leaf(Apply(h.sigma, lT)) && Leaf(Apply(h.sigma, rT))
    modifies h`inst, h`next, h`sigma, h`rank
    ensures h.Valid() && Extends(h.sigma, old(h.sigma))
    ensures var a, b := old(Apply(h.sigma, lT)), old(Apply(h.sigma, rT));
            && (n.None? <==> IsErrorType(LubType(a, b)) || ZeroDivisor(a, b, divides, rhs))
            && (n.Some? ==> n.value.typ == LubType(a, b) && n.value.to == n.value.typ)
            && (n.Some? ==> (n.value.convL <==> Converts(a, b, a)) && (n.value.convR <==> Converts(a, b, b)))
    ensures n.Some? ==>
              && Apply(h.sigma, if n.value.convL then n.value.to else lT) == Apply(h.sigma, n.value.typ)
              && Apply(h.sigma, if n.value.convR then n.value.to else rT) == Apply(h.sigma, n.value.typ)
  {
    ExtendsSelf(h.inst, h.sigma);
    ErrorBounds(h.sigma, lT, rT);
    hide Extends;
    hide Solves;
    hide Acyclic;
    hide Apply;
    if IsErrorType(lT) || IsErrorType(rT) {
      return None;
    }
    LubLeaves(Apply(h.sigma, lT), Apply(h.sigma, rT));
    var lub := LeastUpperBound(h, lT, rT);
    var typ := lub.value;
    if IsErrorType(typ) {
      return None;
    }
    ghost var before := h.sigma;
    var ok := UnifyOperands(h, lT, rT, typ);
    if !ok {
      return None;
    }
    var l, r := Promote(h, typ, lT, rT, before);
    if divides && rhs == Some(0) && !r {
      return None;
    }
    n := Some(Node(typ, typ, l, r));
  }

  // ---- comparisons and logical operators ----

  /** If either operand is a variable, it can be made the other: then both are the common type. */
  lemma CompareUnifier(inst: Subst, sigma: Subst, t: Type, l: Type, r: Type) returns (th: Subst)
    requires Solves(inst, sigma)
    requires Leaf(Apply(sigma, l)) && Leaf(Apply(sigma, r))
    requires Apply(sigma, t) == LubType(Apply(sigma, l), Apply(sigma, r))
    requires Apply(sigma, l).Var? || Apply(sigma, r).Var?
    ensures Unifier(th, sigma, Function([t, t, BOOL]), Function([l, r, BOOL]))
    ensures Leaf(Apply(th, t)) && Apply(th, l) == Apply(th, t) == Apply(th, r)
  {
    var a, b := Apply(sigma, l), Apply(sigma, r);
    var k := LubType(a, b);
    var m: Subst := map[(if a.Var? then a.id else b.id) := k];
    ResolvedVars(inst, sigma, l);
    ResolvedVars(inst, sigma, r);
    assert Apply(m, a) == k && Apply(m, b) == k && Apply(m, k) == k;
    th := Then(sigma, m);
    ThenApply(inst, sigma, m, t);
    ThenApply(inst, sigma, m, l);
    ThenApply(inst, sigma, m, r);
    hide Then;
    ApplyThree(th, t, t, BOOL);
    ApplyThree(th, l, r, BOOL);
  }

  /** Concrete operands with a common type: each pair goes together and binds nothing. */
  lemma CompareAccepted(before: Subst, after: Subst, t: Type, l: Type, r: Type, ok: bool)
    requires Apply(before, l).Op? && Leaf(Apply(before, l)) && Apply(before, r).Op? && Leaf(Apply(before, r))
    requires Apply(before, t) == LubType(Apply(before, l), Apply(before, r)) && !IsErrorType(Apply(before, t))
    requires Reasoned(before, after, Function([t, t, BOOL]), Function([l, r, BOOL]), ok)
    ensures ok
  {
    var ts, us := [t, t, BOOL], [l, r, BOOL];
    var ss :| Chain(before, after, ts, us, ss, ok);
    if !ok {
      CompareSteps(before, t, l, r, ss, |ss| - 1);
    }
  }

  lemma BoundAbsorbs(a: Type, b: Type)
    requires a.Op? && b.Op? && Leaf(a) && Leaf(b) && !IsErrorType(LubType(a, b))
    ensures Compat(LubType(a, b), a) && Compat(LubType(a, b), b)
  {
    LubAbsorbs(a, b);
    LubAbsorbs(b, a);
    CompatSym(a, LubType(a, b));
    CompatSym(b, LubType(b, a));
  }

  lemma CompareSteps(before: Subst, t: Type, l: Type, r: Type, ss: seq<Subst>, n: nat)
    requires n < 3
    requires Apply(before, l).Op? && Leaf(Apply(before, l)) && Apply(before, r).Op? && Leaf(Apply(before, r))
    requires Apply(before, t) == LubType(Apply(before, l), Apply(before, r)) && !IsErrorType(Apply(before, t))
    requires |ss| == n + 1 && Linked(before, ss[n], [t, t, BOOL], [l, r, BOOL], ss, n)
    ensures var x, y := Apply(ss[n], [t, t, BOOL][n]), Apply(ss[n], [l, r, BOOL][n]);
            Leaf(x) && Leaf(y) && Compat(x, y)
  {
    hide Unified;
    hide LeafRule;
    var a, b := Apply(before, l), Apply(before, r);
    BoundAbsorbs(a, b);
    if n > 0 {
      assert LeafRule(ss[0], ss[1], [t, t, BOOL][0], [l, r, BOOL][0], true);
      SecondStep(ss[0], ss[1], t, l);
      if n == 2 {
        assert LeafRule(ss[1], ss[2], [t, t, BOOL][1], [l, r, BOOL][1], true);
        SecondStep(ss[1], ss[2], t, r);
      }
    }
  }

  /** `t -> t -> Bool` for the least upper bound `t` against the operand types and Bool. */
  method UnifyComparands(h: TypeHeap, lT: Type, rT: Type, t: Type) returns (ok: bool)
    requires h.Valid() && h.Known(lT) && h.Known(rT) && h.Known(t)
    requires Leaf(Apply(h.sigma, lT)) && Leaf(Apply(h.sigma, rT))
    requires Apply(h.sigma, t) == LubType(Apply(h.sigma, lT), Apply(h.sigma, rT)) && !IsErrorType(Apply(h.sigma, t))
    modifies h`inst, h`next, h`sigma, h`rank
    ensures h.Valid() && h.Known(lT) && h.Known(rT) && h.Known(t) && Extends(h.sigma, old(h.sigma)) && ok
    ensures old(Apply(h.sigma, lT)).Var? || old(Apply(h.sigma, rT)).Var? ==>
              Leaf(Apply(h.sigma, t)) && Apply(h.sigma, lT) == Apply(h.sigma, rT) == Apply(h.sigma, t)
  {
    hide Extends;
    hide Unified;
    hide Reasoned;
    hide Solves;
    hide Acyclic;
    ghost var before := h.sigma;
    ghost var open := Apply(before, lT).Var? || Apply(before, rT).Var?;
    VarsThree(t, t, BOOL);
    VarsThree(lT, rT, BOOL);
    ghost var th: Subst := map[];
    if open {
      th := CompareUnifier(h.inst, before, t, lT, rT);
    }
    var err := h.Unify(Function([t, t, BOOL]), Function([lT, rT, BOOL]));
    ok := err.None?;
    UnifiedExtends(before, h.sigma, Function([t, t, BOOL]), Function([lT, rT, BOOL]), ok);
    if open {
      CompareEqual(th, before, h.sigma, t, lT, rT, ok);
    } else {
      CompareAccepted(before, h.sigma, t, lT, rT, ok);
    }
  }

  lemma CompareEqual(th: Subst, before: Subst, after: Subst, t: Type, l: Type, r: Type, ok: bool)
    requires Unified(before, after, Function([t, t, BOOL]), Function([l, r, BOOL]), ok)
    requires Unifier(th, before, Function([t, t, BOOL]), Function([l, r, BOOL]))
    requires Leaf(Apply(th, t))
    ensures ok && Apply(after, l) == Apply(after, r) == Apply(after, t)
    ensures Leaf(Apply(after, t))
  {
    hide Unified;
    hide Extends;
    hide ApplyAll;
    UnifiedEqual(th, before, after, Function([t, t, BOOL]), Function([l, r, BOOL]), ok);
    ApplyThree(after, t, t, BOOL);
    ApplyThree(after, l, r, BOOL);
    var x, y := [Apply(after, t), Apply(after, t), Apply(after, BOOL)], [Apply(after, l), Apply(after, r), Apply(after, BOOL)];
    assert x == y;
    assert x[0] == y[0] && x[1] == y[1];
    ArithLeaf(th, before, after, Function([t, t, BOOL]), Function([l, r, BOOL]), ok, t);
  }

  /**
   `< > <= >= == != && ||`.  The node is Bool, and is rejected exactly when
   its operands have no common type; once the conversions are applied both
   operands have that type.
   */
  method CheckCompare(h: TypeHeap, lT: Type, rT: Type) returns (n: Option<Node>)
    requires h.Valid() && h.Known(lT) && h.Known(rT)
    requires Leaf(Apply(h.sigma, lT)) && Leaf(Apply(h.sigma, rT))
    modifies h`inst, h`next, h`sigma, h`rank
    ensures h.Valid() && Extends(h.sigma, old(h.sigma))
    ensures h.Known(lT) && h.Known(rT) && (n.Some? ==> h.Known(n.value.to) && Leaf(Apply(h.sigma, n.value.to)))
    ensures var a, b := old(Apply(h.sigma, lT)), old(Apply(h.sigma, rT));
            && (n.None? <==> IsErrorType(LubType(a, b)))
            && (n.Some? ==> n.value.typ == BOOL && n.value.to == LubType(a, b))
            && (n.Some? ==> (n.value.convL <==> Converts(a, b, a)) && (n.value.convR <==> Converts(a, b, b)))
    ensures n.Some? ==>
              && Apply(h.sigma, if n.value.convL then n.value.to else lT) == Apply(h.sigma, n.value.to)
              && Apply(h.sigma, if n.value.convR then n.value.to else rT) == Apply(h.sigma, n.value.to)
  {
    ExtendsSelf(h.inst, h.sigma);
    ErrorBounds(h.sigma, lT, rT);
    hide Extends;
    hide Solves;
    hide Acyclic;
    hide Apply;
    if IsErrorType(lT) || IsErrorType(rT) {
      return None;
    }
    LubLeaves(Apply(h.sigma, lT), Apply(h.sigma, rT));
    var lub := LeastUpperBound(h, lT, rT);
    var t := lub.value;
    if IsErrorType(t) {
      return None;
    }
    ghost var before := h.sigma;
    var ok := UnifyComparands(h, lT, rT, t);
    if !ok {
      return None;
    }
    var l, r := Promote(h, t, lT, rT, before);
    n := Some(Node(BOOL, t, l, r));
  }

  // ---- which comparison is generated ----

  /** The comparison opcodes. */
  datatype Cmp = Icmp | Fcmp | Scmp | AnyCmp

  /** What the generator chooses: it looks at the left type itself, not at what it resolves to. */
  function ChosenCmp(t: Type): Cmp {
    if t == FLOAT then Fcmp else if t == INT then Icmp else if t == STRING then Scmp else AnyCmp
  }

  method ChooseCmp(h: TypeHeap, lT: Type, rT: Type) returns (c: Cmp)
    requires h.Valid() && h.Known(lT) && h.Known(rT)
    requires Leaf(Apply(h.sigma, lT)) && Leaf(Apply(h.sigma, rT))
    modifies h`inst
    ensures h.Valid()
    ensures c == if Apply(h.sigma, lT) == Apply(h.sigma, rT) then ChosenCmp(lT) else AnyCmp
  {
    EqualsLeaves(Apply(h.sigma, lT), Apply(h.sigma, rT));
    var eq := Equals(h, lT, rT);
    c := AnyCmp;
    if eq == Yes {
      match lT
      case Op(_, _) =>
        c := if lT == FLOAT then Fcmp else if lT == INT then Icmp else if lT == STRING then Scmp else AnyCmp;
      case Var(_) =>
    }
  }

  /**
   A comparison the checker accepts, handed to the generator.  It gets the
   opcode of its common type if the left operand is converted or has an
   operator for a type; a left operand whose type is a variable gets the
   untyped one, though the type it is compared at may be known by then.
   */
  method CheckedCmp(h: TypeHeap, lT: Type, rT: Type) returns (c: Option<Cmp>)
    requires h.Valid() && h.Known(lT) && h.Known(rT)
    requires Leaf(Apply(h.sigma, lT)) && Leaf(Apply(h.sigma, rT))
    modifies h`inst, h`next, h`sigma, h`rank
    ensures h.Valid() && Extends(h.sigma, old(h.sigma))
    ensures var a, b := old(Apply(h.sigma, lT)), old(Apply(h.sigma, rT));
            && (c.None? <==> IsErrorType(LubType(a, b)))
            && (c.Some? ==>
                  c.value == if lT.Var? && !Converts(a, b, a) then AnyCmp else ChosenCmp(LubType(a, b)))
  {
    var n := CheckCompare(h, lT, rT);
    if n.None? {
      return None;
    }
    var l := if n.value.convL then n.value.to else lT;
    var r := if n.value.convR then n.value.to else rT;
    var cmp := ChooseCmp(h, l, r);
    c := Some(cmp);
  }
}

/**
 Type terms and substitutions: what the type heap of Unify.dfy means
 (`internal/vm/types/types.go`).
 */
module Types {

  /** A type variable, named by its ID, or an operator over argument types. */
  datatype Type = Var(id: nat) | Op(name: string, args: seq<Type>)

  type Subst = map<nat, Type>

  function Nullary(name: string): Type { Op(name, []) }

  const UNDEF := Nullary("Undef")
  const ERROR := Nullary("Error")
  const NONE := Nullary("None")
  const BOOL := Nullary("Bool")
  const INT := Nullary("Int")
  const FLOAT := Nullary("Float")
  const STRING := Nullary("String")

  function Function(args: seq<Type>): Type { Op("→", args) }

  // ---- variables and size ----

  function Vars(t: Type): set<nat> {
    match t
    case Var(x) => {x}
    case Op(_, args) => VarsAll(args)
  }

  function VarsAll(ts: seq<Type>): set<nat> {
    if ts == [] then {} else Vars(ts[0]) + VarsAll(ts[1..])
  }

  function Size(t: Type): nat {
    match t
    case Var(_) => 1
    case Op(_, args) => 1 + SizeAll(args)
  }

  function SizeAll(ts: seq<Type>): nat {
    if ts == [] then 0 else Size(ts[0]) + SizeAll(ts[1..])
  }

  // ---- substitution ----

  function Apply(s: Subst, t: Type): Type {
    match t
    case Var(x) => if x in s then s[x] else t
    case Op(name, args) => Op(name, ApplyAll(s, args))
  }

  function ApplyAll(s: Subst, ts: seq<Type>): (r: seq<Type>)
    ensures |r| == |ts|
    ensures forall i :: 0 <= i < |ts| ==> r[i] == Apply(s, ts[i])
  {
    if ts == [] then [] else [Apply(s, ts[0])] + ApplyAll(s, ts[1..])
  }

  lemma {:induction false} VarsOfArg(ts: seq<Type>, i: nat)
    requires i < |ts|
    ensures Vars(ts[i]) <= VarsAll(ts) && Size(ts[i]) <= SizeAll(ts)
  {
    if i > 0 {
      VarsOfArg(ts[1..], i - 1);
    }
  }

  /** A substitution that touches none of the variables changes nothing. */
  lemma {:induction false} ApplyId(s: Subst, t: Type)
    requires Vars(t) !! s.Keys
    ensures Apply(s, t) == t
    decreases t, 1
  {
    if t.Op? {
      ApplyAllId(s, t.args);
    }
  }

  lemma {:induction false} ApplyAllId(s: Subst, ts: seq<Type>)
    requires VarsAll(ts) !! s.Keys
    ensures ApplyAll(s, ts) == ts
    decreases ts, 0
  {
    if ts != [] {
      ApplyId(s, ts[0]);
      ApplyAllId(s, ts[1..]);
      assert VarsAll(ts) == Vars(ts[0]) + VarsAll(ts[1..]);
    }
  }

  /** Substitutions that agree in two steps and in one on the variables agree on the type. */
  lemma {:induction false} Compose(a: Subst, b: Subst, c: Subst, t: Type)
    requires forall x :: x in Vars(t) ==> Apply(c, Var(x)) == Apply(b, Apply(a, Var(x)))
    ensures Apply(c, t) == Apply(b, Apply(a, t))
    decreases t, 1
  {
    match t
    case Var(x) => assert x in Vars(t);
    case Op(_, args) => ComposeAll(a, b, c, args);
  }

  lemma {:induction false} ComposeAll(a: Subst, b: Subst, c: Subst, ts: seq<Type>)
    requires forall x :: x in VarsAll(ts) ==> Apply(c, Var(x)) == Apply(b, Apply(a, Var(x)))
    ensures ApplyAll(c, ts) == ApplyAll(b, ApplyAll(a, ts))
    decreases ts, 0
  {
    if ts != [] {
      Compose(a, b, c, ts[0]);
      ComposeAll(a, b, c, ts[1..]);
      var r := ApplyAll(a, ts);
      assert r[1..] == ApplyAll(a, ts[1..]);
    }
  }

  /** The variables of a substituted type are those of the substituted variables. */
  lemma {:induction false} VarsApply(s: Subst, t: Type, y: nat)
    ensures y in Vars(Apply(s, t)) <==> exists x :: x in Vars(t) && y in Vars(Apply(s, Var(x)))
    decreases t, 1
  {
    match t
    case Var(x) => assert x in Vars(t);
    case Op(_, args) => VarsApplyAll(s, args, y);
  }

  lemma {:induction false} VarsApplyAll(s: Subst, ts: seq<Type>, y: nat)
    ensures y in VarsAll(ApplyAll(s, ts)) <==> exists x :: x in VarsAll(ts) && y in Vars(Apply(s, Var(x)))
    decreases ts, 0
  {
    if ts != [] {
      VarsApply(s, ts[0], y);
      VarsApplyAll(s, ts[1..], y);
      var r := ApplyAll(s, ts);
      assert r[1..] == ApplyAll(s, ts[1..]);
    }
  }

  /** A variable strictly inside a type stands for something strictly smaller. */
  lemma {:induction false} SizeInside(s: Subst, t: Type, x: nat)
    requires x in Vars(t)
    ensures Size(Apply(s, Var(x))) <= Size(Apply(s, t))
    ensures t.Op? ==> Size(Apply(s, Var(x))) < Size(Apply(s, t))
    decreases t, 1
  {
    if t.Op? {
      SizeInsideAll(s, t.args, x);
    }
  }

  lemma {:induction false} SizeInsideAll(s: Subst, ts: seq<Type>, x: nat)
    requires x in VarsAll(ts)
    ensures Size(Apply(s, Var(x))) <= SizeAll(ApplyAll(s, ts))
    decreases ts, 0
  {
    var r := ApplyAll(s, ts);
    assert r[1..] == ApplyAll(s, ts[1..]);
    if x in Vars(ts[0]) {
      SizeInside(s, ts[0], x);
    } else {
      SizeInsideAll(s, ts[1..], x);
    }
  }

  // ---- instances ----

  /** `th` refines `s`: it gives a variable bound by `s` what it gives its binding. */
  ghost predicate Extends(th: Subst, s: Subst) {
    forall x :: x in s ==> Apply(th, Var(x)) == Apply(th, s[x])
  }

  /** A refinement sees no difference between a type and what `s` makes of it. */
  lemma {:induction false} ExtendsApply(th: Subst, s: Subst, t: Type)
    requires Extends(th, s)
    ensures Apply(th, t) == Apply(th, Apply(s, t))
  {
    Compose(s, th, th, t);
  }

  lemma {:induction false} ExtendsTrans(a: Subst, b: Subst, c: Subst)
    requires Extends(c, b) && Extends(b, a)
    ensures Extends(c, a)
  {
    forall x | x in a
      ensures Apply(c, Var(x)) == Apply(c, a[x])
    {
      ExtendsApply(c, b, Var(x));
      ExtendsApply(c, b, a[x]);
    }
  }

  // ---- coercion ----

  /** LeastUpperBound on two operators of different names, neither of which has arguments. */
  function LubName(a: string, b: string): string {
    if a == b then a
    else if a == "Undef" then b
    else if b == "Undef" then a
    else if (a == "Float" && b == "Int") || (b == "Float" && a == "Int") then "Float"
    else if (a == "String" && (b == "Int" || b == "Float")) || (b == "String" && (a == "Int" || a == "Float")) then "String"
    else if (a == "Pattern" && b == "Bool") || (a == "Bool" && b == "Pattern") then "Bool"
    else if (a == "Bool" && b == "Int") || (a == "Int" && b == "Bool") then "Int"
    else if (a == "String" && b == "Pattern") || (a == "Pattern" && b == "String") then "Pattern"
    else if (a == "Pattern" && b == "Int") || (a == "Int" && b == "Pattern") then "Bool"
    else "Error"
  }

  /** A variable, or an operator without arguments. */
  predicate Leaf(t: Type) { t.Var? || t.args == [] }

  /** The same shape, with leaves equal or having a least upper bound. */
  predicate Compat(a: Type, b: Type) {
    match (a, b)
    case (Var(x), Var(y)) => x == y
    case (Op(f, ts), Op(g, us)) =>
      if f == g then |ts| == |us| && CompatAll(ts, us)
      else ts == [] && us == [] && LubName(f, g) != "Error"
    case _ => false
  }

  predicate CompatAll(ts: seq<Type>, us: seq<Type>)
    requires |ts| == |us|
  {
    ts != [] ==> Compat(ts[0], us[0]) && CompatAll(ts[1..], us[1..])
  }

  lemma {:induction false} CompatRefl(t: Type)
    ensures Compat(t, t)
    decreases t, 1
  {
    if t.Op? {
      CompatAllRefl(t.args);
    }
  }

  lemma {:induction false} CompatAllRefl(ts: seq<Type>)
    ensures CompatAll(ts, ts)
    decreases ts, 0
  {
    if ts != [] {
      CompatRefl(ts[0]);
      CompatAllRefl(ts[1..]);
    }
  }

  lemma {:induction false} CompatIntro(ts: seq<Type>, us: seq<Type>)
    requires |ts| == |us| && forall i :: 0 <= i < |ts| ==> Compat(ts[i], us[i])
    ensures CompatAll(ts, us)
  {
    if ts != [] {
      CompatIntro(ts[1..], us[1..]);
    }
  }

  /** What was made compatible stays so, whatever is bound later. */
  lemma {:induction false} CompatStable(s: Subst, a: Type, b: Type)
    requires Compat(a, b)
    ensures Compat(Apply(s, a), Apply(s, b))
    decreases a, 1
  {
    match a
    case Var(_) => CompatRefl(Apply(s, a));
    case Op(f, ts) =>
      if f == b.name {
        CompatAllStable(s, ts, b.args);
      }
  }

  lemma {:induction false} CompatAllStable(s: Subst, ts: seq<Type>, us: seq<Type>)
    requires |ts| == |us| && CompatAll(ts, us)
    ensures CompatAll(ApplyAll(s, ts), ApplyAll(s, us))
    decreases ts, 0
  {
    if ts != [] {
      CompatStable(s, ts[0], us[0]);
      CompatAllStable(s, ts[1..], us[1..]);
      assert ApplyAll(s, ts)[1..] == ApplyAll(s, ts[1..]);
      assert ApplyAll(s, us)[1..] == ApplyAll(s, us[1..]);
    }
  }

  lemma {:induction false} CompatSym(a: Type, b: Type)
    requires Compat(a, b)
    ensures Compat(b, a)
    decreases a, 1
  {
    if a.Op? && a.name == b.name {
      CompatAllSym(a.args, b.args);
    }
  }

  lemma {:induction false} CompatAllSym(ts: seq<Type>, us: seq<Type>)
    requires |ts| == |us| && CompatAll(ts, us)
    ensures CompatAll(us, ts)
    decreases ts, 0
  {
    if ts != [] {
      CompatSym(ts[0], us[0]);
      CompatAllSym(ts[1..], us[1..]);
    }
  }
}

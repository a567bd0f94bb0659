/**
 Type inference by unification (`internal/vm/types/types.go`): variables with
 instance links, path compression, the occurs check and Unify, proved against
 the substitution the links stand for.
 */
module Unify {
  import opened Common
  import opened Types

  type Ranking = map<nat, nat>

  function At(rank: Ranking, x: nat): nat { if x in rank then rank[x] else 0 }

  // ---- what a graph of links means ----

  /** Links lead from higher to lower rank, so neither Root nor the occurs check can loop. */
  ghost predicate Acyclic(inst: Subst, rank: Ranking) {
    forall x, y :: x in inst && y in Vars(inst[x]) ==> At(rank, y) < At(rank, x)
  }

  /** `sigma` follows every link to the end. */
  ghost predicate Solves(inst: Subst, sigma: Subst) {
    && sigma.Keys == inst.Keys
    && forall x :: x in inst ==> sigma[x] == Apply(sigma, inst[x]) && Vars(sigma[x]) !! inst.Keys
  }

  /** How far above the ends of the links a type is. */
  ghost function Height(rank: Ranking, t: Type): nat { if t.Var? then At(rank, t.id) + 1 else 0 }

  /** Following links from `t` until an operator or an unbound variable. */
  ghost function Chase(inst: Subst, rank: Ranking, t: Type): Type
    requires Acyclic(inst, rank)
    decreases if t.Var? then At(rank, t.id) + 1 else 0
  {
    if t.Var? && t.id in inst then
      assert inst[t.id].Var? ==> inst[t.id].id in Vars(inst[t.id]);
      Chase(inst, rank, inst[t.id])
    else t
  }

  lemma {:induction false} ChaseEnds(inst: Subst, sigma: Subst, rank: Ranking, t: Type)
    requires Acyclic(inst, rank) && Solves(inst, sigma)
    ensures var r := Chase(inst, rank, t);
            && (r.Var? ==> r.id !in inst)
            && Apply(sigma, r) == Apply(sigma, t)
            && (t.Var? && t.id in inst ==> forall y :: y in Vars(r) ==> At(rank, y) < At(rank, t.id))
    decreases if t.Var? then At(rank, t.id) + 1 else 0
  {
    if t.Var? && t.id in inst {
      assert inst[t.id].Var? ==> inst[t.id].id in Vars(inst[t.id]);
      ChaseEnds(inst, sigma, rank, inst[t.id]);
    }
  }

  /** The links determine the substitution: there is only one way to follow them. */
  lemma {:induction false} SolvesUnique(inst: Subst, rank: Ranking, s: Subst, s': Subst, x: nat)
    requires Acyclic(inst, rank) && Solves(inst, s) && Solves(inst, s') && x in inst
    ensures s[x] == s'[x]
    decreases At(rank, x)
  {
    forall y | y in Vars(inst[x])
      ensures Apply(s, Var(y)) == Apply(map[], Apply(s', Var(y)))
    {
      ApplyId(map[], Apply(s', Var(y)));
      if y in inst {
        SolvesUnique(inst, rank, s, s', y);
      }
    }
    Compose(s', map[], s, inst[x]);
    ApplyId(map[], Apply(s', inst[x]));
  }

  /** Resolved types hold unbound variables only. */
  lemma {:induction false} ResolvedVars(inst: Subst, sigma: Subst, t: Type)
    requires Solves(inst, sigma)
    ensures Vars(Apply(sigma, t)) !! inst.Keys
  {
    forall y | y in Vars(Apply(sigma, t))
      ensures y !in inst
    {
      VarsApply(sigma, t, y);
      var x :| x in Vars(t) && y in Vars(Apply(sigma, Var(x)));
    }
  }

  // ---- path compression ----

  /** Pointing a variable at its root changes no root. */
  lemma {:induction false} CompressKeeps(inst: Subst, sigma: Subst, rank: Ranking, x: nat, u: Type)
    requires Acyclic(inst, rank) && Solves(inst, sigma) && x in inst
    ensures var inst' := inst[x := Chase(inst, rank, Var(x))];
            && Acyclic(inst', rank) && Solves(inst', sigma)
            && Chase(inst', rank, u) == Chase(inst, rank, u)
    decreases if u.Var? then At(rank, u.id) + 1 else 0
  {
    var r := Chase(inst, rank, Var(x));
    var inst' := inst[x := r];
    ChaseEnds(inst, sigma, rank, Var(x));
    assert inst'.Keys == inst.Keys;
    assert Acyclic(inst', rank);
    if u.Var? && u.id in inst && u.id != x {
      assert inst[u.id].Var? ==> inst[u.id].id in Vars(inst[u.id]);
      CompressKeeps(inst, sigma, rank, x, inst[u.id]);
    }
  }

  /** No type changed its root. */
  ghost predicate SameRoots(inst: Subst, inst': Subst, rank: Ranking) {
    Acyclic(inst, rank) && Acyclic(inst', rank) && forall u :: Chase(inst', rank, u) == Chase(inst, rank, u)
  }

  lemma SameRootsSelf(inst: Subst, rank: Ranking, t: Type)
    requires Acyclic(inst, rank)
    ensures SameRoots(inst, inst, rank)
    ensures t.Op? || t.id !in inst ==> Chase(inst, rank, t) == t
  {
  }

  lemma SameRootsAt(a: Subst, b: Subst, rank: Ranking, t: Type)
    requires SameRoots(a, b, rank)
    ensures Acyclic(a, rank) && Acyclic(b, rank) && Chase(b, rank, t) == Chase(a, rank, t)
  {
  }

  lemma SameRootsThen(a: Subst, b: Subst, c: Subst, rank: Ranking)
    requires SameRoots(a, b, rank) && SameRoots(b, c, rank)
    ensures SameRoots(a, c, rank)
  {
  }

  lemma CompressAll(inst: Subst, sigma: Subst, rank: Ranking, x: nat)
    requires Acyclic(inst, rank) && Solves(inst, sigma) && x in inst
    ensures var inst' := inst[x := Chase(inst, rank, Var(x))];
            && Acyclic(inst', rank) && Solves(inst', sigma)
            && SameRoots(inst, inst', rank)
  {
    CompressKeeps(inst, sigma, rank, x, Var(x));
    forall u
      ensures Chase(inst[x := Chase(inst, rank, Var(x))], rank, u) == Chase(inst, rank, u)
    {
      CompressKeeps(inst, sigma, rank, x, u);
    }
  }

  lemma ChaseStep(inst: Subst, rank: Ranking, t: Type)
    requires Acyclic(inst, rank) && t.Var? && t.id in inst
    ensures Chase(inst, rank, t) == Chase(inst, rank, inst[t.id])
    ensures Height(rank, inst[t.id]) < Height(rank, t)
  {
    assert inst[t.id].Var? ==> inst[t.id].id in Vars(inst[t.id]);
  }

  // ---- binding a variable ----

  /** The substitution once `x` stands for `s`. */
  ghost function BindSubst(sigma: Subst, x: nat, s: Type): Subst {
    (map y | y in sigma :: Apply(map[x := s], sigma[y]))[x := s]
  }

  /** Everything that reaches `x` moves above everything `x` now reaches. */
  ghost function BindRank(sigma: Subst, rank: Ranking, x: nat, lift: nat): Ranking {
    map y | y in rank.Keys + sigma.Keys + {x} ::
      if x in Vars(Apply(sigma, Var(y))) then At(rank, y) + lift else At(rank, y)
  }

  lemma BindRankAt(sigma: Subst, rank: Ranking, x: nat, lift: nat, y: nat)
    ensures At(BindRank(sigma, rank, x, lift), y) == At(rank, y) + if x in Vars(Apply(sigma, Var(y))) then lift else 0
  {
    if y !in rank.Keys + sigma.Keys + {x} {
      assert Apply(sigma, Var(y)) == Var(y);
    }
  }

  ghost function Above(rank: Ranking, t: Type): (n: nat)
    ensures forall y :: y in Vars(t) ==> At(rank, y) < n
  {
    match t
    case Var(x) => At(rank, x) + 1
    case Op(_, args) => AboveAll(rank, args)
  }

  ghost function AboveAll(rank: Ranking, ts: seq<Type>): (n: nat)
    ensures forall y :: y in VarsAll(ts) ==> At(rank, y) < n
  {
    if ts == [] then 0 else Above(rank, ts[0]) + AboveAll(rank, ts[1..])
  }

  /** `x` may be bound to `r`: a different unbound variable, or an operator that passed the occurs check. */
  ghost predicate Bindable(inst: Subst, sigma: Subst, x: nat, r: Type) {
    Solves(inst, sigma) && x !in inst && x !in Vars(Apply(sigma, r))
  }

  /** Resolving after the binding is resolving before it, then replacing `x`. */
  lemma {:induction false} BindApply(inst: Subst, sigma: Subst, x: nat, s: Type, t: Type)
    requires Solves(inst, sigma) && x !in inst
    ensures Apply(BindSubst(sigma, x, s), t) == Apply(map[x := s], Apply(sigma, t))
  {
    Compose(sigma, map[x := s], BindSubst(sigma, x, s), t);
  }

  lemma {:induction false} BindSolves(inst: Subst, sigma: Subst, x: nat, r: Type)
    requires Bindable(inst, sigma, x, r)
    ensures Solves(inst[x := r], BindSubst(sigma, x, Apply(sigma, r)))
  {
    var s := Apply(sigma, r);
    var sigma' := BindSubst(sigma, x, s);
    var inst' := inst[x := r];
    ResolvedVars(inst, sigma, r);
    ApplyId(map[x := s], s);
    BindApply(inst, sigma, x, s, r);
    forall y | y in inst'
      ensures sigma'[y] == Apply(sigma', inst'[y]) && Vars(sigma'[y]) !! inst'.Keys
    {
      if y != x {
        BindApply(inst, sigma, x, s, inst[y]);
        forall z | z in Vars(sigma'[y])
          ensures z !in inst'
        {
          VarsApply(map[x := s], sigma[y], z);
          var w :| w in Vars(sigma[y]) && z in Vars(Apply(map[x := s], Var(w)));
        }
      }
    }
  }

  lemma {:induction false} BindAcyclic(inst: Subst, sigma: Subst, rank: Ranking, x: nat, r: Type)
    requires Acyclic(inst, rank) && Bindable(inst, sigma, x, r)
    ensures Acyclic(inst[x := r], BindRank(sigma, rank, x, Above(rank, r)))
  {
    var rank' := BindRank(sigma, rank, x, Above(rank, r));
    assert x in Vars(Apply(sigma, Var(x)));
    forall y, z | y in inst[x := r] && z in Vars(inst[x := r][y])
      ensures At(rank', z) < At(rank', y)
    {
      BindRankAt(sigma, rank, x, Above(rank, r), y);
      BindRankAt(sigma, rank, x, Above(rank, r), z);
      if x in Vars(Apply(sigma, Var(z))) {
        VarsApply(sigma, inst[x := r][y], x);
        assert y != x;
        assert x in Vars(Apply(sigma, inst[y]));
      }
    }
  }

  lemma {:induction false} BindExtends(inst: Subst, sigma: Subst, x: nat, r: Type)
    requires Bindable(inst, sigma, x, r)
    ensures Extends(BindSubst(sigma, x, Apply(sigma, r)), sigma)
  {
    var s := Apply(sigma, r);
    forall y | y in sigma
      ensures Apply(BindSubst(sigma, x, s), Var(y)) == Apply(BindSubst(sigma, x, s), sigma[y])
    {
      BindApply(inst, sigma, x, s, sigma[y]);
      ApplyId(sigma, sigma[y]);
    }
  }

  lemma BindSame(inst: Subst, sigma: Subst, x: nat, r: Type)
    requires Bindable(inst, sigma, x, r)
    ensures var after := BindSubst(sigma, x, Apply(sigma, r));
            Apply(after, Var(x)) == Apply(after, r)
  {
    BindApply(inst, sigma, x, Apply(sigma, r), r);
    ApplyId(map[x := Apply(sigma, r)], Apply(sigma, r));
  }

  /** Every refinement that makes `x` and `r` equal refines the bound heap. */
  lemma {:induction false} BindPrincipal(th: Subst, inst: Subst, sigma: Subst, x: nat, r: Type)
    requires Bindable(inst, sigma, x, r)
    requires Extends(th, sigma) && Apply(th, Var(x)) == Apply(th, r)
    ensures Extends(th, BindSubst(sigma, x, Apply(sigma, r)))
  {
    var s := Apply(sigma, r);
    ExtendsApply(th, sigma, r);
    forall y | y in sigma
      ensures Apply(th, Var(y)) == Apply(th, BindSubst(sigma, x, s)[y])
    {
      if y != x {
        Compose(map[x := s], th, th, sigma[y]);
      }
    }
  }

  /** A variable strictly inside an operator has no unifier with it. */
  lemma {:induction false} OccursNoUnifier(th: Subst, sigma: Subst, x: nat, r: Type)
    requires Extends(th, sigma) && r.Op? && x in Vars(Apply(sigma, r))
    ensures Apply(th, Var(x)) != Apply(th, r)
  {
    ExtendsApply(th, sigma, r);
    SizeInside(th, Apply(sigma, r), x);
  }

  // ---- the heap ----

  datatype UnifyError = Mismatch(expected: Type, received: Type) | Recursive(v: Type, t: Type)

  /** What an error names is a real conflict: operators with no common type, or a variable inside its own value. */
  ghost predicate Conflict(sigma: Subst, e: UnifyError) {
    match e
    case Mismatch(a, b) =>
      a.Op? && b.Op? && (|a.args| != |b.args| || (a.name != b.name && (a.args != [] || LubName(a.name, b.name) == "Error")))
    case Recursive(v, t) => v.Var? && t.Op? && v.id in Vars(Apply(sigma, t))
  }

  lemma ConflictFlip(sigma: Subst, a: Type, b: Type)
    requires Conflict(sigma, Mismatch(a, b))
    ensures Conflict(sigma, Mismatch(b, a))
  {
    assert LubName(a.name, b.name) == LubName(b.name, a.name);
  }

  /** `th` makes the two types equal, and respects every binding of `sigma`. */
  ghost predicate Unifier(th: Subst, sigma: Subst, a: Type, b: Type) {
    Extends(th, sigma) && Apply(th, a) == Apply(th, b)
  }

  /** Every unifier there was still refines the heap, and none was missed. */
  ghost predicate Principal(before: Subst, after: Subst, a: Type, b: Type, ok: bool) {
    forall th :: Unifier(th, before, a, b) ==> ok && Extends(th, after)
  }

  lemma BindAllPrincipal(inst: Subst, sigma: Subst, x: nat, r: Type)
    requires Bindable(inst, sigma, x, r)
    ensures Principal(sigma, BindSubst(sigma, x, Apply(sigma, r)), Var(x), r, true)
  {
    forall th | Unifier(th, sigma, Var(x), r)
      ensures Extends(th, BindSubst(sigma, x, Apply(sigma, r)))
    {
      BindPrincipal(th, inst, sigma, x, r);
    }
  }

  /**
   What one Unify does to the meaning of the heap: nothing bound before is
   undone; on success the types have the same shape with coercible leaves; a
   pair that can be made equal is, and no more is bound than that requires.
   */
  ghost predicate Unified(before: Subst, after: Subst, a: Type, b: Type, ok: bool) {
    && Extends(after, before)
    && (ok ==> Compat(Apply(after, a), Apply(after, b)))
    && Principal(before, after, a, b, ok)
  }

  ghost predicate UnifiedAll(before: Subst, after: Subst, ts: seq<Type>, us: seq<Type>, ok: bool)
    requires |ts| == |us|
  {
    && Extends(after, before)
    && (ok ==> CompatAll(ApplyAll(after, ts), ApplyAll(after, us)))
    && forall th :: Extends(th, before) && ApplyAll(th, ts) == ApplyAll(th, us) ==> ok && Extends(th, after)
  }

  lemma UnifiedExtends(before: Subst, after: Subst, a: Type, b: Type, ok: bool)
    requires Unified(before, after, a, b, ok)
    ensures Extends(after, before)
  {
  }

  lemma ExtendsSelf(inst: Subst, sigma: Subst)
    requires Solves(inst, sigma)
    ensures Extends(sigma, sigma)
  {
    forall x | x in sigma
      ensures Apply(sigma, Var(x)) == Apply(sigma, sigma[x])
    {
      ApplyId(sigma, sigma[x]);
    }
  }

  /** Unifying the roots is unifying the types. */
  lemma UnifiedRoots(before: Subst, after: Subst, a: Type, b: Type, a1: Type, b1: Type, ok: bool)
    requires Unified(before, after, a1, b1, ok)
    requires Apply(before, a) == Apply(before, a1) && Apply(before, b) == Apply(before, b1)
    ensures Unified(before, after, a, b, ok)
  {
    ExtendsApply(after, before, a);
    ExtendsApply(after, before, a1);
    ExtendsApply(after, before, b);
    ExtendsApply(after, before, b1);
    forall th | Unifier(th, before, a, b)
      ensures ok && Extends(th, after)
    {
      ExtendsApply(th, before, a);
      ExtendsApply(th, before, a1);
      ExtendsApply(th, before, b);
      ExtendsApply(th, before, b1);
      assert Unifier(th, before, a1, b1);
    }
  }

  lemma UnifiedFlip(before: Subst, after: Subst, a: Type, b: Type, ok: bool)
    requires Unified(before, after, b, a, ok)
    ensures Unified(before, after, a, b, ok)
  {
    if ok {
      CompatSym(Apply(after, b), Apply(after, a));
    }
    forall th | Unifier(th, before, a, b)
      ensures ok && Extends(th, after)
    {
      assert Unifier(th, before, b, a);
    }
  }

  lemma UnifiedBound(before: Subst, after: Subst, x: nat, r: Type)
    requires Extends(after, before) && Apply(after, Var(x)) == Apply(after, r)
    requires Principal(before, after, Var(x), r, true)
    ensures Unified(before, after, Var(x), r, true)
  {
    CompatRefl(Apply(after, r));
  }

  /** Two operators with nothing bound: compatible leaves, or no unifier. */
  lemma UnifiedLeaves(inst: Subst, sigma: Subst, a: Type, b: Type)
    requires Solves(inst, sigma) && a.Op? && b.Op?
    requires a.name != b.name || |a.args| != |b.args|
    ensures Unified(sigma, sigma, a, b, a.args == [] && b.args == [] && LubName(a.name, b.name) != "Error")
  {
    ExtendsSelf(inst, sigma);
    forall th
      ensures !Unifier(th, sigma, a, b)
    {
    }
  }

  lemma UnifiedOccurs(inst: Subst, sigma: Subst, x: nat, r: Type)
    requires Solves(inst, sigma) && r.Op? && x in Vars(Apply(sigma, r))
    ensures Unified(sigma, sigma, Var(x), r, false)
  {
    ExtendsSelf(inst, sigma);
    forall th
      ensures !Unifier(th, sigma, Var(x), r)
    {
      if Unifier(th, sigma, Var(x), r) {
        OccursNoUnifier(th, sigma, x, r);
      }
    }
  }

  lemma UnifiedSame(inst: Subst, sigma: Subst, a: Type)
    requires Solves(inst, sigma)
    ensures Unified(sigma, sigma, a, a, true)
  {
    ExtendsSelf(inst, sigma);
    CompatRefl(Apply(sigma, a));
  }

  lemma UnifiedOps(before: Subst, after: Subst, f: string, ts: seq<Type>, us: seq<Type>, ok: bool)
    requires |ts| == |us| && UnifiedAll(before, after, ts, us, ok)
    ensures Unified(before, after, Op(f, ts), Op(f, us), ok)
  {
    forall th | Unifier(th, before, Op(f, ts), Op(f, us))
      ensures ok && Extends(th, after)
    {
    }
  }

  class TypeHeap {
    var inst: map<nat, Type>
    var next: nat
    ghost var sigma: Subst
    ghost var rank: Ranking

    ghost predicate Valid()
      reads this
    {
      && Acyclic(inst, rank)
      && Solves(inst, sigma)
      && (forall x :: x in inst ==> x < next && Known(inst[x]))
    }

    /** Made of variables this heap has handed out. */
    ghost predicate Known(t: Type)
      reads this
    {
      forall y :: y in Vars(t) ==> y < next
    }

    ghost predicate KnownAll(ts: seq<Type>)
      reads this
    {
      forall y :: y in VarsAll(ts) ==> y < next
    }

    /** How many variables are still unbound. */
    ghost function Free(): nat
      reads this
    {
      |set y: nat | y < next && y !in inst|
    }

    constructor ()
      ensures Valid() && inst == map[] && next == 0
    {
      inst, next := map[], 0;
      sigma, rank := map[], map[];
    }

    method NewVariable() returns (v: Type)
      requires Valid()
      modifies `next
      ensures Valid() && next == old(next) + 1
      ensures v == Var(old(next)) && v.id !in inst && Known(v)
    {
      v := Var(next);
      next := next + 1;
    }

    /** The exemplar of a type; links passed on the way are made to point at it. */
    method Root(t: Type) returns (r: Type)
      requires Valid() && Known(t)
      modifies `inst
      ensures Valid() && inst.Keys == old(inst.Keys) && Known(r)
      ensures r == Chase(old(inst), rank, t)
      ensures SameRoots(old(inst), inst, rank)
      ensures (r.Var? ==> r.id !in inst) && Apply(sigma, r) == Apply(sigma, t)
      decreases Height(rank, t)
    {
      ChaseEnds(inst, sigma, rank, t);
      SameRootsSelf(inst, rank, t);
      hide Chase;
      hide Acyclic;
      hide Solves;
      hide SameRoots;
      hide Apply;
      hide Height;
      hide Vars;
      if t.Op? || t.id !in inst {
        r := t;
      } else {
        ChaseStep(inst, rank, t);
        r := Root(inst[t.id]);
        ghost var before := inst;
        SameRootsAt(old(inst), inst, rank, t);
        Compress(t.id, r);
        SameRootsThen(old(inst), before, inst, rank);
      }
    }

    /** `t.Instance = &r`, once `r` is the root of variable `x`. */
    method Compress(x: nat, r: Type)
      requires Valid() && x in inst && Known(r) && r == Chase(inst, rank, Var(x))
      modifies `inst
      ensures Valid() && inst.Keys == old(inst.Keys) && SameRoots(old(inst), inst, rank)
    {
      hide Chase;
      hide Acyclic;
      hide Solves;
      hide SameRoots;
      hide Vars;
      CompressAll(inst, sigma, rank, x);
      inst := inst[x := r];
    }

    /** The occurs check answers exactly whether `v` is in the resolved type. */
    method OccursInType(v: nat, t: Type) returns (b: bool)
      requires Valid() && Known(t) && v !in inst
      modifies `inst
      ensures Valid() && inst.Keys == old(inst.Keys)
      ensures b <==> v in Vars(Apply(sigma, t))
      decreases Size(Apply(sigma, t)), 0
    {
      var root := Root(t);
      if root == Var(v) {
        return true;
      }
      if root.Op? {
        assert Vars(root) == VarsAll(root.args);
        b := OccursIn(v, root.args);
      } else {
        b := false;
      }
    }

    method OccursIn(v: nat, ts: seq<Type>) returns (b: bool)
      requires Valid() && KnownAll(ts) && v !in inst
      modifies `inst
      ensures Valid() && inst.Keys == old(inst.Keys)
      ensures b <==> v in VarsAll(ApplyAll(sigma, ts))
      decreases SizeAll(ApplyAll(sigma, ts)), 1
    {
      for i := 0 to |ts|
        invariant Valid() && inst.Keys == old(inst.Keys)
        invariant v in VarsAll(ApplyAll(sigma, ts)) ==> v in VarsAll(ApplyAll(sigma, ts[i..]))
      {
        VarsOfArg(ts, i);
        VarsOfArg(ApplyAll(sigma, ts), i);
        b := OccursInType(v, ts[i]);
        if b {
          return;
        }
        assert ts[i..][1..] == ts[i + 1..];
        assert ApplyAll(sigma, ts[i..])[1..] == ApplyAll(sigma, ts[i + 1..]);
      }
      b := false;
    }

    /** A copy of a type scheme with its unbound variables replaced by new ones. */
    method FreshType(t: Type) returns (r: Type, ghost m: map<nat, nat>)
      requires Valid() && Known(t)
      modifies `inst, `next
      ensures Valid() && inst.Keys == old(inst.Keys) && next >= old(next)
      ensures Renames(m, old(next), next) && m.Keys == Vars(Apply(sigma, t))
      ensures r == Apply(Renaming(m), Apply(sigma, t))
    {
      r, m := FreshRec(t, map[], next, {});
    }

    /** `mappings` holds the new variables so far, all handed out since `base`, for the variables `seen`. */
    method FreshRec(t: Type, mappings: map<nat, nat>, ghost base: nat, ghost seen: set<nat>)
      returns (r: Type, m: map<nat, nat>)
      requires Valid() && Known(t) && base <= next && Renames(mappings, base, next) && mappings.Keys == seen
      modifies `inst, `next
      ensures Valid() && inst.Keys == old(inst.Keys) && next >= old(next)
      ensures Renames(m, base, next) && m.Keys == seen + Vars(Apply(sigma, t)) && Within(mappings, m)
      ensures r == Apply(Renaming(m), Apply(sigma, t))
      decreases Size(Apply(sigma, t)), 0
    {
      var p := Root(t);
      match p {
        case Var(x) =>
          ApplyId(sigma, p);
          m := mappings;
          if x !in m {
            var v := NewVariable();
            m := m[x := v.id];
          }
          r := Var(m[x]);
        case Op(name, args) =>
          assert Vars(p) == VarsAll(args);
          var rs;
          rs, m := FreshAll(args, mappings, base, seen);
          r := Op(name, rs);
      }
    }

    method FreshAll(ts: seq<Type>, mappings: map<nat, nat>, ghost base: nat, ghost seen: set<nat>)
      returns (rs: seq<Type>, m: map<nat, nat>)
      requires Valid() && KnownAll(ts) && base <= next && Renames(mappings, base, next) && mappings.Keys == seen
      modifies `inst, `next
      ensures Valid() && inst.Keys == old(inst.Keys) && next >= old(next)
      ensures Renames(m, base, next) && m.Keys == seen + VarsAll(ApplyAll(sigma, ts)) && Within(mappings, m)
      ensures rs == ApplyAll(Renaming(m), ApplyAll(sigma, ts))
      decreases SizeAll(ApplyAll(sigma, ts)), 1
    {
      hide Renames;
      hide Acyclic;
      hide Solves;
      hide Renaming;
      hide Within;
      hide Vars;
      hide Size;
      hide Apply;
      hide ApplyAll;
      hide VarsAll;
      WithinRefl(mappings);
      FreshStart(sigma, mappings, ts);
      rs, m := [], mappings;
      for i := 0 to |ts|
        invariant Valid() && inst.Keys == old(inst.Keys) && next >= old(next)
        invariant Renames(m, base, next) && m.Keys == seen + VarsAll(ApplyAll(sigma, ts[..i])) && Within(mappings, m)
        invariant |rs| == i && rs == ApplyAll(Renaming(m), ApplyAll(sigma, ts[..i]))
      {
        VarsOfArg(ts, i);
        VarsOfArg(ApplyAll(sigma, ts), i);
        ghost var m0 := m;
        var r;
        r, m := FreshRec(ts[i], m, base, m.Keys);
        FreshStep(sigma, m0, m, ts, i, rs, r);
        WithinTrans(mappings, m0, m);
        rs := rs + [r];
      }
      assert ts[..|ts|] == ts;
    }

    /** Bind an unbound variable to a root it does not occur in. */
    method SetInstance(x: nat, r: Type)
      requires Valid() && x < next && Known(r) && Bindable(inst, sigma, x, r)
      modifies `inst, `sigma, `rank
      ensures Valid() && inst == old(inst)[x := r]
      ensures Extends(sigma, old(sigma)) && Apply(sigma, Var(x)) == Apply(sigma, r)
      ensures Principal(old(sigma), sigma, Var(x), r, true)
    {
      hide Acyclic;
      hide Solves;
      hide Extends;
      hide Principal;
      hide Bindable;
      hide Apply;
      ghost var after, rank' := BindSubst(sigma, x, Apply(sigma, r)), BindRank(sigma, rank, x, Above(rank, r));
      hide BindSubst;
      hide BindRank;
      BindSolves(inst, sigma, x, r);
      BindAcyclic(inst, sigma, rank, x, r);
      BindExtends(inst, sigma, x, r);
      BindSame(inst, sigma, x, r);
      BindAllPrincipal(inst, sigma, x, r);
      rank, sigma, inst := rank', after, inst[x := r];
    }

    /** Unify two types; see Unified. */
    method Unify(a: Type, b: Type) returns (r: Option<UnifyError>)
      requires Valid() && Known(a) && Known(b)
      modifies `inst, `sigma, `rank
      ensures Valid() && old(inst.Keys) <= inst.Keys
      ensures inst.Keys == old(inst.Keys) ==> sigma == old(sigma)
      ensures Unified(old(sigma), sigma, a, b, r.None?)
      ensures Reasoned(old(sigma), sigma, a, b, r.None?)
      ensures r.Some? ==> Conflict(sigma, r.value)
      decreases Free(), Size(Apply(sigma, a)), if Apply(sigma, a).Op? then 1 else 0
    {
      hide Unified;
      hide Extends;
      hide Principal;
      hide Compat;
      hide Reasoned;
      var a1 := Root(a);
      var b1 := Root(b);
      RootUnbound(inst, sigma, a1);
      RootUnbound(inst, sigma, b1);
      match a1 {
        case Var(x) =>
          if b1 == a1 {
            r := None;
            UnifiedSame(inst, sigma, a1);
            ReasonedVar(sigma, sigma, x, b1, true);
          } else {
            var occurs := false;
            if b1.Op? {
              occurs := OccursInType(x, b1);
            }
            if occurs {
              r := Some(Recursive(a1, b1));
              UnifiedOccurs(inst, sigma, x, b1);
              ReasonedOccurs(sigma, sigma, x, b1);
            } else {
              assert x in Vars(a1);
              SetInstance(x, b1);
              r := None;
              UnifiedBound(old(sigma), sigma, x, b1);
              ReasonedVar(old(sigma), sigma, x, b1, true);
            }
          }
          UnifiedRoots(old(sigma), sigma, a, b, a1, b1, r.None?);
          ReasonedRoots(old(sigma), sigma, a, b, a1, b1, r.None?);
        case Op(f, ts) =>
          if b1.Var? {
            r := Unify(b, a);
            if r.Some? && r.value.Mismatch? {
              ConflictFlip(sigma, r.value.expected, r.value.received);
              r := Some(Mismatch(r.value.received, r.value.expected));
            }
            UnifiedFlip(old(sigma), sigma, a, b, r.None?);
            ReasonedFlip(old(sigma), sigma, a, b, r.None?);
          } else {
            r := UnifyOps(a1, b1);
            UnifiedRoots(old(sigma), sigma, a, b, a1, b1, r.None?);
            ReasonedRoots(old(sigma), sigma, a, b, a1, b1, r.None?);
          }
      }
    }

    /** Unify where both roots are operators. */
    method UnifyOps(a: Type, b: Type) returns (r: Option<UnifyError>)
      requires Valid() && Known(a) && Known(b) && a.Op? && b.Op?
      modifies `inst, `sigma, `rank
      ensures Valid() && old(inst.Keys) <= inst.Keys
      ensures inst.Keys == old(inst.Keys) ==> sigma == old(sigma)
      ensures Unified(old(sigma), sigma, a, b, r.None?)
      ensures Reasoned(old(sigma), sigma, a, b, r.None?)
      ensures r.Some? ==> Conflict(sigma, r.value)
      decreases Free(), Size(Apply(sigma, a)), 0
    {
      hide Unified;
      hide UnifiedAll;
      hide Extends;
      hide Reasoned;
      hide Chain;
      if |a.args| != |b.args| {
        r := Some(Mismatch(a, b));
        UnifiedLeaves(inst, sigma, a, b);
        ReasonedLeaves(sigma, a, b);
      } else if a.name != b.name {
        if a.args == [] && LubName(a.name, b.name) != "Error" {
          r := None;
        } else {
          r := Some(Mismatch(a, b));
        }
        UnifiedLeaves(inst, sigma, a, b);
        ReasonedLeaves(sigma, a, b);
      } else {
        assert Vars(a) == VarsAll(a.args) && Vars(b) == VarsAll(b.args);
        ghost var ss;
        r, ss := UnifyArgs(a.args, b.args);
        UnifiedOps(old(sigma), sigma, a.name, a.args, b.args, r.None?);
        ReasonedOps(old(sigma), sigma, a, b, ss, r.None?);
      }
    }

    /** The loop over the arguments of two operators of the same name. */
    method UnifyArgs(ts: seq<Type>, us: seq<Type>) returns (r: Option<UnifyError>, ghost ss: seq<Subst>)
      requires Valid() && KnownAll(ts) && KnownAll(us) && |ts| == |us|
      modifies `inst, `sigma, `rank
      ensures Valid() && old(inst.Keys) <= inst.Keys
      ensures inst.Keys == old(inst.Keys) ==> sigma == old(sigma)
      ensures UnifiedAll(old(sigma), sigma, ts, us, r.None?)
      ensures Chain(old(sigma), sigma, ts, us, ss, r.None?)
      ensures r.Some? ==> Conflict(sigma, r.value)
      decreases Free(), SizeAll(ApplyAll(sigma, ts)), 2
    {
      hide Extends;
      hide Unified;
      hide Reasoned;
      hide Linked;
      hide Chain;
      hide UnifiedUpTo;
      hide UnifiedAll;
      hide Acyclic;
      hide Solves;
      r := None;
      UpToStart(inst, sigma, ts, us);
      ss := [sigma];
      LinkedStart(sigma, ts, us);
      for i := 0 to |ts|
        invariant Valid() && old(inst.Keys) <= inst.Keys
        invariant inst.Keys == old(inst.Keys) ==> sigma == old(sigma)
        invariant Linked(old(sigma), sigma, ts, us, ss, i)
        invariant r.None? && UnifiedUpTo(old(sigma), sigma, ts, us, i)
      {
        VarsOfArg(ts, i);
        VarsOfArg(us, i);
        VarsOfArg(ApplyAll(sigma, ts), i);
        ghost var before := sigma;
        FreeMonotone(next, old(inst.Keys), inst.Keys);
        r := Unify(ts[i], us[i]);
        UnifiedStep(old(sigma), before, sigma, ts, us, i, r.None?);
        LinkedStep(old(sigma), before, sigma, ts, us, ss, i, r.None?);
        if r.Some? {
          return;
        }
        ss := ss + [sigma];
      }
      UpToAll(old(sigma), sigma, ts, us);
      LinkedAll(old(sigma), sigma, ts, us, ss);
    }
  }

  // ---- why Unify succeeds or fails ----

  /** On leaves: a variable goes with anything, two operators with what they are compatible with, and bind nothing. */
  ghost predicate LeafRule(before: Subst, after: Subst, a: Type, b: Type, ok: bool) {
    var x, y := Apply(before, a), Apply(before, b);
    Leaf(x) && Leaf(y) ==>
      && (ok <==> x.Var? || y.Var? || Compat(x, y))
      && (x.Op? && y.Op? ==> after == before)
  }

  /** The states the argument loop goes through, one per pair done. */
  ghost predicate Linked(before: Subst, after: Subst, ts: seq<Type>, us: seq<Type>, ss: seq<Subst>, n: nat)
    requires |ts| == |us|
  {
    && |ss| == n + 1 <= |ts| + 1 && ss[0] == before && ss[n] == after
    && forall j :: 0 <= j < n ==> Unified(ss[j], ss[j + 1], ts[j], us[j], true) && LeafRule(ss[j], ss[j + 1], ts[j], us[j], true)
  }

  /** All pairs were unified in turn, or those before the first that fails. */
  ghost predicate Chain(before: Subst, after: Subst, ts: seq<Type>, us: seq<Type>, ss: seq<Subst>, ok: bool)
    requires |ts| == |us|
  {
    if ok then Linked(before, after, ts, us, ss, |ts|)
    else
      && 0 < |ss| <= |ts|
      && Linked(before, ss[|ss| - 1], ts, us, ss, |ss| - 1)
      && LeafRule(ss[|ss| - 1], after, ts[|ss| - 1], us[|ss| - 1], false)
  }

  /** Success and failure have their reason, in the leaves or in the arguments. */
  ghost predicate Reasoned(before: Subst, after: Subst, a: Type, b: Type, ok: bool) {
    && LeafRule(before, after, a, b, ok)
    && (a.Op? && b.Op? && a.name == b.name && |a.args| == |b.args| ==>
          exists ss :: Chain(before, after, a.args, b.args, ss, ok))
  }

  lemma RootUnbound(inst: Subst, sigma: Subst, r: Type)
    requires Solves(inst, sigma) && (r.Var? ==> r.id !in inst)
    ensures r.Var? ==> Apply(sigma, r) == r
    ensures r.Op? ==> Apply(sigma, r).Op? && |Apply(sigma, r).args| == |r.args|
  {
  }

  lemma ReasonedVar(before: Subst, after: Subst, x: nat, b: Type, ok: bool)
    requires ok && Apply(before, Var(x)) == Var(x)
    ensures Reasoned(before, after, Var(x), b, ok)
  {
  }

  lemma ReasonedOccurs(before: Subst, after: Subst, x: nat, b: Type)
    requires b.Op? && x in Vars(Apply(before, b))
    ensures Reasoned(before, after, Var(x), b, false)
  {
  }

  /** The roots are what the types resolve to, and a type that is an operator is its own root. */
  lemma ReasonedRoots(before: Subst, after: Subst, a: Type, b: Type, a1: Type, b1: Type, ok: bool)
    requires Reasoned(before, after, a1, b1, ok)
    requires Apply(before, a) == Apply(before, a1) && Apply(before, b) == Apply(before, b1)
    requires (a.Op? ==> a1 == a) && (b.Op? ==> b1 == b)
    ensures Reasoned(before, after, a, b, ok)
  {
  }

  lemma ReasonedFlip(before: Subst, after: Subst, a: Type, b: Type, ok: bool)
    requires Reasoned(before, after, b, a, ok) && !b.Op?
    ensures Reasoned(before, after, a, b, ok)
  {
    var x, y := Apply(before, a), Apply(before, b);
    if Compat(x, y) {
      CompatSym(x, y);
    }
    if Compat(y, x) {
      CompatSym(y, x);
    }
  }

  lemma ReasonedLeaves(sigma: Subst, a: Type, b: Type)
    requires a.Op? && b.Op? && (a.name != b.name || |a.args| != |b.args|)
    ensures Reasoned(sigma, sigma, a, b, a.args == [] && b.args == [] && LubName(a.name, b.name) != "Error")
  {
  }

  lemma ReasonedOps(before: Subst, after: Subst, a: Type, b: Type, ss: seq<Subst>, ok: bool)
    requires a.Op? && b.Op? && a.name == b.name && |a.args| == |b.args|
    requires Chain(before, after, a.args, b.args, ss, ok)
    ensures Reasoned(before, after, a, b, ok)
  {
    if a.args == [] {
      CompatRefl(Apply(before, a));
    }
  }

  lemma LinkedStart(sigma: Subst, ts: seq<Type>, us: seq<Type>)
    requires |ts| == |us|
    ensures Linked(sigma, sigma, ts, us, [sigma], 0)
  {
  }

  lemma LinkedStep(start: Subst, before: Subst, after: Subst, ts: seq<Type>, us: seq<Type>, ss: seq<Subst>, i: nat, ok: bool)
    requires i < |ts| == |us| && Linked(start, before, ts, us, ss, i)
    requires Unified(before, after, ts[i], us[i], ok) && Reasoned(before, after, ts[i], us[i], ok)
    ensures if ok then Linked(start, after, ts, us, ss + [after], i + 1) else Chain(start, after, ts, us, ss, false)
  {
    hide Unified;
    hide LeafRule;
  }

  lemma LinkedAll(before: Subst, after: Subst, ts: seq<Type>, us: seq<Type>, ss: seq<Subst>)
    requires |ts| == |us| && Linked(before, after, ts, us, ss, |ts|)
    ensures Chain(before, after, ts, us, ss, true)
  {
  }

  /** The first `n` arguments are done. */
  ghost predicate UnifiedUpTo(before: Subst, after: Subst, ts: seq<Type>, us: seq<Type>, n: nat)
    requires n <= |ts| == |us|
  {
    && Extends(after, before)
    && (forall j :: 0 <= j < n ==> Compat(Apply(after, ts[j]), Apply(after, us[j])))
    && forall th :: Extends(th, before) && ApplyAll(th, ts) == ApplyAll(th, us) ==> Extends(th, after)
  }

  lemma UpToStart(inst: Subst, sigma: Subst, ts: seq<Type>, us: seq<Type>)
    requires Solves(inst, sigma) && |ts| == |us|
    ensures UnifiedUpTo(sigma, sigma, ts, us, 0)
  {
    ExtendsSelf(inst, sigma);
  }

  lemma UpToAll(before: Subst, after: Subst, ts: seq<Type>, us: seq<Type>)
    requires |ts| == |us| && UnifiedUpTo(before, after, ts, us, |ts|)
    ensures UnifiedAll(before, after, ts, us, true)
  {
    CompatIntro(ApplyAll(after, ts), ApplyAll(after, us));
  }

  lemma UnifiedStep(start: Subst, before: Subst, after: Subst, ts: seq<Type>, us: seq<Type>, i: nat, ok: bool)
    requires i < |ts| == |us|
    requires UnifiedUpTo(start, before, ts, us, i) && Unified(before, after, ts[i], us[i], ok)
    ensures if ok then UnifiedUpTo(start, after, ts, us, i + 1) else UnifiedAll(start, after, ts, us, false)
  {
    hide Compat;
    hide Extends;
    UnifiedExtends(before, after, ts[i], us[i], ok);
    ExtendsTrans(start, before, after);
    forall th | Extends(th, start) && ApplyAll(th, ts) == ApplyAll(th, us)
      ensures ok && Extends(th, after)
    {
      assert ApplyAll(th, ts)[i] == ApplyAll(th, us)[i];
      assert Unifier(th, before, ts[i], us[i]);
    }
    forall j | 0 <= j < i
      ensures Compat(Apply(after, ts[j]), Apply(after, us[j]))
    {
      StillCompat(before, after, ts[j], us[j]);
    }
  }

  /** Types made compatible under one state of the heap are so under every refinement of it. */
  lemma StillCompat(before: Subst, after: Subst, a: Type, b: Type)
    requires Extends(after, before) && Compat(Apply(before, a), Apply(before, b))
    ensures Compat(Apply(after, a), Apply(after, b))
  {
    CompatStable(after, Apply(before, a), Apply(before, b));
    ExtendsApply(after, before, a);
    ExtendsApply(after, before, b);
  }

  lemma FreeMonotone(n: nat, small: set<nat>, big: set<nat>)
    requires small <= big && forall x :: x in big ==> x < n
    ensures var f, f' := |set y: nat | y < n && y !in small|, |set y: nat | y < n && y !in big|;
            f' <= f && (f' == f ==> small == big)
  {
    var free, free' := set y: nat | y < n && y !in small, set y: nat | y < n && y !in big;
    assert free' + (big - small) == free;
    assert free' !! (big - small);
    assert |free| == |free'| + |big - small|;
    assert |big - small| == 0 ==> big - small == {};
  }

  // ---- fresh copies ----

  /** An injective map to variables handed out between `lo` and `hi`. */
  ghost predicate Renames(m: map<nat, nat>, lo: nat, hi: nat) {
    && (forall x :: x in m ==> lo <= m[x] < hi)
    && (forall x, y :: x in m && y in m && x != y ==> m[x] != m[y])
  }

  ghost predicate Within(m: map<nat, nat>, m': map<nat, nat>) {
    forall x :: x in m ==> x in m' && m'[x] == m[x]
  }

  lemma WithinRefl(m: map<nat, nat>)
    ensures Within(m, m)
  {
  }

  lemma WithinTrans(a: map<nat, nat>, b: map<nat, nat>, c: map<nat, nat>)
    requires Within(a, b) && Within(b, c)
    ensures Within(a, c)
  {
  }

  ghost function Renaming(m: map<nat, nat>): Subst { map x | x in m :: Var(m[x]) }

  lemma RenamedAlready(m: map<nat, nat>, m': map<nat, nat>, ts: seq<Type>)
    requires Within(m, m') && VarsAll(ts) <= m.Keys
    ensures ApplyAll(Renaming(m), ts) == ApplyAll(Renaming(m'), ts)
  {
    forall x | x in VarsAll(ts)
      ensures Apply(Renaming(m'), Var(x)) == Apply(map[], Apply(Renaming(m), Var(x)))
    {
    }
    ComposeAll(Renaming(m), map[], Renaming(m'), ts);
    ApplyAllId(map[], ApplyAll(Renaming(m), ts));
  }

  lemma FreshStart(s: Subst, m: map<nat, nat>, ts: seq<Type>)
    ensures ApplyAll(s, ts[..0]) == [] && VarsAll([]) == {} && ApplyAll(Renaming(m), []) == []
  {
  }

  lemma FreshStep(s: Subst, m: map<nat, nat>, m': map<nat, nat>, ts: seq<Type>, i: nat, rs: seq<Type>, r: Type)
    requires i < |ts| && Within(m, m')
    requires VarsAll(ApplyAll(s, ts[..i])) <= m.Keys
    requires rs == ApplyAll(Renaming(m), ApplyAll(s, ts[..i])) && r == Apply(Renaming(m'), Apply(s, ts[i]))
    ensures rs + [r] == ApplyAll(Renaming(m'), ApplyAll(s, ts[..i + 1]))
    ensures VarsAll(ApplyAll(s, ts[..i + 1])) == VarsAll(ApplyAll(s, ts[..i])) + Vars(Apply(s, ts[i]))
  {
    var done := ApplyAll(s, ts[..i]);
    RenamedAlready(m, m', done);
    assert ts[..i + 1] == ts[..i] + [ts[i]];
    ApplySnoc(s, ts[..i], ts[i]);
    ApplySnoc(Renaming(m'), done, Apply(s, ts[i]));
    VarsSnoc(done, Apply(s, ts[i]));
  }

  lemma {:induction false} ApplySnoc(s: Subst, ts: seq<Type>, t: Type)
    ensures ApplyAll(s, ts + [t]) == ApplyAll(s, ts) + [Apply(s, t)]
  {
    if ts == [] {
      assert [t][1..] == [] && ts + [t] == [t];
    } else {
      assert (ts + [t])[1..] == ts[1..] + [t];
      ApplySnoc(s, ts[1..], t);
    }
  }

  lemma {:induction false} VarsSnoc(ts: seq<Type>, t: Type)
    ensures VarsAll(ts + [t]) == VarsAll(ts) + Vars(t)
  {
    if ts == [] {
      assert [t][1..] == [] && ts + [t] == [t];
    } else {
      assert (ts + [t])[1..] == ts[1..] + [t];
      VarsSnoc(ts[1..], t);
    }
  }

  // ---- over a whole run ----

  /** Whenever two types were made compatible, they are so after everything that follows. */
  lemma {:induction false} NeverUndone(states: seq<Subst>, a: Type, b: Type, i: nat, j: nat)
    requires i <= j < |states|
    requires forall k :: 0 < k < |states| ==> Extends(states[k], states[k - 1])
    requires Compat(Apply(states[i], a), Apply(states[i], b))
    ensures Compat(Apply(states[j], a), Apply(states[j], b))
  {
    if i < j {
      NeverUndone(states, a, b, i, j - 1);
      StillCompat(states[j - 1], states[j], a, b);
    }
  }

  /** Types that can be made equal are made equal: what Unify leaves is a most general unifier. */
  lemma UnifiedEqual(th: Subst, before: Subst, after: Subst, a: Type, b: Type, ok: bool)
    requires Unified(before, after, a, b, ok) && Unifier(th, before, a, b)
    ensures ok && Apply(after, a) == Apply(after, b)
  {
    ExtendsApply(th, after, a);
    ExtendsApply(th, after, b);
    CompatEqual(th, Apply(after, a), Apply(after, b));
  }

  lemma {:induction false} CompatEqual(th: Subst, a: Type, b: Type)
    requires Compat(a, b) && Apply(th, a) == Apply(th, b)
    ensures a == b
    decreases a, 1
  {
    if a.Op? {
      CompatAllEqual(th, a.args, b.args);
    }
  }

  lemma {:induction false} CompatAllEqual(th: Subst, ts: seq<Type>, us: seq<Type>)
    requires |ts| == |us| && CompatAll(ts, us) && ApplyAll(th, ts) == ApplyAll(th, us)
    ensures ts == us
    decreases ts, 0
  {
    if ts != [] {
      assert ApplyAll(th, ts)[0] == ApplyAll(th, us)[0];
      CompatEqual(th, ts[0], us[0]);
      assert ApplyAll(th, ts)[1..] == ApplyAll(th, ts[1..]) && ApplyAll(th, us)[1..] == ApplyAll(th, us[1..]);
      CompatAllEqual(th, ts[1..], us[1..]);
    }
  }
}

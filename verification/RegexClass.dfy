/**
 What a capture group can hold: the syntactic analysis of
 `internal/vm/types/types.go` (groupOnlyMatches, InferCaprefType) against the
 language of the regular expression.
 */
module RegexClass {
  import opened Common
  import opened Types

  type Rune = int
  type Word = seq<Rune>

  /** Go's `regexp/syntax` tree; `Anything` stands for every operator the analysis does not know. */
  datatype Regex =
    | Literal(runes: Word, foldCase: bool)
    | CharClass(ranges: seq<Range>)
    | Star(sub: Regex)
    | Plus(sub: Regex)
    | Quest(sub: Regex)
    | Repeat(sub: Regex, min: nat, max: Option<nat>)
    | Capture(cap: nat, sub: Regex)
    | Concat(subs: seq<Regex>)
    | Alternate(subs: seq<Regex>)
    | Anything(op: nat)

  datatype Range = Range(lo: Rune, hi: Rune)

  /** What Go decides: which runes fold together, what other operators match, how a tree prints. */
  datatype Go = Go(fold: (Rune, Rune) -> bool, other: (nat, Word) -> bool, show: Regex -> Word)

  // ---- the language ----

  ghost predicate Matches(go: Go, re: Regex, w: Word)
    decreases re, 0, 0
  {
    match re
    case Literal(runes, foldCase) =>
      |w| == |runes| && forall i :: 0 <= i < |w| ==> w[i] == runes[i] || (foldCase && go.fold(w[i], runes[i]))
    case CharClass(ranges) => |w| == 1 && exists r :: r in ranges && r.lo <= w[0] <= r.hi
    case Star(sub) => exists n: nat :: MatchesTimes(go, sub, n, w)
    case Plus(sub) => exists n: nat :: n >= 1 && MatchesTimes(go, sub, n, w)
    case Quest(sub) => w == [] || Matches(go, sub, w)
    case Repeat(sub, min, max) =>
      exists n: nat :: min <= n && (max.Some? ==> n <= max.value) && MatchesTimes(go, sub, n, w)
    case Capture(_, sub) => Matches(go, sub, w)
    case Concat(subs) => MatchesInTurn(go, subs, w)
    case Alternate(subs) => exists k :: 0 <= k < |subs| && Matches(go, subs[k], w)
    case Anything(op) => go.other(op, w)
  }

  ghost predicate MatchesTimes(go: Go, re: Regex, n: nat, w: Word)
    decreases re, 1, n
  {
    if n == 0 then w == []
    else exists i :: 0 <= i <= |w| && Matches(go, re, w[..i]) && MatchesTimes(go, re, n - 1, w[i..])
  }

  ghost predicate MatchesInTurn(go: Go, subs: seq<Regex>, w: Word)
    decreases subs, 0, 0
  {
    if subs == [] then w == []
    else exists i :: 0 <= i <= |w| && Matches(go, subs[0], w[..i]) && MatchesInTurn(go, subs[1..], w[i..])
  }

  // ---- the analysis ----

  predicate GroupOnlyMatches(re: Regex, s: Word)
    decreases re, 0
  {
    match re
    case Literal(runes, _) => forall i :: 0 <= i < |runes| ==> runes[i] in s
    case CharClass(ranges) => forall k :: 0 <= k < |ranges| ==> forall r :: ranges[k].lo <= r <= ranges[k].hi ==> r in s
    case Star(sub) => GroupOnlyMatches(sub, s)
    case Plus(sub) => GroupOnlyMatches(sub, s)
    case Quest(sub) => GroupOnlyMatches(sub, s)
    case Repeat(sub, _, _) => GroupOnlyMatches(sub, s)
    case Capture(_, sub) => GroupOnlyMatches(sub, s)
    case Concat(subs) => AllOnlyMatch(subs, s)
    case Alternate(subs) => AllOnlyMatch(subs, s)
    case Anything(_) => false
  }

  predicate AllOnlyMatch(subs: seq<Regex>, s: Word)
    decreases subs, 0
  {
    subs != [] ==> GroupOnlyMatches(subs[0], s) && AllOnlyMatch(subs[1..], s)
  }

  function GetCaptureGroup(re: Regex, cap: nat): Option<Regex>
    decreases re, 0
  {
    match re
    case Capture(c, sub) => if c == cap then Some(sub) else GetCaptureGroup(sub, cap)
    case Star(sub) => GetCaptureGroup(sub, cap)
    case Plus(sub) => GetCaptureGroup(sub, cap)
    case Quest(sub) => GetCaptureGroup(sub, cap)
    case Repeat(sub, _, _) => GetCaptureGroup(sub, cap)
    case Concat(subs) => GetAmong(subs, cap)
    case Alternate(subs) => GetAmong(subs, cap)
    case _ => Option.None
  }

  function GetAmong(subs: seq<Regex>, cap: nat): Option<Regex>
    decreases subs, 0
  {
    if subs == [] then Option.None
    else
      match GetCaptureGroup(subs[0], cap)
      case Some(g) => Some(g)
      case None => GetAmong(subs[1..], cap)
  }

  /** `g` is what a capture node numbered `cap` somewhere in the tree holds. */
  ghost predicate Captures(re: Regex, cap: nat, g: Regex)
    decreases re, 0
  {
    match re
    case Capture(c, sub) => (c == cap && sub == g) || Captures(sub, cap, g)
    case Star(sub) => Captures(sub, cap, g)
    case Plus(sub) => Captures(sub, cap, g)
    case Quest(sub) => Captures(sub, cap, g)
    case Repeat(sub, _, _) => Captures(sub, cap, g)
    case Concat(subs) => exists k :: 0 <= k < |subs| && Captures(subs[k], cap, g)
    case Alternate(subs) => exists k :: 0 <= k < |subs| && Captures(subs[k], cap, g)
    case _ => false
  }

  /** The search finds a group of this number if the tree has one, and only then. */
  lemma {:induction false} GroupFound(re: Regex, cap: nat)
    ensures match GetCaptureGroup(re, cap)
            case Some(g) => Captures(re, cap, g)
            case None => forall g :: !Captures(re, cap, g)
    decreases re, 0
  {
    match re
    case Capture(c, sub) => GroupFound(sub, cap);
    case Star(sub) => GroupFound(sub, cap);
    case Plus(sub) => GroupFound(sub, cap);
    case Quest(sub) => GroupFound(sub, cap);
    case Repeat(sub, _, _) => GroupFound(sub, cap);
    case Concat(subs) => GroupAmong(subs, cap);
    case Alternate(subs) => GroupAmong(subs, cap);
    case _ =>
  }

  lemma {:induction false} GroupAmong(subs: seq<Regex>, cap: nat)
    ensures match GetAmong(subs, cap)
            case Some(g) => exists k :: 0 <= k < |subs| && Captures(subs[k], cap, g)
            case None => forall g, k :: 0 <= k < |subs| ==> !Captures(subs[k], cap, g)
    decreases subs, 0
  {
    if subs != [] {
      GroupFound(subs[0], cap);
      GroupAmong(subs[1..], cap);
      match GetAmong(subs, cap) {
        case Some(g) =>
          if GetCaptureGroup(subs[0], cap).None? {
            var k :| 0 <= k < |subs[1..]| && Captures(subs[1..][k], cap, g);
            assert Captures(subs[k + 1], cap, g);
          }
        case None =>
          forall g, k | 0 <= k < |subs|
            ensures !Captures(subs[k], cap, g)
          {
            assert k > 0 ==> subs[k] == subs[1..][k - 1];
          }
      }
    }
  }

  const SIGNS: Word := [0x2B, 0x2D]
  const DIGITS: Word := [0x30, 0x31, 0x32, 0x33, 0x34, 0x35, 0x36, 0x37, 0x38, 0x39]
  const INTEGRAL: Word := SIGNS + DIGITS
  const DECIMAL: Word := INTEGRAL + [0x2E, 0x65, 0x45]

  predicate ContainsAny(w: Word, s: Word) { exists i :: 0 <= i < |w| && w[i] in s }

  function CountRune(w: Word, r: Rune): nat {
    if w == [] then 0 else (if w[0] == r then 1 else 0) + CountRune(w[1..], r)
  }

  function InferGroupType(go: Go, re: Regex): Type {
    if GroupOnlyMatches(re, SIGNS) then STRING
    else if GroupOnlyMatches(re, INTEGRAL) then
      if !ContainsAny(go.show(re), DIGITS) then STRING
      else if re.Alternate? || re.CharClass? then STRING
      else INT
    else if GroupOnlyMatches(re, DECIMAL) then
      if CountRune(go.show(re), 0x2E) > 1 then STRING else FLOAT
    else STRING
  }

  function InferCaprefType(go: Go, re: Regex, cap: nat): Type {
    match GetCaptureGroup(re, cap)
    case None => NONE
    case Some(g) => if g.Alternate? then FoldTypes(go, g.subs, UNDEF) else InferGroupType(go, g)
  }

  /** The loop over the alternatives of a group. */
  function FoldTypes(go: Go, subs: seq<Regex>, t: Type): Type
    requires t.Op?
  {
    if subs == [] then t
    else FoldTypes(go, subs[1..], Nullary(LubName(t.name, InferGroupType(go, subs[0]).name)))
  }

  // ---- soundness ----

  ghost predicate Within(w: Word, s: Word) { forall i :: 0 <= i < |w| ==> w[i] in s }

  /** No rune outside `s` folds to a rune of `s`. */
  ghost predicate FoldClosed(go: Go, s: Word) { forall a, b :: b in s && go.fold(a, b) ==> a in s }

  /** If the analysis says a group only matches runes in `s`, its language holds no other rune. */
  lemma {:induction false} OnlyMatchesSound(go: Go, re: Regex, s: Word, w: Word)
    requires FoldClosed(go, s) && GroupOnlyMatches(re, s) && Matches(go, re, w)
    ensures Within(w, s)
    decreases re, 0, 0
  {
    match re
    case Literal(_, _) =>
    case CharClass(ranges) =>
      var r :| r in ranges && r.lo <= w[0] <= r.hi;
      var k :| 0 <= k < |ranges| && ranges[k] == r;
    case Star(sub) => var n: nat :| MatchesTimes(go, sub, n, w); TimesSound(go, sub, n, s, w);
    case Plus(sub) => var n: nat :| n >= 1 && MatchesTimes(go, sub, n, w); TimesSound(go, sub, n, s, w);
    case Quest(sub) => if w != [] { OnlyMatchesSound(go, sub, s, w); }
    case Repeat(sub, min, max) =>
      var n: nat :| min <= n && (max.Some? ==> n <= max.value) && MatchesTimes(go, sub, n, w);
      TimesSound(go, sub, n, s, w);
    case Capture(_, sub) => OnlyMatchesSound(go, sub, s, w);
    case Concat(subs) => InTurnSound(go, subs, s, w);
    case Alternate(subs) =>
      var k :| 0 <= k < |subs| && Matches(go, subs[k], w);
      AllOnlyMatchAt(subs, s, k);
      OnlyMatchesSound(go, subs[k], s, w);
  }

  lemma {:induction false} TimesSound(go: Go, re: Regex, n: nat, s: Word, w: Word)
    requires FoldClosed(go, s) && GroupOnlyMatches(re, s) && MatchesTimes(go, re, n, w)
    ensures Within(w, s)
    decreases re, 1, n
  {
    if n > 0 {
      var i :| 0 <= i <= |w| && Matches(go, re, w[..i]) && MatchesTimes(go, re, n - 1, w[i..]);
      OnlyMatchesSound(go, re, s, w[..i]);
      TimesSound(go, re, n - 1, s, w[i..]);
      WithinParts(w, i, s);
    }
  }

  lemma {:induction false} InTurnSound(go: Go, subs: seq<Regex>, s: Word, w: Word)
    requires FoldClosed(go, s) && AllOnlyMatch(subs, s) && MatchesInTurn(go, subs, w)
    ensures Within(w, s)
    decreases subs, 0, 0
  {
    if subs != [] {
      var i :| 0 <= i <= |w| && Matches(go, subs[0], w[..i]) && MatchesInTurn(go, subs[1..], w[i..]);
      OnlyMatchesSound(go, subs[0], s, w[..i]);
      InTurnSound(go, subs[1..], s, w[i..]);
      WithinParts(w, i, s);
    }
  }

  lemma WithinParts(w: Word, i: nat, s: Word)
    requires i <= |w| && Within(w[..i], s) && Within(w[i..], s)
    ensures Within(w, s)
  {
    forall j | 0 <= j < |w|
      ensures w[j] in s
    {
      if j < i {
        assert w[..i][j] == w[j];
      } else {
        assert w[i..][j - i] == w[j];
      }
    }
  }

  lemma {:induction false} AllOnlyMatchAt(subs: seq<Regex>, s: Word, k: nat)
    requires AllOnlyMatch(subs, s) && k < |subs|
    ensures GroupOnlyMatches(subs[k], s)
  {
    if k > 0 {
      AllOnlyMatchAt(subs[1..], s, k - 1);
    }
  }

  /** A literal that folds escapes every set with a rune some other rune folds to: `(?i)k` matches the Kelvin sign. */
  lemma FoldEscapes(go: Go, s: Word, a: Rune, b: Rune)
    requires b in s && a !in s && go.fold(a, b)
    ensures GroupOnlyMatches(Literal([b], true), s) && Matches(go, Literal([b], true), [a]) && !Within([a], s)
  {
    assert [a][0] !in s;
  }

  /** The analysis is sound for a set of runes if and only if the set is closed under folding. */
  lemma FoldExact(go: Go, s: Word)
    ensures FoldClosed(go, s) <==> forall re, w :: GroupOnlyMatches(re, s) && Matches(go, re, w) ==> Within(w, s)
  {
    if FoldClosed(go, s) {
      forall re, w | GroupOnlyMatches(re, s) && Matches(go, re, w)
        ensures Within(w, s)
      {
        OnlyMatchesSound(go, re, s, w);
      }
    } else {
      var a, b :| b in s && go.fold(a, b) && a !in s;
      FoldEscapes(go, s, a, b);
      assert !(GroupOnlyMatches(Literal([b], true), s) && Matches(go, Literal([b], true), [a]) ==> Within([a], s));
    }
  }

  // ---- exactness ----

  /** Only operators the analysis knows, each able to match something and to repeat what it holds. */
  predicate Productive(re: Regex)
    decreases re, 0
  {
    match re
    case Literal(_, _) => true
    case CharClass(ranges) => ranges != [] && forall k :: 0 <= k < |ranges| ==> ranges[k].lo <= ranges[k].hi
    case Star(sub) => Productive(sub)
    case Plus(sub) => Productive(sub)
    case Quest(sub) => Productive(sub)
    case Repeat(sub, min, max) => Productive(sub) && (max.Some? ==> min <= max.value && max.value > 0)
    case Capture(_, sub) => Productive(sub)
    case Concat(subs) => AllProductive(subs)
    case Alternate(subs) => subs != [] && AllProductive(subs)
    case Anything(_) => false
  }

  predicate AllProductive(subs: seq<Regex>)
    decreases subs, 0
  {
    subs != [] ==> Productive(subs[0]) && AllProductive(subs[1..])
  }

  lemma TimesOnce(go: Go, re: Regex, w: Word, n: nat, rest: Word)
    requires Matches(go, re, w) && MatchesTimes(go, re, n, rest)
    ensures MatchesTimes(go, re, n + 1, w + rest)
  {
    assert (w + rest)[..|w|] == w && (w + rest)[|w|..] == rest;
  }

  lemma InTurnOnce(go: Go, subs: seq<Regex>, w: Word, rest: Word)
    requires subs != [] && Matches(go, subs[0], w) && MatchesInTurn(go, subs[1..], rest)
    ensures MatchesInTurn(go, subs, w + rest)
  {
    assert (w + rest)[..|w|] == w && (w + rest)[|w|..] == rest;
  }

  /** How often to repeat so that the operand is used at least once. */
  function Often(re: Regex): nat {
    if re.Repeat? && re.min > 0 then re.min else 1
  }

  lemma RepeatMatches(go: Go, re: Regex, w: Word)
    requires re.Star? || re.Plus? || re.Repeat?
    requires Productive(re) && MatchesTimes(go, re.sub, Often(re), w)
    ensures Matches(go, re, w)
  {
  }

  /** A word of the language, containing a rune outside `s` if the analysis found one. */
  lemma {:induction false} Witness(go: Go, re: Regex, s: Word) returns (w: Word)
    requires Productive(re)
    ensures Matches(go, re, w)
    ensures !GroupOnlyMatches(re, s) ==> !Within(w, s)
    decreases re, 1, 0
  {
    match re
    case Literal(runes, _) => w := runes;
    case CharClass(ranges) => w := WitnessClass(go, re, s);
    case Star(sub) => w := WitnessTimes(go, sub, 1, s); RepeatMatches(go, re, w);
    case Plus(sub) => w := WitnessTimes(go, sub, 1, s); RepeatMatches(go, re, w);
    case Repeat(sub, _, _) => w := WitnessTimes(go, sub, Often(re), s); RepeatMatches(go, re, w);
    case Quest(sub) => w := Witness(go, sub, s);
    case Capture(_, sub) => w := Witness(go, sub, s);
    case Concat(subs) => w := WitnessInTurn(go, subs, s);
    case Alternate(subs) => w := WitnessAmong(go, subs, s);
  }

  lemma WitnessClass(go: Go, re: Regex, s: Word) returns (w: Word)
    requires re.CharClass? && Productive(re)
    ensures Matches(go, re, w)
    ensures !GroupOnlyMatches(re, s) ==> !Within(w, s)
  {
    var ranges := re.ranges;
    if k, r :| 0 <= k < |ranges| && ranges[k].lo <= r <= ranges[k].hi && r !in s {
      w := [r];
      assert ranges[k] in ranges;
      assert w[0] !in s;
    } else {
      w := [ranges[0].lo];
      assert ranges[0] in ranges;
    }
  }

  lemma {:induction false} WitnessTimes(go: Go, re: Regex, n: nat, s: Word) returns (w: Word)
    requires Productive(re) && n >= 1
    ensures MatchesTimes(go, re, n, w)
    ensures !GroupOnlyMatches(re, s) ==> !Within(w, s)
    decreases re, 2, n
  {
    var first := Witness(go, re, s);
    var rest := [];
    if n > 1 {
      rest := WitnessTimes(go, re, n - 1, s);
    }
    TimesOnce(go, re, first, n - 1, rest);
    w := first + rest;
    NotWithinParts(first, rest, s);
  }

  lemma {:induction false} WitnessInTurn(go: Go, subs: seq<Regex>, s: Word) returns (w: Word)
    requires AllProductive(subs)
    ensures MatchesInTurn(go, subs, w)
    ensures !AllOnlyMatch(subs, s) ==> !Within(w, s)
    decreases subs, 1, 0
  {
    w := [];
    if subs != [] {
      var first := Witness(go, subs[0], s);
      var rest := WitnessInTurn(go, subs[1..], s);
      InTurnOnce(go, subs, first, rest);
      w := first + rest;
      NotWithinParts(first, rest, s);
    }
  }

  lemma {:induction false} WitnessAmong(go: Go, subs: seq<Regex>, s: Word) returns (w: Word)
    requires AllProductive(subs) && subs != []
    ensures exists k :: 0 <= k < |subs| && Matches(go, subs[k], w)
    ensures !AllOnlyMatch(subs, s) ==> !Within(w, s)
    decreases subs, 1, 0
  {
    if GroupOnlyMatches(subs[0], s) && |subs| > 1 {
      w := WitnessAmong(go, subs[1..], s);
      var k :| 0 <= k < |subs[1..]| && Matches(go, subs[1..][k], w);
      assert Matches(go, subs[k + 1], w);
    } else {
      w := Witness(go, subs[0], s);
      assert |subs| == 1 ==> AllOnlyMatch(subs[1..], s);
    }
  }

  lemma NotWithinParts(a: Word, b: Word, s: Word)
    ensures Within(a + b, s) ==> Within(a, s) && Within(b, s)
  {
    if Within(a + b, s) {
      forall i | 0 <= i < |a| ensures a[i] in s { assert (a + b)[i] == a[i]; }
      forall i | 0 <= i < |b| ensures b[i] in s { assert (a + b)[|a| + i] == b[i]; }
    }
  }

  /** On productive trees the analysis is exact, not just sound. */
  lemma OnlyMatchesExact(go: Go, re: Regex, s: Word)
    requires FoldClosed(go, s) && Productive(re)
    ensures GroupOnlyMatches(re, s) <==> forall w :: Matches(go, re, w) ==> Within(w, s)
  {
    if GroupOnlyMatches(re, s) {
      forall w | Matches(go, re, w)
        ensures Within(w, s)
      {
        OnlyMatchesSound(go, re, s, w);
      }
    } else {
      var w := Witness(go, re, s);
    }
  }

  // ---- capture types ----

  /** No string of the language has a rune outside `s`. */
  ghost predicate StaysIn(go: Go, re: Regex, s: Word) { forall w :: Matches(go, re, w) ==> Within(w, s) }

  /**
   When a group is a number: by what its strings are made of, and by its
   printed form, which an Int must have a digit in and a Float no second point.
   */
  lemma InferExact(go: Go, re: Regex)
    requires Productive(re) && FoldClosed(go, SIGNS) && FoldClosed(go, INTEGRAL) && FoldClosed(go, DECIMAL)
    ensures var t := InferGroupType(go, re);
            && (t == INT <==> StaysIn(go, re, INTEGRAL) && !StaysIn(go, re, SIGNS)
                              && ContainsAny(go.show(re), DIGITS) && !re.Alternate? && !re.CharClass?)
            && (t == FLOAT <==> StaysIn(go, re, DECIMAL) && !StaysIn(go, re, INTEGRAL) && CountRune(go.show(re), 0x2E) <= 1)
            && t in {INT, FLOAT, STRING}
  {
    OnlyMatchesExact(go, re, SIGNS);
    OnlyMatchesExact(go, re, INTEGRAL);
    OnlyMatchesExact(go, re, DECIMAL);
    StaysInMore(go, re, SIGNS, INTEGRAL);
    StaysInMore(go, re, INTEGRAL, DECIMAL);
    hide GroupOnlyMatches, Matches, ContainsAny;
  }

  lemma StaysInMore(go: Go, re: Regex, s: Word, t: Word)
    requires StaysIn(go, re, s) ==> s <= t
    ensures StaysIn(go, re, s) ==> StaysIn(go, re, t)
  {
    if StaysIn(go, re, s) {
      assert forall r :: r in s ==> r in t;
    }
  }

  /** The fold over alternatives gives Int, or Float, only if each alternative is at most that. */
  lemma {:induction false} FoldIsInt(go: Go, subs: seq<Regex>, t: Type, k: nat)
    requires t.Op? && t.args == [] && k < |subs|
    requires t.name in {"Undef", "Int", "Float", "String"}
    ensures FoldTypes(go, subs, t) == INT ==> InferGroupType(go, subs[k]) == INT && t.name in {"Undef", "Int"}
    ensures FoldTypes(go, subs, t) == FLOAT ==>
              InferGroupType(go, subs[k]) in {INT, FLOAT} && t.name in {"Undef", "Int", "Float"}
  {
    var u := InferGroupType(go, subs[0]);
    var t' := Nullary(LubName(t.name, u.name));
    if |subs| == 1 {
      assert FoldTypes(go, subs[1..], t') == t';
    } else {
      FoldIsInt(go, subs[1..], t', if k > 0 then k - 1 else 0);
    }
  }

  /** An alternation of Int alternatives, and of nothing else, is Int. */
  lemma {:induction false} FoldInts(go: Go, subs: seq<Regex>, t: Type)
    requires t == UNDEF || t == INT
    requires t == UNDEF ==> subs != []
    ensures FoldTypes(go, subs, t) == INT <==> forall k :: 0 <= k < |subs| ==> InferGroupType(go, subs[k]) == INT
  {
    if subs != [] {
      if InferGroupType(go, subs[0]) == INT {
        FoldInts(go, subs[1..], INT);
        assert forall k :: 0 < k < |subs| ==> subs[k] == subs[1..][k - 1];
        assert forall k :: 0 <= k < |subs[1..]| ==> subs[1..][k] == subs[k + 1];
      } else {
        FoldIsInt(go, subs, t, 0);
      }
    }
  }

  /** An alternation is Float if all alternatives are numbers and one of them is a Float. */
  lemma {:induction false} FoldFloats(go: Go, subs: seq<Regex>, t: Type)
    requires t in {UNDEF, INT, FLOAT}
    ensures FoldTypes(go, subs, t) == FLOAT <==>
            && (forall k :: 0 <= k < |subs| ==> InferGroupType(go, subs[k]) in {INT, FLOAT})
            && (t == FLOAT || exists k :: 0 <= k < |subs| && InferGroupType(go, subs[k]) == FLOAT)
  {
    if subs != [] {
      var u := InferGroupType(go, subs[0]);
      assert forall k :: 0 < k < |subs| ==> subs[k] == subs[1..][k - 1];
      assert forall k :: 0 <= k < |subs[1..]| ==> subs[1..][k] == subs[k + 1];
      if u == STRING {
        FoldIsInt(go, subs, t, 0);
      } else {
        FoldFloats(go, subs[1..], Nullary(LubName(t.name, u.name)));
      }
    }
  }

  /** A capture inferred Int holds signs and digits only, also when the group is an alternation. */
  lemma IntCapture(go: Go, re: Regex, cap: nat, w: Word)
    requires FoldClosed(go, INTEGRAL) && InferCaprefType(go, re, cap) == INT
    requires GetCaptureGroup(re, cap).Some? && Matches(go, GetCaptureGroup(re, cap).value, w)
    ensures Within(w, INTEGRAL)
  {
    var g := GetCaptureGroup(re, cap).value;
    if g.Alternate? {
      var k :| 0 <= k < |g.subs| && Matches(go, g.subs[k], w);
      FoldIsInt(go, g.subs, UNDEF, k);
      OnlyMatchesSound(go, g.subs[k], INTEGRAL, w);
    } else {
      OnlyMatchesSound(go, g, INTEGRAL, w);
    }
  }

  /** A capture inferred Float holds signs, digits, a point or an exponent mark only. */
  lemma FloatCapture(go: Go, re: Regex, cap: nat, w: Word)
    requires FoldClosed(go, INTEGRAL) && FoldClosed(go, DECIMAL) && InferCaprefType(go, re, cap) == FLOAT
    requires GetCaptureGroup(re, cap).Some? && Matches(go, GetCaptureGroup(re, cap).value, w)
    ensures Within(w, DECIMAL)
  {
    var g := GetCaptureGroup(re, cap).value;
    if g.Alternate? {
      var k :| 0 <= k < |g.subs| && Matches(go, g.subs[k], w);
      FoldIsInt(go, g.subs, UNDEF, k);
      if InferGroupType(go, g.subs[k]) == INT {
        OnlyMatchesSound(go, g.subs[k], INTEGRAL, w);
        assert forall r :: r in INTEGRAL ==> r in DECIMAL;
      } else {
        OnlyMatchesSound(go, g.subs[k], DECIMAL, w);
      }
    } else {
      OnlyMatchesSound(go, g, DECIMAL, w);
    }
  }
}

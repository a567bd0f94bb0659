/**
 When an Int capture can be read as a number: the image of a three-state
 automaton (start, signed, digits) under a regular expression, computed on the
 tree, against the words the expression matches.
 */
module Numerals {
  import opened Common
  import opened Types
  import opened RegexClass

  /** An optional sign, then at least one digit. */
  ghost predicate Numeral(w: Word) {
    var digits := if w != [] && w[0] in SIGNS then w[1..] else w;
    digits != [] && Within(digits, DIGITS)
  }

  // ---- the automaton ----

  datatype State = Start | Signed | Digits | Dead

  datatype Kind = Sign | Digit | Other

  const STATES: set<State> := {Start, Signed, Digits, Dead}

  function KindOf(r: Rune): Kind {
    if r in SIGNS then Sign else if r in DIGITS then Digit else Other
  }

  function Step(q: State, k: Kind): State {
    if k == Digit && q != Dead then Digits
    else if k == Sign && q == Start then Signed
    else Dead
  }

  function Walk(q: State, w: Word): State
    decreases w
  {
    if w == [] then q else Walk(Step(q, KindOf(w[0])), w[1..])
  }

  lemma {:induction false} WalkSplit(q: State, w: Word, i: nat)
    requires i <= |w|
    ensures Walk(q, w) == Walk(Walk(q, w[..i]), w[i..])
    decreases w
  {
    if i > 0 {
      WalkSplit(Step(q, KindOf(w[0])), w[1..], i - 1);
      assert w[..i][1..] == w[1..][..i - 1] && w[1..][i - 1..] == w[i..];
    }
  }

  lemma WalkNone(q: State)
    ensures Walk(q, []) == q
  {
  }

  lemma WalkJoin(q: State, a: Word, b: Word)
    ensures Walk(q, a + b) == Walk(Walk(q, a), b)
  {
    WalkSplit(q, a + b, |a|);
    assert (a + b)[..|a|] == a && (a + b)[|a|..] == b;
  }

  lemma {:induction false} DigitsOnly(q: State, w: Word)
    requires q == Digits || (q == Signed && w != []) || (q == Start && w != [] && w[0] !in SIGNS)
    ensures Walk(q, w) == Digits <==> Within(w, DIGITS)
    decreases w
  {
    if w != [] {
      if w[0] in DIGITS {
        DigitsOnly(Digits, w[1..]);
        assert Within(w[1..], DIGITS) ==> forall i :: 0 < i < |w| ==> w[i] == w[1..][i - 1] && w[1..][i - 1] in DIGITS;
        assert Within(w, DIGITS) ==> forall i :: 0 <= i < |w[1..]| ==> w[1..][i] == w[i + 1] && w[i + 1] in DIGITS;
      } else {
        DeadStays(w[1..]);
      }
    }
  }

  lemma {:induction false} DeadStays(w: Word)
    ensures Walk(Dead, w) == Dead
  {
    if w != [] {
      DeadStays(w[1..]);
    }
  }

  /** The automaton accepts the numerals. */
  lemma NumeralWalk(w: Word)
    ensures Numeral(w) <==> Walk(Start, w) == Digits
  {
    if w != [] && w[0] in SIGNS {
      if w[1..] != [] {
        DigitsOnly(Signed, w[1..]);
      }
    } else if w != [] {
      DigitsOnly(Start, w);
    }
  }

  // ---- the image of a set of states ----

  /** Which kinds of rune a class holds. */
  predicate Holds(r: Range, k: Kind) {
    match k
    case Sign => r.lo <= 0x2B <= r.hi || r.lo <= 0x2D <= r.hi
    case Digit => r.lo <= r.hi && r.lo <= 0x39 && 0x30 <= r.hi
    case Other =>
      r.lo <= r.hi && (r.lo < 0x2B || r.lo <= 0x2C <= r.hi || (r.lo <= 0x2F && 0x2E <= r.hi) || 0x39 < r.hi)
  }

  function Image(re: Regex, qs: set<State>): set<State>
    decreases re, 0, 0
  {
    match re
    case Literal(runes, _) => set q | q in qs :: Walk(q, runes)
    case CharClass(ranges) => set q, k: Kind, i | q in qs && 0 <= i < |ranges| && Holds(ranges[i], k) :: Step(q, k)
    case Star(sub) => Closure(sub, qs)
    case Plus(sub) => Closure(sub, Image(sub, qs))
    case Quest(sub) => qs + Image(sub, qs)
    case Repeat(sub, min, max) =>
      if max.None? then Closure(sub, Power(sub, min, qs))
      else if max.value < min then {}
      else Powers(sub, max.value - min, Power(sub, min, qs))
    case Capture(_, sub) => Image(sub, qs)
    case Concat(subs) => InTurn(subs, qs)
    case Alternate(subs) => Among(subs, qs)
    case Anything(_) => {}
  }

  /** Any number of rounds. */
  function Closure(re: Regex, qs: set<State>): set<State>
    decreases re, 1, |STATES - qs|
  {
    var more := qs + Image(re, qs);
    if more == qs then qs else Grown(qs, more); Closure(re, more)
  }

  lemma Grown(qs: set<State>, more: set<State>)
    requires qs < more
    ensures |STATES - more| < |STATES - qs|
  {
    var q :| q in more && q !in qs;
    assert q in STATES by { match q { case Start => case Signed => case Digits => case Dead => } }
    Smaller(STATES - more, STATES - qs, q);
  }

  lemma Smaller(a: set<State>, b: set<State>, q: State)
    requires a <= b && q in b && q !in a
    ensures |a| < |b|
  {
    assert b == a + (b - a) && a !! (b - a);
  }

  /** Exactly `n` rounds. */
  function Power(re: Regex, n: nat, qs: set<State>): set<State>
    decreases re, 1, n
  {
    if n == 0 then qs else Power(re, n - 1, Image(re, qs))
  }

  /** At most `n` rounds. */
  function Powers(re: Regex, n: nat, qs: set<State>): set<State>
    decreases re, 1, n
  {
    if n == 0 then qs else qs + Powers(re, n - 1, Image(re, qs))
  }

  function InTurn(subs: seq<Regex>, qs: set<State>): set<State>
    decreases subs, 0, 0
  {
    if subs == [] then qs else InTurn(subs[1..], Image(subs[0], qs))
  }

  function Among(subs: seq<Regex>, qs: set<State>): set<State>
    decreases subs, 0, 0
  {
    if subs == [] then {} else Image(subs[0], qs) + Among(subs[1..], qs)
  }

  // ---- every word leads into the image ----

  /** Only operators whose words the tree tells. */
  predicate Known(re: Regex)
    decreases re, 0
  {
    match re
    case Anything(_) => false
    case Star(sub) => Known(sub)
    case Plus(sub) => Known(sub)
    case Quest(sub) => Known(sub)
    case Repeat(sub, _, _) => Known(sub)
    case Capture(_, sub) => Known(sub)
    case Concat(subs) => AllKnown(subs)
    case Alternate(subs) => AllKnown(subs)
    case _ => true
  }

  predicate AllKnown(subs: seq<Regex>)
    decreases subs, 0
  {
    subs != [] ==> Known(subs[0]) && AllKnown(subs[1..])
  }

  /** Signs, digits and other runes each fold to their own kind only. */
  ghost predicate FoldsKeep(go: Go) { forall a, b :: go.fold(a, b) ==> KindOf(a) == KindOf(b) }

  lemma {:induction false} WalkKinds(q: State, a: Word, b: Word)
    requires |a| == |b| && forall i :: 0 <= i < |a| ==> KindOf(a[i]) == KindOf(b[i])
    ensures Walk(q, a) == Walk(q, b)
    decreases a
  {
    if a != [] {
      forall i | 0 <= i < |a[1..]|
        ensures KindOf(a[1..][i]) == KindOf(b[1..][i])
      {
        assert a[1..][i] == a[i + 1] && b[1..][i] == b[i + 1];
      }
      WalkKinds(Step(q, KindOf(a[0])), a[1..], b[1..]);
    }
  }

  lemma DigitRange(r: Rune)
    ensures r in DIGITS <==> 0x30 <= r <= 0x39
  {
    if 0x30 <= r <= 0x39 {
      assert DIGITS[r - 0x30] == r;
    }
  }

  lemma ClosureClosed(re: Regex, qs: set<State>)
    ensures qs <= Closure(re, qs) && Image(re, Closure(re, qs)) <= Closure(re, qs)
    decreases |STATES - qs|
  {
    var more := qs + Image(re, qs);
    if more != qs {
      Grown(qs, more);
      ClosureClosed(re, more);
    }
  }

  lemma {:induction false} TimesSplit(go: Go, re: Regex, a: nat, n: nat, w: Word) returns (i: nat)
    requires a <= n && MatchesTimes(go, re, n, w)
    ensures i <= |w| && MatchesTimes(go, re, a, w[..i]) && MatchesTimes(go, re, n - a, w[i..])
  {
    hide Matches;
    if a == 0 {
      i := 0;
      assert w[0..] == w;
    } else {
      var j :| 0 <= j <= |w| && Matches(go, re, w[..j]) && MatchesTimes(go, re, n - 1, w[j..]);
      var k := TimesSplit(go, re, a - 1, n - 1, w[j..]);
      i := j + k;
      assert w[..i][..j] == w[..j] && w[..i][j..] == w[j..][..k] && w[i..] == w[j..][k..];
    }
  }

  lemma {:induction false} Into(go: Go, re: Regex, qs: set<State>, q: State, w: Word)
    requires FoldsKeep(go) && Known(re) && q in qs && Matches(go, re, w)
    ensures Walk(q, w) in Image(re, qs)
    decreases re, 0, 0
  {
    match re
    case Literal(runes, _) => WalkKinds(q, w, runes);
    case CharClass(ranges) => ClassInto(go, re, qs, q, w);
    case Star(sub) =>
      var n: nat :| MatchesTimes(go, sub, n, w);
      ClosureClosed(sub, qs);
      ClosureInto(go, sub, n, qs, q, w);
    case Plus(sub) => PlusInto(go, sub, qs, q, w);
    case Quest(sub) => if w != [] { Into(go, sub, qs, q, w); }
    case Repeat(sub, min, max) =>
      var n: nat :| min <= n && (max.Some? ==> n <= max.value) && MatchesTimes(go, sub, n, w);
      RepeatInto(go, sub, min, n, max, qs, q, w);
    case Capture(_, sub) => Into(go, sub, qs, q, w);
    case Concat(subs) => InTurnInto(go, subs, qs, q, w);
    case Alternate(subs) =>
      var k :| 0 <= k < |subs| && Matches(go, subs[k], w);
      AmongInto(go, subs, k, qs, q, w);
  }

  lemma ClassInto(go: Go, re: Regex, qs: set<State>, q: State, w: Word)
    requires re.CharClass? && q in qs && Matches(go, re, w)
    ensures Walk(q, w) in Image(re, qs)
  {
    var r :| r in re.ranges && r.lo <= w[0] <= r.hi;
    var i :| 0 <= i < |re.ranges| && re.ranges[i] == r;
    DigitRange(w[0]);
    assert Holds(re.ranges[i], KindOf(w[0]));
    assert Walk(q, w) == Step(q, KindOf(w[0])) by { assert w[1..] == []; }
  }

  lemma {:induction false} PlusInto(go: Go, re: Regex, qs: set<State>, q: State, w: Word)
    requires FoldsKeep(go) && Known(re) && q in qs && Matches(go, Plus(re), w)
    ensures Walk(q, w) in Closure(re, Image(re, qs))
    decreases re, 2, 0
  {
    var n: nat :| n >= 1 && MatchesTimes(go, re, n, w);
    var i :| 0 <= i <= |w| && Matches(go, re, w[..i]) && MatchesTimes(go, re, n - 1, w[i..]);
    Into(go, re, qs, q, w[..i]);
    ClosureClosed(re, Image(re, qs));
    ClosureInto(go, re, n - 1, Image(re, qs), Walk(q, w[..i]), w[i..]);
    WalkSplit(q, w, i);
  }

  lemma {:induction false} RepeatInto(go: Go, re: Regex, min: nat, n: nat, max: Option<nat>,
                                      qs: set<State>, q: State, w: Word)
    requires FoldsKeep(go) && Known(re) && q in qs
    requires min <= n && (max.Some? ==> n <= max.value) && MatchesTimes(go, re, n, w)
    ensures Walk(q, w) in Image(Repeat(re, min, max), qs)
    decreases re, 2, 0
  {
    hide Matches, MatchesTimes;
    var i := TimesSplit(go, re, min, n, w);
    var some := Power(re, min, qs);
    PowerInto(go, re, min, qs, q, w[..i]);
    WalkSplit(q, w, i);
    if max.None? {
      ClosureClosed(re, some);
      ClosureInto(go, re, n - min, some, Walk(q, w[..i]), w[i..]);
    } else {
      PowersInto(go, re, n - min, max.value - min, some, Walk(q, w[..i]), w[i..]);
    }
  }

  lemma {:induction false} ClosureInto(go: Go, re: Regex, n: nat, qs: set<State>, q: State, w: Word)
    requires FoldsKeep(go) && Known(re) && q in Closure(re, qs) && MatchesTimes(go, re, n, w)
    ensures Walk(q, w) in Closure(re, qs)
    decreases re, 1, n
  {
    if n > 0 {
      var i :| 0 <= i <= |w| && Matches(go, re, w[..i]) && MatchesTimes(go, re, n - 1, w[i..]);
      ClosureClosed(re, qs);
      Into(go, re, Closure(re, qs), q, w[..i]);
      ClosureInto(go, re, n - 1, qs, Walk(q, w[..i]), w[i..]);
      WalkSplit(q, w, i);
    }
  }

  lemma {:induction false} PowerInto(go: Go, re: Regex, n: nat, qs: set<State>, q: State, w: Word)
    requires FoldsKeep(go) && Known(re) && q in qs && MatchesTimes(go, re, n, w)
    ensures Walk(q, w) in Power(re, n, qs)
    decreases re, 1, n
  {
    if n > 0 {
      var i :| 0 <= i <= |w| && Matches(go, re, w[..i]) && MatchesTimes(go, re, n - 1, w[i..]);
      Into(go, re, qs, q, w[..i]);
      PowerInto(go, re, n - 1, Image(re, qs), Walk(q, w[..i]), w[i..]);
      WalkSplit(q, w, i);
    }
  }

  lemma {:induction false} PowersInto(go: Go, re: Regex, m: nat, n: nat, qs: set<State>, q: State, w: Word)
    requires FoldsKeep(go) && Known(re) && q in qs && m <= n && MatchesTimes(go, re, m, w)
    ensures Walk(q, w) in Powers(re, n, qs)
    decreases re, 1, n
  {
    if m > 0 {
      var i :| 0 <= i <= |w| && Matches(go, re, w[..i]) && MatchesTimes(go, re, m - 1, w[i..]);
      Into(go, re, qs, q, w[..i]);
      PowersInto(go, re, m - 1, n - 1, Image(re, qs), Walk(q, w[..i]), w[i..]);
      WalkSplit(q, w, i);
    }
  }

  lemma {:induction false} InTurnInto(go: Go, subs: seq<Regex>, qs: set<State>, q: State, w: Word)
    requires FoldsKeep(go) && AllKnown(subs) && q in qs && MatchesInTurn(go, subs, w)
    ensures Walk(q, w) in InTurn(subs, qs)
    decreases subs, 0, 0
  {
    if subs != [] {
      var i :| 0 <= i <= |w| && Matches(go, subs[0], w[..i]) && MatchesInTurn(go, subs[1..], w[i..]);
      Into(go, subs[0], qs, q, w[..i]);
      InTurnInto(go, subs[1..], Image(subs[0], qs), Walk(q, w[..i]), w[i..]);
      WalkSplit(q, w, i);
    }
  }

  lemma {:induction false} AmongInto(go: Go, subs: seq<Regex>, k: nat, qs: set<State>, q: State, w: Word)
    requires FoldsKeep(go) && AllKnown(subs) && q in qs && k < |subs| && Matches(go, subs[k], w)
    ensures Walk(q, w) in Among(subs, qs)
    decreases subs, 0, 0
  {
    if k == 0 {
      Into(go, subs[0], qs, q, w);
    } else {
      AmongInto(go, subs[1..], k - 1, qs, q, w);
    }
  }

  // ---- every state of the image is reached by a word ----

  lemma {:induction false} TimesJoin(go: Go, re: Regex, a: nat, u: Word, b: nat, v: Word)
    requires MatchesTimes(go, re, a, u) && MatchesTimes(go, re, b, v)
    ensures MatchesTimes(go, re, a + b, u + v)
  {
    hide Matches;
    if a == 0 {
      assert u + v == v;
    } else {
      var i :| 0 <= i <= |u| && Matches(go, re, u[..i]) && MatchesTimes(go, re, a - 1, u[i..]);
      TimesJoin(go, re, a - 1, u[i..], b, v);
      assert (u + v)[..i] == u[..i] && (u + v)[i..] == u[i..] + v;
    }
  }

  lemma {:induction false} From(go: Go, re: Regex, qs: set<State>, p: State) returns (q: State, w: Word)
    requires p in Image(re, qs) && Known(re)
    ensures q in qs && Matches(go, re, w) && Walk(q, w) == p
    decreases re, 0, 0
  {
    match re
    case Literal(runes, _) => w := runes; q :| q in qs && Walk(q, runes) == p;
    case CharClass(ranges) => q, w := ClassFrom(go, re, qs, p);
    case Star(sub) => var n; n, q, w := ClosureFrom(go, sub, qs, p);
    case Plus(sub) =>
      var n, r, v := ClosureFrom(go, sub, Image(sub, qs), p);
      var u;
      q, u := From(go, sub, qs, r);
      TimesOnce(go, sub, u, n, v);
      w := u + v;
      WalkJoin(q, u, v);
    case Quest(sub) => if p in qs { q, w := p, []; } else { q, w := From(go, sub, qs, p); }
    case Repeat(sub, min, max) =>
      var n, r, v;
      if max.None? {
        n, r, v := ClosureFrom(go, sub, Power(sub, min, qs), p);
      } else {
        n, r, v := PowersFrom(go, sub, max.value - min, Power(sub, min, qs), p);
      }
      var u;
      q, u := PowerFrom(go, sub, min, qs, r);
      TimesJoin(go, sub, min, u, n, v);
      w := u + v;
      WalkJoin(q, u, v);
    case Capture(_, sub) => q, w := From(go, sub, qs, p);
    case Concat(subs) => q, w := InTurnFrom(go, subs, qs, p);
    case Alternate(subs) => var k; k, q, w := AmongFrom(go, subs, qs, p);
  }

  lemma ClassFrom(go: Go, re: Regex, qs: set<State>, p: State) returns (q: State, w: Word)
    requires re.CharClass? && p in Image(re, qs)
    ensures q in qs && Matches(go, re, w) && Walk(q, w) == p
  {
    var k: Kind, i: int;
    q, k, i :| q in qs && 0 <= i < |re.ranges| && Holds(re.ranges[i], k) && Step(q, k) == p;
    var r := RuneOf(re.ranges[i], k);
    w := [r];
    assert re.ranges[i] in re.ranges;
    assert w[1..] == [];
  }

  /** A rune of the kind the range holds. */
  lemma RuneOf(r: Range, k: Kind) returns (x: Rune)
    requires Holds(r, k)
    ensures r.lo <= x <= r.hi && KindOf(x) == k
  {
    match k {
      case Sign => x := if r.lo <= 0x2B <= r.hi then 0x2B else 0x2D;
      case Digit => x := if r.lo < 0x30 then 0x30 else r.lo;
      case Other =>
        x := if r.lo < 0x2B then r.lo else if 0x39 < r.hi then r.hi
             else if r.lo <= 0x2C <= r.hi then 0x2C
             else if r.lo <= 0x2E <= r.hi then 0x2E else 0x2F;
    }
    DigitRange(x);
  }

  lemma {:induction false} ClosureFrom(go: Go, re: Regex, qs: set<State>, p: State) returns (n: nat, q: State, w: Word)
    requires p in Closure(re, qs) && Known(re)
    ensures q in qs && MatchesTimes(go, re, n, w) && Walk(q, w) == p
    decreases re, 1, |STATES - qs|
  {
    hide Matches, Image, Walk;
    var more := qs + Image(re, qs);
    if more == qs {
      n, q, w := 0, p, [];
      assert Walk(p, []) == p by { WalkNone(p); }
    } else {
      Grown(qs, more);
      n, q, w := ClosureFrom(go, re, more, p);
      if q !in qs {
        var r, u := From(go, re, qs, q);
        TimesOnce(go, re, u, n, w);
        WalkJoin(r, u, w);
        n, q, w := n + 1, r, u + w;
      }
    }
  }

  lemma {:induction false} PowerFrom(go: Go, re: Regex, n: nat, qs: set<State>, p: State) returns (q: State, w: Word)
    requires p in Power(re, n, qs) && Known(re)
    ensures q in qs && MatchesTimes(go, re, n, w) && Walk(q, w) == p
    decreases re, 1, n
  {
    if n == 0 {
      q, w := p, [];
    } else {
      var r, v := PowerFrom(go, re, n - 1, Image(re, qs), p);
      var u;
      q, u := From(go, re, qs, r);
      TimesOnce(go, re, u, n - 1, v);
      WalkJoin(q, u, v);
      w := u + v;
    }
  }

  lemma {:induction false} PowersFrom(go: Go, re: Regex, n: nat, qs: set<State>, p: State)
    returns (m: nat, q: State, w: Word)
    requires p in Powers(re, n, qs) && Known(re)
    ensures m <= n && q in qs && MatchesTimes(go, re, m, w) && Walk(q, w) == p
    decreases re, 1, n
  {
    if p in qs {
      m, q, w := 0, p, [];
    } else {
      hide Matches, MatchesTimes;
      var k, r, v := PowersFrom(go, re, n - 1, Image(re, qs), p);
      var u;
      q, u := From(go, re, qs, r);
      TimesOnce(go, re, u, k, v);
      WalkJoin(q, u, v);
      m, w := k + 1, u + v;
    }
  }

  lemma {:induction false} InTurnFrom(go: Go, subs: seq<Regex>, qs: set<State>, p: State) returns (q: State, w: Word)
    requires p in InTurn(subs, qs) && AllKnown(subs)
    ensures q in qs && MatchesInTurn(go, subs, w) && Walk(q, w) == p
    decreases subs, 0, 0
  {
    if subs == [] {
      q, w := p, [];
    } else {
      var r, v := InTurnFrom(go, subs[1..], Image(subs[0], qs), p);
      var u;
      q, u := From(go, subs[0], qs, r);
      InTurnOnce(go, subs, u, v);
      WalkJoin(q, u, v);
      w := u + v;
    }
  }

  lemma {:induction false} AmongFrom(go: Go, subs: seq<Regex>, qs: set<State>, p: State)
    returns (k: nat, q: State, w: Word)
    requires p in Among(subs, qs) && AllKnown(subs)
    ensures k < |subs| && q in qs && Matches(go, subs[k], w) && Walk(q, w) == p
    decreases subs, 0, 0
  {
    if p in Image(subs[0], qs) {
      k := 0;
      q, w := From(go, subs[0], qs, p);
    } else {
      k, q, w := AmongFrom(go, subs[1..], qs, p);
      k := k + 1;
    }
  }

  // ---- exactness ----

  /** The image is exactly the states that words of the language lead to. */
  lemma ImageExact(go: Go, re: Regex, qs: set<State>, p: State)
    requires FoldsKeep(go) && Known(re)
    ensures p in Image(re, qs) <==> exists q, w :: q in qs && Matches(go, re, w) && Walk(q, w) == p
  {
    if p in Image(re, qs) {
      var q, w := From(go, re, qs, p);
    }
    forall q, w | q in qs && Matches(go, re, w)
      ensures Walk(q, w) in Image(re, qs)
    {
      Into(go, re, qs, q, w);
    }
  }

  /** What to check on the tree: read from the start, no word ends before its first digit or past its last. */
  predicate OnlyNumerals(re: Regex) { Image(re, {Start}) <= {Digits} }

  /** Every word is a numeral if and only if the tree says so. */
  lemma NumeralsExact(go: Go, re: Regex)
    requires FoldsKeep(go) && Known(re)
    ensures OnlyNumerals(re) <==> forall w :: Matches(go, re, w) ==> Numeral(w)
  {
    if OnlyNumerals(re) {
      forall w | Matches(go, re, w)
        ensures Numeral(w)
      {
        ImageExact(go, re, {Start}, Walk(Start, w));
        NumeralWalk(w);
      }
    } else {
      var p :| p in Image(re, {Start}) && p != Digits;
      var q, w := From(go, re, {Start}, p);
      NumeralWalk(w);
    }
  }

  lemma {:induction false} AnalysedKnown(re: Regex, s: Word)
    requires GroupOnlyMatches(re, s)
    ensures Known(re)
    decreases re, 0
  {
    match re
    case Star(sub) => AnalysedKnown(sub, s);
    case Plus(sub) => AnalysedKnown(sub, s);
    case Quest(sub) => AnalysedKnown(sub, s);
    case Repeat(sub, _, _) => AnalysedKnown(sub, s);
    case Capture(_, sub) => AnalysedKnown(sub, s);
    case Concat(subs) => AllAnalysedKnown(subs, s);
    case Alternate(subs) => AllAnalysedKnown(subs, s);
    case _ =>
  }

  lemma {:induction false} AllAnalysedKnown(subs: seq<Regex>, s: Word)
    requires AllOnlyMatch(subs, s)
    ensures AllKnown(subs)
    decreases subs, 0
  {
    if subs != [] {
      AnalysedKnown(subs[0], s);
      AllAnalysedKnown(subs[1..], s);
    }
  }

  lemma {:induction false} AllKnownFrom(subs: seq<Regex>)
    requires forall k :: 0 <= k < |subs| ==> Known(subs[k])
    ensures AllKnown(subs)
  {
    if subs != [] {
      AllKnownFrom(subs[1..]);
    }
  }

  /** A capture inferred Int holds numerals only if and only if its tree says so. */
  lemma IntNumeral(go: Go, re: Regex, cap: nat)
    requires FoldsKeep(go) && GetCaptureGroup(re, cap).Some? && InferCaprefType(go, re, cap) == INT
    ensures var g := GetCaptureGroup(re, cap).value;
            OnlyNumerals(g) <==> forall w :: Matches(go, g, w) ==> Numeral(w)
  {
    var g := GetCaptureGroup(re, cap).value;
    if g.Alternate? {
      forall k | 0 <= k < |g.subs|
        ensures Known(g.subs[k])
      {
        FoldIsInt(go, g.subs, UNDEF, k);
        AnalysedKnown(g.subs[k], INTEGRAL);
      }
      AllKnownFrom(g.subs);
    } else {
      AnalysedKnown(g, INTEGRAL);
    }
    NumeralsExact(go, g);
  }

  /** `([0-9]*)`, as Go prints it, is inferred Int and may hold nothing. */
  lemma IntMayBeEmpty(go: Go)
    requires go.show(Star(CharClass([Range(0x30, 0x39)]))) == [0x5B, 0x30, 0x2D, 0x39, 0x5D, 0x2A]
    ensures var g := Star(CharClass([Range(0x30, 0x39)]));
            InferCaprefType(go, Capture(1, g), 1) == INT && Matches(go, g, []) && !Numeral([])
  {
    var g := Star(CharClass([Range(0x30, 0x39)]));
    assert MatchesTimes(go, g.sub, 0, []);
    assert g.sub.ranges[0].lo <= 0x30 <= g.sub.ranges[0].hi && 0x30 !in SIGNS;
    assert !GroupOnlyMatches(g.sub, SIGNS);
    forall r | 0x30 <= r <= 0x39
      ensures r in INTEGRAL
    {
      assert DIGITS[r - 0x30] == r;
      assert INTEGRAL[r - 0x30 + 2] == r;
    }
    assert GroupOnlyMatches(g.sub, INTEGRAL);
    assert go.show(g)[1] in DIGITS;
  }
}

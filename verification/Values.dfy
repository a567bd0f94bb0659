/**
 What the operators and conversions of `internal/vm/vm.go` give, said without
 saying how they are computed.
 */
module Values {
  import opened Common
  import opened Syntax
  import opened Machine
  import opened Semantics

  // ---- integers ----

  predicate Int64(x: int) { -TWO63 <= x < TWO63 }

  predicate Congruent(x: int, y: int) { (x - y) % TWO64 == 0 }

  /** `q` and `r` divide `a` by `b` with a quotient cut off toward zero. */
  predicate Divides(a: int, b: int, q: int, r: int) {
    a == q * b + r && Magnitude(r) < Magnitude(b) && (r != 0 ==> (r < 0 <==> a < 0))
  }

  /** What `a op b` must be; only a division can be without a result. */
  ghost predicate Answers(h: Host, op: IntOp, a: int, b: int, r: Option<int>) {
    match op
    case Add => r.Some? && Int64(r.value) && Congruent(r.value, a + b)
    case Sub => r.Some? && Int64(r.value) && Congruent(r.value + b, a)
    case Mul => r.Some? && Int64(r.value) && Congruent(r.value, a * b)
    case Div =>
      if b == 0 then r.None?
      else r.Some? && Int64(r.value) && exists q, m :: Divides(a, b, q, m) && Congruent(r.value, q)
    case Mod => if b == 0 then r.None? else r.Some? && exists q :: Divides(a, b, q, r.value)
    case _ => r == Some(h.bits(op, a, b))
  }

  lemma WrapCongruent(x: int, r: int)
    ensures r == Wrap(x) <==> Int64(r) && Congruent(r, x)
  {
    var q := (x + TWO63) / TWO64;
    assert Wrap(x) - x == -q * TWO64;
    MultipleOf(-q);
    if Int64(r) && Congruent(r, x) {
      var k, k' := (r - x) / TWO64, -q;
      assert r - Wrap(x) == (k - k') * TWO64;
      assert -TWO64 < r - Wrap(x) < TWO64;
    }
  }

  lemma MultipleOf(k: int)
    ensures k * TWO64 % TWO64 == 0
  {
  }

  /** There is one such quotient and remainder, and none is out of range but the quotient of the least integer by -1. */
  lemma QuotientDivides(a: int, b: int, q: int, r: int)
    requires b != 0
    ensures Divides(a, b, q, r) <==> q == Quotient(a, b) && r == a - Quotient(a, b) * b
  {
    QuotientTruncates(a, b);
    if Divides(a, b, q, r) {
      var q', r' := Quotient(a, b), a - Quotient(a, b) * b;
      DividesOnce(a, b, q, r, q', r');
    }
  }

  lemma DividesOnce(a: int, b: int, q: int, r: int, q': int, r': int)
    requires Divides(a, b, q, r) && Divides(a, b, q', r')
    ensures q == q' && r == r'
  {
    assert Magnitude(r - r') < Magnitude(b);
    assert r - r' == (q' - q) * b;
    if q != q' {
      MultipleAtLeast(q' - q, b);
    }
  }

  lemma MultipleAtLeast(d: int, b: int)
    requires d != 0
    ensures Magnitude(d * b) >= Magnitude(b)
  {
    if b < 0 {
      assert d * b == -(d * -b);
      MultipleOfNat(d, -b);
    } else {
      MultipleOfNat(d, b);
    }
  }

  lemma MultipleOfNat(d: int, n: nat)
    requires d != 0
    ensures d * n >= n || d * n <= 0 - n
  {
    if d > 0 {
      assert (d - 1) * n >= 0;
    } else {
      assert (-d - 1) * n >= 0;
    }
  }

  lemma QuotientLaw(a: int, b: int, r: int)
    requires b != 0
    ensures r == Wrap(Quotient(a, b)) <==> Int64(r) && exists q, m :: Divides(a, b, q, m) && Congruent(r, q)
  {
    var q := Quotient(a, b);
    WrapCongruent(q, r);
    QuotientDivides(a, b, q, a - q * b);
    forall x, m | Divides(a, b, x, m) ensures x == q { QuotientDivides(a, b, x, m); }
  }

  lemma RemainderLaw(a: int, b: int, r: int)
    requires Int64(a) && Int64(b) && b != 0
    ensures r == Wrap(a - Quotient(a, b) * b) <==> exists q :: Divides(a, b, q, r)
  {
    var q := Quotient(a, b);
    QuotientDivides(a, b, q, a - q * b);
    assert Int64(a - q * b);
    forall x | Divides(a, b, x, r) ensures r == a - q * b { QuotientDivides(a, b, x, r); }
  }

  /** Arithmetic on 64-bit integers is exactly what the laws ask for, operands in order. */
  lemma IntegerLaws(h: Host, op: IntOp, a: int, b: int, r: Option<int>)
    requires Int64(a) && Int64(b)
    ensures Answers(h, op, a, b, r) <==> r == IntResult(h, op, a, b)
  {
    hide Wrap, Quotient, Divides;
    var v := if r.Some? then r.value else 0;
    match op
    case Add => WrapCongruent(a + b, v);
    case Sub =>
      WrapCongruent(a - b, v);
      assert v + b - a == v - (a - b);
    case Mul => WrapCongruent(a * b, v);
    case Div => if b != 0 { QuotientLaw(a, b, v); }
    case Mod => if b != 0 { RemainderLaw(a, b, v); }
    case _ =>
  }

  /** On values: the left operand is the one written on the left, and only `bits` and `parseInt` are asked of the host. */
  lemma BinaryLaws(h: Host, op: IntOp, a: Plain, b: Plain)
    requires ToInt(h, a).Some? && Int64(ToInt(h, a).value) && ToInt(h, b).Some? && Int64(ToInt(h, b).value)
    ensures match BinResult(h, IntBin(op), a, b)
            case None => Answers(h, op, ToInt(h, a).value, ToInt(h, b).value, None)
            case Some(p) => p.IntV? && Answers(h, op, ToInt(h, a).value, ToInt(h, b).value, Some(p.i))
  {
    IntegerLaws(h, op, ToInt(h, a).value, ToInt(h, b).value, IntResult(h, op, ToInt(h, a).value, ToInt(h, b).value));
  }

  // ---- conversions ----

  /** The host prints integers so that it can read them as 64-bit integers. */
  ghost predicate ReadsBack(h: Host) { forall i :: Int64(i) ==> h.parseInt(h.formatInt(i)) == Some(i) }

  /** What is used as an integer: numbers, and strings that are read as 64-bit integers; nothing else. */
  lemma UsedAsInt(h: Host, p: Plain, i: int)
    ensures ToInt(h, p) == Some(i) <==> p in {IntV(i), NatV(i)} || (p.StrV? && h.parseInt(p.s) == Some(i))
  {
  }

  /** What is used as a string: strings as they are, and numbers as they are printed; nothing else. */
  lemma UsedAsStr(h: Host, p: Plain, s: string)
    ensures ToStr(h, p) == Some(s) <==> p == StrV(s) || (exists i :: p in {IntV(i), NatV(i)} && s == h.formatInt(i))
  {
    assert p.IntV? ==> p in {IntV(p.i), NatV(p.i)};
    assert p.NatV? ==> p in {IntV(p.n), NatV(p.n)};
  }

  /** An integer survives being used as a string and back, and a string that is the print of one is used as it. */
  lemma IntThroughText(h: Host, i: int)
    requires ReadsBack(h) && Int64(i)
    ensures exists p :: UnResult(h, IntToStr, IntV(i)) == Some(p) && UnResult(h, StrToInt, p) == Some(IntV(i))
                        && ToInt(h, p) == Some(i)
    ensures ToStr(h, IntV(i)).Some? && ToInt(h, StrV(ToStr(h, IntV(i)).value)) == Some(i)
  {
    assert UnResult(h, IntToStr, IntV(i)) == Some(StrV(h.formatInt(i)));
  }

  // ---- strings ----

  /** Where two strings part, or the first one ends. */
  predicate PartsAt(a: string, b: string, i: nat) {
    i <= |a| && i < |b| && a[..i] == b[..i] && (i == |a| || a[i] < b[i])
  }

  /** Strings are in the order of a dictionary. */
  lemma {:induction false} StrLessParts(a: string, b: string)
    ensures StrLess(a, b) <==> exists i: nat :: PartsAt(a, b, i)
  {
    if a == [] && b != [] {
      assert PartsAt(a, b, 0);
    } else if a != [] && b != [] {
      StrLessParts(a[1..], b[1..]);
      if a[0] < b[0] {
        assert PartsAt(a, b, 0);
      }
      if i: nat :| PartsAt(a[1..], b[1..], i) && a[0] == b[0] {
        assert a[..i + 1] == [a[0]] + a[1..][..i] && b[..i + 1] == [b[0]] + b[1..][..i];
        assert PartsAt(a, b, i + 1);
      }
      if i: nat :| PartsAt(a, b, i) && i > 0 {
        assert a[..i][0] == b[..i][0];
        assert a[1..][..i - 1] == a[..i][1..] && b[1..][..i - 1] == b[..i][1..];
        assert PartsAt(a[1..], b[1..], i - 1);
      }
    }
  }

  // ---- cells ----

  /** A cell that is not there yet counts as zero or as the empty string, never expires, and is there afterwards. */
  lemma FirstUse(inp: Input, lv: LValue, s: State, hist: History)
    requires EvalTarget(inp, lv, s, hist).Place?
    requires var p := EvalTarget(inp, lv, s, hist); p.keys !in p.s.tables[lv.metric].cells
    ensures var p := EvalTarget(inp, lv, s, hist);
            var t := p.s.tables[lv.metric];
            var read := EvalExpr(inp, Use(lv, Get(t.typ)), s, hist);
            var inc, dec := EvalExpr(inp, Use(lv, Inc), s, hist), EvalExpr(inp, Use(lv, Dec), s, hist);
            && read.Val? && read.p == (if t.typ.TInt? then IntV(0) else StrV(""))
            && read.s.tables[lv.metric].cells == t.cells[p.keys := Cell(if t.typ.TInt? then DInt(0) else DStr(""), 0)]
            && (t.typ.TInt? ==> inc.Val? && inc.p == IntV(1) && dec.Val? && dec.p == IntV(-1)
                                && inc.s.tables[lv.metric].cells[p.keys] == Cell(DInt(1), 0)
                                && dec.s.tables[lv.metric].cells[p.keys] == Cell(DInt(-1), 0))
  {
  }
}

/**
 What a program means, without a machine: a big-step evaluator over metrics
 that are plain maps from label tuple to value.  There is no stack, no jump
 and no pointer here, and `otherwise` is decided by the history of the
 conditionals already passed in the block.
 */
module Semantics {
  import opened Common
  import opened Syntax
  import opened Machine

  datatype Cell = Cell(datum: Datum, expiry: int)

  /** A metric as its user sees it. */
  datatype Table = Table(typ: Typ, arity: nat, cells: map<seq<string>, Cell>)

  datatype State = State(tables: seq<Table>, matches: map<int, seq<string>>)

  datatype Eval = Val(p: Plain, s: State) | EvalError(s: State)
  datatype EvalArgs = Vals(ps: seq<Plain>, s: State) | ArgsError(s: State)

  /** A reference to one cell of one metric. */
  datatype Place = Place(keys: seq<string>, s: State) | NoPlace(s: State)

  datatype Exec = Done(s: State, hist: seq<bool>) | Stopping(s: State) | ExecError(s: State)

  /** What happened before in this block, one entry per conditional passed. */
  type History = seq<bool>

  predicate AnyTaken(h: History) { true in h }

  // ---- cells ----

  /** Naming a cell creates it at zero. */
  function Touch(s: State, m: nat, keys: seq<string>): State
    requires m < |s.tables|
  {
    var t := s.tables[m];
    if keys in t.cells then s
    else s.(tables := s.tables[m := t.(cells := t.cells[keys := Cell(ZeroDatum(t.typ), 0)])])
  }

  function Put(s: State, m: nat, keys: seq<string>, c: Cell): State
    requires m < |s.tables|
  {
    s.(tables := s.tables[m := s.tables[m].(cells := s.tables[m].cells[keys := c])])
  }

  function Drop(s: State, m: nat, keys: seq<string>): State
    requires m < |s.tables|
  {
    s.(tables := s.tables[m := s.tables[m].(cells := s.tables[m].cells - {keys})])
  }

  predicate Holds(s: State, m: nat, keys: seq<string>) {
    m < |s.tables| && keys in s.tables[m].cells
  }

  // ---- expressions ----

  function UnResult(h: Host, op: UnOp, p: Plain): Option<Plain> {
    match op
    case BitNot => (match ToInt(h, p) case None => None case Some(i) => Some(IntV(h.complement(i))))
    case IntToStr => (match ToInt(h, p) case None => None case Some(i) => Some(StrV(h.formatInt(i))))
    case ToLower => (match ToStr(h, p) case None => None case Some(s) => Some(StrV(h.toLower(s))))
    case Length => (match ToStr(h, p) case None => None case Some(s) => Some(NatV(h.length(s))))
    case StrToInt => (match ToStr(h, p) case None => None case Some(s) => IntPlain(h.parseInt(s)))
  }

  function BinResult(h: Host, op: BinOp, a: Plain, b: Plain): Option<Plain> {
    match op
    case IntBin(iop) =>
      (match (ToInt(h, a), ToInt(h, b))
       case (Some(x), Some(y)) => IntPlain(IntResult(h, iop, x, y))
       case _ => None)
    case Concat =>
      match (ToStr(h, a), ToStr(h, b))
      case (Some(x), Some(y)) => Some(StrV(x + y))
      case _ => None
  }

  predicate IntRel(rel: Rel, a: int, b: int) {
    match rel
    case LT => a < b
    case GT => a > b
    case LE => a <= b
    case GE => a >= b
    case EQ => a == b
    case NE => a != b
  }

  /** The order on strings a comparison of String operands uses. */
  predicate StrRel(rel: Rel, a: string, b: string) {
    match rel
    case LT => StrLess(a, b)
    case GT => StrLess(b, a)
    case LE => a == b || StrLess(a, b)
    case GE => a == b || StrLess(b, a)
    case EQ => a == b
    case NE => a != b
  }

  predicate FloatRel(h: Host, rel: Rel, a: Float, b: Float) {
    match rel
    case LT => h.floatLess(a, b)
    case GT => h.floatLess(b, a)
    case LE => !h.floatLess(b, a)
    case GE => !h.floatLess(a, b)
    case EQ => h.floatEqual(a, b)
    case NE => !h.floatEqual(a, b)
  }

  /** The number a value is, or can be read as: a float if possible, else an integer. */
  function NumberIn(h: Host, p: Plain): Option<Number> {
    match p
    case IntV(i) => Some(Integer(i))
    case NatV(n) => Some(Integer(n))
    case StrV(s) =>
      if h.parseFloat(s).Some? then Some(Fraction(h.parseFloat(s).value))
      else if h.parseInt32(s).Some? then Some(Integer(h.parseInt32(s).value))
      else None
    case BoolV(_) => None
  }

  /** What two operands are compared as when no type says it. */
  datatype Sides =
    | Ints(x: int, y: int)
    | Floats(f: Float, g: Float)
    | Strings(s: string, t: string)
    | Incomparable

  function SidesOf(h: Host, a: Plain, b: Plain): Sides {
    match NumberIn(h, a)
    case None => if a.StrV? && b.StrV? then Strings(a.s, b.s) else Incomparable
    case Some(n) =>
      if b.BoolV? then Incomparable
      else if b.StrV? then
        match h.parseFloat(b.s)
        case None => Incomparable
        case Some(g) => Floats(if n.Fraction? then n.f else h.floatOf(0), g)
      else
        var y := if b.IntV? then b.i else b.n;
        if n.Integer? then Ints(n.i, y) else Floats(n.f, h.floatOf(y))
  }

  function RelResult(h: Host, rel: Rel, left: Left, a: Plain, b: Plain): Option<bool> {
    match left
    case Typed(TInt) =>
      (match (ToInt(h, a), ToInt(h, b))
       case (Some(x), Some(y)) => Some(IntRel(rel, x, y))
       case _ => None)
    case Typed(TString) =>
      (match (ToStr(h, a), ToStr(h, b))
       case (Some(x), Some(y)) => Some(StrRel(rel, x, y))
       case _ => None)
    case Untyped =>
      match SidesOf(h, a, b)
      case Ints(x, y) => Some(IntRel(rel, x, y))
      case Floats(f, g) => Some(FloatRel(h, rel, f, g))
      case Strings(s, t) => Some(StrRel(rel, s, t))
      case Incomparable => None
  }

  function Give(r: Option<Plain>, s: State): Eval {
    match r
    case None => EvalError(s)
    case Some(p) => Val(p, s)
  }

  function Search(inp: Input, s: State, re: string, id: nat, text: string, negated: bool): Eval {
    var r := inp.host.find(re, text);
    var groups := match r case None => [] case Some(g) => g;
    Val(BoolV(r.Some? != negated), s.(matches := s.matches[id := groups]))
  }

  function KeyStrings(h: Host, ps: seq<Plain>): Option<seq<string>> {
    if ps == [] then Some([])
    else
      match (ToStr(h, ps[0]), KeyStrings(h, ps[1..]))
      case (Some(k), Some(ks)) => Some([k] + ks)
      case _ => None
  }

  /** The cell an expression names. */
  function EvalTarget(inp: Input, lv: LValue, s: State, hist: History): (r: Place)
    ensures r.Place? ==> lv.metric < |r.s.tables| && |r.keys| == r.s.tables[lv.metric].arity
    decreases lv, 0
  {
    match EvalAll(inp, lv.args, s, hist)
    case ArgsError(s1) => NoPlace(s1)
    case Vals(ps, s1) =>
      match KeyStrings(inp.host, ps)
      case None => NoPlace(s1)
      case Some(keys) =>
        if lv.metric < |s1.tables| && |keys| == s1.tables[lv.metric].arity
        then Place(keys, s1)
        else NoPlace(s1)
  }

  /** Using a cell creates it; only a deletion names a cell without creating it. */
  function EvalLValue(inp: Input, lv: LValue, s: State, hist: History): Place
    decreases lv, 1
  {
    match EvalTarget(inp, lv, s, hist)
    case NoPlace(s1) => NoPlace(s1)
    case Place(keys, s1) => Place(keys, Touch(s1, lv.metric, keys))
  }

  function EvalAll(inp: Input, es: seq<Expr>, s: State, hist: History): EvalArgs
    decreases es, 0
  {
    if es == [] then Vals([], s)
    else
      match EvalExpr(inp, es[0], s, hist)
      case EvalError(s1) => ArgsError(s1)
      case Val(p, s1) =>
        match EvalAll(inp, es[1..], s1, hist)
        case ArgsError(s2) => ArgsError(s2)
        case Vals(ps, s2) => Vals([p] + ps, s2)
  }

  function ReadCell(s: State, m: nat, keys: seq<string>, t: Typ): Eval {
    if !Holds(s, m, keys) then EvalError(s)
    else
      match s.tables[m].cells[keys].datum
      case DInt(i) => if t.TInt? then Val(IntV(i), s) else EvalError(s)
      case DStr(x) => if t.TString? then Val(StrV(x), s) else EvalError(s)
  }

  /** Add `delta` to an Int cell; the result is the new value. */
  function Bump(s: State, m: nat, keys: seq<string>, delta: int): Eval {
    if Holds(s, m, keys) && s.tables[m].cells[keys].datum.DInt? then
      var c := s.tables[m].cells[keys];
      var n := Wrap(c.datum.i + delta);
      Val(IntV(n), Put(s, m, keys, c.(datum := DInt(n))))
    else EvalError(s)
  }

  /** The text of a cell, as it is by now, with a value behind it. */
  function JoinResult(h: Host, s: State, m: nat, keys: seq<string>, p: Plain): Option<Plain> {
    if ToStr(h, p).Some? && Holds(s, m, keys) && s.tables[m].cells[keys].datum.DStr?
    then Some(StrV(s.tables[m].cells[keys].datum.s + ToStr(h, p).value))
    else None
  }

  function EvalTerm(inp: Input, t: Term, s: State, hist: History): Eval {
    match t
    case IntLit(i) => Val(IntV(i), s)
    case StrLit(text, _) => Val(StrV(text), s)
    case Capref(pat, group) =>
      var groups := if pat in s.matches then s.matches[pat] else [];
      if group < |groups| then Val(StrV(groups[group]), s) else EvalError(s)
    case FileName => Val(StrV(inp.filename), s)
    case Pattern(re, id) => Search(inp, s, re, id, inp.line, false)
    case Otherwise => Val(BoolV(!AnyTaken(hist)), s)
  }

  function UseCell(s: State, m: nat, keys: seq<string>, how: Access): Eval {
    match how
    case Get(t) => ReadCell(s, m, keys, t)
    case Inc => Bump(s, m, keys, 1)
    case Dec => Bump(s, m, keys, -1)
  }

  function EvalExpr(inp: Input, e: Expr, s: State, hist: History): Eval
    decreases e, 1
  {
    match e
    case Leaf(t) => EvalTerm(inp, t, s, hist)
    case Use(lv, how) =>
      (match EvalLValue(inp, lv, s, hist)
       case NoPlace(s1) => EvalError(s1)
       case Place(keys, s1) => UseCell(s1, lv.metric, keys, how))
    case Unary(op, e1) =>
      (match EvalExpr(inp, e1, s, hist)
       case EvalError(s1) => EvalError(s1)
       case Val(p, s1) => Give(UnResult(inp.host, op, p), s1))
    case Binary(op, l, r) =>
      (match EvalExpr(inp, l, s, hist)
       case EvalError(s1) => EvalError(s1)
       case Val(a, s1) =>
         match EvalExpr(inp, r, s1, hist)
         case EvalError(s2) => EvalError(s2)
         case Val(b, s2) => Give(BinResult(inp.host, op, a, b), s2))
    case Compare(rel, left, l, r) =>
      (match EvalExpr(inp, l, s, hist)
       case EvalError(s1) => EvalError(s1)
       case Val(a, s1) =>
         match EvalExpr(inp, r, s1, hist)
         case EvalError(s2) => EvalError(s2)
         case Val(b, s2) => Give(BoolPlain(RelResult(inp.host, rel, left, a, b)), s2))
    case Logic(conj, l, r) =>
      (match EvalExpr(inp, l, s, hist)
       case EvalError(s1) => EvalError(s1)
       case Val(a, s1) =>
         if Decides(conj, a) then Val(BoolV(!conj), s1)
         else
           match EvalExpr(inp, r, s1, hist)
           case EvalError(s2) => EvalError(s2)
           case Val(b, s2) => Val(BoolV(Decides(conj, b) != conj), s2))
    case StrMatch(e1, re, id, negated) =>
      (match EvalExpr(inp, e1, s, hist)
      case EvalError(s1) => EvalError(s1)
      case Val(p, s1) =>
        match ToStr(inp.host, p)
        case None => EvalError(s1)
        case Some(text) => Search(inp, s1, re, id, text, negated))
    case Joined(lv, e1) =>
      match EvalLValue(inp, lv, s, hist)
      case NoPlace(s1) => EvalError(s1)
      case Place(keys, s1) =>
        match EvalExpr(inp, e1, s1, hist)
        case EvalError(s2) => EvalError(s2)
        case Val(p, s2) => Give(JoinResult(inp.host, s2, lv.metric, keys, p), s2)
  }

  /** A false operand settles `&&`, a true one settles `||`; a string settles neither. */
  predicate Decides(conj: bool, p: Plain) {
    if conj then Falsy(p) else Truthy(p)
  }

  // ---- statements ----

  function Stored(h: Host, t: Typ, p: Plain): Option<Datum> {
    match t
    case TInt => (match ToInt(h, p) case None => None case Some(i) => Some(DInt(i)))
    case TString => match ToStr(h, p) case None => None case Some(x) => Some(DStr(x))
  }

  function Write(s: State, m: nat, keys: seq<string>, d: Datum, hist: History): Exec {
    if Holds(s, m, keys) && s.tables[m].cells[keys].datum.DInt? == d.DInt?
    then Done(Put(s, m, keys, s.tables[m].cells[keys].(datum := d)), hist)
    else ExecError(s)
  }

  function UpdateCell(h: Host, s: State, m: nat, keys: seq<string>, how: Update, p: Plain, hist: History): Exec {
    match how
    case SetTo(t) =>
      (match Stored(h, t, p)
       case None => ExecError(s)
       case Some(d) => Write(s, m, keys, d, hist))
    case AddTo =>
      match ToInt(h, p)
      case None => ExecError(s)
      case Some(n) =>
        match Bump(s, m, keys, n)
        case EvalError(s1) => ExecError(s1)
        case Val(_, s1) => Done(s1, hist)
  }

  function RemoveCell(s: State, m: nat, keys: seq<string>, after: Option<int>, hist: History): Exec
    requires m < |s.tables|
  {
    match after
    case None => Done(Drop(s, m, keys), hist)
    case Some(expiry) =>
      if Holds(s, m, keys)
      then Done(Put(s, m, keys, s.tables[m].cells[keys].(expiry := expiry)), hist)
      else ExecError(s)
  }

  function ExecStmt(inp: Input, st: Stmt, s: State, hist: History): Exec
    decreases st, 1
  {
    match st
    case ExprStmt(e) =>
      (match EvalExpr(inp, e, s, hist)
       case EvalError(s1) => ExecError(s1)
       case Val(_, s1) => Done(s1, hist))
    case Store(lv, e, how) =>
      (match EvalLValue(inp, lv, s, hist)
       case NoPlace(s1) => ExecError(s1)
       case Place(keys, s1) =>
         match EvalExpr(inp, e, s1, hist)
         case EvalError(s2) => ExecError(s2)
         case Val(p, s2) => UpdateCell(inp.host, s2, lv.metric, keys, how, p, hist))
    case Cond(c, truth, els) =>
      (match EvalExpr(inp, c, s, hist)
       case EvalError(s1) => ExecError(s1)
       case Val(p, s1) =>
         if !Falsy(p) then
           match ExecStmt(inp, truth, s1, [])
           case Done(s2, _) => Done(s2, hist + [true])
           case r => r
         else
           match els
           case None => Done(s1, hist + [false])
           case Some(e) => ExecStmt(inp, e, s1, hist + [false]))
    case Block(stmts) => ExecAll(inp, stmts, s, hist)
    case Instance(body) => ExecStmt(inp, body, s, hist)
    case Stop => Stopping(s)
    case Remove(lv, after) =>
      match EvalTarget(inp, lv, s, hist)
      case NoPlace(s1) => ExecError(s1)
      case Place(keys, s1) => RemoveCell(s1, lv.metric, keys, after, hist)
  }

  function ExecAll(inp: Input, stmts: seq<Stmt>, s: State, hist: History): Exec
    decreases stmts, 0
  {
    if stmts == [] then Done(s, hist)
    else
      match ExecStmt(inp, stmts[0], s, hist)
      case Done(s1, h1) => ExecAll(inp, stmts[1..], s1, h1)
      case r => r
  }
}

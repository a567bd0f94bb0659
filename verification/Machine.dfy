/**
 The virtual machine of `internal/vm/vm.go`: a stack machine run once per log
 line.  `Execute` is one instruction, `Run` the fetch-execute loop of
 ProcessLogLine; the class `VM` in Vm.dfy does the same in place.
 */
module Machine {
  import opened Common
  import opened Syntax
  import L = Labels

  /** Values a program computes with. `NatV` is Go's `int`, `IntV` its `int64`. */
  datatype Plain = IntV(i: int) | NatV(n: int) | StrV(s: string) | BoolV(b: bool)

  /** Anything an operand or a stack slot can hold (Go's `interface{}`). */
  datatype Any =
    | Nil
    | P(p: Plain)
    | DurationV(d: int)
    | MetricV(m: nat)
    | DatumV(a: nat)

  datatype Opcode =
    | OStop | OMatch | OSmatch | OCmp | OIcmp | OScmp | OJnm | OJm | OJmp | OInc | ODec
    | OPush | OCapref | OStr | OSset | OIset | OInt(op: IntOp) | ONeg | ONot
    | OMload | ODload | OIget | OSget | ODel | OExpire | OTolower | OLength | OCat
    | OSetmatched | OOtherwise | OGetfilename | OS2i | OI2s

  datatype Instr = Instr(op: Opcode, arg: Any)

  predicate IsJump(op: Opcode) { op.OJmp? || op.OJm? || op.OJnm? }

  /** A float64 by its bits; the host knows what they mean. */
  datatype Float = Float(bits: int)

  /**
   Library calls the machine makes: regular expression search, number parsing
   and printing, case folding, and the integer operations that are not plain
   arithmetic.  `floatOf` is the conversion of an integer.
   */
  datatype Host = Host(
    find: (string, string) -> Option<seq<string>>,
    parseInt: string -> Option<int>,
    formatInt: int -> string,
    toLower: string -> string,
    length: string -> int,
    bits: (IntOp, int, int) -> int,
    complement: int -> int,
    parseInt32: string -> Option<int>,
    parseFloat: string -> Option<Float>,
    floatOf: int -> Float,
    floatLess: (Float, Float) -> bool,
    floatEqual: (Float, Float) -> bool)

  datatype Input = Input(host: Host, line: string, filename: string)

  // ---- 64-bit arithmetic ----

  const TWO63: int := 0x8000_0000_0000_0000
  const TWO64: int := 0x1_0000_0000_0000_0000

  /** Two's complement wrap-around into the int64 range. */
  function Wrap(x: int): (r: int)
    ensures -TWO63 <= r < TWO63
    ensures exists k: int :: r == x + k * TWO64
    ensures -TWO63 <= x < TWO63 ==> r == x
  {
    var r := (x + TWO63) % TWO64 - TWO63;
    assert r == x + (-((x + TWO63) / TWO64)) * TWO64;
    r
  }

  /** Go's division truncates toward zero. */
  function Quotient(a: int, b: int): (q: int)
    requires b != 0
  {
    var q := Magnitude(a) / Magnitude(b);
    if (a < 0) == (b < 0) then q else -q
  }

  function Magnitude(a: int): nat { if a < 0 then -a else a }

  /** Go's remainder takes the sign of the dividend. */
  lemma QuotientTruncates(a: int, b: int)
    requires b != 0
    ensures Magnitude(a - Quotient(a, b) * b) < Magnitude(b)
    ensures a - Quotient(a, b) * b != 0 ==> (a - Quotient(a, b) * b < 0 <==> a < 0)
  {
    var m: int, n: int := Magnitude(a), Magnitude(b);
    assert m == (m / n) * n + m % n;
    if a < 0 {
      assert a - Quotient(a, b) * b == -(m % n);
    } else {
      assert a - Quotient(a, b) * b == m % n;
    }
  }

  /** `None` is the machine's divide-by-zero error. */
  function IntResult(h: Host, op: IntOp, a: int, b: int): Option<int> {
    match op
    case Add => Some(Wrap(a + b))
    case Sub => Some(Wrap(a - b))
    case Mul => Some(Wrap(a * b))
    case Div => if b == 0 then None else Some(Wrap(Quotient(a, b)))
    case Mod => if b == 0 then None else Some(Wrap(a - Quotient(a, b) * b))
    case _ => Some(h.bits(op, a, b))
  }

  // ---- conversions of plain values ----

  function ToInt(h: Host, p: Plain): Option<int> {
    match p
    case IntV(i) => Some(i)
    case NatV(n) => Some(n)
    case StrV(s) => h.parseInt(s)
    case BoolV(_) => None
  }

  function ToStr(h: Host, p: Plain): Option<string> {
    match p
    case IntV(i) => Some(h.formatInt(i))
    case NatV(n) => Some(h.formatInt(n))
    case StrV(s) => Some(s)
    case BoolV(_) => None
  }

  /** compareInt: operand -1, 0, 1 asks for less, equal, greater. */
  function CompareInt(a: int, b: int, arg: int): Option<bool> {
    if arg == -1 then Some(a < b)
    else if arg == 0 then Some(a == b)
    else if arg == 1 then Some(a > b)
    else None
  }

  /** Byte-wise lexicographic order of strings. */
  predicate StrLess(a: string, b: string) {
    if b == [] then false
    else if a == [] then true
    else a[0] < b[0] || (a[0] == b[0] && StrLess(a[1..], b[1..]))
  }

  function CompareStr(a: string, b: string, arg: int): Option<bool> {
    if arg == -1 then Some(StrLess(a, b))
    else if arg == 0 then Some(a == b)
    else if arg == 1 then Some(StrLess(b, a))
    else None
  }

  /** compareFloat; nothing is assumed of the order, which NaN escapes. */
  function CompareFloat(h: Host, a: Float, b: Float, arg: int): Option<bool> {
    if arg == -1 then Some(h.floatLess(a, b))
    else if arg == 0 then Some(h.floatEqual(a, b))
    else if arg == 1 then Some(h.floatLess(b, a))
    else None
  }

  datatype Number = Integer(i: int) | Fraction(f: Float)

  /** compare, once its left operand is a number.  Beside a string an integer counts as zero. */
  function CompareNumber(h: Host, a: Number, b: Any, arg: int): Option<bool> {
    match b
    case P(StrV(s)) =>
      (match h.parseFloat(s)
       case None => None
       case Some(g) => CompareFloat(h, if a.Fraction? then a.f else h.floatOf(0), g, arg))
    case P(IntV(i)) => if a.Integer? then CompareInt(a.i, i, arg) else CompareFloat(h, a.f, h.floatOf(i), arg)
    case P(NatV(n)) => if a.Integer? then CompareInt(a.i, n, arg) else CompareFloat(h, a.f, h.floatOf(n), arg)
    case _ => None
  }

  /** compare: what to do is decided by what the operands look like, the left one first. */
  function CompareAny(h: Host, a: Any, b: Any, arg: int): Option<bool> {
    match a
    case P(IntV(i)) => CompareNumber(h, Integer(i), b, arg)
    case P(NatV(n)) => CompareNumber(h, Integer(n), b, arg)
    case P(StrV(s)) =>
      (match (h.parseFloat(s), h.parseInt32(s))
       case (Some(f), _) => CompareNumber(h, Fraction(f), b, arg)
       case (None, Some(i)) => CompareNumber(h, Integer(i), b, arg)
       case (None, None) => if b.P? && b.p.StrV? then CompareStr(s, b.p.s, arg) else None)
    case _ => None
  }

  // ---- storage ----

  datatype Datum = DInt(i: int) | DStr(s: string)

  datatype Metric = Metric(typ: Typ, arity: nat, lvs: seq<L.LabelValue<nat>>)

  /** Datums live in a heap; a label value and a stack slot can point at the same one. */
  datatype Storage = Storage(metrics: seq<Metric>, heap: seq<Datum>)

  function ZeroDatum(t: Typ): Datum {
    match t
    case TInt => DInt(0)
    case TString => DStr("")
  }

  /** The datum for `keys`, allocated at zero if the tuple is new; None on a length mismatch. */
  function GetDatum(s: Storage, m: nat, keys: seq<string>): Option<(Storage, nat)>
    requires m < |s.metrics|
  {
    var mt := s.metrics[m];
    if |keys| != mt.arity then None
    else
      match L.Find(mt.lvs, keys)
      case Some(i) => Some((s, mt.lvs[i].datum))
      case None =>
        var a := |s.heap|;
        var mt' := mt.(lvs := mt.lvs + [L.LabelValue(keys, a, 0)]);
        Some((Storage(s.metrics[m := mt'], s.heap + [ZeroDatum(mt.typ)]), a))
  }

  function RemoveDatum(s: Storage, m: nat, keys: seq<string>): Option<Storage>
    requires m < |s.metrics|
  {
    var mt := s.metrics[m];
    if |keys| != mt.arity then None
    else Some(s.(metrics := s.metrics[m := mt.(lvs := L.Without(mt.lvs, keys))]))
  }

  function ExpireDatum(s: Storage, m: nat, keys: seq<string>, e: int): Option<Storage>
    requires m < |s.metrics|
  {
    var mt := s.metrics[m];
    if |keys| != mt.arity then None
    else
      match L.Find(mt.lvs, keys)
      case None => None
      case Some(i) => Some(s.(metrics := s.metrics[m := mt.(lvs := mt.lvs[i := mt.lvs[i].(expiry := e)])]))
  }

  // ---- the machine ----

  /** Thread registers together with the metric storage. */
  datatype Vm = Vm(pc: int, stack: seq<Any>, matched: bool, matches: map<int, seq<string>>, store: Storage)

  /** `Underflow` is a pop of an empty stack, which the Go machine reports as a panic. */
  datatype Outcome = Finished | Stopped | Errored | Underflow

  datatype StepResult = Next(vm: Vm) | Halt(outcome: Outcome, store: Storage)

  datatype Object = Object(prog: seq<Instr>, regexps: seq<string>, strings: seq<string>)

  /** PopInt on a popped value. */
  function AsInt(h: Host, v: Any, heap: seq<Datum>): Option<int> {
    match v
    case P(p) => ToInt(h, p)
    case DatumV(a) => if a < |heap| && heap[a].DInt? then Some(heap[a].i) else None
    case _ => None
  }

  /** PopString on a popped value. */
  function AsStr(h: Host, v: Any, heap: seq<Datum>): Option<string> {
    match v
    case P(p) => ToStr(h, p)
    case DatumV(a) => if a < |heap| && heap[a].DStr? then Some(heap[a].s) else None
    case _ => None
  }

  function Top(s: seq<Any>): Any requires s != [] { s[|s| - 1] }
  function Rest(s: seq<Any>): seq<Any> requires s != [] { s[..|s| - 1] }

  datatype Keys = Keys(ks: seq<string>, rest: seq<Any>) | KeysBad | KeysShort

  /** Pop `n` strings; the deepest is the first key. */
  function PopKeys(h: Host, stack: seq<Any>, n: nat, heap: seq<Datum>): Keys
    decreases n
  {
    if n == 0 then Keys([], stack)
    else if stack == [] then KeysShort
    else
      match AsStr(h, Top(stack), heap)
      case None => KeysBad
      case Some(s) =>
        match PopKeys(h, Rest(stack), n - 1, heap)
        case Keys(ks, rest) => Keys(ks + [s], rest)
        case k => k
  }

  function Push(t: Vm, v: Plain): StepResult {
    Next(t.(stack := t.stack + [P(v)]))
  }

  function Fail(t: Vm): StepResult { Halt(Errored, t.store) }
  function Under(t: Vm): StepResult { Halt(Underflow, t.store) }

  /** Push the answer or report the error. */
  function Answer(t: Vm, v: Option<Plain>): StepResult {
    match v
    case None => Fail(t)
    case Some(p) => Push(t, p)
  }

  function MatchStep(inp: Input, o: Object, t: Vm, arg: Any, text: string): StepResult {
    if !(arg.P? && arg.p.NatV? && 0 <= arg.p.n < |o.regexps|) then Fail(t)
    else
      var r := inp.host.find(o.regexps[arg.p.n], text);
      var groups := match r case None => [] case Some(g) => g;
      Push(t.(matches := t.matches[arg.p.n := groups]), BoolV(r.Some?))
  }

  function IntPlain(r: Option<int>): Option<Plain> {
    match r case None => None case Some(i) => Some(IntV(i))
  }

  function BoolPlain(r: Option<bool>): Option<Plain> {
    match r case None => None case Some(b) => Some(BoolV(b))
  }

  /** Instructions that replace one plain value by another. */
  function UnStep(inp: Input, t: Vm, op: Opcode): StepResult {
    if t.stack == [] then Under(t)
    else
      var v, u := Top(t.stack), t.(stack := Rest(t.stack));
      var h := inp.host;
      match op
      case ONeg =>
        (match AsInt(h, v, t.store.heap)
         case None => Fail(u)
         case Some(i) => Push(u, IntV(h.complement(i))))
      case OI2s =>
        (match AsInt(h, v, t.store.heap)
         case None => Fail(u)
         case Some(i) => Push(u, StrV(h.formatInt(i))))
      case ONot => if v.P? && v.p.BoolV? then Push(u, BoolV(!v.p.b)) else Fail(u)
      case _ =>
        match AsStr(h, v, t.store.heap)
        case None => Fail(u)
        case Some(s) =>
          match op
          case OTolower => Push(u, StrV(h.toLower(s)))
          case OLength => Push(u, NatV(h.length(s)))
          case _ => Answer(u, IntPlain(h.parseInt(s)))
  }

  /** `cmp`: both operands are popped before they are looked at. */
  function CmpStep(inp: Input, t: Vm, i: Instr): StepResult {
    if t.stack == [] then Under(t)
    else
      var b, t1 := Top(t.stack), t.(stack := Rest(t.stack));
      if t1.stack == [] then Under(t1)
      else
        var a, t2 := Top(t1.stack), t1.(stack := Rest(t1.stack));
        if i.arg.P? && i.arg.p.NatV? then Answer(t2, BoolPlain(CompareAny(inp.host, a, b, i.arg.p.n)))
        else Fail(t2)
  }

  /** Two integer operands, the right one popped first. */
  function IntStep(inp: Input, t: Vm, i: Instr): StepResult {
    if t.stack == [] then Under(t)
    else
      var heap := t.store.heap;
      match AsInt(inp.host, Top(t.stack), heap)
      case None => Fail(t)
      case Some(b) =>
        var t1 := t.(stack := Rest(t.stack));
        if t1.stack == [] then Under(t1)
        else
          match AsInt(inp.host, Top(t1.stack), heap)
          case None => Fail(t1)
          case Some(a) =>
            var t2 := t1.(stack := Rest(t1.stack));
            match i.op
            case OInt(op) => Answer(t2, IntPlain(IntResult(inp.host, op, a, b)))
            case _ =>
              if i.arg.P? && i.arg.p.NatV? then Answer(t2, BoolPlain(CompareInt(a, b, i.arg.p.n)))
              else Fail(t2)
  }

  /** Two string operands. */
  function StrStep(inp: Input, t: Vm, i: Instr): StepResult {
    if t.stack == [] then Under(t)
    else
      var heap := t.store.heap;
      match AsStr(inp.host, Top(t.stack), heap)
      case None => Fail(t)
      case Some(b) =>
        var t1 := t.(stack := Rest(t.stack));
        if t1.stack == [] then Under(t1)
        else
          match AsStr(inp.host, Top(t1.stack), heap)
          case None => Fail(t1)
          case Some(a) =>
            var t2 := t1.(stack := Rest(t1.stack));
            if i.op.OCat? then Push(t2, StrV(a + b))
            else if i.arg.P? && i.arg.p.NatV? then Answer(t2, BoolPlain(CompareStr(a, b, i.arg.p.n)))
            else Fail(t2)
  }

  /** Does `jnm` leave the straight line?  Only a false boolean or a zero int64 does. */
  predicate Falsy(p: Plain) { p == BoolV(false) || p == IntV(0) }

  /** Does `jm` leave the straight line? */
  predicate Truthy(p: Plain) { p == BoolV(true) || (p.IntV? && p.i != 0) }

  function JumpStep(t: Vm, i: Instr): StepResult {
    if i.op.OJmp? then
      if i.arg.P? && i.arg.p.NatV? then Next(t.(pc := i.arg.p.n)) else Fail(t)
    else if t.stack == [] then Under(t)
    else
      var v, u := Top(t.stack), t.(stack := Rest(t.stack));
      var leave := v.P? && if i.op.OJnm? then Falsy(v.p) else Truthy(v.p);
      if !leave then Next(u)
      else if i.arg.P? && i.arg.p.NatV? then Next(u.(pc := i.arg.p.n))
      else Fail(u)
  }

  /** `inc`, `dec`: add to the datum on top, leaving its new value. */
  function BumpStep(t: Vm, delta: int): StepResult {
    if t.stack == [] then Under(t)
    else
      var v, u := Top(t.stack), t.(stack := Rest(t.stack));
      if v.DatumV? && v.a < |t.store.heap| && t.store.heap[v.a].DInt? then
        var n := Wrap(t.store.heap[v.a].i + delta);
        Push(u.(store := u.store.(heap := u.store.heap[v.a := DInt(n)])), IntV(n))
      else Fail(u)
  }

  function SetStep(t: Vm, d: Datum): StepResult {
    if t.stack == [] then Under(t)
    else
      var v, u := Top(t.stack), t.(stack := Rest(t.stack));
      if v.DatumV? && v.a < |t.store.heap| && t.store.heap[v.a].DInt? == d.DInt? then
        Next(u.(store := u.store.(heap := u.store.heap[v.a := d])))
      else Fail(u)
  }

  /** `dload`, `del`, `expire`: a metric on top of its keys. */
  function MetricStep(inp: Input, t: Vm, i: Instr): StepResult {
    if t.stack == [] then Under(t)
    else if !(Top(t.stack).MetricV? && Top(t.stack).m < |t.store.metrics|
              && i.arg.P? && i.arg.p.NatV? && 0 <= i.arg.p.n) then Fail(t)
    else
      var m := Top(t.stack).m;
      match PopKeys(inp.host, Rest(t.stack), i.arg.p.n, t.store.heap)
      case KeysBad => Fail(t)
      case KeysShort => Under(t)
      case Keys(ks, rest) =>
        match i.op
        case ODload =>
          (match GetDatum(t.store, m, ks)
           case None => Fail(t)
           case Some((s, a)) => Next(t.(stack := rest + [DatumV(a)], store := s)))
        case ODel =>
          (match RemoveDatum(t.store, m, ks)
           case None => Fail(t)
           case Some(s) => Next(t.(stack := rest, store := s)))
        case _ =>
          if rest == [] then Under(t)
          else if !Top(rest).DurationV? then Fail(t)
          else
            match ExpireDatum(t.store, m, ks, Top(rest).d)
            case None => Fail(t)
            case Some(s) => Next(t.(stack := Rest(rest), store := s))
  }

  /** Pop the value, then store it through the datum below it. */
  function AssignStep(inp: Input, t: Vm, op: Opcode): StepResult {
    if t.stack == [] then Under(t)
    else
      var v, u := Top(t.stack), t.(stack := Rest(t.stack));
      if op.OSset? then
        match AsStr(inp.host, v, t.store.heap)
        case None => Fail(u)
        case Some(s) => SetStep(u, DStr(s))
      else
        match AsInt(inp.host, v, t.store.heap)
        case None => Fail(u)
        case Some(n) => if op.OIset? then SetStep(u, DInt(n)) else BumpStep(u, n)
  }

  function GetStep(t: Vm, op: Opcode): StepResult {
    if t.stack == [] then Under(t)
    else
      var v, u := Top(t.stack), t.(stack := Rest(t.stack));
      if !(v.DatumV? && v.a < |t.store.heap|) then Fail(u)
      else
        match t.store.heap[v.a]
        case DInt(n) => if op.OIget? then Push(u, IntV(n)) else Fail(u)
        case DStr(s) => if op.OSget? then Push(u, StrV(s)) else Fail(u)
  }

  function CaprefStep(t: Vm, i: Instr): StepResult {
    if t.stack == [] then Under(t)
    else
      var v, u := Top(t.stack), t.(stack := Rest(t.stack));
      if !(v.P? && v.p.NatV? && i.arg.P? && i.arg.p.NatV?) then Fail(u)
      else
        var groups := if v.p.n in t.matches then t.matches[v.p.n] else [];
        if 0 <= i.arg.p.n < |groups| then Push(u, StrV(groups[i.arg.p.n])) else Fail(u)
  }

  /** One instruction cycle; `t.pc` already points past `i`. */
  function Execute(inp: Input, o: Object, t: Vm, i: Instr): (r: StepResult)
    ensures r.Next? ==>
              || r.vm.pc == t.pc
              || (IsJump(i.op) && i.arg.P? && i.arg.p.NatV? && r.vm.pc == i.arg.p.n)
  {
    match i.op
    case OStop => Halt(Stopped, t.store)
    case OMatch => MatchStep(inp, o, t, i.arg, inp.line)
    case OSmatch =>
      if t.stack == [] then Under(t)
      else
        var u := t.(stack := Rest(t.stack));
        (match AsStr(inp.host, Top(t.stack), t.store.heap)
         case None => Fail(u)
         case Some(s) => MatchStep(inp, o, u, i.arg, s))
    case OCmp => CmpStep(inp, t, i)
    case OIcmp => IntStep(inp, t, i)
    case OInt(_) => IntStep(inp, t, i)
    case OScmp => StrStep(inp, t, i)
    case OCat => StrStep(inp, t, i)
    case OJnm => JumpStep(t, i)
    case OJm => JumpStep(t, i)
    case OJmp => JumpStep(t, i)
    case OInc => if i.arg.Nil? then BumpStep(t, 1) else AssignStep(inp, t, OInc)
    case ODec => BumpStep(t, -1)
    case OIset => AssignStep(inp, t, OIset)
    case OSset => AssignStep(inp, t, OSset)
    case OPush => Next(t.(stack := t.stack + [i.arg]))
    case OStr =>
      if i.arg.P? && i.arg.p.NatV? && 0 <= i.arg.p.n < |o.strings|
      then Push(t, StrV(o.strings[i.arg.p.n])) else Fail(t)
    case OCapref => CaprefStep(t, i)
    case OMload =>
      if i.arg.P? && i.arg.p.NatV? && 0 <= i.arg.p.n < |t.store.metrics|
      then Next(t.(stack := t.stack + [MetricV(i.arg.p.n)])) else Fail(t)
    case ODload => MetricStep(inp, t, i)
    case ODel => MetricStep(inp, t, i)
    case OExpire => MetricStep(inp, t, i)
    case OIget => GetStep(t, i.op)
    case OSget => GetStep(t, i.op)
    case OSetmatched =>
      if i.arg.P? && i.arg.p.BoolV? then Next(t.(matched := i.arg.p.b)) else Fail(t)
    case OOtherwise => Push(t, BoolV(!t.matched))
    case OGetfilename => Push(t, StrV(inp.filename))
    case _ => UnStep(inp, t, i.op)
  }

  /** Every jump goes strictly forward, at most to the end of the program. */
  predicate Forward(prog: seq<Instr>) {
    forall i :: 0 <= i < |prog| && IsJump(prog[i].op) ==>
      prog[i].arg.P? && prog[i].arg.p.NatV? && i < prog[i].arg.p.n <= |prog|
  }

  datatype RunResult = RunResult(outcome: Outcome, store: Storage)

  function Fetch(inp: Input, o: Object, t: Vm): StepResult
    requires 0 <= t.pc < |o.prog|
  {
    Execute(inp, o, t.(pc := t.pc + 1), o.prog[t.pc])
  }

  /** The fetch-execute loop. */
  function Run(inp: Input, o: Object, t: Vm): RunResult
    requires Forward(o.prog) && 0 <= t.pc
    decreases |o.prog| - t.pc
  {
    if t.pc >= |o.prog| then RunResult(Finished, t.store)
    else
      match Fetch(inp, o, t)
      case Halt(oc, s) => RunResult(oc, s)
      case Next(t') => Run(inp, o, t')
  }

  /** Instruction cycles the loop performs. */
  function Cycles(inp: Input, o: Object, t: Vm): nat
    requires Forward(o.prog) && 0 <= t.pc
    decreases |o.prog| - t.pc
  {
    if t.pc >= |o.prog| then 0
    else
      match Fetch(inp, o, t)
      case Halt(_, _) => 1
      case Next(t') => 1 + Cycles(inp, o, t')
  }

  /** A line costs at most one cycle per instruction still ahead. */
  lemma {:induction false} CyclesBounded(inp: Input, o: Object, t: Vm)
    requires Forward(o.prog) && 0 <= t.pc <= |o.prog|
    ensures Cycles(inp, o, t) <= |o.prog| - t.pc
    decreases |o.prog| - t.pc
  {
    if t.pc < |o.prog| && Fetch(inp, o, t).Next? {
      CyclesBounded(inp, o, Fetch(inp, o, t).vm);
    }
  }

  function Start(s: Storage): Vm { Vm(0, [], false, map[], s) }
}

/**
 The virtual machine as it runs: registers and a stack updated in place
 (`internal/vm/vm.go`).  Every method is proved against the pure instruction
 cycle of Machine.dfy.
 */
module Vm {
  import opened Common
  import opened Machine
  import opened Semantics
  import opened Decorators
  import opened Captures
  import opened CodeGen
  import opened Refine
  import opened Correct
  import opened Pipeline
  import opened Scopes

  class VM {
    const obj: Object

    var pc: int
    var stack: seq<Any>
    var matched: bool
    var matches: map<int, seq<string>>
    var store: Storage

    /** Why the run of this line ended; None while it goes on. */
    var ended: Option<Outcome>

    ghost function Regs(): Machine.Vm reads this { Machine.Vm(pc, stack, matched, matches, store) }

    /** The registers are as the instruction cycle `r` leaves them. */
    ghost predicate Did(r: StepResult) reads this {
      match r
      case Next(t) => ended.None? && Regs() == t
      case Halt(oc, s) => ended == Some(oc) && store == s
    }

    constructor (obj: Object, store: Storage)
      ensures this.obj == obj && this.store == store && ended.None?
    {
      this.obj, this.store := obj, store;
      pc, stack, matched, matches, ended := 0, [], false, map[], None;
    }

    method Errorf()
      modifies this`ended
      ensures ended == Some(Errored)
    {
      ended := Some(Errored);
    }

    method Push(v: Any)
      modifies this`stack
      ensures stack == old(stack) + [v]
    {
      stack := stack + [v];
    }

    /** Pop the top of the stack; popping nothing ends the run. */
    method Pop() returns (v: Any)
      requires ended.None?
      modifies this`stack, this`ended
      ensures old(stack) == [] ==> ended == Some(Underflow)
      ensures old(stack) != [] ==> ended.None? && v == Top(old(stack)) && stack == Rest(old(stack))
    {
      if stack == [] {
        ended := Some(Underflow);
        return Nil;
      }
      v := stack[|stack| - 1];
      stack := stack[..|stack| - 1];
    }

    method PopInt(h: Host) returns (n: int)
      requires ended.None?
      modifies this`stack, this`ended
      ensures old(stack) == [] ==> ended == Some(Underflow)
      ensures old(stack) != [] ==>
                match AsInt(h, Top(old(stack)), store.heap)
                case None => ended == Some(Errored)
                case Some(i) => ended.None? && n == i && stack == Rest(old(stack))
    {
      n := 0;
      var v := Pop();
      if ended.None? {
        var r := AsInt(h, v, store.heap);
        if r.None? {
          Errorf();
        } else {
          n := r.value;
        }
      }
    }

    method PopString(h: Host) returns (s: string)
      requires ended.None?
      modifies this`stack, this`ended
      ensures old(stack) == [] ==> ended == Some(Underflow)
      ensures old(stack) != [] ==>
                match AsStr(h, Top(old(stack)), store.heap)
                case None => ended == Some(Errored)
                case Some(x) => ended.None? && s == x && stack == Rest(old(stack))
    {
      s := "";
      var v := Pop();
      if ended.None? {
        var r := AsStr(h, v, store.heap);
        if r.None? {
          Errorf();
        } else {
          s := r.value;
        }
      }
    }

    method PushOrFail(r: Option<Plain>)
      requires ended.None?
      modifies this`stack, this`ended
      ensures Did(Answer(old(Regs()), r))
    {
      if r.None? {
        Errorf();
      } else {
        Push(P(r.value));
      }
    }

    method DoMatch(inp: Input, arg: Any, text: string)
      requires ended.None?
      modifies this`stack, this`matches, this`ended
      ensures Did(MatchStep(inp, obj, old(Regs()), arg, text))
    {
      if !(arg.P? && arg.p.NatV? && 0 <= arg.p.n < |obj.regexps|) {
        Errorf();
        return;
      }
      var found := inp.host.find(obj.regexps[arg.p.n], text);
      matches := matches[arg.p.n := if found.None? then [] else found.value];
      Push(P(BoolV(found.Some?)));
    }

    /** `neg`, `i2s`. */
    method DoIntUnary(inp: Input, op: Opcode)
      requires ended.None? && (op.ONeg? || op.OI2s?)
      modifies this`stack, this`ended
      ensures Did(UnStep(inp, old(Regs()), op))
    {
      var i := PopInt(inp.host);
      if ended.None? {
        Push(P(if op.ONeg? then IntV(inp.host.complement(i)) else StrV(inp.host.formatInt(i))));
      }
    }

    method DoNot(inp: Input)
      requires ended.None?
      modifies this`stack, this`ended
      ensures Did(UnStep(inp, old(Regs()), ONot))
    {
      var v := Pop();
      if ended.None? {
        if v.P? && v.p.BoolV? { Push(P(BoolV(!v.p.b))); } else { Errorf(); }
      }
    }

    /** `tolower`, `length`, `s2i`. */
    method DoStringUnary(inp: Input, op: Opcode)
      requires ended.None? && (op.OTolower? || op.OLength? || op.OS2i?)
      modifies this`stack, this`ended
      ensures Did(UnStep(inp, old(Regs()), op))
    {
      var s := PopString(inp.host);
      if ended.None? {
        if op.OTolower? {
          Push(P(StrV(inp.host.toLower(s))));
        } else if op.OLength? {
          Push(P(NatV(inp.host.length(s))));
        } else {
          PushOrFail(IntPlain(inp.host.parseInt(s)));
        }
      }
    }

    /** Untyped: both operands are popped first, then looked at. */
    method DoCompare(inp: Input, i: Instr)
      requires ended.None?
      modifies this`stack, this`ended
      ensures Did(CmpStep(inp, old(Regs()), i))
    {
      var b := Pop();
      if ended.Some? { return; }
      var a := Pop();
      if ended.Some? { return; }
      if i.arg.P? && i.arg.p.NatV? {
        PushOrFail(BoolPlain(CompareAny(inp.host, a, b, i.arg.p.n)));
      } else {
        Errorf();
      }
    }

    method DoInt(inp: Input, i: Instr)
      requires ended.None?
      modifies this`stack, this`ended
      ensures Did(IntStep(inp, old(Regs()), i))
    {
      var b := PopInt(inp.host);
      if ended.Some? { return; }
      var a := PopInt(inp.host);
      if ended.Some? { return; }
      if i.op.OInt? {
        PushOrFail(IntPlain(IntResult(inp.host, i.op.op, a, b)));
      } else if i.arg.P? && i.arg.p.NatV? {
        PushOrFail(BoolPlain(CompareInt(a, b, i.arg.p.n)));
      } else {
        Errorf();
      }
    }

    method DoString(inp: Input, i: Instr)
      requires ended.None?
      modifies this`stack, this`ended
      ensures Did(StrStep(inp, old(Regs()), i))
    {
      var b := PopString(inp.host);
      if ended.Some? { return; }
      var a := PopString(inp.host);
      if ended.Some? { return; }
      if i.op.OCat? {
        Push(P(StrV(a + b)));
      } else if i.arg.P? && i.arg.p.NatV? {
        PushOrFail(BoolPlain(CompareStr(a, b, i.arg.p.n)));
      } else {
        Errorf();
      }
    }

    method DoJump(i: Instr)
      requires ended.None? && IsJump(i.op)
      modifies this`pc, this`stack, this`ended
      ensures Did(JumpStep(old(Regs()), i))
    {
      var leave := i.op.OJmp?;
      if !leave {
        var v := Pop();
        if ended.Some? { return; }
        leave := v.P? && if i.op.OJnm? then Falsy(v.p) else Truthy(v.p);
      }
      if leave {
        if i.arg.P? && i.arg.p.NatV? {
          pc := i.arg.p.n;
        } else {
          Errorf();
        }
      }
    }

    /** Add to the datum on top of the stack. */
    method DoBump(delta: int)
      requires ended.None?
      modifies this`stack, this`store, this`ended
      ensures Did(BumpStep(old(Regs()), delta))
    {
      var v := Pop();
      if ended.Some? { return; }
      if v.DatumV? && v.a < |store.heap| && store.heap[v.a].DInt? {
        var n := Wrap(store.heap[v.a].i + delta);
        store := store.(heap := store.heap[v.a := DInt(n)]);
        Push(P(IntV(n)));
      } else {
        Errorf();
      }
    }

    method DoSet(d: Datum)
      requires ended.None?
      modifies this`stack, this`store, this`ended
      ensures Did(SetStep(old(Regs()), d))
    {
      var v := Pop();
      if ended.Some? { return; }
      if v.DatumV? && v.a < |store.heap| && store.heap[v.a].DInt? == d.DInt? {
        store := store.(heap := store.heap[v.a := d]);
      } else {
        Errorf();
      }
    }

    method DoAssign(inp: Input, op: Opcode)
      requires ended.None?
      modifies this`stack, this`store, this`ended
      ensures Did(AssignStep(inp, old(Regs()), op))
    {
      if op.OSset? {
        var s := PopString(inp.host);
        if ended.None? { DoSet(DStr(s)); }
      } else {
        var n := PopInt(inp.host);
        if ended.None? {
          if op.OIset? { DoSet(DInt(n)); } else { DoBump(n); }
        }
      }
    }

    method DoGet(op: Opcode)
      requires ended.None?
      modifies this`stack, this`ended
      ensures Did(GetStep(old(Regs()), op))
    {
      var v := Pop();
      if ended.Some? { return; }
      if v.DatumV? && v.a < |store.heap| {
        match store.heap[v.a]
        case DInt(n) => if op.OIget? { Push(P(IntV(n))); } else { Errorf(); }
        case DStr(s) => if op.OSget? { Push(P(StrV(s))); } else { Errorf(); }
      } else {
        Errorf();
      }
    }

    method DoCapref(i: Instr)
      requires ended.None?
      modifies this`stack, this`ended
      ensures Did(CaprefStep(old(Regs()), i))
    {
      var v := Pop();
      if ended.Some? { return; }
      if !(v.P? && v.p.NatV? && i.arg.P? && i.arg.p.NatV?) {
        Errorf();
        return;
      }
      var groups := if v.p.n in matches then matches[v.p.n] else [];
      if 0 <= i.arg.p.n < |groups| {
        Push(P(StrV(groups[i.arg.p.n])));
      } else {
        Errorf();
      }
    }

    /** Pop `n` key strings; the deepest comes first. */
    method CollectKeys(h: Host, n: nat) returns (keys: seq<string>)
      requires ended.None?
      modifies this`stack, this`ended
      ensures match PopKeys(h, old(stack), n, store.heap)
              case KeysBad => ended == Some(Errored)
              case KeysShort => ended == Some(Underflow)
              case Keys(ks, rest) => ended.None? && keys == ks && stack == rest
    {
      keys := [];
      ghost var s0 := stack;
      var a := n;
      while a > 0
        invariant 0 <= a <= n && ended.None?
        invariant PopKeys(h, s0, n, store.heap) ==
                  match PopKeys(h, stack, a, store.heap)
                  case Keys(ks, rest) => Keys(ks + keys, rest)
                  case k => k
      {
        ghost var before := stack;
        var s := PopString(h);
        if ended.Some? { return; }
        match PopKeys(h, stack, a - 1, store.heap) {
          case Keys(ks, _) => assert ks + [s] + keys == ks + ([s] + keys);
          case _ =>
        }
        keys := [s] + keys;
        a := a - 1;
      }
      assert [] + keys == keys;
    }

    method DoMetric(inp: Input, i: Instr)
      requires ended.None? && (i.op.ODload? || i.op.ODel? || i.op.OExpire?)
      modifies this`stack, this`store, this`ended
      ensures Did(MetricStep(inp, old(Regs()), i))
    {
      hide GetDatum;
      hide RemoveDatum;
      hide ExpireDatum;
      hide PopKeys;
      var v := Pop();
      if ended.Some? { return; }
      if !(v.MetricV? && v.m < |store.metrics| && i.arg.P? && i.arg.p.NatV? && 0 <= i.arg.p.n) {
        Errorf();
        return;
      }
      var keys := CollectKeys(inp.host, i.arg.p.n);
      if ended.Some? { return; }
      if i.op.OExpire? {
        DoExpire(v.m, keys);
      } else {
        DoKeyed(v.m, keys, i.op);
      }
    }

    /** `dload`, `del` once their operands are popped. */
    method DoKeyed(m: nat, keys: seq<string>, op: Opcode)
      requires ended.None? && m < |store.metrics| && (op.ODload? || op.ODel?)
      modifies this`stack, this`store, this`ended
      ensures Did(if op.ODload? then
                    match GetDatum(old(store), m, keys)
                    case None => Halt(Errored, old(store))
                    case Some((s, a)) => Next(old(Regs()).(stack := old(stack) + [DatumV(a)], store := s))
                  else
                    match RemoveDatum(old(store), m, keys)
                    case None => Halt(Errored, old(store))
                    case Some(s) => Next(old(Regs()).(store := s)))
    {
      if op.ODload? {
        var r := GetDatum(store, m, keys);
        if r.None? { Errorf(); return; }
        store := r.value.0;
        Push(DatumV(r.value.1));
      } else {
        var r := RemoveDatum(store, m, keys);
        if r.None? { Errorf(); return; }
        store := r.value;
      }
    }

    /** `expire` once metric and keys are popped. */
    method DoExpire(m: nat, keys: seq<string>)
      requires ended.None? && m < |store.metrics|
      modifies this`stack, this`store, this`ended
      ensures Did(if old(stack) == [] then Halt(Underflow, old(store))
                  else if !Top(old(stack)).DurationV? then Halt(Errored, old(store))
                  else
                    match ExpireDatum(old(store), m, keys, Top(old(stack)).d)
                    case None => Halt(Errored, old(store))
                    case Some(s) => Next(old(Regs()).(stack := Rest(old(stack)), store := s)))
    {
      var d := Pop();
      if ended.Some? { return; }
      if !d.DurationV? { Errorf(); return; }
      var r := ExpireDatum(store, m, keys, d.d);
      if r.None? { Errorf(); return; }
      store := r.value;
    }

    /** One instruction cycle. */
    method Execute(inp: Input, i: Instr)
      requires ended.None?
      modifies this
      ensures Did(Machine.Execute(inp, obj, old(Regs()), i))
    {
      hide UnStep, IntStep, StrStep, CmpStep, BumpStep, MetricStep, AssignStep, GetStep, CaprefStep;
      match i.op {
        case OStop => ended := Some(Stopped);
        case OMatch => DoMatch(inp, i.arg, inp.line);
        case OSmatch =>
          var s := PopString(inp.host);
          if ended.None? { DoMatch(inp, i.arg, s); }
        case OCmp => DoCompare(inp, i);
        case OIcmp => DoInt(inp, i);
        case OInt(_) => DoInt(inp, i);
        case OScmp => DoString(inp, i);
        case OCat => DoString(inp, i);
        case OJnm => DoJump(i);
        case OJm => DoJump(i);
        case OJmp => DoJump(i);
        case OInc => if i.arg.Nil? { DoBump(1); } else { DoAssign(inp, OInc); }
        case ODec => DoBump(-1);
        case OIset => DoAssign(inp, OIset);
        case OSset => DoAssign(inp, OSset);
        case OPush => Push(i.arg);
        case OStr =>
          if i.arg.P? && i.arg.p.NatV? && 0 <= i.arg.p.n < |obj.strings| {
            Push(P(StrV(obj.strings[i.arg.p.n])));
          } else {
            Errorf();
          }
        case OCapref => DoCapref(i);
        case OMload =>
          if i.arg.P? && i.arg.p.NatV? && 0 <= i.arg.p.n < |store.metrics| {
            Push(MetricV(i.arg.p.n));
          } else {
            Errorf();
          }
        case ODload => DoMetric(inp, i);
        case ODel => DoMetric(inp, i);
        case OExpire => DoMetric(inp, i);
        case OIget => DoGet(i.op);
        case OSget => DoGet(i.op);
        case OSetmatched =>
          if i.arg.P? && i.arg.p.BoolV? { matched := i.arg.p.b; } else { Errorf(); }
        case OOtherwise => Push(P(BoolV(!matched)));
        case OGetfilename => Push(P(StrV(inp.filename)));
        case ONot => DoNot(inp);
        case ONeg => DoIntUnary(inp, i.op);
        case OI2s => DoIntUnary(inp, i.op);
        case OTolower => DoStringUnary(inp, i.op);
        case OLength => DoStringUnary(inp, i.op);
        case OS2i => DoStringUnary(inp, i.op);
      }
    }

    /** Run the program once on a line, from fresh registers, until it ends. */
    method ProcessLogLine(inp: Input) returns (outcome: Outcome, cycles: nat)
      requires Forward(obj.prog)
      modifies this
      ensures RunResult(outcome, store) == Run(inp, obj, Start(old(store)))
      ensures cycles == Cycles(inp, obj, Start(old(store))) && cycles <= |obj.prog|
      ensures ended.None?
    {
      hide Machine.Execute;
      pc, stack, matched, matches, ended := 0, [], false, map[], None;
      cycles := 0;
      ghost var t0 := Regs();
      CyclesBounded(inp, obj, t0);
      while pc < |obj.prog|
        invariant 0 <= pc && ended.None?
        invariant Run(inp, obj, Regs()) == Run(inp, obj, t0)
        invariant cycles + Cycles(inp, obj, Regs()) == Cycles(inp, obj, t0)
        decreases |obj.prog| - pc
      {
        var i := obj.prog[pc];
        pc := pc + 1;
        cycles := cycles + 1;
        Execute(inp, i);
        if ended.Some? {
          // Ending only stops this line; the next one starts anew.
          outcome := ended.value;
          ended := None;
          return;
        }
      }
      outcome := Finished;
    }
  }

  /**
   Load a program the checker accepts and feed it one line: generation, then
   the machine.  Unless a pattern is broken, the metrics end as the program
   means, provided its captures are clean.
   */
  method RunOnLine(decls: seq<Src>, src: Src, broken: set<string>, inp: Input, store: Storage, ghost tables: seq<Table>)
    returns (loaded: bool, outcome: Outcome, store': Storage)
    requires Accepts(decls, src) && Sim(store, State(tables, map[]))
    requires Acceptable(decls, src) ==> Clean(Whole(decls, src))
    ensures Acceptable(decls, src)
    ensures var regexps := NumStmt(Whole(decls, src), FRESH, false).g.regexps;
            loaded <==> forall i :: 0 <= i < |regexps| ==> regexps[i] !in broken
    ensures !loaded ==> store' == store
    ensures loaded ==>
              var m := Meaning(decls, src, inp, tables);
              outcome == OutcomeOf(m) && Sim(store', m.s)
  {
    AcceptsVisible(decls, src);
    hide Accepts;
    var o := Generate(decls, src, broken);
    loaded := o.Some?;
    if !loaded {
      return false, Errored, store;
    }
    EndToEnd(decls, src, o.value, inp, store, tables);
    var vm := new VM(o.value, store);
    var cycles;
    outcome, cycles := vm.ProcessLogLine(inp);
    store' := vm.store;
  }
}

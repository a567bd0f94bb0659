/**
 The program loader (`internal/vm/loader.go`): one goroutine hands every log
 line to every loaded program while others reload, add and remove programs
 under a lock.  A step system over all interleavings.
 */
module Loader {
  datatype Line = Line(filename: string, text: string)

  type Name = string

  /** The channel into one virtual machine, and what the machine has taken from it. */
  datatype Channel = Channel(program: Name, open: bool, got: seq<Line>)

  datatype Owner = Dispatcher | Thread(t: nat)

  /** handleMu; the dispatcher is the only one to hold a read lock for longer than a look-up. */
  datatype Lock = Free | Shared | Exclusive(owner: Owner)

  /** The main loop: waiting for a line, holding one, handing it out, and the shutdown at the end of input. */
  datatype Dispatch =
    | Waiting
    | Holding(line: Line)
    | Sending(line: Line, todo: set<Name>)
    | EndOfInput
    | Closing
    | Ended

  /** A goroutine in CompileAndRun. */
  datatype Phase =
    | Idle
    | Compiling(name: Name, hash: nat)
    | Compiled(name: Name, hash: nat)
    | Locked(name: Name, hash: nat)
    | ClosedOld(name: Name, hash: nat)

  datatype Handle = Handle(channel: nat, hash: nat)

  datatype System = System(
    channels: seq<Channel>,
    handles: map<Name, Handle>,
    lock: Lock,
    dispatch: Dispatch,
    phases: map<nat, Phase>,
    /** A send on, or a close of, a closed channel: what would panic. */
    fault: bool,
    // history
    done: seq<Line>,
    served: map<Name, seq<nat>>,
    since: map<Name, nat>,
    orphans: set<nat>)

  datatype Action =
    // the dispatcher
    | TakeLine(line: Line) | StartSending | Send(name: Name) | FinishLine
    | NoMoreLines | LockToClose | CloseOne(name: Name) | FinishClosing
    // CompileAndRun in goroutine t
    | Load(t: nat, name: Name, hash: nat) | CompileOk(t: nat) | CompileFails(t: nat)
    | LockToSwap(t: nat) | CloseOld(t: nat) | Swap(t: nat)
    // UnloadProgram
    | Unload(name: Name)

  function PhaseOf(s: System, t: nat): Phase { if t in s.phases then s.phases[t] else Idle }

  function WithPhase(s: System, t: nat, p: Phase): System { s.(phases := s.phases[t := p]) }

  function Closed(s: System, c: nat): System
    requires c < |s.channels|
  {
    if s.channels[c].open then s.(channels := s.channels[c := s.channels[c].(open := false)])
    else s.(fault := true)
  }

  function Sent(s: System, c: nat, line: Line): System
    requires c < |s.channels|
  {
    if s.channels[c].open then s.(channels := s.channels[c := s.channels[c].(got := s.channels[c].got + [line])])
    else s.(fault := true)
  }

  /** The channel the map gives for a name; a name without one cannot be used. */
  predicate Has(s: System, name: Name) { name in s.handles && s.handles[name].channel < |s.channels| }

  /** One step; an action that is not enabled does nothing. */
  function Act(s: System, a: Action): System {
    match a
    case TakeLine(line) => if s.dispatch.Waiting? then s.(dispatch := Holding(line)) else s
    case StartSending =>
      if s.dispatch.Holding? && s.lock.Free?
      then s.(lock := Shared, dispatch := Sending(s.dispatch.line, s.handles.Keys)) else s
    case Send(name) =>
      if s.dispatch.Sending? && name in s.dispatch.todo && Has(s, name)
      then Sent(s, s.handles[name].channel, s.dispatch.line).(dispatch := Sending(s.dispatch.line, s.dispatch.todo - {name}))
      else s
    case FinishLine =>
      if s.dispatch.Sending? && s.dispatch.todo == {}
      then s.(lock := Free, dispatch := Waiting, done := s.done + [s.dispatch.line]) else s
    case NoMoreLines => if s.dispatch.Waiting? then s.(dispatch := EndOfInput) else s
    case LockToClose =>
      if s.dispatch.EndOfInput? && s.lock.Free?
      then s.(lock := Exclusive(Dispatcher), dispatch := Closing) else s
    case CloseOne(name) =>
      if s.dispatch.Closing? && Has(s, name)
      then Closed(s, s.handles[name].channel).(handles := s.handles - {name}) else s
    case FinishClosing =>
      if s.dispatch.Closing? && s.handles.Keys == {} then s.(lock := Free, dispatch := Ended) else s
    case Load(t, name, hash) =>
      if PhaseOf(s, t).Idle? && !s.lock.Exclusive? && !(name in s.handles && s.handles[name].hash == hash)
      then WithPhase(s, t, Compiling(name, hash)) else s
    case CompileOk(t) =>
      if PhaseOf(s, t).Compiling? then WithPhase(s, t, Compiled(PhaseOf(s, t).name, PhaseOf(s, t).hash)) else s
    case CompileFails(t) => if PhaseOf(s, t).Compiling? then WithPhase(s, t, Idle) else s
    case LockToSwap(t) =>
      if PhaseOf(s, t).Compiled? && s.lock.Free?
      then WithPhase(s, t, Locked(PhaseOf(s, t).name, PhaseOf(s, t).hash)).(lock := Exclusive(Thread(t))) else s
    case CloseOld(t) =>
      if PhaseOf(s, t).Locked?
      then
        var p := PhaseOf(s, t);
        WithPhase(if Has(s, p.name) then Closed(s, s.handles[p.name].channel) else s, t, ClosedOld(p.name, p.hash))
      else s
    case Swap(t) => if PhaseOf(s, t).ClosedOld? then Swapped(s, t) else s
    case Unload(name) =>
      if s.lock.Free? && name in s.handles
      then s.(handles := s.handles - {name}, orphans := s.orphans + {s.handles[name].channel},
              served := s.served - {name}, since := s.since - {name})
      else s
  }

  /** The new machine takes the name over; a name not served before starts at the next line. */
  function Swapped(s: System, t: nat): System
    requires PhaseOf(s, t).ClosedOld?
  {
    var p := PhaseOf(s, t);
    var c := |s.channels|;
    var before := p.name in s.served && p.name in s.since;
    WithPhase(s, t, Idle).(
      lock := Free,
      channels := s.channels + [Channel(p.name, true, [])],
      handles := s.handles[p.name := Handle(c, p.hash)],
      served := s.served[p.name := if before then s.served[p.name] + [c] else [c]],
      since := if before then s.since else s.since[p.name := |s.done|])
  }

  function Run(s: System, actions: seq<Action>): System
    decreases |actions|
  {
    if actions == [] then s else Run(Act(s, actions[0]), actions[1..])
  }

  const START: System := System([], map[], Free, Waiting, map[], false, [], map[], map[], {})

  // ---- invariants ----

  /** The lock is held by whoever is inside a critical section, and by nobody else. */
  ghost predicate LockHeld(s: System) {
    && (s.lock.Shared? <==> s.dispatch.Sending?)
    && (s.lock == Exclusive(Dispatcher) <==> s.dispatch.Closing?)
    && (forall t :: (PhaseOf(s, t).Locked? || PhaseOf(s, t).ClosedOld?) <==> s.lock == Exclusive(Thread(t)))
  }

  /** The old channel of this name is closed and its successor not yet in place. */
  predicate Swapping(s: System, name: Name) {
    s.lock.Exclusive? && s.lock.owner.Thread? &&
    var p := PhaseOf(s, s.lock.owner.t); p.ClosedOld? && p.name == name
  }

  /** A handle's channel is its own, and open except in the middle of a swap. */
  ghost predicate HandlesOpen(s: System) {
    forall name :: name in s.handles ==>
      var c := s.handles[name].channel;
      c < |s.channels| && s.channels[c].program == name && c !in s.orphans && (s.channels[c].open <==> !Swapping(s, name))
  }

  ghost predicate NoFault(s: System) {
    && !s.fault
    && LockHeld(s)
    && HandlesOpen(s)
    && (s.dispatch.Sending? ==> s.dispatch.todo <= s.handles.Keys)
  }

  /** Everything received by the channels that served a name in turn. */
  function Delivered(channels: seq<Channel>, ids: seq<nat>): seq<Line> {
    if ids == [] then []
    else
      var c := ids[|ids| - 1];
      Delivered(channels, ids[..|ids| - 1]) + if c < |channels| then channels[c].got else []
  }

  /** What a name should have received since it was first served. */
  function Due(s: System, name: Name): seq<Line>
    requires name in s.since && s.since[name] <= |s.done|
  {
    s.done[s.since[name]..] + if s.dispatch.Sending? && name !in s.dispatch.todo then [s.dispatch.line] else []
  }

  ghost predicate ServedBy(s: System, name: Name)
    requires name in s.served
  {
    && name in s.since && s.since[name] <= |s.done| && s.served[name] != []
    && (forall i :: 0 <= i < |s.served[name]| ==> s.served[name][i] < |s.channels| && s.channels[s.served[name][i]].program == name)
    && (forall i :: 0 <= i < |s.served[name]| - 1 ==> s.served[name][i] < s.served[name][|s.served[name]| - 1])
    && (name in s.handles ==> s.served[name][|s.served[name]| - 1] == s.handles[name].channel)
    && Delivered(s.channels, s.served[name]) == Due(s, name)
  }

  ghost predicate Conserved(s: System) {
    && s.served.Keys == s.since.Keys
    && (s.handles.Keys <= s.served.Keys)
    && (!s.dispatch.Closing? && !s.dispatch.Ended? ==> s.served.Keys == s.handles.Keys)
    && forall name :: name in s.served ==> ServedBy(s, name)
  }

  // ---- what a load does ----

  function TakeOver(t: nat, name: Name, hash: nat): seq<Action> {
    [Load(t, name, hash), CompileOk(t), LockToSwap(t), CloseOld(t), Swap(t)]
  }

  /** A load of the text already running is nothing at all. */
  lemma SameTextIgnored(s: System, t: nat, name: Name)
    requires name in s.handles
    ensures Act(s, Load(t, name, s.handles[name].hash)) == s
  {
  }

  /**
   A load of a new text that compiles ends with the name served by that text
   through a new, open channel, its old channel closed, and every other name
   and channel as before.
   */
  lemma LoadTakesOver(s: System, t: nat, name: Name, hash: nat)
    requires NoFault(s) && PhaseOf(s, t).Idle? && s.lock.Free?
    requires name in s.handles ==> s.handles[name].hash != hash
    ensures var r, c := Run(s, TakeOver(t, name, hash)), |s.channels|;
            && r.handles == s.handles[name := Handle(c, hash)]
            && |r.channels| == c + 1 && r.channels[c] == Channel(name, true, [])
            && (forall i :: 0 <= i < c ==>
                  r.channels[i] == if name in s.handles && i == s.handles[name].channel
                                   then s.channels[i].(open := false) else s.channels[i])
            && !r.fault && r.lock.Free? && PhaseOf(r, t).Idle? && r.dispatch == s.dispatch && r.done == s.done
  {
    hide Run, Act, NoFault;
    RunFive(s, Load(t, name, hash), CompileOk(t), LockToSwap(t), CloseOld(t), Swap(t));
    var s3 := Act(Act(Act(s, Load(t, name, hash)), CompileOk(t)), LockToSwap(t));
    LoadLocks(s, t, name, hash);
    Exchanges(s3, t, name, hash);
  }

  /** Up to the lock a load changes nothing but its own phase. */
  lemma LoadLocks(s: System, t: nat, name: Name, hash: nat)
    requires NoFault(s) && PhaseOf(s, t).Idle? && s.lock.Free?
    requires name in s.handles ==> s.handles[name].hash != hash
    ensures var s3 := Act(Act(Act(s, Load(t, name, hash)), CompileOk(t)), LockToSwap(t));
            && s3 == s.(phases := s3.phases, lock := Exclusive(Thread(t))) && PhaseOf(s3, t) == Locked(name, hash)
    ensures name in s.handles ==> Has(s, name) && s.channels[s.handles[name].channel].open
    ensures !s.fault
  {
    var s1 := Act(s, Load(t, name, hash));
    assert s1 == s.(phases := s1.phases) && PhaseOf(s1, t) == Compiling(name, hash);
    var s2 := Act(s1, CompileOk(t));
    assert s2 == s.(phases := s2.phases) && PhaseOf(s2, t) == Compiled(name, hash);
    assert !Swapping(s, name);
  }

  /** Under the lock the old channel is closed and the new one put in its place. */
  lemma Exchanges(s: System, t: nat, name: Name, hash: nat)
    requires PhaseOf(s, t) == Locked(name, hash) && !s.fault
    requires name in s.handles ==> Has(s, name) && s.channels[s.handles[name].channel].open
    ensures var r, c := Act(Act(s, CloseOld(t)), Swap(t)), |s.channels|;
            && r.handles == s.handles[name := Handle(c, hash)]
            && |r.channels| == c + 1 && r.channels[c] == Channel(name, true, [])
            && (forall i :: 0 <= i < c ==>
                  r.channels[i] == if name in s.handles && i == s.handles[name].channel
                                   then s.channels[i].(open := false) else s.channels[i])
            && !r.fault && r.lock.Free? && PhaseOf(r, t).Idle? && r.dispatch == s.dispatch && r.done == s.done
  {
    var s4 := Act(s, CloseOld(t));
    assert PhaseOf(s4, t) == ClosedOld(name, hash) && !s4.fault && s4.handles == s.handles && |s4.channels| == |s.channels|;
  }

  lemma RunFive(s: System, a: Action, b: Action, c: Action, d: Action, e: Action)
    ensures Run(s, [a, b, c, d, e]) == Act(Act(Act(Act(Act(s, a), b), c), d), e)
  {
    hide Act;
    assert [a, b, c, d, e][1..] == [b, c, d, e] && [b, c, d, e][1..] == [c, d, e];
    assert [c, d, e][1..] == [d, e] && [d, e][1..] == [e] && [e][1..] == [];
    var s1 := Act(s, a);
    var s2 := Act(s1, b);
    var s3 := Act(s2, c);
    assert Run(s, [a, b, c, d, e]) == Run(s1, [b, c, d, e]);
    assert Run(s1, [b, c, d, e]) == Run(s2, [c, d, e]);
    assert Run(s2, [c, d, e]) == Run(s3, [d, e]);
    assert Run(s3, [d, e]) == Run(Act(s3, d), [e]);
  }

  // ---- no panic ----

  lemma DispatchNoFault(s: System, a: Action)
    requires NoFault(s)
    requires a.TakeLine? || a.StartSending? || a.FinishLine? || a.NoMoreLines? || a.LockToClose? || a.FinishClosing?
    ensures NoFault(Act(s, a))
  {
    var s' := Act(s, a);
    assert forall t :: PhaseOf(s', t) == PhaseOf(s, t);
    assert forall name :: Swapping(s', name) <==> Swapping(s, name);
  }

  lemma SendNoFault(s: System, name: Name)
    requires NoFault(s)
    ensures NoFault(Act(s, Send(name)))
  {
    var s' := Act(s, Send(name));
    assert forall t :: PhaseOf(s', t) == PhaseOf(s, t);
    assert forall n :: Swapping(s', n) <==> Swapping(s, n);
  }

  lemma CloseOneNoFault(s: System, name: Name)
    requires NoFault(s)
    ensures NoFault(Act(s, CloseOne(name)))
  {
    var s' := Act(s, CloseOne(name));
    assert forall t :: PhaseOf(s', t) == PhaseOf(s, t);
    assert forall n :: Swapping(s', n) <==> Swapping(s, n);
  }

  lemma CompileNoFault(s: System, a: Action)
    requires NoFault(s) && (a.Load? || a.CompileOk? || a.CompileFails?)
    ensures NoFault(Act(s, a))
  {
    var s' := Act(s, a);
    assert s'.handles == s.handles && s'.channels == s.channels && s'.lock == s.lock && s'.dispatch == s.dispatch;
    assert forall t :: t != a.t ==> PhaseOf(s', t) == PhaseOf(s, t);
    assert forall n :: Swapping(s', n) <==> Swapping(s, n);
  }

  lemma LockToSwapNoFault(s: System, t: nat)
    requires NoFault(s)
    ensures NoFault(Act(s, LockToSwap(t)))
  {
    var s' := Act(s, LockToSwap(t));
    assert s'.handles == s.handles && s'.channels == s.channels && s'.dispatch == s.dispatch;
    assert forall u :: u != t ==> PhaseOf(s', u) == PhaseOf(s, u);
    assert forall n :: Swapping(s', n) <==> Swapping(s, n);
  }

  lemma CloseOldNoFault(s: System, t: nat)
    requires NoFault(s)
    ensures NoFault(Act(s, CloseOld(t)))
  {
    var s' := Act(s, CloseOld(t));
    assert forall u :: u != t ==> PhaseOf(s', u) == PhaseOf(s, u);
    if PhaseOf(s, t).Locked? {
      assert s.lock == Exclusive(Thread(t));
      assert PhaseOf(s', t) == ClosedOld(PhaseOf(s, t).name, PhaseOf(s, t).hash);
      assert forall n :: Swapping(s', n) <==> n == PhaseOf(s, t).name;
      assert forall n :: !Swapping(s, n);
    }
  }

  lemma SwapNoFault(s: System, t: nat)
    requires NoFault(s) && Orphaned(s)
    ensures NoFault(Act(s, Swap(t)))
  {
    var s' := Act(s, Swap(t));
    assert forall u :: u != t ==> PhaseOf(s', u) == PhaseOf(s, u);
    if PhaseOf(s, t).ClosedOld? {
      assert s.lock == Exclusive(Thread(t));
      assert PhaseOf(s', t) == Idle;
      assert forall n :: !Swapping(s', n);
      assert forall n :: Swapping(s, n) <==> n == PhaseOf(s, t).name;
    }
  }

  lemma UnloadNoFault(s: System, name: Name)
    requires NoFault(s)
    ensures NoFault(Act(s, Unload(name)))
  {
    var s' := Act(s, Unload(name));
    assert forall t :: PhaseOf(s', t) == PhaseOf(s, t);
    assert forall n :: Swapping(s', n) <==> Swapping(s, n);
  }

  /** Channels left behind by an unload stay open. */
  ghost predicate Orphaned(s: System) { forall c :: c in s.orphans ==> c < |s.channels| && s.channels[c].open }

  lemma ActOrphaned(s: System, a: Action)
    requires NoFault(s) && Orphaned(s)
    ensures Orphaned(Act(s, a))
  {
    hide LockHeld;
  }

  lemma ActNoFault(s: System, a: Action)
    requires NoFault(s) && Orphaned(s)
    ensures NoFault(Act(s, a)) && Orphaned(Act(s, a))
  {
    ActOrphaned(s, a);
    hide NoFault;
    hide Orphaned;
    hide Act;
    match a {
      case Send(name) => SendNoFault(s, name);
      case CloseOne(name) => CloseOneNoFault(s, name);
      case CloseOld(t) => CloseOldNoFault(s, t);
      case Swap(t) => SwapNoFault(s, t);
      case Unload(name) => UnloadNoFault(s, name);
      case Load(_, _, _) => CompileNoFault(s, a);
      case CompileOk(_) => CompileNoFault(s, a);
      case CompileFails(_) => CompileNoFault(s, a);
      case LockToSwap(t) => LockToSwapNoFault(s, t);
      case _ => DispatchNoFault(s, a);
    }
  }

  /** In every interleaving no channel is used after it was closed, and none is closed twice. */
  lemma {:induction false} RunNoFault(s: System, actions: seq<Action>)
    requires NoFault(s) && Orphaned(s)
    ensures NoFault(Run(s, actions)) && Orphaned(Run(s, actions))
    decreases |actions|
  {
    if actions != [] {
      ActNoFault(s, actions[0]);
      RunNoFault(Act(s, actions[0]), actions[1..]);
    }
  }

  // ---- no line lost, doubled or reordered ----

  lemma {:induction false} DeliveredSame(a: seq<Channel>, b: seq<Channel>, ids: seq<nat>)
    requires forall i :: 0 <= i < |ids| ==> ids[i] < |a| && ids[i] < |b| && a[ids[i]].got == b[ids[i]].got
    ensures Delivered(a, ids) == Delivered(b, ids)
    decreases |ids|
  {
    if ids != [] {
      DeliveredSame(a, b, ids[..|ids| - 1]);
    }
  }

  /** Only `got` and the state of the dispatcher matter to what a name is due. */
  lemma ServedSame(s: System, s': System, name: Name)
    requires name in s.served && ServedBy(s, name)
    requires name in s'.served && s'.served[name] == s.served[name] && s'.since == s.since
    requires |s.channels| <= |s'.channels|
    requires forall i :: 0 <= i < |s.served[name]| ==>
               var c := s.served[name][i];
               c < |s.channels| && s'.channels[c].program == s.channels[c].program && s'.channels[c].got == s.channels[c].got
    requires s.since[name] <= |s'.done| && Due(s', name) == Due(s, name)
    requires name in s'.handles ==> name in s.handles && s'.handles[name].channel == s.handles[name].channel
    ensures ServedBy(s', name)
  {
    DeliveredSame(s.channels, s'.channels, s.served[name]);
  }

  lemma StartConserved(s: System)
    requires NoFault(s) && Conserved(s)
    ensures Conserved(Act(s, StartSending))
  {
    var s' := Act(s, StartSending);
    hide ServedBy;
    if s != s' {
      forall name | name in s'.served
        ensures ServedBy(s', name)
      {
        assert ServedBy(s, name);
        DueBounds(s, name);
        ServedSame(s, s', name);
      }
    }
  }

  lemma DueBounds(s: System, name: Name)
    requires name in s.served && ServedBy(s, name)
    ensures name in s.since && s.since[name] <= |s.done|
    ensures forall i :: 0 <= i < |s.served[name]| ==> s.served[name][i] < |s.channels|
    ensures forall i :: 0 <= i < |s.served[name]| ==> s.channels[s.served[name][i]].program == name
  {
  }

  lemma FinishConserved(s: System)
    requires NoFault(s) && Conserved(s)
    ensures Conserved(Act(s, FinishLine))
  {
    var s' := Act(s, FinishLine);
    hide ServedBy;
    if s.dispatch.Sending? && s.dispatch.todo == {} {
      forall name | name in s'.served
        ensures ServedBy(s', name)
      {
        assert ServedBy(s, name);
        DueBounds(s, name);
        assert Due(s', name) == Due(s, name) by {
          assert (s.done + [s.dispatch.line])[s.since[name]..] == s.done[s.since[name]..] + [s.dispatch.line];
          assert Due(s', name) == s'.done[s.since[name]..] + [];
        }
        ServedSame(s, s', name);
      }
    }
  }

  lemma SendConserved(s: System, name: Name)
    requires NoFault(s) && Conserved(s)
    ensures Conserved(Act(s, Send(name)))
  {
    var s' := Act(s, Send(name));
    hide NoFault;
    hide ServedBy;
    if s.dispatch.Sending? && name in s.dispatch.todo && Has(s, name) {
      SendSound(s, name);
      forall n | n in s'.served
        ensures ServedBy(s', n)
      {
        assert ServedBy(s, n);
        DueBounds(s, n);
        if n == name {
          SendServes(s, name);
        } else {
          ServedSame(s, s', n);
        }
      }
    }
  }

  lemma SendSound(s: System, name: Name)
    requires NoFault(s) && s.dispatch.Sending? && name in s.dispatch.todo && Has(s, name)
    ensures var c := s.handles[name].channel;
            s.channels[c].open && s.channels[c].program == name
            && Act(s, Send(name)).channels == s.channels[c := s.channels[c].(got := s.channels[c].got + [s.dispatch.line])]
  {
  }

  lemma SendServes(s: System, name: Name)
    requires s.dispatch.Sending? && name in s.dispatch.todo && Has(s, name) && name in s.served && ServedBy(s, name)
    requires s.channels[s.handles[name].channel].open
    ensures name in Act(s, Send(name)).served && ServedBy(Act(s, Send(name)), name)
  {
    var s' := Act(s, Send(name));
    var ids := s.served[name];
    var front := ids[..|ids| - 1];
    DeliveredSame(s.channels, s'.channels, front);
    assert Delivered(s'.channels, ids) == Delivered(s.channels, ids) + [s.dispatch.line] by {
      assert Delivered(s.channels, front) + s.channels[ids[|ids| - 1]].got + [s.dispatch.line]
          == Delivered(s.channels, front) + (s.channels[ids[|ids| - 1]].got + [s.dispatch.line]);
    }
    assert s.done[s.since[name]..] + [] == s.done[s.since[name]..];
    assert Due(s', name) == Due(s, name) + [s.dispatch.line];
  }

  lemma SwapConserved(s: System, t: nat)
    requires NoFault(s) && Conserved(s)
    ensures Conserved(Act(s, Swap(t)))
  {
    var s' := Act(s, Swap(t));
    hide HandlesOpen;
    hide ServedBy;
    if PhaseOf(s, t).ClosedOld? {
      assert s.lock == Exclusive(Thread(t)) && !s.dispatch.Sending?;
      var name := PhaseOf(s, t).name;
      forall n | n in s'.served
        ensures ServedBy(s', n)
      {
        if n != name {
          assert ServedBy(s, n);
          DueBounds(s, n);
          ServedSame(s, s'.(since := s.since), n);
          SameServed(s'.(since := s.since), s', n);
        } else {
          if name in s.served {
            assert ServedBy(s, name);
          }
          SwapServes(s, t);
        }
      }
    }
  }

  lemma SameServed(s: System, s': System, n: Name)
    requires n in s.served && ServedBy(s, n) && s' == s.(since := s'.since) && n in s'.since && s'.since[n] == s.since[n]
    ensures ServedBy(s', n)
  {
  }

  lemma SwapServes(s: System, t: nat)
    requires PhaseOf(s, t).ClosedOld? && !s.dispatch.Sending? && s.served.Keys == s.since.Keys
    requires PhaseOf(s, t).name in s.served ==> ServedBy(s, PhaseOf(s, t).name)
    ensures ServedBy(Swapped(s, t), PhaseOf(s, t).name)
  {
    var s' := Swapped(s, t);
    var name, c := PhaseOf(s, t).name, |s.channels|;
    var ids := s'.served[name];
    assert s'.channels[c].got == [];
    if name in s.served {
      assert ids[..|ids| - 1] == s.served[name];
      DeliveredSame(s.channels, s'.channels, s.served[name]);
      assert Delivered(s'.channels, ids) == Delivered(s.channels, s.served[name]) + [];
      assert Due(s', name) == Due(s, name);
    } else {
      assert ids == [c] && ids[..0] == [];
      assert Delivered(s'.channels, []) == [];
      assert Delivered(s'.channels, ids) == [] + [];
      assert Due(s', name) == [];
    }
  }

  /** A step that changes no line received and nothing a name is due. */
  ghost predicate Quiet(s: System, s': System) {
    && |s'.channels| == |s.channels| && s'.done == s.done
    && (forall c :: 0 <= c < |s.channels| ==>
          && s'.channels[c].program == s.channels[c].program && s'.channels[c].got == s.channels[c].got
          && (s'.channels[c].open ==> s.channels[c].open))
    && (s.dispatch.Sending? || s'.dispatch.Sending? ==> s'.dispatch == s.dispatch)
    && (forall n :: n in s'.handles ==> n in s.handles && s'.handles[n] == s.handles[n])
  }

  /** Steps that keep the books as they are. */
  ghost predicate Bookless(s: System, s': System) {
    s'.served == s.served && s'.since == s.since && s'.orphans == s.orphans
  }

  lemma SameQuiet(s: System, s': System)
    requires s'.channels == s.channels && s'.done == s.done && s'.handles == s.handles
    requires s.dispatch.Sending? || s'.dispatch.Sending? ==> s'.dispatch == s.dispatch
    ensures Quiet(s, s')
  {
  }

  lemma DispatchQuiet(s: System, a: Action)
    requires a.TakeLine? || a.NoMoreLines? || a.LockToClose? || a.FinishClosing?
    ensures Quiet(s, Act(s, a)) && Bookless(s, Act(s, a)) && Act(s, a).handles == s.handles
    ensures s.dispatch.Closing? || s.dispatch.Ended? ==> Act(s, a).dispatch.Closing? || Act(s, a).dispatch.Ended?
  {
    hide Quiet;
    SameQuiet(s, Act(s, a));
  }

  lemma CompileQuiet(s: System, a: Action)
    requires a.Load? || a.CompileOk? || a.CompileFails? || a.LockToSwap?
    ensures Quiet(s, Act(s, a)) && Bookless(s, Act(s, a)) && Act(s, a).handles == s.handles
    ensures Act(s, a).dispatch == s.dispatch
  {
    hide Quiet;
    SameQuiet(s, Act(s, a));
  }

  lemma StepQuiet(s: System, a: Action)
    requires a.TakeLine? || a.NoMoreLines? || a.LockToClose? || a.FinishClosing?
             || a.Load? || a.CompileOk? || a.CompileFails? || a.LockToSwap?
    ensures Quiet(s, Act(s, a)) && Bookless(s, Act(s, a)) && Act(s, a).handles == s.handles
    ensures s.dispatch.Closing? || s.dispatch.Ended? ==> Act(s, a).dispatch.Closing? || Act(s, a).dispatch.Ended?
  {
    hide Act;
    hide Quiet;
    if a.TakeLine? || a.NoMoreLines? || a.LockToClose? || a.FinishClosing? {
      DispatchQuiet(s, a);
    } else {
      CompileQuiet(s, a);
    }
  }

  lemma CloseOldQuiet(s: System, t: nat)
    ensures Quiet(s, Act(s, CloseOld(t))) && Bookless(s, Act(s, CloseOld(t)))
    ensures Act(s, CloseOld(t)).handles == s.handles && Act(s, CloseOld(t)).dispatch == s.dispatch
  {
  }

  lemma CloseOneQuiet(s: System, name: Name)
    ensures Quiet(s, Act(s, CloseOne(name))) && Bookless(s, Act(s, CloseOne(name)))
    ensures Act(s, CloseOne(name)).dispatch == s.dispatch
    ensures Act(s, CloseOne(name)) != s ==> s.dispatch.Closing?
  {
  }

  lemma UnloadQuiet(s: System, name: Name)
    ensures var s' := Act(s, Unload(name));
            Quiet(s, s') && s'.dispatch == s.dispatch && s'.channels == s.channels
            && s.orphans <= s'.orphans
            && (s' != s ==> s.lock.Free? && s'.served == s.served - {name} && s'.since == s.since - {name}
                            && s'.handles == s.handles - {name})
  {
  }

  lemma QuietServes(s: System, s': System, n: Name)
    requires n in s.served && ServedBy(s, n) && Quiet(s, s')
    requires n in s'.served && s'.served[n] == s.served[n] && n in s'.since && s'.since[n] == s.since[n]
    ensures ServedBy(s', n)
  {
    DeliveredSame(s.channels, s'.channels, s.served[n]);
  }

  lemma UnloadConserved(s: System, name: Name)
    requires NoFault(s) && Conserved(s)
    ensures Conserved(Act(s, Unload(name)))
  {
    var s' := Act(s, Unload(name));
    UnloadQuiet(s, name);
    assert s' != s ==> !s.dispatch.Closing?;
    hide NoFault;
    hide Act;
    hide ServedBy;
    hide Quiet;
    if s' != s {
      forall n | n in s'.served
        ensures ServedBy(s', n)
      {
        assert ServedBy(s, n);
        DueBounds(s, n);
        QuietServes(s, s', n);
      }
    }
  }

  lemma QuietConserved(s: System, a: Action)
    requires NoFault(s) && Conserved(s)
    requires !a.StartSending? && !a.FinishLine? && !a.Send? && !a.Swap? && !a.Unload?
    ensures Conserved(Act(s, a))
  {
    var s' := Act(s, a);
    hide NoFault;
    hide Act;
    hide ServedBy;
    match a {
      case CloseOld(t) => CloseOldQuiet(s, t);
      case CloseOne(name) => CloseOneQuiet(s, name);
      case _ => StepQuiet(s, a);
    }
    assert s'.handles.Keys <= s.handles.Keys;
    forall n | n in s'.served
      ensures ServedBy(s', n)
    {
      assert ServedBy(s, n);
      DueBounds(s, n);
      QuietServes(s, s', n);
    }
  }

  /**
   In every interleaving of dispatch, loads that succeed or fail, unloads and
   shutdown: the machines that served a name in turn have together received
   exactly the lines dispatched since the name was loaded, in order.
   */
  lemma {:induction false} RunConserved(s: System, actions: seq<Action>)
    requires NoFault(s) && Orphaned(s) && Conserved(s)
    ensures Conserved(Run(s, actions))
    decreases |actions|
  {
    hide NoFault;
    hide Conserved;
    hide Orphaned;
    hide Act;
    if actions != [] {
      var a := actions[0];
      ActNoFault(s, a);
      match a {
        case StartSending => StartConserved(s);
        case FinishLine => FinishConserved(s);
        case Send(name) => SendConserved(s, name);
        case Swap(t) => SwapConserved(s, t);
        case Unload(name) => UnloadConserved(s, name);
        case _ => QuietConserved(s, a);
      }
      RunConserved(Act(s, a), actions[1..]);
    }
  }

  lemma StartSound()
    ensures NoFault(START) && Orphaned(START) && Conserved(START) && Owned(START)
  {
  }

  /** From start-up, whatever happens: no panic, and every served name has exactly what it is due. */
  lemma LoaderSafe(actions: seq<Action>)
    ensures var s := Run(START, actions);
            && !s.fault
            && forall name :: name in s.served ==>
                 && name in s.since && s.since[name] <= |s.done|
                 && Delivered(s.channels, s.served[name]) == Due(s, name)
  {
    StartSound();
    RunNoFault(START, actions);
    RunConserved(START, actions);
    var s := Run(START, actions);
    forall name | name in s.served
      ensures name in s.since && s.since[name] <= |s.done|
      ensures Delivered(s.channels, s.served[name]) == Due(s, name)
    {
      assert ServedBy(s, name);
    }
  }

  // ---- shutdown ----

  /** Every open channel belongs to a handle or was left behind by an unload. */
  ghost predicate Owned(s: System) {
    forall c :: 0 <= c < |s.channels| && s.channels[c].open ==>
      c in s.orphans || exists name :: name in s.handles && s.handles[name].channel == c
  }

  lemma QuietOwned(s: System, a: Action)
    requires NoFault(s) && Owned(s)
    requires !a.Swap? && !a.Unload? && !a.CloseOne?
    ensures Owned(Act(s, a)) && Act(s, a).orphans == s.orphans
  {
    if a.Send? {
      SendOwned(s, a.name);
    } else if a.StartSending? || a.FinishLine? {
      DispatchOwned(s, a);
    } else {
      hide NoFault;
      hide Act;
      if a.CloseOld? {
        CloseOldQuiet(s, a.t);
      } else {
        StepQuiet(s, a);
      }
      OwnedSame(s, Act(s, a));
    }
  }

  lemma OwnedSame(s: System, s': System)
    requires Owned(s) && s'.handles == s.handles && s'.orphans == s.orphans && |s'.channels| == |s.channels|
    requires forall c :: 0 <= c < |s.channels| && s'.channels[c].open ==> s.channels[c].open
    ensures Owned(s')
  {
  }

  lemma SendOwned(s: System, name: Name)
    requires Owned(s)
    ensures Owned(Act(s, Send(name))) && Act(s, Send(name)).orphans == s.orphans
  {
    OwnedSame(s, Act(s, Send(name)));
  }

  lemma DispatchOwned(s: System, a: Action)
    requires Owned(s) && (a.StartSending? || a.FinishLine?)
    ensures Owned(Act(s, a)) && Act(s, a).orphans == s.orphans
  {
    OwnedSame(s, Act(s, a));
  }

  lemma CloseOneOwned(s: System, name: Name)
    requires NoFault(s) && Owned(s)
    ensures Owned(Act(s, CloseOne(name)))
  {
    var s' := Act(s, CloseOne(name));
    if s' != s {
      forall c | 0 <= c < |s'.channels| && s'.channels[c].open && c !in s'.orphans
        ensures exists n :: n in s'.handles && s'.handles[n].channel == c
      {
        var n :| n in s.handles && s.handles[n].channel == c;
        assert n in s'.handles && s'.handles[n].channel == c;
      }
    }
  }

  lemma UnloadOwned(s: System, name: Name)
    requires NoFault(s) && Owned(s)
    ensures Owned(Act(s, Unload(name))) && s.orphans <= Act(s, Unload(name)).orphans
  {
    var s' := Act(s, Unload(name));
    if s' != s {
      forall c | 0 <= c < |s'.channels| && s'.channels[c].open && c !in s'.orphans
        ensures exists n :: n in s'.handles && s'.handles[n].channel == c
      {
        var n :| n in s.handles && s.handles[n].channel == c;
        assert n in s'.handles && s'.handles[n].channel == c;
      }
    }
  }

  lemma SwapOwned(s: System, t: nat)
    requires NoFault(s) && Owned(s)
    ensures Owned(Act(s, Swap(t)))
  {
    var s' := Act(s, Swap(t));
    if PhaseOf(s, t).ClosedOld? {
      var name := PhaseOf(s, t).name;
      assert s.lock == Exclusive(Thread(t));
      assert Swapping(s, name);
      forall c | 0 <= c < |s'.channels| && s'.channels[c].open && c !in s'.orphans
        ensures exists n :: n in s'.handles && s'.handles[n].channel == c
      {
        if c == |s.channels| {
          assert s'.handles[name].channel == c;
        } else {
          var n :| n in s.handles && s.handles[n].channel == c;
          assert n in s'.handles && s'.handles[n].channel == c;
        }
      }
    }
  }

  lemma ActOwned(s: System, a: Action)
    requires NoFault(s) && Owned(s)
    ensures Owned(Act(s, a)) && s.orphans <= Act(s, a).orphans
  {
    hide NoFault;
    hide Owned;
    match a {
      case Swap(t) => SwapOwned(s, t);
      case Unload(name) => UnloadOwned(s, name);
      case CloseOne(name) => CloseOneOwned(s, name);
      case _ => QuietOwned(s, a);
    }
  }

  /**
   After shutdown, and with nothing loaded since, exactly the channels of
   unloaded programs are still open: their machines wait for ever, all others end.
   */
  lemma {:induction false} ShutdownCloses(s: System, actions: seq<Action>)
    requires NoFault(s) && Orphaned(s) && Owned(s)
    ensures var e := Run(s, actions);
            && s.orphans <= e.orphans
            && (e.dispatch.Ended? && e.handles.Keys == {} ==>
                  forall c :: 0 <= c < |e.channels| ==> (e.channels[c].open <==> c in e.orphans))
    decreases |actions|
  {
    if actions != [] {
      ActNoFault(s, actions[0]);
      ActOwned(s, actions[0]);
      ShutdownCloses(Act(s, actions[0]), actions[1..]);
    }
  }

  /** No goroutine is on its way to swap in a new machine for this name. */
  ghost predicate NotLoading(s: System, name: Name) {
    forall t :: PhaseOf(s, t).Idle? || PhaseOf(s, t).name != name
  }

  lemma LateStep(s: System, a: Action, c: nat)
    requires NoFault(s) && s.dispatch.Ended? && c < |s.channels| && s.channels[c].open
    requires NotLoading(s, s.channels[c].program) && !(a.Load? && a.name == s.channels[c].program)
    ensures var s' := Act(s, a);
            && s'.dispatch.Ended? && c < |s'.channels| && s'.channels[c].open
            && s'.channels[c].program == s.channels[c].program && NotLoading(s', s.channels[c].program)
  {
    hide LockHeld;
    var s' := Act(s, a);
    forall t
      ensures PhaseOf(s', t).Idle? || PhaseOf(s', t).name != s.channels[c].program
    {
      assert PhaseOf(s, t).Idle? || PhaseOf(s, t).name != s.channels[c].program;
    }
  }

  /** Once the dispatcher has ended a channel stays open unless its own name is loaded again. */
  lemma {:induction false} LateLoadStays(s: System, actions: seq<Action>, c: nat)
    requires NoFault(s) && Orphaned(s) && s.dispatch.Ended? && c < |s.channels| && s.channels[c].open
    requires NotLoading(s, s.channels[c].program)
    requires forall i :: 0 <= i < |actions| && actions[i].Load? ==> actions[i].name != s.channels[c].program
    ensures c < |Run(s, actions).channels| && Run(s, actions).channels[c].open
    decreases |actions|
  {
    if actions != [] {
      ActNoFault(s, actions[0]);
      LateStep(s, actions[0], c);
      LateLoadStays(Act(s, actions[0]), actions[1..], c);
    }
  }
}

/**
 The stream of one log file (`internal/tailer/logstream/filestream.go`): its
 read loop as a state machine, in every interleaving with a file that grows,
 shrinks, is rotated or deleted, and with stop and cancel signals.
 */
module FileStream {
  import opened Common
  import opened Utf8
  import opened LineDecoder

  // ---- the reading side ----

  datatype Err = NoError | Eof | Failed

  /** Where the loop stands: at the read, after an empty read at end of file, at the tests before sleeping, asleep, or returned. */
  datatype Pc = AtRead | AtEof | AtSeek(size: nat) | AtCheck(err: Err) | AtWait | Returned

  /** What put an end to a stretch of reading. */
  datatype How = Truncated | Rotated | Stopped | Cancelled | Deleted

  /** Everything read from one offset on, up to the next truncation, rotation or end. */
  datatype Stretch = Stretch(start: nat, pieces: seq<Bytes>, how: How)

  datatype Stream = Stream(
    pc: Pc,
    lines: seq<Bytes>,
    partial: Bytes,
    offset: nat,
    completed: bool,
    // history, which the loop does not look at
    past: seq<Stretch>,
    start: nat,
    pieces: seq<Bytes>,
    /** The file as the last read found it, if that read was at its end. */
    eofFile: Option<Bytes>)

  function Opened(offset: nat): Stream {
    Stream(AtRead, [], [], offset, false, [], offset, [], None)
  }

  /** Send the partial line if there is one. */
  function Flushed(st: Stream): Stream {
    if st.partial == [] then st else st.(lines := st.lines + [st.partial], partial := [])
  }

  /** The current stretch is over; the next starts at `offset`. */
  function Close(st: Stream, how: How, offset: nat): Stream {
    st.(past := st.past + [Stretch(st.start, st.pieces, how)], start := offset, pieces := [])
  }

  function Finished(st: Stream, how: How): Stream {
    Close(Flushed(st).(completed := true, pc := Returned), how, st.offset)
  }

  function OnRead(st: Stream, data: Bytes, err: Err): Stream {
    var fed := if data == [] then State(st.lines, st.partial) else Feed(State(st.lines, st.partial), data);
    st.(lines := fed.lines, partial := fed.partial, offset := st.offset + |data|,
        pieces := if data == [] then st.pieces else st.pieces + [data],
        eofFile := None,
        pc := if err.Eof? && data == [] then AtEof else AtCheck(err))
  }

  /** The new file's stream replaces this one; whatever was in the buffer stays behind. */
  function OnRotated(st: Stream, opens: bool): Stream {
    Close(st, Rotated, 0).(partial := [], offset := 0, eofFile := None, pc := if opens then AtRead else Returned)
  }

  /** A file shorter than the offset was truncated: flush and start over. */
  function OnSeek(st: Stream, size: nat, rewinds: bool): Stream {
    if size < st.offset then
      var next := if rewinds then 0 else st.offset;
      Close(Flushed(st), Truncated, next).(offset := next, eofFile := None, pc := AtRead)
    else st.(pc := AtCheck(Eof))
  }

  function OnCheck(st: Stream, err: Err, stopped: bool, cancelled: bool, preferStop: bool): Stream {
    if err.NoError? && !cancelled then st.(pc := AtRead)
    else if (err.Eof? || cancelled) && (stopped || cancelled) then
      Finished(st, if cancelled && !(stopped && preferStop) then Cancelled else Stopped)
    else st.(pc := AtWait)
  }

  // ---- the whole system ----

  /** What the path names now: the open file, another one, or nothing. */
  datatype Named = Same | Other(content: Bytes) | Missing

  datatype World = World(file: Bytes, named: Named, stopped: bool, cancelled: bool)

  datatype System = System(st: Stream, w: World)

  datatype Action =
    // what other processes do
    | Append(data: Bytes) | Truncate(left: Bytes) | Rotate(content: Bytes) | AppendNew(data: Bytes) | Delete
    | Stop | Cancel
    // what the loop does
    | ReadSome(n: nat) | ReadEof | ReadFail
    | Stat | StatFail | OpenFail
    | Seek | SeekFail | RewindFail
    | Check(preferStop: bool) | Wake

  /** One step; an action that is not enabled does nothing. */
  function Act(s: System, a: Action): System {
    var (st, w) := (s.st, s.w);
    match a
    case Append(data) => s.(w := w.(file := w.file + data))
    case Truncate(left) => s.(w := w.(file := left))
    case Rotate(content) => s.(w := w.(named := Other(content)))
    case AppendNew(data) => if w.named.Other? then s.(w := w.(named := Other(w.named.content + data))) else s
    case Delete => s.(w := w.(named := Missing))
    case Stop => s.(w := w.(stopped := true))
    case Cancel => s.(w := w.(cancelled := true))
    case ReadSome(n) =>
      if st.pc.AtRead? && n > 0 && st.offset + n <= |w.file|
      then s.(st := OnRead(st, w.file[st.offset..st.offset + n], NoError)) else s
    case ReadEof =>
      if st.pc.AtRead? && st.offset >= |w.file| then s.(st := OnRead(st, [], Eof).(eofFile := Some(w.file))) else s
    case ReadFail => if st.pc.AtRead? then s.(st := OnRead(st, [], Failed)) else s
    case Stat =>
      if !st.pc.AtEof? then s
      else
        (match w.named
         case Missing => s.(st := Finished(st, Deleted))
         case Other(content) => System(OnRotated(st, true), w.(file := content, named := Same))
         case Same => s.(st := st.(pc := AtSeek(|w.file|))))
    case StatFail => if st.pc.AtEof? then s.(st := st.(pc := AtCheck(Eof))) else s
    case OpenFail => if st.pc.AtEof? && w.named.Other? then s.(st := OnRotated(st, false)) else s
    case Seek => if st.pc.AtSeek? then s.(st := OnSeek(st, st.pc.size, true)) else s
    case SeekFail => if st.pc.AtSeek? then s.(st := st.(pc := AtRead)) else s
    case RewindFail => if st.pc.AtSeek? then s.(st := OnSeek(st, st.pc.size, false)) else s
    case Check(preferStop) =>
      if st.pc.AtCheck? then s.(st := OnCheck(st, st.pc.err, w.stopped, w.cancelled, preferStop)) else s
    case Wake => if st.pc.AtWait? then s.(st := st.(pc := AtRead)) else s
  }

  function Run(s: System, actions: seq<Action>): System
    decreases |actions|
  {
    if actions == [] then s else Run(Act(s, actions[0]), actions[1..])
  }

  function Start(file: Bytes, fromStart: bool): System {
    System(Opened(if fromStart then 0 else |file|), World(file, Same, false, false))
  }

  // ---- every line is accounted for ----

  const EMPTY: State := State([], [])

  /** What a stretch contributes: its lines, and its last partial one unless a rotation cut it off. */
  function LinesOf(s: Stretch): seq<Bytes> {
    var fed := FeedAll(EMPTY, s.pieces);
    if s.how.Rotated? || fed.partial == [] then fed.lines else fed.lines + [fed.partial]
  }

  function AllLines(past: seq<Stretch>): seq<Bytes> {
    if past == [] then [] else AllLines(past[..|past| - 1]) + LinesOf(past[|past| - 1])
  }

  ghost predicate Accounted(st: Stream) {
    && (!st.pc.Returned? ==>
          var fed := FeedAll(EMPTY, st.pieces);
          st.lines == AllLines(st.past) + fed.lines && st.partial == fed.partial && !st.completed)
    && (st.pc.Returned? ==>
          && st.lines == AllLines(st.past) && st.partial == [] && st.pieces == [] && st.past != []
          && (st.completed <==> !st.past[|st.past| - 1].how.Rotated?)
          && (st.completed ==> !st.past[|st.past| - 1].how.Truncated?))
  }

  lemma AllLinesSnoc(past: seq<Stretch>, s: Stretch)
    ensures AllLines(past + [s]) == AllLines(past) + LinesOf(s)
  {
    assert (past + [s])[..|past|] == past;
  }

  /** Decoding only ever appends to the lines it is given. */
  lemma {:induction false} FeedFrame(pre: seq<Bytes>, st: State, b: Bytes)
    ensures var r := Feed(st, b);
            Feed(State(pre + st.lines, st.partial), b) == State(pre + r.lines, r.partial)
    decreases |b|
  {
    if b != [] {
      DecodeGrammar(b);
      var d := DecodeRune(b);
      var next := Take(st, d.r);
      assert Take(State(pre + st.lines, st.partial), d.r) == State(pre + next.lines, next.partial) by {
        assert pre + st.lines + [st.partial] == pre + (st.lines + [st.partial]);
      }
      FeedFrame(pre, next, b[d.width..]);
    }
  }

  lemma {:induction false} FeedAllSnoc(st: State, pieces: seq<Bytes>, b: Bytes)
    ensures FeedAll(st, pieces + [b]) == Feed(FeedAll(st, pieces), b)
    decreases |pieces|
  {
    if pieces == [] {
      assert pieces + [b] == [b] && [b][1..] == [];
    } else {
      assert (pieces + [b])[1..] == pieces[1..] + [b];
      FeedAllSnoc(Feed(st, pieces[0]), pieces[1..], b);
    }
  }

  lemma ReadAccounted(st: Stream, data: Bytes, err: Err)
    requires Accounted(st) && st.pc.AtRead?
    ensures Accounted(OnRead(st, data, err))
  {
    var fed := FeedAll(EMPTY, st.pieces);
    if data != [] {
      FeedFrame(AllLines(st.past), fed, data);
      FeedAllSnoc(EMPTY, st.pieces, data);
    }
  }

  /** Closing a stretch after a flush sends its partial line; closing it without drops it. */
  lemma CloseAccounted(st: Stream, how: How, offset: nat)
    requires Accounted(st) && !st.pc.Returned?
    ensures AllLines(Close(st, how, offset).past) == if how.Rotated? then st.lines else Flushed(st).lines
  {
    AllLinesSnoc(st.past, Stretch(st.start, st.pieces, how));
    var fed := FeedAll(EMPTY, st.pieces);
    assert AllLines(st.past) + fed.lines + [fed.partial] == AllLines(st.past) + (fed.lines + [fed.partial]);
  }

  lemma FinishedAccounted(st: Stream, how: How)
    requires Accounted(st) && !st.pc.Returned? && !how.Rotated? && !how.Truncated?
    ensures Accounted(Finished(st, how))
  {
    CloseAccounted(st, how, st.offset);
  }

  lemma RotatedAccounted(st: Stream, opens: bool)
    requires Accounted(st) && !st.pc.Returned?
    ensures Accounted(OnRotated(st, opens))
  {
    CloseAccounted(st, Rotated, 0);
    assert st.lines + [] == st.lines;
  }

  lemma SeekAccounted(st: Stream, size: nat, rewinds: bool)
    requires Accounted(st) && !st.pc.Returned?
    ensures Accounted(OnSeek(st, size, rewinds))
  {
    if size < st.offset {
      CloseAccounted(st, Truncated, if rewinds then 0 else st.offset);
      assert Flushed(st).lines + [] == Flushed(st).lines;
    }
  }

  lemma CheckAccounted(s: System, preferStop: bool)
    requires Accounted(s.st)
    ensures Accounted(Act(s, Check(preferStop)).st)
  {
    hide Accounted;
    var st := s.st;
    if st.pc.AtCheck? {
      PcAccounted(st, st.(pc := AtRead));
      PcAccounted(st, st.(pc := AtWait));
      FinishedAccounted(st, Cancelled);
      FinishedAccounted(st, Stopped);
    }
  }

  lemma StatAccounted(s: System)
    requires Accounted(s.st)
    ensures Accounted(Act(s, Stat).st)
  {
    hide Accounted;
    var (st, w) := (s.st, s.w);
    if st.pc.AtEof? {
      match w.named {
        case Missing => FinishedAccounted(st, Deleted);
        case Other(_) => RotatedAccounted(st, true);
        case Same => PcAccounted(st, st.(pc := AtSeek(|w.file|)));
      }
    }
  }

  lemma ActAccounted(s: System, a: Action)
    requires Accounted(s.st)
    ensures Accounted(Act(s, a).st)
  {
    hide Accounted;
    var (st, w) := (s.st, s.w);
    match a {
      case ReadSome(n) =>
        if st.pc.AtRead? && n > 0 && st.offset + n <= |w.file| {
          ReadAccounted(st, w.file[st.offset..st.offset + n], NoError);
        }
      case ReadEof =>
        if st.pc.AtRead? {
          ReadAccounted(st, [], Eof);
          PcAccounted(OnRead(st, [], Eof), OnRead(st, [], Eof).(eofFile := Some(w.file)));
        }
      case ReadFail => if st.pc.AtRead? { ReadAccounted(st, [], Failed); }
      case Stat => StatAccounted(s);
      case StatFail => if st.pc.AtEof? { PcAccounted(st, st.(pc := AtCheck(Eof))); }
      case OpenFail => if st.pc.AtEof? { RotatedAccounted(st, false); }
      case Seek => if st.pc.AtSeek? { SeekAccounted(st, st.pc.size, true); }
      case SeekFail => if st.pc.AtSeek? { PcAccounted(st, st.(pc := AtRead)); }
      case RewindFail => if st.pc.AtSeek? { SeekAccounted(st, st.pc.size, false); }
      case Check(p) => CheckAccounted(s, p);
      case Wake => if st.pc.AtWait? { PcAccounted(st, st.(pc := AtRead)); }
      case _ =>
    }
  }

  lemma PcAccounted(st: Stream, st': Stream)
    requires Accounted(st) && !st.pc.Returned? && !st'.pc.Returned?
    requires st'.(pc := st.pc, eofFile := st.eofFile) == st
    ensures Accounted(st')
  {
  }

  /**
   On every run: the lines sent and the partial line are the decoding, in
   order, of what was read in each stretch; truncation, stop, cancel and
   deletion send a partial line, and only rotation drops it.
   */
  lemma {:induction false} RunAccounted(s: System, actions: seq<Action>)
    requires Accounted(s.st)
    ensures Accounted(Run(s, actions).st)
    decreases |actions|
  {
    if actions != [] {
      ActAccounted(s, actions[0]);
      RunAccounted(Act(s, actions[0]), actions[1..]);
    }
  }

  lemma StartAccounted(file: Bytes, fromStart: bool)
    ensures Accounted(Start(file, fromStart).st)
  {
  }

  // ---- a stopped stream drains its file ----

  /** Nothing but a cancel ends the stream before a read has met the end of the file. */
  ghost predicate AtEnd(s: System) {
    var st := s.st;
    && (st.pc.AtEof? || st.pc.AtSeek? || st.pc == AtCheck(Eof) || (st.completed && !s.w.cancelled) ==>
          st.eofFile.Some? && |st.eofFile.value| <= st.offset)
    && (st.completed ==> st.past != [] && st.pc.Returned?)
    && (st.completed && !s.w.cancelled ==> st.past[|st.past| - 1].how.Deleted? || s.w.stopped)
  }

  /** On every run, a stream that was only stopped completes only after a read at end of file. */
  lemma {:induction false} RunAtEnd(s: System, actions: seq<Action>)
    requires AtEnd(s)
    ensures AtEnd(Run(s, actions))
    decreases |actions|
  {
    if actions != [] {
      RunAtEnd(Act(s, actions[0]), actions[1..]);
    }
  }

  /** The open file has only grown: what was read is what it holds from the start of the stretch to the offset. */
  ghost predicate Intact(s: System) {
    var st := s.st;
    && st.start <= st.offset <= |s.w.file|
    && Joined(st.pieces) == s.w.file[st.start..st.offset]
    && (st.pc.AtSeek? ==> st.offset <= st.pc.size)
    && (st.eofFile.Some? ==> st.eofFile.value <= s.w.file[..st.offset])
    && (st.pc.AtEof? || st.pc.AtSeek? || st.pc == AtCheck(Eof) ==>
          st.eofFile.Some? && st.offset == |st.eofFile.value|)
  }

  /** A completed, uncancelled stream had read its file to the end. */
  ghost predicate Drained(s: System) {
    var st := s.st;
    st.completed ==>
      && st.past != [] && st.pc.Returned?
      && (!s.w.cancelled ==>
            var last := st.past[|st.past| - 1];
            && st.eofFile.Some? && last.start <= |st.eofFile.value|
            && Joined(last.pieces) == st.eofFile.value[last.start..])
  }

  lemma {:induction false} JoinedSnoc(pieces: seq<Bytes>, b: Bytes)
    ensures Joined(pieces + [b]) == Joined(pieces) + b
  {
    if pieces == [] {
      assert pieces + [b] == [b] && [b][1..] == [];
      assert Joined([b]) == b + Joined([]);
    } else {
      assert (pieces + [b])[1..] == pieces[1..] + [b];
      JoinedSnoc(pieces[1..], b);
    }
  }

  lemma ReadIntact(s: System, n: nat)
    requires Intact(s) && s.st.pc.AtRead? && n > 0 && s.st.offset + n <= |s.w.file|
    ensures Intact(Act(s, ReadSome(n)))
  {
    var st, f := s.st, s.w.file;
    JoinedSnoc(st.pieces, f[st.offset..st.offset + n]);
    CutJoin(f, st.start, st.offset, st.offset + n);
    hide Joined;
    hide Feed;
  }

  lemma CutJoin(f: Bytes, a: nat, b: nat, c: nat)
    requires a <= b <= c <= |f|
    ensures f[a..b] + f[b..c] == f[a..c]
  {
  }

  lemma FinishedDrained(s: System, how: How)
    requires Intact(s) && (s.st.pc.AtEof? || s.st.pc == AtCheck(Eof) || s.w.cancelled)
    ensures Intact(s.(st := Finished(s.st, how))) && Drained(s.(st := Finished(s.st, how)))
  {
    var st, f := s.st, s.w.file;
    if st.eofFile.Some? {
      var e := st.eofFile.value;
      assert e == f[..|e|];
      assert st.offset == |e| ==> f[st.start..st.offset] == e[st.start..];
    }
    assert f[st.offset..st.offset] == [];
  }

  lemma AppendIntact(s: System, data: Bytes)
    requires Intact(s)
    ensures Intact(Act(s, Append(data)))
  {
    var st, f := s.st, s.w.file;
    assert (f + data)[st.start..st.offset] == f[st.start..st.offset];
  }

  lemma CheckDrained(s: System, preferStop: bool)
    requires Intact(s) && Drained(s)
    ensures Intact(Act(s, Check(preferStop))) && Drained(Act(s, Check(preferStop)))
  {
    var (st, w) := (s.st, s.w);
    if st.pc.AtCheck? && (st.pc.err.Eof? || w.cancelled) && (w.stopped || w.cancelled) {
      FinishedDrained(s, Stopped);
      FinishedDrained(s, Cancelled);
    }
  }

  lemma StatDrained(s: System)
    requires Intact(s) && Drained(s)
    ensures Intact(Act(s, Stat)) && Drained(Act(s, Stat))
  {
    if s.st.pc.AtEof? && s.w.named.Missing? {
      FinishedDrained(s, Deleted);
    }
  }

  lemma ActDrained(s: System, a: Action)
    requires Intact(s) && Drained(s) && !a.Truncate?
    ensures Intact(Act(s, a)) && Drained(Act(s, a))
  {
    hide Feed;
    var (st, w) := (s.st, s.w);
    match a {
      case Append(data) => AppendIntact(s, data);
      case ReadSome(n) =>
        if st.pc.AtRead? && n > 0 && st.offset + n <= |w.file| {
          ReadIntact(s, n);
        }
      case Stat => StatDrained(s);
      case Check(p) => CheckDrained(s, p);
      case _ =>
    }
  }

  /**
   On every run in which the open file is never truncated: what a stretch
   has read is the file from where it began, and a stream that completes
   without being cancelled has read everything the file held at its last read.
   */
  lemma {:induction false} RunDrained(s: System, actions: seq<Action>)
    requires Intact(s) && Drained(s)
    requires forall i :: 0 <= i < |actions| ==> !actions[i].Truncate?
    ensures Intact(Run(s, actions)) && Drained(Run(s, actions))
    decreases |actions|
  {
    if actions != [] {
      ActDrained(s, actions[0]);
      RunDrained(Act(s, actions[0]), actions[1..]);
    }
  }

  lemma StartIntact(file: Bytes, fromStart: bool)
    ensures Intact(Start(file, fromStart)) && Drained(Start(file, fromStart)) && AtEnd(Start(file, fromStart))
  {
  }

  // ---- truncation ----

  /** The file is shorter than what was read of it. */
  predicate Behind(s: System) { !s.st.pc.Returned? && |s.w.file| < s.st.offset }

  /** The stream has seen that; whatever happens to the file now, it will start over. */
  predicate Noticed(s: System) { s.st.pc.AtSeek? && s.st.pc.size < s.st.offset }

  predicate Rotates(s: System, a: Action) { s.st.pc.AtEof? && s.w.named.Other? && (a.Stat? || a.OpenFail?) }

  /**
   A step that lets no truncation go unnoticed: one that cuts what was read
   leaves the file shorter than that, and it stays so until the stream has
   looked at its size, or has moved on to another file.
   */
  predicate Meets(s: System, a: Action) {
    var s' := Act(s, a);
    if s.st.pc.Returned? then true
    else if Noticed(s) then a.SeekFail? ==> Behind(s')
    else if Behind(s) then Behind(s') || Noticed(s') || Rotates(s, a) || (s'.st.pc.Returned? && s'.w.cancelled)
    else a.Truncate? ==> |a.left| < s.st.offset || a.left[..s.st.offset] == s.w.file[..s.st.offset]
  }

  predicate Met(s: System, actions: seq<Action>)
    decreases |actions|
  {
    actions != [] ==> Meets(s, actions[0]) && Met(Act(s, actions[0]), actions[1..])
  }

  /** The stretch is what the file holds, or the stream is about to find out. */
  ghost predicate Tracked(s: System) { s.st.pc.Returned? || Intact(s) || Behind(s) || Noticed(s) }

  /**
   At end of file, a file that has become shorter is read again from its
   beginning: the partial line is sent, and the next read gives what the file
   starts with.
   */
  lemma TruncationRestarts(s: System, n: nat)
    requires s.st.pc.AtEof? && s.w.named.Same? && |s.w.file| < s.st.offset && 0 < n <= |s.w.file|
    ensures var t := Run(s, [Stat, Seek]);
            && t.w == s.w && t.st.pc.AtRead? && t.st.offset == 0 && t.st.start == 0 && t.st.pieces == []
            && t.st.partial == [] && t.st.lines == (if s.st.partial == [] then s.st.lines else s.st.lines + [s.st.partial])
    ensures var r := Run(s, [Stat, Seek, ReadSome(n)]).st;
            r.pieces == [s.w.file[..n]] && r.offset == n && r.start == 0
  {
    hide Feed;
    RunTwo(s, Stat, Seek);
    RunThree(s, Stat, Seek, ReadSome(n));
  }

  lemma NoticedTracked(s: System, a: Action)
    requires Noticed(s) && Meets(s, a)
    ensures Tracked(Act(s, a))
  {
    var (st, w) := (s.st, s.w);
    var s' := Act(s, a);
    match a {
      case Seek => assert Intact(s');
      case RewindFail => if !Behind(s') { assert Intact(s'); }
      case _ =>
    }
  }

  lemma BehindTracked(s: System, a: Action)
    requires Behind(s) && !Noticed(s) && Meets(s, a)
    ensures Tracked(Act(s, a))
  {
    if Rotates(s, a) && a.Stat? {
      assert Intact(Act(s, a));
    }
  }

  lemma TruncateIntact(s: System, left: Bytes)
    requires Intact(s) && Meets(s, Truncate(left))
    ensures Tracked(Act(s, Truncate(left)))
  {
    var st, f := s.st, s.w.file;
    if !st.pc.Returned? && |left| >= st.offset {
      assert left[st.start..st.offset] == left[..st.offset][st.start..] == f[st.start..st.offset];
    }
  }

  lemma ActTracked(s: System, a: Action)
    requires Tracked(s) && Drained(s) && Meets(s, a)
    ensures Tracked(Act(s, a)) && Drained(Act(s, a))
  {
    hide Intact;
    if s.st.pc.Returned? {
    } else if Noticed(s) {
      NoticedTracked(s, a);
    } else if Behind(s) {
      BehindTracked(s, a);
    } else if a.Truncate? {
      TruncateIntact(s, a.left);
    } else {
      ActDrained(s, a);
    }
  }

  /**
   RunDrained for runs with truncations too, as long as each is noticed: what
   a stretch has read is the file from where it began, and a completed,
   uncancelled stream has read everything the file held at its last read.
   */
  lemma {:induction false} RunTracked(s: System, actions: seq<Action>)
    requires Tracked(s) && Drained(s) && Met(s, actions)
    ensures Tracked(Run(s, actions)) && Drained(Run(s, actions))
    decreases |actions|
  {
    if actions != [] {
      hide Tracked, Drained, Meets;
      ActTracked(s, actions[0]);
      RunTracked(Act(s, actions[0]), actions[1..]);
    }
  }

  /** Without truncations there is nothing to notice. */
  lemma {:induction false} GrownMet(s: System, actions: seq<Action>)
    requires Intact(s) && Drained(s)
    requires forall i :: 0 <= i < |actions| ==> !actions[i].Truncate?
    ensures Met(s, actions)
    decreases |actions|
  {
    if actions != [] {
      ActDrained(s, actions[0]);
      GrownMet(Act(s, actions[0]), actions[1..]);
    }
  }

  /** A truncation that has grown past the offset goes unnoticed: the old beginning is joined to the new end. */
  lemma RegrownUnseen(s: System, left: Bytes, n: nat)
    requires Intact(s) && s.st.pc.AtRead? && n > 0 && s.st.offset + n <= |left|
    ensures var t := Run(s, [Truncate(left), ReadSome(n)]);
            && Joined(t.st.pieces) == s.w.file[s.st.start..s.st.offset] + left[s.st.offset..s.st.offset + n]
            && (Intact(t) <==> s.w.file[s.st.start..s.st.offset] == left[s.st.start..s.st.offset])
  {
    hide Feed, Run, Act;
    var st, f := s.st, s.w.file;
    var more := left[st.offset..st.offset + n];
    CutSteps(s, left, n);
    JoinedSnoc(st.pieces, more);
    CutJoin(left, st.start, st.offset, st.offset + n);
    SamePrefix(f[st.start..st.offset], left[st.start..st.offset], more);
  }

  lemma CutSteps(s: System, left: Bytes, n: nat)
    requires s.st.pc.AtRead? && n > 0 && s.st.offset + n <= |left|
    ensures var t := Run(s, [Truncate(left), ReadSome(n)]);
            && t.st.pieces == s.st.pieces + [left[s.st.offset..s.st.offset + n]] && t.w.file == left
            && t.st.start == s.st.start && t.st.offset == s.st.offset + n
            && t.st.pc == AtCheck(NoError) && t.st.eofFile.None?
  {
    hide Feed, Run;
    RunTwo(s, Truncate(left), ReadSome(n));
  }

  lemma SamePrefix(a: Bytes, b: Bytes, c: Bytes)
    requires |a| == |b|
    ensures a + c == b + c <==> a == b
  {
    assert (a + c)[..|a|] == a && (b + c)[..|a|] == b;
  }

  /** Every stretch but the first begins at the beginning of its file. */
  predicate FromStart(st: Stream) {
    && (forall i :: 1 <= i < |st.past| ==> st.past[i].start == 0)
    && (st.past != [] && !st.pc.Returned? ==> st.start == 0)
  }

  /** On every run in which no rewind fails. */
  lemma {:induction false} RunFromStart(s: System, actions: seq<Action>)
    requires FromStart(s.st)
    requires forall i :: 0 <= i < |actions| ==> !actions[i].RewindFail?
    ensures FromStart(Run(s, actions).st)
    decreases |actions|
  {
    if actions != [] {
      ActFromStart(s, actions[0]);
      RunFromStart(Act(s, actions[0]), actions[1..]);
    }
  }

  lemma ActFromStart(s: System, a: Action)
    requires FromStart(s.st) && !a.RewindFail?
    ensures FromStart(Act(s, a).st)
  {
    hide Feed;
  }

  /** What the tests before sleeping lead to: the stream completes exactly on a cancel, or on a stop seen at end of file. */
  lemma CheckCompletes(s: System, preferStop: bool)
    requires s.st.pc.AtCheck? && !s.st.completed
    ensures var t := Act(s, Check(preferStop)).st;
            && (t.completed <==> s.w.cancelled || (s.w.stopped && s.st.pc.err.Eof?))
            && (t.pc.AtRead? <==> s.st.pc.err.NoError? && !s.w.cancelled)
            && (t.completed ==>
                  t.past != [] && t.past[|t.past| - 1].how.Cancelled? == (s.w.cancelled && !(s.w.stopped && preferStop)))
  {
  }

  /**
   For a whole run, from opening the file to completion, with every
   truncation noticed and no cancel: if no read ended inside a character, the
   last stretch sent the bytes of the file, split at the newlines, and then
   what was left.
   */
  lemma FileDelivered(file: Bytes, fromStart: bool, actions: seq<Action>)
    requires Met(Start(file, fromStart), actions)
    ensures var s := Run(Start(file, fromStart), actions);
            s.st.completed && !s.w.cancelled ==>
              && s.st.past != [] && s.st.eofFile.Some?
              && var last := s.st.past[|s.st.past| - 1];
              && last.start <= |s.st.eofFile.value|
              && var content := s.st.eofFile.value[last.start..];
                 OnBoundaries(last.pieces) && WellFormed(content) ==>
                   var whole := Split(EMPTY, content);
                   LinesOf(last) == if whole.partial == [] then whole.lines else whole.lines + [whole.partial]
  {
    hide Run, Start, Met, Intact, LinesOf, Feed, Split, OnBoundaries, WellFormed;
    var s := Run(Start(file, fromStart), actions);
    StartIntact(file, fromStart);
    StartAccounted(file, fromStart);
    RunTracked(Start(file, fromStart), actions);
    RunAccounted(Start(file, fromStart), actions);
    if s.st.completed && !s.w.cancelled {
      var last := s.st.past[|s.st.past| - 1];
      var content := s.st.eofFile.value[last.start..];
      if OnBoundaries(last.pieces) && WellFormed(content) {
        StretchLines(last, content);
      }
    }
  }

  lemma StretchLines(s: Stretch, content: Bytes)
    requires !s.how.Rotated? && Joined(s.pieces) == content && OnBoundaries(s.pieces) && WellFormed(content)
    ensures var whole := Split(EMPTY, content);
            LinesOf(s) == if whole.partial == [] then whole.lines else whole.lines + [whole.partial]
  {
    PiecesAgree(EMPTY, s.pieces);
    Faithful(EMPTY, content);
    hide Feed, Split, FeedAll;
  }

  // ---- a stream that neither runs nor completes ----

  lemma {:induction false} ReturnedStays(s: System, actions: seq<Action>)
    requires s.st.pc.Returned?
    ensures Run(s, actions).st == s.st
    decreases |actions|
  {
    if actions != [] {
      ReturnedStays(Act(s, actions[0]), actions[1..]);
    }
  }

  /** If the file a rotation put in place cannot be opened, the stream ends without ever being complete. */
  lemma RotationStrands(s: System, actions: seq<Action>)
    requires Accounted(s.st) && s.st.pc.AtEof? && s.w.named.Other?
    ensures !Run(s, [OpenFail] + actions).st.completed
    ensures Run(s, [OpenFail] + actions).st.pc.Returned?
  {
    assert ([OpenFail] + actions)[1..] == actions;
    ReturnedStays(Act(s, OpenFail), actions);
  }

  // ---- the loop ----

  /** What one pass of the loop is told by the system. */
  datatype Answers = Answers(
    data: Bytes, err: Err, stat: StatResult, tells: bool, rewinds: bool,
    stopped: bool, cancelled: bool, preferStop: bool)

  datatype StatResult = IsSame(size: nat) | IsOther(opens: bool) | NotExist | StatError

  /** What an empty read at end of file leads to. */
  function AfterEof(a: Stream, e: Answers): Stream {
    match e.stat
    case NotExist => Finished(a, Deleted)
    case StatError => a.(pc := AtCheck(Eof))
    case IsOther(opens) => OnRotated(a, opens)
    case IsSame(size) => if e.tells then OnSeek(a, size, e.rewinds) else a.(pc := AtRead)
  }

  /** One pass, as the steps it is made of. */
  function Pass(st: Stream, e: Answers): Stream {
    var a := OnRead(st, e.data, e.err);
    var b := if a.pc.AtEof? then AfterEof(a, e) else a;
    if b.pc.AtCheck? then OnCheck(b, b.pc.err, e.stopped, e.cancelled, e.preferStop) else b
  }

  /** What a read of a regular file can answer: bytes, or none and an error. */
  predicate Regular(e: Answers) { e.data == [] <==> !e.err.NoError? }

  /** Equal but for what the loop does not keep. */
  predicate SameStream(a: Stream, b: Stream) { a.(eofFile := b.eofFile) == b }

  function FirstRead(e: Answers): Action {
    if e.data != [] then ReadSome(|e.data|) else if e.err.Eof? then ReadEof else ReadFail
  }

  function LastSeek(e: Answers): Action { if !e.tells then SeekFail else if e.rewinds then Seek else RewindFail }

  /** The steps after an empty read at end of file; the file may have changed since. */
  function AtEofSteps(e: Answers): seq<Action> {
    match e.stat
    case NotExist => [Stat]
    case StatError => [StatFail]
    case IsOther(opens) => [if opens then Stat else OpenFail]
    case IsSame(size) => [Truncate(seq(size, _ => 0)), Stat, LastSeek(e)]
  }

  function Steps(e: Answers): seq<Action> {
    [FirstRead(e)] + (if e.data == [] && e.err.Eof? then AtEofSteps(e) else []) + [Check(e.preferStop)]
  }

  /** The world that gives these answers to a stream at this offset. */
  function WorldOf(e: Answers, offset: nat): World {
    var named := match e.stat case NotExist => Missing case IsOther(_) => Other([]) case _ => Same;
    World(if e.data == [] then [] else seq(offset, _ => 0) + e.data, named, e.stopped, e.cancelled)
  }

  lemma RunOne(s: System, a: Action)
    ensures Run(s, [a]) == Act(s, a)
  {
    assert [a][1..] == [];
  }

  lemma RunTwo(s: System, a: Action, b: Action)
    ensures Run(s, [a, b]) == Act(Act(s, a), b)
  {
    hide Act;
    assert [a, b][1..] == [b];
    RunOne(Act(s, a), b);
  }

  lemma RunThree(s: System, a: Action, b: Action, c: Action)
    ensures Run(s, [a, b, c]) == Act(Act(Act(s, a), b), c)
  {
    hide Act;
    assert [a, b, c][1..] == [b, c] && [b, c][1..] == [c];
    RunOne(Act(Act(s, a), b), c);
  }

  /** The last step of a pass; where the loop goes on or is over it does nothing. */
  lemma LastStep(s: System, e: Answers, b: Stream)
    requires SameStream(s.st, b) && s.w.stopped == e.stopped && s.w.cancelled == e.cancelled
    ensures SameStream(Run(s, [Check(e.preferStop)]).st,
                       if b.pc.AtCheck? then OnCheck(b, b.pc.err, e.stopped, e.cancelled, e.preferStop) else b)
  {
    RunOne(s, Check(e.preferStop));
  }

  lemma SameSteps(s: System, e: Answers, a: Stream)
    requires s.st.pc.AtEof? && SameStream(s.st, a) && s.w.named.Same? && e.stat.IsSame?
    ensures var s' := Run(s, AtEofSteps(e));
            SameStream(s'.st, AfterEof(a, e)) && s'.w.stopped == s.w.stopped && s'.w.cancelled == s.w.cancelled
  {
    hide Run;
    var cut := Truncate(seq(e.stat.size, _ => 0));
    RunThree(s, cut, Stat, LastSeek(e));
    var s2 := Act(Act(s, cut), Stat);
    assert s2.st == s.st.(pc := AtSeek(e.stat.size)) && s2.w == s.w.(file := cut.left);
  }

  /** The steps after an empty read at end of file lead where `AfterEof` says. */
  lemma EofSteps(s: System, e: Answers, a: Stream)
    requires s.st.pc.AtEof? && SameStream(s.st, a) && s.w.named == WorldOf(e, 0).named
    ensures var s' := Run(s, AtEofSteps(e));
            SameStream(s'.st, AfterEof(a, e)) && s'.w.stopped == s.w.stopped && s'.w.cancelled == s.w.cancelled
  {
    hide Run;
    match e.stat {
      case IsSame(size) => SameSteps(s, e, a);
      case _ =>
        RunOne(s, AtEofSteps(e)[0]);
    }
  }

  /** The read of a pass, in the world that gives the answers. */
  lemma FirstStep(st: Stream, e: Answers)
    requires st.pc.AtRead? && Regular(e)
    ensures var s := Act(System(st, WorldOf(e, st.offset)), FirstRead(e));
            SameStream(s.st, OnRead(st, e.data, e.err)) && s.w == WorldOf(e, st.offset)
  {
    hide Feed;
    var w := WorldOf(e, st.offset);
    assert e.data != [] ==> w.file[st.offset..st.offset + |e.data|] == e.data;
  }

  /** Every pass of the loop is a run of the system, in a world that gives the answers it got. */
  lemma PassIsRun(st: Stream, e: Answers)
    requires st.pc.AtRead? && Regular(e)
    ensures SameStream(Run(System(st, WorldOf(e, st.offset)), Steps(e)).st, Pass(st, e))
  {
    var s, last := System(st, WorldOf(e, st.offset)), [Check(e.preferStop)];
    var s1, a := Act(s, FirstRead(e)), OnRead(st, e.data, e.err);
    FirstStep(st, e);
    RunOne(s, FirstRead(e));
    hide Run, Act, AfterEof, OnCheck;
    if e.data == [] && e.err.Eof? {
      RunJoin(s, [FirstRead(e)], AtEofSteps(e));
      RunJoin(s, [FirstRead(e)] + AtEofSteps(e), last);
      EofSteps(s1, e, a);
      LastStep(Run(s1, AtEofSteps(e)), e, AfterEof(a, e));
    } else {
      RunJoin(s, [FirstRead(e)], last);
      assert Steps(e) == [FirstRead(e)] + last;
      LastStep(s1, e, a);
    }
  }

  lemma {:induction false} RunJoin(s: System, a: seq<Action>, b: seq<Action>)
    ensures Run(s, a + b) == Run(Run(s, a), b)
    decreases |a|
  {
    if a == [] {
      assert a + b == b;
    } else {
      assert (a + b)[1..] == a[1..] + b;
      RunJoin(Act(s, a[0]), a[1..], b);
    }
  }

  /** So whatever every run keeps, every pass keeps. */
  lemma PassAccounted(st: Stream, e: Answers)
    requires st.pc.AtRead? && Regular(e) && Accounted(st)
    ensures Accounted(Pass(st, e))
  {
    var s := System(st, WorldOf(e, st.offset));
    PassIsRun(st, e);
    RunAccounted(s, Steps(e));
    assert Accounted(Run(s, Steps(e)).st);
  }

  class FileStream {
    var lines: seq<Bytes>
    var partial: Bytes
    var offset: nat
    var completed: bool
    /** The goroutine is still in its loop. */
    var looping: bool
    ghost var past: seq<Stretch>
    ghost var start: nat
    ghost var pieces: seq<Bytes>
    ghost var eofFile: Option<Bytes>

    ghost function View(pc: Pc): Stream
      reads this
    {
      Stream(pc, lines, partial, offset, completed, past, start, pieces, eofFile)
    }

    constructor (size: nat, fromStart: bool)
      ensures looping && View(AtRead) == Opened(if fromStart then 0 else size)
    {
      lines, partial, completed, looping := [], [], false, true;
      offset := if fromStart then 0 else size;
      past, pieces, eofFile := [], [], None;
      start := if fromStart then 0 else size;
    }

    method SendPartial()
      modifies `lines, `partial
      ensures forall pc :: View(pc) == Flushed(old(View(pc)))
    {
      if |partial| > 0 {
        lines := lines + [partial];
        partial := [];
      }
    }

    method Finish(ghost how: How)
      modifies this
      ensures View(Returned) == Finished(old(View(Returned)), how) && !looping
    {
      SendPartial();
      completed := true;
      looping := false;
      past := past + [Stretch(start, pieces, how)];
      start, pieces := offset, [];
    }

    /** One pass through the loop body; `continue` and falling asleep both lead to the next read. */
    method Loop(e: Answers)
      requires looping
      modifies this
      ensures var next := Pass(old(View(AtRead)), e);
              View(next.pc) == next && looping == !next.pc.Returned?
    {
      Receive(e.data, e.err);
      if e.err.Eof? && |e.data| == 0 {
        var sleep := EndOfFile(e);
        if !sleep {
          return;
        }
      } else if e.err.NoError? && !e.cancelled {
        return;
      }
      if e.err.Eof? || e.cancelled {
        if e.stopped && (e.preferStop || !e.cancelled) {
          Finish(Stopped);
        } else if e.cancelled {
          Finish(Cancelled);
        }
      }
    }

    method Receive(data: Bytes, err: Err)
      modifies this
      ensures var a := OnRead(old(View(AtRead)), data, err);
              View(a.pc) == a && looping == old(looping)
    {
      if |data| > 0 {
        var d := new Decoder();
        d.lines, d.partial := lines, partial;
        d.DecodeAndSend(|data|, data);
        lines, partial := d.lines, d.partial;
        offset := offset + |data|;
        pieces := pieces + [data];
      }
      eofFile := None;
    }

    /** True to go on to the tests before sleeping. */
    method EndOfFile(e: Answers) returns (sleep: bool)
      requires looping
      modifies this
      ensures var b := AfterEof(old(View(AtEof)), e);
              View(b.pc) == b && looping == !b.pc.Returned? && sleep == b.pc.AtCheck? && (sleep ==> b.pc == AtCheck(Eof))
    {
      match e.stat {
        case NotExist =>
          Finish(Deleted);
          sleep := false;
        case StatError =>
          sleep := true;
        case IsOther(opens) =>
          past := past + [Stretch(start, pieces, Rotated)];
          start, pieces, eofFile := 0, [], None;
          partial, offset := [], 0;
          looping := opens;
          sleep := false;
        case IsSame(size) =>
          if !e.tells {
            return false;
          }
          if size < offset {
            SendPartial();
            past := past + [Stretch(start, pieces, Truncated)];
            if e.rewinds {
              offset := 0;
            }
            start, pieces, eofFile := offset, [], None;
            return false;
          }
          sleep := true;
      }
    }
  }
}

/**
 Whether the two readings of `otherwise` in Scoping.dfy ever part on a real
 line.  A run is played in both at once, up to the point where one would
 answer an `otherwise` differently from the other; and a line, with what each
 pattern finds on it, is made for every objection of the scan.
 */
module Parting {
  import opened Common
  import opened Syntax
  import opened Machine
  import opened Semantics
  import opened Scoping

  // ---- a run in both readings at once ----

  /** The readings have come through together, have parted, or the run is over. */
  datatype Played = Together(doc: History, code: History, s: State) | Parted | Halted | Failed

  /** Other statements that do not ask. */
  predicate PlainStmt(st: Stmt) {
    match st
    case ExprStmt(e) => Scoping.Plain(e)
    case Store(lv, e, _) => PlainArgs(lv.args) && Scoping.Plain(e)
    case Remove(lv, _) => PlainArgs(lv.args)
    case _ => true
  }

  /** `Parted`: a condition asks about the conditionals before it, and the two readings know differently. */
  function Play(inp: Input, st: Stmt, s: State, doc: History, code: History): Played
    decreases st, 1
  {
    match st
    case Cond(c, _, _) =>
      if !Alike(Scoping.Plain(c), doc, code) then Parted
      else
        (match EvalExpr(inp, c, s, code)
         case EvalError(_) => Failed
         case Val(p, s1) => PlayBranch(inp, st, !Falsy(p), s1, doc, code))
    case Block(stmts) => PlayAll(inp, stmts, s, doc, code)
    case Instance(body) => Play(inp, body, s, doc, code)
    case Stop => Halted
    case _ =>
      if !Alike(PlainStmt(st), doc, code) then Parted
      else
        match ExecStmt(inp, st, s, code)
        case Done(s1, _) => Together(doc, code, s1)
        case _ => Failed
  }

  function PlayBranch(inp: Input, st: Stmt, take: bool, s: State, doc: History, code: History): Played
    requires st.Cond?
    decreases st, 0
  {
    if take then
      match Play(inp, st.truth, s, [], [])
      case Together(_, _, s1) => Together(doc + [true], code + [true], s1)
      case r => r
    else
      match st.els
      case None => Together(doc + [false], code + [false], s)
      case Some(e) =>
        match Play(inp, e, s, [], code + [false])
        case Together(_, code', s1) => Together(doc + [false], code', s1)
        case r => r
  }

  function PlayAll(inp: Input, stmts: seq<Stmt>, s: State, doc: History, code: History): Played
    decreases stmts, 0
  {
    if stmts == [] then Together(doc, code, s)
    else
      match Play(inp, stmts[0], s, doc, code)
      case Together(doc', code', s1) => PlayAll(inp, stmts[1..], s1, doc', code')
      case r => r
  }

  /** What a play says of the two runs: both ended so, unless they parted. */
  predicate Tells(m: Played, doc: Exec, code: Exec) {
    match m
    case Together(d, c, s) => doc == Done(s, d) && code == Done(s, c)
    case Parted => true
    case Halted => code.Stopping? && doc == code
    case Failed => code.ExecError? && doc == code
  }

  /** Until they part the two readings are the same run. */
  lemma {:induction false} PlayTells(inp: Input, st: Stmt, s: State, doc: History, code: History)
    ensures Tells(Play(inp, st, s, doc, code), DocStmt(inp, st, s, doc), ExecStmt(inp, st, s, code))
    decreases st, 1
  {
    match st
    case Cond(_, _, _) => CondTells(inp, st, s, doc, code);
    case Block(stmts) => AllTell(inp, stmts, s, doc, code);
    case Instance(body) => PlayTells(inp, body, s, doc, code);
    case ExprStmt(e) => if Alike(Scoping.Plain(e), doc, code) { ExprIgnores(inp, e, s, doc, code); }
    case Store(lv, e, _) =>
      if Alike(PlainArgs(lv.args) && Scoping.Plain(e), doc, code) {
        StoreIgnores(inp, st, s, doc, code);
        StoreIgnores(inp, st, s, code, code);
      }
    case Remove(lv, _) => if Alike(PlainArgs(lv.args), doc, code) { PlaceIgnores(inp, lv, s, doc, code); }
    case Stop =>
  }

  /** Either reading runs one branch of a conditional and notes which. */
  lemma CondUnfolds(inp: Input, st: Stmt, s: State, h: History)
    requires st.Cond? && EvalExpr(inp, st.c, s, h).Val?
    ensures var v := EvalExpr(inp, st.c, s, h);
            var d, c := DocStmt(inp, st.truth, v.s, []), ExecStmt(inp, st.truth, v.s, []);
            !Falsy(v.p) ==>
              && DocStmt(inp, st, s, h) == (if d.Done? then Done(d.s, h + [true]) else d)
              && ExecStmt(inp, st, s, h) == (if c.Done? then Done(c.s, h + [true]) else c)
    ensures var v := EvalExpr(inp, st.c, s, h);
            Falsy(v.p) && st.els.None? ==>
              DocStmt(inp, st, s, h) == ExecStmt(inp, st, s, h) == Done(v.s, h + [false])
    ensures var v := EvalExpr(inp, st.c, s, h);
            Falsy(v.p) && st.els.Some? ==>
              var d := DocStmt(inp, st.els.value, v.s, []);
              && DocStmt(inp, st, s, h) == (if d.Done? then Done(d.s, h + [false]) else d)
              && ExecStmt(inp, st, s, h) == ExecStmt(inp, st.els.value, v.s, h + [false])
  {
  }

  lemma {:induction false} CondTells(inp: Input, st: Stmt, s: State, doc: History, code: History)
    requires st.Cond?
    ensures Tells(Play(inp, st, s, doc, code), DocStmt(inp, st, s, doc), ExecStmt(inp, st, s, code))
    decreases st, 0
  {
    if Alike(Scoping.Plain(st.c), doc, code) {
      ExprIgnores(inp, st.c, s, doc, code);
      var v := EvalExpr(inp, st.c, s, code);
      if v.Val? {
        CondUnfolds(inp, st, s, doc);
        CondUnfolds(inp, st, s, code);
        BranchTells(inp, st, !Falsy(v.p), v.s, doc, code);
        assert Play(inp, st, s, doc, code) == PlayBranch(inp, st, !Falsy(v.p), v.s, doc, code);
      }
    }
  }

  lemma {:induction false} BranchTells(inp: Input, st: Stmt, take: bool, s: State, doc: History, code: History)
    requires st.Cond?
    ensures var m := PlayBranch(inp, st, take, s, doc, code);
            if take then
              var d, c := DocStmt(inp, st.truth, s, []), ExecStmt(inp, st.truth, s, []);
              Tells(m, if d.Done? then Done(d.s, doc + [true]) else d, if c.Done? then Done(c.s, code + [true]) else c)
            else if st.els.None? then m == Together(doc + [false], code + [false], s)
            else
              var d, c := DocStmt(inp, st.els.value, s, []), ExecStmt(inp, st.els.value, s, code + [false]);
              Tells(m, if d.Done? then Done(d.s, doc + [false]) else d, c)
    decreases st, -1
  {
    hide DocStmt;
    hide ExecStmt;
    if take {
      PlayTells(inp, st.truth, s, [], []);
    } else if st.els.Some? {
      PlayTells(inp, st.els.value, s, [], code + [false]);
    }
  }

  lemma {:induction false} AllTell(inp: Input, stmts: seq<Stmt>, s: State, doc: History, code: History)
    ensures Tells(PlayAll(inp, stmts, s, doc, code), DocAll(inp, stmts, s, doc), ExecAll(inp, stmts, s, code))
    decreases stmts, 0
  {
    if stmts != [] {
      var m := Play(inp, stmts[0], s, doc, code);
      PlayTells(inp, stmts[0], s, doc, code);
      if m.Together? {
        AllTell(inp, stmts[1..], m.s, m.doc, m.code);
      }
    }
  }

  // ---- a program that passes never parts ----

  lemma {:induction false} PassesTogether(inp: Input, st: Stmt, s: State, doc: History, code: History, f: Flags)
    requires Follow(st, f).ok && Fits(doc, code, f)
    ensures var m := Play(inp, st, s, doc, code);
            !m.Parted? && (m.Together? ==> Fits(m.doc, m.code, Follow(st, f).out))
    decreases st, 1
  {
    match st
    case Cond(_, _, _) => CondTogether(inp, st, s, doc, code, f);
    case Block(stmts) => AllTogether(inp, stmts, s, doc, code, f);
    case Instance(body) => PassesTogether(inp, body, s, doc, code, f);
    case _ =>
  }

  lemma {:induction false} CondTogether(inp: Input, st: Stmt, s: State, doc: History, code: History, f: Flags)
    requires st.Cond? && Follow(st, f).ok && Fits(doc, code, f)
    ensures var m := Play(inp, st, s, doc, code);
            !m.Parted? && (m.Together? ==> Fits(m.doc, m.code, Follow(st, f).out))
    decreases st, 0
  {
    var v := EvalExpr(inp, st.c, s, code);
    if v.Val? {
      assert IsOtherwise(st.c) ==> (Falsy(v.p) <==> AnyTaken(code));
      TakenAfter(doc, true);
      TakenAfter(code, true);
      TakenAfter(doc, false);
      TakenAfter(code, false);
      if !Falsy(v.p) {
        PassesTogether(inp, st.truth, v.s, [], [], ENTRY);
      } else if st.els.Some? {
        assert !AnyTaken([]);
        PassesTogether(inp, st.els.value, v.s, [], code + [false], if AnyTaken(code) then APART else ENTRY);
        ElseRaises(inp, st.els.value, v.s, [], code + [false]);
      }
    }
  }

  /** A flag that is up stays up. */
  lemma ElseRaises(inp: Input, st: Stmt, s: State, doc: History, code: History)
    ensures var m := Play(inp, st, s, doc, code);
            m.Together? && AnyTaken(code) ==> AnyTaken(m.code)
  {
    PlayTells(inp, st, s, doc, code);
    var m := Play(inp, st, s, doc, code);
    if m.Together? {
      HistoryGrows(inp, st, s, code);
      TakenStays(code, m.code);
    }
  }

  lemma {:induction false} AllTogether(inp: Input, stmts: seq<Stmt>, s: State, doc: History, code: History, f: Flags)
    requires FollowAll(stmts, f).ok && Fits(doc, code, f)
    ensures var m := PlayAll(inp, stmts, s, doc, code);
            !m.Parted? && (m.Together? ==> Fits(m.doc, m.code, FollowAll(stmts, f).out))
    decreases stmts, 0
  {
    if stmts != [] {
      PassesTogether(inp, stmts[0], s, doc, code, f);
      var m := Play(inp, stmts[0], s, doc, code);
      if m.Together? {
        AllTogether(inp, stmts[1..], m.s, m.doc, m.code, Follow(stmts[0], f).out);
      }
    }
  }

  // ---- a line for every way ----

  /** Every condition is `otherwise` or a pattern, and nothing else asks. */
  predicate Askable(st: Stmt)
    decreases st, 1
  {
    match st
    case Cond(c, truth, els) =>
      (c == Leaf(Otherwise) || (c.Leaf? && c.t.Pattern?)) && Askable(truth) && (els.Some? ==> Askable(els.value))
    case Block(stmts) => AllAskable(stmts)
    case Instance(body) => Askable(body)
    case _ => PlainStmt(st)
  }

  predicate AllAskable(stmts: seq<Stmt>)
    decreases stmts, 0
  {
    stmts != [] ==> Askable(stmts[0]) && AllAskable(stmts[1..])
  }

  /** The patterns that decide conditionals. */
  function Names(st: Stmt): set<string>
    decreases st, 1
  {
    match st
    case Cond(c, truth, els) => OwnName(c) + Names(truth) + (if els.Some? then Names(els.value) else {})
    case Block(stmts) => AllNames(stmts)
    case Instance(body) => Names(body)
    case _ => {}
  }

  function AllNames(stmts: seq<Stmt>): set<string>
    decreases stmts, 0
  {
    if stmts == [] then {} else Names(stmts[0]) + AllNames(stmts[1..])
  }

  function OwnName(c: Expr): set<string> { if c.Leaf? && c.t.Pattern? then {c.t.re} else {} }

  /** No pattern decides twice on one run; so it is if all of them are different. */
  predicate Once(st: Stmt)
    decreases st, 1
  {
    match st
    case Cond(c, truth, els) =>
      && OwnName(c) !! Names(truth) && Once(truth)
      && (els.Some? ==> OwnName(c) !! Names(els.value) && Once(els.value))
    case Block(stmts) => AllOnce(stmts)
    case Instance(body) => Once(body)
    case _ => true
  }

  predicate AllOnce(stmts: seq<Stmt>)
    decreases stmts, 0
  {
    stmts != [] ==> Once(stmts[0]) && Names(stmts[0]) !! AllNames(stmts[1..]) && AllOnce(stmts[1..])
  }

  /** The patterns a way through the program wants to be found. */
  function Hits(st: Stmt, doc: bool, code: bool, ch: seq<bool>): set<string>
    decreases st, 1
  {
    match st
    case Cond(c, _, _) =>
      if IsOtherwise(c) then if doc == code then BranchHits(st, !code, doc, code, ch) else {}
      else if ch == [] then {}
      else (if ch[0] then OwnName(c) else {}) + BranchHits(st, ch[0], doc, code, ch[1..])
    case Block(stmts) => AllHits(stmts, doc, code, ch)
    case Instance(body) => Hits(body, doc, code, ch)
    case _ => {}
  }

  function BranchHits(st: Stmt, take: bool, doc: bool, code: bool, ch: seq<bool>): set<string>
    requires st.Cond?
    decreases st, 0
  {
    if take then Hits(st.truth, false, false, ch)
    else if st.els.Some? then Hits(st.els.value, false, code, ch)
    else {}
  }

  function AllHits(stmts: seq<Stmt>, doc: bool, code: bool, ch: seq<bool>): set<string>
    decreases stmts, 0
  {
    if stmts == [] then {}
    else
      var w := Walk(stmts[0], doc, code, ch);
      Hits(stmts[0], doc, code, ch) + if w.Way? then AllHits(stmts[1..], w.doc, w.code, w.rest) else {}
  }

  lemma {:induction false} HitsNamed(st: Stmt, doc: bool, code: bool, ch: seq<bool>)
    ensures Hits(st, doc, code, ch) <= Names(st)
    decreases st, 1
  {
    match st
    case Cond(_, truth, els) =>
      HitsNamed(truth, false, false, ch);
      if els.Some? {
        HitsNamed(els.value, false, code, ch);
      }
      if ch != [] {
        HitsNamed(truth, false, false, ch[1..]);
        if els.Some? {
          HitsNamed(els.value, false, code, ch[1..]);
        }
      }
    case Block(stmts) => AllHitsNamed(stmts, doc, code, ch);
    case Instance(body) => HitsNamed(body, doc, code, ch);
    case _ =>
  }

  lemma {:induction false} AllHitsNamed(stmts: seq<Stmt>, doc: bool, code: bool, ch: seq<bool>)
    ensures AllHits(stmts, doc, code, ch) <= AllNames(stmts)
    decreases stmts, 0
  {
    if stmts != [] {
      HitsNamed(stmts[0], doc, code, ch);
      var w := Walk(stmts[0], doc, code, ch);
      if w.Way? {
        AllHitsNamed(stmts[1..], w.doc, w.code, w.rest);
      }
    }
  }

  /** A line on which just these patterns are found, each with the same groups. */
  function Line(inp: Input, hits: set<string>, groups: seq<string>): Input {
    inp.(host := inp.host.(find := (re, text) => if re in hits then Some(groups) else None))
  }

  /** The play goes the way, unless a statement fails. */
  predicate Goes(m: Played, w: Way) {
    || m.Failed?
    || (&& (w.Clash? ==> m.Parted?) && (w.Over? ==> m.Halted?)
        && (w.Way? ==> m.Together? && AnyTaken(m.doc) == w.doc && AnyTaken(m.code) == w.code))
  }

  lemma {:induction false} Steered(inp: Input, hits: set<string>, groups: seq<string>, st: Stmt, s: State,
                                   doc: History, code: History, ch: seq<bool>)
    requires Askable(st) && Once(st)
    requires hits * Names(st) == Hits(st, AnyTaken(doc), AnyTaken(code), ch)
    ensures Goes(Play(Line(inp, hits, groups), st, s, doc, code), Walk(st, AnyTaken(doc), AnyTaken(code), ch))
    decreases st, 1
  {
    match st
    case Cond(_, _, _) => CondSteered(inp, hits, groups, st, s, doc, code, ch);
    case Block(stmts) => AllSteered(inp, hits, groups, stmts, s, doc, code, ch);
    case Instance(body) => Steered(inp, hits, groups, body, s, doc, code, ch);
    case ExprStmt(_) =>
    case Store(_, _, _) =>
    case Remove(_, _) =>
    case Stop =>
  }

  lemma {:induction false} CondSteered(inp: Input, hits: set<string>, groups: seq<string>, st: Stmt, s: State,
                                       doc: History, code: History, ch: seq<bool>)
    requires st.Cond? && Askable(st) && Once(st)
    requires hits * Names(st) == Hits(st, AnyTaken(doc), AnyTaken(code), ch)
    ensures Goes(Play(Line(inp, hits, groups), st, s, doc, code), Walk(st, AnyTaken(doc), AnyTaken(code), ch))
    decreases st, 0
  {
    var i := Line(inp, hits, groups);
    if IsOtherwise(st.c) {
      if AnyTaken(doc) == AnyTaken(code) {
        assert EvalExpr(i, st.c, s, code) == Val(BoolV(!AnyTaken(code)), s);
        OtherwiseOwned(st, hits, AnyTaken(doc), AnyTaken(code), ch);
        BranchSteered(inp, hits, groups, st, !AnyTaken(code), s, doc, code, ch);
      }
    } else if ch != [] {
      var v := EvalExpr(i, st.c, s, code);
      Owned(st, hits, AnyTaken(doc), AnyTaken(code), ch);
      assert v.Val? && v.p == BoolV(ch[0]);
      BranchSteered(inp, hits, groups, st, ch[0], v.s, doc, code, ch[1..]);
    }
  }

  /** Whether a pattern is found is for its own conditional to say. */
  lemma Owned(st: Stmt, hits: set<string>, doc: bool, code: bool, ch: seq<bool>)
    requires st.Cond? && Once(st) && st.c.Leaf? && st.c.t.Pattern? && ch != []
    requires hits * Names(st) == Hits(st, doc, code, ch)
    ensures st.c.t.re in hits <==> ch[0]
    ensures ch[0] ==> hits * Names(st.truth) == BranchHits(st, true, doc, code, ch[1..])
    ensures !ch[0] && st.els.Some? ==> hits * Names(st.els.value) == BranchHits(st, false, doc, code, ch[1..])
  {
    HitsNamed(st.truth, false, false, ch[1..]);
    if st.els.Some? {
      HitsNamed(st.els.value, false, code, ch[1..]);
    }
    var own, branch := (if ch[0] then OwnName(st.c) else {}), BranchHits(st, ch[0], doc, code, ch[1..]);
    assert hits * Names(st) == own + branch;
    assert st.c.t.re in OwnName(st.c) && st.c.t.re in Names(st);
    var names := if ch[0] then Names(st.truth) else if st.els.Some? then Names(st.els.value) else {};
    assert names <= Names(st) && branch <= names && own !! names;
    assert hits * names == (hits * Names(st)) * names == branch;
  }

  lemma OtherwiseOwned(st: Stmt, hits: set<string>, doc: bool, code: bool, ch: seq<bool>)
    requires st.Cond? && IsOtherwise(st.c) && doc == code
    requires hits * Names(st) == Hits(st, doc, code, ch)
    ensures !code ==> hits * Names(st.truth) == BranchHits(st, true, doc, code, ch)
    ensures code && st.els.Some? ==> hits * Names(st.els.value) == BranchHits(st, false, doc, code, ch)
  {
    HitsNamed(st.truth, false, false, ch);
    if st.els.Some? {
      HitsNamed(st.els.value, false, code, ch);
    }
    var names := if !code then Names(st.truth) else if st.els.Some? then Names(st.els.value) else {};
    assert names <= Names(st);
    assert hits * names == (hits * Names(st)) * names;
  }

  lemma {:induction false} BranchSteered(inp: Input, hits: set<string>, groups: seq<string>, st: Stmt, take: bool, s: State,
                                         doc: History, code: History, ch: seq<bool>)
    requires st.Cond? && Askable(st) && Once(st)
    requires take ==> hits * Names(st.truth) == BranchHits(st, true, AnyTaken(doc), AnyTaken(code), ch)
    requires !take && st.els.Some? ==>
               hits * Names(st.els.value) == BranchHits(st, false, AnyTaken(doc), AnyTaken(code), ch)
    ensures Goes(PlayBranch(Line(inp, hits, groups), st, take, s, doc, code),
                 WalkBranch(st, take, AnyTaken(doc), AnyTaken(code), ch))
    decreases st, -1
  {
    TakenAfter(doc, take);
    TakenAfter(code, take);
    assert !AnyTaken([]);
    if take {
      Steered(inp, hits, groups, st.truth, s, [], [], ch);
    } else if st.els.Some? {
      Steered(inp, hits, groups, st.els.value, s, [], code + [false], ch);
    }
  }

  lemma {:induction false} AllSteered(inp: Input, hits: set<string>, groups: seq<string>, stmts: seq<Stmt>, s: State,
                                      doc: History, code: History, ch: seq<bool>)
    requires AllAskable(stmts) && AllOnce(stmts)
    requires hits * AllNames(stmts) == AllHits(stmts, AnyTaken(doc), AnyTaken(code), ch)
    ensures Goes(PlayAll(Line(inp, hits, groups), stmts, s, doc, code), WalkAll(stmts, AnyTaken(doc), AnyTaken(code), ch))
    decreases stmts, 0
  {
    if stmts != [] {
      var d, c := AnyTaken(doc), AnyTaken(code);
      var first, w := Hits(stmts[0], d, c, ch), Walk(stmts[0], d, c, ch);
      var rest := if w.Way? then AllHits(stmts[1..], w.doc, w.code, w.rest) else {};
      HitsNamed(stmts[0], d, c, ch);
      if w.Way? {
        AllHitsNamed(stmts[1..], w.doc, w.code, w.rest);
      }
      Parts(hits, Names(stmts[0]), AllNames(stmts[1..]), first, rest);
      Steered(inp, hits, groups, stmts[0], s, doc, code, ch);
      var m := Play(Line(inp, hits, groups), stmts[0], s, doc, code);
      if w.Way? && m.Together? {
        AllSteered(inp, hits, groups, stmts[1..], m.s, m.doc, m.code, w.rest);
      }
    }
  }

  lemma Parts(hits: set<string>, a: set<string>, b: set<string>, x: set<string>, y: set<string>)
    requires a !! b && x <= a && y <= b && hits * (a + b) == x + y
    ensures hits * a == x && hits * b == y
  {
    assert hits * a == (hits * (a + b)) * a == (x + y) * a == x;
    assert hits * b == (hits * (a + b)) * b == (x + y) * b == y;
  }

  /**
   Take a program whose conditions are patterns and `otherwise`, no pattern
   deciding twice, and a state from which it does not fail, whichever patterns
   are found.  The scan passes it if and only if there is no line on which the
   two readings come to an `otherwise` and answer it differently.
   */
  lemma PartsExactly(inp: Input, groups: seq<string>, st: Stmt, s: State)
    requires Askable(st) && Once(st)
    requires forall hits :: !ExecStmt(Line(inp, hits, groups), st, s, []).ExecError?
    ensures Follow(st, ENTRY).ok <==> forall hits :: !Play(Line(inp, hits, groups), st, s, [], []).Parted?
  {
    if Follow(st, ENTRY).ok {
      forall hits
        ensures !Play(Line(inp, hits, groups), st, s, [], []).Parted?
      {
        PassesTogether(Line(inp, hits, groups), st, s, [], [], ENTRY);
      }
    } else {
      var doc, code, ch := Scoping.Object(st, ENTRY);
      var hits := Hits(st, false, false, ch);
      assert !AnyTaken([]);
      HitsNamed(st, false, false, ch);
      assert hits * Names(st) == hits;
      Steered(inp, hits, groups, st, s, [], [], ch);
      PlayTells(Line(inp, hits, groups), st, s, [], []);
      assert !ExecStmt(Line(inp, hits, groups), st, s, []).ExecError?;
      assert Play(Line(inp, hits, groups), st, s, [], []).Parted?;
    }
  }
}

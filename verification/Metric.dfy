/**
 A metric's label list as the code keeps it: a slice that is searched, grown
 and shifted in place (`internal/metrics/metric.go`), and the expiry pass that
 ranges over that slice while it shifts (`internal/metrics/store.go`, Gc).
 A datum is named by its address.
 */
module Metric {
  import opened Common
  import opened Labels

  type Row = LabelValue<nat>

  // ---- the operations, on lists and on maps ----

  datatype Op =
    | GetDatum(labels: Tuple, made: nat)
    | RemoveDatum(labels: Tuple)
    | ExpireDatum(labels: Tuple, expiry: int)

  /** `Failed` is the error the caller sees. */
  datatype Reply = Found(datum: nat) | Fine | Failed

  function ListStep(s: seq<Row>, arity: nat, op: Op): (seq<Row>, Reply) {
    if |op.labels| != arity then (s, Failed)
    else
      match op
      case GetDatum(t, made) =>
        (match Find(s, t)
         case Some(i) => (s, Found(s[i].datum))
         case None => (s + [LabelValue(t, made, 0)], Found(made)))
      case RemoveDatum(t) => (Without(s, t), Fine)
      case ExpireDatum(t, e) =>
        match Find(s, t)
        case Some(i) => (s[i := s[i].(expiry := e)], Fine)
        case None => (s, Failed)
  }

  function MapStep(m: map<Tuple, Entry<nat>>, arity: nat, op: Op): (map<Tuple, Entry<nat>>, Reply) {
    if |op.labels| != arity then (m, Failed)
    else
      match op
      case GetDatum(t, made) => if t in m then (m, Found(m[t].datum)) else (m[t := Entry(made, 0)], Found(made))
      case RemoveDatum(t) => (m - {t}, Fine)
      case ExpireDatum(t, e) => if t in m then (m[t := m[t].(expiry := e)], Fine) else (m, Failed)
  }

  /** Each operation keeps tuples distinct and of full length, and does to the map what it says. */
  lemma StepRefines(s: seq<Row>, arity: nat, op: Op)
    requires WellFormed(s, arity)
    ensures var (s', r) := ListStep(s, arity, op);
            WellFormed(s', arity) && (AsMap(s'), r) == MapStep(AsMap(s), arity, op)
  {
    AsMapFind(s, op.labels);
    if |op.labels| == arity {
      match op {
        case GetDatum(t, made) =>
          if Find(s, t).None? {
            AsMapAppend(s, LabelValue(t, made, 0));
          }
        case RemoveDatum(t) =>
          WithoutWellFormed(s, t, arity);
          AsMapWithout(s, t);
        case ExpireDatum(t, e) =>
          if Find(s, t).Some? {
            AsMapUpdate(s, Find(s, t).value, e);
          }
      }
    }
  }

  function ListRun(s: seq<Row>, arity: nat, ops: seq<Op>): (seq<Row>, seq<Reply>)
    decreases |ops|
  {
    if ops == [] then (s, [])
    else
      var (s1, r) := ListStep(s, arity, ops[0]);
      var (s2, rs) := ListRun(s1, arity, ops[1..]);
      (s2, [r] + rs)
  }

  function MapRun(m: map<Tuple, Entry<nat>>, arity: nat, ops: seq<Op>): (map<Tuple, Entry<nat>>, seq<Reply>)
    decreases |ops|
  {
    if ops == [] then (m, [])
    else
      var (m1, r) := MapStep(m, arity, ops[0]);
      var (m2, rs) := MapRun(m1, arity, ops[1..]);
      (m2, [r] + rs)
  }

  /** Over every sequence of operations the list cannot be told from a map. */
  lemma {:induction false} RunRefines(s: seq<Row>, arity: nat, ops: seq<Op>)
    requires WellFormed(s, arity)
    ensures var (s', rs) := ListRun(s, arity, ops);
            WellFormed(s', arity) && (AsMap(s'), rs) == MapRun(AsMap(s), arity, ops)
    decreases |ops|
  {
    if ops != [] {
      StepRefines(s, arity, ops[0]);
      RunRefines(ListStep(s, arity, ops[0]).0, arity, ops[1..]);
    }
  }

  // ---- one expiry pass ----

  /** Time since each datum was last set, at the moment the pass started. */
  type Ages = nat -> int

  predicate Expired(age: Ages, lv: Row) { lv.expiry > 0 && age(lv.datum) > lv.expiry }

  /**
   What one pass leaves.  Removing an entry moves its successor into the
   position just visited, so the successor is passed over; only a last
   successor is seen again, in the slot the shift left behind.
   */
  function Pass(age: Ages, s: seq<Row>): seq<Row>
    decreases |s|
  {
    if s == [] then []
    else if !Expired(age, s[0]) then [s[0]] + Pass(age, s[1..])
    else if |s| == 1 then []
    else if |s| == 2 then if Expired(age, s[1]) then [] else [s[1]]
    else [s[1]] + Pass(age, s[2..])
  }

  function Live(age: Ages, s: seq<Row>): seq<Row> {
    if s == [] then []
    else if Expired(age, s[0]) then Live(age, s[1..])
    else [s[0]] + Live(age, s[1..])
  }

  predicate AnyExpired(age: Ages, s: seq<Row>) { exists i :: 0 <= i < |s| && Expired(age, s[i]) }

  /** `t` is `s` with some entries dropped. */
  predicate Subsequence(t: seq<Row>, s: seq<Row>) {
    if t == [] then true
    else if s == [] then false
    else (t[0] == s[0] && Subsequence(t[1..], s[1..])) || Subsequence(t, s[1..])
  }

  lemma LiveCons(age: Ages, x: Row, s: seq<Row>)
    ensures Live(age, [x] + s) == if Expired(age, x) then Live(age, s) else [x] + Live(age, s)
  {
    assert ([x] + s)[1..] == s;
  }

  /** A pass drops expired entries only, and keeps the rest in order. */
  lemma {:induction false} PassSound(age: Ages, s: seq<Row>)
    ensures Live(age, Pass(age, s)) == Live(age, s)
    ensures Subsequence(Pass(age, s), s)
    decreases |s|
  {
    if s == [] {
    } else if !Expired(age, s[0]) {
      PassSound(age, s[1..]);
      var rest := Pass(age, s[1..]);
      LiveCons(age, s[0], rest);
      assert ([s[0]] + rest)[1..] == rest;
    } else if |s| == 1 {
      assert s[1..] == [];
    } else if |s| == 2 {
      assert s[1..][1..] == [] && s[1..][0] == s[1];
      assert Live(age, s[1..][1..]) == [];
      LiveCons(age, s[1], []);
      assert [s[1]] + [] == [s[1]];
      assert Live(age, s) == Live(age, s[1..]);
      assert !Expired(age, s[1]) ==> Subsequence([s[1]], s[1..]) by { assert [s[1]][1..] == []; }
    } else {
      PassSound(age, s[2..]);
      var rest := Pass(age, s[2..]);
      LiveCons(age, s[1], rest);
      assert s[1..] == [s[1]] + s[2..] && s[1..][1..] == s[2..];
      LiveCons(age, s[1], s[2..]);
      assert ([s[1]] + rest)[1..] == rest;
      assert Subsequence([s[1]] + rest, s[1..]);
    }
  }

  /** An entry lives while it has no expiry, or one it is not older than. */
  predicate Young(age: Ages, x: Row) { x.expiry <= 0 || age(x.datum) <= x.expiry }

  lemma {:induction false} LiveExact(age: Ages, s: seq<Row>, x: Row)
    ensures x in Live(age, s) <==> x in s && Young(age, x)
  {
    if s != [] {
      LiveExact(age, s[1..], x);
    }
  }

  lemma {:induction false} SubsequenceIn(t: seq<Row>, s: seq<Row>, x: Row)
    requires Subsequence(t, s) && x in t
    ensures x in s
  {
    if t[0] == s[0] && Subsequence(t[1..], s[1..]) {
      if x != t[0] {
        SubsequenceIn(t[1..], s[1..], x);
      }
    } else {
      SubsequenceIn(t, s[1..], x);
    }
  }

  /** A pass spares every entry whose time has not come, one without expiry for ever; no pass adds one. */
  lemma PassSpares(age: Ages, s: seq<Row>, x: Row)
    ensures x in s && Young(age, x) ==> x in Pass(age, s)
    ensures x in Pass(age, s) ==> x in s
  {
    PassSound(age, s);
    LiveExact(age, s, x);
    LiveExact(age, Pass(age, s), x);
    if x in Pass(age, s) {
      SubsequenceIn(Pass(age, s), s, x);
    }
  }

  /** If anything has expired, a pass removes something; otherwise it removes nothing. */
  lemma {:induction false} PassProgress(age: Ages, s: seq<Row>)
    ensures |Pass(age, s)| <= |s|
    ensures AnyExpired(age, s) <==> |Pass(age, s)| < |s|
    ensures !AnyExpired(age, s) ==> Pass(age, s) == s == Live(age, s)
    decreases |s|
  {
    if s == [] {
    } else if !Expired(age, s[0]) {
      PassProgress(age, s[1..]);
      assert s == [s[0]] + s[1..];
      if AnyExpired(age, s) {
        var i :| 0 <= i < |s| && Expired(age, s[i]);
        assert Expired(age, s[1..][i - 1]);
      }
    } else {
      if |s| > 2 {
        PassProgress(age, s[2..]);
      }
    }
  }

  function Passes(age: Ages, s: seq<Row>, k: nat): seq<Row>
    decreases k
  {
    if k == 0 then s else Passes(age, Pass(age, s), k - 1)
  }

  /** Repeated passes end with exactly the entries that have not expired. */
  lemma {:induction false} PassesSettle(age: Ages, s: seq<Row>, k: nat)
    requires k >= |s|
    ensures Passes(age, s, k) == Live(age, s)
    decreases k
  {
    PassProgress(age, s);
    PassSound(age, s);
    if k > 0 {
      if AnyExpired(age, s) {
        PassesSettle(age, Pass(age, s), k - 1);
      } else {
        PassesIdle(age, s, k);
      }
    }
  }

  lemma {:induction false} PassesIdle(age: Ages, s: seq<Row>, k: nat)
    requires !AnyExpired(age, s)
    ensures Passes(age, s, k) == s
  {
    PassProgress(age, s);
    if k > 0 {
      PassesIdle(age, s, k - 1);
    }
  }

  /** Two expired entries side by side, the second not the last of the list. */
  predicate Shadowed(age: Ages, s: seq<Row>) {
    exists i :: 0 <= i && i + 2 < |s| && Expired(age, s[i]) && Expired(age, s[i + 1])
  }

  /** One pass clears everything that has expired if and only if no expired entry shadows another. */
  lemma {:induction false} PassComplete(age: Ages, s: seq<Row>)
    ensures Pass(age, s) == Live(age, s) <==> !Shadowed(age, s)
    decreases |s|
  {
    if s == [] {
    } else if !Expired(age, s[0]) {
      PassComplete(age, s[1..]);
      ShadowedRest(age, s, 1);
      assert Pass(age, s)[1..] == Pass(age, s[1..]) && Live(age, s)[1..] == Live(age, s[1..]);
    } else if |s| <= 2 {
      LiveShort(age, s);
    } else if Expired(age, s[1]) {
      assert Shadowed(age, s) by { assert Expired(age, s[0 + 1]); }
      LiveHead(age, s);
    } else {
      PassComplete(age, s[2..]);
      ShadowedRest(age, s, 2);
      assert s[1..][1..] == s[2..] && s[1..][0] == s[1];
      assert Live(age, s) == [s[1]] + Live(age, s[2..]);
      assert Pass(age, s)[1..] == Pass(age, s[2..]) && Live(age, s)[1..] == Live(age, s[2..]);
    }
  }

  /** An entry that has not expired starts no shadow. */
  lemma ShadowedRest(age: Ages, s: seq<Row>, k: nat)
    requires 1 <= k <= 2 && k <= |s| && !Expired(age, s[k - 1])
    ensures Shadowed(age, s) <==> Shadowed(age, s[k..])
  {
    if Shadowed(age, s) {
      var i :| 0 <= i && i + 2 < |s| && Expired(age, s[i]) && Expired(age, s[i + 1]);
      assert s[k..][i - k] == s[i] && s[k..][i - k + 1] == s[i + 1];
    }
    if Shadowed(age, s[k..]) {
      var i :| 0 <= i && i + 2 < |s[k..]| && Expired(age, s[k..][i]) && Expired(age, s[k..][i + 1]);
      assert Expired(age, s[i + k]) && Expired(age, s[(i + k) + 1]);
    }
  }

  lemma LiveShort(age: Ages, s: seq<Row>)
    requires 1 <= |s| <= 2 && Expired(age, s[0])
    ensures Pass(age, s) == Live(age, s)
  {
    if |s| == 2 {
      assert s[1..] == [s[1]] + [];
      LiveCons(age, s[1], []);
    }
  }

  /** Nothing live is expired. */
  lemma {:induction false} LiveHead(age: Ages, s: seq<Row>)
    ensures Live(age, s) != [] ==> !Expired(age, Live(age, s)[0])
  {
    if s != [] && Expired(age, s[0]) {
      LiveHead(age, s[1..]);
    }
  }

  // ---- the slice ----

  class Metric {
    const arity: nat
    /** The backing array, of which the first `n` entries are the slice. */
    var rows: array<Row>
    var n: nat

    ghost predicate Valid()
      reads this, rows
    {
      n <= rows.Length && WellFormed(View(), arity)
    }

    function View(): seq<Row>
      requires n <= rows.Length
      reads this, rows
    {
      rows[..n]
    }

    constructor (arity: nat)
      ensures Valid() && View() == [] && this.arity == arity && fresh(rows)
    {
      this.arity := arity;
      n := 0;
      rows := new Row[0];
    }

    /** Compare label by label, as both searches do. */
    method SameLabels(a: Tuple, b: Tuple) returns (same: bool)
      requires |a| == |b|
      ensures same <==> a == b
    {
      for j := 0 to |a|
        invariant a[..j] == b[..j]
      {
        if a[j] != b[j] {
          return false;
        }
      }
      assert a[..|a|] == a && b[..|b|] == b;
      return true;
    }

    method FindLabelValueOrNil(labels: Tuple) returns (r: Option<nat>)
      requires Valid() && |labels| == arity
      ensures r == Find(View(), labels)
    {
      for i := 0 to n
        invariant forall k :: 0 <= k < i ==> rows[k].labels != labels
      {
        assert View()[i] == rows[i];
        var same := SameLabels(rows[i].labels, labels);
        if same {
          FindFirst(View(), labels, i);
          return Some(i);
        }
      }
      FindNone(View(), labels);
      return Option.None;
    }

    method GetDatum(labels: Tuple, made: nat) returns (d: Reply)
      requires Valid()
      modifies this, rows
      ensures Valid() && (rows == old(rows) || fresh(rows))
      ensures (View(), d) == ListStep(old(View()), arity, Op.GetDatum(labels, made))
    {
      StepRefines(View(), arity, Op.GetDatum(labels, made));
      if |labels| != arity {
        return Failed;
      }
      var i := FindLabelValueOrNil(labels);
      if i.Some? {
        return Found(rows[i.value].datum);
      }
      Append(LabelValue(labels, made, 0));
      d := Found(made);
    }

    /** Go's append: reuse the backing array while there is room. */
    method Append(lv: Row)
      requires n <= rows.Length
      modifies this, rows
      ensures n <= rows.Length && View() == old(View()) + [lv]
      ensures rows == old(rows) || fresh(rows)
    {
      if n == rows.Length {
        var bigger := new Row[2 * n + 1];
        for k := 0 to n
          invariant n == old(n) == rows.Length && rows == old(rows) && bigger != rows
          invariant rows[..] == old(rows[..])
          invariant bigger[..k] == rows[..k]
        {
          bigger[k] := rows[k];
        }
        rows := bigger;
      }
      rows[n] := lv;
      n := n + 1;
    }

    /**
     Remove in place.  The loop keeps ranging over the slice as it was, so
     after the removal it reads shifted entries and, last, a stale one.
     */
    method RemoveDatum(labels: Tuple) returns (r: Reply)
      requires Valid()
      modifies this`n, rows
      ensures Valid() && rows == old(rows)
      ensures (View(), r) == ListStep(old(View()), arity, Op.RemoveDatum(labels))
      ensures forall k :: n <= k < rows.Length ==> rows[k] == old(rows[k])
    {
      hide WellFormed;
      hide Cut;
      hide Find;
      ghost var s := View();
      StepRefines(s, arity, Op.RemoveDatum(labels));
      if |labels| != arity {
        return Failed;
      }
      var ranged := n;
      for i := 0 to ranged
        invariant rows == old(rows) && n <= ranged == |s| <= rows.Length
        invariant forall k :: n <= k < rows.Length ==> rows[k] == old(rows[k])
        invariant n == ranged ==> View() == s && forall k :: 0 <= k < i ==> s[k].labels != labels
        invariant n < ranged ==> n == ranged - 1 && Cut(s, labels, View(), i)
      {
        assert rows[i] == if i < n then View()[i] else s[i];
        if n < ranged {
          CutRead(s, labels, View(), i, arity, rows[i]);
        } else {
          WideAt(s, i, arity);
        }
        var same := SameLabels(rows[i].labels, labels);
        if same {
          Shift(i);
          CutMade(s, labels, i);
        }
      }
      if n < ranged {
        CutIsWithout(s, labels, View(), ranged, arity);
      } else {
        WithoutAbsent(s, labels);
      }
      r := Fine;
    }

    /** `append(s[:i], s[i+1:]...)`. */
    method Shift(i: nat)
      requires i < n <= rows.Length
      modifies this`n, rows
      ensures n == old(n) - 1 && View() == old(View())[..i] + old(View())[i + 1..]
      ensures forall k :: n <= k < rows.Length ==> rows[k] == old(rows[k])
    {
      forall k | i <= k < n - 1 {
        rows[k] := rows[k + 1];
      }
      n := n - 1;
    }

    method ExpireDatum(labels: Tuple, expiry: int) returns (r: Reply)
      requires Valid()
      modifies rows
      ensures Valid()
      ensures (View(), r) == ListStep(old(View()), arity, Op.ExpireDatum(labels, expiry))
    {
      StepRefines(View(), arity, Op.ExpireDatum(labels, expiry));
      if |labels| != arity {
        return Failed;
      }
      var i := FindLabelValueOrNil(labels);
      if i.Some? {
        rows[i.value] := rows[i.value].(expiry := expiry);
        assert View() == old(View())[i.value := old(View())[i.value].(expiry := expiry)];
        return Fine;
      }
      return Failed;
    }

    /** One pass of Gc over this metric, ranging over the slice as it was at the start. */
    method ExpirePass(age: Ages)
      requires Valid()
      modifies this`n, rows
      ensures Valid() && rows == old(rows)
      ensures View() == Pass(age, old(View()))
    {
      hide WellFormed;
      hide Sweeping;
      hide Find;
      hide Pass;
      hide Without;
      ghost var target := Pass(age, View());
      SweepStart(age, View());
      var ranged := n;
      assert rows[n..ranged] == [];
      for i := 0 to ranged
        invariant Valid() && rows == old(rows) && n <= ranged
        invariant forall k :: n <= k < ranged ==> |rows[k].labels| == arity
        invariant Sweeping(age, View(), rows[n..ranged], i, target)
      {
        var lv := rows[i];
        ghost var view, stale := View(), rows[n..ranged];
        assert lv == Visited(view, stale, i);
        WithoutMembers(view, lv.labels);
        if lv.expiry > 0 && age(lv.datum) > lv.expiry {
          WideView(view, arity);
          assert |lv.labels| == arity;
          var ok := RemoveDatum(lv.labels);
          assert rows[n..ranged] == view[n..] + stale;
        }
        SweepStep(age, view, stale, View(), rows[n..ranged], i, target, arity);
      }
      SweepEnd(age, View(), rows[n..ranged], target);
    }
  }

  lemma {:induction false} FindFirst(s: seq<Row>, t: Tuple, i: nat)
    requires i < |s| && s[i].labels == t && forall k :: 0 <= k < i ==> s[k].labels != t
    ensures Find(s, t) == Some(i)
  {
    if i > 0 {
      FindFirst(s[1..], t, i - 1);
    }
  }

  lemma FindNone(s: seq<Row>, t: Tuple)
    requires forall k :: 0 <= k < |s| ==> s[k].labels != t
    ensures Find(s, t) == Option.None
  {
  }

  /** The entry carrying `t` was cut out at a position the loop has passed. */
  ghost predicate Cut(s: seq<Row>, t: Tuple, view: seq<Row>, i: nat) {
    exists p :: 0 <= p < i && p < |s| && s[p].labels == t && view == s[..p] + s[p + 1..]
  }

  /** Tuples are distinct, so after the cut nothing the loop still reads carries `t`. */
  lemma CutRead(s: seq<Row>, t: Tuple, view: seq<Row>, i: nat, arity: nat, x: Row)
    requires WellFormed(s, arity) && Cut(s, t, view, i) && |view| == |s| - 1 && i < |s|
    requires x == if i < |view| then view[i] else s[i]
    ensures x.labels != t && |x.labels| == arity && Cut(s, t, view, i + 1)
  {
    var p :| 0 <= p < i && p < |s| && s[p].labels == t && view == s[..p] + s[p + 1..];
    if i < |view| {
      assert view[i] == s[i + 1];
    }
  }

  lemma CutMade(s: seq<Row>, t: Tuple, i: nat)
    requires i < |s| && s[i].labels == t
    ensures Cut(s, t, s[..i] + s[i + 1..], i + 1)
  {
  }

  lemma WideView(s: seq<Row>, arity: nat)
    requires WellFormed(s, arity)
    ensures forall k :: 0 <= k < |s| ==> |s[k].labels| == arity
  {
  }

  lemma WideAt(s: seq<Row>, i: nat, arity: nat)
    requires WellFormed(s, arity) && i < |s|
    ensures |s[i].labels| == arity
  {
  }

  lemma {:induction false} WithoutAbsent(s: seq<Row>, t: Tuple)
    requires forall k :: 0 <= k < |s| ==> s[k].labels != t
    ensures Without(s, t) == s
  {
    if s != [] {
      WithoutAbsent(s[1..], t);
    }
  }

  lemma CutIsWithout(s: seq<Row>, t: Tuple, view: seq<Row>, i: nat, arity: nat)
    requires Cut(s, t, view, i) && WellFormed(s, arity)
    ensures view == Without(s, t)
  {
    var p :| 0 <= p < i && p < |s| && s[p].labels == t && view == s[..p] + s[p + 1..];
    WithoutIndex(s, p, arity);
  }

  // ---- ranging over a slice that shifts ----

  /** What the loop reads at position `i`: the slice, then the slots behind it. */
  ghost function Visited(view: seq<Row>, stale: seq<Row>, i: nat): Row
    requires i < |view| + |stale|
  {
    if i < |view| then view[i] else stale[i - |view|]
  }

  /**
   The state of the pass at position `i`: what is still to come of `target`,
   and the slots behind the slice, which all hold the entry that was last
   when the slice shrank.
   */
  ghost predicate Sweeping(age: Ages, view: seq<Row>, stale: seq<Row>, i: nat, target: seq<Row>) {
    && (forall k :: 0 <= k < |stale| ==> stale[k] == stale[0])
    && if i < |view| then
         target == view[..i] + Pass(age, view[i..]) && (stale != [] ==> stale[0] == view[|view| - 1])
       else if stale == [] then target == view
       else
         || (target == view && (Expired(age, stale[0]) ==> forall k :: 0 <= k < |view| ==> view[k].labels != stale[0].labels))
         || (view != [] && i == |view| && stale[0] == view[i - 1] && Expired(age, stale[0]) && target == view[..i - 1])
  }

  lemma SweepStart(age: Ages, s: seq<Row>)
    ensures Sweeping(age, s, [], 0, Pass(age, s))
  {
    assert s[..0] + Pass(age, s[0..]) == Pass(age, s);
  }

  lemma SweepEnd(age: Ages, view: seq<Row>, stale: seq<Row>, target: seq<Row>)
    requires Sweeping(age, view, stale, |view| + |stale|, target)
    ensures view == target
  {
  }

  /** Removing the entry at `i` of a list of distinct tuples. */
  lemma WithoutIndex(view: seq<Row>, i: nat, arity: nat)
    requires WellFormed(view, arity) && i < |view|
    ensures Without(view, view[i].labels) == view[..i] + view[i + 1..]
    ensures forall k :: 0 <= k < |view| && k != i ==> view[k].labels != view[i].labels
  {
    WithoutAt(view, view[i].labels);
    FindFirst(view, view[i].labels, i);
  }

  lemma SweepStep(age: Ages, view: seq<Row>, stale: seq<Row>, view': seq<Row>, stale': seq<Row>,
                  i: nat, target: seq<Row>, arity: nat)
    requires WellFormed(view, arity) && i < |view| + |stale| && Sweeping(age, view, stale, i, target)
    requires var lv := Visited(view, stale, i);
             if Expired(age, lv) then
               view' == Without(view, lv.labels) && |view'| <= |view| && stale' == view[|view'|..] + stale
             else view' == view && stale' == stale
    ensures Sweeping(age, view', stale', i + 1, target)
  {
    hide Sweeping;
    hide Pass;
    var lv := Visited(view, stale, i);
    if i < |view| {
      if Expired(age, lv) {
        WithoutIndex(view, i, arity);
        SweepCut(age, view, stale, i, target);
        LastOf(view, |view'|);
      } else {
        SweepKeep(age, view, stale, i, target);
      }
    } else if Expired(age, lv) {
      SweepBehind(age, view, stale, view', stale', i, target, arity);
    } else {
      SweepPast(age, view, stale, i, target);
    }
  }

  lemma LastOf(view: seq<Row>, n: nat)
    requires n + 1 == |view|
    ensures view[n..] == [view[n]]
  {
  }

  lemma SweepPast(age: Ages, view: seq<Row>, stale: seq<Row>, i: nat, target: seq<Row>)
    requires |view| <= i < |view| + |stale| && Sweeping(age, view, stale, i, target) && !Expired(age, stale[i - |view|])
    ensures Sweeping(age, view, stale, i + 1, target)
  {
  }

  /** An expired entry met behind the slice: gone already, or the last one of the slice. */
  lemma SweepBehind(age: Ages, view: seq<Row>, stale: seq<Row>, view': seq<Row>, stale': seq<Row>,
                    i: nat, target: seq<Row>, arity: nat)
    requires WellFormed(view, arity) && |view| <= i < |view| + |stale| && Sweeping(age, view, stale, i, target)
    requires var x := stale[i - |view|];
             Expired(age, x) && view' == Without(view, x.labels) && |view'| <= |view| && stale' == view[|view'|..] + stale
    ensures Sweeping(age, view', stale', i + 1, target)
  {
    var x := stale[i - |view|];
    assert x == stale[0];
    if forall k :: 0 <= k < |view| ==> view[k].labels != x.labels {
      WithoutAbsent(view, x.labels);
      assert view[|view|..] == [];
      assert stale' == stale && view' == view;
    } else {
      SweepLast(age, view, stale, i, target, arity);
      assert view[i..] == [];
      assert view' == view[..i - 1];
      LastOf(view, i - 1);
    }
  }

  lemma SweepLast(age: Ages, view: seq<Row>, stale: seq<Row>, i: nat, target: seq<Row>, arity: nat)
    requires WellFormed(view, arity) && 0 < |view| == i && stale != [] && stale[0] == view[i - 1]
    requires target == view[..i - 1] && forall k :: 0 <= k < |stale| ==> stale[k] == stale[0]
    ensures Without(view, stale[0].labels) == view[..i - 1] + view[i..]
    ensures Sweeping(age, view[..i - 1], [view[i - 1]] + stale, i + 1, target)
  {
    WithoutIndex(view, i - 1, arity);
    hide WellFormed;
    var stale' := [view[i - 1]] + stale;
    assert forall k :: 0 <= k < |stale'| ==> stale'[k] == stale'[0] by {
      assert forall k :: 0 < k < |stale'| ==> stale'[k] == stale[k - 1];
    }
    assert forall k :: 0 <= k < i - 1 ==> view[..i - 1][k] == view[k];
  }

  lemma SweepKeep(age: Ages, view: seq<Row>, stale: seq<Row>, i: nat, target: seq<Row>)
    requires i < |view| && Sweeping(age, view, stale, i, target) && !Expired(age, view[i])
    ensures Sweeping(age, view, stale, i + 1, target)
  {
    var rest := view[i..];
    assert rest[1..] == view[i + 1..] && view[..i] + [view[i]] == view[..i + 1];
    assert target == view[..i + 1] + Pass(age, view[i + 1..]);
    if i + 1 == |view| {
      assert view[..i + 1] == view && Pass(age, view[i + 1..]) == [];
    }
  }

  lemma SweepCut(age: Ages, view: seq<Row>, stale: seq<Row>, i: nat, target: seq<Row>)
    requires i < |view| && Sweeping(age, view, stale, i, target) && Expired(age, view[i])
    requires forall k :: 0 <= k < |view| && k != i ==> view[k].labels != view[i].labels
    ensures Sweeping(age, view[..i] + view[i + 1..], [view[|view| - 1]] + stale, i + 1, target)
  {
    hide Expired, Pass;
    var view' := view[..i] + view[i + 1..];
    var n := |view'|;
    var stale' := [view[n]] + stale;
    assert forall k :: 0 <= k < |stale'| ==> stale'[k] == stale'[0] by {
      assert forall k :: 0 < k < |stale'| ==> stale'[k] == stale[k - 1];
    }
    PassCut(age, view, i);
    if i + 1 == |view| {
      assert forall k :: 0 <= k < |view'| ==> view'[k] == view[k];
    } else {
      assert view'[n - 1] == view[n];
    }
  }

  lemma PassCut(age: Ages, view: seq<Row>, i: nat)
    requires i < |view| && Expired(age, view[i])
    ensures var view', target := view[..i] + view[i + 1..], view[..i] + Pass(age, view[i..]);
            if i + 1 == |view| then target == view'
            else if i + 2 == |view| then target == if Expired(age, view[i + 1]) then view'[..i] else view'
            else target == view'[..i + 1] + Pass(age, view'[i + 1..])
  {
    var rest := view[i..];
    var view' := view[..i] + view[i + 1..];
    if |rest| == 1 {
      assert view[i + 1..] == [];
    } else if |rest| == 2 {
      assert rest[1] == view[i + 1] && view[i + 1..] == [view[i + 1]] && view'[..i] == view[..i];
    } else {
      assert rest[1] == view[i + 1] && rest[2..] == view[i + 2..];
      assert view'[..i + 1] == view[..i] + [view[i + 1]] && view'[i + 1..] == view[i + 2..];
    }
  }
}

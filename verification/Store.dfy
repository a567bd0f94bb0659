/**
 The metric store (`internal/metrics/store.go`): adding a metric, which on
 reload replaces the one the previous version of the program left behind and
 takes over its data.
 */
module Store {
  import opened Common
  import opened Labels

  type Row = LabelValue<nat>

  datatype Kind = Counter | Gauge | Timer | Text | Histogram

  datatype Type = Int | Float | String | Buckets

  datatype Metric = Metric(
    name: string, program: string, kind: Kind, typ: Type, source: string,
    keys: seq<string>, rows: seq<Row>)

  /** What makes a new metric the successor of an old one of its name. */
  predicate Same(a: Metric, b: Metric) {
    a.program == b.program && a.typ == b.typ && a.source == b.source
  }

  // ---- what Add does, on values ----

  /** The new rows after each old row in turn took its tuple over, without its expiry. */
  function Merged(olds: seq<Row>, rows: seq<Row>): seq<Row> {
    if olds == [] then rows
    else Merged(olds[1..], Without(rows, olds[0].labels) + [LabelValue(olds[0].labels, olds[0].datum, 0)])
  }

  function Others(list: seq<Metric>, m: Metric): seq<Metric> {
    if list == [] then []
    else if Same(list[0], m) then Others(list[1..], m)
    else [list[0]] + Others(list[1..], m)
  }

  function Predecessor(list: seq<Metric>, m: Metric): Option<Metric> {
    if list == [] then None
    else if Same(list[0], m) then Some(list[0])
    else Predecessor(list[1..], m)
  }

  /** The metric as it ends up in the store. */
  function Adopted(list: seq<Metric>, m: Metric): Metric {
    match Predecessor(list, m)
    case Some(v) => if v.keys == m.keys then m.(rows := Merged(v.rows, m.rows)) else m
    case None => m
  }

  type Contents = map<string, seq<Metric>>

  function Named(c: Contents, name: string): seq<Metric> { if name in c then c[name] else [] }

  /** None if the kind clashes with what the name already has. */
  function Added(c: Contents, m: Metric): Option<Contents> {
    var list := Named(c, m.name);
    if list != [] && list[0].kind != m.kind then None
    else Some(c[m.name := Others(list, m) + [Adopted(list, m)]])
  }

  // ---- invariants ----

  /** Its tuples are distinct and have one value per key. */
  ghost predicate Sound(m: Metric) { WellFormed(m.rows, |m.keys|) }

  /** One name: one kind, and at most one metric per program, type and source. */
  ghost predicate Consistent(list: seq<Metric>, name: string) {
    && (forall i :: 0 <= i < |list| ==> list[i].name == name && list[i].kind == list[0].kind && Sound(list[i]))
    && (forall i, j :: 0 <= i < j < |list| ==> !Same(list[i], list[j]))
  }

  ghost predicate Valid(c: Contents) { forall name :: name in c ==> Consistent(c[name], name) }

  lemma {:induction false} OthersMembers(list: seq<Metric>, m: Metric)
    ensures forall i :: 0 <= i < |Others(list, m)| ==> Others(list, m)[i] in list && !Same(Others(list, m)[i], m)
  {
    if list != [] {
      OthersMembers(list[1..], m);
    }
  }

  lemma {:induction false} OthersDistinct(list: seq<Metric>, m: Metric)
    requires forall i, j :: 0 <= i < j < |list| ==> !Same(list[i], list[j])
    ensures forall i, j :: 0 <= i < j < |Others(list, m)| ==> !Same(Others(list, m)[i], Others(list, m)[j])
  {
    if list != [] {
      OthersDistinct(list[1..], m);
      OthersMembers(list[1..], m);
      var rest := Others(list[1..], m);
      forall j | 0 <= j < |rest|
        ensures !Same(list[0], rest[j])
      {
        var k :| 0 <= k < |list[1..]| && list[1..][k] == rest[j];
        assert list[k + 1] == rest[j];
      }
    }
  }

  /** The predecessor is the one entry left out. */
  lemma {:induction false} OthersAt(list: seq<Metric>, m: Metric, d: nat)
    requires d < |list| && Same(list[d], m)
    requires forall i, j :: 0 <= i < j < |list| ==> !Same(list[i], list[j])
    ensures Others(list, m) == list[..d] + list[d + 1..] && Predecessor(list, m) == Some(list[d])
  {
    if d == 0 {
      OthersNone(list[1..], m);
    } else {
      assert !Same(list[0], list[d]);
      OthersAt(list[1..], m, d - 1);
    }
  }

  lemma {:induction false} OthersNone(list: seq<Metric>, m: Metric)
    requires forall i :: 0 <= i < |list| ==> !Same(list[i], m)
    ensures Others(list, m) == list && Predecessor(list, m) == None
  {
    if list != [] {
      OthersNone(list[1..], m);
    }
  }

  /** An Add succeeds exactly when every metric already of that name has the same kind. */
  lemma AddedUnlessClash(c: Contents, m: Metric)
    requires Valid(c)
    ensures Added(c, m).Some? <==> forall v :: v in Named(c, m.name) ==> v.kind == m.kind
  {
    var list := Named(c, m.name);
    if list != [] {
      assert list[0] in list;
      forall v | v in list ensures v.kind == list[0].kind {
        var i :| 0 <= i < |list| && list[i] == v;
      }
    }
  }

  // ---- merging ----

  /** One step of the merge keeps tuples distinct and rebinds one tuple. */
  lemma TakeOver(rows: seq<Row>, prev: Row, arity: nat)
    requires WellFormed(rows, arity) && |prev.labels| == arity
    ensures var r := Without(rows, prev.labels) + [LabelValue(prev.labels, prev.datum, 0)];
            WellFormed(r, arity) && AsMap(r) == AsMap(rows)[prev.labels := Entry(prev.datum, 0)]
  {
    WithoutWellFormed(rows, prev.labels, arity);
    WithoutMembers(rows, prev.labels);
    AsMapWithout(rows, prev.labels);
    AsMapAppend(Without(rows, prev.labels), LabelValue(prev.labels, prev.datum, 0));
  }

  /** What the merged list means: old data for every old tuple, the new metric's own for the rest. */
  function Overlay(olds: seq<Row>, own: map<Tuple, Entry<nat>>): map<Tuple, Entry<nat>> {
    map t | t in own.Keys + AsMap(olds).Keys ::
      if t in AsMap(olds) then Entry(AsMap(olds)[t].datum, 0) else own[t]
  }

  lemma {:induction false} MergedMeaning(olds: seq<Row>, rows: seq<Row>, arity: nat)
    requires WellFormed(olds, arity) && WellFormed(rows, arity)
    ensures WellFormed(Merged(olds, rows), arity)
    ensures AsMap(Merged(olds, rows)) == Overlay(olds, AsMap(rows))
    decreases |olds|
  {
    if olds == [] {
      assert Overlay(olds, AsMap(rows)) == AsMap(rows);
    } else {
      var o := olds[0];
      var next := Without(rows, o.labels) + [LabelValue(o.labels, o.datum, 0)];
      TakeOver(rows, o, arity);
      MergedMeaning(olds[1..], next, arity);
      hide WellFormed;
      OverlayStep(olds, AsMap(rows), arity);
    }
  }

  lemma OverlayStep(olds: seq<Row>, own: map<Tuple, Entry<nat>>, arity: nat)
    requires olds != [] && WellFormed(olds, arity)
    ensures Overlay(olds[1..], own[olds[0].labels := Entry(olds[0].datum, 0)]) == Overlay(olds, own)
  {
    var o := olds[0];
    AsMapKeys(olds[1..], o.labels);
    assert o.labels !in AsMap(olds[1..]);
    assert AsMap(olds) == AsMap(olds[1..])[o.labels := Entry(o.datum, o.expiry)];
  }

  /** Every Add, from any valid store, leaves a valid store; the kind of a name never changes. */
  lemma AddedValid(c: Contents, m: Metric)
    requires Valid(c) && Sound(m) && Added(c, m).Some?
    ensures Valid(Added(c, m).value)
    ensures forall name :: name in c && c[name] != [] ==>
              Named(Added(c, m).value, name) != [] && Named(Added(c, m).value, name)[0].kind == c[name][0].kind
  {
    var list := Named(c, m.name);
    var others, a := Others(list, m), Adopted(list, m);
    assert Consistent(list, m.name);
    OthersMembers(list, m);
    OthersDistinct(list, m);
    AdoptedSound(list, m);
    forall i | 0 <= i < |others|
      ensures others[i].name == m.name && others[i].kind == m.kind && Sound(others[i])
    {
      var k :| 0 <= k < |list| && list[k] == others[i];
    }
    assert Consistent(others + [a], m.name);
  }

  lemma {:induction false} PredecessorIn(list: seq<Metric>, m: Metric)
    requires Predecessor(list, m).Some?
    ensures Predecessor(list, m).value in list
  {
    if !Same(list[0], m) {
      PredecessorIn(list[1..], m);
    }
  }

  lemma AdoptedSound(list: seq<Metric>, m: Metric)
    requires Consistent(list, m.name) && Sound(m)
    ensures Sound(Adopted(list, m))
  {
    if Predecessor(list, m).Some? {
      PredecessorIn(list, m);
      var v := Predecessor(list, m).value;
      if v.keys == m.keys {
        MergedMeaning(v.rows, m.rows, |m.keys|);
      }
    }
  }

  /** The metric of this identity, if the store has it. */
  function Current(c: Contents, id: Metric): Option<Metric> { Predecessor(Named(c, id.name), id) }

  /** After an Add the store holds the new metric, with the old data where the keys agree. */
  lemma AddedCurrent(c: Contents, m: Metric)
    requires Valid(c) && Sound(m) && Added(c, m).Some?
    ensures var now := Current(Added(c, m).value, m);
            && now.Some? && now.value.(rows := []) == m.(rows := [])
            && AsMap(now.value.rows) ==
               match Current(c, m)
               case Some(v) => if v.keys == m.keys then Overlay(v.rows, AsMap(m.rows)) else AsMap(m.rows)
               case None => AsMap(m.rows)
  {
    var list := Named(c, m.name);
    assert Consistent(list, m.name);
    if Predecessor(list, m).Some? {
      PredecessorIn(list, m);
      var v := Predecessor(list, m).value;
      if v.keys == m.keys {
        MergedMeaning(v.rows, m.rows, |m.keys|);
      }
    }
    OthersMembers(list, m);
    PredecessorLast(Others(list, m), Adopted(list, m), m);
  }

  lemma {:induction false} PredecessorLast(list: seq<Metric>, a: Metric, m: Metric)
    requires forall i :: 0 <= i < |list| ==> !Same(list[i], m)
    requires Same(a, m)
    ensures Predecessor(list + [a], m) == Some(a)
  {
    if list != [] {
      assert (list + [a])[1..] == list[1..] + [a];
      PredecessorLast(list[1..], a, m);
    }
  }

  /** Metrics of other identities are not touched. */
  lemma AddedOthers(c: Contents, m: Metric, id: Metric)
    requires Valid(c) && Added(c, m).Some? && !(id.name == m.name && Same(id, m))
    ensures Current(Added(c, m).value, id) == Current(c, id)
  {
    if id.name == m.name {
      PredecessorOthers(Named(c, m.name), m, Adopted(Named(c, m.name), m), id);
    }
  }

  lemma {:induction false} PredecessorOthers(list: seq<Metric>, m: Metric, a: Metric, id: Metric)
    requires !Same(id, m) && Same(a, m)
    ensures Predecessor(Others(list, m) + [a], id) == Predecessor(list, id)
  {
    if list == [] {
      assert Others(list, m) + [a] == [a] && [a][1..] == [];
      assert Predecessor([a][1..], id) == None;
    } else {
      PredecessorOthers(list[1..], m, a, id);
      if !Same(list[0], m) {
        assert (Others(list, m) + [a])[1..] == Others(list[1..], m) + [a];
      }
    }
  }

  // ---- over any number of reloads ----

  function AddAll(c: Contents, ms: seq<Metric>): Contents
    decreases |ms|
  {
    if ms == [] then c
    else AddAll(match Added(c, ms[0]) case Some(c1) => c1 case None => c, ms[1..])
  }

  /** The datum a metric holds for a tuple. */
  function DatumOf(c: Contents, id: Metric, t: Tuple): Option<nat> {
    match Current(c, id)
    case None => None
    case Some(v) => if t in AsMap(v.rows) then Some(AsMap(v.rows)[t].datum) else None
  }

  /**
   A tuple keeps its datum across every sequence of Adds, successful or not,
   as long as each version of its metric has the same keys.
   */
  lemma {:induction false} DataSurvive(c: Contents, ms: seq<Metric>, id: Metric, t: Tuple)
    requires Valid(c) && DatumOf(c, id, t).Some?
    requires Current(c, id).value.keys == id.keys
    requires forall i :: 0 <= i < |ms| ==> Sound(ms[i]) && (ms[i].name == id.name && Same(id, ms[i]) ==> ms[i].keys == id.keys)
    ensures Valid(AddAll(c, ms)) && DatumOf(AddAll(c, ms), id, t) == DatumOf(c, id, t)
    decreases |ms|
  {
    if ms != [] {
      var m := ms[0];
      if Added(c, m).Some? {
        AddedValid(c, m);
        SurviveOne(c, m, id, t);
        DataSurvive(Added(c, m).value, ms[1..], id, t);
      } else {
        DataSurvive(c, ms[1..], id, t);
      }
    }
  }

  lemma {:induction false} PredecessorSame(list: seq<Metric>, a: Metric, b: Metric)
    requires Same(a, b)
    ensures Predecessor(list, a) == Predecessor(list, b)
  {
    if list != [] {
      PredecessorSame(list[1..], a, b);
    }
  }

  lemma SurviveOne(c: Contents, m: Metric, id: Metric, t: Tuple)
    requires Valid(c) && DatumOf(c, id, t).Some? && Current(c, id).value.keys == id.keys
    requires Sound(m) && (m.name == id.name && Same(id, m) ==> m.keys == id.keys) && Added(c, m).Some?
    ensures var c' := Added(c, m).value;
            DatumOf(c', id, t) == DatumOf(c, id, t) && Current(c', id).value.keys == id.keys
  {
    if m.name == id.name && Same(id, m) {
      AddedCurrent(c, m);
      PredecessorSame(Named(c, m.name), id, m);
      PredecessorSame(Named(Added(c, m).value, m.name), id, m);
    } else {
      AddedOthers(c, m, id);
    }
  }

  /** What is lost: the expiry of a tuple does not survive even one reload. */
  lemma ExpiryForgotten(c: Contents, m: Metric, t: Tuple)
    requires Valid(c) && Sound(m) && Added(c, m).Some? && DatumOf(c, m, t).Some?
    requires Current(c, m).value.keys == m.keys
    ensures DatumOf(Added(c, m).value, m, t) == DatumOf(c, m, t)
    ensures AsMap(Current(Added(c, m).value, m).value.rows)[t].expiry == 0
  {
    AddedCurrent(c, m);
  }

  // ---- the store ----

  /** The first metric of the list that the program owns. */
  ghost predicate FirstOf(list: seq<Metric>, prog: string, m: Metric) {
    exists i :: 0 <= i < |list| && list[i] == m && m.program == prog
                && (forall k :: 0 <= k < i ==> list[k].program != prog)
  }

  class Store {
    var metrics: map<string, seq<Metric>>

    constructor ()
      ensures metrics == map[] && Valid(metrics)
    {
      metrics := map[];
    }

    /** Add one metric; false is the error, which leaves the store alone. */
    method Add(m: Metric) returns (ok: bool)
      requires Valid(metrics) && Sound(m)
      modifies this
      ensures Valid(metrics)
      ensures ok <==> Added(old(metrics), m).Some?
      ensures metrics == if ok then Added(old(metrics), m).value else old(metrics)
    {
      var list := Named(metrics, m.name);
      if list != [] && list[0].kind != m.kind {
        return false;
      }
      AddedValid(metrics, m);
      assert Consistent(list, m.name);
      var dupe := -1;
      var added := m;
      for i := 0 to |list|
        invariant metrics == old(metrics)
        invariant dupe == -1 ==> added == m && forall k :: 0 <= k < i ==> !Same(list[k], m)
        invariant dupe >= 0 ==> dupe < i && Same(list[dupe], m) && added == Adopted(list, m)
      {
        var v := list[i];
        if v.program != m.program || v.typ != m.typ || v.source != m.source {
          continue;
        }
        assert forall k :: 0 <= k < i ==> !Same(list[k], list[i]);
        OthersAt(list, m, i);
        dupe := i;
        if |v.keys| != |m.keys| || v.keys != m.keys {
          break;
        }
        assert Sound(v);
        var rows := Merge(v.rows, added.rows, |m.keys|);
        added := added.(rows := rows);
      }
      if dupe >= 0 {
        OthersAt(list, m, dupe);
      } else {
        OthersNone(list, m);
      }
      var all := list + [added];
      if dupe >= 0 {
        all := all[0..dupe] + all[dupe + 1..];
        assert all == list[..dupe] + list[dupe + 1..] + [added];
      }
      assert all == Others(list, m) + [Adopted(list, m)];
      metrics := metrics[m.name := all];
      ok := true;
    }

    /** The loop copying old rows into the new metric. */
    static method Merge(olds: seq<Row>, own: seq<Row>, arity: nat) returns (rows: seq<Row>)
      requires WellFormed(olds, arity) && WellFormed(own, arity)
      ensures rows == Merged(olds, own)
    {
      rows := own;
      for j := 0 to |olds|
        invariant WellFormed(rows, arity) && Merged(olds[j..], rows) == Merged(olds, own)
      {
        var prev := olds[j];
        TakeOver(rows, prev, arity);
        rows := Without(rows, prev.labels) + [LabelValue(prev.labels, prev.datum, 0)];
        assert olds[j..][1..] == olds[j + 1..] && olds[j..][0] == prev;
      }
    }

    /** The first metric of a name that a program owns. */
    method FindMetricOrNil(name: string, prog: string) returns (r: Option<Metric>)
      requires Valid(metrics)
      ensures r.Some? <==> exists i :: 0 <= i < |Named(metrics, name)| && Named(metrics, name)[i].program == prog
      ensures r.Some? ==> r.value.name == name && FirstOf(Named(metrics, name), prog, r.value)
    {
      if name !in metrics {
        return None;
      }
      var list := metrics[name];
      assert Consistent(list, name);
      for i := 0 to |list|
        invariant forall k :: 0 <= k < i ==> list[k].program != prog
      {
        if list[i].program == prog {
          assert Named(metrics, name)[i].program == prog;
          return Some(list[i]);
        }
      }
      return None;
    }
  }
}

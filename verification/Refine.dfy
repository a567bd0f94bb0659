/**
 The machine's storage (label lists pointing into a heap of datums) against
 the evaluator's plain tables.
 */
module Refine {
  import opened Common
  import opened Machine
  import opened Semantics
  import L = Labels

  /** The heap addresses metric `m` names. */
  function Names(st: Storage, m: nat): map<seq<string>, L.Entry<nat>>
    requires m < |st.metrics|
  {
    L.AsMap(st.metrics[m].lvs)
  }

  predicate Bound(st: Storage, m: nat, keys: seq<string>) {
    m < |st.metrics| && keys in Names(st, m)
  }

  function Address(st: Storage, m: nat, keys: seq<string>): nat
    requires Bound(st, m, keys)
  {
    Names(st, m)[keys].datum
  }

  /** One metric holds what its table says. */
  ghost predicate SimMetric(mt: Metric, t: Table, heap: seq<Datum>) {
    && mt.typ == t.typ
    && mt.arity == t.arity
    && L.WellFormed(mt.lvs, mt.arity)
    && L.AsMap(mt.lvs).Keys == t.cells.Keys
    && forall k :: k in t.cells ==>
         var e := L.AsMap(mt.lvs)[k];
         e.datum < |heap| && heap[e.datum] == t.cells[k].datum && e.expiry == t.cells[k].expiry
  }

  /** No two cells share a datum. */
  ghost predicate NoAlias(st: Storage) {
    forall m: nat, k, m': nat, k' | Bound(st, m, k) && Bound(st, m', k') ::
      Address(st, m, k) == Address(st, m', k') ==> m == m' && k == k'
  }

  ghost predicate Sim(st: Storage, s: State) {
    && |st.metrics| == |s.tables|
    && (forall m :: 0 <= m < |s.tables| ==> SimMetric(st.metrics[m], s.tables[m], st.heap))
    && NoAlias(st)
  }

  /** Every cell that had an address still has it. */
  ghost predicate Keeps(st: Storage, st': Storage) {
    forall m: nat, k :: Bound(st, m, k) ==> Bound(st', m, k) && Address(st', m, k) == Address(st, m, k)
  }

  lemma KeepsTrans(a: Storage, b: Storage, c: Storage)
    requires Keeps(a, b) && Keeps(b, c)
    ensures Keeps(a, c)
  {
  }

  /** Addresses depend on the label lists alone. */
  lemma SameNames(st: Storage, st': Storage)
    requires st.metrics == st'.metrics
    ensures Keeps(st, st') && (NoAlias(st) ==> NoAlias(st'))
  {
    forall m: nat, k | Bound(st', m, k)
      ensures Bound(st, m, k) && Address(st', m, k) == Address(st, m, k)
    {
    }
  }

  /** Loading a datum creates the cell exactly when the evaluator does, and returns its address. */
  lemma GetDatumSim(st: Storage, s: State, m: nat, keys: seq<string>)
    requires Sim(st, s) && m < |s.tables|
    ensures match GetDatum(st, m, keys)
            case None => |keys| != s.tables[m].arity
            case Some((st', a)) =>
              && |keys| == s.tables[m].arity
              && Sim(st', Touch(s, m, keys))
              && Keeps(st, st')
              && Bound(st', m, keys) && Address(st', m, keys) == a
  {
    var mt := st.metrics[m];
    if |keys| == mt.arity {
      L.AsMapFind(mt.lvs, keys);
      if L.Find(mt.lvs, keys).None? {
        NewCellSim(st, s, m, keys);
      }
    }
  }

  lemma NewCellSim(st: Storage, s: State, m: nat, keys: seq<string>)
    requires Sim(st, s) && m < |s.tables| && |keys| == st.metrics[m].arity
    requires keys !in Names(st, m)
    ensures var a := |st.heap|;
            var mt' := st.metrics[m].(lvs := st.metrics[m].lvs + [L.LabelValue(keys, a, 0)]);
            var st' := Storage(st.metrics[m := mt'], st.heap + [ZeroDatum(st.metrics[m].typ)]);
            Sim(st', Touch(s, m, keys)) && Keeps(st, st') && Bound(st', m, keys) && Address(st', m, keys) == a
  {
    var mt, a := st.metrics[m], |st.heap|;
    var lv: L.LabelValue<nat> := L.LabelValue(keys, a, 0);
    var mt' := mt.(lvs := mt.lvs + [lv]);
    var st' := Storage(st.metrics[m := mt'], st.heap + [ZeroDatum(mt.typ)]);
    var s' := Touch(s, m, keys);
    assert SimMetric(mt, s.tables[m], st.heap);
    NewMetricSim(mt, s.tables[m], st.heap, keys);
    forall i | 0 <= i < |s'.tables|
      ensures SimMetric(st'.metrics[i], s'.tables[i], st'.heap)
    {
      assert SimMetric(st.metrics[i], s.tables[i], st.heap);
    }
    assert forall i: nat :: i < |st.metrics| && i != m ==> Names(st', i) == Names(st, i);
    forall i: nat, k | Bound(st', i, k) && !(i == m && k == keys)
      ensures Bound(st, i, k) && Address(st', i, k) == Address(st, i, k) < a
    {
      assert SimMetric(st.metrics[i], s.tables[i], st.heap);
    }
  }

  lemma NewMetricSim(mt: Metric, t: Table, heap: seq<Datum>, keys: seq<string>)
    requires SimMetric(mt, t, heap) && |keys| == mt.arity && keys !in L.AsMap(mt.lvs)
    ensures var mt' := mt.(lvs := mt.lvs + [L.LabelValue(keys, |heap|, 0)]);
            && L.AsMap(mt'.lvs) == L.AsMap(mt.lvs)[keys := L.Entry(|heap|, 0)]
            && SimMetric(mt', t.(cells := t.cells[keys := Cell(ZeroDatum(t.typ), 0)]), heap + [ZeroDatum(mt.typ)])
  {
    var lv: L.LabelValue<nat> := L.LabelValue(keys, |heap|, 0);
    L.AsMapFind(mt.lvs, keys);
    L.AsMapAppend(mt.lvs, lv);
    assert L.WellFormed(mt.lvs + [lv], mt.arity);
  }

  /** Writing through a cell's address writes that cell and no other. */
  lemma WriteSim(st: Storage, s: State, m: nat, keys: seq<string>, d: Datum)
    requires Sim(st, s) && Bound(st, m, keys)
    ensures Holds(s, m, keys) && Address(st, m, keys) < |st.heap|
    ensures st.heap[Address(st, m, keys)] == s.tables[m].cells[keys].datum
    ensures var st' := st.(heap := st.heap[Address(st, m, keys) := d]);
            Sim(st', Put(s, m, keys, s.tables[m].cells[keys].(datum := d))) && Keeps(st, st')
  {
    assert SimMetric(st.metrics[m], s.tables[m], st.heap);
    var a := Address(st, m, keys);
    var st' := st.(heap := st.heap[a := d]);
    var s' := Put(s, m, keys, s.tables[m].cells[keys].(datum := d));
    SameNames(st, st');
    forall i | 0 <= i < |s'.tables|
      ensures SimMetric(st'.metrics[i], s'.tables[i], st'.heap)
    {
      assert SimMetric(st.metrics[i], s.tables[i], st.heap);
      assert s'.tables[i].cells.Keys == s.tables[i].cells.Keys;
      forall k | k in s'.tables[i].cells
        ensures var e := Names(st', i)[k];
                e.datum < |st'.heap| && st'.heap[e.datum] == s'.tables[i].cells[k].datum
                && e.expiry == s'.tables[i].cells[k].expiry
      {
        if i == m && k == keys {
        } else {
          assert Bound(st, i, k) && Address(st, i, k) != a;
        }
      }
    }
  }

  /** A cell popped as an operand is its value, as an integer or as a string but not both. */
  lemma CellAsOperand(h: Host, st: Storage, s: State, m: nat, keys: seq<string>)
    requires Sim(st, s) && Bound(st, m, keys)
    ensures var v, d := DatumV(Address(st, m, keys)), s.tables[m].cells[keys].datum;
            && (forall i :: AsInt(h, v, st.heap) == Some(i) <==> d == DInt(i))
            && (forall x :: AsStr(h, v, st.heap) == Some(x) <==> d == DStr(x))
  {
    assert SimMetric(st.metrics[m], s.tables[m], st.heap);
  }

  lemma RemoveSim(st: Storage, s: State, m: nat, keys: seq<string>)
    requires Sim(st, s) && m < |s.tables| && |keys| == s.tables[m].arity
    ensures RemoveDatum(st, m, keys).Some?
    ensures Sim(RemoveDatum(st, m, keys).value, Drop(s, m, keys))
    ensures forall i: nat, k | Bound(st, i, k) && !(i == m && k == keys) ::
              Bound(RemoveDatum(st, m, keys).value, i, k)
              && Address(RemoveDatum(st, m, keys).value, i, k) == Address(st, i, k)
  {
    assert SimMetric(st.metrics[m], s.tables[m], st.heap);
    var mt := st.metrics[m];
    L.AsMapWithout(mt.lvs, keys);
    L.WithoutWellFormed(mt.lvs, keys, mt.arity);
    var st', s' := RemoveDatum(st, m, keys).value, Drop(s, m, keys);
    assert Names(st', m) == Names(st, m) - {keys};
    forall i | 0 <= i < |s'.tables|
      ensures SimMetric(st'.metrics[i], s'.tables[i], st'.heap)
    {
      assert SimMetric(st.metrics[i], s.tables[i], st.heap);
    }
    forall i: nat, k | Bound(st', i, k)
      ensures Bound(st, i, k) && Address(st', i, k) == Address(st, i, k)
    {
    }
  }

  lemma ExpireSim(st: Storage, s: State, m: nat, keys: seq<string>, e: int)
    requires Sim(st, s) && m < |s.tables| && |keys| == s.tables[m].arity
    ensures match ExpireDatum(st, m, keys, e)
            case None => !Holds(s, m, keys)
            case Some(st') => Holds(s, m, keys) && Sim(st', Put(s, m, keys, s.tables[m].cells[keys].(expiry := e)))
  {
    assert SimMetric(st.metrics[m], s.tables[m], st.heap);
    var mt := st.metrics[m];
    L.AsMapFind(mt.lvs, keys);
    if L.Find(mt.lvs, keys).Some? {
      var at := L.Find(mt.lvs, keys).value;
      L.AsMapUpdate(mt.lvs, at, e);
      var st', s' := ExpireDatum(st, m, keys, e).value, Put(s, m, keys, s.tables[m].cells[keys].(expiry := e));
      assert Names(st', m) == Names(st, m)[keys := L.Entry(mt.lvs[at].datum, e)];
      forall i | 0 <= i < |s'.tables|
        ensures SimMetric(st'.metrics[i], s'.tables[i], st'.heap)
      {
        assert SimMetric(st.metrics[i], s.tables[i], st.heap);
      }
      forall i: nat, k | Bound(st', i, k)
        ensures Bound(st, i, k) && Address(st', i, k) == Address(st, i, k)
      {
      }
    }
  }
}

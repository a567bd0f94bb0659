/**
 A metric's `LabelValues`: an ordered list of label tuples, each naming one
 datum and an expiry.  These functions say what the list operations of
 `internal/metrics/metric.go` return; the class in Metric.dfy does the same
 work in place, and the machine in Machine.dfy uses them as its storage.
 */
module Labels {
  import opened Common

  type Tuple = seq<string>

  /** `D` names a datum: the machine instantiates it with a heap address. */
  datatype LabelValue<D> = LabelValue(labels: Tuple, datum: D, expiry: int)

  datatype Entry<D> = Entry(datum: D, expiry: int)

  /** Position of the first entry carrying `labels`, as FindLabelValueOrNil searches. */
  function Find<D>(lvs: seq<LabelValue<D>>, labels: Tuple): (r: Option<nat>)
    ensures r.Some? ==> r.value < |lvs| && lvs[r.value].labels == labels
    ensures r.None? ==> forall i :: 0 <= i < |lvs| ==> lvs[i].labels != labels
  {
    if lvs == [] then None
    else if lvs[0].labels == labels then Some(0)
    else
      match Find(lvs[1..], labels)
      case None => None
      case Some(i) => Some(i + 1)
  }

  /** The entries not carrying `labels`, in order. */
  function Without<D>(lvs: seq<LabelValue<D>>, labels: Tuple): seq<LabelValue<D>> {
    if lvs == [] then []
    else if lvs[0].labels == labels then Without(lvs[1..], labels)
    else [lvs[0]] + Without(lvs[1..], labels)
  }

  /** Tuples are pairwise distinct and have one value per key. */
  ghost predicate WellFormed<D>(lvs: seq<LabelValue<D>>, arity: nat) {
    && (forall i :: 0 <= i < |lvs| ==> |lvs[i].labels| == arity)
    && (forall i, j :: 0 <= i < j < |lvs| ==> lvs[i].labels != lvs[j].labels)
  }

  /** What the list means: a map from tuple to datum and expiry. */
  function AsMap<D>(lvs: seq<LabelValue<D>>): map<Tuple, Entry<D>> {
    if lvs == [] then map[]
    else AsMap(lvs[1..])[lvs[0].labels := Entry(lvs[0].datum, lvs[0].expiry)]
  }

  lemma {:induction false} AsMapKeys<D>(lvs: seq<LabelValue<D>>, t: Tuple)
    ensures t in AsMap(lvs) <==> exists i :: 0 <= i < |lvs| && lvs[i].labels == t
  {
    if lvs != [] {
      AsMapKeys(lvs[1..], t);
      if t in AsMap(lvs[1..]) {
        var i :| 0 <= i < |lvs[1..]| && lvs[1..][i].labels == t;
        assert lvs[i + 1].labels == t;
      }
      if exists i :: 0 < i < |lvs| && lvs[i].labels == t {
        var i :| 0 < i < |lvs| && lvs[i].labels == t;
        assert lvs[1..][i - 1].labels == t;
      }
    }
  }

  /** The first entry for a tuple is the one the map holds. */
  lemma {:induction false} AsMapFind<D>(lvs: seq<LabelValue<D>>, t: Tuple)
    ensures Find(lvs, t).Some? <==> t in AsMap(lvs)
    ensures Find(lvs, t).Some? ==>
              var lv := lvs[Find(lvs, t).value];
              AsMap(lvs)[t] == Entry(lv.datum, lv.expiry)
  {
    if lvs != [] {
      AsMapFind(lvs[1..], t);
    }
  }

  /** Appending an absent tuple adds exactly that binding. */
  lemma {:induction false} AsMapAppend<D>(lvs: seq<LabelValue<D>>, lv: LabelValue<D>)
    requires forall i :: 0 <= i < |lvs| ==> lvs[i].labels != lv.labels
    ensures AsMap(lvs + [lv]) == AsMap(lvs)[lv.labels := Entry(lv.datum, lv.expiry)]
  {
    if lvs == [] {
      assert lvs + [lv] == [lv];
      assert AsMap([lv][1..]) == map[];
    } else {
      AsMapAppend(lvs[1..], lv);
      assert (lvs + [lv])[1..] == lvs[1..] + [lv];
    }
  }

  /** Without removes exactly one binding. */
  lemma {:induction false} AsMapWithout<D>(lvs: seq<LabelValue<D>>, t: Tuple)
    ensures AsMap(Without(lvs, t)) == AsMap(lvs) - {t}
  {
    if lvs != [] {
      AsMapWithout(lvs[1..], t);
      var rest := Without(lvs[1..], t);
      assert ([lvs[0]] + rest)[1..] == rest;
    }
  }

  /** Changing the expiry of an entry of a well-formed list changes that binding only. */
  lemma {:induction false} AsMapUpdate<D>(lvs: seq<LabelValue<D>>, i: nat, e: int)
    requires i < |lvs|
    requires forall j, k :: 0 <= j < k < |lvs| ==> lvs[j].labels != lvs[k].labels
    ensures AsMap(lvs[i := lvs[i].(expiry := e)]) ==
            AsMap(lvs)[lvs[i].labels := Entry(lvs[i].datum, e)]
  {
    var u := lvs[i := lvs[i].(expiry := e)];
    if i == 0 {
      assert u[1..] == lvs[1..];
    } else {
      AsMapUpdate(lvs[1..], i - 1, e);
      assert u[1..] == lvs[1..][i - 1 := lvs[i].(expiry := e)];
      assert lvs[0].labels != lvs[i].labels;
    }
  }

  /** Without is a sub-list: it only ever drops entries carrying the tuple. */
  lemma {:induction false} WithoutMembers<D>(lvs: seq<LabelValue<D>>, t: Tuple)
    ensures |Without(lvs, t)| <= |lvs|
    ensures forall i :: 0 <= i < |Without(lvs, t)| ==> Without(lvs, t)[i] in lvs && Without(lvs, t)[i].labels != t
  {
    if lvs != [] {
      WithoutMembers(lvs[1..], t);
    }
  }

  lemma {:induction false} WithoutWellFormed<D>(lvs: seq<LabelValue<D>>, t: Tuple, arity: nat)
    requires WellFormed(lvs, arity)
    ensures WellFormed(Without(lvs, t), arity)
  {
    if lvs != [] {
      WithoutWellFormed(lvs[1..], t, arity);
      WithoutMembers(lvs[1..], t);
      var rest := Without(lvs[1..], t);
      forall i | 0 <= i < |rest|
        ensures rest[i].labels != lvs[0].labels && |rest[i].labels| == arity
      {
        var k :| 0 <= k < |lvs[1..]| && lvs[1..][k] == rest[i];
        assert lvs[k + 1] == rest[i];
      }
    }
  }

  /** In a well-formed list Without drops at most the one entry Find points at. */
  lemma {:induction false} WithoutAt<D>(lvs: seq<LabelValue<D>>, t: Tuple)
    requires forall j, k :: 0 <= j < k < |lvs| ==> lvs[j].labels != lvs[k].labels
    ensures match Find(lvs, t)
            case None => Without(lvs, t) == lvs
            case Some(i) => Without(lvs, t) == lvs[..i] + lvs[i + 1..]
  {
    if lvs != [] {
      WithoutAt(lvs[1..], t);
      if lvs[0].labels == t {
        assert Find(lvs[1..], t).None?;
      }
    }
  }
}

/**
 Histograms: the ranges the code generator builds from a boundary list
 (`internal/vm/codegen/codegen.go`), the counting of observations and the
 cumulative view exported (`internal/metrics/datum`).  Floats are real numbers
 with a positive infinity.
 */
module Histogram {
  import opened Common

  datatype Ext = Fin(x: real) | PosInf

  predicate Lt(a: Ext, b: Ext) { a.Fin? && (b.PosInf? || a.x < b.x) }
  predicate Le(a: Ext, b: Ext) { a == b || Lt(a, b) }

  datatype Range = Range(min: Ext, max: Ext) {
    predicate Contains(v: Ext) { Lt(min, v) && Le(v, max) }
  }

  // ---- from boundaries to ranges ----

  predicate Ascending(bs: seq<real>) { AscendingTo(bs, |bs|) }

  predicate AscendingTo(bs: seq<real>, n: nat)
    requires n <= |bs|
  {
    forall i :: 0 < i < n ==> bs[i - 1] < bs[i]
  }

  lemma AscendingStart(bs: seq<real>)
    requires |bs| >= 2
    ensures if bs[0] < bs[1] then AscendingTo(bs, 2) else !Ascending(bs)
  {
  }

  lemma AscendingStep(bs: seq<real>, i: nat)
    requires 0 < i < |bs| && AscendingTo(bs, i)
    ensures if bs[i - 1] < bs[i] then AscendingTo(bs, i + 1) else !Ascending(bs)
  {
  }

  /** Where the ranges start: a positive first boundary gets a range from zero up to it. */
  function Edges(bs: seq<real>): seq<real>
    requires bs != []
  {
    if bs[0] > 0.0 then [0.0] + bs else bs
  }

  function Edge(edges: seq<real>, i: nat): Ext
    requires i <= |edges|
  {
    if i == |edges| then PosInf else Fin(edges[i])
  }

  /** One range from each edge to the next, the last to infinity. */
  predicate Chained(ranges: seq<Range>, edges: seq<real>) {
    && Ascending(edges) && edges != [] && |ranges| == |edges|
    && forall i :: 0 <= i < |ranges| ==> ranges[i] == Range(Edge(edges, i), Edge(edges, i + 1))
  }

  lemma {:induction false} AscendingFar(bs: seq<real>, i: nat, j: nat)
    requires Ascending(bs) && i < j < |bs|
    ensures bs[i] < bs[j]
  {
    if i + 1 < j {
      AscendingFar(bs, i, j - 1);
    }
  }

  lemma EdgesFar(edges: seq<real>, i: nat, j: nat)
    requires Ascending(edges) && i < j <= |edges|
    ensures Lt(Edge(edges, i), Edge(edges, j))
  {
    if j < |edges| {
      AscendingFar(edges, i, j);
    }
  }

  /** Accepted exactly when there are two or more boundaries in ascending order. */
  method BuildRanges(bs: seq<real>) returns (r: Option<seq<Range>>)
    ensures r.Some? <==> |bs| >= 2 && Ascending(bs)
    ensures r.Some? ==> Chained(r.value, Edges(bs))
  {
    if |bs| < 2 {
      return None;
    }
    AscendingStart(bs);
    if bs[0] >= bs[1] {
      return None;
    }
    hide First;
    hide Chained;
    hide Edge;
    hide Edges;
    hide AscendingTo;
    ghost var edges := Edges(bs);
    EdgesAt(bs, 0);
    EdgesAt(bs, 1);
    var ranges := [];
    ghost var n := 0;
    if bs[0] > 0.0 {
      n := FirstNext(edges, ranges, n, Range(Fin(0.0), Fin(bs[0])));
      ranges := ranges + [Range(Fin(0.0), Fin(bs[0]))];
    }
    n := FirstNext(edges, ranges, n, Range(Fin(bs[0]), Fin(bs[1])));
    ranges := ranges + [Range(Fin(bs[0]), Fin(bs[1]))];
    var min := bs[1];
    for i := 2 to |bs|
      invariant min == bs[i - 1] && n == EdgeOf(bs, i - 1) && ranges == First(edges, n)
      invariant AscendingTo(bs, i)
    {
      var max := bs[i];
      AscendingStep(bs, i);
      if max <= min {
        return None;
      }
      EdgesAt(bs, i - 1);
      EdgesAt(bs, i);
      n := FirstNext(edges, ranges, n, Range(Fin(min), Fin(max)));
      ranges := ranges + [Range(Fin(min), Fin(max))];
      min := max;
    }
    EdgesAt(bs, |bs| - 1);
    n := FirstNext(edges, ranges, n, Range(Fin(min), PosInf));
    ranges := ranges + [Range(Fin(min), PosInf)];
    FirstAll(bs, ranges);
    r := Some(ranges);
  }

  /** The ranges of the first `n` edges. */
  function First(edges: seq<real>, n: nat): (r: seq<Range>)
    requires n <= |edges|
    ensures |r| == n && forall i :: 0 <= i < n ==> r[i] == Range(Edge(edges, i), Edge(edges, i + 1))
  {
    seq(n, i requires 0 <= i < n => Range(Edge(edges, i), Edge(edges, i + 1)))
  }

  /** One more range. */
  lemma FirstNext(edges: seq<real>, ranges: seq<Range>, n: nat, r: Range) returns (n': nat)
    requires n < |edges| && ranges == (if n == 0 then [] else First(edges, n))
    requires r == Range(Edge(edges, n), Edge(edges, n + 1))
    ensures n' == n + 1 && ranges + [r] == First(edges, n')
  {
    n' := n + 1;
    assert |First(edges, n)| == n;
  }

  /** Where boundary `i` is among the edges. */
  function EdgeOf(bs: seq<real>, i: nat): nat
    requires bs != []
  {
    if bs[0] > 0.0 then i + 1 else i
  }

  lemma EdgesAt(bs: seq<real>, i: nat)
    requires i < |bs|
    ensures var edges, n := Edges(bs), EdgeOf(bs, i);
            && n < |edges| && edges[n] == bs[i] && Edge(edges, n) == Fin(bs[i])
            && (i + 1 == |bs| ==> n + 1 == |edges|)
            && (bs[0] > 0.0 ==> edges[0] == 0.0 && Edge(edges, 0) == Fin(0.0))
            && Edge(edges, |edges|) == PosInf
  {
  }

  lemma FirstAll(bs: seq<real>, ranges: seq<Range>)
    requires bs != [] && Ascending(bs) && ranges == First(Edges(bs), |Edges(bs)|)
    ensures Chained(ranges, Edges(bs))
  {
    var edges := Edges(bs);
    forall i | 0 < i < |edges|
      ensures edges[i - 1] < edges[i]
    {
      if bs[0] > 0.0 {
        assert edges[i] == bs[i - 1];
      }
    }
  }

  // ---- the partition ----

  /** Every value above the lowest edge is in exactly one range; no other value is in any. */
  lemma {:induction false} Partition(ranges: seq<Range>, edges: seq<real>, v: Ext)
    requires Chained(ranges, edges)
    ensures Lt(Fin(edges[0]), v) <==> exists i :: 0 <= i < |ranges| && ranges[i].Contains(v)
    ensures forall i, j :: 0 <= i < j < |ranges| ==> !(ranges[i].Contains(v) && ranges[j].Contains(v))
  {
    if Lt(Fin(edges[0]), v) {
      var k := Home(ranges, edges, v, |ranges| - 1);
    }
    forall i | 0 <= i < |ranges| && ranges[i].Contains(v)
      ensures Lt(Fin(edges[0]), v)
    {
      AboveLowest(ranges, edges, v, i);
    }
    forall i, j | 0 <= i < j < |ranges|
      ensures !(ranges[i].Contains(v) && ranges[j].Contains(v))
    {
      Apart(ranges, edges, v, i, j);
    }
  }

  lemma AboveLowest(ranges: seq<Range>, edges: seq<real>, v: Ext, i: nat)
    requires Chained(ranges, edges) && i < |ranges| && ranges[i].Contains(v)
    ensures Lt(Fin(edges[0]), v)
  {
    assert ranges[i] == Range(Edge(edges, i), Edge(edges, i + 1));
    if i > 0 {
      EdgesFar(edges, 0, i);
    }
  }

  lemma Apart(ranges: seq<Range>, edges: seq<real>, v: Ext, i: nat, j: nat)
    requires Chained(ranges, edges) && i < j < |ranges|
    ensures !(ranges[i].Contains(v) && ranges[j].Contains(v))
  {
    assert ranges[i] == Range(Edge(edges, i), Edge(edges, i + 1));
    assert ranges[j] == Range(Edge(edges, j), Edge(edges, j + 1));
    if i + 1 < j {
      EdgesFar(edges, i + 1, j);
    }
  }

  /** The range a value below the upper end of range `n` falls into. */
  lemma {:induction false} Home(ranges: seq<Range>, edges: seq<real>, v: Ext, n: nat) returns (i: nat)
    requires Chained(ranges, edges) && n < |ranges|
    requires Lt(Fin(edges[0]), v) && Le(v, Edge(edges, n + 1))
    ensures i <= n && ranges[i].Contains(v)
  {
    if n == 0 || Lt(Edge(edges, n), v) {
      i := n;
    } else {
      i := Home(ranges, edges, v, n - 1);
    }
  }

  // ---- counting ----

  function CountIn(r: Range, seen: seq<Ext>): nat {
    if seen == [] then 0
    else (if r.Contains(seen[|seen| - 1]) then 1 else 0) + CountIn(r, seen[..|seen| - 1])
  }

  /** Adjoining ranges count what their union counts. */
  lemma {:induction false} CountJoin(a: Ext, b: Ext, c: Ext, seen: seq<Ext>)
    requires Lt(a, b) && Lt(b, c)
    ensures CountIn(Range(a, c), seen) == CountIn(Range(a, b), seen) + CountIn(Range(b, c), seen)
    decreases |seen|
  {
    if seen != [] {
      CountJoin(a, b, c, seen[..|seen| - 1]);
    }
  }

  lemma {:induction false} CountAtMost(r: Range, seen: seq<Ext>)
    ensures CountIn(r, seen) <= |seen|
    decreases |seen|
  {
    if seen != [] {
      CountAtMost(r, seen[..|seen| - 1]);
    }
  }

  /** A wider range counts no less. */
  lemma {:induction false} CountWider(a: Ext, b: Ext, c: Ext, seen: seq<Ext>)
    requires Le(b, c)
    ensures CountIn(Range(a, b), seen) <= CountIn(Range(a, c), seen)
    decreases |seen|
  {
    if seen != [] {
      CountWider(a, b, c, seen[..|seen| - 1]);
    }
  }

  /** The range an observation is counted in: the first that contains it, if any. */
  function FirstHit(ranges: seq<Range>, v: Ext): (k: nat)
    ensures k <= |ranges|
    ensures k < |ranges| ==> ranges[k].Contains(v)
    ensures forall i :: 0 <= i < k ==> !ranges[i].Contains(v)
  {
    if ranges == [] || ranges[0].Contains(v) then 0 else 1 + FirstHit(ranges[1..], v)
  }

  function CountFirst(ranges: seq<Range>, i: nat, seen: seq<Ext>): nat {
    if seen == [] then 0
    else (if FirstHit(ranges, seen[|seen| - 1]) == i then 1 else 0) + CountFirst(ranges, i, seen[..|seen| - 1])
  }

  lemma CountFirstSnoc(ranges: seq<Range>, i: nat, seen: seq<Ext>, v: Ext)
    ensures CountFirst(ranges, i, seen + [v]) == CountFirst(ranges, i, seen) + if FirstHit(ranges, v) == i then 1 else 0
  {
    assert (seen + [v])[..|seen|] == seen;
  }

  /** On generated ranges, which do not overlap, that is all observations in the range. */
  lemma {:induction false} CountFirstIn(ranges: seq<Range>, edges: seq<real>, i: nat, seen: seq<Ext>)
    requires Chained(ranges, edges) && i < |ranges|
    ensures CountFirst(ranges, i, seen) == CountIn(ranges[i], seen)
    decreases |seen|
  {
    if seen != [] {
      Partition(ranges, edges, seen[|seen| - 1]);
      CountFirstIn(ranges, edges, i, seen[..|seen| - 1]);
    }
  }

  function Plus(a: Ext, b: Ext): Ext { if a.Fin? && b.Fin? then Fin(a.x + b.x) else PosInf }

  function SumOf(seen: seq<Ext>): Ext {
    if seen == [] then Fin(0.0) else Plus(SumOf(seen[..|seen| - 1]), seen[|seen| - 1])
  }

  /** Cumulative counts per upper bound, as they are exported. */
  ghost predicate Cumulative(cum: map<Ext, nat>, edges: seq<real>, seen: seq<Ext>)
    requires edges != []
  {
    && (forall m :: m in cum <==> exists i :: 0 < i <= |edges| && m == Edge(edges, i))
    && forall m :: m in cum ==> cum[m] == CountIn(Range(Fin(edges[0]), m), seen)
  }

  /** The exported counts never fall as the bound grows, and never exceed the total. */
  lemma CumulativeOrdered(cum: map<Ext, nat>, edges: seq<real>, seen: seq<Ext>, m: Ext, m': Ext)
    requires edges != [] && Cumulative(cum, edges, seen) && m in cum && m' in cum && Le(m, m')
    ensures cum[m] <= cum[m'] <= |seen|
  {
    CountWider(Fin(edges[0]), m, m', seen);
    CountAtMost(Range(Fin(edges[0]), m'), seen);
  }

  /** The last bound counts every observation above the lowest edge: none is lost, none counted twice. */
  lemma CumulativeTotal(cum: map<Ext, nat>, edges: seq<real>, seen: seq<Ext>)
    requires edges != [] && Cumulative(cum, edges, seen)
    ensures PosInf in cum && cum[PosInf] == |seen| - CountBelow(edges[0], seen)
  {
    assert PosInf == Edge(edges, |edges|);
    CountSplit(edges[0], seen);
  }

  /** Observations at or below the lowest edge, which no range counts. */
  function CountBelow(lo: real, seen: seq<Ext>): nat {
    if seen == [] then 0
    else (if Le(seen[|seen| - 1], Fin(lo)) then 1 else 0) + CountBelow(lo, seen[..|seen| - 1])
  }

  lemma {:induction false} CountSplit(lo: real, seen: seq<Ext>)
    ensures CountIn(Range(Fin(lo), PosInf), seen) + CountBelow(lo, seen) == |seen|
    decreases |seen|
  {
    if seen != [] {
      CountSplit(lo, seen[..|seen| - 1]);
    }
  }

  // ---- sorting the bounds ----

  predicate Increasing(s: seq<Ext>) { forall i, j :: 0 <= i < j < |s| ==> Lt(s[i], s[j]) }

  function Insert(x: Ext, s: seq<Ext>): (r: seq<Ext>)
    ensures forall y :: y in r <==> y == x || y in s
  {
    if s == [] then [x] else if Lt(x, s[0]) then [x] + s else [s[0]] + Insert(x, s[1..])
  }

  function Sort(s: seq<Ext>): (r: seq<Ext>)
    ensures forall y :: y in r <==> y in s
  {
    if s == [] then [] else Insert(s[0], Sort(s[1..]))
  }

  lemma {:induction false} InsertIncreasing(x: Ext, s: seq<Ext>)
    requires Increasing(s) && x !in s
    ensures Increasing(Insert(x, s))
  {
    if s != [] && !Lt(x, s[0]) {
      InsertIncreasing(x, s[1..]);
      var r := Insert(x, s[1..]);
      forall j | 0 <= j < |r|
        ensures Lt(s[0], r[j])
      {
        if r[j] != x {
          assert r[j] in s[1..];
        }
      }
    }
  }

  lemma {:induction false} SortIncreasing(s: seq<Ext>)
    requires forall i, j :: 0 <= i < j < |s| ==> s[i] != s[j]
    ensures Increasing(Sort(s))
  {
    if s != [] {
      SortIncreasing(s[1..]);
      InsertIncreasing(s[0], Sort(s[1..]));
    }
  }

  lemma NonEmptyHas(t: seq<Ext>)
    ensures t == [] || exists y :: y in t
  {
    assert t == [] || t[0] in t;
  }

  /** Increasing sequences of the same values are the same sequence. */
  lemma {:induction false} IncreasingUnique(s: seq<Ext>, t: seq<Ext>)
    requires Increasing(s) && Increasing(t) && forall y :: y in s <==> y in t
    ensures s == t
    decreases |s|
  {
    if s == [] {
      NonEmptyHas(t);
    } else {
      assert s[0] in t;
      assert t[0] in s;
      assert s[0] == t[0];
      forall y
        ensures y in s[1..] <==> y in t[1..]
      {
        assert y in s <==> y == s[0] || y in s[1..];
        assert y in t <==> y == t[0] || y in t[1..];
      }
      IncreasingUnique(s[1..], t[1..]);
    }
  }

  // ---- the datum ----

  class Buckets {
    var ranges: seq<Range>
    var counts: array<nat>
    var count: nat
    var sum: Ext
    /** Everything observed, in order. */
    ghost var seen: seq<Ext>

    ghost predicate Valid()
      reads this, counts
    {
      && counts.Length == |ranges|
      && (forall i :: 0 <= i < |ranges| ==> counts[i] == CountFirst(ranges, i, seen))
      && count == |seen|
      && sum == SumOf(seen)
    }

    /** MakeBuckets: a list whose last range stops short of infinity gets one more, from its highest bound. */
    constructor (buckets: seq<Range>)
      ensures Valid() && seen == [] && fresh(counts)
      ensures (exists k :: 0 <= k < |buckets| && buckets[k].max.PosInf?) ==> ranges == buckets
      ensures (forall k :: 0 <= k < |buckets| ==> buckets[k].max.Fin?) ==>
                && |ranges| == |buckets| + 1 && ranges[..|buckets|] == buckets
                && ranges[|buckets|].max == PosInf && Above(ranges[|buckets|].min, buckets, |buckets|)
    {
      var seenInf, highest := false, Fin(0.0);
      var rs := [];
      for i := 0 to |buckets|
        invariant rs == buckets[..i]
        invariant seenInf <==> exists k :: 0 <= k < i && buckets[k].max.PosInf?
        invariant Above(highest, buckets, i)
      {
        rs := rs + [buckets[i]];
        if buckets[i].max.PosInf? {
          seenInf := true;
        } else if Lt(highest, buckets[i].max) {
          highest := buckets[i].max;
        }
      }
      if !seenInf {
        rs := rs + [Range(highest, PosInf)];
      }
      ranges := rs;
      counts := new nat[|rs|](_ => 0);
      count, sum := 0, Fin(0.0);
      seen := [];
    }

    method Observe(v: Ext)
      requires Valid()
      modifies this`count, this`sum, this`seen, counts
      ensures Valid() && seen == old(seen) + [v]
    {
      ghost var hit := FirstHit(ranges, v);
      for i := 0 to |ranges|
        invariant unchanged(counts)
        invariant i <= hit
      {
        if ranges[i].Contains(v) {
          assert hit == i;
          counts[i] := counts[i] + 1;
          break;
        }
      }
      forall i | 0 <= i < |ranges|
        ensures counts[i] == CountFirst(ranges, i, seen + [v])
      {
        CountFirstSnoc(ranges, i, seen, v);
      }
      assert (seen + [v])[..|seen|] == seen;
      count := count + 1;
      sum := Plus(sum, v);
      seen := seen + [v];
    }

    /** Where ranges repeat, the last one's count is the one kept. */
    method GetBuckets() returns (b: map<Range, nat>)
      requires Valid()
      ensures forall r :: r in b <==> r in ranges
      ensures forall r :: r in b ==> exists i :: 0 <= i < |ranges| && ranges[i] == r && r !in ranges[i + 1..] && b[r] == counts[i]
    {
      b := map[];
      for i := 0 to |ranges|
        invariant forall r :: r in b <==> r in ranges[..i]
        invariant forall r :: r in b ==> exists k :: 0 <= k < i && ranges[k] == r && r !in ranges[k + 1..i] && b[r] == counts[k]
      {
        ghost var before := b;
        b := b[ranges[i] := counts[i]];
        forall r | r in b
          ensures exists k :: 0 <= k < i + 1 && ranges[k] == r && r !in ranges[k + 1..i + 1] && b[r] == counts[k]
        {
          if r == ranges[i] {
            assert r !in ranges[i + 1..i + 1];
          } else {
            var k :| 0 <= k < i && ranges[k] == r && r !in ranges[k + 1..i] && before[r] == counts[k];
            assert ranges[k + 1..i + 1] == ranges[k + 1..i] + [ranges[i]];
          }
        }
      }
      assert ranges[..|ranges|] == ranges;
    }

    /** Cumulative counts by upper bound, whatever order the map yields its entries in. */
    method GetBucketsCumByMax(ghost edges: seq<real>) returns (buckets: map<Ext, nat>)
      requires Valid() && Chained(ranges, edges)
      ensures Cumulative(buckets, edges, seen)
    {
      var all := GetBuckets();
      CountsIn(all, ranges, edges, counts[..], seen);
      var maxes: seq<Ext>;
      maxes, buckets := Collect(all, edges);
      SortIncreasing(maxes);
      MaxesAre(Sort(maxes), ranges, edges);
      buckets := Accumulate(Sort(maxes), buckets, edges);
    }

    /** The second loop: a running total over the sorted bounds. */
    method Accumulate(maxes: seq<Ext>, plain: map<Ext, nat>, ghost edges: seq<real>) returns (buckets: map<Ext, nat>)
      requires Chained(ranges, edges) && Increasing(maxes) && |maxes| == |edges|
      requires forall i :: 0 <= i < |edges| ==> maxes[i] == Edge(edges, i + 1) == ranges[i].max
      requires forall m :: m in plain <==> m in maxes
      requires forall r :: r in ranges ==> r.max in plain && plain[r.max] == CountIn(r, seen)
      ensures Cumulative(buckets, edges, seen)
    {
      hide Summed;
      hide Before;
      hide CountIn;
      hide AscendingTo;
      hide Increasing;
      hide Edge;
      buckets := plain;
      var cum := 0;
      SummedStart(maxes, plain, edges, seen);
      for j := 0 to |maxes|
        invariant cum == Before(edges, j, seen)
        invariant Summed(maxes, plain, buckets, edges, seen, j)
      {
        assert ranges[j] in ranges;
        SummedStep(maxes, plain, buckets, edges, seen, j);
        cum := cum + buckets[maxes[j]];
        buckets := buckets[maxes[j] := cum];
      }
      CumulativeFrom(buckets, maxes, plain, edges, seen);
    }

    /** The first loop of GetBucketsCumByMax, over a map in no particular order. */
    method Collect(all: map<Range, nat>, ghost edges: seq<real>) returns (maxes: seq<Ext>, buckets: map<Ext, nat>)
      requires Chained(ranges, edges) && forall r :: r in all <==> r in ranges
      ensures forall i, j :: 0 <= i < j < |maxes| ==> maxes[i] != maxes[j]
      ensures forall m :: m in maxes <==> exists r :: r in ranges && r.max == m
      ensures forall m :: m in buckets <==> m in maxes
      ensures forall r :: r in ranges ==> r.max in buckets && buckets[r.max] == all[r]
    {
      maxes, buckets := [], map[];
      var todo := all.Keys;
      while todo != {}
        invariant todo <= all.Keys
        invariant forall i, j :: 0 <= i < j < |maxes| ==> maxes[i] != maxes[j]
        invariant forall m :: m in maxes <==> exists r :: r in all.Keys - todo && r.max == m
        invariant forall m :: m in buckets <==> m in maxes
        invariant forall r :: r in all.Keys - todo ==> r.max in buckets && buckets[r.max] == all[r]
        decreases |todo|
      {
        var r :| r in todo;
        forall r' | r' in all.Keys && r'.max == r.max
          ensures r' == r
        {
          MaxDistinct(ranges, edges, r, r');
        }
        assert r.max !in maxes;
        maxes := maxes + [r.max];
        buckets := buckets[r.max := all[r]];
        todo := todo - {r};
      }
    }
  }

  /** `h` is the highest finite bound of the first `n` ranges, or zero. */
  ghost predicate Above(h: Ext, buckets: seq<Range>, n: nat)
    requires n <= |buckets|
  {
    && h.Fin? && Le(Fin(0.0), h)
    && (forall k :: 0 <= k < n && buckets[k].max.Fin? ==> Le(buckets[k].max, h))
    && (h == Fin(0.0) || exists k :: 0 <= k < n && buckets[k].max == h)
  }

  lemma CountsIn(all: map<Range, nat>, ranges: seq<Range>, edges: seq<real>, counts: seq<nat>, seen: seq<Ext>)
    requires Chained(ranges, edges) && |counts| == |ranges|
    requires forall i :: 0 <= i < |ranges| ==> counts[i] == CountFirst(ranges, i, seen)
    requires forall r :: r in all ==> exists i :: 0 <= i < |ranges| && ranges[i] == r && r !in ranges[i + 1..] && all[r] == counts[i]
    ensures forall r :: r in all ==> all[r] == CountIn(r, seen)
  {
    forall r | r in all
      ensures all[r] == CountIn(r, seen)
    {
      var i :| 0 <= i < |ranges| && ranges[i] == r && r !in ranges[i + 1..] && all[r] == counts[i];
      CountFirstIn(ranges, edges, i, seen);
    }
  }

  /** Observations up to the upper bound of range `i`. */
  function Upto(edges: seq<real>, i: nat, seen: seq<Ext>): nat
    requires i < |edges|
  {
    CountIn(Range(Fin(edges[0]), Edge(edges, i + 1)), seen)
  }

  /** Observations below range `j`. */
  function Before(edges: seq<real>, j: nat, seen: seq<Ext>): nat
    requires j <= |edges|
  {
    if j == 0 then 0 else Upto(edges, j - 1, seen)
  }

  lemma UptoNext(edges: seq<real>, j: nat, seen: seq<Ext>)
    requires Ascending(edges) && j < |edges|
    ensures Upto(edges, j, seen) == Before(edges, j, seen) + CountIn(Range(Edge(edges, j), Edge(edges, j + 1)), seen)
    ensures Before(edges, j + 1, seen) == Upto(edges, j, seen)
  {
    if j > 0 {
      EdgesFar(edges, 0, j);
      EdgesFar(edges, j, j + 1);
      CountJoin(Edge(edges, 0), Edge(edges, j), Edge(edges, j + 1), seen);
    }
  }

  /** The first `j` bounds hold running totals, the others still their own counts. */
  ghost predicate Summed(maxes: seq<Ext>, plain: map<Ext, nat>, buckets: map<Ext, nat>, edges: seq<real>, seen: seq<Ext>, j: nat)
    requires |maxes| == |edges|
  {
    && (forall m :: m in plain <==> m in maxes)
    && (forall m :: m in buckets <==> m in maxes)
    && (forall i :: 0 <= i < |maxes| ==> maxes[i] in maxes)
    && forall i :: 0 <= i < |maxes| ==>
         buckets[maxes[i]] == if i < j then Upto(edges, i, seen) else plain[maxes[i]]
  }

  lemma SummedStart(maxes: seq<Ext>, plain: map<Ext, nat>, edges: seq<real>, seen: seq<Ext>)
    requires |maxes| == |edges| && forall m :: m in plain <==> m in maxes
    ensures Summed(maxes, plain, plain, edges, seen, 0) && Before(edges, 0, seen) == 0
  {
  }

  lemma SummedStep(maxes: seq<Ext>, plain: map<Ext, nat>, buckets: map<Ext, nat>, edges: seq<real>, seen: seq<Ext>, j: nat)
    requires Ascending(edges) && Increasing(maxes) && j < |maxes| == |edges|
    requires Summed(maxes, plain, buckets, edges, seen, j)
    requires maxes[j] in plain && plain[maxes[j]] == CountIn(Range(Edge(edges, j), Edge(edges, j + 1)), seen)
    ensures maxes[j] in buckets
    ensures var cum := Before(edges, j, seen) + buckets[maxes[j]];
            cum == Before(edges, j + 1, seen)
            && Summed(maxes, plain, buckets[maxes[j] := cum], edges, seen, j + 1)
  {
    UptoNext(edges, j, seen);
    assert forall i :: 0 <= i < |maxes| && i != j ==> maxes[i] != maxes[j];
  }

  lemma CumulativeFrom(buckets: map<Ext, nat>, maxes: seq<Ext>, plain: map<Ext, nat>, edges: seq<real>, seen: seq<Ext>)
    requires edges != [] && |maxes| == |edges| && forall i :: 0 <= i < |edges| ==> maxes[i] == Edge(edges, i + 1)
    requires Summed(maxes, plain, buckets, edges, seen, |edges|)
    ensures Cumulative(buckets, edges, seen)
  {
    forall m
      ensures m in buckets <==> exists i :: 0 < i <= |edges| && m == Edge(edges, i)
      ensures m in buckets ==> buckets[m] == CountIn(Range(Fin(edges[0]), m), seen)
    {
      if m in buckets {
        var i :| 0 <= i < |maxes| && maxes[i] == m;
        assert m == Edge(edges, i + 1);
      }
      if i :| 0 < i <= |edges| && m == Edge(edges, i) {
        assert maxes[i - 1] == m;
      }
    }
  }

  lemma MaxDistinct(ranges: seq<Range>, edges: seq<real>, a: Range, b: Range)
    requires Chained(ranges, edges) && a in ranges && b in ranges && a.max == b.max
    ensures a == b
  {
    var i :| 0 <= i < |ranges| && ranges[i] == a;
    var j :| 0 <= j < |ranges| && ranges[j] == b;
    if i < j {
      EdgesFar(edges, i + 1, j + 1);
    } else if j < i {
      EdgesFar(edges, j + 1, i + 1);
    }
  }

  /** Sorted, the upper bounds are the edges after the first, in order. */
  lemma MaxesAre(maxes: seq<Ext>, ranges: seq<Range>, edges: seq<real>)
    requires Chained(ranges, edges) && Increasing(maxes)
    requires forall m :: m in maxes <==> exists r :: r in ranges && r.max == m
    ensures |maxes| == |edges| && forall i :: 0 <= i < |edges| ==> maxes[i] == Edge(edges, i + 1) == ranges[i].max
  {
    var want := seq(|edges|, i requires 0 <= i < |edges| => Edge(edges, i + 1));
    forall i, j | 0 <= i < j < |want|
      ensures Lt(want[i], want[j])
    {
      EdgesFar(edges, i + 1, j + 1);
    }
    SameBounds(maxes, want, ranges, edges);
    IncreasingUnique(maxes, want);
  }

  lemma SameBounds(maxes: seq<Ext>, want: seq<Ext>, ranges: seq<Range>, edges: seq<real>)
    requires Chained(ranges, edges) && |want| == |edges| && forall i :: 0 <= i < |edges| ==> want[i] == Edge(edges, i + 1)
    requires forall m :: m in maxes <==> exists r :: r in ranges && r.max == m
    ensures forall m :: m in maxes <==> m in want
  {
    forall m
      ensures m in maxes <==> m in want
    {
      if m in maxes {
        var r :| r in ranges && r.max == m;
        var i :| 0 <= i < |ranges| && ranges[i] == r;
        assert want[i] == m;
      }
      if m in want {
        var i :| 0 <= i < |want| && want[i] == m;
        assert ranges[i] in ranges && ranges[i].max == m;
      }
    }
  }
}

/**
  The statistics document and the one-time roll-up of district counts into
  per-state totals that runs when the document arrives.
 */
module Covid {
  import opened Js

  /** The three statistics every record carries. */
  datatype Metric = Confirmed | Recovered | Deceased

  /** One district's raw record; any field may be missing. */
  datatype DistrictStats = DistrictStats(confirmed: Option<nat>, recovered: Option<nat>, deceased: Option<nat>) {
    function At(m: Metric): Option<nat> {
      match m
      case Confirmed => confirmed
      case Recovered => recovered
      case Deceased => deceased
    }
  }

  /** A rolled-up total; every field is present. */
  datatype Counts = Counts(confirmed: nat, recovered: nat, deceased: nat) {
    function At(m: Metric): nat {
      match m
      case Confirmed => confirmed
      case Recovered => recovered
      case Deceased => deceased
    }
  }

  /**
    One state's record: its optional per-district breakdown and the total
    the loader attaches to it.
   */
  datatype StateStats = StateStats(districtData: Option<Obj<DistrictStats>>, total: Option<Counts>)

  /** What one district adds to its state's totals: each falsy field counts as 0. */
  function Contribution(d: DistrictStats): (c: Counts)
    ensures forall m :: c.At(m) == OrZero(d.At(m))
    ensures forall m :: c.At(m) == 0 <==> !TruthyCount(d.At(m))
  {
    Counts(OrZero(d.confirmed), OrZero(d.recovered), OrZero(d.deceased))
  }

  function Plus(a: Counts, b: Counts): Counts {
    Counts(a.confirmed + b.confirmed, a.recovered + b.recovered, a.deceased + b.deceased)
  }

  /** The running totals after adding up the first `n` districts in order, starting from zero. */
  function SumTo(ds: seq<DistrictStats>, n: nat): Counts
    requires n <= |ds|
  {
    if n == 0 then Counts(0, 0, 0)
    else Plus(SumTo(ds, n - 1), Contribution(ds[n - 1]))
  }

  /** The totals after adding up every district of `ds`. */
  function Sum(ds: seq<DistrictStats>): Counts {
    SumTo(ds, |ds|)
  }

  /** `Object.values(districtData || {})`. */
  function Districts(dd: Option<Obj<DistrictStats>>): (ds: seq<DistrictStats>)
    ensures dd.None? ==> ds == []
    ensures dd.Some? ==> |ds| == |dd.value| && forall i :: 0 <= i < |ds| ==> ds[i] == dd.value[i].1
  {
    match dd
    case None => []
    case Some(o) => Values(o)
  }

  /** The totals the loader computes for one state. */
  function Totals(dd: Option<Obj<DistrictStats>>): (t: Counts)
    ensures dd.None? ==> t == Counts(0, 0, 0)
    ensures dd.Some? && |dd.value| == 0 ==> t == Counts(0, 0, 0)
  {
    Sum(Districts(dd))
  }

  /** The statistics document after the loader has attached a total to every state. */
  function Aggregate(data: Obj<StateStats>): (r: Obj<StateStats>)
    ensures |r| == |data|
    ensures forall i :: 0 <= i < |r| ==> r[i].0 == data[i].0
    ensures forall i :: 0 <= i < |r| ==> r[i].1.districtData == data[i].1.districtData
    ensures forall i :: 0 <= i < |r| ==> r[i].1.total == Some(Totals(data[i].1.districtData))
  {
    seq(|data|, i requires 0 <= i < |data| =>
      (data[i].0, data[i].1.(total := Some(Totals(data[i].1.districtData)))))
  }

  /**
    The loader's loop: for every state in key order, three accumulators start
    at zero and each district adds its fields, falsy ones as 0.
   */
  method LoadCovidData(data: Obj<StateStats>) returns (r: Obj<StateStats>)
    ensures r == Aggregate(data)
  {
    var acc: seq<(string, StateStats)> := [];
    var i := 0;
    while i < |data|
      invariant 0 <= i <= |data|
      invariant acc == Aggregate(data)[..i]
    {
      var ds := Districts(data[i].1.districtData);
      var confirmed: nat, recovered: nat, deceased: nat := 0, 0, 0;
      var j := 0;
      while j < |ds|
        invariant 0 <= j <= |ds|
        invariant Counts(confirmed, recovered, deceased) == SumTo(ds, j)
      {
        confirmed := confirmed + OrZero(ds[j].confirmed);
        recovered := recovered + OrZero(ds[j].recovered);
        deceased := deceased + OrZero(ds[j].deceased);
        j := j + 1;
      }
      acc := acc + [(data[i].0, data[i].1.(total := Some(Counts(confirmed, recovered, deceased))))];
      i := i + 1;
    }
    assert acc == Aggregate(data);
    r := acc;
  }

  lemma SumSingle(d: DistrictStats)
    ensures Sum([d]) == Contribution(d)
  {
    assert SumTo([d], 0) == Counts(0, 0, 0);
  }

  /** A running total only depends on the districts it has visited. */
  lemma {:induction false} SumToSame(s: seq<DistrictStats>, t: seq<DistrictStats>, n: nat)
    requires n <= |s| && n <= |t|
    requires forall i :: 0 <= i < n ==> s[i] == t[i]
    ensures SumTo(s, n) == SumTo(t, n)
  {
    if n > 0 {
      SumToSame(s, t, n - 1);
    }
  }

  lemma {:induction false} SumToAppend(a: seq<DistrictStats>, b: seq<DistrictStats>, k: nat)
    requires k <= |b|
    ensures SumTo(a + b, |a| + k) == Plus(Sum(a), SumTo(b, k))
  {
    if k == 0 {
      SumToSame(a + b, a, |a|);
    } else {
      SumToAppend(a, b, k - 1);
      assert (a + b)[|a| + k - 1] == b[k - 1];
    }
  }

  /** Adding up two runs of districts one after the other adds their totals. */
  lemma SumAppend(a: seq<DistrictStats>, b: seq<DistrictStats>)
    ensures Sum(a + b) == Plus(Sum(a), Sum(b))
  {
    SumToAppend(a, b, |b|);
  }

  /** Taking district `k` out of a run and adding it back on at the end leaves the total unchanged. */
  lemma SumWithout(b: seq<DistrictStats>, k: nat)
    requires k < |b|
    ensures Sum(b) == Plus(Sum(b[..k] + b[k + 1..]), Contribution(b[k]))
  {
    var b1, b2 := b[..k], b[k + 1..];
    assert b == b1 + [b[k]] + b2;
    SumAppend(b1, b2);
    SumAppend(b1, [b[k]]);
    SumAppend(b1 + [b[k]], b2);
    SumSingle(b[k]);
  }

  lemma MultisetWithout(a: seq<DistrictStats>, x: DistrictStats, b: seq<DistrictStats>, k: nat)
    requires k < |b| && b[k] == x
    requires multiset(a + [x]) == multiset(b)
    ensures multiset(a) == multiset(b[..k] + b[k + 1..])
  {
    var b1, b2 := b[..k], b[k + 1..];
    assert b == b1 + [x] + b2;
    assert multiset(b) == multiset(b1) + multiset{x} + multiset(b2);
    assert multiset(b1 + b2) == multiset(b1) + multiset(b2);
    assert multiset(a + [x]) == multiset(a) + multiset{x};
    assert multiset(a) == multiset(b) - multiset{x};
  }

  /**
    The totals do not depend on the order in which the districts are
    visited, so the key order of `districtData` is irrelevant.
   */
  lemma {:induction false} SumPermutation(a: seq<DistrictStats>, b: seq<DistrictStats>)
    requires multiset(a) == multiset(b)
    ensures Sum(a) == Sum(b)
    decreases |a|
  {
    if |a| == 0 {
      assert |multiset(b)| == 0;
      assert b == [];
    } else {
      var x := a[|a| - 1];
      var a' := a[..|a| - 1];
      assert a == a' + [x];
      SumAppend(a', [x]);
      SumSingle(x);
      assert x in multiset(b);
      var k :| 0 <= k < |b| && b[k] == x;
      MultisetWithout(a', x, b, k);
      SumPermutation(a', b[..k] + b[k + 1..]);
      SumWithout(b, k);
    }
  }

  lemma {:induction false} SumToZeroIff(ds: seq<DistrictStats>, n: nat, m: Metric)
    requires n <= |ds|
    ensures SumTo(ds, n).At(m) == 0 <==> forall i :: 0 <= i < n ==> !TruthyCount(ds[i].At(m))
  {
    if n > 0 {
      SumToZeroIff(ds, n - 1, m);
    }
  }

  /** No district reports a truthy value for statistic `m`. */
  ghost predicate AllFalsy(ds: seq<DistrictStats>, m: Metric) {
    forall i :: 0 <= i < |ds| ==> !TruthyCount(ds[i].At(m))
  }

  /** A total is zero exactly when no district has a truthy value for that statistic. */
  lemma SumZeroIff(ds: seq<DistrictStats>, m: Metric)
    ensures Sum(ds).At(m) == 0 <==> AllFalsy(ds, m)
  {
    SumToZeroIff(ds, |ds|, m);
  }

  lemma {:induction false} SumToBound(ds: seq<DistrictStats>, n: nat, m: Metric, i: nat)
    requires i < n <= |ds|
    ensures OrZero(ds[i].At(m)) <= SumTo(ds, n).At(m)
  {
    if i < n - 1 {
      SumToBound(ds, n - 1, m, i);
    }
  }

  /** No district's contribution exceeds its state's total. */
  lemma SumBound(ds: seq<DistrictStats>, m: Metric, i: nat)
    requires i < |ds|
    ensures OrZero(ds[i].At(m)) <= Sum(ds).At(m)
  {
    SumToBound(ds, |ds|, m, i);
  }

  /** Looking a state up after loading finds the record it had, with its total attached. */
  lemma AggregateGet(raw: Obj<StateStats>, key: string)
    ensures Get(raw, key).None? ==> Get(Aggregate(raw), key).None?
    ensures Get(raw, key).Some? ==>
      Get(Aggregate(raw), key) == Some(Get(raw, key).value.(total := Some(Totals(Get(raw, key).value.districtData))))
  {
    if Get(raw, key).Some? {
      var i :| 0 <= i < |raw| && raw[i].0 == key && raw[i].1 == Get(raw, key).value;
      GetEntry(Aggregate(raw), i);
    }
  }
}

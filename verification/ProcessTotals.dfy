/** aggregate_tree of tools/process_metrics.py: totals over a process tree, whole and by name. */
module ProcessTotals {
  import opened Sets
  import opened Wrappers
  import opened SetSums
  import opened ProcessTree

  datatype Totals = Totals(count: nat, metrics: map<Metric, int>)

  datatype Aggregate = Aggregate(whole: Totals, byName: map<string, Totals>)

  function NameOf(process: Process): string {
    if process.name.Some? && process.name.value != "" then process.name.value else "unknown"
  }

  function Get(metrics: map<Metric, int>, m: Metric): int {
    if m in metrics then metrics[m] else 0
  }

  // ---------------------------------------------------------------- one process

  /** The totals after the first `n` metric names have been added from one process. */
  function AddedUpTo(metrics: map<Metric, int>, added: map<Metric, int>, n: nat): map<Metric, int>
    requires n <= |METRIC_NAMES|
  {
    map m | m in metrics.Keys + added.Keys && (m in metrics || m in METRIC_NAMES[..n]) ::
      Get(metrics, m) + if m in METRIC_NAMES[..n] then Get(added, m) else 0
  }

  function AddOne(metrics: map<Metric, int>, added: map<Metric, int>, metric: Metric): map<Metric, int> {
    if metric in added then metrics[metric := Get(metrics, metric) + added[metric]] else metrics
  }

  ghost predicate Added(after: map<Metric, int>, before: map<Metric, int>, added: map<Metric, int>) {
    && after.Keys == before.Keys + added.Keys
    && forall m :: m in after ==> after[m] == Get(before, m) + Get(added, m)
  }

  lemma EveryMetricNamed(m: Metric)
    ensures m in METRIC_NAMES
  {
  }

  lemma NextMetricIsNew(n: nat)
    requires n < |METRIC_NAMES|
    ensures METRIC_NAMES[n] !in METRIC_NAMES[..n]
    ensures METRIC_NAMES[..n + 1] == METRIC_NAMES[..n] + [METRIC_NAMES[n]]
  {
  }

  lemma AddedStep(metrics: map<Metric, int>, added: map<Metric, int>, n: nat)
    requires n < |METRIC_NAMES|
    ensures AddedUpTo(metrics, added, n + 1) == AddOne(AddedUpTo(metrics, added, n), added, METRIC_NAMES[n])
  {
    NextMetricIsNew(n);
  }

  lemma AllAdded(metrics: map<Metric, int>, added: map<Metric, int>)
    ensures AddedUpTo(metrics, added, 0) == metrics
    ensures Added(AddedUpTo(metrics, added, |METRIC_NAMES|), metrics, added)
  {
    assert METRIC_NAMES[..|METRIC_NAMES|] == METRIC_NAMES;
    forall m: Metric
      ensures m in METRIC_NAMES
    {
      EveryMetricNamed(m);
    }
  }

  /** The inner loop: every metric the process reports goes into both totals. */
  method AddMetrics(whole: map<Metric, int>, named: map<Metric, int>, values: map<Metric, int>)
    returns (whole': map<Metric, int>, named': map<Metric, int>)
    ensures Added(whole', whole, values) && Added(named', named, values)
  {
    whole', named' := whole, named;
    AllAdded(whole, values);
    AllAdded(named, values);
    for i := 0 to |METRIC_NAMES|
      invariant whole' == AddedUpTo(whole, values, i) && named' == AddedUpTo(named, values, i)
    {
      var metric := METRIC_NAMES[i];
      AddedStep(whole, values, i);
      AddedStep(named, values, i);
      whole', named' := AddOne(whole', values, metric), AddOne(named', values, metric);
    }
  }

  // ---------------------------------------------------------------- a set of processes

  ghost function Value(snapshot: Snapshot, m: Metric): ProcessId -> int {
    (id: ProcessId) => if id in snapshot then Get(snapshot[id].metrics, m) else 0
  }

  ghost predicate Reported(snapshot: Snapshot, ids: set<ProcessId>, m: Metric) {
    exists id :: id in ids && id in snapshot && m in snapshot[id].metrics
  }

  /** Exact totals: a metric is present just when some process reports it, as the sum of the reports. */
  ghost predicate MetricsOf(metrics: map<Metric, int>, snapshot: Snapshot, ids: set<ProcessId>) {
    forall m: Metric ::
      && (m in metrics <==> Reported(snapshot, ids, m))
      && (m in metrics ==> metrics[m] == Sum(ids, Value(snapshot, m)))
  }

  ghost predicate TotalsOf(t: Totals, snapshot: Snapshot, ids: set<ProcessId>) {
    t.count == |ids| && MetricsOf(t.metrics, snapshot, ids)
  }

  ghost function Key(snapshot: Snapshot): ProcessId -> string {
    (id: ProcessId) => if id in snapshot then NameOf(snapshot[id]) else ""
  }

  ghost predicate ByNameOf(byName: map<string, Totals>, snapshot: Snapshot, ids: set<ProcessId>) {
    && (forall n :: n in byName <==> exists id :: id in ids && Key(snapshot)(id) == n)
    && (forall n :: n in byName ==> TotalsOf(byName[n], snapshot, Class(ids, Key(snapshot), n)))
  }

  lemma UnreportedIsZero(snapshot: Snapshot, ids: set<ProcessId>, m: Metric)
    requires !Reported(snapshot, ids, m)
    ensures Sum(ids, Value(snapshot, m)) == 0
  {
  }

  lemma MetricStep(metrics: map<Metric, int>, after: map<Metric, int>, snapshot: Snapshot,
                   ids: set<ProcessId>, id: ProcessId, m: Metric)
    requires id !in ids && id in snapshot
    requires m in metrics <==> Reported(snapshot, ids, m)
    requires m in metrics ==> metrics[m] == Sum(ids, Value(snapshot, m))
    requires Added(after, metrics, snapshot[id].metrics)
    ensures m in after <==> Reported(snapshot, ids + {id}, m)
    ensures m in after ==> after[m] == Sum(ids + {id}, Value(snapshot, m))
  {
    SumAdd(ids, Value(snapshot, m), id);
    assert id in ids + {id};
    if Reported(snapshot, ids, m) {
      var other :| other in ids && other in snapshot && m in snapshot[other].metrics;
      assert other in ids + {id};
    } else {
      UnreportedIsZero(snapshot, ids, m);
    }
  }

  lemma MetricsStep(metrics: map<Metric, int>, after: map<Metric, int>, snapshot: Snapshot,
                    ids: set<ProcessId>, id: ProcessId)
    requires id !in ids && id in snapshot
    requires MetricsOf(metrics, snapshot, ids) && Added(after, metrics, snapshot[id].metrics)
    ensures MetricsOf(after, snapshot, ids + {id})
  {
    forall m: Metric
      ensures m in after <==> Reported(snapshot, ids + {id}, m)
      ensures m in after ==> after[m] == Sum(ids + {id}, Value(snapshot, m))
    {
      MetricStep(metrics, after, snapshot, ids, id, m);
    }
  }

  lemma ClassStep<T(!new), K>(ids: set<T>, key: T -> K, id: T, k: K)
    ensures Class(ids + {id}, key, k) == if key(id) == k then Class(ids, key, k) + {id} else Class(ids, key, k)
  {
  }

  lemma ByNameStep(byName: map<string, Totals>, named: Totals, snapshot: Snapshot, ids: set<ProcessId>, id: ProcessId)
    requires id !in ids && id in snapshot && ByNameOf(byName, snapshot, ids)
    requires TotalsOf(named, snapshot, Class(ids, Key(snapshot), NameOf(snapshot[id])) + {id})
    ensures ByNameOf(byName[NameOf(snapshot[id]) := named], snapshot, ids + {id})
  {
    var key, name := Key(snapshot), NameOf(snapshot[id]);
    var after := byName[name := named];
    forall n
      ensures n in after <==> exists x :: x in ids + {id} && key(x) == n
      ensures n in after ==> TotalsOf(after[n], snapshot, Class(ids + {id}, key, n))
    {
      ClassStep(ids, key, id, n);
      assert id in ids + {id} && key(id) == name;
    }
  }

  lemma NamedBefore(byName: map<string, Totals>, snapshot: Snapshot, ids: set<ProcessId>, name: string)
    requires ByNameOf(byName, snapshot, ids)
    ensures TotalsOf(if name in byName then byName[name] else Totals(0, map[]), snapshot,
                     Class(ids, Key(snapshot), name))
  {
  }

  /** The body of the outer loop. */
  method AddProcess(snapshot: Snapshot, id: ProcessId, metrics: map<Metric, int>, byName: map<string, Totals>,
                    ghost done: set<ProcessId>)
    returns (metrics': map<Metric, int>, byName': map<string, Totals>)
    requires id in snapshot && id !in done
    requires MetricsOf(metrics, snapshot, done) && ByNameOf(byName, snapshot, done)
    ensures MetricsOf(metrics', snapshot, done + {id}) && ByNameOf(byName', snapshot, done + {id})
  {
    var process := snapshot[id];
    var name := NameOf(process);
    ghost var peers := Class(done, Key(snapshot), name);
    NamedBefore(byName, snapshot, done, name);
    var named := if name in byName then byName[name] else Totals(0, map[]);
    var namedMetrics;
    metrics', namedMetrics := AddMetrics(metrics, named.metrics, process.metrics);
    MetricsStep(metrics, metrics', snapshot, done, id);
    MetricsStep(named.metrics, namedMetrics, snapshot, peers, id);
    var total := Totals(named.count + 1, namedMetrics);
    ByNameStep(byName, total, snapshot, done, id);
    byName' := byName[name := total];
  }

  /** The totals of a tree, in whatever order its processes are visited. */
  method AggregateTree(root: ProcessId, snapshot: Snapshot) returns (r: Option<Aggregate>)
    ensures r.None? <==> root !in snapshot
    ensures r.Some? ==> TotalsOf(r.value.whole, snapshot, Tree(snapshot, root))
                        && ByNameOf(r.value.byName, snapshot, Tree(snapshot, root))
  {
    var processIds := TreeProcessIds(root, snapshot);
    if root in snapshot { TreeIsLeast(snapshot, root, {}); }
    if processIds == {} { return None; }
    var metrics: map<Metric, int>, byName: map<string, Totals> := map[], map[];
    var remaining := processIds;
    ghost var done: set<ProcessId> := {};
    while remaining != {}
      invariant remaining !! done && remaining + done == processIds
      invariant MetricsOf(metrics, snapshot, done) && ByNameOf(byName, snapshot, done)
      decreases remaining
    {
      var id := Pick(remaining);
      metrics, byName := AddProcess(snapshot, id, metrics, byName, done);
      remaining, done := remaining - {id}, done + {id};
    }
    assert done == processIds;
    return Some(Aggregate(Totals(|processIds|, metrics), byName));
  }

  // ---------------------------------------------------------------- who is counted under which name

  /** The processes counted under a name: those that bear it, and under "unknown" those without a name too. */
  ghost function Bearers(snapshot: Snapshot, ids: set<ProcessId>, n: string): set<ProcessId> {
    set id | id in ids && id in snapshot
             && (snapshot[id].name == Some(n) || (n == "unknown" && snapshot[id].name in {None, Some("")}))
  }

  /** A named process is counted under exactly its own name, with its own metrics. */
  lemma CountedByName(byName: map<string, Totals>, snapshot: Snapshot, ids: set<ProcessId>, n: string)
    requires ids <= snapshot.Keys && ByNameOf(byName, snapshot, ids)
    ensures n in byName <==> n != "" && Bearers(snapshot, ids, n) != {}
    ensures n in byName ==> TotalsOf(byName[n], snapshot, Bearers(snapshot, ids, n))
  {
    if n == "" {
      assert forall id :: id in ids ==> Key(snapshot)(id) != "";
    } else {
      forall id
        ensures id in Class(ids, Key(snapshot), n) <==> id in Bearers(snapshot, ids, n)
      {
      }
      assert Class(ids, Key(snapshot), n) == Bearers(snapshot, ids, n);
      if n in byName {
        var id :| id in ids && Key(snapshot)(id) == n;
        assert id in Bearers(snapshot, ids, n);
      }
    }
  }

  // ---------------------------------------------------------------- conservation

  ghost function CountIn(byName: map<string, Totals>): string -> int {
    (n: string) => if n in byName then byName[n].count else 0
  }

  ghost function MetricIn(byName: map<string, Totals>, m: Metric): string -> int {
    (n: string) => if n in byName then Get(byName[n].metrics, m) else 0
  }

  lemma NamesCover(byName: map<string, Totals>, snapshot: Snapshot, ids: set<ProcessId>)
    requires ByNameOf(byName, snapshot, ids)
    ensures forall id :: id in ids ==> Key(snapshot)(id) in byName.Keys
  {
  }

  /** No process is lost or counted twice: the whole is the sum of the totals by name. */
  lemma TotalsConserved(a: Aggregate, snapshot: Snapshot, ids: set<ProcessId>)
    requires TotalsOf(a.whole, snapshot, ids) && ByNameOf(a.byName, snapshot, ids)
    ensures a.whole.count == Sum(a.byName.Keys, CountIn(a.byName))
    ensures forall m: Metric :: Get(a.whole.metrics, m) == Sum(a.byName.Keys, MetricIn(a.byName, m))
    ensures forall m: Metric :: m in a.whole.metrics <==> exists n :: n in a.byName && m in a.byName[n].metrics
  {
    NamesCover(a.byName, snapshot, ids);
    CountConserved(a, snapshot, ids);
    forall m: Metric
      ensures Get(a.whole.metrics, m) == Sum(a.byName.Keys, MetricIn(a.byName, m))
      ensures m in a.whole.metrics <==> exists n :: n in a.byName && m in a.byName[n].metrics
    {
      MetricConserved(a, snapshot, ids, m);
      PresenceConserved(a, snapshot, ids, m);
    }
  }

  lemma CountConserved(a: Aggregate, snapshot: Snapshot, ids: set<ProcessId>)
    requires TotalsOf(a.whole, snapshot, ids) && ByNameOf(a.byName, snapshot, ids)
    ensures a.whole.count == Sum(a.byName.Keys, CountIn(a.byName))
  {
    var one, key := (id: ProcessId) => 1, Key(snapshot);
    NamesCover(a.byName, snapshot, ids);
    SumOnes(ids, one);
    SumOfClasses(ids, one, key, a.byName.Keys);
    forall n | n in a.byName
      ensures CountIn(a.byName)(n) == Sum(Class(ids, key, n), one)
    {
      SumOnes(Class(ids, key, n), one);
    }
    SumAgrees(a.byName.Keys, CountIn(a.byName), (n: string) => Sum(Class(ids, key, n), one));
  }

  lemma MetricConserved(a: Aggregate, snapshot: Snapshot, ids: set<ProcessId>, m: Metric)
    requires TotalsOf(a.whole, snapshot, ids) && ByNameOf(a.byName, snapshot, ids)
    ensures Get(a.whole.metrics, m) == Sum(a.byName.Keys, MetricIn(a.byName, m))
  {
    var f, key := Value(snapshot, m), Key(snapshot);
    NamesCover(a.byName, snapshot, ids);
    if m !in a.whole.metrics { UnreportedIsZero(snapshot, ids, m); }
    SumOfClasses(ids, f, key, a.byName.Keys);
    forall n | n in a.byName
      ensures MetricIn(a.byName, m)(n) == Sum(Class(ids, key, n), f)
    {
      if m !in a.byName[n].metrics { UnreportedIsZero(snapshot, Class(ids, key, n), m); }
    }
    SumAgrees(a.byName.Keys, MetricIn(a.byName, m), (n: string) => Sum(Class(ids, key, n), f));
  }

  lemma PresenceConserved(a: Aggregate, snapshot: Snapshot, ids: set<ProcessId>, m: Metric)
    requires TotalsOf(a.whole, snapshot, ids) && ByNameOf(a.byName, snapshot, ids)
    ensures m in a.whole.metrics <==> exists n :: n in a.byName && m in a.byName[n].metrics
  {
    hide Key;
    var key := Key(snapshot);
    if m in a.whole.metrics {
      var id :| id in ids && id in snapshot && m in snapshot[id].metrics;
      assert id in Class(ids, key, key(id)) && key(id) in a.byName;
      assert Reported(snapshot, Class(ids, key, key(id)), m);
    }
    if n :| n in a.byName && m in a.byName[n].metrics {
      var id :| id in Class(ids, key, n) && id in snapshot && m in snapshot[id].metrics;
      assert Reported(snapshot, ids, m);
    }
  }
}

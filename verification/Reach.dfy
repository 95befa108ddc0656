/** Views and clicks per product and day: an upsert that adds, and totals that
    sum over the days. */
module Reach {
  import opened Launches

  datatype Metric = Metric(views: nat, clicks: nat)

  type Metrics = map<(nat, int), Metric>

  function At(m: Metrics, id: nat, day: int): Metric {
    if (id, day) in m then m[(id, day)] else Metric(0, 0)
  }

  /** INSERT ... ON CONFLICT DO UPDATE: the row is created or added to. */
  function Bumped(m: Metrics, id: nat, day: int, views: nat, clicks: nat): Metrics {
    m[(id, day) := Metric(At(m, id, day).views + views, At(m, id, day).clicks + clicks)]
  }

  function RowsOf(m: Metrics, id: nat): set<(nat, int)> {
    set k | k in m && k.0 == id
  }

  function Plus(a: Metric, b: Metric): Metric {
    Metric(a.views + b.views, a.clicks + b.clicks)
  }

  ghost function SumOver(m: Metrics, keys: set<(nat, int)>): Metric
    requires keys <= m.Keys
  {
    if keys == {} then Metric(0, 0)
    else
      var k :| k in keys;
      Plus(SumOver(m, keys - {k}), m[k])
  }

  ghost function Totals(m: Metrics, id: nat): Metric {
    SumOver(m, RowsOf(m, id))
  }

  lemma {:induction false} SumSplit(m: Metrics, keys: set<(nat, int)>, k: (nat, int))
    requires keys <= m.Keys && k in keys
    ensures SumOver(m, keys) == Plus(SumOver(m, keys - {k}), m[k])
    decreases |keys|
  {
    var e :| e in keys && SumOver(m, keys) == Plus(SumOver(m, keys - {e}), m[e]);
    if e != k {
      SumSplit(m, keys - {e}, k);
      SumSplit(m, keys - {k}, e);
      assert keys - {e} - {k} == keys - {k} - {e};
      var rest := SumOver(m, keys - {k} - {e});
      assert Plus(Plus(rest, m[k]), m[e]) == Plus(Plus(rest, m[e]), m[k]);
    }
  }

  lemma {:induction false} SumFrame(m: Metrics, n: Metrics, keys: set<(nat, int)>)
    requires keys <= m.Keys && keys <= n.Keys && forall k | k in keys :: m[k] == n[k]
    ensures SumOver(m, keys) == SumOver(n, keys)
    decreases |keys|
  {
    if keys != {} {
      var k :| k in keys;
      SumSplit(m, keys, k);
      SumSplit(n, keys, k);
      SumFrame(m, n, keys - {k});
    }
  }

  /** A bump adds to the totals of its own product and to nobody else's. */
  lemma BumpAddsToTotals(m: Metrics, id: nat, day: int, views: nat, clicks: nat, other: nat)
    ensures Totals(Bumped(m, id, day, views, clicks), other) ==
      if other == id then Plus(Totals(m, id), Metric(views, clicks)) else Totals(m, other)
  {
    var n := Bumped(m, id, day, views, clicks);
    if other != id {
      assert RowsOf(n, other) == RowsOf(m, other);
      SumFrame(m, n, RowsOf(m, other));
    } else {
      var rest := RowsOf(m, id) - {(id, day)};
      assert RowsOf(n, id) == rest + {(id, day)} && RowsOf(n, id) - {(id, day)} == rest;
      SumSplit(n, RowsOf(n, id), (id, day));
      SumFrame(m, n, rest);
      if (id, day) in m {
        SumSplit(m, RowsOf(m, id), (id, day));
      } else {
        assert RowsOf(m, id) == rest;
      }
    }
  }

  /** The ids of a beacon that name a visible product. */
  function Counted(rows: Rows, ids: seq<nat>): set<nat> {
    set i | i in ids && i in rows && Visible(rows[i])
  }

  /** Every total moved by one `step` for the products in `who`, and by nothing
      for the others. */
  ghost predicate Moved(before: Metrics, after: Metrics, who: set<nat>, step: Metric) {
    forall id :: Totals(after, id) == if id in who then Plus(Totals(before, id), step) else Totals(before, id)
  }

  lemma BumpMoves(before: Metrics, m: Metrics, who: set<nat>, id: nat, day: int, step: Metric)
    requires Moved(before, m, who, step) && id !in who
    ensures Moved(before, Bumped(m, id, day, step.views, step.clicks), who + {id}, step)
  {
    forall other: nat {
      BumpAddsToTotals(m, id, day, step.views, step.clicks, other);
    }
  }

  /** The distinct ids viewed so far, and the counters after them. */
  datatype Tour = Start | Then(earlier: Tour, id: nat)

  ghost function Shown(tour: Tour): set<nat> {
    if tour.Start? then {} else Shown(tour.earlier) + {tour.id}
  }

  ghost predicate Distinct(tour: Tour) {
    tour.Start? || (Distinct(tour.earlier) && tour.id !in Shown(tour.earlier))
  }

  /** The tour has shown each of `launches` once, but for those still to do. */
  ghost predicate Touring(launches: set<nat>, todo: set<nat>, tour: Tour) {
    Distinct(tour) && todo <= launches && Shown(tour) == launches - todo
  }

  lemma TouringNext(launches: set<nat>, todo: set<nat>, tour: Tour, id: nat)
    requires Touring(launches, todo, tour) && id in todo
    ensures Touring(launches, todo - {id}, Then(tour, id))
  {}

  ghost function Viewed(m: Metrics, tour: Tour, day: int): Metrics {
    if tour.Start? then m else Bumped(Viewed(m, tour.earlier, day), tour.id, day, 1, 0)
  }

  lemma {:induction false} ViewedMoves(m: Metrics, tour: Tour, day: int)
    requires Distinct(tour)
    ensures Moved(m, Viewed(m, tour, day), Shown(tour), Metric(1, 0))
  {
    if tour.Then? {
      ViewedMoves(m, tour.earlier, day);
      BumpMoves(m, Viewed(m, tour.earlier, day), Shown(tour.earlier), tour.id, day, Metric(1, 0));
    }
  }

  class Counter {
    var metrics: Metrics

    constructor ()
      ensures metrics == map[]
    {
      metrics := map[];
    }

    /** One view each for some products, in no given order. */
    method ViewEach(launches: set<nat>, today: int) returns (counted: nat, ghost tour: Tour)
      modifies this
      ensures counted == |launches|
      ensures metrics == Viewed(old(metrics), tour, today) && Touring(launches, {}, tour)
    {
      var todo := launches;
      tour := Start;
      ghost var before := metrics;
      counted := 0;
      while todo != {}
        invariant metrics == Viewed(before, tour, today) && Touring(launches, todo, tour)
        invariant todo <= launches && counted == |launches| - |todo|
        decreases |todo|
      {
        var launch :| launch in todo;
        metrics := Bumped(metrics, launch, today, 1, 0);
        counted := counted + 1;
        TouringNext(launches, todo, tour, launch);
        tour := Then(tour, launch);
        todo := todo - {launch};
      }
    }

    method ViewAll(launches: set<nat>, today: int) returns (counted: nat)
      modifies this
      ensures counted == |launches|
      ensures Moved(old(metrics), metrics, launches, Metric(1, 0))
    {
      ghost var tour;
      counted, tour := ViewEach(launches, today);
      ViewedMoves(old(metrics), tour, today);
    }

    /** The visible products shown, each once however often its id is repeated;
        every other total stays. */
    method RecordViews(rows: Rows, ids: seq<nat>, today: int) returns (counted: nat)
      modifies this
      ensures counted == |Counted(rows, ids)|
      ensures Moved(old(metrics), metrics, Counted(rows, ids), Metric(1, 0))
      ensures forall id ::
        var shown := id in ids && id in rows && (rows[id].state == Live || rows[id].state == Ended);
        Totals(metrics, id) == if shown then Plus(old(Totals(metrics, id)), Metric(1, 0)) else old(Totals(metrics, id))
    {
      counted := ViewAll(Counted(rows, ids), today);
    }

    method RecordClick(rows: Rows, id: nat, today: int) returns (found: bool)
      modifies this
      ensures found <==> id in rows && Visible(rows[id])
      ensures Moved(old(metrics), metrics, if found then {id} else {}, Metric(0, 1))
    {
      found := id in rows && Visible(rows[id]);
      if found {
        BumpMoves(metrics, metrics, {}, id, today, Metric(0, 1));
        assert {} + {id} == {id};
        metrics := Bumped(metrics, id, today, 0, 1);
      }
    }
  }
}

/** Every trace of `spend` on one key: how much one window grants, and how much
    any span of the window's length does. */
module SpendWindows {
  import opened Wrappers
  import opened RedisStore

  /** The allowance, in milliseconds of window. */
  datatype Allowance = Allowance(limit: nat, windowMs: int)

  /** A granted charge and the window (numbered from 0) it fell into. */
  datatype Grant = Grant(time: int, window: nat)

  /** `pending`: an INCR answered 1 and its EXPIRE is still to come. `starts` are
      the instants the windows so far were opened at. */
  datatype State = State(now: int, store: Store<()>, pending: bool, starts: seq<int>, grants: seq<Grant>)

  datatype Event = Tick(ms: nat) | Charge | SetExpiry

  function Charged(a: Allowance, s: State): State {
    var store := Incr(s.store, (), s.now);
    var starts := if Live(s.store, (), s.now) then s.starts else s.starts + [s.now];
    var used := store[()].value;
    var grants := if used <= a.limit && starts != [] then s.grants + [Grant(s.now, |starts| - 1)] else s.grants;
    State(s.now, store, s.pending || used == 1, starts, grants)
  }

  predicate Enabled(s: State, e: Event) {
    e.SetExpiry? ==> s.pending
  }

  function Step(a: Allowance, s: State, e: Event): State {
    match e
    case Tick(ms) => s.(now := s.now + ms)
    case Charge => Charged(a, s)
    case SetExpiry => s.(store := Expire(s.store, (), a.windowMs, s.now), pending := false)
  }

  /** Time can always pass and charges come; the EXPIRE can come as long as it is
      due, and only then. */
  lemma NothingIsStuck(s: State, ms: nat)
    ensures Enabled(s, Tick(ms)) && Enabled(s, Charge) && (Enabled(s, SetExpiry) <==> s.pending)
  {}

  /** A charge that nothing interrupts: its INCR and, when that opened a window,
      its EXPIRE. */
  function ChargedAlone(a: Allowance, s: State): State {
    var t := Charged(a, s);
    if t.pending then Step(a, t, SetExpiry) else t
  }

  function After(a: Allowance, now: int, trace: seq<Event>): Option<State>
    decreases |trace|
  {
    if trace == [] then Some(State(now, map[], false, [], []))
    else
      match After(a, now, trace[..|trace| - 1])
      case None => None
      case Some(s) => if Enabled(s, trace[|trace| - 1]) then Some(Step(a, s, trace[|trace| - 1])) else None
  }

  function InWindow(grants: seq<Grant>, w: nat): nat {
    if grants == [] then 0
    else InWindow(grants[..|grants| - 1], w) + if grants[|grants| - 1].window == w then 1 else 0
  }

  predicate Between(g: Grant, from: int, to: int) {
    from <= g.time < to
  }

  function InSpan(grants: seq<Grant>, from: int, to: int): nat {
    if grants == [] then 0
    else InSpan(grants[..|grants| - 1], from, to) + if Between(grants[|grants| - 1], from, to) then 1 else 0
  }

  // What every trace keeps

  function Min(x: int, y: int): int { if x < y then x else y }

  ghost predicate CounterOk(a: Allowance, s: State) {
    && (() in s.store <==> s.starts != [])
    && (() in s.store ==>
          var e := s.store[()];
          && e.value >= 1
          && InWindow(s.grants, |s.starts| - 1) == Min(e.value, a.limit)
          && (s.pending ==> e.expiry.None?)
          && (!s.pending ==> e.expiry.Some? && e.expiry.value >= s.starts[|s.starts| - 1] + a.windowMs))
    && (s.pending ==> () in s.store)
  }

  ghost predicate WindowsOk(a: Allowance, s: State) {
    && (forall j, k | 0 <= j < k < |s.starts| :: s.starts[k] >= s.starts[j] + a.windowMs)
    && (forall j | 0 <= j < |s.starts| :: s.starts[j] <= s.now)
    && (forall g | g in s.grants :: GrantOk(s.starts, s.now, g))
    && (forall w :: InWindow(s.grants, w) <= a.limit)
    && (forall w | |s.starts| <= w :: InWindow(s.grants, w) == 0)
    && (a.limit > 0 ==> forall w | 0 <= w < |s.starts| :: Grant(s.starts[w], w) in s.grants)
  }

  predicate GrantOk(starts: seq<int>, now: int, g: Grant) {
    && g.window < |starts| && starts[g.window] <= g.time <= now
    && (g.window + 1 < |starts| ==> g.time <= starts[g.window + 1])
  }

  lemma GrantMore(grants: seq<Grant>, g: Grant)
    ensures forall w: nat :: InWindow(grants + [g], w) == InWindow(grants, w) + if g.window == w then 1 else 0
  {
    assert (grants + [g])[..|grants|] == grants;
  }

  lemma {:induction false} GrantCounts(grants: seq<Grant>, g: Grant)
    requires g in grants
    ensures InWindow(grants, g.window) > 0
  {
    if g != grants[|grants| - 1] {
      GrantCounts(grants[..|grants| - 1], g);
    }
  }

  lemma ChargeKeepsCounter(a: Allowance, s: State)
    requires CounterOk(a, s) && WindowsOk(a, s) && a.windowMs > 0
    ensures CounterOk(a, Charged(a, s))
    ensures forall w :: InWindow(Charged(a, s).grants, w) <= a.limit
    ensures forall w | |Charged(a, s).starts| <= w :: InWindow(Charged(a, s).grants, w) == 0
  {
    GrantMore(s.grants, Grant(s.now, |Charged(a, s).starts| - 1));
    assert InWindow(s.grants, |s.starts|) == 0;
  }

  lemma ChargeKeepsGrants(a: Allowance, s: State)
    requires CounterOk(a, s) && WindowsOk(a, s) && a.windowMs > 0
    ensures forall g | g in Charged(a, s).grants :: GrantOk(Charged(a, s).starts, s.now, g)
    ensures a.limit > 0 ==> forall w | 0 <= w < |Charged(a, s).starts| :: Grant(Charged(a, s).starts[w], w) in Charged(a, s).grants
  {
    var t := Charged(a, s);
    assert forall g | g in s.grants :: g in t.grants;
    forall g | g in t.grants ensures GrantOk(t.starts, t.now, g) {
      if g in s.grants {
        assert GrantOk(s.starts, s.now, g);
      }
    }
    forall w | a.limit > 0 && 0 <= w < |t.starts| ensures Grant(t.starts[w], w) in t.grants {
      if w == |s.starts| {
        assert t.grants[|s.grants|] == Grant(s.now, w);
      } else {
        assert Grant(s.starts[w], w) in s.grants;
      }
    }
  }

  lemma ChargeKeeps(a: Allowance, s: State)
    requires a.windowMs > 0 && CounterOk(a, s) && WindowsOk(a, s)
    ensures CounterOk(a, Charged(a, s)) && WindowsOk(a, Charged(a, s))
  {
    ChargeKeepsCounter(a, s);
    ChargeKeepsGrants(a, s);
  }

  lemma {:induction false} TraceKeeps(a: Allowance, now: int, trace: seq<Event>)
    requires a.windowMs > 0 && After(a, now, trace).Some?
    ensures CounterOk(a, After(a, now, trace).value) && WindowsOk(a, After(a, now, trace).value)
    decreases |trace|
  {
    if trace != [] {
      TraceKeeps(a, now, trace[..|trace| - 1]);
      var s, e := After(a, now, trace[..|trace| - 1]).value, trace[|trace| - 1];
      if e.Charge? {
        ChargeKeeps(a, s);
      } else {
        OthersKeep(a, s, e);
      }
    }
  }

  lemma OthersKeep(a: Allowance, s: State, e: Event)
    requires a.windowMs > 0 && CounterOk(a, s) && WindowsOk(a, s) && Enabled(s, e) && !e.Charge?
    ensures CounterOk(a, Step(a, s, e)) && WindowsOk(a, Step(a, s, e))
  {
    forall g | g in s.grants ensures GrantOk(s.starts, Step(a, s, e).now, g) {
      assert GrantOk(s.starts, s.now, g);
    }
  }

  lemma {:induction false} SpanByWindow(grants: seq<Grant>, from: int, to: int, w: nat)
    requires forall g | g in grants && Between(g, from, to) :: g.window == w || g.window == w + 1
    ensures InSpan(grants, from, to) <= InWindow(grants, w) + InWindow(grants, w + 1)
    ensures (exists g :: g in grants && g.window == w && !Between(g, from, to)) ==>
      InSpan(grants, from, to) < InWindow(grants, w) + InWindow(grants, w + 1)
    ensures (forall g | g in grants && Between(g, from, to) :: g.window == w) ==> InSpan(grants, from, to) <= InWindow(grants, w)
  {
    if grants != [] {
      var shorter, last := grants[..|grants| - 1], grants[|grants| - 1];
      assert forall g | g in shorter :: g in grants;
      assert forall g | g in grants :: g in shorter || g == last;
      SpanByWindow(shorter, from, to, w);
    }
  }

  lemma {:induction false} SpanIsEmpty(grants: seq<Grant>, from: int, to: int)
    requires forall g | g in grants :: !Between(g, from, to)
    ensures InSpan(grants, from, to) == 0
  {
    if grants != [] {
      SpanIsEmpty(grants[..|grants| - 1], from, to);
    }
  }

  lemma {:induction false} FirstInSpan(grants: seq<Grant>, from: int, to: int, g: Grant) returns (first: Grant)
    requires g in grants && Between(g, from, to)
    ensures first in grants && Between(first, from, to)
    ensures forall h | h in grants && Between(h, from, to) :: first.window <= h.window
    decreases g.window
  {
    first := g;
    if h :| h in grants && Between(h, from, to) && h.window < g.window {
      first := FirstInSpan(grants, from, to, h);
    }
  }

  /** Charges two windows apart are at least a window's length apart. */
  lemma FarWindowsFarApart(a: Allowance, s: State, g: Grant, h: Grant)
    requires WindowsOk(a, s) && g in s.grants && h in s.grants && g.window + 1 < h.window
    ensures h.time >= g.time + a.windowMs
  {
    assert GrantOk(s.starts, s.now, g) && GrantOk(s.starts, s.now, h);
    assert s.starts[h.window] >= s.starts[g.window + 1] + a.windowMs;
  }

  /** No window grants more than the limit, and no span of one window's length
      grants more than twice the limit less one. */
  lemma SpanBound(a: Allowance, now: int, trace: seq<Event>, from: int, w: nat)
    requires a.windowMs > 0 && After(a, now, trace).Some?
    ensures var s := After(a, now, trace).value;
      && InWindow(s.grants, w) <= a.limit
      && InSpan(s.grants, from, from + a.windowMs) <= if a.limit == 0 then 0 else 2 * a.limit - 1
  {
    TraceKeeps(a, now, trace);
    var s := After(a, now, trace).value;
    var to := from + a.windowMs;
    if g :| g in s.grants && Between(g, from, to) {
      GrantCounts(s.grants, g);
      var first := FirstInSpan(s.grants, from, to, g);
      var v := first.window;
      forall h | h in s.grants && Between(h, from, to) ensures h.window == v || h.window == v + 1 {
        if h.window > v + 1 {
          FarWindowsFarApart(a, s, first, h);
        }
      }
      SpanByWindow(s.grants, from, to, v);
      assert InWindow(s.grants, v) <= a.limit && InWindow(s.grants, v + 1) <= a.limit;
      if h :| h in s.grants && Between(h, from, to) && h.window == v + 1 {
        assert GrantOk(s.starts, s.now, h);
        assert Grant(s.starts[v], v) in s.grants;
        assert !Between(Grant(s.starts[v], v), from, to);
      }
    } else {
      SpanIsEmpty(s.grants, from, to);
    }
  }

  // The bound is reached

  lemma ThenStep(a: Allowance, now: int, trace: seq<Event>, e: Event)
    requires After(a, now, trace).Some? && Enabled(After(a, now, trace).value, e)
    ensures After(a, now, trace + [e]) == Some(Step(a, After(a, now, trace).value, e))
  {
    assert (trace + [e])[..|trace|] == trace;
  }

  lemma SpanMore(grants: seq<Grant>, g: Grant, from: int, to: int)
    ensures InSpan(grants + [g], from, to) == InSpan(grants, from, to) + if Between(g, from, to) then 1 else 0
  {
    assert (grants + [g])[..|grants|] == grants;
  }

  /** `n` more charges of an open window, all inside its limit. */
  lemma {:induction false} ChargeMore(a: Allowance, now: int, trace: seq<Event>, n: nat, from: int, to: int) returns (longer: seq<Event>)
    requires After(a, now, trace).Some?
    requires var s := After(a, now, trace).value;
      && Live(s.store, (), s.now) && s.starts != [] && s.store[()].value >= 1 && s.store[()].value + n <= a.limit && from <= s.now < to
    ensures After(a, now, longer).Some?
    ensures var s, t := After(a, now, trace).value, After(a, now, longer).value;
      && t == s.(store := t.store, grants := t.grants) && () in t.store && t.store[()].expiry == s.store[()].expiry
      && t.store[()].value == s.store[()].value + n
      && InSpan(t.grants, from, to) == InSpan(s.grants, from, to) + n
    decreases n
  {
    longer := trace;
    if n > 0 {
      var s := After(a, now, trace).value;
      ThenStep(a, now, trace, Charge);
      SpanMore(s.grants, Grant(s.now, |s.starts| - 1), from, to);
      longer := ChargeMore(a, now, trace + [Charge], n - 1, from, to);
    }
  }

  /** A charge that opens a window, and its EXPIRE at the same instant. */
  lemma OpenWindow(a: Allowance, now: int, trace: seq<Event>, from: int, to: int) returns (longer: seq<Event>)
    requires After(a, now, trace).Some? && a.limit > 0
    requires var s := After(a, now, trace).value; !Live(s.store, (), s.now)
    ensures After(a, now, longer).Some?
    ensures var s, t := After(a, now, trace).value, After(a, now, longer).value;
      && t.now == s.now && t.starts != [] && () in t.store && t.store[()] == Entry(1, Some(s.now + a.windowMs))
      && InSpan(t.grants, from, to) == InSpan(s.grants, from, to) + if from <= s.now < to then 1 else 0
  {
    var s := After(a, now, trace).value;
    ThenStep(a, now, trace, Charge);
    SpanMore(s.grants, Grant(s.now, |s.starts|), from, to);
    ThenStep(a, now, trace + [Charge], SetExpiry);
    longer := trace + [Charge] + [SetExpiry];
  }

  /** A window opened at `now`, filled up in its last millisecond, and the next
      one filled as soon as it opens: 2 * limit - 1 grants in one span. */
  lemma SpanBoundIsReached(a: Allowance, now: int) returns (trace: seq<Event>)
    requires a.windowMs > 1 && a.limit > 0
    ensures After(a, now, trace).Some?
    ensures var from := now + a.windowMs - 1;
      InSpan(After(a, now, trace).value.grants, from, from + a.windowMs) == 2 * a.limit - 1
  {
    var from := now + a.windowMs - 1;
    var to := from + a.windowMs;
    trace := OpenWindow(a, now, [], from, to);
    ThenStep(a, now, trace, Tick(a.windowMs - 1));
    trace := trace + [Tick(a.windowMs - 1)];
    trace := ChargeMore(a, now, trace, a.limit - 1, from, to);
    ThenStep(a, now, trace, Tick(1));
    trace := trace + [Tick(1)];
    trace := OpenWindow(a, now, trace, from, to);
    trace := ChargeMore(a, now, trace, a.limit - 1, from, to);
  }
}

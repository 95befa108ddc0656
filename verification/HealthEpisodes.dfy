/** `_with_clearing`: health reasons with the start of their episode, kept for a
    while after their condition clears. Each code has a `since` key without an
    expiry and a `seen` key that lives for three minutes. */
module HealthEpisodes {
  import opened Wrappers
  import opened RedisStore

  const CLEAR_AFTER_MS := 180 * 1000

  datatype Severity = Info | Warning | Critical

  datatype Spec = Spec(code: string, severity: Severity)

  datatype Key = Since(code: string) | Seen(code: string)

  datatype Reason = Reason(spec: Spec, detail: string, since: int)

  function DetailOf(observed: map<string, string>, code: string): Option<string> {
    if code in observed then Some(observed[code]) else None
  }

  /** What one read reports of one code while Redis answers. */
  function Report(s: Store<Key>, spec: Spec, detail: Option<string>, now: int): Option<Reason> {
    var since := Get(s, Since(spec.code), now);
    if detail.Some? then Some(Reason(spec, detail.value, since.UnwrapOr(now)))
    else if spec.severity == Critical then None
    else
      match Get(s, Seen(spec.code), now)
      case None => None
      case Some(seen) => Some(Reason(spec, "clearing", since.UnwrapOr(seen)))
  }

  /** What it leaves in Redis. */
  function Noted(s: Store<Key>, spec: Spec, observed: bool, now: int): Store<Key> {
    if observed then
      var kept := if Live(s, Since(spec.code), now) then s else s[Since(spec.code) := Entry(now, None)];
      SetEx(kept, Seen(spec.code), now, CLEAR_AFTER_MS, now)
    else if spec.severity == Critical then Delete(Delete(s, Since(spec.code)), Seen(spec.code))
    else if Live(s, Seen(spec.code), now) then s
    else Delete(s, Since(spec.code))
  }

  /** The reasons of a read, in the order of the codes. */
  function Reports(s: Store<Key>, specs: seq<Spec>, observed: map<string, string>, now: int, redisOk: bool): seq<Reason> {
    if specs == [] then []
    else
      var spec := specs[|specs| - 1];
      var detail := DetailOf(observed, spec.code);
      var report := if redisOk then Report(s, spec, detail, now)
                    else if detail.Some? then Some(Reason(spec, detail.value, now)) else None;
      Reports(s, specs[..|specs| - 1], observed, now, redisOk) + if report.Some? then [report.value] else []
  }

  ghost predicate SameCode(s: Store<Key>, t: Store<Key>, code: string) {
    && (Since(code) in s <==> Since(code) in t) && (Seen(code) in s <==> Seen(code) in t)
    && (Since(code) in s ==> s[Since(code)] == t[Since(code)]) && (Seen(code) in s ==> s[Seen(code)] == t[Seen(code)])
  }

  /** A read of one code touches no other. */
  lemma OthersKept(s: Store<Key>, spec: Spec, observed: bool, now: int, code: string)
    requires code != spec.code
    ensures SameCode(Noted(s, spec, observed, now), s, code)
  {}

  lemma CodeAlone(s: Store<Key>, t: Store<Key>, spec: Spec, detail: Option<string>, now: int)
    requires SameCode(s, t, spec.code)
    ensures Report(s, spec, detail, now) == Report(t, spec, detail, now)
    ensures SameCode(Noted(s, spec, detail.Some?, now), Noted(t, spec, detail.Some?, now), spec.code)
  {}

  /** After the first n codes: those are noted, the others as they were. */
  ghost predicate ReadSoFar(start: Store<Key>, s: Store<Key>, specs: seq<Spec>, n: nat, observed: map<string, string>, now: int)
    requires n <= |specs|
  {
    && (forall i | n <= i < |specs| :: SameCode(s, start, specs[i].code))
    && (forall i | 0 <= i < n :: SameCode(s, Noted(start, specs[i], specs[i].code in observed, now), specs[i].code))
  }

  lemma ReadNext(start: Store<Key>, s: Store<Key>, specs: seq<Spec>, n: nat, observed: map<string, string>, now: int)
    requires n < |specs| && forall i, j | 0 <= i < j < |specs| :: specs[i].code != specs[j].code
    requires ReadSoFar(start, s, specs, n, observed, now)
    ensures ReadSoFar(start, Noted(s, specs[n], specs[n].code in observed, now), specs, n + 1, observed, now)
    ensures Report(s, specs[n], DetailOf(observed, specs[n].code), now) == Report(start, specs[n], DetailOf(observed, specs[n].code), now)
  {
    CodeAlone(s, start, specs[n], DetailOf(observed, specs[n].code), now);
    forall i | 0 <= i < |specs| && i != n ensures SameCode(Noted(s, specs[n], specs[n].code in observed, now), s, specs[i].code) {
      OthersKept(s, specs[n], specs[n].code in observed, now, specs[i].code);
    }
  }

  class HealthService {
    const redis: Redis<Key>
    const specs: seq<Spec>

    constructor (redis: Redis<Key>, specs: seq<Spec>)
      ensures this.redis == redis && this.specs == specs
    {
      this.redis := redis;
      this.specs := specs;
    }

    /** One code of the read. */
    method ReadCode(spec: Spec, detail: Option<string>, redisOk: bool) returns (report: Option<Reason>)
      modifies redis
      ensures redis.now == old(redis.now)
      ensures redis.store == if redisOk then Noted(old(redis.store), spec, detail.Some?, redis.now) else old(redis.store)
      ensures report == if redisOk then Report(old(redis.store), spec, detail, redis.now)
                        else if detail.Some? then Some(Reason(spec, detail.value, redis.now)) else None
    {
      var now := redis.now;
      if detail.None? && !redisOk {
        return None;
      }
      if detail.Some? {
        var since := now;
        if redisOk {
          var raw := Get(redis.store, Since(spec.code), now);
          if raw.None? {
            redis.store := redis.store[Since(spec.code) := Entry(now, None)];
          } else {
            since := raw.value;
          }
          redis.store := SetEx(redis.store, Seen(spec.code), now, CLEAR_AFTER_MS, now);
        }
        return Some(Reason(spec, detail.value, since));
      }
      if spec.severity == Critical {
        redis.store := Delete(Delete(redis.store, Since(spec.code)), Seen(spec.code));
        return None;
      }
      var seen := Get(redis.store, Seen(spec.code), now);
      if seen.None? {
        redis.store := Delete(redis.store, Since(spec.code));
        return None;
      }
      var since := Get(redis.store, Since(spec.code), now);
      return Some(Reason(spec, "clearing", since.UnwrapOr(seen.value)));
    }

    method WithClearing(observed: map<string, string>, redisOk: bool) returns (reasons: seq<Reason>)
      requires DistinctCodes(specs)
      modifies redis
      ensures redis.now == old(redis.now)
      ensures reasons == Reports(old(redis.store), specs, observed, redis.now, redisOk)
      ensures !redisOk ==> redis.store == old(redis.store)
      ensures redisOk ==> ReadSoFar(old(redis.store), redis.store, specs, |specs|, observed, redis.now)
    {
      ghost var start := redis.store;
      reasons := [];
      for n := 0 to |specs|
        invariant redis.now == old(redis.now)
        invariant reasons == Reports(start, specs[..n], observed, redis.now, redisOk)
        invariant if redisOk then ReadSoFar(start, redis.store, specs, n, observed, redis.now) else redis.store == start
      {
        assert specs[..n + 1][..n] == specs[..n];
        if redisOk {
          ReadNext(start, redis.store, specs, n, observed, redis.now);
        }
        var report := ReadCode(specs[n], DetailOf(observed, specs[n].code), redisOk);
        if report.Some? {
          reasons := reasons + [report.value];
        }
      }
      assert specs[..|specs|] == specs;
    }
  }

  // One code over a history of reads

  datatype Read = Read(time: int, observed: bool)

  predicate Ordered(log: seq<Read>) {
    forall i, j | 0 <= i < j < |log| :: log[i].time <= log[j].time
  }

  function StoreAfter(spec: Spec, log: seq<Read>): Store<Key> {
    if log == [] then map[]
    else Noted(StoreAfter(spec, log[..|log| - 1]), spec, log[|log| - 1].observed, log[|log| - 1].time)
  }

  /** The code ought to be reported at the n-th read: observed now, or, unless it
      is critical, at a read less than three minutes before. */
  predicate Due(spec: Spec, log: seq<Read>, n: nat)
    requires n < |log|
  {
    log[n].observed
    || (spec.severity != Critical
        && exists j :: 0 <= j < n && log[j].observed && log[n].time - log[j].time < 180_000)
  }

  /** The first read of the episode that the n-th read is part of: no read since
      has found the code cleared. */
  function EpisodeStart(spec: Spec, log: seq<Read>, n: nat): (start: nat)
    requires n < |log|
    ensures start <= n
  {
    if n == 0 || !Due(spec, log, n - 1) then n else EpisodeStart(spec, log, n - 1)
  }

  lemma DueSince(spec: Spec, log: seq<Read>, n: nat)
    requires Ordered(log) && 0 < n < |log| && Due(spec, log, n) && !log[n].observed
    ensures Due(spec, log, n - 1)
  {
    var j :| 0 <= j < n && log[j].observed && log[n].time - log[j].time < CLEAR_AFTER_MS;
    assert j < n - 1 ==> log[n - 1].time - log[j].time < CLEAR_AFTER_MS;
  }

  /** An episode starts with an observation, and every read in it is due. */
  lemma {:induction false} EpisodeStartsObserved(spec: Spec, log: seq<Read>, n: nat)
    requires Ordered(log) && n < |log| && Due(spec, log, n)
    ensures var start := EpisodeStart(spec, log, n);
      && log[start].observed && (start > 0 ==> !Due(spec, log, start - 1))
      && forall k | start <= k <= n :: Due(spec, log, k)
  {
    if n > 0 && Due(spec, log, n - 1) {
      EpisodeStartsObserved(spec, log, n - 1);
    } else if n > 0 && !log[n].observed {
      DueSince(spec, log, n);
    }
  }

  /** What the two keys hold after a history of reads. */
  ghost predicate Kept(spec: Spec, log: seq<Read>, s: Store<Key>) {
    && s.Keys <= {Since(spec.code), Seen(spec.code)}
    && (Since(spec.code) in s <==> log != [] && Due(spec, log, |log| - 1))
    && (Since(spec.code) in s ==> s[Since(spec.code)] == Entry(log[EpisodeStart(spec, log, |log| - 1)].time, None))
    && SeenKept(spec, log, s)
  }

  ghost predicate SeenKept(spec: Spec, log: seq<Read>, s: Store<Key>) {
    && (Seen(spec.code) in s ==>
          exists j :: 0 <= j < |log| && IsLast(spec, log, j)
                      && s[Seen(spec.code)] == Entry(log[j].time, Some(log[j].time + CLEAR_AFTER_MS)))
    && (Seen(spec.code) !in s ==>
          if spec.severity == Critical then log != [] ==> !log[|log| - 1].observed
          else forall j | 0 <= j < |log| :: !log[j].observed)
  }

  /** The last observation, and for a critical code also the last read. */
  ghost predicate IsLast(spec: Spec, log: seq<Read>, j: nat)
    requires j < |log|
  {
    && log[j].observed && (forall k | j < k < |log| :: !log[k].observed)
    && (spec.severity == Critical ==> j == |log| - 1)
  }

  lemma DueFrame(spec: Spec, log: seq<Read>, n: nat, m: nat)
    requires m < n <= |log|
    ensures Due(spec, log[..n], m) <==> Due(spec, log, m)
    ensures EpisodeStart(spec, log[..n], m) == EpisodeStart(spec, log, m)
  {
    if m > 0 {
      DueFrame(spec, log, n, m - 1);
    }
    if Due(spec, log, m) && !log[m].observed {
      var j :| 0 <= j < m && log[j].observed && log[m].time - log[j].time < CLEAR_AFTER_MS;
      assert log[..n][j] == log[j];
    }
  }

  /** The episode at one more read continues the one before it, or is new. */
  lemma NextEpisode(spec: Spec, log: seq<Read>, read: Read)
    ensures var longer := log + [read];
      EpisodeStart(spec, longer, |log|) ==
      if log != [] && Due(spec, log, |log| - 1) then EpisodeStart(spec, log, |log| - 1) else |log|
  {
    var longer := log + [read];
    assert longer[..|log|] == log;
    if log != [] {
      DueFrame(spec, longer, |log|, |log| - 1);
    }
  }

  lemma KeptObserved(spec: Spec, log: seq<Read>, read: Read, s: Store<Key>)
    requires Kept(spec, log, s) && read.observed
    ensures Kept(spec, log + [read], Noted(s, spec, true, read.time))
    ensures Get(s, Since(spec.code), read.time).UnwrapOr(read.time) == (log + [read])[EpisodeStart(spec, log + [read], |log|)].time
  {
    NextEpisode(spec, log, read);
    assert IsLast(spec, log + [read], |log|);
  }

  lemma SeenMeansDue(spec: Spec, log: seq<Read>, read: Read, s: Store<Key>)
    requires Ordered(log + [read]) && Kept(spec, log, s) && !read.observed && spec.severity != Critical
    ensures Live(s, Seen(spec.code), read.time) <==> Due(spec, log + [read], |log|)
  {
    var longer := log + [read];
    if Seen(spec.code) in s {
      var j :| 0 <= j < |log| && IsLast(spec, log, j)
        && s[Seen(spec.code)] == Entry(log[j].time, Some(log[j].time + CLEAR_AFTER_MS));
      assert longer[j] == log[j];
      if Due(spec, longer, |log|) {
        var k :| 0 <= k < |log| && longer[k].observed && read.time - longer[k].time < CLEAR_AFTER_MS;
        assert k <= j && longer[k].time <= longer[j].time;
      }
    }
  }

  lemma KeptClearing(spec: Spec, log: seq<Read>, read: Read, s: Store<Key>)
    requires Ordered(log + [read]) && Kept(spec, log, s) && !read.observed && spec.severity != Critical
    ensures Kept(spec, log + [read], Noted(s, spec, false, read.time))
    ensures Due(spec, log + [read], |log|) ==>
      Since(spec.code) in s && s[Since(spec.code)] == Entry((log + [read])[EpisodeStart(spec, log + [read], |log|)].time, None)
  {
    var longer := log + [read];
    SeenMeansDue(spec, log, read, s);
    NextEpisode(spec, log, read);
    assert longer[..|log|] == log;
    if Due(spec, longer, |log|) {
      DueSince(spec, longer, |log|);
      DueFrame(spec, longer, |log|, |log| - 1);
    }
    SeenClearing(spec, log, read, s);
  }

  lemma SeenClearing(spec: Spec, log: seq<Read>, read: Read, s: Store<Key>)
    requires SeenKept(spec, log, s) && !read.observed && spec.severity != Critical
    ensures SeenKept(spec, log + [read], Noted(s, spec, false, read.time))
  {
    if Seen(spec.code) in s {
      var j :| 0 <= j < |log| && IsLast(spec, log, j)
        && s[Seen(spec.code)] == Entry(log[j].time, Some(log[j].time + CLEAR_AFTER_MS));
      assert IsLast(spec, log + [read], j) && (log + [read])[j] == log[j];
    }
  }

  lemma KeptCritical(spec: Spec, log: seq<Read>, read: Read, s: Store<Key>)
    requires Kept(spec, log, s) && !read.observed && spec.severity == Critical
    ensures Kept(spec, log + [read], Noted(s, spec, false, read.time))
  {}

  lemma {:induction false} HistoryKept(spec: Spec, log: seq<Read>)
    requires Ordered(log)
    ensures Kept(spec, log, StoreAfter(spec, log))
    decreases |log|
  {
    if log != [] {
      var shorter, read := log[..|log| - 1], log[|log| - 1];
      assert log == shorter + [read];
      HistoryKept(spec, shorter);
      var s := StoreAfter(spec, shorter);
      if read.observed {
        KeptObserved(spec, shorter, read, s);
      } else if spec.severity == Critical {
        KeptCritical(spec, shorter, read, s);
      } else {
        KeptClearing(spec, shorter, read, s);
      }
    }
  }

  /** After any history of reads, the next one reports the code exactly when it
      is due, since the time of the first observation after the last read that
      found it cleared. */
  lemma ReportedExactlyWhenDue(spec: Spec, log: seq<Read>, read: Read, detail: Option<string>)
    requires Ordered(log + [read]) && detail.Some? == read.observed
    ensures var report := Report(StoreAfter(spec, log), spec, detail, read.time);
      && (report.Some? <==> Due(spec, log + [read], |log|))
      && (report.Some? ==>
            var start := EpisodeStart(spec, log + [read], |log|);
            report.value.since == (log + [read])[start].time && (log + [read])[start].observed)
  {
    var longer := log + [read];
    assert forall i | 0 <= i < |log| :: longer[i] == log[i];
    HistoryKept(spec, log);
    var s := StoreAfter(spec, log);
    if read.observed {
      KeptObserved(spec, log, read, s);
    } else if spec.severity != Critical {
      SeenMeansDue(spec, log, read, s);
      KeptClearing(spec, log, read, s);
    }
    if Due(spec, longer, |log|) {
      EpisodeStartsObserved(spec, longer, |log|);
    }
  }

  // The whole service over a history of reads

  datatype Visit = Visit(time: int, observed: map<string, string>)

  /** What the visits say of one code. */
  function LogOf(visits: seq<Visit>, code: string): seq<Read> {
    seq(|visits|, k requires 0 <= k < |visits| => Read(visits[k].time, code in visits[k].observed))
  }

  ghost predicate DistinctCodes(specs: seq<Spec>) {
    forall i, j | 0 <= i < j < |specs| :: specs[i].code != specs[j].code
  }

  /** A store that `with_clearing` can leave, from an empty one: each visit reads
      every code of the one before. */
  ghost predicate Visited(specs: seq<Spec>, visits: seq<Visit>, s: Store<Key>)
    decreases |visits|
  {
    if visits == [] then s == map[]
    else
      var last := visits[|visits| - 1];
      exists before :: Visited(specs, visits[..|visits| - 1], before)
                       && ReadSoFar(before, s, specs, |specs|, last.observed, last.time)
  }

  /** In the shared store each code fares as in a store of its own. */
  lemma {:induction false} EachCodeAlone(specs: seq<Spec>, visits: seq<Visit>, s: Store<Key>, i: nat)
    requires DistinctCodes(specs) && i < |specs| && Visited(specs, visits, s)
    ensures SameCode(s, StoreAfter(specs[i], LogOf(visits, specs[i].code)), specs[i].code)
    decreases |visits|
  {
    var spec := specs[i];
    if visits != [] {
      var shorter, last := visits[..|visits| - 1], visits[|visits| - 1];
      var before :| Visited(specs, shorter, before) && ReadSoFar(before, s, specs, |specs|, last.observed, last.time);
      EachCodeAlone(specs, shorter, before, i);
      var log := LogOf(visits, spec.code);
      assert log[..|log| - 1] == LogOf(shorter, spec.code);
      assert SameCode(s, Noted(before, spec, spec.code in last.observed, last.time), spec.code);
      CodeAlone(before, StoreAfter(spec, log[..|log| - 1]), spec, DetailOf(last.observed, spec.code), last.time);
    }
  }

  /** The reasons of a read are those of its codes, each on its own. */
  lemma {:induction false} ReportedReasons(s: Store<Key>, specs: seq<Spec>, observed: map<string, string>, now: int, r: Reason)
    ensures r in Reports(s, specs, observed, now, true) <==>
      exists i :: 0 <= i < |specs| && Report(s, specs[i], DetailOf(observed, specs[i].code), now) == Some(r)
  {
    if specs != [] {
      var shorter, spec := specs[..|specs| - 1], specs[|specs| - 1];
      ReportedReasons(s, shorter, observed, now, r);
      assert forall i | 0 <= i < |shorter| :: shorter[i] == specs[i];
      if r in Reports(s, shorter, observed, now, true) {
        var i :| 0 <= i < |shorter| && Report(s, shorter[i], DetailOf(observed, shorter[i].code), now) == Some(r);
        assert Report(s, specs[i], DetailOf(observed, specs[i].code), now) == Some(r);
      }
    }
  }

  /** The reasons of a read for one code: what is reported of it, if anything. */
  lemma ReasonsOfCode(s: Store<Key>, specs: seq<Spec>, observed: map<string, string>, now: int, i: nat, r: Reason)
    requires DistinctCodes(specs) && i < |specs|
    ensures r in Reports(s, specs, observed, now, true) && r.spec == specs[i] <==>
      Report(s, specs[i], DetailOf(observed, specs[i].code), now) == Some(r)
  {
    ReportedReasons(s, specs, observed, now, r);
  }

  /** What is reported of one code in the shared store. */
  lemma CodeReportedExactlyWhenDue(specs: seq<Spec>, visits: seq<Visit>, s: Store<Key>, visit: Visit, i: nat)
    requires DistinctCodes(specs) && i < |specs| && Visited(specs, visits, s)
    requires Ordered(LogOf(visits + [visit], specs[i].code))
    ensures var log, detail := LogOf(visits + [visit], specs[i].code), DetailOf(visit.observed, specs[i].code);
      var report := Report(s, specs[i], detail, visit.time);
      && (report.Some? <==> Due(specs[i], log, |visits|))
      && (report.Some? ==>
            report.value == Reason(specs[i], detail.UnwrapOr("clearing"), log[EpisodeStart(specs[i], log, |visits|)].time))
  {
    var spec, code := specs[i], specs[i].code;
    var own, read := LogOf(visits, code), Read(visit.time, code in visit.observed);
    assert LogOf(visits + [visit], code) == own + [read];
    EachCodeAlone(specs, visits, s, i);
    CodeAlone(s, StoreAfter(spec, own), spec, DetailOf(visit.observed, code), visit.time);
    ReportedExactlyWhenDue(spec, own, read, DetailOf(visit.observed, code));
  }

  lemma VisitsInOrder(visits: seq<Visit>, code: string)
    requires forall k, m | 0 <= k < m < |visits| :: visits[k].time <= visits[m].time
    ensures Ordered(LogOf(visits, code))
  {}

  /** After any history of reads of the whole service, the next one gives a reason
      for a code exactly when it is due, since the start of its episode. */
  lemma ServiceReportsExactlyWhenDue(specs: seq<Spec>, visits: seq<Visit>, s: Store<Key>, visit: Visit, i: nat)
    requires DistinctCodes(specs) && i < |specs| && Visited(specs, visits, s)
    requires forall k, m | 0 <= k < m < |visits + [visit]| :: (visits + [visit])[k].time <= (visits + [visit])[m].time
    ensures var log, detail := LogOf(visits + [visit], specs[i].code), DetailOf(visit.observed, specs[i].code);
      var reason := Reason(specs[i], detail.UnwrapOr("clearing"), log[EpisodeStart(specs[i], log, |visits|)].time);
      forall r :: r in Reports(s, specs, visit.observed, visit.time, true) && r.spec == specs[i]
        <==> Due(specs[i], log, |visits|) && r == reason
  {
    VisitsInOrder(visits + [visit], specs[i].code);
    CodeReportedExactlyWhenDue(specs, visits, s, visit, i);
    forall r: Reason {
      ReasonsOfCode(s, specs, visit.observed, visit.time, i, r);
    }
  }
}

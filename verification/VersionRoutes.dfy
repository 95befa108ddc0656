/** Routes bound to API version ranges: `finalize_versioned_routes` leaves at
    most one handler per version. */
module VersionRoutes {
  import opened Wrappers
  import opened ApiVersions

  /** Bounds are inclusive; a missing one is open. */
  datatype VersionRange = VersionRange(startingFrom: Option<Version>, upTo: Option<Version>) {

    predicate Includes(v: Version) {
      && (startingFrom.Some? ==> AtMost(startingFrom.value, v))
      && (upTo.Some? ==> AtMost(v, upTo.value))
    }
  }

  class Route {
    const range: Option<VersionRange>
    var overridden: set<Version>

    constructor (range: Option<VersionRange>)
      ensures this.range == range && overridden == {}
    {
      this.range := range;
      overridden := {};
    }

    predicate IsAvailableIn(v: Version)
      reads this
    {
      if range.Some? then range.value.Includes(v) else v !in overridden
    }
  }

  type Key = (string, set<string>)

  /** A route context; `route` is None when it is not a versioned route. */
  datatype Context = Context(key: Key, route: Option<Route>)

  function GroupOf(contexts: seq<Context>, k: Key): seq<Route> {
    if contexts == [] then []
    else
      var c := contexts[|contexts| - 1];
      GroupOf(contexts[..|contexts| - 1], k) + if c.route.Some? && c.key == k then [c.route.value] else []
  }

  function KeysOf(contexts: seq<Context>): set<Key> {
    set c | c in contexts && c.route.Some? :: c.key
  }

  predicate Ranged(group: seq<Route>) {
    exists i :: 0 <= i < |group| && group[i].range.Some?
  }

  predicate TwoFallbacks(group: seq<Route>) {
    exists i, j :: 0 <= i < j < |group| && group[i].range.None? && group[j].range.None?
  }

  predicate Supported(bound: Option<Version>, versions: set<Version>) {
    bound.Some? ==> bound.value in versions
  }

  predicate UnsupportedBound(group: seq<Route>, versions: set<Version>) {
    exists i :: 0 <= i < |group| && group[i].range.Some?
      && !(Supported(group[i].range.value.startingFrom, versions) && Supported(group[i].range.value.upTo, versions))
  }

  predicate Covers(r: Route, v: Version) {
    r.range.Some? && r.range.value.Includes(v)
  }

  predicate DoubleCover(group: seq<Route>, versions: set<Version>) {
    exists i, j, v :: 0 <= i < j < |group| && v in versions && Covers(group[i], v) && Covers(group[j], v)
  }

  /** What finalisation must refuse; a group without a range is left alone. */
  predicate Defective(group: seq<Route>, versions: set<Version>) {
    Ranged(group) && (TwoFallbacks(group) || UnsupportedBound(group, versions) || DoubleCover(group, versions))
  }

  function Covered(group: seq<Route>, versions: set<Version>): set<Version> {
    set v | v in versions && exists i :: 0 <= i < |group| && Covers(group[i], v)
  }

  ghost predicate Grouped(contexts: seq<Context>, groups: map<Key, seq<Route>>) {
    groups.Keys == KeysOf(contexts) && forall k | k in groups :: groups[k] == GroupOf(contexts, k)
  }

  lemma {:induction false} NoGroup(contexts: seq<Context>, k: Key)
    requires k !in KeysOf(contexts)
    ensures GroupOf(contexts, k) == []
  {
    if contexts != [] {
      var c := contexts[|contexts| - 1];
      assert c in contexts && forall d | d in contexts[..|contexts| - 1] :: d in contexts;
      NoGroup(contexts[..|contexts| - 1], k);
    }
  }

  lemma GroupedNext(contexts: seq<Context>, c: Context, groups: map<Key, seq<Route>>)
    requires Grouped(contexts, groups)
    ensures c.route.None? ==> Grouped(contexts + [c], groups)
    ensures c.route.Some? ==>
      Grouped(contexts + [c], groups[c.key := (if c.key in groups then groups[c.key] else []) + [c.route.value]])
  {
    var longer := contexts + [c];
    assert longer[..|contexts|] == contexts;
    assert KeysOf(longer) == KeysOf(contexts) + if c.route.Some? then {c.key} else {} by {
      assert forall d :: d in longer <==> d in contexts || d == c;
    }
    if c.key !in groups {
      NoGroup(contexts, c.key);
    }
  }

  /** `setdefault(key, []).append(route)` over the contexts. */
  method GroupRoutes(contexts: seq<Context>) returns (groups: map<Key, seq<Route>>)
    ensures Grouped(contexts, groups)
  {
    groups := map[];
    for n := 0 to |contexts|
      invariant Grouped(contexts[..n], groups)
    {
      var c := contexts[n];
      assert contexts[..n + 1] == contexts[..n] + [c];
      GroupedNext(contexts[..n], c, groups);
      if c.route.Some? {
        groups := groups[c.key := (if c.key in groups then groups[c.key] else []) + [c.route.value]];
      }
    }
    assert contexts[..|contexts|] == contexts;
  }

  /** One route's turn: every supported version it covers must still be free. */
  method ClaimVersions(group: seq<Route>, n: nat, versions: set<Version>, claimed: map<Version, Route>)
    returns (ok: bool, after: map<Version, Route>)
    requires n < |group| && group[n].range.Some?
    requires claimed.Keys == Covered(group[..n], versions)
    ensures ok <==> forall v | v in versions && Covers(group[n], v) :: v !in claimed
    ensures ok ==> after.Keys == Covered(group[..n + 1], versions)
  {
    var route := group[n];
    after := claimed;
    var todo := versions;
    while todo != {}
      invariant todo <= versions
      invariant forall v | v in versions - todo && Covers(route, v) :: v !in claimed
      invariant after.Keys == claimed.Keys + set v | v in versions - todo && Covers(route, v)
      decreases |todo|
    {
      var v :| v in todo;
      if route.range.value.Includes(v) {
        if v in after {
          return false, after;
        }
        after := after[v := route];
      }
      todo := todo - {v};
    }
    assert group[..n + 1] == group[..n] + [route];
    return true, after;
  }

  /** The ranged routes of one group, in order, each claiming its versions. */
  method ClaimAll(group: seq<Route>, versions: set<Version>) returns (r: Option<set<Version>>)
    ensures r.None? <==> UnsupportedBound(group, versions) || DoubleCover(group, versions)
    ensures r.Some? ==> r.value == Covered(group, versions)
  {
    var claimed: map<Version, Route> := map[];
    for n := 0 to |group|
      invariant claimed.Keys == Covered(group[..n], versions)
      invariant !UnsupportedBound(group[..n], versions) && !DoubleCover(group[..n], versions)
    {
      var route := group[n];
      var before := group[..n];
      assert group[..n + 1] == before + [route];
      if route.range.Some? {
        var range := route.range.value;
        if (range.startingFrom.Some? && range.startingFrom.value !in versions)
           || (range.upTo.Some? && range.upTo.value !in versions) {
          assert UnsupportedBound(group, versions);
          return None;
        }
        var ok, after := ClaimVersions(group, n, versions, claimed);
        if !ok {
          var v :| v in versions && Covers(route, v) && v in claimed;
          var i :| 0 <= i < n && Covers(before[i], v);
          assert Covers(group[i], v) && DoubleCover(group, versions);
          return None;
        }
        claimed := after;
      }
    }
    assert group[..|group|] == group;
    return Some(claimed.Keys);
  }

  function Fallbacks(group: seq<Route>): set<Route> {
    set r | r in group && r.range.None?
  }

  /** Each fallback stands back exactly where a range covers. */
  ghost predicate Resolved(group: seq<Route>, versions: set<Version>)
    reads group
  {
    forall r | r in group && r.range.None? :: r.overridden == Covered(group, versions)
  }

  /** How many fallbacks there are. */
  method CountFallbacks(group: seq<Route>) returns (count: nat)
    ensures count > 1 <==> TwoFallbacks(group)
    ensures count == 0 <==> forall r | r in group :: r.range.Some?
  {
    count := 0;
    ghost var last := -1;
    for n := 0 to |group|
      invariant if count == 0 then forall i | 0 <= i < n :: group[i].range.Some?
                else 0 <= last < n && group[last].range.None?
      invariant count == 1 ==> forall i | 0 <= i < n && i != last :: group[i].range.Some?
      invariant count > 1 <==> TwoFallbacks(group[..n])
    {
      if group[n].range.None? {
        assert count > 0 ==> group[..n + 1][last].range.None? && group[..n + 1][n].range.None?;
        count := count + 1;
        last := n;
      }
      assert group[..n + 1] == group[..n] + [group[n]];
    }
    assert group[..|group|] == group;
  }

  method FinalizeGroup(group: seq<Route>, versions: set<Version>) returns (ok: bool)
    modifies Fallbacks(group)
    ensures ok <==> !Defective(group, versions)
    ensures ok && Ranged(group) ==> Resolved(group, versions)
    ensures !ok || !Ranged(group) ==> forall r | r in group :: unchanged(r)
  {
    if forall i | 0 <= i < |group| :: group[i].range.None? {
      return true;
    }
    var fallbacks := CountFallbacks(group);
    if fallbacks > 1 {
      return false;
    }
    var claimed := ClaimAll(group, versions);
    if claimed.None? {
      return false;
    }
    for n := 0 to |group|
      invariant forall i | 0 <= i < n && group[i].range.None? :: group[i].overridden == claimed.value
      invariant forall r | r in group && r.range.Some? :: unchanged(r)
    {
      if group[n].range.None? {
        group[n].overridden := claimed.value;
      }
    }
    return true;
  }

  /** No fallback route object stands in two groups. */
  predicate OneGroupEach(contexts: seq<Context>) {
    forall c, d | c in contexts && d in contexts && c.route.Some? && c.route == d.route && c.route.value.range.None? ::
      c.key == d.key
  }

  lemma {:induction false} GroupMembers(contexts: seq<Context>, k: Key, r: Route)
    ensures r in GroupOf(contexts, k) <==> Context(k, Some(r)) in contexts
  {
    if contexts != [] {
      GroupMembers(contexts[..|contexts| - 1], k, r);
      assert contexts == contexts[..|contexts| - 1] + [contexts[|contexts| - 1]];
    }
  }

  /** The same said of the groups. */
  ghost predicate InOneGroup(contexts: seq<Context>) {
    forall k, l, r | r in GroupOf(contexts, k) && r in GroupOf(contexts, l) && r.range.None? :: k == l
  }

  lemma OneGroupEachExactly(contexts: seq<Context>)
    ensures OneGroupEach(contexts) <==> InOneGroup(contexts)
  {
    if OneGroupEach(contexts) {
      forall k, l, r | r in GroupOf(contexts, k) && r in GroupOf(contexts, l) && r.range.None? ensures k == l {
        GroupMembers(contexts, k, r);
        GroupMembers(contexts, l, r);
        var c, d := Context(k, Some(r)), Context(l, Some(r));
        assert c in contexts && d in contexts;
      }
    }
    if InOneGroup(contexts) {
      forall c, d | c in contexts && d in contexts && c.route.Some? && c.route == d.route && c.route.value.range.None?
        ensures c.key == d.key
      {
        GroupMembers(contexts, c.key, c.route.value);
        GroupMembers(contexts, d.key, c.route.value);
        assert c == Context(c.key, Some(c.route.value)) && d == Context(d.key, Some(c.route.value));
      }
    }
  }

  lemma GroupsApart(contexts: seq<Context>, k: Key, l: Key)
    requires OneGroupEach(contexts) && k != l
    ensures Fallbacks(GroupOf(contexts, k)) !! Fallbacks(GroupOf(contexts, l))
  {
    forall r | r in Fallbacks(GroupOf(contexts, k)) ensures r !in Fallbacks(GroupOf(contexts, l)) {
      GroupMembers(contexts, k, r);
      GroupMembers(contexts, l, r);
    }
  }

  /** From the first bound to the last, both included, the year before the month. */
  predicate Within(range: VersionRange, v: Version) {
    && (range.startingFrom.Some? ==>
          var first := range.startingFrom.value;
          first.year < v.year || (first.year == v.year && first.month <= v.month))
    && (range.upTo.Some? ==>
          var last := range.upTo.value;
          v.year < last.year || (v.year == last.year && v.month <= last.month))
  }

  lemma IncludesWithin(range: VersionRange, v: Version)
    ensures range.Includes(v) <==> Within(range, v)
  {}

  /** A ranged route answers inside its range, the fallback outside every range. */
  ghost predicate AnswersRightly(group: seq<Route>, r: Route, v: Version)
    reads r
  {
    r.IsAvailableIn(v) <==>
      if r.range.Some? then Within(r.range.value, v)
      else forall q | q in group && q.range.Some? :: !Within(q.range.value, v)
  }

  lemma ResolvedAnswers(group: seq<Route>, versions: set<Version>, r: Route, v: Version)
    requires Resolved(group, versions) && r in group && v in versions
    ensures AnswersRightly(group, r, v)
  {
    if r.range.Some? {
      IncludesWithin(r.range.value, v);
    } else {
      forall q | q in group && q.range.Some? ensures Covers(q, v) <==> Within(q.range.value, v) {
        IncludesWithin(q.range.value, v);
      }
      if q :| q in group && q.range.Some? && Within(q.range.value, v) {
        var i :| 0 <= i < |group| && group[i] == q;
        assert Covers(group[i], v);
      }
    }
  }

  lemma ResolvedAnswerOnce(group: seq<Route>, versions: set<Version>, v: Version, i: nat, j: nat)
    requires Ranged(group) && !Defective(group, versions) && Resolved(group, versions)
    requires v in versions && i < j < |group|
    ensures !(group[i].IsAvailableIn(v) && group[j].IsAvailableIn(v))
  {
    assert !DoubleCover(group, versions) && !TwoFallbacks(group);
    assert group[i].range.Some? && group[j].range.Some? ==> !(Covers(group[i], v) && Covers(group[j], v));
  }

  lemma FallbackAnswers(group: seq<Route>, versions: set<Version>, v: Version)
    requires Resolved(group, versions) && Fallbacks(group) != {} && v in versions
    ensures exists i :: 0 <= i < |group| && group[i].IsAvailableIn(v)
  {
    var f :| f in Fallbacks(group);
    var n :| 0 <= n < |group| && group[n] == f;
    if v in Covered(group, versions) {
      var i :| 0 <= i < |group| && Covers(group[i], v);
      assert group[i].IsAvailableIn(v);
    } else {
      assert group[n].IsAvailableIn(v);
    }
  }

  /** Every supported version has at most one available route in the group, and
      exactly one when the group has a fallback: a ranged route from its first
      bound to its last, the fallback outside every range. */
  ghost predicate OneHandlerEach(group: seq<Route>, versions: set<Version>)
    reads group
  {
    && (forall v, i, j | v in versions && 0 <= i < j < |group| :: !(group[i].IsAvailableIn(v) && group[j].IsAvailableIn(v)))
    && (forall r, v | r in group && v in versions :: AnswersRightly(group, r, v))
    && (Fallbacks(group) != {} ==> forall v | v in versions :: exists i :: 0 <= i < |group| && group[i].IsAvailableIn(v))
  }

  lemma ResolvedHasOneHandler(group: seq<Route>, versions: set<Version>)
    requires Ranged(group) && !Defective(group, versions) && Resolved(group, versions)
    ensures OneHandlerEach(group, versions)
  {
    forall v, i, j | v in versions && 0 <= i < j < |group| ensures !(group[i].IsAvailableIn(v) && group[j].IsAvailableIn(v)) {
      ResolvedAnswerOnce(group, versions, v, i, j);
    }
    forall r, v | r in group && v in versions ensures AnswersRightly(group, r, v) {
      ResolvedAnswers(group, versions, r, v);
    }
    forall v | v in versions && Fallbacks(group) != {} ensures exists i :: 0 <= i < |group| && group[i].IsAvailableIn(v) {
      FallbackAnswers(group, versions, v);
    }
  }

  function FallbacksOf(contexts: seq<Context>): set<Route> {
    set c | c in contexts && c.route.Some? && c.route.value.range.None? :: c.route.value
  }

  /** Raises exactly when some group is defective; otherwise every group with a
      range ends up with one handler per version. */
  method Finalize(contexts: seq<Context>, versions: set<Version>) returns (ok: bool)
    modifies FallbacksOf(contexts)
    ensures ok <==> forall k | k in KeysOf(contexts) :: !Defective(GroupOf(contexts, k), versions)
    ensures ok && OneGroupEach(contexts) ==>
      forall k | k in KeysOf(contexts) && Ranged(GroupOf(contexts, k)) :: OneHandlerEach(GroupOf(contexts, k), versions)
  {
    var groups := GroupRoutes(contexts);
    var todo := groups.Keys;
    while todo != {}
      invariant todo <= groups.Keys
      invariant forall k | k in groups.Keys - todo :: !Defective(groups[k], versions)
      invariant OneGroupEach(contexts) ==> forall k | k in groups.Keys - todo && Ranged(groups[k]) :: Resolved(groups[k], versions)
      decreases |todo|
    {
      var k :| k in todo;
      forall r | r in Fallbacks(groups[k]) ensures r in FallbacksOf(contexts) {
        GroupMembers(contexts, k, r);
      }
      forall l | l in groups.Keys - todo && OneGroupEach(contexts) ensures Fallbacks(groups[k]) !! Fallbacks(groups[l]) {
        GroupsApart(contexts, k, l);
      }
      ok := FinalizeGroup(groups[k], versions);
      if !ok {
        return false;
      }
      todo := todo - {k};
    }
    if OneGroupEach(contexts) {
      forall k | k in KeysOf(contexts) && Ranged(GroupOf(contexts, k)) ensures OneHandlerEach(GroupOf(contexts, k), versions) {
        ResolvedHasOneHandler(GroupOf(contexts, k), versions);
      }
    }
    return true;
  }
}

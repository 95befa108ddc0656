/** What every run of the service steps keeps. */
module LaunchRuns {
  import opened Wrappers
  import opened Launches
  import opened Sets

  /** The database, the stored card and the day it was last built for, and the
      ids ever handed out. */
  datatype Db = Db(rows: Rows, card: seq<Item>, cardDay: int, ids: set<nat>)

  datatype Call = Call(step: Step, today: int)

  /** A new product gets an id that was never used. */
  predicate Fair(db: Db, s: Step) {
    s.Submit? ==> s.id !in db.ids
  }

  /** The steps that end in `rebuild_card`. */
  predicate Rebuilds(rows: Rows, s: Step) {
    match s
    case Withdraw(_, id) => id in rows && rows[id].state == Approved
    case Approve(_, _, _) => true
    case Edit(id, edits) => id in rows && Carries(edits) && Listed(rows[id])
    case Rotate => true
    case _ => false
  }

  /** One call of the service: a raised error leaves everything as it was. */
  function Serve(db: Db, c: Call): Db {
    match Apply(db.rows, c.step, c.today)
    case Raised(_) => db
    case Ok(rows) =>
      var ids := if c.step.Submit? then db.ids + {c.step.id} else db.ids;
      if Rebuilds(db.rows, c.step) then Db(rows, CardItems(rows, c.today), c.today, ids)
      else Db(rows, db.card, db.cardDay, ids)
  }

  /** The database after a whole run, from an empty one whose card was built on
      `day`; None when a submission reused an id. */
  function Run(day: int, calls: seq<Call>): Option<Db>
    decreases |calls|
  {
    if calls == [] then Some(Db(map[], CardItems(map[], day), day, {}))
    else
      match Run(day, calls[..|calls| - 1])
      case None => None
      case Some(db) => if Fair(db, calls[|calls| - 1].step) then Some(Serve(db, calls[|calls| - 1])) else None
  }

  lemma {:induction false} IdsCover(day: int, calls: seq<Call>)
    requires Run(day, calls).Some?
    ensures Run(day, calls).value.rows.Keys <= Run(day, calls).value.ids
    decreases |calls|
  {
    if calls != [] {
      IdsCover(day, calls[..|calls| - 1]);
    }
  }

  // Slots

  predicate RowOk(l: Launch) {
    if Listed(l) || l.state == Ended then l.day.Some? && l.position.Some? && 1 <= l.position.value <= SLOTS_PER_DAY
    else l.position.None?
  }

  predicate SameSlot(l: Launch, m: Launch) {
    l.day == m.day && l.position == m.position
  }

  /** On a day, now or in the past. */
  predicate Slotted(l: Launch) {
    Listed(l) || l.state == Ended
  }

  /** Approved and live products have a slot of their own. */
  ghost predicate SlotsOk(rows: Rows) {
    && (forall i | i in rows :: RowOk(rows[i]))
    && (forall i, j | i in rows && j in rows && i != j && Listed(rows[i]) && Listed(rows[j]) :: !SameSlot(rows[i], rows[j]))
  }

  lemma {:induction false} FirstFreeIsFree(taken: set<int>, p: int)
    requires 1 <= p <= SLOTS_PER_DAY + 1
    ensures var f := FirstFree(taken, p);
      && p <= f <= SLOTS_PER_DAY + 1
      && (forall q | p <= q < f :: q in taken)
      && (f <= SLOTS_PER_DAY ==> f !in taken)
    decreases SLOTS_PER_DAY + 1 - p
  {
    if p <= SLOTS_PER_DAY && p in taken {
      FirstFreeIsFree(taken, p + 1);
    }
  }

  /** After the size check there is always a free position, and it is the lowest. */
  lemma ApproveFindsASlot(taken: set<int>)
    requires |taken| < SLOTS_PER_DAY
    ensures var p := FirstFree(taken, 1);
      1 <= p <= SLOTS_PER_DAY && p !in taken && forall q | 1 <= q < p :: q in taken
  {
    FirstFreeIsFree(taken, 1);
    if FirstFree(taken, 1) > SLOTS_PER_DAY {
      var all := {1, 2, 3, 4, 5};
      assert all <= taken;
      SubsetSize(all, taken);
    }
  }

  lemma ApproveKeepsSlots(rows: Rows, s: Step, today: int)
    requires SlotsOk(rows) && s.Approve? && Apply(rows, s, today).Ok?
    ensures SlotsOk(Apply(rows, s, today).value)
  {
    var after := Apply(rows, s, today).value;
    ApproveFindsASlot(Taken(rows, s.day));
    forall j | j in rows && j != s.id && Listed(rows[j]) ensures !SameSlot(after[s.id], rows[j]) {
      if rows[j].day == Some(s.day) {
        assert rows[j].position.value in Taken(rows, s.day);
      }
    }
  }

  /** No step but `approve` moves a product onto a day. */
  lemma OthersKeepSlots(rows: Rows, s: Step, today: int, i: nat)
    requires !s.Approve? && Apply(rows, s, today).Ok?
    requires i in Apply(rows, s, today).value
    ensures var l := Apply(rows, s, today).value[i];
      && (Slotted(l) ==> i in rows && Slotted(rows[i]) && SameSlot(rows[i], l) && (Listed(l) ==> Listed(rows[i])))
      && (i in rows && RowOk(rows[i]) ==> RowOk(l))
      && (i !in rows ==> RowOk(l))
  {
    match s
    case Update(_, _, _) =>
    case Rotate =>
    case _ =>
  }

  lemma StepKeepsSlots(rows: Rows, s: Step, today: int)
    requires SlotsOk(rows) && Apply(rows, s, today).Ok?
    ensures SlotsOk(Apply(rows, s, today).value)
  {
    var after := Apply(rows, s, today).value;
    if s.Approve? {
      ApproveKeepsSlots(rows, s, today);
    } else {
      forall i | i in after ensures RowOk(after[i])
        && (Listed(after[i]) ==> i in rows && Listed(rows[i]) && SameSlot(rows[i], after[i])) {
        OthersKeepSlots(rows, s, today, i);
      }
    }
  }

  lemma {:induction false} RunKeepsSlots(day: int, calls: seq<Call>)
    requires Run(day, calls).Some?
    ensures SlotsOk(Run(day, calls).value.rows)
    ensures var rows := Run(day, calls).value.rows;
      && (forall i | i in rows && (rows[i].state == Approved || rows[i].state == Live) ::
            rows[i].day.Some? && rows[i].position.Some? && 1 <= rows[i].position.value <= 5)
      && (forall i, j | i in rows && j in rows && i != j && rows[i].state in {Approved, Live} && rows[j].state in {Approved, Live} ::
            rows[i].day != rows[j].day || rows[i].position != rows[j].position)
    decreases |calls|
  {
    if calls != [] {
      RunKeepsSlots(day, calls[..|calls| - 1]);
      var db, c := Run(day, calls[..|calls| - 1]).value, calls[|calls| - 1];
      if Apply(db.rows, c.step, c.today).Ok? {
        StepKeepsSlots(db.rows, c.step, c.today);
      }
    }
  }

  // Five a day

  function ListedOn(rows: Rows, day: int): set<nat> {
    set i | i in rows && Listed(rows[i]) && rows[i].day == Some(day)
  }

  function Positions(rows: Rows, ids: set<nat>): set<int>
    requires ids <= rows.Keys
  {
    set i | i in ids && rows[i].position.Some? :: rows[i].position.value
  }

  lemma {:induction false} DistinctSlotsCount(rows: Rows, day: int, ids: set<nat>)
    requires ids <= rows.Keys
    requires forall i | i in ids :: RowOk(rows[i]) && rows[i].position.Some? && rows[i].day == Some(day)
    requires forall i, j | i in ids && j in ids && i != j :: !SameSlot(rows[i], rows[j])
    ensures |Positions(rows, ids)| == |ids| <= SLOTS_PER_DAY
  {
    SlotCount(rows, day, ids);
    RangeSize(Positions(rows, ids), 1, SLOTS_PER_DAY);
  }

  lemma {:induction false} SlotCount(rows: Rows, day: int, ids: set<nat>)
    requires ids <= rows.Keys
    requires forall i | i in ids :: RowOk(rows[i]) && rows[i].position.Some? && rows[i].day == Some(day)
    requires forall i, j | i in ids && j in ids && i != j :: !SameSlot(rows[i], rows[j])
    ensures |Positions(rows, ids)| == |ids|
  {
    if ids != {} {
      var x :| x in ids;
      SlotCount(rows, day, ids - {x});
      assert Positions(rows, ids) == Positions(rows, ids - {x}) + {rows[x].position.value};
    }
  }

  /** In every reachable database, `approve` takes a submitted product exactly
      while its day has fewer than five listed ones. */
  lemma ApproveTakesUpToFive(day: int, calls: seq<Call>, id: nat, onto: int, featured: bool, today: int)
    requires Run(day, calls).Some?
    ensures var rows := Run(day, calls).value.rows;
      Apply(rows, Approve(id, onto, featured), today).Ok?
      <==> id in rows && rows[id].state == Submitted && |ListedOn(rows, onto)| < 5
  {
    RunKeepsSlots(day, calls);
    var rows := Run(day, calls).value.rows;
    DistinctSlotsCount(rows, onto, ListedOn(rows, onto));
    assert Taken(rows, onto) == Positions(rows, ListedOn(rows, onto));
  }

  /** The clock never goes back, and no product is approved onto a past day. */
  predicate Forward(day: int, calls: seq<Call>) {
    && (forall k | 0 <= k < |calls| :: day <= calls[k].today)
    && (forall j, k | 0 <= j < k < |calls| :: calls[j].today <= calls[k].today)
    && (forall k | 0 <= k < |calls| && calls[k].step.Approve? :: calls[k].today <= calls[k].step.day)
  }

  ghost predicate SlotsNeverShared(rows: Rows) {
    forall i, j | i in rows && j in rows && i != j && Slotted(rows[i]) && Slotted(rows[j]) :: !SameSlot(rows[i], rows[j])
  }

  /** Live from its day on, ended from the day after. */
  predicate DayOk(l: Launch, today: int) {
    (Visible(l) ==> l.day.Some? && l.day.value <= today) && (l.state == Ended ==> l.day.Some? && l.day.value < today)
  }

  ghost predicate DaysOk(rows: Rows, today: int) {
    && SlotsOk(rows)
    && (forall i | i in rows :: DayOk(rows[i], today))
    && SlotsNeverShared(rows)
  }

  lemma StepKeepsDays(rows: Rows, s: Step, before: int, today: int)
    requires DaysOk(rows, before) && before <= today && Apply(rows, s, today).Ok?
    requires s.Approve? ==> today <= s.day
    ensures DaysOk(Apply(rows, s, today).value, today)
  {
    var after := Apply(rows, s, today).value;
    StepKeepsSlots(rows, s, today);
    forall i | i in after ensures DayOk(after[i], today) {
      RowKeepsDay(rows, s, before, today, i);
    }
    if s.Approve? {
      ApproveOntoNewSlot(rows, s, before, today);
    } else {
      OthersShareNoSlot(rows, s, today);
    }
  }

  lemma RowKeepsDay(rows: Rows, s: Step, before: int, today: int, i: nat)
    requires DaysOk(rows, before) && before <= today && Apply(rows, s, today).Ok?
    requires s.Approve? ==> today <= s.day
    requires i in Apply(rows, s, today).value
    ensures DayOk(Apply(rows, s, today).value[i], today)
  {
    assert i in rows ==> DayOk(rows[i], before) && RowOk(rows[i]);
  }

  lemma OthersShareNoSlot(rows: Rows, s: Step, today: int)
    requires SlotsNeverShared(rows) && !s.Approve? && Apply(rows, s, today).Ok?
    ensures SlotsNeverShared(Apply(rows, s, today).value)
  {
    var after := Apply(rows, s, today).value;
    forall i | i in after && Slotted(after[i]) ensures i in rows && Slotted(rows[i]) && SameSlot(rows[i], after[i]) {
      OthersKeepSlots(rows, s, today, i);
    }
  }

  lemma ApproveOntoNewSlot(rows: Rows, s: Step, before: int, today: int)
    requires DaysOk(rows, before) && before <= today && s.Approve? && Apply(rows, s, today).Ok?
    requires today <= s.day
    ensures SlotsNeverShared(Apply(rows, s, today).value)
  {
    var after := Apply(rows, s, today).value;
    ApproveFindsASlot(Taken(rows, s.day));
    forall j | j in rows && j != s.id && Slotted(rows[j]) ensures !SameSlot(after[s.id], rows[j]) {
      if rows[j].day == Some(s.day) {
        assert Listed(rows[j]) && rows[j].position.value in Taken(rows, s.day);
      }
    }
  }

  function LastDay(day: int, calls: seq<Call>): int {
    if calls == [] then day else calls[|calls| - 1].today
  }

  lemma {:induction false} RunKeepsDays(day: int, calls: seq<Call>)
    requires Run(day, calls).Some? && Forward(day, calls)
    ensures DaysOk(Run(day, calls).value.rows, LastDay(day, calls))
    decreases |calls|
  {
    if calls != [] {
      RunKeepsDays(day, calls[..|calls| - 1]);
      var db, c := Run(day, calls[..|calls| - 1]).value, calls[|calls| - 1];
      if Apply(db.rows, c.step, c.today).Ok? {
        StepKeepsDays(db.rows, c.step, LastDay(day, calls[..|calls| - 1]), c.today);
      }
    }
  }

  function SlottedOn(rows: Rows, day: int): set<nat> {
    set i | i in rows && Slotted(rows[i]) && rows[i].day == Some(day)
  }

  lemma FiveSlots(rows: Rows, last: int, day: int)
    requires DaysOk(rows, last)
    ensures |SlottedOn(rows, day)| <= SLOTS_PER_DAY
  {
    forall i | i in SlottedOn(rows, day) ensures RowOk(rows[i]) && rows[i].position.Some? {}
    DistinctSlotsCount(rows, day, SlottedOn(rows, day));
  }

  lemma CardIsTwoDays(rows: Rows, today: int)
    requires |SlottedOn(rows, today)| <= SLOTS_PER_DAY && |SlottedOn(rows, today - 1)| <= SLOTS_PER_DAY
    ensures |CardItems(rows, today)| <= 1 + 2 * SLOTS_PER_DAY
  {
    var both := SlottedOn(rows, today) + SlottedOn(rows, today - 1);
    assert CardIds(rows, today) <= both;
    SubsetSize(CardIds(rows, today), both);
    CardSize(rows, today);
  }

  lemma CardSize(rows: Rows, today: int)
    ensures |CardItems(rows, today)| == 1 + |CardIds(rows, today)|
  {
    assert |Items(rows, Ordered(rows, CardIds(rows, today)))| == |CardIds(rows, today)|;
  }

  // When five a day holds

  ghost predicate Five(rows: Rows) {
    forall d :: |SlottedOn(rows, d)| <= SLOTS_PER_DAY
  }

  /** At no point of the run do more than five products share a day. */
  ghost predicate AlwaysFive(day: int, calls: seq<Call>)
    requires Run(day, calls).Some?
    decreases |calls|
  {
    && Five(Run(day, calls).value.rows)
    && (calls != [] ==> AlwaysFive(day, calls[..|calls| - 1]))
  }

  /** What the guard of `approve` would have to ask: the day has fewer than five
      products, those that have ended there counted too. */
  predicate Room(rows: Rows, c: Call) {
    c.step.Approve? && Apply(rows, c.step, c.today).Ok? ==> |SlottedOn(rows, c.step.day)| < SLOTS_PER_DAY
  }

  ghost predicate HadRoom(day: int, calls: seq<Call>)
    requires Run(day, calls).Some?
    decreases |calls|
  {
    calls != [] ==>
      HadRoom(day, calls[..|calls| - 1]) && Room(Run(day, calls[..|calls| - 1]).value.rows, calls[|calls| - 1])
  }

  /** An approval adds its product to its day; no other step adds to a day. */
  lemma StepSlotted(rows: Rows, s: Step, today: int, day: int)
    requires Apply(rows, s, today).Ok?
    ensures var after := Apply(rows, s, today).value;
      if s.Approve? && s.day == day then
        s.id !in SlottedOn(rows, day) && SlottedOn(after, day) == SlottedOn(rows, day) + {s.id}
      else SlottedOn(after, day) <= SlottedOn(rows, day)
  {
    var after := Apply(rows, s, today).value;
    if !s.Approve? {
      forall i | i in SlottedOn(after, day) ensures i in SlottedOn(rows, day) {
        OthersKeepSlots(rows, s, today, i);
      }
    }
  }

  lemma StepKeepsFiveOn(rows: Rows, s: Step, today: int, day: int)
    requires Five(rows) && Apply(rows, s, today).Ok?
    ensures |SlottedOn(Apply(rows, s, today).value, day)| <= SLOTS_PER_DAY
      <==> (s.Approve? && s.day == day ==> |SlottedOn(rows, day)| < SLOTS_PER_DAY)
  {
    StepSlotted(rows, s, today, day);
    if !(s.Approve? && s.day == day) {
      SubsetSize(SlottedOn(Apply(rows, s, today).value, day), SlottedOn(rows, day));
    }
  }

  lemma StepKeepsFive(db: Db, c: Call)
    requires Five(db.rows)
    ensures Five(Serve(db, c).rows) <==> Room(db.rows, c)
  {
    if Apply(db.rows, c.step, c.today).Ok? {
      var after := Apply(db.rows, c.step, c.today).value;
      assert Serve(db, c).rows == after;
      forall d ensures |SlottedOn(after, d)| <= SLOTS_PER_DAY
        <==> (c.step.Approve? && c.step.day == d ==> |SlottedOn(db.rows, d)| < SLOTS_PER_DAY)
      {
        StepKeepsFiveOn(db.rows, c.step, c.today, d);
      }
    }
  }

  /** Five a day holds throughout a run exactly when every approval found room,
      ended products counted: the guard of `approve` forgets those. */
  lemma {:induction false} FiveADayExactly(day: int, calls: seq<Call>)
    requires Run(day, calls).Some?
    ensures AlwaysFive(day, calls) <==> HadRoom(day, calls)
    ensures AlwaysFive(day, calls) ==> |Run(day, calls).value.card| <= 11
    decreases |calls|
  {
    if calls == [] {
      forall d ensures SlottedOn(Run(day, calls).value.rows, d) == {} {}
      CardIsTwoDays(map[], day);
    } else {
      var before, c := calls[..|calls| - 1], calls[|calls| - 1];
      FiveADayExactly(day, before);
      if AlwaysFive(day, before) {
        StepKeepsFive(Run(day, before).value, c);
      }
      if AlwaysFive(day, calls) {
        CardIsTwoDays(Run(day, calls).value.rows, c.today);
      }
    }
  }

  lemma {:induction false} ForwardStaysFive(day: int, calls: seq<Call>)
    requires Run(day, calls).Some? && Forward(day, calls)
    ensures AlwaysFive(day, calls)
    decreases |calls|
  {
    RunKeepsDays(day, calls);
    forall d ensures |SlottedOn(Run(day, calls).value.rows, d)| <= SLOTS_PER_DAY {
      FiveSlots(Run(day, calls).value.rows, LastDay(day, calls), d);
    }
    if calls != [] {
      ForwardStaysFive(day, calls[..|calls| - 1]);
    }
  }

  /** In a run that only goes forward, at most five approved, live or ended
      products share a day, and the stored card never has more than eleven
      items. */
  lemma FiveADay(day: int, calls: seq<Call>, any: int)
    requires Run(day, calls).Some?
    requires forall k | 0 <= k < |calls| :: day <= calls[k].today
    requires forall j, k | 0 <= j < k < |calls| :: calls[j].today <= calls[k].today
    requires forall k | 0 <= k < |calls| && calls[k].step.Approve? :: calls[k].today <= calls[k].step.day
    ensures |SlottedOn(Run(day, calls).value.rows, any)| <= 5
    ensures |Run(day, calls).value.card| <= 11
  {
    assert Forward(day, calls);
    ForwardStaysFive(day, calls);
    FiveADayExactly(day, calls);
  }

  lemma ThenServe(day: int, calls: seq<Call>, c: Call)
    requires Run(day, calls).Some? && Fair(Run(day, calls).value, c.step)
    ensures Run(day, calls + [c]) == Some(Serve(Run(day, calls).value, c))
  {
    assert (calls + [c])[..|calls|] == calls;
  }

  predicate EndedOnFirst(l: Launch, day: int) {
    l.state == Ended && l.day == Some(day) && l.position == Some(1)
  }

  predicate Piled(db: Db, day: int) {
    && db.rows.Keys == db.ids
    && (forall i | i in db.rows :: EndedOnFirst(db.rows[i], day - 1))
    && db.card == CardItems(db.rows, day)
  }

  ghost predicate IdsBelow(ids: set<nat>, n: nat) {
    forall i: nat :: i in ids <==> i < n
  }

  ghost predicate PiledUp(day: int, calls: seq<Call>, n: nat) {
    Run(day, calls).Some? && Piled(Run(day, calls).value, day) && IdsBelow(Run(day, calls).value.ids, n)
  }

  lemma NonePiled(day: int)
    ensures PiledUp(day, [], 0)
  {
    assert Piled(Run(day, []).value, day);
  }

  lemma OneMore(day: int, draft: Launch, calls: seq<Call>, n: nat) returns (longer: seq<Call>)
    requires PiledUp(day, calls, n)
    ensures PiledUp(day, longer, n + 1)
  {
    longer := SubmitApproveRotate(day, draft, calls, n);
  }

  lemma {:induction false} PileUp(day: int, draft: Launch, n: nat) returns (calls: seq<Call>)
    ensures PiledUp(day, calls, n)
    decreases n
  {
    if n == 0 {
      calls := [];
      NonePiled(day);
    } else {
      var fewer := PileUp(day, draft, n - 1);
      calls := OneMore(day, draft, fewer, n - 1);
    }
  }

  /** Approving onto a past day is what the bound excludes: submit, approve onto
      yesterday, rotate, and again. For every `n` some run has `n` products in
      one slot of one day, all of them on the card. */
  lemma PastApprovalsPileUp(day: int, draft: Launch, n: nat) returns (calls: seq<Call>)
    ensures Run(day, calls).Some?
    ensures var db := Run(day, calls).value;
      |SlottedOn(db.rows, day - 1)| == n && |db.card| == n + 1
  {
    calls := PileUp(day, draft, n);
    var db := Run(day, calls).value;
    assert CardIds(db.rows, day) == db.ids;
    CountBelow(db.ids, n);
    assert SlottedOn(db.rows, day - 1) == CardIds(db.rows, day);
  }

  lemma {:induction false} CountBelow(ids: set<nat>, n: nat)
    requires IdsBelow(ids, n)
    ensures |ids| == n
  {
    if n > 0 {
      CountBelow(ids - {n - 1}, n - 1);
    } else if |ids| > 0 {
      var x := Member(ids);
      assert false;
    }
  }

  lemma ApprovedOntoEmpty(rows: Rows, id: nat, day: int)
    requires id in rows && rows[id].state == Submitted && !rows[id].featured
    requires forall i | i in rows && i != id :: rows[i].state == Ended
    ensures Apply(rows, Approve(id, day - 1, false), day) ==
      Ok(rows[id := rows[id].(position := Some(1), day := Some(day - 1), state := Live)])
  {
    assert Taken(rows, day - 1) == {};
    assert FirstFree({}, 1) == 1;
  }

  lemma SubmittedRow(db: Db, day: int, draft: Launch, id: nat)
    requires id !in db.ids && Piled(db, day)
    ensures Serve(Serve(db, Call(Submit(id, draft, true), day)), Call(Approve(id, day - 1, false), day)).rows ==
      db.rows[id := draft.(position := Some(1), day := Some(day - 1), featured := false, state := Live)]
  {
    var row := draft.(state := Submitted, position := None, featured := false);
    var submitted := db.rows[id := row];
    assert Serve(db, Call(Submit(id, draft, true), day)).rows == submitted;
    ApprovedOntoEmpty(submitted, id, day);
    WrittenAgain(db.rows, id, row, row.(position := Some(1), day := Some(day - 1), state := Live));
  }

  lemma WrittenAgain(rows: Rows, id: nat, l: Launch, m: Launch)
    ensures rows[id := l][id := m] == rows[id := m]
  {}

  lemma SubmitApproveRotate(day: int, draft: Launch, calls: seq<Call>, id: nat) returns (longer: seq<Call>)
    requires Run(day, calls).Some? && id !in Run(day, calls).value.ids && Piled(Run(day, calls).value, day)
    ensures Run(day, longer).Some? && Piled(Run(day, longer).value, day)
    ensures Run(day, longer).value.ids == Run(day, calls).value.ids + {id}
  {
    var db := Run(day, calls).value;
    var submit, approve, rotate := Call(Submit(id, draft, true), day), Call(Approve(id, day - 1, false), day), Call(Rotate, day);
    SubmittedRow(db, day, draft, id);
    ThenServe(day, calls, submit);
    ThenServe(day, calls + [submit], approve);
    longer := calls + [submit] + [approve];
    var live := Run(day, longer).value;
    ThenServe(day, longer, rotate);
    longer := longer + [rotate];
    RotateEndsYesterday(db, live, day, id);
  }

  /** Every row ended on the first place of the day, or is about to. */
  predicate EndsOnFirst(l: Launch, day: int) {
    (l.state == Ended || l.state == Live) && l.day == Some(day) && l.position == Some(1)
  }

  lemma RotateEndsYesterday(db: Db, live: Db, day: int, id: nat)
    requires Piled(db, day) && id !in db.ids && live.rows.Keys == db.ids + {id}
    requires live.rows == db.rows[id := live.rows[id]] && live.ids == db.ids + {id}
    requires live.rows[id].state == Live && live.rows[id].day == Some(day - 1) && live.rows[id].position == Some(1)
    ensures Piled(Serve(live, Call(Rotate, day)), day)
  {
    forall i | i in live.rows ensures EndsOnFirst(live.rows[i], day - 1) {
      assert i != id ==> EndedOnFirst(db.rows[i], day - 1) && live.rows[i] == db.rows[i];
    }
    RotateEnds(live, day);
  }

  lemma RotateEnds(live: Db, day: int)
    requires live.rows.Keys == live.ids && forall i | i in live.rows :: EndsOnFirst(live.rows[i], day - 1)
    ensures Piled(Serve(live, Call(Rotate, day)), day)
  {
    var rows := Rotated(live.rows, day);
    assert Serve(live, Call(Rotate, day)) == Db(rows, CardItems(rows, day), day, live.ids);
    forall i | i in rows ensures EndedOnFirst(rows[i], day - 1) {
      assert EndsOnFirst(live.rows[i], day - 1) && rows[i] == RotatedRow(live.rows[i], day);
    }
    assert rows.Keys == live.rows.Keys;
  }
}

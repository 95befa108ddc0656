/** The stored card against `card_items`: which steps keep it right, and that
    its order is forced. */
module LaunchCard {
  import opened Wrappers
  import opened Launches
  import opened LaunchRuns

  predicate SameOrder(rows: Rows, after: Rows, ids: set<nat>) {
    forall i | i in ids ::
      i in rows && i in after && rows[i].day.Some? && rows[i].day == after[i].day
      && rows[i].featured == after[i].featured && rows[i].position == after[i].position
  }

  lemma {:induction false} OrderFrame(rows: Rows, after: Rows, ids: set<nat>)
    requires SameOrder(rows, after, ids)
    ensures Ordered(rows, ids) == Ordered(after, ids)
    decreases |ids|
  {
    if ids != {} {
      var a, b := Ordered(rows, ids)[0], Ordered(after, ids)[0];
      assert IsFirst(rows, ids, a) && IsFirst(after, ids, b);
      SameFirst(rows, after, ids, b);
      OneFirst(rows, ids, a, b);
      OrderFrame(rows, after, ids - {a});
    }
  }

  lemma SameFirst(rows: Rows, after: Rows, ids: set<nat>, a: nat)
    requires SameOrder(rows, after, ids) && IsFirst(after, ids, a)
    ensures IsFirst(rows, ids, a)
  {
    forall b | b in ids ensures Before(a, rows[a], b, rows[b]) {
      assert Before(a, after[a], b, after[b]);
    }
  }

  /** `rebuild_card` has run and nothing it shows has changed since. */
  predicate Coherent(db: Db) {
    db.card == CardItems(db.rows, db.cardDay)
  }

  /** The two steps that leave the card behind: the submitter deletes, or the
      founder visibly edits, an ended product that is still on it. */
  predicate Strays(db: Db, s: Step) {
    match s
    case Delete(user, id) =>
      id in db.rows && db.rows[id].owner == user && db.rows[id].state == Ended && OnCard(db.rows[id], db.cardDay)
    case Edit(id, edits) =>
      id in db.rows && db.rows[id].state == Ended && OnCard(db.rows[id], db.cardDay)
      && ItemOf(id, Edited(db.rows[id], edits)) != ItemOf(id, db.rows[id])
    case _ => false
  }

  /** Where an item stands, two cards in one order differ exactly in that item. */
  lemma ItemsDifferAt(rows: Rows, after: Rows, order: seq<nat>, id: nat)
    requires forall i | i in order :: i in rows && rows[i].day.Some? && i in after && after[i].day.Some?
    requires forall i | i in order && i != id :: rows[i] == after[i]
    requires id in order
    ensures Items(rows, order) == Items(after, order) <==> ItemOf(id, rows[id]) == ItemOf(id, after[id])
  {
    var k :| 0 <= k < |order| && order[k] == id;
    assert Items(rows, order)[k] == ItemOf(id, rows[id]) && Items(after, order)[k] == ItemOf(id, after[id]);
  }

  lemma EditOnCard(db: Db, s: Step)
    requires s.Edit? && s.id in db.rows && OnCard(db.rows[s.id], db.cardDay)
    ensures var after := db.rows[s.id := Edited(db.rows[s.id], s.edits)];
      CardItems(after, db.cardDay) == CardItems(db.rows, db.cardDay)
      <==> ItemOf(s.id, after[s.id]) == ItemOf(s.id, db.rows[s.id])
  {
    var rows, after := db.rows, db.rows[s.id := Edited(db.rows[s.id], s.edits)];
    var ids := CardIds(rows, db.cardDay);
    assert ids == CardIds(after, db.cardDay);
    OrderFrame(rows, after, ids);
    ItemsDifferAt(rows, after, Ordered(rows, ids), s.id);
    var a, b := CardItems(rows, db.cardDay), CardItems(after, db.cardDay);
    assert a[1..] == Items(rows, Ordered(rows, ids)) && b[1..] == Items(after, Ordered(rows, ids));
  }

  lemma SameItems(rows: Rows, after: Rows, order: seq<nat>)
    requires forall i | i in order :: i in rows && i in after && rows[i].day.Some? && rows[i] == after[i]
    ensures Items(rows, order) == Items(after, order)
  {}

  lemma UnseenChange(rows: Rows, after: Rows, today: int)
    requires CardIds(rows, today) == CardIds(after, today)
    requires forall i | i in CardIds(rows, today) :: rows[i] == after[i]
    ensures CardItems(rows, today) == CardItems(after, today)
  {
    var ids := CardIds(rows, today);
    OrderFrame(rows, after, ids);
    SameItems(rows, after, Ordered(rows, ids));
  }

  /** A step that skips the rebuild and does not stray touches nothing the card
      shows. */
  lemma SkippedStepIsUnseen(db: Db, c: Call, i: nat)
    requires Fair(db, c.step) && db.rows.Keys <= db.ids
    requires Apply(db.rows, c.step, c.today).Ok? && !Rebuilds(db.rows, c.step) && !Strays(db, c.step)
    requires c.step.Edit? ==> !OnCard(db.rows[c.step.id], db.cardDay)
    ensures var after := Apply(db.rows, c.step, c.today).value;
      i in CardIds(db.rows, db.cardDay) || i in CardIds(after, db.cardDay)
      ==> i in db.rows && i in after && db.rows[i] == after[i]
  {
    match c.step
    case Submit(_, _, _) =>
    case Withdraw(_, _) =>
    case Update(_, _, _) =>
    case Delete(_, _) =>
    case Reject(_) =>
    case Edit(_, _) =>
  }

  lemma SkippedStepKeepsItems(db: Db, c: Call)
    requires Fair(db, c.step) && db.rows.Keys <= db.ids
    requires Apply(db.rows, c.step, c.today).Ok? && !Rebuilds(db.rows, c.step) && !Strays(db, c.step)
    requires c.step.Edit? ==> !OnCard(db.rows[c.step.id], db.cardDay)
    ensures CardItems(db.rows, db.cardDay) == CardItems(Apply(db.rows, c.step, c.today).value, db.cardDay)
  {
    var after := Apply(db.rows, c.step, c.today).value;
    forall i: nat ensures i in CardIds(db.rows, db.cardDay) || i in CardIds(after, db.cardDay)
      ==> i in db.rows && i in after && db.rows[i] == after[i] {
      SkippedStepIsUnseen(db, c, i);
    }
    UnseenChange(db.rows, after, db.cardDay);
  }

  lemma DeleteFromCard(rows: Rows, id: nat, today: int)
    requires id in CardIds(rows, today)
    ensures CardItems(rows - {id}, today) != CardItems(rows, today)
  {
    assert CardIds(rows - {id}, today) == CardIds(rows, today) - {id};
    assert |CardItems(rows - {id}, today)| < |CardItems(rows, today)|;
  }

  /** A step that skips the rebuild leaves the card right exactly when it is not
      one of the two strays. */
  lemma StepKeepsCard(db: Db, c: Call)
    requires Coherent(db) && Fair(db, c.step) && db.rows.Keys <= db.ids
    ensures Coherent(Serve(db, c)) <==> !Strays(db, c.step)
  {
    if Apply(db.rows, c.step, c.today).Ok? && !Rebuilds(db.rows, c.step) {
      if c.step.Edit? && OnCard(db.rows[c.step.id], db.cardDay) {
        EditOnCard(db, c.step);
      } else if Strays(db, c.step) {
        DeleteFromCard(db.rows, c.step.id, db.cardDay);
      } else {
        SkippedStepKeepsItems(db, c);
      }
    }
  }

  ghost predicate NeverStrays(day: int, calls: seq<Call>)
    requires Run(day, calls).Some?
    decreases |calls|
  {
    calls != [] ==>
      NeverStrays(day, calls[..|calls| - 1])
      && !Strays(Run(day, calls[..|calls| - 1]).value, calls[|calls| - 1].step)
  }

  /** Over a whole run without a stray the stored card is what `card_items`
      would answer for the day it was built for. */
  lemma {:induction false} CardStaysRight(day: int, calls: seq<Call>)
    requires Run(day, calls).Some? && NeverStrays(day, calls)
    ensures Coherent(Run(day, calls).value)
    ensures (forall k | 0 <= k < |calls| :: calls[k].today == day) ==> Run(day, calls).value.cardDay == day
    decreases |calls|
  {
    if calls != [] {
      CardStaysRight(day, calls[..|calls| - 1]);
      IdsCover(day, calls[..|calls| - 1]);
      StepKeepsCard(Run(day, calls[..|calls| - 1]).value, calls[|calls| - 1]);
    }
  }

  // Both strays happen

  function ShownTo(draft: Launch, day: int, state: Status): Launch {
    draft.(position := Some(1), day := Some(day), featured := false, state := state)
  }

  /** A run without a stray whose only product ever is this one. */
  ghost predicate Alone(day: int, calls: seq<Call>, l: Launch) {
    && Run(day, calls).Some? && NeverStrays(day, calls)
    && Run(day, calls).value.rows == map[0 := l] && Run(day, calls).value.ids == {0}
  }

  lemma ThenServeWithoutStray(day: int, calls: seq<Call>, c: Call)
    requires Run(day, calls).Some? && NeverStrays(day, calls)
    requires Fair(Run(day, calls).value, c.step) && !Strays(Run(day, calls).value, c.step)
    ensures Run(day, calls + [c]) == Some(Serve(Run(day, calls).value, c)) && NeverStrays(day, calls + [c])
  {
    ThenServe(day, calls, c);
    assert (calls + [c])[..|calls|] == calls;
  }

  lemma SubmittedAlone(day: int, draft: Launch) returns (calls: seq<Call>)
    ensures Alone(day, calls, draft.(state := Submitted, position := None, featured := false))
  {
    var submit := Call(Submit(0, draft, true), day);
    ThenServeWithoutStray(day, [], submit);
    calls := [] + [submit];
  }

  lemma ApprovedAlone(day: int, calls: seq<Call>, draft: Launch) returns (longer: seq<Call>)
    requires Alone(day, calls, draft.(state := Submitted, position := None, featured := false))
    ensures Alone(day, longer, ShownTo(draft, day, Live))
  {
    var rows := Run(day, calls).value.rows;
    assert Taken(rows, day) == {};
    assert FirstFree({}, 1) == 1;
    assert rows[0 := ShownTo(draft, day, Live)] == map[0 := ShownTo(draft, day, Live)];
    ThenServeWithoutStray(day, calls, Call(Approve(0, day, false), day));
    longer := calls + [Call(Approve(0, day, false), day)];
  }

  lemma EndedAlone(day: int, calls: seq<Call>, draft: Launch) returns (longer: seq<Call>)
    requires Alone(day, calls, ShownTo(draft, day, Live))
    ensures Alone(day, longer, ShownTo(draft, day, Ended)) && Run(day, longer).value.cardDay == day + 1
  {
    assert Rotated(Run(day, calls).value.rows, day + 1) == map[0 := ShownTo(draft, day, Ended)];
    ThenServeWithoutStray(day, calls, Call(Rotate, day + 1));
    longer := calls + [Call(Rotate, day + 1)];
  }

  lemma StrayLeavesCardBehind(day: int, calls: seq<Call>, c: Call)
    requires Run(day, calls).Some? && NeverStrays(day, calls) && Strays(Run(day, calls).value, c.step)
    ensures Run(day, calls + [c]).Some? && !Coherent(Run(day, calls + [c]).value)
  {
    CardStaysRight(day, calls);
    IdsCover(day, calls);
    ThenServe(day, calls, c);
    StepKeepsCard(Run(day, calls).value, c);
  }

  /** Some run ends with the owner's delete of yesterday's product, and some with
      a new name for it; both leave it on the card as it was. */
  lemma StraysAreReached(day: int, draft: Launch) returns (calls: seq<Call>, delete: Call, rename: Call)
    ensures delete.step == Delete(draft.owner, 0)
    ensures rename.step == Edit(0, Edits(Some(draft.name + "!"), None, None, None))
    ensures Run(day, calls + [delete]).Some? && !Coherent(Run(day, calls + [delete]).value)
    ensures Run(day, calls + [rename]).Some? && !Coherent(Run(day, calls + [rename]).value)
  {
    calls := SubmittedAlone(day, draft);
    calls := ApprovedAlone(day, calls, draft);
    calls := EndedAlone(day, calls, draft);
    delete := Call(Delete(draft.owner, 0), day + 1);
    rename := Call(Edit(0, Edits(Some(draft.name + "!"), None, None, None)), day + 1);
    StrayLeavesCardBehind(day, calls, delete);
    RenameShows(ShownTo(draft, day, Ended), rename.step.edits);
    StrayLeavesCardBehind(day, calls, rename);
  }

  lemma RenameShows(l: Launch, e: Edits)
    requires l.day.Some? && e.name.Some? && e.tagline.None? && |e.name.value| != |l.name|
    ensures ItemOf(0, Edited(l, e)) != ItemOf(0, l)
  {
    var m := Edited(l, e);
    assert |m.name + ": " + m.tagline| != |l.name + ": " + l.tagline|;
  }

  /** The ids in some order, each once. */
  ghost predicate Listing(order: seq<nat>, ids: set<nat>) {
    && |order| == |ids| && (forall i :: i in order <==> i in ids)
    && forall j, k | 0 <= j < k < |order| :: order[j] != order[k]
  }

  /** What SQL's ORDER BY asks of an answer. */
  ghost predicate SqlOrder(rows: Rows, order: seq<nat>, ids: set<nat>)
    requires forall i | i in ids :: i in rows && rows[i].day.Some?
  {
    Listing(order, ids) && forall j, k | 0 <= j < k < |order| :: MayPrecede(rows[order[j]], rows[order[k]])
  }

  lemma ListingTail(order: seq<nat>, ids: set<nat>)
    requires Listing(order, ids) && ids != {}
    ensures order != [] && order[0] in ids && Listing(order[1..], ids - {order[0]})
    ensures order == [order[0]] + order[1..]
  {
    var first, rest := order[0], order[1..];
    assert first in order;
    assert order == [first] + rest;
    forall k | 0 <= k < |rest| ensures rest[k] != first {
      assert rest[k] == order[k + 1];
    }
    forall i ensures i in rest <==> i in ids - {first} {
      assert i in order <==> i == first || i in rest;
    }
  }

  lemma SqlOrderTail(rows: Rows, order: seq<nat>, ids: set<nat>)
    requires forall i | i in ids :: i in rows && rows[i].day.Some?
    requires SqlOrder(rows, order, ids) && ids != {}
    ensures order != [] && order[0] in ids && SqlOrder(rows, order[1..], ids - {order[0]})
    ensures order == [order[0]] + order[1..]
  {
    ListingTail(order, ids);
    forall j, k | 0 <= j < k < |order[1..]| ensures MayPrecede(rows[order[1..][j]], rows[order[1..][k]]) {
      assert order[1..][j] == order[j + 1] && order[1..][k] == order[k + 1];
    }
  }

  lemma SqlOrderHead(rows: Rows, order: seq<nat>, ids: set<nat>)
    requires forall i | i in ids :: i in rows && rows[i].day.Some?
    requires forall i, j | i in ids && j in ids && i != j :: !SameSlot(rows[i], rows[j])
    requires SqlOrder(rows, order, ids) && ids != {}
    ensures order != [] && IsFirst(rows, ids, order[0])
  {
    assert order[0] in order;
    forall b | b in ids ensures Before(order[0], rows[order[0]], b, rows[b]) {
      var k :| 0 <= k < |order| && order[k] == b;
      assert k > 0 ==> MayPrecede(rows[order[0]], rows[order[k]]);
    }
  }

  lemma OneFirst(rows: Rows, ids: set<nat>, a: nat, b: nat)
    requires forall i | i in ids :: i in rows && rows[i].day.Some?
    requires IsFirst(rows, ids, a) && IsFirst(rows, ids, b)
    ensures a == b
  {
    assert Before(a, rows[a], b, rows[b]) && Before(b, rows[b], a, rows[a]);
  }

  lemma {:induction false} SqlOrderForced(rows: Rows, order: seq<nat>, ids: set<nat>)
    requires forall i | i in ids :: i in rows && rows[i].day.Some?
    requires forall i, j | i in ids && j in ids && i != j :: !SameSlot(rows[i], rows[j])
    requires SqlOrder(rows, order, ids)
    ensures order == Ordered(rows, ids)
    decreases |ids|
  {
    if ids != {} {
      SqlOrderTail(rows, order, ids);
      SqlOrderHead(rows, order, ids);
      OneFirst(rows, ids, order[0], Ordered(rows, ids)[0]);
      SqlOrderForced(rows, order[1..], ids - {order[0]});
    }
  }

  /** The card is an answer in ORDER BY order. */
  lemma CardIsInOrder(rows: Rows, today: int)
    ensures var ids := CardIds(rows, today);
      CardItems(rows, today) == [House(today)] + Items(rows, Ordered(rows, ids)) && SqlOrder(rows, Ordered(rows, ids), ids)
  {
    var ids := CardIds(rows, today);
    var order := Ordered(rows, ids);
    forall j, k | 0 <= j < k < |order| ensures order[j] != order[k] && MayPrecede(rows[order[j]], rows[order[k]]) {
      assert order[j] in order && order[k] in order;
      OrderedIsSorted(rows, ids, j, k);
    }
  }

  /** In a run that only goes forward the database has no freedom: any answer in
      ORDER BY order is the card. */
  lemma CardOrderForced(day: int, calls: seq<Call>, today: int, order: seq<nat>)
    requires Run(day, calls).Some? && Forward(day, calls)
    requires var rows := Run(day, calls).value.rows; SqlOrder(rows, order, CardIds(rows, today))
    ensures var rows := Run(day, calls).value.rows; [House(today)] + Items(rows, order) == CardItems(rows, today)
  {
    RunKeepsDays(day, calls);
    var rows := Run(day, calls).value.rows;
    SqlOrderForced(rows, order, CardIds(rows, today));
  }
}

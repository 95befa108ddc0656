/** The service over its table: each method finds the row, checks it, writes it
    back and rebuilds the card when the service does. */
module LaunchService {
  import opened Wrappers
  import opened Launches
  import opened LaunchRuns
  import opened Sets

  class LaunchService {
    var rows: Rows
    var card: seq<Item>
    ghost var cardDay: int
    ghost var ids: set<nat>

    ghost function View(): Db
      reads this
    {
      Db(rows, card, cardDay, ids)
    }

    constructor (today: int)
      ensures Run(today, []) == Some(View())
    {
      rows, card, cardDay, ids := map[], CardItems(map[], today), today, {};
    }

    method RebuildCard(today: int)
      modifies this
      ensures rows == old(rows) && ids == old(ids) && cardDay == today && card == CardItems(rows, today)
    {
      card := CardItems(rows, today);
      cardDay := today;
    }

    method FindOwned(user: nat, id: nat) returns (r: Result<Launch, Error>)
      ensures r == Owned(rows, user, id)
    {
      if id !in rows {
        return Raised(NotFound);
      }
      if rows[id].owner != user {
        return Raised(NotPermitted);
      }
      return Ok(rows[id]);
    }

    method Withdraw(user: nat, id: nat, today: int) returns (r: Result<(), Error>)
      modifies this
      ensures View() == Serve(old(View()), Call(Step.Withdraw(user, id), today))
      ensures r.Ok? <==> Apply(old(rows), Step.Withdraw(user, id), today).Ok?
      ensures r.Raised? ==> Apply(old(rows), Step.Withdraw(user, id), today) == Raised(r.error)
    {
      var found := FindOwned(user, id);
      if found.Raised? {
        return Raised(found.error);
      }
      var launch := found.value;
      if launch.state != Submitted && launch.state != Approved {
        return Raised(BadRequest);
      }
      var wasApproved := launch.state == Approved;
      launch := launch.(state := Status.Withdrawn);
      launch := launch.(day := None);
      launch := launch.(position := None);
      rows := rows[id := launch];
      if wasApproved {
        RebuildCard(today);
      }
      return Ok(());
    }

    /** The fields a body carries, set one by one. */
    method SetFields(before: Launch, edits: Edits) returns (launch: Launch, changed: bool)
      ensures launch == Edited(before, edits) && changed == Carries(edits)
    {
      launch, changed := before, false;
      if edits.name.Some? { launch, changed := launch.(name := edits.name.value), true; }
      if edits.tagline.Some? { launch, changed := launch.(tagline := edits.tagline.value), true; }
      if edits.description.Some? { launch, changed := launch.(description := edits.description.value), true; }
      if edits.kicker.Some? { launch, changed := launch.(kicker := edits.kicker.value), true; }
    }

    method SetForm(before: Launch, form: Form) returns (launch: Launch)
      ensures launch == Edited(before, form.edits).(
        contact := form.contact.UnwrapOr(before.contact), logo := if form.logo.Some? then form.logo else before.logo,
        day := if form.preferred.Some? then form.preferred else before.day)
    {
      var changed;
      launch, changed := SetFields(before, form.edits);
      if form.contact.Some? { launch := launch.(contact := form.contact.value); }
      if form.preferred.Some? { launch := launch.(day := form.preferred); }
      if form.logo.Some? { launch := launch.(logo := form.logo); }
    }

    method Update(user: nat, id: nat, form: Form, today: int) returns (r: Result<Launch, Error>)
      modifies this
      ensures View() == Serve(old(View()), Call(Step.Update(user, id, form), today))
      ensures r.Ok? <==> Apply(old(rows), Step.Update(user, id, form), today).Ok?
      ensures r.Raised? ==> Apply(old(rows), Step.Update(user, id, form), today) == Raised(r.error)
      ensures r.Ok? ==> id in rows && r.value == rows[id] && r.value.state == Submitted
    {
      var found := FindOwned(user, id);
      if found.Raised? {
        return Raised(found.error);
      }
      var launch := found.value;
      if launch.state != Submitted && launch.state != Status.Withdrawn && launch.state != Rejected {
        return Raised(BadRequest);
      }
      if form.link.Some? && form.link.value.url != launch.url {
        if !form.link.value.answers {
          return Raised(BadRequest);
        }
        launch := launch.(url := form.link.value.url);
      }
      launch := SetForm(launch, form);
      if launch.state != Submitted {
        launch := launch.(state := Submitted);
        launch := launch.(position := None);
      }
      rows := rows[id := launch];
      return Ok(launch);
    }

    method Delete(user: nat, id: nat, today: int) returns (r: Result<Option<string>, Error>)
      modifies this
      ensures View() == Serve(old(View()), Call(Step.Delete(user, id), today))
      ensures r.Ok? <==> Apply(old(rows), Step.Delete(user, id), today).Ok?
      ensures r.Raised? ==> Apply(old(rows), Step.Delete(user, id), today) == Raised(r.error)
      ensures r.Ok? ==> id in old(rows) && r.value == old(rows)[id].logo
    {
      var found := FindOwned(user, id);
      if found.Raised? {
        return Raised(found.error);
      }
      if found.value.state == Approved || found.value.state == Live {
        return Raised(BadRequest);
      }
      rows := rows - {id};
      return Ok(found.value.logo);
    }

    /** The lowest position of the day that nobody has; the size check has left one. */
    method NextFree(positions: set<int>) returns (p: int)
      requires |positions| < SLOTS_PER_DAY
      ensures p == FirstFree(positions, 1) && 1 <= p <= SLOTS_PER_DAY && p !in positions
    {
      ApproveFindsASlot(positions);
      p := 1;
      while p in positions
        invariant 1 <= p <= FirstFree(positions, 1)
        decreases FirstFree(positions, 1) - p
      {
        p := p + 1;
      }
    }

    /** The positions of a day that approved and live products hold. */
    method TakenPositions(day: int) returns (positions: set<int>)
      ensures positions == Taken(rows, day)
    {
      positions := set i | i in rows && (rows[i].state == Approved || rows[i].state == Live)
                             && rows[i].day == Some(day) && rows[i].position.Some? :: rows[i].position.value;
    }

    /** No other approved or live product has this one's day and position. */
    static predicate HoldsAlone(rows: Rows, id: nat)
      requires id in rows
    {
      forall i | i in rows && i != id && (rows[i].state == Approved || rows[i].state == Live) ::
        !(rows[i].day == rows[id].day && rows[i].position == rows[id].position)
    }

    static lemma FreePositionIsHeldAlone(rows: Rows, id: nat, day: int, p: int)
      requires p !in Taken(rows, day)
      ensures forall l: Launch | l.day == Some(day) && l.position == Some(p) :: HoldsAlone(rows[id := l], id)
    {}

    method Approve(id: nat, day: int, featured: bool, today: int) returns (r: Result<Launch, Error>)
      modifies this
      ensures View() == Serve(old(View()), Call(Step.Approve(id, day, featured), today))
      ensures r.Ok? <==> Apply(old(rows), Step.Approve(id, day, featured), today).Ok?
      ensures r.Raised? ==> Apply(old(rows), Step.Approve(id, day, featured), today) == Raised(r.error)
      ensures r.Ok? ==>
        && id in rows && r.value == rows[id] && r.value.day == Some(day) && r.value.position.Some?
        && 1 <= r.value.position.value <= SLOTS_PER_DAY && r.value.position.value !in Taken(old(rows), day)
        && HoldsAlone(rows, id)
    {
      if id !in rows {
        return Raised(NotFound);
      }
      var launch := rows[id];
      if launch.state != Submitted {
        return Raised(BadRequest);
      }
      var positions := TakenPositions(day);
      if |positions| >= SLOTS_PER_DAY {
        return Raised(BadRequest);
      }
      var p := NextFree(positions);
      launch := launch.(position := Some(p));
      launch := launch.(day := Some(day));
      launch := launch.(featured := featured);
      launch := launch.(state := if day <= today then Live else Approved);
      FreePositionIsHeldAlone(rows, id, day, p);
      rows := rows[id := launch];
      RebuildCard(today);
      return Ok(launch);
    }

    method Reject(id: nat, today: int) returns (r: Result<Launch, Error>)
      modifies this
      ensures View() == Serve(old(View()), Call(Step.Reject(id), today))
      ensures r.Ok? <==> Apply(old(rows), Step.Reject(id), today).Ok?
      ensures r.Raised? ==> Apply(old(rows), Step.Reject(id), today) == Raised(r.error)
    {
      if id !in rows {
        return Raised(NotFound);
      }
      var launch := rows[id];
      if launch.state != Submitted && launch.state != Approved {
        return Raised(BadRequest);
      }
      launch := launch.(state := Rejected);
      launch := launch.(day := None);
      launch := launch.(position := None);
      rows := rows[id := launch];
      return Ok(launch);
    }

    method Edit(id: nat, edits: Edits, today: int) returns (r: Result<Launch, Error>)
      modifies this
      ensures View() == Serve(old(View()), Call(Step.Edit(id, edits), today))
      ensures r.Ok? <==> id in old(rows)
      ensures if r.Ok? then id in rows && r.value == rows[id] else r == Raised(NotFound)
    {
      if id !in rows {
        return Raised(NotFound);
      }
      var launch, changed := SetFields(rows[id], edits);
      rows := rows[id := launch];
      if changed && (launch.state == Approved || launch.state == Live) {
        RebuildCard(today);
      }
      return Ok(launch);
    }

    /** The rows the rotation selects: approved or live, with a day. */
    function Selected(): set<nat>
      reads this
    {
      set i | i in rows && (rows[i].state == Approved || rows[i].state == Live) && rows[i].day.Some?
    }

    /** The rotation moves the row into `onto`. */
    static predicate Becomes(l: Launch, today: int, onto: Status) {
      l.state != onto && RotatedRow(l, today).state == onto
    }

    /** The rows a rotation moves into `onto`, but for those still to do. */
    static ghost function Moved(before: Rows, todo: set<nat>, today: int, onto: Status): set<nat> {
      set i | i in before && i !in todo && Becomes(before[i], today, onto)
    }

    static lemma MovedNext(before: Rows, todo: set<nat>, today: int, onto: Status, id: nat)
      requires id in todo && id in before
      ensures |Moved(before, todo - {id}, today, onto)| == |Moved(before, todo, today, onto)|
        + if Becomes(before[id], today, onto) then 1 else 0
    {
      var moved, more := Moved(before, todo, today, onto), Moved(before, todo - {id}, today, onto);
      if Becomes(before[id], today, onto) {
        assert more == moved + {id};
      } else {
        assert more == moved;
      }
    }

    static ghost predicate Tallied(before: Rows, todo: set<nat>, today: int, live: nat, ended: nat) {
      live == |Moved(before, todo, today, Live)| && ended == |Moved(before, todo, today, Ended)|
    }

    static lemma TalliedNext(before: Rows, todo: set<nat>, today: int, live: nat, ended: nat, id: nat, onto: Option<Status>)
      requires Tallied(before, todo, today, live, ended) && id in todo && id in before
      requires var state := RotatedRow(before[id], today).state;
        onto == if state == before[id].state then None else Some(state)
      ensures Tallied(before, todo - {id}, today, live + if onto == Some(Live) then 1 else 0,
                      ended + if onto == Some(Ended) then 1 else 0)
    {
      MovedNext(before, todo, today, Live, id);
      MovedNext(before, todo, today, Ended, id);
    }

    /** The rows not in `todo` are rotated, the others as they were. */
    static ghost predicate Halfway(before: Rows, rows: Rows, todo: set<nat>, today: int) {
      && rows.Keys == before.Keys
      && (forall i | i in todo :: i in before && Listed(before[i]) && before[i].day.Some?)
      && (forall i | i in before :: rows[i] == if i in todo then before[i] else RotatedRow(before[i], today))
    }

    static lemma HalfwayNext(before: Rows, rows: Rows, todo: set<nat>, today: int, id: nat)
      requires Halfway(before, rows, todo, today) && id in todo
      ensures id in rows && rows[id] == before[id] && Listed(rows[id]) && rows[id].day.Some?
      ensures Halfway(before, rows[id := RotatedRow(rows[id], today)], todo - {id}, today)
    {}

    static lemma HalfwayDone(before: Rows, rows: Rows, today: int)
      requires Halfway(before, rows, {}, today)
      ensures rows == Rotated(before, today)
    {}

    method RotateRow(id: nat, today: int) returns (onto: Option<Status>)
      requires id in rows && Listed(rows[id]) && rows[id].day.Some?
      modifies this`rows
      ensures rows == old(rows)[id := RotatedRow(old(rows)[id], today)]
      ensures onto == if rows[id].state == old(rows)[id].state then None else Some(rows[id].state)
      ensures onto.Some? ==> onto.value == Live || onto.value == Ended
    {
      var launch := rows[id];
      if launch.state == Approved && launch.day.value <= today {
        rows := rows[id := launch.(state := Live)];
        return Some(Live);
      } else if launch.state == Live && launch.day.value < today {
        rows := rows[id := launch.(state := Ended)];
        return Some(Ended);
      }
      return None;
    }

    method RotateRows(today: int) returns (live: nat, ended: nat)
      modifies this`rows
      ensures rows == Rotated(old(rows), today)
      ensures Tallied(old(rows), {}, today, live, ended)
    {
      ghost var before := rows;
      var todo := Selected();
      live, ended := 0, 0;
      assert Moved(before, todo, today, Live) == {} && Moved(before, todo, today, Ended) == {};
      while todo != {}
        invariant Halfway(before, rows, todo, today)
        invariant Tallied(before, todo, today, live, ended)
        decreases |todo|
      {
        var id :| id in todo;
        HalfwayNext(before, rows, todo, today, id);
        var onto := RotateRow(id, today);
        TalliedNext(before, todo, today, live, ended, id, onto);
        if onto == Some(Live) {
          live := live + 1;
        } else if onto == Some(Ended) {
          ended := ended + 1;
        }
        todo := todo - {id};
      }
      HalfwayDone(before, rows, today);
    }

    method RotateDay(today: int) returns (live: nat, ended: nat)
      modifies this
      ensures View() == Serve(old(View()), Call(Rotate, today))
      ensures Tallied(old(rows), {}, today, live, ended)
    {
      ghost var before := View();
      live, ended := RotateRows(today);
      RebuildCard(today);
      assert Serve(before, Call(Rotate, today)) == Db(Rotated(before.rows, today), CardItems(rows, today), today, before.ids);
    }

    method Submit(draft: Launch, id: nat, answers: bool, today: int) returns (r: Result<Launch, Error>)
      requires id !in ids
      modifies this
      ensures View() == Serve(old(View()), Call(Step.Submit(id, draft, answers), today))
      ensures r.Ok? <==> answers
      ensures r.Raised? ==> r.error == BadRequest
      ensures r.Ok? ==> id in rows && r.value == rows[id] && r.value.state == Submitted && r.value.position.None?
    {
      if !answers {
        return Raised(BadRequest);
      }
      var launch := draft.(state := Submitted, position := None, featured := false);
      rows := rows[id := launch];
      ids := ids + {id};
      return Ok(launch);
    }
  }
}

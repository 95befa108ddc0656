/** The life of one product over a run, and the midnight rotation. */
module LaunchLifecycle {
  import opened Wrappers
  import opened Launches
  import opened LaunchRuns

  predicate VisibleIn(db: Db, id: nat) {
    id in db.rows && Visible(db.rows[id])
  }

  /** The k-th call of the run approved the product. */
  ghost predicate ApprovedAt(day: int, calls: seq<Call>, k: nat, id: nat) {
    && k < |calls| && calls[k].step.Approve? && calls[k].step.id == id
    && Run(day, calls[..k]).Some? && Apply(Run(day, calls[..k]).value.rows, calls[k].step, calls[k].today).Ok?
  }

  /** A visible product was approved earlier in the run. */
  lemma {:induction false} VisibleWasApproved(day: int, calls: seq<Call>, id: nat)
    requires Run(day, calls).Some? && id in Run(day, calls).value.rows && Slotted(Run(day, calls).value.rows[id])
    ensures exists k: nat :: ApprovedAt(day, calls, k, id)
    decreases |calls|
  {
    var shorter, c := calls[..|calls| - 1], calls[|calls| - 1];
    var db := Run(day, shorter).value;
    if c.step.Approve? && c.step.id == id && Apply(db.rows, c.step, c.today).Ok? {
      assert ApprovedAt(day, calls, |calls| - 1, id);
    } else {
      if Apply(db.rows, c.step, c.today).Ok? {
        StaysOffDays(db.rows, c.step, c.today, id);
      }
      VisibleWasApproved(day, shorter, id);
      var k: nat :| ApprovedAt(day, shorter, k, id);
      assert calls[..k] == shorter[..k];
      assert ApprovedAt(day, calls, k, id);
    }
  }

  lemma StaysOffDays(rows: Rows, s: Step, today: int, id: nat)
    requires Apply(rows, s, today).Ok? && !(s.Approve? && s.id == id)
    requires id in Apply(rows, s, today).value && Slotted(Apply(rows, s, today).value[id])
    ensures id in rows && Slotted(rows[id])
  {
    if !s.Approve? {
      OthersKeepSlots(rows, s, today, id);
    }
  }

  lemma VisibleApply(rows: Rows, s: Step, today: int, id: nat)
    requires Apply(rows, s, today).Ok? && id in rows && Visible(rows[id]) && (s.Submit? ==> s.id != id)
    ensures var after := Apply(rows, s, today).value;
      && (id in after ==> Visible(after[id]) && (rows[id].state == Ended ==> after[id].state == Ended))
      && (id !in after ==> s == Delete(rows[id].owner, id) && rows[id].state == Ended)
  {
    match s
    case Update(_, _, _) =>
    case Rotate =>
    case _ =>
  }

  /** A visible product stays live or ended; an ended one never comes back; only
      its owner's delete removes one, and only an ended one. */
  lemma VisibleStep(db: Db, c: Call, id: nat)
    requires Fair(db, c.step) && db.rows.Keys <= db.ids && VisibleIn(db, id)
    ensures var after := Serve(db, c);
      && (id in after.rows ==> VisibleIn(after, id) && (db.rows[id].state == Ended ==> after.rows[id].state == Ended))
      && (id !in after.rows ==> c.step == Delete(db.rows[id].owner, id) && db.rows[id].state == Ended)
  {
    assert id in db.ids;
    if Apply(db.rows, c.step, c.today).Ok? {
      VisibleApply(db.rows, c.step, c.today, id);
    }
  }

  lemma GoneStep(db: Db, c: Call, id: nat)
    requires Fair(db, c.step) && id in db.ids && id !in db.rows
    ensures id in Serve(db, c).ids && id !in Serve(db, c).rows
  {}

  /** From the first moment a product is visible it is live or ended for as long
      as its row exists, and a deleted one never returns. */
  lemma {:induction false} VisibleUntilDeleted(day: int, calls: seq<Call>, k: nat, id: nat)
    requires Run(day, calls).Some? && k <= |calls|
    requires Run(day, calls[..k]).Some? && VisibleIn(Run(day, calls[..k]).value, id)
    ensures id in Run(day, calls).value.ids
    ensures id in Run(day, calls).value.rows ==> VisibleIn(Run(day, calls).value, id)
    decreases |calls|
  {
    if k == |calls| {
      assert calls[..k] == calls;
      IdsCover(day, calls);
    } else {
      var shorter := calls[..|calls| - 1];
      assert shorter[..k] == calls[..k];
      VisibleUntilDeleted(day, shorter, k, id);
      IdsCover(day, shorter);
      var db, c := Run(day, shorter).value, calls[|calls| - 1];
      if id in db.rows {
        VisibleStep(db, c, id);
      } else {
        GoneStep(db, c, id);
      }
    }
  }

  // Rotation

  /** Nothing is left for a rotation to do. */
  predicate Settled(rows: Rows, today: int) {
    forall i | i in rows && rows[i].day.Some? ::
      && (rows[i].state == Approved ==> rows[i].day.value > today)
      && (rows[i].state == Live ==> rows[i].day.value >= today)
  }

  predicate Overdue(rows: Rows, today: int) {
    exists i :: i in rows && rows[i].state == Approved && rows[i].day.Some? && rows[i].day.value < today
  }

  lemma SettledIsFixed(rows: Rows, today: int)
    ensures Settled(rows, today) <==> Rotated(rows, today) == rows
  {
    if !Settled(rows, today) {
      var i :| i in rows && rows[i].day.Some?
        && !((rows[i].state == Approved ==> rows[i].day.value > today)
             && (rows[i].state == Live ==> rows[i].day.value >= today));
      assert Rotated(rows, today)[i] != rows[i];
    }
  }

  /** Two passes at one day always settle; one pass settles exactly when no
      approved product is overdue. */
  lemma RotationSettles(rows: Rows, today: int)
    ensures Settled(Rotated(Rotated(rows, today), today), today)
    ensures Settled(Rotated(rows, today), today) <==> !Overdue(rows, today)
  {
    if Overdue(rows, today) {
      var i :| i in rows && rows[i].state == Approved && rows[i].day.Some? && rows[i].day.value < today;
      assert Rotated(rows, today)[i].state == Live;
    }
  }

  /** In a run that only goes forward, after a settling rotation today's listed
      products are live, the live ones are today's, and approved ones are later. */
  lemma AfterMidnight(day: int, calls: seq<Call>, today: int, id: nat)
    requires Run(day, calls).Some? && Forward(day, calls) && LastDay(day, calls) <= today
    requires !Overdue(Run(day, calls).value.rows, today)
    requires id in Run(day, calls).value.rows
    ensures var l := Rotated(Run(day, calls).value.rows, today)[id];
      && (l.state == Live <==> Listed(l) && l.day == Some(today))
      && (l.state == Approved ==> l.day.Some? && l.day.value > today)
  {
    RunKeepsDays(day, calls);
    var db := Run(day, calls).value;
    RotationSettles(db.rows, today);
  }
}

/** Verifications of one enrolment that overlap: each reads the row without a
    lock and, when it accepts, writes both columns back whole. */
module BackupRaces {
  import opened Wrappers
  import opened BackupCodes
  import opened Sets

  datatype Open = Open(secrets: HashSecrets, code: string, read: Enrollment)

  /** The row, the verifications between their read and their write, and the
      codes accepted so far. */
  datatype State = State(row: Enrollment, open: map<nat, Open>, accepted: seq<string>)

  datatype Event = Read(id: nat, secrets: HashSecrets, code: string) | Write(id: nat)

  predicate Enabled(s: State, e: Event) {
    match e
    case Read(id, secrets, _) => id !in s.open && Configured(secrets)
    case Write(id) => id in s.open && Configured(s.open[id].secrets)
  }

  /** What an accepting call makes of the row it has read. */
  function AcceptedRow(hs: HashSecrets, e: Enrollment, code: string): Enrollment
    requires Configured(hs)
  {
    var current := CurrentHash(hs, code);
    Enrollment(seq(|e.codesHashes|, i requires 0 <= i < |e.codesHashes| =>
                 if e.codesHashes[i].code == code then current else e.codesHashes[i]),
               e.usedHashes + [current])
  }

  ghost function Step(s: State, e: Event): State
    requires Enabled(s, e)
  {
    match e
    case Read(id, secrets, code) => s.(open := s.open[id := Open(secrets, code, s.row)])
    case Write(id) =>
      var c := s.open[id];
      var open := s.open - {id};
      if Acceptable(c.secrets, c.read, c.code)
      then State(AcceptedRow(c.secrets, c.read, c.code), open, s.accepted + [c.code])
      else s.(open := open)
  }

  ghost function After(start: Enrollment, trace: seq<Event>): Option<State>
    decreases |trace|
  {
    if trace == [] then Some(State(start, map[], []))
    else
      match After(start, trace[..|trace| - 1])
      case None => None
      case Some(s) =>
        var e := trace[|trace| - 1];
        if Enabled(s, e) then Some(Step(s, e)) else None
  }

  ghost predicate SingleUse(accepted: seq<string>) {
    forall i, j | 0 <= i < j < |accepted| :: accepted[i] != accepted[j]
  }

  // Without a lost update codes are single-use

  /** A write that accepts finds the row as it was read. */
  predicate Current(s: State, e: Event) {
    e.Write? && e.id in s.open ==> s.open[e.id].read == s.row
  }

  ghost predicate NothingLost(start: Enrollment, trace: seq<Event>)
    requires After(start, trace).Some?
    decreases |trace|
  {
    trace != [] ==>
      NothingLost(start, trace[..|trace| - 1])
      && Current(After(start, trace[..|trace| - 1]).value, trace[|trace| - 1])
  }

  ghost predicate AllSpent(s: State) {
    Valid(s.row) && SingleUse(s.accepted) && forall code | code in s.accepted :: Spent(s.row, code)
  }

  lemma StepSpends(s: State, e: Event)
    requires AllSpent(s) && Enabled(s, e) && Current(s, e)
    ensures AllSpent(Step(s, e))
  {
    if e.Write? {
      var c := s.open[e.id];
      if Acceptable(c.secrets, s.row, c.code) {
        VerifyKeepsValid(c.secrets, s.row, c.code, true, AcceptedRow(c.secrets, s.row, c.code));
      }
    }
  }

  /** While no write overwrites another, no code is accepted twice. */
  lemma {:induction false} NothingLostKeepsSingleUse(start: Enrollment, trace: seq<Event>)
    requires Valid(start) && After(start, trace).Some? && NothingLost(start, trace)
    ensures AllSpent(After(start, trace).value)
    decreases |trace|
  {
    if trace != [] {
      NothingLostKeepsSingleUse(start, trace[..|trace| - 1]);
      StepSpends(After(start, trace[..|trace| - 1]).value, trace[|trace| - 1]);
    }
  }

  // How many at once

  ghost predicate AtMost(start: Enrollment, trace: seq<Event>, n: nat)
    decreases |trace|
  {
    After(start, trace).Some? && |After(start, trace).value.open.Keys| <= n
    && (trace != [] ==> AtMost(start, trace[..|trace| - 1], n))
  }

  lemma {:induction false} OneAtATimeLosesNothing(start: Enrollment, trace: seq<Event>)
    requires AtMost(start, trace, 1)
    ensures NothingLost(start, trace)
    ensures var s := After(start, trace).value; forall i | i in s.open :: s.open[i].read == s.row
    decreases |trace|
  {
    if trace != [] {
      OneAtATimeLosesNothing(start, trace[..|trace| - 1]);
      var s, e := After(start, trace[..|trace| - 1]).value, trace[|trace| - 1];
      if e.Write? {
        forall i | i in s.open && i != e.id ensures false {
          SubsetSize({i, e.id}, s.open.Keys);
        }
      }
    }
  }

  lemma ThenStep(start: Enrollment, trace: seq<Event>, e: Event, n: nat)
    requires AtMost(start, trace, n) && Enabled(After(start, trace).value, e)
    requires |Step(After(start, trace).value, e).open.Keys| <= n
    ensures After(start, trace + [e]) == Some(Step(After(start, trace).value, e))
    ensures AtMost(start, trace + [e], n)
  {
    assert (trace + [e])[..|trace|] == trace;
  }

  /** The first calls have accepted the code, the others have read the row as it
      was at the start and will. */
  ghost predicate Racing(s: State, start: Enrollment, hs: HashSecrets, code: string, from: nat, to: nat) {
    && (forall i: nat :: i in s.open <==> from <= i < to)
    && (forall i | i in s.open :: s.open[i] == Open(hs, code, start))
    && s.accepted == seq(from, _ => code)
  }

  lemma ReadsNext(s: State, start: Enrollment, hs: HashSecrets, code: string, count: nat)
    requires Configured(hs) && s.row == start && Racing(s, start, hs, code, 0, count)
    ensures Enabled(s, Read(count, hs, code))
    ensures Racing(Step(s, Read(count, hs, code)), start, hs, code, 0, count + 1)
  {}

  lemma {:induction false} AllRead(start: Enrollment, hs: HashSecrets, code: string, count: nat, n: nat) returns (trace: seq<Event>)
    requires Configured(hs) && count <= n
    ensures AtMost(start, trace, n) && Racing(After(start, trace).value, start, hs, code, 0, count)
    ensures After(start, trace).value.row == start
    decreases count
  {
    if count == 0 {
      trace := [];
    } else {
      trace := AllRead(start, hs, code, count - 1, n);
      var s := After(start, trace).value;
      ReadsNext(s, start, hs, code, count - 1);
      IdsBetween(Step(s, Read(count - 1, hs, code)).open.Keys, 0, count);
      ThenStep(start, trace, Read(count - 1, hs, code), n);
      trace := trace + [Read(count - 1, hs, code)];
    }
  }

  lemma WritesNext(s: State, start: Enrollment, hs: HashSecrets, code: string, from: nat, to: nat)
    requires Configured(hs) && Acceptable(hs, start, code) && Racing(s, start, hs, code, from, to) && from < to
    ensures Enabled(s, Write(from))
    ensures Racing(Step(s, Write(from)), start, hs, code, from + 1, to)
    ensures Step(s, Write(from)).row == AcceptedRow(hs, start, code)
  {
    assert from in s.open;
    assert seq(from, _ => code) + [code] == seq(from + 1, _ => code);
  }

  /** `n` verifications that all read before any of them writes all accept one
      code, and only one use of it is on record afterwards. */
  lemma RaceAcceptsTogether(start: Enrollment, hs: HashSecrets, code: string, n: nat) returns (trace: seq<Event>)
    requires Configured(hs) && Acceptable(hs, start, code) && n > 0
    ensures AtMost(start, trace, n)
    ensures After(start, trace).value.accepted == seq(n, _ => code)
    ensures |After(start, trace).value.row.usedHashes| == |start.usedHashes| + 1
  {
    trace := AllRead(start, hs, code, n, n);
    for k := 0 to n
      invariant AtMost(start, trace, n) && Racing(After(start, trace).value, start, hs, code, k, n)
      invariant k > 0 ==> After(start, trace).value.row == AcceptedRow(hs, start, code)
    {
      var s := After(start, trace).value;
      WritesNext(s, start, hs, code, k, n);
      IdsBetween(Step(s, Write(k)).open.Keys, k + 1, n);
      ThenStep(start, trace, Write(k), n);
      trace := trace + [Write(k)];
    }
  }

  lemma AcceptsOwn(hs: HashSecrets, e: Enrollment, code: string, other: string)
    requires Valid(e) && Configured(hs) && code != other && Acceptable(hs, e, code) && Acceptable(hs, e, other)
    ensures Spent(AcceptedRow(hs, e, code), code)
    ensures !Spent(AcceptedRow(hs, e, other), code) && Acceptable(hs, AcceptedRow(hs, e, other), code)
  {
    VerifyKeepsValid(hs, e, code, true, AcceptedRow(hs, e, code));
    VerifyKeepsValid(hs, e, other, true, AcceptedRow(hs, e, other));
    OthersKeepTheirHash(hs, e, other, true, AcceptedRow(hs, e, other), hs, code);
  }

  /** The first two calls have read the row. */
  lemma BothRead(start: Enrollment, hs: HashSecrets, code: string, other: string)
    requires Configured(hs)
    ensures var trace := [Read(0, hs, other)] + [Read(1, hs, code)];
      && AtMost(start, trace, 2)
      && After(start, trace) == Some(State(start, map[0 := Open(hs, other, start), 1 := Open(hs, code, start)], []))
  {
    ThenStep(start, [], Read(0, hs, other), 2);
    ThenStep(start, [Read(0, hs, other)], Read(1, hs, code), 2);
  }

  lemma Writes(start: Enrollment, trace: seq<Event>, s: State, id: nat, c: Open)
    requires AtMost(start, trace, 2) && After(start, trace) == Some(s)
    requires id in s.open && s.open[id] == c && Configured(c.secrets) && Acceptable(c.secrets, c.read, c.code)
    ensures AtMost(start, trace + [Write(id)], 2)
    ensures After(start, trace + [Write(id)])
      == Some(State(AcceptedRow(c.secrets, c.read, c.code), s.open - {id}, s.accepted + [c.code]))
  {
    SubsetSize((s.open - {id}).Keys, s.open.Keys);
    ThenStep(start, trace, Write(id), 2);
  }

  /** A call with nothing else open. */
  lemma ReadsAndWrites(start: Enrollment, trace: seq<Event>, s: State, id: nat, hs: HashSecrets, code: string)
    requires AtMost(start, trace, 2) && After(start, trace) == Some(s) && s.open == map[]
    requires Configured(hs) && Acceptable(hs, s.row, code)
    ensures var longer := trace + [Read(id, hs, code)] + [Write(id)];
      AtMost(start, longer, 2) && After(start, longer) == Some(State(AcceptedRow(hs, s.row, code), map[], s.accepted + [code]))
  {
    var t := State(s.row, map[id := Open(hs, code, s.row)], s.accepted);
    assert Step(s, Read(id, hs, code)) == t;
    ThenStep(start, trace, Read(id, hs, code), 2);
    Writes(start, trace + [Read(id, hs, code)], t, id, Open(hs, code, s.row));
    assert t.open - {id} == map[];
  }

  /** The second call has accepted. */
  lemma SecondAccepts(start: Enrollment, hs: HashSecrets, code: string, other: string)
    requires Configured(hs) && Acceptable(hs, start, code)
    ensures var trace := [Read(0, hs, other)] + [Read(1, hs, code)] + [Write(1)];
      && AtMost(start, trace, 2)
      && After(start, trace) == Some(State(AcceptedRow(hs, start, code), map[0 := Open(hs, other, start)], [code]))
  {
    BothRead(start, hs, code, other);
    var s := State(start, map[0 := Open(hs, other, start), 1 := Open(hs, code, start)], []);
    Writes(start, [Read(0, hs, other)] + [Read(1, hs, code)], s, 1, Open(hs, code, start));
    assert s.open - {1} == map[0 := Open(hs, other, start)] && s.accepted + [code] == [code];
  }

  /** And the first has written over it. */
  lemma FirstWritesOver(start: Enrollment, hs: HashSecrets, code: string, other: string)
    requires Configured(hs) && Acceptable(hs, start, code) && Acceptable(hs, start, other)
    ensures var trace := [Read(0, hs, other)] + [Read(1, hs, code)] + [Write(1)] + [Write(0)];
      AtMost(start, trace, 2) && After(start, trace) == Some(State(AcceptedRow(hs, start, other), map[], [code, other]))
  {
    SecondAccepts(start, hs, code, other);
    var s := State(AcceptedRow(hs, start, code), map[0 := Open(hs, other, start)], [code]);
    Writes(start, [Read(0, hs, other)] + [Read(1, hs, code)] + [Write(1)], s, 0, Open(hs, other, start));
    assert s.open - {0} == map[] && s.accepted + [other] == [code, other];
  }

  /** A stale writer brings a spent code back: it has read the row before the
      code was accepted, and writes another code's use over it. The code is then
      accepted again, by calls of which no two were ever open together. */
  lemma StaleWriterRevives(start: Enrollment, hs: HashSecrets, code: string, other: string) returns (before: seq<Event>, after: seq<Event>)
    requires Valid(start) && Configured(hs) && code != other
    requires Acceptable(hs, start, code) && Acceptable(hs, start, other)
    ensures before == [Read(0, hs, other)] + [Read(1, hs, code)] + [Write(1)]
    ensures After(start, before).Some? && Spent(After(start, before).value.row, code)
    ensures after == before + [Write(0)] + [Read(2, hs, code)] + [Write(2)]
    ensures AtMost(start, after, 2) && After(start, after).value.accepted == [code, other, code]
  {
    AcceptsOwn(hs, start, code, other);
    SecondAccepts(start, hs, code, other);
    FirstWritesOver(start, hs, code, other);
    before := [Read(0, hs, other)] + [Read(1, hs, code)] + [Write(1)];
    ReadsAndWrites(start, before + [Write(0)], State(AcceptedRow(hs, start, other), map[], [code, other]), 2, hs, code);
    after := before + [Write(0)] + [Read(2, hs, code)] + [Write(2)];
  }

  ghost predicate AlwaysSingleUse(start: Enrollment, n: nat) {
    forall trace | AtMost(start, trace, n) :: SingleUse(After(start, trace).value.accepted)
  }

  /** From a row with a code left to accept, codes are single-use in every run
      exactly when verifications come one at a time. */
  lemma SingleUseExactly(start: Enrollment, hs: HashSecrets, code: string, n: nat)
    requires Valid(start) && Configured(hs) && Acceptable(hs, start, code) && n > 0
    ensures AlwaysSingleUse(start, n) <==> n == 1
  {
    if n == 1 {
      forall trace | AtMost(start, trace, n) ensures SingleUse(After(start, trace).value.accepted) {
        OneAtATimeLosesNothing(start, trace);
        NothingLostKeepsSingleUse(start, trace);
      }
    } else {
      var trace := RaceAcceptsTogether(start, hs, code, n);
      var accepted := After(start, trace).value.accepted;
      assert accepted[0] == accepted[1];
    }
  }
}

/** Backup codes stored as keyed digests, verified while the hash secrets are
    added, promoted and retired. A digest is a free constructor of the secret's
    id, the secret and the code, which is HMAC without collisions; the bare
    digest under the legacy secret has no id. */
module BackupCodes {
  import opened Wrappers

  datatype Hash = Hash(id: Option<string>, secret: string, code: string)

  /** The `secrets` dict in its order, the id codes are rewritten to, and the
      secret of bare digests. */
  datatype HashSecrets = HashSecrets(secrets: seq<(string, string)>, current: Option<string>, legacy: string)

  /** A dict has each id once, and the configuration refuses a current id that
      is not in it. */
  predicate Configured(hs: HashSecrets) {
    && (forall i, j | 0 <= i < j < |hs.secrets| :: hs.secrets[i].0 != hs.secrets[j].0)
    && (hs.current.Some? ==> exists i :: 0 <= i < |hs.secrets| && hs.secrets[i].0 == hs.current.value)
  }

  /** Any secret there is can be made the current one, or none. */
  lemma AnyCanBeCurrent(hs: HashSecrets, id: string, secret: string)
    requires forall i, j | 0 <= i < j < |hs.secrets| :: hs.secrets[i].0 != hs.secrets[j].0
    ensures Configured(hs.(current := None))
    ensures (id, secret) in hs.secrets ==> Configured(hs.(current := Some(id)))
  {
    if (id, secret) in hs.secrets {
      var i :| 0 <= i < |hs.secrets| && hs.secrets[i] == (id, secret);
      assert hs.secrets[i].0 == id;
    }
  }

  /** `get_token_hash_candidates`: every hash the code could be stored as, the
      bare one last. */
  function Candidates(hs: HashSecrets, code: string): seq<Hash> {
    seq(|hs.secrets|, i requires 0 <= i < |hs.secrets| => Hash(Some(hs.secrets[i].0), hs.secrets[i].1, code))
    + [Hash(None, hs.legacy, code)]
  }

  /** `candidates[get_current_secret_id()]`. */
  function CurrentHash(hs: HashSecrets, code: string): Hash
    requires Configured(hs)
  {
    match hs.current
    case None => Hash(None, hs.legacy, code)
    case Some(id) =>
      var i :| 0 <= i < |hs.secrets| && hs.secrets[i].0 == id;
      Hash(Some(id), hs.secrets[i].1, code)
  }

  datatype Enrollment = Enrollment(codesHashes: seq<Hash>, usedHashes: seq<Hash>)

  datatype Error = NotEnrolled | InvalidCode | AlreadyUsed

  /** Each code has one hash, each used hash is one of them, none used twice. */
  ghost predicate Valid(e: Enrollment) {
    && (forall i, j | 0 <= i < j < |e.codesHashes| :: e.codesHashes[i].code != e.codesHashes[j].code)
    && (forall u | u in e.usedHashes :: u in e.codesHashes)
    && (forall i, j | 0 <= i < j < |e.usedHashes| :: e.usedHashes[i] != e.usedHashes[j])
  }

  predicate StoredAs(e: Enrollment, code: string, i: nat) {
    i < |e.codesHashes| && e.codesHashes[i].code == code
  }

  ghost predicate Spent(e: Enrollment, code: string) {
    exists i: nat :: StoredAs(e, code, i) && e.codesHashes[i] in e.usedHashes
  }

  /** The code's hash under one of the secrets, whichever is the current one, or
      the bare hash under the legacy one. */
  predicate Known(hs: HashSecrets, h: Hash, code: string) {
    || h == Hash(None, hs.legacy, code)
    || exists i :: 0 <= i < |hs.secrets| && h == Hash(Some(hs.secrets[i].0), hs.secrets[i].1, code)
  }

  /** The code is enrolled, unused, and its hash is under a secret still there. */
  ghost predicate Acceptable(hs: HashSecrets, e: Enrollment, code: string) {
    exists i: nat :: StoredAs(e, code, i) && Known(hs, e.codesHashes[i], code) && e.codesHashes[i] !in e.usedHashes
  }

  function Rewritten(hashes: seq<Hash>, stored: Hash, current: Hash): seq<Hash> {
    seq(|hashes|, i requires 0 <= i < |hashes| => if hashes[i] == stored then current else hashes[i])
  }

  class BackupCodesFactor {
    var enrollment: Option<Enrollment>

    constructor (enrollment: Option<Enrollment>)
      ensures this.enrollment == enrollment
    {
      this.enrollment := enrollment;
    }

    /** The first candidate that is stored. */
    method FindStored(candidates: seq<Hash>, hashes: seq<Hash>) returns (stored: Option<Hash>)
      ensures stored.Some? ==> exists i :: 0 <= i < |candidates| && candidates[i] == stored.value && candidates[i] in hashes
                                           && forall k | 0 <= k < i :: candidates[k] !in hashes
      ensures stored.None? ==> forall c | c in candidates :: c !in hashes
    {
      for i := 0 to |candidates|
        invariant forall k | 0 <= k < i :: candidates[k] !in hashes
      {
        if candidates[i] in hashes {
          return Some(candidates[i]);
        }
      }
      return None;
    }

    method Verify(hs: HashSecrets, code: string) returns (r: Result<Enrollment, Error>)
      requires Configured(hs)
      requires enrollment.Some? ==> Valid(enrollment.value)
      modifies this
      ensures enrollment.Some? == old(enrollment).Some?
      ensures old(enrollment).None? ==> r == Raised(NotEnrolled)
      ensures old(enrollment).Some? ==>
        && Verified(hs, old(enrollment).value, code, r.Ok?, enrollment.value)
        && (r.Ok? ==> r.value == enrollment.value)
        && (r == Raised(InvalidCode) <==> forall h | h in old(enrollment).value.codesHashes :: !Known(hs, h, code))
        && (r == Raised(AlreadyUsed) ==> Spent(old(enrollment).value, code))
        && r != Raised(NotEnrolled)
    {
      if enrollment.None? {
        return Raised(NotEnrolled);
      }
      var e := enrollment.value;
      var candidates := Candidates(hs, code);
      CandidatesExactly(hs, code);
      var stored := FindStored(candidates, e.codesHashes);
      if stored.None? {
        return Raised(InvalidCode);
      }
      if stored.value in e.usedHashes {
        assert Spent(e, code) by {
          var i :| 0 <= i < |e.codesHashes| && e.codesHashes[i] == stored.value;
          assert StoredAs(e, code, i);
        }
        SpentIsNotAcceptable(hs, e, code);
        return Raised(AlreadyUsed);
      }
      var current := CurrentHash(hs, code);
      enrollment := Some(Enrollment(Rewritten(e.codesHashes, stored.value, current), e.usedHashes + [current]));
      AcceptanceIsVerified(hs, e, code, stored.value);
      return Ok(enrollment.value);
    }
  }

  /** The candidates are the hashes under every secret there is. */
  lemma CandidatesExactly(hs: HashSecrets, code: string)
    ensures forall h :: h in Candidates(hs, code) <==> Known(hs, h, code)
  {
    var candidates := Candidates(hs, code);
    forall h ensures h in candidates <==> Known(hs, h, code) {
      if h == Hash(None, hs.legacy, code) {
        assert candidates[|hs.secrets|] == h;
      }
      if i :| 0 <= i < |hs.secrets| && h == Hash(Some(hs.secrets[i].0), hs.secrets[i].1, code) {
        assert candidates[i] == h;
      }
    }
  }

  /** One call: accepted exactly when acceptable; then the code's hash moves to
      the current secret, in place, and is marked used; every other hash stays;
      a refusal changes nothing. */
  ghost predicate Verified(hs: HashSecrets, e: Enrollment, code: string, accepted: bool, after: Enrollment)
    requires Configured(hs)
  {
    && (accepted <==> Acceptable(hs, e, code))
    && (!accepted ==> after == e)
    && (accepted ==>
          && |after.codesHashes| == |e.codesHashes|
          && (forall i | 0 <= i < |e.codesHashes| :: after.codesHashes[i] ==
               if e.codesHashes[i].code == code then CurrentHash(hs, code) else e.codesHashes[i])
          && after.usedHashes == e.usedHashes + [CurrentHash(hs, code)])
  }

  lemma AcceptanceIsVerified(hs: HashSecrets, e: Enrollment, code: string, stored: Hash)
    requires Configured(hs) && Valid(e)
    requires Known(hs, stored, code) && stored in e.codesHashes && stored !in e.usedHashes
    ensures Verified(hs, e, code, true,
                     Enrollment(Rewritten(e.codesHashes, stored, CurrentHash(hs, code)), e.usedHashes + [CurrentHash(hs, code)]))
  {
    var k :| 0 <= k < |e.codesHashes| && e.codesHashes[k] == stored;
    assert StoredAs(e, code, k);
  }

  // Any sequence of attempts under any schedule of secrets

  lemma CurrentIsACandidate(hs: HashSecrets, code: string)
    requires Configured(hs)
    ensures var h := CurrentHash(hs, code);
      && h in Candidates(hs, code) && Known(hs, h, code) && h.code == code && h.id == hs.current
      && if hs.current.None? then h.secret == hs.legacy else (hs.current.value, h.secret) in hs.secrets
  {
    if hs.current.Some? {
      var i :| 0 <= i < |hs.secrets| && hs.secrets[i].0 == hs.current.value;
      assert Candidates(hs, code)[i] == CurrentHash(hs, code);
    } else {
      assert Candidates(hs, code)[|hs.secrets|] == CurrentHash(hs, code);
    }
  }

  lemma SpentIsNotAcceptable(hs: HashSecrets, e: Enrollment, code: string)
    requires Valid(e) && Spent(e, code)
    ensures !Acceptable(hs, e, code)
  {
    var i: nat :| StoredAs(e, code, i) && e.codesHashes[i] in e.usedHashes;
    assert forall j: nat | StoredAs(e, code, j) :: j == i;
  }

  lemma AcceptanceKeepsValid(hs: HashSecrets, e: Enrollment, code: string, after: Enrollment)
    requires Configured(hs) && Valid(e) && Verified(hs, e, code, true, after)
    ensures Valid(after) && Spent(after, code)
  {
    var current := CurrentHash(hs, code);
    CurrentIsACandidate(hs, code);
    var k: nat :| StoredAs(e, code, k) && e.codesHashes[k] !in e.usedHashes;
    assert StoredAs(after, code, k) && after.codesHashes[k] == current;
    assert current in after.usedHashes by {
      assert after.usedHashes[|e.usedHashes|] == current;
    }
    forall u | u in e.usedHashes ensures u in after.codesHashes && u != current {
      var m :| 0 <= m < |e.codesHashes| && e.codesHashes[m] == u;
      assert m != k && u.code != code;
      assert after.codesHashes[m] == u;
    }
  }

  lemma VerifyKeepsValid(hs: HashSecrets, e: Enrollment, code: string, accepted: bool, after: Enrollment)
    requires Configured(hs) && Valid(e) && Verified(hs, e, code, accepted, after)
    ensures Valid(after)
    ensures accepted ==> !Spent(e, code) && Spent(after, code)
    ensures forall other | other != code :: Spent(after, other) <==> Spent(e, other)
  {
    if accepted {
      AcceptanceKeepsValid(hs, e, code, after);
      CurrentIsACandidate(hs, code);
      if Spent(e, code) {
        SpentIsNotAcceptable(hs, e, code);
        assert false;
      }
      forall other | other != code ensures Spent(after, other) <==> Spent(e, other) {
        OthersUntouched(hs, e, code, after, other);
      }
    }
  }

  lemma OthersUntouched(hs: HashSecrets, e: Enrollment, code: string, after: Enrollment, other: string)
    requires Configured(hs) && Verified(hs, e, code, true, after) && other != code
    ensures forall i: nat :: StoredAs(after, other, i) <==> StoredAs(e, other, i)
    ensures forall i: nat | StoredAs(e, other, i) ::
      after.codesHashes[i] == e.codesHashes[i] && (after.codesHashes[i] in after.usedHashes <==> e.codesHashes[i] in e.usedHashes)
  {
    CurrentIsACandidate(hs, code);
  }

  datatype Attempt = Attempt(secrets: HashSecrets, code: string, accepted: bool)

  /** A run of attempts, each under the secrets configured at its time. */
  ghost predicate History(start: Enrollment, attempts: seq<Attempt>, end: Enrollment)
    decreases |attempts|
  {
    if attempts == [] then start == end
    else
      var last := attempts[|attempts| - 1];
      Configured(last.secrets)
      && exists before :: History(start, attempts[..|attempts| - 1], before)
                          && Verified(last.secrets, before, last.code, last.accepted, end)
  }

  function Acceptances(attempts: seq<Attempt>): nat {
    if attempts == [] then 0
    else Acceptances(attempts[..|attempts| - 1]) + if attempts[|attempts| - 1].accepted then 1 else 0
  }

  /** However the secrets are rotated meanwhile: the codes keep their places,
      their number never changes, every used hash is one of them, and each
      acceptance uses exactly one. */
  lemma {:induction false} HistoryKeepsCodes(start: Enrollment, attempts: seq<Attempt>, end: Enrollment)
    requires Valid(start) && History(start, attempts, end)
    ensures Valid(end)
    ensures |end.codesHashes| == |start.codesHashes|
    ensures forall i | 0 <= i < |start.codesHashes| :: end.codesHashes[i].code == start.codesHashes[i].code
    ensures |end.usedHashes| == |start.usedHashes| + Acceptances(attempts)
    ensures forall code | Spent(start, code) :: Spent(end, code)
    decreases |attempts|
  {
    if attempts != [] {
      var last := attempts[|attempts| - 1];
      var before :| History(start, attempts[..|attempts| - 1], before)
        && Verified(last.secrets, before, last.code, last.accepted, end);
      HistoryKeepsCodes(start, attempts[..|attempts| - 1], before);
      VerifyKeepsValid(last.secrets, before, last.code, last.accepted, end);
      if last.accepted {
        CurrentIsACandidate(last.secrets, last.code);
      }
    }
  }

  /** An accepted code stays spent for the rest of the run. */
  lemma {:induction false} AcceptedStaysSpent(start: Enrollment, attempts: seq<Attempt>, end: Enrollment, i: nat)
    requires Valid(start) && History(start, attempts, end) && i < |attempts| && attempts[i].accepted
    ensures Spent(end, attempts[i].code)
    decreases |attempts|
  {
    var last := attempts[|attempts| - 1];
    var before :| History(start, attempts[..|attempts| - 1], before)
      && Verified(last.secrets, before, last.code, last.accepted, end);
    HistoryKeepsCodes(start, attempts[..|attempts| - 1], before);
    VerifyKeepsValid(last.secrets, before, last.code, last.accepted, end);
    if i < |attempts| - 1 {
      AcceptedStaysSpent(start, attempts[..|attempts| - 1], before, i);
    }
  }

  /** No code is ever accepted twice. */
  lemma {:induction false} AcceptedAtMostOnce(start: Enrollment, attempts: seq<Attempt>, end: Enrollment, i: nat, j: nat)
    requires Valid(start) && History(start, attempts, end)
    requires i < j < |attempts| && attempts[i].accepted && attempts[j].accepted
    ensures attempts[i].code != attempts[j].code
    decreases |attempts|
  {
    var last := attempts[|attempts| - 1];
    var before :| History(start, attempts[..|attempts| - 1], before)
      && Verified(last.secrets, before, last.code, last.accepted, end);
    HistoryKeepsCodes(start, attempts[..|attempts| - 1], before);
    if j < |attempts| - 1 {
      AcceptedAtMostOnce(start, attempts[..|attempts| - 1], before, i, j);
    } else {
      AcceptedStaysSpent(start, attempts[..|attempts| - 1], before, i);
      VerifyKeepsValid(last.secrets, before, last.code, last.accepted, end);
    }
  }

  /** Refusals of the code and attempts at other codes never cost it: under any
      secrets it is as acceptable at the end as at the start. */
  lemma {:induction false} UnusedSurvives(start: Enrollment, attempts: seq<Attempt>, end: Enrollment, hs: HashSecrets, code: string)
    requires Valid(start) && History(start, attempts, end)
    requires forall k | 0 <= k < |attempts| :: attempts[k].code == code ==> !attempts[k].accepted
    ensures Acceptable(hs, end, code) <==> Acceptable(hs, start, code)
    decreases |attempts|
  {
    if attempts != [] {
      var last := attempts[|attempts| - 1];
      var before :| History(start, attempts[..|attempts| - 1], before)
        && Verified(last.secrets, before, last.code, last.accepted, end);
      HistoryKeepsCodes(start, attempts[..|attempts| - 1], before);
      UnusedSurvives(start, attempts[..|attempts| - 1], before, hs, code);
      if last.code != code {
        OthersKeepTheirHash(last.secrets, before, last.code, last.accepted, end, hs, code);
      }
    }
  }

  /** Rotation never loses a code: an unused one, stored under some secret, is
      accepted after any schedule that still holds that secret, whichever one is
      current by then. A bare one is accepted as long as the legacy secret stays. */
  lemma RotationKeepsCodes(start: Enrollment, attempts: seq<Attempt>, end: Enrollment, hs: HashSecrets, code: string, i: nat)
    requires Valid(start) && History(start, attempts, end) && StoredAs(start, code, i)
    requires forall k | 0 <= k < |attempts| :: attempts[k].code == code ==> !attempts[k].accepted
    ensures var h := start.codesHashes[i];
      Acceptable(hs, end, code) <==>
        h !in start.usedHashes && if h.id.None? then h.secret == hs.legacy else (h.id.value, h.secret) in hs.secrets
  {
    UnusedSurvives(start, attempts, end, hs, code);
    var h := start.codesHashes[i];
    assert forall j: nat | StoredAs(start, code, j) :: j == i;
    if h.id.Some? && (h.id.value, h.secret) in hs.secrets {
      var k :| 0 <= k < |hs.secrets| && hs.secrets[k] == (h.id.value, h.secret);
      assert h == Hash(Some(hs.secrets[k].0), hs.secrets[k].1, code);
    }
  }

  lemma OthersKeepTheirHash(hs: HashSecrets, e: Enrollment, code: string, accepted: bool, after: Enrollment, later: HashSecrets, other: string)
    requires Configured(hs) && Valid(e) && Verified(hs, e, code, accepted, after) && other != code
    ensures Acceptable(later, after, other) <==> Acceptable(later, e, other)
  {
    if accepted {
      OthersUntouched(hs, e, code, after, other);
    }
  }
}

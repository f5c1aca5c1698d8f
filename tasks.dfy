/** achareh/accounts/tasks.py: the periodic job that prunes the failed-attempt
    table. Its scheduling is outside the model; one run is one call. */
module Tasks {
  import opened Text
  import opened Models
  import Views

  /** Records older than this are deleted. */
  const RetentionPeriod: int := 5 * Day

  /** What the job leaves of the table: every record not stamped before the
      threshold (it deletes `timestamp__lt=threshold`), in the original order. */
  function Surviving(ledger: seq<FailedAttempt>, threshold: int): (kept: seq<FailedAttempt>)
    ensures |kept| <= |ledger|
    ensures forall a :: a in kept ==> a in ledger && a.timestamp >= threshold
    ensures forall i :: 0 <= i < |ledger| && ledger[i].timestamp >= threshold ==> ledger[i] in kept
  {
    if ledger == [] then []
    else
      var init := ledger[..|ledger| - 1];
      var last := ledger[|ledger| - 1];
      var rest := Surviving(init, threshold);
      assert forall a :: a in init ==> a in ledger;
      if last.timestamp < threshold then rest else rest + [last]
  }

  /** The positions of the records the job deletes. */
  ghost function OldIndices(ledger: seq<FailedAttempt>, threshold: int): set<int> {
    set i | 0 <= i < |ledger| && ledger[i].timestamp < threshold
  }

  /** The records removed are exactly the ones stamped before the threshold. */
  lemma {:induction false} RemovedAreTheOldRecords(ledger: seq<FailedAttempt>, threshold: int)
    ensures |ledger| - |Surviving(ledger, threshold)| == |OldIndices(ledger, threshold)|
  {
    if ledger != [] {
      var n := |ledger| - 1;
      RemovedAreTheOldRecords(ledger[..n], threshold);
      OldIndicesStep(ledger, threshold);
    }
  }

  /** Extending the table by one record adds its index to the old ones
      exactly when that record is old. */
  lemma OldIndicesStep(ledger: seq<FailedAttempt>, threshold: int)
    requires ledger != []
    ensures var n := |ledger| - 1;
      |OldIndices(ledger, threshold)|
      == |OldIndices(ledger[..n], threshold)| + (if ledger[n].timestamp < threshold then 1 else 0)
  {
    var n := |ledger| - 1;
    var init := ledger[..n];
    var before := OldIndices(init, threshold);
    var added: set<int> := if ledger[n].timestamp < threshold then {n} else {};
    forall i | 0 <= i < n
      ensures i in OldIndices(ledger, threshold) <==> i in before
    {
      assert init[i] == ledger[i];
    }
    assert OldIndices(ledger, threshold) == before + added;
    assert n !in before;
  }

  /** Pruning works record by record: the survivors of a concatenation are
      the survivors of each part, one after the other. */
  lemma {:induction false} SurvivingSplits(a: seq<FailedAttempt>, b: seq<FailedAttempt>, threshold: int)
    ensures Surviving(a + b, threshold) == Surviving(a, threshold) + Surviving(b, threshold)
  {
    if b != [] {
      var n := |b| - 1;
      SurvivingSplits(a, b[..n], threshold);
      assert (a + b)[..|a + b| - 1] == a + b[..n];
    } else {
      assert a + b == a;
    }
  }

  /** A second run at the same time deletes nothing. */
  lemma {:induction false} PruningIsIdempotent(ledger: seq<FailedAttempt>, threshold: int)
    ensures Surviving(Surviving(ledger, threshold), threshold) == Surviving(ledger, threshold)
  {
    if ledger != [] {
      var init := ledger[..|ledger| - 1];
      var last := ledger[|ledger| - 1];
      PruningIsIdempotent(init, threshold);
      if last.timestamp >= threshold {
        SurvivingSplits(Surviving(init, threshold), [last], threshold);
        assert Surviving([last], threshold) == [last] by {
          assert [last][..0] == [];
        }
      }
    }
  }

  /** The job changes the table exactly when some record is old. */
  lemma {:induction false} NothingOldNothingRemoved(ledger: seq<FailedAttempt>, threshold: int)
    ensures Surviving(ledger, threshold) == ledger <==> forall i :: 0 <= i < |ledger| ==> ledger[i].timestamp >= threshold
  {
    RemovedAreTheOldRecords(ledger, threshold);
    if forall i :: 0 <= i < |ledger| ==> ledger[i].timestamp >= threshold {
      assert OldIndices(ledger, threshold) == {};
      SurvivorsAreAll(ledger, threshold);
    } else {
      var i :| 0 <= i < |ledger| && ledger[i].timestamp < threshold;
      assert i in OldIndices(ledger, threshold);
    }
  }

  lemma {:induction false} SurvivorsAreAll(ledger: seq<FailedAttempt>, threshold: int)
    requires forall i :: 0 <= i < |ledger| ==> ledger[i].timestamp >= threshold
    ensures Surviving(ledger, threshold) == ledger
  {
    if ledger != [] {
      var n := |ledger| - 1;
      SurvivorsAreAll(ledger[..n], threshold);
      assert ledger[..n] + [ledger[n]] == ledger;
    }
  }

  /** Deleting records older than the threshold leaves every `is_blocked`
      count whose window starts at or after the threshold as it was. */
  lemma {:induction false} PruningKeepsRecentFailures(ledger: seq<FailedAttempt>, threshold: int,
                                                      ip: string, phone: string, kind: AttemptType, now: int)
    requires threshold <= now - Views.BlockWindow
    ensures Views.RecentFailures(Surviving(ledger, threshold), ip, phone, kind, now)
         == Views.RecentFailures(ledger, ip, phone, kind, now)
  {
    if ledger != [] {
      var init := ledger[..|ledger| - 1];
      var last := ledger[|ledger| - 1];
      PruningKeepsRecentFailures(init, threshold, ip, phone, kind, now);
      if last.timestamp >= threshold {
        Views.FailureAppended(Surviving(init, threshold), last, ip, phone, kind, now);
      }
    }
  }

  /** A run of the job never changes whether a triple is blocked at the time
      it runs or at any later time: the five-day cutoff lies outside the
      one-hour window. */
  lemma RetentionKeepsBlocks(ledger: seq<FailedAttempt>, pruneTime: int,
                             ip: string, phone: string, kind: AttemptType, now: int)
    requires pruneTime <= now
    ensures Views.IsBlocked(Surviving(ledger, pruneTime - RetentionPeriod), ip, phone, kind, now)
        == Views.IsBlocked(ledger, ip, phone, kind, now)
  {
    PruningKeepsRecentFailures(ledger, pruneTime - RetentionPeriod, ip, phone, kind, now);
  }

  /** `delete_old_failed_attempts`: removes, in place, every record stamped
      more than five days before now, and reports how many went. */
  method DeleteOldFailedAttempts(db: AccountsDb, now: int) returns (deleted: nat, message: string)
    requires db.Valid()
    modifies db
    ensures db.Valid()
    ensures db.users == old(db.users) && db.codes == old(db.codes)
    ensures db.ledger == Surviving(old(db.ledger), now - RetentionPeriod)
    ensures deleted == |old(db.ledger)| - |db.ledger|
    ensures message == DecimalString(deleted) + " old failed attempts deleted."
  {
    var threshold := now - RetentionPeriod;
    var kept: seq<FailedAttempt> := [];
    var i := 0;
    deleted := 0;
    while i < |db.ledger|
      invariant 0 <= i <= |db.ledger|
      invariant kept == Surviving(db.ledger[..i], threshold)
      invariant deleted == i - |kept|
    {
      assert db.ledger[..i + 1][..i] == db.ledger[..i];
      if db.ledger[i].timestamp < threshold {
        deleted := deleted + 1;
      } else {
        kept := kept + [db.ledger[i]];
      }
      i := i + 1;
    }
    assert db.ledger[..i] == db.ledger;
    db.ledger := kept;
    message := DecimalString(deleted) + " old failed attempts deleted.";
  }
}

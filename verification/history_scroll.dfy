/**
 * The team-history extractor's scroll loop over what its table scans find.
 * Each pass scans once; a pass that finds nothing new scrolls (which may
 * raise) and scans again, and the loop ends when that second scan finds
 * nothing new either. A pass that finds something resets the attempt
 * counter; the loop also ends when the counter reaches its limit. A raise
 * anywhere in the loop discards the whole collection.
 */
module HistoryScroll {
  import opened Records
  import opened Scans

  const MaxHistoryScrollAttempts: nat := 20

  /**
   * How the loop ends: scrolling raised; a scan and its re-scan both found
   * nothing new, after `scans` scans; or the counter reached its limit.
   */
  datatype Outcome =
    | Raised
    | Settled(teams: seq<TeamRecord>, scans: nat)
    | LimitReached(teams: seq<TeamRecord>, scans: nat)

  /** Before pass `k`: once the views have run out, every record the next scan sees is collected. */
  predicate PassInvariant(views: seq<View>, k: nat, teams: seq<TeamRecord>) {
    k <= |views| && (k >= |views| ==> Keys(ViewAt(views, k).batch) <= Keys(teams))
  }

  /** A first scan that finds something new sees a view that has not run out. */
  lemma PassGrowth(views: seq<View>, k: nat, teams: seq<TeamRecord>)
    requires PassInvariant(views, k, teams)
    requires |MergeBatch(teams, ViewAt(views, k).batch)| != |teams|
    ensures k < |views| && PassInvariant(views, k + 1, MergeBatch(teams, ViewAt(views, k).batch))
  {
    var batch := ViewAt(views, k).batch;
    if k >= |views| {
      MergeKnownIsIdentity(teams, batch);
    }
    MergeBatchFacts(teams, batch);
    if k + 1 == |views| {
      ViewSettles(views, k);
    }
  }

  /** A re-scan that finds something new after a first scan that did not sees a view that has not run out. */
  lemma RescanGrowth(views: seq<View>, k: nat, teams: seq<TeamRecord>, merged: seq<TeamRecord>)
    requires PassInvariant(views, k, teams)
    requires merged == MergeBatch(teams, ViewAt(views, k).batch) && |merged| == |teams|
    requires |MergeBatch(merged, ViewAt(views, k + 1).batch)| != |merged|
    ensures k + 1 < |views| && PassInvariant(views, k + 2, MergeBatch(merged, ViewAt(views, k + 1).batch))
  {
    var again := MergeBatch(merged, ViewAt(views, k + 1).batch);
    MergeBatchFacts(teams, ViewAt(views, k).batch);
    if k + 1 >= |views| {
      ViewSettles(views, k);
      MergeKnownIsIdentity(merged, ViewAt(views, k + 1).batch);
    }
    MergeBatchFacts(merged, ViewAt(views, k + 1).batch);
    if k + 2 == |views| {
      ViewSettles(views, k + 1);
    }
  }

  /**
   * The loop as a function: from pass `k` with the collection so far and the
   * attempt counter, how it ends.
   */
  function HistoryRun(views: seq<View>, k: nat, teams: seq<TeamRecord>, attempts: nat): Outcome
    requires PassInvariant(views, k, teams)
    decreases |views| - k
  {
    if attempts >= MaxHistoryScrollAttempts then LimitReached(teams, k)
    else
      var merged := MergeBatch(teams, ViewAt(views, k).batch);
      if |merged| != |teams| then
        PassGrowth(views, k, teams);
        HistoryRun(views, k + 1, merged, 1)
      else if ViewAt(views, k).scrollFails then Raised
      else
        var again := MergeBatch(merged, ViewAt(views, k + 1).batch);
        if |again| == |merged| then Settled(again, k + 2)
        else
          RescanGrowth(views, k, teams, merged);
          HistoryRun(views, k + 2, again, attempts + 1)
  }

  /** A first scan that finds something new: the loop goes on from the next scan with the counter at one. */
  lemma PassGrows(views: seq<View>, k: nat, teams: seq<TeamRecord>, attempts: nat, merged: seq<TeamRecord>)
    requires PassInvariant(views, k, teams) && attempts < MaxHistoryScrollAttempts
    requires merged == MergeBatch(teams, ViewAt(views, k).batch) && |merged| != |teams|
    ensures PassInvariant(views, k + 1, merged)
    ensures HistoryRun(views, k, teams, attempts) == HistoryRun(views, k + 1, merged, 1)
  {
    PassGrowth(views, k, teams);
  }

  /** A first scan that finds nothing new, and scrolling raises. */
  lemma PassRaises(views: seq<View>, k: nat, teams: seq<TeamRecord>, attempts: nat, merged: seq<TeamRecord>)
    requires PassInvariant(views, k, teams) && attempts < MaxHistoryScrollAttempts
    requires merged == MergeBatch(teams, ViewAt(views, k).batch) && |merged| == |teams|
    requires ViewAt(views, k).scrollFails
    ensures HistoryRun(views, k, teams, attempts) == Raised
  {
  }

  /** A scan and its re-scan that both find nothing new end the loop. */
  lemma PassSettles(views: seq<View>, k: nat, teams: seq<TeamRecord>, attempts: nat, merged: seq<TeamRecord>, again: seq<TeamRecord>)
    requires PassInvariant(views, k, teams) && attempts < MaxHistoryScrollAttempts
    requires merged == MergeBatch(teams, ViewAt(views, k).batch) && |merged| == |teams|
    requires !ViewAt(views, k).scrollFails
    requires again == MergeBatch(merged, ViewAt(views, k + 1).batch) && |again| == |merged|
    ensures HistoryRun(views, k, teams, attempts) == Settled(again, k + 2)
  {
  }

  /** A re-scan that finds something new: the loop goes on after it with one more attempt counted. */
  lemma PassRecovers(views: seq<View>, k: nat, teams: seq<TeamRecord>, attempts: nat, merged: seq<TeamRecord>, again: seq<TeamRecord>)
    requires PassInvariant(views, k, teams) && attempts < MaxHistoryScrollAttempts
    requires merged == MergeBatch(teams, ViewAt(views, k).batch) && |merged| == |teams|
    requires !ViewAt(views, k).scrollFails
    requires again == MergeBatch(merged, ViewAt(views, k + 1).batch) && |again| != |merged|
    ensures PassInvariant(views, k + 2, again)
    ensures HistoryRun(views, k, teams, attempts) == HistoryRun(views, k + 2, again, attempts + 1)
  {
    RescanGrowth(views, k, teams, merged);
  }

  /**
   * What the loop promises from pass `k` on: a normal end holds the
   * collection after the scans made, at most two past the views; it settles
   * only on a scan and a re-scan that both found nothing new, after a scroll
   * that did not raise; and it raises only at a scan that found nothing new
   * and whose scroll raises.
   */
  ghost predicate HistorySpec(views: seq<View>, k: nat, outcome: Outcome) {
    match outcome
    case Settled(t, n) =>
      k + 2 <= n <= |views| + 2 && t == Collected(views, n) &&
      !Productive(views, n - 2) && !ViewAt(views, n - 2).scrollFails && !Productive(views, n - 1)
    case LimitReached(t, n) => k <= n <= |views| && t == Collected(views, n)
    case Raised => exists j :: k <= j && !Productive(views, j) && ViewAt(views, j).scrollFails
  }

  /** What holds of an outcome from a later pass holds of it from an earlier one. */
  lemma HistorySpecEarlier(views: seq<View>, k: nat, m: nat, outcome: Outcome)
    requires k <= m && HistorySpec(views, m, outcome)
    ensures HistorySpec(views, k, outcome)
  {
    if outcome.Raised? {
      var j :| m <= j && !Productive(views, j) && ViewAt(views, j).scrollFails;
    }
  }

  /** The loop, run from any pass with the collection the scans before it gave, meets its promise. */
  lemma {:induction false} HistoryRunMeetsSpec(views: seq<View>, k: nat, teams: seq<TeamRecord>, attempts: nat)
    requires PassInvariant(views, k, teams) && teams == Collected(views, k)
    ensures HistorySpec(views, k, HistoryRun(views, k, teams, attempts))
    decreases |views| - k, 3
  {
    if attempts < MaxHistoryScrollAttempts {
      var merged := MergeBatch(teams, ViewAt(views, k).batch);
      CollectedNext(views, k, teams);
      if |merged| != |teams| {
        PassGrows(views, k, teams, attempts, merged);
        HistoryRunMeetsSpec(views, k + 1, merged, 1);
        GrowthMeetsSpec(views, k, teams, attempts, merged);
      } else {
        QuietPassMeetsSpec(views, k, teams, attempts, merged);
      }
    }
  }

  /** The same, for a pass whose first scan finds nothing new. */
  lemma {:induction false} QuietPassMeetsSpec(views: seq<View>, k: nat, teams: seq<TeamRecord>, attempts: nat, merged: seq<TeamRecord>)
    requires PassInvariant(views, k, teams) && teams == Collected(views, k) && attempts < MaxHistoryScrollAttempts
    requires merged == MergeBatch(teams, ViewAt(views, k).batch) && |merged| == |teams|
    requires merged == Collected(views, k + 1)
    ensures HistorySpec(views, k, HistoryRun(views, k, teams, attempts))
    decreases |views| - k, 2
  {
    if ViewAt(views, k).scrollFails {
      RaiseMeetsSpec(views, k, teams, attempts, merged);
    } else {
      RescanMeetsSpec(views, k, teams, attempts, merged);
    }
  }

  /** The same, for a pass that scrolls and scans again. */
  lemma {:induction false} RescanMeetsSpec(views: seq<View>, k: nat, teams: seq<TeamRecord>, attempts: nat, merged: seq<TeamRecord>)
    requires PassInvariant(views, k, teams) && teams == Collected(views, k) && attempts < MaxHistoryScrollAttempts
    requires merged == MergeBatch(teams, ViewAt(views, k).batch) && |merged| == |teams|
    requires merged == Collected(views, k + 1) && !ViewAt(views, k).scrollFails
    ensures HistorySpec(views, k, HistoryRun(views, k, teams, attempts))
    decreases |views| - k, 1
  {
    var again := MergeBatch(merged, ViewAt(views, k + 1).batch);
    if |again| == |merged| {
      SettleMeetsSpec(views, k, teams, attempts, merged, again);
    } else {
      RecoveredMeetsSpec(views, k, teams, attempts, merged, again);
    }
  }

  /** The same, for a pass whose re-scan finds something new. */
  lemma {:induction false} RecoveredMeetsSpec(views: seq<View>, k: nat, teams: seq<TeamRecord>, attempts: nat,
                                              merged: seq<TeamRecord>, again: seq<TeamRecord>)
    requires PassInvariant(views, k, teams) && attempts < MaxHistoryScrollAttempts
    requires merged == MergeBatch(teams, ViewAt(views, k).batch) && |merged| == |teams|
    requires merged == Collected(views, k + 1) && !ViewAt(views, k).scrollFails
    requires again == MergeBatch(merged, ViewAt(views, k + 1).batch) && |again| != |merged|
    ensures HistorySpec(views, k, HistoryRun(views, k, teams, attempts))
    decreases |views| - k, 0
  {
    PassRecovers(views, k, teams, attempts, merged, again);
    CollectedNext(views, k + 1, merged);
    HistoryRunMeetsSpec(views, k + 2, again, attempts + 1);
    RecoveryMeetsSpec(views, k, teams, attempts, merged, again);
  }

  lemma CollectedNext(views: seq<View>, k: nat, teams: seq<TeamRecord>)
    requires teams == Collected(views, k)
    ensures MergeBatch(teams, ViewAt(views, k).batch) == Collected(views, k + 1)
  {
  }

  /** A pass that grows the collection keeps the promise the rest of the loop keeps. */
  lemma GrowthMeetsSpec(views: seq<View>, k: nat, teams: seq<TeamRecord>, attempts: nat, merged: seq<TeamRecord>)
    requires PassInvariant(views, k, teams) && attempts < MaxHistoryScrollAttempts
    requires merged == MergeBatch(teams, ViewAt(views, k).batch) && |merged| != |teams|
    requires PassInvariant(views, k + 1, merged) && HistorySpec(views, k + 1, HistoryRun(views, k + 1, merged, 1))
    ensures HistorySpec(views, k, HistoryRun(views, k, teams, attempts))
  {
    PassGrows(views, k, teams, attempts, merged);
    HistorySpecEarlier(views, k, k + 1, HistoryRun(views, k + 1, merged, 1));
  }

  /** A pass whose scroll raises keeps the promise. */
  lemma RaiseMeetsSpec(views: seq<View>, k: nat, teams: seq<TeamRecord>, attempts: nat, merged: seq<TeamRecord>)
    requires PassInvariant(views, k, teams) && teams == Collected(views, k) && attempts < MaxHistoryScrollAttempts
    requires merged == MergeBatch(teams, ViewAt(views, k).batch) && |merged| == |teams|
    requires ViewAt(views, k).scrollFails
    ensures HistorySpec(views, k, HistoryRun(views, k, teams, attempts))
  {
    PassRaises(views, k, teams, attempts, merged);
    assert merged == Collected(views, k + 1);
    assert !Productive(views, k);
  }

  /** A pass whose scan and re-scan both find nothing new keeps the promise. */
  lemma SettleMeetsSpec(views: seq<View>, k: nat, teams: seq<TeamRecord>, attempts: nat, merged: seq<TeamRecord>, again: seq<TeamRecord>)
    requires PassInvariant(views, k, teams) && teams == Collected(views, k) && attempts < MaxHistoryScrollAttempts
    requires merged == MergeBatch(teams, ViewAt(views, k).batch) && |merged| == |teams|
    requires !ViewAt(views, k).scrollFails
    requires again == MergeBatch(merged, ViewAt(views, k + 1).batch) && |again| == |merged|
    ensures HistorySpec(views, k, HistoryRun(views, k, teams, attempts))
  {
    PassSettles(views, k, teams, attempts, merged, again);
    assert merged == Collected(views, k + 1);
    assert again == Collected(views, k + 2);
    SettledSpec(views, k, again);
  }

  lemma SettledSpec(views: seq<View>, k: nat, again: seq<TeamRecord>)
    requires k <= |views| && again == Collected(views, k + 2)
    requires !Productive(views, k) && !ViewAt(views, k).scrollFails && !Productive(views, k + 1)
    ensures HistorySpec(views, k, Settled(again, k + 2))
  {
  }

  /** A pass whose re-scan finds something new keeps the promise the rest of the loop keeps. */
  lemma RecoveryMeetsSpec(views: seq<View>, k: nat, teams: seq<TeamRecord>, attempts: nat, merged: seq<TeamRecord>, again: seq<TeamRecord>)
    requires PassInvariant(views, k, teams) && attempts < MaxHistoryScrollAttempts
    requires merged == MergeBatch(teams, ViewAt(views, k).batch) && |merged| == |teams|
    requires !ViewAt(views, k).scrollFails
    requires again == MergeBatch(merged, ViewAt(views, k + 1).batch) && |again| != |merged|
    requires PassInvariant(views, k + 2, again) && HistorySpec(views, k + 2, HistoryRun(views, k + 2, again, attempts + 1))
    ensures HistorySpec(views, k, HistoryRun(views, k, teams, attempts))
  {
    PassRecovers(views, k, teams, attempts, merged, again);
    HistorySpecEarlier(views, k, k + 2, HistoryRun(views, k + 2, again, attempts + 1));
  }
}

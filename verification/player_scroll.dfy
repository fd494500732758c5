/**
 * The player page's scroll loop over what its table scans find: the
 * scroll-attempt counter, the three reasons the loop ends, and the loop
 * itself as a function of the scans' results.
 */
module PlayerScroll {
  import opened Wrappers
  import opened Records
  import opened Scans

  const MaxScrollAttempts: nat := 30

  /** The scroll-attempt counter after scan `k`: reset by a productive scan, otherwise one more. */
  function Attempts(views: seq<View>, k: nat): nat {
    if Productive(views, k) then 0
    else (if k == 0 then 0 else Attempts(views, k - 1)) + 1
  }

  /** The counter before scan `k`. */
  function AttemptsBefore(views: seq<View>, k: nat): nat {
    if k == 0 then 0 else Attempts(views, k - 1)
  }

  datatype Stop = ScrollRaised | AtBottom | AttemptsExhausted

  /**
   * Why the loop ends after scan `k`, if it does: scrolling after an
   * unproductive scan raised, the page is at its bottom, or the counter
   * reached its limit.
   */
  function StopAt(views: seq<View>, k: nat): Option<Stop> {
    var v := ViewAt(views, k);
    if !Productive(views, k) && v.scrollFails then Some(ScrollRaised)
    else if v.atBottom then Some(AtBottom)
    else if Attempts(views, k) >= MaxScrollAttempts then Some(AttemptsExhausted)
    else None
  }

  /** No scan before scan `n` gave a reason to stop. */
  predicate Running(views: seq<View>, n: nat) {
    n == 0 || (Running(views, n - 1) && StopAt(views, n - 1).None?)
  }

  lemma {:induction false} RunningBefore(views: seq<View>, n: nat)
    requires Running(views, n)
    ensures forall j :: 0 <= j < n ==> StopAt(views, j).None?
  {
    if n > 0 {
      RunningBefore(views, n - 1);
    }
  }

  /** Scan `k` in terms of whether it was productive and of the counter before it. */
  lemma ScrollStep(views: seq<View>, k: nat, productive: bool, before: nat)
    requires productive == Productive(views, k) && before == AttemptsBefore(views, k)
    ensures var a := if productive then 0 else before + 1;
      AttemptsBefore(views, k + 1) == a &&
      StopAt(views, k) ==
        if !productive && ViewAt(views, k).scrollFails then Some(ScrollRaised)
        else if ViewAt(views, k).atBottom then Some(AtBottom)
        else if a >= MaxScrollAttempts then Some(AttemptsExhausted)
        else None
  {
  }

  /** What the loop keeps true between scans, with the records already collected when the views have run out. */
  predicate RunInvariant(views: seq<View>, k: nat, teams: seq<TeamRecord>, previousCount: nat, attempts: nat) {
    previousCount == |teams| && attempts <= MaxScrollAttempts && k <= |views| + attempts &&
    (k >= |views| ==> Keys(ViewAt(views, k).batch) <= Keys(teams))
  }

  /** The counter after a scan: unchanged count and one more attempt without growth, the new count and zero with it. */
  function NextCount(merged: seq<TeamRecord>, previousCount: nat): nat {
    if |merged| == previousCount then previousCount else |merged|
  }

  function NextAttempts(merged: seq<TeamRecord>, previousCount: nat, attempts: nat): nat {
    if |merged| == previousCount then attempts + 1 else 0
  }

  /** A scan that does not stop the loop keeps its invariant: after the views run out no scan grows the collection. */
  lemma RunContinues(views: seq<View>, k: nat, teams: seq<TeamRecord>, previousCount: nat, attempts: nat)
    requires RunInvariant(views, k, teams, previousCount, attempts) && attempts < MaxScrollAttempts
    ensures var merged := MergeBatch(teams, ViewAt(views, k).batch);
      RunInvariant(views, k + 1, merged, NextCount(merged, previousCount), NextAttempts(merged, previousCount, attempts))
  {
    var batch := ViewAt(views, k).batch;
    MergeBatchFacts(teams, batch);
    if k + 1 >= |views| {
      ViewSettles(views, k);
    }
    if k >= |views| {
      MergeKnownIsIdentity(teams, batch);
    }
  }

  /**
   * The scroll loop as a function: from scan `k` with the collection so far,
   * the count it had after the last productive scan, and the counter, the
   * final collection and the number of scans made.
   */
  function Run(views: seq<View>, k: nat, teams: seq<TeamRecord>, previousCount: nat, attempts: nat): (r: (seq<TeamRecord>, nat))
    requires RunInvariant(views, k, teams, previousCount, attempts)
    ensures k <= r.1 <= |views| + MaxScrollAttempts
    decreases |views| + MaxScrollAttempts - k
  {
    if attempts >= MaxScrollAttempts then (teams, k)
    else
      var v := ViewAt(views, k);
      var merged := MergeBatch(teams, v.batch);
      if |merged| == previousCount && v.scrollFails then (merged, k + 1)
      else if v.atBottom then (merged, k + 1)
      else
        RunContinues(views, k, teams, previousCount, attempts);
        Run(views, k + 1, merged, NextCount(merged, previousCount), NextAttempts(merged, previousCount, attempts))
  }

  /** A scan after which the loop stops: the loop's result is the merged collection and the scans made so far. */
  lemma RunStops(views: seq<View>, k: nat, teams: seq<TeamRecord>, previousCount: nat, attempts: nat, merged: seq<TeamRecord>)
    requires RunInvariant(views, k, teams, previousCount, attempts) && attempts < MaxScrollAttempts
    requires merged == MergeBatch(teams, ViewAt(views, k).batch)
    requires (|merged| == previousCount && ViewAt(views, k).scrollFails) || ViewAt(views, k).atBottom
    ensures Run(views, k, teams, previousCount, attempts) == (merged, k + 1)
  {
  }

  /** A scan after which the loop goes on: the loop's result is that of the rest of the loop. */
  lemma RunGoesOn(views: seq<View>, k: nat, teams: seq<TeamRecord>, previousCount: nat, attempts: nat, merged: seq<TeamRecord>)
    requires RunInvariant(views, k, teams, previousCount, attempts) && attempts < MaxScrollAttempts
    requires merged == MergeBatch(teams, ViewAt(views, k).batch)
    requires !(|merged| == previousCount && ViewAt(views, k).scrollFails) && !ViewAt(views, k).atBottom
    ensures RunInvariant(views, k + 1, merged, NextCount(merged, previousCount), NextAttempts(merged, previousCount, attempts))
    ensures Run(views, k, teams, previousCount, attempts) ==
      Run(views, k + 1, merged, NextCount(merged, previousCount), NextAttempts(merged, previousCount, attempts))
  {
    RunContinues(views, k, teams, previousCount, attempts);
  }

  /**
   * The loop's result is the collection after the scans it made, it stops at
   * the first scan that gives a reason to stop, and no scan before that gives one.
   */
  lemma {:induction false} RunMeetsSpec(views: seq<View>, k: nat, teams: seq<TeamRecord>, previousCount: nat, attempts: nat)
    requires RunInvariant(views, k, teams, previousCount, attempts)
    requires teams == Collected(views, k) && attempts == AttemptsBefore(views, k)
    requires attempts < MaxScrollAttempts ==> Running(views, k)
    requires attempts >= MaxScrollAttempts ==> k > 0 && Running(views, k - 1) && StopAt(views, k - 1).Some?
    ensures var r := Run(views, k, teams, previousCount, attempts);
      1 <= r.1 && r.0 == Collected(views, r.1) && Running(views, r.1 - 1) && StopAt(views, r.1 - 1).Some?
    decreases |views| + MaxScrollAttempts - k, 1
  {
    if attempts < MaxScrollAttempts {
      var v := ViewAt(views, k);
      var merged := MergeBatch(teams, v.batch);
      if !(|merged| == previousCount && v.scrollFails) && !v.atBottom {
        ContinueStep(views, k, teams, previousCount, attempts, merged);
      } else {
        StopMeetsSpec(views, k, teams, previousCount, attempts, merged);
      }
    }
  }

  /** The same, for a scan after which the loop goes on. */
  lemma {:induction false} ContinueStep(views: seq<View>, k: nat, teams: seq<TeamRecord>, previousCount: nat, attempts: nat, merged: seq<TeamRecord>)
    requires RunInvariant(views, k, teams, previousCount, attempts) && attempts < MaxScrollAttempts
    requires teams == Collected(views, k) && attempts == AttemptsBefore(views, k) && Running(views, k)
    requires merged == MergeBatch(teams, ViewAt(views, k).batch)
    requires !(|merged| == previousCount && ViewAt(views, k).scrollFails) && !ViewAt(views, k).atBottom
    ensures var r := Run(views, k, teams, previousCount, attempts);
      1 <= r.1 && r.0 == Collected(views, r.1) && Running(views, r.1 - 1) && StopAt(views, r.1 - 1).Some?
    decreases |views| + MaxScrollAttempts - k, 0
  {
    ContinueFacts(views, k, teams, previousCount, attempts, merged);
    RunMeetsSpec(views, k + 1, merged, NextCount(merged, previousCount), NextAttempts(merged, previousCount, attempts));
    ContinueMeetsSpec(views, k, teams, previousCount, attempts, merged);
  }

  /** A scan after which the loop goes on leaves the rest of the loop in the state the promise starts from. */
  lemma ContinueFacts(views: seq<View>, k: nat, teams: seq<TeamRecord>, previousCount: nat, attempts: nat, merged: seq<TeamRecord>)
    requires RunInvariant(views, k, teams, previousCount, attempts) && attempts < MaxScrollAttempts
    requires teams == Collected(views, k) && attempts == AttemptsBefore(views, k) && Running(views, k)
    requires merged == MergeBatch(teams, ViewAt(views, k).batch)
    requires !(|merged| == previousCount && ViewAt(views, k).scrollFails) && !ViewAt(views, k).atBottom
    ensures var count, next := NextCount(merged, previousCount), NextAttempts(merged, previousCount, attempts);
      RunInvariant(views, k + 1, merged, count, next) &&
      merged == Collected(views, k + 1) && next == AttemptsBefore(views, k + 1) &&
      (next < MaxScrollAttempts ==> Running(views, k + 1)) &&
      (next >= MaxScrollAttempts ==> Running(views, k) && StopAt(views, k).Some?)
  {
    RunContinues(views, k, teams, previousCount, attempts);
    ScrollStep(views, k, |merged| != previousCount, attempts);
  }

  /** A scan after which the loop goes on meets the promise the rest of the loop meets. */
  lemma ContinueMeetsSpec(views: seq<View>, k: nat, teams: seq<TeamRecord>, previousCount: nat, attempts: nat, merged: seq<TeamRecord>)
    requires RunInvariant(views, k, teams, previousCount, attempts) && attempts < MaxScrollAttempts
    requires merged == MergeBatch(teams, ViewAt(views, k).batch)
    requires !(|merged| == previousCount && ViewAt(views, k).scrollFails) && !ViewAt(views, k).atBottom
    requires RunInvariant(views, k + 1, merged, NextCount(merged, previousCount), NextAttempts(merged, previousCount, attempts))
    requires var r := Run(views, k + 1, merged, NextCount(merged, previousCount), NextAttempts(merged, previousCount, attempts));
      1 <= r.1 && r.0 == Collected(views, r.1) && Running(views, r.1 - 1) && StopAt(views, r.1 - 1).Some?
    ensures var r := Run(views, k, teams, previousCount, attempts);
      1 <= r.1 && r.0 == Collected(views, r.1) && Running(views, r.1 - 1) && StopAt(views, r.1 - 1).Some?
  {
    RunGoesOn(views, k, teams, previousCount, attempts, merged);
  }

  /** A scan after which the loop stops meets the promise. */
  lemma StopMeetsSpec(views: seq<View>, k: nat, teams: seq<TeamRecord>, previousCount: nat, attempts: nat, merged: seq<TeamRecord>)
    requires RunInvariant(views, k, teams, previousCount, attempts) && attempts < MaxScrollAttempts
    requires teams == Collected(views, k) && attempts == AttemptsBefore(views, k) && Running(views, k)
    requires merged == MergeBatch(teams, ViewAt(views, k).batch)
    requires (|merged| == previousCount && ViewAt(views, k).scrollFails) || ViewAt(views, k).atBottom
    ensures var r := Run(views, k, teams, previousCount, attempts);
      1 <= r.1 && r.0 == Collected(views, r.1) && Running(views, r.1 - 1) && StopAt(views, r.1 - 1).Some?
  {
    RunStops(views, k, teams, previousCount, attempts, merged);
    ScrollStep(views, k, |merged| != previousCount, attempts);
  }

  /**
   * What the scroll loop promises about a run that made `scans` scans: its
   * collection is the merge of those scans, the last of them gives a reason
   * to stop, and none before it does.
   */
  predicate ScrollOutcome(views: seq<View>, teams: seq<TeamRecord>, scans: nat) {
    1 <= scans <= |views| + MaxScrollAttempts &&
    teams == Collected(views, scans) &&
    StopAt(views, scans - 1).Some? &&
    forall j :: 0 <= j < scans - 1 ==> StopAt(views, j).None?
  }

  /** The loop started from an empty collection keeps that promise. */
  lemma RunFromStartMeetsSpec(views: seq<View>, k: nat, teams: seq<TeamRecord>, previousCount: nat, attempts: nat)
    requires k == 0 && teams == [] && previousCount == 0 && attempts == 0
    ensures var r := Run(views, k, teams, previousCount, attempts); ScrollOutcome(views, r.0, r.1)
  {
    RunMeetsSpec(views, k, teams, previousCount, attempts);
    RunningBefore(views, Run(views, k, teams, previousCount, attempts).1 - 1);
  }
}

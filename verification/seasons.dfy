/**
 * Current-versus-past classification of team-history records, shared word
 * for word by the player page and the team-history extractor. The current
 * year is the largest year `20dd` found in any record's season (2025 when no
 * season holds one); a record is current when its season contains that year.
 */
module Seasons {
  import opened Wrappers
  import opened Text
  import opened Records
  import opened TeamRow

  /** `team.get('season', '')`. */
  function SeasonText(t: TeamRecord): string {
    t.season.GetOr("")
  }

  /** The value of the year `20dd` at `p` (`int(...)` of the match). */
  function YearValue(s: string, p: nat): (r: nat)
    requires YearAt(s, p)
    ensures 2000 <= r <= 2099
  {
    2000 + 10 * DigitValue(s[p + 2]) + DigitValue(s[p + 3])
  }

  /** `re.search(r'20\d{2}', s)` from position `i`: the value of the leftmost year. */
  function FirstYear(s: string, i: nat): (r: Option<nat>)
    ensures r.Some? ==> exists p :: i <= p && YearAt(s, p) && r.value == YearValue(s, p)
    ensures r.None? <==> forall p :: i <= p ==> !YearAt(s, p)
    decreases |s| - i
  {
    if i + 4 > |s| then None
    else if YearAt(s, i) then Some(YearValue(s, i))
    else FirstYear(s, i + 1)
  }

  /** The year a record contributes to the year list, if its season holds one. */
  function YearOf(t: TeamRecord): Option<nat> {
    if SeasonText(t) != "" then FirstYear(SeasonText(t), 0) else None
  }

  /** The year list built by the classification loop, in record order. */
  function Years(teams: seq<TeamRecord>): (r: seq<nat>)
    ensures |r| <= |teams|
    decreases |teams|
  {
    if teams == [] then []
    else
      var y := YearOf(teams[|teams| - 1]);
      Years(teams[..|teams| - 1]) + (if y.Some? then [y.value] else [])
  }

  /** Python's `max` on a non-empty list. */
  function Max(xs: seq<nat>): (r: nat)
    requires xs != []
    ensures r in xs && forall x :: x in xs ==> x <= r
  {
    if |xs| == 1 then xs[0]
    else
      var m := Max(xs[1..]);
      assert forall x :: x in xs[1..] ==> x in xs;
      assert forall x :: x in xs ==> x == xs[0] || x in xs[1..];
      if xs[0] >= m then xs[0] else m
  }

  /** `max(years) if years else 2025`. */
  function CurrentYear(teams: seq<TeamRecord>): nat {
    var ys := Years(teams);
    if ys == [] then 2025 else Max(ys)
  }

  /** `season and str(year) in season`. */
  predicate IsCurrent(t: TeamRecord, year: nat) {
    SeasonText(t) != "" && Contains(SeasonText(t), NatToString(year))
  }

  /** The records whose season contains `year`, in order. */
  function CurrentOf(teams: seq<TeamRecord>, year: nat): (r: seq<TeamRecord>)
    ensures |r| <= |teams|
    decreases |teams|
  {
    if teams == [] then []
    else
      var t := teams[|teams| - 1];
      CurrentOf(teams[..|teams| - 1], year) + (if IsCurrent(t, year) then [t] else [])
  }

  function WithStatus(t: TeamRecord, s: Status): TeamRecord {
    t.(status := Some(s))
  }

  /** The records, each with its status set to `s`. */
  function MarkAll(teams: seq<TeamRecord>, s: Status): (r: seq<TeamRecord>)
    ensures |r| == |teams| && forall i :: 0 <= i < |teams| ==> r[i] == WithStatus(teams[i], s)
  {
    seq(|teams|, i requires 0 <= i < |teams| => WithStatus(teams[i], s))
  }

  lemma MarkAppend(teams: seq<TeamRecord>, t: TeamRecord, s: Status)
    ensures MarkAll(teams + [t], s) == MarkAll(teams, s) + [WithStatus(t, s)]
  {
  }

  /** The records whose season does not contain `year`, in order, each marked past. */
  function PastOf(teams: seq<TeamRecord>, year: nat): (r: seq<TeamRecord>)
    ensures |r| <= |teams|
    decreases |teams|
  {
    if teams == [] then []
    else
      var t := teams[|teams| - 1];
      PastOf(teams[..|teams| - 1], year) + (if IsCurrent(t, year) then [] else [WithStatus(t, Past)])
  }

  /** What the current-teams step returns: filtered to the latest year, or unfiltered when no year parses. */
  function CurrentTeams(teams: seq<TeamRecord>): seq<TeamRecord> {
    var ys := Years(teams);
    if ys == [] then teams else CurrentOf(teams, Max(ys))
  }

  /** The year-collection loop. */
  method CollectYears(teams: seq<TeamRecord>) returns (years: seq<nat>)
    ensures years == Years(teams)
  {
    years := [];
    var i := 0;
    while i < |teams|
      invariant i <= |teams|
      invariant years == Years(teams[..i])
    {
      var season := SeasonText(teams[i]);
      if season != "" {
        var m := FirstYear(season, 0);
        if m.Some? {
          years := years + [m.value];
        }
      }
      assert teams[..i + 1][..i] == teams[..i];
      i := i + 1;
    }
    assert teams[..i] == teams;
  }

  /**
   * The current-teams step: when the scan found records and some season holds
   * a year, keep the records whose season contains the latest year.
   */
  method ExtractCurrentTeams(teams: seq<TeamRecord>) returns (current: seq<TeamRecord>)
    ensures current == CurrentTeams(teams)
  {
    current := teams;
    if |teams| > 0 {
      var years := CollectYears(teams);
      if |years| > 0 {
        var latest := Max(years);
        current := [];
        var i := 0;
        while i < |teams|
          invariant i <= |teams|
          invariant current == CurrentOf(teams[..i], latest)
        {
          if IsCurrent(teams[i], latest) {
            current := current + [teams[i]];
          }
          assert teams[..i + 1][..i] == teams[..i];
          i := i + 1;
        }
        assert teams[..i] == teams;
      }
    }
  }

  /**
   * The past-teams step: every record is marked current or past against the
   * current year; the past records are returned in order. The current list,
   * which the source builds and then drops, is returned alongside.
   */
  method ExtractPastTeams(all: seq<TeamRecord>) returns (past: seq<TeamRecord>, current: seq<TeamRecord>)
    ensures past == PastOf(all, CurrentYear(all))
    ensures current == MarkAll(CurrentOf(all, CurrentYear(all)), Current)
    ensures forall t :: t in past ==> t.status == Some(Past)
  {
    var years := CollectYears(all);
    var year := if |years| > 0 then Max(years) else 2025;
    past, current := Classify(all, year);
    PastMarked(all, year);
  }

  /** The marking loop of the past-teams step, against a given year. */
  method Classify(all: seq<TeamRecord>, year: nat) returns (past: seq<TeamRecord>, current: seq<TeamRecord>)
    ensures past == PastOf(all, year)
    ensures current == MarkAll(CurrentOf(all, year), Current)
  {
    past, current := [], [];
    var i := 0;
    while i < |all|
      invariant i <= |all|
      invariant past == PastOf(all[..i], year)
      invariant current == MarkAll(CurrentOf(all[..i], year), Current)
    {
      var t := all[i];
      assert all[..i + 1] == all[..i] + [t];
      if SeasonText(t) != "" && Contains(SeasonText(t), NatToString(year)) {
        MarkAppend(CurrentOf(all[..i], year), t, Current);
        current := current + [WithStatus(t, Current)];
      } else {
        past := past + [WithStatus(t, Past)];
      }
      i := i + 1;
    }
    assert all[..i] == all;
  }

  lemma {:induction false} PastMarked(teams: seq<TeamRecord>, year: nat)
    ensures forall t :: t in PastOf(teams, year) ==> t.status == Some(Past) && !IsCurrent(t, year)
    decreases |teams|
  {
    if teams != [] {
      PastMarked(teams[..|teams| - 1], year);
    }
  }

  /** The decimal form of a year from 2000 to 2099: `2`, `0`, its tens digit and its units digit. */
  lemma YearString(y: nat)
    requires 2000 <= y <= 2099
    ensures NatToString(y) == ['2', '0', '0' + ((y / 10) % 10) as char, '0' + (y % 10) as char]
  {
    var a := (y / 10) % 10;
    assert y / 10 == 200 + a && (200 + a) / 10 == 20;
    assert NatToString(20) == "20";
  }

  /** The decimal form of a year `20dd` is the four characters it was read from. */
  lemma YearDigits(s: string, p: nat)
    requires YearAt(s, p)
    ensures NatToString(YearValue(s, p)) == s[p..p + 4]
  {
    var y := YearValue(s, p);
    YearString(y);
    assert (y / 10) % 10 == DigitValue(s[p + 2]) && y % 10 == DigitValue(s[p + 3]);
  }

  /** A season containing the decimal form of a year from 2000 to 2099 has a year of its own. */
  lemma ContainsYear(s: string, y: nat)
    requires 2000 <= y <= 2099 && Contains(s, NatToString(y))
    ensures FirstYear(s, 0).Some?
  {
    var p := FindFrom(s, NatToString(y), 0).value;
    YearString(y);
    assert s[p..p + 4] == NatToString(y);
    assert YearAt(s, p);
  }

  /** A year in the year list came from some record's season. */
  lemma {:induction false} YearsSound(teams: seq<TeamRecord>, y: nat)
    requires y in Years(teams)
    ensures exists i :: 0 <= i < |teams| && YearOf(teams[i]) == Some(y)
    decreases |teams|
  {
    var prefix := teams[..|teams| - 1];
    if y in Years(prefix) {
      YearsSound(prefix, y);
      var i :| 0 <= i < |prefix| && YearOf(prefix[i]) == Some(y);
      assert teams[i] == prefix[i];
    } else {
      assert YearOf(teams[|teams| - 1]) == Some(y);
    }
  }

  /** Every record whose season yields a year puts it in the year list. */
  lemma {:induction false} YearsComplete(teams: seq<TeamRecord>, i: nat)
    requires i < |teams| && YearOf(teams[i]).Some?
    ensures YearOf(teams[i]).value in Years(teams)
    decreases |teams|
  {
    var prefix := teams[..|teams| - 1];
    if i < |prefix| {
      assert prefix[i] == teams[i];
      YearsComplete(prefix, i);
    }
  }

  /** A record is kept by the current filter exactly when its season contains the year. */
  lemma {:induction false} CurrentOfMembers(teams: seq<TeamRecord>, year: nat, t: TeamRecord)
    ensures t in CurrentOf(teams, year) <==> t in teams && IsCurrent(t, year)
    decreases |teams|
  {
    if teams != [] {
      var prefix := teams[..|teams| - 1];
      CurrentOfMembers(prefix, year, t);
      assert teams == prefix + [teams[|teams| - 1]];
    }
  }

  /** The past list holds, marked past, exactly the records whose season does not contain the year. */
  lemma {:induction false} PastOfMembers(teams: seq<TeamRecord>, year: nat, t: TeamRecord)
    ensures t in teams && !IsCurrent(t, year) ==> WithStatus(t, Past) in PastOf(teams, year)
    ensures t in PastOf(teams, year) ==> exists i :: 0 <= i < |teams| && !IsCurrent(teams[i], year) && t == WithStatus(teams[i], Past)
    decreases |teams|
  {
    if teams != [] {
      var prefix := teams[..|teams| - 1];
      PastOfMembers(prefix, year, t);
      assert teams == prefix + [teams[|teams| - 1]];
      if t in PastOf(prefix, year) {
        var i :| 0 <= i < |prefix| && !IsCurrent(prefix[i], year) && t == WithStatus(prefix[i], Past);
        assert teams[i] == prefix[i];
      }
    }
  }

  /** Every record lands in exactly one of the two lists. */
  lemma {:induction false} PartitionCount(teams: seq<TeamRecord>, year: nat)
    ensures |PastOf(teams, year)| + |CurrentOf(teams, year)| == |teams|
    decreases |teams|
  {
    if teams != [] {
      PartitionCount(teams[..|teams| - 1], year);
    }
  }

  /** When some season holds a year, a record of the latest year is current, so the current list is not empty. */
  lemma LatestIsCurrent(teams: seq<TeamRecord>)
    requires Years(teams) != []
    ensures CurrentOf(teams, CurrentYear(teams)) != []
    ensures |PastOf(teams, CurrentYear(teams))| < |teams|
  {
    var y := CurrentYear(teams);
    YearsSound(teams, y);
    var i :| 0 <= i < |teams| && YearOf(teams[i]) == Some(y);
    var s := SeasonText(teams[i]);
    var p :| 0 <= p && YearAt(s, p) && y == YearValue(s, p);
    YearDigits(s, p);
    assert OccursAt(s, NatToString(y), p);
    ContainsAt(s, NatToString(y), p);
    CurrentOfMembers(teams, y, teams[i]);
    PartitionCount(teams, y);
  }

  /** When no season holds a year, no record contains the default year 2025: every record is past. */
  lemma NoYearAllPast(teams: seq<TeamRecord>)
    requires Years(teams) == []
    ensures CurrentOf(teams, CurrentYear(teams)) == []
    ensures |PastOf(teams, CurrentYear(teams))| == |teams|
  {
    forall t | t in teams ensures !IsCurrent(t, 2025) {
      if IsCurrent(t, 2025) {
        ContainsYear(SeasonText(t), 2025);
        var i :| 0 <= i < |teams| && teams[i] == t;
        YearsComplete(teams, i);
      }
    }
    if CurrentOf(teams, 2025) != [] {
      CurrentOfMembers(teams, 2025, CurrentOf(teams, 2025)[0]);
    }
    PartitionCount(teams, 2025);
  }

  /** The current-teams step keeps only records of the latest year, and at least one of them, when a year parses. */
  lemma CurrentTeamsLatest(teams: seq<TeamRecord>)
    requires Years(teams) != []
    ensures CurrentTeams(teams) != []
    ensures forall t :: t in CurrentTeams(teams) ==> t in teams && IsCurrent(t, CurrentYear(teams))
  {
    LatestIsCurrent(teams);
    forall t | t in CurrentTeams(teams) ensures t in teams && IsCurrent(t, CurrentYear(teams)) {
      CurrentOfMembers(teams, CurrentYear(teams), t);
    }
  }
}


/**
 * The team-history extractor used for every player of a team: its table scan
 * over the rows several selectors return (duplicates removed by element
 * identity), the flexible row parser, its own validator, the scroll loop,
 * the current/past split, the skill and season aggregation, and the retry
 * loop around one player's extraction.
 *
 * The browser is an input: a row is an element handle with the texts of its
 * `td` cells; the page as it is scrolled is a sequence of frames, one per
 * scan; each attempt of the retry loop sees one page.
 */
module History {
  import opened Wrappers
  import opened Text
  import opened Records
  import opened TeamRow
  import opened Scans
  import opened HistoryScroll
  import Seasons

  /** A table row as returned by a selector: the identity of its element and the texts of its cells. */
  datatype Row = Row(handle: nat, cells: seq<string>)

  function Handles(rows: seq<Row>): set<nat> {
    set r | r in rows :: r.handle
  }

  /** The rows of all selectors with every element after its first occurrence removed, in first-seen order. */
  function UniqueRows(rows: seq<Row>): seq<Row>
    decreases |rows|
  {
    if rows == [] then []
    else
      var u := UniqueRows(rows[..|rows| - 1]);
      if rows[|rows| - 1].handle in Handles(u) then u else u + [rows[|rows| - 1]]
  }

  lemma HandlesAppend(rows: seq<Row>, r: Row)
    ensures Handles(rows + [r]) == Handles(rows) + {r.handle}
  {
    assert r in rows + [r];
    forall x | x in rows ensures x in rows + [r] { }
  }

  /** De-duplication keeps every element some selector returned. */
  lemma {:induction false} UniqueRowsHandles(rows: seq<Row>)
    ensures Handles(UniqueRows(rows)) == Handles(rows)
    decreases |rows|
  {
    if rows != [] {
      var prefix := rows[..|rows| - 1];
      var last := rows[|rows| - 1];
      assert rows == prefix + [last];
      UniqueRowsHandles(prefix);
      HandlesAppend(prefix, last);
      HandlesAppend(UniqueRows(prefix), last);
    }
  }

  /** No element occurs twice. */
  predicate DistinctHandles(rows: seq<Row>) {
    forall i, j :: 0 <= i < j < |rows| ==> rows[i].handle != rows[j].handle
  }

  /** The de-duplicated rows hold each element once. */
  lemma {:induction false} UniqueRowsDistinct(rows: seq<Row>)
    ensures DistinctHandles(UniqueRows(rows))
    decreases |rows|
  {
    if rows != [] {
      var prefix := rows[..|rows| - 1];
      var last := rows[|rows| - 1];
      UniqueRowsDistinct(prefix);
      var u := UniqueRows(prefix);
      if last.handle !in Handles(u) {
        var v := u + [last];
        assert UniqueRows(rows) == v;
        forall i, j | 0 <= i < j < |v| ensures v[i].handle != v[j].handle {
          assert v[i] == u[i] && u[i] in u;
          if j < |u| {
            assert v[j] == u[j];
            assert u[i].handle != u[j].handle;
          } else {
            assert v[j] == last && u[i].handle in Handles(u);
          }
        }
      }
    }
  }

  /** A row that de-duplication keeps because it comes last is the first one returned for its element. */
  lemma LastFirstSeen(prefix: seq<Row>, last: Row)
    requires last.handle !in Handles(UniqueRows(prefix))
    ensures forall j :: 0 <= j < |prefix| ==> prefix[j].handle != last.handle
  {
    UniqueRowsHandles(prefix);
    forall j | 0 <= j < |prefix| ensures prefix[j].handle != last.handle {
      assert prefix[j] in prefix;
    }
  }

  /** Each de-duplicated row is the first row returned for its element. */
  lemma {:induction false} UniqueRowsFirstSeen(rows: seq<Row>, x: Row)
    requires x in UniqueRows(rows)
    ensures exists i :: 0 <= i < |rows| && rows[i] == x && forall j :: 0 <= j < i ==> rows[j].handle != x.handle
    decreases |rows|
  {
    var prefix := rows[..|rows| - 1];
    var last := rows[|rows| - 1];
    var u := UniqueRows(prefix);
    var i: nat;
    if x in u {
      UniqueRowsFirstSeen(prefix, x);
      i :| 0 <= i < |prefix| && prefix[i] == x && forall j :: 0 <= j < i ==> prefix[j].handle != x.handle;
      assert forall j :: 0 <= j <= i ==> rows[j] == prefix[j];
    } else {
      assert x == last && last.handle !in Handles(u);
      LastFirstSeen(prefix, last);
      i := |prefix|;
      assert forall j :: 0 <= j < i ==> rows[j] == prefix[j];
    }
    assert rows[i] == x;
  }

  /** The de-duplication loop: a row is kept unless its element was seen before. */
  method DedupRows(rows: seq<Row>) returns (unique: seq<Row>)
    ensures unique == UniqueRows(rows)
  {
    unique := [];
    var seen: set<nat> := {};
    var i := 0;
    while i < |rows|
      invariant i <= |rows|
      invariant unique == UniqueRows(rows[..i]) && seen == Handles(unique)
    {
      var row := rows[i];
      assert rows[..i + 1][..i] == rows[..i];
      if row.handle !in seen {
        HandlesAppend(unique, row);
        unique := unique + [row];
        seen := seen + {row.handle};
      }
      i := i + 1;
    }
    assert rows[..i] == rows;
  }

  /** A short row's name and season texts: year first when the first of two cells is four digits. */
  function ShortFields(texts: seq<string>): (string, string) {
    if |texts| == 2 then
      if AllDigits(texts[0]) && |texts[0]| == 4 then (texts[1], texts[0]) else (texts[0], texts[1])
    else
      (if |texts| >= 1 then texts[0] else "Unknown", if |texts| > 1 then texts[1] else "N/A")
  }

  /** A record with a name and a season and no statistics. */
  function ShortRecord(name: string, season: string): TeamRecord {
    TeamRecord(name, Some(season), None, None, None, None, None, None, None, None)
  }

  /**
   * The flexible row parser: six or more cells go to the fixed six-column
   * parser (whose record may have no name); shorter rows give a name and a
   * season from their trimmed cells, and nothing when the name is empty.
   */
  function FlexibleRow(cells: seq<string>): Option<TeamRecord> {
    if |cells| >= 6 then Some(RowRecord(cells, Loose)) else ShortRow(cells)
  }

  /** A row of fewer than six cells: name and season from its trimmed cells, nothing when the name is empty. */
  function ShortRow(cells: seq<string>): Option<TeamRecord> {
    var texts := seq(|cells|, i requires 0 <= i < |cells| => Trim(cells[i]));
    var fields := ShortFields(texts);
    if fields.0 == "" then None else Some(ShortRecord(fields.0, fields.1))
  }

  /** This extractor's validator: a name, and at least one of skill, played, won or season. */
  predicate IsHistoryValid(t: TeamRecord) {
    t.name != "" && (t.skill.Some? || t.played.Some? || t.won.Some? || t.season.Some?)
  }

  /** Two cells, the first of them four digits once trimmed: the first is the season, the second the name. */
  lemma YearFirst(cells: seq<string>)
    requires |cells| == 2 && AllDigits(Trim(cells[0])) && |Trim(cells[0])| == 4 && Trim(cells[1]) != ""
    ensures FlexibleRow(cells) == Some(ShortRecord(Trim(cells[1]), Trim(cells[0])))
  {
  }

  /** Otherwise a short row's first cell is the name and its second the season. */
  lemma NameFirst(cells: seq<string>)
    requires 2 <= |cells| < 6 && Trim(cells[0]) != ""
    requires |cells| == 2 ==> !(AllDigits(Trim(cells[0])) && |Trim(cells[0])| == 4)
    ensures FlexibleRow(cells) == Some(ShortRecord(Trim(cells[0]), Trim(cells[1])))
  {
  }

  /** A short row gives a record exactly when its name cell is not blank, and that record passes the validator. */
  lemma ShortRowValid(cells: seq<string>)
    requires 2 <= |cells| < 6
    ensures FlexibleRow(cells).Some? <==> Trim(cells[ShortNameCell(cells)]) != ""
    ensures FlexibleRow(cells).Some? ==> IsHistoryValid(FlexibleRow(cells).value)
  {
  }

  /** Which cell of a short row holds the name. */
  function ShortNameCell(cells: seq<string>): (i: nat)
    requires 2 <= |cells|
    ensures i < |cells|
  {
    if |cells| == 2 && AllDigits(Trim(cells[0])) && |Trim(cells[0])| == 4 then 1 else 0
  }

  /** A row of six cells or more without a team name parses, but the scan drops it. */
  lemma NamelessRowDropped(cells: seq<string>)
    requires |cells| >= 6 && |ParseTeamCell(cells[0]).name| == 0
    ensures FlexibleRow(cells).Some? && HistoryRowTeam(cells).None?
  {
    SixCells(cells);
    var r := RowRecord(cells, Loose);
    assert !IsHistoryValid(r);
  }

  lemma SixCells(cells: seq<string>)
    requires |cells| >= 6
    ensures FlexibleRow(cells) == Some(RowRecord(cells, Loose))
  {
  }

  /** What a non-header row contributes to the scan: its record, if it has two cells or more, parses and is valid. */
  function HistoryRowTeam(cells: seq<string>): (r: Option<TeamRecord>)
    ensures r.Some? ==> IsHistoryValid(r.value) && r == FlexibleRow(cells) && |cells| >= 2
  {
    if |cells| >= 2 then
      var t := FlexibleRow(cells);
      if t.Some? && IsHistoryValid(t.value) then t else None
    else None
  }

  /** What each de-duplicated row gives. */
  function HistoryParsed(rows: seq<Row>): (r: seq<Option<TeamRecord>>)
    ensures |r| == |rows| && forall i :: 0 <= i < |rows| ==> r[i] == HistoryRowTeam(rows[i].cells)
  {
    seq(|rows|, i requires 0 <= i < |rows| => HistoryRowTeam(rows[i].cells))
  }

  /** The records of one table view: the first de-duplicated row is skipped as the header, the rest contribute in order. */
  function HistoryTable(rows: seq<Row>): seq<TeamRecord> {
    SkipHeader(HistoryParsed(UniqueRows(rows)))
  }

  /** The table scan: de-duplicate the rows, skip the first, keep every valid record of the rest. */
  method ScanHistoryTable(rows: seq<Row>) returns (teams: seq<TeamRecord>)
    ensures teams == HistoryTable(rows)
  {
    var unique := DedupRows(rows);
    teams := ScanUniqueRows(unique);
  }

  method ScanUniqueRows(unique: seq<Row>) returns (teams: seq<TeamRecord>)
    ensures teams == SkipHeader(HistoryParsed(unique))
  {
    teams := [];
    var i := 0;
    while i < |unique|
      invariant i <= |unique|
      invariant teams == SkipHeader(HistoryParsed(unique[..i]))
    {
      HistoryScanStep(unique, i);
      if i != 0 {
        var row := HistoryRowTeam(unique[i].cells);
        if row.Some? {
          teams := teams + [row.value];
        }
      }
      i := i + 1;
    }
    assert unique[..i] == unique;
  }

  lemma HistoryScanStep(unique: seq<Row>, i: nat)
    requires i < |unique|
    ensures SkipHeader(HistoryParsed(unique[..i + 1])) ==
      SkipHeader(HistoryParsed(unique[..i])) + if i == 0 then [] else HistoryRowTeam(unique[i].cells).ToSeq()
  {
    var parsed := HistoryParsed(unique);
    SkipHeaderStep(parsed, i);
    HistoryParsedPrefix(unique, i + 1);
    HistoryParsedPrefix(unique, i);
    assert parsed[i] == HistoryRowTeam(unique[i].cells);
  }

  lemma HistoryParsedPrefix(rows: seq<Row>, n: nat)
    requires n <= |rows|
    ensures HistoryParsed(rows[..n]) == HistoryParsed(rows)[..n]
  {
  }

  /**
   * A record is in the scan exactly when some de-duplicated row other than
   * the first gave it, and every record of the scan is valid.
   */
  lemma HistoryTableRows(rows: seq<Row>, t: TeamRecord)
    ensures var u := UniqueRows(rows);
      t in HistoryTable(rows) <==> exists i :: 1 <= i < |u| && HistoryRowTeam(u[i].cells) == Some(t)
    ensures t in HistoryTable(rows) ==> IsHistoryValid(t)
  {
    var u := UniqueRows(rows);
    SkipHeaderMembers(HistoryParsed(u), t);
  }

  /**
   * What the page shows at one table scan of the scroll loop: the rows the
   * selectors return, and whether scrolling the page after this scan raises.
   */
  datatype HistoryFrame = HistoryFrame(rows: seq<Row>, scrollFails: bool)

  /** The view of a frame. This loop never asks whether the page is at its bottom. */
  function HistoryViewOf(f: HistoryFrame): (v: View)
    ensures v.batch == HistoryTable(f.rows) && v.scrollFails == f.scrollFails
  {
    View(HistoryTable(f.rows), f.scrollFails, false)
  }

  /** The views of a sequence of frames, one for one. */
  predicate HistoryViewsOf(frames: seq<HistoryFrame>, views: seq<View>) {
    |views| == |frames| &&
    forall i {:trigger HistoryViewOf(frames[i])} :: 0 <= i < |frames| ==> views[i] == HistoryViewOf(frames[i])
  }

  function HistoryViews(frames: seq<HistoryFrame>): (r: seq<View>)
    ensures HistoryViewsOf(frames, r)
  {
    seq(|frames|, i requires 0 <= i < |frames| => HistoryViewOf(frames[i]))
  }

  /** The page at scan `k`: once the frames run out the page stays as the last one shows it. */
  function HistoryFrameAt(frames: seq<HistoryFrame>, k: nat): (f: HistoryFrame)
    ensures frames != [] ==> f in frames
  {
    if frames == [] then HistoryFrame([], false)
    else if k < |frames| then frames[k]
    else frames[|frames| - 1]
  }

  lemma HistoryViewAtFrame(frames: seq<HistoryFrame>, views: seq<View>, k: nat)
    requires HistoryViewsOf(frames, views)
    ensures ViewAt(views, k).batch == HistoryTable(HistoryFrameAt(frames, k).rows)
    ensures ViewAt(views, k).scrollFails == HistoryFrameAt(frames, k).scrollFails
  {
    if frames == [] {
      assert HistoryParsed(UniqueRows([])) == [];
    } else if k < |frames| {
      assert views[k] == HistoryViewOf(frames[k]);
    } else {
      assert views[|frames| - 1] == HistoryViewOf(frames[|frames| - 1]);
    }
  }

  /** The table scan of frame `k` merged into the collection; also returns how many records it added. */
  method ScanAndMerge(frames: seq<HistoryFrame>, ghost views: seq<View>, k: nat, teams: seq<TeamRecord>)
    returns (merged: seq<TeamRecord>, added: nat)
    requires HistoryViewsOf(frames, views)
    ensures merged == MergeBatch(teams, ViewAt(views, k).batch)
    ensures added == |merged| - |teams|
  {
    var batch := ScanHistoryTable(HistoryFrameAt(frames, k).rows);
    HistoryViewAtFrame(frames, views, k);
    merged, added := MergeScan(teams, batch);
  }

  /**
   * One pass of the loop from scan `k`: scan and merge; when nothing was new,
   * scroll (which may raise) and scan again; the pass ends the loop when
   * scrolling raised or the re-scan found nothing new either.
   */
  method HistoryPass(frames: seq<HistoryFrame>, ghost views: seq<View>, k: nat, teams: seq<TeamRecord>, attempts: nat)
    returns (next: seq<TeamRecord>, nextScan: nat, productive: bool, done: bool, raised: bool)
    requires HistoryViewsOf(frames, views)
    requires PassInvariant(views, k, teams) && attempts < MaxHistoryScrollAttempts
    ensures done ==> HistoryRun(views, k, teams, attempts) == if raised then Raised else Settled(next, nextScan)
    ensures !done ==> k < nextScan && PassInvariant(views, nextScan, next)
    ensures !done ==>
      HistoryRun(views, k, teams, attempts) == HistoryRun(views, nextScan, next, if productive then 1 else attempts + 1)
  {
    var merged, added := ScanAndMerge(frames, views, k, teams);
    raised, productive := false, added != 0;
    if productive {
      PassGrows(views, k, teams, attempts, merged);
      next, nextScan, done := merged, k + 1, false;
    } else if HistoryFrameAt(frames, k).scrollFails {
      HistoryViewAtFrame(frames, views, k);
      PassRaises(views, k, teams, attempts, merged);
      next, nextScan, done, raised := merged, k + 1, true, true;
    } else {
      HistoryViewAtFrame(frames, views, k);
      var again, addedAgain := ScanAndMerge(frames, views, k + 1, merged);
      next, nextScan := again, k + 2;
      done := addedAgain == 0;
      if done {
        PassSettles(views, k, teams, attempts, merged, again);
      } else {
        PassRecovers(views, k, teams, attempts, merged, again);
      }
    }
  }

  /** What the loop returns: nothing when scrolling raised, its collection otherwise. */
  function Returned(outcome: Outcome): seq<TeamRecord> {
    if outcome.Raised? then [] else outcome.teams
  }

  /**
   * The scroll loop from scan `start` with the collection so far and the
   * attempt counter: a productive pass resets the counter, every pass then
   * counts one attempt, and the loop ends when a pass ends it or the counter
   * reaches its limit.
   */
  method HistoryScrollFrom(frames: seq<HistoryFrame>, ghost views: seq<View>, start: nat, collected: seq<TeamRecord>, tries: nat)
    returns (result: seq<TeamRecord>, ghost outcome: Outcome)
    requires HistoryViewsOf(frames, views)
    requires PassInvariant(views, start, collected)
    ensures result == Returned(HistoryRun(views, start, collected, tries))
    ensures outcome == HistoryRun(views, start, collected, tries)
  {
    var teams, k: nat, attempts: nat := collected, start, tries;
    var stopped, raised := false, false;
    while !stopped && attempts < MaxHistoryScrollAttempts
      invariant !stopped ==> PassInvariant(views, k, teams) && !raised
      invariant !stopped ==> HistoryRun(views, k, teams, attempts) == HistoryRun(views, start, collected, tries)
      invariant stopped ==> HistoryRun(views, start, collected, tries) == if raised then Raised else Settled(teams, k)
      decreases !stopped, |views| - k
    {
      var next, nextScan, productive, done, passRaised := HistoryPass(frames, views, k, teams, attempts);
      if done {
        stopped, raised := true, passRaised;
      } else {
        if productive {
          attempts := 0;
        }
        attempts := attempts + 1;
      }
      teams, k := next, nextScan;
    }
    if !stopped {
      outcome := LimitReached(teams, k);
    } else if raised {
      outcome := Raised;
    } else {
      outcome := Settled(teams, k);
    }
    result := if raised then [] else teams;
  }

  /** The loop's outcome from the first scan with an empty collection. */
  ghost function HistoryScrolled(frames: seq<HistoryFrame>): Outcome {
    HistoryRun(HistoryViews(frames), 0, [], 0)
  }

  /**
   * The scroll loop from the first scan with an empty collection: it returns
   * what its outcome holds, and that outcome meets the loop's promise.
   */
  method HistoryScrollAndCollect(frames: seq<HistoryFrame>) returns (teams: seq<TeamRecord>)
    ensures teams == Returned(HistoryScrolled(frames))
    ensures HistorySpec(HistoryViews(frames), 0, HistoryScrolled(frames))
  {
    var start: nat, collected: seq<TeamRecord>, tries: nat := 0, [], 0;
    ghost var views := HistoryViews(frames);
    ghost var outcome;
    teams, outcome := HistoryScrollFrom(frames, views, start, collected, tries);
    ScrolledMeetsSpec(frames);
  }

  /** From the first scan with an empty collection, the loop meets its promise. */
  lemma ScrolledMeetsSpec(frames: seq<HistoryFrame>)
    ensures HistorySpec(HistoryViews(frames), 0, HistoryScrolled(frames))
  {
    var start: nat, collected: seq<TeamRecord>, tries: nat := 0, [], 0;
    HistoryRunMeetsSpec(HistoryViews(frames), start, collected, tries);
  }

  /**
   * Every team the scroll loop returns was found by the table scan of one of
   * the frames, and passes this extractor's validator.
   */
  lemma ScrolledTeamsFound(frames: seq<HistoryFrame>, t: TeamRecord)
    requires t in Returned(HistoryScrolled(frames))
    ensures exists f :: f in frames && t in HistoryTable(f.rows)
    ensures IsHistoryValid(t)
  {
    var views := HistoryViews(frames);
    var outcome := HistoryScrolled(frames);
    ScrolledMeetsSpec(frames);
    var n := outcome.scans;
    assert outcome.teams == Collected(views, n);
    CollectedCovers(views, n, 0, t);
    var i :| 0 <= i < n && t in ViewAt(views, i).batch;
    HistoryViewAtFrame(frames, views, i);
    var f := HistoryFrameAt(frames, i);
    HistoryTableRows(f.rows, t);
  }

  /** The current teams: one table scan, filtered to the latest year found in the seasons. */
  method HistoryCurrentTeams(rows: seq<Row>) returns (current: seq<TeamRecord>)
    ensures current == Seasons.CurrentTeams(HistoryTable(rows))
  {
    var teams := ScanHistoryTable(rows);
    current := Seasons.ExtractCurrentTeams(teams);
  }

  /** What the scroll loop returns for a page. */
  ghost function ScrolledTeams(frames: seq<HistoryFrame>): seq<TeamRecord> {
    Returned(HistoryScrolled(frames))
  }

  /** The past teams: the scroll loop's collection without its latest year, every one marked past. */
  ghost function PastTeams(frames: seq<HistoryFrame>): seq<TeamRecord> {
    var all := ScrolledTeams(frames);
    Seasons.PastOf(all, Seasons.CurrentYear(all))
  }

  /**
   * The past teams: the scroll loop's collection, split by the latest year,
   * with everything outside it marked past.
   */
  method HistoryPastTeams(frames: seq<HistoryFrame>) returns (past: seq<TeamRecord>)
    ensures past == PastTeams(frames)
    ensures forall t :: t in past ==> t.status == Some(Past)
  {
    var all := HistoryScrollAndCollect(frames);
    var current;
    past, current := Seasons.ExtractPastTeams(all);
  }

  /** A team's skill level when it is a valid rank, 1 to 9. */
  function SkillRank(t: TeamRecord): Option<nat> {
    if t.skill.Some? && 1 <= t.skill.value <= 9 then t.skill else None
  }

  /** The valid ranks of the teams, in order. */
  function Ranks(teams: seq<TeamRecord>): (r: seq<nat>)
    ensures forall x :: x in r ==> 1 <= x <= 9
    decreases |teams|
  {
    if teams == [] then []
    else Ranks(teams[..|teams| - 1]) + SkillRank(teams[|teams| - 1]).ToSeq()
  }

  /** A season that counts as played: present, not empty, not `N/A`, not blank. */
  predicate CountsSeason(season: Option<string>) {
    season.Some? && season.value != "" && season.value != "N/A" && Trim(season.value) != ""
  }

  /** The distinct seasons played, trimmed. */
  function SeasonSet(teams: seq<TeamRecord>): set<string> {
    set t | t in teams && CountsSeason(t.season) :: Trim(t.season.value)
  }

  /** `min(ranks)`. */
  function Min(xs: seq<nat>): (r: nat)
    requires xs != []
    ensures r in xs && forall x :: x in xs ==> r <= x
  {
    if |xs| == 1 then xs[0]
    else
      var m := Min(xs[1..]);
      assert forall x :: x in xs[1..] ==> x in xs;
      assert forall x :: x in xs ==> x == xs[0] || x in xs[1..];
      if xs[0] <= m then xs[0] else m
  }

  /** The lowest and highest skill rank (`None` standing for `N/A`) and the number of distinct seasons. */
  datatype HistoryStats = HistoryStats(minSkill: Option<nat>, maxSkill: Option<nat>, seasonsPlayed: nat)

  function Stats(teams: seq<TeamRecord>): HistoryStats {
    var ranks := Ranks(teams);
    HistoryStats(
      if ranks == [] then None else Some(Min(ranks)),
      if ranks == [] then None else Some(Seasons.Max(ranks)),
      |SeasonSet(teams)|)
  }

  /** The aggregation loop: collect the valid ranks and the distinct seasons, then take min, max and count. */
  method Aggregate(teams: seq<TeamRecord>) returns (stats: HistoryStats)
    ensures stats == Stats(teams)
  {
    var ranks: seq<nat> := [];
    var seasons: set<string> := {};
    var i := 0;
    while i < |teams|
      invariant i <= |teams|
      invariant ranks == Ranks(teams[..i]) && seasons == SeasonSet(teams[..i])
    {
      AggregateStep(teams, i);
      ranks, seasons := Tally(teams[i], ranks, seasons);
      i := i + 1;
    }
    assert teams[..i] == teams;
    if ranks == [] {
      stats := HistoryStats(None, None, |seasons|);
    } else {
      stats := HistoryStats(Some(Min(ranks)), Some(Seasons.Max(ranks)), |seasons|);
    }
  }

  /** One team of the aggregation loop: its rank when valid, its season when it counts. */
  method Tally(t: TeamRecord, ranks: seq<nat>, seasons: set<string>) returns (ranks': seq<nat>, seasons': set<string>)
    ensures ranks' == ranks + SkillRank(t).ToSeq()
    ensures seasons' == seasons + if CountsSeason(t.season) then {Trim(t.season.value)} else {}
  {
    ranks', seasons' := ranks, seasons;
    if t.skill.Some? && 1 <= t.skill.value <= 9 {
      ranks' := ranks + [t.skill.value];
    }
    if CountsSeason(t.season) {
      seasons' := seasons + {Trim(t.season.value)};
    }
  }

  lemma AggregateStep(teams: seq<TeamRecord>, i: nat)
    requires i < |teams|
    ensures Ranks(teams[..i + 1]) == Ranks(teams[..i]) + SkillRank(teams[i]).ToSeq()
    ensures SeasonSet(teams[..i + 1]) ==
      SeasonSet(teams[..i]) + if CountsSeason(teams[i].season) then {Trim(teams[i].season.value)} else {}
  {
    var prefix := teams[..i + 1];
    assert prefix[..i] == teams[..i];
    assert prefix == teams[..i] + [teams[i]];
    forall t | t in prefix ensures t in teams[..i] || t == teams[i] { }
    forall t | t in teams[..i] ensures t in prefix { }
  }

  /** A team's rank is among the ranks exactly when it is a valid rank. */
  lemma {:induction false} RanksMembers(teams: seq<TeamRecord>, x: nat)
    ensures x in Ranks(teams) <==> exists t :: t in teams && SkillRank(t) == Some(x)
    decreases |teams|
  {
    if teams != [] {
      var prefix := teams[..|teams| - 1];
      var last := teams[|teams| - 1];
      RanksMembers(prefix, x);
      assert teams == prefix + [last];
      if exists t :: t in teams && SkillRank(t) == Some(x) {
        var t :| t in teams && SkillRank(t) == Some(x);
        if t != last {
          assert t in prefix;
        }
      }
    }
  }

  /**
   * Minimum and maximum skill are `N/A` exactly when no team has a valid
   * rank; otherwise they are ranks some team has, between 1 and 9, and every
   * team's valid rank lies between them.
   */
  lemma StatsSkills(teams: seq<TeamRecord>)
    ensures var s := Stats(teams);
      (s.minSkill.None? <==> forall t :: t in teams ==> SkillRank(t).None?) &&
      s.minSkill.None? == s.maxSkill.None? &&
      (s.minSkill.Some? ==>
        1 <= s.minSkill.value <= s.maxSkill.value <= 9 &&
        (exists t :: t in teams && SkillRank(t) == s.minSkill) &&
        (exists t :: t in teams && SkillRank(t) == s.maxSkill) &&
        forall t :: t in teams && SkillRank(t).Some? ==> s.minSkill.value <= SkillRank(t).value <= s.maxSkill.value)
  {
    var ranks := Ranks(teams);
    forall t | t in teams && SkillRank(t).Some? ensures SkillRank(t).value in ranks {
      RanksMembers(teams, SkillRank(t).value);
    }
    if ranks != [] {
      RanksMembers(teams, Min(ranks));
      RanksMembers(teams, Seasons.Max(ranks));
    }
  }

  /** No season is counted exactly when no team's season counts. */
  lemma NoSeasonsPlayed(teams: seq<TeamRecord>)
    ensures Stats(teams).seasonsPlayed == 0 <==> forall t :: t in teams ==> !CountsSeason(t.season)
  {
    var seasons := SeasonSet(teams);
    if exists t :: t in teams && CountsSeason(t.season) {
      var t :| t in teams && CountsSeason(t.season);
      assert Trim(t.season.value) in seasons;
    }
  }

  /** At most one season is counted per team. */
  lemma {:induction false} SeasonsPlayedBound(teams: seq<TeamRecord>)
    ensures Stats(teams).seasonsPlayed <= |teams|
    decreases |teams|
  {
    if teams != [] {
      var i := |teams| - 1;
      AggregateStep(teams, i);
      SeasonsPlayedBound(teams[..i]);
      assert teams[..i + 1] == teams;
      if CountsSeason(teams[i].season) {
        CardAddOne(SeasonSet(teams[..i]), Trim(teams[i].season.value));
      }
    }
  }

  lemma CardAddOne(a: set<string>, x: string)
    ensures |a + {x}| <= |a| + 1
  {
    if x in a {
      assert a + {x} == a;
    }
  }

  /**
   * One attempt of the retry loop, as the browser made it go: the Teams tab
   * could not be opened, something raised, or the page loaded, with the rows
   * its first table scan sees and the frames its scroll loop sees.
   */
  datatype Attempt =
    | TabMissing
    | Failure
    | Loaded(tableRows: seq<Row>, frames: seq<HistoryFrame>)

  /** Attempts beyond those given fail. */
  function AttemptAt(attempts: seq<Attempt>, i: nat): Attempt {
    if i < |attempts| then attempts[i] else Failure
  }

  /** The teams an attempt yields: its current teams followed by its past teams. */
  ghost function Harvest(a: Attempt): seq<TeamRecord> {
    match a
    case Loaded(rows, frames) => Seasons.CurrentTeams(HistoryTable(rows)) + PastTeams(frames)
    case _ => []
  }

  /** One attempt: open the Teams tab, then scan the current and the past teams. */
  method TryOnce(a: Attempt) returns (teams: seq<TeamRecord>)
    ensures teams == Harvest(a)
  {
    match a
    case Loaded(rows, frames) =>
      var current := HistoryCurrentTeams(rows);
      var past := HistoryPastTeams(frames);
      teams := current + past;
    case _ =>
      teams := [];
  }

  /** No attempt before the `n`-th yields a team. */
  ghost predicate NoneYieldBefore(attempts: seq<Attempt>, n: nat) {
    forall i :: 0 <= i < n ==> Harvest(AttemptAt(attempts, i)) == []
  }

  lemma NoneYieldStep(attempts: seq<Attempt>, n: nat)
    requires NoneYieldBefore(attempts, n) && Harvest(AttemptAt(attempts, n)) == []
    ensures NoneYieldBefore(attempts, n + 1)
  {
  }

  /** The retry loop's result from attempt `i` on: the statistics of the first attempt that yields teams. */
  ghost function RetryFrom(attempts: seq<Attempt>, maxRetries: nat, i: nat): Option<HistoryStats>
    decreases maxRetries - i
  {
    if i >= maxRetries then None
    else if Harvest(AttemptAt(attempts, i)) != [] then Some(Stats(Harvest(AttemptAt(attempts, i))))
    else RetryFrom(attempts, maxRetries, i + 1)
  }

  /**
   * From attempt `i` on, the loop gives nothing exactly when no attempt left
   * yields teams, and otherwise the statistics of the first that does.
   */
  lemma {:induction false} RetryFromSpec(attempts: seq<Attempt>, maxRetries: nat, i: nat)
    requires NoneYieldBefore(attempts, i)
    ensures RetryFrom(attempts, maxRetries, i).None? <==> NoneYieldBefore(attempts, maxRetries)
    ensures RetryFrom(attempts, maxRetries, i).Some? ==>
      exists j :: i <= j < maxRetries && Harvest(AttemptAt(attempts, j)) != [] &&
        NoneYieldBefore(attempts, j) && RetryFrom(attempts, maxRetries, i).value == Stats(Harvest(AttemptAt(attempts, j)))
    decreases maxRetries - i
  {
    if i >= maxRetries {
      RetryExhausted(attempts, maxRetries, i);
    } else if Harvest(AttemptAt(attempts, i)) != [] {
      RetryFound(attempts, maxRetries, i);
    } else {
      NoneYieldStep(attempts, i);
      RetryFromSpec(attempts, maxRetries, i + 1);
      RetrySkip(attempts, maxRetries, i);
    }
  }

  lemma RetryExhausted(attempts: seq<Attempt>, maxRetries: nat, i: nat)
    requires NoneYieldBefore(attempts, i) && i >= maxRetries
    ensures RetryFrom(attempts, maxRetries, i).None? && NoneYieldBefore(attempts, maxRetries)
  {
  }

  lemma RetryFound(attempts: seq<Attempt>, maxRetries: nat, i: nat)
    requires NoneYieldBefore(attempts, i) && i < maxRetries && Harvest(AttemptAt(attempts, i)) != []
    ensures RetryFrom(attempts, maxRetries, i) == Some(Stats(Harvest(AttemptAt(attempts, i))))
    ensures !NoneYieldBefore(attempts, maxRetries)
  {
  }

  /**
   * One player's team history: up to `maxRetries` attempts; an attempt whose
   * tab is missing, that raises, or that yields no team is retried while
   * attempts remain, and the first that yields teams gives the statistics.
   * Nothing when no attempt does.
   */
  method ExtractHistory(attempts: seq<Attempt>, maxRetries: nat) returns (result: Option<HistoryStats>)
    ensures result == RetryFrom(attempts, maxRetries, 0)
  {
    var i: nat := 0;
    while i < maxRetries
      invariant i <= maxRetries
      invariant RetryFrom(attempts, maxRetries, i) == RetryFrom(attempts, maxRetries, 0)
    {
      var teams := TryOnce(AttemptAt(attempts, i));
      if teams != [] {
        RetryHit(attempts, maxRetries, i, teams);
        var stats := Aggregate(teams);
        return Some(stats);
      }
      RetrySkip(attempts, maxRetries, i);
      i := i + 1;
    }
    return None;
  }

  lemma RetryHit(attempts: seq<Attempt>, maxRetries: nat, i: nat, teams: seq<TeamRecord>)
    requires i < maxRetries && teams == Harvest(AttemptAt(attempts, i)) && teams != []
    ensures RetryFrom(attempts, maxRetries, i) == Some(Stats(teams))
  {
  }

  lemma RetrySkip(attempts: seq<Attempt>, maxRetries: nat, i: nat)
    requires i < maxRetries && Harvest(AttemptAt(attempts, i)) == []
    ensures RetryFrom(attempts, maxRetries, i) == RetryFrom(attempts, maxRetries, i + 1)
  {
  }
}

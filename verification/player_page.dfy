/**
 * The player page: the player's URL and user id, the team-history table scan,
 * the scrolling loop that gathers every team the page loads, and the two
 * current/past views built on them.
 *
 * The browser is an input: a table view is the sequence of its rows, each row
 * the texts of its `td` cells; the page as it is scrolled is a sequence of
 * frames, one per scan.
 */
module PlayerPage {
  import opened Wrappers
  import opened Text
  import opened Records
  import opened TeamRow
  import opened NameFilter
  import opened Scans
  import opened PlayerScroll
  import Seasons

  const SitePrefix: string := "https://league.poolplayers.com/"

  /** The player URL built from a league and a user id. */
  function PlayerUrl(league: string, userid: string): string {
    SitePrefix + league + "/member/" + userid
  }

  /** The user id is required and must be all digits before the URL is built. */
  function CheckedPlayerUrl(league: string, userid: string): (r: Option<string>)
    ensures r.Some? <==> AllDigits(userid)
    ensures r.Some? ==> r.value == PlayerUrl(league, userid)
  {
    if AllDigits(userid) then Some(PlayerUrl(league, userid)) else None
  }

  /** The digits of the maximal digit run starting at `i`. */
  function DigitsFrom(s: string, i: nat): (r: string)
    requires i <= |s|
    ensures r == s[i..DigitRunEnd(s, i)]
  {
    s[i..DigitRunEnd(s, i)]
  }

  /**
   * The text after `https://league.poolplayers.com/<segment>` where the
   * segment is non-empty and has no `/`: the part starting at the first `/`
   * after the prefix.
   */
  function AfterSegment(url: string): (r: Option<string>)
    ensures r.Some? ==> |r.value| < |url| && r.value != [] && r.value[0] == '/'
  {
    if !StartsWith(url, SitePrefix) then None
    else
      var rest := url[|SitePrefix|..];
      match CharIndex(rest, '/')
      case None => None
      case Some(j) => if j == 0 then None else Some(rest[j..])
  }

  /** `re.match(r'https://league\.poolplayers\.com/[^/]+/member/(\d+)', url)`: group 1. */
  function NewPatternUserid(url: string): (r: Option<string>)
    ensures r.Some? ==> AllDigits(r.value)
  {
    match AfterSegment(url)
    case None => None
    case Some(tail) =>
      if StartsWith(tail, "/member/") && DigitsFrom(tail, 8) != [] then Some(DigitsFrom(tail, 8)) else None
  }

  /** `re.match(r'https://league\.poolplayers\.com/[^/]+/member/(\d+)/(\d+)/teams', url)`: group 1. */
  function OldPatternUserid(url: string): (r: Option<string>)
    ensures r.Some? ==> AllDigits(r.value)
  {
    match AfterSegment(url)
    case None => None
    case Some(tail) =>
      if StartsWith(tail, "/member/") && DigitsFrom(tail, 8) != [] then
        var j := DigitRunEnd(tail, 8);
        var more := tail[j..];
        if StartsWith(more, "/") && DigitsFrom(more, 1) != [] && StartsWith(more[DigitRunEnd(more, 1)..], "/teams")
        then Some(DigitsFrom(tail, 8))
        else None
      else None
  }

  /** The user id of a player URL: the new pattern is tried first, then the old one. */
  function UseridFromUrl(url: string): Option<string> {
    var n := NewPatternUserid(url);
    if n.Some? then n else OldPatternUserid(url)
  }

  /** The old pattern extends the new one, so it never gives an answer the new one does not. */
  lemma OldPatternRedundant(url: string)
    ensures OldPatternUserid(url).Some? ==> NewPatternUserid(url) == OldPatternUserid(url)
    ensures UseridFromUrl(url) == NewPatternUserid(url)
  {
  }

  /**
   * `url` is the site prefix, a non-empty segment without `/`, `/member/`,
   * the digits `d`, and a tail that does not begin with a digit.
   */
  predicate MemberUrl(url: string, segment: string, d: string, tail: string) {
    url == SitePrefix + segment + "/member/" + d + tail &&
    segment != [] && '/' !in segment && AllDigits(d) && (tail == [] || !IsDigit(tail[0]))
  }

  /** After the prefix and a segment without `/`, the rest of the URL is what follows the segment. */
  lemma AfterSegmentOf(segment: string, t: string)
    requires segment != [] && '/' !in segment && t != [] && t[0] == '/'
    ensures AfterSegment(SitePrefix + segment + t) == Some(t)
  {
    var url := SitePrefix + segment + t;
    var rest := url[|SitePrefix|..];
    assert rest == segment + t;
    assert rest[..|segment|] == segment;
    assert CharIndex(rest, '/') == Some(|segment|);
  }

  /** What follows the segment splits off a non-empty segment without `/` before it. */
  lemma AfterSegmentSplits(url: string)
    requires AfterSegment(url).Some?
    ensures exists segment :: segment != [] && '/' !in segment && url == SitePrefix + segment + AfterSegment(url).value
  {
    var rest := url[|SitePrefix|..];
    var j := CharIndex(rest, '/').value;
    assert url == SitePrefix + rest[..j] + rest[j..];
  }

  /** `/member/`, digits and a tail not starting with a digit: the new pattern's group is those digits. */
  lemma MemberTailDigits(d: string, tail: string)
    requires AllDigits(d) && (tail == [] || !IsDigit(tail[0]))
    ensures StartsWith("/member/" + d + tail, "/member/")
    ensures DigitsFrom("/member/" + d + tail, 8) == d
  {
    var t := "/member/" + d + tail;
    DigitRunOver(t, 8, 8 + |d|);
    assert t[8..8 + |d|] == d;
  }

  /** The digits the new pattern reads end where a non-digit tail begins. */
  lemma MemberTailSplits(t: string)
    requires StartsWith(t, "/member/")
    ensures var d := DigitsFrom(t, 8); var tail := t[DigitRunEnd(t, 8)..];
      t == "/member/" + d + tail && (tail == [] || !IsDigit(tail[0]))
  {
    assert t == t[..8] + t[8..DigitRunEnd(t, 8)] + t[DigitRunEnd(t, 8)..];
  }

  /** A URL of the member shape yields its digits. */
  lemma MemberUrlYields(url: string, segment: string, d: string, tail: string)
    requires MemberUrl(url, segment, d, tail)
    ensures UseridFromUrl(url) == Some(d)
  {
    assert url == SitePrefix + segment + ("/member/" + d + tail);
    AfterSegmentOf(segment, "/member/" + d + tail);
    MemberTailDigits(d, tail);
    OldPatternRedundant(url);
  }

  /** A user id read from a URL comes from a URL of the member shape: no other URL yields one. */
  lemma UseridHasMemberShape(url: string)
    requires UseridFromUrl(url).Some?
    ensures exists segment, tail :: MemberUrl(url, segment, UseridFromUrl(url).value, tail)
  {
    OldPatternRedundant(url);
    var t := AfterSegment(url).value;
    var d := DigitsFrom(t, 8);
    assert UseridFromUrl(url) == Some(d);
    AfterSegmentSplits(url);
    var segment :| segment != [] && '/' !in segment && url == SitePrefix + segment + t;
    MemberTailSplits(t);
    var tail := t[DigitRunEnd(t, 8)..];
    MemberUrlJoin(url, segment, t, d, tail);
    assert MemberUrl(url, segment, UseridFromUrl(url).value, tail);
  }

  lemma MemberUrlJoin(url: string, segment: string, t: string, d: string, tail: string)
    requires segment != [] && '/' !in segment && url == SitePrefix + segment + t
    requires t == "/member/" + d + tail && AllDigits(d) && (tail == [] || !IsDigit(tail[0]))
    ensures MemberUrl(url, segment, d, tail)
  {
    assert SitePrefix + segment + t == SitePrefix + segment + "/member/" + d + tail;
  }

  /** The URL built for a league and a numeric user id reads back as that user id. */
  lemma PlayerUrlRoundTrip(league: string, userid: string)
    requires league != [] && '/' !in league && AllDigits(userid)
    ensures UseridFromUrl(PlayerUrl(league, userid)) == Some(userid)
  {
    assert MemberUrl(PlayerUrl(league, userid), league, userid, []);
    MemberUrlYields(PlayerUrl(league, userid), league, userid, []);
  }

  /**
   * One team-history row: the six-cell layout, with the page's user id as
   * team id and the status `current`. Fewer than six cells, or an empty
   * name, gives no record.
   */
  function ParseTeamRow(cells: seq<string>, userid: string): (r: Option<TeamRecord>)
    ensures r.Some? <==> |cells| >= 6 && ParseTeamCell(cells[0]).name != ""
    ensures r.Some? ==> r.value == RowRecord(cells, Strict).(teamId := Some(userid), status := Some(Current))
  {
    if |cells| < 6 then None
    else
      var t := RowRecord(cells, Strict).(teamId := Some(userid), status := Some(Current));
      if t.name == "" then None else Some(t)
  }

  /** What a non-header row contributes to the scan: its record, if it has six cells, parses and passes the name filter. */
  function RowTeam(cells: seq<string>, userid: string): (r: Option<TeamRecord>)
    ensures r.Some? ==> IsValidTeamName(r.value.name) && r.value.teamId == Some(userid) && r.value.status == Some(Current)
  {
    if |cells| >= 6 then
      var t := ParseTeamRow(cells, userid);
      if t.Some? && IsValidTeamName(t.value.name) then t else None
    else None
  }

  /** What each row of a table view gives. */
  function ParsedRows(rows: seq<seq<string>>, userid: string): (r: seq<Option<TeamRecord>>)
    ensures |r| == |rows| && forall i :: 0 <= i < |rows| ==> r[i] == RowTeam(rows[i], userid)
  {
    seq(|rows|, i requires 0 <= i < |rows| => RowTeam(rows[i], userid))
  }

  /** The records of one table view: row 0 is skipped as the header, the rest contribute in order. */
  function TableTeams(rows: seq<seq<string>>, userid: string): seq<TeamRecord> {
    SkipHeader(ParsedRows(rows, userid))
  }

  /** The table scan. */
  method ScanTable(rows: seq<seq<string>>, userid: string) returns (teams: seq<TeamRecord>)
    ensures teams == TableTeams(rows, userid)
  {
    teams := [];
    var i := 0;
    while i < |rows|
      invariant i <= |rows|
      invariant teams == TableTeams(rows[..i], userid)
    {
      ScanStep(rows, userid, i);
      if i != 0 {
        var row := RowTeam(rows[i], userid);
        if row.Some? {
          teams := teams + [row.value];
        }
      }
      i := i + 1;
    }
    assert rows[..i] == rows;
  }

  /** One row of the scan: the header row adds nothing, any other row adds what it contributes. */
  lemma ScanStep(rows: seq<seq<string>>, userid: string, i: nat)
    requires i < |rows|
    ensures TableTeams(rows[..i + 1], userid) == TableTeams(rows[..i], userid) +
      if i == 0 then [] else RowTeam(rows[i], userid).ToSeq()
  {
    var parsed := ParsedRows(rows, userid);
    SkipHeaderStep(parsed, i);
    ParsedPrefix(rows, userid, i + 1);
    ParsedPrefix(rows, userid, i);
    assert parsed[i] == RowTeam(rows[i], userid);
  }

  lemma ParsedPrefix(rows: seq<seq<string>>, userid: string, n: nat)
    requires n <= |rows|
    ensures ParsedRows(rows[..n], userid) == ParsedRows(rows, userid)[..n]
  {
  }

  /** Each record of the scan is the record of some non-header row, and every such record is in the scan. */
  lemma TableTeamsRows(rows: seq<seq<string>>, userid: string, t: TeamRecord)
    ensures t in TableTeams(rows, userid) <==> exists i :: 1 <= i < |rows| && RowTeam(rows[i], userid) == Some(t)
  {
    SkipHeaderMembers(ParsedRows(rows, userid), t);
  }

  /** Every record of the scan passed the name filter and carries the page's user id and the status `current`. */
  lemma TableTeamsValid(rows: seq<seq<string>>, userid: string, t: TeamRecord)
    requires t in TableTeams(rows, userid)
    ensures IsValidTeamName(t.name) && t.teamId == Some(userid) && t.status == Some(Current)
  {
    TableTeamsRows(rows, userid, t);
  }

  /**
   * What the page shows at one scan of the scroll loop: the rows of its
   * table, whether scrolling the page raises, and whether the page reports
   * that it is at its bottom.
   */
  datatype Frame = Frame(rows: seq<seq<string>>, scrollFails: bool, atBottom: bool)

  function ViewOf(f: Frame, userid: string): (v: View)
    ensures v.batch == TableTeams(f.rows, userid)
    ensures v.scrollFails == f.scrollFails && v.atBottom == f.atBottom
  {
    View(TableTeams(f.rows, userid), f.scrollFails, f.atBottom)
  }

  /** The views of a sequence of frames, one for one. */
  predicate ViewsOf(frames: seq<Frame>, userid: string, views: seq<View>) {
    |views| == |frames| &&
    forall i {:trigger ViewOf(frames[i], userid)} :: 0 <= i < |frames| ==> views[i] == ViewOf(frames[i], userid)
  }

  function Views(frames: seq<Frame>, userid: string): (r: seq<View>)
    ensures ViewsOf(frames, userid, r)
  {
    seq(|frames|, i requires 0 <= i < |frames| => ViewOf(frames[i], userid))
  }

  /** The page at scan `k`: once the frames run out the page stays as the last one shows it. */
  function FrameAt(frames: seq<Frame>, k: nat): (f: Frame)
    ensures frames != [] ==> f in frames
  {
    if frames == [] then Frame([], false, false)
    else if k < |frames| then frames[k]
    else frames[|frames| - 1]
  }

  lemma ViewAtFrame(frames: seq<Frame>, userid: string, views: seq<View>, k: nat)
    requires ViewsOf(frames, userid, views)
    ensures ViewAt(views, k) == ViewOf(FrameAt(frames, k), userid)
  {
    if frames == [] {
      assert ParsedRows([], userid) == [];
    } else if k < |frames| {
      assert views[k] == ViewOf(frames[k], userid);
    } else {
      assert views[|frames| - 1] == ViewOf(frames[|frames| - 1], userid);
    }
  }

  /** The table scan of frame `k` finds the records of view `k`. */
  method ScanFrame(frames: seq<Frame>, userid: string, ghost views: seq<View>, k: nat) returns (batch: seq<TeamRecord>)
    requires ViewsOf(frames, userid, views)
    ensures batch == ViewAt(views, k).batch
  {
    batch := ScanTable(FrameAt(frames, k).rows, userid);
    ViewAtFrame(frames, userid, views, k);
  }

  /** The page signals of frame `k` are those of view `k`. */
  lemma FrameSignals(frames: seq<Frame>, userid: string, views: seq<View>, k: nat)
    requires ViewsOf(frames, userid, views)
    ensures ViewAt(views, k).scrollFails == FrameAt(frames, k).scrollFails
    ensures ViewAt(views, k).atBottom == FrameAt(frames, k).atBottom
  {
    ViewAtFrame(frames, userid, views, k);
  }

  /**
   * One pass of the scroll loop: scan the table of frame `k` and merge what it
   * finds; the loop stops when scrolling after a scan that found nothing new
   * raises, or when the page is at its bottom.
   */
  method ScrollScan(frames: seq<Frame>, userid: string, ghost views: seq<View>, k: nat, teams: seq<TeamRecord>, previousCount: nat, attempts: nat)
    returns (merged: seq<TeamRecord>, stop: bool)
    requires ViewsOf(frames, userid, views)
    requires RunInvariant(views, k, teams, previousCount, attempts) && attempts < MaxScrollAttempts
    ensures merged == MergeBatch(teams, ViewAt(views, k).batch)
    ensures stop ==> Run(views, k, teams, previousCount, attempts) == (merged, k + 1)
    ensures !stop ==> RunInvariant(views, k + 1, merged, NextCount(merged, previousCount), NextAttempts(merged, previousCount, attempts))
    ensures !stop ==>
      Run(views, k, teams, previousCount, attempts) ==
      Run(views, k + 1, merged, NextCount(merged, previousCount), NextAttempts(merged, previousCount, attempts))
  {
    var frame := FrameAt(frames, k);
    FrameSignals(frames, userid, views, k);
    var batch := ScanFrame(frames, userid, views, k);
    var added;
    merged, added := MergeScan(teams, batch);
    stop := (|merged| == previousCount && frame.scrollFails) || frame.atBottom;
    if stop {
      RunStops(views, k, teams, previousCount, attempts, merged);
    } else {
      RunGoesOn(views, k, teams, previousCount, attempts, merged);
    }
  }

  /**
   * The scroll loop, from scan `start` with the collection so far, the count
   * after the last productive scan and the scroll-attempt counter: scan the
   * table, merge, count an unproductive scan as a scroll attempt; stop when
   * scrolling after an unproductive scan raises, when the page is at its
   * bottom, or when the counter reaches its limit.
   */
  method ScrollFrom(frames: seq<Frame>, userid: string, ghost views: seq<View>, start: nat, collected: seq<TeamRecord>, count: nat, tries: nat)
    returns (teams: seq<TeamRecord>, ghost scans: nat)
    requires ViewsOf(frames, userid, views)
    requires RunInvariant(views, start, collected, count, tries)
    ensures (teams, scans) == Run(views, start, collected, count, tries)
  {
    teams := collected;
    var previousCount: nat, attempts: nat, k: nat := count, tries, start;
    var stopped := false;
    while !stopped && attempts < MaxScrollAttempts
      invariant !stopped ==> RunInvariant(views, k, teams, previousCount, attempts)
      invariant !stopped ==> Run(views, k, teams, previousCount, attempts) == Run(views, start, collected, count, tries)
      invariant stopped ==> Run(views, start, collected, count, tries) == (teams, k + 1)
      decreases !stopped, |views| + MaxScrollAttempts - k
    {
      var merged, stop := ScrollScan(frames, userid, views, k, teams, previousCount, attempts);
      if stop {
        stopped := true;
      } else {
        previousCount, attempts := NextCount(merged, previousCount), NextAttempts(merged, previousCount, attempts);
        k := k + 1;
      }
      teams := merged;
    }
    scans := if stopped then k + 1 else k;
  }

  /**
   * The scroll loop from an empty collection: its collection is the merge of
   * the scans it made, the last of them gives a reason to stop, and none
   * before it does.
   */
  method ScrollAndCollect(frames: seq<Frame>, userid: string) returns (teams: seq<TeamRecord>, ghost scans: nat)
    ensures ScrollOutcome(Views(frames, userid), teams, scans)
  {
    var start: nat, collected: seq<TeamRecord>, count: nat, tries: nat := 0, [], 0, 0;
    ghost var views := Views(frames, userid);
    RunFromStartMeetsSpec(views, start, collected, count, tries);
    teams, scans := ScrollFrom(frames, userid, views, start, collected, count, tries);
  }

  /**
   * The current teams: one scan of the table, then the filter to the latest
   * year found in the seasons.
   */
  method ExtractCurrentTeams(rows: seq<seq<string>>, userid: string) returns (current: seq<TeamRecord>)
    ensures current == Seasons.CurrentTeams(TableTeams(rows, userid))
  {
    var teams := ScanTable(rows, userid);
    current := Seasons.ExtractCurrentTeams(teams);
  }

  /**
   * The past teams: the scroll loop's collection, split by the latest year,
   * with everything outside it marked past.
   */
  method ExtractPastTeams(frames: seq<Frame>, userid: string) returns (past: seq<TeamRecord>, ghost all: seq<TeamRecord>, ghost scans: nat)
    ensures ScrollOutcome(Views(frames, userid), all, scans)
    ensures past == Seasons.PastOf(all, Seasons.CurrentYear(all))
    ensures forall t :: t in past ==> t.status == Some(Past)
  {
    var teams;
    teams, scans := ScrollAndCollect(frames, userid);
    all := teams;
    var current;
    past, current := Seasons.ExtractPastTeams(teams);
  }
}

/**
 * The team page: the team id check and URL, the roster table scan with its
 * row parser (member id, user id, won/played, percentages) and validator,
 * and the expansion that adds each player's team-history statistics to the
 * roster in place.
 *
 * The browser is an input: a roster row is the texts of its `td` cells and
 * the `href` of the first link in its first cell; each player's team-history
 * page is the sequence of attempts the retry loop sees.
 */
module TeamPage {
  import opened Wrappers
  import opened Text
  import opened TeamRow
  import opened NameFilter
  import PlayerPage
  import History

  /** The team URL built from a team id. */
  function TeamUrl(teamId: string): string {
    PlayerPage.SitePrefix + "team/" + teamId
  }

  /** The team id is required and must be all digits before the URL is built. */
  function CheckedTeamUrl(teamId: string): (r: Option<string>)
    ensures r.Some? <==> teamId != [] && forall i :: 0 <= i < |teamId| ==> IsDigit(teamId[i])
    ensures r.Some? ==> StartsWith(r.value, PlayerPage.SitePrefix + "team/") && r.value[|PlayerPage.SitePrefix + "team/"|..] == teamId
  {
    if AllDigits(teamId) then Some(TeamUrl(teamId)) else None
  }

  /** Where the trailing run of ASCII digits of `s[..j]` begins. */
  function TrailingDigitsStart(s: string, j: nat): (p: nat)
    requires j <= |s|
    ensures p <= j && forall k :: p <= k < j ==> IsDigit(s[k])
    ensures p > 0 ==> !IsDigit(s[p - 1])
    decreases j
  {
    if j > 0 && IsDigit(s[j - 1]) then TrailingDigitsStart(s, j - 1) else j
  }

  /** The name cell: a name, and the member id when the trimmed text ends in `#` and digits. */
  datatype NameCell = NameCell(name: string, memberId: Option<string>)

  /** The member id starts at `p`: a `#` just before it and digits from it to the end. */
  predicate IdFrom(t: string, p: nat) {
    0 < p < |t| && t[p - 1] == '#' && forall k :: p <= k < |t| ==> IsDigit(t[k])
  }

  /**
   * `#(\d+)$` on the trimmed text: when it matches, the digits are the member
   * id and the name is the text before `#`, trimmed again; otherwise the
   * whole trimmed text is the name.
   */
  function ParseNameCell(cell: string): NameCell {
    SplitMemberId(Trim(cell))
  }

  /** The match on already trimmed text. */
  function SplitMemberId(t: string): NameCell {
    var p := TrailingDigitsStart(t, |t|);
    if 0 < p < |t| && t[p - 1] == '#' then NameCell(Trim(t[..p - 1]), Some(t[p..]))
    else NameCell(t, None)
  }

  /** A digit run reaching the end from `q` lies inside the maximal trailing run. */
  lemma TrailingRunFrom(t: string, q: nat)
    requires q <= |t| && forall k :: q <= k < |t| ==> IsDigit(t[k])
    ensures TrailingDigitsStart(t, |t|) <= q
  {
  }

  /** When the trimmed text ends in `#` and digits, those digits are the member id and the rest, trimmed, the name. */
  lemma NameCellWithId(t: string, p: nat)
    requires IdFrom(t, p)
    ensures SplitMemberId(t) == NameCell(Trim(t[..p - 1]), Some(t[p..]))
  {
    TrailingRunFrom(t, p);
    assert TrailingDigitsStart(t, |t|) == p;
  }

  /** Otherwise there is no member id and the whole trimmed text is the name. */
  lemma NameCellWithoutId(t: string)
    requires forall p: nat :: !IdFrom(t, p)
    ensures SplitMemberId(t) == NameCell(t, None)
  {
    var p := TrailingDigitsStart(t, |t|);
    if 0 < p < |t| && t[p - 1] == '#' {
      assert IdFrom(t, p);
    }
  }

  /** A name followed by `#` and digits reads back as that name and that member id. */
  lemma MemberIdRoundTrip(name: string, id: string)
    requires name == Trim(name) && AllDigits(id)
    ensures ParseNameCell(name + "#" + id) == NameCell(name, Some(id))
  {
    IdCellParses(name, id, name + "#" + id);
  }

  lemma IdCellParses(name: string, id: string, cell: string)
    requires name == Trim(name) && AllDigits(id) && cell == name + "#" + id
    ensures ParseNameCell(cell) == NameCell(name, Some(id))
  {
    assert name == [] || !IsSpace(name[0]);
    IdCellEnds(name, id, cell);
    IdCellParts(name, id, cell);
    IdCellSplits(name, id, cell);
  }

  /** The match on a trimmed name, `#` and digits splits them apart again. */
  lemma IdCellSplits(name: string, id: string, cell: string)
    requires Trim(name) == name
    requires IdFrom(cell, |name| + 1) && cell[..|name|] == name && cell[|name| + 1..] == id
    ensures SplitMemberId(cell) == NameCell(name, Some(id))
  {
    NameCellWithId(cell, |name| + 1);
  }

  /** In a name, `#` and digits, the id starts right after the `#` that follows the name. */
  lemma IdCellParts(name: string, id: string, cell: string)
    requires AllDigits(id) && cell == name + "#" + id
    ensures IdFrom(cell, |name| + 1) && cell[..|name|] == name && cell[|name| + 1..] == id
  {
    assert cell[|name|] == '#';
    forall k | |name| + 1 <= k < |cell| ensures IsDigit(cell[k]) {
      assert cell[k] == id[k - |name| - 1];
    }
  }

  /** A trimmed name, `#` and digits have no whitespace at either end. */
  lemma IdCellEnds(name: string, id: string, cell: string)
    requires (name == [] || !IsSpace(name[0])) && AllDigits(id) && cell == name + "#" + id
    ensures Trim(cell) == cell
  {
    if name == [] {
      assert cell[0] == '#';
    } else {
      assert cell[0] == name[0];
    }
    assert cell[|cell| - 1] == id[|id| - 1];
    TrimOfTrimmed(cell);
  }

  /** `/member/` at `p`, followed by a digit. */
  predicate MemberAt(href: string, p: nat) {
    OccursAt(href, "/member/", p) && p + 8 < |href| && IsDigit(href[p + 8])
  }

  /** The leftmost position at or after `i` where `/member/(\d+)` matches. */
  function FindMember(href: string, i: nat): (r: Option<nat>)
    ensures r.Some? ==> i <= r.value && MemberAt(href, r.value)
    ensures r.Some? ==> forall p :: i <= p < r.value ==> !MemberAt(href, p)
    ensures r.None? ==> forall p :: i <= p ==> !MemberAt(href, p)
    decreases |href| - i
  {
    if i + 8 >= |href| then None
    else if MemberAt(href, i) then Some(i)
    else FindMember(href, i + 1)
  }

  /** `re.search(r'/member/(\d+)', href)`: group 1. */
  function HrefUserid(href: string): (r: Option<string>)
    ensures r.Some? ==> AllDigits(r.value)
    ensures r.None? <==> forall p :: !MemberAt(href, p)
  {
    match FindMember(href, 0)
    case None => None
    case Some(p) => Some(PlayerPage.DigitsFrom(href, p + 8))
  }

  /** A link `/<league>/member/<digits>` yields its digits as the user id. */
  lemma HrefUseridOf(league: string, d: string, tail: string)
    requires '/' !in league && AllDigits(d) && (tail == [] || !IsDigit(tail[0]))
    ensures HrefUserid("/" + league + "/member/" + d + tail) == Some(d)
  {
    var href := "/" + league + "/member/" + d + tail;
    var at := |league| + 1;
    assert href[at..at + 8] == "/member/";
    assert MemberAt(href, at);
    forall p | 0 <= p < at ensures !MemberAt(href, p) {
      if p > 0 {
        assert href[p] == league[p - 1];
      } else if |league| >= 7 {
        assert href[7] == league[6] && href[7] != '/';
      } else if |league| == 6 {
        assert href[8] == 'm';
      } else {
        assert href[at] == '/';
      }
    }
    assert FindMember(href, 0) == Some(at) by {
      FindMemberSkips(href, 0, at);
    }
    DigitRunOver(href, at + 8, at + 8 + |d|);
    assert href[at + 8..at + 8 + |d|] == d;
  }

  lemma {:induction false} FindMemberSkips(href: string, i: nat, at: nat)
    requires i <= at && MemberAt(href, at) && forall p :: i <= p < at ==> !MemberAt(href, p)
    ensures FindMember(href, i) == Some(at)
    decreases at - i
  {
    if i < at {
      FindMemberSkips(href, i + 1, at);
    }
  }

  /** The won/played cell: the trimmed text split at `/` into exactly two all-digit parts, won first. */
  function WonPlayed(cell: string): (r: Option<(nat, nat)>)
    ensures r.Some? ==> exists won, played ::
      AllDigits(won) && AllDigits(played) && Trim(cell) == won + "/" + played &&
      r.value == (DigitsValue(won), DigitsValue(played))
  {
    var parts := Split(Trim(cell), '/');
    if |parts| == 2 && AllDigits(parts[0]) && AllDigits(parts[1]) then
      SplitJoin(Trim(cell), '/');
      assert Join(parts, '/') == parts[0] + "/" + parts[1];
      Some((DigitsValue(parts[0]), DigitsValue(parts[1])))
    else None
  }

  /** Written won/played counts read back. */
  lemma WonPlayedRoundTrip(won: nat, played: nat)
    ensures WonPlayed(NatToString(won) + "/" + NatToString(played)) == Some((won, played))
  {
    var a, b := NatToString(won), NatToString(played);
    WonPlayedOf(a, b, a + "/" + b);
  }

  /** Two digit runs joined by `/` read as their values. */
  lemma WonPlayedOf(a: string, b: string, s: string)
    requires AllDigits(a) && AllDigits(b) && s == a + "/" + b
    ensures WonPlayed(s) == Some((DigitsValue(a), DigitsValue(b)))
  {
    assert s[0] == a[0] && s[|s| - 1] == b[|b| - 1];
    TrimOfTrimmed(s);
    NoSlashInDigits(a);
    NoSlashInDigits(b);
    SplitAtFirst(a, b, s, '/');
    SplitWithout(b, '/');
  }

  lemma NoSlashInDigits(s: string)
    requires AllDigits(s)
    ensures '/' !in s
  {
    forall i | 0 <= i < |s|
      ensures s[i] != '/'
    {
    }
  }

  /** The value of `\d+(?:\.\d+)?` matched at digit position `p`: the fraction only when a digit follows the point. */
  function NumberAt(s: string, p: nat): real
    requires p < |s| && IsDigit(s[p])
  {
    var j := DigitRunEnd(s, p);
    if j + 1 < |s| && s[j] == '.' && IsDigit(s[j + 1]) then
      var k := DigitRunEnd(s, j + 1);
      Decimal(s[p..j], s[j + 1..k])
    else Decimal(s[p..j], "")
  }

  /** The first digit at or after `i`. */
  function FirstDigit(s: string, i: nat): (r: Option<nat>)
    requires i <= |s|
    ensures r.Some? ==> i <= r.value < |s| && IsDigit(s[r.value])
    ensures r.Some? ==> forall q :: i <= q < r.value ==> !IsDigit(s[q])
    ensures r.None? ==> forall q :: i <= q < |s| ==> !IsDigit(s[q])
    decreases |s| - i
  {
    if i == |s| then None
    else if IsDigit(s[i]) then Some(i)
    else FirstDigit(s, i + 1)
  }

  /** `re.search(r'(\d+(?:\.\d+)?)', s)`: the number starting at the first digit. */
  function FirstNumber(s: string): (r: Option<real>)
    ensures r.None? <==> forall q :: 0 <= q < |s| ==> !IsDigit(s[q])
  {
    match FirstDigit(s, 0)
    case None => None
    case Some(p) => Some(NumberAt(s, p))
  }

  /** How a player's history expansion went: not attempted, its statistics, or all three fields `N/A`. */
  datatype Expansion = Unexpanded | Expanded(stats: History.HistoryStats) | Unavailable

  /**
   * One roster entry. A missing key is `None` (the name is empty when
   * missing); `winPct`, `ppm` and `pa` are kept exact.
   */
  datatype PlayerRecord = PlayerRecord(
    name: string,
    memberId: Option<string>,
    userid: Option<string>,
    skill: Option<nat>,
    won: Option<nat>,
    played: Option<nat>,
    winPct: Option<real>,
    ppm: Option<real>,
    pa: Option<real>,
    expansion: Expansion)

  /** A roster row: the texts of its `td` cells and the `href` of the first link in the first cell. */
  datatype RosterRow = RosterRow(cells: seq<string>, href: Option<string>)

  /**
   * The row parser: six cells or more; name and member id from cell 0, user
   * id from its link, skill from cell 1, won/played from cell 2, win% from
   * cell 3 unless played is positive (then recomputed), ppm and pa from cells
   * 4 and 5. No record without a name.
   */
  function ParsePlayerRow(row: RosterRow): (r: Option<PlayerRecord>)
    ensures r.Some? <==> |row.cells| >= 6 && |ParseNameCell(row.cells[0]).name| > 0
    ensures r.Some? ==> r.value.expansion == Unexpanded && |r.value.name| > 0
    ensures r.Some? ==> r.value.won.Some? == r.value.played.Some?
  {
    if |row.cells| < 6 then None
    else
      var cells := row.cells;
      var nc := ParseNameCell(cells[0]);
      var userid := if row.href.Some? then HrefUserid(row.href.value) else None;
      var wp := WonPlayed(cells[2]);
      var won := if wp.Some? then Some(wp.value.0) else None;
      var played := if wp.Some? then Some(wp.value.1) else None;
      var pct := if played.Some? && played.value > 0 && won.Some? then Some(Ratio(won.value, played.value))
                 else FindPct(cells[3], 0, Strict);
      if |nc.name| == 0 then None
      else Some(PlayerRecord(nc.name, nc.memberId, userid, CellNumber(cells[1]), won, played, pct,
                             FirstNumber(cells[4]), FirstNumber(cells[5]), Unexpanded))
  }

  /** With a positive played count the win percentage is recomputed from the counts. */
  lemma WinPctRecomputed(row: RosterRow)
    requires ParsePlayerRow(row).Some?
    ensures var p := ParsePlayerRow(row).value;
      p.played.Some? && p.played.value > 0 ==> p.winPct == Some(Ratio(p.won.value, p.played.value))
    ensures var p := ParsePlayerRow(row).value;
      !(p.played.Some? && p.played.value > 0) ==> p.winPct == FindPct(row.cells[3], 0, Strict)
  {
  }

  /** What a roster row contributes: a parsed record whose name passes the roster validator. */
  function RowPlayer(row: RosterRow): (r: Option<PlayerRecord>)
    ensures r.Some? ==> IsValidPlayerName(r.value.name) && r == ParsePlayerRow(row)
  {
    var p := ParsePlayerRow(row);
    if p.Some? && IsValidPlayerName(p.value.name) then p else None
  }

  /** Each roster row's contribution, row by row. */
  function RosterParsed(rows: seq<RosterRow>): (r: seq<Option<PlayerRecord>>)
    ensures |r| == |rows| && forall i :: 0 <= i < |rows| ==> r[i] == RowPlayer(rows[i])
  {
    seq(|rows|, i requires 0 <= i < |rows| => RowPlayer(rows[i]))
  }

  /** The records of the contributions that are present, in order. */
  function Kept(parsed: seq<Option<PlayerRecord>>): (r: seq<PlayerRecord>)
    ensures |r| <= |parsed|
    decreases |parsed|
  {
    if parsed == [] then [] else Kept(parsed[..|parsed| - 1]) + parsed[|parsed| - 1].ToSeq()
  }

  /** A record is kept exactly when some contribution holds it. */
  lemma {:induction false} KeptMembers(parsed: seq<Option<PlayerRecord>>, p: PlayerRecord)
    ensures p in Kept(parsed) <==> exists i :: 0 <= i < |parsed| && parsed[i] == Some(p)
    decreases |parsed|
  {
    if parsed != [] {
      var prefix := parsed[..|parsed| - 1];
      KeptMembers(prefix, p);
      KeptLast(parsed, p);
      HeldSplit(parsed, prefix, p);
    }
  }

  lemma KeptLast(parsed: seq<Option<PlayerRecord>>, p: PlayerRecord)
    requires parsed != []
    ensures p in Kept(parsed) <==> p in Kept(parsed[..|parsed| - 1]) || parsed[|parsed| - 1] == Some(p)
  {
  }

  /** Some contribution holds `p` exactly when one before the last does or the last one does. */
  lemma HeldSplit(parsed: seq<Option<PlayerRecord>>, prefix: seq<Option<PlayerRecord>>, p: PlayerRecord)
    requires parsed != [] && prefix == parsed[..|parsed| - 1]
    ensures (exists i :: 0 <= i < |parsed| && parsed[i] == Some(p)) <==>
      (exists i :: 0 <= i < |prefix| && prefix[i] == Some(p)) || parsed[|parsed| - 1] == Some(p)
  {
    if exists i :: 0 <= i < |prefix| && prefix[i] == Some(p) {
      var i :| 0 <= i < |prefix| && prefix[i] == Some(p);
      assert parsed[i] == prefix[i];
    }
    if exists i :: 0 <= i < |parsed| && parsed[i] == Some(p) {
      var i :| 0 <= i < |parsed| && parsed[i] == Some(p);
      if i < |prefix| {
        assert prefix[i] == parsed[i];
      }
    }
  }

  /** The roster: every row's contribution in row order; no header row is skipped by position. */
  function Roster(rows: seq<RosterRow>): (r: seq<PlayerRecord>)
    ensures |r| <= |rows|
  {
    Kept(RosterParsed(rows))
  }

  /** One more row adds its contribution at the end of the roster. */
  lemma RosterStep(rows: seq<RosterRow>, i: nat)
    requires i < |rows|
    ensures Roster(rows[..i + 1]) == Roster(rows[..i]) + RowPlayer(rows[i]).ToSeq()
  {
    var parsed := RosterParsed(rows[..i + 1]);
    assert parsed[..i] == RosterParsed(rows[..i]);
    assert parsed[i] == RowPlayer(rows[i]);
  }

  /** The roster scan: rows without cells and rows of fewer than six cells are skipped, valid records kept in order. */
  method ExtractPlayers(rows: seq<RosterRow>) returns (players: seq<PlayerRecord>)
    ensures players == Roster(rows)
  {
    players := [];
    var i := 0;
    while i < |rows|
      invariant i <= |rows| && players == Roster(rows[..i])
    {
      RosterStep(rows, i);
      var cells := rows[i].cells;
      if |cells| != 0 && |cells| >= 6 {
        var p := RowPlayer(rows[i]);
        if p.Some? {
          players := players + [p.value];
        }
      }
      i := i + 1;
    }
    assert rows[..i] == rows;
  }

  /** A record is on the roster exactly when some row gave it, and every record on it passed the validator. */
  lemma RosterMembers(rows: seq<RosterRow>, p: PlayerRecord)
    ensures p in Roster(rows) <==> exists i :: 0 <= i < |rows| && RowPlayer(rows[i]) == Some(p)
    ensures p in Roster(rows) ==> IsValidPlayerName(p.name) && p.expansion == Unexpanded
  {
    var parsed := RosterParsed(rows);
    KeptMembers(parsed, p);
    if p in Roster(rows) {
      var i :| 0 <= i < |parsed| && parsed[i] == Some(p);
      assert RowPlayer(rows[i]) == Some(p);
    }
  }

  /** Maximum number of attempts of each player's history extraction. */
  const HistoryRetries: nat := 3

  /** The attempts the history extraction of the `i`-th player sees; none when not given. */
  function PlayerPages(pages: seq<seq<History.Attempt>>, i: nat): seq<History.Attempt> {
    if i < |pages| then pages[i] else []
  }

  /**
   * One player after expansion: unchanged without a user id; otherwise the
   * history statistics when the extraction gives some, and all three fields
   * `N/A` when it gives none.
   */
  ghost function ExpandedPlayer(p: PlayerRecord, attempts: seq<History.Attempt>): PlayerRecord {
    if p.userid.None? then p
    else match History.RetryFrom(attempts, HistoryRetries, 0)
      case Some(stats) => p.(expansion := Expanded(stats))
      case None => p.(expansion := Unavailable)
  }

  /** Expansion changes nothing but the expansion fields, and sets them for every player with a user id. */
  lemma ExpandedPlayerKeeps(p: PlayerRecord, attempts: seq<History.Attempt>)
    ensures var q := ExpandedPlayer(p, attempts);
      q.(expansion := p.expansion) == p &&
      (p.userid.None? ==> q == p) &&
      (p.userid.Some? ==> q.expansion != Unexpanded)
  {
  }

  /**
   * A player with a user id gets statistics exactly when some attempt finds
   * teams, and then those of the first attempt that does.
   */
  lemma ExpandedFromHistory(p: PlayerRecord, attempts: seq<History.Attempt>)
    requires p.userid.Some?
    ensures ExpandedPlayer(p, attempts).expansion.Expanded? <==> !History.NoneYieldBefore(attempts, HistoryRetries)
    ensures ExpandedPlayer(p, attempts).expansion.Expanded? ==>
      exists i :: 0 <= i < HistoryRetries && History.Harvest(History.AttemptAt(attempts, i)) != [] &&
        History.NoneYieldBefore(attempts, i) &&
        ExpandedPlayer(p, attempts).expansion.stats == History.Stats(History.Harvest(History.AttemptAt(attempts, i)))
  {
    var start: nat := 0;
    History.RetryFromSpec(attempts, HistoryRetries, start);
  }

  /** The roster after expansion: each player expanded with the attempts its own extraction sees, in place. */
  ghost function ExpandAll(players: seq<PlayerRecord>, pages: seq<seq<History.Attempt>>): (r: seq<PlayerRecord>)
    ensures |r| == |players|
  {
    seq(|players|, i requires 0 <= i < |players| => ExpandedPlayer(players[i], PlayerPages(pages, i)))
  }

  /**
   * The expansion loop: each player with a user id has its history extracted
   * and the statistics (or `N/A`) written into its record, in place; the
   * roster keeps its length and order.
   */
  method ExpandPlayers(players: array<PlayerRecord>, pages: seq<seq<History.Attempt>>)
    modifies players
    ensures players[..] == ExpandAll(old(players[..]), pages)
  {
    ghost var before := players[..];
    ghost var goal := ExpandAll(before, pages);
    var i := 0;
    while i < players.Length
      invariant i <= players.Length
      invariant players[..] == goal[..i] + before[i..]
    {
      Frontier(players[..], goal, before, i);
      var q := ExpandOne(players[i], PlayerPages(pages, i));
      Install(players, i, q, before, goal);
      i := i + 1;
    }
  }

  /** The expansion loop's frontier: the `i`-th record is still as it was. */
  lemma Frontier(current: seq<PlayerRecord>, goal: seq<PlayerRecord>, before: seq<PlayerRecord>, i: nat)
    requires i < |before| && i <= |goal| && current == goal[..i] + before[i..]
    ensures current[i] == before[i]
  {
    assert current[i] == before[i..][0];
  }

  /** One step of the expansion loop: the `i`-th player's expanded record written in place. */
  method Install(players: array<PlayerRecord>, i: nat, q: PlayerRecord,
                 ghost before: seq<PlayerRecord>, ghost goal: seq<PlayerRecord>)
    requires i < players.Length == |before| == |goal| && q == goal[i]
    requires players[..] == goal[..i] + before[i..]
    modifies players
    ensures players[..] == goal[..i + 1] + before[i + 1..]
  {
    players[i] := q;
    assert goal[..i + 1] == goal[..i] + [goal[i]];
    assert before[i..] == [before[i]] + before[i + 1..];
  }

  /** One player's expansion: its history extracted when it has a user id. */
  method ExpandOne(p: PlayerRecord, attempts: seq<History.Attempt>) returns (q: PlayerRecord)
    ensures q == ExpandedPlayer(p, attempts)
  {
    q := p;
    if p.userid.Some? {
      var stats := History.ExtractHistory(attempts, HistoryRetries);
      if stats.Some? {
        q := p.(expansion := Expanded(stats.value));
      } else {
        q := p.(expansion := Unavailable);
      }
    }
  }
}

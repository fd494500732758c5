/**
 * The fixed six-column team-history row shared by the player page and the
 * team-history extractor: cell 0 holds the team name, season and role run
 * together ("All in the GameFall 2025Captain"); cells 1 to 5 hold skill
 * level, matches played, matches won, win percentage and MVP rank.
 */
module TeamRow {
  import opened Wrappers
  import opened Text
  import opened Records

  /** A regular-expression match: its span in the searched text and the text it yields. */
  datatype Match = Match(start: nat, end: nat, text: string, alt: nat)

  /** `w` occurs at position `i` of `s`, ignoring ASCII letter case. */
  predicate WordAt(s: string, w: string, i: nat) {
    i + |w| <= |s| && Lower(s[i..i + |w|]) == Lower(w)
  }

  /** The four season names, in the order the alternation tries them. */
  const SeasonWords: seq<string> := ["Fall", "Spring", "Summer", "Winter"]

  /** The three roles, in the order the alternation tries them. */
  const RoleWords: seq<string> := ["Captain", "Co-Captain", "Member"]

  /** The end of the maximal run of whitespace starting at `i`. */
  function SpaceRunEnd(s: string, i: nat): (j: nat)
    requires i <= |s|
    ensures i <= j <= |s|
    ensures forall k :: i <= k < j ==> IsSpace(s[k])
    ensures j < |s| ==> !IsSpace(s[j])
    decreases |s| - i
  {
    if i < |s| && IsSpace(s[i]) then SpaceRunEnd(s, i + 1) else i
  }

  /** A year as the season pattern reads it: `2`, `0` and two more digits. */
  predicate YearAt(s: string, i: nat) {
    i + 4 <= |s| && s[i] == '2' && s[i + 1] == '0' && IsDigit(s[i + 2]) && IsDigit(s[i + 3])
  }

  /**
   * The season pattern `(Fall|Spring|Summer|Winter)\s*(20\d{2})`, ignoring
   * case, anchored at `i`, trying the words from the `n`-th on. The text is
   * the word as written, one space and the year.
   */
  function SeasonFrom(s: string, i: nat, n: nat): (r: Option<Match>)
    requires n <= |SeasonWords|
    ensures r.Some? ==> r.value.start == i && i < r.value.end <= |s|
    ensures r.Some? ==> n <= r.value.alt < |SeasonWords| && SeasonShape(r.value.text, SeasonWords[r.value.alt])
    decreases |SeasonWords| - n
  {
    if n == |SeasonWords| then None
    else
      var w := SeasonWords[n];
      if WordAt(s, w, i) then
        var k := SpaceRunEnd(s, i + |w|);
        if YearAt(s, k) then
          var text := s[i..i + |w|] + " " + s[k..k + 4];
          assert SeasonShape(text, w);
          Some(Match(i, k + 4, text, n))
        else SeasonFrom(s, i, n + 1)
      else SeasonFrom(s, i, n + 1)
  }

  /** `text` is season word `w` in some letter case, a space and a year `20dd`. */
  predicate SeasonShape(text: string, w: string) {
    |text| == |w| + 5 && Lower(text[..|w|]) == Lower(w) && text[|w|] == ' ' && YearAt(text, |w| + 1)
  }

  function SeasonAt(s: string, i: nat): Option<Match> {
    SeasonFrom(s, i, 0)
  }

  /** The role pattern `(Captain|Co-Captain|Member)`, ignoring case, anchored at `i`, from the `n`-th word on. */
  function RoleFrom(s: string, i: nat, n: nat): (r: Option<Match>)
    requires n <= |RoleWords|
    ensures r.Some? ==> r.value.start == i && i < r.value.end <= |s|
    ensures r.Some? ==> r.value.text == s[i..r.value.end]
    ensures r.Some? ==> n <= r.value.alt < |RoleWords| && Lower(r.value.text) == Lower(RoleWords[r.value.alt])
    decreases |RoleWords| - n
  {
    if n == |RoleWords| then None
    else
      var w := RoleWords[n];
      if WordAt(s, w, i) then Some(Match(i, i + |w|, s[i..i + |w|], n))
      else RoleFrom(s, i, n + 1)
  }

  function RoleAt(s: string, i: nat): Option<Match> {
    RoleFrom(s, i, 0)
  }

  /** The two patterns searched for in cell 0. */
  datatype Pattern = SeasonPattern | RolePattern

  /** The pattern anchored at `i`. */
  function At(p: Pattern, s: string, i: nat): (r: Option<Match>)
    ensures r.Some? ==> r.value.start == i < r.value.end <= |s|
  {
    match p
    case SeasonPattern => SeasonAt(s, i)
    case RolePattern => RoleAt(s, i)
  }

  /** `re.search`: the match at the leftmost position at or after `i` where the pattern matches. */
  function Search(p: Pattern, s: string, i: nat): (r: Option<Match>)
    ensures r.Some? ==> i <= r.value.start < r.value.end <= |s| && r == At(p, s, r.value.start)
    ensures r.Some? ==> forall j :: i <= j < r.value.start ==> At(p, s, j).None?
    ensures r.None? ==> forall j :: i <= j ==> At(p, s, j).None?
    decreases |s| - i
  {
    if i >= |s| then
      None
    else if At(p, s, i).Some? then At(p, s, i)
    else Search(p, s, i + 1)
  }

  /** The text with the matched span removed. */
  function Cut(s: string, m: Match): (r: string)
    requires m.start <= m.end <= |s|
    ensures |r| == |s| - (m.end - m.start)
  {
    s[..m.start] + s[m.end..]
  }

  /** Name, season and role from cell 0. */
  datatype TeamCell = TeamCell(name: string, season: Option<string>, role: Option<string>)

  /** The season match in cell 0. */
  function SeasonMatch(c: string): Option<Match> {
    Search(SeasonPattern, c, 0)
  }

  /** Cell 0 with the season match cut out. */
  function AfterSeason(c: string): string {
    var sm := SeasonMatch(c);
    if sm.Some? then Cut(c, sm.value) else c
  }

  /** The role match, searched for after the season is cut out. */
  function RoleMatch(c: string): Option<Match> {
    Search(RolePattern, AfterSeason(c), 0)
  }

  /** Cell 0 with the season and then the role cut out. */
  function Remainder(c: string): string {
    var rest := AfterSeason(c);
    var rm := RoleMatch(c);
    if rm.Some? then Cut(rest, rm.value) else rest
  }

  function TextOf(m: Option<Match>): Option<string> {
    if m.Some? then Some(m.value.text) else None
  }

  /**
   * Cell 0: the first season match is cut out, then the first role match in
   * what remains, and the name is the trimmed rest. An empty cell, which
   * the source skips, yields the same empty name and nothing else.
   */
  function ParseTeamCell(c: string): (r: TeamCell)
    ensures r.name == Trim(r.name)
    ensures c == [] ==> r == TeamCell("", None, None)
  {
    TrimIdempotent(Remainder(c));
    TeamCell(Trim(Remainder(c)), TextOf(SeasonMatch(c)), TextOf(RoleMatch(c)))
  }

  lemma CellFields(c: string)
    ensures ParseTeamCell(c).season == TextOf(SeasonMatch(c))
    ensures ParseTeamCell(c).role == TextOf(RoleMatch(c))
  {
  }

  /** A season is read exactly when the season pattern matches somewhere in the cell. */
  lemma SeasonFoundIffPresent(c: string)
    ensures ParseTeamCell(c).season.Some? <==> SeasonPresent(c)
  {
    CellFields(c);
    SeasonSearchFindsAny(c);
  }

  /** The season pattern matches somewhere in `c`. */
  predicate SeasonPresent(c: string) {
    exists i :: 0 <= i < |c| && SeasonAt(c, i).Some?
  }

  /** The season search succeeds exactly when the pattern matches at some position. */
  lemma SeasonSearchFindsAny(c: string)
    ensures SeasonMatch(c).Some? <==> SeasonPresent(c)
  {
    var m := SeasonMatch(c);
    if m.Some? {
      assert SeasonAt(c, m.value.start).Some?;
    }
    if exists i :: SeasonAt(c, i).Some? {
      var i :| SeasonAt(c, i).Some?;
      assert At(SeasonPattern, c, i).Some?;
    }
  }

  /** A season read from the cell is a season name as written, one space and a year `20dd`. */
  lemma SeasonIsWordAndYear(c: string)
    requires ParseTeamCell(c).season.Some?
    ensures exists k :: 0 <= k < |SeasonWords| && SeasonShape(ParseTeamCell(c).season.value, SeasonWords[k])
  {
    CellFields(c);
    SeasonMatchShape(c);
  }

  lemma SeasonMatchShape(c: string)
    requires SeasonMatch(c).Some?
    ensures exists k :: 0 <= k < |SeasonWords| && SeasonShape(SeasonMatch(c).value.text, SeasonWords[k])
  {
    var m := SeasonMatch(c).value;
    assert SeasonShape(m.text, SeasonWords[m.alt]);
  }

  /** A role read from the cell is one of the three roles, in the letter case written. */
  lemma RoleIsKnown(c: string)
    requires ParseTeamCell(c).role.Some?
    ensures exists k :: 0 <= k < |RoleWords| && Lower(ParseTeamCell(c).role.value) == Lower(RoleWords[k])
  {
    CellFields(c);
    RoleMatchShape(c);
  }

  lemma RoleMatchShape(c: string)
    requires RoleMatch(c).Some?
    ensures exists k :: 0 <= k < |RoleWords| && Lower(RoleMatch(c).value.text) == Lower(RoleWords[k])
  {
    var m := RoleMatch(c).value;
    assert Lower(m.text) == Lower(RoleWords[m.alt]);
  }

  lemma TrimIdempotent(s: string)
    ensures Trim(Trim(s)) == Trim(s)
  {
    TrimOfTrimmed(Trim(s));
  }

  /** Cells 1 to 3: an integer when the trimmed cell is all digits (`isdigit`), otherwise absent. */
  function CellNumber(c: string): (r: Option<nat>)
    ensures r.Some? <==> AllDigits(Trim(c))
  {
    var t := Trim(c);
    if AllDigits(t) then Some(DigitsValue(t)) else None
  }

  /** Whether the digits after a decimal point may be missing: `\d+\.?\d*` allows it, `\d+(?:\.\d+)?` does not. */
  datatype PctSyntax = Strict | Loose

  function Pow10(n: nat): (r: nat)
    ensures r >= 1
  {
    if n == 0 then 1 else 10 * Pow10(n - 1)
  }

  /** Powers of ten add their exponents: a fraction digit moved past `a` others is scaled by `Pow10(a)`. */
  lemma {:induction false} Pow10Add(a: nat, b: nat)
    ensures Pow10(a + b) == Pow10(a) * Pow10(b)
    decreases a
  {
    if a > 0 {
      Pow10Add(a - 1, b);
      assert Pow10(a + b) == 10 * Pow10(a - 1 + b);
    }
  }

  /** The value of a decimal numeral with integer digits `a` and fraction digits `f`. */
  function Decimal(a: string, f: string): real
    requires forall k :: 0 <= k < |a| ==> IsDigit(a[k])
    requires forall k :: 0 <= k < |f| ==> IsDigit(f[k])
  {
    DigitsValue(a) as real + DigitsValue(f) as real / Pow10(|f|) as real
  }

  /** The percentage pattern anchored at `i`: the value of its number, if it matches there. */
  function PctAt(s: string, i: nat, syntax: PctSyntax): Option<real>
    requires i <= |s|
  {
    if i == |s| || !IsDigit(s[i]) then None
    else
      var j := DigitRunEnd(s, i);
      if j < |s| && s[j] == '%' then Some(Decimal(s[i..j], ""))
      else if j < |s| && s[j] == '.' then
        var k := DigitRunEnd(s, j + 1);
        if (k > j + 1 || syntax == Loose) && k < |s| && s[k] == '%' then Some(Decimal(s[i..j], s[j + 1..k]))
        else None
      else None
  }

  /** `re.search` for the percentage pattern: the number at the leftmost position where it matches. */
  function FindPct(s: string, i: nat, syntax: PctSyntax): (r: Option<real>)
    requires i <= |s|
    ensures r.Some? ==> exists p :: i <= p <= |s| && r == PctAt(s, p, syntax)
    ensures r.None? ==> forall p :: i <= p <= |s| ==> PctAt(s, p, syntax).None?
    decreases |s| - i
  {
    if i == |s| then PctAt(s, i, syntax)
    else if PctAt(s, i, syntax).Some? then PctAt(s, i, syntax)
    else FindPct(s, i + 1, syntax)
  }

  /** Win percentage recomputed from the match counts. */
  function Ratio(won: nat, played: nat): real
    requires played > 0
  {
    (won as real / played as real) * 100.0
  }

  /** Cell 5: the trimmed cell unless it is empty or a dash. */
  function MvpRank(c: string): (r: Option<string>)
    ensures r.Some? <==> c != [] && Trim(c) != "-"
    ensures r.Some? ==> r.value == Trim(c)
  {
    if c != [] && Trim(c) != "-" then Some(Trim(c)) else None
  }

  /**
   * The record built from a row of at least six cells. No team id or status
   * is set here; the player page adds both.
   */
  function RowRecord(cells: seq<string>, syntax: PctSyntax): (r: TeamRecord)
    requires |cells| >= 6
    ensures r.teamId.None? && r.status.None?
    ensures var tc := ParseTeamCell(cells[0]); r.name == tc.name && r.season == tc.season && r.role == tc.role
    ensures r.skill == CellNumber(cells[1]) && r.played == CellNumber(cells[2]) && r.won == CellNumber(cells[3])
    ensures r.played.Some? && r.played.value > 0 && r.won.Some? ==> r.winPct == Some(Ratio(r.won.value, r.played.value))
    ensures !(r.played.Some? && r.played.value > 0 && r.won.Some?) ==> r.winPct == FindPct(cells[4], 0, syntax)
    ensures r.mvpRank == MvpRank(cells[5])
  {
    var tc := ParseTeamCell(cells[0]);
    var skill := CellNumber(cells[1]);
    var played := CellNumber(cells[2]);
    var won := CellNumber(cells[3]);
    var pct := if played.Some? && played.value > 0 && won.Some? then Some(Ratio(won.value, played.value))
               else FindPct(cells[4], 0, syntax);
    TeamRecord(tc.name, tc.season, tc.role, skill, played, won, pct, MvpRank(cells[5]), None, None)
  }
}

module TeamRowFacts {
  import opened Wrappers
  import opened Text
  import opened Records
  import opened TeamRow

  /** When the pattern first matches at `i0`, the search finds that match. */
  lemma {:induction false} SearchFindsFirst(p: Pattern, s: string, i: nat, i0: nat)
    requires i <= i0 && At(p, s, i0).Some?
    requires forall j :: i <= j < i0 ==> At(p, s, j).None?
    ensures Search(p, s, i) == At(p, s, i0)
    decreases i0 - i
  {
    if i < i0 {
      SearchSkips(p, s, i);
      SearchFindsFirst(p, s, i + 1, i0);
    }
  }

  lemma SearchSkips(p: Pattern, s: string, i: nat)
    requires i < |s| && At(p, s, i).None?
    ensures Search(p, s, i) == Search(p, s, i + 1)
  {
  }

  /** The whitespace run starting at `a` ends at the first non-space `b`. */
  lemma {:induction false} SpaceRunOver(s: string, a: nat, b: nat)
    requires a <= b < |s| && !IsSpace(s[b])
    requires forall k :: a <= k < b ==> IsSpace(s[k])
    ensures SpaceRunEnd(s, a) == b
    decreases b - a
  {
    if a < b {
      SpaceRunOver(s, a + 1, b);
    }
  }

  /** A case-insensitive word match fixes the first two letters of the text, up to case. */
  lemma WordAtStart(s: string, w: string, i: nat)
    requires |w| >= 2
    ensures WordAt(s, w, i) ==> i + 1 < |s| && LowerChar(s[i]) == Lower(w)[0] && LowerChar(s[i + 1]) == Lower(w)[1]
  {
    if WordAt(s, w, i) {
      assert Lower(s[i..i + |w|])[0] == LowerChar(s[i]);
      assert Lower(s[i..i + |w|])[1] == LowerChar(s[i + 1]);
    }
  }

  /** No two season names agree, ignoring case, on their first two letters. */
  lemma SeasonWordsDiffer(s: string, i: nat, k: nat, k': nat)
    requires k < |SeasonWords| && k' < |SeasonWords| && k != k'
    requires WordAt(s, SeasonWords[k], i)
    ensures !WordAt(s, SeasonWords[k'], i)
  {
    WordAtStart(s, SeasonWords[k], i);
    WordAtStart(s, SeasonWords[k'], i);
  }

  /** No two roles agree, ignoring case, on their first two letters. */
  lemma RoleWordsDiffer(s: string, i: nat, k: nat, k': nat)
    requires k < |RoleWords| && k' < |RoleWords| && k != k'
    requires WordAt(s, RoleWords[k], i)
    ensures !WordAt(s, RoleWords[k'], i)
  {
    WordAtStart(s, RoleWords[k], i);
    WordAtStart(s, RoleWords[k'], i);
  }

  /** Trying the season names from the `n`-th on reaches the one written at `i`. */
  lemma {:induction false} SeasonFromReaches(s: string, i: nat, n: nat, k: nat)
    requires n <= k < |SeasonWords| && WordAt(s, SeasonWords[k], i)
    ensures SeasonFrom(s, i, n) == SeasonFrom(s, i, k)
    decreases k - n
  {
    if n < k {
      SeasonWordsDiffer(s, i, k, n);
      SeasonFromReaches(s, i, n + 1, k);
    }
  }

  lemma {:induction false} RoleFromReaches(s: string, i: nat, n: nat, k: nat)
    requires n <= k < |RoleWords| && WordAt(s, RoleWords[k], i)
    ensures RoleFrom(s, i, n) == RoleFrom(s, i, k)
    decreases k - n
  {
    if n < k {
      RoleWordsDiffer(s, i, k, n);
      RoleFromReaches(s, i, n + 1, k);
    }
  }

  /** A season written as a season name, some whitespace and a year. */
  predicate SeasonParts(w: string, k: nat, sp: string, y: string) {
    k < |SeasonWords| && |w| == |SeasonWords[k]| && Lower(w) == Lower(SeasonWords[k]) &&
    (forall i :: 0 <= i < |sp| ==> IsSpace(sp[i])) && |y| == 4 && YearAt(y, 0)
  }

  /** The season pattern anchored at `i`, where season name `k` is followed by whitespace up to a year at `e`. */
  lemma SeasonAtYear(s: string, i: nat, k: nat, e: nat)
    requires k < |SeasonWords| && WordAt(s, SeasonWords[k], i) && i + |SeasonWords[k]| <= e && YearAt(s, e)
    requires forall p :: i + |SeasonWords[k]| <= p < e ==> IsSpace(s[p])
    ensures SeasonAt(s, i) == Some(Match(i, e + 4, s[i..i + |SeasonWords[k]|] + " " + s[e..e + 4], k))
  {
    SpaceRunOver(s, i + |SeasonWords[k]|, e);
    SeasonFromHere(s, i, k, e);
    SeasonFromReaches(s, i, 0, k);
  }

  lemma SeasonFromHere(s: string, i: nat, k: nat, e: nat)
    requires k < |SeasonWords| && WordAt(s, SeasonWords[k], i) && YearAt(s, e)
    requires i + |SeasonWords[k]| <= |s| && SpaceRunEnd(s, i + |SeasonWords[k]|) == e
    ensures SeasonFrom(s, i, k) == Some(Match(i, e + 4, s[i..i + |SeasonWords[k]|] + " " + s[e..e + 4], k))
  {
  }

  /** The season pattern, anchored where a season is written, reads the name, one space and the year. */
  lemma SeasonAtWritten(n: string, w: string, k: nat, sp: string, y: string, rest: string)
    requires SeasonParts(w, k, sp, y)
    ensures SeasonAt(n + w + sp + y + rest, |n|) == Some(Match(|n|, |n| + |w| + |sp| + 4, w + " " + y, k))
  {
    var s := n + w + sp + y + rest;
    var i := |n|;
    var e := i + |w| + |sp|;
    assert s[i..i + |w|] == w;
    assert s[e..e + 4] == y;
    forall p | i + |w| <= p < e ensures IsSpace(s[p]) {
      assert s[p] == sp[p - i - |w|];
    }
    SeasonAtYear(s, i, k, e);
  }

  /** The role pattern, anchored where a role is written, reads the role as written. */
  lemma RoleAtWritten(n: string, r: string, j: nat)
    requires j < |RoleWords| && |r| == |RoleWords[j]| && Lower(r) == Lower(RoleWords[j])
    ensures RoleAt(n + r, |n|) == Some(Match(|n|, |n| + |r|, r, j))
  {
    var s := n + r;
    assert s[|n|..|n| + |r|] == r;
    assert WordAt(s, RoleWords[j], |n|);
    RoleFromReaches(s, |n|, 0, j);
  }

  /** The first season match in the written cell is the written season. */
  lemma SeasonMatchWritten(n: string, w: string, k: nat, sp: string, y: string, r: string)
    requires SeasonParts(w, k, sp, y)
    requires forall i :: 0 <= i < |n| ==> SeasonAt(n + w + sp + y + r, i).None?
    ensures SeasonMatch(n + w + sp + y + r) == Some(Match(|n|, |n| + |w| + |sp| + 4, w + " " + y, k))
    ensures AfterSeason(n + w + sp + y + r) == n + r
  {
    var c := n + w + sp + y + r;
    SeasonAtWritten(n, w, k, sp, y, r);
    forall i | 0 <= i < |n| ensures At(SeasonPattern, c, i).None? { }
    SearchFindsFirst(SeasonPattern, c, 0, |n|);
    var sm := Match(|n|, |n| + |w| + |sp| + 4, w + " " + y, k);
    assert c[..|n|] == n;
    assert c[sm.end..] == r;
  }

  /** The first role match in name-then-role is the written role, and cutting it leaves the name. */
  lemma RoleMatchWritten(n: string, r: string, j: nat)
    requires j < |RoleWords| && |r| == |RoleWords[j]| && Lower(r) == Lower(RoleWords[j])
    requires forall i :: 0 <= i < |n| ==> RoleAt(n + r, i).None?
    ensures Search(RolePattern, n + r, 0) == Some(Match(|n|, |n| + |r|, r, j))
    ensures Cut(n + r, Match(|n|, |n| + |r|, r, j)) == n
  {
    RoleAtWritten(n, r, j);
    forall i | 0 <= i < |n| ensures At(RolePattern, n + r, i).None? { }
    SearchFindsFirst(RolePattern, n + r, 0, |n|);
    assert (n + r)[..|n|] == n;
  }

  /**
   * Cell 0 written as a trimmed team name, a season and a role reads back as
   * that name, season and role, provided no season or role text begins
   * inside the name itself.
   */
  lemma ParseWrittenCell(n: string, w: string, k: nat, sp: string, y: string, r: string, j: nat)
    requires n == Trim(n) && SeasonParts(w, k, sp, y)
    requires j < |RoleWords| && |r| == |RoleWords[j]| && Lower(r) == Lower(RoleWords[j])
    requires forall i :: 0 <= i < |n| ==> SeasonAt(n + w + sp + y + r, i).None?
    requires forall i :: 0 <= i < |n| ==> RoleAt(n + r, i).None?
    ensures ParseTeamCell(n + w + sp + y + r) == TeamCell(n, Some(w + " " + y), Some(r))
  {
    var c := n + w + sp + y + r;
    SeasonMatchWritten(n, w, k, sp, y, r);
    RoleMatchWritten(n, r, j);
    assert RoleMatch(c) == Some(Match(|n|, |n| + |r|, r, j));
    assert Remainder(c) == n;
    CellFields(c);
  }

  /** A count written by `str` reads back as that count. */
  lemma CellNumberOfNat(n: nat)
    ensures CellNumber(NatToString(n)) == Some(n)
  {
    var d := NatToString(n);
    assert !IsSpace(d[0]) && !IsSpace(d[|d| - 1]);
    TrimOfTrimmed(d);
  }

  /** A percentage written with a fraction, `a.f%`, reads back as the value of `a.f` under either syntax. */
  lemma PctWritten(a: string, f: string, syntax: PctSyntax)
    requires AllDigits(a) && AllDigits(f)
    ensures FindPct(a + "." + f + "%", 0, syntax) == Some(Decimal(a, f))
  {
    var s := a + "." + f + "%";
    var j, k := |a|, |a| + 1 + |f|;
    DigitRunOver(s, 0, j);
    DigitRunOver(s, j + 1, k);
    assert s[0..j] == a && s[j + 1..k] == f;
  }

  /** A whole percentage, `a%`, reads back as the value of `a` under either syntax. */
  lemma PctWholeWritten(a: string, syntax: PctSyntax)
    requires AllDigits(a)
    ensures FindPct(a + "%", 0, syntax) == Some(DigitsValue(a) as real)
  {
    WholeAt(a, a + "%", syntax);
  }

  lemma WholeAt(a: string, s: string, syntax: PctSyntax)
    requires AllDigits(a) && |s| == |a| + 1 && s[..|a|] == a && s[|a|] == '%'
    ensures FindPct(s, 0, syntax) == Some(DigitsValue(a) as real)
  {
    DigitRunOver(s, 0, |a|);
    assert s[0..|a|] == a;
    assert Decimal(a, "") == DigitsValue(a) as real;
    assert PctAt(s, 0, syntax) == Some(Decimal(a, ""));
  }

  /**
   * The two percentage patterns disagree on a point with no digits after it:
   * `\d+\.?\d*%` reads `a.%` as the value of `a`, `\d+(?:\.\d+)?%` finds nothing.
   */
  lemma PctBarePoint(a: string)
    requires AllDigits(a)
    ensures FindPct(a + ".%", 0, Loose) == Some(DigitsValue(a) as real)
    ensures FindPct(a + ".%", 0, Strict) == None
  {
    BarePointLoose(a);
    BarePointStrict(a);
  }

  lemma BarePointLoose(a: string)
    requires AllDigits(a)
    ensures FindPct(a + ".%", 0, Loose) == Some(DigitsValue(a) as real)
  {
    BarePointAt(a, a + ".%");
  }

  lemma BarePointAt(a: string, s: string)
    requires AllDigits(a) && |s| == |a| + 2 && s[..|a|] == a && s[|a|] == '.' && s[|a| + 1] == '%'
    ensures FindPct(s, 0, Loose) == Some(DigitsValue(a) as real)
  {
    DigitRunOver(s, 0, |a|);
    DigitRunOver(s, |a| + 1, |a| + 1);
    assert s[0..|a|] == a && s[|a| + 1..|a| + 1] == "";
    assert Decimal(a, "") == DigitsValue(a) as real;
    assert PctAt(s, 0, Loose) == Some(Decimal(a, ""));
  }

  lemma BarePointStrict(a: string)
    requires AllDigits(a)
    ensures FindPct(a + ".%", 0, Strict) == None
  {
    var s := a + ".%";
    forall p | 0 <= p < |a| ensures DigitRunEnd(s, p) == |a| {
      DigitRunOver(s, p, |a|);
    }
    StrictFindsNothing(s, 0, |a|);
  }

  lemma {:induction false} StrictFindsNothing(s: string, p: nat, j: nat)
    requires p <= j && j + 2 == |s| && s[j] == '.' && s[j + 1] == '%'
    requires forall q :: p <= q < j ==> DigitRunEnd(s, q) == j
    ensures FindPct(s, p, Strict) == None
    decreases |s| - p
  {
    if p < j {
      StrictFindsNothing(s, p + 1, j);
    } else {
      assert FindPct(s, j + 2, Strict) == None;
      assert FindPct(s, j + 1, Strict) == None;
    }
  }

  /** The recomputed percentage lies between 0 and 100 when no more matches were won than played. */
  lemma RatioBounds(won: nat, played: nat)
    requires 0 < played && won <= played
    ensures 0.0 <= Ratio(won, played) <= 100.0
  {
    assert won as real / played as real <= 1.0;
  }
}


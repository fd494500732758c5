/**
 * The noise filter both pages apply to a parsed name before keeping a row:
 * a minimum length, a case-insensitive substring denylist, no bare numbers
 * or percentages, and at most half of the characters outside letters, digits
 * and whitespace. The player roster uses a longer denylist than the team
 * history.
 */
module NameFilter {
  import opened Text

  /** Navigation and notice texts that are not team names (already lower case). */
  const NavigationEntries: seq<string> := [
    "member services", "dashboard", "matches", "news", "events", "my stats",
    "rules", "my leagues", "apa national", "store", "tournament info",
    "discounts", "contact", "need help", "logout", "login", "settings",
    "edit profile", "payments", "my membership", "card/id", "ac",
    "note: this table displays", "team statistics are not available"]

  /** Column headers of the roster table, also refused as player names. */
  const RosterHeaderEntries: seq<string> := [
    "player name", "skill level", "matches won/played", "win %", "ppm", "pa"]

  const TeamDenylist: seq<string> := NavigationEntries

  const PlayerDenylist: seq<string> := NavigationEntries + RosterHeaderEntries

  /** Some entry of the denylist occurs in the lower-cased name. */
  predicate Denied(name: string, denylist: seq<string>) {
    exists k :: 0 <= k < |denylist| && Contains(Lower(name), denylist[k])
  }

  /** The number of characters that are neither alphanumeric nor whitespace. */
  function SpecialCount(s: string): (r: nat)
    ensures r <= |s|
  {
    if s == [] then 0
    else
      var c := s[|s| - 1];
      SpecialCount(s[..|s| - 1]) + (if !IsAlnum(c) && !IsSpace(c) then 1 else 0)
  }

  predicate IsSpecial(c: char) { !IsAlnum(c) && !IsSpace(c) }

  /** The count of one character is 1 exactly when it is special. */
  lemma SpecialCountOne(c: char)
    ensures SpecialCount([c]) == if IsSpecial(c) then 1 else 0
  {
    assert [c][..0] == [];
  }

  /** The count over a concatenation is the sum of the counts, so it counts characters one by one. */
  lemma {:induction false} SpecialCountAppend(a: string, b: string)
    ensures SpecialCount(a + b) == SpecialCount(a) + SpecialCount(b)
    decreases |b|
  {
    if b != [] {
      var b' := b[..|b| - 1];
      assert (a + b)[..|a + b| - 1] == a + b';
      assert (a + b)[|a + b| - 1] == b[|b| - 1];
      SpecialCountAppend(a, b');
    } else {
      assert a + b == a;
    }
  }

  /** A text of letters, digits and whitespace only has no special characters. */
  lemma {:induction false} NoSpecials(s: string)
    requires forall i :: 0 <= i < |s| ==> !IsSpecial(s[i])
    ensures SpecialCount(s) == 0
    decreases |s|
  {
    if s != [] {
      NoSpecials(s[..|s| - 1]);
    }
  }

  /**
   * The shared validation rule: at least three characters before and after
   * trimming, no denylist entry inside, not all digits, not ending in `%`,
   * not digits and dots only, and special characters at most half the length.
   */
  predicate LooksLikeName(name: string, denylist: seq<string>) {
    var t := Trim(name);
    |name| >= 3 &&
    !Denied(name, denylist) &&
    |t| >= 3 && !AllDigits(t) &&
    !EndsWith(t, "%") && !AllDigits(Without(t, '.')) &&
    2 * SpecialCount(name) <= |name|
  }

  /** The team-history validator of the player page. */
  predicate IsValidTeamName(name: string) {
    LooksLikeName(name, TeamDenylist)
  }

  /** The roster validator of the team page. */
  predicate IsValidPlayerName(name: string) {
    LooksLikeName(name, PlayerDenylist)
  }

  /** A name the roster validator accepts is accepted by the team-history validator too. */
  lemma PlayerRuleStricter(name: string)
    requires IsValidPlayerName(name)
    ensures IsValidTeamName(name)
  {
    assert PlayerDenylist[..|TeamDenylist|] == TeamDenylist;
    DeniedPrefix(name, TeamDenylist, PlayerDenylist);
  }

  /** A name denied by a list is denied by any list that extends it. */
  lemma DeniedPrefix(name: string, shorter: seq<string>, longer: seq<string>)
    requires |shorter| <= |longer| && longer[..|shorter|] == shorter
    ensures Denied(name, shorter) ==> Denied(name, longer)
  {
    if Denied(name, shorter) {
      var k :| 0 <= k < |shorter| && Contains(Lower(name), shorter[k]);
      assert longer[k] == shorter[k];
    }
  }

  /** Any name holding a denylist entry, in any letter case, is refused. */
  lemma DeniedEntryRejected(name: string, denylist: seq<string>, k: nat)
    requires k < |denylist| && Contains(Lower(name), denylist[k])
    ensures !LooksLikeName(name, denylist)
  {
  }

  /** Lower-casing after upper-casing gives the lower-case form. */
  lemma LowerUpper(s: string)
    ensures Lower(Upper(s)) == Lower(s)
  {
    forall i | 0 <= i < |s| ensures Lower(Upper(s))[i] == Lower(s)[i] {
      var c := s[i];
      assert Upper(s)[i] == UpperChar(c);
      if 'a' <= c <= 'z' {
        assert LowerChar(UpperChar(c)) == c == LowerChar(c);
      }
    }
  }

  /** The denylist test ignores letter case. */
  lemma DenylistIgnoresCase(name: string, denylist: seq<string>)
    ensures Denied(Upper(name), denylist) <==> Denied(name, denylist)
  {
    LowerUpper(name);
  }

  /** Any name containing `ac`, as in "Black Jacks", "Jack" or "Grace", is refused by both validators. */
  lemma AcRejected(name: string)
    requires Contains(Lower(name), "ac")
    ensures !IsValidTeamName(name) && !IsValidPlayerName(name)
  {
    assert NavigationEntries[21] == "ac";
    DeniedEntryRejected(name, TeamDenylist, 21);
    assert PlayerDenylist[21] == "ac";
    DeniedEntryRejected(name, PlayerDenylist, 21);
  }

  /** Any name containing `pa`, as in "Patrick" or "Papa Bear", is refused as a player name. */
  lemma PaRejectedAsPlayer(name: string)
    requires Contains(Lower(name), "pa")
    ensures !IsValidPlayerName(name)
  {
    assert PlayerDenylist[29] == "pa";
    DeniedEntryRejected(name, PlayerDenylist, 29);
  }

  /** "Black Jacks" is refused as a team name. */
  lemma BlackJacksRejected()
    ensures !IsValidTeamName("Black Jacks")
  {
    var l := Lower("Black Jacks");
    assert l[2..4] == "ac";
    ContainsAt(l, "ac", 2);
    AcRejected("Black Jacks");
  }

  /** A text that lacks some character of `t` does not contain `t`. */
  lemma MissingCharNotContained(s: string, t: string, c: char)
    requires c in t && c !in s
    ensures !Contains(s, t)
  {
    forall i: nat | i + |t| <= |s| ensures !OccursAt(s, t, i) {
      var j :| 0 <= j < |t| && t[j] == c;
      assert s[i..i + |t|][j] == s[i + j];
    }
  }

  /** One of the letters a, e, i, u and p occurs in `e`. */
  predicate Marked(e: string) {
    'a' in e || 'e' in e || 'i' in e || 'u' in e || 'p' in e
  }

  /** Every entry of both denylists holds one of a, e, i, u and p. */
  lemma DenylistMarked()
    ensures forall k :: 0 <= k < |PlayerDenylist| ==> Marked(PlayerDenylist[k])
  {
    assert forall k :: 0 <= k < |NavigationEntries| ==> Marked(NavigationEntries[k]);
    assert forall k :: 0 <= k < |RosterHeaderEntries| ==> Marked(RosterHeaderEntries[k]);
  }

  /** A name whose lower-cased form holds none of a, e, i, u and p is on neither denylist. */
  lemma UnmarkedNotDenied(name: string)
    requires !Marked(Lower(name))
    ensures !Denied(name, PlayerDenylist) && !Denied(name, TeamDenylist)
  {
    var l := Lower(name);
    DenylistMarked();
    forall k | 0 <= k < |PlayerDenylist| ensures !Contains(l, PlayerDenylist[k]) {
      var e := PlayerDenylist[k];
      var c := if 'a' in e then 'a' else if 'e' in e then 'e' else if 'i' in e then 'i' else if 'u' in e then 'u' else 'p';
      MissingCharNotContained(l, e, c);
    }
    assert PlayerDenylist[..|TeamDenylist|] == TeamDenylist;
    DeniedPrefix(name, TeamDenylist, PlayerDenylist);
  }

  /** A text without space at either end is its own strip. */
  lemma TrimmedAlready(s: string)
    requires s != [] && !IsSpace(s[0]) && !IsSpace(s[|s| - 1])
    ensures Trim(s) == s
  {
    assert TrimLeft(s) == s;
  }

  /** A text starting with a letter and free of special characters is neither a number nor a percentage. */
  lemma NotNumeric(s: string)
    requires s != [] && IsLetter(s[0])
    requires forall i :: 0 <= i < |s| ==> !IsSpecial(s[i])
    ensures !AllDigits(s) && !EndsWith(s, "%") && !AllDigits(Without(s, '.'))
  {
    assert !IsDigit(s[0]);
    assert !IsSpecial(s[|s| - 1]);
    var w := Without(s, '.');
    assert s[0] != '.';
    assert s[0] in w;
  }

  /**
   * Both validators accept a name of at least three letters, digits and
   * spaces that starts with a letter, ends with a non-space and, lower-cased,
   * holds none of a, e, i, u and p.
   */
  lemma PlainNameAccepted(name: string)
    requires |name| >= 3 && IsLetter(name[0]) && !IsSpace(name[|name| - 1])
    requires forall i :: 0 <= i < |name| ==> !IsSpecial(name[i])
    requires !Marked(Lower(name))
    ensures IsValidTeamName(name) && IsValidPlayerName(name)
  {
    UnmarkedNotDenied(name);
    assert !IsSpace(name[0]);
    TrimmedAlready(name);
    NotNumeric(name);
    NoSpecials(name);
  }

  /** "Cool Shots" is accepted by both validators. */
  lemma CoolShotsAccepted()
    ensures IsValidTeamName("Cool Shots") && IsValidPlayerName("Cool Shots")
  {
    var name := "Cool Shots";
    assert Lower(name) == "cool shots";
    PlainNameAccepted(name);
  }
}

/**
 * The extraction cache: one JSON file per request, named after a key built
 * from the action type, the identifier, the league and the expansion flag,
 * and valid for a fixed number of hours after it was last written.
 *
 * The cache directory is a map from key to entry. The hash that turns a key
 * into a file name is taken to be one-to-one, so the key itself names the
 * file. Time is whole seconds, passed in as `now`.
 */
module Cache {
  import opened Wrappers
  import opened Text
  import opened Json

  const DefaultTimeoutHours: int := 12

  /** Python truthiness of an optional string: present and non-empty. */
  predicate Given(s: Option<string>) {
    s.Some? && |s.value| > 0
  }

  /** The key text: `action:identifier`, then `:league` when a league is given, then `:expanded` when expanded. */
  function KeyString(action: string, identifier: string, league: Option<string>, expand: bool): string {
    action + ":" + identifier + (if Given(league) then ":" + league.value else "") + (if expand then ":expanded" else "")
  }

  /** The fields of a key, in order. */
  function KeyFields(action: string, identifier: string, league: Option<string>, expand: bool): (r: seq<string>)
    ensures 2 <= |r| <= 4
  {
    [action, identifier] + (if Given(league) then [league.value] else []) + (if expand then ["expanded"] else [])
  }

  /** A key is its fields joined with `:`. */
  lemma KeyJoins(action: string, identifier: string, league: Option<string>, expand: bool)
    ensures KeyString(action, identifier, league, expand) == Join(KeyFields(action, identifier, league, expand), ':')
  {
    var tail := if expand then ["expanded"] else [];
    var fields := KeyFields(action, identifier, league, expand);
    if Given(league) {
      JoinTwo(action, identifier, league.value, tail);
    } else {
      JoinOne(action, identifier, tail);
    }
  }

  lemma JoinOne(a: string, b: string, tail: seq<string>)
    requires |tail| <= 1
    ensures Join([a, b] + tail, ':') == a + ":" + b + (if tail == [] then "" else ":" + tail[0])
  {
    var parts := [a, b] + tail;
    assert parts[1..] == [b] + tail;
    if tail != [] {
      assert parts[1..][1..] == tail;
      assert Join(parts[1..], ':') == b + [':'] + tail[0];
      assert ":" + tail[0] == [':'] + tail[0];
    }
  }

  lemma JoinTwo(a: string, b: string, c: string, tail: seq<string>)
    requires |tail| <= 1
    ensures Join([a, b] + [c] + tail, ':') == a + ":" + b + (":" + c) + (if tail == [] then "" else ":" + tail[0])
  {
    var parts := [a, b] + [c] + tail;
    assert parts[1..] == [b, c] + tail;
    JoinOne(b, c, tail);
  }

  /** No key field holds the separator. */
  predicate ColonFree(action: string, identifier: string, league: Option<string>) {
    ':' !in action && ':' !in identifier && (league.Some? ==> ':' !in league.value)
  }

  /** Keys of colon-free requests split back into their fields. */
  lemma KeySplits(action: string, identifier: string, league: Option<string>, expand: bool)
    requires ColonFree(action, identifier, league)
    ensures Split(KeyString(action, identifier, league, expand), ':') == KeyFields(action, identifier, league, expand)
  {
    var fields := KeyFields(action, identifier, league, expand);
    assert ':' !in "expanded";
    assert forall k :: 0 <= k < |fields| ==> ':' !in fields[k];
    KeyJoins(action, identifier, league, expand);
    JoinSplit(fields, ':');
  }

  /** The league as a request gives it: `None` and the empty league name the same entry. */
  function LeagueKey(league: Option<string>): Option<string> {
    if Given(league) then league else None
  }

  /**
   * Two colon-free requests share an entry only when they agree on action,
   * identifier, expansion and league (a missing and an empty league being the
   * same), provided no league is literally `expanded`.
   */
  lemma KeysDistinct(a1: string, i1: string, l1: Option<string>, e1: bool, a2: string, i2: string, l2: Option<string>, e2: bool)
    requires ColonFree(a1, i1, l1) && ColonFree(a2, i2, l2)
    requires l1 != Some("expanded") && l2 != Some("expanded")
    requires KeyString(a1, i1, l1, e1) == KeyString(a2, i2, l2, e2)
    ensures a1 == a2 && i1 == i2 && e1 == e2 && LeagueKey(l1) == LeagueKey(l2)
  {
    KeySplits(a1, i1, l1, e1);
    KeySplits(a2, i2, l2, e2);
    var f1 := KeyFields(a1, i1, l1, e1);
    var f2 := KeyFields(a2, i2, l2, e2);
    assert f1 == f2;
    assert f1[0] == a1 && f1[1] == i1;
    if Given(l1) {
      assert f1[2] == l1.value;
    }
    if Given(l2) {
      assert f2[2] == l2.value;
    }
  }

  /** The exception: a league named `expanded` on an unexpanded request is the league-less expanded entry. */
  lemma ExpandedLeagueCollides(action: string, identifier: string)
    ensures KeyString(action, identifier, Some("expanded"), false) == KeyString(action, identifier, None, true)
  {
  }

  /** A cache file: when it was last written, and its JSON object (`None` when it cannot be read or parsed). */
  datatype Entry = Entry(mtime: int, data: Option<map<string, Value>>)

  /** An entry exists and is younger than the timeout (strictly). */
  predicate IsValid(files: map<string, Entry>, timeoutSeconds: int, key: string, now: int) {
    key in files && now - files[key].mtime < timeoutSeconds
  }

  function LeagueValue(league: Option<string>): Value {
    if league.Some? then Str(league.value) else Null
  }

  /** The request part of `_cache_info`. */
  function RequestInfo(key: string, action: string, identifier: string, league: Option<string>, expand: bool): map<string, Value> {
    map["cache_key" := Str(key), "action_type" := Str(action), "identifier" := Str(identifier),
        "league" := LeagueValue(league), "expanded" := Bool(expand)]
  }

  /**
   * `get_cached_data`: nothing for a missing, expired or unreadable entry;
   * otherwise the stored object with `_cache_info` set to the request and
   * the file's modification time.
   */
  function Fetch(files: map<string, Entry>, timeoutSeconds: int, action: string, identifier: string,
                 league: Option<string>, expand: bool, now: int): (r: Option<map<string, Value>>)
    ensures var key := KeyString(action, identifier, league, expand);
      r.None? <==> !IsValid(files, timeoutSeconds, key, now) || files[key].data.None?
    ensures var key := KeyString(action, identifier, league, expand);
      r.Some? ==>
        "_cache_info" in r.value && r.value.Keys == files[key].data.value.Keys + {"_cache_info"} &&
        (forall k :: k in r.value && k != "_cache_info" ==> r.value[k] == files[key].data.value[k]) &&
        r.value["_cache_info"] == Dict(RequestInfo(key, action, identifier, league, expand)["cached_at" := Int(files[key].mtime)])
  {
    var key := KeyString(action, identifier, league, expand);
    if !IsValid(files, timeoutSeconds, key, now) then None
    else match files[key].data
      case None => None
      case Some(d) => Some(d["_cache_info" := Dict(RequestInfo(key, action, identifier, league, expand)["cached_at" := Int(files[key].mtime)])])
  }

  /** The keys `clear_cache` deletes. */
  function ClearedKeys(files: map<string, Entry>, action: Option<string>, identifier: Option<string>): (r: set<string>)
    ensures r <= files.Keys
  {
    if Given(action) && Given(identifier) then
      {KeyString(action.value, identifier.value, None, true), KeyString(action.value, identifier.value, None, false)} * files.Keys
    else if action.None? then files.Keys
    else set k | k in files && ClearsByType(files[k], action.value)
  }

  /** Clearing by action type: an unreadable file goes; a readable one goes when its `_cache_info` names the type. */
  predicate ClearsByType(e: Entry, action: string) {
    match e.data
    case None => true
    case Some(d) =>
      "_cache_info" in d && d["_cache_info"].Dict? && "action_type" in d["_cache_info"].entries &&
      d["_cache_info"].entries["action_type"] == Str(action)
  }

  /** The keys `cleanup_expired` deletes. */
  function ExpiredKeys(files: map<string, Entry>, timeoutSeconds: int, now: int): (r: set<string>)
    ensures r <= files.Keys
  {
    set k | k in files && !IsValid(files, timeoutSeconds, k, now)
  }

  /** Visiting one more key of a deletion loop: it joins the deleted keys exactly when it is doomed. */
  lemma DeletionStep(doomed: set<string>, remaining: set<string>, k: string)
    requires k in remaining
    ensures k in doomed ==> doomed - (remaining - {k}) == (doomed - remaining) + {k} && k !in doomed - remaining
    ensures k !in doomed ==> doomed - (remaining - {k}) == doomed - remaining
  {
  }

  /**
   * Reading back what was just written: until the timeout runs out the stored
   * object comes back, with `_cache_info` rebuilt by the read (its time is the
   * write's, and the writer's `timeout_hours` is gone).
   */
  lemma StoredThenFetched(files: map<string, Entry>, timeoutSeconds: int, action: string, identifier: string,
                          league: Option<string>, expand: bool, d: map<string, Value>, written: int, now: int)
    requires written <= now < written + timeoutSeconds
    ensures var key := KeyString(action, identifier, league, expand);
      Fetch(files[key := Entry(written, Some(d))], timeoutSeconds, action, identifier, league, expand, now) ==
      Some(d["_cache_info" := Dict(RequestInfo(key, action, identifier, league, expand)["cached_at" := Int(written)])])
  {
  }

  /** Once the timeout has passed since the last write, the entry reads as missing. */
  lemma ExpiredNotFetched(files: map<string, Entry>, timeoutSeconds: int, action: string, identifier: string,
                          league: Option<string>, expand: bool, now: int)
    requires var key := KeyString(action, identifier, league, expand);
      key in files && now >= files[key].mtime + timeoutSeconds
    ensures Fetch(files, timeoutSeconds, action, identifier, league, expand, now).None?
  {
  }

  /** Dropping the expired entries changes no read made at the same time. */
  lemma CleanupKeepsFetch(files: map<string, Entry>, timeoutSeconds: int, action: string, identifier: string,
                          league: Option<string>, expand: bool, now: int)
    ensures Fetch(files - ExpiredKeys(files, timeoutSeconds, now), timeoutSeconds, action, identifier, league, expand, now) ==
            Fetch(files, timeoutSeconds, action, identifier, league, expand, now)
  {
    var key := KeyString(action, identifier, league, expand);
    var kept := files - ExpiredKeys(files, timeoutSeconds, now);
    if IsValid(files, timeoutSeconds, key, now) {
      assert key !in ExpiredKeys(files, timeoutSeconds, now);
      assert key in kept && kept[key] == files[key];
    } else {
      assert !IsValid(kept, timeoutSeconds, key, now);
    }
  }

  /** Clearing one request deletes at most its two league-less entries. */
  lemma ClearedRequestCount(files: map<string, Entry>, action: string, identifier: string)
    requires |action| > 0 && |identifier| > 0
    ensures |ClearedKeys(files, Some(action), Some(identifier))| <= 2
  {
    var pair := {KeyString(action, identifier, None, true), KeyString(action, identifier, None, false)};
    assert |pair| <= 2;
    SubsetCard(pair * files.Keys, pair);
  }

  lemma SubsetCard(a: set<string>, b: set<string>)
    requires a <= b
    ensures |a| <= |b|
  {
    assert b == a + (b - a);
  }

  /** After clearing a request, neither of its league-less entries can be read, whatever the time. */
  lemma ClearedRequestGone(files: map<string, Entry>, timeoutSeconds: int, action: string, identifier: string,
                           league: Option<string>, expand: bool, now: int)
    requires |action| > 0 && |identifier| > 0 && !Given(league)
    ensures Fetch(files - ClearedKeys(files, Some(action), Some(identifier)), timeoutSeconds,
                  action, identifier, league, expand, now).None?
  {
    var key := KeyString(action, identifier, league, expand);
    assert key == KeyString(action, identifier, None, expand);
  }

  /**
   * Clearing a request leaves every other colon-free request's entry as it
   * was, in particular the same request's entries for a league (unless the
   * league is literally `expanded`).
   */
  lemma ClearRequestKeepsOthers(files: map<string, Entry>, timeoutSeconds: int, action: string, identifier: string,
                                a: string, i: string, league: Option<string>, expand: bool, now: int)
    requires |action| > 0 && |identifier| > 0 && ColonFree(action, identifier, None)
    requires ColonFree(a, i, league) && league != Some("expanded")
    requires a != action || i != identifier || Given(league)
    ensures Fetch(files - ClearedKeys(files, Some(action), Some(identifier)), timeoutSeconds, a, i, league, expand, now) ==
            Fetch(files, timeoutSeconds, a, i, league, expand, now)
  {
    var key := KeyString(a, i, league, expand);
    var doomed := ClearedKeys(files, Some(action), Some(identifier));
    if key == KeyString(action, identifier, None, true) {
      KeysDistinct(a, i, league, expand, action, identifier, None, true);
    }
    if key == KeyString(action, identifier, None, false) {
      KeysDistinct(a, i, league, expand, action, identifier, None, false);
    }
    assert key !in doomed;
  }

  /** Deleting two distinct keys one after the other deletes the pair, and counts those present. */
  lemma PairRemoved(files: map<string, Entry>, first: string, second: string)
    requires first != second
    ensures files - {first} - {second} == files - ({first, second} * files.Keys)
    ensures |{first, second} * files.Keys| == (if first in files then 1 else 0) + (if second in files then 1 else 0)
  {
    var both := {first, second} * files.Keys;
    if first in files && second in files {
      assert both == {first, second};
    } else if first in files {
      assert both == {first};
    } else if second in files {
      assert both == {second};
    } else {
      assert both == {};
    }
  }

  /**
   * How writing a cache file ends: the object is written, the file cannot be
   * opened (it is left as it was), or the dump fails after opening for
   * writing has emptied the file.
   */
  datatype WriteOutcome = Written | OpenFails | DumpFails

  /**
   * A dump that failed after the open leaves the request's file unreadable:
   * lookups of that request answer nothing, and clearing by any action type
   * deletes it.
   */
  lemma FailedDumpUnreadable(files: map<string, Entry>, timeoutSeconds: int, action: string, identifier: string,
                             league: Option<string>, expand: bool, written: int, now: int, anyAction: string)
    ensures var key := KeyString(action, identifier, league, expand);
      Fetch(files[key := Entry(written, None)], timeoutSeconds, action, identifier, league, expand, now).None? &&
      key in ClearedKeys(files[key := Entry(written, None)], Some(anyAction), None)
  {
  }

  /** The JSON object a caller passes to `cache_data`, which adds `_cache_info` to it in place. */
  class Payload {
    var entries: map<string, Value>

    constructor(entries: map<string, Value>)
      ensures this.entries == entries
    {
      this.entries := entries;
    }
  }

  /** The cache directory and its timeout. */
  class CacheManager {
    const timeoutHours: int
    const timeoutSeconds: int
    var files: map<string, Entry>

    /** `files` is what the cache directory already holds. */
    constructor(timeoutHours: int, files: map<string, Entry>)
      ensures this.timeoutHours == timeoutHours && timeoutSeconds == timeoutHours * 3600
      ensures this.files == files
    {
      this.timeoutHours := timeoutHours;
      timeoutSeconds := timeoutHours * 3600;
      this.files := files;
    }

    /** `get_cached_data`. */
    method GetCachedData(action: string, identifier: string, league: Option<string>, expand: bool, now: int)
      returns (r: Option<map<string, Value>>)
      ensures r == Fetch(files, timeoutSeconds, action, identifier, league, expand, now)
    {
      var key := KeyString(action, identifier, league, expand);
      if !(key in files && now - files[key].mtime < timeoutSeconds) {
        return None;
      }
      var entry := files[key];
      if entry.data.None? {
        return None;
      }
      var info := RequestInfo(key, action, identifier, league, expand)["cached_at" := Int(entry.mtime)];
      r := Some(entry.data.value["_cache_info" := Dict(info)]);
    }

    /**
     * `cache_data`: sets `_cache_info` on the caller's object, then writes it
     * under the request's key with modification time `now`. The object keeps
     * its `_cache_info` however the write ends. When the file cannot be
     * opened the cache is unchanged; when the dump fails after the open has
     * emptied the file, the entry is left unreadable and stamped `now`.
     */
    method CacheData(action: string, identifier: string, data: Payload, league: Option<string>, expand: bool,
                     now: int, write: WriteOutcome) returns (ok: bool)
      modifies this, data
      ensures data.entries == old(data.entries)["_cache_info" := Dict(RequestInfo(KeyString(action, identifier, league, expand),
        action, identifier, league, expand)["cached_at" := Int(now)]["timeout_hours" := Int(timeoutHours)])]
      ensures ok == write.Written?
      ensures files == match write
        case Written => old(files)[KeyString(action, identifier, league, expand) := Entry(now, Some(data.entries))]
        case OpenFails => old(files)
        case DumpFails => old(files)[KeyString(action, identifier, league, expand) := Entry(now, None)]
    {
      var key := KeyString(action, identifier, league, expand);
      var info := RequestInfo(key, action, identifier, league, expand)["cached_at" := Int(now)]["timeout_hours" := Int(timeoutHours)];
      data.entries := data.entries["_cache_info" := Dict(info)];
      match write {
        case Written =>
          files := files[key := Entry(now, Some(data.entries))];
          return true;
        case OpenFails =>
          return false;
        case DumpFails =>
          files := files[key := Entry(now, None)];
          return false;
      }
    }

    /**
     * `clear_cache`: with an action type and an identifier, the two
     * league-less entries of that request; otherwise every entry, or every
     * entry of the given action type. Returns how many were deleted.
     */
    method ClearCache(action: Option<string>, identifier: Option<string>) returns (cleared: nat)
      modifies this
      ensures files == old(files) - ClearedKeys(old(files), action, identifier)
      ensures cleared == |ClearedKeys(old(files), action, identifier)|
    {
      if Given(action) && Given(identifier) {
        cleared := ClearRequest(action.value, identifier.value);
      } else {
        cleared := ClearMatching(action);
      }
    }

    /** Deletes the expanded and the unexpanded league-less entries of one request, counting those that existed. */
    method ClearRequest(action: string, identifier: string) returns (cleared: nat)
      modifies this
      ensures var doomed := {KeyString(action, identifier, None, true), KeyString(action, identifier, None, false)} * old(files).Keys;
        files == old(files) - doomed && cleared == |doomed|
    {
      var expanded, unexpanded := KeyString(action, identifier, None, true), KeyString(action, identifier, None, false);
      assert |expanded| > |unexpanded|;
      cleared := ClearKeys(expanded, unexpanded);
    }

    /** Deletes each of two distinct keys that exists, first to second, counting those that did. */
    method ClearKeys(first: string, second: string) returns (cleared: nat)
      requires first != second
      modifies this
      ensures files == old(files) - ({first, second} * old(files).Keys) && cleared == |{first, second} * old(files).Keys|
    {
      PairRemoved(files, first, second);
      var d := Delete(first);
      var e := Delete(second);
      cleared := d + e;
    }

    /** Deletes one key if it exists, counting it. */
    method Delete(k: string) returns (deleted: nat)
      modifies this
      ensures files == old(files) - {k} && deleted == if k in old(files) then 1 else 0
    {
      if k in files {
        files := files - {k};
        return 1;
      }
      return 0;
    }

    /** Deletes every entry, or with an action type every entry of that type or unreadable, counting them. */
    method ClearMatching(action: Option<string>) returns (cleared: nat)
      modifies this
      ensures var doomed := if action.None? then old(files).Keys else set k | k in old(files) && ClearsByType(old(files)[k], action.value);
        files == old(files) - doomed && cleared == |doomed|
    {
      cleared := 0;
      ghost var doomed := if action.None? then files.Keys else set k | k in files && ClearsByType(files[k], action.value);
      var remaining := files.Keys;
      while remaining != {}
        invariant remaining <= old(files).Keys
        invariant files == old(files) - (doomed - remaining) && cleared == |doomed - remaining|
        decreases |remaining|
      {
        var k :| k in remaining;
        assert k in files && files[k] == old(files)[k];
        var d := Visit(k, action.None? || ClearsByType(files[k], action.value), old(files), doomed, remaining);
        cleared := cleared + d;
        remaining := remaining - {k};
      }
    }

    /** `cleanup_expired`: deletes exactly the entries that are not valid at `now` and returns how many. */
    method CleanupExpired(now: int) returns (removed: nat)
      modifies this
      ensures files == old(files) - ExpiredKeys(old(files), timeoutSeconds, now)
      ensures removed == |ExpiredKeys(old(files), timeoutSeconds, now)|
    {
      removed := 0;
      ghost var doomed := ExpiredKeys(files, timeoutSeconds, now);
      var remaining := files.Keys;
      while remaining != {}
        invariant remaining <= old(files).Keys
        invariant files == old(files) - (doomed - remaining) && removed == |doomed - remaining|
        decreases |remaining|
      {
        var k :| k in remaining;
        assert k in files && files[k] == old(files)[k];
        var d := Visit(k, !(now - files[k].mtime < timeoutSeconds), old(files), doomed, remaining);
        removed := removed + d;
        remaining := remaining - {k};
      }
    }

    /**
     * One file of a deletion loop: deleted when it is doomed. Afterwards the
     * deleted files are the doomed ones among those visited, and `deleted`
     * counts this file.
     */
    method Visit(k: string, doom: bool, ghost base: map<string, Entry>, ghost doomed: set<string>, ghost remaining: set<string>)
      returns (deleted: nat)
      requires k in remaining && doom == (k in doomed)
      requires files == base - (doomed - remaining)
      modifies this
      ensures files == base - (doomed - (remaining - {k}))
      ensures |doomed - (remaining - {k})| == |doomed - remaining| + deleted
    {
      DeletionStep(doomed, remaining, k);
      if doom {
        files := files - {k};
        return 1;
      }
      return 0;
    }
  }
}

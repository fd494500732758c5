/**
 * The configuration manager: defaults merged with the user's configuration
 * file, and dotted-path reads and writes (`browser.headless`).
 */
module Settings {
  import opened Wrappers
  import opened Text
  import opened Json

  /**
   * Merging a user value over a default value: where both are objects, their
   * members are merged key by key; anywhere else the user's value replaces
   * the default.
   */
  function Merge(d: Value, u: Value): (r: Value)
    ensures d.Dict? && u.Dict? ==> r.Dict? && r.entries.Keys == d.entries.Keys + u.entries.Keys
    ensures !(d.Dict? && u.Dict?) ==> r == u
    decreases u
  {
    if d.Dict? && u.Dict? then
      Dict(map k | k in d.entries.Keys + u.entries.Keys ::
        if k in u.entries then
          (if k in d.entries then Merge(d.entries[k], u.entries[k]) else u.entries[k])
        else d.entries[k])
    else u
  }

  /** The merged configuration object. */
  function MergeConfig(defaults: map<string, Value>, user: map<string, Value>): (r: map<string, Value>)
    ensures r.Keys == defaults.Keys + user.Keys
  {
    Merge(Dict(defaults), Dict(user)).entries
  }

  /** A default the user does not mention survives unchanged. */
  lemma MergeKeepsDefault(defaults: map<string, Value>, user: map<string, Value>, k: string)
    requires k in defaults && k !in user
    ensures MergeConfig(defaults, user)[k] == defaults[k]
  {
  }

  /** A user member replaces the default wholesale unless both are objects. */
  lemma MergeUserWins(defaults: map<string, Value>, user: map<string, Value>, k: string)
    requires k in user
    requires !(k in defaults && defaults[k].Dict? && user[k].Dict?)
    ensures MergeConfig(defaults, user)[k] == user[k]
  {
  }

  /** A setting the user gives at a leaf is what the merged configuration holds there. */
  lemma {:induction false} MergeLeafFromUser(d: Value, u: Value, path: seq<string>, x: Value)
    requires Lookup(u, path) == Some(x) && !x.Dict?
    ensures Lookup(Merge(d, u), path) == Some(x)
    decreases |path|
  {
    if path != [] && d.Dict? {
      var k := path[0];
      if k in d.entries {
        MergeLeafFromUser(d.entries[k], u.entries[k], path[1..], x);
      }
    }
  }

  /** A path whose first key the user leaves out reads as in the defaults. */
  lemma MergeDefaultPath(defaults: map<string, Value>, user: map<string, Value>, path: seq<string>)
    requires path != [] && path[0] in defaults && path[0] !in user
    ensures Lookup(Dict(MergeConfig(defaults, user)), path) == Lookup(Dict(defaults), path)
  {
  }

  /** Merging an empty user configuration changes nothing. */
  lemma MergeEmptyUser(defaults: map<string, Value>)
    ensures MergeConfig(defaults, map[]) == defaults
  {
  }

  /** Merging a configuration over itself gives it back. */
  lemma {:induction false} MergeSelf(v: Value)
    ensures Merge(v, v) == v
    decreases v
  {
    if v.Dict? {
      forall k | k in v.entries
        ensures Merge(v.entries[k], v.entries[k]) == v.entries[k]
      {
        MergeSelf(v.entries[k]);
      }
    }
  }

  /** Merging the same user configuration a second time changes nothing. */
  lemma {:induction false} MergeIdempotent(d: Value, u: Value)
    ensures Merge(Merge(d, u), u) == Merge(d, u)
    decreases u
  {
    if d.Dict? && u.Dict? {
      var m := Merge(d, u);
      forall k | k in u.entries && k in d.entries
        ensures Merge(Merge(d.entries[k], u.entries[k]), u.entries[k]) == Merge(d.entries[k], u.entries[k])
      {
        MergeIdempotent(d.entries[k], u.entries[k]);
      }
      forall k | k in u.entries && k !in d.entries
        ensures Merge(u.entries[k], u.entries[k]) == u.entries[k]
      {
        MergeSelf(u.entries[k]);
      }
    } else {
      MergeSelf(u);
    }
  }

  /**
   * Writing `v` at `keys` into the object `m`: missing intermediate members
   * are created as empty objects; an intermediate member that exists but is
   * not an object makes the write fail (`None`).
   */
  function SetPath(m: map<string, Value>, keys: seq<string>, v: Value): (r: Option<map<string, Value>>)
    requires |keys| >= 1
    ensures r.Some? ==> r.value.Keys == m.Keys + {keys[0]}
    decreases |keys|
  {
    if |keys| == 1 then Some(m[keys[0] := v])
    else
      var k := keys[0];
      if k in m && !m[k].Dict? then None
      else
        var child := if k in m then m[k].entries else map[];
        match SetPath(child, keys[1..], v)
        case None => None
        case Some(c) => Some(m[k := Dict(c)])
  }

  /** The member reached by `keys[..j]` exists and is not an object. */
  predicate BlockedAt(m: map<string, Value>, keys: seq<string>, j: nat)
    requires j <= |keys|
  {
    match Lookup(Dict(m), keys[..j])
    case Some(x) => !x.Dict?
    case None => false
  }

  /** A write fails exactly when an existing member strictly above the target is not an object. */
  lemma {:induction false} SetPathFails(m: map<string, Value>, keys: seq<string>, v: Value)
    requires |keys| >= 1
    ensures SetPath(m, keys, v).None? <==> exists j :: 1 <= j < |keys| && BlockedAt(m, keys, j)
    decreases |keys|
  {
    if |keys| > 1 {
      var k := keys[0];
      if k in m && !m[k].Dict? {
        assert keys[..1][1..] == [];
        assert BlockedAt(m, keys, 1);
      } else if k !in m {
        assert forall j :: 1 <= j <= |keys| ==> keys[..j][0] == k;
        assert forall j :: 1 <= j < |keys| ==> !BlockedAt(m, keys, j);
        NewPathSucceeds(keys[1..], v);
      } else {
        var child := m[k].entries;
        SetPathFails(child, keys[1..], v);
        forall j | 1 <= j < |keys|
          ensures BlockedAt(m, keys, j) <==> j >= 2 && BlockedAt(child, keys[1..], j - 1)
        {
          assert keys[..j][0] == k && keys[..j][1..] == keys[1..][..j - 1];
        }
        if exists j :: 1 <= j < |keys| - 1 && BlockedAt(child, keys[1..], j) {
          var j :| 1 <= j < |keys| - 1 && BlockedAt(child, keys[1..], j);
          assert BlockedAt(m, keys, j + 1);
        }
      }
    }
  }

  /** Writing below a member that does not exist always succeeds. */
  lemma {:induction false} NewPathSucceeds(keys: seq<string>, v: Value)
    requires |keys| >= 1
    ensures SetPath(map[], keys, v).Some?
    decreases |keys|
  {
    if |keys| > 1 {
      NewPathSucceeds(keys[1..], v);
    }
  }

  /** After a successful write, reading the same path gives the value written. */
  lemma {:induction false} GetAfterSet(m: map<string, Value>, keys: seq<string>, v: Value)
    requires |keys| >= 1 && SetPath(m, keys, v).Some?
    ensures Lookup(Dict(SetPath(m, keys, v).value), keys) == Some(v)
    decreases |keys|
  {
    if |keys| > 1 {
      var k := keys[0];
      var child := if k in m then m[k].entries else map[];
      GetAfterSet(child, keys[1..], v);
    }
  }

  /** A write leaves every path that parts from the written one untouched. */
  lemma {:induction false} SetLeavesOtherPaths(m: map<string, Value>, keys: seq<string>, v: Value, p: seq<string>, i: nat)
    requires |keys| >= 1 && SetPath(m, keys, v).Some?
    requires i < |p| && i < |keys| && p[..i] == keys[..i] && p[i] != keys[i]
    ensures Lookup(Dict(SetPath(m, keys, v).value), p) == Lookup(Dict(m), p)
    decreases |keys|
  {
    if i > 0 {
      var k := keys[0];
      assert p[0] == k by { assert p[..i][0] == keys[..i][0]; }
      var child := if k in m then m[k].entries else map[];
      assert p[1..][..i - 1] == p[..i][1..] && keys[1..][..i - 1] == keys[..i][1..];
      SetLeavesOtherPaths(child, keys[1..], v, p[1..], i - 1);
      if k !in m {
        EmptyLookup(p[1..]);
      }
    }
  }

  /** Nothing but the empty path can be read from an empty object. */
  lemma EmptyLookup(p: seq<string>)
    requires p != []
    ensures Lookup(Dict(map[]), p) == None
  {
  }

  /**
   * Wraps the updated object `o` back into its ancestors: `chain[j]` is the
   * object at depth `j` of the path, and member `keys[j]` of it is replaced.
   */
  function Plug(chain: seq<map<string, Value>>, keys: seq<string>, o: Option<map<string, Value>>): Option<map<string, Value>>
    requires |chain| <= |keys|
    decreases |chain|
  {
    if o.None? then None
    else if chain == [] then o
    else
      var n := |chain| - 1;
      Plug(chain[..n], keys, Some(chain[n][keys[n] := Dict(o.value)]))
  }

  /** The loaded configuration, held as the object at its root. */
  class Config {
    var root: map<string, Value>

    /**
     * Loading: `file` is the parsed configuration file, `None` when it is
     * missing or unreadable. Anything but a JSON object makes the merge fail,
     * and the defaults are used as they are.
     */
    constructor(defaults: map<string, Value>, file: Option<Value>)
      ensures file.Some? && file.value.Dict? ==> root == MergeConfig(defaults, file.value.entries)
      ensures !(file.Some? && file.value.Dict?) ==> root == defaults
    {
      if file.Some? && file.value.Dict? {
        root := MergeConfig(defaults, file.value.entries);
      } else {
        root := defaults;
      }
    }

    /** The value at the dotted `path`, or `default` where some key is missing or indexes a non-object. */
    method Get(path: string, default: Value) returns (r: Value)
      ensures r == Lookup(Dict(root), Split(path, '.')).GetOr(default)
    {
      var keys := Split(path, '.');
      var value := Dict(root);
      var i := 0;
      while i < |keys|
        invariant 0 <= i <= |keys|
        invariant Lookup(Dict(root), keys) == Lookup(value, keys[i..])
      {
        assert keys[i..][1..] == keys[i + 1..];
        if value.Dict? && keys[i] in value.entries {
          value := value.entries[keys[i]];
          i := i + 1;
        } else {
          return default;
        }
      }
      return value;
    }

    /**
     * Writes `v` at the dotted `path`, creating missing intermediate objects.
     * `ok` is false when an existing intermediate member is not an object;
     * the configuration is then left as it was.
     */
    method Set(path: string, v: Value) returns (ok: bool)
      modifies this
      ensures var w := SetPath(old(root), Split(path, '.'), v);
        ok == w.Some? && root == (if ok then w.value else old(root))
    {
      var keys := Split(path, '.');
      var chain, cur;
      ok, chain, cur := Descend(keys, v);
      if !ok {
        return false;
      }
      var last := |keys| - 1;
      assert keys[last..] == [keys[last]];
      var built := Rebuild(chain, keys, cur[keys[last] := v]);
      root := built;
    }

    /**
     * The first loop of `Set`: walks the path down to the object that holds
     * its last member, recording the objects passed; fails on an existing
     * member that is not an object.
     */
    method Descend(keys: seq<string>, v: Value) returns (ok: bool, chain: seq<map<string, Value>>, cur: map<string, Value>)
      requires |keys| >= 1
      ensures ok ==> |chain| == |keys| - 1 && SetPath(root, keys, v) == Plug(chain, keys, SetPath(cur, keys[|keys| - 1..], v))
      ensures !ok ==> SetPath(root, keys, v).None?
    {
      chain, cur := [], root;
      var i := 0;
      while i < |keys| - 1
        invariant 0 <= i <= |keys| - 1 && |chain| == i
        invariant SetPath(root, keys, v) == Plug(chain, keys, SetPath(cur, keys[i..], v))
      {
        var k := keys[i];
        assert keys[i..][0] == k && keys[i..][1..] == keys[i + 1..];
        if k in cur && !cur[k].Dict? {
          PlugNone(chain, keys);
          return false, chain, cur;
        }
        var child := if k in cur then cur[k].entries else map[];
        assert (chain + [cur])[..i] == chain;
        chain := chain + [cur];
        cur := child;
        i := i + 1;
      }
      return true, chain, cur;
    }
  }

  /** The second loop of `Set`: wraps the updated object back into its ancestors, innermost first. */
  method Rebuild(chain: seq<map<string, Value>>, keys: seq<string>, updated: map<string, Value>) returns (built: map<string, Value>)
    requires |chain| <= |keys|
    ensures Plug(chain, keys, Some(updated)) == Some(built)
  {
    built := updated;
    var i := |chain|;
    assert chain[..i] == chain;
    while i > 0
      invariant 0 <= i <= |chain|
      invariant Plug(chain, keys, Some(updated)) == Plug(chain[..i], keys, Some(built))
    {
      assert chain[..i][..i - 1] == chain[..i - 1];
      i := i - 1;
      built := chain[i][keys[i] := Dict(built)];
    }
  }

  lemma PlugNone(chain: seq<map<string, Value>>, keys: seq<string>)
    requires |chain| <= |keys|
    ensures Plug(chain, keys, None) == None
  {
  }
}

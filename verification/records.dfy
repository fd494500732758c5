/**
 * The team-history record the scraper builds from one table row, and the
 * merge both scroll loops use: a record joins the collection only when no
 * collected record has the same (name, season) identity key.
 */
module Records {
  import opened Wrappers

  datatype Status = Current | Past

  /**
   * One row of a player's team history. A missing dictionary key is `None`;
   * `name` is the empty string both when the key is missing and when it is
   * empty, the two cases every consumer treats alike. `winPct` is kept exact
   * (no rounding to one decimal).
   */
  datatype TeamRecord = TeamRecord(
    name: string,
    season: Option<string>,
    role: Option<string>,
    skill: Option<nat>,
    played: Option<nat>,
    won: Option<nat>,
    winPct: Option<real>,
    mvpRank: Option<string>,
    teamId: Option<string>,
    status: Option<Status>)

  /** The identity key compared by the scroll loops: `(t.get('name'), t.get('season'))`. */
  datatype Key = Key(name: string, season: Option<string>)

  function KeyOf(t: TeamRecord): Key {
    Key(t.name, t.season)
  }

  function Keys(all: seq<TeamRecord>): set<Key> {
    set t | t in all :: KeyOf(t)
  }

  predicate NoDuplicateKeys(all: seq<TeamRecord>) {
    forall i, j :: 0 <= i < j < |all| ==> KeyOf(all[i]) != KeyOf(all[j])
  }

  lemma KeysAppend(all: seq<TeamRecord>, t: TeamRecord)
    ensures Keys(all + [t]) == Keys(all) + {KeyOf(t)}
  {
    assert t in all + [t];
    forall u | u in all ensures u in all + [t] { }
  }

  lemma KeysConcat(a: seq<TeamRecord>, b: seq<TeamRecord>)
    ensures Keys(a + b) == Keys(a) + Keys(b)
  {
    forall u | u in a ensures u in a + b { }
    forall u | u in b ensures u in a + b { }
  }

  /** One step of the merge loop: append `t` unless its key is already collected. */
  function Add(all: seq<TeamRecord>, t: TeamRecord): seq<TeamRecord> {
    if KeyOf(t) in Keys(all) then all else all + [t]
  }

  /** Merging one scan's records into the collection, in scan order. */
  function MergeBatch(all: seq<TeamRecord>, batch: seq<TeamRecord>): seq<TeamRecord>
    decreases |batch|
  {
    if batch == [] then all
    else Add(MergeBatch(all, batch[..|batch| - 1]), batch[|batch| - 1])
  }

  /**
   * The collection only grows at its end, ends up holding exactly the keys of
   * both inputs, keeps its keys unique, and holds nothing that was in neither.
   */
  lemma {:induction false} MergeBatchFacts(all: seq<TeamRecord>, batch: seq<TeamRecord>)
    ensures var r := MergeBatch(all, batch);
      |all| <= |r| && r[..|all|] == all &&
      Keys(r) == Keys(all) + Keys(batch) &&
      (NoDuplicateKeys(all) ==> NoDuplicateKeys(r)) &&
      forall t :: t in r ==> t in all || t in batch
    decreases |batch|
  {
    if batch != [] {
      var prefix := batch[..|batch| - 1];
      var last := batch[|batch| - 1];
      assert batch == prefix + [last];
      KeysAppend(prefix, last);
      MergeBatchFacts(all, prefix);
      AddFacts(MergeBatch(all, prefix), last, |all|);
    }
  }

  /** One `Add` step keeps a prefix, adds the record's key, keeps keys unique and adds nothing but the record. */
  lemma AddFacts(m: seq<TeamRecord>, t: TeamRecord, n: nat)
    requires n <= |m|
    ensures var r := Add(m, t);
      |m| <= |r| && r[..n] == m[..n] && Keys(r) == Keys(m) + {KeyOf(t)} &&
      (NoDuplicateKeys(m) ==> NoDuplicateKeys(r)) &&
      forall u :: u in r ==> u in m || u == t
  {
    if KeyOf(t) !in Keys(m) {
      KeysAppend(m, t);
      assert forall i :: 0 <= i < |m| ==> m[i] in m;
      assert (m + [t])[..n] == m[..n];
    }
  }

  /** Merging one more record is one more `Add` step. */
  lemma MergeBatchStep(all: seq<TeamRecord>, batch: seq<TeamRecord>, t: TeamRecord)
    ensures MergeBatch(all, batch + [t]) == Add(MergeBatch(all, batch), t)
  {
    assert (batch + [t])[..|batch|] == batch;
  }

  /** Merging records whose keys are all collected already changes nothing. */
  lemma {:induction false} MergeKnownIsIdentity(all: seq<TeamRecord>, batch: seq<TeamRecord>)
    requires Keys(batch) <= Keys(all)
    ensures MergeBatch(all, batch) == all
    decreases |batch|
  {
    if batch != [] {
      var prefix := batch[..|batch| - 1];
      var last := batch[|batch| - 1];
      assert batch == prefix + [last];
      KeysAppend(prefix, last);
      MergeKnownIsIdentity(all, prefix);
    }
  }

  /** Merging the same scan twice gives what merging it once gave. */
  lemma MergeTwice(all: seq<TeamRecord>, batch: seq<TeamRecord>)
    ensures MergeBatch(MergeBatch(all, batch), batch) == MergeBatch(all, batch)
  {
    MergeBatchFacts(all, batch);
    MergeKnownIsIdentity(MergeBatch(all, batch), batch);
  }

  /** The number of records a merge appends is the number of new keys it brings. */
  lemma {:induction false} MergeGrowth(all: seq<TeamRecord>, batch: seq<TeamRecord>)
    requires NoDuplicateKeys(all)
    ensures |MergeBatch(all, batch)| == |all| + |Keys(batch) - Keys(all)|
    decreases |batch|
  {
    var r := MergeBatch(all, batch);
    MergeBatchFacts(all, batch);
    NoDuplicateKeysCount(all);
    NoDuplicateKeysCount(r);
    assert Keys(r) == Keys(all) + (Keys(batch) - Keys(all));
  }

  /** Without duplicate keys, a collection has as many records as keys. */
  lemma {:induction false} NoDuplicateKeysCount(all: seq<TeamRecord>)
    requires NoDuplicateKeys(all)
    ensures |Keys(all)| == |all|
    decreases |all|
  {
    if all != [] {
      var prefix := all[..|all| - 1];
      var last := all[|all| - 1];
      assert all == prefix + [last];
      NoDuplicateKeysCount(prefix);
      KeysAppend(prefix, last);
    }
  }

  /** Merging successive scans, first to last, starting from an empty collection. */
  function MergeAll(batches: seq<seq<TeamRecord>>): (r: seq<TeamRecord>)
    ensures NoDuplicateKeys(r)
    decreases |batches|
  {
    if batches == [] then []
    else
      var m := MergeAll(batches[..|batches| - 1]);
      MergeBatchFacts(m, batches[|batches| - 1]);
      MergeBatch(m, batches[|batches| - 1])
  }

  /** Every record of every scan is represented in the merged collection by its key. */
  lemma {:induction false} MergeAllCovers(batches: seq<seq<TeamRecord>>, k: nat)
    requires k < |batches|
    ensures Keys(batches[k]) <= Keys(MergeAll(batches))
    decreases |batches|
  {
    var prefix := batches[..|batches| - 1];
    MergeBatchFacts(MergeAll(prefix), batches[|batches| - 1]);
    if k < |batches| - 1 {
      MergeAllCovers(prefix, k);
      assert prefix[k] == batches[k];
    }
  }

  /** The merged collection holds nothing that no scan returned. */
  lemma {:induction false} MergeAllFromScans(batches: seq<seq<TeamRecord>>, t: TeamRecord)
    requires t in MergeAll(batches)
    ensures exists k :: 0 <= k < |batches| && t in batches[k]
    decreases |batches|
  {
    var prefix := batches[..|batches| - 1];
    MergeBatchFacts(MergeAll(prefix), batches[|batches| - 1]);
    if t in MergeAll(prefix) {
      MergeAllFromScans(prefix, t);
      var k :| 0 <= k < |prefix| && t in prefix[k];
      assert batches[k] == prefix[k];
    } else {
      assert t in batches[|batches| - 1];
    }
  }

  /**
   * The merge step of both scroll loops: each record of the scan is appended
   * unless a held record has the same key. Also returns how many were appended.
   */
  method MergeScan(all: seq<TeamRecord>, batch: seq<TeamRecord>) returns (merged: seq<TeamRecord>, added: nat)
    ensures merged == MergeBatch(all, batch)
    ensures added == |merged| - |all|
  {
    merged, added := all, 0;
    var i := 0;
    while i < |batch|
      invariant i <= |batch|
      invariant merged == MergeBatch(all, batch[..i])
      invariant |all| <= |merged| && added == |merged| - |all|
    {
      var t := batch[i];
      MergeScanStep(all, batch, i);
      if KeyOf(t) !in Keys(merged) {
        merged := merged + [t];
        added := added + 1;
      }
      i := i + 1;
    }
    assert batch[..i] == batch;
  }

  lemma MergeScanStep(all: seq<TeamRecord>, batch: seq<TeamRecord>, i: nat)
    requires i < |batch|
    ensures MergeBatch(all, batch[..i + 1]) == Add(MergeBatch(all, batch[..i]), batch[i])
  {
    assert batch[..i + 1] == batch[..i] + [batch[i]];
    MergeBatchStep(all, batch[..i], batch[i]);
  }

  /** The results of a table scan's rows, with row 0 skipped as the header and rows that gave nothing dropped. */
  function SkipHeader(parsed: seq<Option<TeamRecord>>): (r: seq<TeamRecord>)
    ensures |parsed| >= 1 ==> |r| <= |parsed| - 1
    decreases |parsed|
  {
    if |parsed| <= 1 then []
    else SkipHeader(parsed[..|parsed| - 1]) + parsed[|parsed| - 1].ToSeq()
  }

  lemma SkipHeaderStep(parsed: seq<Option<TeamRecord>>, i: nat)
    requires i < |parsed|
    ensures SkipHeader(parsed[..i + 1]) == SkipHeader(parsed[..i]) + (if i == 0 then [] else parsed[i].ToSeq())
  {
    assert parsed[..i + 1][..i] == parsed[..i];
  }

  /** A record is in the scan exactly when some row other than the first gave it. */
  lemma {:induction false} SkipHeaderMembers(parsed: seq<Option<TeamRecord>>, t: TeamRecord)
    ensures t in SkipHeader(parsed) <==> exists i :: 1 <= i < |parsed| && parsed[i] == Some(t)
    decreases |parsed|
  {
    if |parsed| > 1 {
      var prefix := parsed[..|parsed| - 1];
      SkipHeaderMembers(prefix, t);
      if exists i :: 1 <= i < |prefix| && prefix[i] == Some(t) {
        var i :| 1 <= i < |prefix| && prefix[i] == Some(t);
        assert parsed[i] == prefix[i];
      }
      if exists i :: 1 <= i < |parsed| && parsed[i] == Some(t) {
        var i :| 1 <= i < |parsed| && parsed[i] == Some(t);
        if i < |prefix| {
          assert prefix[i] == parsed[i];
        }
      }
    }
  }

  /** Whatever the first row gave, the scan ignores it. */
  lemma {:induction false} HeaderIgnored(parsed: seq<Option<TeamRecord>>, header: Option<TeamRecord>)
    requires |parsed| >= 1
    ensures SkipHeader(parsed[0 := header]) == SkipHeader(parsed)
    decreases |parsed|
  {
    if |parsed| > 1 {
      var prefix := parsed[..|parsed| - 1];
      HeaderIgnored(prefix, header);
      assert parsed[0 := header][..|parsed| - 1] == prefix[0 := header];
    }
  }
}


/**
 * What both scroll loops share: the sequence of views their table scans see,
 * one per scan, and the collection that merging the scans' records in order
 * builds. Scan `k` sees view `k`; once the views run out every further scan
 * sees the last one.
 */
module Scans {
  import opened Records

  /**
   * A page as a scroll loop sees it at one scan: the records its table scan
   * finds, whether scrolling the page raises, and whether the page reports
   * that it is at its bottom (only the player page asks).
   */
  datatype View = View(batch: seq<TeamRecord>, scrollFails: bool, atBottom: bool)

  /** The view at scan `k`: once the views run out, every further scan sees the last one. */
  function ViewAt(views: seq<View>, k: nat): (v: View)
    ensures views != [] ==> v in views
  {
    if views == [] then View([], false, false)
    else if k < |views| then views[k]
    else views[|views| - 1]
  }

  /** The collection after `n` scans: each scan's records merged into what the scans before it collected. */
  function Collected(views: seq<View>, n: nat): seq<TeamRecord> {
    if n == 0 then [] else MergeBatch(Collected(views, n - 1), ViewAt(views, n - 1).batch)
  }

  /** Scan `k` found at least one team not collected before. */
  predicate Productive(views: seq<View>, k: nat) {
    |Collected(views, k + 1)| != |Collected(views, k)|
  }

  /** Once the views run out, every scan sees the same one. */
  lemma ViewSettles(views: seq<View>, k: nat)
    requires k + 1 >= |views|
    ensures ViewAt(views, k + 1) == ViewAt(views, k)
  {
  }

  function Batches(views: seq<View>, n: nat): (r: seq<seq<TeamRecord>>)
    ensures |r| == n && forall j :: 0 <= j < n ==> r[j] == ViewAt(views, j).batch
  {
    seq(n, j requires 0 <= j < n => ViewAt(views, j).batch)
  }

  /** The collection is the merge of the scans' records, first to last. */
  lemma {:induction false} CollectedMergesAll(views: seq<View>, n: nat)
    ensures Collected(views, n) == MergeAll(Batches(views, n))
  {
    if n > 0 {
      CollectedMergesAll(views, n - 1);
      assert Batches(views, n)[..n - 1] == Batches(views, n - 1);
    }
  }

  /** The collection holds every scanned record's key, keeps keys unique, and holds only scanned records. */
  lemma CollectedCovers(views: seq<View>, n: nat, j: nat, t: TeamRecord)
    requires j < n
    ensures Keys(ViewAt(views, j).batch) <= Keys(Collected(views, n))
    ensures NoDuplicateKeys(Collected(views, n))
    ensures t in Collected(views, n) ==> exists i :: 0 <= i < n && t in ViewAt(views, i).batch
  {
    CollectedMergesAll(views, n);
    MergeAllCovers(Batches(views, n), j);
    if t in Collected(views, n) {
      MergeAllFromScans(Batches(views, n), t);
    }
  }
}

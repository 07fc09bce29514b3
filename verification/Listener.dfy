/**
 The listener's loops under the protocol of module Baseline: the compare-and-swap that only moves a baseline
 forward, the batch that leaves out what is stored, and the run that stops at the first failure worth retrying.
 */
module Listener {
  import opened Common

  // Where a baseline ends up after these raises, in any order.
  function Highest(baseline: nat, raises: seq<nat>): nat {
    if raises == [] then baseline else Max(Highest(baseline, raises[..|raises| - 1]), raises[|raises| - 1])
  }

  lemma {:induction false} HighestIsTheMaximum(baseline: nat, raises: seq<nat>)
    ensures Highest(baseline, raises) == baseline || Highest(baseline, raises) in raises
    ensures baseline <= Highest(baseline, raises)
    ensures forall r :: r in raises ==> r <= Highest(baseline, raises)
  {
    if raises != [] {
      HighestIsTheMaximum(baseline, raises[..|raises| - 1]);
      assert raises == raises[..|raises| - 1] + [raises[|raises| - 1]];
    }
  }

  class Mailbox {
    var lastHistoryID: nat

    constructor (baseline: nat)
      ensures lastHistoryID == baseline
    {
      lastHistoryID := baseline;
    }

    /**
     rivals are the raises other notifications make to the same field, each landing between this one's load and
     its swap. However many land, the field takes the highest of them all, and the answer is true exactly when
     this raise is the one that put it there.
     */
    method RaiseBaseline(historyID: nat, rivals: seq<nat>) returns (isRaised: bool, ghost landed: nat)
      modifies this
      ensures landed <= |rivals|
      ensures lastHistoryID == Highest(old(lastHistoryID), rivals[..landed] + [historyID])
      ensures isRaised <==> Highest(old(lastHistoryID), rivals[..landed]) < historyID
    {
      var next := 0;
      landed := 0;
      while true
        invariant 0 <= next == landed <= |rivals|
        invariant lastHistoryID == Highest(old(lastHistoryID), rivals[..landed])
        decreases |rivals| - next
      {
        var current := lastHistoryID;
        assert (rivals[..landed] + [historyID])[..landed] == rivals[..landed];
        if historyID <= current {
          return false, landed;
        }
        if next < |rivals| {
          // Another notification raises the field here.
          lastHistoryID := Max(lastHistoryID, rivals[next]);
          next := next + 1;
          landed := landed + 1;
          assert rivals[..landed][..landed - 1] == rivals[..landed - 1];
        }
        assert (rivals[..landed] + [historyID])[..landed] == rivals[..landed];
        if lastHistoryID == current {
          lastHistoryID := historyID;
          return true, landed;
        }
      }
    }
  }

  type Id = string

  ghost predicate Distinct(ids: seq<Id>) {
    forall i, j :: 0 <= i < j < |ids| ==> ids[i] != ids[j]
  }

  /**
   The ids not stored yet, each once and in the order they were listed: places says where each came from, its
   first mention in the list.
   */
  method NewMessages(ids: seq<Id>, stored: set<Id>) returns (unseen: seq<Id>, ghost places: seq<nat>)
    ensures Distinct(unseen)
    ensures forall id :: id in unseen <==> id in ids && id !in stored
    ensures |places| == |unseen|
    ensures forall k :: 0 <= k < |places| ==> places[k] < |ids| && ids[places[k]] == unseen[k]
                                              && unseen[k] !in ids[..places[k]]
    ensures forall k, l :: 0 <= k < l < |places| ==> places[k] < places[l]
  {
    unseen, places := [], [];
    var seen := stored;
    for n := 0 to |ids|
      invariant seen == stored + set id | id in ids[..n]
      invariant Distinct(unseen)
      invariant forall id :: id in unseen <==> id in ids[..n] && id !in stored
      invariant |places| == |unseen|
      invariant forall k :: 0 <= k < |places| ==> places[k] < n && ids[places[k]] == unseen[k]
                                                  && unseen[k] !in ids[..places[k]]
      invariant forall k, l :: 0 <= k < l < |places| ==> places[k] < places[l]
    {
      assert ids[..n + 1] == ids[..n] + [ids[n]];
      if ids[n] !in seen {
        seen := seen + {ids[n]};
        unseen, places := unseen + [ids[n]], places + [n];
      }
    }
    assert ids[..|ids|] == ids;
  }

  // Stored (or quarantined, or found stored), refused for good, or a failure that a retry may mend.
  datatype Ingested = Stored | Permanent | Trouble

  predicate IsFirstTrouble(ids: seq<Id>, stored: set<Id>, ingest: Id -> Ingested, n: int) {
    && 0 <= n < |ids| && ids[n] !in stored && ingest(ids[n]) == Trouble
    && forall m :: 0 <= m < n ==> ids[m] in stored || ingest(ids[m]) != Trouble
  }

  /**
   Stores the new ids in order. It succeeds exactly when none of them is trouble, having stored or recorded as
   skipped every one; otherwise it stops before the first trouble, with all those ahead of it dealt with.
   */
  method IngestEach(ids: seq<Id>, stored: set<Id>, ingest: Id -> Ingested)
    returns (isOk: bool, kept: set<Id>, skipped: set<Id>)
    ensures isOk <==> forall id :: id in ids && id !in stored ==> ingest(id) != Trouble
    ensures isOk ==> kept + skipped == (set id | id in ids && id !in stored)
    ensures forall id :: id in kept ==> id in ids && ingest(id) == Stored
    ensures forall id :: id in skipped ==> id in ids && ingest(id) == Permanent
    ensures kept !! stored && skipped !! stored
    ensures !isOk ==> exists n :: IsFirstTrouble(ids, stored, ingest, n)
                                  && kept + skipped == set id | id in ids[..n] && id !in stored
  {
    var unseen, places := NewMessages(ids, stored);
    kept, skipped := {}, {};
    for n := 0 to |unseen|
      invariant kept + skipped == set id | id in unseen[..n]
      invariant forall id :: id in unseen[..n] ==> ingest(id) != Trouble
      invariant forall id :: id in kept ==> id in ids && ingest(id) == Stored
      invariant forall id :: id in skipped ==> id in ids && ingest(id) == Permanent
    {
      assert unseen[..n + 1] == unseen[..n] + [unseen[n]];
      assert unseen[n] in unseen && unseen[n] in ids && unseen[n] !in stored;
      match ingest(unseen[n])
      case Stored => kept := kept + {unseen[n]};
      case Permanent => skipped := skipped + {unseen[n]};
      case Trouble => return false, kept, skipped;
    }
    assert unseen[..|unseen|] == unseen;
    isOk := true;
  }
}

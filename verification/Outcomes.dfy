/**
 What `replace` of client/output.go comes to, over every interleaving of its calls: what callers
 are told, and what is at the path.
 */
module Outcomes {
  import opened Renaming
  import opened Publishing

  // A call that fails after clearing the path was overtaken: a publish other than its own
  // came after the clearing.
  lemma FailureMeansOvertaken(s: State, c: Call, since: nat)
    requires Reachable(s) && c in s.calls && s.calls[c] == Finished(Overtaken(since))
    ensures since < |s.pubs|
    ensures forall i :: since <= i < |s.pubs| ==> s.pubs[i] != c && s.pubs[i] in s.calls
  {
    ReachableInv(s);
    assert Ended(s.calls[c], Overtaken(since));
    forall i | 0 <= i < |s.pubs| ensures s.pubs[i] != c && s.pubs[i] in s.calls {
      assert s.pubs[i] in s.pubs;
    }
  }

  // Publishes are exactly the calls that return nil, and a call gives up only past its deadline.
  lemma ResultsAreHonest(s: State, c: Call)
    requires Reachable(s) && c in s.calls && s.calls[c].Finished?
    ensures s.calls[c].result == Published <==> c in s.pubs
    ensures s.calls[c].result == GaveUp ==> c in s.locks.done
    ensures forall i, j :: 0 <= i < j < |s.pubs| ==> s.pubs[i] != s.pubs[j]
  {
    ReachableInv(s);
    assert Ended(s.calls[c], s.calls[c].result);
  }

  // The last to publish, if anyone did, is among the calls, and is over if all are.
  lemma LastToPublish(s: State)
    requires PubInv(s) && s.pubs != [] && forall c :: c in s.calls ==> s.calls[c].Finished?
    ensures var last := s.pubs[|s.pubs| - 1];
      last in s.calls && s.calls[last] == Finished(Published) && last in s.staged && s.staged[last] != Absent
    ensures Current(s) == s.staged[s.pubs[|s.pubs| - 1]]
  {
    assert s.pubs[|s.pubs| - 1] in s.pubs;
  }

  lemma RestIsCurrent(s: State)
    requires OutputInv(s) && forall c :: c in s.calls ==> s.calls[c].Finished?
    ensures s.output == Current(s)
  {
  }

  // Once every call is over the path holds what it held at first, or the whole staged tree of
  // a call that returned nil, the last to publish. It is absent only if it was and nobody did.
  lemma WholeTreesAtRest(s: State)
    requires Reachable(s) && forall c :: c in s.calls ==> s.calls[c].Finished?
    ensures s.pubs == [] ==> s.output == s.initial
    ensures s.pubs != [] ==>
      var last := s.pubs[|s.pubs| - 1];
      last in s.calls && s.calls[last] == Finished(Published) && last in s.staged && s.output == s.staged[last]
    ensures s.output == Absent ==> s.initial == Absent && forall c :: c in s.calls ==> s.calls[c].result != Published
  {
    ReachableInv(s);
    RestIsCurrent(s);
    forall c | c in s.calls && s.pubs == [] ensures s.calls[c].result != Published {
      assert c !in s.pubs;
    }
    if s.pubs != [] {
      hide Reachable, OutputInv, LockInv, FileInv, DeadlineInv;
      LastToPublish(s);
    }
  }

  // Mid-run too the path never shows anything but a whole tree, and is empty only while some
  // call is between clearing it and renaming onto it.
  lemma WholeTreesAlways(s: State)
    requires Reachable(s)
    ensures s.output == Absent || s.output == Current(s)
    ensures s.output == Absent && Current(s) != Absent ==>
      exists c :: c in s.calls && s.calls[c].ThirdTry? && Enabled(s, Rename(c, true)) && !Enabled(s, Rename(c, false))
  {
    ReachableInv(s);
    if s.output == Absent && Current(s) != Absent {
      var c :| c in s.calls && s.calls[c] == ThirdTry(|s.pubs|);
      assert Ours(s, c);
      hide *;
      BoundToSucceed(s, c);
    }
  }

  lemma BoundToSucceed(s: State, c: Call)
    requires Ours(s, c) && s.calls[c].ThirdTry? && s.output == Absent
    ensures Enabled(s, Rename(c, true)) && !Enabled(s, Rename(c, false))
  {
  }

  // When every download is a single file no call is ever overtaken, and with one spelling of
  // the place the lock leaves no gap: from the first publish on it is never empty again.
  lemma FilesLeaveNoGap(s: State)
    requires Reachable(s) && AllFiles(s)
    ensures forall c :: c in s.calls && s.calls[c].Finished? ==> !s.calls[c].result.Overtaken?
    ensures OneKey(s) && s.pubs != [] ==> s.output.File?
  {
    ReachableInv(s);
    forall c | c in s.calls && s.calls[c].Finished? ensures !s.calls[c].result.Overtaken? {
      assert !Failed(s.calls[c]);
    }
  }
}

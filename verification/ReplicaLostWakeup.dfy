/** A run of the reconcile protocol in which the promise that no entry is forgotten fails. */
module ReplicaLostWakeup {
  import opened Basics
  import opened ReplicaProtocol

  ghost predicate Reachable(s: State)
  {
    exists run :: IsRun(run) && run[|run| - 1] == s
  }

  lemma Reach(s: State, a: Action)
    requires Reachable(s) && Shape(s) && Enabled(s, a)
    ensures Reachable(Next(s, a))
  {
    var run :| IsRun(run) && run[|run| - 1] == s;
    var longer := run + [Next(s, a)];
    forall i: nat | i + 1 < |longer|
      ensures StepAt(longer, i)
    {
      if i < |run| - 1 {
        assert StepAt(run, i);
      }
    }
    assert IsRun(longer) && longer[|longer| - 1] == Next(s, a);
  }

  /** A replica is on the server when the controller starts. */
  lemma FirstDelivered(a: Replica)
    requires a.version == 1
    ensures Reachable(State([None, Some(a)], 1, 1, 1, NoFilter, Some(Unset), true, false, Idle, map[]))
  {
    var s0 := State([None, Some(a)], 1, 0, 0, NoFilter, None, true, false, Idle, map[]);
    assert IsRun([s0]) && [s0][0] == s0;
    Reach(s0, Sync);
    var s1 := Next(s0, Sync);
    Reach(s1, FilterLoad);
    var s2 := Next(s1, FilterLoad);
    Reach(s2, FilterEval);
  }

  /** It is unwanted ... */
  lemma UnwantedReachable(a: Replica)
    requires a.version == 1
    ensures Reachable(State([None, Some(a)], 1, 1, 1, NoFilter, Some(Unset), false, false, CleanLock(a), map[]))
  {
    FirstDelivered(a);
    var s0 := State([None, Some(a)], 1, 1, 1, NoFilter, Some(Unset), true, false, Idle, map[]);
    Reach(s0, Start(false));
    var s1 := Next(s0, Start(false));
    Reach(s1, Read);
    var s2 := Next(s1, Read);
    Reach(s2, CheckStale);
    var s3 := Next(s2, CheckStale);
    Reach(s3, Decide(Unwanted));
  }

  /** ... so the worker deletes it and leaves a tombstone. */
  lemma TombstoneReachable(a: Replica)
    requires a.version == 1
    ensures Reachable(State([None, Some(a), None], 1, 1, 1, NoFilter, Some(Deleted(1)), false, true, Idle, map[]))
  {
    UnwantedReachable(a);
    var s0 := State([None, Some(a)], 1, 1, 1, NoFilter, Some(Unset), false, false, CleanLock(a), map[]);
    Reach(s0, Lock);
    var s1 := Next(s0, Lock);
    Reach(s1, Call(Accepted(0)));
    var s2 := Next(s1, Call(Accepted(0)));
    assert s2.history == [None, Some(a), None];
    Reach(s2, Mark(true));
    var s3 := Next(s2, Mark(true));
    Reach(s3, Done);
  }

  /** Someone else creates the replica anew. */
  lemma RecreatedReachable(a: Replica, b: Replica)
    requires a.version == 1 && b.version == 2
    ensures Reachable(State([None, Some(a), None, Some(b)], 2, 3, 1, NoFilter, Some(Deleted(1)), false, true, Idle,
                            map[]))
  {
    TombstoneReachable(a);
    var s0 := State([None, Some(a), None], 1, 1, 1, NoFilter, Some(Deleted(1)), false, true, Idle, map[]);
    Reach(s0, OutsideWrite(2, b.body));
    var s1 := Next(s0, OutsideWrite(2, b.body));
    assert s1.history == [None, Some(a), None, Some(b)];
    Reach(s1, Sync);
    var s2 := Next(s1, Sync);
    Reach(s2, Sync);
  }

  /** The handler drops the old delete event and queues a reconcile for the new replica. */
  lemma RecreationDelivered(a: Replica, b: Replica)
    requires a.version == 1 && b.version == 2
    ensures Reachable(State([None, Some(a), None, Some(b)], 2, 3, 3, NoFilter, Some(Deleted(1)), true, true, Idle,
                            map[]))
  {
    RecreatedReachable(a, b);
    var s0 := State([None, Some(a), None, Some(b)], 2, 3, 1, NoFilter, Some(Deleted(1)), false, true, Idle, map[]);
    Reach(s0, FilterLoad);
    var s1 := Next(s0, FilterLoad);
    Reach(s1, FilterEval);
    var s2 := Next(s1, FilterEval);
    Reach(s2, FilterLoad);
    var s3 := Next(s2, FilterLoad);
    Reach(s3, FilterEval);
  }

  /** The worker reads the new replica; the tombstone names another version. */
  lemma RecreationRead(a: Replica, b: Replica)
    requires a.version == 1 && b.version == 2
    ensures Reachable(State([None, Some(a), None, Some(b)], 2, 3, 3, NoFilter, Some(Deleted(1)), false, false,
                            Deciding(Some(b), false), map[]))
  {
    RecreationDelivered(a, b);
    var s0 := State([None, Some(a), None, Some(b)], 2, 3, 3, NoFilter, Some(Deleted(1)), true, true, Idle, map[]);
    Reach(s0, Timer);
    var s1 := Next(s0, Timer);
    Reach(s1, Start(false));
    var s2 := Next(s1, Start(false));
    Reach(s2, Read);
    var s3 := Next(s2, Read);
    Reach(s3, CheckStale);
  }

  /** The new replica is what is wanted, but it is deleted again meanwhile. */
  lemma DeletedMeanwhile(a: Replica, b: Replica)
    requires a.version == 1 && b.version == 2
    ensures Reachable(State([None, Some(a), None, Some(b), None], 2, 4, 3, NoFilter, Some(Deleted(1)), false, false,
                            WriteLock(b, b.body), map[]))
  {
    RecreationRead(a, b);
    var s0 := State([None, Some(a), None, Some(b)], 2, 3, 3, NoFilter, Some(Deleted(1)), false, false,
                    Deciding(Some(b), false), map[]);
    Reach(s0, Decide(Wanted(b.body)));
    var s1 := Next(s0, Decide(Wanted(b.body)));
    Reach(s1, OutsideDelete);
    var s2 := Next(s1, OutsideDelete);
    assert s2.history == [None, Some(a), None, Some(b), None];
    Reach(s2, Sync);
  }

  /** The delete event is dropped because of the old tombstone. */
  lemma DeleteDropped(a: Replica, b: Replica)
    requires a.version == 1 && b.version == 2
    ensures Reachable(State([None, Some(a), None, Some(b), None], 2, 4, 4, NoFilter, Some(Deleted(1)), false, false,
                            WriteLock(b, b.body), map[]))
  {
    DeletedMeanwhile(a, b);
    var s0 := State([None, Some(a), None, Some(b), None], 2, 4, 3, NoFilter, Some(Deleted(1)), false, false,
                    WriteLock(b, b.body), map[]);
    Reach(s0, FilterLoad);
    var s1 := Next(s0, FilterLoad);
    Reach(s1, FilterEval);
  }

  /** The worker records version 2 over the tombstone. */
  lemma VersionRecorded(a: Replica, b: Replica)
    requires a.version == 1 && b.version == 2
    ensures Reachable(State([None, Some(a), None, Some(b), None], 2, 4, 4, NoFilter, Some(Wrote(2)), false, false,
                            Idle, map[2 := b.body]))
  {
    DeleteDropped(a, b);
    var s0 := State([None, Some(a), None, Some(b), None], 2, 4, 4, NoFilter, Some(Deleted(1)), false, false,
                    WriteLock(b, b.body), map[]);
    Reach(s0, Lock);
    var s1 := Next(s0, Lock);
    Reach(s1, Call(Refused));
    var s2 := Next(s1, Call(Refused));
    Reach(s2, Mark(false));
    var s3 := Next(s2, Mark(false));
    Reach(s3, Done);
  }

  /** The replica is gone, its entry is still tracked, and no reconcile is coming: the promise fails. */
  lemma ForgottenIsReachable(a: Replica, b: Replica)
    requires a.version == 1 && b.version == 2
    ensures exists s :: Reachable(s) && !NotForgotten(s)
  {
    VersionRecorded(a, b);
    var s := State([None, Some(a), None, Some(b), None], 2, 4, 4, NoFilter, Some(Wrote(2)), false, false, Idle,
                   map[2 := b.body]);
    assert Reachable(s) && !NotForgotten(s);
  }
}

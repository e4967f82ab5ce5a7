/** What `everyEvent` mode guarantees over whole runs of reconciles under a clock that never goes back. */
module EveryEventRuns {
  import opened Basics
  import opened GoTime
  import opened EveryEvent

  /** One reconcile: its clock reading, the later reading taken when the job has been created, the
      noncompliant clusters, and whether the job can be created. */
  datatype Tick = Tick(now: int, started: int, bad: set<Cluster>, jobOk: bool)

  ghost predicate Ordered(ticks: seq<Tick>)
  {
    && (forall i :: 0 <= i < |ticks| ==> ticks[i].now <= ticks[i].started)
    && (forall i, j :: 0 <= i < j < |ticks| ==> ticks[i].started <= ticks[j].now)
  }

  predicate Fails(events: Events, t: Tick, delay: nat)
  {
    Targets(events, t.bad, delay, t.now) != {} && !t.jobOk
  }

  function After(events: Events, t: Tick, delay: nat): Events
  {
    if Fails(events, t, delay) then events else Updated(events, t.bad, delay, t.now, t.started)
  }

  /** The recorded events before reconcile `i`. */
  function Before(initial: Events, ticks: seq<Tick>, delay: nat, i: nat): Events
    requires i <= |ticks|
  {
    if i == 0 then initial else After(Before(initial, ticks, delay, i - 1), ticks[i - 1], delay)
  }

  /** The clusters of the job that reconcile `i` creates; none when it creates no job. */
  function Job(initial: Events, ticks: seq<Tick>, delay: nat, i: nat): set<Cluster>
    requires i < |ticks|
  {
    var events := Before(initial, ticks, delay, i);
    if Fails(events, ticks[i], delay) then {} else Targets(events, ticks[i].bad, delay, ticks[i].now)
  }

  predicate Fits(delay: nat)
  {
    delay * SECOND <= MAX_INT64
  }

  /******* The delay is respected *******/

  /** Either the cluster's last job started no earlier than `start`, or the delay after `start` is over. */
  predicate Guarded(events: Events, c: Cluster, start: int, delay: nat, clock: int)
  {
    || (c in events && events[c].start.At? && events[c].seen.At? && events[c].start.seconds >= start)
    || clock >= start * SECOND + delay * SECOND
  }

  lemma TickGuards(events: Events, t: Tick, delay: nat, c: Cluster, start: int, clock: int)
    requires delay > 0 && Fits(delay) && clock <= t.now <= t.started && start * SECOND <= clock
    requires Guarded(events, c, start, delay, clock)
    ensures Guarded(After(events, t, delay), c, start, delay, t.started)
    ensures c in Targets(events, t.bad, delay, t.now) ==> t.now >= start * SECOND + delay * SECOND
  {
    if c in events && events[c].start.At? && events[c].seen.At? && events[c].start.seconds >= start {
      assert DelayUntil(events[c], delay) == events[c].start.seconds * SECOND + delay * SECOND;
      if c in Targets(events, t.bad, delay, t.now) {
        assert Judge(events[c], true, delay, t.now).kept.None?;
        assert t.now > DelayUntil(events[c], delay);
      }
    }
  }

  lemma JobGuards(events: Events, t: Tick, delay: nat, c: Cluster)
    requires !Fails(events, t, delay) && c in Targets(events, t.bad, delay, t.now)
    ensures Guarded(After(events, t, delay), c, Format(t.started).seconds, delay, t.started)
  {
    assert c in After(events, t, delay);
  }

  lemma {:induction false} StaysGuarded(initial: Events, ticks: seq<Tick>, delay: nat, i: nat, j: nat, c: Cluster)
    requires delay > 0 && Fits(delay) && Ordered(ticks) && i < j <= |ticks|
    requires c in Job(initial, ticks, delay, i)
    ensures Guarded(Before(initial, ticks, delay, j), c, Format(ticks[i].started).seconds, delay,
                    ticks[j - 1].started)
    decreases j
  {
    var start := Format(ticks[i].started).seconds;
    if j == i + 1 {
      JobGuards(Before(initial, ticks, delay, i), ticks[i], delay, c);
    } else {
      StaysGuarded(initial, ticks, delay, i, j - 1, c);
      assert ticks[i].started <= ticks[j - 2].started by {
        assert i == j - 2 || ticks[i].started <= ticks[j - 2].now;
      }
      TickGuards(Before(initial, ticks, delay, j - 1), ticks[j - 1], delay, c, start, ticks[j - 2].started);
    }
  }

  /** A later job for the same cluster starts no sooner than the delay after the recorded start. */
  lemma DelayIsRespected(initial: Events, ticks: seq<Tick>, delay: nat, i: nat, j: nat, c: Cluster)
    requires delay > 0 && Fits(delay) && Ordered(ticks) && i < j < |ticks|
    requires c in Job(initial, ticks, delay, i) && c in Job(initial, ticks, delay, j)
    ensures ticks[j].now >= Parse(Format(ticks[i].started)) + delay * SECOND
  {
    StaysGuarded(initial, ticks, delay, i, j, c);
    assert ticks[i].started <= ticks[j - 1].started by {
      assert i == j - 1 || ticks[i].started <= ticks[j - 1].now;
    }
    TickGuards(Before(initial, ticks, delay, j), ticks[j], delay, c, Format(ticks[i].started).seconds,
               ticks[j - 1].started);
  }

  /** Two jobs for the cluster are at least the delay apart. */
  predicate Spaced(initial: Events, ticks: seq<Tick>, delay: nat, i: nat, j: nat, c: Cluster)
    requires i < j < |ticks|
  {
    c in Job(initial, ticks, delay, i) && c in Job(initial, ticks, delay, j) ==>
      ticks[j].now >= Parse(Format(ticks[i].started)) + delay * SECOND
  }

  ghost predicate DelayHonoured(delay: nat)
  {
    forall initial, ticks, i: nat, j: nat, c ::
      Ordered(ticks) && i < j < |ticks| ==> Spaced(initial, ticks, delay, i, j, c)
  }

  /** A violation, its end when the wrapped delay has passed, and a new violation at once. */
  function EarlyRun(delay: nat): seq<Tick>
  {
    var early := if DelayOf(delay) > 0 then DelayOf(delay) else 0;
    [Tick(0, 0, {"c"}, true), Tick(early, early, {}, true), Tick(early, early, {"c"}, true)]
  }

  lemma EarlyRunIsEarly(delay: nat)
    requires delay > 0 && !Fits(delay)
    ensures Ordered(EarlyRun(delay)) && !Spaced(map[], EarlyRun(delay), delay, 0, 2, "c")
  {
    var ticks := EarlyRun(delay);
    var e0, e1 := Before(map[], ticks, delay, 0), Before(map[], ticks, delay, 1);
    assert "c" in Targets(e0, {"c"}, delay, 0);
    assert e1 == Updated(e0, {"c"}, delay, 0, 0) && e1.Keys == {"c"} && e1["c"] == Event(Format(0), Format(0));
    assert Judge(e1["c"], false, delay, ticks[1].now).kept.None?;
    var e2 := Before(map[], ticks, delay, 2);
    assert e2 == map[];
    assert "c" in Targets(e2, {"c"}, delay, ticks[2].now);
  }

  /** The delay is honoured on every run exactly when it fits in an int64 of nanoseconds. */
  lemma DelayHonouredExactly(delay: nat)
    requires delay > 0
    ensures DelayHonoured(delay) <==> Fits(delay)
  {
    if Fits(delay) {
      forall initial, ticks, i: nat, j: nat, c | Ordered(ticks) && i < j < |ticks|
        ensures Spaced(initial, ticks, delay, i, j, c)
      {
        if c in Job(initial, ticks, delay, i) && c in Job(initial, ticks, delay, j) {
          DelayIsRespected(initial, ticks, delay, i, j, c);
        }
      }
    } else {
      EarlyRunIsEarly(delay);
    }
  }

  /******* One job per violation *******/

  /** The cluster has not been seen compliant since its last job. */
  predicate Unbroken(events: Events, c: Cluster)
  {
    c in events && events[c].start.At? && events[c].seen.At? && events[c].seen.seconds <= events[c].start.seconds
  }

  lemma TickUnbroken(events: Events, t: Tick, delay: nat, c: Cluster)
    requires Unbroken(events, c) && c in t.bad
    ensures c !in Targets(events, t.bad, delay, t.now) && Unbroken(After(events, t, delay), c)
  {
    assert Judge(events[c], true, delay, t.now).kept == Some(events[c]);
    assert c in Survivors(events, t.bad, delay, t.now);
  }

  lemma FormatMonotone(t: int, u: int)
    requires t <= u
    ensures Format(t).seconds <= Format(u).seconds
  {
  }

  lemma {:induction false} StaysUnbroken(initial: Events, ticks: seq<Tick>, delay: nat, i: nat, j: nat, c: Cluster)
    requires Ordered(ticks) && i < j <= |ticks| && c in Job(initial, ticks, delay, i)
    requires forall k :: i < k < j ==> c in ticks[k].bad
    ensures Unbroken(Before(initial, ticks, delay, j), c)
    decreases j
  {
    if j == i + 1 {
      FormatMonotone(ticks[i].now, ticks[i].started);
      assert c in Before(initial, ticks, delay, j);
    } else {
      StaysUnbroken(initial, ticks, delay, i, j - 1, c);
      TickUnbroken(Before(initial, ticks, delay, j - 1), ticks[j - 1], delay, c);
    }
  }

  /** A cluster that stays noncompliant at every reconcile after its job is in no further job,
      whatever the delay. */
  lemma OneJobPerViolation(initial: Events, ticks: seq<Tick>, delay: nat, i: nat, j: nat, c: Cluster)
    requires Ordered(ticks) && i < j < |ticks| && c in Job(initial, ticks, delay, i)
    requires forall k :: i < k <= j ==> c in ticks[k].bad
    ensures c !in Job(initial, ticks, delay, j)
  {
    StaysUnbroken(initial, ticks, delay, i, j, c);
    TickUnbroken(Before(initial, ticks, delay, j), ticks[j], delay, c);
  }

  /******* The requeue *******/

  /** Every recorded time was written by a reconcile no later than `clock`. */
  ghost predicate Recorded(events: Events, clock: int)
  {
    forall c :: c in events ==>
      && events[c].start.At? && events[c].start.seconds <= Format(clock).seconds
      && events[c].seen.At? && events[c].seen.seconds <= Format(clock).seconds
  }

  lemma TickRecords(events: Events, t: Tick, delay: nat, clock: int)
    requires Recorded(events, clock) && clock <= t.now <= t.started
    ensures Recorded(After(events, t, delay), t.started)
  {
    FormatMonotone(clock, t.now);
    FormatMonotone(t.now, t.started);
    var after := After(events, t, delay);
    forall c | c in after
      ensures after[c].start.At? && after[c].start.seconds <= Format(t.started).seconds
      ensures after[c].seen.At? && after[c].seen.seconds <= Format(t.started).seconds
    {
      if !Fails(events, t, delay) && c !in Targets(events, t.bad, delay, t.now) {
        assert Judge(events[c], c in t.bad, delay, t.now).kept == Some(after[c]);
      }
    }
  }

  lemma {:induction false} RunRecords(initial: Events, ticks: seq<Tick>, delay: nat, i: nat)
    requires Ordered(ticks) && i < |ticks| && Recorded(initial, ticks[0].now)
    ensures Recorded(Before(initial, ticks, delay, i), ticks[i].now)
  {
    if i > 0 {
      RunRecords(initial, ticks, delay, i - 1);
      TickRecords(Before(initial, ticks, delay, i - 1), ticks[i - 1], delay, ticks[i - 1].now);
      FormatMonotone(ticks[i - 1].started, ticks[i].now);
    }
  }

  /** A wait is the rest of the delay plus one nanosecond. */
  lemma WaitIsRestOfDelay(events: Events, t: Tick, delay: nat, c: Cluster)
    requires Fits(delay) && Recorded(events, t.now) && c in Waiting(events, t.bad, delay, t.now)
    ensures WaitOf(events, t.bad, delay, t.now, c) ==
            events[c].start.seconds * SECOND + delay * SECOND - t.now + 1
    ensures WaitOf(events, t.bad, delay, t.now, c) >= 1
  {
    assert delay * SECOND + 1 <= MAX_INT64 by {
      assert MAX_INT64 % SECOND != 0;
    }
  }

  /** At the requeued time, the cluster whose wait was the least is in the next job, if it is still
      noncompliant and was not reconciled meanwhile. */
  lemma RequeueIsInTime(initial: Events, ticks: seq<Tick>, delay: nat, i: nat, requeue: int, c: Cluster)
    requires Ordered(ticks) && i + 1 < |ticks| && Fits(delay) && Recorded(initial, ticks[0].now)
    requires var events := Before(initial, ticks, delay, i);
             && !Fails(events, ticks[i], delay)
             && IsRequeue(events, ticks[i].bad, delay, ticks[i].now, Some(requeue))
             && c in Waiting(events, ticks[i].bad, delay, ticks[i].now)
             && WaitOf(events, ticks[i].bad, delay, ticks[i].now, c) == requeue
    requires ticks[i + 1].now >= ticks[i].now + requeue && c in ticks[i + 1].bad && ticks[i + 1].jobOk
    ensures requeue >= 1
    ensures c in Job(initial, ticks, delay, i + 1)
  {
    var events := Before(initial, ticks, delay, i);
    var t, u := ticks[i], ticks[i + 1];
    RunRecords(initial, ticks, delay, i);
    WaitIsRestOfDelay(events, t, delay, c);
    var e := events[c];
    var touched := e.(seen := Format(t.now));
    assert Judge(e, true, delay, t.now).kept == Some(touched);
    assert c in Survivors(events, t.bad, delay, t.now) && c !in Targets(events, t.bad, delay, t.now);
    var next := Before(initial, ticks, delay, i + 1);
    assert c in next && next[c] == touched;
    assert touched.seen.seconds > touched.start.seconds;
    assert DelayUntil(touched, delay) < u.now;
    assert Judge(touched, true, delay, u.now).kept.None?;
  }

  /******* What one reconcile does *******/

  /** The cluster was seen compliant after its recorded job. */
  predicate SeenCompliant(events: Events, c: Cluster)
  {
    c in events && events[c].seen.At? && events[c].start.At? && events[c].seen.seconds > events[c].start.seconds
  }

  /** A job targets exactly the noncompliant clusters that have no event, or that came back after theirs and
      whose delay is over. */
  lemma TargetsExactly(events: Events, t: Tick, delay: nat, c: Cluster)
    requires delay > 0 && Fits(delay) && Recorded(events, t.now)
    ensures c in Targets(events, t.bad, delay, t.now) <==>
            && c in t.bad
            && (c !in events ||
                (SeenCompliant(events, c) && t.now > events[c].start.seconds * SECOND + delay * SECOND))
  {
    if c in events {
      assert DelayUntil(events[c], delay) == events[c].start.seconds * SECOND + delay * SECOND;
      assert c in Survivors(events, t.bad, delay, t.now) <==>
             Judge(events[c], c in t.bad, delay, t.now).kept.Some?;
    }
  }

  /** Exactly the noncompliant clusters that came back within their delay wait for its end. */
  lemma WaitsExactly(events: Events, t: Tick, delay: nat, c: Cluster)
    requires delay > 0 && Fits(delay) && Recorded(events, t.now)
    ensures c in Waiting(events, t.bad, delay, t.now) <==>
            && c in t.bad && SeenCompliant(events, c)
            && t.now <= events[c].start.seconds * SECOND + delay * SECOND
  {
  }

  /** What is recorded afterwards: the noncompliant clusters, and the compliant ones within their delay. A
      cluster of the new job gets its start; any other keeps its start, and is seen now if it is compliant or
      came back before. */
  lemma RecordedExactly(events: Events, t: Tick, delay: nat, c: Cluster)
    requires delay > 0 && Fits(delay) && Recorded(events, t.now) && !Fails(events, t, delay)
    ensures var after := After(events, t, delay);
            && (c in after <==>
                c in t.bad || (c in events && t.now < events[c].start.seconds * SECOND + delay * SECOND))
            && (c in after ==>
                  if c in Targets(events, t.bad, delay, t.now) then
                    after[c] == Event(At(t.started / SECOND), At(t.now / SECOND))
                  else
                    && c in events && after[c].start == events[c].start
                    && after[c].seen ==
                       if c !in t.bad || SeenCompliant(events, c) then At(t.now / SECOND) else events[c].seen)
  {
    TargetsExactly(events, t, delay, c);
    if c in events {
      var fate := Judge(events[c], c in t.bad, delay, t.now);
      assert DelayUntil(events[c], delay) == events[c].start.seconds * SECOND + delay * SECOND;
      assert c in Survivors(events, t.bad, delay, t.now) <==> fate.kept.Some?;
    }
  }

  /** An event that cannot be read does not keep a noncompliant cluster from a new job. */
  lemma UnreadableIsReplaced(events: Events, t: Tick, delay: nat, c: Cluster)
    requires Fits(delay) && c in events && c in t.bad && t.now > ZERO_TIME + delay * SECOND
    requires || events[c].start.Unparsable?
             || (events[c].seen.Unparsable? && events[c].start.seconds * SECOND >= ZERO_TIME)
    ensures c in Targets(events, t.bad, delay, t.now)
  {
    assert Judge(events[c], true, delay, t.now).kept.None?;
  }

  /******* A second job comes *******/

  /** What is known of the cluster while no further job has come: its event, if it still has one, is that of
      the job that started in second `start`, and after it was seen compliant the event says so. */
  predicate Follows(events: Events, c: Cluster, start: int, seenCompliant: bool)
  {
    c in events ==>
      events[c].start == At(start) && events[c].seen.At? && (seenCompliant ==> events[c].seen.seconds > start)
  }

  lemma TickFollows(events: Events, t: Tick, delay: nat, c: Cluster, start: int, back: bool)
    requires delay > 0 && Fits(delay) && Recorded(events, t.now) && Follows(events, c, start, back)
    requires c !in Targets(events, t.bad, delay, t.now) || Fails(events, t, delay)
    requires back ==> Format(t.now).seconds > start
    ensures Follows(After(events, t, delay), c, start, back)
  {
    if !Fails(events, t, delay) {
      RecordedExactly(events, t, delay, c);
    }
  }

  /** The reconcile that sees the cluster compliant. */
  lemma CompliantTick(events: Events, t: Tick, delay: nat, c: Cluster, start: int)
    requires delay > 0 && Fits(delay) && Recorded(events, t.now) && Follows(events, c, start, false)
    requires c !in t.bad && !Fails(events, t, delay) && Format(t.now).seconds > start
    ensures Follows(After(events, t, delay), c, start, true)
  {
    RecordedExactly(events, t, delay, c);
  }

  /** No job for the cluster strictly between two reconciles. */
  ghost predicate NoJobBetween(initial: Events, ticks: seq<Tick>, delay: nat, i: nat, j: nat, c: Cluster)
    requires j <= |ticks|
  {
    forall m :: i < m < j ==> c !in Job(initial, ticks, delay, m)
  }

  lemma {:induction false} KeepsFollowing(initial: Events, ticks: seq<Tick>, delay: nat, i: nat, k: nat, j: nat,
                                          c: Cluster)
    requires i < k && i < j <= |ticks| && k < |ticks| && c in Job(initial, ticks, delay, i)
    requires delay > 0 && Fits(delay) && Ordered(ticks) && Recorded(initial, ticks[0].now)
    requires c !in ticks[k].bad && !Fails(Before(initial, ticks, delay, k), ticks[k], delay)
    requires Format(ticks[k].now).seconds > Format(ticks[i].started).seconds
    requires NoJobBetween(initial, ticks, delay, i, j, c)
    ensures Follows(Before(initial, ticks, delay, j), c, Format(ticks[i].started).seconds, k < j)
    decreases j
  {
    var start := Format(ticks[i].started).seconds;
    if j > i + 1 {
      var before, t := Before(initial, ticks, delay, j - 1), ticks[j - 1];
      KeepsFollowing(initial, ticks, delay, i, k, j - 1, c);
      RunRecords(initial, ticks, delay, j - 1);
      if k == j - 1 {
        CompliantTick(before, t, delay, c, start);
      } else {
        if k < j - 1 {
          assert ticks[k].now <= ticks[k].started <= t.now;
          FormatMonotone(ticks[k].now, t.now);
        }
        assert c !in Job(initial, ticks, delay, j - 1);
        TickFollows(before, t, delay, c, start, k < j - 1);
      }
    } else {
      RunRecords(initial, ticks, delay, i);
      RecordedExactly(Before(initial, ticks, delay, i), ticks[i], delay, c);
    }
  }

  /** A cluster that was seen compliant after its job and is noncompliant when the delay is over has been in
      a further job by then. */
  lemma SecondJobComes(initial: Events, ticks: seq<Tick>, delay: nat, i: nat, k: nat, j: nat, c: Cluster)
    requires i < k < j < |ticks| && c in Job(initial, ticks, delay, i)
    requires delay > 0 && Fits(delay) && Ordered(ticks) && Recorded(initial, ticks[0].now)
    requires c !in ticks[k].bad && !Fails(Before(initial, ticks, delay, k), ticks[k], delay)
    requires Format(ticks[k].now).seconds > Format(ticks[i].started).seconds
    requires c in ticks[j].bad && ticks[j].jobOk
    requires ticks[j].now > Parse(Format(ticks[i].started)) + delay * SECOND
    ensures exists m :: i < m <= j && c in Job(initial, ticks, delay, m)
  {
    if NoJobBetween(initial, ticks, delay, i, j, c) {
      KeepsFollowing(initial, ticks, delay, i, k, j, c);
      RunRecords(initial, ticks, delay, j);
      TargetsExactly(Before(initial, ticks, delay, j), ticks[j], delay, c);
      assert c in Job(initial, ticks, delay, j);
    }
  }

  /** If it is noncompliant again before the delay is over, it waits, and the requeue is no later than the
      end of the delay plus one nanosecond. */
  lemma ReturnIsRequeued(initial: Events, ticks: seq<Tick>, delay: nat, i: nat, k: nat, j: nat, c: Cluster,
                         requeue: Option<int>)
    requires i < k < j < |ticks| && c in Job(initial, ticks, delay, i)
    requires delay > 0 && Fits(delay) && Ordered(ticks) && Recorded(initial, ticks[0].now)
    requires c !in ticks[k].bad && !Fails(Before(initial, ticks, delay, k), ticks[k], delay)
    requires Format(ticks[k].now).seconds > Format(ticks[i].started).seconds
    requires c in ticks[j].bad && ticks[j].now < Parse(Format(ticks[i].started)) + delay * SECOND
    requires IsRequeue(Before(initial, ticks, delay, j), ticks[j].bad, delay, ticks[j].now, requeue)
    ensures requeue.Some?
    ensures ticks[j].now + requeue.value <= Parse(Format(ticks[i].started)) + delay * SECOND + 1
  {
    var events := Before(initial, ticks, delay, j);
    NoEarlyJob(initial, ticks, delay, i, j, c);
    KeepsFollowing(initial, ticks, delay, i, k, j, c);
    StillRecorded(initial, ticks, delay, i, j, c);
    RunRecords(initial, ticks, delay, j);
    WaitsExactly(events, ticks[j], delay, c);
    WaitIsRestOfDelay(events, ticks[j], delay, c);
  }

  lemma NoEarlyJob(initial: Events, ticks: seq<Tick>, delay: nat, i: nat, j: nat, c: Cluster)
    requires delay > 0 && Fits(delay) && Ordered(ticks) && i < j < |ticks| && c in Job(initial, ticks, delay, i)
    requires ticks[j].now < Parse(Format(ticks[i].started)) + delay * SECOND
    ensures NoJobBetween(initial, ticks, delay, i, j, c)
  {
    forall m | i < m < j
      ensures c !in Job(initial, ticks, delay, m)
    {
      assert ticks[m].now <= ticks[m].started <= ticks[j].now;
      if c in Job(initial, ticks, delay, m) {
        DelayIsRespected(initial, ticks, delay, i, m, c);
      }
    }
  }

  lemma StillRecorded(initial: Events, ticks: seq<Tick>, delay: nat, i: nat, j: nat, c: Cluster)
    requires delay > 0 && Fits(delay) && Ordered(ticks) && i < j < |ticks| && c in Job(initial, ticks, delay, i)
    requires ticks[j].now < Parse(Format(ticks[i].started)) + delay * SECOND
    ensures c in Before(initial, ticks, delay, j)
  {
    StaysGuarded(initial, ticks, delay, i, j, c);
    assert ticks[j - 1].started <= ticks[j].now;
  }

  /******* Without a delay *******/

  /** With no delay, what is recorded after a reconcile is exactly the noncompliant clusters. */
  lemma NoDelayKeys(events: Events, t: Tick)
    requires !Fails(events, t, 0)
    ensures After(events, t, 0).Keys == t.bad
  {
    forall c | c in events
      ensures c in Survivors(events, t.bad, 0, t.now) ==> c in t.bad
    {
      assert Judge(events[c], false, 0, t.now).kept.None?;
    }
  }

  lemma NoDelayTargets(events: Events, t: Tick, clock: int)
    requires Recorded(events, clock)
    ensures Targets(events, t.bad, 0, t.now) == t.bad - events.Keys
  {
    forall c | c in events && c in t.bad
      ensures c in Survivors(events, t.bad, 0, t.now)
    {
      assert Judge(events[c], true, 0, t.now).kept == Some(events[c]);
    }
  }

  /** The noncompliant clusters at the last reconcile before `i` that did not fail for want of a job. */
  function LastSeen(initial: set<Cluster>, ticks: seq<Tick>, i: nat): set<Cluster>
    requires i <= |ticks|
  {
    if i == 0 then initial
    else
      var was, t := LastSeen(initial, ticks, i - 1), ticks[i - 1];
      if t.bad - was != {} && !t.jobOk then was else t.bad
  }

  /** With no delay, jobs are exactly the rising edges of noncompliance between reconciles that did not
      fail; a failed one leaves what was recorded, and so its edge, to the next. */
  lemma {:induction false} JobsAreRisingEdges(initial: Events, ticks: seq<Tick>, i: nat)
    requires Ordered(ticks) && i < |ticks| && Recorded(initial, ticks[0].now)
    ensures Before(initial, ticks, 0, i).Keys == LastSeen(initial.Keys, ticks, i)
    ensures Job(initial, ticks, 0, i) ==
            if ticks[i].jobOk then ticks[i].bad - LastSeen(initial.Keys, ticks, i) else {}
  {
    if i > 0 {
      var before := Before(initial, ticks, 0, i - 1);
      JobsAreRisingEdges(initial, ticks, i - 1);
      RunRecords(initial, ticks, 0, i - 1);
      NoDelayTargets(before, ticks[i - 1], ticks[i - 1].now);
      if !Fails(before, ticks[i - 1], 0) {
        NoDelayKeys(before, ticks[i - 1]);
      }
    }
    RunRecords(initial, ticks, 0, i);
    NoDelayTargets(Before(initial, ticks, 0, i), ticks[i], ticks[i].now);
  }
}

/**
The `everyEvent` mode of a PolicyAutomation (controllers/automation/policyautomation_controller.go,
lines 256-381): a job is started for the clusters that became noncompliant, and a cluster's next job
waits until the delay after its last one has passed.
*/
module EveryEvent {
  import opened Basics
  import opened GoTime

  type Cluster = string

  /** A ClusterEvent: AutomationStartTime and EventTime. */
  datatype Event = Event(start: Stamp, seen: Stamp)

  type Events = map<Cluster, Event>

  /** What becomes of one recorded event: the event that is kept, if any, and how long its cluster
      waits for the end of the delay, if it does. */
  datatype Fate = Fate(kept: Option<Event>, wait: Option<int>)

  /** time.Duration(delayAfterRunSeconds) * time.Second */
  function DelayOf(delay: nat): int
  {
    Wrap64(delay * SECOND)
  }

  function DelayUntil(e: Event, delay: nat): int
  {
    Parse(e.start) + DelayOf(delay)
  }

  function Parsed(e: Event): Option<Event>
  {
    if e.start.Unparsable? || e.seen.Unparsable? then None else Some(e)
  }

  /** The cluster was seen compliant after its last job started. */
  predicate CameBack(e: Event, delay: nat)
  {
    delay > 0 && Parse(e.seen) > Parse(e.start)
  }

  function Judge(e: Event, noncompliant: bool, delay: nat, now: int): Fate
  {
    var until := DelayUntil(e, delay);
    var touched := e.(seen := Format(now));
    if noncompliant then
      if !CameBack(e, delay) then Fate(Parsed(e), None)
      else if now > until then Fate(None, None)
      else Fate(Some(touched), Some(Wrap64(Sub(until, now) + 1)))
    else if delay > 0 && now < until then Fate(Some(touched), None)
    else Fate(None, None)
  }

  /******* One reconcile, as a function *******/

  function Survivors(events: Events, bad: set<Cluster>, delay: nat, now: int): Events
  {
    map c | c in events && Judge(events[c], c in bad, delay, now).kept.Some? ::
      Judge(events[c], c in bad, delay, now).kept.value
  }

  /** The clusters the new job targets. */
  function Targets(events: Events, bad: set<Cluster>, delay: nat, now: int): set<Cluster>
  {
    set c | c in bad && c !in Survivors(events, bad, delay, now)
  }

  /** The status written when the job was started at `started`. */
  function Updated(events: Events, bad: set<Cluster>, delay: nat, now: int, started: int): Events
  {
    Survivors(events, bad, delay, now) +
    map c | c in Targets(events, bad, delay, now) :: Event(Format(started), Format(now))
  }

  /** Clusters that wait for the end of their delay. */
  function Waiting(events: Events, bad: set<Cluster>, delay: nat, now: int): set<Cluster>
  {
    set c | c in events && Judge(events[c], c in bad, delay, now).wait.Some?
  }

  function WaitOf(events: Events, bad: set<Cluster>, delay: nat, now: int, c: Cluster): int
    requires c in Waiting(events, bad, delay, now)
  {
    Judge(events[c], c in bad, delay, now).wait.value
  }

  /** The requeue is the least wait. */
  ghost predicate IsRequeue(events: Events, bad: set<Cluster>, delay: nat, now: int, requeue: Option<int>)
  {
    match requeue
    case None => Waiting(events, bad, delay, now) == {}
    case Some(r) =>
      && (exists c :: c in Waiting(events, bad, delay, now) && WaitOf(events, bad, delay, now, c) == r)
      && (forall c :: c in Waiting(events, bad, delay, now) ==> r <= WaitOf(events, bad, delay, now, c))
  }

  /** A wait is never the value that stands for "no wait recorded yet". */
  lemma WaitIsNotSentinel(e: Event, bad: bool, delay: nat, now: int)
    requires Judge(e, bad, delay, now).wait.Some?
    ensures Judge(e, bad, delay, now).wait.value != 0
  {
    var gap := Sub(DelayUntil(e, delay), now);
    assert 1 <= gap + 1 <= MAX_INT64 + 1;
    if gap == MAX_INT64 {
      assert Wrap64(gap + 1) == MIN_INT64 by {
        assert gap + 1 - MIN_INT64 == TWO_64;
      }
    }
  }

  /** getTargetListMap */
  function Members(list: seq<Cluster>): set<Cluster>
  {
    set c | c in list
  }

  /******* One reconcile, as the controller runs it *******/

  class Automation {
    var clustersWithEvent: Events

    constructor (initial: Events)
      ensures clustersWithEvent == initial
    {
      clustersWithEvent := initial;
    }

    /** The first loop, over the event map in any order. */
    method JudgeAll(bad: set<Cluster>, delay: nat, now: int)
      returns (kept: Events, trimmed: set<Cluster>, requeue: Option<int>)
      ensures kept == Survivors(clustersWithEvent, bad, delay, now)
      ensures trimmed <= Targets(clustersWithEvent, bad, delay, now)
      ensures IsRequeue(clustersWithEvent, bad, delay, now, requeue)
    {
      var events := clustersWithEvent;
      var todo := events.Keys;
      kept := events;
      trimmed := {};
      var requeueFlag, requeueDuration := false, 0;
      while todo != {}
        invariant todo <= events.Keys
        invariant forall c :: c in events && c in todo ==> c in kept && kept[c] == events[c]
        invariant forall c :: c in events && c !in todo ==>
                    (c in kept <==> Judge(events[c], c in bad, delay, now).kept.Some?)
        invariant forall c :: c in events && c !in todo && c in kept ==>
                    kept[c] == Judge(events[c], c in bad, delay, now).kept.value
        invariant kept.Keys <= events.Keys
        invariant forall c :: c in trimmed ==> c in bad && c in events && c !in todo && c !in kept
        invariant requeueFlag <==> Waiting(events, bad, delay, now) - todo != {}
        invariant requeueFlag <==> requeueDuration != 0
        invariant requeueFlag ==>
                    exists c :: c in Waiting(events, bad, delay, now) && c !in todo &&
                                WaitOf(events, bad, delay, now, c) == requeueDuration
        invariant forall c :: c in Waiting(events, bad, delay, now) && c !in todo ==>
                    requeueDuration <= WaitOf(events, bad, delay, now, c)
        decreases todo
      {
        var c :| c in todo;
        var e := events[c];
        if e.start.Unparsable? || e.seen.Unparsable? {
          kept := kept - {c};
        }
        var until := DelayUntil(e, delay);
        if c in bad {
          if delay > 0 && Parse(e.seen) > Parse(e.start) {
            if now > until {
              kept := kept - {c};
              trimmed := trimmed + {c};
            } else {
              WaitIsNotSentinel(e, true, delay, now);
              assert c in Waiting(events, bad, delay, now) && c !in todo - {c};
              requeueFlag := true;
              if requeueDuration == 0 || requeueDuration > Wrap64(Sub(until, now) + 1) {
                requeueDuration := Wrap64(Sub(until, now) + 1);
              }
              kept := kept[c := e.(seen := Format(now))];
            }
          }
        } else if delay > 0 && now < until {
          kept := kept[c := e.(seen := Format(now))];
        } else {
          kept := kept - {c};
        }
        ghost var fate := Judge(e, c in bad, delay, now);
        assert (c in kept <==> fate.kept.Some?) && (c in kept ==> kept[c] == fate.kept.value);
        todo := todo - {c};
      }
      requeue := if requeueFlag then Some(requeueDuration) else None;
    }

    /** The second loop adds the noncompliant clusters that have no event; then the job is created and
        the status written. When the job cannot be created, nothing is written. */
    method Reconcile(targetList: seq<Cluster>, delay: nat, now: int, started: int, jobOk: bool)
      returns (job: set<Cluster>, requeue: Option<int>, failed: bool)
      modifies this
      ensures var bad, was := Members(targetList), old(clustersWithEvent);
              var targets := Targets(was, bad, delay, now);
              && failed == (targets != {} && !jobOk)
              && (failed ==> clustersWithEvent == was && job == {} && requeue == None)
              && (!failed ==>
                    && job == targets
                    && clustersWithEvent == Updated(was, bad, delay, now, started)
                    && IsRequeue(was, bad, delay, now, requeue))
    {
      var bad := Members(targetList);
      ghost var was := clustersWithEvent;
      var kept, trimmed, wait := JudgeAll(bad, delay, now);
      for i := 0 to |targetList|
        invariant trimmed <= Targets(was, bad, delay, now)
        invariant forall k :: 0 <= k < i && targetList[k] !in kept ==> targetList[k] in trimmed
      {
        if targetList[i] !in kept {
          trimmed := trimmed + {targetList[i]};
        }
      }
      assert trimmed == Targets(was, bad, delay, now);
      if trimmed != {} && !jobOk {
        return {}, None, true;
      }
      clustersWithEvent := kept + map c | c in trimmed :: Event(Format(started), Format(now));
      return trimmed, wait, false;
    }
  }
}

/** What every run of the reconcile protocol keeps, and exactly when a wake-up can be lost. */
module ReplicaProtocolProofs {
  import opened Basics
  import opened ReplicaProtocol

  /******* Server steps *******/

  lemma SomeFromGrows(history: seq<Option<Replica>>, x: Option<Replica>, low: nat)
    requires SomeFrom(history, low)
    ensures SomeFrom(history + [x], low)
  {
    var i :| low <= i < |history| && history[i].Some?;
    assert (history + [x])[i].Some?;
  }

  lemma SomeFromLast(history: seq<Option<Replica>>, x: Replica, low: nat)
    requires low <= |history|
    ensures SomeFrom(history + [Some(x)], low)
  {
    assert (history + [Some(x)])[|history|].Some?;
  }

  ghost predicate CanAppend(s: State, x: Option<Replica>)
  {
    match x
    case None => Live(s.history).Some?
    case Some(r) => r.version > s.issued
  }

  lemma AppendHistory(s: State, x: Option<Replica>)
    requires Shape(s) && HistoryOk(s.history, s.issued) && CanAppend(s, x)
    ensures HistoryOk(Append(s, x).history, Append(s, x).issued)
  {
  }

  lemma AppendConfirmed(s: State, x: Option<Replica>)
    requires Shape(s) && HistoryOk(s.history, s.issued) && CanAppend(s, x)
    requires ConfirmedOk(s.history, s.issued, s.confirmed)
    ensures ConfirmedOk(Append(s, x).history, Append(s, x).issued, s.confirmed)
  {
  }

  lemma AppendWorker(s: State, x: Option<Replica>)
    requires Shape(s) && WorkerOk(s) && CanAppend(s, x)
    ensures WorkerOk(Append(s, x))
  {
    var t := Append(s, x);
    if SomeFrom(s.history, Low(s)) {
      SomeFromGrows(s.history, x, Low(s));
    }
    if Carries(s.worker) {
      var i :| 0 <= i < |s.history| && s.history[i] == Some(Carried(s.worker));
      assert t.history[i] == Some(Carried(s.worker));
    }
  }

  /** A server change made by anyone, with the worker wherever it is. */
  lemma AppendKeepsInv(s: State, x: Option<Replica>)
    requires Inv(s) && CanAppend(s, x)
    ensures Inv(Append(s, x))
    ensures Wake(s) ==> Wake(Append(s, x))
  {
    AppendHistory(s, x);
    AppendConfirmed(s, x);
    AppendWorker(s, x);
    if SomeFrom(s.history, Low(s)) {
      SomeFromGrows(s.history, x, Low(s));
    }
  }

  /******* Event handler steps *******/

  lemma FilterLoadStep(s: State)
    requires Inv(s) && Enabled(s, FilterLoad)
    ensures Inv(Next(s, FilterLoad))
    ensures Wake(s) ==> Wake(Next(s, FilterLoad))
  {
    var d := s.deliveredPos;
    assert s.history[d].Some? || s.history[d + 1].Some?;
    assert SomeFrom(s.history, d);
  }

  /** The handler moves past one event. Either a replica is still ahead of it, or it has queued a
      reconcile, or it dropped a delete event because of a tombstone. */
  lemma EvalAdvances(s: State)
    requires Shape(s) && s.filter.Loaded? && HistoryOk(s.history, s.issued)
    requires SomeFrom(s.history, Low(s))
    requires s.filter.detached.None? ==> !s.entry.value.Deleted?
    ensures var t := EvalFilter(s); t.queued || SomeFrom(t.history, Low(t))
  {
    var d := s.deliveredPos;
    var t := EvalFilter(s);
    var i :| Low(s) <= i < |s.history| && s.history[i].Some?;
    if i > d {
      assert t.history[i].Some? && Low(t) <= i;
    } else if s.history[d + 1].Some? {
      assert Low(t) <= d + 1;
    } else {
      assert t.queued;
    }
  }

  lemma FilterEvalStep(s: State)
    requires Inv(s) && Enabled(s, FilterEval)
    ensures Inv(Next(s, FilterEval))
    ensures Wake(s) ==> Wake(Next(s, FilterEval))
  {
    var t := EvalFilter(s);
    if SomeFrom(s.history, Low(s)) && (s.filter.detached.None? ==> !s.entry.value.Deleted?) {
      EvalAdvances(s);
    }
  }

  /******* Queue steps *******/

  lemma QueueStep(s: State, a: Action)
    requires Inv(s) && Enabled(s, a) && (a.Sync? || a.Enqueue? || a.Timer? || a.Start? || a.Done?)
    ensures Inv(Next(s, a))
    ensures Wake(s) ==> Wake(Next(s, a))
  {
  }

  /******* Worker steps *******/

  lemma ReadStep(s: State)
    requires Inv(s) && Enabled(s, Read)
    ensures Inv(Next(s, Read)) && Wake(Next(s, Read))
  {
    var x := s.history[s.cachePos];
    if x.Some? {
      assert Low(s) <= s.cachePos;
      assert SomeFrom(s.history, Low(s));
      assert x in s.history;
    }
  }

  lemma CheckStaleStep(s: State)
    requires Inv(s) && Enabled(s, CheckStale)
    ensures Inv(Next(s, CheckStale)) && Wake(Next(s, CheckStale))
  {
  }

  lemma DecideStep(s: State, outcome: Outcome)
    requires Inv(s) && Enabled(s, Decide(outcome))
    ensures Inv(Next(s, Decide(outcome))) && Wake(Next(s, Decide(outcome)))
  {
  }

  lemma LockStep(s: State)
    requires Inv(s) && Enabled(s, Lock)
    ensures Inv(Next(s, Lock)) && Wake(Next(s, Lock))
  {
  }

  lemma KeepTombstone(s: State)
    requires Inv(s) && s.worker.Recording? && s.worker.stale
    ensures Inv(RecordDeleted(s)) && Wake(RecordDeleted(s))
  {
  }

  lemma DropEntry(s: State)
    requires Inv(s) && s.worker.Recording? && !s.worker.stale
    ensures Inv(RecordDeleted(s)) && Wake(RecordDeleted(s))
  {
  }

  lemma RecordStep(s: State)
    requires Inv(s) && s.worker.Recording?
    ensures Inv(RecordDeleted(s)) && Wake(RecordDeleted(s))
  {
    if s.worker.stale {
      KeepTombstone(s);
    } else {
      DropEntry(s);
    }
  }

  /** Moving the worker to a point that carries nothing and holds no lock, with a retry to come. */
  lemma GiveUp(s: State)
    requires Inv(s) && !s.worker.Idle? && s.worker != Returning(false)
    ensures Inv(s.(worker := Returning(true))) && Wake(s.(worker := Returning(true)))
  {
  }

  lemma CleanCallStep(s: State, reply: Reply)
    requires Inv(s) && Enabled(s, Call(reply)) && s.worker.CleanCall?
    ensures Inv(Next(s, Call(reply))) && Wake(Next(s, Call(reply)))
  {
    if reply.Accepted? || reply.BrokenApplied? {
      AppendKeepsInv(s, None);
    }
  }

  /** The server accepted a new version with the desired body. */
  lemma WroteKeepsInv(s: State, v: nat, d: Body)
    requires Inv(s) && v > s.issued && Locked(s.worker)
    ensures var t := Append(s, Some(Replica(v, d))).(worker := Marking(v), confirmed := s.confirmed[v := d]);
            Inv(t) && Wake(t)
  {
    var x := Some(Replica(v, d));
    AppendKeepsInv(s, x);
    SomeFromLast(s.history, x.value, Low(s));
  }

  lemma CreateCallStep(s: State, reply: Reply)
    requires Inv(s) && Enabled(s, Call(reply)) && s.worker.CreateCall?
    ensures Inv(Next(s, Call(reply))) && Wake(Next(s, Call(reply)))
  {
    match reply
    case Accepted(v) => WroteKeepsInv(s, v, s.worker.wanted);
    case BrokenApplied(v) =>
      AppendKeepsInv(s, Some(Replica(v, s.worker.wanted)));
      GiveUp(Append(s, Some(Replica(v, s.worker.wanted))));
    case Refused =>
    case Broken => GiveUp(s);
  }

  /** The replica that was read equals the desired one, so its version is confirmed without a write. */
  lemma MatchKeepsInv(s: State)
    requires Inv(s) && s.worker.WriteCall? && s.worker.read.body == s.worker.wanted
    ensures var r := s.worker.read;
            Inv(s.(worker := Matching(r), confirmed := s.confirmed[r.version := r.body]))
  {
    var r := s.worker.read;
    var k :| 0 <= k < |s.history| && s.history[k] == Some(r);
    forall i | 0 <= i < |s.history| && s.history[i].Some? && s.history[i].value.version == r.version
      ensures s.history[i].value.body == r.body
    {
      assert SameVersion(s.history[i], s.history[k]);
    }
  }

  lemma WriteCallStep(s: State, reply: Reply)
    requires Inv(s) && Enabled(s, Call(reply)) && s.worker.WriteCall?
    ensures Inv(Next(s, Call(reply))) && Wake(Next(s, Call(reply)))
  {
    if s.worker.read.body == s.worker.wanted {
      MatchKeepsInv(s);
    } else {
      match reply
      case Accepted(v) => WroteKeepsInv(s, v, s.worker.wanted);
      case BrokenApplied(v) =>
        AppendKeepsInv(s, Some(Replica(v, s.worker.wanted)));
        GiveUp(Append(s, Some(Replica(v, s.worker.wanted))));
      case Refused => GiveUp(s);
      case Broken => GiveUp(s);
    }
  }

  lemma CleanMarkStep(s: State, requeue: bool)
    requires Inv(s) && s.worker.CleanMark?
    ensures Inv(MarkNext(s, requeue)) && Wake(MarkNext(s, requeue))
  {
  }

  lemma ClearStep(s: State, requeue: bool)
    requires Inv(s) && s.worker.Clearing?
    ensures Inv(MarkNext(s, requeue)) && Wake(MarkNext(s, requeue))
  {
  }

  lemma WroteMarkStep(s: State, requeue: bool)
    requires Inv(s) && s.worker.Marking?
    ensures Inv(MarkNext(s, requeue)) && Wake(MarkNext(s, requeue))
  {
  }

  lemma MatchMarkStep(s: State, requeue: bool)
    requires Inv(s) && s.worker.Matching?
    ensures Inv(MarkNext(s, requeue))
    ensures Wake(MarkNext(s, requeue)) <==> !LosesWakeup(s, Mark(requeue))
  {
  }

  lemma MarkStep(s: State, requeue: bool)
    requires Inv(s) && Enabled(s, Mark(requeue))
    ensures Inv(MarkNext(s, requeue))
    ensures Wake(MarkNext(s, requeue)) <==> !LosesWakeup(s, Mark(requeue))
  {
    match s.worker
    case CleanMark(_, _) => CleanMarkStep(s, requeue);
    case Clearing => ClearStep(s, requeue);
    case Marking(_) => WroteMarkStep(s, requeue);
    case Matching(_) => MatchMarkStep(s, requeue);
  }

  /******* Every run *******/

  lemma CallStep(s: State, reply: Reply)
    requires Inv(s) && Enabled(s, Call(reply))
    ensures Inv(Next(s, Call(reply))) && Wake(Next(s, Call(reply)))
  {
    if s.worker.CleanCall? {
      CleanCallStep(s, reply);
    } else if s.worker.CreateCall? {
      CreateCallStep(s, reply);
    } else {
      WriteCallStep(s, reply);
    }
  }

  lemma StepKeepsInv(s: State, a: Action)
    requires Inv(s) && Enabled(s, a)
    ensures Inv(Next(s, a))
    ensures Wake(s) ==> (Wake(Next(s, a)) <==> !LosesWakeup(s, a))
  {
    match a
    case OutsideWrite(v, b) => AppendKeepsInv(s, Some(Replica(v, b)));
    case OutsideDelete => AppendKeepsInv(s, None);
    case FilterLoad => FilterLoadStep(s);
    case FilterEval => FilterEvalStep(s);
    case Read => ReadStep(s);
    case CheckStale => CheckStaleStep(s);
    case Decide(outcome) => DecideStep(s, outcome);
    case Lock => LockStep(s);
    case Record => RecordStep(s);
    case Call(reply) => CallStep(s, reply);
    case Mark(requeue) => MarkStep(s, requeue);
    case _ => QueueStep(s, a);
  }

  lemma SteppedKeepsInv(s: State, t: State)
    requires Inv(s) && Stepped(s, t)
    ensures Inv(t)
  {
    var a :| Enabled(s, a) && t == Next(s, a);
    StepKeepsInv(s, a);
  }

  lemma InitialInv(s: State)
    requires Initial(s)
    ensures Inv(s) && Wake(s)
  {
  }

  lemma {:induction false} RunKeepsInv(run: seq<State>, i: nat)
    requires IsRun(run) && i < |run|
    ensures Inv(run[i])
  {
    if i == 0 {
      InitialInv(run[0]);
    } else {
      RunKeepsInv(run, i - 1);
      assert StepAt(run, i - 1);
      SteppedKeepsInv(run[i - 1], run[i]);
    }
  }

  /******* What follows for every run *******/

  /** A tombstone never names the live version, and a reconcile that will look at it is always coming. */
  lemma TombstoneIsSafe(run: seq<State>, i: nat)
    requires IsRun(run) && i < |run| && run[i].entry.Some? && run[i].entry.value.Deleted?
    ensures Live(run[i].history).Some? ==> Live(run[i].history).value.version != run[i].entry.value.version
    ensures Working(run[i])
  {
    RunKeepsInv(run, i);
  }

  /** When the worker treats a cached replica as missing, that version is not on the server. */
  lemma StaleReadIgnoresNothingLive(run: seq<State>, i: nat)
    requires IsRun(run) && i < |run| && Shape(run[i]) && Enabled(run[i], CheckStale)
    requires Next(run[i], CheckStale).worker.stale
    ensures Live(run[i].history) != Some(run[i].worker.read)
  {
    RunKeepsInv(run, i);
  }

  /** A version in an entry was written by a reconcile, or found equal to what a reconcile wanted:
      every server state with that version has the body that reconcile wanted. */
  lemma WroteIsConfirmed(run: seq<State>, i: nat, k: nat)
    requires IsRun(run) && i < |run| && run[i].entry.Some? && run[i].entry.value.Wrote?
    ensures run[i].entry.value.version in run[i].confirmed
    ensures k < |run[i].history| && run[i].history[k].Some? &&
              run[i].history[k].value.version == run[i].entry.value.version ==>
              run[i].history[k].value.body == run[i].confirmed[run[i].entry.value.version]
  {
    RunKeepsInv(run, i);
  }

  /** An event that is dropped tells the worker nothing: the new body is one a reconcile has already
      confirmed as the desired one, or the body did not change, or it is a deletion under a tombstone. */
  lemma DroppedEventIsRedundant(run: seq<State>, i: nat)
    requires IsRun(run) && i < |run| && Shape(run[i]) && Enabled(run[i], FilterEval)
    requires var s := run[i];
             !Passes(s.history[s.deliveredPos], s.history[s.deliveredPos + 1], s.filter.found, FilterMarker(s))
    ensures var s := run[i];
            var before, after := s.history[s.deliveredPos], s.history[s.deliveredPos + 1];
            match after
            case Some(y) =>
              || (y.version in s.confirmed && s.confirmed[y.version] == y.body)
              || (before.Some? && before.value.body == y.body)
            case None => FilterMarker(s).Deleted? && (s.filter.detached.None? ==> Working(s))
  {
    RunKeepsInv(run, i);
    var s := run[i];
    assert s.history[s.deliveredPos].Some? || s.history[s.deliveredPos + 1].Some?;
  }

  ghost predicate LosingStep(s: State, t: State)
  {
    Shape(s) && exists a :: Enabled(s, a) && LosesWakeup(s, a) && t == Next(s, a)
  }

  lemma StepWakes(s: State, t: State)
    requires Inv(s) && Wake(s) && Stepped(s, t)
    ensures Wake(t) <==> !LosingStep(s, t)
  {
    var a :| Enabled(s, a) && t == Next(s, a);
    StepKeepsInv(s, a);
    if LosingStep(s, t) {
      var b :| Enabled(s, b) && LosesWakeup(s, b) && t == Next(s, b);
      StepKeepsInv(s, b);
    }
  }

  lemma {:induction false} WakeUntil(run: seq<State>, n: nat)
    requires IsRun(run) && n < |run|
    requires forall i :: 0 <= i < n ==> !LosingStep(run[i], run[i + 1])
    ensures Wake(run[n])
  {
    if n > 0 {
      WakeUntil(run, n - 1);
      RunKeepsInv(run, n - 1);
      assert !LosingStep(run[n - 1], run[n - 1 + 1]) && StepAt(run, n - 1);
      StepWakes(run[n - 1], run[n]);
    }
  }

  /** Exactly the losing step breaks the promise that a wake-up is always ahead. */
  lemma WakeExactly(run: seq<State>)
    requires IsRun(run)
    ensures (forall i :: 0 <= i < |run| ==> Wake(run[i])) <==>
            (forall i :: 0 <= i < |run| - 1 ==> !LosingStep(run[i], run[i + 1]))
  {
    if forall i :: 0 <= i < |run| - 1 ==> !LosingStep(run[i], run[i + 1]) {
      forall i | 0 <= i < |run|
        ensures Wake(run[i])
      {
        WakeUntil(run, i);
      }
    } else {
      var i :| 0 <= i < |run| - 1 && LosingStep(run[i], run[i + 1]);
      RunKeepsInv(run, i);
      if Wake(run[i]) {
        assert StepAt(run, i);
        StepWakes(run[i], run[i + 1]);
        assert !Wake(run[i + 1]);
      }
    }
  }

  lemma WakeMeansNotForgotten(s: State)
    requires Shape(s) && Wake(s)
    ensures NotForgotten(s)
  {
  }

  /** Without a losing step no entry is ever left behind by a replica that is gone. */
  lemma NothingForgotten(run: seq<State>, n: nat)
    requires IsRun(run) && n < |run|
    requires forall i :: 0 <= i < |run| - 1 ==> !LosingStep(run[i], run[i + 1])
    ensures NotForgotten(run[n])
  {
    WakeUntil(run, n);
    RunKeepsInv(run, n);
    WakeMeansNotForgotten(run[n]);
  }

  lemma SomethingAhead(history: seq<Option<Replica>>, issued: nat, low: nat)
    requires HistoryOk(history, issued) && low + 1 < |history|
    ensures SomeFrom(history, low)
  {
    assert history[low].Some? || history[low + 1].Some?;
  }

  /** A losing step is a real loss: by only finishing the reconcile and the event in hand, the entry of
      a replica that is gone is left with no reconcile coming. */
  lemma LosingStepForgets(s: State)
    requires Inv(s) && Enabled(s, Mark(false)) && LosesWakeup(s, Mark(false))
    ensures var t := Next(s, Mark(false));
            && Shape(t) && Enabled(t, Done)
            && var u := Next(t, Done);
               Shape(u) && (!NotForgotten(u) || (Enabled(u, FilterEval) && !NotForgotten(Next(u, FilterEval))))
  {
    if Low(s) + 1 < |s.history| {
      SomethingAhead(s.history, s.issued, Low(s));
    }
    assert s.history[Low(s)].None?;
    if Low(s) == s.deliveredPos + 1 {
      assert s.history[s.deliveredPos].Some?;
    }
  }
}

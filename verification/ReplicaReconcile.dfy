/** What one reconcile of the protocol does, from its decision to its end, in every run. */
module ReplicaReconcile {
  import opened Basics
  import opened ReplicaProtocol
  import opened ReplicaProtocolProofs

  /******* What is read *******/

  /** The worker reads the cache, and treats the replica it finds as missing exactly when the entry is a
      tombstone of that version. */
  lemma ReadExactly(run: seq<State>, i: nat)
    requires IsRun(run) && i < |run| && Shape(run[i])
    ensures Enabled(run[i], Read) ==>
              match run[i].history[run[i].cachePos]
              case None => Next(run[i], Read).worker == Deciding(None, false)
              case Some(x) => Next(run[i], Read).worker == CheckingStale(x)
    ensures Enabled(run[i], CheckStale) ==>
              var x := run[i].worker.read;
              if run[i].entry == Some(Deleted(x.version)) then Next(run[i], CheckStale).worker == Deciding(None, true)
              else Next(run[i], CheckStale).worker == Deciding(Some(x), false)
  {
  }

  /** An event queues a reconcile exactly when it creates or changes the replica to a version the entry does
      not record, or deletes it without a tombstone; a change of nothing but the version never does. */
  lemma EventQueuesExactly(run: seq<State>, i: nat)
    requires IsRun(run) && i < |run| && Shape(run[i]) && Enabled(run[i], FilterEval)
    ensures var s := run[i];
            var before, after := s.history[s.deliveredPos], s.history[s.deliveredPos + 1];
            var known := if s.filter.found then Some(FilterMarker(s)) else None;
            Next(s, FilterEval).queued <==>
              || s.queued
              || (after.None? && !(known.Some? && known.value.Deleted?))
              || (after.Some? && known != Some(Wrote(after.value.version)) &&
                  (before.Some? ==> before.value.body != after.value.body))
  {
    RunKeepsInv(run, i);
    var s := run[i];
    assert s.history[s.deliveredPos].Some? || s.history[s.deliveredPos + 1].Some?;
  }

  /******* What is pursued *******/

  /** The version was on the server with the body, and is confirmed for it. */
  ghost predicate Produced(s: State, v: nat, d: Body)
  {
    Some(Replica(v, d)) in s.history && v in s.confirmed && s.confirmed[v] == d
  }

  /** Where the worker can be after it decided on `outcome`, having read `cached`. */
  ghost predicate Pursuing(s: State, cached: Option<Replica>, stale: bool, outcome: Outcome)
  {
    match outcome
    case ReadFailed => s.worker == Returning(true)
    case Unwanted =>
      (match cached
       case None => s.worker == Recording(stale) || s.worker == Returning(stale)
       case Some(r) =>
         || s.worker == CleanLock(r) || s.worker == CleanCall(r) || s.worker == CleanMark(r, true)
         || s.worker == CleanMark(r, false) || s.worker == Returning(true))
    case Wanted(d) =>
      || s.worker.Returning?
      || (s.worker.Marking? && Produced(s, s.worker.version, d))
      || (match cached
          case None => s.worker == CreateLock(d) || s.worker == CreateCall(d) || s.worker.Clearing?
          case Some(r) =>
            || s.worker == WriteLock(r, d) || s.worker == WriteCall(r, d)
            || (s.worker == Matching(r) && r.body == d && Produced(s, r.version, d)))
  }

  lemma ProducedGrows(s: State, t: State, v: nat, d: Body)
    requires Produced(s, v, d) && s.history <= t.history && t.confirmed == s.confirmed
    ensures Produced(t, v, d)
  {
    var i :| 0 <= i < |s.history| && s.history[i] == Some(Replica(v, d));
    assert t.history[i] == s.history[i];
  }

  /** A step of anyone else leaves the worker where it is. */
  predicate IsOutside(a: Action)
  {
    a.OutsideWrite? || a.OutsideDelete? || a.Sync? || a.FilterLoad? || a.FilterEval? || a.Enqueue? || a.Timer?
  }

  lemma OutsidePursues(s: State, a: Action, cached: Option<Replica>, stale: bool, outcome: Outcome)
    requires Shape(s) && Enabled(s, a) && IsOutside(a) && Pursuing(s, cached, stale, outcome)
    ensures Pursuing(Next(s, a), cached, stale, outcome)
  {
    var t := Next(s, a);
    assert t.worker == s.worker && s.history <= t.history && t.confirmed == s.confirmed;
    if s.worker.Marking? && outcome.Wanted? {
      ProducedGrows(s, t, s.worker.version, outcome.body);
    }
    if s.worker.Matching? && outcome.Wanted? {
      ProducedGrows(s, t, s.worker.read.version, outcome.body);
    }
  }

  lemma CallPursues(s: State, reply: Reply, cached: Option<Replica>, stale: bool, outcome: Outcome)
    requires Inv(s) && Enabled(s, Call(reply)) && Pursuing(s, cached, stale, outcome)
    ensures Pursuing(CallNext(s, reply), cached, stale, outcome)
  {
    var t := CallNext(s, reply);
    if t.worker.Marking? {
      assert t.history[|s.history|] == Some(Replica(t.worker.version, outcome.body));
    }
    if t.worker.Matching? {
      assert Some(s.worker.read) in s.history;
    }
  }

  lemma WorkerPursues(s: State, a: Action, cached: Option<Replica>, stale: bool, outcome: Outcome)
    requires Inv(s) && Enabled(s, a) && !IsOutside(a) && Pursuing(s, cached, stale, outcome)
    ensures Next(s, a).worker.Idle? || Pursuing(Next(s, a), cached, stale, outcome)
  {
    if a.Call? {
      CallPursues(s, a.reply, cached, stale, outcome);
    }
  }

  lemma StepPursues(s: State, t: State, cached: Option<Replica>, stale: bool, outcome: Outcome)
    requires Inv(s) && Stepped(s, t) && Pursuing(s, cached, stale, outcome) && !t.worker.Idle?
    ensures Pursuing(t, cached, stale, outcome)
  {
    var a :| Enabled(s, a) && t == Next(s, a);
    if IsOutside(a) {
      OutsidePursues(s, a, cached, stale, outcome);
    } else {
      WorkerPursues(s, a, cached, stale, outcome);
    }
  }

  /** Step `i` of the run is a decision, and the reconcile is not over before state `j`. */
  ghost predicate DecidedBefore(run: seq<State>, i: nat, j: nat, outcome: Outcome)
  {
    && i < j < |run| && Shape(run[i]) && run[i].worker.Deciding? && run[i + 1] == Next(run[i], Decide(outcome))
    && (forall k :: i < k <= j ==> !run[k].worker.Idle?)
  }

  lemma DecisionStarts(s: State, outcome: Outcome)
    requires Shape(s) && s.worker.Deciding?
    ensures Pursuing(Next(s, Decide(outcome)), s.worker.cached, s.worker.stale, outcome)
  {
  }

  lemma {:induction false} KeepsPursuing(run: seq<State>, i: nat, j: nat, cached: Option<Replica>, stale: bool,
                                         outcome: Outcome)
    requires IsRun(run) && i <= j < |run| && Pursuing(run[i], cached, stale, outcome)
    requires forall k :: i <= k <= j ==> !run[k].worker.Idle?
    ensures Pursuing(run[j], cached, stale, outcome)
    decreases j
  {
    if i < j {
      KeepsPursuing(run, i, j - 1, cached, stale, outcome);
      RunKeepsInv(run, j - 1);
      assert StepAt(run, j - 1);
      StepPursues(run[j - 1], run[j], cached, stale, outcome);
    }
  }

  lemma RunPursues(run: seq<State>, i: nat, j: nat, outcome: Outcome)
    requires IsRun(run) && DecidedBefore(run, i, j, outcome)
    ensures Pursuing(run[j], run[i].worker.cached, run[i].worker.stale, outcome)
  {
    DecisionStarts(run[i], outcome);
    KeepsPursuing(run, i + 1, j, run[i].worker.cached, run[i].worker.stale, outcome);
  }

  /******* A wanted replica *******/

  /** A version that a reconcile records was on the server with the body that reconcile wanted, and is
      confirmed for it; if the reconcile only found it, it is the replica it had read. */
  lemma RecordedIsWanted(run: seq<State>, i: nat, j: nat, d: Body, requeue: bool)
    requires IsRun(run) && DecidedBefore(run, i, j, Wanted(d)) && Shape(run[j]) && Enabled(run[j], Mark(requeue))
    ensures var n := Next(run[j], Mark(requeue));
            match n.entry
            case Some(Wrote(v)) => Some(Replica(v, d)) in n.history && v in n.confirmed && n.confirmed[v] == d
            case _ => n.entry == Some(Unset) && run[i].worker.cached.None?
  {
    RunPursues(run, i, j, Wanted(d));
  }

  /** A call that the server accepts leaves the wanted replica there, in the place of the very version that was
      read, or of nothing if none was; nothing is sent if it was read already. */
  lemma AcceptedIsLive(run: seq<State>, i: nat, j: nat, d: Body, v: nat)
    requires IsRun(run) && DecidedBefore(run, i, j, Wanted(d)) && Shape(run[j]) && Enabled(run[j], Call(Accepted(v)))
    ensures var cached, n := run[i].worker.cached, Next(run[j], Call(Accepted(v)));
            if cached.Some? && cached.value.body == d then n.history == run[j].history
            else
              && Live(n.history) == Some(Replica(v, d)) && v > run[j].issued
              && match cached
                 case None => Live(run[j].history) == None
                 case Some(r) => Live(run[j].history).Some? && Live(run[j].history).value.version == r.version
  {
    RunPursues(run, i, j, Wanted(d));
  }

  /** After an accepted call the version is recorded: the new one, or the one that was read if it is the desired
      one already. */
  lemma AcceptedIsRecorded(run: seq<State>, i: nat, j: nat, d: Body, v: nat, requeue: bool)
    requires IsRun(run) && DecidedBefore(run, i, j, Wanted(d)) && Shape(run[j]) && Enabled(run[j], Call(Accepted(v)))
    ensures var cached, n := run[i].worker.cached, Next(run[j], Call(Accepted(v)));
            && Shape(n) && Enabled(n, Mark(requeue))
            && Next(n, Mark(requeue)).entry ==
               Some(Wrote(if cached.Some? && cached.value.body == d then cached.value.version else v))
  {
    RunPursues(run, i, j, Wanted(d));
    AcceptedIsMarked(run[j], run[i].worker.cached, d, v, requeue);
  }

  lemma AcceptedIsMarked(s: State, cached: Option<Replica>, d: Body, v: nat, requeue: bool)
    requires Shape(s) && CanReply(s, Accepted(v))
    requires match cached
             case None => s.worker == CreateCall(d)
             case Some(r) => s.worker == WriteCall(r, d)
    ensures var n := CallNext(s, Accepted(v));
            && Shape(n) && (n.worker.Marking? || n.worker.Matching?)
            && MarkNext(n, requeue).entry ==
               Some(Wrote(if cached.Some? && cached.value.body == d then cached.value.version else v))
  {
  }

  /** When the name is taken on creation, the entry is cleared, so that the replica that is there is looked at,
      and the reconcile comes again. */
  lemma ConflictIsCleared(run: seq<State>, i: nat, j: nat, d: Body, requeue: bool)
    requires IsRun(run) && DecidedBefore(run, i, j, Wanted(d)) && run[i].worker.cached.None?
    requires Shape(run[j]) && Enabled(run[j], Call(Refused))
    ensures var n := Next(run[j], Call(Refused));
            && Live(run[j].history).Some? && n.history == run[j].history
            && Shape(n) && Enabled(n, Mark(requeue))
            && Next(n, Mark(requeue)).entry == Some(Unset) && Next(n, Mark(requeue)).worker == Returning(true)
  {
    RunPursues(run, i, j, Wanted(d));
    RunKeepsInv(run, j);
  }

  /** A cached replica with another body is replaced, not recorded as it is. */
  lemma OutdatedIsNotRecorded(run: seq<State>, i: nat, j: nat, d: Body, requeue: bool)
    requires IsRun(run) && DecidedBefore(run, i, j, Wanted(d)) && Shape(run[j]) && Enabled(run[j], Mark(requeue))
    requires run[i].worker.cached.Some? && run[i].worker.cached.value.body != d
    ensures Next(run[j], Mark(requeue)).entry != Some(Wrote(run[i].worker.cached.value.version))
  {
    var r := run[i].worker.cached.value;
    RunPursues(run, i, j, Wanted(d));
    RunKeepsInv(run, i);
    RunKeepsInv(run, j);
    HistoryKept(run, i, j);
    var a :| 0 <= a < |run[i].history| && run[i].history[a] == Some(r);
    assert run[j].history[a] == Some(r);
    OneBody(run[j].history, run[j].issued, r, Replica(r.version, d));
  }

  lemma OneBody(history: seq<Option<Replica>>, issued: nat, x: Replica, y: Replica)
    requires HistoryOk(history, issued) && x.version == y.version && Some(x) in history && x != y
    ensures Some(y) !in history
  {
    var a :| 0 <= a < |history| && history[a] == Some(x);
    forall b | 0 <= b < |history|
      ensures history[b] != Some(y)
    {
      assert SameVersion(history[a], Some(y));
    }
  }

  lemma NextGrows(s: State, a: Action)
    requires Shape(s) && Enabled(s, a) && !a.Call?
    ensures s.history <= Next(s, a).history
  {
  }

  lemma CallGrows(s: State, reply: Reply)
    requires Shape(s) && CanReply(s, reply)
    ensures s.history <= CallNext(s, reply).history
  {
  }

  lemma StepGrows(s: State, t: State)
    requires Stepped(s, t)
    ensures s.history <= t.history
  {
    var a :| Enabled(s, a) && t == Next(s, a);
    if a.Call? {
      CallGrows(s, a.reply);
    } else {
      NextGrows(s, a);
    }
  }

  lemma GrowsAt(run: seq<State>, i: nat)
    requires IsRun(run) && i + 1 < |run|
    ensures run[i].history <= run[i + 1].history
  {
    assert StepAt(run, i);
    StepGrows(run[i], run[i + 1]);
  }

  lemma {:induction false} HistoryKept(run: seq<State>, i: nat, j: nat)
    requires IsRun(run) && i <= j < |run|
    ensures run[i].history <= run[j].history
    decreases j
  {
    if i < j {
      HistoryKept(run, i, j - 1);
      GrowsAt(run, j - 1);
    }
  }

  /******* An unwanted replica *******/

  /** After the answer to a deletion, the worker keeps it in mind until it marks the entry. */
  lemma {:induction false} AnswerKept(run: seq<State>, k: nat, j: nat, r: Replica, gone: bool)
    requires IsRun(run) && k <= j < |run| && run[k].worker == CleanMark(r, gone)
    requires forall m :: k <= m <= j ==> !run[m].worker.Idle?
    ensures run[j].worker == CleanMark(r, gone) || run[j].worker == Returning(true)
    decreases j
  {
    if k < j {
      AnswerKept(run, k, j - 1, r, gone);
      AnswerAt(run, j - 1, r, gone);
    }
  }

  lemma AnswerNext(s: State, a: Action, r: Replica, gone: bool)
    requires Shape(s) && Enabled(s, a) && (s.worker == CleanMark(r, gone) || s.worker == Returning(true))
    ensures var w := Next(s, a).worker; w == CleanMark(r, gone) || w == Returning(true) || w.Idle?
  {
  }

  lemma AnswerAt(run: seq<State>, i: nat, r: Replica, gone: bool)
    requires IsRun(run) && i + 1 < |run|
    requires run[i].worker == CleanMark(r, gone) || run[i].worker == Returning(true)
    ensures var w := run[i + 1].worker; w == CleanMark(r, gone) || w == Returning(true) || w.Idle?
  {
    assert StepAt(run, i);
    var a :| Enabled(run[i], a) && run[i + 1] == Next(run[i], a);
    AnswerNext(run[i], a, r, gone);
  }

  lemma DeletionAnswers(s: State, r: Replica, reply: Reply)
    requires Shape(s) && s.worker == CleanCall(r) && CanReply(s, reply)
    ensures CallNext(s, reply).worker == CleanMark(r, reply.Accepted? || reply.Refused?)
    ensures reply.Accepted? || reply.Refused? ==> Live(CallNext(s, reply).history) == None
  {
  }

  /** An unwanted replica that was read is deleted: an accepted call leaves nothing on the server, and the
      entry becomes the tombstone of the version that was read when the server said the replica is gone, and
      stays as it is when the call failed. */
  lemma UnwantedIsDeleted(run: seq<State>, i: nat, k: nat, j: nat, r: Replica, reply: Reply, requeue: bool)
    requires IsRun(run) && DecidedBefore(run, i, j, Unwanted) && run[i].worker.cached == Some(r)
    requires i < k < j && Shape(run[k]) && Enabled(run[k], Call(reply)) && run[k + 1] == Next(run[k], Call(reply))
    requires Shape(run[j]) && Enabled(run[j], Mark(requeue))
    ensures reply.Accepted? || reply.Refused? ==> Live(run[k + 1].history) == None
    ensures Next(run[j], Mark(requeue)).entry ==
            if reply.Accepted? || reply.Refused? then Some(Deleted(r.version)) else run[j].entry
  {
    RunPursues(run, i, k, Unwanted);
    DeletionAnswers(run[k], r, reply);
    AnswerKept(run, k + 1, j, r, reply.Accepted? || reply.Refused?);
  }

  /** Without a replica to delete, the entry is dropped, unless the read was stale: then the tombstone stays
      and the reconcile comes again. */
  lemma MissingIsForgotten(run: seq<State>, i: nat, j: nat)
    requires IsRun(run) && DecidedBefore(run, i, j, Unwanted) && run[i].worker.cached.None?
    requires Shape(run[j]) && Enabled(run[j], Record)
    ensures var n := Next(run[j], Record);
            && n.entry == (if run[i].worker.stale then run[j].entry else None)
            && n.worker == Returning(run[i].worker.stale)
  {
    RunPursues(run, i, j, Unwanted);
  }

  /******* Failures *******/

  predicate WillRetry(w: Worker)
  {
    w == Returning(true) || w.Clearing? || w.CleanMark?
  }

  lemma RetryNext(s: State, a: Action)
    requires Shape(s) && Enabled(s, a) && WillRetry(s.worker)
    ensures WillRetry(Next(s, a).worker) || Next(s, a).worker.Idle?
  {
  }

  lemma RetryAt(run: seq<State>, i: nat)
    requires IsRun(run) && i + 1 < |run| && WillRetry(run[i].worker)
    ensures WillRetry(run[i + 1].worker) || run[i + 1].worker.Idle?
  {
    assert StepAt(run, i);
    var a :| Enabled(run[i], a) && run[i + 1] == Next(run[i], a);
    RetryNext(run[i], a);
  }

  lemma {:induction false} RetryKept(run: seq<State>, i: nat, j: nat)
    requires IsRun(run) && i <= j < |run| && WillRetry(run[i].worker)
    requires forall k :: i <= k <= j ==> !run[k].worker.Idle?
    ensures WillRetry(run[j].worker)
    decreases j
  {
    if i < j {
      RetryKept(run, i, j - 1);
      RetryAt(run, j - 1);
    }
  }

  /** Nothing is to be sent: the replica that was read is the desired one. */
  predicate Matches(w: Worker)
  {
    w.WriteCall? && w.read.body == w.wanted
  }

  /** A reconcile whose reads failed, whose call was not accepted, or that deleted a replica, is followed by
      another one: when it is done, the key is delayed for a retry. */
  lemma FailureIsRetried(run: seq<State>, i: nat, j: nat, a: Action)
    requires IsRun(run) && i < j < |run| && Shape(run[i]) && Enabled(run[i], a) && run[i + 1] == Next(run[i], a)
    requires || a == Decide(ReadFailed)
             || (a.Call? && run[i].worker.CleanCall?)
             || (a.Call? && !a.reply.Accepted? && !Matches(run[i].worker))
    requires forall k :: i < k <= j ==> !run[k].worker.Idle?
    requires Shape(run[j]) && Enabled(run[j], Done)
    ensures Next(run[j], Done).delayed
  {
    RetryKept(run, i + 1, j);
  }
}

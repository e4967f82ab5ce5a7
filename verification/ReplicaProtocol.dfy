/**
The reconcile protocol of one replicated policy (controllers/propagator/replicatedpolicy_controller.go
and replicatedpolicy_setup.go): a worker that reads a lagging informer cache, a ResourceVersions
entry that remembers what the worker last wrote or deleted, event predicates that consult the entry
to drop events, and the work queue.

The server is the sequence of all its past states. The cache and the event handler are positions in
that sequence: they see every change, in order, and possibly late; the cache never trails the handler.
*/
module ReplicaProtocol {

  import opened Basics

  /** The labels, annotations and spec of a replica: what equivalentReplicatedPolicies compares. */
  type Body = string

  datatype Replica = Replica(version: nat, body: Body)

  /** The string in a ResourceVersions entry: "", a resource version, or "deleted-" and a version. */
  datatype Marker = Unset | Wrote(version: nat) | Deleted(version: nat)

  /** The predicate call for the next event: it has loaded the entry (`found` tells if there was one)
      and will read it. `detached` is the value of an entry that was dropped from the map meanwhile. */
  datatype Filter = NoFilter | Loaded(found: bool, detached: Option<Marker>)

  datatype Worker =
    | Idle
    | Reading
    | CheckingStale(read: Replica)
    | Deciding(cached: Option<Replica>, stale: bool)
    | Recording(stale: bool)
    | CleanLock(read: Replica)
    | CleanCall(read: Replica)
    | CleanMark(read: Replica, gone: bool)
    | CreateLock(wanted: Body)
    | CreateCall(wanted: Body)
    | Clearing
    | WriteLock(read: Replica, wanted: Body)
    | WriteCall(read: Replica, wanted: Body)
    | Matching(read: Replica)
    | Marking(version: nat)
    | Returning(requeue: bool)

  /** `confirmed` is a history variable: the versions a reconcile wrote or found equal to the desired
      replica, with that desired body. */
  datatype State = State(
    history: seq<Option<Replica>>,
    issued: nat,
    cachePos: nat,
    deliveredPos: nat,
    filter: Filter,
    entry: Option<Marker>,
    queued: bool,
    delayed: bool,
    worker: Worker,
    confirmed: map<nat, Body>)

  /** What the root policy, the placements and the other reads tell the worker. */
  datatype Outcome = ReadFailed | Unwanted | Wanted(body: Body)

  /** The server's answer: accepted (with the version it issued), refused for a semantic reason
      (already exists, not found, conflict), or an error, which may have been applied all the same. */
  datatype Reply = Accepted(version: nat) | Refused | Broken | BrokenApplied(version: nat)

  datatype Action =
    | OutsideWrite(version: nat, body: Body)
    | OutsideDelete
    | Sync
    | FilterLoad
    | FilterEval
    | Enqueue
    | Timer
    | Start(keepDelay: bool)
    | Read
    | CheckStale
    | Decide(outcome: Outcome)
    | Record
    | Lock
    | Call(reply: Reply)
    | Mark(requeue: bool)
    | Done

  /******* The server *******/

  function Live(history: seq<Option<Replica>>): Option<Replica>
  {
    if history == [] then None else history[|history| - 1]
  }

  /******* Predicates on events *******/

  /** replicatedPolicyPredicates: whether the event from `before` to `after` triggers a reconcile. */
  predicate Passes(before: Option<Replica>, after: Option<Replica>, found: bool, marker: Marker)
  {
    match (before, after)
    case (None, None) => false
    case (None, Some(x)) => !found || marker != Wrote(x.version)
    case (Some(_), None) => !found || !marker.Deleted?
    case (Some(x), Some(y)) => !(found && marker == Wrote(y.version)) && x.body != y.body
  }

  /******* Steps *******/

  /** The worker holds the write lock of the entry. */
  predicate Locked(w: Worker)
  {
    w.CleanCall? || w.CleanMark? || w.CreateCall? || w.Clearing? || w.WriteCall? || w.Matching? || w.Marking?
  }

  predicate WantsLock(w: Worker)
  {
    w.CleanLock? || w.CreateLock? || w.WriteLock?
  }

  predicate Shape(s: State)
  {
    && |s.history| > 0
    && s.deliveredPos <= s.cachePos < |s.history|
    && (s.filter.Loaded? ==> s.deliveredPos < s.cachePos)
    && (s.filter.Loaded? && s.filter.detached.None? ==> s.entry.Some?)
  }

  predicate Enabled(s: State, a: Action)
  {
    match a
    case OutsideWrite(version, _) => version > s.issued
    case OutsideDelete => Live(s.history).Some?
    case Sync => s.cachePos + 1 < |s.history|
    case FilterLoad => s.filter.NoFilter? && s.deliveredPos < s.cachePos
    case FilterEval => s.filter.Loaded? && (s.filter.detached.Some? || !Locked(s.worker))
    case Enqueue => true
    case Timer => s.delayed
    case Start(_) => s.queued && s.worker.Idle?
    case Read => s.worker.Reading?
    case CheckStale => s.worker.CheckingStale?
    case Decide(_) => s.worker.Deciding?
    case Record => s.worker.Recording?
    case Lock => WantsLock(s.worker)
    case Call(reply) => CanReply(s, reply)
    case Mark(_) => s.worker.CleanMark? || s.worker.Clearing? || s.worker.Matching? || s.worker.Marking?
    case Done => s.worker.Returning?
  }

  /** Deletion is by name; creation needs the name to be free; an update needs the version that was read. */
  predicate CanReply(s: State, reply: Reply)
  {
    match s.worker
    case CleanCall(_) =>
      (match reply
       case Accepted(_) => Live(s.history).Some?
       case Refused => Live(s.history).None?
       case Broken => true
       case BrokenApplied(_) => Live(s.history).Some?)
    case CreateCall(_) =>
      (match reply
       case Accepted(v) => Live(s.history).None? && v > s.issued
       case Refused => Live(s.history).Some?
       case Broken => true
       case BrokenApplied(v) => Live(s.history).None? && v > s.issued)
    case WriteCall(read, wanted) =>
      var current := Live(s.history).Some? && Live(s.history).value.version == read.version;
      read.body == wanted ||
      (match reply
       case Accepted(v) => current && v > s.issued
       case Refused => !current
       case Broken => true
       case BrokenApplied(v) => current && v > s.issued)
    case _ => false
  }

  function Append(s: State, x: Option<Replica>): State
  {
    s.(history := s.history + [x],
       issued := if x.Some? && x.value.version > s.issued then x.value.version else s.issued)
  }

  /** LoadOrStore: a missing entry is created empty. */
  function Ensured(entry: Option<Marker>): Option<Marker>
  {
    if entry.None? then Some(Unset) else entry
  }

  /** The value the predicate reads. */
  function FilterMarker(s: State): Marker
    requires s.filter.Loaded? && Shape(s)
  {
    if s.filter.detached.Some? then s.filter.detached.value else s.entry.value
  }

  function EvalFilter(s: State): State
    requires s.filter.Loaded? && Shape(s)
  {
    var pass := Passes(s.history[s.deliveredPos], s.history[s.deliveredPos + 1], s.filter.found, FilterMarker(s));
    s.(deliveredPos := s.deliveredPos + 1, filter := NoFilter, queued := s.queued || pass)
  }

  function DecideNext(w: Worker, outcome: Outcome): Worker
    requires w.Deciding?
  {
    match outcome
    case ReadFailed => Returning(true)
    case Unwanted => if w.cached.None? then Recording(w.stale) else CleanLock(w.cached.value)
    case Wanted(d) => if w.cached.None? then CreateLock(d) else WriteLock(w.cached.value, d)
  }

  /** recordDeleted: keep the tombstone after a stale read, otherwise drop the entry from the map. */
  function RecordDeleted(s: State): State
    requires s.worker.Recording? && Shape(s)
  {
    if s.worker.stale then s.(worker := Returning(true))
    else
      var filter := if s.filter.Loaded? && s.filter.detached.None? then s.filter.(detached := Some(s.entry.value))
                    else s.filter;
      s.(entry := None, filter := filter, worker := Returning(false))
  }

  function LockNext(w: Worker): Worker
    requires WantsLock(w)
  {
    match w
    case CleanLock(r) => CleanCall(r)
    case CreateLock(d) => CreateCall(d)
    case WriteLock(r, d) => WriteCall(r, d)
  }

  function CallNext(s: State, reply: Reply): State
    requires CanReply(s, reply)
  {
    match s.worker
    case CleanCall(r) =>
      (match reply
       case Accepted(_) => Append(s, None).(worker := CleanMark(r, true))
       case Refused => s.(worker := CleanMark(r, true))
       case Broken => s.(worker := CleanMark(r, false))
       case BrokenApplied(_) => Append(s, None).(worker := CleanMark(r, false)))
    case CreateCall(d) =>
      (match reply
       case Accepted(v) =>
         Append(s, Some(Replica(v, d))).(worker := Marking(v), confirmed := s.confirmed[v := d])
       case Refused => s.(worker := Clearing)
       case Broken => s.(worker := Returning(true))
       case BrokenApplied(v) => Append(s, Some(Replica(v, d))).(worker := Returning(true)))
    case WriteCall(r, d) =>
      if r.body == d then s.(worker := Matching(r), confirmed := s.confirmed[r.version := d])
      else (match reply
            case Accepted(v) =>
              Append(s, Some(Replica(v, d))).(worker := Marking(v), confirmed := s.confirmed[v := d])
            case Refused => s.(worker := Returning(true))
            case Broken => s.(worker := Returning(true))
            case BrokenApplied(v) => Append(s, Some(Replica(v, d))).(worker := Returning(true)))
  }

  /** The entry is written and its lock released. */
  function MarkNext(s: State, requeue: bool): State
    requires s.worker.CleanMark? || s.worker.Clearing? || s.worker.Matching? || s.worker.Marking?
  {
    match s.worker
    case CleanMark(r, gone) =>
      s.(entry := if gone then Some(Deleted(r.version)) else s.entry, worker := Returning(true))
    case Clearing => s.(entry := Some(Unset), worker := Returning(true))
    case Matching(r) => s.(entry := Some(Wrote(r.version)), worker := Returning(requeue))
    case Marking(v) => s.(entry := Some(Wrote(v)), worker := Returning(requeue))
  }

  function Next(s: State, a: Action): State
    requires Shape(s) && Enabled(s, a)
  {
    match a
    case OutsideWrite(version, body) => Append(s, Some(Replica(version, body)))
    case OutsideDelete => Append(s, None)
    case Sync => s.(cachePos := s.cachePos + 1)
    case FilterLoad => s.(filter := Loaded(s.entry.Some?, None), entry := Ensured(s.entry))
    case FilterEval => EvalFilter(s)
    case Enqueue => s.(queued := true)
    case Timer => s.(delayed := false, queued := true)
    case Start(keepDelay) => s.(queued := false, delayed := s.delayed && keepDelay, worker := Reading)
    case Read =>
      s.(worker := match s.history[s.cachePos] case None => Deciding(None, false) case Some(x) => CheckingStale(x))
    case CheckStale =>
      var x := s.worker.read;
      var stale := s.entry == Some(Deleted(x.version));
      s.(entry := Ensured(s.entry), worker := Deciding(if stale then None else Some(x), stale))
    case Decide(outcome) => s.(worker := DecideNext(s.worker, outcome))
    case Record => RecordDeleted(s)
    case Lock => s.(entry := Ensured(s.entry), worker := LockNext(s.worker))
    case Call(reply) => CallNext(s, reply)
    case Mark(requeue) => MarkNext(s, requeue)
    case Done => s.(worker := Idle, delayed := s.delayed || s.worker.requeue)
  }

  /** Before the controller starts: whatever is on the server is still to be delivered or is delivered,
      and nothing is tracked. */
  predicate Initial(s: State)
  {
    && (s.history == [None] || (|s.history| == 2 && s.history[0].None? && s.history[1].Some?))
    && s.issued == (if Live(s.history).Some? then Live(s.history).value.version else 0)
    && s == State(s.history, s.issued, 0, 0, NoFilter, None, s.queued, false, Idle, map[])
  }

  ghost predicate Stepped(s: State, t: State)
  {
    Shape(s) && exists a :: Enabled(s, a) && t == Next(s, a)
  }

  /** Step `i` of the run. */
  ghost predicate StepAt(run: seq<State>, i: nat)
  {
    i + 1 < |run| && Stepped(run[i], run[i + 1])
  }

  ghost predicate IsRun(run: seq<State>)
  {
    && |run| > 0
    && Initial(run[0])
    && (forall i: nat :: i + 1 < |run| ==> StepAt(run, i))
  }

  /******* What is promised *******/

  /** A reconcile is queued, waiting for a timer or a retry, or running. */
  predicate Working(s: State)
  {
    s.queued || s.delayed || !s.worker.Idle?
  }

  /** The replica is gone from the server and the cache, and every event about it has been handled. */
  predicate Gone(s: State)
  {
    Live(s.history).None? && s.deliveredPos + 1 == |s.history|
  }

  /** An entry left behind by a replica that is gone has a reconcile coming to remove it. */
  predicate NotForgotten(s: State)
  {
    s.entry.Some? && Gone(s) ==> Working(s)
  }

  /******* Invariants *******/

  /** A reconcile is coming after this one: the current one either is still free to ask for it or has done so. */
  predicate Armed(s: State)
  {
    s.queued || s.delayed || !(s.worker.Idle? || s.worker == Returning(false))
  }

  /** From here on the handler has a delivered or undelivered replica to see. `Low` skips the state
      before a delete event that a predicate is about to drop because of a detached tombstone. */
  function Low(s: State): nat
  {
    if s.filter.Loaded? && s.filter.found && s.filter.detached.Some? && s.filter.detached.value.Deleted?
    then s.deliveredPos + 1 else s.deliveredPos
  }

  ghost predicate SomeFrom(history: seq<Option<Replica>>, low: nat)
  {
    exists i :: low <= i < |history| && history[i].Some?
  }

  ghost predicate Wake(s: State)
  {
    s.entry.Some? && !Armed(s) ==> SomeFrom(s.history, Low(s))
  }

  predicate SameVersion(x: Option<Replica>, y: Option<Replica>)
  {
    x.Some? && y.Some? && x.value.version == y.value.version
  }

  ghost predicate HistoryOk(history: seq<Option<Replica>>, issued: nat)
  {
    && (forall i :: 0 <= i < |history| && history[i].Some? ==> history[i].value.version <= issued)
    && (forall i :: 0 <= i < |history| - 1 ==> history[i].Some? || history[i + 1].Some?)
    && (forall i, j :: 0 <= i < |history| && 0 <= j < |history| && SameVersion(history[i], history[j]) ==>
          history[i] == history[j])
  }

  ghost predicate ConfirmedOk(history: seq<Option<Replica>>, issued: nat, confirmed: map<nat, Body>)
  {
    && (forall v :: v in confirmed ==> v <= issued)
    && (forall i :: 0 <= i < |history| && history[i].Some? && history[i].value.version in confirmed ==>
          history[i].value.body == confirmed[history[i].value.version])
  }

  /** The version was issued and is not the live one, so it never will be again. */
  predicate Dead(s: State, version: nat)
  {
    version <= s.issued && (Live(s.history).Some? ==> Live(s.history).value.version != version)
  }

  predicate EntryOk(s: State)
  {
    match s.entry
    case None => true
    case Some(Unset) => true
    case Some(Wrote(v)) => v in s.confirmed
    case Some(Deleted(v)) => Dead(s, v) && Armed(s)
  }

  /** A version the predicate still reads from an entry that left the map was confirmed, too. */
  predicate FilterOk(s: State)
  {
    s.filter.Loaded? && s.filter.detached.Some? && s.filter.detached.value.Wrote? ==>
      s.filter.detached.value.version in s.confirmed
  }

  predicate Carries(w: Worker)
  {
    w.CheckingStale? || (w.Deciding? && w.cached.Some?) || w.WriteLock? || w.WriteCall? || w.Matching? ||
    w.CleanLock? || w.CleanCall? || w.CleanMark?
  }

  function Carried(w: Worker): Replica
    requires Carries(w)
  {
    if w.Deciding? then w.cached.value else w.read
  }

  /** While the worker carries the replica it read, the handler has still a replica to see, or has
      queued a reconcile for its deletion; unless the entry is a tombstone, which makes it drop that event. */
  ghost predicate ReadKept(s: State)
  {
    Carries(s.worker) && !(s.entry.Some? && s.entry.value.Deleted?) ==> s.queued || SomeFrom(s.history, Low(s))
  }

  ghost predicate WorkerOk(s: State)
  {
    && (Carries(s.worker) ==> Some(Carried(s.worker)) in s.history)
    && (s.worker.CleanMark? && s.worker.gone ==> Dead(s, s.worker.read.version))
    && (Locked(s.worker) ==> s.entry.Some?)
    && (s.worker.Matching? ==> s.worker.read.version in s.confirmed)
    && (s.worker.Marking? ==> s.worker.version in s.confirmed && (s.queued || SomeFrom(s.history, Low(s))))
    && ReadKept(s)
  }

  /** Kept by every step. */
  ghost predicate Inv(s: State)
  {
    && Shape(s)
    && HistoryOk(s.history, s.issued)
    && ConfirmedOk(s.history, s.issued, s.confirmed)
    && EntryOk(s)
    && FilterOk(s)
    && WorkerOk(s)
  }

  /** The one step that gives a wake-up away: the worker found the replica it had read equal to the
      desired one and replaces a tombstone by its version, although the replica is gone by now, the
      event that said so was dropped because of that tombstone, and nothing else is pending. */
  ghost predicate LosesWakeup(s: State, a: Action)
  {
    && a == Mark(false) && s.worker.Matching?
    && s.entry.Some? && s.entry.value.Deleted?
    && !s.queued && !s.delayed && !SomeFrom(s.history, Low(s))
  }
}

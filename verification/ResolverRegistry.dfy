/**
The template resolver registry: one reference-counted resolver per service account, shared by every
replicated policy that names that account (controllers/propagator/template_utils.go).

The registry is a state machine. A step is one atomic operation of one goroutine: a `sync.Map`
operation, an atomic counter operation, an atomic flag load, a lock operation, or a section run
entirely under the write lock. Calls for one policy are serialised by the work queue; calls for
different policies, cleanup goroutines and background failures interleave freely.
*/
module ResolverRegistry {

  import opened Basics

  type Policy = string

  datatype Account = DefaultAccount | Named(namespace: string, name: string)

  const UINT32: nat := 0x1_0000_0000

  /** Where the call running for one policy stands; `andThen` is the account a GetResolver call
      continues with when the removal was started by it. */
  datatype Call =
    | Idle
    | RemoveLoad(andThen: Option<Account>)
    | RemoveWaitLock(andThen: Option<Account>, sa: Account)
    | RemoveLookup(andThen: Option<Account>, sa: Account)
    | RemoveDecrement(andThen: Option<Account>, sa: Account, w: nat)
    | RemoveCheckCanceled(andThen: Option<Account>, sa: Account, w: nat)
    | RemoveUncache(andThen: Option<Account>, sa: Account, w: nat)
    | RemoveCheckCount(andThen: Option<Account>, sa: Account, w: nat)
    | RemoveSpawn(andThen: Option<Account>, sa: Account, w: nat)
    | RemoveUnlock(andThen: Option<Account>, sa: Account)
    | RemoveUnassign(andThen: Option<Account>, sa: Account)
    | GetLoad(sa: Account)
    | GetRoute(sa: Account, add: bool)
    | GetWaitRead(sa: Account, add: bool)
    | GetLookup(sa: Account, add: bool)
    | GetWaitWrite(sa: Account, add: bool)
    | GetRecheck(sa: Account, add: bool)
    | GetInit(sa: Account, add: bool, previous: Option<nat>)
    | GetInstall(sa: Account, add: bool, previous: Option<nat>, w: nat)
    | GetAdd(sa: Account, add: bool, w: nat, exclusive: bool)
    | GetStore(sa: Account, w: nat, exclusive: bool)
    | GetReturn(sa: Account, w: nat, exclusive: bool)
    | GetUnlock(sa: Account, exclusive: bool)

  /** A replicated policy: the call running for it and its entry in policyToServiceAccount. */
  datatype Agent = Agent(call: Call, account: Option<Account>)

  /** A templateResolverWithCancel; `counter` indexes the counter cells, which wrappers may share. */
  datatype Wrapper = Wrapper(canceled: bool, counter: nat, hasResolver: bool)

  /** What globalLock guards, and the atomics reached through it. `installed` is a history variable:
      the wrappers that were ever stored in the map, with the account they were stored for. */
  datatype Table = Table(resolvers: map<Account, nat>, wrappers: seq<Wrapper>, counters: seq<nat>,
                         installed: map<nat, Account>)

  /** `cleanups` are the cleanup goroutines that still wait for the write lock. globalLock itself is
      not a field: who holds it is read off the calls (InsideRead, InsideWrite). */
  datatype State = State(table: Table, agents: map<Policy, Agent>, cleanups: multiset<(nat, Account)>)

  datatype Action =
    | CallRemove(p: Policy)
    | CallGet(p: Policy, sa: Account)
    | Advance(p: Policy)
    | InitSucceeds(p: Policy)
    | InitFails(p: Policy)
    | Cleanup(w: nat, sa: Account)
    | BackgroundError(sa: Account)
    | BackgroundStop(w: nat)

  /******* The lock *******/

  predicate InsideRead(c: Call)
  {
    match c
    case RemoveLookup(_, _) => true
    case RemoveDecrement(_, _, _) => true
    case RemoveCheckCanceled(_, _, _) => true
    case RemoveUncache(_, _, _) => true
    case RemoveCheckCount(_, _, _) => true
    case RemoveSpawn(_, _, _) => true
    case RemoveUnlock(_, _) => true
    case GetLookup(_, _) => true
    case GetAdd(_, _, _, exclusive) => !exclusive
    case GetStore(_, _, exclusive) => !exclusive
    case GetReturn(_, _, exclusive) => !exclusive
    case GetUnlock(_, exclusive) => !exclusive
    case _ => false
  }

  predicate InsideWrite(c: Call)
  {
    match c
    case GetRecheck(_, _) => true
    case GetInit(_, _, _) => true
    case GetInstall(_, _, _, _) => true
    case GetAdd(_, _, _, exclusive) => exclusive
    case GetStore(_, _, exclusive) => exclusive
    case GetReturn(_, _, exclusive) => exclusive
    case GetUnlock(_, exclusive) => exclusive
    case _ => false
  }

  /** RLock does not block. */
  ghost predicate NoWriter(agents: map<Policy, Agent>)
  {
    forall q :: q in agents ==> !InsideWrite(agents[q].call)
  }

  /** Lock does not block. */
  ghost predicate LockFree(agents: map<Policy, Agent>)
  {
    forall q :: q in agents ==> !InsideWrite(agents[q].call) && !InsideRead(agents[q].call)
  }

  /******* Steps *******/

  /** atomic.Uint32 addition, which wraps around. */
  function Add32(x: nat, delta: int): nat
  {
    (x + delta) % UINT32
  }

  /** Every index is in range, so that the steps below are defined. */
  ghost predicate IndicesOk(s: State)
  {
    && TableIndicesOk(s.table)
    && (forall p :: p in s.agents ==> CallIndexOk(s.agents[p].call, |s.table.wrappers|))
  }

  ghost predicate TableIndicesOk(t: Table)
  {
    && (forall i :: 0 <= i < |t.wrappers| ==> t.wrappers[i].counter < |t.counters|)
    && (forall a :: a in t.resolvers ==> t.resolvers[a] < |t.wrappers|)
    && (forall i :: i in t.installed ==> i < |t.wrappers|)
  }

  predicate CallIndexOk(c: Call, limit: nat)
  {
    match c
    case RemoveDecrement(_, _, w) => w < limit
    case RemoveCheckCanceled(_, _, w) => w < limit
    case RemoveUncache(_, _, w) => w < limit
    case RemoveCheckCount(_, _, w) => w < limit
    case RemoveSpawn(_, _, w) => w < limit
    case GetInit(_, _, previous) => previous.None? || previous.value < limit
    case GetInstall(_, _, previous, w) => w < limit && (previous.None? || previous.value < limit)
    case GetAdd(_, _, w, _) => w < limit
    case GetStore(_, w, _) => w < limit
    case GetReturn(_, w, _) => w < limit
    case _ => true
  }

  ghost predicate Enabled(s: State, a: Action)
  {
    match a
    case CallRemove(p) => p in s.agents && s.agents[p].call.Idle?
    case CallGet(p, _) => p in s.agents && s.agents[p].call.Idle?
    case Advance(p) => p in s.agents && CanAdvance(s.agents, s.agents[p].call)
    case InitSucceeds(p) => p in s.agents && s.agents[p].call.GetInit?
    case InitFails(p) => p in s.agents && s.agents[p].call.GetInit?
    case Cleanup(w, sa) => LockFree(s.agents) && (w, sa) in s.cleanups && w < |s.table.wrappers|
    case BackgroundError(sa) => LockFree(s.agents)
    case BackgroundStop(w) => w < |s.table.wrappers|
  }

  ghost predicate CanAdvance(agents: map<Policy, Agent>, c: Call)
  {
    match c
    case Idle => false
    case RemoveWaitLock(_, _) => NoWriter(agents)
    case GetWaitRead(_, _) => NoWriter(agents)
    case GetWaitWrite(_, _) => LockFree(agents)
    case GetInit(_, _, _) => false
    case _ => true
  }

  function Count(t: Table, w: nat): nat
    requires w < |t.wrappers| && t.wrappers[w].counter < |t.counters|
  {
    t.counters[t.wrappers[w].counter]
  }

  function AddCount(t: Table, w: nat, delta: int): Table
    requires w < |t.wrappers| && t.wrappers[w].counter < |t.counters|
  {
    t.(counters := t.counters[t.wrappers[w].counter := Add32(Count(t, w), delta)])
  }

  function SetWrapper(t: Table, w: nat, x: Wrapper): Table
    requires w < |t.wrappers|
  {
    t.(wrappers := t.wrappers[w := x])
  }

  /** What a removal returns to: its caller, or the rest of the GetResolver call that started it. */
  function AfterRemove(andThen: Option<Account>): Call
  {
    match andThen
    case None => Idle
    case Some(sa) => GetRoute(sa, true)
  }

  /** Neither missing nor cancelled: the test at the two lookups of GetResolver. */
  predicate Usable(t: Table, sa: Account)
    requires sa in t.resolvers ==> t.resolvers[sa] < |t.wrappers|
  {
    sa in t.resolvers && !t.wrappers[t.resolvers[sa]].canceled
  }

  /** One step of RemoveReplicatedPolicy (lines 149-207) as seen by the policy itself. */
  ghost function RemoveCall(t: Table, g: Agent): Agent
    requires TableIndicesOk(t) && CallIndexOk(g.call, |t.wrappers|)
  {
    match g.call
    case RemoveLoad(k) =>
      g.(call := match g.account
                 case None => AfterRemove(k)
                 case Some(DefaultAccount) => RemoveUnassign(k, DefaultAccount)
                 case Some(sa) => RemoveWaitLock(k, sa))
    case RemoveWaitLock(k, sa) => g.(call := RemoveLookup(k, sa))
    case RemoveLookup(k, sa) =>
      g.(call := if sa in t.resolvers then RemoveDecrement(k, sa, t.resolvers[sa]) else RemoveUnlock(k, sa))
    case RemoveDecrement(k, sa, w) => g.(call := RemoveCheckCanceled(k, sa, w))
    case RemoveCheckCanceled(k, sa, w) =>
      g.(call := if t.wrappers[w].canceled then RemoveUnlock(k, sa) else RemoveUncache(k, sa, w))
    case RemoveUncache(k, sa, w) => g.(call := RemoveCheckCount(k, sa, w))
    case RemoveCheckCount(k, sa, w) =>
      g.(call := if Count(t, w) != 0 then RemoveUnlock(k, sa) else RemoveSpawn(k, sa, w))
    case RemoveSpawn(k, sa, w) => g.(call := RemoveUnlock(k, sa))
    case RemoveUnlock(k, sa) => g.(call := RemoveUnassign(k, sa))
    case RemoveUnassign(k, sa) => Agent(AfterRemove(k), None)
    case _ => g
  }

  /** One step of GetResolver (lines 212-290) as seen by the policy itself. */
  ghost function GetCall(t: Table, g: Agent): Agent
    requires TableIndicesOk(t) && CallIndexOk(g.call, |t.wrappers|)
  {
    match g.call
    case GetLoad(sa) =>
      g.(call := if g.account.Some? && g.account.value != sa then RemoveLoad(Some(sa))
                 else GetRoute(sa, g.account.None?))
    case GetRoute(sa, add) =>
      if sa == DefaultAccount then Agent(Idle, Some(DefaultAccount)) else g.(call := GetWaitRead(sa, add))
    case GetWaitRead(sa, add) => g.(call := GetLookup(sa, add))
    case GetLookup(sa, add) =>
      g.(call := if Usable(t, sa) then GetAdd(sa, add, t.resolvers[sa], false) else GetWaitWrite(sa, add))
    case GetWaitWrite(sa, add) => g.(call := GetRecheck(sa, add))
    case GetRecheck(sa, add) =>
      g.(call := if Usable(t, sa) then GetAdd(sa, add, t.resolvers[sa], true)
                 else GetInit(sa, add, if sa in t.resolvers then Some(t.resolvers[sa]) else None))
    case GetInstall(sa, add, previous, w) => g.(call := GetAdd(sa, add, w, true))
    case GetAdd(sa, add, w, ex) => g.(call := if add then GetStore(sa, w, ex) else GetReturn(sa, w, ex))
    case GetStore(sa, w, ex) => Agent(GetReturn(sa, w, ex), Some(sa))
    case GetReturn(sa, w, ex) => g.(call := GetUnlock(sa, ex))
    case GetUnlock(sa, ex) => g.(call := Idle)
    case _ => g
  }

  predicate IsRemove(c: Call)
  {
    || c.RemoveLoad? || c.RemoveWaitLock? || c.RemoveLookup? || c.RemoveDecrement? || c.RemoveCheckCanceled?
    || c.RemoveUncache? || c.RemoveCheckCount? || c.RemoveSpawn? || c.RemoveUnlock? || c.RemoveUnassign?
  }

  /** A built wrapper is stored; it takes over the counter of the cancelled one it replaces (lines 263-270). */
  function Install(t: Table, sa: Account, previous: Option<nat>, w: nat): Table
    requires w < |t.wrappers| && (previous.None? || previous.value < |t.wrappers|)
  {
    var built := t.wrappers[w];
    var shared := if previous.Some? then built.(counter := t.wrappers[previous.value].counter) else built;
    SetWrapper(t, w, shared).(resolvers := t.resolvers[sa := w], installed := t.installed[w := sa])
  }

  /** What one step of a call does to the table. */
  ghost function CallEffect(t: Table, c: Call): Table
    requires TableIndicesOk(t) && CallIndexOk(c, |t.wrappers|)
  {
    match c
    case RemoveDecrement(_, _, w) => AddCount(t, w, -1)
    case GetInstall(sa, _, previous, w) => Install(t, sa, previous, w)
    case GetAdd(_, add, w, _) => if add then AddCount(t, w, 1) else t
    case _ => t
  }

  /** initResolver built a wrapper with a fresh counter (lines 550-591). */
  function Build(t: Table): Table
  {
    t.(wrappers := t.wrappers + [Wrapper(false, |t.counters|, true)], counters := t.counters + [0])
  }

  /** The body of the cleanup goroutine, run under the write lock (lines 187-203). */
  function RunCleanup(t: Table, w: nat, sa: Account): Table
    requires w < |t.wrappers| && t.wrappers[w].counter < |t.counters|
  {
    if Count(t, w) != 0 || t.wrappers[w].canceled then t
    else SetWrapper(t, w, t.wrappers[w].(canceled := true)).(resolvers := t.resolvers - {sa})
  }

  /** The lock section of onBackgroundError (lines 599-607). */
  ghost function FailResolver(t: Table, sa: Account): Table
    requires TableIndicesOk(t)
  {
    if sa in t.resolvers then
      SetWrapper(t, t.resolvers[sa], t.wrappers[t.resolvers[sa]].(canceled := true, hasResolver := false))
    else t
  }

  ghost function NextCall(t: Table, g: Agent): Agent
    requires TableIndicesOk(t) && CallIndexOk(g.call, |t.wrappers|)
  {
    if IsRemove(g.call) then RemoveCall(t, g) else GetCall(t, g)
  }

  ghost function Spawned(c: Call): multiset<(nat, Account)>
  {
    if c.RemoveSpawn? then multiset{(c.w, c.sa)} else multiset{}
  }

  ghost function Goto(s: State, p: Policy, c: Call): State
    requires p in s.agents
  {
    s.(agents := s.agents[p := s.agents[p].(call := c)])
  }

  /** The call of a policy takes its next step. */
  ghost function Advanced(s: State, p: Policy): State
    requires IndicesOk(s) && p in s.agents
  {
    var g := s.agents[p];
    State(CallEffect(s.table, g.call), s.agents[p := NextCall(s.table, g)], s.cleanups + Spawned(g.call))
  }

  /** A waiting cleanup gets the write lock. */
  ghost function Cleaned(s: State, w: nat, sa: Account): State
    requires IndicesOk(s) && w < |s.table.wrappers|
  {
    s.(table := RunCleanup(s.table, w, sa), cleanups := s.cleanups - multiset{(w, sa)})
  }

  /** The goroutine of initResolver that waits for the resolver to stop sets the flag (lines 555-570). */
  function StopWrapper(t: Table, w: nat): Table
    requires w < |t.wrappers|
  {
    SetWrapper(t, w, t.wrappers[w].(canceled := true))
  }

  ghost function Next(s: State, a: Action): State
    requires IndicesOk(s) && Enabled(s, a)
  {
    match a
    case CallRemove(p) => Goto(s, p, RemoveLoad(None))
    case CallGet(p, sa) => Goto(s, p, GetLoad(sa))
    case Advance(p) => Advanced(s, p)
    case InitSucceeds(p) =>
      var c := s.agents[p].call;
      Goto(s.(table := Build(s.table)), p, GetInstall(c.sa, c.add, c.previous, |s.table.wrappers|))
    case InitFails(p) => Goto(s, p, GetUnlock(s.agents[p].call.sa, true))
    case Cleanup(w, sa) => Cleaned(s, w, sa)
    case BackgroundError(sa) => s.(table := FailResolver(s.table, sa))
    case BackgroundStop(w) => s.(table := StopWrapper(s.table, w))
  }

  ghost predicate Initial(s: State)
  {
    && |s.agents| < UINT32
    && s.table == Table(map[], [], [], map[])
    && (forall p :: p in s.agents ==> s.agents[p] == Agent(Idle, None))
    && s.cleanups == multiset{}
  }

  ghost predicate Stepped(s: State, t: State)
  {
    IndicesOk(s) && exists a :: Enabled(s, a) && t == Next(s, a)
  }

  /** Step `i` of the run. */
  ghost predicate StepAt(run: seq<State>, i: nat)
  {
    i + 1 < |run| && Stepped(run[i], run[i + 1])
  }

  /** Any number of policies, below the range of a uint32, in any interleaving. */
  ghost predicate IsRun(run: seq<State>)
  {
    && |run| > 0
    && Initial(run[0])
    && (forall i: nat :: i + 1 < |run| ==> StepAt(run, i))
  }

  /******* References *******/

  /** A removal that has decremented the counter but not yet deleted the policy's assignment. */
  predicate Released(c: Call)
  {
    || c.RemoveCheckCanceled? || c.RemoveUncache? || c.RemoveCheckCount? || c.RemoveSpawn? || c.RemoveUnlock?
    || c.RemoveUnassign?
  }

  /** The policy accounts for one unit of the reference count of `sa`. */
  predicate Holds(g: Agent, sa: Account)
  {
    if g.call.GetStore? then g.call.sa == sa else !Released(g.call) && g.account == Some(sa)
  }

  ghost function Holders(agents: map<Policy, Agent>, sa: Account): set<Policy>
  {
    set p | p in agents && Holds(agents[p], sa)
  }

  /** Policies mapped to the account in policyToServiceAccount. */
  ghost function AssignedTo(agents: map<Policy, Agent>, sa: Account): set<Policy>
  {
    set p | p in agents && agents[p].account == Some(sa)
  }

  /** Removals between the decrement and the deferred map delete. */
  ghost function Releasing(agents: map<Policy, Agent>, sa: Account): set<Policy>
  {
    set p | p in agents && Released(agents[p].call) && agents[p].call.sa == sa
  }

  /** Additions between the increment and the store. */
  ghost function Adding(agents: map<Policy, Agent>, sa: Account): set<Policy>
  {
    set p | p in agents && agents[p].call.GetStore? && agents[p].call.sa == sa
  }

  /******* Invariant *******/

  ghost predicate Exclusive(agents: map<Policy, Agent>)
  {
    forall p, q :: p in agents && q in agents && p != q && InsideWrite(agents[p].call) ==>
      !InsideWrite(agents[q].call) && !InsideRead(agents[q].call)
  }

  /** The wrapper a call carries is the account's current entry. */
  predicate IsEntry(t: Table, sa: Account, w: nat)
  {
    sa in t.resolvers && t.resolvers[sa] == w && w < |t.wrappers|
  }

  predicate IsLiveEntry(t: Table, sa: Account, w: nat)
  {
    IsEntry(t, sa, w) && t.wrappers[w].hasResolver
  }

  /** addReference is set exactly when the policy has no assignment; otherwise it is this account's. */
  predicate AddOk(g: Agent, sa: Account, add: bool)
  {
    sa.Named? && g.account == if add then None else Some(sa)
  }

  predicate PreviousOk(t: Table, sa: Account, previous: Option<nat>)
  {
    if sa in t.resolvers then
      && previous == Some(t.resolvers[sa]) && t.resolvers[sa] < |t.wrappers|
      && t.wrappers[t.resolvers[sa]].canceled
    else previous == None
  }

  /** A wrapper that was built but not yet stored: nothing else shares its counter. */
  ghost predicate Unshared(t: Table, w: nat)
  {
    && w < |t.wrappers| && w !in t.installed && t.wrappers[w].hasResolver
    && t.wrappers[w].counter < |t.counters| && t.counters[t.wrappers[w].counter] == 0
    && (forall a :: a in t.resolvers && t.resolvers[a] < |t.wrappers| ==>
          t.wrappers[t.resolvers[a]].counter != t.wrappers[w].counter)
  }

  /** What is known at each point of a call. */
  ghost predicate AgentOk(t: Table, g: Agent)
  {
    match g.call
    case Idle => true
    case RemoveLoad(k) => true
    case RemoveWaitLock(k, sa) => sa.Named? && g.account == Some(sa)
    case RemoveLookup(k, sa) => sa.Named? && g.account == Some(sa)
    case RemoveDecrement(k, sa, w) => sa.Named? && g.account == Some(sa) && IsEntry(t, sa, w)
    case RemoveCheckCanceled(k, sa, w) => sa.Named? && g.account == Some(sa) && IsEntry(t, sa, w)
    case RemoveUncache(k, sa, w) => sa.Named? && g.account == Some(sa) && IsLiveEntry(t, sa, w)
    case RemoveCheckCount(k, sa, w) => sa.Named? && g.account == Some(sa) && IsEntry(t, sa, w)
    case RemoveSpawn(k, sa, w) => sa.Named? && g.account == Some(sa) && IsEntry(t, sa, w)
    case RemoveUnlock(k, sa) => sa.Named? && g.account == Some(sa)
    case RemoveUnassign(k, sa) => g.account == Some(sa)
    case GetLoad(sa) => true
    case GetRoute(sa, add) => g.account == if add then None else Some(sa)
    case GetWaitRead(sa, add) => AddOk(g, sa, add)
    case GetLookup(sa, add) => AddOk(g, sa, add)
    case GetWaitWrite(sa, add) => AddOk(g, sa, add)
    case GetRecheck(sa, add) => AddOk(g, sa, add)
    case GetInit(sa, add, previous) => AddOk(g, sa, add) && PreviousOk(t, sa, previous)
    case GetInstall(sa, add, previous, w) => AddOk(g, sa, add) && PreviousOk(t, sa, previous) && Unshared(t, w)
    case GetAdd(sa, add, w, ex) => AddOk(g, sa, add) && IsLiveEntry(t, sa, w)
    case GetStore(sa, w, ex) => AddOk(g, sa, true) && IsLiveEntry(t, sa, w)
    case GetReturn(sa, w, ex) => g.account == Some(sa) && IsLiveEntry(t, sa, w)
    case GetUnlock(sa, ex) => true
  }

  /** Every entry was stored for its account. */
  ghost predicate EntriesOk(t: Table)
  {
    && DefaultAccount !in t.resolvers
    && (forall a :: a in t.resolvers ==> t.resolvers[a] in t.installed && t.installed[t.resolvers[a]] == a)
  }

  /** Entries of different accounts do not share a counter. */
  ghost predicate CountersApart(t: Table)
    requires TableIndicesOk(t)
  {
    forall a, b :: a in t.resolvers && b in t.resolvers && a != b ==>
      t.wrappers[t.resolvers[a]].counter != t.wrappers[t.resolvers[b]].counter
  }

  /** Only a cancelled wrapper has lost its resolver. */
  ghost predicate FlagsOk(t: Table)
  {
    forall i :: 0 <= i < |t.wrappers| && !t.wrappers[i].hasResolver ==> t.wrappers[i].canceled
  }

  /** A stored wrapper that is not cancelled is still the entry of its account. */
  ghost predicate CurrentOk(t: Table)
    requires TableIndicesOk(t)
  {
    forall i :: i in t.installed && !t.wrappers[i].canceled ==> IsEntry(t, t.installed[i], i)
  }

  ghost predicate TableOk(t: Table)
  {
    TableIndicesOk(t) && EntriesOk(t) && CountersApart(t) && FlagsOk(t) && CurrentOk(t)
  }

  ghost predicate AgentsOk(t: Table, agents: map<Policy, Agent>)
  {
    forall p :: p in agents ==> AgentOk(t, agents[p]) && CallIndexOk(agents[p].call, |t.wrappers|)
  }

  ghost predicate CountsOk(t: Table, agents: map<Policy, Agent>)
    requires TableIndicesOk(t)
  {
    && (forall a :: a in t.resolvers ==> Count(t, t.resolvers[a]) == |Holders(agents, a)|)
    && (forall p, a :: p in agents && Holds(agents[p], a) && a != DefaultAccount ==> a in t.resolvers)
  }

  /** The call is going to look at, or add to, the count of wrapper `w`. */
  predicate Attends(c: Call, w: nat)
  {
    || (c.RemoveCheckCanceled? && c.w == w) || (c.RemoveUncache? && c.w == w) || (c.RemoveCheckCount? && c.w == w)
    || (c.RemoveSpawn? && c.w == w) || (c.GetAdd? && c.add && c.w == w)
  }

  /** An uncancelled entry whose count is zero is about to be dealt with. */
  ghost predicate ZeroAttended(s: State, sa: Account)
    requires TableIndicesOk(s.table) && sa in s.table.resolvers
  {
    var w := s.table.resolvers[sa];
    Count(s.table, w) == 0 && !s.table.wrappers[w].canceled ==>
      (w, sa) in s.cleanups || exists p :: p in s.agents && Attends(s.agents[p].call, w)
  }

  ghost predicate ZerosOk(s: State)
    requires TableIndicesOk(s.table)
  {
    forall a :: a in s.table.resolvers ==> ZeroAttended(s, a)
  }

  ghost predicate CleanupsOk(t: Table, cleanups: multiset<(nat, Account)>)
  {
    forall w, a :: (w, a) in cleanups ==> w in t.installed && t.installed[w] == a
  }

  ghost predicate Inv(s: State)
  {
    && |s.agents| < UINT32
    && TableOk(s.table)
    && AgentsOk(s.table, s.agents)
    && Exclusive(s.agents)
    && CountsOk(s.table, s.agents)
    && ZerosOk(s)
    && CleanupsOk(s.table, s.cleanups)
  }
}

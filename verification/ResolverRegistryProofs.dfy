/** Every interleaving of the registry's steps keeps its invariant, and what follows from it. */
module ResolverRegistryProofs {
  import opened Basics
  import opened ResolverRegistry

  /******* Steps that change one call and no reference *******/

  ghost predicate SameHolds(g: Agent, h: Agent)
  {
    forall a :: a != DefaultAccount ==> (Holds(h, a) <==> Holds(g, a))
  }

  /** Dropping out of the calls that attend a wrapper is allowed once its count is settled. */
  ghost predicate Settled(t: Table, cleanups: multiset<(nat, Account)>, c: Call, d: Call)
    requires TableIndicesOk(t)
  {
    forall a :: a in t.resolvers && Attends(c, t.resolvers[a]) ==>
      || Attends(d, t.resolvers[a])
      || Count(t, t.resolvers[a]) != 0
      || t.wrappers[t.resolvers[a]].canceled
      || (t.resolvers[a], a) in cleanups
  }

  lemma HoldersSame(agents: map<Policy, Agent>, p: Policy, h: Agent, a: Account)
    requires p in agents && SameHolds(agents[p], h) && a != DefaultAccount
    ensures Holders(agents[p := h], a) == Holders(agents, a)
  {
  }

  lemma CountsSame(t: Table, agents: map<Policy, Agent>, p: Policy, h: Agent)
    requires TableOk(t) && CountsOk(t, agents) && p in agents && SameHolds(agents[p], h)
    ensures CountsOk(t, agents[p := h])
  {
    forall a | a in t.resolvers
      ensures Count(t, t.resolvers[a]) == |Holders(agents[p := h], a)|
    {
      HoldersSame(agents, p, h, a);
    }
    var after := agents[p := h];
    forall q, a | q in after && Holds(after[q], a) && a != DefaultAccount
      ensures a in t.resolvers
    {
      assert q in agents && Holds(agents[q], a);
    }
  }

  lemma ZeroSame(s: State, p: Policy, h: Agent, a: Account)
    requires TableIndicesOk(s.table) && a in s.table.resolvers && ZeroAttended(s, a)
    requires p in s.agents && Settled(s.table, s.cleanups, s.agents[p].call, h.call)
    ensures ZeroAttended(s.(agents := s.agents[p := h]), a)
  {
    var w := s.table.resolvers[a];
    var t := s.(agents := s.agents[p := h]);
    if Count(s.table, w) == 0 && !s.table.wrappers[w].canceled && (w, a) !in s.cleanups {
      var q :| q in s.agents && Attends(s.agents[q].call, w);
      assert q in t.agents && Attends(t.agents[q].call, w);
    }
  }

  lemma MoveKeepsInv(s: State, p: Policy, h: Agent)
    requires Inv(s) && p in s.agents && SameHolds(s.agents[p], h)
    requires AgentOk(s.table, h) && CallIndexOk(h.call, |s.table.wrappers|)
    requires Exclusive(s.agents[p := h])
    requires Settled(s.table, s.cleanups, s.agents[p].call, h.call)
    ensures Inv(s.(agents := s.agents[p := h]))
  {
    CountsSame(s.table, s.agents, p, h);
    forall a | a in s.table.resolvers
      ensures ZeroAttended(s.(agents := s.agents[p := h]), a)
    {
      ZeroSame(s, p, h, a);
    }
    assert |s.agents[p := h]| == |s.agents| by {
      assert s.agents[p := h].Keys == s.agents.Keys;
    }
  }

  lemma StaysExclusive(agents: map<Policy, Agent>, p: Policy, h: Agent)
    requires Exclusive(agents) && p in agents
    requires InsideWrite(h.call) ==> InsideWrite(agents[p].call) || LockFree(agents)
    requires InsideRead(h.call) ==> InsideRead(agents[p].call) || InsideWrite(agents[p].call) || NoWriter(agents)
    ensures Exclusive(agents[p := h])
  {
  }

  lemma RemoveSettles(t: Table, cleanups: multiset<(nat, Account)>, g: Agent)
    requires TableOk(t) && AgentOk(t, g) && CallIndexOk(g.call, |t.wrappers|) && IsRemove(g.call)
    requires g.call.RemoveSpawn? ==> (g.call.w, g.call.sa) in cleanups
    ensures Settled(t, cleanups, g.call, RemoveCall(t, g).call)
  {
  }

  lemma RemoveMoves(t: Table, g: Agent)
    requires TableOk(t) && AgentOk(t, g) && CallIndexOk(g.call, |t.wrappers|) && IsRemove(g.call)
    requires !g.call.RemoveDecrement?
    requires g.call.RemoveLookup? ==> g.call.sa in t.resolvers
    ensures var h := RemoveCall(t, g); SameHolds(g, h) && AgentOk(t, h) && CallIndexOk(h.call, |t.wrappers|)
  {
  }

  lemma GetSettles(t: Table, cleanups: multiset<(nat, Account)>, g: Agent)
    requires TableIndicesOk(t) && CallIndexOk(g.call, |t.wrappers|) && !IsRemove(g.call)
    requires !(g.call.GetAdd? && g.call.add)
    ensures Settled(t, cleanups, g.call, GetCall(t, g).call)
  {
  }

  lemma GetHolds(t: Table, g: Agent)
    requires TableIndicesOk(t) && AgentOk(t, g) && CallIndexOk(g.call, |t.wrappers|) && !IsRemove(g.call)
    requires !(g.call.GetAdd? && g.call.add)
    ensures SameHolds(g, GetCall(t, g))
  {
  }

  lemma GetMoves(t: Table, g: Agent)
    requires TableOk(t) && AgentOk(t, g) && CallIndexOk(g.call, |t.wrappers|) && !IsRemove(g.call)
    requires !g.call.GetInstall? && !(g.call.GetAdd? && g.call.add)
    ensures AgentOk(t, GetCall(t, g)) && CallIndexOk(GetCall(t, g).call, |t.wrappers|)
  {
  }

  /** A call enters the lock only through a step that waits for it. */
  lemma CallLocks(agents: map<Policy, Agent>, t: Table, p: Policy)
    requires TableIndicesOk(t) && p in agents && CallIndexOk(agents[p].call, |t.wrappers|)
    requires CanAdvance(agents, agents[p].call) && Exclusive(agents)
    ensures Exclusive(agents[p := NextCall(t, agents[p])])
  {
    StaysExclusive(agents, p, NextCall(t, agents[p]));
  }

  lemma QuietStep(s: State, p: Policy)
    requires Inv(s) && p in s.agents && CanAdvance(s.agents, s.agents[p].call)
    requires var c := s.agents[p].call; !c.RemoveDecrement? && !c.GetInstall? && !(c.GetAdd? && c.add)
    requires s.agents[p].call.RemoveSpawn? ==> (s.agents[p].call.w, s.agents[p].call.sa) in s.cleanups
    ensures Inv(s.(agents := s.agents[p := NextCall(s.table, s.agents[p])]))
  {
    var g := s.agents[p];
    var h := NextCall(s.table, g);
    if IsRemove(g.call) {
      if g.call.RemoveLookup? {
        assert Holds(g, g.call.sa);
      }
      RemoveMoves(s.table, g);
      RemoveSettles(s.table, s.cleanups, g);
    } else {
      GetHolds(s.table, g);
      GetMoves(s.table, g);
      GetSettles(s.table, s.cleanups, g);
    }
    CallLocks(s.agents, s.table, p);
    MoveKeepsInv(s, p, h);
  }

  lemma CallStarts(s: State, p: Policy, c: Call)
    requires Inv(s) && p in s.agents && s.agents[p].call.Idle?
    requires c == RemoveLoad(None) || c.GetLoad?
    ensures Inv(Goto(s, p, c))
  {
    var h := s.agents[p].(call := c);
    StaysExclusive(s.agents, p, h);
    MoveKeepsInv(s, p, h);
  }

  lemma InitFailsStep(s: State, p: Policy)
    requires Inv(s) && Enabled(s, InitFails(p))
    ensures Inv(Next(s, InitFails(p)))
  {
    var h := s.agents[p].(call := GetUnlock(s.agents[p].call.sa, true));
    assert AgentOk(s.table, s.agents[p]);
    StaysExclusive(s.agents, p, h);
    MoveKeepsInv(s, p, h);
  }

  /** Waiting cleanups are only ever looked at, never required to be absent. */
  lemma SpawnKeepsInv(s: State, w: nat, sa: Account)
    requires Inv(s) && IsEntry(s.table, sa, w)
    ensures Inv(s.(cleanups := s.cleanups + multiset{(w, sa)}))
  {
    var t := s.(cleanups := s.cleanups + multiset{(w, sa)});
    forall a | a in s.table.resolvers
      ensures ZeroAttended(t, a)
    {
      assert ZeroAttended(s, a);
    }
  }

  /******* Steps that move a counter *******/

  lemma HoldersGain(agents: map<Policy, Agent>, p: Policy, h: Agent, a: Account)
    requires p in agents && Holds(h, a) && !Holds(agents[p], a)
    ensures |Holders(agents[p := h], a)| == |Holders(agents, a)| + 1
  {
    assert Holders(agents[p := h], a) == Holders(agents, a) + {p};
  }

  lemma HoldersLose(agents: map<Policy, Agent>, p: Policy, h: Agent, a: Account)
    requires p in agents && !Holds(h, a) && Holds(agents[p], a)
    ensures |Holders(agents[p := h], a)| + 1 == |Holders(agents, a)|
  {
    assert Holders(agents[p := h], a) + {p} == Holders(agents, a);
  }

  lemma HoldersBound(agents: map<Policy, Agent>, a: Account)
    ensures |Holders(agents, a)| <= |agents|
  {
    assert Holders(agents, a) <= agents.Keys;
    SubsetCard(Holders(agents, a), agents.Keys);
  }

  /** Every other policy keeps its references; `p` gains (delta 1) or loses (delta -1) the one on `sa`. */
  ghost predicate Shifts(g: Agent, h: Agent, sa: Account, delta: int)
  {
    && (delta == 1 || delta == -1)
    && (Holds(h, sa) <==> delta == 1)
    && (Holds(g, sa) <==> delta == -1)
    && (forall a :: a != sa && a != DefaultAccount ==> (Holds(h, a) <==> Holds(g, a)))
  }

  lemma CountShift(t: Table, agents: map<Policy, Agent>, p: Policy, h: Agent, sa: Account, w: nat, delta: int)
    requires TableOk(t) && CountsOk(t, agents) && p in agents && IsEntry(t, sa, w)
    requires |agents| < UINT32 && Shifts(agents[p], h, sa, delta)
    ensures CountsOk(AddCount(t, w, delta), agents[p := h])
    ensures 0 <= Count(t, w) + delta == Count(AddCount(t, w, delta), w) < UINT32
  {
    var u := AddCount(t, w, delta);
    var after := agents[p := h];
    assert after.Keys == agents.Keys;
    HoldersBound(after, sa);
    if delta == 1 {
      HoldersGain(agents, p, h, sa);
    } else {
      HoldersLose(agents, p, h, sa);
    }
    forall a | a in u.resolvers
      ensures Count(u, u.resolvers[a]) == |Holders(after, a)|
    {
      if a != sa {
        assert Holders(after, a) == Holders(agents, a);
      }
    }
    forall q, a | q in after && Holds(after[q], a) && a != DefaultAccount
      ensures a in u.resolvers
    {
      if q != p || a != sa {
        assert q in agents && Holds(agents[q], a);
      }
    }
  }

  lemma CountShiftAgents(t: Table, agents: map<Policy, Agent>, p: Policy, h: Agent, w: nat, delta: int)
    requires TableOk(t) && AgentsOk(t, agents) && w < |t.wrappers| && p in agents
    requires forall q :: q in agents && q != p ==> !agents[q].call.GetInstall?
    requires !h.call.GetInstall? && AgentOk(t, h) && CallIndexOk(h.call, |t.wrappers|)
    ensures AgentsOk(AddCount(t, w, delta), agents[p := h])
  {
    var u := AddCount(t, w, delta);
    var after := agents[p := h];
    forall q | q in after
      ensures AgentOk(u, after[q])
    {
      assert AgentOk(t, after[q]) && !after[q].call.GetInstall?;
    }
  }

  /** An account whose entry and count a step leaves alone stays attended if `p` was not the one attending. */
  lemma ZeroElsewhere(s: State, n: State, p: Policy, a: Account)
    requires TableIndicesOk(s.table) && TableIndicesOk(n.table)
    requires a in s.table.resolvers && a in n.table.resolvers && s.table.resolvers[a] == n.table.resolvers[a]
    requires Count(s.table, s.table.resolvers[a]) == Count(n.table, s.table.resolvers[a])
    requires !n.table.wrappers[s.table.resolvers[a]].canceled ==> !s.table.wrappers[s.table.resolvers[a]].canceled
    requires (s.table.resolvers[a], a) in s.cleanups ==> (s.table.resolvers[a], a) in n.cleanups
    requires p in s.agents && p in n.agents && n.agents == s.agents[p := n.agents[p]]
    requires !Attends(s.agents[p].call, s.table.resolvers[a])
    requires ZeroAttended(s, a)
    ensures ZeroAttended(n, a)
  {
    var w := s.table.resolvers[a];
    if Count(n.table, w) == 0 && !n.table.wrappers[w].canceled && (w, a) !in n.cleanups {
      var q :| q in s.agents && Attends(s.agents[q].call, w);
      assert q in n.agents && Attends(n.agents[q].call, w);
    }
  }

  lemma ShiftTable(t: Table, w: nat, delta: int)
    requires TableOk(t) && w < |t.wrappers|
    ensures TableOk(AddCount(t, w, delta))
  {
  }

  lemma ShiftZero(s: State, p: Policy, h: Agent, sa: Account, w: nat, delta: int, a: Account)
    requires TableOk(s.table) && p in s.agents && IsEntry(s.table, sa, w) && a in s.table.resolvers
    requires ZeroAttended(s, a)
    requires forall v :: Attends(s.agents[p].call, v) ==> v == w
    requires Count(AddCount(s.table, w, delta), w) != 0 || Attends(h.call, w)
    ensures ZeroAttended(s.(table := AddCount(s.table, w, delta), agents := s.agents[p := h]), a)
  {
    var n := s.(table := AddCount(s.table, w, delta), agents := s.agents[p := h]);
    if a != sa {
      assert s.table.installed[s.table.resolvers[a]] == a && s.table.installed[w] == sa;
      ZeroElsewhere(s, n, p, a);
    } else {
      assert p in n.agents && n.agents[p] == h;
    }
  }

  lemma ShiftZeros(s: State, p: Policy, h: Agent, sa: Account, w: nat, delta: int)
    requires TableOk(s.table) && p in s.agents && IsEntry(s.table, sa, w)
    requires ZerosOk(s)
    requires forall v :: Attends(s.agents[p].call, v) ==> v == w
    requires Count(AddCount(s.table, w, delta), w) != 0 || Attends(h.call, w)
    requires TableOk(AddCount(s.table, w, delta))
    ensures ZerosOk(s.(table := AddCount(s.table, w, delta), agents := s.agents[p := h]))
  {
    var n := s.(table := AddCount(s.table, w, delta), agents := s.agents[p := h]);
    forall a | a in n.table.resolvers
      ensures ZeroAttended(n, a)
    {
      ShiftZero(s, p, h, sa, w, delta, a);
    }
  }

  lemma ShiftParts(t: Table, agents: map<Policy, Agent>, p: Policy, h: Agent, sa: Account, w: nat, delta: int)
    requires TableOk(t) && AgentsOk(t, agents) && CountsOk(t, agents) && |agents| < UINT32
    requires p in agents && IsEntry(t, sa, w) && Shifts(agents[p], h, sa, delta)
    requires forall q :: q in agents && q != p ==> !agents[q].call.GetInstall?
    requires !h.call.GetInstall? && AgentOk(t, h) && CallIndexOk(h.call, |t.wrappers|)
    ensures var u := AddCount(t, w, delta); TableOk(u) && AgentsOk(u, agents[p := h]) && CountsOk(u, agents[p := h])
    ensures 0 <= Count(t, w) + delta == Count(AddCount(t, w, delta), w)
    ensures |agents[p := h]| == |agents|
  {
    CountShift(t, agents, p, h, sa, w, delta);
    CountShiftAgents(t, agents, p, h, w, delta);
    ShiftTable(t, w, delta);
    assert agents[p := h].Keys == agents.Keys;
  }

  lemma ShiftKeepsInv(s: State, p: Policy, h: Agent, sa: Account, w: nat, delta: int)
    requires Inv(s) && p in s.agents && IsEntry(s.table, sa, w) && Shifts(s.agents[p], h, sa, delta)
    requires forall v :: Attends(s.agents[p].call, v) ==> v == w
    requires forall q :: q in s.agents && q != p ==> !s.agents[q].call.GetInstall?
    requires !h.call.GetInstall? && AgentOk(s.table, h) && CallIndexOk(h.call, |s.table.wrappers|)
    requires Exclusive(s.agents[p := h])
    requires delta == 1 || Attends(h.call, w)
    ensures Inv(s.(table := AddCount(s.table, w, delta), agents := s.agents[p := h]))
    ensures delta == -1 ==> Count(s.table, w) >= 1
  {
    ShiftParts(s.table, s.agents, p, h, sa, w, delta);
    ShiftZeros(s, p, h, sa, w, delta);
  }

  lemma NoInstaller(agents: map<Policy, Agent>, p: Policy)
    requires Exclusive(agents) && p in agents && (InsideRead(agents[p].call) || InsideWrite(agents[p].call))
    ensures forall q :: q in agents && q != p ==> !agents[q].call.GetInstall?
  {
  }

  lemma DecrementMoves(t: Table, g: Agent)
    requires TableIndicesOk(t) && AgentOk(t, g) && CallIndexOk(g.call, |t.wrappers|) && g.call.RemoveDecrement?
    ensures var h := RemoveCall(t, g);
            AgentOk(t, h) && CallIndexOk(h.call, |t.wrappers|) && Shifts(g, h, g.call.sa, -1) &&
            Attends(h.call, g.call.w)
  {
  }

  lemma DecrementKeepsInv(s: State, p: Policy, h: Agent)
    requires Inv(s) && p in s.agents && s.agents[p].call.RemoveDecrement?
    requires AgentOk(s.table, s.agents[p]) && h == RemoveCall(s.table, s.agents[p])
    ensures Inv(s.(table := AddCount(s.table, s.agents[p].call.w, -1), agents := s.agents[p := h]))
    ensures Count(s.table, s.agents[p].call.w) >= 1
  {
    DecrementMoves(s.table, s.agents[p]);
    StaysExclusive(s.agents, p, h);
    NoInstaller(s.agents, p);
    ShiftKeepsInv(s, p, h, s.agents[p].call.sa, s.agents[p].call.w, -1);
  }

  lemma AddMoves(t: Table, g: Agent)
    requires TableIndicesOk(t) && AgentOk(t, g) && CallIndexOk(g.call, |t.wrappers|) && g.call.GetAdd? && g.call.add
    ensures var h := GetCall(t, g);
            AgentOk(t, h) && CallIndexOk(h.call, |t.wrappers|) && Shifts(g, h, g.call.sa, 1)
  {
  }

  lemma AddKeepsInv(s: State, p: Policy, h: Agent)
    requires Inv(s) && p in s.agents && s.agents[p].call.GetAdd? && s.agents[p].call.add
    requires AgentOk(s.table, s.agents[p]) && h == GetCall(s.table, s.agents[p])
    ensures Inv(s.(table := AddCount(s.table, s.agents[p].call.w, 1), agents := s.agents[p := h]))
  {
    AddMoves(s.table, s.agents[p]);
    StaysExclusive(s.agents, p, h);
    NoInstaller(s.agents, p);
    ShiftKeepsInv(s, p, h, s.agents[p].call.sa, s.agents[p].call.w, 1);
  }

  /******* Steps of the writer *******/

  /** A call outside the lock knows nothing about the table. */
  lemma OutsideOk(t: Table, u: Table, g: Agent)
    requires AgentOk(t, g) && CallIndexOk(g.call, |t.wrappers|) && !InsideRead(g.call) && !InsideWrite(g.call)
    ensures AgentOk(u, g) && CallIndexOk(g.call, |u.wrappers|)
  {
  }

  lemma WriterAgents(t: Table, u: Table, agents: map<Policy, Agent>, p: Policy, h: Agent)
    requires AgentsOk(t, agents) && Exclusive(agents) && p in agents && InsideWrite(agents[p].call)
    requires AgentOk(u, h) && CallIndexOk(h.call, |u.wrappers|)
    ensures AgentsOk(u, agents[p := h])
  {
    var after := agents[p := h];
    forall q | q in after
      ensures AgentOk(u, after[q]) && CallIndexOk(after[q].call, |u.wrappers|)
    {
      if q != p {
        OutsideOk(t, u, agents[q]);
      }
    }
  }

  lemma BuildTable(t: Table)
    requires TableOk(t)
    ensures TableOk(Build(t)) && Unshared(Build(t), |t.wrappers|)
  {
  }

  lemma BuildCounts(t: Table, agents: map<Policy, Agent>)
    requires TableOk(t) && CountsOk(t, agents)
    ensures TableIndicesOk(Build(t)) && CountsOk(Build(t), agents)
  {
    var u := Build(t);
    forall a | a in u.resolvers
      ensures Count(u, u.resolvers[a]) == |Holders(agents, a)|
    {
      assert Count(u, u.resolvers[a]) == Count(t, t.resolvers[a]);
    }
  }

  lemma WriterKeepsInv(s: State, u: Table, p: Policy, h: Agent)
    requires Inv(s) && p in s.agents && InsideWrite(s.agents[p].call) && SameHolds(s.agents[p], h)
    requires TableOk(u) && CountsOk(u, s.agents) && AgentOk(u, h) && CallIndexOk(h.call, |u.wrappers|)
    requires forall i :: i in s.table.installed ==> i in u.installed && u.installed[i] == s.table.installed[i]
    requires ZerosOk(State(u, s.agents[p := h], s.cleanups))
    ensures Inv(State(u, s.agents[p := h], s.cleanups))
  {
    CountsSame(u, s.agents, p, h);
    WriterAgents(s.table, u, s.agents, p, h);
    StaysExclusive(s.agents, p, h);
    assert s.agents[p := h].Keys == s.agents.Keys;
  }

  lemma BuildMoves(t: Table, g: Agent)
    requires TableOk(t) && AgentOk(t, g) && CallIndexOk(g.call, |t.wrappers|) && g.call.GetInit?
    ensures var h := g.(call := GetInstall(g.call.sa, g.call.add, g.call.previous, |t.wrappers|));
            SameHolds(g, h) && AgentOk(Build(t), h) && CallIndexOk(h.call, |Build(t).wrappers|)
  {
    BuildTable(t);
  }

  lemma BuildZero(s: State, p: Policy, h: Agent, a: Account)
    requires TableOk(s.table) && p in s.agents && s.agents[p].call.GetInit?
    requires a in s.table.resolvers && ZeroAttended(s, a) && TableIndicesOk(Build(s.table))
    ensures ZeroAttended(State(Build(s.table), s.agents[p := h], s.cleanups), a)
  {
    ZeroElsewhere(s, State(Build(s.table), s.agents[p := h], s.cleanups), p, a);
  }

  lemma InitSucceedsStep(s: State, p: Policy)
    requires Inv(s) && Enabled(s, InitSucceeds(p))
    ensures Inv(Next(s, InitSucceeds(p)))
  {
    var g := s.agents[p];
    var h := g.(call := GetInstall(g.call.sa, g.call.add, g.call.previous, |s.table.wrappers|));
    BuildTable(s.table);
    BuildCounts(s.table, s.agents);
    BuildMoves(s.table, g);
    forall a | a in s.table.resolvers
      ensures ZeroAttended(State(Build(s.table), s.agents[p := h], s.cleanups), a)
    {
      BuildZero(s, p, h, a);
    }
    WriterKeepsInv(s, Build(s.table), p, h);
  }

  lemma InstallApart(t: Table, sa: Account, previous: Option<nat>, w: nat)
    requires TableOk(t) && PreviousOk(t, sa, previous) && Unshared(t, w)
    ensures TableIndicesOk(Install(t, sa, previous, w)) && CountersApart(Install(t, sa, previous, w))
  {
    var u := Install(t, sa, previous, w);
    forall a | a in u.resolvers && a != sa
      ensures a in t.resolvers && u.wrappers[u.resolvers[a]] == t.wrappers[t.resolvers[a]]
    {
      assert t.resolvers[a] in t.installed;
    }
  }

  lemma InstallCurrent(t: Table, sa: Account, previous: Option<nat>, w: nat)
    requires TableOk(t) && PreviousOk(t, sa, previous) && Unshared(t, w)
    requires TableIndicesOk(Install(t, sa, previous, w))
    ensures CurrentOk(Install(t, sa, previous, w))
  {
    var u := Install(t, sa, previous, w);
    forall i | i in u.installed && i != w && !u.wrappers[i].canceled
      ensures IsEntry(u, u.installed[i], i)
    {
      assert i in t.installed && IsEntry(t, t.installed[i], i);
    }
  }

  lemma InstallEntries(t: Table, sa: Account, previous: Option<nat>, w: nat)
    requires TableOk(t) && sa.Named? && PreviousOk(t, sa, previous) && Unshared(t, w)
    ensures EntriesOk(Install(t, sa, previous, w)) && FlagsOk(Install(t, sa, previous, w))
  {
  }

  lemma InstallTable(t: Table, sa: Account, previous: Option<nat>, w: nat)
    requires TableOk(t) && sa.Named? && PreviousOk(t, sa, previous) && Unshared(t, w)
    ensures TableOk(Install(t, sa, previous, w)) && IsLiveEntry(Install(t, sa, previous, w), sa, w)
  {
    InstallApart(t, sa, previous, w);
    InstallCurrent(t, sa, previous, w);
    InstallEntries(t, sa, previous, w);
  }

  lemma InstallCounts(t: Table, agents: map<Policy, Agent>, sa: Account, previous: Option<nat>, w: nat)
    requires TableOk(t) && CountsOk(t, agents) && sa.Named? && PreviousOk(t, sa, previous) && Unshared(t, w)
    ensures TableIndicesOk(Install(t, sa, previous, w))
    ensures CountsOk(Install(t, sa, previous, w), agents)
    ensures forall a :: a in t.resolvers && a != sa ==>
              Count(Install(t, sa, previous, w), t.resolvers[a]) == Count(t, t.resolvers[a])
  {
    var u := Install(t, sa, previous, w);
    InstallTable(t, sa, previous, w);
    forall a | a in u.resolvers
      ensures Count(u, u.resolvers[a]) == |Holders(agents, a)|
    {
      if a == sa && previous.None? {
        assert Holders(agents, a) == {};
      }
    }
  }

  lemma InstallZero(s: State, n: State, p: Policy, a: Account)
    requires TableOk(s.table) && p in s.agents && s.agents[p].call.GetInstall? && AgentOk(s.table, s.agents[p])
    requires var g := s.agents[p];
             && n.table == Install(s.table, g.call.sa, g.call.previous, g.call.w)
             && n.agents == s.agents[p := g.(call := GetAdd(g.call.sa, g.call.add, g.call.w, true))]
    requires n.cleanups == s.cleanups && TableOk(n.table) && CountsOk(n.table, n.agents)
    requires a in n.table.resolvers
    requires a != s.agents[p].call.sa ==>
               && a in s.table.resolvers && ZeroAttended(s, a)
               && Count(n.table, s.table.resolvers[a]) == Count(s.table, s.table.resolvers[a])
    ensures ZeroAttended(n, a)
  {
    var g := s.agents[p];
    if a != g.call.sa {
      ZeroElsewhere(s, n, p, a);
    } else if g.call.add {
      assert Attends(n.agents[p].call, g.call.w);
    } else {
      assert p in Holders(n.agents, a);
    }
  }

  lemma InstallZeros(s: State, n: State, p: Policy)
    requires TableOk(s.table) && p in s.agents && s.agents[p].call.GetInstall? && AgentOk(s.table, s.agents[p])
    requires ZerosOk(s)
    requires var g := s.agents[p];
             && n.table == Install(s.table, g.call.sa, g.call.previous, g.call.w)
             && n.agents == s.agents[p := g.(call := GetAdd(g.call.sa, g.call.add, g.call.w, true))]
    requires n.cleanups == s.cleanups && TableOk(n.table) && CountsOk(n.table, n.agents)
    requires forall a :: a in s.table.resolvers && a != s.agents[p].call.sa ==>
               Count(n.table, s.table.resolvers[a]) == Count(s.table, s.table.resolvers[a])
    ensures ZerosOk(n)
  {
    forall a | a in n.table.resolvers
      ensures ZeroAttended(n, a)
    {
      InstallZero(s, n, p, a);
    }
  }

  lemma InstallMoves(t: Table, g: Agent)
    requires TableOk(t) && AgentOk(t, g) && CallIndexOk(g.call, |t.wrappers|) && g.call.GetInstall?
    ensures var h := g.(call := GetAdd(g.call.sa, g.call.add, g.call.w, true));
            var u := Install(t, g.call.sa, g.call.previous, g.call.w);
            SameHolds(g, h) && AgentOk(u, h) && CallIndexOk(h.call, |u.wrappers|)
  {
    InstallTable(t, g.call.sa, g.call.previous, g.call.w);
  }

  lemma InstallParts(t: Table, agents: map<Policy, Agent>, p: Policy, u: Table, h: Agent)
    requires TableOk(t) && CountsOk(t, agents) && p in agents && agents[p].call.GetInstall?
    requires AgentOk(t, agents[p]) && CallIndexOk(agents[p].call, |t.wrappers|)
    requires var c := agents[p].call;
             u == Install(t, c.sa, c.previous, c.w) && h == agents[p].(call := GetAdd(c.sa, c.add, c.w, true))
    ensures TableOk(u) && CountsOk(u, agents) && CountsOk(u, agents[p := h])
    ensures SameHolds(agents[p], h) && AgentOk(u, h) && CallIndexOk(h.call, |u.wrappers|)
    ensures forall a :: a in t.resolvers && a != agents[p].call.sa ==>
              Count(u, t.resolvers[a]) == Count(t, t.resolvers[a])
  {
    var c := agents[p].call;
    InstallTable(t, c.sa, c.previous, c.w);
    InstallCounts(t, agents, c.sa, c.previous, c.w);
    InstallMoves(t, agents[p]);
    CountsSame(u, agents, p, h);
  }

  lemma InstallKeepsInv(s: State, p: Policy, u: Table, h: Agent)
    requires Inv(s) && p in s.agents && s.agents[p].call.GetInstall? && AgentOk(s.table, s.agents[p])
    requires var c := s.agents[p].call;
             u == Install(s.table, c.sa, c.previous, c.w) && h == s.agents[p].(call := GetAdd(c.sa, c.add, c.w, true))
    ensures Inv(State(u, s.agents[p := h], s.cleanups))
  {
    InstallParts(s.table, s.agents, p, u, h);
    InstallZeros(s, State(u, s.agents[p := h], s.cleanups), p);
    WriterKeepsInv(s, u, p, h);
  }

  lemma FreeAgents(t: Table, u: Table, agents: map<Policy, Agent>)
    requires AgentsOk(t, agents) && LockFree(agents)
    ensures AgentsOk(u, agents)
  {
    forall q | q in agents
      ensures AgentOk(u, agents[q]) && CallIndexOk(agents[q].call, |u.wrappers|)
    {
      OutsideOk(t, u, agents[q]);
    }
  }

  /** A cleanup that goes ahead removes the entry it was started for, which nobody refers to. */
  lemma CleanupExact(s: State, w: nat, sa: Account)
    requires Inv(s) && Enabled(s, Cleanup(w, sa))
    requires Count(s.table, w) == 0 && !s.table.wrappers[w].canceled
    ensures IsEntry(s.table, sa, w) && Holders(s.agents, sa) == {}
  {
    assert w in s.table.installed && s.table.installed[w] == sa;
  }

  lemma CleanupTable(t: Table, w: nat, sa: Account)
    requires TableOk(t) && IsEntry(t, sa, w) && Count(t, w) == 0 && !t.wrappers[w].canceled
    ensures TableOk(RunCleanup(t, w, sa))
  {
  }

  lemma CleanupStep(s: State, w: nat, sa: Account)
    requires Inv(s) && IndicesOk(s) && Enabled(s, Cleanup(w, sa))
    ensures Inv(Cleaned(s, w, sa))
  {
    var n := Cleaned(s, w, sa);
    FreeAgents(s.table, n.table, s.agents);
    if Count(s.table, w) == 0 && !s.table.wrappers[w].canceled {
      CleanupExact(s, w, sa);
      CleanupTable(s.table, w, sa);
      CleanupCounts(s.table, s.agents, w, sa);
    }
    forall a | a in n.table.resolvers
      ensures ZeroAttended(n, a)
    {
      CleanupZero(s, w, sa, a);
    }
  }

  lemma CleanupCounts(t: Table, agents: map<Policy, Agent>, w: nat, sa: Account)
    requires TableOk(t) && CountsOk(t, agents) && IsEntry(t, sa, w) && Count(t, w) == 0
    requires Holders(agents, sa) == {}
    ensures TableIndicesOk(RunCleanup(t, w, sa)) && CountsOk(RunCleanup(t, w, sa), agents)
  {
    var u := RunCleanup(t, w, sa);
    forall q, a | q in agents && Holds(agents[q], a) && a != DefaultAccount
      ensures a in u.resolvers
    {
      assert q in Holders(agents, a);
    }
  }

  lemma CleanupZero(s: State, w: nat, sa: Account, a: Account)
    requires TableIndicesOk(s.table) && IndicesOk(s) && w < |s.table.wrappers|
    requires Count(s.table, w) == 0 && !s.table.wrappers[w].canceled ==> IsEntry(s.table, sa, w)
    requires TableIndicesOk(Cleaned(s, w, sa).table) && a in Cleaned(s, w, sa).table.resolvers
    requires a in s.table.resolvers && ZeroAttended(s, a)
    ensures ZeroAttended(Cleaned(s, w, sa), a)
  {
    var n := Cleaned(s, w, sa);
    var v := s.table.resolvers[a];
    if Count(n.table, v) == 0 && !n.table.wrappers[v].canceled && (v, a) !in n.cleanups {
      assert (v, a) != (w, sa);
      var q :| q in s.agents && Attends(s.agents[q].call, v);
      assert q in n.agents;
    }
  }

  /******* Background failures *******/

  lemma FailTable(t: Table, sa: Account)
    requires TableOk(t)
    ensures TableOk(FailResolver(t, sa))
  {
  }

  lemma CancelStepZero(s: State, n: State, a: Account)
    requires TableIndicesOk(s.table) && TableIndicesOk(n.table) && n == s.(table := n.table)
    requires n.table == s.table.(wrappers := n.table.wrappers) && |n.table.wrappers| == |s.table.wrappers|
    requires forall i :: 0 <= i < |s.table.wrappers| ==>
               && n.table.wrappers[i].counter == s.table.wrappers[i].counter
               && (s.table.wrappers[i].canceled ==> n.table.wrappers[i].canceled)
    requires a in s.table.resolvers && ZeroAttended(s, a)
    ensures ZeroAttended(n, a)
  {
  }

  /** A step that only sets flags of wrappers keeps the rest of the invariant. */
  lemma FlagsKeepInv(s: State, u: Table)
    requires Inv(s) && TableOk(u) && AgentsOk(u, s.agents)
    requires u == s.table.(wrappers := u.wrappers) && |u.wrappers| == |s.table.wrappers|
    requires forall i :: 0 <= i < |s.table.wrappers| ==>
               && u.wrappers[i].counter == s.table.wrappers[i].counter
               && (s.table.wrappers[i].canceled ==> u.wrappers[i].canceled)
    ensures Inv(s.(table := u))
  {
    forall a | a in s.table.resolvers
      ensures ZeroAttended(s.(table := u), a)
    {
      CancelStepZero(s, s.(table := u), a);
    }
  }

  lemma BackgroundErrorStep(s: State, sa: Account)
    requires Inv(s) && LockFree(s.agents)
    ensures Inv(s.(table := FailResolver(s.table, sa)))
  {
    FailTable(s.table, sa);
    FreeAgents(s.table, FailResolver(s.table, sa), s.agents);
    FlagsKeepInv(s, FailResolver(s.table, sa));
  }

  lemma StopAgent(t: Table, w: nat, g: Agent)
    requires w < |t.wrappers| && AgentOk(t, g)
    ensures AgentOk(StopWrapper(t, w), g)
  {
  }

  lemma StopTable(t: Table, w: nat)
    requires TableOk(t) && w < |t.wrappers|
    ensures TableOk(StopWrapper(t, w))
  {
  }

  lemma StopAgents(t: Table, w: nat, agents: map<Policy, Agent>)
    requires w < |t.wrappers| && AgentsOk(t, agents)
    ensures AgentsOk(StopWrapper(t, w), agents)
  {
    forall q | q in agents
      ensures AgentOk(StopWrapper(t, w), agents[q])
    {
      StopAgent(t, w, agents[q]);
    }
  }

  lemma BackgroundStopStep(s: State, w: nat)
    requires Inv(s) && w < |s.table.wrappers|
    ensures Inv(s.(table := StopWrapper(s.table, w)))
  {
    StopTable(s.table, w);
    StopAgents(s.table, w, s.agents);
    FlagsKeepInv(s, StopWrapper(s.table, w));
  }

  /******* Every run *******/

  lemma QuietAdvance(s: State, p: Policy)
    requires Inv(s) && IndicesOk(s) && p in s.agents && CanAdvance(s.agents, s.agents[p].call)
    requires var c := s.agents[p].call; !c.RemoveDecrement? && !c.GetInstall? && !(c.GetAdd? && c.add)
    ensures Inv(Advanced(s, p))
  {
    var c := s.agents[p].call;
    var t := s.(cleanups := s.cleanups + Spawned(c));
    if c.RemoveSpawn? {
      assert AgentOk(s.table, s.agents[p]);
      SpawnKeepsInv(s, c.w, c.sa);
    } else {
      assert t == s;
    }
    QuietStep(t, p);
  }

  lemma NoSpawn(s: State, p: Policy)
    requires IndicesOk(s) && p in s.agents && !s.agents[p].call.RemoveSpawn?
    ensures Advanced(s, p) ==
            State(CallEffect(s.table, s.agents[p].call), s.agents[p := NextCall(s.table, s.agents[p])], s.cleanups)
  {
    assert s.cleanups + multiset{} == s.cleanups;
  }

  lemma DecrementAdvance(s: State, p: Policy)
    requires Inv(s) && IndicesOk(s) && p in s.agents && s.agents[p].call.RemoveDecrement?
    ensures Inv(Advanced(s, p))
  {
    assert AgentOk(s.table, s.agents[p]);
    NoSpawn(s, p);
    DecrementKeepsInv(s, p, RemoveCall(s.table, s.agents[p]));
  }

  lemma AddAdvance(s: State, p: Policy)
    requires Inv(s) && IndicesOk(s) && p in s.agents && s.agents[p].call.GetAdd? && s.agents[p].call.add
    ensures Inv(Advanced(s, p))
  {
    assert AgentOk(s.table, s.agents[p]);
    NoSpawn(s, p);
    AddKeepsInv(s, p, GetCall(s.table, s.agents[p]));
  }

  lemma InstallAdvance(s: State, p: Policy)
    requires Inv(s) && IndicesOk(s) && p in s.agents && s.agents[p].call.GetInstall?
    ensures Inv(Advanced(s, p))
  {
    assert AgentOk(s.table, s.agents[p]);
    NoSpawn(s, p);
    InstallKeepsInv(s, p, CallEffect(s.table, s.agents[p].call), GetCall(s.table, s.agents[p]));
  }

  lemma AdvanceStep(s: State, p: Policy)
    requires Inv(s) && IndicesOk(s) && p in s.agents && CanAdvance(s.agents, s.agents[p].call)
    ensures Inv(Advanced(s, p))
  {
    var c := s.agents[p].call;
    if c.RemoveDecrement? {
      DecrementAdvance(s, p);
    } else if c.GetInstall? {
      InstallAdvance(s, p);
    } else if c.GetAdd? && c.add {
      AddAdvance(s, p);
    } else {
      QuietAdvance(s, p);
    }
  }

  lemma InvIndices(s: State)
    requires Inv(s)
    ensures IndicesOk(s)
  {
  }

  lemma StepKeepsInv(s: State, a: Action)
    requires Inv(s) && Enabled(s, a)
    ensures IndicesOk(s) && Inv(Next(s, a))
  {
    InvIndices(s);
    match a
    case CallRemove(p) => CallStarts(s, p, RemoveLoad(None));
    case CallGet(p, sa) => CallStarts(s, p, GetLoad(sa));
    case Advance(p) => AdvanceStep(s, p);
    case InitSucceeds(p) => InitSucceedsStep(s, p);
    case InitFails(p) => InitFailsStep(s, p);
    case Cleanup(w, sa) => CleanupStep(s, w, sa);
    case BackgroundError(sa) => BackgroundErrorStep(s, sa);
    case BackgroundStop(w) => BackgroundStopStep(s, w);
  }

  lemma SteppedKeepsInv(s: State, t: State)
    requires Inv(s) && Stepped(s, t)
    ensures Inv(t)
  {
    var a :| Enabled(s, a) && t == Next(s, a);
    StepKeepsInv(s, a);
  }

  lemma InitialInv(s: State)
    requires Initial(s)
    ensures Inv(s)
  {
  }

  lemma {:induction false} RunKeepsInv(run: seq<State>, i: nat)
    requires IsRun(run) && i < |run|
    ensures Inv(run[i]) && IndicesOk(run[i])
  {
    if i == 0 {
      InitialInv(run[0]);
    } else {
      RunKeepsInv(run, i - 1);
      assert StepAt(run, i - 1);
      SteppedKeepsInv(run[i - 1], run[i]);
    }
    InvIndices(run[i]);
  }

  /** The reference count of an account is the number of policies mapped to it, less the removals that
      have decremented but not yet unmapped, plus the additions that have incremented but not yet mapped. */
  lemma CountIsReferences(run: seq<State>, i: nat, sa: Account)
    requires IsRun(run) && i < |run| && sa in run[i].table.resolvers
    ensures IndicesOk(run[i])
    ensures Count(run[i].table, run[i].table.resolvers[sa]) + |Releasing(run[i].agents, sa)| ==
            |AssignedTo(run[i].agents, sa)| + |Adding(run[i].agents, sa)|
  {
    RunKeepsInv(run, i);
    ReferencesSplit(run[i], sa);
    Balance(AssignedTo(run[i].agents, sa), Releasing(run[i].agents, sa), Adding(run[i].agents, sa));
    assert Count(run[i].table, run[i].table.resolvers[sa]) == |Holders(run[i].agents, sa)|;
  }

  lemma Balance(all: set<Policy>, gone: set<Policy>, more: set<Policy>)
    requires gone <= all && all !! more
    ensures |all - gone + more| + |gone| == |all| + |more|
  {
    var kept := all - gone;
    assert |kept + more| == |kept| + |more|;
    assert kept + gone == all;
  }

  lemma ReferencesSplit(s: State, sa: Account)
    requires Inv(s)
    ensures Releasing(s.agents, sa) <= AssignedTo(s.agents, sa)
    ensures AssignedTo(s.agents, sa) !! Adding(s.agents, sa)
    ensures Holders(s.agents, sa) == AssignedTo(s.agents, sa) - Releasing(s.agents, sa) + Adding(s.agents, sa)
  {
    forall p | p in s.agents
      ensures Released(s.agents[p].call) ==> s.agents[p].account == Some(s.agents[p].call.sa)
      ensures s.agents[p].call.GetStore? ==> s.agents[p].account == None
    {
      assert AgentOk(s.table, s.agents[p]);
    }
  }

  /** No decrement underflows, and no step dereferences a missing resolver. */
  lemma StepsAreSafe(run: seq<State>, i: nat, p: Policy)
    requires IsRun(run) && i < |run| && p in run[i].agents
    ensures var s := run[i]; var c := s.agents[p].call;
            && (c.RemoveDecrement? ==> IndicesOk(s) && Count(s.table, c.w) >= 1)
            && (c.RemoveUncache? || c.GetReturn? ==> c.w < |s.table.wrappers| && s.table.wrappers[c.w].hasResolver)
  {
    RunKeepsInv(run, i);
    var s := run[i];
    assert AgentOk(s.table, s.agents[p]);
    if s.agents[p].call.RemoveDecrement? {
      DecrementKeepsInv(s, p, RemoveCall(s.table, s.agents[p]));
    }
  }

  /** A mapped policy whose removal has not started to release it finds an entry for its account. */
  lemma MappedFindsEntry(run: seq<State>, i: nat, p: Policy, sa: Account)
    requires IsRun(run) && i < |run| && p in run[i].agents
    requires sa.Named? && run[i].agents[p].account == Some(sa) && !Released(run[i].agents[p].call)
    ensures sa in run[i].table.resolvers
  {
    RunKeepsInv(run, i);
    assert AgentOk(run[i].table, run[i].agents[p]);
    assert Holds(run[i].agents[p], sa);
  }

  /** A wrapper that was ever stored and is not cancelled is the current entry of its account. */
  lemma InstalledIsCurrent(run: seq<State>, i: nat, w: nat)
    requires IsRun(run) && i < |run| && w in run[i].table.installed
    ensures w < |run[i].table.wrappers|
    ensures !run[i].table.wrappers[w].canceled ==> IsEntry(run[i].table, run[i].table.installed[w], w)
  {
    RunKeepsInv(run, i);
  }

  lemma CallKeepsEntries(t: Table, c: Call)
    requires TableIndicesOk(t) && CallIndexOk(c, |t.wrappers|)
    ensures t.resolvers.Keys <= CallEffect(t, c).resolvers.Keys
  {
  }

  /** No other step takes an account out of the map. */
  lemma OnlyCleanupRemoves(s: State, a: Action)
    requires IndicesOk(s) && Enabled(s, a) && !a.Cleanup?
    ensures s.table.resolvers.Keys <= Next(s, a).table.resolvers.Keys
  {
    if a.Advance? {
      CallKeepsEntries(s.table, s.agents[a.p].call);
    }
  }

  lemma CleanupRemoves(s: State, w: nat, b: Account, sa: Account)
    requires Inv(s) && IndicesOk(s) && Enabled(s, Cleanup(w, b))
    requires sa in s.table.resolvers && sa !in Cleaned(s, w, b).table.resolvers
    ensures b == sa && w == s.table.resolvers[sa]
    ensures Holders(s.agents, sa) == {} && Count(s.table, w) == 0
    ensures Cleaned(s, w, b).table.wrappers[w].canceled
  {
    CleanupExact(s, w, b);
  }

  /** The map loses an entry only to a cleanup, only the one that cleanup cancels, and only when no
      policy refers to it. */
  lemma EntryLostOnlyToCleanup(run: seq<State>, i: nat, a: Action, sa: Account)
    requires IsRun(run) && i < |run| && IndicesOk(run[i]) && Enabled(run[i], a)
    requires sa in run[i].table.resolvers && sa !in Next(run[i], a).table.resolvers
    ensures a == Cleanup(run[i].table.resolvers[sa], sa)
    ensures Holders(run[i].agents, sa) == {} && Count(run[i].table, run[i].table.resolvers[sa]) == 0
    ensures Next(run[i], a).table.wrappers[run[i].table.resolvers[sa]].canceled
  {
    RunKeepsInv(run, i);
    if a.Cleanup? {
      CleanupRemoves(run[i], a.w, a.sa, sa);
    } else {
      OnlyCleanupRemoves(run[i], a);
    }
  }

  /** An uncancelled entry with no references always has a cleanup waiting, or a call that will look at
      the count or raise it. */
  lemma ZeroCountIsAttended(run: seq<State>, i: nat, sa: Account)
    requires IsRun(run) && i < |run| && sa in run[i].table.resolvers && Holders(run[i].agents, sa) == {}
    ensures IndicesOk(run[i])
    ensures var w := run[i].table.resolvers[sa];
            || run[i].table.wrappers[w].canceled
            || (w, sa) in run[i].cleanups
            || exists p :: p in run[i].agents && Attends(run[i].agents[p].call, w)
  {
    RunKeepsInv(run, i);
    assert ZeroAttended(run[i], sa);
  }

  /******* What the calls decide *******/

  /** The policy's call after its next step. */
  ghost function CallAfter(s: State, p: Policy): Call
    requires IndicesOk(s) && Enabled(s, Advance(p))
  {
    Next(s, Advance(p)).agents[p].call
  }

  /** Both lookups of GetResolver go on with the account's wrapper exactly when it has one that is not
      cancelled; else the first waits for the write lock, and the second builds a new one. */
  lemma LookupExactly(run: seq<State>, i: nat, p: Policy)
    requires IsRun(run) && i < |run| && IndicesOk(run[i]) && Enabled(run[i], Advance(p))
    requires var c := run[i].agents[p].call; c.GetLookup? || c.GetRecheck?
    ensures var s := run[i]; var t, c, n := s.table, s.agents[p].call, CallAfter(s, p);
            if c.sa in t.resolvers && !t.wrappers[t.resolvers[c.sa]].canceled then
              n == GetAdd(c.sa, c.add, t.resolvers[c.sa], c.GetRecheck?)
            else if c.GetLookup? then n == GetWaitWrite(c.sa, c.add)
            else n == GetInit(c.sa, c.add, if c.sa in t.resolvers then Some(t.resolvers[c.sa]) else None)
  {
  }

  /** The wrapper was not cancelled at some point of the policy's present call, which `k` is in. */
  ghost predicate WasLive(run: seq<State>, j: nat, p: Policy, w: nat, k: nat)
  {
    && k <= j < |run|
    && (forall m :: k <= m <= j ==> p in run[m].agents && !run[m].agents[p].call.Idle?)
    && w < |run[k].table.wrappers| && !run[k].table.wrappers[w].canceled
  }

  predicate CarriesWrapper(c: Call)
  {
    c.GetInstall? || c.GetAdd? || c.GetStore? || c.GetReturn?
  }

  /** How a call comes to carry a wrapper: it carried it before, or the wrapper is not cancelled now. */
  ghost predicate CameToCarry(t: Table, c: Call, u: Table, d: Call)
    requires CarriesWrapper(d)
  {
    && !c.Idle?
    && ((CarriesWrapper(c) && c.w == d.w)
        || (d.w < |t.wrappers| && !t.wrappers[d.w].canceled)
        || (d.w < |u.wrappers| && !u.wrappers[d.w].canceled))
  }

  lemma CallCarries(t: Table, g: Agent)
    requires TableIndicesOk(t) && CallIndexOk(g.call, |t.wrappers|) && !g.call.Idle?
    requires CarriesWrapper(NextCall(t, g).call)
    ensures CameToCarry(t, g.call, t, NextCall(t, g).call)
  {
  }

  lemma StepCarries(s: State, a: Action, p: Policy)
    requires IndicesOk(s) && Enabled(s, a) && p in s.agents
    ensures var n := Next(s, a);
            && p in n.agents
            && (CarriesWrapper(n.agents[p].call) ==>
                  n.agents[p] == s.agents[p] || CameToCarry(s.table, s.agents[p].call, n.table, n.agents[p].call))
  {
    if a == Advance(p) && CarriesWrapper(NextCall(s.table, s.agents[p]).call) {
      CallCarries(s.table, s.agents[p]);
    }
  }

  lemma SteppedCarries(s: State, n: State, p: Policy)
    requires Stepped(s, n) && p in n.agents && CarriesWrapper(n.agents[p].call)
    ensures p in s.agents
    ensures n.agents[p] == s.agents[p] || CameToCarry(s.table, s.agents[p].call, n.table, n.agents[p].call)
  {
    var a :| Enabled(s, a) && n == Next(s, a);
    StepCarries(s, a, p);
  }

  lemma CarriesAt(run: seq<State>, i: nat, p: Policy)
    requires IsRun(run) && i + 1 < |run| && p in run[i + 1].agents && CarriesWrapper(run[i + 1].agents[p].call)
    ensures p in run[i].agents
    ensures run[i + 1].agents[p] == run[i].agents[p] ||
            CameToCarry(run[i].table, run[i].agents[p].call, run[i + 1].table, run[i + 1].agents[p].call)
  {
    assert StepAt(run, i);
    SteppedCarries(run[i], run[i + 1], p);
  }

  lemma LiveLonger(run: seq<State>, j: nat, p: Policy, w: nat, k: nat)
    requires WasLive(run, j, p, w, k) && j + 1 < |run| && p in run[j + 1].agents && !run[j + 1].agents[p].call.Idle?
    ensures WasLive(run, j + 1, p, w, k)
  {
  }

  /** The resolver that GetResolver hands out was not cancelled at some moment of that very call. */
  lemma {:induction false} HandedOutWasLive(run: seq<State>, j: nat, p: Policy)
    requires IsRun(run) && j < |run| && p in run[j].agents && CarriesWrapper(run[j].agents[p].call)
    ensures exists k: nat :: WasLive(run, j, p, run[j].agents[p].call.w, k)
  {
    assert j > 0;
    CarriesAt(run, j - 1, p);
    var c, w := run[j - 1].agents[p].call, run[j].agents[p].call.w;
    if CarriesWrapper(c) && c.w == w {
      HandedOutWasLive(run, j - 1, p);
      var k: nat :| WasLive(run, j - 1, p, w, k);
      LiveLonger(run, j - 1, p, w, k);
    } else if w < |run[j - 1].table.wrappers| && !run[j - 1].table.wrappers[w].canceled {
      assert WasLive(run, j, p, w, j - 1);
    } else {
      assert WasLive(run, j, p, w, j);
    }
  }

  /** A removal starts a cleanup exactly when it finds the count at zero. */
  lemma RemovalSpawnsExactly(run: seq<State>, i: nat, p: Policy)
    requires IsRun(run) && i < |run| && IndicesOk(run[i]) && Enabled(run[i], Advance(p))
    requires run[i].agents[p].call.RemoveCheckCount?
    ensures var s := run[i]; var c := s.agents[p].call;
            CallAfter(s, p) == if Count(s.table, c.w) == 0 then RemoveSpawn(c.andThen, c.sa, c.w)
                               else RemoveUnlock(c.andThen, c.sa)
  {
  }

  /** Removal unmaps the policy, and goes on with the account it was removed for, if any; a get that is done
      leaves the policy mapped to the account it asked for. */
  lemma MappingIsUpdated(run: seq<State>, i: nat, p: Policy)
    requires IsRun(run) && i < |run| && IndicesOk(run[i]) && Enabled(run[i], Advance(p))
    ensures var s := run[i];
            var c, n := s.agents[p].call, Next(s, Advance(p)).agents[p];
            && (c.RemoveUnassign? ==>
                  n == Agent(if c.andThen.None? then Idle else GetRoute(c.andThen.value, true), None))
            && (c.GetRoute? && c.sa == DefaultAccount ==> n == Agent(Idle, Some(DefaultAccount)))
            && (c.GetReturn? ==> n.account == Some(c.sa))
  {
    RunKeepsInv(run, i);
    assert AgentOk(run[i].table, run[i].agents[p]);
  }

  /** After a background failure of an account, or after the resolver of a wrapper stopped, no lookup hands
      the wrapper out. */
  lemma FailureCancels(run: seq<State>, i: nat, sa: Account, w: nat)
    requires IsRun(run) && i < |run| && IndicesOk(run[i]) && sa in run[i].table.resolvers
    ensures Enabled(run[i], BackgroundError(sa)) ==>
              var t := Next(run[i], BackgroundError(sa)).table;
              && t.resolvers == run[i].table.resolvers && t.resolvers[sa] < |t.wrappers|
              && t.wrappers[t.resolvers[sa]].canceled && !t.wrappers[t.resolvers[sa]].hasResolver
    ensures Enabled(run[i], BackgroundStop(w)) ==>
              var t := Next(run[i], BackgroundStop(w)).table;
              t.resolvers == run[i].table.resolvers && w < |t.wrappers| && t.wrappers[w].canceled
  {
  }
}

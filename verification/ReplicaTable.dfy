/** The whole ResourceVersions map: one protocol instance per replicated policy, in any interleaving. */
module ReplicaTable {
  import opened Basics
  import opened ReplicaProtocol
  import opened ReplicaProtocolProofs
  import opened ReplicaLostWakeup

  /** "namespace/name" of a replicated policy. */
  type Key = string

  type Table = map<Key, State>

  ghost predicate Initial(t: Table)
  {
    forall k :: k in t ==> ReplicaProtocol.Initial(t[k])
  }

  /** One key takes one step. */
  ghost predicate KeyStep(t: Table, u: Table, k: Key)
  {
    k in t && k in u && u == t[k := u[k]] && Stepped(t[k], u[k])
  }

  ghost predicate TableStep(t: Table, u: Table)
  {
    exists k :: KeyStep(t, u, k)
  }

  ghost predicate IsTableRun(run: seq<Table>)
  {
    && |run| > 0
    && Initial(run[0])
    && (forall i :: 0 <= i < |run| - 1 ==> TableStep(run[i], run[i + 1]))
  }

  /** The keys of the ResourceVersions map. */
  ghost function Tracked(t: Table): set<Key>
  {
    set k | k in t && t[k].entry.Some?
  }

  /** Replicas that are on the server, or whose disappearance is not yet handled. */
  ghost function Present(t: Table): set<Key>
  {
    set k | k in t && !Gone(t[k])
  }

  /** Keys with a reconcile queued, delayed, retrying or running. */
  ghost function Pending(t: Table): set<Key>
  {
    set k | k in t && Working(t[k])
  }

  /** At step `j` of the run, the key took the step that gives a wake-up away. */
  ghost predicate LosesAt(run: seq<Table>, j: nat, k: Key)
  {
    j + 1 < |run| && k in run[j] && k in run[j + 1] && LosingStep(run[j][k], run[j + 1][k])
  }

  /** Keys that have taken it before state `i`. */
  ghost function Lost(run: seq<Table>, i: nat): set<Key>
    requires i < |run|
  {
    set k | k in run[i] && exists j: nat :: j < i && LosesAt(run, j, k)
  }

  lemma TableKeys(run: seq<Table>, i: nat)
    requires IsTableRun(run) && i + 1 < |run|
    ensures run[i].Keys == run[i + 1].Keys
    ensures forall k :: k in run[i] ==> run[i][k] == run[i + 1][k] || Stepped(run[i][k], run[i + 1][k])
  {
    assert TableStep(run[i], run[i + 1]);
    var k :| KeyStep(run[i], run[i + 1], k);
  }

  lemma LostGrows(run: seq<Table>, i: nat, k: Key)
    requires IsTableRun(run) && i + 1 < |run| && k in run[i] && k in run[i + 1]
    ensures k in Lost(run, i + 1) <==> k in Lost(run, i) || LosesAt(run, i, k)
  {
  }

  /** In every interleaving each key keeps its invariant, and has a wake-up ahead unless it gave one away. */
  lemma {:induction false} TableRunKeepsInv(run: seq<Table>, i: nat, k: Key)
    requires IsTableRun(run) && i < |run| && k in run[i]
    ensures Inv(run[i][k])
    ensures k !in Lost(run, i) ==> Wake(run[i][k])
  {
    if i == 0 {
      InitialInv(run[0][k]);
    } else {
      TableKeys(run, i - 1);
      TableRunKeepsInv(run, i - 1, k);
      LostGrows(run, i - 1, k);
      if run[i][k] != run[i - 1][k] {
        KeyStepKeeps(run[i - 1][k], run[i][k]);
      }
    }
  }

  lemma KeyStepKeeps(s: State, t: State)
    requires Inv(s) && Stepped(s, t)
    ensures Inv(t)
    ensures Wake(s) && !LosingStep(s, t) ==> Wake(t)
  {
    SteppedKeepsInv(s, t);
    if Wake(s) {
      StepWakes(s, t);
    }
  }

  /** The map is bounded by the replicas that exist or are still to be handled, the pending work, and the
      keys that gave a wake-up away. */
  lemma MapIsBounded(run: seq<Table>, i: nat)
    requires IsTableRun(run) && i < |run|
    ensures Tracked(run[i]) <= Present(run[i]) + Pending(run[i]) + Lost(run, i)
    ensures |Tracked(run[i])| <= |Present(run[i])| + |Pending(run[i])| + |Lost(run, i)|
  {
    var t := run[i];
    forall k | k in Tracked(t)
      ensures k in Present(t) + Pending(t) + Lost(run, i)
    {
      TableRunKeepsInv(run, i, k);
      if k !in Lost(run, i) {
        WakeMeansNotForgotten(t[k]);
      }
    }
    SubsetCard(Tracked(t), Present(t) + Pending(t) + Lost(run, i));
    UnionCard(Present(t), Pending(t));
    UnionCard(Present(t) + Pending(t), Lost(run, i));
  }

  lemma UnionCard(x: set<Key>, y: set<Key>)
    ensures |x + y| <= |x| + |y|
  {
    assert x + y == x + (y - x);
    SubsetCard(y - x, y);
  }

  /******* Without the lost keys *******/

  /** A wake-up is ahead of every key in every state exactly when no key ever gives one away. */
  lemma TableWakesExactly(run: seq<Table>)
    requires IsTableRun(run)
    ensures (forall i, k :: 0 <= i < |run| && k in run[i] ==> Wake(run[i][k])) <==> Lost(run, |run| - 1) == {}
  {
    var last := |run| - 1;
    if Lost(run, last) == {} {
      forall i, k | 0 <= i < |run| && k in run[i]
        ensures Wake(run[i][k])
      {
        TableRunKeepsInv(run, i, k);
        LostKept(run, i, last);
      }
    } else {
      var k :| k in Lost(run, last);
      var j: nat :| j < last && LosesAt(run, j, k);
      TableRunKeepsInv(run, j, k);
      if Wake(run[j][k]) {
        StepWakes(run[j][k], run[j + 1][k]);
        assert !Wake(run[j + 1][k]);
      }
    }
  }

  lemma {:induction false} SameKeys(run: seq<Table>, i: nat, j: nat)
    requires IsTableRun(run) && i <= j < |run|
    ensures run[i].Keys == run[j].Keys
    decreases j
  {
    if i < j {
      SameKeys(run, i, j - 1);
      TableKeys(run, j - 1);
    }
  }

  lemma LostKept(run: seq<Table>, i: nat, j: nat)
    requires IsTableRun(run) && i <= j < |run|
    ensures Lost(run, i) <= Lost(run, j)
  {
    SameKeys(run, i, j);
  }

  /** Some tracked key is neither present nor pending. */
  ghost predicate OverBound(t: Table)
  {
    !(Tracked(t) <= Present(t) + Pending(t))
  }

  /** A run of one key is a run of the table that holds only that key. */
  lemma Lifted(single: seq<State>, k: Key) returns (run: seq<Table>)
    requires ReplicaProtocol.IsRun(single)
    ensures IsTableRun(run) && run[|run| - 1] == map[k := single[|single| - 1]]
  {
    run := seq(|single|, i requires 0 <= i < |single| => map[k := single[i]]);
    forall i | 0 <= i < |run| - 1
      ensures TableStep(run[i], run[i + 1])
    {
      assert StepAt(single, i);
      LiftedStep(single[i], single[i + 1], k);
    }
  }

  lemma LiftedStep(s: State, t: State, k: Key)
    requires Stepped(s, t)
    ensures TableStep(map[k := s], map[k := t])
  {
    assert KeyStep(map[k := s], map[k := t], k);
  }

  lemma ForgottenIsOver(s: State, k: Key)
    requires !NotForgotten(s)
    ensures OverBound(map[k := s])
  {
    assert k in Tracked(map[k := s]);
  }

  /** The bound needs the lost keys: some run ends over the bound without them. */
  lemma LostKeysCount(k: Key)
    ensures exists run :: IsTableRun(run) && OverBound(run[|run| - 1])
  {
    ForgottenIsReachable(Replica(1, ""), Replica(2, ""));
    var s :| Reachable(s) && !NotForgotten(s);
    var single :| ReplicaProtocol.IsRun(single) && single[|single| - 1] == s;
    var run := Lifted(single, k);
    ForgottenIsOver(s, k);
  }
}

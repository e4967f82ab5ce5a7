/**
The `once` mode of a PolicyAutomation (controllers/automation/policyautomation_controller.go, lines
213-254, and ansible.go): a job is created at most once per generation of the PolicyAutomation, although
the update that disables it may fail and the PolicyAutomation may be read from a stale cache; unless a
job of that generation was deleted meanwhile, by its time to live or by anyone.
*/
module OnceMode {

  datatype Id = Id(namespace: string, name: string)

  datatype Mode = Once | EveryEvent | Disabled | Scan | Manual

  /** A version of a PolicyAutomation as some read of the cache may return it. */
  datatype Version = Version(generation: int, mode: Mode)

  /** An AnsibleJob: the PolicyAutomation it is labelled with, the generation its annotation was
      formatted from, and the mode in its name. */
  datatype Job = Job(owner: Id, generation: int, mode: Mode)

  /******* The generation annotation *******/

  function Digit(d: nat): char
    requires d < 10
  {
    ['0', '1', '2', '3', '4', '5', '6', '7', '8', '9'][d]
  }

  function FormatNat(n: nat): string
  {
    if n < 10 then [Digit(n)] else FormatNat(n / 10) + [Digit(n % 10)]
  }

  /** strconv.FormatInt(i, 10) */
  function FormatInt(i: int): string
  {
    if i < 0 then "-" + FormatNat(-i) else FormatNat(i)
  }

  function ParseNat(s: string): int
  {
    if s == [] then 0 else 10 * ParseNat(s[..|s| - 1]) + (s[|s| - 1] as int - '0' as int)
  }

  function ParseInt(s: string): int
  {
    if s != [] && s[0] == '-' then -ParseNat(s[1..]) else ParseNat(s)
  }

  lemma {:induction false} ParseFormatNat(n: nat)
    ensures ParseNat(FormatNat(n)) == n && FormatNat(n) != [] && FormatNat(n)[0] != '-'
  {
    if n < 10 {
      assert FormatNat(n)[..0] == [];
    } else {
      ParseFormatNat(n / 10);
      assert FormatNat(n)[..|FormatNat(n)| - 1] == FormatNat(n / 10);
    }
  }

  lemma ParseSigned(s: string, n: int)
    requires ParseNat(s) == n && s != [] && s[0] != '-'
    ensures ParseInt(s) == n && ParseInt("-" + s) == -n
  {
    assert ("-" + s)[1..] == s;
  }

  /** The annotation text determines the generation. */
  lemma {:induction false} ParseFormatInt(i: int)
    ensures ParseInt(FormatInt(i)) == i
  {
    var n: nat := if i < 0 then -i else i;
    ParseFormatNat(n);
    ParseSigned(FormatNat(n), n);
  }

  predicate HasJob(jobs: seq<Job>, id: Id, generation: int)
  {
    exists i :: 0 <= i < |jobs| && jobs[i].owner == id && jobs[i].generation == generation
  }

  /** The search compares annotation texts; it finds exactly a job made from the same generation. */
  method MatchPAGeneration(jobs: seq<Job>, id: Id, generation: int) returns (found: bool)
    ensures found <==> HasJob(jobs, id, generation)
  {
    var s := FormatInt(generation);
    ParseFormatInt(generation);
    for i := 0 to |jobs|
      invariant forall k :: 0 <= k < i ==> !(jobs[k].owner == id && jobs[k].generation == generation)
    {
      if jobs[i].owner == id && FormatInt(jobs[i].generation) == s {
        ParseFormatInt(jobs[i].generation);
        return true;
      }
    }
    return false;
  }

  /******* The controller *******/

  /** The reconcile running for one PolicyAutomation, with the version it read. */
  datatype Call = Idle | Listing(read: Version) | Creating(read: Version) | Disabling(read: Version)

  /** `versions` holds every version each PolicyAutomation ever had; a cached read returns any of them.
      `created` and `deleted` are history variables: all jobs ever created, in order, and the owners and
      generations of those that were deleted. */
  datatype State = State(
    versions: map<Id, seq<Version>>,
    jobs: seq<Job>,
    calls: map<Id, Call>,
    created: seq<Job>,
    deleted: set<(Id, int)>)

  datatype Action =
    | OutsideWrite(id: Id, version: Version)
    | Begin(id: Id, k: nat)
    | OtherJob(id: Id, k: nat, mode: Mode)
    | List(id: Id, ok: bool)
    | Create(id: Id, applied: bool, ok: bool)
    | Disable(id: Id, ok: bool, generation: int)
    | DeleteJob(i: nat)

  /** Reconciles of one PolicyAutomation are serialised by the work queue. Runs in other modes and
      manual reruns create jobs of their own. */
  predicate Enabled(s: State, a: Action)
  {
    match a
    case OutsideWrite(id, _) => id in s.versions
    case Begin(id, k) =>
      id in s.versions && id in s.calls && s.calls[id].Idle? && k < |s.versions[id]| && s.versions[id][k].mode == Once
    case OtherJob(id, k, mode) =>
      id in s.versions && id in s.calls && s.calls[id].Idle? && k < |s.versions[id]| && mode != Once
    case List(id, _) => id in s.calls && s.calls[id].Listing?
    case Create(id, applied, ok) => id in s.calls && s.calls[id].Creating? && (ok ==> applied)
    case Disable(id, _, _) => id in s.calls && s.calls[id].Disabling? && id in s.versions
    case DeleteJob(i) => i < |s.jobs|
  }

  function AddJob(s: State, job: Job): State
  {
    s.(jobs := s.jobs + [job], created := s.created + [job])
  }

  function Next(s: State, a: Action): State
    requires Enabled(s, a)
  {
    match a
    case OutsideWrite(id, v) => s.(versions := s.versions[id := s.versions[id] + [v]])
    case Begin(id, k) => s.(calls := s.calls[id := Listing(s.versions[id][k])])
    case OtherJob(id, k, mode) => AddJob(s, Job(id, s.versions[id][k].generation, mode))
    case List(id, ok) =>
      var read := s.calls[id].read;
      s.(calls := s.calls[id := if !ok || HasJob(s.jobs, id, read.generation) then Idle else Creating(read)])
    case Create(id, applied, ok) =>
      var read := s.calls[id].read;
      var t := if applied then AddJob(s, Job(id, read.generation, Once)) else s;
      t.(calls := s.calls[id := if ok then Disabling(read) else Idle])
    case Disable(id, ok, generation) =>
      s.(versions := if ok then s.versions[id := s.versions[id] + [Version(generation, Disabled)]] else s.versions,
         calls := s.calls[id := Idle])
    case DeleteJob(i) =>
      s.(jobs := s.jobs[..i] + s.jobs[i + 1..], deleted := s.deleted + {(s.jobs[i].owner, s.jobs[i].generation)})
  }

  ghost predicate Initial(s: State)
  {
    s.jobs == s.created == [] && s.deleted == {} && forall id :: id in s.calls ==> s.calls[id].Idle?
  }

  ghost predicate Stepped(s: State, t: State)
  {
    exists a :: Enabled(s, a) && t == Next(s, a)
  }

  ghost predicate IsRun(run: seq<State>)
  {
    && |run| > 0
    && Initial(run[0])
    && (forall i :: 0 <= i < |run| - 1 ==> Stepped(run[i], run[i + 1]))
  }

  /******* At most one job *******/

  /** The two jobs are once-jobs of one generation of one PolicyAutomation. */
  predicate Twins(a: Job, b: Job)
  {
    a.mode == b.mode == Once && a.owner == b.owner && a.generation == b.generation
  }

  predicate OnceUnique(created: seq<Job>, deleted: set<(Id, int)>)
  {
    forall i, j :: 0 <= i < j < |created| && Twins(created[i], created[j]) ==>
      (created[i].owner, created[i].generation) in deleted
  }

  /** A job is still there, or one of its generation was deleted. */
  predicate Accounted(jobs: seq<Job>, deleted: set<(Id, int)>, job: Job)
  {
    HasJob(jobs, job.owner, job.generation) || (job.owner, job.generation) in deleted
  }

  /** Between listing the jobs and creating one, no job of that generation has appeared. */
  ghost predicate Inv(s: State)
  {
    && OnceUnique(s.created, s.deleted)
    && (forall i :: 0 <= i < |s.created| ==> Accounted(s.jobs, s.deleted, s.created[i]))
    && (forall id :: id in s.calls && s.calls[id].Creating? ==> !HasJob(s.jobs, id, s.calls[id].read.generation))
  }

  lemma HasJobGrows(jobs: seq<Job>, job: Job, id: Id, generation: int)
    ensures HasJob(jobs + [job], id, generation) <==>
            HasJob(jobs, id, generation) || (job.owner == id && job.generation == generation)
  {
    var more := jobs + [job];
    assert more[|jobs|] == job && forall i :: 0 <= i < |jobs| ==> more[i] == jobs[i];
    if HasJob(jobs, id, generation) {
      var i :| 0 <= i < |jobs| && jobs[i].owner == id && jobs[i].generation == generation;
      assert more[i].owner == id;
    }
  }

  lemma HasJobShrinks(jobs: seq<Job>, i: nat, id: Id, generation: int)
    requires i < |jobs|
    ensures HasJob(jobs[..i] + jobs[i + 1..], id, generation) ==> HasJob(jobs, id, generation)
    ensures HasJob(jobs, id, generation) ==>
              HasJob(jobs[..i] + jobs[i + 1..], id, generation) ||
              (jobs[i].owner == id && jobs[i].generation == generation)
  {
    var less := jobs[..i] + jobs[i + 1..];
    assert forall k :: 0 <= k < |less| ==> less[k] == jobs[if k < i then k else k + 1];
    if HasJob(jobs, id, generation) {
      var k :| 0 <= k < |jobs| && jobs[k].owner == id && jobs[k].generation == generation;
      assert k != i ==> less[if k < i then k else k - 1] == jobs[k];
    }
  }

  lemma AddKeepsInv(s: State, job: Job)
    requires Inv(s) && (job.mode == Once ==> !HasJob(s.jobs, job.owner, job.generation))
    requires job.owner in s.calls && !s.calls[job.owner].Creating?
    ensures Inv(AddJob(s, job))
  {
    var t := AddJob(s, job);
    forall id, generation
      ensures HasJob(t.jobs, id, generation) <==>
              HasJob(s.jobs, id, generation) || (job.owner == id && job.generation == generation)
    {
      HasJobGrows(s.jobs, job, id, generation);
    }
    assert forall i :: 0 <= i < |s.created| ==> t.created[i] == s.created[i];
  }

  lemma DeleteKeepsInv(s: State, i: nat)
    requires Inv(s) && i < |s.jobs|
    ensures Inv(Next(s, DeleteJob(i)))
  {
    forall id, generation
      ensures HasJob(s.jobs[..i] + s.jobs[i + 1..], id, generation) ==> HasJob(s.jobs, id, generation)
      ensures HasJob(s.jobs, id, generation) ==>
                HasJob(s.jobs[..i] + s.jobs[i + 1..], id, generation) ||
                (s.jobs[i].owner == id && s.jobs[i].generation == generation)
    {
      HasJobShrinks(s.jobs, i, id, generation);
    }
  }

  lemma StepKeepsInv(s: State, a: Action)
    requires Inv(s) && Enabled(s, a)
    ensures Inv(Next(s, a))
  {
    match a
    case OtherJob(id, k, mode) => AddKeepsInv(s, Job(id, s.versions[id][k].generation, mode));
    case Create(id, applied, ok) =>
      var t := s.(calls := s.calls[id := if ok then Disabling(s.calls[id].read) else Idle]);
      if applied {
        AddKeepsInv(t, Job(id, s.calls[id].read.generation, Once));
      }
    case DeleteJob(i) => DeleteKeepsInv(s, i);
    case _ =>
  }

  lemma {:induction false} RunKeepsInv(run: seq<State>, n: nat)
    requires IsRun(run) && n < |run|
    ensures Inv(run[n])
  {
    if n > 0 {
      RunKeepsInv(run, n - 1);
      assert Stepped(run[n - 1], run[n - 1 + 1]);
      var a :| Enabled(run[n - 1], a) && run[n] == Next(run[n - 1], a);
      StepKeepsInv(run[n - 1], a);
    }
  }

  /** Over any run, at most one once-job is created for one generation of one PolicyAutomation, as long as
      no job of that generation is deleted. */
  lemma OnceJobIsUnique(run: seq<State>, n: nat, i: nat, j: nat)
    requires IsRun(run) && n < |run| && i < |run[n].created| && j < |run[n].created|
    requires Twins(run[n].created[i], run[n].created[j])
    ensures i == j || (run[n].created[i].owner, run[n].created[i].generation) in run[n].deleted
  {
    RunKeepsInv(run, n);
    assert i < j || j < i || i == j;
  }

  /** A reconcile that creates its job adds one once-job of the generation it read and goes on to disable the
      PolicyAutomation; if that succeeds, the version it leaves starts no once-job. */
  lemma SuccessDisables(s: State, id: Id, generation: int, ok: bool)
    requires Enabled(s, Create(id, true, true)) && id in s.versions
    ensures var t := Next(s, Create(id, true, true));
            && t.jobs == s.jobs + [Job(id, s.calls[id].read.generation, Once)]
            && t.created == s.created + [Job(id, s.calls[id].read.generation, Once)]
            && Enabled(t, Disable(id, ok, generation))
            && var u := Next(t, Disable(id, ok, generation));
               && u.calls[id].Idle?
               && u.versions[id] == s.versions[id] + (if ok then [Version(generation, Disabled)] else [])
               && (ok ==> !Enabled(u, Begin(id, |s.versions[id]|)))
  {
  }

  /** A creation that is reported as failed ends the reconcile and leaves the PolicyAutomation as it is. */
  lemma FailureEnds(s: State, id: Id, applied: bool)
    requires Enabled(s, Create(id, applied, false))
    ensures var t := Next(s, Create(id, applied, false));
            && t.versions == s.versions && t.calls[id].Idle?
            && t.jobs == s.jobs + (if applied then [Job(id, s.calls[id].read.generation, Once)] else [])
  {
  }

  /******* After a deletion *******/

  lemma Extended(run: seq<State>, a: Action) returns (longer: seq<State>)
    requires IsRun(run) && Enabled(run[|run| - 1], a)
    ensures IsRun(longer) && longer[|longer| - 1] == Next(run[|run| - 1], a)
  {
    longer := run + [Next(run[|run| - 1], a)];
    forall i | 0 <= i < |longer| - 1
      ensures Stepped(longer[i], longer[i + 1])
    {
      if i < |run| - 1 {
        assert Stepped(run[i], run[i + 1]);
      }
    }
  }

  /** A reconcile of a version in once mode goes on to create a job exactly when none of its generation is
      there: it looks at the jobs that are left, not at those that were created. If they cannot be listed, it
      ends without a trace. */
  lemma CreatesExactly(s: State, id: Id, k: nat)
    requires Enabled(s, Begin(id, k))
    ensures var t := Next(s, Begin(id, k));
            && Enabled(t, List(id, true))
            && (Next(t, List(id, true)).calls[id].Creating? <==> !HasJob(s.jobs, id, s.versions[id][k].generation))
            && Enabled(t, List(id, false)) && Next(t, List(id, false)) == s
  {
  }

  /** Whenever the jobs of a generation are gone while a version of it in once mode can still be read, the
      run can go on to a further once-job: deletion is what makes a second one possible. */
  lemma DeletionRepeats(run: seq<State>, id: Id, k: nat, i: nat) returns (longer: seq<State>)
    requires IsRun(run)
    requires var s := run[|run| - 1];
             && Enabled(s, Begin(id, k)) && !HasJob(s.jobs, id, s.versions[id][k].generation)
             && i < |s.created| && s.created[i] == Job(id, s.versions[id][k].generation, Once)
    ensures IsRun(longer)
    ensures var t := longer[|longer| - 1];
            exists j :: i < j < |t.created| && i < |t.created| && Twins(t.created[i], t.created[j])
  {
    var s := run[|run| - 1];
    CreatesExactly(s, id, k);
    longer := Extended(run, Begin(id, k));
    longer := Extended(longer, List(id, true));
    longer := Extended(longer, Create(id, true, true));
    var t := longer[|longer| - 1];
    assert t.created == s.created + [s.created[i]];
    assert Twins(t.created[i], t.created[|s.created|]);
  }

  /** Such a run exists: the first job is created, the reply is lost, and the job is deleted. */
  lemma JobGone(id: Id) returns (run: seq<State>)
    ensures IsRun(run)
    ensures var s := run[|run| - 1];
            && Enabled(s, Begin(id, 0)) && !HasJob(s.jobs, id, s.versions[id][0].generation)
            && s.created == [Job(id, s.versions[id][0].generation, Once)]
  {
    var s := State(map[id := [Version(1, Once)]], [], map[id := Idle], [], {});
    run := [s];
    CreatesExactly(s, id, 0);
    run := Extended(run, Begin(id, 0));
    run := Extended(run, List(id, true));
    run := Extended(run, Create(id, true, false));
    run := Extended(run, DeleteJob(0));
  }

  lemma OnceRepeats(id: Id) returns (run: seq<State>)
    ensures IsRun(run)
    ensures var t := run[|run| - 1]; exists j :: 0 < j < |t.created| && Twins(t.created[0], t.created[j])
  {
    run := JobGone(id);
    run := DeletionRepeats(run, id, 0, 0);
  }
}

/** The parallel compile loop: how many children run, how that number grows, and how their results are kept. */
module Scheduler {

  const ECHILD := 10

  /** How a unit of work ends: with a return value, or by a signal. */
  datatype Outcome = Returns(value: int) | Killed

  /** What the parent sees of a child: an exit status has eight bits. */
  function Status(o: Outcome): int {
    match o
    case Returns(v) => v % 256
    case Killed => ECHILD
  }

  /** One unit of work and what the system answers while it is spawned; errno is zero when fork succeeds. */
  datatype Step = Step(work: Outcome, cpus: int, errno: nat)

  /** In serial operation the work runs in the parser itself, which a signal would end. */
  predicate Runs(s: Step, parallel: bool) {
    parallel || s.work.Returns?
  }

  /** The result the step ends up reporting. In serial operation the return value is seen whole. */
  function Reported(s: Step, parallel: bool): int
    requires Runs(s, parallel)
  {
    if !parallel then s.work.value
    else if s.errno != 0 then s.errno
    else Status(s.work)
  }

  /** The sum of 1 to d. */
  function Triangle(d: nat): nat {
    if d == 0 then 0 else d + Triangle(d - 1)
  }

  lemma {:induction false} TriangleGrows(a: nat, b: nat)
    requires a < b
    ensures Triangle(a) + a < Triangle(b)
  {
    if a + 1 < b {
      TriangleGrows(a, b - 1);
    }
  }

  // LONG_MIN
  const JOBS_AUTO := -0x8000_0000_0000_0000

  function ComputeJobs(n: int, j: int): (r: int)
    requires n >= 1
    ensures r >= 0 && (j < 0 ==> r >= n)
  {
    if j == JOBS_AUTO then n
    else if j < 0 then
      assert n * j * -1 == n * -j && n * -j >= n;
      n * j * -1
    else j
  }

  class State {
    var jobs: int
    var jobsMax: int
    var jobsScale: int
    var njobs: int
    var lastError: int
    // The operating system's table of children that have not been waited for.
    var children: map<int, Outcome>
    var nextPid: int
    ghost var samples: nat

    /** Sets the number of jobs from the requested one and its limit, each absolute or per processor. */
    constructor (ncpus: int, maxcpus: int, requested: int, limit: int)
      requires ncpus >= 1 && maxcpus >= 1
      ensures Valid() && njobs == 0 && lastError == 0 && children == map[] && samples == 0
      ensures jobsMax == ComputeJobs(maxcpus, limit)
      ensures jobs == if ComputeJobs(ncpus, requested) > jobsMax then jobsMax else ComputeJobs(ncpus, requested)
      ensures jobsScale > 0 <==> requested < 0
    {
      var scale := if requested < 0 || requested == JOBS_AUTO then 1 else 0;
      var j, most := ComputeJobs(ncpus, requested), ComputeJobs(maxcpus, limit);
      if j > most {
        j := most;
      } else if scale > 0 && j < most {
        scale := most + 1 - ncpus;
      }
      jobs, jobsMax, jobsScale := j, most, scale;
      njobs, lastError, children, nextPid, samples := 0, 0, map[], 0, 0;
    }

    ghost predicate Valid()
      reads this
    {
      && 0 <= njobs <= jobs <= jobsMax && 0 <= jobsScale
      && njobs == |children|
      && (forall pid :: pid in children ==> pid < nextPid)
    }

    /** A failure has been recorded, or a live child will report one. */
    ghost predicate Bad()
      reads this
    {
      lastError != 0 || exists pid :: pid in children && Status(children[pid]) != 0
    }

    /** Bounds how often the number of processors can still be sampled. */
    ghost function Chances(): nat
      requires Valid()
      reads this
    {
      jobsScale + Triangle(jobsMax - jobs)
    }

    method HandleWorkResult(retval: int)
      modifies this`lastError
      ensures lastError == if retval != 0 then retval else old(lastError)
    {
      if retval != 0 {
        lastError := retval;
      }
    }

    /** Waits for one child, whichever ends first. */
    method WorkSyncOne()
      requires Valid() && njobs > 0
      modifies this`njobs, this`children, this`lastError
      ensures Valid() && njobs == old(njobs) - 1
      ensures Bad() == old(Bad())
    {
      assert (forall p: int :: p !in children) ==> children.Keys == {};
      var pid :| pid in children;
      var status := Status(children[pid]);
      ghost var was := children;
      children := children - {pid};
      assert children.Keys == was.Keys - {pid};
      HandleWorkResult(status);
      njobs := njobs - 1;
      assert forall p :: p in was ==> p == pid || (p in children && children[p] == was[p]);
    }

    method WorkSync()
      requires Valid()
      modifies this`njobs, this`children, this`lastError
      ensures Valid() && njobs == 0 && children == map[]
      ensures lastError != 0 <==> old(Bad())
    {
      while njobs > 0
        invariant Valid() && Bad() == old(Bad())
        decreases njobs
      {
        WorkSyncOne();
      }
      assert children.Keys == {};
    }

    /** While chances are left, samples the number of processors and may raise the number of jobs. */
    method Resample(cpus: int)
      requires Valid()
      modifies this`jobs, this`jobsScale, this`samples
      ensures Valid() && old(jobs) <= jobs <= jobsMax
      ensures samples + Chances() <= old(samples + Chances())
      ensures old(jobsScale) > 0 ==> samples == old(samples) + 1
    {
      if jobsScale != 0 {
        samples := samples + 1;
        var n := cpus;
        if n > jobsMax {
          n := jobsMax;
        }
        if n > jobs {
          TriangleGrows(jobsMax - n, jobsMax - jobs);
          jobsScale := jobsMax - n;
          jobs := n;
        } else {
          jobsScale := jobsScale - 1;
        }
      }
    }

    /** Starts one unit of work, first waiting for a child when all places are taken. */
    method WorkSpawn(s: Step) returns (rc: int)
      requires Valid() && Runs(s, jobs > 0)
      modifies this
      ensures Valid() && old(jobs) <= jobs <= jobsMax == old(jobsMax) && (jobs > 0 <==> old(jobs) > 0)
      ensures rc == if jobs > 0 && s.errno != 0 then -1 else 0
      ensures samples + Chances() <= old(samples + Chances())
      ensures Bad() <==> old(Bad()) || Reported(s, jobs > 0) != 0
    {
      if jobs == 0 {
        HandleWorkResult(Reported(s, false));
        return 0;
      }
      Resample(s.cpus);
      if njobs == jobs {
        WorkSyncOne();
      }
      if s.errno == 0 {
        Fork(s.work);
        njobs := njobs + 1;
        rc := 0;
      } else {
        HandleWorkResult(s.errno);
        rc := -1;
      }
    }

    /** The operating system adds a child. */
    method Fork(work: Outcome)
      requires njobs == |children| && forall pid :: pid in children ==> pid < nextPid
      modifies this`children, this`nextPid
      ensures |children| == njobs + 1 && forall pid :: pid in children ==> pid < nextPid
      ensures Bad() <==> old(Bad()) || Status(work) != 0
    {
      ghost var was := children;
      children := children[nextPid := work];
      assert children.Keys == was.Keys + {nextPid};
      assert children[nextPid] == work;
      assert forall p :: p in was ==> p in children && children[p] == was[p];
      nextPid := nextPid + 1;
    }
  }

  predicate AllRun(steps: seq<Step>, parallel: bool) {
    forall i :: 0 <= i < |steps| ==> Runs(steps[i], parallel)
  }

  predicate SomeFails(steps: seq<Step>, parallel: bool)
    requires AllRun(steps, parallel)
  {
    exists i :: 0 <= i < |steps| && Reported(steps[i], parallel) != 0
  }

  /**
   * Runs all the work. However the children end, no more than jobs of them live at a time, none is left, the
   * processors are sampled a bounded number of times, and an error is recorded iff some unit reported one.
   */
  method CompileAll(s: State, steps: seq<Step>)
    requires s.Valid() && s.njobs == 0 && s.lastError == 0 && s.children == map[] && AllRun(steps, s.jobs > 0)
    modifies s
    ensures s.Valid() && s.njobs == 0 && s.children == map[]
    ensures old(s.jobs) <= s.jobs <= s.jobsMax == old(s.jobsMax)
    ensures s.samples <= old(s.samples + s.Chances())
    ensures s.lastError != 0 <==> SomeFails(steps, old(s.jobs) > 0)
    ensures (s.lastError != 0 <==> SomeUnitFails(steps, old(s.jobs) > 0))
            <==> !(SomeUnitFails(steps, old(s.jobs) > 0) && AllLost(steps, old(s.jobs) > 0))
  {
    ghost var parallel := s.jobs > 0;
    for i := 0 to |steps|
      invariant s.Valid() && old(s.jobs) <= s.jobs <= s.jobsMax == old(s.jobsMax) && (s.jobs > 0 <==> parallel)
      invariant s.samples + s.Chances() <= old(s.samples + s.Chances())
      invariant s.Bad() <==> SomeFails(steps[..i], parallel)
    {
      OneMoreStep(steps, i, parallel);
      var _ := s.WorkSpawn(steps[i]);
    }
    assert steps[..|steps|] == steps;
    s.WorkSync();
    UnnoticedFailures(steps, parallel);
  }

  lemma OneMoreStep(steps: seq<Step>, i: nat, parallel: bool)
    requires i < |steps| && AllRun(steps, parallel)
    ensures SomeFails(steps[..i + 1], parallel) <==>
      SomeFails(steps[..i], parallel) || Reported(steps[i], parallel) != 0
  {
    var all, front := steps[..i + 1], steps[..i];
    assert all[i] == steps[i];
    assert forall k :: 0 <= k < i ==> all[k] == front[k];
  }

  // ----- Which failures a run notices -----

  /** The unit was not started, was ended by a signal or returned a failure. */
  predicate UnitFails(s: Step, parallel: bool) {
    (parallel && s.errno != 0) || s.work.Killed? || s.work.value != 0
  }

  /** The failure is a child's return value whose low eight bits are zero. */
  predicate LosesStatus(s: Step, parallel: bool) {
    parallel && s.errno == 0 && s.work.Returns? && s.work.value != 0 && s.work.value % 256 == 0
  }

  predicate SomeUnitFails(steps: seq<Step>, parallel: bool) {
    exists i :: 0 <= i < |steps| && UnitFails(steps[i], parallel)
  }

  /** Every unit that fails loses its status. */
  predicate AllLost(steps: seq<Step>, parallel: bool) {
    forall i :: 0 <= i < |steps| && UnitFails(steps[i], parallel) ==> LosesStatus(steps[i], parallel)
  }

  /** One unit's failure is reported unless its status is lost. */
  lemma ReportsFailure(s: Step, parallel: bool)
    requires Runs(s, parallel)
    ensures Reported(s, parallel) != 0 <==> UnitFails(s, parallel) && !LosesStatus(s, parallel)
  {
  }

  /** A run reports a failure iff a unit failed, except exactly when units fail and all of them lose their status. */
  lemma UnnoticedFailures(steps: seq<Step>, parallel: bool)
    requires AllRun(steps, parallel)
    ensures (SomeFails(steps, parallel) <==> SomeUnitFails(steps, parallel))
            <==> !(SomeUnitFails(steps, parallel) && AllLost(steps, parallel))
  {
    forall i | 0 <= i < |steps|
      ensures Reported(steps[i], parallel) != 0 <==> UnitFails(steps[i], parallel) && !LosesStatus(steps[i], parallel)
    {
      ReportsFailure(steps[i], parallel);
    }
  }

  /** A single child that returns 256 fails, and the run reports success. */
  lemma LostStatus(cpus: int)
    ensures
      var steps := [Step(Returns(256), cpus, 0)];
      AllRun(steps, true) && SomeUnitFails(steps, true) && !SomeFails(steps, true)
  {
    var steps := [Step(Returns(256), cpus, 0)];
    assert UnitFails(steps[0], true);
  }
}

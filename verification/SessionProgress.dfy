/**
 * The refresh protocol gets done: it takes a bounded number of steps however it is interleaved,
 * and it never blocks while somebody still waits.
 */
module SessionProgress {
  import opened SessionStore
  import opened SessionTabs

  /** The steps a refresh still has to make itself: lock, answer, `finally`. */
  function StepsLeft(p: Phase): nat {
    match p
    case Waiting => 3
    case Requesting(_) => 2
    case Settled(_) => 1
    case Done(_) => 0
  }

  function Work(jobs: seq<Job>): nat {
    if jobs == [] then 0 else Work(jobs[..|jobs| - 1]) + StepsLeft(jobs[|jobs| - 1].phase)
  }

  predicate IsProtocolStep(a: Action) {
    a.Grant? || a.Reply? || a.Finish?
  }

  function ProtocolSteps(actions: seq<Action>): nat {
    if actions == [] then 0
    else ProtocolSteps(actions[..|actions| - 1]) + if IsProtocolStep(actions[|actions| - 1]) then 1 else 0
  }

  lemma WorkSnoc(jobs: seq<Job>, job: Job)
    ensures Work(jobs + [job]) == Work(jobs) + StepsLeft(job.phase)
  {
    assert (jobs + [job])[..|jobs|] == jobs;
  }

  lemma {:induction false} WorkUpdate(jobs: seq<Job>, j: nat, job: Job)
    requires j < |jobs|
    ensures Work(jobs[j := job]) == Work(jobs) - StepsLeft(jobs[j].phase) + StepsLeft(job.phase)
    ensures Work(jobs) >= StepsLeft(jobs[j].phase)
  {
    var n := |jobs| - 1;
    if j == n {
      assert jobs[j := job][..n] == jobs[..n];
    } else {
      assert jobs[j := job][..n] == jobs[..n][j := job];
      WorkUpdate(jobs[..n], j, job);
    }
  }

  lemma {:induction false} NoWork(jobs: seq<Job>, j: nat)
    requires j < |jobs| && Work(jobs) == 0
    ensures jobs[j].phase.Done?
  {
    WorkUpdate(jobs, j, jobs[j]);
  }

  /** Beginning a refresh takes it from waiting to its request or to an early answer. */
  lemma StartedWork(s: System, j: nat)
    requires j < |s.jobs| && s.jobs[j].tab < |s.tabs| && s.jobs[j].phase.Waiting?
    ensures |Started(s, j).jobs| == |s.jobs| && Work(Started(s, j).jobs) < Work(s.jobs)
  {
    var p := Begin(s.tabs[s.jobs[j].tab].store, s.jobs[j].failedToken);
    WorkUpdate(s.jobs, j, s.jobs[j].(phase := p));
  }

  lemma RefreshWork(s: System, t: nat, c: nat, failed: string)
    requires Enabled(s, Refresh(t, c, failed))
    ensures var s' := Next(s, Refresh(t, c, failed));
      |s.jobs| <= |s'.jobs| && Work(s'.jobs) <= Work(s.jobs) + 3 * (|s'.jobs| - |s.jobs|)
  {
    if s.tabs[t].promise.Some? {
      var j := s.tabs[t].promise.value;
      WorkUpdate(s.jobs, j, s.jobs[j].(joined := s.jobs[j].joined + {c}));
    } else {
      WorkSnoc(s.jobs, Job(t, failed, Waiting, {c}));
      if !s.locks {
        StartedWork(Added(s, t, c, failed), |s.jobs|);
      }
    }
  }

  /** A step of the protocol uses up work; only a new refresh brings any, three steps at most. */
  lemma StepWork(s: System, a: Action)
    requires Enabled(s, a)
    ensures var s' := Next(s, a);
      && |s.jobs| <= |s'.jobs|
      && Work(s'.jobs) + (if IsProtocolStep(a) then 1 else 0) <= Work(s.jobs) + 3 * (|s'.jobs| - |s.jobs|)
      && (IsProtocolStep(a) ==> |s'.jobs| == |s.jobs|)
  {
    match a
    case Refresh(t, c, failed) => RefreshWork(s, t, c, failed);
    case Grant(j) => StartedWork(s, j);
    case Reply(j, r) =>
      var st := s.tabs[s.jobs[j].tab].store;
      var answered := Answer(st, s.jobs[j].phase.startedRevision, r);
      WorkUpdate(s.jobs, j, s.jobs[j].(phase := Settled(answered.outcome)));
    case Finish(j) =>
      WorkUpdate(s.jobs, j, s.jobs[j].(phase := Done(s.jobs[j].phase.outcome)));
    case _ =>
  }

  /**
   * Over every run, whatever is interleaved: the protocol takes at most the steps left at the
   * beginning and three for every refresh started since.
   */
  lemma {:induction false} ProtocolIsBounded(states: seq<System>, actions: seq<Action>)
    requires IsRun(states, actions)
    ensures var end := states[|actions|];
      && |states[0].jobs| <= |end.jobs|
      && ProtocolSteps(actions) + Work(end.jobs) <= Work(states[0].jobs) + 3 * (|end.jobs| - |states[0].jobs|)
    decreases |actions|
  {
    if actions != [] {
      var n := |actions| - 1;
      assert IsRun(states[..n + 1], actions[..n]);
      ProtocolIsBounded(states[..n + 1], actions[..n]);
      StepWork(states[n], actions[n]);
    }
  }

  /** The step that brings an unfinished refresh on: its own, or the answer to the one that holds the lock. */
  function NextStep(s: System, j: nat, r: SessionStore.Reply): Action
    requires j < |s.jobs| && !s.jobs[j].phase.Done?
  {
    match s.jobs[j].phase
    case Waiting => if s.holder.Some? then Reply(s.holder.value, r) else Grant(j)
    case Requesting(_) => Reply(j, r)
    case Settled(_) => Finish(j)
  }

  /** In every reachable state it is enabled, whatever the server answers. */
  lemma UnfinishedCanMove(s: System, j: nat, r: SessionStore.Reply)
    requires Reachable(s) && j < |s.jobs| && !s.jobs[j].phase.Done?
    ensures Enabled(s, NextStep(s, j, r)) && IsProtocolStep(NextStep(s, j, r))
  {
    ReachableInv(s);
  }

  /** The protocol has come to rest: none of its steps is enabled. */
  ghost predicate AtRest(s: System) {
    forall a :: IsProtocolStep(a) ==> !Enabled(s, a)
  }

  /** It rests exactly when every refresh is done, and then every caller that ever joined one has its answer. */
  lemma RestMeansServed(s: System)
    requires Reachable(s)
    ensures AtRest(s) <==> Work(s.jobs) == 0
    ensures AtRest(s) ==> forall j, c :: 0 <= j < |s.jobs| && c in s.jobs[j].joined ==>
              s.jobs[j].phase.Done? && c in s.answers && s.answers[c] == s.jobs[j].phase.outcome
  {
    ReachableInv(s);
    if Work(s.jobs) == 0 {
      forall j | 0 <= j < |s.jobs|
        ensures s.jobs[j].phase.Done?
      {
        NoWork(s.jobs, j);
      }
    }
    if AtRest(s) {
      forall j | 0 <= j < |s.jobs|
        ensures s.jobs[j].phase.Done?
      {
        if !s.jobs[j].phase.Done? {
          UnfinishedCanMove(s, j, Failure);
        }
      }
      AllDone(s.jobs);
    }
  }

  lemma {:induction false} AllDone(jobs: seq<Job>)
    requires forall j :: 0 <= j < |jobs| ==> jobs[j].phase.Done?
    ensures Work(jobs) == 0
  {
    if jobs != [] {
      AllDone(jobs[..|jobs| - 1]);
    }
  }
}

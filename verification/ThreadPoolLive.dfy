// While the pool runs: a task that a worker was given is run within a fixed number of the worker's own steps.
module ThreadPoolLive {
  import opened ThreadPools
  import opened ThreadPoolStop

  // The steps that a worker takes itself.
  predicate OwnStep(a: Action, w: nat) {
    a == EvaluateWait(w) || a == LookEmpty(w) || a == LookAgain(w) || a == TakeTask(w) || a == FinishTask(w)
  }

  // How many of its own steps a worker with work is away from finishing a task.
  function StepsToFinish(pc: WorkerPc): nat {
    match pc
    case Waiting => 5
    case Woken => 4
    case Checking => 3
    case Taking => 2
    case Running(_) => 1
    case Parked => 6
    case Exited => 0
  }

  // What a worker still has to run: the task in hand and those queued.
  function Pending(k: Worker): seq<Task> {
    InHand(k.pc) + k.queue
  }

  // A worker with work is neither asleep nor gone, whether the pool runs or is being stopped, unless it left before.
  lemma BusyIsAwake(s: Pool, w: nat)
    requires Inv(s) && w < |s.workers| && Pending(s.workers[w]) != []
    ensures !s.workers[w].pc.Parked?
  {
    assert WorkerInv(s.workers[w], s.running, s.maxQueueSize, Told(s.stop, w));
  }

  // It always has a step of its own,
  lemma BusyCanStep(s: Pool, w: nat) returns (a: Action)
    requires Inv(s) && w < |s.workers| && Pending(s.workers[w]) != [] && !s.workers[w].pc.Exited?
    ensures OwnStep(a, w) && Enabled(s, a)
  {
    BusyIsAwake(s, w);
    a := match s.workers[w].pc
      case Waiting => EvaluateWait(w)
      case Woken => LookEmpty(w)
      case Checking => LookAgain(w)
      case Taking => TakeTask(w)
      case Running(_) => FinishTask(w);
  }

  // and each such step either finishes the first of its tasks or brings it closer;
  lemma OwnStepAdvances(s: Pool, a: Action, w: nat)
    requires Inv(s) && Enabled(s, a) && OwnStep(a, w)
    requires Pending(s.workers[w]) != []
    ensures |Step(s, a).workers| == |s.workers|
    ensures var k, l := s.workers[w], Step(s, a).workers[w];
      && !l.pc.Exited?
      && (a.FinishTask? ==> l.ran == k.ran + [Pending(k)[0]] && Pending(l) == Pending(k)[1..] && l.pc.Waiting?)
      && (!a.FinishTask? ==>
            l.ran == k.ran && Pending(l) == Pending(k) && StepsToFinish(l.pc) < StepsToFinish(k.pc))
  {
    assert WorkerInv(s.workers[w], s.running, s.maxQueueSize, Told(s.stop, w));
    var k, l := s.workers[w], Step(s, a).workers[w];
    if a.TakeTask? {
      assert k.queue == [k.queue[0]] + k.queue[1..];
    }
    if a.FinishTask? {
      assert Pending(k)[1..] == k.queue;
    }
  }

  // no step of anybody else sets it back.
  lemma OthersDoNotDisturb(s: Pool, a: Action, w: nat)
    requires Inv(s) && Enabled(s, a) && !OwnStep(a, w) && w < |s.workers|
    requires Pending(s.workers[w]) != []
    ensures |Step(s, a).workers| == |s.workers|
    ensures var k, l := s.workers[w], Step(s, a).workers[w];
      l.pc == k.pc && l.ran == k.ran && Pending(k) <= Pending(l)
  {
    BusyIsAwake(s, w);
  }

  // The number of its own steps after which a worker has run its p-th accepted task at the latest.
  function StepsDue(k: Worker, p: nat): int {
    5 * (p - |k.ran|) + StepsToFinish(k.pc)
  }

  function OwnSteps(actions: seq<Action>, w: nat): nat {
    if actions == [] then 0 else (if OwnStep(actions[0], w) then 1 else 0) + OwnSteps(actions[1..], w)
  }

  lemma PendingIs(s: Pool, w: nat, p: nat)
    requires Inv(s) && w < |s.workers| && |s.workers[w].ran| <= p < |s.workers[w].accepted|
    ensures var k := s.workers[w];
      && |Pending(k)| == |k.accepted| - |k.ran| && Pending(k) != []
      && k.accepted[|k.ran|] == Pending(k)[0]
  {
    var k := s.workers[w];
    assert WorkerInv(k, s.running, s.maxQueueSize, Told(s.stop, w));
    assert k.accepted == k.ran + Pending(k);
  }

  lemma RanStays(s: Pool, w: nat, p: nat)
    requires Inv(s) && w < |s.workers| && p < |s.workers[w].ran|
    ensures p < |s.workers[w].accepted| && s.workers[w].ran[p] == s.workers[w].accepted[p]
  {
    assert WorkerInv(s.workers[w], s.running, s.maxQueueSize, Told(s.stop, w));
  }

  // A step of the run brings the p-th task closer by the number of own steps it is.
  lemma StepBringsCloser(s: Pool, a: Action, w: nat, p: nat)
    requires Inv(s) && Enabled(s, a) && w < |s.workers| && !s.workers[w].pc.Exited?
    requires |s.workers[w].ran| <= p < |s.workers[w].accepted|
    ensures |Step(s, a).workers| == |s.workers|
    ensures var k, l := s.workers[w], Step(s, a).workers[w];
      && k.accepted <= l.accepted && k.ran <= l.ran && !l.pc.Exited?
      && StepsDue(l, p) + (if OwnStep(a, w) then 1 else 0) <= StepsDue(k, p)
  {
    PendingIs(s, w, p);
    StepGrows(s, a, w);
    if OwnStep(a, w) {
      OwnStepAdvances(s, a, w);
      if a.FinishTask? {
        assert WorkerInv(s.workers[w], s.running, s.maxQueueSize, Told(s.stop, w));
      }
    } else {
      OthersDoNotDisturb(s, a, w);
    }
  }

  // In every run, before, while and after Stop: five own steps for each task in line, and the task has run.
  lemma {:induction false} AcceptedTaskRuns(s: Pool, actions: seq<Action>, w: nat, p: nat)
    requires Inv(s) && Runs(s, actions) && w < |s.workers| && !s.workers[w].pc.Exited?
    requires p < |s.workers[w].accepted| && StepsDue(s.workers[w], p) <= OwnSteps(actions, w)
    ensures |After(s, actions).workers| == |s.workers|
    ensures var k, l := s.workers[w], After(s, actions).workers[w];
      p < |l.ran| && l.ran[p] == k.accepted[p]
    decreases |actions|
  {
    var k := s.workers[w];
    if p < |k.ran| {
      RanStays(s, w, p);
      RanGrows(s, actions, w);
    } else {
      StepsLeft(k, p);
      StepKeepsInv(s, actions[0]);
      StepBringsCloser(s, actions[0], w, p);
      AcceptedTaskRuns(Step(s, actions[0]), actions[1..], w, p);
    }
  }

  lemma StepsLeft(k: Worker, p: nat)
    requires |k.ran| <= p && !k.pc.Exited?
    ensures 0 < StepsDue(k, p)
  {
  }

  lemma {:induction false} RanGrows(s: Pool, actions: seq<Action>, w: nat)
    requires Inv(s) && Runs(s, actions) && w < |s.workers|
    ensures |After(s, actions).workers| == |s.workers|
    ensures s.workers[w].ran <= After(s, actions).workers[w].ran
    decreases |actions|
  {
    if actions != [] {
      StepKeepsInv(s, actions[0]);
      StepGrows(s, actions[0], w);
      RanGrows(Step(s, actions[0]), actions[1..], w);
    }
  }
}

// Which accepted tasks run, and why Stop always returns.
module ThreadPoolStop {
  import opened ThreadPools

  // Histories only grow, and what a worker left behind stays.
  lemma StepGrows(s: Pool, a: Action, w: nat)
    requires Inv(s) && Enabled(s, a) && w < |s.workers|
    ensures |Step(s, a).workers| == |s.workers|
    ensures var k, l := s.workers[w], Step(s, a).workers[w];
      && k.accepted <= l.accepted && k.ran <= l.ran
      && (k.pc.Exited? ==> l.pc.Exited? && l.ran == k.ran && l.closed == k.closed)
      && (!k.pc.Exited? && l.pc.Exited? ==> l.closed == |k.accepted|)
  {
    hide WorkerInv, Told, Inv;
    InvIs(s);
  }

  lemma InvIs(s: Pool)
    requires Inv(s)
    ensures 0 < |s.workers|
  {
  }

  // A task accepted before its worker leaves has run when Stop returns, whatever happens in between.
  lemma {:induction false} TimelyTaskRuns(s: Pool, actions: seq<Action>, w: nat, p: nat)
    requires Inv(s) && Runs(s, actions) && w < |s.workers|
    requires p < |s.workers[w].accepted| && (s.workers[w].pc.Exited? ==> p < s.workers[w].closed)
    ensures |After(s, actions).workers| == |s.workers|
    ensures var k := After(s, actions).workers[w];
      && p < |k.accepted| && k.accepted[p] == s.workers[w].accepted[p]
      && (Stopped(After(s, actions)) ==> p < |k.ran| && k.ran[p] == s.workers[w].accepted[p])
    decreases |actions|
  {
    if actions == [] {
      assert WorkerInv(s.workers[w], s.running, s.maxQueueSize, Told(s.stop, w));
    } else {
      StepKeepsInv(s, actions[0]);
      StepGrows(s, actions[0], w);
      TimelyTaskRuns(Step(s, actions[0]), actions[1..], w, p);
    }
  }

  // In particular everything accepted while the pool still runs: it has run by the time Stop returns.
  lemma AcceptedBeforeStopRuns(s: Pool, actions: seq<Action>, w: nat, p: nat)
    requires Inv(s) && s.running && Runs(s, actions) && Stopped(After(s, actions))
    requires w < |s.workers| && p < |s.workers[w].accepted|
    ensures |After(s, actions).workers| == |s.workers|
    ensures var k := After(s, actions).workers[w];
      p < |k.ran| && k.ran[p] == s.workers[w].accepted[p]
  {
    assert WorkerInv(s.workers[w], s.running, s.maxQueueSize, Told(s.stop, w));
    TimelyTaskRuns(s, actions, w, p);
  }

  // The mark is the number of tasks accepted when the status changed, and stays that.
  lemma MarkCounts(s: Pool, a: Action, w: nat)
    requires Inv(s) && Enabled(s, a) && w < |s.workers|
    ensures |Step(s, a).workers| == |s.workers|
    ensures Step(s, a).workers[w].mark == if a.StopBegins? then |s.workers[w].accepted| else s.workers[w].mark
  {
    hide Inv;
    InvIs(s);
  }

  // A worker that left runs nothing more: a task accepted after that is never run.
  lemma {:induction false} LateTaskNeverRuns(s: Pool, actions: seq<Action>, w: nat)
    requires Inv(s) && Runs(s, actions) && w < |s.workers| && s.workers[w].pc.Exited?
    ensures |After(s, actions).workers| == |s.workers|
    ensures var k := After(s, actions).workers[w];
      k.pc.Exited? && k.ran == s.workers[w].ran && |k.ran| == s.workers[w].closed
    decreases |actions|
  {
    if actions == [] {
      assert WorkerInv(s.workers[w], s.running, s.maxQueueSize, Told(s.stop, w));
    } else {
      StepKeepsInv(s, actions[0]);
      StepGrows(s, actions[0], w);
      LateTaskNeverRuns(Step(s, actions[0]), actions[1..], w);
    }
  }

  // The exact condition, at the push: a task that AddTask accepts has run by the time Stop returns, in whatever way
  // the run goes on, if and only if its worker had not left its loop when the task was pushed.
  lemma RunsIffAcceptedInTime(s: Pool, c: nat, actions: seq<Action>)
    requires Inv(s) && Runs(s, actions) && actions != [] && actions[0] == PushTask(c)
    requires |s.workers[s.clients[c].slot].queue| < s.maxQueueSize
    requires Stopped(After(s, actions))
    ensures |After(s, actions).workers| == |s.workers|
    ensures var Chosen(task, w) := s.clients[c];
      var p, k := |s.workers[w].accepted|, After(s, actions).workers[w];
      && p < |k.accepted| && k.accepted[p] == task
      && (p < |k.ran| <==> !s.workers[w].pc.Exited?)
      && (p < |k.ran| ==> k.ran[p] == task)
  {
    var Chosen(task, w) := s.clients[c];
    var p, after := |s.workers[w].accepted|, Step(s, PushTask(c));
    StepKeepsInv(s, PushTask(c));
    HistoryGrows(after, actions[1..], w);
    if s.workers[w].pc.Exited? {
      assert WorkerInv(s.workers[w], s.running, s.maxQueueSize, Told(s.stop, w));
      LateTaskNeverRuns(after, actions[1..], w);
    } else {
      TimelyTaskRuns(after, actions[1..], w, p);
    }
  }

  lemma {:induction false} HistoryGrows(s: Pool, actions: seq<Action>, w: nat)
    requires Inv(s) && Runs(s, actions) && w < |s.workers|
    ensures |After(s, actions).workers| == |s.workers|
    ensures s.workers[w].accepted <= After(s, actions).workers[w].accepted
    decreases |actions|
  {
    if actions != [] {
      StepKeepsInv(s, actions[0]);
      StepGrows(s, actions[0], w);
      HistoryGrows(Step(s, actions[0]), actions[1..], w);
    }
  }

  // AddTask refuses a task exactly when the queue is full, and a refused task is nowhere in the histories.
  lemma RefusedIffFull(s: Pool, c: nat)
    requires Inv(s) && Enabled(s, PushTask(c))
    ensures var Chosen(task, w) := s.clients[c]; var k, l := s.workers[w], Step(s, PushTask(c)).workers[w];
      && (l.accepted == k.accepted <==> s.maxQueueSize <= |k.queue|)
      && (s.maxQueueSize <= |k.queue| ==> l == k)
      && (|k.queue| < s.maxQueueSize ==> l.accepted == k.accepted + [task])
  {
    var Chosen(task, w) := s.clients[c];
    assert |s.workers[w].accepted + [task]| == |s.workers[w].accepted| + 1;
  }

  // Late acceptance happens: a client that passed the status check pushes after the worker left.
  function LateRun(task: Task): seq<Action> {
    [CheckStatus(0, task), ChooseSlot(0), StopBegins, EvaluateWait(0), LookEmpty(0), NotifyAll, NotifyAll, JoinWorker,
     PushTask(0)]
  }

  // A pool with one worker and one client, as the run above meets it.
  function One(running: bool, counter: nat, pc: WorkerPc, pushed: seq<Task>, client: ClientPc, stop: StopPc): Pool {
    Pool(running, counter, 1, [Worker(pc, pushed, pushed, [], 0, 0)], [client], stop)
  }

  lemma LateFirstSteps(task: Task)
    ensures Launched(1, 1, 1) == One(true, 0, Waiting, [], Idle, NotStopped)
    ensures Enabled(One(true, 0, Waiting, [], Idle, NotStopped), CheckStatus(0, task))
    ensures Step(One(true, 0, Waiting, [], Idle, NotStopped), CheckStatus(0, task))
         == One(true, 0, Waiting, [], Checked(task), NotStopped)
    ensures Enabled(One(true, 0, Waiting, [], Checked(task), NotStopped), ChooseSlot(0))
    ensures Step(One(true, 0, Waiting, [], Checked(task), NotStopped), ChooseSlot(0))
         == One(true, 1, Waiting, [], Chosen(task, 0), NotStopped)
    ensures Enabled(One(true, 1, Waiting, [], Chosen(task, 0), NotStopped), StopBegins)
    ensures Step(One(true, 1, Waiting, [], Chosen(task, 0), NotStopped), StopBegins)
         == One(false, 1, Waiting, [], Chosen(task, 0), Notifying(0))
  {
  }

  lemma LateMiddleSteps(task: Task)
    ensures Enabled(One(false, 1, Waiting, [], Chosen(task, 0), Notifying(0)), EvaluateWait(0))
    ensures Step(One(false, 1, Waiting, [], Chosen(task, 0), Notifying(0)), EvaluateWait(0))
         == One(false, 1, Woken, [], Chosen(task, 0), Notifying(0))
    ensures Enabled(One(false, 1, Woken, [], Chosen(task, 0), Notifying(0)), LookEmpty(0))
    ensures Step(One(false, 1, Woken, [], Chosen(task, 0), Notifying(0)), LookEmpty(0))
         == One(false, 1, Exited, [], Chosen(task, 0), Notifying(0))
    ensures Enabled(One(false, 1, Exited, [], Chosen(task, 0), Notifying(0)), NotifyAll)
    ensures Step(One(false, 1, Exited, [], Chosen(task, 0), Notifying(0)), NotifyAll)
         == One(false, 1, Exited, [], Chosen(task, 0), Notifying(1))
  {
  }

  lemma LateLastSteps(task: Task)
    ensures Enabled(One(false, 1, Exited, [], Chosen(task, 0), Notifying(1)), NotifyAll)
    ensures Step(One(false, 1, Exited, [], Chosen(task, 0), Notifying(1)), NotifyAll)
         == One(false, 1, Exited, [], Chosen(task, 0), Joining(0))
    ensures Enabled(One(false, 1, Exited, [], Chosen(task, 0), Joining(0)), JoinWorker)
    ensures Step(One(false, 1, Exited, [], Chosen(task, 0), Joining(0)), JoinWorker)
         == One(false, 1, Exited, [], Chosen(task, 0), Joining(1))
    ensures Enabled(One(false, 1, Exited, [], Chosen(task, 0), Joining(1)), PushTask(0))
    ensures Step(One(false, 1, Exited, [], Chosen(task, 0), Joining(1)), PushTask(0))
         == One(false, 1, Exited, [task], Idle, Joining(1))
  {
    var none: seq<Task> := [];
    assert none + [task] == [task];
  }

  // So a task can be accepted and never run: the pool has stopped, the task waits for a worker that is gone.
  lemma AcceptedTaskCanBeLost(task: Task)
    ensures Runs(Launched(1, 1, 1), LateRun(task))
    ensures After(Launched(1, 1, 1), LateRun(task)) == One(false, 1, Exited, [task], Idle, Joining(1))
    ensures Stopped(One(false, 1, Exited, [task], Idle, Joining(1)))
  {
    var run := LateRun(task);
    LateFirstSteps(task);
    LateMiddleSteps(task);
    LateLastSteps(task);
    hide Step, Enabled, Inv, Runs, After, One;
    Unroll(One(true, 0, Waiting, [], Idle, NotStopped), run);
    Unroll(One(true, 0, Waiting, [], Checked(task), NotStopped), run[1..]);
    Unroll(One(true, 1, Waiting, [], Chosen(task, 0), NotStopped), run[2..]);
    Unroll(One(false, 1, Waiting, [], Chosen(task, 0), Notifying(0)), run[3..]);
    Unroll(One(false, 1, Woken, [], Chosen(task, 0), Notifying(0)), run[4..]);
    Unroll(One(false, 1, Exited, [], Chosen(task, 0), Notifying(0)), run[5..]);
    Unroll(One(false, 1, Exited, [], Chosen(task, 0), Notifying(1)), run[6..]);
    Unroll(One(false, 1, Exited, [], Chosen(task, 0), Joining(0)), run[7..]);
    Unroll(One(false, 1, Exited, [], Chosen(task, 0), Joining(1)), run[8..]);
    LateStopped(task);
  }

  lemma LateStopped(task: Task)
    ensures Stopped(One(false, 1, Exited, [task], Idle, Joining(1)))
  {
  }

  lemma Unroll(s: Pool, actions: seq<Action>)
    requires Inv(s) && actions != [] && Enabled(s, actions[0])
    ensures Inv(Step(s, actions[0]))
    ensures Runs(Step(s, actions[0]), actions[1..]) ==>
      Runs(s, actions) && After(s, actions) == After(Step(s, actions[0]), actions[1..])
    ensures |actions| == 1 ==> Runs(s, actions) && After(s, actions) == Step(s, actions[0])
  {
    StepKeepsInv(s, actions[0]);
  }

  // ---------- Stop returns ----------

  function Rank(pc: WorkerPc): nat {
    match pc
    case Exited => 0
    case Taking => 2
    case Checking => 3
    case Woken => 4
    case Waiting => 5
    case Parked => 6
    case Running(_) => 7
  }

  function WorkerWork(k: Worker): nat { Rank(k.pc) + 8 * |k.queue| }

  function ClientWork(c: ClientPc): nat {
    match c
    case Idle => 0
    case Chosen(_, _) => 9
    case Checked(_) => 10
  }

  function StopWork(stop: StopPc, workerSize: nat): nat {
    match stop
    case NotStopped => 2 * workerSize + 2
    case Notifying(i) => workerSize + 1 + (if i <= workerSize then workerSize - i else 0)
    case Joining(i) => if i <= workerSize then workerSize - i else 0
  }

  function WorkersWork(workers: seq<Worker>): nat {
    if workers == [] then 0 else WorkersWork(workers[..|workers| - 1]) + WorkerWork(workers[|workers| - 1])
  }

  function ClientsWork(clients: seq<ClientPc>): nat {
    if clients == [] then 0 else ClientsWork(clients[..|clients| - 1]) + ClientWork(clients[|clients| - 1])
  }

  // The steps that can still happen once the pool's status has changed.
  function Work(s: Pool): nat {
    WorkersWork(s.workers) + ClientsWork(s.clients) + StopWork(s.stop, |s.workers|)
  }

  lemma {:induction false} WorkersUpdate(workers: seq<Worker>, w: nat, k: Worker)
    requires w < |workers|
    ensures WorkersWork(workers[w := k]) == WorkersWork(workers) + WorkerWork(k) - WorkerWork(workers[w])
    decreases |workers|
  {
    var top := |workers| - 1;
    if w < top {
      WorkersUpdate(workers[..top], w, k);
      assert workers[w := k][..top] == workers[..top][w := k];
    } else {
      assert workers[w := k][..top] == workers[..top];
    }
  }

  lemma {:induction false} ClientsUpdate(clients: seq<ClientPc>, c: nat, pc: ClientPc)
    requires c < |clients|
    ensures ClientsWork(clients[c := pc]) == ClientsWork(clients) + ClientWork(pc) - ClientWork(clients[c])
    decreases |clients|
  {
    var top := |clients| - 1;
    if c < top {
      ClientsUpdate(clients[..top], c, pc);
      assert clients[c := pc][..top] == clients[..top][c := pc];
    } else {
      assert clients[c := pc][..top] == clients[..top];
    }
  }

  lemma OwnStepUsesWork(s: Pool, a: Action)
    requires Inv(s) && Enabled(s, a) && !s.running
    requires a.EvaluateWait? || a.WakeSpuriously? || a.LookEmpty? || a.LookAgain? || a.TakeTask? || a.FinishTask?
    ensures Work(Step(s, a)) < Work(s)
  {
    assert WorkerInv(s.workers[a.w], s.running, s.maxQueueSize, Told(s.stop, a.w));
    var k := Step(s, a).workers[a.w];
    assert WorkerWork(k) < WorkerWork(s.workers[a.w]);
    WorkersUpdate(s.workers, a.w, k);
  }

  lemma PushUsesWork(s: Pool, c: nat)
    requires Enabled(s, PushTask(c)) && 0 < |s.workers|
    ensures Work(Step(s, PushTask(c))) < Work(s)
  {
    var w := s.clients[c].slot;
    var k := Step(s, PushTask(c)).workers[w];
    assert WorkerWork(k) <= WorkerWork(s.workers[w]) + 8;
    WorkersUpdate(s.workers, w, k);
    ClientsUpdate(s.clients, c, Idle);
  }

  lemma ChooseUsesWork(s: Pool, c: nat)
    requires Enabled(s, ChooseSlot(c)) && 0 < |s.workers|
    ensures Work(Step(s, ChooseSlot(c))) < Work(s)
  {
    ClientsUpdate(s.clients, c, Chosen(s.clients[c].task, s.counter % |s.workers|));
  }

  lemma NotifyUsesWork(s: Pool)
    requires Enabled(s, NotifyAll) && 0 < |s.workers| && s.stop.i <= |s.workers|
    ensures Work(Step(s, NotifyAll)) < Work(s)
  {
    if s.stop.i < |s.workers| {
      WorkersUpdate(s.workers, s.stop.i, Step(s, NotifyAll).workers[s.stop.i]);
    }
  }

  // After the status change every step that changes anything uses up work.
  lemma StepUsesWork(s: Pool, a: Action)
    requires Inv(s) && Enabled(s, a) && !s.running
    ensures Step(s, a) == s || Work(Step(s, a)) < Work(s)
    ensures !Step(s, a).running
  {
    match a
    case CheckStatus(c, task) => assert s.clients[c := Idle] == s.clients;
    case ChooseSlot(c) => ChooseUsesWork(s, c);
    case PushTask(c) => PushUsesWork(s, c);
    case StopBegins =>
    case NotifyAll => NotifyUsesWork(s);
    case JoinWorker =>
    case _ => OwnStepUsesWork(s, a);
  }

  // Until Stop returns, Stop itself or the worker it waits for has a step that changes something, and it is no
  // spurious wake-up: no worker that Stop joins sleeps through its notification.
  lemma StopNeverStuck(s: Pool) returns (a: Action)
    requires Inv(s) && !s.running && !Stopped(s)
    ensures Enabled(s, a) && Step(s, a) != s && !a.WakeSpuriously?
    ensures !a.CheckStatus? && !a.ChooseSlot? && !a.PushTask?
  {
    if s.stop.Notifying? {
      a := NotifyAll;
    } else {
      var w := s.stop.i;
      assert Told(s.stop, w) && WorkerInv(s.workers[w], s.running, s.maxQueueSize, true);
      a := match s.workers[w].pc
        case Waiting => EvaluateWait(w)
        case Woken => LookEmpty(w)
        case Checking => LookAgain(w)
        case Taking => TakeTask(w)
        case Running(_) => FinishTask(w)
        case Exited => JoinWorker;
      if a != JoinWorker {
        assert Step(s, a).workers[w] != s.workers[w];
      }
    }
  }

  // Every step of the run changes something.
  ghost predicate Busy(s: Pool, actions: seq<Action>)
    requires Inv(s) && Runs(s, actions)
    decreases |actions|
  {
    actions == [] ||
    (Step(s, actions[0]) != s && (StepKeepsInv(s, actions[0]); Busy(Step(s, actions[0]), actions[1..])))
  }

  // So Stop returns: no run from a stopped pool has more effective steps than the pool had work left.
  lemma {:induction false} StopReturns(s: Pool, actions: seq<Action>)
    requires Inv(s) && !s.running && Runs(s, actions) && Busy(s, actions)
    ensures |actions| + Work(After(s, actions)) <= Work(s)
    decreases |actions|
  {
    if actions != [] {
      StepKeepsInv(s, actions[0]);
      StepUsesWork(s, actions[0]);
      StopReturns(Step(s, actions[0]), actions[1..]);
    }
  }
}

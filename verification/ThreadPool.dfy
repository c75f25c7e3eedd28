// The thread pool as a protocol: workers, clients and one Stop interleave; each locked region is one step, and so is
// each unlocked look at the status, at the counter and at whether a queue is empty.
module ThreadPools {

  type Task = nat

  // Where a worker is in its loop: before evaluating the wait condition, asleep in the wait, past the wait,
  // past the first look at its queue, about to take a task, running one, gone.
  datatype WorkerPc = Waiting | Parked | Woken | Checking | Taking | Running(task: Task) | Exited

  // accepted and ran are histories: the tasks pushed for this worker and those it has run; mark is the number
  // accepted when the pool's status changed to stopped, and closed the number accepted when the worker left.
  datatype Worker = Worker(pc: WorkerPc, queue: seq<Task>, accepted: seq<Task>, ran: seq<Task>, mark: nat, closed: nat)

  // A client inside AddTask: not there, past the status check, past the counter.
  datatype ClientPc = Idle | Checked(task: Task) | Chosen(task: Task, slot: nat)

  // Progress of Stop: not called, about to notify worker i, about to join worker i.
  datatype StopPc = NotStopped | Notifying(i: nat) | Joining(i: nat)

  datatype Pool = Pool(running: bool, counter: nat, maxQueueSize: nat,
                       workers: seq<Worker>, clients: seq<ClientPc>, stop: StopPc)

  datatype Action =
    | EvaluateWait(w: nat)       // lock, evaluate the wait condition, sleep if it fails
    | WakeSpuriously(w: nat)
    | LookEmpty(w: nat)          // leave if the queue is empty
    | LookAgain(w: nat)
    | TakeTask(w: nat)           // lock and pop
    | FinishTask(w: nat)
    | CheckStatus(c: nat, task: Task)
    | ChooseSlot(c: nat)         // fetch and add on the counter
    | PushTask(c: nat)           // lock, push, notify one
    | StopBegins                 // compare-and-swap on the status
    | NotifyAll                  // lock and notify the next worker
    | JoinWorker

  predicate Enabled(s: Pool, a: Action) {
    match a
    case EvaluateWait(w) => w < |s.workers| && s.workers[w].pc.Waiting?
    case WakeSpuriously(w) => w < |s.workers| && s.workers[w].pc.Parked?
    case LookEmpty(w) => w < |s.workers| && s.workers[w].pc.Woken?
    case LookAgain(w) => w < |s.workers| && s.workers[w].pc.Checking?
    case TakeTask(w) => w < |s.workers| && s.workers[w].pc.Taking?
    case FinishTask(w) => w < |s.workers| && s.workers[w].pc.Running?
    case CheckStatus(c, _) => c < |s.clients| && s.clients[c].Idle?
    case ChooseSlot(c) => c < |s.clients| && s.clients[c].Checked?
    case PushTask(c) => c < |s.clients| && s.clients[c].Chosen? && s.clients[c].slot < |s.workers|
    case StopBegins => s.running && s.stop.NotStopped?
    case NotifyAll => s.stop.Notifying?
    case JoinWorker => s.stop.Joining? && s.stop.i < |s.workers| && s.workers[s.stop.i].pc.Exited?
  }

  function Notified(pc: WorkerPc): WorkerPc {
    if pc.Parked? then Waiting else pc
  }

  function WorkerStep(s: Pool, w: nat, after: Worker): Pool
    requires w < |s.workers|
  {
    s.(workers := s.workers[w := after])
  }

  function ClientStep(s: Pool, c: nat, after: ClientPc): Pool
    requires c < |s.clients|
  {
    s.(clients := s.clients[c := after])
  }

  function Step(s: Pool, a: Action): Pool
    requires Enabled(s, a) && 0 < |s.workers|
  {
    match a
    case EvaluateWait(w) =>
      var k := s.workers[w];
      WorkerStep(s, w, k.(pc := if !s.running || k.queue != [] then Woken else Parked))
    case WakeSpuriously(w) => WorkerStep(s, w, s.workers[w].(pc := Waiting))
    case LookEmpty(w) =>
      var k := s.workers[w];
      WorkerStep(s, w, if k.queue == [] then k.(pc := Exited, closed := |k.accepted|) else k.(pc := Checking))
    case LookAgain(w) =>
      var k := s.workers[w];
      WorkerStep(s, w, k.(pc := if k.queue == [] then Waiting else Taking))
    case TakeTask(w) =>
      var k := s.workers[w];
      // A failed pop is followed by another look at the queue, which is empty then.
      WorkerStep(s, w, if k.queue == [] then k.(pc := Waiting)
                       else k.(pc := Running(k.queue[0]), queue := k.queue[1..]))
    case FinishTask(w) =>
      var k := s.workers[w];
      WorkerStep(s, w, k.(pc := Waiting, ran := k.ran + [k.pc.task]))
    case CheckStatus(c, task) => ClientStep(s, c, if s.running then Checked(task) else Idle)
    case ChooseSlot(c) =>
      ClientStep(s, c, Chosen(s.clients[c].task, s.counter % |s.workers|))
        .(counter := (s.counter + 1) % 0x1_0000_0000_0000_0000)
    case PushTask(c) =>
      var Chosen(task, w) := s.clients[c];
      var k := s.workers[w];
      var after := if s.maxQueueSize <= |k.queue| then k
                   else k.(queue := k.queue + [task], accepted := k.accepted + [task], pc := Notified(k.pc));
      ClientStep(WorkerStep(s, w, after), c, Idle)
    case StopBegins =>
      s.(running := false, stop := Notifying(0),
         workers := seq(|s.workers|, w requires 0 <= w < |s.workers| =>
                          s.workers[w].(mark := |s.workers[w].accepted|)))
    case NotifyAll =>
      var i := s.stop.i;
      if i < |s.workers|
      then WorkerStep(s, i, s.workers[i].(pc := Notified(s.workers[i].pc))).(stop := Notifying(i + 1))
      else s.(stop := Joining(0))
    case JoinWorker => s.(stop := Joining(s.stop.i + 1))
  }

  // The pool right after Start, with any number of clients.
  function Started(workerSize: nat, queueSize: nat, clients: nat): Pool {
    Pool(true, 0, queueSize, seq(workerSize, _ => Worker(Waiting, [], [], [], 0, 0)), seq(clients, _ => Idle), NotStopped)
  }

  predicate Stopped(s: Pool) {
    s.stop == Joining(|s.workers|)
  }

  function InHand(pc: WorkerPc): seq<Task> {
    if pc.Running? then [pc.task] else []
  }

  // What every reachable worker satisfies; `told` says whether Stop has notified it.
  ghost predicate WorkerInv(k: Worker, running: bool, maxQueueSize: nat, told: bool) {
    && k.accepted == k.ran + InHand(k.pc) + k.queue
    && |k.queue| <= maxQueueSize
    && (k.pc.Parked? ==> k.queue == [] && !told)
    && (k.pc.Woken? ==> k.queue != [] || !running)
    && (k.pc.Checking? || k.pc.Taking? ==> k.queue != [])
    && (!running ==> k.mark <= |k.accepted|)
    && (k.pc.Exited? ==> !running && |k.ran| == k.closed && k.mark <= k.closed)
  }

  predicate Told(stop: StopPc, w: nat) {
    match stop
    case NotStopped => false
    case Notifying(i) => w < i
    case Joining(_) => true
  }

  ghost predicate Inv(s: Pool) {
    && 0 < |s.workers|
    && (s.running <==> s.stop.NotStopped?)
    && (s.stop.Notifying? ==> s.stop.i <= |s.workers|)
    && (s.stop.Joining? ==> s.stop.i <= |s.workers| && forall w: nat :: w < s.stop.i ==> s.workers[w].pc.Exited?)
    && (forall w: nat :: w < |s.workers| ==> WorkerInv(s.workers[w], s.running, s.maxQueueSize, Told(s.stop, w)))
    && (forall c: nat :: c < |s.clients| && s.clients[c].Chosen? ==> s.clients[c].slot < |s.workers|)
  }

  lemma StartedInv(workerSize: nat, queueSize: nat, clients: nat)
    requires 0 < workerSize
    ensures Inv(Started(workerSize, queueSize, clients))
  {
  }

  lemma WorkerStepKeeps(s: Pool, w: nat, after: Worker)
    requires Inv(s) && w < |s.workers|
    requires WorkerInv(after, s.running, s.maxQueueSize, Told(s.stop, w))
    requires s.workers[w].pc.Exited? ==> after.pc.Exited?
    ensures Inv(WorkerStep(s, w, after))
  {
  }

  lemma ClientStepKeeps(s: Pool, c: nat, after: ClientPc)
    requires Inv(s) && c < |s.clients|
    requires after.Chosen? ==> after.slot < |s.workers|
    ensures Inv(ClientStep(s, c, after))
  {
  }

  // What a worker makes of itself.
  lemma OwnStepKeeps(s: Pool, a: Action)
    requires Inv(s) && Enabled(s, a)
    requires a.EvaluateWait? || a.WakeSpuriously? || a.LookEmpty? || a.LookAgain? || a.TakeTask? || a.FinishTask?
    ensures Inv(Step(s, a))
  {
    var k := s.workers[a.w];
    assert WorkerInv(k, s.running, s.maxQueueSize, Told(s.stop, a.w));
    if a.TakeTask? {
      assert k.queue == [k.queue[0]] + k.queue[1..];
    }
    WorkerStepKeeps(s, a.w, Step(s, a).workers[a.w]);
  }

  lemma PushKeeps(s: Pool, c: nat)
    requires Inv(s) && Enabled(s, PushTask(c))
    ensures Inv(Step(s, PushTask(c)))
  {
    var Chosen(task, w) := s.clients[c];
    var k := s.workers[w];
    assert WorkerInv(k, s.running, s.maxQueueSize, Told(s.stop, w));
    if |k.queue| < s.maxQueueSize {
      var after := k.(queue := k.queue + [task], accepted := k.accepted + [task], pc := Notified(k.pc));
      assert after.accepted == after.ran + InHand(after.pc) + after.queue;
      WorkerStepKeeps(s, w, after);
      ClientStepKeeps(WorkerStep(s, w, after), c, Idle);
    } else {
      WorkerStepKeeps(s, w, k);
      ClientStepKeeps(WorkerStep(s, w, k), c, Idle);
    }
  }

  lemma StopBeginsKeeps(s: Pool)
    requires Inv(s) && Enabled(s, StopBegins)
    ensures Inv(Step(s, StopBegins))
  {
    forall w: nat | w < |s.workers|
      ensures WorkerInv(s.workers[w].(mark := |s.workers[w].accepted|), false, s.maxQueueSize, false)
    {
      assert WorkerInv(s.workers[w], true, s.maxQueueSize, false);
    }
  }

  lemma NotifyKeeps(s: Pool)
    requires Inv(s) && Enabled(s, NotifyAll)
    ensures Inv(Step(s, NotifyAll))
  {
    var i := s.stop.i;
    if i < |s.workers| {
      var after := s.workers[i].(pc := Notified(s.workers[i].pc));
      assert WorkerInv(s.workers[i], s.running, s.maxQueueSize, false);
      assert WorkerInv(after, s.running, s.maxQueueSize, true);
    }
  }

  lemma StepKeepsInv(s: Pool, a: Action)
    requires Inv(s) && Enabled(s, a)
    ensures Inv(Step(s, a))
    ensures |Step(s, a).workers| == |s.workers|
  {
    match a
    case CheckStatus(c, task) => ClientStepKeeps(s, c, if s.running then Checked(task) else Idle);
    case ChooseSlot(c) => ClientStepKeeps(s, c, Chosen(s.clients[c].task, s.counter % |s.workers|));
    case PushTask(c) => PushKeeps(s, c);
    case StopBegins => StopBeginsKeeps(s);
    case NotifyAll => NotifyKeeps(s);
    case JoinWorker =>
    case _ => OwnStepKeeps(s, a);
  }

  // ---------- runs ----------

  ghost predicate Runs(s: Pool, actions: seq<Action>)
    requires Inv(s)
    decreases |actions|
  {
    actions == [] ||
    (Enabled(s, actions[0]) && (StepKeepsInv(s, actions[0]); Runs(Step(s, actions[0]), actions[1..])))
  }

  ghost function After(s: Pool, actions: seq<Action>): Pool
    requires Inv(s) && Runs(s, actions)
    decreases |actions|
  {
    if actions == [] then s else StepKeepsInv(s, actions[0]); After(Step(s, actions[0]), actions[1..])
  }

  lemma {:induction false} RunKeepsInv(s: Pool, actions: seq<Action>)
    requires Inv(s) && Runs(s, actions)
    ensures Inv(After(s, actions)) && |After(s, actions).workers| == |s.workers|
    decreases |actions|
  {
    if actions != [] {
      StepKeepsInv(s, actions[0]);
      RunKeepsInv(Step(s, actions[0]), actions[1..]);
    }
  }

  ghost function Launched(workerSize: nat, queueSize: nat, clients: nat): (s: Pool)
    requires 0 < workerSize
    ensures Inv(s) && |s.workers| == workerSize
  {
    StartedInv(workerSize, queueSize, clients);
    Started(workerSize, queueSize, clients)
  }

  // In every interleaving a worker has run a prefix of the tasks accepted for it, so each at most once and in
  // order; when Stop returns, every task pushed before the status changed has run, and no worker is asleep once
  // Stop has notified it.
  lemma PoolServes(workerSize: nat, queueSize: nat, clients: nat, actions: seq<Action>, w: nat)
    requires 0 < workerSize && Runs(Launched(workerSize, queueSize, clients), actions)
    requires w < workerSize
    ensures var s := After(Launched(workerSize, queueSize, clients), actions);
      && |s.workers| == workerSize
      && var k := s.workers[w];
      && k.ran <= k.accepted
      && (Stopped(s) ==> k.mark <= |k.accepted| && k.accepted[..k.mark] <= k.ran)
      && (Told(s.stop, w) ==> !k.pc.Parked?)
      && (k.pc.Parked? ==> k.queue == [])
  {
    RunKeepsInv(Launched(workerSize, queueSize, clients), actions);
    var s := After(Launched(workerSize, queueSize, clients), actions);
    assert WorkerInv(s.workers[w], s.running, s.maxQueueSize, Told(s.stop, w));
  }
}

// Which worker a task goes to: the counter deals the calls of AddTask out to the workers in turn.
module ThreadPoolSlots {
  import opened Bits
  import opened ThreadPools
  import opened ThreadPoolStop

  // The slots chosen in a run, in the order of the choices.
  ghost function Choices(s: Pool, actions: seq<Action>): seq<nat>
    requires Inv(s) && Runs(s, actions)
    decreases |actions|
  {
    if actions == [] then []
    else
      StepKeepsInv(s, actions[0]);
      var rest := Choices(Step(s, actions[0]), actions[1..]);
      if actions[0].ChooseSlot? then [SlotChosen(Step(s, actions[0]), actions[0].c)] + rest else rest
  }

  // The slot a client holds after its choice.
  function SlotChosen(s: Pool, c: nat): nat {
    if c < |s.clients| && s.clients[c].Chosen? then s.clients[c].slot else 0
  }

  lemma ChoiceIs(s: Pool, c: nat)
    requires Inv(s) && Enabled(s, ChooseSlot(c)) && s.counter + 1 < 0x1_0000_0000_0000_0000
    ensures var t := Step(s, ChooseSlot(c));
      && SlotChosen(t, c) == s.counter % |s.workers| && t.counter == s.counter + 1 && |t.workers| == |s.workers|
      && t.clients[c].Chosen? && t.clients[c].task == s.clients[c].task
  {
  }

  lemma CounterStays(s: Pool, a: Action)
    requires Inv(s) && Enabled(s, a) && !a.ChooseSlot?
    ensures Step(s, a).counter == s.counter && |Step(s, a).workers| == |s.workers|
  {
  }

  // As long as the counter does not wrap, the i-th choice of a run is the counter's value then, modulo the workers.
  lemma {:induction false} ChoicesInTurn(s: Pool, actions: seq<Action>, i: nat)
    requires Inv(s) && Runs(s, actions) && i < |Choices(s, actions)|
    requires s.counter + |Choices(s, actions)| < 0x1_0000_0000_0000_0000
    ensures Choices(s, actions)[i] == (s.counter + i) % |s.workers|
    decreases |actions|
  {
    var a := actions[0];
    StepKeepsInv(s, a);
    if a.ChooseSlot? {
      ChoiceIs(s, a.c);
      if i != 0 {
        ChoicesInTurn(Step(s, a), actions[1..], i - 1);
      }
    } else {
      CounterStays(s, a);
      ChoicesInTurn(Step(s, a), actions[1..], i);
    }
  }

  lemma RemaindersDiffer(x: nat, y: nat, m: nat)
    requires 0 < m && x < y < x + m
    ensures x % m != y % m
  {
    if x % m == y % m {
      var d := y / m - x / m;
      assert m * (x / m) + x % m == x && m * (y / m) + y % m == y;
      assert m * d == y - x;
      SmallMultiple(m, d, y - x);
    }
  }

  // Any |workers| successive choices go to pairwise different workers.
  lemma ChoicesDiffer(s: Pool, actions: seq<Action>, i: nat, j: nat)
    requires Inv(s) && Runs(s, actions) && i < j < |Choices(s, actions)| && j < i + |s.workers|
    requires s.counter + |Choices(s, actions)| < 0x1_0000_0000_0000_0000
    ensures Choices(s, actions)[i] != Choices(s, actions)[j]
  {
    ChoicesInTurn(s, actions, i);
    ChoicesInTurn(s, actions, j);
    RemaindersDiffer(s.counter + i, s.counter + j, |s.workers|);
  }

  // ---------- how many choices each worker gets ----------

  function Times(list: seq<nat>, w: nat): nat {
    if list == [] then 0 else Times(list[..|list| - 1], w) + (if list[|list| - 1] == w then 1 else 0)
  }

  lemma {:induction false} TimesOf(list: seq<nat>, m: nat, w: nat)
    requires 0 < m && w < m && forall i :: 0 <= i < |list| ==> list[i] == i % m
    ensures Times(list, w) == (|list| + m - 1 - w) / m
  {
    if list == [] {
      RemainderUnique(m - 1 - w, m, 0, m - 1 - w);
    } else {
      var n := |list| - 1;
      TimesOf(list[..n], m, w);
      DealOne(n, m, w);
    }
  }

  // Dealing card n to player n % m.
  lemma DealOne(n: nat, m: nat, w: nat)
    requires 0 < m && w < m
    ensures (n + m - w) / m == (n + m - 1 - w) / m + (if n % m == w then 1 else 0)
  {
    var q, r := n / m, n % m;
    assert n == m * q + r;
    if r < w {
      assert n + m - w == m * q + (r + m - w) && n + m - 1 - w == m * q + (r + m - 1 - w);
      RemainderUnique(n + m - w, m, q, r + m - w);
      RemainderUnique(n + m - 1 - w, m, q, r + m - 1 - w);
    } else {
      assert n + m - w == m * (q + 1) + (r - w);
      RemainderUnique(n + m - w, m, q + 1, r - w);
      if r == w {
        assert n + m - 1 - w == m * q + (m - 1);
        RemainderUnique(n + m - 1 - w, m, q, m - 1);
      } else {
        assert n + m - 1 - w == m * (q + 1) + (r - 1 - w);
        RemainderUnique(n + m - 1 - w, m, q + 1, r - 1 - w);
      }
    }
  }

  // In every run from the start the choices of two workers differ in number by at most one.
  lemma ChoicesBalanced(workerSize: nat, queueSize: nat, clients: nat, actions: seq<Action>, v: nat, w: nat)
    requires 0 < workerSize && v < workerSize && w < workerSize
    requires Runs(Launched(workerSize, queueSize, clients), actions)
    requires |Choices(Launched(workerSize, queueSize, clients), actions)| < 0x1_0000_0000_0000_0000
    ensures var chosen := Choices(Launched(workerSize, queueSize, clients), actions);
      -1 <= Times(chosen, v) - Times(chosen, w) <= 1
  {
    var s := Launched(workerSize, queueSize, clients);
    var chosen := Choices(s, actions);
    forall i | 0 <= i < |chosen|
      ensures chosen[i] == i % workerSize
    {
      ChoicesInTurn(s, actions, i);
    }
    TimesOf(chosen, workerSize, v);
    TimesOf(chosen, workerSize, w);
    SharesDiffer(|chosen|, workerSize, v, w);
  }

  lemma SharesDiffer(n: nat, m: nat, v: nat, w: nat)
    requires 0 < m && v < m && w < m
    ensures -1 <= (n + m - 1 - v) / m - (n + m - 1 - w) / m <= 1
  {
    var q, r := n / m, n % m;
    ShareOf(n, m, v);
    ShareOf(n, m, w);
  }

  lemma ShareOf(n: nat, m: nat, w: nat)
    requires 0 < m && w < m
    ensures (n + m - 1 - w) / m == n / m + if w < n % m then 1 else 0
  {
    var q, r := n / m, n % m;
    assert n == m * q + r;
    if w < r {
      assert n + m - 1 - w == m * (q + 1) + (r - 1 - w);
      RemainderUnique(n + m - 1 - w, m, q + 1, r - 1 - w);
    } else {
      assert n + m - 1 - w == m * q + (r + m - 1 - w);
      RemainderUnique(n + m - 1 - w, m, q, r + m - 1 - w);
    }
  }

  // ---------- what the turns are good for ----------

  // Clients that chose a worker and have not pushed yet.
  function WaitingFor(clients: seq<ClientPc>, w: nat): nat {
    if clients == [] then 0
    else
      var last := clients[|clients| - 1];
      WaitingFor(clients[..|clients| - 1], w) + (if last.Chosen? && last.slot == w then 1 else 0)
  }

  lemma {:induction false} WaitingUpdate(clients: seq<ClientPc>, c: nat, pc: ClientPc, w: nat)
    requires c < |clients|
    ensures WaitingFor(clients[c := pc], w) + (if clients[c].Chosen? && clients[c].slot == w then 1 else 0)
         == WaitingFor(clients, w) + (if pc.Chosen? && pc.slot == w then 1 else 0)
  {
    var n := |clients| - 1;
    if c == n {
      assert clients[c := pc][..n] == clients[..n];
    } else {
      assert clients[c := pc][..n] == clients[..n][c := pc];
      WaitingUpdate(clients[..n], c, pc, w);
    }
  }

  // What a worker was dealt: the tasks it accepted, and those on their way to it.
  function Dealt(s: Pool, w: nat): nat
    requires w < |s.workers|
  {
    |s.workers[w].accepted| + WaitingFor(s.clients, w)
  }

  // A worker whose queue cannot be full: nothing else was dealt to it.
  lemma FirstHasRoom(s: Pool, c: nat)
    requires Inv(s) && Enabled(s, PushTask(c)) && 0 < s.maxQueueSize && Dealt(s, s.clients[c].slot) <= 1
    ensures |s.workers[s.clients[c].slot].queue| < s.maxQueueSize
  {
    var w := s.clients[c].slot;
    WaitingUpdate(s.clients, c, Idle, w);
    assert WorkerInv(s.workers[w], s.running, s.maxQueueSize, Told(s.stop, w));
    assert s.workers[w].accepted == [];
  }

  lemma StepDeals(s: Pool, a: Action, w: nat)
    requires Inv(s) && Enabled(s, a) && w < |s.workers| && 0 < s.maxQueueSize
    requires a.PushTask? ==> Dealt(s, s.clients[a.c].slot) <= 1
    ensures |Step(s, a).workers| == |s.workers| && Step(s, a).maxQueueSize == s.maxQueueSize
    ensures Dealt(Step(s, a), w) ==
      Dealt(s, w) + (if a.ChooseSlot? && SlotChosen(Step(s, a), a.c) == w then 1 else 0)
  {
    if a.PushTask? {
      FirstHasRoom(s, a.c);
      WaitingUpdate(s.clients, a.c, Idle, w);
    }
    if a.ChooseSlot? {
      WaitingUpdate(s.clients, a.c, Step(s, a).clients[a.c], w);
    }
    if a.CheckStatus? {
      WaitingUpdate(s.clients, a.c, Step(s, a).clients[a.c], w);
    }
  }

  lemma {:induction false} TimesFirst(x: nat, list: seq<nat>, w: nat)
    ensures Times([x] + list, w) == (if x == w then 1 else 0) + Times(list, w)
    decreases |list|
  {
    if list == [] {
      assert [x] + list == [x] && [x][..0] == [];
    } else {
      var n := |list| - 1;
      assert ([x] + list)[..n + 1] == [x] + list[..n];
      TimesFirst(x, list[..n], w);
    }
  }

  // A run in which no worker is dealt more than one task deals each worker what was chosen for it: nothing is refused.
  lemma {:induction false} RunDeals(s: Pool, actions: seq<Action>, w: nat)
    requires Inv(s) && Runs(s, actions) && 0 < s.maxQueueSize && w < |s.workers|
    requires forall v: nat :: v < |s.workers| ==> Dealt(s, v) + Times(Choices(s, actions), v) <= 1
    ensures |After(s, actions).workers| == |s.workers| && After(s, actions).maxQueueSize == s.maxQueueSize
    ensures Dealt(After(s, actions), w) == Dealt(s, w) + Times(Choices(s, actions), w)
    decreases |actions|
  {
    hide Dealt, Step;
    if actions != [] {
      var a := actions[0];
      StepKeepsInv(s, a);
      DealStep(s, actions, w);
      forall v: nat | v < |s.workers|
        ensures |Step(s, a).workers| == |s.workers|
        ensures Dealt(Step(s, a), v) + Times(Choices(Step(s, a), actions[1..]), v)
             == Dealt(s, v) + Times(Choices(s, actions), v)
      {
        DealStep(s, actions, v);
      }
      RunDeals(Step(s, a), actions[1..], w);
    }
  }

  lemma DealStep(s: Pool, actions: seq<Action>, w: nat)
    requires Inv(s) && Runs(s, actions) && actions != [] && 0 < s.maxQueueSize && w < |s.workers|
    requires forall v: nat :: v < |s.workers| ==> Dealt(s, v) + Times(Choices(s, actions), v) <= 1
    ensures Inv(Step(s, actions[0])) && Runs(Step(s, actions[0]), actions[1..])
    ensures |Step(s, actions[0]).workers| == |s.workers| && Step(s, actions[0]).maxQueueSize == s.maxQueueSize
    ensures Dealt(Step(s, actions[0]), w) + Times(Choices(Step(s, actions[0]), actions[1..]), w)
         == Dealt(s, w) + Times(Choices(s, actions), w)
  {
    hide Dealt, Times;
    var a := actions[0];
    StepKeepsInv(s, a);
    StepDeals(s, a, w);
    if a.ChooseSlot? {
      TimesFirst(SlotChosen(Step(s, a), a.c), Choices(Step(s, a), actions[1..]), w);
    }
  }

  lemma {:induction false} NobodyWaits(clients: nat, w: nat)
    ensures WaitingFor(seq(clients, _ => Idle), w) == 0
  {
    if clients != 0 {
      assert seq(clients, _ => Idle)[..clients - 1] == seq(clients - 1, _ => Idle);
      NobodyWaits(clients - 1, w);
    }
  }

  // The first |workers| choices from the start, whatever else happens meanwhile: no call is refused, and each worker is
  // dealt what was chosen for it, one task when all choices were made.
  lemma FirstRoundServed(workerSize: nat, queueSize: nat, clients: nat, actions: seq<Action>, w: nat)
    requires 0 < workerSize < 0x1_0000_0000_0000_0000 && 0 < queueSize && w < workerSize
    requires Runs(Launched(workerSize, queueSize, clients), actions)
    requires |Choices(Launched(workerSize, queueSize, clients), actions)| <= workerSize
    ensures var end := After(Launched(workerSize, queueSize, clients), actions);
      var n := |Choices(Launched(workerSize, queueSize, clients), actions)|;
      && |end.workers| == workerSize && Inv(end)
      && Dealt(end, w) == (if w < n then 1 else 0)
      && (forall c: nat :: Enabled(end, PushTask(c)) ==>
            |end.workers[end.clients[c].slot].queue| < end.maxQueueSize)
  {
    hide Dealt;
    var s := Launched(workerSize, queueSize, clients);
    var chosen := Choices(s, actions);
    RunKeepsInv(s, actions);
    forall v: nat | v < workerSize
      ensures Dealt(s, v) == 0 && Times(chosen, v) == (if v < |chosen| then 1 else 0)
    {
      NothingDealt(workerSize, queueSize, clients, v);
      FirstRound(workerSize, queueSize, clients, actions, v);
    }
    NothingDealt(workerSize, queueSize, clients, w);
    RunDeals(s, actions, w);
    var end := After(s, actions);
    forall v: nat | v < workerSize
      ensures |end.workers| == workerSize
      ensures Dealt(end, v) == (if v < |chosen| then 1 else 0)
    {
      RunDeals(s, actions, v);
    }
    forall c: nat | Enabled(end, PushTask(c))
      ensures |end.workers[end.clients[c].slot].queue| < end.maxQueueSize
    {
      FirstHasRoom(end, c);
    }
  }

  lemma NothingDealt(workerSize: nat, queueSize: nat, clients: nat, w: nat)
    requires w < workerSize
    ensures Dealt(Launched(workerSize, queueSize, clients), w) == 0
    ensures Launched(workerSize, queueSize, clients).maxQueueSize == queueSize
  {
    NobodyWaits(clients, w);
  }

  lemma FirstRound(workerSize: nat, queueSize: nat, clients: nat, actions: seq<Action>, w: nat)
    requires w < workerSize < 0x1_0000_0000_0000_0000
    requires Runs(Launched(workerSize, queueSize, clients), actions)
    requires |Choices(Launched(workerSize, queueSize, clients), actions)| <= workerSize
    ensures var chosen := Choices(Launched(workerSize, queueSize, clients), actions);
      Times(chosen, w) == if w < |chosen| then 1 else 0
  {
    var s := Launched(workerSize, queueSize, clients);
    var chosen := Choices(s, actions);
    forall i | 0 <= i < |chosen|
      ensures chosen[i] == i % workerSize
    {
      ChoicesInTurn(s, actions, i);
    }
    TimesOf(chosen, workerSize, w);
    var n := |chosen|;
    if w < n {
      RemainderUnique(n + workerSize - 1 - w, workerSize, 1, n - 1 - w);
    } else {
      RemainderUnique(n + workerSize - 1 - w, workerSize, 0, n + workerSize - 1 - w);
    }
  }

  // ---------- calls one after the other ----------

  // The calls of AddTask by client 0 for the tasks from the i-th on.
  function Calls(tasks: seq<Task>, i: nat): seq<Action>
    requires i <= |tasks|
    decreases |tasks| - i
  {
    if i == |tasks| then []
    else [CheckStatus(0, tasks[i]), ChooseSlot(0), PushTask(0)] + Calls(tasks, i + 1)
  }

  // Before the i-th call each of the first i workers has accepted its task and the others nothing.
  ghost predicate Served(s: Pool, tasks: seq<Task>, i: nat) {
    && Inv(s) && s.running && s.counter == i && |s.clients| == 1 && s.clients[0].Idle? && 0 < s.maxQueueSize
    && i <= |tasks| <= |s.workers|
    && forall w: nat :: w < |s.workers| ==>
         s.workers[w].accepted == if w < i then [tasks[w]] else []
  }

  ghost predicate Leads(s: Pool, a: Action, t: Pool) {
    Inv(s) && Enabled(s, a) && t == Step(s, a) && Inv(t)
  }

  lemma {:induction false} CallsServed(s: Pool, tasks: seq<Task>, i: nat)
    requires Served(s, tasks, i) && |tasks| < 0x1_0000_0000_0000_0000
    ensures Inv(s) && i <= |tasks| && Runs(s, Calls(tasks, i)) && Served(After(s, Calls(tasks, i)), tasks, |tasks|)
    decreases |tasks| - i
  {
    hide *;
    ServedIs(s, tasks, i);
    CallsAre(tasks, i);
    if i < |tasks| {
      var s1, s2, s3 := OneCall(s, tasks, i);
      CallsServed(s3, tasks, i + 1);
      var rest := Calls(tasks, i + 1);
      Prepend(s2, PushTask(0), s3, rest);
      Prepend(s1, ChooseSlot(0), s2, [PushTask(0)] + rest);
      Prepend(s, CheckStatus(0, tasks[i]), s1, [ChooseSlot(0)] + ([PushTask(0)] + rest));
    } else {
      NoSteps(s);
    }
  }

  lemma ServedIs(s: Pool, tasks: seq<Task>, i: nat)
    requires Served(s, tasks, i)
    ensures Inv(s) && i <= |tasks| <= |s.workers|
  {
  }

  lemma CallsAre(tasks: seq<Task>, i: nat)
    requires i <= |tasks|
    ensures i == |tasks| ==> Calls(tasks, i) == []
    ensures i < |tasks| ==>
      Calls(tasks, i) == [CheckStatus(0, tasks[i])] + ([ChooseSlot(0)] + ([PushTask(0)] + Calls(tasks, i + 1)))
  {
  }

  lemma NoSteps(s: Pool)
    requires Inv(s)
    ensures Runs(s, []) && After(s, []) == s
  {
  }

  lemma Prepend(s: Pool, a: Action, t: Pool, rest: seq<Action>)
    requires Leads(s, a, t) && Inv(t) && Runs(t, rest)
    ensures Inv(s) && Runs(s, [a] + rest) && After(s, [a] + rest) == After(t, rest)
  {
    assert ([a] + rest)[0] == a && ([a] + rest)[1..] == rest;
  }

  lemma OneCall(s: Pool, tasks: seq<Task>, i: nat) returns (s1: Pool, s2: Pool, s3: Pool)
    requires Served(s, tasks, i) && i < |tasks| < 0x1_0000_0000_0000_0000
    ensures Leads(s, CheckStatus(0, tasks[i]), s1) && Leads(s1, ChooseSlot(0), s2) && Leads(s2, PushTask(0), s3)
    ensures Inv(s1) && Inv(s2) && Inv(s3) && Served(s3, tasks, i + 1)
  {
    hide *;
    s1 := CallChecks(s, tasks, i);
    s2 := CallChooses(s, s1, tasks, i);
    s3 := CallPushes(s, s2, tasks, i);
  }

  lemma CallChecks(s: Pool, tasks: seq<Task>, i: nat) returns (t: Pool)
    requires Served(s, tasks, i) && i < |tasks|
    ensures Leads(s, CheckStatus(0, tasks[i]), t) && Inv(t) && t == s.(clients := [Checked(tasks[i])])
  {
    hide Inv;
    ServedIs(s, tasks, i);
    StepKeepsInv(s, CheckStatus(0, tasks[i]));
    t := Step(s, CheckStatus(0, tasks[i]));
    assert s.clients[0 := Checked(tasks[i])] == [Checked(tasks[i])];
  }

  lemma CallChooses(s: Pool, s1: Pool, tasks: seq<Task>, i: nat) returns (t: Pool)
    requires Served(s, tasks, i) && i < |tasks| < 0x1_0000_0000_0000_0000
    requires Inv(s1) && s1 == s.(clients := [Checked(tasks[i])])
    ensures Leads(s1, ChooseSlot(0), t) && Inv(t) && t == s.(clients := [Chosen(tasks[i], i)], counter := i + 1)
  {
    hide Inv;
    ServedIs(s, tasks, i);
    StepKeepsInv(s1, ChooseSlot(0));
    t := Step(s1, ChooseSlot(0));
    RemainderUnique(i, |s.workers|, 0, i);
    assert s1.clients[0 := Chosen(tasks[i], i)] == [Chosen(tasks[i], i)];
  }

  lemma CallPushes(s: Pool, s2: Pool, tasks: seq<Task>, i: nat) returns (t: Pool)
    requires Served(s, tasks, i) && i < |tasks|
    requires Inv(s2) && s2 == s.(clients := [Chosen(tasks[i], i)], counter := i + 1)
    ensures Leads(s2, PushTask(0), t) && Inv(t) && Served(t, tasks, i + 1)
  {
    hide Inv;
    ServedIs(s, tasks, i);
    NothingQueued(s, tasks, i);
    StepKeepsInv(s2, PushTask(0));
    t := Step(s2, PushTask(0));
  }

  lemma NothingQueued(s: Pool, tasks: seq<Task>, i: nat)
    requires Served(s, tasks, i) && i < |tasks|
    ensures i < |s.workers| && s.workers[i].queue == [] && s.workers[i].accepted == []
  {
    assert WorkerInv(s.workers[i], s.running, s.maxQueueSize, Told(s.stop, i));
  }

  // From the start, calls in a row up to the number of workers are all accepted, each by another worker in turn.
  lemma CallsInARow(workerSize: nat, queueSize: nat, tasks: seq<Task>, w: nat)
    requires 0 < queueSize && |tasks| <= workerSize < 0x1_0000_0000_0000_0000 && w < |tasks|
    ensures Runs(Launched(workerSize, queueSize, 1), Calls(tasks, 0))
    ensures var end := After(Launched(workerSize, queueSize, 1), Calls(tasks, 0));
      w < |end.workers| && end.workers[w].accepted == [tasks[w]]
  {
    CallsServed(Launched(workerSize, queueSize, 1), tasks, 0);
  }

  // A call that begins after the status change is refused at once and changes nothing.
  lemma LateCallRefused(s: Pool, c: nat, task: Task)
    requires Inv(s) && !s.running && Enabled(s, CheckStatus(c, task))
    ensures Step(s, CheckStatus(c, task)) == s
  {
    assert s.clients[c := Idle] == s.clients;
  }
}

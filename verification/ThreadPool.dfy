/** ThreadPool: any number of workers and enqueuing threads around one queue, one mutex and one condition
    variable, as the interleaved steps of those threads. */
module ThreadPool {
  type Task = nat

  /** A worker: before locking the mutex, holding it before the wait condition is tested, asleep in
      the wait, running a task with the mutex released, or returned. */
  datatype Worker = Outside | Checking | Asleep | Running(task: Task) | Returned

  /** A thread that may call enqueue: not in it, before locking, holding the mutex, or past the
      unlock with notify_one still to come. */
  datatype Client = Away | Calling(task: Task) | Inside(task: Task) | Owing

  /** The thread that may run the destructor: not in it, before locking, holding the mutex, past
      the unlock with notify_all still to come, joining, or past the joins. */
  datatype Closer = Open | Wanting | Closing | OwingAll | Joining | Joined

  datatype Holder = Nobody | WorkerHolds(i: nat) | ClientHolds(j: nat) | CloserHolds

  /** The pool and, for the claims, what was accepted, taken off the queue and finished so far. */
  datatype Pool = Pool(
    workers: seq<Worker>, clients: seq<Client>, closer: Closer,
    holder: Holder, queue: seq<Task>, stop: bool,
    accepted: seq<Task>, taken: seq<Task>, finished: multiset<Task>)

  /** `Wakeup` is a spurious one; `Notify` wakes worker `i`, which only a sleeping worker can be;
      `NotifyNobody` finds no worker asleep. */
  datatype Step =
    | WorkerLocks(i: nat) | Check(i: nat) | Finish(i: nat) | Wakeup(i: nat)
    | Call(j: nat, task: Task) | ClientLocks(j: nat) | Push(j: nat) | Notify(j: nat, i: nat) | NotifyNobody(j: nat)
    | Close | CloserLocks | Stop | NotifyAll | Join

  /** Threads that may do something. */
  predicate Enabled(p: Pool, e: Step) {
    match e
    case WorkerLocks(i) => i < |p.workers| && p.workers[i].Outside? && p.holder.Nobody?
    case Check(i) => i < |p.workers| && p.workers[i].Checking?
    case Finish(i) => i < |p.workers| && p.workers[i].Running?
    case Wakeup(i) => i < |p.workers| && p.workers[i].Asleep?
    case Call(j, _) => j < |p.clients| && p.clients[j].Away?
    case ClientLocks(j) => j < |p.clients| && p.clients[j].Calling? && p.holder.Nobody?
    case Push(j) => j < |p.clients| && p.clients[j].Inside?
    case Notify(j, i) => j < |p.clients| && p.clients[j].Owing? && i < |p.workers| && p.workers[i].Asleep?
    case NotifyNobody(j) => j < |p.clients| && p.clients[j].Owing? && Asleep !in p.workers
    case Close => p.closer.Open?
    case CloserLocks => p.closer.Wanting? && p.holder.Nobody?
    case Stop => p.closer.Closing?
    case NotifyAll => p.closer.OwingAll?
    case Join => p.closer.Joining? && forall i :: 0 <= i < |p.workers| ==> p.workers[i].Returned?
  }

  function Awoken(ws: seq<Worker>): (r: seq<Worker>)
    ensures |r| == |ws| && forall i :: 0 <= i < |ws| ==> r[i] == if ws[i].Asleep? then Outside else ws[i]
  {
    seq(|ws|, i requires 0 <= i < |ws| => if ws[i].Asleep? then Outside else ws[i])
  }

  function Next(p: Pool, e: Step): Pool
    requires Enabled(p, e)
  {
    match e
    case WorkerLocks(i) => p.(workers := p.workers[i := Checking], holder := WorkerHolds(i))
    case Check(i) =>
      if p.queue != [] then
        p.(workers := p.workers[i := Running(p.queue[0])], holder := Nobody,
           queue := p.queue[1..], taken := p.taken + [p.queue[0]])
      else if p.stop then p.(workers := p.workers[i := Returned], holder := Nobody)
      else p.(workers := p.workers[i := Asleep], holder := Nobody)
    case Finish(i) => p.(workers := p.workers[i := Outside], finished := p.finished + multiset{p.workers[i].task})
    case Wakeup(i) => p.(workers := p.workers[i := Outside])
    case Call(j, task) => p.(clients := p.clients[j := Calling(task)])
    case ClientLocks(j) => p.(clients := p.clients[j := Inside(p.clients[j].task)], holder := ClientHolds(j))
    case Push(j) =>
      if p.stop then p.(clients := p.clients[j := Away], holder := Nobody)
      else
        p.(clients := p.clients[j := Owing], holder := Nobody,
           queue := p.queue + [p.clients[j].task], accepted := p.accepted + [p.clients[j].task])
    case Notify(j, i) => p.(clients := p.clients[j := Away], workers := p.workers[i := Outside])
    case NotifyNobody(j) => p.(clients := p.clients[j := Away])
    case Close => p.(closer := Wanting)
    case CloserLocks => p.(closer := Closing, holder := CloserHolds)
    case Stop => p.(closer := OwingAll, holder := Nobody, stop := true)
    case NotifyAll => p.(closer := Joining, workers := Awoken(p.workers))
    case Join => p.(closer := Joined)
  }

  /** A new pool with `threads` workers, and `callers` threads that may enqueue. */
  function New(threads: nat, callers: nat): Pool {
    Pool(seq(threads, _ => Outside), seq(callers, _ => Away), Open, Nobody, [], false, [], [], multiset{})
  }

  /** Every step is enabled when it is taken. */
  predicate Runs(p: Pool, es: seq<Step>)
    decreases |es|
  {
    es == [] || (Enabled(p, es[0]) && Runs(Next(p, es[0]), es[1..]))
  }

  function After(p: Pool, es: seq<Step>): Pool
    requires Runs(p, es)
    decreases |es|
  {
    if es == [] then p else After(Next(p, es[0]), es[1..])
  }

  // Counting

  function Total(xs: seq<nat>): nat {
    if xs == [] then 0 else xs[0] + Total(xs[1..])
  }

  lemma {:induction false} TotalUpdate(xs: seq<nat>, i: nat, v: nat)
    requires i < |xs|
    ensures Total(xs[i := v]) + xs[i] == Total(xs) + v
    decreases |xs|
  {
    if i == 0 {
      assert xs[0 := v][1..] == xs[1..];
    } else {
      assert xs[i := v][1..] == xs[1..][i - 1 := v];
      TotalUpdate(xs[1..], i - 1, v);
    }
  }

  /** Workers that will test the queue before they can fall asleep. */
  function AwakeMarks(ws: seq<Worker>): (r: seq<nat>)
    ensures |r| == |ws|
  {
    seq(|ws|, i requires 0 <= i < |ws| => if ws[i].Outside? || ws[i].Checking? then 1 else 0)
  }

  function OwingMarks(cs: seq<Client>): (r: seq<nat>)
    ensures |r| == |cs|
  {
    seq(|cs|, j requires 0 <= j < |cs| => if cs[j].Owing? then 1 else 0)
  }

  function Awake(ws: seq<Worker>): nat {
    Total(AwakeMarks(ws))
  }

  /** Notifications that are still to come. */
  function Owed(cs: seq<Client>): nat {
    Total(OwingMarks(cs))
  }

  function TaskOf(w: Worker): multiset<Task> {
    if w.Running? then multiset{w.task} else multiset{}
  }

  function RunningTasks(ws: seq<Worker>): multiset<Task> {
    if ws == [] then multiset{} else TaskOf(ws[0]) + RunningTasks(ws[1..])
  }

  lemma AwakeUpdate(ws: seq<Worker>, i: nat, w: Worker)
    requires i < |ws|
    ensures Awake(ws[i := w]) + AwakeMarks(ws)[i] == Awake(ws) + if w.Outside? || w.Checking? then 1 else 0
  {
    var v := if w.Outside? || w.Checking? then 1 else 0;
    assert AwakeMarks(ws[i := w]) == AwakeMarks(ws)[i := v];
    TotalUpdate(AwakeMarks(ws), i, v);
  }

  lemma OwedUpdate(cs: seq<Client>, j: nat, c: Client)
    requires j < |cs|
    ensures Owed(cs[j := c]) + OwingMarks(cs)[j] == Owed(cs) + if c.Owing? then 1 else 0
  {
    var v := if c.Owing? then 1 else 0;
    assert OwingMarks(cs[j := c]) == OwingMarks(cs)[j := v];
    TotalUpdate(OwingMarks(cs), j, v);
  }

  lemma {:induction false} RunningUpdate(ws: seq<Worker>, i: nat, w: Worker, t: Task)
    requires i < |ws|
    ensures RunningTasks(ws[i := w])[t] + TaskOf(ws[i])[t] == RunningTasks(ws)[t] + TaskOf(w)[t]
    decreases |ws|
  {
    hide TaskOf;
    if i == 0 {
      assert ws[0 := w][1..] == ws[1..];
    } else {
      assert ws[i := w][0] == ws[0] && ws[i := w][1..] == ws[1..][i - 1 := w];
      RunningUpdate(ws[1..], i - 1, w, t);
    }
  }

  lemma {:induction false} RunningAwoken(ws: seq<Worker>)
    ensures RunningTasks(Awoken(ws)) == RunningTasks(ws)
    decreases |ws|
  {
    if ws != [] {
      RunningAwoken(ws[1..]);
      assert Awoken(ws)[1..] == Awoken(ws[1..]);
    }
  }

  // What every step keeps.

  /** The mutex is held by whoever is between locking and unlocking, and by one thread at most. */
  predicate LockOk(p: Pool) {
    && (forall i :: 0 <= i < |p.workers| ==> (p.workers[i].Checking? <==> p.holder == WorkerHolds(i)))
    && (forall j :: 0 <= j < |p.clients| ==> (p.clients[j].Inside? <==> p.holder == ClientHolds(j)))
    && (p.closer.Closing? <==> p.holder == CloserHolds)
    && (p.holder.WorkerHolds? ==> p.holder.i < |p.workers|) && (p.holder.ClientHolds? ==> p.holder.j < |p.clients|)
  }

  /** Tasks leave the queue in the order in which they were accepted, and each is run by one worker. */
  predicate TasksOk(p: Pool) {
    p.accepted == p.taken + p.queue && multiset(p.taken) == p.finished + RunningTasks(p.workers)
  }

  /** While a worker sleeps, every queued task has a notification to come or a worker that will look. */
  predicate WakeupsOk(p: Pool) {
    && (Asleep in p.workers ==> |p.queue| <= Owed(p.clients) + Awake(p.workers))
    && (Asleep in p.workers && p.stop ==> p.closer.OwingAll?)
  }

  predicate StopOk(p: Pool) {
    && (p.stop <==> p.closer.OwingAll? || p.closer.Joining? || p.closer.Joined?)
    && (Returned in p.workers ==> p.stop && p.queue == [])
    && (p.closer.Joined? ==> forall i :: 0 <= i < |p.workers| ==> p.workers[i].Returned?)
  }

  predicate Good(p: Pool) {
    LockOk(p) && TasksOk(p) && WakeupsOk(p) && StopOk(p)
  }

  lemma NewGood(threads: nat, callers: nat)
    ensures Good(New(threads, callers))
  {
    NoneRunning(New(threads, callers).workers);
  }

  lemma {:induction false} NoneRunning(ws: seq<Worker>)
    requires forall i :: 0 <= i < |ws| ==> !ws[i].Running?
    ensures RunningTasks(ws) == multiset{}
    decreases |ws|
  {
    if ws != [] { NoneRunning(ws[1..]); }
  }

  lemma LockKept(p: Pool, e: Step)
    requires LockOk(p) && Enabled(p, e)
    ensures LockOk(Next(p, e))
  {
  }

  lemma SameRunning(ws: seq<Worker>, i: nat, w: Worker)
    requires i < |ws| && !ws[i].Running? && !w.Running?
    ensures RunningTasks(ws[i := w]) == RunningTasks(ws)
  {
    hide RunningTasks;
    forall t ensures RunningTasks(ws[i := w])[t] == RunningTasks(ws)[t] { RunningUpdate(ws, i, w, t); }
  }

  lemma TakeKept(p: Pool, i: nat)
    requires TasksOk(p) && Enabled(p, Check(i)) && p.queue != []
    ensures TasksOk(Next(p, Check(i)))
  {
    var q, w := Next(p, Check(i)), Running(p.queue[0]);
    assert p.taken + p.queue == q.taken + q.queue;
    assert q.workers == p.workers[i := w] && q.finished == p.finished;
    hide RunningTasks, Enabled, Next;
    MoreRunning(p.workers, i, w, p.taken, p.finished);
  }

  lemma MoreRunning(ws: seq<Worker>, i: nat, w: Worker, taken: seq<Task>, finished: multiset<Task>)
    requires i < |ws| && w.Running? && !ws[i].Running? && multiset(taken) == finished + RunningTasks(ws)
    ensures multiset(taken + [w.task]) == finished + RunningTasks(ws[i := w])
  {
    hide RunningTasks;
    assert multiset(taken + [w.task]) == multiset(taken) + multiset{w.task};
    forall t ensures RunningTasks(ws[i := w])[t] == RunningTasks(ws)[t] + multiset{w.task}[t] { RunningUpdate(ws, i, w, t); }
  }

  lemma FinishKept(p: Pool, i: nat)
    requires TasksOk(p) && Enabled(p, Finish(i))
    ensures TasksOk(Next(p, Finish(i)))
  {
    var q := Next(p, Finish(i));
    hide RunningTasks;
    forall t ensures multiset(q.taken)[t] == (q.finished + RunningTasks(q.workers))[t] {
      RunningUpdate(p.workers, i, q.workers[i], t);
    }
  }

  lemma TasksKept(p: Pool, e: Step)
    requires TasksOk(p) && Enabled(p, e)
    ensures TasksOk(Next(p, e))
  {
    hide RunningTasks;
    match e
    case WorkerLocks(i) => SameRunning(p.workers, i, Checking);
    case Check(i) =>
      if p.queue != [] {
        TakeKept(p, i);
      } else {
        SameRunning(p.workers, i, if p.stop then Returned else Asleep);
      }
    case Finish(i) => FinishKept(p, i);
    case Wakeup(i) => SameRunning(p.workers, i, Outside);
    case Push(j) => assert p.taken + p.queue + [p.clients[j].task] == p.taken + (p.queue + [p.clients[j].task]);
    case Notify(_, i) => SameRunning(p.workers, i, Outside);
    case NotifyAll => RunningAwoken(p.workers);
    case _ =>
  }

  lemma WakeupsKept(p: Pool, e: Step)
    requires WakeupsOk(p) && StopOk(p) && Enabled(p, e)
    ensures WakeupsOk(Next(p, e))
  {
    var q := Next(p, e);
    match e
    case WorkerLocks(i) => AwakeUpdate(p.workers, i, q.workers[i]);
    case Check(i) => AwakeUpdate(p.workers, i, q.workers[i]);
    case Finish(i) => AwakeUpdate(p.workers, i, q.workers[i]);
    case Wakeup(i) => AwakeUpdate(p.workers, i, q.workers[i]);
    case Call(j, _) => OwedUpdate(p.clients, j, q.clients[j]);
    case ClientLocks(j) => OwedUpdate(p.clients, j, q.clients[j]);
    case Push(j) => OwedUpdate(p.clients, j, q.clients[j]);
    case Notify(j, i) => AwakeUpdate(p.workers, i, q.workers[i]); OwedUpdate(p.clients, j, q.clients[j]);
    case NotifyNobody(j) => OwedUpdate(p.clients, j, q.clients[j]);
    case _ =>
  }

  lemma StopKept(p: Pool, e: Step)
    requires StopOk(p) && Enabled(p, e)
    ensures StopOk(Next(p, e))
  {
  }

  /** Every reachable pool. */
  lemma {:induction false} AlwaysGood(p: Pool, es: seq<Step>)
    requires Good(p) && Runs(p, es)
    ensures Good(After(p, es)) && |After(p, es).workers| == |p.workers| && |After(p, es).clients| == |p.clients|
    decreases |es|
  {
    hide LockOk, TasksOk, WakeupsOk, StopOk;
    if es != [] {
      LockKept(p, es[0]);
      TasksKept(p, es[0]);
      WakeupsKept(p, es[0]);
      StopKept(p, es[0]);
      AlwaysGood(Next(p, es[0]), es[1..]);
    }
  }

  /** No lost wakeup: when some worker sleeps and no other worker will look at the queue, no task is
      being run and no notification is to come, there is nothing to do and the pool was not stopped. */
  lemma NoLostWakeup(threads: nat, callers: nat, es: seq<Step>)
    requires Runs(New(threads, callers), es)
    ensures var p := After(New(threads, callers), es);
            && Asleep in p.workers
            && (forall i :: 0 <= i < |p.workers| ==> p.workers[i].Asleep? || p.workers[i].Returned?)
            && (forall j :: 0 <= j < |p.clients| ==> !p.clients[j].Owing?) && !p.closer.OwingAll?
            ==> p.queue == [] && !p.stop
  {
    NewGood(threads, callers);
    AlwaysGood(New(threads, callers), es);
    var p := After(New(threads, callers), es);
    hide After, Runs, TasksOk, LockOk;
    if forall i :: 0 <= i < |p.workers| ==> p.workers[i].Asleep? || p.workers[i].Returned? {
      Zero(AwakeMarks(p.workers));
    }
    if forall j :: 0 <= j < |p.clients| ==> !p.clients[j].Owing? {
      Zero(OwingMarks(p.clients));
    }
  }

  lemma {:induction false} Zero(xs: seq<nat>)
    requires forall i :: 0 <= i < |xs| ==> xs[i] == 0
    ensures Total(xs) == 0
    decreases |xs|
  {
    if xs != [] { Zero(xs[1..]); }
  }

  /** Exactly once and in order: what was taken is a beginning of what was accepted, and every taken
      task was finished once or is being run by one worker. */
  lemma TakenInOrder(threads: nat, callers: nat, es: seq<Step>)
    requires Runs(New(threads, callers), es)
    ensures var p := After(New(threads, callers), es);
            p.taken <= p.accepted && p.accepted == p.taken + p.queue && multiset(p.taken) == p.finished + RunningTasks(p.workers)
  {
    NewGood(threads, callers);
    AlwaysGood(New(threads, callers), es);
  }

  /** Nothing is accepted after the pool was stopped, and it stays stopped. */
  lemma {:induction false} NothingAfterStop(p: Pool, es: seq<Step>)
    requires Runs(p, es) && p.stop
    ensures After(p, es).accepted == p.accepted && After(p, es).stop
    decreases |es|
  {
    if es != [] { NothingAfterStop(Next(p, es[0]), es[1..]); }
  }

  predicate AllReturned(p: Pool) {
    forall i :: 0 <= i < |p.workers| ==> p.workers[i].Returned?
  }

  /** Once the workers, at least one, have all returned, the tasks finished are the tasks accepted. */
  lemma Drained(p: Pool)
    requires Good(p) && |p.workers| > 0 && AllReturned(p)
    ensures p.queue == [] && p.taken == p.accepted && p.finished == multiset(p.accepted)
  {
    assert p.workers[0].Returned?;
    NoneRunning(p.workers);
    assert p.taken + [] == p.taken;
  }

  /** Nothing can happen but that a thread enters enqueue or the destructor, or that a worker wakes up
      for no reason. */
  ghost predicate Quiet(p: Pool) {
    forall e :: Enabled(p, e) ==> e.Call? || e.Close? || e.Wakeup?
  }

  lemma QuietThreads(p: Pool)
    requires LockOk(p) && Quiet(p)
    ensures forall i :: 0 <= i < |p.workers| ==> p.workers[i].Asleep? || p.workers[i].Returned?
    ensures forall j :: 0 <= j < |p.clients| ==> p.clients[j].Away?
    ensures p.closer.Open? || p.closer.Joined? || (p.closer.Joining? && !AllReturned(p))
  {
    forall i | 0 <= i < |p.workers| ensures !p.workers[i].Checking? { assert !Enabled(p, Check(i)); }
    forall j | 0 <= j < |p.clients| ensures !p.clients[j].Inside? { assert !Enabled(p, Push(j)); }
    assert !Enabled(p, Stop) && p.holder.Nobody?;
    forall i | 0 <= i < |p.workers| ensures p.workers[i].Asleep? || p.workers[i].Returned? {
      assert !Enabled(p, WorkerLocks(i)) && !Enabled(p, Finish(i));
    }
    forall j | 0 <= j < |p.clients| ensures p.clients[j].Away? {
      assert !Enabled(p, ClientLocks(j)) && !Enabled(p, NotifyNobody(j));
      if Asleep in p.workers {
        var i :| 0 <= i < |p.workers| && p.workers[i].Asleep?;
        assert !Enabled(p, Notify(j, i));
      }
    }
    assert !Enabled(p, CloserLocks) && !Enabled(p, NotifyAll) && !Enabled(p, Join);
  }

  /** The pool is never stuck: when it is quiet, every accepted task was finished, and either all workers
      wait for more or the destructor is through. */
  lemma NeverStuck(p: Pool)
    requires Good(p) && |p.workers| > 0 && Quiet(p)
    ensures p.queue == [] && p.finished == multiset(p.accepted)
    ensures (p.closer.Open? && forall i :: 0 <= i < |p.workers| ==> p.workers[i].Asleep?) || (p.closer.Joined? && AllReturned(p))
  {
    QuietThreads(p);
    hide LockOk, Quiet;
    if p.closer.Open? {
      Zero(AwakeMarks(p.workers));
      Zero(OwingMarks(p.clients));
      NoneRunning(p.workers);
      assert p.workers[0] in p.workers;
      assert p.taken + [] == p.taken;
    } else {
      Drained(p);
    }
  }

  // After the stop, every step but a new call brings the end nearer.

  function Weight(w: Worker): nat {
    match w
    case Outside => 2
    case Checking => 1
    case Asleep => 3
    case Running(_) => 3
    case Returned => 0
  }

  function ClientWeight(c: Client): nat {
    match c
    case Away => 0
    case Calling(_) => 3
    case Inside(_) => 2
    case Owing => 1
  }

  function Weights(ws: seq<Worker>): (r: seq<nat>)
    ensures |r| == |ws| && forall i :: 0 <= i < |ws| ==> r[i] == Weight(ws[i])
  {
    seq(|ws|, i requires 0 <= i < |ws| => Weight(ws[i]))
  }

  function ClientWeights(cs: seq<Client>): (r: seq<nat>)
    ensures |r| == |cs| && forall j :: 0 <= j < |cs| ==> r[j] == ClientWeight(cs[j])
  {
    seq(|cs|, j requires 0 <= j < |cs| => ClientWeight(cs[j]))
  }

  function Measure(p: Pool): nat {
    3 * |p.queue| + Total(Weights(p.workers)) + Total(ClientWeights(p.clients)) +
    if p.closer.OwingAll? then 2 else if p.closer.Joining? then 1 else 0
  }

  lemma WeightUpdate(ws: seq<Worker>, i: nat, w: Worker)
    requires i < |ws|
    ensures Total(Weights(ws[i := w])) + Weight(ws[i]) == Total(Weights(ws)) + Weight(w)
  {
    assert Weights(ws[i := w]) == Weights(ws)[i := Weight(w)];
    TotalUpdate(Weights(ws), i, Weight(w));
  }

  lemma ClientWeightUpdate(cs: seq<Client>, j: nat, c: Client)
    requires j < |cs|
    ensures Total(ClientWeights(cs[j := c])) + ClientWeight(cs[j]) == Total(ClientWeights(cs)) + ClientWeight(c)
  {
    assert ClientWeights(cs[j := c]) == ClientWeights(cs)[j := ClientWeight(c)];
    TotalUpdate(ClientWeights(cs), j, ClientWeight(c));
  }

  lemma {:induction false} TotalLess(xs: seq<nat>, ys: seq<nat>)
    requires |xs| == |ys| && forall i :: 0 <= i < |xs| ==> xs[i] <= ys[i]
    ensures Total(xs) <= Total(ys)
    decreases |xs|
  {
    if xs != [] { TotalLess(xs[1..], ys[1..]); }
  }

  lemma StepsDown(p: Pool, e: Step)
    requires StopOk(p) && p.stop && Enabled(p, e) && !e.Call?
    ensures Measure(Next(p, e)) < Measure(p)
  {
    hide Total;
    var q := Next(p, e);
    match e
    case WorkerLocks(i) => WeightUpdate(p.workers, i, q.workers[i]);
    case Check(i) => WeightUpdate(p.workers, i, q.workers[i]);
    case Finish(i) => WeightUpdate(p.workers, i, q.workers[i]);
    case Wakeup(i) => WeightUpdate(p.workers, i, q.workers[i]);
    case ClientLocks(j) => ClientWeightUpdate(p.clients, j, q.clients[j]);
    case Push(j) => ClientWeightUpdate(p.clients, j, q.clients[j]);
    case Notify(j, i) => WeightUpdate(p.workers, i, q.workers[i]); ClientWeightUpdate(p.clients, j, q.clients[j]);
    case NotifyNobody(j) => ClientWeightUpdate(p.clients, j, q.clients[j]);
    case NotifyAll => TotalLess(Weights(q.workers), Weights(p.workers));
    case _ =>
  }

  predicate NoCalls(es: seq<Step>) {
    forall k :: 0 <= k < |es| ==> !es[k].Call?
  }

  lemma {:induction false} RunsDown(p: Pool, es: seq<Step>)
    requires StopOk(p) && p.stop && Runs(p, es) && NoCalls(es)
    ensures |es| + Measure(After(p, es)) <= Measure(p)
    decreases |es|
  {
    hide Measure;
    if es != [] {
      StepsDown(p, es[0]);
      StopKept(p, es[0]);
      assert NoCalls(es[1..]);
      RunsDown(Next(p, es[0]), es[1..]);
    }
  }

  /** The destructor ends and drains the queue. In a pool with at least one worker that has been stopped,
      a run without new calls of enqueue has at most Measure(p) steps; where it can go no further
      the destructor is through, all workers have returned, and the tasks finished are exactly those that had been
      accepted before the stop. */
  lemma DestructorDrains(threads: nat, callers: nat, es: seq<Step>, fs: seq<Step>)
    requires threads > 0 && Runs(New(threads, callers), es) && After(New(threads, callers), es).stop
    requires Runs(After(New(threads, callers), es), fs) && NoCalls(fs)
    ensures var p := After(New(threads, callers), es);
            var q := After(p, fs);
            && |fs| <= Measure(p)
            && ((forall e :: Enabled(q, e) ==> e.Call?) ==>
                  q.closer.Joined? && AllReturned(q) && q.queue == [] && q.finished == multiset(p.accepted))
  {
    NewGood(threads, callers);
    AlwaysGood(New(threads, callers), es);
    var p := After(New(threads, callers), es);
    RunsDown(p, fs);
    AlwaysGood(p, fs);
    NothingAfterStop(p, fs);
    var q := After(p, fs);
    hide Runs, After, Measure, Enabled, LockOk, TasksOk, WakeupsOk;
    if forall e :: Enabled(q, e) ==> e.Call? { NeverStuck(q); }
  }

  /** One more step at the front of a run. */
  lemma OneStep(p: Pool, e: Step, es: seq<Step>)
    requires Enabled(p, e) && Runs(Next(p, e), es)
    ensures Runs(p, [e] + es) && After(p, [e] + es) == After(Next(p, e), es)
  {
    assert ([e] + es)[1..] == es;
  }

  /** A pool without workers, whose first calling thread is at `client` and whose others are away. */
  function Lonely(callers: nat, client: Client, closer: Closer, holder: Holder, tasks: seq<Task>, stop: bool): Pool {
    Pool([], [client] + seq(callers, _ => Away), closer, holder, tasks, stop, tasks, [], multiset{})
  }

  lemma LonelyCloses(n: nat, tasks: seq<Task>)
    ensures var p := Lonely(n, Owing, Open, Nobody, tasks, false);
            Enabled(p, Close) && Next(p, Close) == Lonely(n, Owing, Wanting, Nobody, tasks, false)
    ensures var p := Lonely(n, Owing, Wanting, Nobody, tasks, false);
            Enabled(p, CloserLocks) && Next(p, CloserLocks) == Lonely(n, Owing, Closing, CloserHolds, tasks, false)
    ensures var p := Lonely(n, Owing, Closing, CloserHolds, tasks, false);
            Enabled(p, Stop) && Next(p, Stop) == Lonely(n, Owing, OwingAll, Nobody, tasks, true)
    ensures var p := Lonely(n, Owing, OwingAll, Nobody, tasks, true);
            Enabled(p, NotifyAll) && Next(p, NotifyAll) == Lonely(n, Owing, Joining, Nobody, tasks, true)
  {
  }

  lemma LonelyCalls(n: nat, task: Task)
    ensures var p := Lonely(n, Away, Open, Nobody, [], false);
            Enabled(p, Call(0, task)) && Next(p, Call(0, task)) == Lonely(n, Calling(task), Open, Nobody, [], false)
    ensures var p := Lonely(n, Calling(task), Open, Nobody, [], false);
            Enabled(p, ClientLocks(0)) && Next(p, ClientLocks(0)) == Lonely(n, Inside(task), Open, ClientHolds(0), [], false)
    ensures var p := Lonely(n, Inside(task), Open, ClientHolds(0), [], false);
            Enabled(p, Push(0)) && Next(p, Push(0)) == Lonely(n, Owing, Open, Nobody, [task], false)
  {
  }

  lemma LonelyEnd(n: nat, tasks: seq<Task>) returns (es: seq<Step>)
    ensures Runs(Lonely(n, Owing, Open, Nobody, tasks, false), es)
    ensures After(Lonely(n, Owing, Open, Nobody, tasks, false), es) == Lonely(n, Owing, Joined, Nobody, tasks, true)
  {
    OneStep(Lonely(n, Owing, Joining, Nobody, tasks, true), Join, []);
    LonelyCloses(n, tasks);
    hide Runs, After, Enabled, Next;
    OneStep(Lonely(n, Owing, OwingAll, Nobody, tasks, true), NotifyAll, [Join] + []);
    OneStep(Lonely(n, Owing, Closing, CloserHolds, tasks, false), Stop, [NotifyAll] + ([Join] + []));
    OneStep(Lonely(n, Owing, Wanting, Nobody, tasks, false), CloserLocks, [Stop] + ([NotifyAll] + ([Join] + [])));
    es := [Close] + ([CloserLocks] + ([Stop] + ([NotifyAll] + ([Join] + []))));
    OneStep(Lonely(n, Owing, Open, Nobody, tasks, false), Close, es[1..]);
  }

  /** Without a worker a task can be accepted and the destructor get through without it. */
  lemma WithoutWorkers(callers: nat, task: Task) returns (es: seq<Step>)
    requires callers > 0
    ensures Runs(New(0, callers), es)
    ensures var p := After(New(0, callers), es); p.closer.Joined? && p.accepted == [task] && p.finished == multiset{}
  {
    var n := callers - 1;
    var end := LonelyEnd(n, [task]);
    LonelyCalls(n, task);
    assert New(0, callers) == Lonely(n, Away, Open, Nobody, [], false);
    hide Runs, After, Enabled, Next, New;
    OneStep(Lonely(n, Inside(task), Open, ClientHolds(0), [], false), Push(0), end);
    OneStep(Lonely(n, Calling(task), Open, Nobody, [], false), ClientLocks(0), [Push(0)] + end);
    es := [Call(0, task)] + ([ClientLocks(0)] + ([Push(0)] + end));
    OneStep(Lonely(n, Away, Open, Nobody, [], false), Call(0, task), [ClientLocks(0)] + ([Push(0)] + end));
  }

  /** Without a worker no task is ever taken, let alone finished: whatever was accepted stays in the queue. */
  lemma {:induction false} NothingIsRun(p: Pool, es: seq<Step>)
    requires p.workers == [] && p.taken == [] && p.finished == multiset{} && p.queue == p.accepted && Runs(p, es)
    ensures var q := After(p, es); q.taken == [] && q.finished == multiset{} && q.queue == q.accepted
    decreases |es|
  {
    if es != [] { NothingIsRun(Next(p, es[0]), es[1..]); }
  }

  /** Whenever the destructor is through, the tasks finished are those accepted. */
  ghost predicate Drains(threads: nat, callers: nat) {
    forall es :: Runs(New(threads, callers), es) ==>
      var p := After(New(threads, callers), es); p.closer.Joined? ==> p.finished == multiset(p.accepted)
  }

  /** The destructor drains the queue exactly when the pool has a worker; with none, nothing that was accepted is run. */
  lemma DrainsExactly(threads: nat, callers: nat)
    requires callers > 0
    ensures Drains(threads, callers) <==> threads > 0
    ensures threads == 0 ==> forall es :: Runs(New(threads, callers), es) ==> After(New(threads, callers), es).finished == multiset{}
  {
    var p := New(threads, callers);
    if threads > 0 {
      forall es | Runs(p, es) && After(p, es).closer.Joined? ensures After(p, es).finished == multiset(After(p, es).accepted) {
        NewGood(threads, callers);
        AlwaysGood(p, es);
        Drained(After(p, es));
      }
    } else {
      forall es | Runs(p, es) ensures After(p, es).finished == multiset{} { NothingIsRun(p, es); }
      var es := WithoutWorkers(callers, 7);
      assert multiset([7])[7] == 1;
    }
  }
}

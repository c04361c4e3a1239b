/**
 * The thread pool of libthreadpool/CThread.cc and the client map of src/main.cc: the regions under
 * the mutex are methods, and the protocol is the system of their steps, proved safe on every run.
 */
module ThreadPool {
  import opened Wrappers

  type Tid = nat
  type Task = nat
  type Client = nat

  // ---------- vectors ----------

  predicate NoDuplicates<T(==)>(s: seq<T>) {
    forall i, j :: 0 <= i < j < |s| ==> s[i] != s[j]
  }

  // std::find, and erase of what it found
  function IndexOf<T(==)>(s: seq<T>, x: T): (i: nat)
    ensures i <= |s| && (i < |s| ==> s[i] == x) && forall k :: 0 <= k < i ==> s[k] != x
    ensures i < |s| <==> x in s
  {
    if s == [] || s[0] == x then 0 else 1 + IndexOf(s[1..], x)
  }

  function Remove<T(==)>(s: seq<T>, x: T): seq<T> {
    var i := IndexOf(s, x);
    if i < |s| then s[..i] + s[i + 1..] else s
  }

  lemma RemoveMembers<T>(s: seq<T>, x: T)
    requires NoDuplicates(s) && x in s
    ensures NoDuplicates(Remove(s, x)) && |Remove(s, x)| == |s| - 1
    ensures forall y :: y in Remove(s, x) <==> y in s && y != x
  {
    var i := IndexOf(s, x);
    var r := Remove(s, x);
    assert forall k :: 0 <= k < |r| ==> r[k] == s[if k < i then k else k + 1];
    forall y | y in s && y != x ensures y in r {
      var k := IndexOf(s, y);
      assert r[if k < i then k else k - 1] == y;
    }
  }

  // ---------- the state protected by the mutex ----------

  datatype Pool = Pool(queue: seq<Task>, maxTask: nat, min: nat, max: nat, threadNum: int, idle: seq<Tid>, busy: seq<Tid>)

  // How many threads AddTask creates once the task is queued.
  function Wanted(p: Pool): nat {
    var need := |p.queue| - p.threadNum;
    if need > p.threadNum then
      var capped := if need + p.threadNum > p.max then p.max - p.threadNum else need;
      if capped > 0 then capped else 0
    else 0
  }

  // The pool grows only when the queue is more than twice as long as there are threads, and then
  // to one thread for each queued task, as far as m_max allows.
  lemma GrowsToQueue(p: Pool, task: Task, supply: seq<Tid>)
    requires 0 <= p.threadNum <= p.max && |supply| == Wanted(Queued(p, task))
    ensures var n := |p.queue| + 1;
            Created(Queued(p, task), supply).threadNum ==
            if n <= 2 * p.threadNum then p.threadNum else if n < p.max then n else p.max
  {
  }

  function Created(p: Pool, tids: seq<Tid>): Pool {
    p.(idle := p.idle + tids, threadNum := p.threadNum + |tids|)
  }

  function Queued(p: Pool, task: Task): Pool {
    p.(queue := p.queue + [task])
  }

  function ToIdle(p: Pool, tid: Tid): Pool {
    p.(busy := Remove(p.busy, tid), idle := p.idle + [tid])
  }

  function ToBusy(p: Pool, tid: Tid): Pool {
    p.(idle := Remove(p.idle, tid), busy := p.busy + [tid])
  }

  // MoveOutIdleThread, and whether it called m_thread_exit_cb
  function MovedOut(p: Pool, tid: Tid): (Pool, bool) {
    if tid in p.idle then (p.(idle := Remove(p.idle, tid), threadNum := p.threadNum - 1), true) else (p, false)
  }

  // ---------- the class ----------

  class CThreadPool {
    var taskList: seq<Task>
    var maxTask: nat
    var max: nat
    var min: nat
    var threadNum: int
    var idleThreads: seq<Tid>
    var busyThreads: seq<Tid>

    ghost function View(): Pool
      reads this
    {
      Pool(taskList, maxTask, min, max, threadNum, idleThreads, busyThreads)
    }

    // init_: `tids` are the identifiers pthread_create gives out.
    constructor (min: nat, max: nat, tids: seq<Tid>)
      requires |tids| == min
      ensures View() == Pool([], 100, min, max, min, tids, [])
    {
      this.max, this.min := max, min;
      threadNum, maxTask := 0, 100;
      taskList, idleThreads, busyThreads := [], [], [];
      new;
      Create(tids);
    }

    method Create(tids: seq<Tid>)
      modifies this`idleThreads, this`threadNum
      ensures View() == Created(old(View()), tids)
    {
      for i := 0 to |tids|
        invariant View() == Created(old(View()), tids[..i])
      {
        idleThreads := idleThreads + [tids[i]];
        threadNum := threadNum + 1;
        assert tids[..i + 1] == tids[..i] + [tids[i]];
      }
      assert tids[..|tids|] == tids;
    }

    // The iterator loops of the three Move functions
    method Find(v: seq<Tid>, tid: Tid) returns (i: nat)
      ensures i == IndexOf(v, tid)
    {
      i := 0;
      while i != |v|
        invariant 0 <= i <= |v| && IndexOf(v, tid) == i + IndexOf(v[i..], tid)
        decreases |v| - i
      {
        if tid == v[i] {
          break;
        }
        assert v[i..][1..] == v[i + 1..];
        i := i + 1;
      }
    }

    // Erasing end() is undefined: the thread has to be in the busy vector.
    method MoveToIdle(tid: Tid)
      requires tid in busyThreads
      modifies this`idleThreads, this`busyThreads
      ensures View() == ToIdle(old(View()), tid)
    {
      var i := Find(busyThreads, tid);
      busyThreads := busyThreads[..i] + busyThreads[i + 1..];
      idleThreads := idleThreads + [tid];
    }

    method MoveToBusy(tid: Tid)
      requires tid in idleThreads
      modifies this`idleThreads, this`busyThreads
      ensures View() == ToBusy(old(View()), tid)
    {
      var i := Find(idleThreads, tid);
      idleThreads := idleThreads[..i] + idleThreads[i + 1..];
      busyThreads := busyThreads + [tid];
    }

    method MoveOutIdleThread(tid: Tid) returns (exitCallback: bool)
      modifies this`idleThreads, this`threadNum
      ensures (View(), exitCallback) == MovedOut(old(View()), tid)
    {
      var i := Find(idleThreads, tid);
      exitCallback := false;
      if i != |idleThreads| {
        idleThreads := idleThreads[..i] + idleThreads[i + 1..];
        threadNum := threadNum - 1;
        exitCallback := true;
      }
    }

    // `supply` are the identifiers of the threads pthread_create would start next.
    method AddTask(task: Task, supply: seq<Tid>) returns (accepted: bool)
      requires |supply| == Wanted(Queued(View(), task))
      modifies this
      ensures accepted == (|old(taskList)| < maxTask)
      ensures View() == if accepted then Created(Queued(old(View()), task), supply) else old(View())
    {
      if |taskList| >= maxTask {
        return false;
      }
      taskList := taskList + [task];
      var needThreadNum := |taskList| - threadNum;
      if needThreadNum > threadNum {
        if needThreadNum + threadNum > max {
          needThreadNum := max - threadNum;
        }
        if needThreadNum > 0 {
          Create(supply);
        }
      }
      accepted := true;
    }

    // ThreadFunc from taking the lock to the wait, or to the task check if there are tasks.
    method EnterLocked(tid: Tid, doing: bool) returns (wait: bool, doing': bool)
      requires doing ==> tid in busyThreads
      modifies this`idleThreads, this`busyThreads
      ensures wait == (old(taskList) == []) && doing' == (doing && !wait)
      ensures View() == if wait && doing then ToIdle(old(View()), tid) else old(View())
    {
      doing', wait := doing, false;
      if taskList == [] {
        if doing {
          MoveToIdle(tid);
          doing' := false;
        }
        wait := true;
      }
    }

    // ThreadFunc from the before-run callback, which gave `res`, to releasing the lock.
    method TakeLocked(tid: Tid, doing: bool, res: int) returns (task: Option<Task>, doing': bool)
      requires !doing ==> tid in idleThreads
      modifies this`idleThreads, this`busyThreads, this`taskList
      ensures task == if res == 0 && old(taskList) != [] then Some(old(taskList[0])) else None
      ensures doing' == (doing || task.Some?)
      ensures View() == if task.None? then old(View())
                        else (if doing then old(View()) else ToBusy(old(View()), tid)).(queue := old(taskList)[1..])
    {
      task, doing' := None, doing;
      if res == 0 {
        if taskList != [] {
          if !doing {
            MoveToBusy(tid);
            doing' := true;
          }
          task := Some(taskList[0]);
          taskList := taskList[1..];
        }
      }
    }
  }

  // The map g_sphinx_client_map and its two operations
  class ClientMap {
    var clients: map<Tid, Client>

    constructor ()
      ensures clients == map[]
    {
      clients := map[];
    }

    // `created` is what create_sphinx_client returns when it is called.
    method GetClient(tid: Tid, created: Option<Client>) returns (client: Option<Client>)
      modifies this
      ensures client == if tid in old(clients) then Some(old(clients)[tid]) else created
      ensures client.Some? ==> tid in clients && clients[tid] == client.value
      ensures client == None ==> clients == old(clients)
      ensures clients - {tid} == old(clients) - {tid}
      ensures clients == WithClient(old(clients), tid, created)
    {
      if tid in clients {
        client := Some(clients[tid]);
      } else {
        client := created;
        if client.Some? {
          clients := clients[tid := client.value];
        }
      }
    }

    method ReleaseClient(tid: Tid) returns (destroyed: Option<Client>)
      modifies this
      ensures destroyed == if tid in old(clients) then Some(old(clients)[tid]) else None
      ensures clients == old(clients) - {tid}
    {
      destroyed := None;
      if tid in clients {
        destroyed := Some(clients[tid]);
        clients := clients - {tid};
      }
    }
  }

  function WithClient(clients: map<Tid, Client>, tid: Tid, created: Option<Client>): map<Tid, Client> {
    if tid !in clients && created.Some? then clients[tid := created.value] else clients
  }

  // ---------- the protocol ----------

  // Where a worker is: before taking the lock, in the timed wait, running a task, after a turn
  // without a task, or about to take the lock to leave.
  datatype Phase = Start | Waiting | Running(task: Task) | Idling | Leaving

  datatype Worker = Worker(phase: Phase, doing: bool)

  // Besides the shared state: the workers that exist, and the history of the tasks. Every call
  // of AddTask is told apart by its own task number.
  datatype State = State(
    pool: Pool,
    workers: map<Tid, Worker>,
    clients: map<Tid, Client>,
    accepted: seq<Task>,
    dequeued: seq<Task>,
    finished: set<Task>,
    rejected: set<Task>)

  function NewWorkers(tids: seq<Tid>): map<Tid, Worker> {
    map t | t in tids :: Worker(Start, false)
  }

  predicate Init(s: State, tids: seq<Tid>) {
    && s.pool.min <= s.pool.max && |tids| == s.pool.min && NoDuplicates(tids)
    && s.pool.queue == [] && s.pool.idle == tids && s.pool.busy == [] && s.pool.threadNum == s.pool.min
    && s.workers == NewWorkers(tids)
    && s.clients == map[] && s.accepted == [] && s.dequeued == [] && s.finished == {} && s.rejected == {}
  }

  datatype Step =
    | AddTask(task: Task, supply: seq<Tid>)
    | Enter(tid: Tid)
    | Take(tid: Tid, res: int)
    | UseClient(tid: Tid, created: Option<Client>)
    | DropClient(tid: Tid)
    | Finish(tid: Tid)
    | GoOn(tid: Tid)
    | Decide(tid: Tid)
    | Exit(tid: Tid)

  // When a step can happen. Take follows Enter with tasks queued in the same locked region,
  // or a wait that ended by a signal, by time or spuriously.
  predicate Enabled(s: State, step: Step) {
    match step
    case AddTask(task, supply) =>
      && task !in s.accepted && task !in s.rejected
      && |supply| == Wanted(Queued(s.pool, task)) && NoDuplicates(supply)
      && forall t :: t in supply ==> t !in s.workers
    case Enter(tid) => tid in s.workers && s.workers[tid].phase == Start && s.pool.queue == []
    case Take(tid, res) =>
      tid in s.workers &&
      (s.workers[tid].phase == Waiting || (s.workers[tid].phase == Start && s.pool.queue != []))
    case UseClient(tid, created) =>
      tid in s.workers && s.workers[tid].phase.Running? && (created.Some? ==> created.value !in s.clients.Values)
    case DropClient(tid) => tid in s.workers && s.workers[tid].phase.Running?
    case Finish(tid) => tid in s.workers && s.workers[tid].phase.Running?
    case GoOn(tid) => tid in s.workers && s.workers[tid].phase == Idling
    case Decide(tid) =>
      // m_thread_num is read without the lock
      tid in s.workers && s.workers[tid] == Worker(Idling, false) && s.pool.threadNum > s.pool.min
    case Exit(tid) => tid in s.workers && s.workers[tid].phase == Leaving
  }

  function Apply(s: State, step: Step): State
    requires Enabled(s, step)
  {
    match step
    case AddTask(task, supply) =>
      if |s.pool.queue| >= s.pool.maxTask then s.(rejected := s.rejected + {task})
      else s.(pool := Created(Queued(s.pool, task), supply), workers := s.workers + NewWorkers(supply),
              accepted := s.accepted + [task])
    case Enter(tid) =>
      s.(pool := if s.workers[tid].doing then ToIdle(s.pool, tid) else s.pool,
         workers := s.workers[tid := Worker(Waiting, false)])
    case Take(tid, res) =>
      var doing := s.workers[tid].doing;
      if res == 0 && s.pool.queue != [] then
        var task := s.pool.queue[0];
        s.(pool := (if doing then s.pool else ToBusy(s.pool, tid)).(queue := s.pool.queue[1..]),
           workers := s.workers[tid := Worker(Running(task), true)],
           dequeued := s.dequeued + [task])
      else s.(workers := s.workers[tid := Worker(Idling, doing)])
    case UseClient(tid, created) => s.(clients := WithClient(s.clients, tid, created))
    case DropClient(tid) => s.(clients := s.clients - {tid})
    case Finish(tid) =>
      s.(workers := s.workers[tid := Worker(Start, s.workers[tid].doing)],
         finished := s.finished + {s.workers[tid].phase.task})
    case GoOn(tid) => s.(workers := s.workers[tid := Worker(Start, s.workers[tid].doing)])
    case Decide(tid) => s.(workers := s.workers[tid := Worker(Leaving, false)])
    case Exit(tid) =>
      var (pool, callback) := MovedOut(s.pool, tid);
      s.(pool := pool, workers := s.workers - {tid}, clients := if callback then s.clients - {tid} else s.clients)
  }

  // ---------- the invariant ----------

  // The vectors partition the live workers by their `doing` flag.
  ghost predicate Membership(s: State) {
    && NoDuplicates(s.pool.idle) && NoDuplicates(s.pool.busy)
    && (forall t :: t in s.pool.idle <==> t in s.workers && !s.workers[t].doing)
    && (forall t :: t in s.pool.busy <==> t in s.workers && s.workers[t].doing)
    && s.pool.threadNum == |s.pool.idle| + |s.pool.busy| <= s.pool.max
    && forall t :: t in s.workers ==>
         && (s.workers[t].phase.Running? ==> s.workers[t].doing)
         && (s.workers[t].phase in {Waiting, Leaving} ==> !s.workers[t].doing)
  }

  // Tasks leave the queue in the order they were accepted, and the queue is bounded.
  ghost predicate Order(s: State) {
    && s.accepted == s.dequeued + s.pool.queue
    && |s.pool.queue| <= s.pool.maxTask
    && NoDuplicates(s.accepted)
    && forall x :: x in s.rejected ==> x !in s.accepted
  }

  function InFlight(s: State): set<Tid> {
    set t | t in s.workers && s.workers[t].phase.Running?
  }

  // A dequeued task is either finished or in the hands of exactly one worker.
  ghost predicate Conservation(s: State) {
    && (forall t :: t in InFlight(s) ==> s.workers[t].phase.task in s.dequeued && s.workers[t].phase.task !in s.finished)
    && (forall t, u :: t in InFlight(s) && u in InFlight(s) && s.workers[t].phase.task == s.workers[u].phase.task ==> t == u)
    && (forall x :: x in s.finished ==> x in s.dequeued)
    && |s.dequeued| == |InFlight(s)| + |s.finished|
  }

  // Only live workers have a client, and no two share one.
  ghost predicate Clients(s: State) {
    && (forall t :: t in s.clients ==> t in s.workers)
    && forall t, u :: t in s.clients && u in s.clients && s.clients[t] == s.clients[u] ==> t == u
  }

  ghost predicate Inv(s: State) {
    Membership(s) && Order(s) && Conservation(s) && Clients(s)
  }

  lemma InitInv(s: State, tids: seq<Tid>)
    requires Init(s, tids)
    ensures Inv(s)
  {
    assert InFlight(s) == {};
  }

  lemma AddTaskMembership(s: State, task: Task, supply: seq<Tid>)
    requires Membership(s) && Enabled(s, Step.AddTask(task, supply))
    ensures Membership(Apply(s, Step.AddTask(task, supply)))
  {
    var s' := Apply(s, Step.AddTask(task, supply));
    if |s.pool.queue| < s.pool.maxTask {
      var idle := s.pool.idle + supply;
      forall i, j | 0 <= i < j < |idle| ensures idle[i] != idle[j] {
        if i < |s.pool.idle| <= j {
          assert idle[i] in s.pool.idle && idle[j] in supply;
        }
      }
      assert forall t :: t in idle <==> t in s.pool.idle || t in supply;
    }
  }

  // The moves between the vectors find their thread and keep the partition.
  lemma MoveMembership(s: State, tid: Tid, w: Worker)
    requires Membership(s) && tid in s.workers && w.doing != s.workers[tid].doing && w.phase.Running? == w.doing
    ensures s.workers[tid].doing ==> tid in s.pool.busy
    ensures !s.workers[tid].doing ==> tid in s.pool.idle
    ensures Membership(s.(pool := if w.doing then ToBusy(s.pool, tid) else ToIdle(s.pool, tid),
                          workers := s.workers[tid := w]))
  {
    if w.doing {
      BusyMembership(s, tid, w);
    } else {
      IdleMembership(s, tid, w);
    }
  }

  lemma BusyMembership(s: State, tid: Tid, w: Worker)
    requires Membership(s) && tid in s.workers && w.doing && !s.workers[tid].doing && w.phase.Running?
    ensures Membership(s.(pool := ToBusy(s.pool, tid), workers := s.workers[tid := w]))
  {
    RemoveMembers(s.pool.idle, tid);
    AppendMembers(s.pool.busy, tid);
    hide NoDuplicates, Remove;
  }

  lemma IdleMembership(s: State, tid: Tid, w: Worker)
    requires Membership(s) && tid in s.workers && !w.doing && s.workers[tid].doing && !w.phase.Running?
    ensures Membership(s.(pool := ToIdle(s.pool, tid), workers := s.workers[tid := w]))
  {
    RemoveMembers(s.pool.busy, tid);
    AppendMembers(s.pool.idle, tid);
    hide NoDuplicates, Remove;
  }

  lemma AppendMembers<T>(s: seq<T>, x: T)
    requires NoDuplicates(s) && x !in s
    ensures NoDuplicates(s + [x]) && forall y :: y in s + [x] <==> y in s || y == x
  {
  }

  lemma StepMembership(s: State, step: Step)
    requires Membership(s) && Enabled(s, step)
    ensures Membership(Apply(s, step))
  {
    hide NoDuplicates, Remove, Wanted, Created, Queued, WithClient, ToIdle, ToBusy, MovedOut;
    match step
    case AddTask(task, supply) => AddTaskMembership(s, task, supply);
    case Enter(tid) => EnterMembership(s, tid);
    case Take(tid, res) => TakeMembership(s, tid, res);
    case Exit(tid) => ExitMembership(s, tid);
    case UseClient(tid, created) =>
    case DropClient(tid) =>
    case _ => MarkMembership(s, Apply(s, step), step.tid);
  }

  // A worker changes its phase, but neither its flag nor the vectors.
  lemma MarkMembership(s: State, s': State, tid: Tid)
    requires Membership(s) && tid in s.workers && tid in s'.workers && s'.workers == s.workers[tid := s'.workers[tid]]
    requires s'.pool == s.pool && s'.workers[tid].doing == s.workers[tid].doing && !s'.workers[tid].phase.Running?
    requires s'.workers[tid].phase in {Waiting, Leaving} ==> !s.workers[tid].doing
    ensures Membership(s')
  {
    hide NoDuplicates;
  }

  lemma EnterMembership(s: State, tid: Tid)
    requires Membership(s) && Enabled(s, Enter(tid))
    ensures Membership(Apply(s, Enter(tid)))
  {
    hide NoDuplicates, ToIdle;
    if s.workers[tid].doing {
      MoveMembership(s, tid, Worker(Waiting, false));
    }
  }

  lemma TakeMembership(s: State, tid: Tid, res: int)
    requires Membership(s) && Enabled(s, Take(tid, res))
    ensures Membership(Apply(s, Take(tid, res)))
  {
    hide NoDuplicates, Remove;
    if res == 0 && s.pool.queue != [] && !s.workers[tid].doing {
      MoveMembership(s, tid, Worker(Running(s.pool.queue[0]), true));
    }
  }

  lemma ExitMembership(s: State, tid: Tid)
    requires Membership(s) && Enabled(s, Exit(tid))
    ensures Membership(Apply(s, Exit(tid)))
  {
    RemoveMembers(s.pool.idle, tid);
    hide NoDuplicates, Remove;
  }

  lemma StepOrder(s: State, step: Step)
    requires Order(s) && Enabled(s, step)
    ensures Order(Apply(s, step))
  {
    hide Wanted, Remove, WithClient;
    var s' := Apply(s, step);
    match step
    case AddTask(task, supply) =>
      if |s.pool.queue| < s.pool.maxTask {
        assert s'.accepted == s'.dequeued + s'.pool.queue;
        assert forall x :: x in s'.accepted <==> x in s.accepted || x == task;
      }
    case Take(tid, res) =>
      assert s'.accepted == s'.dequeued + s'.pool.queue;
    case _ =>
  }

  // Taking the first task of the queue puts it in the hands of one more worker.
  lemma TakeConservation(s: State, tid: Tid)
    requires Membership(s) && Order(s) && Conservation(s) && Enabled(s, Step.Take(tid, 0)) && s.pool.queue != []
    ensures Conservation(Apply(s, Step.Take(tid, 0)))
  {
    HeadIsNew(s);
    TakeInFlight(s, tid);
    hide Membership, Order, Conservation, Apply, Enabled, InFlight;
    OneMoreInFlight(s, Apply(s, Step.Take(tid, 0)), tid, s.pool.queue[0]);
  }

  lemma OneMoreInFlight(s: State, s': State, tid: Tid, task: Task)
    requires Conservation(s) && task !in s.dequeued && tid !in InFlight(s)
    requires InFlight(s') == InFlight(s) + {tid} && s'.workers == s.workers[tid := Worker(Running(task), true)]
    requires s'.dequeued == s.dequeued + [task] && s'.finished == s.finished
    ensures Conservation(s')
  {
    hide InFlight;
    InFlightLive(s);
    assert forall t :: t in InFlight(s) ==> s'.workers[t] == s.workers[t];
  }

  lemma InFlightLive(s: State)
    ensures InFlight(s) <= s.workers.Keys
  {
  }

  lemma TakeInFlight(s: State, tid: Tid)
    requires Enabled(s, Step.Take(tid, 0)) && s.pool.queue != []
    ensures InFlight(Apply(s, Step.Take(tid, 0))) == InFlight(s) + {tid} && tid !in InFlight(s)
    ensures Apply(s, Step.Take(tid, 0)).workers == s.workers[tid := Worker(Running(s.pool.queue[0]), true)]
    ensures Apply(s, Step.Take(tid, 0)).dequeued == s.dequeued + [s.pool.queue[0]]
    ensures Apply(s, Step.Take(tid, 0)).finished == s.finished
  {
    hide ToBusy, Wanted;
  }

  lemma HeadIsNew(s: State)
    requires Order(s) && s.pool.queue != []
    ensures s.pool.queue[0] !in s.dequeued
  {
    assert s.accepted[|s.dequeued|] == s.pool.queue[0];
    assert forall i :: 0 <= i < |s.dequeued| ==> s.accepted[i] == s.dequeued[i];
  }

  lemma FinishConservation(s: State, tid: Tid)
    requires Conservation(s) && Enabled(s, Step.Finish(tid))
    ensures Conservation(Apply(s, Step.Finish(tid)))
  {
    hide Membership, Order, NoDuplicates;
    var s' := Apply(s, Step.Finish(tid));
    assert tid in InFlight(s) && InFlight(s') == InFlight(s) - {tid};
  }

  // Every other step leaves the running workers and the tasks as they are.
  lemma StepConservation(s: State, step: Step)
    requires Membership(s) && Order(s) && Conservation(s) && Enabled(s, step)
    ensures Conservation(Apply(s, step))
  {
    if step.Take? && step.res == 0 && s.pool.queue != [] {
      TakeConservation(s, step.tid);
    } else if step.Finish? {
      FinishConservation(s, step.tid);
    } else {
      OtherSteps(s, step);
      hide Membership, Order, NoDuplicates, Apply, Enabled, InFlight;
      assert Conservation(Apply(s, step));
    }
  }

  lemma OtherSteps(s: State, step: Step)
    requires Enabled(s, step) && !step.Finish? && (step.Take? ==> step.res != 0 || s.pool.queue == [])
    ensures InFlight(Apply(s, step)) == InFlight(s)
    ensures Apply(s, step).dequeued == s.dequeued && Apply(s, step).finished == s.finished
    ensures forall t :: t in InFlight(s) ==>
              t in s.workers && t in Apply(s, step).workers && Apply(s, step).workers[t].phase == s.workers[t].phase
  {
    hide ToBusy, ToIdle, Remove, Wanted, Created, MovedOut, NoDuplicates, WithClient, Queued;
  }

  lemma StepClients(s: State, step: Step)
    requires Membership(s) && Clients(s) && Enabled(s, step)
    ensures Clients(Apply(s, step))
  {
    hide Wanted, Created, Queued, Remove, ToBusy, ToIdle, NoDuplicates;
    match step
    case UseClient(tid, created) =>
      assert forall t :: t in s.clients ==> s.clients[t] in s.clients.Values;
    case _ =>
  }

  lemma StepInv(s: State, step: Step)
    requires Inv(s) && Enabled(s, step)
    ensures Inv(Apply(s, step))
  {
    StepMembership(s, step);
    StepOrder(s, step);
    StepConservation(s, step);
    StepClients(s, step);
  }

  // ---------- runs ----------

  // The state after a sequence of steps, each possible where it is taken.
  ghost predicate IsRun(s: State, steps: seq<Step>, s': State)
    decreases |steps|
  {
    if steps == [] then s' == s
    else Enabled(s, steps[0]) && IsRun(Apply(s, steps[0]), steps[1..], s')
  }

  lemma HistoryGrows(s: State, step: Step)
    requires Enabled(s, step)
    ensures s.accepted <= Apply(s, step).accepted && s.dequeued <= Apply(s, step).dequeued
    ensures s.finished <= Apply(s, step).finished && s.rejected <= Apply(s, step).rejected
  {
    hide ToBusy, ToIdle, Wanted, Created, MovedOut, WithClient;
  }

  lemma {:induction false} RunInv(s: State, steps: seq<Step>, s': State)
    requires Inv(s) && IsRun(s, steps, s')
    ensures Inv(s')
    ensures s.accepted <= s'.accepted && s.dequeued <= s'.dequeued && s.finished <= s'.finished && s.rejected <= s'.rejected
    decreases |steps|
  {
    if steps != [] {
      StepInv(s, steps[0]);
      HistoryGrows(s, steps[0]);
      hide Inv, Apply, Enabled;
      RunInv(Apply(s, steps[0]), steps[1..], s');
    }
  }

  // Safety of every run from a fresh pool: tasks are taken at most once, in the order in which
  // they were accepted; accepted = queued + in flight + finished; a rejected task is never
  // taken; the queue keeps its bound, and at most m_max tasks run at a time.
  lemma Safety(s0: State, tids: seq<Tid>, steps: seq<Step>, s: State)
    requires Init(s0, tids) && IsRun(s0, steps, s)
    ensures s.dequeued <= s.accepted && NoDuplicates(s.dequeued)
    ensures s.accepted[|s.dequeued|..] == s.pool.queue
    ensures |s.accepted| == |s.pool.queue| + |InFlight(s)| + |s.finished|
    ensures forall x :: x in s.rejected ==> x !in s.dequeued && x !in s.finished
    ensures |s.pool.queue| <= s.pool.maxTask && |InFlight(s)| <= s.pool.max
    ensures forall t, u :: t in InFlight(s) && u in InFlight(s) && t != u ==> s.workers[t].phase.task != s.workers[u].phase.task
  {
    InitInv(s0, tids);
    RunInv(s0, steps, s);
    BusyBound(s);
    hide Init, IsRun, Clients, NewWorkers, InFlight;
    assert forall i :: 0 <= i < |s.dequeued| ==> s.dequeued[i] == s.accepted[i];
    assert forall x :: x in s.dequeued ==> x in s.accepted;
  }

  lemma BusyBound(s: State)
    requires Membership(s)
    ensures |InFlight(s)| <= |s.pool.busy|
  {
    var members := set t | t in s.pool.busy;
    assert InFlight(s) <= members;
    SubsetSize(InFlight(s), members);
    SequenceSetSize(s.pool.busy);
  }

  lemma {:induction false} SubsetSize<T>(a: set<T>, b: set<T>)
    requires a <= b
    ensures |a| <= |b|
    decreases a
  {
    if a != {} {
      var x :| x in a;
      SubsetSize(a - {x}, b - {x});
    }
  }

  lemma {:induction false} SequenceSetSize<T>(s: seq<T>)
    ensures |set t | t in s| <= |s|
  {
    if s != [] {
      SequenceSetSize(s[1..]);
      assert (set t | t in s) == (set t | t in s[1..]) + {s[0]};
    }
  }

  ghost predicate KeepsClient(steps: seq<Step>, tid: Tid) {
    forall i :: 0 <= i < |steps| ==> steps[i] != DropClient(tid) && steps[i] != Exit(tid)
  }

  lemma StepKeepsClient(s: State, step: Step, tid: Tid)
    requires Enabled(s, step) && tid in s.clients && step != DropClient(tid) && step != Exit(tid)
    ensures tid in Apply(s, step).clients && Apply(s, step).clients[tid] == s.clients[tid]
  {
    hide Wanted, Created, Queued, Remove, ToBusy, ToIdle, NoDuplicates;
  }

  lemma {:induction false} RunKeepsClient(s: State, steps: seq<Step>, s': State, tid: Tid)
    requires IsRun(s, steps, s') && tid in s.clients && KeepsClient(steps, tid)
    ensures tid in s'.clients && s'.clients[tid] == s.clients[tid]
    decreases |steps|
  {
    hide Apply, Enabled;
    if steps != [] {
      StepKeepsClient(s, steps[0], tid);
      assert forall i :: 0 <= i < |steps| - 1 ==> steps[1..][i] == steps[i + 1];
      RunKeepsClient(Apply(s, steps[0]), steps[1..], s', tid);
    }
  }

  // A worker that has found or created a client finds the same one until it gives it back or
  // leaves, whatever the others do; and nobody else is given it.
  lemma SameClientAgain(s: State, tid: Tid, created: Option<Client>, steps: seq<Step>, s': State)
    requires Inv(s) && Enabled(s, UseClient(tid, created)) && (tid in s.clients || created.Some?)
    requires IsRun(Apply(s, UseClient(tid, created)), steps, s') && KeepsClient(steps, tid)
    ensures tid in s'.clients && s'.clients[tid] == (if tid in s.clients then s.clients[tid] else created.value)
    ensures forall t :: t in s'.clients && t != tid ==> s'.clients[t] != s'.clients[tid]
  {
    StepInv(s, UseClient(tid, created));
    hide IsRun, Membership, Order, Conservation;
    RunKeepsClient(Apply(s, UseClient(tid, created)), steps, s', tid);
    RunInv(Apply(s, UseClient(tid, created)), steps, s');
  }

  // Giving the client back, and leaving, take away that client and no other.
  lemma ClientGone(s: State, step: Step, tid: Tid)
    requires Inv(s) && Enabled(s, step) && (step == DropClient(tid) || step == Exit(tid))
    ensures Apply(s, step).clients == s.clients - {tid}
  {
    StepInv(s, step);
    hide Order, Conservation;
  }

  // What holds of the vectors and the client map whenever the mutex is free.
  lemma VectorsPartition(s0: State, tids: seq<Tid>, steps: seq<Step>, s: State)
    requires Init(s0, tids) && IsRun(s0, steps, s)
    ensures NoDuplicates(s.pool.idle + s.pool.busy)
    ensures s.pool.threadNum == |s.pool.idle| + |s.pool.busy| <= s.pool.max
    ensures forall t :: t in s.workers ==> (s.workers[t].doing <==> t in s.pool.busy) && (!s.workers[t].doing <==> t in s.pool.idle)
    ensures s.clients.Keys <= s.workers.Keys
    ensures forall t, u :: t in s.clients && u in s.clients && t != u ==> s.clients[t] != s.clients[u]
  {
    InitInv(s0, tids);
    RunInv(s0, steps, s);
    var both := s.pool.idle + s.pool.busy;
    forall i, j | 0 <= i < j < |both| ensures both[i] != both[j] {
      if i < |s.pool.idle| <= j {
        assert both[i] in s.pool.idle && both[j] in s.pool.busy;
      }
    }
  }

  // ---------- the lower bound ----------

  function Departing(s: State): set<Tid> {
    set t | t in s.workers && s.workers[t].phase == Phase.Leaving
  }

  // Were m_thread_num compared under the lock that the departure holds, the workers that are
  // leaving would already be gone from it.
  predicate Spared(s: State, step: Step) {
    step.Decide? ==> s.pool.threadNum - |Departing(s)| > s.pool.min
  }

  ghost predicate IsSparedRun(s: State, steps: seq<Step>)
    decreases |steps|
  {
    steps != [] ==> Enabled(s, steps[0]) && Spared(s, steps[0]) && IsSparedRun(Apply(s, steps[0]), steps[1..])
  }

  lemma ExitBalance(s: State, tid: Tid)
    requires Membership(s) && Enabled(s, Exit(tid))
    ensures var s' := Apply(s, Exit(tid));
            s'.pool.threadNum == s.pool.threadNum - 1 && |Departing(s')| == |Departing(s)| - 1 && s'.pool.min == s.pool.min
  {
    assert tid in Departing(s) && Departing(Apply(s, Exit(tid))) == Departing(s) - {tid};
    assert tid in s.pool.idle;
    hide NoDuplicates, Remove;
  }

  lemma StepSpares(s: State, step: Step)
    requires Membership(s) && Enabled(s, step) && Spared(s, step) && s.pool.threadNum - |Departing(s)| >= s.pool.min
    ensures Apply(s, step).pool.threadNum - |Departing(Apply(s, step))| >= s.pool.min == Apply(s, step).pool.min
  {
    if step.Decide? {
      assert Departing(Apply(s, step)) == Departing(s) + {step.tid};
    } else if step.Exit? {
      ExitBalance(s, step.tid);
    } else {
      OthersStay(s, step);
    }
  }

  lemma OthersStay(s: State, step: Step)
    requires Enabled(s, step) && !step.Decide? && !step.Exit?
    ensures Departing(Apply(s, step)) == Departing(s)
    ensures Apply(s, step).pool.threadNum >= s.pool.threadNum && Apply(s, step).pool.min == s.pool.min
  {
    hide NoDuplicates, Remove, Wanted, MovedOut, WithClient;
  }

  // The condition under which m_thread_num never falls below m_min.
  lemma {:induction false} ThreadNumAtLeastMin(s: State, steps: seq<Step>, s': State)
    requires Inv(s) && s.pool.threadNum - |Departing(s)| >= s.pool.min
    requires IsRun(s, steps, s') && IsSparedRun(s, steps)
    ensures s'.pool.threadNum >= s'.pool.min == s.pool.min
    decreases |steps|
  {
    if steps != [] {
      StepInv(s, steps[0]);
      StepSpares(s, steps[0]);
      ThreadNumAtLeastMin(Apply(s, steps[0]), steps[1..], s');
    }
  }

  ghost predicate AllExits(steps: seq<Step>) {
    forall i :: 0 <= i < |steps| ==> steps[i].Exit?
  }

  lemma {:induction false} ExitsBalance(s: State, steps: seq<Step>, s': State)
    requires Inv(s) && IsRun(s, steps, s') && AllExits(steps)
    ensures s'.pool.threadNum - |Departing(s')| == s.pool.threadNum - |Departing(s)| && s'.pool.min == s.pool.min
    decreases |steps|
  {
    if steps != [] {
      assert steps[0].Exit?;
      StepInv(s, steps[0]);
      ExitBalance(s, steps[0].tid);
      hide Inv, Enabled, Apply, Departing;
      ExitsBalance(Apply(s, steps[0]), steps[1..], s');
    }
  }

  lemma {:induction false} AllDepart(s: State) returns (steps: seq<Step>, s': State)
    requires Inv(s)
    ensures IsRun(s, steps, s') && AllExits(steps) && Departing(s') == {}
    decreases |Departing(s)|
  {
    if Departing(s) == {} {
      steps, s' := [], s;
    } else {
      var tid :| tid in Departing(s);
      hide Inv, Apply, IsRun;
      assert Enabled(s, Exit(tid));
      hide Enabled, Departing, AllExits;
      assert Membership(s) by { InvParts(s); }
      StepInv(s, Exit(tid));
      ExitBalance(s, tid);
      var rest;
      rest, s' := AllDepart(Apply(s, Exit(tid)));
      steps := [Exit(tid)] + rest;
      ExitThen(s, tid, rest, s');
    }
  }

  lemma InvParts(s: State)
    requires Inv(s)
    ensures Membership(s)
  {
  }

  lemma ExitThen(s: State, tid: Tid, rest: seq<Step>, s': State)
    requires Enabled(s, Exit(tid)) && IsRun(Apply(s, Exit(tid)), rest, s') && AllExits(rest)
    ensures IsRun(s, [Exit(tid)] + rest, s') && AllExits([Exit(tid)] + rest)
  {
    hide Enabled, Apply;
    assert ([Exit(tid)] + rest)[1..] == rest;
  }

  // The departures under way bring m_thread_num below m_min exactly when they are more than the
  // threads beyond m_min.
  lemma FallsBelowMin(s: State)
    requires Inv(s)
    ensures s.pool.threadNum - |Departing(s)| < s.pool.min <==>
            exists steps, s' :: IsRun(s, steps, s') && AllExits(steps) && s'.pool.threadNum < s'.pool.min
  {
    var all, last := AllDepart(s);
    ExitsBalance(s, all, last);
    forall steps, s' | IsRun(s, steps, s') && AllExits(steps)
      ensures s'.pool.threadNum - |Departing(s')| == s.pool.threadNum - |Departing(s)| && s'.pool.min == s.pool.min
    {
      ExitsBalance(s, steps, s');
    }
    hide Inv, IsRun, AllExits;
  }

  // Without it the code goes below: two idle workers of a pool with one spare thread both
  // read m_thread_num before either takes the lock.
  lemma ThreadNumBelowMin(s: State, t: Tid, u: Tid)
    requires Membership(s) && t != u && s.pool.threadNum == s.pool.min + 1
    requires t in s.workers && s.workers[t] == Worker(Idling, false)
    requires u in s.workers && s.workers[u] == Worker(Idling, false)
    ensures exists s' :: IsRun(s, [Decide(t), Decide(u), Exit(t), Exit(u)], s') && s'.pool.threadNum < s'.pool.min
  {
    var s1 := Apply(s, Decide(t));
    var s2 := Apply(s1, Decide(u));
    RemoveMembers(s.pool.idle, t);
    assert Enabled(s2, Exit(t));
    var s3 := Apply(s2, Exit(t));
    assert Enabled(s3, Exit(u)) && u in s3.pool.idle;
    var s4 := Apply(s3, Exit(u));
    RunOfFour(s, Decide(t), Decide(u), Exit(t), Exit(u));
    assert s4.pool.threadNum == s.pool.min - 1 && s4.pool.min == s.pool.min;
  }

  // Such a state is reached: three tasks start a second thread, and the before-run callback
  // turns both threads away.
  lemma TwoIdlersReached(s0: State) returns (s: State)
    requires Init(s0, [0]) && s0.pool.max == 2 && s0.pool.maxTask >= 3
    ensures IsRun(s0, [AddTask(0, []), AddTask(1, []), AddTask(2, [1]), Take(0, 1), Take(1, 1)], s)
    ensures s.pool.threadNum == s.pool.min + 1
    ensures s.workers == map[0 := Worker(Idling, false), 1 := Worker(Idling, false)]
  {
    hide Apply, Enabled, Init, IsRun;
    var tasks := [AddTask(0, []), AddTask(1, []), AddTask(2, [1])];
    var s3 := ThreeTasks(s0);
    TurnedAway(s3, 0);
    var s4 := Apply(s3, Take(0, 1));
    TurnedAway(s4, 1);
    s := Apply(s4, Take(1, 1));
    RunSnoc(s0, tasks, s3, Take(0, 1));
    RunSnoc(s0, tasks + [Take(0, 1)], s4, Take(1, 1));
    assert tasks + [Take(0, 1)] + [Take(1, 1)] == [AddTask(0, []), AddTask(1, []), AddTask(2, [1]), Take(0, 1), Take(1, 1)];
  }

  lemma TurnedAway(s: State, tid: Tid)
    requires tid in s.workers && s.workers[tid].phase == Start && s.pool.queue != []
    ensures Enabled(s, Take(tid, 1))
    ensures Apply(s, Take(tid, 1)) == s.(workers := s.workers[tid := Worker(Idling, s.workers[tid].doing)])
  {
  }

  lemma ThreeTasks(s0: State) returns (s: State)
    requires Init(s0, [0]) && s0.pool.max == 2 && s0.pool.maxTask >= 3
    ensures IsRun(s0, [AddTask(0, []), AddTask(1, []), AddTask(2, [1])], s)
    ensures s.pool.queue != [] && s.pool.threadNum == 2 && s.pool.min == 1
    ensures s.workers == map[0 := Worker(Start, false), 1 := Worker(Start, false)]
  {
    var s1 := Apply(s0, AddTask(0, []));
    var s2 := TwoTasks(s0);
    LastTask(s2);
    s := Apply(s2, AddTask(2, [1]));
    hide Apply, Enabled, Init;
    assert IsRun(s0, [], s0);
    RunSnoc(s0, [], s0, AddTask(0, []));
    RunSnoc(s0, [AddTask(0, [])], s1, AddTask(1, []));
    RunSnoc(s0, [AddTask(0, []), AddTask(1, [])], s2, AddTask(2, [1]));
    assert [] + [AddTask(0, [])] == [AddTask(0, [])];
  }

  lemma TwoTasks(s0: State) returns (s: State)
    requires Init(s0, [0]) && s0.pool.max == 2 && s0.pool.maxTask >= 3
    ensures Enabled(s0, AddTask(0, [])) && Enabled(Apply(s0, AddTask(0, [])), AddTask(1, []))
    ensures s == Apply(Apply(s0, AddTask(0, [])), AddTask(1, []))
    ensures s.pool.queue == [0, 1] == s.accepted && s.rejected == {}
    ensures s.pool.threadNum == 1 == s.pool.min && s.pool.max == 2 && s.pool.maxTask >= 3
    ensures s.workers == map[0 := Worker(Start, false)]
  {
    hide Remove, ToBusy, ToIdle, MovedOut, WithClient;
    var s1 := Apply(s0, AddTask(0, []));
    s := Apply(s1, AddTask(1, []));
  }

  // The third task makes AddTask start a second thread.
  lemma LastTask(s: State)
    requires s.pool.queue == [0, 1] == s.accepted && s.rejected == {}
    requires s.pool.threadNum == 1 && s.pool.max == 2 && s.pool.maxTask >= 3
    requires s.workers == map[0 := Worker(Start, false)]
    ensures Enabled(s, AddTask(2, [1]))
    ensures Apply(s, AddTask(2, [1])).pool == Created(Queued(s.pool, 2), [1])
    ensures Apply(s, AddTask(2, [1])).workers == map[0 := Worker(Start, false), 1 := Worker(Start, false)]
  {
    assert Queued(s.pool, 2).queue == [0, 1, 2];
  }

  lemma {:induction false} RunSnoc(s: State, steps: seq<Step>, s': State, last: Step)
    requires IsRun(s, steps, s') && Enabled(s', last)
    ensures IsRun(s, steps + [last], Apply(s', last))
    decreases |steps|
  {
    hide Enabled, Apply;
    if steps == [] {
      assert IsRun(Apply(s', last), ([last])[1..], Apply(s', last));
    } else {
      RunSnoc(Apply(s, steps[0]), steps[1..], s', last);
      assert (steps + [last])[1..] == steps[1..] + [last];
    }
  }

  lemma RunOfFour(s: State, a: Step, b: Step, c: Step, d: Step)
    requires Enabled(s, a) && Enabled(Apply(s, a), b) && Enabled(Apply(Apply(s, a), b), c)
    requires Enabled(Apply(Apply(Apply(s, a), b), c), d)
    ensures IsRun(s, [a, b, c, d], Apply(Apply(Apply(Apply(s, a), b), c), d))
  {
    hide Enabled, Apply;
    assert [a, b, c, d][1..] == [b, c, d] && [b, c, d][1..] == [c, d] && [c, d][1..] == [d] && [d][1..] == [];
    var s3 := Apply(Apply(Apply(s, a), b), c);
    assert IsRun(Apply(s3, d), [], Apply(s3, d));
    assert IsRun(s3, [d], Apply(s3, d));
    assert IsRun(Apply(Apply(s, a), b), [c, d], Apply(s3, d));
    assert IsRun(Apply(s, a), [b, c, d], Apply(s3, d));
  }

  // ---------- which pools keep the lower bound ----------

  ghost predicate Reaches(s: State, s': State) {
    exists steps :: IsRun(s, steps, s')
  }

  ghost predicate AlwaysAtLeastMin(s0: State) {
    forall s :: Reaches(s0, s) ==> s.pool.threadNum >= s0.pool.min
  }

  // Whatever the threads do, m_thread_num stays at m_min or above exactly if m_min is 0, or the
  // pool cannot grow: there is no room for another thread, or the queue is refused more tasks
  // before it is twice as long as there are threads.
  lemma KeepsMinIff(s0: State, tids: seq<Tid>)
    requires Init(s0, tids)
    ensures AlwaysAtLeastMin(s0) <==>
            s0.pool.min == 0 || s0.pool.max == s0.pool.min || s0.pool.maxTask <= 2 * s0.pool.min
  {
    if s0.pool.min == 0 {
      NeverNegative(s0, tids);
    } else if s0.pool.max == s0.pool.min || s0.pool.maxTask <= 2 * s0.pool.min {
      NeverGrows(s0, tids);
    } else {
      GoesBelow(s0, tids);
    }
  }

  lemma NeverNegative(s0: State, tids: seq<Tid>)
    requires Init(s0, tids) && s0.pool.min == 0
    ensures AlwaysAtLeastMin(s0)
  {
    InitInv(s0, tids);
    hide Init, IsRun;
    forall s | Reaches(s0, s) ensures s.pool.threadNum >= 0 {
      var steps :| IsRun(s0, steps, s);
      RunInv(s0, steps, s);
    }
  }

  // A pool that does not grow: no worker finds a spare thread.
  ghost predicate Steady(s: State, min: nat, max: nat, maxTask: nat) {
    && s.pool.threadNum == s.pool.min == min && s.pool.max == max && s.pool.maxTask == maxTask
    && forall t :: t in s.workers ==> s.workers[t].phase != Phase.Leaving
  }

  lemma NoneWanted(p: Pool)
    requires p.threadNum == p.min > 0 && (p.max == p.min || |p.queue| <= 2 * p.min)
    ensures Wanted(p) == 0
  {
  }

  lemma StepSteady(s: State, step: Step, min: nat, max: nat, maxTask: nat)
    requires Steady(s, min, max, maxTask) && Enabled(s, step) && 0 < min <= max && (max == min || maxTask <= 2 * min)
    ensures Steady(Apply(s, step), min, max, maxTask)
  {
    hide Remove, Wanted, NoDuplicates, MovedOut, WithClient;
    if step.AddTask? && |s.pool.queue| < s.pool.maxTask {
      NoneWanted(Queued(s.pool, step.task));
    }
  }

  lemma {:induction false} RunSteady(s: State, steps: seq<Step>, s': State, min: nat, max: nat, maxTask: nat)
    requires Steady(s, min, max, maxTask) && IsRun(s, steps, s') && 0 < min <= max && (max == min || maxTask <= 2 * min)
    ensures Steady(s', min, max, maxTask)
    decreases |steps|
  {
    hide Steady, Apply, Enabled;
    if steps != [] {
      StepSteady(s, steps[0], min, max, maxTask);
      RunSteady(Apply(s, steps[0]), steps[1..], s', min, max, maxTask);
    }
  }

  lemma NeverGrows(s0: State, tids: seq<Tid>)
    requires Init(s0, tids) && 0 < s0.pool.min
    requires s0.pool.max == s0.pool.min || s0.pool.maxTask <= 2 * s0.pool.min
    ensures AlwaysAtLeastMin(s0)
  {
    var min, max, maxTask := s0.pool.min, s0.pool.max, s0.pool.maxTask;
    assert Steady(s0, min, max, maxTask);
    hide Init, IsRun;
    forall s | Reaches(s0, s) ensures s.pool.threadNum >= min {
      var steps :| IsRun(s0, steps, s);
      RunSteady(s0, steps, s, min, max, maxTask);
    }
  }

  // In every other pool all threads can leave: the queue grows until more threads are created,
  // the before-run callback turns every worker away, and all of them find a spare thread
  // before the first has left.
  lemma GoesBelow(s0: State, tids: seq<Tid>)
    requires Init(s0, tids) && 0 < s0.pool.min < s0.pool.max && 2 * s0.pool.min < s0.pool.maxTask
    ensures !AlwaysAtLeastMin(s0)
  {
    var s1 := Fill(s0, tids, 2 * s0.pool.min);
    var s2 := Grow(s0, tids, s1);
    hide Init, Filling, TurnedOff, Reaches;
    InitInv(s0, tids);
    var s3 := AllDecide(s0, s2);
    AllGone(s0, s3);
  }

  lemma AllGone(s0: State, s: State)
    requires Inv(s0) && Reaches(s0, s) && 0 < s0.pool.min && s.pool.min == s0.pool.min
    requires forall t :: t in s.workers ==> s.workers[t] == Worker(Leaving, false)
    ensures !AlwaysAtLeastMin(s0)
  {
    hide Inv, IsRun, AllExits;
    var before :| IsRun(s0, before, s);
    RunInv(s0, before, s);
    AllAreDeparting(s);
    hide Departing;
    FallsBelowMin(s);
    var steps, s' :| IsRun(s, steps, s') && AllExits(steps) && s'.pool.threadNum < s'.pool.min;
    ExitsBalance(s, steps, s');
    RunConcat(s0, before, s, steps, s');
    assert Reaches(s0, s');
  }

  lemma AllAreDeparting(s: State)
    requires Inv(s) && forall t :: t in s.workers ==> s.workers[t] == Worker(Leaving, false)
    ensures |Departing(s)| == s.pool.threadNum
  {
    InvParts(s);
    hide Order, Conservation, Clients, Inv;
    DistinctSize(s.pool.busy);
    assert Members(s.pool.busy) == {};
    DistinctSize(s.pool.idle);
    assert Members(s.pool.idle) == Departing(s);
  }

  function Members(s: seq<Tid>): set<Tid> {
    set t | t in s
  }

  lemma {:induction false} DistinctSize(s: seq<Tid>)
    requires NoDuplicates(s)
    ensures |Members(s)| == |s|
  {
    if s != [] {
      DistinctSize(s[1..]);
      assert s[0] !in s[1..];
      assert Members(s) == Members(s[1..]) + {s[0]};
    }
  }

  // The queue is filled without a new thread.
  ghost predicate Filling(s0: State, s: State, k: nat) {
    && s.pool == s0.pool.(queue := s.pool.queue) && |s.pool.queue| == k && s.workers == s0.workers
    && s.rejected == {} && forall x :: x in s.accepted ==> x < k
  }

  lemma {:induction false} Fill(s0: State, tids: seq<Tid>, k: nat) returns (s: State)
    requires Init(s0, tids) && 0 < s0.pool.min && k <= 2 * s0.pool.min < s0.pool.maxTask
    ensures Reaches(s0, s) && Filling(s0, s, k)
  {
    if k == 0 {
      s := s0;
      assert IsRun(s0, [], s0);
    } else {
      var s1 := Fill(s0, tids, k - 1);
      FillOne(s0, tids, s1, k - 1);
      hide Init, Filling, Enabled, Apply;
      s := Apply(s1, AddTask(k - 1, []));
      ReachesNext(s0, s1, AddTask(k - 1, []));
    }
  }

  lemma FillOne(s0: State, tids: seq<Tid>, s: State, k: nat)
    requires Init(s0, tids) && 0 < s0.pool.min && k < 2 * s0.pool.min < s0.pool.maxTask && Filling(s0, s, k)
    ensures Enabled(s, AddTask(k, [])) && Filling(s0, Apply(s, AddTask(k, [])), k + 1)
  {
    NoneWanted(Queued(s.pool, k));
    hide Wanted;
    assert NewWorkers([]) == map[];
    assert s.workers + map[] == s.workers;
    assert s.pool.idle + [] == s.pool.idle;
  }

  lemma ReachesNext(s0: State, s: State, step: Step)
    requires Reaches(s0, s) && Enabled(s, step)
    ensures Reaches(s0, Apply(s, step))
  {
    hide IsRun, Enabled, Apply;
    var steps :| IsRun(s0, steps, s);
    RunSnoc(s0, steps, s, step);
  }

  lemma {:induction false} RunConcat(s: State, before: seq<Step>, m: State, after: seq<Step>, s': State)
    requires IsRun(s, before, m) && IsRun(m, after, s')
    ensures IsRun(s, before + after, s')
    decreases |before|
  {
    hide Enabled, Apply;
    if before == [] {
      assert before + after == after;
    } else {
      RunConcat(Apply(s, before[0]), before[1..], m, after, s');
      assert (before + after)[1..] == before[1..] + after;
    }
  }

  // There are tasks and a spare thread, and no worker has a task: each is on its way to the
  // task check or leaving.
  ghost predicate TurnedOff(s: State) {
    && s.pool.queue != [] && s.pool.threadNum > s.pool.min
    && forall t :: t in s.workers ==> s.workers[t] == Worker(Start, false) || s.workers[t] == Worker(Leaving, false)
  }

  lemma Grow(s0: State, tids: seq<Tid>, s: State) returns (s': State)
    requires Init(s0, tids) && 0 < s0.pool.min < s0.pool.max && 2 * s0.pool.min < s0.pool.maxTask
    requires Reaches(s0, s) && Filling(s0, s, 2 * s0.pool.min)
    ensures Reaches(s0, s') && TurnedOff(s') && s'.pool.min == s0.pool.min
  {
    hide Reaches;
    var task := 2 * s0.pool.min;
    var n := SomeWanted(Queued(s.pool, task));
    var supply := NewTids(s.workers.Keys, n);
    var step := AddTask(task, supply);
    s' := Apply(s, step);
    assert s'.workers == s0.workers + NewWorkers(supply);
    hide Enabled, Apply, Wanted;
    ReachesNext(s0, s, step);
  }

  lemma SomeWanted(p: Pool) returns (n: nat)
    requires p.threadNum == p.min < p.max && |p.queue| == 2 * p.min + 1
    ensures n == Wanted(p) > 0
  {
    n := Wanted(p);
  }

  // pthread_create gives identifiers that are not in use.
  lemma {:induction false} NewTids(used: set<Tid>, n: nat) returns (tids: seq<Tid>)
    ensures |tids| == n && NoDuplicates(tids) && forall t :: t in tids ==> t !in used
    decreases n
  {
    if n == 0 {
      tids := [];
    } else {
      var tid := Unused(used);
      var rest := NewTids(used + {tid}, n - 1);
      tids := [tid] + rest;
    }
  }

  lemma {:induction false} Unused(used: set<Tid>) returns (tid: Tid)
    ensures forall t :: t in used ==> t < tid
    decreases used
  {
    if used == {} {
      tid := 0;
    } else {
      var t :| t in used;
      var u := Unused(used - {t});
      tid := if t < u then u else t + 1;
      assert forall v :: v in used ==> v == t || v in used - {t};
    }
  }

  function Remaining(s: State): set<Tid> {
    set t | t in s.workers && s.workers[t].phase == Start
  }

  lemma {:induction false} AllDecide(s0: State, s: State) returns (s': State)
    requires Reaches(s0, s) && TurnedOff(s)
    ensures Reaches(s0, s') && s'.pool.min == s.pool.min
    ensures forall t :: t in s'.workers ==> s'.workers[t] == Worker(Leaving, false)
    decreases Remaining(s)
  {
    hide Reaches, Enabled, Apply;
    if Remaining(s) == {} {
      s' := s;
      forall t | t in s.workers ensures s.workers[t] == Worker(Leaving, false) {
        assert t !in Remaining(s);
      }
    } else {
      var t :| t in Remaining(s);
      OneDecides(s, t);
      ReachesNext(s0, s, Take(t, 1));
      ReachesNext(s0, Apply(s, Take(t, 1)), Decide(t));
      var next := s.(workers := s.workers[t := Worker(Leaving, false)]);
      assert Remaining(next) == Remaining(s) - {t};
      s' := AllDecide(s0, next);
    }
  }

  lemma OneDecides(s: State, t: Tid)
    requires TurnedOff(s) && t in Remaining(s)
    ensures var s1 := Apply(s, Take(t, 1));
            && Enabled(s, Take(t, 1)) && Enabled(s1, Decide(t))
            && Apply(s1, Decide(t)) == s.(workers := s.workers[t := Worker(Leaving, false)])
    ensures TurnedOff(s.(workers := s.workers[t := Worker(Leaving, false)]))
  {
    TurnedAway(s, t);
  }

  // ---------- every task can be finished ----------

  ghost predicate NoNewTasks(steps: seq<Step>) {
    forall i :: 0 <= i < |steps| ==> !steps[i].AddTask?
  }

  // Reached by the workers alone
  ghost predicate WorkersReach(s: State, s': State) {
    exists steps :: IsRun(s, steps, s') && NoNewTasks(steps)
  }

  ghost predicate AllFinished(s: State) {
    forall x :: x in s.accepted ==> x in s.finished
  }

  ghost predicate CanFinish(s: State) {
    exists s' :: WorkersReach(s, s') && AllFinished(s') && s'.accepted == s.accepted
  }

  predicate SomeoneStays(s: State) {
    exists t :: t in s.workers && s.workers[t].phase != Phase.Leaving
  }

  predicate IsStepOf(step: Step, tid: Tid) {
    match step
    case AddTask(_, _) => false
    case UseClient(_, _) => false
    case DropClient(_) => false
    case Enter(t) => t == tid
    case Take(t, _) => t == tid
    case Finish(t) => t == tid
    case GoOn(t) => t == tid
    case Decide(t) => t == tid
    case Exit(t) => t == tid
  }

  // No worker is ever stuck; at the top of its loop it either waits or looks for a task.
  lemma NeverStuck(s: State, tid: Tid)
    requires tid in s.workers
    ensures exists step :: IsStepOf(step, tid) && Enabled(s, step)
    ensures s.workers[tid].phase == Start ==> forall res :: Enabled(s, Enter(tid)) <==> !Enabled(s, Take(tid, res))
  {
    var step :=
      match s.workers[tid].phase
      case Start => if s.pool.queue == [] then Enter(tid) else Take(tid, 0)
      case Waiting => Take(tid, 0)
      case Running(_) => Finish(tid)
      case Idling => GoOn(tid)
      case Leaving => Exit(tid);
    assert IsStepOf(step, tid) && Enabled(s, step);
  }

  // In every state of every run the workers can finish all accepted tasks, if and only if there
  // is nothing queued or a worker that has not decided to leave.
  lemma CanFinishIff(s0: State, tids: seq<Tid>, steps: seq<Step>, s: State)
    requires Init(s0, tids) && IsRun(s0, steps, s)
    ensures CanFinish(s) <==> s.pool.queue == [] || SomeoneStays(s)
  {
    InitInv(s0, tids);
    RunInv(s0, steps, s);
    hide Init, IsRun, Inv;
    if s.pool.queue != [] && !SomeoneStays(s) {
      Stranded(s);
    } else {
      FinishesAll(s);
    }
  }

  lemma FinishesAll(s: State)
    requires Inv(s) && (s.pool.queue == [] || SomeoneStays(s))
    ensures CanFinish(s)
  {
    hide Inv, WorkersReach;
    StayHere(s);
    var s1 := s;
    if s.pool.queue != [] {
      var t :| t in s.workers && s.workers[t].phase != Phase.Leaving;
      s1 := ToStart(s, s, t);
      s1 := Drain(s, s1, t);
    }
    var s2 := FinishRunning(s, s1);
    NothingLeft(s2);
  }

  lemma StayHere(s: State)
    ensures WorkersReach(s, s)
  {
    assert IsRun(s, [], s) && NoNewTasks([]);
  }

  lemma WorkersNext(s0: State, s: State, step: Step)
    requires WorkersReach(s0, s) && Enabled(s, step) && !step.AddTask?
    ensures WorkersReach(s0, Apply(s, step))
  {
    hide IsRun, Enabled, Apply;
    var steps :| IsRun(s0, steps, s) && NoNewTasks(steps);
    RunSnoc(s0, steps, s, step);
    assert NoNewTasks(steps + [step]);
  }

  // The worker comes back to where it takes the lock.
  lemma ToStart(s0: State, s: State, t: Tid) returns (s': State)
    requires WorkersReach(s0, s) && Inv(s) && t in s.workers && s.workers[t].phase != Phase.Leaving
    ensures WorkersReach(s0, s') && Inv(s') && t in s'.workers && s'.workers[t].phase == Start
    ensures s'.accepted == s.accepted && s'.pool.queue == s.pool.queue
  {
    hide Inv, WorkersReach, Enabled, Apply;
    s' := s;
    if s'.workers[t].phase == Waiting {
      TurnedAwayWaiting(s', t);
      StepInv(s', Take(t, 1));
      WorkersNext(s0, s', Take(t, 1));
      s' := Apply(s', Take(t, 1));
    }
    if s'.workers[t].phase == Idling {
      GoneOn(s', t);
      StepInv(s', GoOn(t));
      WorkersNext(s0, s', GoOn(t));
      s' := Apply(s', GoOn(t));
    } else if s'.workers[t].phase.Running? {
      Finished(s', t);
      StepInv(s', Finish(t));
      WorkersNext(s0, s', Finish(t));
      s' := Apply(s', Finish(t));
    }
  }

  lemma TurnedAwayWaiting(s: State, t: Tid)
    requires t in s.workers && s.workers[t].phase == Waiting
    ensures Enabled(s, Take(t, 1))
    ensures Apply(s, Take(t, 1)) == s.(workers := s.workers[t := Worker(Idling, s.workers[t].doing)])
  {
  }

  lemma GoneOn(s: State, t: Tid)
    requires t in s.workers && s.workers[t].phase == Idling
    ensures Enabled(s, GoOn(t))
    ensures Apply(s, GoOn(t)) == s.(workers := s.workers[t := Worker(Start, s.workers[t].doing)])
  {
  }

  lemma Finished(s: State, t: Tid)
    requires t in s.workers && s.workers[t].phase.Running?
    ensures Enabled(s, Finish(t))
    ensures Apply(s, Finish(t)) == s.(workers := s.workers[t := Worker(Start, s.workers[t].doing)],
                                      finished := s.finished + {s.workers[t].phase.task})
  {
  }

  lemma Taken(s: State, t: Tid)
    requires t in s.workers && s.workers[t].phase == Start && s.pool.queue != []
    ensures Enabled(s, Take(t, 0))
    ensures var s' := Apply(s, Take(t, 0));
            && t in s'.workers && s'.workers[t].phase == Running(s.pool.queue[0])
            && s'.pool.queue == s.pool.queue[1..] && s'.accepted == s.accepted
  {
    hide Remove;
  }

  // One worker can run all queued tasks.
  lemma {:induction false} Drain(s0: State, s: State, t: Tid) returns (s': State)
    requires WorkersReach(s0, s) && Inv(s) && t in s.workers && s.workers[t].phase == Start
    ensures WorkersReach(s0, s') && Inv(s') && s'.pool.queue == [] && s'.accepted == s.accepted
    decreases |s.pool.queue|
  {
    if s.pool.queue == [] {
      s' := s;
    } else {
      hide Inv, WorkersReach, Enabled, Apply;
      Taken(s, t);
      StepInv(s, Take(t, 0));
      WorkersNext(s0, s, Take(t, 0));
      var s1 := Apply(s, Take(t, 0));
      Finished(s1, t);
      StepInv(s1, Finish(t));
      WorkersNext(s0, s1, Finish(t));
      s' := Drain(s0, Apply(s1, Finish(t)), t);
    }
  }

  lemma OneLess(s: State, t: Tid)
    requires t in InFlight(s) && Enabled(s, Finish(t))
    ensures InFlight(Apply(s, Finish(t))) == InFlight(s) - {t}
  {
  }

  lemma {:induction false} FinishRunning(s0: State, s: State) returns (s': State)
    requires WorkersReach(s0, s) && Inv(s) && s.pool.queue == []
    ensures WorkersReach(s0, s') && Inv(s') && s'.pool.queue == [] && s'.accepted == s.accepted && InFlight(s') == {}
    decreases InFlight(s)
  {
    if InFlight(s) == {} {
      s' := s;
    } else {
      hide Inv, WorkersReach, Enabled, Apply;
      var t :| t in InFlight(s);
      Finished(s, t);
      StepInv(s, Finish(t));
      WorkersNext(s0, s, Finish(t));
      var s1 := Apply(s, Finish(t));
      OneLess(s, t);
      s' := FinishRunning(s0, s1);
    }
  }

  // With nothing queued and nobody running, every accepted task is finished.
  lemma NothingLeft(s: State)
    requires Inv(s) && s.pool.queue == [] && InFlight(s) == {}
    ensures AllFinished(s)
  {
    hide Membership, Clients, InFlight;
    assert s.accepted == s.dequeued;
    SequenceSetSize(s.dequeued);
    var members := set x | x in s.dequeued;
    assert s.finished <= members;
    SameSize(s.finished, members);
  }

  lemma {:induction false} SameSize(a: set<Task>, b: set<Task>)
    requires a <= b && |a| >= |b|
    ensures a == b
    decreases a
  {
    if a == {} {
      assert b == {};
    } else {
      var x :| x in a;
      SameSize(a - {x}, b - {x});
      assert a == (a - {x}) + {x} && b == (b - {x}) + {x};
    }
  }

  // Otherwise the queue stays as it is until somebody adds a task.
  lemma {:induction false} StrandedRun(s: State, steps: seq<Step>, s': State)
    requires !SomeoneStays(s) && IsRun(s, steps, s') && NoNewTasks(steps)
    ensures s'.pool.queue == s.pool.queue && s'.dequeued == s.dequeued && s'.accepted == s.accepted
    decreases |steps|
  {
    if steps != [] {
      assert !steps[0].AddTask?;
      OnlyExits(s, steps[0]);
      hide Enabled, Apply, SomeoneStays;
      assert forall i :: 0 <= i < |steps| - 1 ==> steps[1..][i] == steps[i + 1];
      StrandedRun(Apply(s, steps[0]), steps[1..], s');
    }
  }

  lemma OnlyExits(s: State, step: Step)
    requires !SomeoneStays(s) && Enabled(s, step) && !step.AddTask?
    ensures var s' := Apply(s, step);
            !SomeoneStays(s') && s'.pool.queue == s.pool.queue && s'.dequeued == s.dequeued && s'.accepted == s.accepted
  {
    hide Remove;
  }

  lemma Stranded(s: State)
    requires Inv(s) && s.pool.queue != [] && !SomeoneStays(s)
    ensures !CanFinish(s)
  {
    HeadIsNew(s);
    assert s.accepted[|s.dequeued|] == s.pool.queue[0];
    forall s' | WorkersReach(s, s') ensures !AllFinished(s') {
      var steps :| IsRun(s, steps, s') && NoNewTasks(steps);
      RunInv(s, steps, s');
      StrandedRun(s, steps, s');
      hide IsRun, Membership, Clients, InFlight, SomeoneStays, NoNewTasks;
      assert s.pool.queue[0] !in s'.finished;
    }
  }
}

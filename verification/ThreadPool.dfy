/** The job queue, and every interleaving of adders, workers, join and detach of the thread pool. */
module ThreadPool {
  import opened Wrappers

  // ---- The pool ----

  /** Jobs are numbered in the order in which they were pushed. */
  type Job = nat

  datatype Stage =
    | Looping           // about to test `active`
    | Waiting           // in the wait on the condition variable
    | Woken             // about to test `joining`
    | Taking            // about to try the queue
    | Took(job: Job)    // about to clear `newJobReady`
    | Running(job: Job) // in the job, or about to count it
    | Exited

  datatype Worker = Worker(stage: Stage, lastJobsDone: nat)

  datatype Adder = Checked | Pushed

  datatype Closer =
    | WonActive(detaching: bool)  // active was true, joining not yet exchanged
    | WonBoth(detaching: bool)    // won both exchanges
    | Cleared(detaching: bool)    // queue cleared, waiters notified
    | ThreadsGone(detaching: bool) // threads joined or detached, pool empty
    | Returned(won: bool)

  /** The queue's life: what is in it, how many jobs were pushed, and how jobs left it. */
  datatype Queue = Queue(items: seq<Job>, added: nat, taken: seq<Job>, discarded: set<Job>)

  /** The jobs that were taken: which worker runs each, which are finished, and the counter. */
  datatype Runs = Runs(running: map<Job, nat>, done: seq<Job>, jobsDone: nat)

  datatype State = State(
    active: bool, joining: bool, newJobReady: bool,
    queue: Queue, runs: Runs,
    workers: map<nat, Worker>, pool: set<nat>, detached: set<nat>,
    adders: map<nat, Adder>, closers: map<nat, Closer>)

  const START := State(false, false, false, Queue([], 0, [], {}), Runs(map[], [], 0),
                       map[], {}, {}, map[], map[])

  datatype Action =
    | StartPool(ids: set<nat>)
    | Add(adder: nat)
    | Work(worker: nat)
    | Close(closer: nat, detach: bool)

  /** One step of the named thread. */
  function Apply(s: State, a: Action): State {
    match a
    case StartPool(ids) => StartStep(s, ids)
    case Add(k) => AddStep(s, k)
    case Work(w) => if w in s.workers then WorkStep(s, w) else s
    case Close(k, detach) => CloseStep(s, k, detach)
  }

  /** start, taken as one step: it returns at once unless the pool is idle, and asserts that no
      thread is left in the vector. */
  function StartStep(s: State, ids: set<nat>): State {
    if s.joining || s.active || s.pool != {} || !(ids !! s.workers.Keys) then s
    else s.(active := true, pool := ids,
            workers := s.workers + map w | w in ids :: Worker(Looping, s.runs.jobsDone))
  }

  /** add: test `active`, push, raise `newJobReady`. */
  function AddStep(s: State, k: nat): State {
    if k !in s.adders then
      if s.active then s.(adders := s.adders[k := Checked]) else s
    else if s.adders[k] == Checked then
      s.(queue := Enqueued(s.queue), adders := s.adders[k := Pushed])
    else
      s.(newJobReady := true, adders := s.adders - {k})
  }

  function Enqueued(q: Queue): Queue {
    q.(items := q.items + [q.added], added := q.added + 1)
  }

  function Take(q: Queue): Queue
    requires q.items != []
  {
    q.(items := q.items[1..], taken := q.taken + [q.items[0]])
  }

  function Discard(q: Queue): Queue {
    q.(items := [], discarded := q.discarded + (set j | j in q.items))
  }

  function Begin(r: Runs, job: Job, w: nat): Runs {
    r.(running := r.running[job := w])
  }

  function Finish(r: Runs, job: Job): Runs {
    Runs(r.running - {job}, r.done + [job], r.jobsDone + 1)
  }

  function Move(s: State, w: nat, stage: Stage): State
    requires w in s.workers
  {
    s.(workers := s.workers[w := s.workers[w].(stage := stage)])
  }

  function WorkStep(s: State, w: nat): State
    requires w in s.workers
  {
    match s.workers[w].stage
    case Looping => Move(s, w, if s.active then Waiting else Exited)
    case Waiting =>
      if s.joining || s.newJobReady || s.workers[w].lastJobsDone < s.runs.jobsDone then Move(s, w, Woken) else s
    case Woken => Move(s, w, if s.joining then Exited else Taking)
    case Taking =>
      if s.queue.items == [] then
        s.(workers := s.workers[w := Worker(Looping, s.runs.jobsDone)])
      else
        var job := s.queue.items[0];
        Move(s.(queue := Take(s.queue), runs := Begin(s.runs, job, w)), w, Took(job))
    case Took(job) => Move(s.(newJobReady := false), w, Running(job))
    case Running(job) =>
      s.(runs := Finish(s.runs, job), workers := s.workers[w := Worker(Looping, s.runs.jobsDone + 1)])
    case Exited => s
  }

  /** join and detach: the two exchanges, the clearing, the threads, and the reset of `joining`. */
  function CloseStep(s: State, k: nat, detach: bool): State {
    if k !in s.closers then
      if s.active then s.(active := false, closers := s.closers[k := WonActive(detach)])
      else s.(closers := s.closers[k := Returned(false)])
    else
      match s.closers[k]
      case WonActive(d) =>
        if s.joining then s.(closers := s.closers[k := Returned(false)])
        else s.(joining := true, closers := s.closers[k := WonBoth(d)])
      case WonBoth(d) => s.(queue := Discard(s.queue), closers := s.closers[k := Cleared(d)])
      case Cleared(d) =>
        if d then s.(detached := s.detached + s.pool, pool := {}, closers := s.closers[k := ThreadsGone(d)])
        else if AllExited(s.workers, s.pool) then s.(pool := {}, closers := s.closers[k := ThreadsGone(d)])
        else s
      case ThreadsGone(_) => s.(joining := false, closers := s.closers[k := Returned(true)])
      case Returned(_) => s
  }

  predicate AllExited(workers: map<nat, Worker>, pool: set<nat>) {
    forall w :: w in pool && w in workers ==> workers[w].stage == Exited
  }

  function Exec(actions: seq<Action>): State {
    if actions == [] then START
    else Apply(Exec(actions[..|actions| - 1]), actions[|actions| - 1])
  }

  // ---- The invariant ----

  /** Number of the first job that is still queued, or will be the next one pushed. */
  function FirstQueued(q: Queue): int {
    q.added - |q.items|
  }

  /** The queue is a suffix of the add history; what left it was taken in order or discarded. */
  predicate QueueHolds(q: Queue) {
    && |q.items| <= q.added
    && (forall i :: 0 <= i < |q.items| ==> q.items[i] == FirstQueued(q) + i)
    && (forall i, j :: 0 <= i < j < |q.taken| ==> q.taken[i] < q.taken[j])
    && (forall j :: j in q.taken ==> j < FirstQueued(q))
    && (forall j :: j in q.discarded ==> j < FirstQueued(q) && j !in q.taken)
    && (forall j: Job :: j < FirstQueued(q) ==> j in q.taken || j in q.discarded)
  }

  /** A queue whose operations each hold its mutex. `all` lists everything ever pushed; `numbers` is the
      same queue with each item replaced by its number in that list, as the pool below sees it. */
  class MTQueue<T> {
    var items: seq<T>
    ghost var all: seq<T>
    ghost var numbers: Queue

    ghost predicate Valid()
      reads this
    {
      && QueueHolds(numbers) && |all| == numbers.added
      && |items| == |numbers.items|
      && forall i :: 0 <= i < |items| ==> numbers.items[i] < |all| && items[i] == all[numbers.items[i]]
    }

    constructor ()
      ensures Valid() && items == [] && numbers == START.queue
    {
      items, all, numbers := [], [], START.queue;
    }

    method Push(value: T)
      requires Valid()
      modifies this
      ensures Valid() && numbers == Enqueued(old(numbers))
      ensures all == old(all) + [value] && items == old(items) + [value]
    {
      PushKeeps(numbers);
      items := items + [value];
      all, numbers := all + [value], Enqueued(numbers);
    }

    method TryTake() returns (taken: Option<T>)
      requires Valid()
      modifies this
      ensures Valid() && all == old(all)
      ensures taken.Some? <==> old(numbers).items != []
      ensures if taken.Some? then
                numbers == Take(old(numbers)) && taken.value == all[old(numbers).items[0]]
                && old(items) == [taken.value] + items
              else numbers == old(numbers) && items == old(items)
    {
      if items == [] {
        return None;
      }
      TakeKeeps(numbers);
      taken := Some(items[0]);
      items := items[1..];
      numbers := Take(numbers);
    }

    method Clear()
      requires Valid()
      modifies this
      ensures Valid() && all == old(all) && numbers == Discard(old(numbers)) && items == []
    {
      DiscardKeeps(numbers);
      items := [];
      numbers := Discard(numbers);
    }
  }

  /** The taken jobs are the running ones and the finished ones, none of them both. */
  predicate RunsHold(taken: seq<Job>, r: Runs) {
    && (forall j :: j in r.running ==> j in taken && j !in r.done)
    && (forall j :: j in r.done ==> j in taken)
    && (forall j :: j in taken ==> j in r.running || j in r.done)
    && NoDuplicates(r.done)
    && r.jobsDone == |r.done|
  }

  predicate InJob(stage: Stage, job: Job) {
    stage == Took(job) || stage == Running(job)
  }

  /** A job is running exactly when one worker is in it. */
  predicate WorkersHold(workers: map<nat, Worker>, running: map<Job, nat>) {
    && (forall w :: w in workers && (workers[w].stage.Took? || workers[w].stage.Running?) ==>
          workers[w].stage.job in running && running[workers[w].stage.job] == w)
    && (forall j :: j in running ==> running[j] in workers && InJob(workers[running[j]].stage, j))
  }

  predicate PoolHolds(workers: map<nat, Worker>, pool: set<nat>, detached: set<nat>) {
    && pool <= workers.Keys && detached <= workers.Keys
    && (forall w :: w in workers && w !in pool && w !in detached ==> workers[w].stage == Exited)
  }

  predicate Winning(c: Closer) {
    c.WonBoth? || c.Cleared? || c.ThreadsGone?
  }

  predicate OneWinner(closers: map<nat, Closer>, joining: bool, pool: set<nat>) {
    && (forall k :: k in closers && Winning(closers[k]) ==> joining)
    && (forall k, l :: k in closers && l in closers && Winning(closers[k]) && Winning(closers[l]) ==> k == l)
    && (forall k :: k in closers && closers[k].ThreadsGone? ==> pool == {})
  }

  predicate Inv(s: State) {
    && QueueHolds(s.queue)
    && RunsHold(s.queue.taken, s.runs)
    && WorkersHold(s.workers, s.runs.running)
    && PoolHolds(s.workers, s.pool, s.detached)
    && OneWinner(s.closers, s.joining, s.pool)
  }

  // ---- Each part of a step keeps its part of the invariant ----

  lemma PushKeeps(q: Queue)
    requires QueueHolds(q)
    ensures QueueHolds(Enqueued(q))
  {
    assert FirstQueued(Enqueued(q)) == FirstQueued(q);
  }

  lemma TakeKeeps(q: Queue)
    requires QueueHolds(q) && q.items != []
    ensures QueueHolds(Take(q)) && q.items[0] !in q.taken
  {
    var t := Take(q);
    assert q.items[0] == FirstQueued(q) && FirstQueued(t) == FirstQueued(q) + 1;
    forall i | 0 <= i < |q.taken|
      ensures q.taken[i] < FirstQueued(q)
    {
      assert q.taken[i] in q.taken;
    }
    forall j: Job | j < FirstQueued(t)
      ensures j in t.taken || j in t.discarded
    {
      if j == FirstQueued(q) {
        assert t.taken[|q.taken|] == j;
      } else if j in q.taken {
        assert j in t.taken;
      }
    }
  }

  lemma DiscardKeeps(q: Queue)
    requires QueueHolds(q)
    ensures QueueHolds(Discard(q))
  {
    forall j: Job | FirstQueued(q) <= j < q.added
      ensures j in Discard(q).discarded
    {
      assert q.items[j - FirstQueued(q)] == j;
    }
  }

  lemma BeginKeeps(taken: seq<Job>, r: Runs, job: Job, w: nat)
    requires RunsHold(taken, r) && job !in taken
    ensures RunsHold(taken + [job], Begin(r, job, w))
  {
  }

  lemma FinishKeeps(taken: seq<Job>, r: Runs, job: Job)
    requires RunsHold(taken, r) && job in r.running
    ensures RunsHold(taken, Finish(r, job))
  {
  }

  lemma WorkersBegin(workers: map<nat, Worker>, running: map<Job, nat>, w: nat, job: Job, worker: Worker)
    requires WorkersHold(workers, running) && job !in running && w in workers
    requires workers[w].stage == Taking && worker.stage == Took(job)
    ensures WorkersHold(workers[w := worker], running[job := w])
  {
  }

  lemma WorkersFinish(workers: map<nat, Worker>, running: map<Job, nat>, w: nat, worker: Worker)
    requires WorkersHold(workers, running) && w in workers
    requires workers[w].stage.Running? && worker.stage == Looping
    ensures workers[w].stage.job in running
    ensures WorkersHold(workers[w := worker], running - {workers[w].stage.job})
  {
  }

  /** A worker that moves between stages outside any job, or within one. */
  lemma WorkersMove(workers: map<nat, Worker>, running: map<Job, nat>, w: nat, worker: Worker)
    requires WorkersHold(workers, running) && w in workers
    requires if workers[w].stage.Took? then worker.stage == Running(workers[w].stage.job)
             else !workers[w].stage.Running? && !worker.stage.Took? && !worker.stage.Running?
    ensures WorkersHold(workers[w := worker], running)
  {
  }

  lemma PoolMoves(workers: map<nat, Worker>, pool: set<nat>, detached: set<nat>, w: nat, worker: Worker)
    requires PoolHolds(workers, pool, detached) && w in workers && workers[w].stage != Exited
    ensures PoolHolds(workers[w := worker], pool, detached)
  {
  }

  lemma StartWorkers(workers: map<nat, Worker>, running: map<Job, nat>, ids: set<nat>, last: nat)
    requires WorkersHold(workers, running) && ids !! workers.Keys
    ensures WorkersHold(workers + map w | w in ids :: Worker(Looping, last), running)
  {
  }

  lemma StartPoolThreads(workers: map<nat, Worker>, pool: set<nat>, detached: set<nat>, ids: set<nat>, last: nat)
    requires PoolHolds(workers, pool, detached) && pool == {} && ids !! workers.Keys
    ensures PoolHolds(workers + map w | w in ids :: Worker(Looping, last), ids, detached)
  {
    var started := map w | w in ids :: Worker(Looping, last);
    assert (workers + started).Keys == workers.Keys + ids;
  }

  lemma NoThreadsYet(s: State)
    requires OneWinner(s.closers, s.joining, s.pool) && !s.joining
    ensures forall pool :: OneWinner(s.closers, false, pool)
  {
  }

  lemma StartKeeps(s: State, ids: set<nat>)
    requires Inv(s)
    ensures Inv(StartStep(s, ids))
  {
    hide QueueHolds, RunsHold, WorkersHold, PoolHolds, OneWinner;
    if !s.joining && !s.active && s.pool == {} && ids !! s.workers.Keys {
      StartWorkers(s.workers, s.runs.running, ids, s.runs.jobsDone);
      StartPoolThreads(s.workers, s.pool, s.detached, ids, s.runs.jobsDone);
      NoThreadsYet(s);
    }
  }

  lemma AddKeeps(s: State, k: nat)
    requires Inv(s)
    ensures Inv(AddStep(s, k))
  {
    PushKeeps(s.queue);
    hide QueueHolds, RunsHold, WorkersHold, PoolHolds, OneWinner;
  }

  lemma WorkKeeps(s: State, w: nat)
    requires Inv(s) && w in s.workers
    ensures Inv(WorkStep(s, w))
  {
    hide QueueHolds, RunsHold, WorkersHold, PoolHolds, OneWinner;
    var stage, after := s.workers[w].stage, WorkStep(s, w).workers[w];
    if stage != Exited {
      PoolMoves(s.workers, s.pool, s.detached, w, after);
    }
    if stage == Taking && s.queue.items != [] {
      var job := s.queue.items[0];
      TakeKeeps(s.queue);
      BeginKeeps(s.queue.taken, s.runs, job, w);
      NotRunning(s.queue.taken, s.runs, job);
      WorkersBegin(s.workers, s.runs.running, w, job, after);
    } else if stage.Running? {
      WorkersFinish(s.workers, s.runs.running, w, after);
      FinishKeeps(s.queue.taken, s.runs, stage.job);
    } else if stage != Exited {
      WorkersMove(s.workers, s.runs.running, w, after);
      assert s.workers[w := s.workers[w]] == s.workers;
    }
  }

  lemma NotRunning(taken: seq<Job>, r: Runs, job: Job)
    requires RunsHold(taken, r) && job !in taken
    ensures job !in r.running
  {
  }

  lemma CloseKeeps(s: State, k: nat, detach: bool)
    requires Inv(s)
    ensures Inv(CloseStep(s, k, detach))
  {
    hide QueueHolds, RunsHold, WorkersHold, PoolHolds, OneWinner, Discard, AllExited;
    DiscardKeeps(s.queue);
    DiscardTakesNone(s.queue);
    PoolEmptied(s.workers, s.pool, s.detached);
    CloserMoves(s, k, detach);
  }

  lemma DiscardTakesNone(q: Queue)
    ensures Discard(q).taken == q.taken
  {
  }

  lemma PoolEmptied(workers: map<nat, Worker>, pool: set<nat>, detached: set<nat>)
    requires PoolHolds(workers, pool, detached)
    ensures PoolHolds(workers, {}, detached + pool)
    ensures AllExited(workers, pool) ==> PoolHolds(workers, {}, detached)
  {
  }

  lemma CloserLoses(closers: map<nat, Closer>, joining: bool, pool: set<nat>, k: nat, c: Closer)
    requires OneWinner(closers, joining, pool) && !Winning(c)
    ensures OneWinner(closers[k := c], joining, pool)
  {
  }

  lemma CloserWins(closers: map<nat, Closer>, pool: set<nat>, k: nat, d: bool)
    requires OneWinner(closers, false, pool)
    ensures OneWinner(closers[k := WonBoth(d)], true, pool)
  {
  }

  lemma WinnerGoesOn(closers: map<nat, Closer>, joining: bool, pool: set<nat>, k: nat, c: Closer, after: set<nat>)
    requires OneWinner(closers, joining, pool) && k in closers && Winning(closers[k]) && Winning(c)
    requires if c.ThreadsGone? then after == {} else after == pool && closers[k].WonBoth?
    ensures OneWinner(closers[k := c], joining, after)
  {
  }

  lemma WinnerReturns(closers: map<nat, Closer>, joining: bool, pool: set<nat>, k: nat)
    requires OneWinner(closers, joining, pool) && k in closers && Winning(closers[k])
    ensures OneWinner(closers[k := Returned(true)], false, pool)
  {
  }

  lemma CloserMoves(s: State, k: nat, detach: bool)
    requires OneWinner(s.closers, s.joining, s.pool)
    ensures var t := CloseStep(s, k, detach);
            OneWinner(t.closers, t.joining, t.pool)
  {
    hide OneWinner, AllExited, Discard;
    var closers, joining, pool := s.closers, s.joining, s.pool;
    if k !in closers {
      CloserLoses(closers, joining, pool, k, if s.active then WonActive(detach) else Returned(false));
    } else {
      match closers[k]
      case WonActive(d) =>
        if joining {
          CloserLoses(closers, joining, pool, k, Returned(false));
        } else {
          CloserWins(closers, pool, k, d);
        }
      case WonBoth(d) => WinnerGoesOn(closers, joining, pool, k, Cleared(d), pool);
      case Cleared(d) => WinnerGoesOn(closers, joining, pool, k, ThreadsGone(d), {});
      case ThreadsGone(_) => WinnerReturns(closers, joining, pool, k);
      case Returned(_) =>
    }
  }

  lemma ApplyKeeps(s: State, a: Action)
    requires Inv(s)
    ensures Inv(Apply(s, a))
  {
    hide Inv;
    match a
    case StartPool(ids) => StartKeeps(s, ids);
    case Add(k) => AddKeeps(s, k);
    case Work(w) =>
      if w in s.workers {
        WorkKeeps(s, w);
      }
    case Close(k, detach) => CloseKeeps(s, k, detach);
  }

  lemma {:induction false} ExecInv(actions: seq<Action>)
    ensures Inv(Exec(actions))
  {
    if actions != [] {
      hide Inv, Apply;
      ExecInv(actions[..|actions| - 1]);
      ApplyKeeps(Exec(actions[..|actions| - 1]), actions[|actions| - 1]);
    } else {
      assert Exec(actions) == START;
    }
  }

  // ---- What is promised ----

  predicate ExactlyOne(a: bool, b: bool, c: bool, d: bool) {
    (a || b || c || d) && !(a && b) && !(a && c) && !(a && d) && !(b && c) && !(b && d) && !(c && d)
  }

  /** Every job ever added is in exactly one place, and the places are what the pool says they are. */
  lemma JobsConserved(actions: seq<Action>, job: Job)
    requires job < Exec(actions).queue.added
    ensures var s := Exec(actions);
            ExactlyOne(job in s.queue.items, job in s.runs.running, job in s.runs.done, job in s.queue.discarded)
    ensures var s := Exec(actions);
            job in s.runs.running ==>
              s.runs.running[job] in s.workers && InJob(s.workers[s.runs.running[job]].stage, job)
  {
    hide Exec;
    ExecInv(actions);
    var s := Exec(actions);
    if FirstQueued(s.queue) <= job {
      assert s.queue.items[job - FirstQueued(s.queue)] == job;
    }
  }

  /** The queue is the end of the add history; jobs are taken in add order, each at most once; and
      jobsDone counts the finished ones. */
  lemma TakenInAddOrder(actions: seq<Action>)
    ensures var s := Exec(actions);
            && (forall i :: 0 <= i < |s.queue.items| ==>
                  s.queue.items[i] == s.queue.added - |s.queue.items| + i)
            && (forall i, j :: 0 <= i < j < |s.queue.taken| ==> s.queue.taken[i] < s.queue.taken[j])
            && s.runs.jobsDone == |s.runs.done| && NoDuplicates(s.runs.done)
            && (forall v, w :: v in s.workers && w in s.workers && v != w ==>
                  !(exists job :: InJob(s.workers[v].stage, job) && InJob(s.workers[w].stage, job)))
  {
    hide Exec;
    ExecInv(actions);
  }

  /** When the join that won both exchanges returns, only detached threads can still be running. */
  lemma JoinLeavesOnlyDetached(actions: seq<Action>, k: nat, detach: bool)
    requires var s := Exec(actions);
             k in s.closers && s.closers[k] == ThreadsGone(false)
    ensures var s := Apply(Exec(actions), Close(k, detach));
            && s.closers[k] == Returned(true)
            && s.pool == {}
            && (forall w :: w in s.workers && w !in s.detached ==> s.workers[w].stage == Exited)
            && (forall job :: job in s.runs.running ==> s.runs.running[job] in s.detached)
            && (s.runs.running == map[] <==>
                  forall w :: w in s.workers && w in s.detached ==>
                    !s.workers[w].stage.Took? && !s.workers[w].stage.Running?)
  {
    ExecInv(actions);
    ApplyKeeps(Exec(actions), Close(k, detach));
    var s := Apply(Exec(actions), Close(k, detach));
    assert forall job :: job in s.runs.running ==> InJob(s.workers[s.runs.running[job]].stage, job);
  }

  predicate NeverDetaches(actions: seq<Action>) {
    forall a :: a in actions && a.Close? ==> !a.detach
  }

  predicate NoDetacher(closers: map<nat, Closer>, detached: set<nat>) {
    && detached == {}
    && forall k :: k in closers && !closers[k].Returned? ==> !closers[k].detaching
  }

  lemma NoDetacherWith(closers: map<nat, Closer>, detached: set<nat>, k: nat, c: Closer)
    requires NoDetacher(closers, detached) && (c.Returned? || !c.detaching)
    ensures NoDetacher(closers[k := c], detached)
    ensures k in closers && !closers[k].Returned? ==> !closers[k].detaching
  {
  }

  lemma NoDetacherStep(s: State, a: Action)
    requires NoDetacher(s.closers, s.detached) && (a.Close? ==> !a.detach)
    ensures NoDetacher(Apply(s, a).closers, Apply(s, a).detached)
  {
    hide NoDetacher, StartStep, AddStep, WorkStep, AllExited, Discard;
    if a.Close? {
      var k := a.closer;
      NoDetacherWith(s.closers, s.detached, k, Returned(false));
      NoDetacherWith(s.closers, s.detached, k, Returned(true));
      NoDetacherWith(s.closers, s.detached, k, WonActive(false));
      NoDetacherWith(s.closers, s.detached, k, WonBoth(false));
      NoDetacherWith(s.closers, s.detached, k, Cleared(false));
      NoDetacherWith(s.closers, s.detached, k, ThreadsGone(false));
    } else {
      OnlyCloseDetaches(s, a);
    }
  }

  lemma WorkMovesWorkers(s: State, w: nat)
    requires w in s.workers
    ensures var t := WorkStep(s, w);
            t == s.(newJobReady := t.newJobReady, queue := t.queue, runs := t.runs, workers := t.workers)
  {
    hide Begin, Take, Finish;
    match s.workers[w].stage
    case Looping =>
    case Waiting =>
    case Woken =>
    case Taking =>
    case Took(_) =>
    case Running(_) =>
    case Exited =>
  }

  lemma OnlyCloseDetaches(s: State, a: Action)
    requires !a.Close?
    ensures Apply(s, a).closers == s.closers && Apply(s, a).detached == s.detached
  {
    hide Begin, Take, Finish, Enqueued;
    if a.Work? {
      hide AddStep, StartStep, CloseStep;
      if a.worker in s.workers {
        WorkMovesWorkers(s, a.worker);
        hide WorkStep;
      }
    } else {
      hide WorkStep, CloseStep;
    }
  }

  lemma {:induction false} NothingDetached(actions: seq<Action>)
    requires NeverDetaches(actions)
    ensures NoDetacher(Exec(actions).closers, Exec(actions).detached)
  {
    if actions != [] {
      hide Apply, NoDetacher;
      NothingDetached(actions[..|actions| - 1]);
      NoDetacherStep(Exec(actions[..|actions| - 1]), actions[|actions| - 1]);
    }
  }

  /** In a program that never detaches, nothing is running when the winning join returns. */
  lemma JoinLeavesNothingRunning(actions: seq<Action>, k: nat)
    requires NeverDetaches(actions)
    requires var s := Exec(actions);
             k in s.closers && s.closers[k] == ThreadsGone(false)
    ensures var s := Apply(Exec(actions), Close(k, false));
            s.closers[k] == Returned(true) && s.runs.running == map[]
  {
    JoinLeavesOnlyDetached(actions, k, false);
    NothingDetached(actions);
    NoDetacherStep(Exec(actions), Close(k, false));
    hide Apply, Exec;
  }

  // ---- Why detaching matters ----

  lemma Then(actions: seq<Action>, s: State, a: Action, t: State) returns (longer: seq<Action>)
    requires Exec(actions) == s && Apply(s, a) == t
    ensures longer == actions + [a] && Exec(longer) == t
  {
    longer := actions + [a];
    assert longer[..|actions|] == actions;
  }

  /** One worker in the middle of the only job. */
  const BUSY := State(true, false, false, Queue([], 1, [0], {}), Runs(map[0 := 0], [], 0),
                      map[0 := Worker(Running(0), 0)], {0}, {}, map[], map[])

  /** The same worker, detached from a pool that is idle again. */
  const LET_GO := BUSY.(active := false, pool := {}, detached := {0}, closers := map[0 := Returned(true)])

  lemma BusyReached() returns (actions: seq<Action>)
    ensures Exec(actions) == BUSY
  {
    hide Exec;
    var one := Worker(Looping, 0);
    var s1 := START.(active := true, pool := {0}, workers := map[0 := one]);
    assert Apply(START, StartPool({0})) == s1;
    EmptyRun();
    actions := Then([], START, StartPool({0}), s1);
    var s2 := s1.(adders := map[0 := Checked]);
    actions := Then(actions, s1, Add(0), s2);
    var s3 := s2.(adders := map[0 := Pushed], queue := Queue([0], 1, [], {}));
    actions := Then(actions, s2, Add(0), s3);
    var s4 := s3.(adders := map[], newJobReady := true);
    assert s3.adders - {0} == map[];
    actions := Then(actions, s3, Add(0), s4);
    actions := JobTaken(actions, s4);
  }

  lemma EmptyRun()
    ensures Exec([]) == START
  {
  }

  lemma JobTaken(before: seq<Action>, s: State) returns (actions: seq<Action>)
    requires Exec(before) == s
    requires s == BUSY.(newJobReady := true, queue := Queue([0], 1, [], {}), runs := Runs(map[], [], 0),
                        workers := map[0 := Worker(Looping, 0)])
    ensures Exec(actions) == BUSY
  {
    hide Exec;
    var s1 := s.(workers := map[0 := Worker(Waiting, 0)]);
    actions := Then(before, s, Work(0), s1);
    var s2 := s.(workers := map[0 := Worker(Woken, 0)]);
    actions := Then(actions, s1, Work(0), s2);
    var s3 := s.(workers := map[0 := Worker(Taking, 0)]);
    actions := Then(actions, s2, Work(0), s3);
    var s4 := BUSY.(newJobReady := true, workers := map[0 := Worker(Took(0), 0)]);
    actions := Then(actions, s3, Work(0), s4);
    actions := Then(actions, s4, Work(0), BUSY);
  }

  lemma LetGoReached() returns (actions: seq<Action>)
    ensures Exec(actions) == LET_GO
  {
    hide Exec;
    actions := BusyReached();
    var s1 := BUSY.(active := false, closers := map[0 := WonActive(true)]);
    actions := Then(actions, BUSY, Close(0, true), s1);
    var s2 := s1.(joining := true, closers := map[0 := WonBoth(true)]);
    actions := Then(actions, s1, Close(0, true), s2);
    var s3 := s2.(closers := map[0 := Cleared(true)]);
    actions := Then(actions, s2, Close(0, true), s3);
    var s4 := s3.(detached := {0}, pool := {}, closers := map[0 := ThreadsGone(true)]);
    actions := Then(actions, s3, Close(0, true), s4);
    actions := Then(actions, s4, Close(0, true), LET_GO);
  }

  /** A join that wins both exchanges can return while a job runs: in a thread that an earlier detach
      let go. */
  lemma DetachedOutlivesJoin() returns (actions: seq<Action>)
    ensures var s := Exec(actions);
            1 in s.closers && s.closers[1] == ThreadsGone(false) && s.runs.running != map[]
  {
    hide Exec;
    actions := LetGoReached();
    var s1 := LET_GO.(active := true, pool := {1}, workers := LET_GO.workers[1 := Worker(Looping, 0)]);
    assert Apply(LET_GO, StartPool({1})).workers == s1.workers;
    actions := Then(actions, LET_GO, StartPool({1}), s1);
    var s2 := s1.(active := false, closers := s1.closers[1 := WonActive(false)]);
    actions := Then(actions, s1, Close(1, false), s2);
    var s3 := s2.(joining := true, closers := s2.closers[1 := WonBoth(false)]);
    actions := Then(actions, s2, Close(1, false), s3);
    var s4 := s3.(closers := s3.closers[1 := Cleared(false)]);
    actions := Then(actions, s3, Close(1, false), s4);
    var s5 := s4.(workers := s4.workers[1 := Worker(Exited, 0)]);
    actions := Then(actions, s4, Work(1), s5);
    var s6 := s5.(pool := {}, closers := s5.closers[1 := ThreadsGone(false)]);
    actions := Then(actions, s5, Close(1, false), s6);
    assert 0 in s6.runs.running;
  }

  /** The join of thread k has won both exchanges, joined the threads and is about to return. */
  predicate AboutToReturn(actions: seq<Action>, k: nat) {
    k in Exec(actions).closers && Exec(actions).closers[k] == ThreadsGone(false)
  }

  predicate InSomeJob(workers: map<nat, Worker>, w: nat) {
    w in workers && (workers[w].stage.Took? || workers[w].stage.Running?)
  }

  /** Action i of the run is the step of a detach that lets worker w go. */
  predicate LetsGo(actions: seq<Action>, i: nat, w: nat) {
    && i < |actions| && actions[i].Close?
    && actions[i].closer in Exec(actions[..i]).closers
    && Exec(actions[..i]).closers[actions[i].closer] == Cleared(true)
    && w in Exec(actions[..i]).pool
  }

  lemma DetachedStep(s: State, a: Action)
    ensures Apply(s, a).detached
         == if a.Close? && a.closer in s.closers && s.closers[a.closer] == Cleared(true) then s.detached + s.pool
            else s.detached
  {
    hide AllExited, Discard;
    if !a.Close? {
      OnlyCloseDetaches(s, a);
    }
  }

  /** The detached threads are those that a detach of the run has let go. */
  lemma {:induction false} DetachedExactly(actions: seq<Action>, w: nat)
    ensures w in Exec(actions).detached <==> exists i :: LetsGo(actions, i, w)
    decreases |actions|
  {
    hide Apply;
    if actions == [] {
      assert Exec(actions) == START;
    } else {
      var before, n := actions[..|actions| - 1], |actions| - 1;
      DetachedExactly(before, w);
      DetachedStep(Exec(before), actions[n]);
      forall i: nat | i < n
        ensures LetsGo(actions, i, w) <==> LetsGo(before, i, w)
      {
        assert actions[..i] == before[..i];
      }
      if i :| LetsGo(before, i, w) {
        assert LetsGo(actions, i, w);
      }
      assert LetsGo(actions, n, w) ==> w in Exec(actions).detached;
      hide Exec;
    }
  }

  /** A winning join leaves something running exactly when an earlier detach of the run let a worker go
      that is still in a job. */
  lemma JoinLeavesRunningExactly(actions: seq<Action>, k: nat)
    requires AboutToReturn(actions, k)
    ensures Apply(Exec(actions), Close(k, false)).runs.running != map[] <==>
              exists i, w :: LetsGo(actions, i, w) && InSomeJob(Exec(actions).workers, w)
  {
    JoinLeavesOnlyDetached(actions, k, false);
    var s, t := Exec(actions), Apply(Exec(actions), Close(k, false));
    assert t == s.(joining := false, closers := s.closers[k := Returned(true)]);
    hide Exec, Apply, LetsGo;
    if i, w :| LetsGo(actions, i, w) && InSomeJob(s.workers, w) {
      DetachedExactly(actions, w);
    }
    if w :| w in s.detached && InSomeJob(s.workers, w) {
      DetachedExactly(actions, w);
      var i :| LetsGo(actions, i, w);
      assert LetsGo(actions, i, w) && InSomeJob(s.workers, w);
    }
  }

  ghost predicate JoinAlwaysEmpties(mayDetach: bool) {
    forall actions, k :: AboutToReturn(actions, k) && (mayDetach || NeverDetaches(actions)) ==>
      Apply(Exec(actions), Close(k, false)).runs.running == map[]
  }

  /** Nothing is running whenever a winning join returns: exactly in programs that never detach. */
  lemma JoinEmptiesExactly(mayDetach: bool)
    ensures JoinAlwaysEmpties(mayDetach) <==> !mayDetach
  {
    hide Exec;
    if mayDetach {
      var actions := DetachedOutlivesJoin();
      assert AboutToReturn(actions, 1);
      assert Apply(Exec(actions), Close(1, false)).runs == Exec(actions).runs;
    } else {
      forall actions, k | AboutToReturn(actions, k) && NeverDetaches(actions)
        ensures Apply(Exec(actions), Close(k, false)).runs.running == map[]
      {
        JoinLeavesNothingRunning(actions, k);
      }
    }
  }

  // ---- What a join cancels ----

  /** Action i is the step of a winning join or detach that clears the queue. */
  predicate Clears(actions: seq<Action>, i: nat) {
    && i < |actions| && actions[i].Close?
    && actions[i].closer in Exec(actions[..i]).closers && Exec(actions[..i]).closers[actions[i].closer].WonBoth?
  }

  /** Only jobs from the queue are taken, and jobs join it at its end. */
  lemma QueueStep(s: State, a: Action)
    requires QueueHolds(s.queue)
    ensures var p, q := s.queue, Apply(s, a).queue;
            && FirstQueued(p) <= FirstQueued(q) && p.added <= q.added
            && (forall j :: j in q.taken ==> j in p.taken || FirstQueued(p) <= j)
            && (forall j :: j in p.taken ==> j in q.taken)
  {
    hide AllExited, Begin, Finish;
    match a
    case StartPool(_) =>
    case Add(_) =>
    case Work(w) =>
      if w in s.workers {
        WorkQueue(s, w);
      }
    case Close(_, _) =>
  }

  lemma WorkQueue(s: State, w: nat)
    requires w in s.workers && QueueHolds(s.queue)
    ensures var p, q := s.queue, WorkStep(s, w).queue;
            q == p || (p.items != [] && q == Take(p) && p.items[0] == FirstQueued(p))
  {
    hide Begin, Finish, Take;
    match s.workers[w].stage
    case Looping =>
    case Waiting =>
    case Woken =>
    case Taking =>
    case Took(_) =>
    case Running(_) =>
    case Exited =>
  }

  lemma ClearedQueue(actions: seq<Action>, i: nat)
    requires Clears(actions, i)
    ensures var s, t := Exec(actions[..i]), Apply(Exec(actions[..i]), actions[i]);
            t.queue.items == [] && t.queue.added == s.queue.added && t.queue.taken == s.queue.taken
  {
    hide Exec;
  }

  /** Once the queue is cleared no job that was added before is taken any more. */
  lemma {:induction false} JoinCancels(actions: seq<Action>, i: nat, job: Job)
    requires Clears(actions, i) && job < Exec(actions[..i]).queue.added && job !in Exec(actions[..i]).queue.taken
    ensures job !in Exec(actions).queue.taken && job < FirstQueued(Exec(actions).queue)
    ensures job in Exec(actions).queue.discarded
    decreases |actions|
  {
    hide Exec, Apply, FirstQueued, Inv;
    var before, last := actions[..|actions| - 1], actions[|actions| - 1];
    QueueAlways(before);
    QueueAlways(actions);
    LastStep(actions);
    if i == |actions| - 1 {
      assert actions[..i] == before;
      ClearedQueue(actions, i);
      EmptyQueue(Exec(actions).queue, job);
    } else {
      assert before[..i] == actions[..i];
      assert Clears(before, i);
      JoinCancels(before, i, job);
      QueueStep(Exec(before), last);
    }
    hide Clears;
    LeftQueue(Exec(actions).queue, job);
  }

  lemma QueueAlways(actions: seq<Action>)
    ensures QueueHolds(Exec(actions).queue)
  {
    ExecInv(actions);
  }

  lemma EmptyQueue(q: Queue, job: Job)
    requires q.items == [] && job < q.added
    ensures job < FirstQueued(q)
  {
  }

  lemma LeftQueue(q: Queue, job: Job)
    requires QueueHolds(q) && job < FirstQueued(q) && job !in q.taken
    ensures job in q.discarded
  {
  }

  lemma LastStep(actions: seq<Action>)
    requires actions != []
    ensures Exec(actions) == Apply(Exec(actions[..|actions| - 1]), actions[|actions| - 1])
  {
  }

  // ---- What one worker does when it is left to run ----

  function Steps(s: State, w: nat, n: nat): State {
    if n == 0 then s else Apply(Steps(s, w, n - 1), Work(w))
  }

  /** How many steps a worker is from its exit while the pool is joining, at most. */
  function Rank(stage: Stage): nat {
    match stage
    case Exited => 0
    case Looping => 1
    case Woken => 1
    case Waiting => 2
    case Running(_) => 2
    case Took(_) => 3
    case Taking => 4
  }

  lemma StepLeaves(s: State, w: nat)
    requires w in s.workers && s.joining && !s.active
    ensures var t := Apply(s, Work(w));
            && w in t.workers && t.joining && !t.active
            && (if Rank(s.workers[w].stage) == 0 then Rank(t.workers[w].stage) == 0
                else Rank(t.workers[w].stage) < Rank(s.workers[w].stage))
  {
    hide Begin, Take, Finish;
  }

  lemma {:induction false} WorkerLeavesBy(s: State, w: nat, n: nat)
    requires w in s.workers && s.joining && !s.active
    ensures var t := Steps(s, w, n);
            && w in t.workers && t.joining && !t.active
            && Rank(t.workers[w].stage) <= if n < Rank(s.workers[w].stage) then Rank(s.workers[w].stage) - n else 0
    decreases n
  {
    hide Apply, Rank;
    if n != 0 {
      WorkerLeavesBy(s, w, n - 1);
      StepLeaves(Steps(s, w, n - 1), w);
    }
  }

  /** While a join or detach is joining, four steps bring any worker out of its loop, whatever it was doing:
      only a job can keep the join waiting. */
  lemma WorkerLeaves(s: State, w: nat)
    requires w in s.workers && s.joining && !s.active
    ensures w in Steps(s, w, 4).workers && Steps(s, w, 4).workers[w].stage == Exited
  {
    hide Apply, Steps;
    WorkerLeavesBy(s, w, 4);
  }

  /** The three steps of adding a job to an active pool. */
  lemma AddInThree(s: State, k: nat)
    requires s.active && k !in s.adders
    ensures Apply(Apply(Apply(s, Add(k)), Add(k)), Add(k)) == s.(queue := Enqueued(s.queue), newJobReady := true)
  {
    hide Enqueued;
    var s1 := s.(adders := s.adders[k := Checked]);
    assert Apply(s, Add(k)) == s1;
    var s2 := s1.(adders := s1.adders[k := Pushed], queue := Enqueued(s.queue));
    assert Apply(s1, Add(k)) == s2;
    assert s2.adders - {k} == s.adders;
  }

  /** A pool that is not active takes no job. */
  lemma IdleRefuses(s: State, k: nat)
    requires !s.active && k !in s.adders
    ensures Apply(s, Add(k)) == s
  {
  }

  /** Without a reason to wake up a worker waits. */
  lemma WorkerWaits(s: State, w: nat)
    requires w in s.workers && s.workers[w].stage == Waiting
    requires !s.joining && !s.newJobReady && s.runs.jobsDone <= s.workers[w].lastJobsDone
    ensures Apply(s, Work(w)) == s
  {
  }

  /** A pool that was started is not started again. */
  lemma StartedOnce(s: State, ids: set<nat>, more: set<nat>)
    requires !s.active && !s.joining && s.pool == {} && ids !! s.workers.Keys
    ensures var t := Apply(s, StartPool(ids));
            && t.active && t.pool == ids && Apply(t, StartPool(more)) == t
            && forall w :: w in ids ==> w in t.workers && t.workers[w] == Worker(Looping, s.runs.jobsDone)
  {
  }

  /** A waiting worker that is left to run wakes up for a new job, or because another was finished, runs the
      oldest job in the queue, and counts it. */
  lemma WaitingWorkerRuns(s: State, w: nat)
    requires s.active && !s.joining && s.queue.items != []
    requires w in s.workers && s.workers[w].stage == Waiting
    requires s.newJobReady || s.workers[w].lastJobsDone < s.runs.jobsDone
    ensures var t := Steps(s, w, 5);
            && t.queue == Take(s.queue) && !t.newJobReady
            && t.runs.done == s.runs.done + [s.queue.items[0]] && t.runs.jobsDone == s.runs.jobsDone + 1
            && w in t.workers && t.workers[w] == Worker(Looping, t.runs.jobsDone)
  {
    var job, last := s.queue.items[0], s.workers[w].lastJobsDone;
    var s1 := s.(workers := s.workers[w := Worker(Woken, last)]);
    assert Apply(s, Work(w)) == s1;
    var s2 := s1.(workers := s1.workers[w := Worker(Taking, last)]);
    assert Apply(s1, Work(w)) == s2;
    var s3 := s2.(workers := s2.workers[w := Worker(Took(job), last)], queue := Take(s.queue), runs := Begin(s.runs, job, w));
    assert Apply(s2, Work(w)) == s3;
    var s4 := s3.(workers := s3.workers[w := Worker(Running(job), last)], newJobReady := false);
    assert Apply(s3, Work(w)) == s4;
    hide Apply, Take;
    StepsByOne(s, w, s1, 0);
    StepsByOne(s, w, s2, 1);
    StepsByOne(s, w, s3, 2);
    StepsByOne(s, w, s4, 3);
    StepsByOne(s, w, Apply(s4, Work(w)), 4);
    JobEnds(s4, w, job);
  }

  lemma StepsByOne(s: State, w: nat, next: State, n: nat)
    requires Apply(Steps(s, w, n), Work(w)) == next
    ensures Steps(s, w, n + 1) == next && Steps(s, w, 0) == s
  {
  }

  lemma JobEnds(s: State, w: nat, job: Job)
    requires w in s.workers && s.workers[w].stage == Running(job)
    ensures var t := Apply(s, Work(w));
            t == s.(runs := Finish(s.runs, job), workers := s.workers[w := Worker(Looping, s.runs.jobsDone + 1)])
  {
  }

  /** A job added to an active pool with an empty queue and a waiting worker is run by it, and counted. */
  lemma AddedJobRuns(s: State, k: nat, w: nat)
    requires s.active && !s.joining && s.queue.items == [] && k !in s.adders
    requires w in s.workers && s.workers[w].stage == Waiting
    ensures var t := Steps(Apply(Apply(Apply(s, Add(k)), Add(k)), Add(k)), w, 5);
            && t.queue.added == s.queue.added + 1 && t.queue.items == []
            && t.runs.done == s.runs.done + [s.queue.added] && t.runs.jobsDone == s.runs.jobsDone + 1
  {
    AddInThree(s, k);
    var t := s.(queue := Enqueued(s.queue), newJobReady := true);
    assert t.queue.items == [s.queue.added];
    WaitingWorkerRuns(t, w);
    hide Apply, Steps;
  }

  /** A join or detach that finds the pool not active returns at once, and one that finds another at work
      returns without having touched the queue or the threads. */
  lemma LosingClose(s: State, k: nat, detach: bool)
    requires k !in s.closers
    ensures !s.active ==> Apply(s, Close(k, detach)) == s.(closers := s.closers[k := Returned(false)])
    ensures s.active && s.joining ==>
              Apply(Apply(s, Close(k, detach)), Close(k, detach))
              == s.(active := false, closers := s.closers[k := Returned(false)])
  {
    var t := s.closers[k := WonActive(detach)];
    assert t[k := Returned(false)] == s.closers[k := Returned(false)];
  }

  /** The first three steps of a winning join or detach. */
  lemma CloseInThree(s: State, k: nat, detach: bool)
    requires s.active && !s.joining && k !in s.closers
    ensures Apply(Apply(Apply(s, Close(k, detach)), Close(k, detach)), Close(k, detach))
         == s.(active := false, joining := true, queue := Discard(s.queue), closers := s.closers[k := Cleared(detach)])
  {
    hide Discard;
    var s1 := s.(active := false, closers := s.closers[k := WonActive(detach)]);
    assert Apply(s, Close(k, detach)) == s1;
    var s2 := s1.(joining := true, closers := s1.closers[k := WonBoth(detach)]);
    assert Apply(s1, Close(k, detach)) == s2;
    assert s2.closers[k := Cleared(detach)] == s.closers[k := Cleared(detach)];
  }

  /** And the last two: a join waits until all threads of the pool have ended, a detach lets them go; then
      the pool is empty and can be started again. */
  lemma CloseEnds(s: State, k: nat, detach: bool)
    requires k in s.closers && s.closers[k] == Cleared(detach)
    ensures if detach || AllExited(s.workers, s.pool) then
              Apply(Apply(s, Close(k, detach)), Close(k, detach))
              == s.(joining := false, pool := {}, closers := s.closers[k := Returned(true)],
                    detached := if detach then s.detached + s.pool else s.detached)
            else Apply(s, Close(k, detach)) == s
  {
    hide AllExited;
    var t := s.closers[k := ThreadsGone(detach)];
    assert t[k := Returned(true)] == s.closers[k := Returned(true)];
  }

  /** Only the worker of a step is changed by it, and neither the closers nor the pool. */
  ghost predicate OnlyWorker(s: State, t: State, w: nat) {
    && t.closers == s.closers && t.pool == s.pool && t.joining == s.joining && t.active == s.active
    && t.workers.Keys == s.workers.Keys && forall v :: v in s.workers && v != w ==> t.workers[v] == s.workers[v]
  }

  lemma WorkAlone(s: State, w: nat)
    requires w in s.workers
    ensures OnlyWorker(s, Apply(s, Work(w)), w)
  {
    WorkMovesWorkers(s, w);
    WorkersOf(s, w);
    hide WorkStep;
  }

  lemma WorkersOf(s: State, w: nat)
    requires w in s.workers
    ensures var t := WorkStep(s, w).workers; w in t && t == s.workers[w := t[w]]
  {
    hide Begin, Take, Finish;
    match s.workers[w].stage
    case Looping =>
    case Waiting => WorkerKept(s.workers, w);
    case Woken =>
    case Taking =>
    case Took(_) =>
    case Running(_) =>
    case Exited => WorkerKept(s.workers, w);
  }

  lemma WorkerKept(workers: map<nat, Worker>, w: nat)
    requires w in workers
    ensures workers[w := workers[w]] == workers
  {
  }

  lemma {:induction false} WorkerAlone(s: State, w: nat, n: nat)
    requires w in s.workers
    ensures OnlyWorker(s, Steps(s, w, n), w)
    decreases n
  {
    if n != 0 {
      hide Apply;
      WorkerAlone(s, w, n - 1);
      WorkAlone(Steps(s, w, n - 1), w);
    }
  }

  /** The workers run in turn, four steps each. */
  function AllRun(s: State, ws: seq<nat>): State
    decreases |ws|
  {
    if ws == [] then s else AllRun(Steps(s, ws[0], 4), ws[1..])
  }

  lemma {:induction false} AllLeave(s: State, ws: seq<nat>)
    requires s.joining && !s.active && forall w :: w in ws ==> w in s.workers
    ensures var t := AllRun(s, ws);
            && t.closers == s.closers && t.pool == s.pool && t.joining && t.workers.Keys == s.workers.Keys
            && (forall w :: w in ws ==> t.workers[w].stage == Exited)
            && forall w :: w in s.workers && s.workers[w].stage == Exited ==> t.workers[w].stage == Exited
    decreases |ws|
  {
    hide Steps, Apply;
    if ws != [] {
      WorkerLeaves(s, ws[0]);
      WorkerAlone(s, ws[0], 4);
      AllLeave(Steps(s, ws[0], 4), ws[1..]);
    }
  }

  /** A join that won returns as soon as every thread of the pool was given four steps. */
  lemma JoinReturns(s: State, k: nat, ws: seq<nat>)
    requires s.joining && !s.active && k in s.closers && s.closers[k] == Cleared(false)
    requires forall w :: w in ws ==> w in s.workers
    requires forall w :: w in s.pool ==> w in ws
    ensures var t := AllRun(s, ws);
            && AllExited(t.workers, t.pool)
            && Apply(Apply(t, Close(k, false)), Close(k, false))
               == t.(joining := false, pool := {}, closers := t.closers[k := Returned(true)])
  {
    hide AllRun, Apply;
    AllLeave(s, ws);
    CloseEnds(AllRun(s, ws), k, false);
  }
}

/**
 The thread pool as interleaved steps. One step is one call of a pthread or semaphore
 function, one access to the shared queue, or the run or deletion of a task; the steps of
 all workers and posters interleave in any order.
 */
module ThreadPool {
  import opened Common

  type Task = int

  /** Where a worker is in its endless loop. */
  datatype Worker =
    | Waiting              // about to call sem_wait
    | Passed               // sem_wait returned 0
    | Locked               // holds the queue lock, has not looked at the queue
    | Fetched(task: Option<Task>)  // holds the lock, queue accessed
    | Unlocked(task: Option<Task>) // lock released
    | Ran(done: Task)      // run() returned, task not deleted yet

  /** Where a call of postTask is. */
  datatype Poster =
    | Entered(task: Option<Task>)
    | PostLocked(own: Task)
    | Pushed              // holds the lock, task is in the queue
    | PostUnlocked        // about to call sem_post
    | Returned

  datatype Holder = Free | ByWorker(i: nat) | ByPoster(j: nat)

  datatype State = State(
    queue: seq<Task>,
    sem: nat,
    lock: Holder,
    workers: seq<Worker>,
    posters: seq<Poster>,
    pushed: seq<Task>,    // every task ever pushed, in push order
    popped: seq<Task>,    // every task ever popped, in pop order
    ran: multiset<Task>,
    deleted: multiset<Task>)

  predicate Init(s: State) {
    && s.queue == [] && s.sem == 0 && s.lock == Free
    && (forall i :: 0 <= i < |s.workers| ==> s.workers[i] == Waiting)
    && s.posters == [] && s.pushed == [] && s.popped == []
    && s.ran == multiset{} && s.deleted == multiset{}
  }

  datatype Event =
    | Call(task: Option<Task>)   // some thread calls postTask
    | WaitFails(i: nat)          // sem_wait returns an error
    | WorkerStep(i: nat)
    | PosterStep(j: nat)

  function SetWorker(s: State, i: nat, w: Worker): State
    requires i < |s.workers|
  {
    s.(workers := s.workers[i := w])
  }

  function SetPoster(s: State, j: nat, p: Poster): State
    requires j < |s.posters|
  {
    s.(posters := s.posters[j := p])
  }

  predicate Enabled(s: State, e: Event) {
    match e
    case Call(_) => true
    case WaitFails(i) => i < |s.workers| && s.workers[i].Waiting?
    case WorkerStep(i) =>
      i < |s.workers| &&
      (s.workers[i].Waiting? ==> s.sem > 0) && (s.workers[i].Passed? ==> s.lock == Free)
    case PosterStep(j) =>
      j < |s.posters| && !s.posters[j].Returned? &&
      (s.posters[j].Entered? && s.posters[j].task.Some? ==> s.lock == Free)
  }

  function Step(s: State, e: Event): State
    requires Enabled(s, e)
  {
    match e
    case Call(task) => s.(posters := s.posters + [Entered(task)])
    case WaitFails(i) => s
    case WorkerStep(i) => StepWorker(s, i)
    case PosterStep(j) => StepPoster(s, j)
  }

  function StepWorker(s: State, i: nat): (t: State)
    requires Enabled(s, WorkerStep(i))
    ensures |t.workers| == |s.workers| && t.posters == s.posters
  {
    match s.workers[i]
    case Waiting => SetWorker(s.(sem := s.sem - 1), i, Passed)
    case Passed => SetWorker(s.(lock := ByWorker(i)), i, Locked)
    case Locked =>
      if |s.queue| > 0 then
        SetWorker(s.(queue := s.queue[1..], popped := s.popped + [s.queue[0]]), i, Fetched(Some(s.queue[0])))
      else
        SetWorker(s, i, Fetched(None))
    case Fetched(task) => SetWorker(s.(lock := Free), i, Unlocked(task))
    case Unlocked(Some(t)) => SetWorker(s.(ran := s.ran + multiset{t}), i, Ran(t))
    case Unlocked(None) => SetWorker(s, i, Waiting)
    case Ran(t) => SetWorker(s.(deleted := s.deleted + multiset{t}), i, Waiting)
  }

  function StepPoster(s: State, j: nat): (t: State)
    requires Enabled(s, PosterStep(j))
    ensures |t.posters| == |s.posters| && t.workers == s.workers
  {
    match s.posters[j]
    case Entered(None) => SetPoster(s, j, Returned)
    case Entered(Some(t)) => SetPoster(s.(lock := ByPoster(j)), j, PostLocked(t))
    case PostLocked(t) => SetPoster(s.(queue := s.queue + [t], pushed := s.pushed + [t]), j, Pushed)
    case Pushed => SetPoster(s.(lock := Free), j, PostUnlocked)
    case PostUnlocked => SetPoster(s.(sem := s.sem + 1), j, Returned)
    case Returned => s
  }

  /** The states of an interleaving: from `s`, one event after the other. */
  ghost predicate IsRun(s: State, es: seq<Event>, t: State)
    decreases |es|
  {
    if es == [] then s == t
    else Enabled(s, es[0]) && IsRun(Step(s, es[0]), es[1..], t)
  }

  // ---- what every step keeps

  /** 1 for a worker that took a permit and has not popped yet. */
  function Owed(w: Worker): nat {
    if w.Passed? || w.Locked? then 1 else 0
  }

  /** 1 for a poster whose task is in the queue without its permit. */
  function Late(p: Poster): nat {
    if p.Pushed? || p.PostUnlocked? then 1 else 0
  }

  /** How often a worker holds task `x`, popped and not yet deleted. */
  function Held(w: Worker, x: Task): nat {
    match w
    case Fetched(Some(t)) => if t == x then 1 else 0
    case Unlocked(Some(t)) => if t == x then 1 else 0
    case Ran(t) => if t == x then 1 else 0
    case _ => 0
  }

  /** How often a worker holds task `x` and has not run it yet. */
  function Unrun(w: Worker, x: Task): nat {
    if w.Ran? then 0 else Held(w, x)
  }

  function Sum<X>(f: X -> nat, xs: seq<X>): nat {
    if xs == [] then 0 else Sum(f, xs[..|xs| - 1]) + f(xs[|xs| - 1])
  }

  function SumAt(f: (Worker, Task) -> nat, ws: seq<Worker>, x: Task): nat {
    if ws == [] then 0 else SumAt(f, ws[..|ws| - 1], x) + f(ws[|ws| - 1], x)
  }

  lemma {:induction false} SumUpdate<X>(f: X -> nat, xs: seq<X>, i: nat, x: X)
    requires i < |xs|
    ensures Sum(f, xs[i := x]) + f(xs[i]) == Sum(f, xs) + f(x)
  {
    var n := |xs| - 1;
    assert xs[i := x][..n] == if i < n then xs[..n][i := x] else xs[..n];
    if i < n { SumUpdate(f, xs[..n], i, x); }
  }

  lemma {:induction false} SumAtUpdate(f: (Worker, Task) -> nat, ws: seq<Worker>, i: nat, w: Worker, x: Task)
    requires i < |ws|
    ensures SumAt(f, ws[i := w], x) + f(ws[i], x) == SumAt(f, ws, x) + f(w, x)
  {
    var n := |ws| - 1;
    assert ws[i := w][..n] == if i < n then ws[..n][i := w] else ws[..n];
    if i < n { SumAtUpdate(f, ws[..n], i, w, x); }
  }

  lemma {:induction false} SumAtLeast<X>(f: X -> nat, xs: seq<X>, i: nat)
    requires i < |xs|
    ensures f(xs[i]) <= Sum(f, xs)
  {
    var n := |xs| - 1;
    if i < n { SumAtLeast(f, xs[..n], i); }
  }

  predicate InWorkerLock(w: Worker) { w.Locked? || w.Fetched? }
  predicate InPosterLock(p: Poster) { p.PostLocked? || p.Pushed? }

  /** Exactly the holder of the lock is inside a locked region. */
  ghost predicate MutualExclusion(s: State) {
    && (forall i :: 0 <= i < |s.workers| ==> (InWorkerLock(s.workers[i]) <==> s.lock == ByWorker(i)))
    && (forall j :: 0 <= j < |s.posters| ==> (InPosterLock(s.posters[j]) <==> s.lock == ByPoster(j)))
    && (s.lock.ByWorker? ==> s.lock.i < |s.workers|)
    && (s.lock.ByPoster? ==> s.lock.j < |s.posters|)
  }

  /** Queue length = permits + workers that took one and did not pop + posters that pushed and did not permit. */
  ghost predicate PermitsBalance(s: State) {
    |s.queue| == s.sem + Sum(Owed, s.workers) + Sum(Late, s.posters)
  }

  ghost predicate FifoOrder(s: State) {
    s.pushed == s.popped + s.queue
  }

  /** Every popped task is held by one worker or deleted; it is run before it is deleted. */
  ghost predicate TaskConserved(s: State, x: Task) {
    && multiset(s.popped)[x] == s.deleted[x] + SumAt(Held, s.workers, x)
    && multiset(s.popped)[x] == s.ran[x] + SumAt(Unrun, s.workers, x)
  }

  ghost predicate TasksConserved(s: State) {
    forall x :: TaskConserved(s, x)
  }

  ghost predicate NeverEmptyHanded(s: State) {
    forall i :: 0 <= i < |s.workers| ==>
      (s.workers[i].Fetched? || s.workers[i].Unlocked? ==> s.workers[i].task.Some?)
  }

  ghost predicate Inv(s: State) {
    MutualExclusion(s) && PermitsBalance(s) && FifoOrder(s) && TasksConserved(s) && NeverEmptyHanded(s)
  }

  lemma {:induction false} SumZero<X>(f: X -> nat, xs: seq<X>)
    requires forall i :: 0 <= i < |xs| ==> f(xs[i]) == 0
    ensures Sum(f, xs) == 0
  {
    if xs != [] { SumZero(f, xs[..|xs| - 1]); }
  }

  lemma {:induction false} SumAtZero(f: (Worker, Task) -> nat, ws: seq<Worker>, x: Task)
    requires forall i :: 0 <= i < |ws| ==> f(ws[i], x) == 0
    ensures SumAt(f, ws, x) == 0
  {
    if ws != [] { SumAtZero(f, ws[..|ws| - 1], x); }
  }

  lemma InitInv(s: State)
    requires Init(s)
    ensures Inv(s)
  {
    SumZero(Owed, s.workers);
    forall x ensures TaskConserved(s, x) {
      SumAtZero(Held, s.workers, x);
      SumAtZero(Unrun, s.workers, x);
    }
  }

  /** A worker that passed sem_wait and holds the lock finds the queue non-empty. */
  lemma PassedWorkerFindsTask(s: State, i: nat)
    requires Inv(s) && i < |s.workers| && (s.workers[i].Passed? || s.workers[i].Locked?)
    ensures s.queue != []
  {
    SumAtLeast(Owed, s.workers, i);
  }

  lemma WorkerStepKeepsMutex(s: State, i: nat)
    requires Inv(s) && Enabled(s, WorkerStep(i)) && (s.workers[i].Locked? ==> s.queue != [])
    ensures MutualExclusion(StepWorker(s, i))
  {
    hide PermitsBalance, FifoOrder, TasksConserved;
  }

  lemma WorkerStepKeepsFifo(s: State, i: nat)
    requires Inv(s) && Enabled(s, WorkerStep(i)) && (s.workers[i].Locked? ==> s.queue != [])
    ensures NeverEmptyHanded(StepWorker(s, i)) && FifoOrder(StepWorker(s, i))
  {
    hide PermitsBalance, MutualExclusion, TasksConserved;
    if s.workers[i].Locked? {
      assert s.queue == [s.queue[0]] + s.queue[1..];
    }
  }

  lemma WorkerStepKeepsBalance(s: State, i: nat)
    requires Inv(s) && Enabled(s, WorkerStep(i))
    ensures PermitsBalance(StepWorker(s, i))
  {
    if s.workers[i].Locked? { PassedWorkerFindsTask(s, i); }
    WorkerStepCounts(s, i);
    SumUpdate(Owed, s.workers, i, StepWorker(s, i).workers[i]);
  }

  lemma WorkerStepCounts(s: State, i: nat)
    requires Enabled(s, WorkerStep(i)) && (s.workers[i].Locked? ==> s.queue != [])
    requires s.workers[i].Unlocked? ==> s.workers[i].task.Some?
    ensures var t := StepWorker(s, i);
            |t.queue| - t.sem - Owed(t.workers[i]) == |s.queue| - s.sem - Owed(s.workers[i]) &&
            6 * t.sem + WorkerWork(t.workers[i]) == 6 * s.sem + WorkerWork(s.workers[i]) - 1 &&
            t.workers == s.workers[i := t.workers[i]] && t.posters == s.posters
  {
    match s.workers[i] {
      case Waiting =>
      case Locked =>
      case _ =>
    }
  }

  /** What a step of worker `i` pops and deletes, task by task. */
  lemma WorkerStepDeletes(s: State, i: nat, x: Task)
    requires Enabled(s, WorkerStep(i)) && (s.workers[i].Locked? ==> s.queue != [])
    ensures var t := StepWorker(s, i); var (w, w2) := (s.workers[i], t.workers[i]);
            multiset(t.popped)[x] - t.deleted[x] - Held(w2, x) == multiset(s.popped)[x] - s.deleted[x] - Held(w, x)
  {
    match s.workers[i] {
      case Locked => PoppedOne(s.popped, s.queue[0]);
      case Unlocked(Some(t)) =>
      case Ran(t) =>
      case _ =>
    }
  }

  /** What it pops and has run. */
  lemma WorkerStepRuns(s: State, i: nat, x: Task)
    requires Enabled(s, WorkerStep(i)) && (s.workers[i].Locked? ==> s.queue != [])
    ensures var t := StepWorker(s, i); var (w, w2) := (s.workers[i], t.workers[i]);
            multiset(t.popped)[x] - t.ran[x] - Unrun(w2, x) == multiset(s.popped)[x] - s.ran[x] - Unrun(w, x)
  {
    match s.workers[i] {
      case Locked => PoppedOne(s.popped, s.queue[0]);
      case Unlocked(Some(t)) =>
      case Ran(t) =>
      case _ =>
    }
  }

  lemma PoppedOne(popped: seq<Task>, q: Task)
    ensures multiset(popped + [q]) == multiset(popped)[q := multiset(popped)[q] + 1]
  {
  }

  lemma OnlyWorkerChanges(s: State, i: nat)
    requires Enabled(s, WorkerStep(i))
    ensures StepWorker(s, i).workers == s.workers[i := StepWorker(s, i).workers[i]]
  {
  }

  lemma WorkerStepKeepsTask(s: State, i: nat, x: Task)
    requires Enabled(s, WorkerStep(i)) && (s.workers[i].Locked? ==> s.queue != []) && TaskConserved(s, x)
    ensures TaskConserved(StepWorker(s, i), x)
  {
    hide StepWorker, Held, Unrun;
    WorkerStepDeletes(s, i, x);
    WorkerStepRuns(s, i, x);
    OnlyWorkerChanges(s, i);
    var t := StepWorker(s, i);
    SumAtUpdate(Held, s.workers, i, t.workers[i], x);
    SumAtUpdate(Unrun, s.workers, i, t.workers[i], x);
  }

  lemma WorkerStepKeepsTasks(s: State, i: nat)
    requires Inv(s) && Enabled(s, WorkerStep(i)) && (s.workers[i].Locked? ==> s.queue != [])
    ensures TasksConserved(StepWorker(s, i))
  {
    forall x ensures TaskConserved(StepWorker(s, i), x) {
      assert TaskConserved(s, x);
      WorkerStepKeepsTask(s, i, x);
    }
  }

  lemma PosterStepKeepsInv(s: State, j: nat)
    requires Inv(s) && Enabled(s, PosterStep(j))
    ensures Inv(StepPoster(s, j))
  {
    PosterStepKeepsBalance(s, j);
    PosterStepKeepsMutex(s, j);
    forall x ensures TaskConserved(StepPoster(s, j), x) { assert TaskConserved(s, x); }
    hide PermitsBalance, MutualExclusion;
  }

  lemma PosterStepKeepsBalance(s: State, j: nat)
    requires PermitsBalance(s) && Enabled(s, PosterStep(j))
    ensures PermitsBalance(StepPoster(s, j))
  {
    SumUpdate(Late, s.posters, j, StepPoster(s, j).posters[j]);
  }

  lemma PosterStepKeepsMutex(s: State, j: nat)
    requires MutualExclusion(s) && Enabled(s, PosterStep(j))
    ensures MutualExclusion(StepPoster(s, j))
  {
  }

  lemma CallKeepsInv(s: State, task: Option<Task>)
    requires Inv(s)
    ensures Inv(Step(s, Call(task)))
  {
    hide MutualExclusion, PermitsBalance;
    var t := s.(posters := s.posters + [Entered(task)]);
    CallKeepsMutex(s, t, task);
    CallKeepsBalance(s, t, task);
    forall x ensures TaskConserved(t, x) { assert TaskConserved(s, x); }
  }

  lemma CallKeepsMutex(s: State, t: State, task: Option<Task>)
    requires MutualExclusion(s) && t == s.(posters := s.posters + [Entered(task)])
    ensures MutualExclusion(t)
  {
  }

  lemma CallKeepsBalance(s: State, t: State, task: Option<Task>)
    requires PermitsBalance(s) && t == s.(posters := s.posters + [Entered(task)])
    ensures PermitsBalance(t)
  {
    assert t.posters[..|s.posters|] == s.posters;
    assert Sum(Late, t.posters) == Sum(Late, s.posters);
  }

  lemma WorkerStepKeepsInv(s: State, i: nat)
    requires Inv(s) && Enabled(s, WorkerStep(i))
    ensures Inv(StepWorker(s, i))
  {
    hide StepWorker, MutualExclusion, FifoOrder, TasksConserved, PermitsBalance, NeverEmptyHanded;
    if s.workers[i].Locked? { PassedWorkerFindsTask(s, i); }
    WorkerStepKeepsMutex(s, i);
    WorkerStepKeepsFifo(s, i);
    WorkerStepKeepsBalance(s, i);
    WorkerStepKeepsTasks(s, i);
  }

  lemma StepKeepsInv(s: State, e: Event)
    requires Inv(s) && Enabled(s, e)
    ensures Inv(Step(s, e))
  {
    hide Inv, StepWorker, StepPoster;
    match e
    case Call(task) => CallKeepsInv(s, task);
    case WaitFails(_) =>
    case WorkerStep(i) => WorkerStepKeepsInv(s, i);
    case PosterStep(j) => PosterStepKeepsInv(s, j);
  }

  lemma {:induction false} RunKeepsInv(s: State, es: seq<Event>, t: State)
    requires Inv(s) && IsRun(s, es, t)
    ensures Inv(t)
    decreases |es|
  {
    if es != [] {
      StepKeepsInv(s, es[0]);
      RunKeepsInv(Step(s, es[0]), es[1..], t);
    }
  }

  // ---- what is pushed is what postTask was given

  /** The tasks that postTask was called with. */
  function TasksCalled(es: seq<Event>): multiset<Task>
    decreases |es|
  {
    if es == [] then multiset{}
    else (if es[0].Call? && es[0].task.Some? then multiset{es[0].task.value} else multiset{}) + TasksCalled(es[1..])
  }

  /** What each call of postTask was given, in the order of the calls. */
  function Calls(es: seq<Event>): seq<Option<Task>>
    decreases |es|
  {
    if es == [] then [] else OneCall(es[0]) + Calls(es[1..])
  }

  /** The task that a call still has to push. */
  function Unpushed(p: Poster): multiset<Task> {
    match p
    case Entered(Some(t)) => multiset{t}
    case PostLocked(t) => multiset{t}
    case _ => multiset{}
  }

  function AllUnpushed(ps: seq<Poster>): multiset<Task> {
    if ps == [] then multiset{} else AllUnpushed(ps[..|ps| - 1]) + Unpushed(ps[|ps| - 1])
  }

  lemma Carry(a: multiset<Task>, b: multiset<Task>, c: multiset<Task>, d: multiset<Task>, x: multiset<Task>)
    requires a + b == c + d
    ensures a + x + b == c + x + d
  {
    assert a + x + b == (a + b) + x && c + x + d == (c + d) + x;
  }

  /** What moves from one multiset to another stays in their sum. */
  lemma Moved(a: multiset<Task>, b: multiset<Task>, a2: multiset<Task>, b2: multiset<Task>, o: multiset<Task>,
    n: multiset<Task>)
    requires a2 + n == a + o && b2 + o == b + n
    ensures a2 + b2 == a + b
  {
    forall x ensures (a2 + b2)[x] == (a + b)[x] {
      assert (a2 + n)[x] == (a + o)[x] && (b2 + o)[x] == (b + n)[x];
    }
  }

  lemma {:induction false} UnpushedUpdate(ps: seq<Poster>, j: nat, p: Poster)
    requires j < |ps|
    ensures AllUnpushed(ps[j := p]) + Unpushed(ps[j]) == AllUnpushed(ps) + Unpushed(p)
  {
    hide Unpushed;
    var n := |ps| - 1;
    assert ps[j := p][..n] == if j < n then ps[..n][j := p] else ps[..n];
    if j < n {
      UnpushedUpdate(ps[..n], j, p);
      Carry(AllUnpushed(ps[..n][j := p]), Unpushed(ps[j]), AllUnpushed(ps[..n]), Unpushed(p), Unpushed(ps[n]));
    }
  }

  /** What a step pushes is taken from the calls, and only a call adds to them. */
  lemma StepAccounts(s: State, e: Event)
    requires Enabled(s, e)
    ensures multiset(Step(s, e).pushed) + AllUnpushed(Step(s, e).posters) ==
            multiset(s.pushed) + AllUnpushed(s.posters) + TasksCalled([e])
  {
    hide StepWorker, StepPoster;
    assert [e][1..] == [] && TasksCalled([]) == multiset{};
    match e
    case Call(task) => assert (s.posters + [Entered(task)])[..|s.posters|] == s.posters;
    case WaitFails(_) =>
    case WorkerStep(i) => WorkerPushesNothing(s, i);
    case PosterStep(j) =>
      var t := StepPoster(s, j);
      PosterPushesOwn(s, j);
      UnpushedUpdate(s.posters, j, t.posters[j]);
      Moved(multiset(s.pushed), AllUnpushed(s.posters), multiset(t.pushed), AllUnpushed(t.posters),
        Unpushed(s.posters[j]), Unpushed(t.posters[j]));
  }

  lemma WorkerPushesNothing(s: State, i: nat)
    requires Enabled(s, WorkerStep(i))
    ensures StepWorker(s, i).pushed == s.pushed && StepWorker(s, i).posters == s.posters
  {
  }

  lemma PosterPushesOwn(s: State, j: nat)
    requires Enabled(s, PosterStep(j))
    ensures var t := StepPoster(s, j);
            t.posters == s.posters[j := t.posters[j]] &&
            multiset(t.pushed) + Unpushed(t.posters[j]) == multiset(s.pushed) + Unpushed(s.posters[j])
  {
  }

  lemma {:induction false} RunAccounts(s: State, es: seq<Event>, t: State)
    requires IsRun(s, es, t)
    ensures multiset(t.pushed) + AllUnpushed(t.posters) ==
            multiset(s.pushed) + AllUnpushed(s.posters) + TasksCalled(es)
    decreases |es|
  {
    hide Enabled, Step, AllUnpushed;
    if es != [] {
      StepAccounts(s, es[0]);
      RunAccounts(Step(s, es[0]), es[1..], t);
      assert [es[0]][1..] == [] && TasksCalled([es[0]]) + TasksCalled(es[1..]) == TasksCalled(es);
    }
  }

  /** In every run the tasks given to postTask are those pushed and those that a call still has to push. */
  lemma CalledIsPushedOrPending(s: State, es: seq<Event>, t: State)
    requires Init(s) && IsRun(s, es, t)
    ensures TasksCalled(es) == multiset(t.pushed) + AllUnpushed(t.posters)
    ensures multiset(t.pushed) <= TasksCalled(es)
  {
    RunAccounts(s, es, t);
  }

  /** Until it has pushed it, a call holds the task that it was given. */
  predicate HoldsOwn(p: Poster, c: Option<Task>) {
    match p
    case Entered(task) => task == c
    case PostLocked(own) => Some(own) == c
    case _ => true
  }

  ghost predicate AllHoldOwn(s: State, cs: seq<Option<Task>>) {
    |s.posters| == |cs| && forall j :: 0 <= j < |cs| ==> HoldsOwn(s.posters[j], cs[j])
  }

  function OneCall(e: Event): seq<Option<Task>> {
    if e.Call? then [e.task] else []
  }

  lemma StepHoldsOwn(s: State, cs: seq<Option<Task>>, e: Event)
    requires AllHoldOwn(s, cs) && Enabled(s, e)
    ensures AllHoldOwn(Step(s, e), cs + OneCall(e))
  {
    hide StepWorker, StepPoster;
    if e.Call? {
      assert HoldsOwn(Entered(e.task), e.task);
    } else {
      assert cs + OneCall(e) == cs;
      if e.PosterStep? { PosterHoldsOwn(s, e.j, cs[e.j]); }
    }
  }

  lemma PosterHoldsOwn(s: State, j: nat, c: Option<Task>)
    requires Enabled(s, PosterStep(j)) && HoldsOwn(s.posters[j], c)
    ensures var t := StepPoster(s, j); t.posters == s.posters[j := t.posters[j]] && HoldsOwn(t.posters[j], c)
  {
  }

  lemma {:induction false} RunHoldsOwn(s: State, cs: seq<Option<Task>>, es: seq<Event>, t: State)
    requires AllHoldOwn(s, cs) && IsRun(s, es, t)
    ensures AllHoldOwn(t, cs + Calls(es))
    decreases |es|
  {
    hide AllHoldOwn, Enabled, Step, Calls, OneCall;
    CallsStep(cs, es);
    if es != [] {
      StepHoldsOwn(s, cs, es[0]);
      RunHoldsOwn(Step(s, es[0]), cs + OneCall(es[0]), es[1..], t);
    }
  }

  lemma CallsStep(cs: seq<Option<Task>>, es: seq<Event>)
    ensures cs + Calls(es) == if es == [] then cs else cs + OneCall(es[0]) + Calls(es[1..])
  {
  }

  /** In every run, whatever a step of the call number `j` pushes is the task that this call was given. */
  lemma PushesOwnTask(s: State, es: seq<Event>, t: State, j: nat)
    requires Init(s) && IsRun(s, es, t) && Enabled(t, PosterStep(j))
    ensures |Calls(es)| == |t.posters|
    ensures var u := Step(t, PosterStep(j));
            if t.posters[j].PostLocked? then
              Calls(es)[j].Some? && u.pushed == t.pushed + [Calls(es)[j].value] &&
                u.queue == t.queue + [Calls(es)[j].value]
            else u.pushed == t.pushed && u.queue == t.queue
  {
    RunHoldsOwn(s, [], es, t);
    assert [] + Calls(es) == Calls(es);
    assert HoldsOwn(t.posters[j], Calls(es)[j]);
  }

  // ---- runs

  lemma {:induction false} HeldCoversUnrun(ws: seq<Worker>, x: Task)
    ensures SumAt(Unrun, ws, x) <= SumAt(Held, ws, x)
  {
    if ws != [] { HeldCoversUnrun(ws[..|ws| - 1], x); }
  }

  lemma BoundedByPushed(t: State)
    requires FifoOrder(t) && TasksConserved(t)
    ensures t.deleted <= t.ran <= multiset(t.pushed)
  {
    forall x: Task ensures t.deleted[x] <= t.ran[x] <= multiset(t.popped)[x] {
      assert TaskConserved(t, x);
      HeldCoversUnrun(t.workers, x);
    }
    assert multiset(t.popped + t.queue) == multiset(t.popped) + multiset(t.queue);
  }

  /**
   Whatever the interleaving: tasks leave the queue in push order, and no task is deleted
   more often than it was run, or run more often than it was pushed, or pushed more often
   than postTask was called with it.
   */
  lemma FifoAndAtMostOnce(s: State, es: seq<Event>, t: State)
    requires Init(s) && IsRun(s, es, t)
    ensures t.pushed == t.popped + t.queue
    ensures t.deleted <= t.ran <= multiset(t.pushed) <= TasksCalled(es)
    ensures |t.queue| == t.sem + Sum(Owed, t.workers) + Sum(Late, t.posters)
    ensures forall i :: 0 <= i < |t.workers| && t.workers[i].Locked? ==> t.queue != []
  {
    InitInv(s);
    RunKeepsInv(s, es, t);
    BoundedByPushed(t);
    CalledIsPushedOrPending(s, es, t);
    forall i | 0 <= i < |t.workers| && t.workers[i].Locked? ensures t.queue != [] {
      PassedWorkerFindsTask(t, i);
    }
  }

  /** Steps a worker, a poster or a permit still has in it. */
  function WorkerWork(w: Worker): nat {
    match w
    case Waiting => 0
    case Passed => 5
    case Locked => 4
    case Fetched(_) => 3
    case Unlocked(_) => 2
    case Ran(_) => 1
  }

  function PosterWork(p: Poster): nat {
    match p
    case Entered(Some(_)) => 10
    case Entered(None) => 1
    case PostLocked(_) => 9
    case Pushed => 8
    case PostUnlocked => 7
    case Returned => 0
  }

  function Work(s: State): nat {
    6 * s.sem + Sum(WorkerWork, s.workers) + Sum(PosterWork, s.posters)
  }

  predicate IsProgress(e: Event) {
    e.WorkerStep? || e.PosterStep?
  }

  lemma WorkerStepUsesOneUnit(s: State, i: nat)
    requires Inv(s) && Enabled(s, WorkerStep(i))
    ensures Work(StepWorker(s, i)) == Work(s) - 1
  {
    if s.workers[i].Locked? { PassedWorkerFindsTask(s, i); }
    WorkerStepCounts(s, i);
    SumUpdate(WorkerWork, s.workers, i, StepWorker(s, i).workers[i]);
  }

  lemma PosterStepUsesOneUnit(s: State, j: nat)
    requires Enabled(s, PosterStep(j))
    ensures Work(StepPoster(s, j)) == Work(s) - 1
  {
    SumUpdate(PosterWork, s.posters, j, StepPoster(s, j).posters[j]);
  }

  lemma ProgressUsesOneUnit(s: State, e: Event)
    requires Inv(s) && Enabled(s, e) && IsProgress(e)
    ensures Work(Step(s, e)) == Work(s) - 1
  {
    match e
    case WorkerStep(i) => WorkerStepUsesOneUnit(s, i);
    case PosterStep(j) => PosterStepUsesOneUnit(s, j);
  }

  ghost predicate Quiet(s: State) {
    forall e: Event :: IsProgress(e) ==> !Enabled(s, e)
  }

  /** With no further calls and no failing sem_wait, a run from `s` takes exactly the work it uses up. */
  lemma {:induction false} RunLength(s: State, es: seq<Event>, t: State)
    requires Inv(s) && IsRun(s, es, t)
    requires forall k :: 0 <= k < |es| ==> IsProgress(es[k])
    ensures Inv(t) && |es| + Work(t) == Work(s)
    decreases |es|
  {
    if es != [] {
      ProgressUsesOneUnit(s, es[0]);
      StepKeepsInv(s, es[0]);
      RunLength(Step(s, es[0]), es[1..], t);
    }
  }

  /** As long as there is work left somebody can step: the pool cannot deadlock. */
  lemma QuietMeansIdle(s: State)
    requires Inv(s) && s.workers != [] && Quiet(s)
    ensures s.lock == Free && s.sem == 0
    ensures forall i :: 0 <= i < |s.workers| ==> s.workers[i] == Waiting
    ensures forall j :: 0 <= j < |s.posters| ==> s.posters[j] == Returned
  {
    assert s.lock.ByWorker? ==> Enabled(s, WorkerStep(s.lock.i));
    assert s.lock.ByPoster? ==> Enabled(s, PosterStep(s.lock.j));
    forall j | 0 <= j < |s.posters| ensures s.posters[j] == Returned {
      assert !Enabled(s, PosterStep(j));
    }
    forall i | 0 <= i < |s.workers| ensures s.workers[i] == Waiting {
      assert !Enabled(s, WorkerStep(i));
    }
    assert !Enabled(s, WorkerStep(0));
  }

  /**
   A pool with at least one worker comes to rest exactly when no work is left, and then
   the queue is empty and every task ever pushed has been run and deleted.
   */
  lemma QuietIffNoWork(s: State)
    requires Inv(s) && s.workers != []
    ensures Quiet(s) <==> Work(s) == 0
    ensures Quiet(s) ==> s.queue == [] && s.ran == s.deleted == multiset(s.pushed)
  {
    if Quiet(s) {
      QuietMeansIdle(s);
      SumZero(WorkerWork, s.workers);
      SumZero(PosterWork, s.posters);
      SumZero(Owed, s.workers);
      SumZero(Late, s.posters);
      assert s.queue == [] && s.popped + s.queue == s.popped;
      forall x: Task ensures s.deleted[x] == s.ran[x] == multiset(s.popped)[x] {
        assert TaskConserved(s, x);
        SumAtZero(Held, s.workers, x);
        SumAtZero(Unrun, s.workers, x);
      }
    }
    if Work(s) == 0 {
      forall e: Event | IsProgress(e) ensures !Enabled(s, e) {
        if Enabled(s, e) { ProgressUsesOneUnit(s, e); }
      }
    }
  }

  lemma {:induction false} NoneUnpushed(ps: seq<Poster>)
    requires forall j :: 0 <= j < |ps| ==> ps[j] == Returned
    ensures AllUnpushed(ps) == multiset{}
  {
    if ps != [] { NoneUnpushed(ps[..|ps| - 1]); }
  }

  lemma {:induction false} ProgressCallsNothing(es: seq<Event>)
    requires forall k :: 0 <= k < |es| ==> IsProgress(es[k])
    ensures TasksCalled(es) == multiset{}
    decreases |es|
  {
    if es != [] { ProgressCallsNothing(es[1..]); }
  }

  lemma QuietMeansAllPushed(t: State)
    requires Inv(t) && t.workers != [] && Quiet(t)
    ensures AllUnpushed(t.posters) == multiset{}
  {
    hide Inv, Quiet;
    QuietMeansIdle(t);
    NoneUnpushed(t.posters);
  }

  lemma PushedIsCalled(s: State, before: seq<Event>, m: State, es: seq<Event>, t: State)
    requires Init(s) && IsRun(s, before, m) && IsRun(m, es, t)
    requires AllUnpushed(t.posters) == multiset{} && forall k :: 0 <= k < |es| ==> IsProgress(es[k])
    ensures multiset(t.pushed) == TasksCalled(before)
  {
    hide Init, IsRun, AllUnpushed, TasksCalled;
    CalledIsPushedOrPending(s, before, m);
    RunAccounts(m, es, t);
    ProgressCallsNothing(es);
    assert multiset(t.pushed) == multiset(t.pushed) + AllUnpushed(t.posters);
  }

  /**
   Every complete run without new calls ends after exactly `Work(m)` steps, and then the tasks run, and
   the tasks deleted, are the ones that postTask was called with.
   */
  lemma AllTasksComplete(s: State, before: seq<Event>, m: State, es: seq<Event>, t: State)
    requires Init(s) && s.workers != [] && IsRun(s, before, m)
    requires IsRun(m, es, t) && Quiet(t)
    requires forall k :: 0 <= k < |es| ==> IsProgress(es[k])
    ensures |es| == Work(m)
    ensures t.queue == [] && t.ran == t.deleted == multiset(t.pushed) == TasksCalled(before)
  {
    hide Init, Inv, IsRun, Work, AllUnpushed, TasksCalled, Quiet;
    InitInv(s);
    RunKeepsInv(s, before, m);
    RunLength(m, es, t);
    WorkersStay(s, before, m);
    WorkersStay(m, es, t);
    QuietIffNoWork(t);
    QuietMeansAllPushed(t);
    PushedIsCalled(s, before, m, es, t);
  }

  lemma {:induction false} WorkersStay(s: State, es: seq<Event>, t: State)
    requires IsRun(s, es, t)
    ensures |t.workers| == |s.workers|
    decreases |es|
  {
    if es != [] { WorkersStay(Step(s, es[0]), es[1..], t); }
  }

  lemma RunFrom(s: State, e: Event, es: seq<Event>, t: State)
    requires Enabled(s, e) && IsRun(Step(s, e), es, t)
    ensures IsRun(s, [e] + es, t)
  {
    assert ([e] + es)[1..] == es;
  }

  /** Nothing has ever been taken from the queue. */
  ghost predicate Untouched(s: State) {
    s.workers == [] && s.popped == [] && s.queue == s.pushed && s.ran == s.deleted == multiset{}
  }

  lemma {:induction false} UntouchedRun(s: State, es: seq<Event>, t: State)
    requires Untouched(s) && IsRun(s, es, t)
    ensures Untouched(t)
    decreases |es|
  {
    if es != [] {
      assert Untouched(Step(s, es[0]));
      UntouchedRun(Step(s, es[0]), es[1..], t);
    }
  }

  /** Without a worker every pushed task stays queued for ever, in every run, and none is run. */
  lemma NoWorkersKeepEveryTask(s: State, es: seq<Event>, t: State)
    requires Init(s) && s.workers == [] && IsRun(s, es, t)
    ensures t.popped == [] && t.queue == t.pushed && t.ran == t.deleted == multiset{}
  {
    UntouchedRun(s, es, t);
  }

  /** Without a worker the pool comes to rest with a task still queued: the condition above is needed. */
  lemma NoWorkersNoProgress(s: State, t: Task)
    requires Init(s) && s.workers == []
    ensures exists r: State, es: seq<Event> :: IsRun(s, es, r) && Quiet(r) && r.queue == [t]
  {
    var p := PosterStep(0);
    var s1 := Step(s, Call(Some(t)));
    var s2 := StepPoster(s1, 0);
    var s3 := StepPoster(s2, 0);
    var s4 := StepPoster(s3, 0);
    var s5 := StepPoster(s4, 0);
    assert s5.queue == [t] && Quiet(s5);
    assert IsRun(s5, [], s5);
    hide IsRun, Quiet;
    RunFrom(s4, p, [], s5);
    RunFrom(s3, p, [p] + [], s5);
    RunFrom(s2, p, [p] + ([p] + []), s5);
    RunFrom(s1, p, [p] + ([p] + ([p] + [])), s5);
    RunFrom(s, Call(Some(t)), [p] + ([p] + ([p] + ([p] + []))), s5);
  }
}

/** bio.c: one queue of background jobs, any number of threads that create jobs or ask how many are pending, and
    the worker, stepping in any interleaving around a mutex and a condition variable. */
module Bio {
  import opened Keyspace

  /** A list node: what it asks for, and which node it is. */
  datatype Job = Job(id: nat, what: int)

  datatype Thread = Worker | Client(id: nat)

  /** Where a client is: in bioCreateBackgroundJob, in bioPendingJobsOfType, or in neither. */
  datatype ClientPc =
    | Idle
    | WantAdd(what: int)
    | Adding(what: int)
    | Added
    | Counted
    | Signalled
    | WantRead
    | Reading
    | HasRead(val: int)

  /** Where the worker is in bioProcessBackgroundJobs. */
  datatype WorkerPc =
    | Start
    | Top
    | Waiting
    | Woken
    | Popped(ln: Job)
    | Running(ln: Job)
    | Ran(ln: Job)
    | Deleting(ln: Job)
    | Deleted

  datatype State = State(
    holder: Option<Thread>,
    worker: WorkerPc,
    clients: map<nat, ClientPc>,
    jobs: seq<Job>,
    pending: int,
    created: seq<Job>,
    executed: seq<Job>)

  function Pc(s: State, i: nat): ClientPc {
    if i in s.clients then s.clients[i] else Idle
  }

  function At(s: State, i: nat, pc: ClientPc): State {
    s.(clients := s.clients[i := pc])
  }

  const INIT := State(None, Start, map[], [], 0, [], [])

  // ---------- The steps ----------

  datatype Step =
    | Create(i: nat, what: int)
    | Ask(i: nat)
    | Lock(i: nat)
    | AddTail(i: nat)
    | Count(i: nat)
    | Signal(i: nat)
    | Unlock(i: nat)
    | ReadPending(i: nat)
    | Wake
    | WorkerLock
    | Look
    | WorkerUnlock
    | Process
    | Delete
    | Uncount

  predicate Enabled(s: State, e: Step) {
    match e
    case Create(i, _) => Pc(s, i).Idle?
    case Ask(i) => Pc(s, i).Idle?
    case Lock(i) => s.holder.None? && (Pc(s, i).WantAdd? || Pc(s, i).WantRead?)
    case AddTail(i) => Pc(s, i).Adding?
    case Count(i) => Pc(s, i).Added?
    case Signal(i) => Pc(s, i).Counted?
    case Unlock(i) => Pc(s, i).Signalled? || Pc(s, i).HasRead?
    case ReadPending(i) => Pc(s, i).Reading?
    case Wake => s.worker.Waiting?
    case WorkerLock => s.holder.None? && (s.worker.Start? || s.worker.Woken? || s.worker.Ran?)
    case Look => s.worker.Top?
    case WorkerUnlock => s.worker.Popped?
    case Process => s.worker.Running?
    case Delete => s.worker.Deleting?
    case Uncount => s.worker.Deleted?
  }

  /** listDelNode: unlinks that very node, wherever it is in the list. */
  function Unlink(jobs: seq<Job>, ln: Job): seq<Job> {
    if jobs == [] then [] else if jobs[0] == ln then jobs[1..] else [jobs[0]] + Unlink(jobs[1..], ln)
  }

  function Next(s: State, e: Step): State
    requires Enabled(s, e)
  {
    match e
    case Create(i, what) => At(s, i, WantAdd(what))
    case Ask(i) => At(s, i, WantRead)
    case Lock(i) =>
      At(s, i, if Pc(s, i).WantAdd? then Adding(Pc(s, i).what) else Reading).(holder := Some(Client(i)))
    case AddTail(i) =>
      var job := Job(|s.created|, Pc(s, i).what);
      At(s, i, Added).(jobs := s.jobs + [job], created := s.created + [job])
    case Count(i) => At(s, i, Counted).(pending := s.pending + 1)
    case Signal(i) => At(s, i, Signalled).(worker := if s.worker.Waiting? then Woken else s.worker)
    case Unlock(i) => At(s, i, Idle).(holder := None)
    case ReadPending(i) => At(s, i, HasRead(s.pending))
    // pthread_cond_wait may return without a signal
    case Wake => s.(worker := Woken)
    case WorkerLock => s.(holder := Some(Worker), worker := if s.worker.Ran? then Deleting(s.worker.ln) else Top)
    case Look =>
      if s.jobs == [] then s.(holder := None, worker := Waiting) else s.(worker := Popped(s.jobs[0]))
    case WorkerUnlock => s.(holder := None, worker := Running(s.worker.ln))
    case Process => s.(executed := s.executed + [s.worker.ln], worker := Ran(s.worker.ln))
    case Delete => s.(jobs := Unlink(s.jobs, s.worker.ln), worker := Deleted)
    case Uncount => s.(pending := s.pending - 1, worker := Top)
  }

  /** One step that can be taken. */
  ghost predicate Goes(s: State, e: Step, t: State) {
    Enabled(s, e) && t == Next(s, e)
  }

  /** A client alone gets its job into the queue: from idle, with the mutex free, it can take all its steps, and
      then what it asked for stands as a new node at the end of the list, counted, with the mutex free again and a
      waiting worker woken. */
  lemma ClientCanAdd(s: State, i: nat, what: int) returns (a: State, b: State, c: State, d: State, e: State, f: State)
    requires Pc(s, i).Idle? && s.holder.None?
    ensures Goes(s, Create(i, what), a) && Goes(a, Lock(i), b) && Goes(b, AddTail(i), c)
    ensures Goes(c, Count(i), d) && Goes(d, Signal(i), e) && Goes(e, Unlock(i), f)
    ensures |f.created| == |s.created| + 1 && f.created[..|s.created|] == s.created
    ensures f.created[|s.created|].what == what && f.jobs == s.jobs + [f.created[|s.created|]]
    ensures f.pending == s.pending + 1 && f.holder.None? && f.executed == s.executed && Pc(f, i).Idle?
    ensures f.worker == if s.worker.Waiting? then Woken else s.worker
    ensures forall j :: j != i ==> Pc(f, j) == Pc(s, j)
  {
    a := Next(s, Create(i, what));
    b := Next(a, Lock(i));
    c := Next(b, AddTail(i));
    d := Next(c, Count(i));
    e := Next(d, Signal(i));
    f := Next(e, Unlock(i));
  }

  /** And it can read the counter, changing nothing. */
  lemma ClientCanRead(s: State, i: nat) returns (a: State, b: State, c: State, d: State)
    requires Pc(s, i).Idle? && s.holder.None?
    ensures Goes(s, Ask(i), a) && Goes(a, Lock(i), b) && Goes(b, ReadPending(i), c) && Goes(c, Unlock(i), d)
    ensures Pc(c, i) == HasRead(s.pending) && d == s.(clients := s.clients[i := Idle])
  {
    a := Next(s, Ask(i));
    b := Next(a, Lock(i));
    c := Next(b, ReadPending(i));
    d := Next(c, Unlock(i));
  }

  /** A client that wants to add keeps wanting the same, whatever the others do. */
  lemma AskIsKept(s: State, e: Step, i: nat)
    requires Enabled(s, e) && (Pc(s, i).WantAdd? || Pc(s, i).Adding?) && e != Lock(i) && e != AddTail(i)
    ensures Pc(Next(s, e), i) == Pc(s, i)
  {
  }

  // ---------- The invariant ----------

  predicate Critical(pc: ClientPc) {
    pc.Adding? || pc.Added? || pc.Counted? || pc.Signalled? || pc.Reading? || pc.HasRead?
  }

  predicate WorkerCritical(pc: WorkerPc) {
    pc.Top? || pc.Popped? || pc.Deleting? || pc.Deleted?
  }

  /** A client has put a job into the list but not yet counted it. */
  predicate Uncounted(s: State) {
    s.holder.Some? && s.holder.value.Client? && Pc(s, s.holder.value.id).Added?
  }

  /** A client has put a job into the list but not yet signalled it. */
  predicate Unsignalled(s: State) {
    s.holder.Some? && s.holder.value.Client? &&
    (Pc(s, s.holder.value.id).Added? || Pc(s, s.holder.value.id).Counted?)
  }

  /** The jobs not yet executed. */
  function Left(s: State): seq<Job> {
    if (s.worker.Ran? || s.worker.Deleting?) && s.jobs != [] then s.jobs[1..] else s.jobs
  }

  ghost predicate MutualExclusion(s: State) {
    (forall i: nat :: Critical(Pc(s, i)) <==> s.holder == Some(Client(i))) &&
    (WorkerCritical(s.worker) <==> s.holder == Some(Worker))
  }

  predicate Numbered(jobs: seq<Job>) {
    forall k :: 0 <= k < |jobs| ==> jobs[k].id == k
  }

  ghost predicate Inv(s: State) {
    MutualExclusion(s) && Numbered(s.created) &&
    s.executed + Left(s) == s.created &&
    s.pending == |s.jobs| - (if Uncounted(s) then 1 else 0) + (if s.worker.Deleted? then 1 else 0) &&
    (s.worker.Popped? || s.worker.Running? || s.worker.Ran? || s.worker.Deleting? ==>
      s.jobs != [] && s.jobs[0] == s.worker.ln) &&
    (s.worker.Waiting? ==> s.jobs == [] || Unsignalled(s))
  }

  lemma InitHolds()
    ensures Inv(INIT)
  {
  }

  predicate ByClient(e: Step) {
    e.Create? || e.Ask? || e.Lock? || e.AddTail? || e.Count? || e.Signal? || e.Unlock? || e.ReadPending?
  }

  lemma ClientStepKeeps(s: State, e: Step)
    requires Inv(s) && Enabled(s, e) && ByClient(e)
    ensures Inv(Next(s, e))
  {
    var t := Next(s, e);
    assert forall i: nat :: Critical(Pc(s, i)) <==> s.holder == Some(Client(i));
    if e.AddTail? {
      assert s.executed + (Left(s) + [Job(|s.created|, Pc(s, e.i).what)]) == t.created;
    }
  }

  lemma WorkerStepKeeps(s: State, e: Step)
    requires Inv(s) && Enabled(s, e) && !ByClient(e)
    ensures Inv(Next(s, e))
  {
    assert forall i: nat :: Critical(Pc(s, i)) <==> s.holder == Some(Client(i));
    if e.Process? {
      assert (s.executed + [s.jobs[0]]) + s.jobs[1..] == s.executed + s.jobs;
    }
  }

  /** Every step of every thread keeps the invariant. */
  lemma StepKeeps(s: State, e: Step)
    requires Inv(s) && Enabled(s, e)
    ensures Inv(Next(s, e))
  {
    hide Inv, Next, Enabled;
    if ByClient(e) {
      ClientStepKeeps(s, e);
    } else {
      WorkerStepKeeps(s, e);
    }
  }

  // ---------- Runs ----------

  predicate IsRun(states: seq<State>, steps: seq<Step>) {
    |states| == |steps| + 1 && states[0] == INIT &&
    forall k :: 0 <= k < |steps| ==> Enabled(states[k], steps[k]) && states[k + 1] == Next(states[k], steps[k])
  }

  lemma {:induction false} RunKeeps(states: seq<State>, steps: seq<Step>, n: nat)
    requires IsRun(states, steps) && n <= |steps|
    ensures Inv(states[n])
    decreases n
  {
    hide Inv, Next, Enabled;
    if n == 0 {
      InitHolds();
    } else {
      RunKeeps(states, steps, n - 1);
      StepKeeps(states[n - 1], steps[n - 1]);
    }
  }

  /** In every reachable state the executed jobs are the oldest of the created ones, in order and each once, and no
      two created jobs are the same. */
  lemma EachJobOnceInOrder(states: seq<State>, steps: seq<Step>, n: nat)
    requires IsRun(states, steps) && n <= |steps|
    ensures states[n].executed <= states[n].created
    ensures forall k, m :: 0 <= k < m < |states[n].created| ==> states[n].created[k] != states[n].created[m]
  {
    hide Next, Enabled;
    RunKeeps(states, steps, n);
  }

  /** Whenever the mutex is free, the counter is the length of the queue, and a worker that waits has nothing to do:
      no wake-up is ever lost. */
  lemma FreeMeansCounted(states: seq<State>, steps: seq<Step>, n: nat)
    requires IsRun(states, steps) && n <= |steps| && states[n].holder.None?
    ensures states[n].pending == |states[n].jobs|
    ensures states[n].worker.Waiting? ==> states[n].jobs == [] && states[n].executed == states[n].created
  {
    hide Next, Enabled;
    RunKeeps(states, steps, n);
  }

  lemma {:induction false} ExecutedGrows(states: seq<State>, steps: seq<Step>, m: nat, n: nat)
    requires IsRun(states, steps) && m <= n <= |steps|
    ensures states[m].executed <= states[n].executed
    decreases n
  {
    hide Inv;
    if m < n {
      ExecutedGrows(states, steps, m, n - 1);
      assert states[n] == Next(states[n - 1], steps[n - 1]);
    }
  }

  /** A thread that reads 0 knows that every job created before has been executed by then, and it stays so. */
  lemma ZeroMeansDone(states: seq<State>, steps: seq<Step>, m: nat, n: nat, i: nat)
    requires IsRun(states, steps) && m < n <= |steps|
    requires steps[m] == ReadPending(i) && Pc(states[m + 1], i) == HasRead(0)
    ensures states[m].executed == states[m].created
    ensures states[m].created <= states[n].executed
  {
    RunKeeps(states, steps, m);
    assert Enabled(states[m], steps[m]) && states[m + 1] == Next(states[m], steps[m]);
    assert states[m].holder == Some(Client(i));
    ExecutedGrows(states, steps, m, n);
  }

  /** A reading is the number of jobs not finished, counting the one the worker is busy with until it has been
      taken off the list. */
  lemma ReadingIsUnfinished(states: seq<State>, steps: seq<Step>, m: nat, i: nat)
    requires IsRun(states, steps) && m < |steps| && steps[m] == ReadPending(i)
    ensures Pc(states[m + 1], i) == HasRead(|states[m].jobs|)
    ensures |states[m].created| - |states[m].executed| <= |states[m].jobs| <= |states[m].created| - |states[m].executed| + 1
  {
    RunKeeps(states, steps, m);
    assert Enabled(states[m], steps[m]) && states[m + 1] == Next(states[m], steps[m]);
    assert states[m].holder == Some(Client(i));
  }

  // ---------- Progress ----------

  /** The worker's next step, if it has one. */
  function WorkerStep(s: State): Option<Step> {
    match s.worker
    case Start => Some(WorkerLock)
    case Top => Some(Look)
    case Waiting => None
    case Woken => Some(WorkerLock)
    case Popped(_) => Some(WorkerUnlock)
    case Running(_) => Some(Process)
    case Ran(_) => Some(WorkerLock)
    case Deleting(_) => Some(Delete)
    case Deleted => Some(Uncount)
  }

  /** No client is inside a critical section. */
  predicate Quiet(s: State) {
    s.holder.None? || s.holder == Some(Worker)
  }

  /** Bounds the steps the worker still has to take. */
  function StepsLeft(s: State): nat {
    7 * |Left(s)| +
    match s.worker
    case Waiting => 0
    case Running(_) => 1
    case Popped(_) => 2
    case Top => 3
    case Start => 4
    case Woken => 4
    case Deleted => 4
    case Deleting(_) => 5
    case Ran(_) => 6
  }

  lemma WorkerMoves(s: State)
    requires Inv(s) && Quiet(s)
    ensures WorkerStep(s).None? ==> s.jobs == [] && s.pending == 0 && s.executed == s.created
    ensures WorkerStep(s).Some? ==>
      Enabled(s, WorkerStep(s).value) &&
      var t := Next(s, WorkerStep(s).value);
      Inv(t) && Quiet(t) && StepsLeft(t) < StepsLeft(s) && t.created == s.created
  {
    if WorkerStep(s).Some? {
      StepKeeps(s, WorkerStep(s).value);
    }
  }

  /** The worker stepping alone until it waits. */
  ghost function Drained(s: State): State
    requires Inv(s) && Quiet(s)
    decreases StepsLeft(s)
  {
    WorkerMoves(s);
    if WorkerStep(s).None? then s else Drained(Next(s, WorkerStep(s).value))
  }

  /** Whenever no client is in the way, the worker can always move, and left alone it executes everything that has
      been created before it waits again. */
  lemma {:induction false} WorkerCatchesUp(s: State)
    requires Inv(s) && Quiet(s)
    ensures var d := Drained(s);
            d.worker.Waiting? && d.jobs == [] && d.pending == 0 && d.executed == s.created == d.created
    decreases StepsLeft(s)
  {
    hide Inv, Quiet, Next, Enabled, StepsLeft;
    WorkerMoves(s);
    if WorkerStep(s).Some? {
      WorkerCatchesUp(Next(s, WorkerStep(s).value));
    }
  }

  lemma QueueAlwaysEmpties(states: seq<State>, steps: seq<Step>, n: nat)
    requires IsRun(states, steps) && n <= |steps| && Quiet(states[n])
    ensures Inv(states[n]) && Drained(states[n]).executed == states[n].created && Drained(states[n]).worker.Waiting?
  {
    hide Inv, Quiet;
    RunKeeps(states, steps, n);
    WorkerCatchesUp(states[n]);
  }
}

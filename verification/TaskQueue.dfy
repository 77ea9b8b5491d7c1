/**
  The task-queue example: a dispatcher, a pool of workers, a dead-letter collector and a
  metrics actor that exchange messages. Mailboxes may deliver in any order; sends never
  fail. Integer arithmetic is that of a release build, where `max_retries + 1` wraps.
*/
module TaskQueue {
  import opened Numbers
  import opened Wrappers

  datatype ToDispatcher =
    | SetPool
    | SubmitTask(id: string, payload: string, maxRetries: U32)
    | TaskCompleted(id: string, result: string)
    | TaskFailed(id: string, payload: string, error: string, attempt: U32, maxRetries: U32)

  datatype ProcessTask = ProcessTask(id: string, payload: string, attempt: U32, maxRetries: U32)

  /** `maxRetries` is that of the failed task; the message itself carries the other fields. */
  datatype DeadTask = DeadTask(id: string, payload: string, error: string, attempts: U32, maxRetries: U32)

  /** What the collector keeps of a dead task. */
  datatype CollectedTask = CollectedTask(id: string, error: string, attempts: U32)

  datatype MetricEvent = Submitted | Completed | Retried | DeadLettered

  /** What the dispatcher has done, for the record. */
  datatype Entry =
    | TookOn(id: string)
    | Finished(id: string)
    | Again(id: string)
    | GaveUp(task: DeadTask)
    | Lost(id: string)

  datatype System = System(
    poolAttached: bool,
    dispatcher: seq<ToDispatcher>,
    workers: seq<ProcessTask>,
    collector: seq<DeadTask>,
    metrics: seq<MetricEvent>,
    submitted: nat,
    completed: nat,
    retried: nat,
    deadLettered: nat,
    collected: seq<CollectedTask>,
    log: seq<Entry>)

  const Empty: System := System(false, [], [], [], [], 0, 0, 0, 0, [], [])

  // ----- The work -----

  function SimulateTask(payload: string, attempt: U32): Result<string, string> {
    if "easy:" <= payload then Ok("processed-" + payload[5..])
    else if "hard:" <= payload then
      if attempt <= 1 then Err("transient error") else Ok("recovered-" + payload[5..])
    else if "impossible:" <= payload then Err("permanent failure")
    else Ok("done-" + payload)
  }

  // ----- The handlers, on values -----

  function WrappingSuccessor(n: U32): U32 {
    (n + 1) % U32_RANGE
  }

  function ToPool(s: System, t: ProcessTask): System {
    if s.poolAttached then s.(workers := s.workers + [t]) else s.(log := s.log + [Lost(t.id)])
  }

  function Record(s: System, e: MetricEvent, entry: Entry): System {
    s.(metrics := s.metrics + [e], log := s.log + [entry])
  }

  function DispatcherHandles(s: System, m: ToDispatcher): System {
    match m
    case SetPool => s.(poolAttached := true)
    case SubmitTask(id, payload, maxRetries) =>
      ToPool(Record(s, Submitted, TookOn(id)), ProcessTask(id, payload, 1, maxRetries))
    case TaskCompleted(id, _) => Record(s, Completed, Finished(id))
    case TaskFailed(id, payload, error, attempt, maxRetries) =>
      if attempt < WrappingSuccessor(maxRetries) then
        ToPool(Record(s, Retried, Again(id)), ProcessTask(id, payload, attempt + 1, maxRetries))
      else
        var dead := DeadTask(id, payload, error, attempt, maxRetries);
        var s' := Record(s, DeadLettered, GaveUp(dead));
        s'.(collector := s'.collector + [dead])
  }

  function WorkerHandles(s: System, t: ProcessTask): System {
    match SimulateTask(t.payload, t.attempt)
    case Ok(result) => s.(dispatcher := s.dispatcher + [TaskCompleted(t.id, result)])
    case Err(error) => s.(dispatcher := s.dispatcher + [TaskFailed(t.id, t.payload, error, t.attempt, t.maxRetries)])
  }

  function MetricsHandles(s: System, e: MetricEvent): System {
    match e
    case Submitted => s.(submitted := s.submitted + 1)
    case Completed => s.(completed := s.completed + 1)
    case Retried => s.(retried := s.retried + 1)
    case DeadLettered => s.(deadLettered := s.deadLettered + 1)
  }

  function AsCollected(d: DeadTask): CollectedTask {
    CollectedTask(d.id, d.error, d.attempts)
  }

  function CollectorHandles(s: System, d: DeadTask): System {
    s.(collected := s.collected + [AsCollected(d)])
  }

  // ----- The actors -----

  /** The mailboxes and fields of the four kinds of actors, with each handler as a method. */
  class TaskActors {
    var poolAttached: bool
    var dispatcher: seq<ToDispatcher>
    var workers: seq<ProcessTask>
    var collector: seq<DeadTask>
    var metrics: seq<MetricEvent>
    var submitted: nat
    var completed: nat
    var retried: nat
    var deadLettered: nat
    var collected: seq<CollectedTask>
    ghost var log: seq<Entry>

    ghost function State(): System
      reads this
    {
      System(poolAttached, dispatcher, workers, collector, metrics,
             submitted, completed, retried, deadLettered, collected, log)
    }

    constructor ()
      ensures State() == Empty
    {
      poolAttached, dispatcher, workers, collector, metrics := false, [], [], [], [];
      submitted, completed, retried, deadLettered, collected, log := 0, 0, 0, 0, [], [];
    }

    method HandleSetPool(m: ToDispatcher)
      requires m.SetPool?
      modifies this
      ensures State() == DispatcherHandles(old(State()), m)
    {
      poolAttached := true;
    }

    method HandleSubmitTask(m: ToDispatcher)
      requires m.SubmitTask?
      modifies this
      ensures State() == DispatcherHandles(old(State()), m)
    {
      metrics := metrics + [Submitted];
      log := log + [TookOn(m.id)];
      TellPool(ProcessTask(m.id, m.payload, 1, m.maxRetries));
    }

    method TellPool(t: ProcessTask)
      modifies this
      ensures State() == ToPool(old(State()), t)
    {
      if poolAttached {
        workers := workers + [t];
      } else {
        log := log + [Lost(t.id)];
      }
    }

    method HandleTaskCompleted(m: ToDispatcher)
      requires m.TaskCompleted?
      modifies this
      ensures State() == DispatcherHandles(old(State()), m)
    {
      metrics := metrics + [Completed];
      log := log + [Finished(m.id)];
    }

    method HandleTaskFailed(m: ToDispatcher)
      requires m.TaskFailed?
      modifies this
      ensures State() == DispatcherHandles(old(State()), m)
    {
      var limit := (m.maxRetries + 1) % U32_RANGE;
      if m.attempt < limit {
        metrics := metrics + [Retried];
        log := log + [Again(m.id)];
        TellPool(ProcessTask(m.id, m.payload, m.attempt + 1, m.maxRetries));
      } else {
        metrics := metrics + [DeadLettered];
        var dead := DeadTask(m.id, m.payload, m.error, m.attempt, m.maxRetries);
        log := log + [GaveUp(dead)];
        collector := collector + [dead];
      }
    }

    method HandleProcessTask(t: ProcessTask)
      modifies this
      ensures State() == WorkerHandles(old(State()), t)
    {
      match SimulateTask(t.payload, t.attempt) {
        case Ok(result) =>
          dispatcher := dispatcher + [TaskCompleted(t.id, result)];
        case Err(error) =>
          dispatcher := dispatcher + [TaskFailed(t.id, t.payload, error, t.attempt, t.maxRetries)];
      }
    }

    method HandleDeadTask(d: DeadTask)
      modifies this
      ensures State() == CollectorHandles(old(State()), d)
      ensures collected == old(collected) + [CollectedTask(d.id, d.error, d.attempts)]
    {
      collected := collected + [CollectedTask(d.id, d.error, d.attempts)];
    }

    method HandleRecordMetric(e: MetricEvent)
      modifies this
      ensures State() == MetricsHandles(old(State()), e)
    {
      match e {
        case Submitted => submitted := submitted + 1;
        case Completed => completed := completed + 1;
        case Retried => retried := retried + 1;
        case DeadLettered => deadLettered := deadLettered + 1;
      }
    }
  }
}

/** The retry protocol over every run: conservation, attempt limits, outcomes and termination. */
module TaskQueueRuns {
  import opened Numbers
  import opened Sequences
  import opened Wrappers
  import opened TaskQueue

  // ----- Runs -----

  /** A client sends, or one waiting message, at any index of its mailbox, is handled. */
  datatype Step =
    | ClientSends(message: ToDispatcher)
    | AtDispatcher(i: nat)
    | AtWorker(i: nat)
    | AtCollector(i: nat)
    | AtMetrics(i: nat)

  /** Clients send submissions and the pool; a delivery needs a message to deliver. */
  predicate Enabled(s: System, step: Step) {
    match step
    case ClientSends(m) => m.SubmitTask? || m.SetPool?
    case AtDispatcher(i) => i < |s.dispatcher|
    case AtWorker(i) => i < |s.workers|
    case AtCollector(i) => i < |s.collector|
    case AtMetrics(i) => i < |s.metrics|
  }

  function AfterStep(s: System, step: Step): System
    requires Enabled(s, step)
  {
    match step
    case ClientSends(m) => s.(dispatcher := s.dispatcher + [m])
    case AtDispatcher(i) => DispatcherHandles(s.(dispatcher := RemoveAt(s.dispatcher, i)), s.dispatcher[i])
    case AtWorker(i) => WorkerHandles(s.(workers := RemoveAt(s.workers, i)), s.workers[i])
    case AtCollector(i) => CollectorHandles(s.(collector := RemoveAt(s.collector, i)), s.collector[i])
    case AtMetrics(i) => MetricsHandles(s.(metrics := RemoveAt(s.metrics, i)), s.metrics[i])
  }

  /** `states` is a run from `states[0]` by `steps`. */
  ghost predicate IsRun(states: seq<System>, steps: seq<Step>) {
    && |states| == |steps| + 1
    && forall i :: 0 <= i < |steps| ==> Enabled(states[i], steps[i]) && states[i + 1] == AfterStep(states[i], steps[i])
  }

  // ----- Sums over mailboxes -----

  function Sum<T>(f: T -> nat, s: seq<T>): nat {
    if s == [] then 0 else f(s[0]) + Sum(f, s[1..])
  }

  lemma NothingToSum<T>(f: T -> nat)
    ensures Sum(f, []) == 0
  {
  }

  lemma {:induction false} SumConcat<T>(f: T -> nat, a: seq<T>, b: seq<T>)
    ensures Sum(f, a + b) == Sum(f, a) + Sum(f, b)
  {
    if a == [] {
      ConcatNothing(b);
    } else {
      SumConcat(f, a[1..], b);
      TailOfConcat(a, b);
    }
  }

  lemma SumAppend<T>(f: T -> nat, s: seq<T>, x: T)
    ensures Sum(f, s + [x]) == Sum(f, s) + f(x)
  {
    SumConcat(f, s, [x]);
    assert [x][1..] == [];
  }

  lemma SumRemove<T>(f: T -> nat, s: seq<T>, i: nat)
    requires i < |s|
    ensures Sum(f, s) == Sum(f, RemoveAt(s, i)) + f(s[i])
  {
    var before, rest := s[..i], s[i + 1..];
    SplitAt(s, i);
    SumConcat(f, before, s[i..]);
    SumConcat(f, before, rest);
    assert Sum(f, s[i..]) == f(s[i]) + Sum(f, rest) by { assert s[i..][0] == s[i] && s[i..][1..] == rest; }
    hide Sum;
  }

  // ----- What is counted -----

  function One(b: bool): nat { if b then 1 else 0 }

  function TakenOn(who: iset<string>): Entry -> nat { (e: Entry) => One(e.TookOn? && e.id in who) }

  /** Entries that end a task: finished, given up, or lost for want of a pool. */
  function Ended(who: iset<string>): Entry -> nat {
    (e: Entry) => One(((e.Finished? || e.Lost?) && e.id in who) || (e.GaveUp? && e.task.id in who))
  }

  function Reports(who: iset<string>): ToDispatcher -> nat {
    (m: ToDispatcher) => One((m.TaskCompleted? || m.TaskFailed?) && m.id in who)
  }

  function Tasks(who: iset<string>): ProcessTask -> nat { (t: ProcessTask) => One(t.id in who) }

  /** The attempts and reports, of the tasks whose id is in `who`, that are on their way. */
  function InFlight(s: System, who: iset<string>): nat {
    Sum(Reports(who), s.dispatcher) + Sum(Tasks(who), s.workers)
  }

  /** Every task taken on has ended once or is in flight once. */
  ghost predicate Conserved(s: System, who: iset<string>) {
    Sum(TakenOn(who), s.log) == Sum(Ended(who), s.log) + InFlight(s, who)
  }

  lemma RecordCounts(s: System, e: MetricEvent, entry: Entry, who: iset<string>)
    ensures var s' := Record(s, e, entry);
            && Sum(TakenOn(who), s'.log) == Sum(TakenOn(who), s.log) + TakenOn(who)(entry)
            && Sum(Ended(who), s'.log) == Sum(Ended(who), s.log) + Ended(who)(entry)
            && InFlight(s', who) == InFlight(s, who)
  {
    SumAppend(TakenOn(who), s.log, entry);
    SumAppend(Ended(who), s.log, entry);
    hide Sum;
  }

  lemma ToPoolCounts(s: System, t: ProcessTask, who: iset<string>)
    ensures var s' := ToPool(s, t);
            && Sum(TakenOn(who), s'.log) == Sum(TakenOn(who), s.log)
            && Sum(Ended(who), s'.log) + InFlight(s', who)
               == Sum(Ended(who), s.log) + InFlight(s, who) + One(t.id in who)
  {
    SumAppend(TakenOn(who), s.log, Lost(t.id));
    SumAppend(Ended(who), s.log, Lost(t.id));
    SumAppend(Tasks(who), s.workers, t);
    hide Sum;
  }

  /** Handling a message takes its own report away and accounts for what it becomes. */
  lemma DispatcherConserves(s: System, m: ToDispatcher, who: iset<string>)
    requires Sum(TakenOn(who), s.log) == Sum(Ended(who), s.log) + InFlight(s, who) + Reports(who)(m)
    ensures Conserved(DispatcherHandles(s, m), who)
  {
    hide Sum, ToPool, Record;
    match m
    case SetPool =>
    case SubmitTask(i, payload, maxRetries) =>
      RecordCounts(s, Submitted, TookOn(i), who);
      ToPoolCounts(Record(s, Submitted, TookOn(i)), ProcessTask(i, payload, 1, maxRetries), who);
    case TaskCompleted(i, _) =>
      RecordCounts(s, Completed, Finished(i), who);
    case TaskFailed(i, payload, error, attempt, maxRetries) =>
      if attempt < WrappingSuccessor(maxRetries) {
        RecordCounts(s, Retried, Again(i), who);
        ToPoolCounts(Record(s, Retried, Again(i)), ProcessTask(i, payload, attempt + 1, maxRetries), who);
      } else {
        RecordCounts(s, DeadLettered, GaveUp(DeadTask(i, payload, error, attempt, maxRetries)), who);
      }
  }

  lemma StepConserves(s: System, step: Step, who: iset<string>)
    requires Enabled(s, step) && Conserved(s, who)
    ensures Conserved(AfterStep(s, step), who)
  {
    hide Sum, WorkerHandles;
    match step
    case ClientSends(m) =>
      SumAppend(Reports(who), s.dispatcher, m);
    case AtDispatcher(i) =>
      SumRemove(Reports(who), s.dispatcher, i);
      hide DispatcherHandles;
      DispatcherConserves(s.(dispatcher := RemoveAt(s.dispatcher, i)), s.dispatcher[i], who);
    case AtWorker(i) =>
      WorkerConserves(s, i, who);
    case AtCollector(i) =>
    case AtMetrics(i) =>
  }

  lemma WorkerConserves(s: System, i: nat, who: iset<string>)
    requires i < |s.workers| && Conserved(s, who)
    ensures Conserved(AfterStep(s, AtWorker(i)), who)
  {
    var t := s.workers[i];
    SumRemove(Tasks(who), s.workers, i);
    var outcome := SimulateTask(t.payload, t.attempt);
    if outcome.Ok? {
      SumAppend(Reports(who), s.dispatcher, TaskCompleted(t.id, outcome.value));
    } else {
      SumAppend(Reports(who), s.dispatcher, TaskFailed(t.id, t.payload, outcome.error, t.attempt, t.maxRetries));
    }
  }

  // ----- Attempts -----

  /** The attempts a task gets: max_retries + 1, or a single one when that wraps to zero. */
  function AttemptLimit(maxRetries: U32): (n: nat)
    ensures 1 <= n < U32_RANGE
    ensures n == maxRetries + 1 <==> maxRetries != U32_RANGE - 1
  {
    if WrappingSuccessor(maxRetries) == 0 then 1 else WrappingSuccessor(maxRetries)
  }

  /** The first `n` attempts at the payload all fail. */
  predicate FailsUpTo(payload: string, n: nat) {
    forall k: U32 :: 1 <= k <= n ==> SimulateTask(payload, k).Err?
  }

  predicate GoodTask(t: ProcessTask) {
    1 <= t.attempt <= AttemptLimit(t.maxRetries) && FailsUpTo(t.payload, t.attempt - 1)
  }

  predicate GoodReport(m: ToDispatcher) {
    m.TaskFailed? ==> 1 <= m.attempt <= AttemptLimit(m.maxRetries) && FailsUpTo(m.payload, m.attempt)
  }

  predicate GoodDead(d: DeadTask) {
    d.attempts == AttemptLimit(d.maxRetries) && FailsUpTo(d.payload, d.attempts)
  }

  ghost predicate AttemptsInv(s: System) {
    && (forall i :: 0 <= i < |s.workers| ==> GoodTask(s.workers[i]))
    && (forall i :: 0 <= i < |s.dispatcher| ==> GoodReport(s.dispatcher[i]))
    && (forall i :: 0 <= i < |s.log| ==> (s.log[i].GaveUp? ==> GoodDead(s.log[i].task)))
    && (s.poolAttached || (s.workers == [] && forall i :: 0 <= i < |s.dispatcher| ==> !s.dispatcher[i].TaskFailed?))
  }

  lemma DispatcherKeepsAttempts(s: System, m: ToDispatcher)
    requires AttemptsInv(s) && GoodReport(m) && (m.TaskFailed? ==> s.poolAttached)
    ensures AttemptsInv(DispatcherHandles(s, m))
  {
    hide FailsUpTo;
    if m.SubmitTask? { NothingFailedYet(m.payload); }
  }

  lemma NothingFailedYet(payload: string)
    ensures FailsUpTo(payload, 0)
  {
  }

  lemma WorkerKeepsAttempts(s: System, t: ProcessTask)
    requires AttemptsInv(s) && GoodTask(t) && s.poolAttached
    ensures AttemptsInv(WorkerHandles(s, t))
  {
    var outcome := SimulateTask(t.payload, t.attempt);
    if outcome.Err? {
      assert FailsUpTo(t.payload, t.attempt);
    }
    hide FailsUpTo;
  }

  lemma StepKeepsAttempts(s: System, step: Step)
    requires Enabled(s, step) && AttemptsInv(s)
    ensures AttemptsInv(AfterStep(s, step))
  {
    hide DispatcherHandles, WorkerHandles, FailsUpTo;
    match step
    case AtDispatcher(i) => DispatcherKeepsAttempts(s.(dispatcher := RemoveAt(s.dispatcher, i)), s.dispatcher[i]);
    case AtWorker(i) => WorkerKeepsAttempts(s.(workers := RemoveAt(s.workers, i)), s.workers[i]);
    case _ =>
  }

  // ----- Safety over runs -----

  /** The last of a run's first `n` steps. */
  lemma StepOfRun(states: seq<System>, steps: seq<Step>, n: nat)
    requires IsRun(states, steps) && 0 < n <= |steps|
    ensures |states| == |steps| + 1
    ensures Enabled(states[n - 1], steps[n - 1]) && states[n] == AfterStep(states[n - 1], steps[n - 1])
  {
    hide Enabled, AfterStep;
    assert states[n - 1 + 1] == AfterStep(states[n - 1], steps[n - 1]);
  }

  lemma {:induction false} RunKeepsInvariants(states: seq<System>, steps: seq<Step>, n: nat, who: iset<string>)
    requires IsRun(states, steps) && states[0] == Empty && n <= |steps|
    ensures Conserved(states[n], who) && AttemptsInv(states[n])
  {
    hide *;
    if n == 0 {
      EmptyIsConserved(who);
    } else {
      StepOfRun(states, steps, n);
      RunKeepsInvariants(states, steps, n - 1, who);
      StepConserves(states[n - 1], steps[n - 1], who);
      StepKeepsAttempts(states[n - 1], steps[n - 1]);
    }
  }

  lemma EmptyIsConserved(who: iset<string>)
    ensures Conserved(Empty, who) && AttemptsInv(Empty)
  {
  }

  /**
    In every reachable state, for any set `who` of task ids: as many were taken on as have
    ended or are in flight; no attempt exceeds the limit; and whoever was given up on had
    used up exactly the limit, having failed every attempt. Taking `who` to be a single id
    that was submitted once, the task never gets two outcomes.
  */
  lemma TasksEndExactlyOnce(states: seq<System>, steps: seq<Step>, n: nat, who: iset<string>)
    requires IsRun(states, steps) && states[0] == Empty && n <= |steps|
    ensures var s := states[n];
            && Sum(TakenOn(who), s.log) == Sum(Ended(who), s.log) + InFlight(s, who)
            && (forall i :: 0 <= i < |s.workers| ==> s.workers[i].attempt <= AttemptLimit(s.workers[i].maxRetries))
            && (forall i :: 0 <= i < |s.log| && s.log[i].GaveUp? ==>
                              var d := s.log[i].task;
                              d.attempts == AttemptLimit(d.maxRetries) && FailsUpTo(d.payload, d.attempts))
  {
    RunKeepsInvariants(states, steps, n, who);
    hide Sum, FailsUpTo;
  }

  /**
    In every reachable state: a task that was given up on carries exactly max_retries + 1
    attempts unless that sum wraps around, when it carries one.
  */
  lemma DeadTaskAttempts(states: seq<System>, steps: seq<Step>, n: nat, i: nat)
    requires IsRun(states, steps) && states[0] == Empty && n <= |steps|
    requires i < |states[n].log| && states[n].log[i].GaveUp?
    ensures var d := states[n].log[i].task;
            && (d.attempts == d.maxRetries + 1 <==> d.maxRetries != U32_RANGE - 1)
            && (d.maxRetries == U32_RANGE - 1 ==> d.attempts == 1)
  {
    RunKeepsInvariants(states, steps, n, iset{});
    hide IsRun, AfterStep, Conserved, FailsUpTo, GoodTask, GoodReport;
    assert GoodDead(states[n].log[i].task);
  }

  lemma TheOnlyMessage<T>(x: T)
    ensures [] + [x] == [x] && RemoveAt([x], 0) == []
  {
  }

  /** A hard task that may be retried as often as a u32 can say is given up on after its first attempt. */
  lemma LargestRetryCountAllowsNone() returns (states: seq<System>, steps: seq<Step>)
    ensures IsRun(states, steps) && states[0] == Empty
    ensures GaveUp(DeadTask("t", "hard:x", "transient error", 1, U32_RANGE - 1)) in states[|steps|].log
  {
    var submit, task := SubmitTask("t", "hard:x", U32_RANGE - 1), ProcessTask("t", "hard:x", 1, U32_RANGE - 1);
    var failed := TaskFailed("t", "hard:x", "transient error", 1, U32_RANGE - 1);
    var dead := DeadTask("t", "hard:x", "transient error", 1, U32_RANGE - 1);
    var s1 := Empty.(dispatcher := [SetPool]);
    var s2 := Empty.(poolAttached := true);
    var s3 := s2.(dispatcher := [submit]);
    var s4 := s2.(workers := [task], metrics := [Submitted], log := [TookOn("t")]);
    var s5 := s4.(workers := [], dispatcher := [failed]);
    var s6 := s5.(dispatcher := [], metrics := s5.metrics + [DeadLettered], log := s5.log + [GaveUp(dead)],
    collector := [dead]);
    steps := [ClientSends(SetPool), AtDispatcher(0), ClientSends(submit), AtDispatcher(0),
              AtWorker(0), AtDispatcher(0)];
    states := [Empty, s1, s2, s3, s4, s5, s6];
    TheOnlyMessage(SetPool);
    TheOnlyMessage(submit);
    TheOnlyMessage(task);
    TheOnlyMessage(failed);
    TheOnlyMessage(dead);
    TheOnlyMessage(Submitted);
    TheOnlyMessage(TookOn("t"));
    HardTaskFailsFirst();
    hide RemoveAt, SimulateTask;
    assert AfterStep(s3, AtDispatcher(0)) == s4;
    assert AfterStep(s4, AtWorker(0)) == s5;
    assert AfterStep(s5, AtDispatcher(0)) == s6;
    assert s6.log[1] == GaveUp(dead);
  }

  lemma HardTaskFailsFirst()
    ensures SimulateTask("hard:x", 1) == Err("transient error")
  {
    assert "hard:x"[0] == 'h' && "easy:"[0] == 'e';
    assert "hard:x"[..5] == "hard:";
  }

  /** Which tasks fail all their attempts: the impossible ones, and hard ones that get a single attempt. */
  lemma FateOfTask(payload: string, maxRetries: U32)
    ensures FailsUpTo(payload, AttemptLimit(maxRetries)) <==>
            || "impossible:" <= payload
            || ("hard:" <= payload && (maxRetries == 0 || maxRetries == U32_RANGE - 1))
  {
    var limit := AttemptLimit(maxRetries);
    assert "easy:" <= payload ==> payload[0] == 'e';
    assert "hard:" <= payload ==> payload[0] == 'h';
    assert "impossible:" <= payload ==> payload[0] == 'i';
    assert SimulateTask(payload, 1).Err? <==> "hard:" <= payload || "impossible:" <= payload;
    if "hard:" <= payload && limit > 1 {
      assert SimulateTask(payload, 2).Ok?;
    }
  }

  // ----- The metrics actor -----

  function Kind(e: Entry): Option<MetricEvent> {
    match e
    case TookOn(_) => Some(Submitted)
    case Finished(_) => Some(Completed)
    case Again(_) => Some(Retried)
    case GaveUp(_) => Some(DeadLettered)
    case Lost(_) => None
  }

  function EntriesOf(k: MetricEvent): Entry -> nat { (e: Entry) => One(Kind(e) == Some(k)) }

  function EventsOf(k: MetricEvent): MetricEvent -> nat { (e: MetricEvent) => One(e == k) }

  function Counter(s: System, k: MetricEvent): nat {
    match k
    case Submitted => s.submitted
    case Completed => s.completed
    case Retried => s.retried
    case DeadLettered => s.deadLettered
  }

  /** A counter and the events still on their way to it make up the true count. */
  ghost predicate Metered(s: System, k: MetricEvent) {
    Counter(s, k) + Sum(EventsOf(k), s.metrics) == Sum(EntriesOf(k), s.log)
  }

  lemma RecordMeters(s: System, e: MetricEvent, entry: Entry, k: MetricEvent)
    requires Metered(s, k) && Kind(entry) == Some(e)
    ensures Metered(Record(s, e, entry), k)
  {
    SumAppend(EventsOf(k), s.metrics, e);
    SumAppend(EntriesOf(k), s.log, entry);
  }

  lemma ToPoolMeters(s: System, t: ProcessTask, k: MetricEvent)
    requires Metered(s, k)
    ensures Metered(ToPool(s, t), k)
  {
    SumAppend(EntriesOf(k), s.log, Lost(t.id));
  }

  lemma DispatcherMeters(s: System, m: ToDispatcher, k: MetricEvent)
    requires Metered(s, k)
    ensures Metered(DispatcherHandles(s, m), k)
  {
    hide Sum, ToPool, Record;
    match m
    case SetPool =>
    case SubmitTask(id, payload, maxRetries) =>
      RecordMeters(s, Submitted, TookOn(id), k);
      ToPoolMeters(Record(s, Submitted, TookOn(id)), ProcessTask(id, payload, 1, maxRetries), k);
    case TaskCompleted(id, _) =>
      RecordMeters(s, Completed, Finished(id), k);
    case TaskFailed(id, payload, error, attempt, maxRetries) =>
      if attempt < WrappingSuccessor(maxRetries) {
        RecordMeters(s, Retried, Again(id), k);
        ToPoolMeters(Record(s, Retried, Again(id)), ProcessTask(id, payload, attempt + 1, maxRetries), k);
      } else {
        RecordMeters(s, DeadLettered, GaveUp(DeadTask(id, payload, error, attempt, maxRetries)), k);
      }
  }

  lemma StepMeters(s: System, step: Step, k: MetricEvent)
    requires Enabled(s, step) && Metered(s, k)
    ensures Metered(AfterStep(s, step), k)
  {
    hide Sum, DispatcherHandles;
    match step
    case AtDispatcher(i) =>
      DispatcherMeters(s.(dispatcher := RemoveAt(s.dispatcher, i)), s.dispatcher[i], k);
    case AtMetrics(i) =>
      SumRemove(EventsOf(k), s.metrics, i);
    case _ =>
  }

  lemma {:induction false} RunIsMetered(states: seq<System>, steps: seq<Step>, n: nat, k: MetricEvent)
    requires IsRun(states, steps) && states[0] == Empty && n <= |steps|
    ensures Metered(states[n], k)
  {
    hide *;
    if n == 0 {
      EmptyIsMetered(k);
    } else {
      StepOfRun(states, steps, n);
      RunIsMetered(states, steps, n - 1, k);
      StepMeters(states[n - 1], steps[n - 1], k);
    }
  }

  lemma EmptyIsMetered(k: MetricEvent)
    ensures Metered(Empty, k)
  {
  }

  // ----- Totals -----

  ghost const Everyone: iset<string> := iset id: string | true

  function AnyLost(): Entry -> nat { (e: Entry) => One(e.Lost?) }

  lemma {:induction false} EndedByKind(log: seq<Entry>)
    ensures Sum(TakenOn(Everyone), log) == Sum(EntriesOf(Submitted), log)
    ensures Sum(Ended(Everyone), log)
         == Sum(EntriesOf(Completed), log) + Sum(EntriesOf(DeadLettered), log) + Sum(AnyLost(), log)
  {
    if log != [] { EndedByKind(log[1..]); }
  }

  /** `steps[k]` hands a submission to a dispatcher that has no pool. */
  ghost predicate LosesTask(s: System, step: Step)
    requires Enabled(s, step)
  {
    step.AtDispatcher? && s.dispatcher[step.i].SubmitTask? && !s.poolAttached
  }

  lemma StepLoses(s: System, step: Step)
    requires Enabled(s, step) && AttemptsInv(s)
    ensures Sum(AnyLost(), AfterStep(s, step).log) == Sum(AnyLost(), s.log) + One(LosesTask(s, step))
  {
    hide Sum, FailsUpTo;
    if step.AtDispatcher? {
      var m := s.dispatcher[step.i];
      match m
      case SetPool =>
      case SubmitTask(id, _, _) =>
        SumAppend(AnyLost(), s.log, TookOn(id));
        SumAppend(AnyLost(), s.log + [TookOn(id)], Lost(id));
      case TaskCompleted(id, _) => SumAppend(AnyLost(), s.log, Finished(id));
      case TaskFailed(id, payload, error, attempt, maxRetries) =>
        SumAppend(AnyLost(), s.log, Again(id));
        SumAppend(AnyLost(), s.log, GaveUp(DeadTask(id, payload, error, attempt, maxRetries)));
    }
  }

  /** No task is lost exactly when the pool was attached before the first submission was handled. */
  lemma {:induction false} NothingLostIff(states: seq<System>, steps: seq<Step>, n: nat)
    requires IsRun(states, steps) && states[0] == Empty && n <= |steps|
    ensures Sum(AnyLost(), states[n].log) == 0 <==> forall k :: 0 <= k < n ==> !LosesTask(states[k], steps[k])
  {
    hide IsRun, AfterStep, Enabled, Sum, LosesTask, AttemptsInv, Conserved;
    if n == 0 {
      NothingToSum(AnyLost());
    } else {
      StepOfRun(states, steps, n);
      NothingLostIff(states, steps, n - 1);
      RunKeepsInvariants(states, steps, n - 1, Everyone);
      StepLoses(states[n - 1], steps[n - 1]);
    }
  }

  /**
    The books balance: in every reachable state in which the metrics actor has caught up,
    submitted tasks are the completed, the dead-lettered, those in flight, and those lost;
    and there are no lost ones when no submission met a dispatcher without a pool.
  */
  lemma BooksBalance(states: seq<System>, steps: seq<Step>, n: nat)
    requires IsRun(states, steps) && states[0] == Empty && n <= |steps|
    requires states[n].metrics == []
    ensures var s := states[n];
            && s.submitted == s.completed + s.deadLettered + Sum(AnyLost(), s.log) + InFlight(s, Everyone)
            && (s.submitted == s.completed + s.deadLettered + InFlight(s, Everyone)
                <==> forall k :: 0 <= k < n ==> !LosesTask(states[k], steps[k]))
  {
    RunKeepsInvariants(states, steps, n, Everyone);
    RunIsMetered(states, steps, n, Submitted);
    RunIsMetered(states, steps, n, Completed);
    RunIsMetered(states, steps, n, DeadLettered);
    EndedByKind(states[n].log);
    NothingLostIff(states, steps, n);
    hide AttemptsInv, AfterStep, LosesTask, InFlight;
  }

  // ----- The dead-letter collector -----

  /** `c` records the id, the error and the attempts of `d`. */
  predicate RecordOf(c: CollectedTask, d: DeadTask) {
    c.id == d.id && c.error == d.error && c.attempts == d.attempts
  }

  function GaveUpOn(c: CollectedTask): Entry -> nat { (e: Entry) => One(e.GaveUp? && RecordOf(c, e.task)) }

  function Becomes(c: CollectedTask): DeadTask -> nat { (d: DeadTask) => One(RecordOf(c, d)) }

  function Is(c: CollectedTask): CollectedTask -> nat { (x: CollectedTask) => One(x == c) }

  /** Each dead task has been collected once or is on its way to the collector once. */
  ghost predicate Collected(s: System, c: CollectedTask) {
    Sum(GaveUpOn(c), s.log) == Sum(Becomes(c), s.collector) + Sum(Is(c), s.collected)
  }

  lemma ToPoolCollects(s: System, t: ProcessTask, c: CollectedTask)
    requires Collected(s, c)
    ensures Collected(ToPool(s, t), c)
  {
    SumAppend(GaveUpOn(c), s.log, Lost(t.id));
  }

  lemma RecordCollects(s: System, e: MetricEvent, entry: Entry, c: CollectedTask)
    requires Collected(s, c) && !entry.GaveUp?
    ensures Collected(Record(s, e, entry), c)
  {
    SumAppend(GaveUpOn(c), s.log, entry);
  }

  lemma DispatcherCollects(s: System, m: ToDispatcher, c: CollectedTask)
    requires Collected(s, c)
    ensures Collected(DispatcherHandles(s, m), c)
  {
    hide Sum, ToPool;
    match m
    case SetPool =>
    case SubmitTask(id, payload, maxRetries) =>
      RecordCollects(s, Submitted, TookOn(id), c);
      ToPoolCollects(Record(s, Submitted, TookOn(id)), ProcessTask(id, payload, 1, maxRetries), c);
    case TaskCompleted(id, _) =>
      RecordCollects(s, Completed, Finished(id), c);
    case TaskFailed(id, payload, error, attempt, maxRetries) =>
      if attempt < WrappingSuccessor(maxRetries) {
        RecordCollects(s, Retried, Again(id), c);
        ToPoolCollects(Record(s, Retried, Again(id)), ProcessTask(id, payload, attempt + 1, maxRetries), c);
      } else {
        var dead := DeadTask(id, payload, error, attempt, maxRetries);
        SumAppend(GaveUpOn(c), s.log, GaveUp(dead));
        SumAppend(Becomes(c), s.collector, dead);
      }
  }

  lemma StepCollects(s: System, step: Step, c: CollectedTask)
    requires Enabled(s, step) && Collected(s, c)
    ensures Collected(AfterStep(s, step), c)
  {
    hide Sum, DispatcherHandles;
    match step
    case AtDispatcher(i) =>
      DispatcherCollects(s.(dispatcher := RemoveAt(s.dispatcher, i)), s.dispatcher[i], c);
    case AtCollector(i) =>
      SumRemove(Becomes(c), s.collector, i);
      SumAppend(Is(c), s.collected, AsCollected(s.collector[i]));
    case _ =>
  }

  lemma {:induction false} DeadTasksAreCollectedOnce(states: seq<System>, steps: seq<Step>, n: nat, c: CollectedTask)
    requires IsRun(states, steps) && states[0] == Empty && n <= |steps|
    ensures Sum(GaveUpOn(c), states[n].log) == Sum(Becomes(c), states[n].collector) + Sum(Is(c), states[n].collected)
  {
    hide IsRun, AfterStep, Enabled, Sum;
    if n == 0 {
      NothingToSum(GaveUpOn(c));
      NothingToSum(Becomes(c));
      NothingToSum(Is(c));
    } else {
      StepOfRun(states, steps, n);
      DeadTasksAreCollectedOnce(states, steps, n - 1, c);
      StepCollects(states[n - 1], steps[n - 1], c);
    }
  }

  // ----- Termination -----

  /** Attempts left after attempt number `attempt`. */
  function Left(attempt: U32, maxRetries: U32): nat {
    if attempt < AttemptLimit(maxRetries) then AttemptLimit(maxRetries) - attempt else 0
  }

  /** How many deliveries a message can still bring about, its own included. */
  function DispatcherWork(m: ToDispatcher): nat {
    match m
    case SetPool => 1
    case SubmitTask(_, _, maxRetries) => 3 * AttemptLimit(maxRetries) + 3
    case TaskCompleted(_, _) => 2
    case TaskFailed(_, _, _, attempt, maxRetries) => 3 * Left(attempt, maxRetries) + 3
  }

  function WorkerWork(t: ProcessTask): nat {
    3 * Left(t.attempt, t.maxRetries) + 4
  }

  function Work(s: System): nat {
    Sum(DispatcherWork, s.dispatcher) + Sum(WorkerWork, s.workers) + |s.collector| + |s.metrics|
  }

  lemma DispatcherWorks(s: System, m: ToDispatcher)
    ensures Work(DispatcherHandles(s, m)) < Work(s) + DispatcherWork(m)
  {
    hide Sum;
    match m
    case SubmitTask(id, payload, maxRetries) =>
      SumAppend(WorkerWork, s.workers, ProcessTask(id, payload, 1, maxRetries));
    case TaskFailed(id, payload, _, attempt, maxRetries) =>
      if attempt < WrappingSuccessor(maxRetries) {
        SumAppend(WorkerWork, s.workers, ProcessTask(id, payload, attempt + 1, maxRetries));
      }
    case _ =>
  }

  lemma WorkerWorks(s: System, t: ProcessTask)
    ensures Work(WorkerHandles(s, t)) < Work(s) + WorkerWork(t)
  {
    hide Sum;
    var outcome := SimulateTask(t.payload, t.attempt);
    if outcome.Ok? {
      SumAppend(DispatcherWork, s.dispatcher, TaskCompleted(t.id, outcome.value));
    } else {
      SumAppend(DispatcherWork, s.dispatcher, TaskFailed(t.id, t.payload, outcome.error, t.attempt, t.maxRetries));
    }
  }

  /** What a step may add to the work to be done, itself included: only clients add. */
  function Brings(step: Step): nat {
    if step.ClientSends? then DispatcherWork(step.message) + 1 else 0
  }

  lemma StepWorks(s: System, step: Step)
    requires Enabled(s, step)
    ensures Work(AfterStep(s, step)) + 1 <= Work(s) + Brings(step)
  {
    hide Sum, DispatcherHandles, WorkerHandles, DispatcherWork, WorkerWork;
    match step
    case ClientSends(m) =>
      SumAppend(DispatcherWork, s.dispatcher, m);
    case AtDispatcher(i) =>
      SumRemove(DispatcherWork, s.dispatcher, i);
      DispatcherWorks(s.(dispatcher := RemoveAt(s.dispatcher, i)), s.dispatcher[i]);
    case AtWorker(i) =>
      SumRemove(WorkerWork, s.workers, i);
      WorkerWorks(s.(workers := RemoveAt(s.workers, i)), s.workers[i]);
    case _ =>
  }

  /** Every run, from any state, is no longer than the work present at its start and brought by clients. */
  lemma {:induction false} RunsEnd(states: seq<System>, steps: seq<Step>, n: nat)
    requires IsRun(states, steps) && n <= |steps|
    ensures n + Work(states[n]) <= Work(states[0]) + Sum(Brings, steps[..n])
  {
    hide *;
    if n > 0 {
      StepOfRun(states, steps, n);
      RunsEnd(states, steps, n - 1);
      StepWorks(states[n - 1], steps[n - 1]);
      SumAppend(Brings, steps[..n - 1], steps[n - 1]);
      InitOfAppend(steps[..n - 1], steps[n - 1]);
      assert steps[..n] == steps[..n - 1] + [steps[n - 1]];
    }
  }

  /** Without client messages a run takes no more steps than the work it starts with. */
  lemma DeliveriesEnd(states: seq<System>, steps: seq<Step>)
    requires IsRun(states, steps)
    requires forall i :: 0 <= i < |steps| ==> !steps[i].ClientSends?
    ensures |steps| <= Work(states[0])
  {
    RunsEnd(states, steps, |steps|);
    NothingBrought(steps);
    assert steps[..|steps|] == steps;
    hide Work, AfterStep;
  }

  lemma {:induction false} NothingBrought(steps: seq<Step>)
    requires forall i :: 0 <= i < |steps| ==> !steps[i].ClientSends?
    ensures Sum(Brings, steps) == 0
  {
    if steps != [] { NothingBrought(steps[1..]); }
  }

  /** No delivery is possible. */
  ghost predicate AtRest(s: System) {
    forall step: Step :: Enabled(s, step) ==> step.ClientSends?
  }

  /** When deliveries have ended, every task has its outcome and all counters are exact. */
  lemma AtRestEverythingIsSettled(states: seq<System>, steps: seq<Step>, n: nat, who: iset<string>)
    requires IsRun(states, steps) && states[0] == Empty && n <= |steps|
    requires AtRest(states[n])
    ensures var s := states[n];
            && Sum(TakenOn(who), s.log) == Sum(Ended(who), s.log)
            && s.submitted == s.completed + s.deadLettered + Sum(AnyLost(), s.log)
            && s.deadLettered == Sum(EntriesOf(DeadLettered), s.log)
  {
    var s := states[n];
    RestMeansEmpty(s);
    RunKeepsInvariants(states, steps, n, who);
    BooksBalance(states, steps, n);
    RunIsMetered(states, steps, n, DeadLettered);
    hide AttemptsInv, AfterStep, LosesTask, AtRest;
  }

  lemma RestMeansEmpty(s: System)
    requires AtRest(s)
    ensures s.dispatcher == [] && s.workers == [] && s.collector == [] && s.metrics == []
  {
    assert !Enabled(s, AtDispatcher(0)) && !Enabled(s, AtWorker(0));
    assert !Enabled(s, AtCollector(0)) && !Enabled(s, AtMetrics(0));
  }

  // ----- Which outcome a task gets -----

  /** All the attempts that the task gets fail. */
  predicate Hopeless(payload: string, maxRetries: U32) {
    FailsUpTo(payload, AttemptLimit(maxRetries))
  }

  /** The submissions under the ids in `who` are all hopeless, or none is. */
  ghost predicate AllSubmitted(steps: seq<Step>, who: iset<string>, hopeless: bool) {
    forall k :: 0 <= k < |steps| && steps[k].ClientSends? ==> FatedMessage(steps[k].message, who, hopeless)
  }

  predicate FatedMessage(m: ToDispatcher, who: iset<string>, hopeless: bool) {
    !m.SetPool? && m.id in who ==>
      if m.TaskCompleted? then !hopeless else Hopeless(m.payload, m.maxRetries) == hopeless
  }

  predicate FatedTask(t: ProcessTask, who: iset<string>, hopeless: bool) {
    t.id in who ==> Hopeless(t.payload, t.maxRetries) == hopeless
  }

  predicate FatedEntry(e: Entry, who: iset<string>, hopeless: bool) {
    && (e.Finished? && e.id in who ==> !hopeless)
    && (e.GaveUp? && e.task.id in who ==> hopeless)
  }

  ghost predicate Fated(s: System, who: iset<string>, hopeless: bool) {
    && (forall i :: 0 <= i < |s.workers| ==> FatedTask(s.workers[i], who, hopeless))
    && (forall i :: 0 <= i < |s.dispatcher| ==> FatedMessage(s.dispatcher[i], who, hopeless))
    && (forall i :: 0 <= i < |s.log| ==> FatedEntry(s.log[i], who, hopeless))
  }

  lemma DispatcherKeepsFate(s: System, m: ToDispatcher, who: iset<string>, hopeless: bool)
    requires Fated(s, who, hopeless) && FatedMessage(m, who, hopeless) && GoodReport(m)
    ensures Fated(DispatcherHandles(s, m), who, hopeless)
  {
    hide FailsUpTo;
  }

  lemma WorkerKeepsFate(s: System, t: ProcessTask, who: iset<string>, hopeless: bool)
    requires Fated(s, who, hopeless) && FatedTask(t, who, hopeless) && GoodTask(t)
    ensures Fated(WorkerHandles(s, t), who, hopeless)
  {
    assert SimulateTask(t.payload, t.attempt).Ok? ==> !Hopeless(t.payload, t.maxRetries);
    hide Hopeless, FailsUpTo, SimulateTask;
  }

  lemma StepKeepsFate(s: System, step: Step, who: iset<string>, hopeless: bool)
    requires Enabled(s, step) && Fated(s, who, hopeless) && AttemptsInv(s)
    requires step.ClientSends? ==> FatedMessage(step.message, who, hopeless)
    ensures Fated(AfterStep(s, step), who, hopeless)
  {
    hide DispatcherHandles, WorkerHandles, FatedMessage, FatedTask, FatedEntry, GoodReport, GoodTask, GoodDead;
    match step
    case ClientSends(m) =>
    case AtDispatcher(i) =>
      assert GoodReport(s.dispatcher[i]) && FatedMessage(s.dispatcher[i], who, hopeless);
      hide AttemptsInv;
      DispatcherKeepsFate(s.(dispatcher := RemoveAt(s.dispatcher, i)), s.dispatcher[i], who, hopeless);
    case AtWorker(i) =>
      assert GoodTask(s.workers[i]) && FatedTask(s.workers[i], who, hopeless);
      hide AttemptsInv;
      WorkerKeepsFate(s.(workers := RemoveAt(s.workers, i)), s.workers[i], who, hopeless);
    case _ =>
      hide AttemptsInv;
  }

  lemma StepIsSubmitted(steps: seq<Step>, k: nat, who: iset<string>, hopeless: bool)
    requires AllSubmitted(steps, who, hopeless) && k < |steps|
    ensures steps[k].ClientSends? ==> FatedMessage(steps[k].message, who, hopeless)
  {
  }

  lemma EmptyIsFated(who: iset<string>, hopeless: bool)
    ensures Fated(Empty, who, hopeless)
  {
  }

  lemma {:induction false} RunKeepsFate(states: seq<System>, steps: seq<Step>, n: nat, who: iset<string>,
                                        hopeless: bool)
    requires IsRun(states, steps) && states[0] == Empty && n <= |steps| && AllSubmitted(steps, who, hopeless)
    ensures Fated(states[n], who, hopeless)
  {
    hide *;
    if n == 0 {
      EmptyIsFated(who, hopeless);
    } else {
      StepOfRun(states, steps, n);
      StepIsSubmitted(steps, n - 1, who, hopeless);
      RunKeepsFate(states, steps, n - 1, who, hopeless);
      RunKeepsInvariants(states, steps, n - 1, who);
      StepKeepsFate(states[n - 1], steps[n - 1], who, hopeless);
    }
  }

  function FinishedIn(who: iset<string>): Entry -> nat { (e: Entry) => One(e.Finished? && e.id in who) }

  function GivenUpIn(who: iset<string>): Entry -> nat { (e: Entry) => One(e.GaveUp? && e.task.id in who) }

  function LostIn(who: iset<string>): Entry -> nat { (e: Entry) => One(e.Lost? && e.id in who) }

  lemma {:induction false} EndedByOutcome(log: seq<Entry>, who: iset<string>)
    ensures Sum(Ended(who), log) == Sum(FinishedIn(who), log) + Sum(GivenUpIn(who), log) + Sum(LostIn(who), log)
  {
    if log != [] { EndedByOutcome(log[1..], who); }
  }

  lemma {:induction false} NoOtherOutcome(log: seq<Entry>, who: iset<string>, hopeless: bool)
    requires forall i :: 0 <= i < |log| ==> FatedEntry(log[i], who, hopeless)
    ensures Sum(if hopeless then FinishedIn(who) else GivenUpIn(who), log) == 0
  {
    if log != [] { NoOtherOutcome(log[1..], who, hopeless); }
  }

  /**
    When deliveries have ended: of the tasks submitted under ids in `who`, apart from those
    lost for want of a pool, all have been given up on if they were hopeless, and all have
    finished if none was. Which tasks are hopeless is decided by payload and retries alone.
  */
  lemma TasksMeetTheirFate(states: seq<System>, steps: seq<Step>, n: nat, who: iset<string>, hopeless: bool)
    requires IsRun(states, steps) && states[0] == Empty && n <= |steps| && AtRest(states[n])
    requires AllSubmitted(steps, who, hopeless)
    ensures var log := states[n].log;
            Sum(TakenOn(who), log)
            == Sum(LostIn(who), log) + Sum(if hopeless then GivenUpIn(who) else FinishedIn(who), log)
  {
    var s := states[n];
    AtRestEverythingIsSettled(states, steps, n, who);
    RunKeepsFate(states, steps, n, who, hopeless);
    EndedByOutcome(s.log, who);
    assert forall i :: 0 <= i < |s.log| ==> FatedEntry(s.log[i], who, hopeless);
    hide *;
    NoOtherOutcome(s.log, who, hopeless);
  }

  // ----- What a task carries -----

  /** The error of an attempt that fails at a payload. */
  function ErrorOf(payload: string): string {
    if "impossible:" <= payload then "permanent failure" else "transient error"
  }

  /** The result of an attempt that succeeds at a payload: a hard one has been retried before. */
  function ResultOf(payload: string): string {
    if "easy:" <= payload then "processed-" + payload[5..]
    else if "hard:" <= payload then "recovered-" + payload[5..]
    else "done-" + payload
  }

  /** What is said of a task `id` is said of one with this payload and so many retries. */
  predicate CarriedBy(m: ToDispatcher, id: string, payload: string, maxRetries: U32) {
    match m
    case SetPool => true
    case SubmitTask(i, p, r) => i == id ==> p == payload && r == maxRetries
    case TaskCompleted(i, result) => i == id ==> result == ResultOf(payload)
    case TaskFailed(i, p, error, _, r) => i == id ==> p == payload && r == maxRetries && error == ErrorOf(payload)
  }

  predicate CarriedByTask(t: ProcessTask, id: string, payload: string, maxRetries: U32) {
    t.id == id ==> t.payload == payload && t.maxRetries == maxRetries
  }

  predicate CarriedByDead(d: DeadTask, id: string, payload: string, maxRetries: U32) {
    d.id == id ==> d.payload == payload && d.maxRetries == maxRetries && d.error == ErrorOf(payload)
  }

  ghost predicate Carried(s: System, id: string, payload: string, maxRetries: U32) {
    && (forall i :: 0 <= i < |s.dispatcher| ==> CarriedBy(s.dispatcher[i], id, payload, maxRetries))
    && (forall i :: 0 <= i < |s.workers| ==> CarriedByTask(s.workers[i], id, payload, maxRetries))
    && (forall i :: 0 <= i < |s.collector| ==> CarriedByDead(s.collector[i], id, payload, maxRetries))
    && (forall i :: 0 <= i < |s.log| && s.log[i].GaveUp? ==> CarriedByDead(s.log[i].task, id, payload, maxRetries))
  }

  lemma AttemptReports(payload: string, attempt: U32)
    ensures SimulateTask(payload, attempt).Ok? ==> SimulateTask(payload, attempt).value == ResultOf(payload)
    ensures SimulateTask(payload, attempt).Err? ==> SimulateTask(payload, attempt).error == ErrorOf(payload)
  {
    assert "easy:" <= payload ==> payload[0] == 'e';
    assert "hard:" <= payload ==> payload[0] == 'h';
    assert "impossible:" <= payload ==> payload[0] == 'i';
  }

  lemma DispatcherCarries(s: System, m: ToDispatcher, id: string, payload: string, maxRetries: U32)
    requires Carried(s, id, payload, maxRetries) && CarriedBy(m, id, payload, maxRetries)
    ensures Carried(DispatcherHandles(s, m), id, payload, maxRetries)
  {
    hide ErrorOf, ResultOf;
  }

  lemma WorkerCarries(s: System, t: ProcessTask, id: string, payload: string, maxRetries: U32)
    requires Carried(s, id, payload, maxRetries) && CarriedByTask(t, id, payload, maxRetries)
    ensures Carried(WorkerHandles(s, t), id, payload, maxRetries)
  {
    AttemptReports(t.payload, t.attempt);
    hide ErrorOf, ResultOf, SimulateTask;
  }

  lemma StepCarries(s: System, step: Step, id: string, payload: string, maxRetries: U32)
    requires Enabled(s, step) && Carried(s, id, payload, maxRetries)
    requires step.ClientSends? ==> CarriedBy(step.message, id, payload, maxRetries)
    ensures Carried(AfterStep(s, step), id, payload, maxRetries)
  {
    hide DispatcherHandles, WorkerHandles, CarriedBy, CarriedByTask, CarriedByDead;
    match step
    case ClientSends(m) =>
    case AtDispatcher(i) =>
      assert CarriedBy(s.dispatcher[i], id, payload, maxRetries);
      DispatcherCarries(s.(dispatcher := RemoveAt(s.dispatcher, i)), s.dispatcher[i], id, payload, maxRetries);
    case AtWorker(i) =>
      assert CarriedByTask(s.workers[i], id, payload, maxRetries);
      WorkerCarries(s.(workers := RemoveAt(s.workers, i)), s.workers[i], id, payload, maxRetries);
    case _ =>
  }

  /** Every submission under `id` is of this payload and so many retries. */
  ghost predicate SubmittedAs(steps: seq<Step>, id: string, payload: string, maxRetries: U32) {
    forall k :: 0 <= k < |steps| && steps[k].ClientSends? && steps[k].message.SubmitTask? ==>
                  steps[k].message.id == id ==>
                    steps[k].message.payload == payload && steps[k].message.maxRetries == maxRetries
  }

  lemma ClientCarries(s: System, steps: seq<Step>, k: nat, id: string, payload: string, maxRetries: U32)
    requires SubmittedAs(steps, id, payload, maxRetries) && k < |steps| && Enabled(s, steps[k])
    ensures steps[k].ClientSends? ==> CarriedBy(steps[k].message, id, payload, maxRetries)
  {
  }

  lemma NothingCarried(id: string, payload: string, maxRetries: U32)
    ensures Carried(Empty, id, payload, maxRetries)
  {
  }

  lemma {:induction false} RunCarries(states: seq<System>, steps: seq<Step>, n: nat, id: string, payload: string,
                                      maxRetries: U32)
    requires IsRun(states, steps) && states[0] == Empty && n <= |steps| && SubmittedAs(steps, id, payload, maxRetries)
    ensures Carried(states[n], id, payload, maxRetries)
  {
    hide *;
    if n == 0 {
      NothingCarried(id, payload, maxRetries);
    } else {
      StepOfRun(states, steps, n);
      RunCarries(states, steps, n - 1, id, payload, maxRetries);
      ClientCarries(states[n - 1], steps, n - 1, id, payload, maxRetries);
      StepCarries(states[n - 1], steps[n - 1], id, payload, maxRetries);
    }
  }

  /**
    A task keeps what it was submitted with. If all submissions under an id have the same
    payload and retries, then in every reachable state every attempt sent to a worker, every
    failure reported and every task given up on under that id has them, with the error or
    result that the payload determines; and one that was given up on has made r + 1 attempts,
    or a single one where that sum wraps around.
  */
  lemma TasksKeepTheirSubmission(states: seq<System>, steps: seq<Step>, n: nat, id: string, payload: string,
                                 maxRetries: U32)
    requires IsRun(states, steps) && states[0] == Empty && n <= |steps| && SubmittedAs(steps, id, payload, maxRetries)
    ensures Carried(states[n], id, payload, maxRetries)
    ensures forall i :: 0 <= i < |states[n].log| && states[n].log[i].GaveUp? && states[n].log[i].task.id == id ==>
                          states[n].log[i].task
                          == DeadTask(id, payload, ErrorOf(payload),
                                      if maxRetries == 0xffff_ffff then 1 else maxRetries + 1, maxRetries)
  {
    RunCarries(states, steps, n, id, payload, maxRetries);
    RunKeepsInvariants(states, steps, n, iset{});
    var s := states[n];
    assert forall i :: 0 <= i < |s.log| && s.log[i].GaveUp? ==>
                         CarriedByDead(s.log[i].task, id, payload, maxRetries) && GoodDead(s.log[i].task);
    hide IsRun, SubmittedAs, AttemptsInv, Carried, Conserved, ErrorOf, FailsUpTo;
  }

  /** A task that cannot succeed and may be retried five times is given up on after its sixth attempt. */
  lemma SixthAttemptIsLast(states: seq<System>, steps: seq<Step>, n: nat, i: nat)
    requires IsRun(states, steps) && states[0] == Empty && n <= |steps|
    requires SubmittedAs(steps, "t", "impossible:x", 5)
    requires i < |states[n].log| && states[n].log[i].GaveUp? && states[n].log[i].task.id == "t"
    ensures states[n].log[i].task == DeadTask("t", "impossible:x", "permanent failure", 6, 5)
  {
    TasksKeepTheirSubmission(states, steps, n, "t", "impossible:x", 5);
    hide IsRun, SubmittedAs, Carried;
  }
}

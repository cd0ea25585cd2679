/** The recursive prover's job server: submitters, workers and readers as interleaved threads over a job map
    guarded by a read-write mutex and a bounded channel. */
module ProverServer {
  import opened Wrappers

  type Id = nat
  type Manifest = nat

  datatype JobState = JobQueued | JobProving | JobSucceeded | JobFailed

  datatype Artifact = Artifact(recursivelyProved: bool, content: nat)

  datatype Job = Job(state: JobState, manifest: Manifest, artifact: Option<Artifact>)

  type Jobs = map<Id, Job>

  /** What the proving engine returns. */
  datatype Outcome = EngineError | EngineResult(artifact: Option<Artifact>)

  // ----- the critical sections

  /** Under the lock of `submit`: a known id is answered, a new one is filed as queued. */
  function FileJob(jobs: Jobs, id: Id, manifest: Manifest): Jobs {
    if id in jobs then jobs else jobs[id := Job(JobQueued, manifest, None)]
  }

  /** Under the first lock of `worker`. */
  function MarkJob(jobs: Jobs, id: Id): Jobs {
    if id in jobs then jobs[id := jobs[id].(state := JobProving)] else jobs
  }

  function Finished(job: Job, outcome: Outcome): Job {
    match outcome
    case EngineError => job.(state := JobFailed, artifact := None)
    case EngineResult(a) =>
      if a.None? || !a.value.recursivelyProved then job.(state := JobFailed, artifact := None)
      else job.(state := JobSucceeded, artifact := a)
  }

  /** Under the second lock of `worker`. */
  function StoreJob(jobs: Jobs, id: Id, outcome: Outcome): Jobs {
    if id in jobs then jobs[id := Finished(jobs[id], outcome)] else jobs
  }

  // ----- reading

  datatype Query = JobQuery(id: Id) | ArtifactQuery(id: Id)

  datatype ReadResult = NotFound | Conflict(state: JobState) | Found(artifact: Artifact)

  /** What a reader copies under the read lock and then answers with. */
  datatype Reply = JobReply(snapshot: Option<Job>) | ArtifactReply(result: ReadResult)

  function ArtifactOf(jobs: Jobs, id: Id): ReadResult {
    if id !in jobs then NotFound
    else if jobs[id].state != JobSucceeded || jobs[id].artifact.None? then Conflict(jobs[id].state)
    else Found(jobs[id].artifact.value)
  }

  function Answer(jobs: Jobs, query: Query): Reply {
    match query
    case JobQuery(id) => JobReply(if id in jobs then Some(jobs[id]) else None)
    case ArtifactQuery(id) => ArtifactReply(ArtifactOf(jobs, id))
  }

  // ----- threads

  datatype Submitter = Arrived(manifest: Manifest) | Filing(manifest: Manifest) | Sending(id: Id) | Replied

  datatype Worker =
    | Idle
    | Received(id: Id)
    | Marking(id: Id)
    | InEngine(id: Id)
    | Returned(id: Id, outcome: Outcome)
    | Storing(id: Id, outcome: Outcome)

  datatype Reader = Asked(query: Query) | Reading(query: Query) | Answered(query: Query, reply: Reply)

  datatype Thread = SubmitterThread(index: nat) | WorkerThread(index: nat)

  /** Shared memory, channel, write lock, number of read locks and program counters; `enqueued`, `received` and
      `started` record the sends, the receives and the engine starts so far. */
  datatype Server = Server(
    jobs: Jobs, queue: seq<Id>, capacity: nat, lock: Option<Thread>, submitters: seq<Submitter>, workers: seq<Worker>,
    enqueued: seq<Id>, received: seq<Id>, started: seq<Id>, readers: seq<Reader>, readLocks: nat)

  /** One worker or more, and a channel of four slots per worker. */
  function NewServer(workers: int): Server {
    var n := if workers < 1 then 1 else workers;
    Server(map[], [], 4 * n, None, [], seq(n, i => Idle), [], [], [], [], 0)
  }

  datatype Action =
    | Arrive(manifest: Manifest)
    | LockToFile(i: nat)
    | FileAndUnlock(i: nat)
    | Send(i: nat)
    | Receive(w: nat)
    | LockToMark(w: nat)
    | MarkAndUnlock(w: nat)
    | EngineReturns(w: nat, outcome: Outcome)
    | LockToStore(w: nat)
    | StoreAndUnlock(w: nat)
    | Ask(query: Query)
    | ReadLock(i: nat)
    | ReadAndUnlock(i: nat)

  /** Requests from outside. */
  predicate IsArrival(a: Action) {
    a.Arrive? || a.Ask?
  }

  /** The write lock is free when nobody holds the mutex in either mode. */
  predicate WriteFree(s: Server) {
    s.lock.None? && s.readLocks == 0
  }

  /** When a thread can take its next step. Channel operations wait for room or an element, a write lock for all
      other holders, a read lock for the writer; nothing else waits. */
  predicate Enabled(s: Server, a: Action) {
    match a
    case Arrive(_) => true
    case LockToFile(i) => i < |s.submitters| && s.submitters[i].Arrived? && WriteFree(s)
    case FileAndUnlock(i) => i < |s.submitters| && s.submitters[i].Filing?
    case Send(i) => i < |s.submitters| && s.submitters[i].Sending? && |s.queue| < s.capacity
    case Receive(w) => w < |s.workers| && s.workers[w].Idle? && s.queue != []
    case LockToMark(w) => w < |s.workers| && s.workers[w].Received? && WriteFree(s)
    case MarkAndUnlock(w) => w < |s.workers| && s.workers[w].Marking?
    case EngineReturns(w, _) => w < |s.workers| && s.workers[w].InEngine?
    case LockToStore(w) => w < |s.workers| && s.workers[w].Returned? && WriteFree(s)
    case StoreAndUnlock(w) => w < |s.workers| && s.workers[w].Storing?
    case Ask(_) => true
    case ReadLock(i) => i < |s.readers| && s.readers[i].Asked? && s.lock.None?
    case ReadAndUnlock(i) => i < |s.readers| && s.readers[i].Reading? && s.readLocks > 0
  }

  function Step(idOf: Manifest -> Id, s: Server, a: Action): Server
    requires Enabled(s, a)
  {
    match a
    case Arrive(m) => s.(submitters := s.submitters + [Arrived(m)])
    case LockToFile(i) => s.(submitters := s.submitters[i := Filing(s.submitters[i].manifest)], lock := Some(SubmitterThread(i)))
    case FileAndUnlock(i) =>
      var m := s.submitters[i].manifest;
      s.(jobs := FileJob(s.jobs, idOf(m), m), lock := None,
         submitters := s.submitters[i := if idOf(m) in s.jobs then Replied else Sending(idOf(m))])
    case Send(i) =>
      var id := s.submitters[i].id;
      s.(queue := s.queue + [id], submitters := s.submitters[i := Replied], enqueued := s.enqueued + [id])
    case Receive(w) => s.(queue := s.queue[1..], received := s.received + [s.queue[0]], workers := s.workers[w := Received(s.queue[0])])
    case LockToMark(w) => s.(workers := s.workers[w := Marking(s.workers[w].id)], lock := Some(WorkerThread(w)))
    case MarkAndUnlock(w) =>
      var id := s.workers[w].id;
      s.(jobs := MarkJob(s.jobs, id), lock := None, workers := s.workers[w := InEngine(id)], started := s.started + [id])
    case EngineReturns(w, outcome) => s.(workers := s.workers[w := Returned(s.workers[w].id, outcome)])
    case LockToStore(w) => s.(workers := s.workers[w := Storing(s.workers[w].id, s.workers[w].outcome)], lock := Some(WorkerThread(w)))
    case StoreAndUnlock(w) =>
      s.(jobs := StoreJob(s.jobs, s.workers[w].id, s.workers[w].outcome), lock := None, workers := s.workers[w := Idle])
    case Ask(query) => s.(readers := s.readers + [Asked(query)])
    case ReadLock(i) => s.(readers := s.readers[i := Reading(s.readers[i].query)], readLocks := s.readLocks + 1)
    case ReadAndUnlock(i) =>
      var query := s.readers[i].query;
      s.(readers := s.readers[i := Answered(query, Answer(s.jobs, query))], readLocks := s.readLocks - 1)
  }

  /** An interleaving: every action is enabled where it happens. */
  ghost predicate Execution(idOf: Manifest -> Id, s: Server, actions: seq<Action>)
    decreases |actions|
  {
    actions == [] || (Execution(idOf, s, actions[..|actions| - 1]) && Enabled(After(idOf, s, actions[..|actions| - 1]), actions[|actions| - 1]))
  }

  ghost function After(idOf: Manifest -> Id, s: Server, actions: seq<Action>): Server
    decreases |actions|
  {
    if actions == [] then s
    else
      var before := After(idOf, s, actions[..|actions| - 1]);
      var a := actions[|actions| - 1];
      if Enabled(before, a) then Step(idOf, before, a) else before
  }

  // ----- sums over threads and channels

  function Sum<T>(xs: seq<T>, f: T -> nat): nat {
    if xs == [] then 0 else Sum(xs[..|xs| - 1], f) + f(xs[|xs| - 1])
  }

  lemma {:induction false} SumUpdate<T>(xs: seq<T>, i: nat, x: T, f: T -> nat)
    requires i < |xs|
    ensures Sum(xs[i := x], f) + f(xs[i]) == Sum(xs, f) + f(x)
  {
    var n := |xs| - 1;
    if i < n {
      SumUpdate(xs[..n], i, x, f);
      assert xs[i := x][..n] == xs[..n][i := x];
    } else {
      assert xs[i := x][..n] == xs[..n];
    }
  }

  lemma SumSnoc<T>(xs: seq<T>, x: T, f: T -> nat)
    ensures Sum(xs + [x], f) == Sum(xs, f) + f(x)
  {
    assert (xs + [x])[..|xs|] == xs;
  }

  lemma {:induction false} SumTail<T>(xs: seq<T>, f: T -> nat)
    requires xs != []
    ensures Sum(xs, f) == f(xs[0]) + Sum(xs[1..], f)
  {
    var n := |xs| - 1;
    if n > 0 {
      SumTail(xs[..n], f);
      assert xs[..n][1..] == xs[1..][..n - 1];
    }
  }

  lemma {:induction false} TermBound<T>(xs: seq<T>, i: nat, f: T -> nat)
    requires i < |xs|
    ensures f(xs[i]) <= Sum(xs, f)
  {
    if i < |xs| - 1 {
      TermBound(xs[..|xs| - 1], i, f);
    }
  }

  lemma {:induction false} SumZero<T>(xs: seq<T>, f: T -> nat)
    requires forall i :: 0 <= i < |xs| ==> f(xs[i]) == 0
    ensures Sum(xs, f) == 0
  {
    if xs != [] {
      SumZero(xs[..|xs| - 1], f);
    }
  }

  // ----- where job ids are

  function One(b: bool): nat {
    if b then 1 else 0
  }

  function Is(id: Id): Id -> nat {
    (x: Id) => One(x == id)
  }

  function SendingOf(id: Id): Submitter -> nat {
    (p: Submitter) => One(p.Sending? && p.id == id)
  }

  function PendingOf(id: Id): Worker -> nat {
    (w: Worker) => One((w.Received? || w.Marking?) && w.id == id)
  }

  function ActiveOf(id: Id): Worker -> nat {
    (w: Worker) => One((w.InEngine? || w.Returned? || w.Storing?) && w.id == id)
  }

  /** How often an id is on its way to the engine: being sent, in the channel, or received and not yet marked. */
  function Pending(s: Server, id: Id): nat {
    Sum(s.submitters, SendingOf(id)) + Sum(s.queue, Is(id)) + Sum(s.workers, PendingOf(id))
  }

  /** How often an id is in the engine, or has an outcome not yet stored. */
  function Active(s: Server, id: Id): nat {
    Sum(s.workers, ActiveOf(id))
  }

  /** A queued job is pending in exactly one place, a proving job active in exactly one worker, any other id
      nowhere; an id is sent at most once and started at most once. */
  ghost predicate IdOk(s: Server, id: Id) {
    && Pending(s, id) == One(id in s.jobs && s.jobs[id].state == JobQueued)
    && Active(s, id) == One(id in s.jobs && s.jobs[id].state == JobProving)
    && Sum(s.enqueued, Is(id)) + Sum(s.submitters, SendingOf(id)) == One(id in s.jobs)
    && Sum(s.started, Is(id)) == One(id in s.jobs && s.jobs[id].state != JobQueued)
  }

  /** An artifact is present exactly in a succeeded job, and is then recursively proved. */
  ghost predicate JobOk(job: Job) {
    && (job.artifact.Some? <==> job.state == JobSucceeded)
    && (job.artifact.Some? ==> job.artifact.value.recursivelyProved)
  }

  predicate Holds(s: Server, t: Thread) {
    match t
    case SubmitterThread(i) => i < |s.submitters| && s.submitters[i].Filing?
    case WorkerThread(w) => w < |s.workers| && (s.workers[w].Marking? || s.workers[w].Storing?)
  }

  /** The lock is held by exactly the thread inside a critical section; in particular a thread at a channel
      operation or in the engine never holds it. */
  ghost predicate LockOk(s: Server) {
    forall t :: Holds(s, t) <==> s.lock == Some(t)
  }

  function ReadingOf(): Reader -> nat {
    (r: Reader) => One(r.Reading?)
  }

  /** The read locks are those of the readers inside, and exclude the writer. */
  ghost predicate ReadLocksOk(s: Server) {
    s.readLocks == Sum(s.readers, ReadingOf()) && (s.lock.Some? ==> s.readLocks == 0)
  }

  /** How far a job state may have moved since it was read. */
  predicate StateReaches(before: JobState, after: JobState) {
    after == before || before == JobQueued || (before == JobProving && after != JobQueued)
  }

  /** An answer stays true: a job snapshot is a past of the job, a refused artifact was refused for a past state, and a
      served artifact is that of the job, which has succeeded. */
  ghost predicate ReplyOk(jobs: Jobs, r: Reader) {
    match r
    case Answered(JobQuery(id), JobReply(Some(snapshot))) =>
      && id in jobs && snapshot.manifest == jobs[id].manifest && StateReaches(snapshot.state, jobs[id].state)
      && (snapshot.state == JobSucceeded || snapshot.state == JobFailed ==> jobs[id] == snapshot)
    case Answered(ArtifactQuery(id), ArtifactReply(Conflict(state))) => id in jobs && StateReaches(state, jobs[id].state)
    case Answered(ArtifactQuery(id), ArtifactReply(Found(artifact))) =>
      id in jobs && jobs[id].state == JobSucceeded && jobs[id].artifact == Some(artifact) && artifact.recursivelyProved
    case _ => true
  }

  ghost predicate ReadersOk(s: Server) {
    ReadLocksOk(s) && forall i :: 0 <= i < |s.readers| ==> ReplyOk(s.jobs, s.readers[i])
  }

  ghost predicate Invariant(s: Server) {
    && LockOk(s) && ReadersOk(s)
    && |s.queue| <= s.capacity && s.capacity > 0 && s.workers != []
    && s.enqueued == s.received + s.queue
    && (forall id :: id in s.jobs ==> JobOk(s.jobs[id]))
    && (forall id :: IdOk(s, id))
  }

  lemma NewServerOk(workers: int)
    ensures Invariant(NewServer(workers))
  {
    var s := NewServer(workers);
    forall id ensures IdOk(s, id) {
      SumZero(s.workers, PendingOf(id));
      SumZero(s.workers, ActiveOf(id));
    }
  }

  // ----- every step keeps the invariant

  lemma LockKeeps(idOf: Manifest -> Id, s: Server, a: Action)
    requires LockOk(s) && Enabled(s, a)
    ensures LockOk(Step(idOf, s, a))
  {
    var t := Step(idOf, s, a);
    forall u ensures Holds(t, u) <==> t.lock == Some(u) {
      assert Holds(s, u) <==> s.lock == Some(u);
      match a
      case FileAndUnlock(i) => assert Holds(s, SubmitterThread(i));
      case MarkAndUnlock(w) => assert Holds(s, WorkerThread(w));
      case StoreAndUnlock(w) => assert Holds(s, WorkerThread(w));
      case _ =>
    }
  }

  lemma SubmitterStep(idOf: Manifest -> Id, s: Server, a: Action, id: Id)
    requires IdOk(s, id) && Enabled(s, a) && (a.Arrive? || a.LockToFile?)
    ensures IdOk(Step(idOf, s, a), id)
  {
    var t := Step(idOf, s, a);
    if a.Arrive? {
      SumSnoc(s.submitters, Arrived(a.manifest), SendingOf(id));
    } else {
      SumUpdate(s.submitters, a.i, t.submitters[a.i], SendingOf(id));
    }
  }

  lemma FileStep(idOf: Manifest -> Id, s: Server, i: nat, id: Id)
    requires IdOk(s, id) && Enabled(s, FileAndUnlock(i))
    ensures IdOk(Step(idOf, s, FileAndUnlock(i)), id)
  {
    SumUpdate(s.submitters, i, Step(idOf, s, FileAndUnlock(i)).submitters[i], SendingOf(id));
  }

  lemma SendMoves(submitters: seq<Submitter>, i: nat, queue: seq<Id>, enqueued: seq<Id>, id: Id)
    requires i < |submitters| && submitters[i].Sending?
    ensures var sent := submitters[i].id;
      && Sum(submitters[i := Replied], SendingOf(id)) + One(sent == id) == Sum(submitters, SendingOf(id))
      && Sum(queue + [sent], Is(id)) == Sum(queue, Is(id)) + One(sent == id)
      && Sum(enqueued + [sent], Is(id)) == Sum(enqueued, Is(id)) + One(sent == id)
  {
    SumUpdate(submitters, i, Replied, SendingOf(id));
    SumSnoc(queue, submitters[i].id, Is(id));
    SumSnoc(enqueued, submitters[i].id, Is(id));
  }

  /** The three counts that a send touches, in the state after it. */
  lemma SendCounts(idOf: Manifest -> Id, s: Server, i: nat, id: Id)
    requires Enabled(s, Send(i))
    ensures var t := Step(idOf, s, Send(i));
      && t.jobs == s.jobs && t.workers == s.workers && t.started == s.started
      && Pending(t, id) == Pending(s, id)
      && Sum(t.enqueued, Is(id)) + Sum(t.submitters, SendingOf(id)) == Sum(s.enqueued, Is(id)) + Sum(s.submitters, SendingOf(id))
  {
    SendMoves(s.submitters, i, s.queue, s.enqueued, id);
  }

  lemma SendStep(idOf: Manifest -> Id, s: Server, i: nat, id: Id)
    requires IdOk(s, id) && Enabled(s, Send(i))
    ensures IdOk(Step(idOf, s, Send(i)), id)
  {
    SendCounts(idOf, s, i, id);
  }

  lemma WorkerMoves(s: Server, w: nat, p: Worker, id: Id)
    requires w < |s.workers|
    ensures Sum(s.workers[w := p], PendingOf(id)) + PendingOf(id)(s.workers[w]) == Sum(s.workers, PendingOf(id)) + PendingOf(id)(p)
    ensures Sum(s.workers[w := p], ActiveOf(id)) + ActiveOf(id)(s.workers[w]) == Sum(s.workers, ActiveOf(id)) + ActiveOf(id)(p)
  {
    SumUpdate(s.workers, w, p, PendingOf(id));
    SumUpdate(s.workers, w, p, ActiveOf(id));
  }

  /** A worker that takes the lock or gets its outcome stays as pending or active as it was. */
  lemma WorkerCounts(idOf: Manifest -> Id, s: Server, a: Action, id: Id)
    requires Enabled(s, a) && (a.LockToMark? || a.EngineReturns? || a.LockToStore?)
    ensures var t := Step(idOf, s, a);
      && t.jobs == s.jobs && t.submitters == s.submitters && t.enqueued == s.enqueued && t.started == s.started
      && Pending(t, id) == Pending(s, id) && Active(t, id) == Active(s, id)
  {
    WorkerMoves(s, a.w, Step(idOf, s, a).workers[a.w], id);
  }

  lemma WorkerStep(idOf: Manifest -> Id, s: Server, a: Action, id: Id)
    requires IdOk(s, id) && Enabled(s, a) && (a.LockToMark? || a.EngineReturns? || a.LockToStore?)
    ensures IdOk(Step(idOf, s, a), id)
  {
    WorkerCounts(idOf, s, a, id);
  }

  lemma ReceiveStep(idOf: Manifest -> Id, s: Server, w: nat, id: Id)
    requires IdOk(s, id) && Enabled(s, Receive(w))
    ensures IdOk(Step(idOf, s, Receive(w)), id)
  {
    WorkerMoves(s, w, Received(s.queue[0]), id);
    SumTail(s.queue, Is(id));
  }

  /** A marking worker carries a queued job, a storing worker a proving one. */
  lemma CarriedJob(s: Server, w: nat)
    requires w < |s.workers| && !s.workers[w].Idle? && IdOk(s, s.workers[w].id)
    ensures s.workers[w].Marking? ==> s.workers[w].id in s.jobs && s.jobs[s.workers[w].id].state == JobQueued
    ensures s.workers[w].Storing? ==> s.workers[w].id in s.jobs && s.jobs[s.workers[w].id].state == JobProving
  {
    TermBound(s.workers, w, PendingOf(s.workers[w].id));
    TermBound(s.workers, w, ActiveOf(s.workers[w].id));
  }

  lemma MarkStep(idOf: Manifest -> Id, s: Server, w: nat, id: Id)
    requires Enabled(s, MarkAndUnlock(w)) && IdOk(s, id) && IdOk(s, s.workers[w].id)
    ensures IdOk(Step(idOf, s, MarkAndUnlock(w)), id)
  {
    CarriedJob(s, w);
    WorkerMoves(s, w, InEngine(s.workers[w].id), id);
    SumSnoc(s.started, s.workers[w].id, Is(id));
  }

  lemma StoreStep(idOf: Manifest -> Id, s: Server, w: nat, id: Id)
    requires Enabled(s, StoreAndUnlock(w)) && IdOk(s, id) && IdOk(s, s.workers[w].id)
    ensures IdOk(Step(idOf, s, StoreAndUnlock(w)), id)
  {
    CarriedJob(s, w);
    WorkerMoves(s, w, Idle, id);
  }

  /** How a single step may change a job. */
  predicate Advances(before: Job, after: Job) {
    && after.manifest == before.manifest
    && (after == before
        || (before.state == JobQueued && after.state == JobProving && after.artifact == before.artifact)
        || (before.state == JobProving && (after.state == JobSucceeded || after.state == JobFailed)))
  }

  ghost predicate JobsAdvance(before: Jobs, after: Jobs) {
    && (forall id :: id in before ==> id in after && Advances(before[id], after[id]))
    && (forall id :: id in after && id !in before ==> after[id].state == JobQueued)
  }

  /** Readers take no part in the flow of jobs. */
  lemma ReaderStep(idOf: Manifest -> Id, s: Server, a: Action, id: Id)
    requires IdOk(s, id) && Enabled(s, a) && (a.Ask? || a.ReadLock? || a.ReadAndUnlock?)
    ensures IdOk(Step(idOf, s, a), id)
  {
  }

  lemma IdsKeep(idOf: Manifest -> Id, s: Server, a: Action, id: Id)
    requires Invariant(s) && Enabled(s, a)
    ensures IdOk(Step(idOf, s, a), id)
  {
    assert IdOk(s, id);
    match a
    case MarkAndUnlock(w) => assert IdOk(s, s.workers[w].id); MarkStep(idOf, s, w, id);
    case StoreAndUnlock(w) => assert IdOk(s, s.workers[w].id); StoreStep(idOf, s, w, id);
    case Arrive(_) => SubmitterStep(idOf, s, a, id);
    case LockToFile(_) => SubmitterStep(idOf, s, a, id);
    case FileAndUnlock(i) => FileStep(idOf, s, i, id);
    case Send(i) => SendStep(idOf, s, i, id);
    case Receive(w) => ReceiveStep(idOf, s, w, id);
    case Ask(_) => ReaderStep(idOf, s, a, id);
    case ReadLock(_) => ReaderStep(idOf, s, a, id);
    case ReadAndUnlock(_) => ReaderStep(idOf, s, a, id);
    case _ => WorkerStep(idOf, s, a, id);
  }

  lemma JobsKeep(idOf: Manifest -> Id, s: Server, a: Action)
    requires Invariant(s) && Enabled(s, a)
    ensures var t := Step(idOf, s, a);
            (forall id :: id in t.jobs ==> JobOk(t.jobs[id])) && JobsAdvance(s.jobs, t.jobs)
  {
    match a
    case MarkAndUnlock(w) => assert IdOk(s, s.workers[w].id); CarriedJob(s, w);
    case StoreAndUnlock(w) => assert IdOk(s, s.workers[w].id); CarriedJob(s, w);
    case _ =>
  }

  /** Only readers touch the readers, and the write lock is taken only when there are none. */
  lemma ReadersUntouched(idOf: Manifest -> Id, s: Server, a: Action)
    requires Enabled(s, a) && !a.Ask? && !a.ReadLock? && !a.ReadAndUnlock?
    ensures var t := Step(idOf, s, a);
      t.readers == s.readers && t.readLocks == s.readLocks && (t.lock.Some? ==> s.lock.Some? || s.readLocks == 0)
  {
  }

  /** The count of read locks follows the readers. */
  lemma ReadLocksKeep(idOf: Manifest -> Id, s: Server, a: Action)
    requires ReadLocksOk(s) && Enabled(s, a)
    ensures ReadLocksOk(Step(idOf, s, a))
  {
    if a.Ask? {
      SumSnoc(s.readers, Asked(a.query), ReadingOf());
    } else if a.ReadLock? || a.ReadAndUnlock? {
      SumUpdate(s.readers, a.i, Step(idOf, s, a).readers[a.i], ReadingOf());
    } else {
      ReadersUntouched(idOf, s, a);
    }
  }

  /** Answers stay true while jobs advance. */
  lemma ReplyKeeps(before: Jobs, after: Jobs, r: Reader)
    requires ReplyOk(before, r) && JobsAdvance(before, after)
    ensures ReplyOk(after, r)
  {
    if r.Answered? && r.query.id in before {
      assert Advances(before[r.query.id], after[r.query.id]);
    }
  }

  lemma AnswerOk(jobs: Jobs, query: Query)
    requires forall id :: id in jobs ==> JobOk(jobs[id])
    ensures ReplyOk(jobs, Answered(query, Answer(jobs, query)))
  {
    if query.id in jobs {
      assert JobOk(jobs[query.id]);
    }
  }

  lemma RepliesKeep(idOf: Manifest -> Id, s: Server, a: Action)
    requires Enabled(s, a) && JobsAdvance(s.jobs, Step(idOf, s, a).jobs)
    requires forall id :: id in s.jobs ==> JobOk(s.jobs[id])
    requires forall i :: 0 <= i < |s.readers| ==> ReplyOk(s.jobs, s.readers[i])
    ensures var t := Step(idOf, s, a); forall i :: 0 <= i < |t.readers| ==> ReplyOk(t.jobs, t.readers[i])
  {
    var t := Step(idOf, s, a);
    if a.ReadAndUnlock? {
      AnswerOk(s.jobs, s.readers[a.i].query);
    }
    forall i | 0 <= i < |t.readers| ensures ReplyOk(t.jobs, t.readers[i]) {
      if i < |s.readers| {
        ReplyKeeps(s.jobs, t.jobs, s.readers[i]);
      }
    }
  }

  /** The channel is first in, first out: what was sent is what was received, in that order, and then what is still
      in it; a receiver gets the oldest. */
  lemma ChannelKeeps(idOf: Manifest -> Id, s: Server, a: Action)
    requires Enabled(s, a) && s.enqueued == s.received + s.queue && |s.queue| <= s.capacity
    ensures var t := Step(idOf, s, a); t.enqueued == t.received + t.queue && |t.queue| <= t.capacity == s.capacity
    ensures a.Receive? ==> Step(idOf, s, a).workers[a.w] == Received(s.enqueued[|s.received|])
  {
    if a.Receive? {
      assert s.queue == [s.queue[0]] + s.queue[1..];
    }
  }

  /** Every enabled step keeps the invariant and moves each job only Queued to Proving to Succeeded or Failed. */
  lemma StepKeeps(idOf: Manifest -> Id, s: Server, a: Action)
    requires Invariant(s) && Enabled(s, a)
    ensures Invariant(Step(idOf, s, a)) && JobsAdvance(s.jobs, Step(idOf, s, a).jobs)
  {
    LockKeeps(idOf, s, a);
    JobsKeep(idOf, s, a);
    ReadLocksKeep(idOf, s, a);
    ChannelKeeps(idOf, s, a);
    RepliesKeep(idOf, s, a);
    forall id ensures IdOk(Step(idOf, s, a), id) {
      IdsKeep(idOf, s, a, id);
    }
  }

  /** Over every interleaving from a fresh server: the lock discipline, the location of every job id, at most one
      send and one engine start per id, artifacts exactly where the job succeeded with a recursive proof, and answers
      to readers that stay true. */
  lemma {:induction false} ExecutionKeeps(idOf: Manifest -> Id, workers: int, actions: seq<Action>)
    requires Execution(idOf, NewServer(workers), actions)
    ensures Invariant(After(idOf, NewServer(workers), actions))
    decreases |actions|
  {
    if actions == [] {
      NewServerOk(workers);
    } else {
      ExecutionKeeps(idOf, workers, actions[..|actions| - 1]);
      StepKeeps(idOf, After(idOf, NewServer(workers), actions[..|actions| - 1]), actions[|actions| - 1]);
    }
  }

  /** A finished job never changes again, in any continuation. */
  lemma {:induction false} FinishedForever(idOf: Manifest -> Id, s: Server, actions: seq<Action>, id: Id)
    requires Invariant(s) && Execution(idOf, s, actions)
    requires id in s.jobs && (s.jobs[id].state == JobSucceeded || s.jobs[id].state == JobFailed)
    ensures Invariant(After(idOf, s, actions))
    ensures id in After(idOf, s, actions).jobs && After(idOf, s, actions).jobs[id] == s.jobs[id]
    decreases |actions|
  {
    if actions != [] {
      FinishedForever(idOf, s, actions[..|actions| - 1], id);
      StepKeeps(idOf, After(idOf, s, actions[..|actions| - 1]), actions[|actions| - 1]);
    }
  }

  // ----- what the critical sections do

  /** A new server has no jobs, one idle worker or more, and four channel slots for each. */
  lemma NewServerShape(workers: int)
    ensures var s := NewServer(workers);
      && s.jobs == map[] && s.queue == [] && s.lock.None? && s.readLocks == 0
      && |s.workers| == (if workers < 1 then 1 else workers) && s.capacity == 4 * |s.workers|
      && forall w :: 0 <= w < |s.workers| ==> s.workers[w].Idle?
  {
  }

  /** Filing answers a known id and queues a new one with the submitted manifest; no other job changes, and the
      submitter goes on to send exactly the new ones. */
  lemma FileExact(idOf: Manifest -> Id, s: Server, i: nat)
    requires Enabled(s, FileAndUnlock(i))
    ensures var t, m := Step(idOf, s, FileAndUnlock(i)), s.submitters[i].manifest;
      && (idOf(m) in s.jobs ==> t.jobs == s.jobs && t.submitters[i].Replied?)
      && (idOf(m) !in s.jobs ==>
           && t.jobs.Keys == s.jobs.Keys + {idOf(m)} && t.jobs[idOf(m)] == Job(JobQueued, m, None)
           && t.submitters[i] == Sending(idOf(m)))
      && forall id :: id in s.jobs ==> id in t.jobs && t.jobs[id] == s.jobs[id]
  {
  }

  /** Marking makes the worker's own job proving and hands it to the engine; no other job changes. */
  lemma MarkExact(idOf: Manifest -> Id, s: Server, w: nat)
    requires Invariant(s) && Enabled(s, MarkAndUnlock(w))
    ensures var t, id := Step(idOf, s, MarkAndUnlock(w)), s.workers[w].id;
      && id in s.jobs && s.jobs[id].state == JobQueued && t.jobs.Keys == s.jobs.Keys
      && t.jobs[id].state == JobProving && t.jobs[id].manifest == s.jobs[id].manifest && t.jobs[id].artifact.None?
      && t.workers[w] == InEngine(id)
      && forall other :: other in s.jobs && other != id ==> t.jobs[other] == s.jobs[other]
  {
    assert IdOk(s, s.workers[w].id);
    CarriedJob(s, w);
    assert JobOk(s.jobs[s.workers[w].id]);
  }

  /** The outcome that makes a job succeed. */
  predicate Proves(outcome: Outcome) {
    outcome.EngineResult? && outcome.artifact.Some? && outcome.artifact.value.recursivelyProved
  }

  /** Storing makes the worker's own job succeed, with exactly the engine's artifact, if that is recursively proved, and
      fail without an artifact otherwise; no other job changes. */
  lemma StoreExact(idOf: Manifest -> Id, s: Server, w: nat)
    requires Invariant(s) && Enabled(s, StoreAndUnlock(w))
    ensures var t, id, outcome := Step(idOf, s, StoreAndUnlock(w)), s.workers[w].id, s.workers[w].outcome;
      && id in s.jobs && s.jobs[id].state == JobProving && t.jobs.Keys == s.jobs.Keys
      && t.jobs[id].manifest == s.jobs[id].manifest && t.workers[w].Idle?
      && (Proves(outcome) ==> t.jobs[id].state == JobSucceeded && t.jobs[id].artifact == outcome.artifact)
      && (!Proves(outcome) ==> t.jobs[id].state == JobFailed && t.jobs[id].artifact.None?)
      && forall other :: other in s.jobs && other != id ==> t.jobs[other] == s.jobs[other]
  {
    assert IdOk(s, s.workers[w].id);
    CarriedJob(s, w);
  }

  predicate OfWorker(a: Action, w: nat) {
    (a.Receive? || a.LockToMark? || a.MarkAndUnlock? || a.EngineReturns? || a.LockToStore? || a.StoreAndUnlock?) && a.w == w
  }

  /** A worker changes only by its own steps, which carry its id, and from the engine on the engine's outcome. */
  lemma WorkerSteps(idOf: Manifest -> Id, s: Server, a: Action, w: nat)
    requires Enabled(s, a) && w < |s.workers|
    ensures var t := Step(idOf, s, a);
      && |t.workers| == |s.workers|
      && (a == LockToMark(w) ==> t.workers[w] == Marking(s.workers[w].id))
      && (a == MarkAndUnlock(w) ==> t.workers[w] == InEngine(s.workers[w].id))
      && (a.EngineReturns? && a.w == w ==> t.workers[w] == Returned(s.workers[w].id, a.outcome))
      && (a == LockToStore(w) ==> t.workers[w] == Storing(s.workers[w].id, s.workers[w].outcome))
      && (!OfWorker(a, w) ==> t.workers[w] == s.workers[w])
  {
  }

  /** No action of worker w. */
  ghost predicate Leaves(actions: seq<Action>, w: nat) {
    forall a :: a in actions ==> !OfWorker(a, w)
  }

  lemma {:induction false} WorkerWaits(idOf: Manifest -> Id, s: Server, actions: seq<Action>, w: nat)
    requires Execution(idOf, s, actions) && Leaves(actions, w) && w < |s.workers|
    ensures |After(idOf, s, actions).workers| == |s.workers| && After(idOf, s, actions).workers[w] == s.workers[w]
    decreases |actions|
  {
    if actions != [] {
      var front, last := actions[..|actions| - 1], actions[|actions| - 1];
      assert last in actions && forall a :: a in front ==> a in actions;
      WorkerWaits(idOf, s, front, w);
      WorkerSteps(idOf, After(idOf, s, front), last, w);
    }
  }

  lemma {:induction false} ExecutionFrom(idOf: Manifest -> Id, s: Server, actions: seq<Action>)
    requires Invariant(s) && Execution(idOf, s, actions)
    ensures Invariant(After(idOf, s, actions))
    decreases |actions|
  {
    if actions != [] {
      ExecutionFrom(idOf, s, actions[..|actions| - 1]);
      StepKeeps(idOf, After(idOf, s, actions[..|actions| - 1]), actions[|actions| - 1]);
    }
  }

  /** The engine's result reaches the job, over every interleaving: whatever else happens between the engine's return,
      the worker's lock and its store, and for ever after, the job of a recursively proved result has succeeded with that
      very artifact, and the job of any other result has failed without one. */
  lemma EngineResultStays(idOf: Manifest -> Id, s: Server, w: nat, outcome: Outcome, waiting: seq<Action>, locked: seq<Action>,
                          later: seq<Action>)
    requires Invariant(s) && Enabled(s, EngineReturns(w, outcome)) && Leaves(waiting, w) && Leaves(locked, w)
    requires var returned := Step(idOf, s, EngineReturns(w, outcome));
      && Execution(idOf, returned, waiting) && Enabled(After(idOf, returned, waiting), LockToStore(w))
      && var storing := Step(idOf, After(idOf, returned, waiting), LockToStore(w));
      && Execution(idOf, storing, locked) && Enabled(After(idOf, storing, locked), StoreAndUnlock(w))
      && Execution(idOf, Step(idOf, After(idOf, storing, locked), StoreAndUnlock(w)), later)
    ensures var returned := Step(idOf, s, EngineReturns(w, outcome));
      var storing := Step(idOf, After(idOf, returned, waiting), LockToStore(w));
      var end := After(idOf, Step(idOf, After(idOf, storing, locked), StoreAndUnlock(w)), later);
      var id := s.workers[w].id;
      && id in end.jobs
      && (Proves(outcome) ==> end.jobs[id].state == JobSucceeded && end.jobs[id].artifact == outcome.artifact)
      && (!Proves(outcome) ==> end.jobs[id].state == JobFailed && end.jobs[id].artifact.None?)
  {
    var returned := Step(idOf, s, EngineReturns(w, outcome));
    StepKeeps(idOf, s, EngineReturns(w, outcome));
    ExecutionFrom(idOf, returned, waiting);
    WorkerWaits(idOf, returned, waiting, w);
    var waited := After(idOf, returned, waiting);
    StoredResultStays(idOf, waited, w, s.workers[w].id, outcome, locked, later);
  }

  lemma StoredResultStays(idOf: Manifest -> Id, s: Server, w: nat, id: Id, outcome: Outcome, locked: seq<Action>, later: seq<Action>)
    requires Invariant(s) && Enabled(s, LockToStore(w)) && s.workers[w] == Returned(id, outcome) && Leaves(locked, w)
    requires var storing := Step(idOf, s, LockToStore(w));
      && Execution(idOf, storing, locked) && Enabled(After(idOf, storing, locked), StoreAndUnlock(w))
      && Execution(idOf, Step(idOf, After(idOf, storing, locked), StoreAndUnlock(w)), later)
    ensures var end := After(idOf, Step(idOf, After(idOf, Step(idOf, s, LockToStore(w)), locked), StoreAndUnlock(w)), later);
      && id in end.jobs
      && (Proves(outcome) ==> end.jobs[id].state == JobSucceeded && end.jobs[id].artifact == outcome.artifact)
      && (!Proves(outcome) ==> end.jobs[id].state == JobFailed && end.jobs[id].artifact.None?)
  {
    var storing := Step(idOf, s, LockToStore(w));
    StepKeeps(idOf, s, LockToStore(w));
    ExecutionFrom(idOf, storing, locked);
    WorkerWaits(idOf, storing, locked, w);
    var ready := After(idOf, storing, locked);
    StoreExact(idOf, ready, w);
    StepKeeps(idOf, ready, StoreAndUnlock(w));
    FinishedForever(idOf, Step(idOf, ready, StoreAndUnlock(w)), later, id);
  }

  /** Every job is filed under the id of its own manifest, in every interleaving. */
  lemma {:induction false} ManifestsMatch(idOf: Manifest -> Id, workers: int, actions: seq<Action>, id: Id)
    requires Execution(idOf, NewServer(workers), actions)
    requires id in After(idOf, NewServer(workers), actions).jobs
    ensures idOf(After(idOf, NewServer(workers), actions).jobs[id].manifest) == id
    decreases |actions|
  {
    if actions != [] {
      var front, a := actions[..|actions| - 1], actions[|actions| - 1];
      var before := After(idOf, NewServer(workers), front);
      ExecutionKeeps(idOf, workers, front);
      StepKeeps(idOf, before, a);
      if id in before.jobs {
        ManifestsMatch(idOf, workers, front, id);
        assert Advances(before.jobs[id], Step(idOf, before, a).jobs[id]);
      }
    }
  }

  /** What a reader is answered: of a job that is not there, that it is not; of a job, its snapshot; and an artifact
      exactly if the job has succeeded with one. */
  lemma AnswerExact(idOf: Manifest -> Id, s: Server, i: nat)
    requires Invariant(s) && Enabled(s, ReadAndUnlock(i))
    ensures var t, query := Step(idOf, s, ReadAndUnlock(i)), s.readers[i].query;
      && t.jobs == s.jobs && t.readers[i].Answered? && t.readers[i].query == query
      && (query.JobQuery? ==> t.readers[i].reply == JobReply(if query.id in s.jobs then Some(s.jobs[query.id]) else None))
      && (query.ArtifactQuery? && query.id !in s.jobs ==> t.readers[i].reply == ArtifactReply(NotFound))
      && (query.ArtifactQuery? && query.id in s.jobs && s.jobs[query.id].state == JobSucceeded ==>
            s.jobs[query.id].artifact.Some? && t.readers[i].reply == ArtifactReply(Found(s.jobs[query.id].artifact.value)))
      && (query.ArtifactQuery? && query.id in s.jobs && s.jobs[query.id].state != JobSucceeded ==>
            t.readers[i].reply == ArtifactReply(Conflict(s.jobs[query.id].state)))
  {
    if s.readers[i].query.id in s.jobs {
      assert JobOk(s.jobs[s.readers[i].query.id]);
    }
  }

  // ----- progress

  function SubmitterWork(p: Submitter): nat {
    match p
    case Arrived(_) => 9
    case Filing(_) => 8
    case Sending(_) => 7
    case Replied => 0
  }

  function WorkerWork(w: Worker): nat {
    match w
    case Idle => 0
    case Received(_) => 5
    case Marking(_) => 4
    case InEngine(_) => 3
    case Returned(_, _) => 2
    case Storing(_, _) => 1
  }

  function ReaderWork(r: Reader): nat {
    match r
    case Asked(_) => 2
    case Reading(_) => 1
    case Answered(_, _) => 0
  }

  /** Outstanding work: the steps that are still to be taken, six for an id in the channel. */
  function Rank(s: Server): nat {
    Sum(s.submitters, SubmitterWork) + 6 * |s.queue| + Sum(s.workers, WorkerWork) + Sum(s.readers, ReaderWork)
  }

  lemma SubmitterRank(idOf: Manifest -> Id, s: Server, a: Action)
    requires Enabled(s, a) && (a.LockToFile? || a.FileAndUnlock? || a.Send?)
    ensures Rank(Step(idOf, s, a)) < Rank(s)
  {
    SumUpdate(s.submitters, a.i, Step(idOf, s, a).submitters[a.i], SubmitterWork);
  }

  lemma ReaderRank(idOf: Manifest -> Id, s: Server, a: Action)
    requires Enabled(s, a) && (a.ReadLock? || a.ReadAndUnlock?)
    ensures Rank(Step(idOf, s, a)) < Rank(s)
  {
    SumUpdate(s.readers, a.i, Step(idOf, s, a).readers[a.i], ReaderWork);
  }

  lemma WorkerRank(idOf: Manifest -> Id, s: Server, a: Action)
    requires Enabled(s, a)
    requires a.Receive? || a.LockToMark? || a.MarkAndUnlock? || a.EngineReturns? || a.LockToStore? || a.StoreAndUnlock?
    ensures Rank(Step(idOf, s, a)) < Rank(s)
  {
    SumUpdate(s.workers, a.w, Step(idOf, s, a).workers[a.w], WorkerWork);
  }

  /** Every step but the arrival of a request lowers the rank, so without arrivals every execution ends. */
  lemma RankDecreases(idOf: Manifest -> Id, s: Server, a: Action)
    requires Enabled(s, a) && !IsArrival(a)
    ensures Rank(Step(idOf, s, a)) < Rank(s)
  {
    if a.LockToFile? || a.FileAndUnlock? || a.Send? {
      SubmitterRank(idOf, s, a);
    } else if a.ReadLock? || a.ReadAndUnlock? {
      ReaderRank(idOf, s, a);
    } else {
      WorkerRank(idOf, s, a);
    }
  }

  ghost predicate NoArrivals(actions: seq<Action>) {
    forall a :: a in actions ==> !IsArrival(a)
  }

  lemma {:induction false} ExecutionBounded(idOf: Manifest -> Id, s: Server, actions: seq<Action>)
    requires Execution(idOf, s, actions) && NoArrivals(actions)
    ensures |actions| + Rank(After(idOf, s, actions)) <= Rank(s)
    decreases |actions|
  {
    if actions != [] {
      var front, last := actions[..|actions| - 1], actions[|actions| - 1];
      assert last in actions && forall a :: a in front ==> a in actions;
      ExecutionBounded(idOf, s, front);
      RankDecreases(idOf, After(idOf, s, front), last);
    }
  }

  lemma {:induction false} PositiveTerm<T>(xs: seq<T>, f: T -> nat) returns (i: nat)
    requires Sum(xs, f) > 0
    ensures i < |xs| && f(xs[i]) > 0
  {
    if f(xs[|xs| - 1]) > 0 {
      i := |xs| - 1;
    } else {
      i := PositiveTerm(xs[..|xs| - 1], f);
    }
  }

  /** The next step of whoever holds the lock. */
  lemma HolderProceeds(s: Server) returns (a: Action)
    requires LockOk(s) && s.lock.Some?
    ensures !IsArrival(a) && Enabled(s, a)
  {
    var t := s.lock.value;
    assert Holds(s, t);
    match t
    case SubmitterThread(i) => a := FileAndUnlock(i);
    case WorkerThread(w) => a := if s.workers[w].Marking? then MarkAndUnlock(w) else StoreAndUnlock(w);
  }

  /** A busy worker can go on when the lock is free. */
  lemma WorkerProceeds(s: Server, w: nat) returns (a: Action)
    requires LockOk(s) && WriteFree(s) && w < |s.workers| && !s.workers[w].Idle?
    ensures !IsArrival(a) && Enabled(s, a)
  {
    assert !Holds(s, WorkerThread(w));
    match s.workers[w]
    case Received(_) => a := LockToMark(w);
    case InEngine(_) => a := EngineReturns(w, EngineError);
    case Returned(_, _) => a := LockToStore(w);
  }

  /** A waiting reader can go on when the mutex is free. */
  lemma ReaderProceeds(s: Server) returns (a: Action)
    requires ReadLocksOk(s) && WriteFree(s) && Sum(s.readers, ReaderWork) > 0
    ensures !IsArrival(a) && Enabled(s, a)
  {
    var i := PositiveTerm(s.readers, ReaderWork);
    TermBound(s.readers, i, ReadingOf());
    a := ReadLock(i);
  }

  /** No deadlock: while work is outstanding some step other than an arrival is enabled. */
  lemma NoDeadlock(s: Server) returns (a: Action)
    requires Invariant(s) && Rank(s) > 0
    ensures !IsArrival(a) && Enabled(s, a)
  {
    if s.lock.Some? {
      a := HolderProceeds(s);
    } else if s.readLocks > 0 {
      var i := PositiveTerm(s.readers, ReadingOf());
      a := ReadAndUnlock(i);
    } else if Sum(s.readers, ReaderWork) > 0 {
      a := ReaderProceeds(s);
    } else if !s.workers[0].Idle? {
      a := WorkerProceeds(s, 0);
    } else if s.queue != [] {
      a := Receive(0);
    } else if Sum(s.submitters, SubmitterWork) > 0 {
      var i := PositiveTerm(s.submitters, SubmitterWork);
      assert !Holds(s, SubmitterThread(i));
      a := if s.submitters[i].Arrived? then LockToFile(i) else Send(i);
    } else {
      var w := PositiveTerm(s.workers, WorkerWork);
      a := WorkerProceeds(s, w);
    }
  }

  /** When no step but an arrival is enabled, every job has succeeded or failed, and every submitter and every reader
      was answered. */
  lemma QuietMeansDone(s: Server)
    requires Invariant(s) && forall a: Action :: Enabled(s, a) ==> IsArrival(a)
    ensures Rank(s) == 0
    ensures forall id :: id in s.jobs ==> s.jobs[id].state == JobSucceeded || s.jobs[id].state == JobFailed
    ensures forall i :: 0 <= i < |s.submitters| ==> s.submitters[i].Replied?
    ensures forall i :: 0 <= i < |s.readers| ==> s.readers[i].Answered?
  {
    if Rank(s) > 0 {
      var a := NoDeadlock(s);
    }
    forall i | 0 <= i < |s.submitters| ensures s.submitters[i].Replied? {
      TermBound(s.submitters, i, SubmitterWork);
    }
    forall i | 0 <= i < |s.readers| ensures s.readers[i].Answered? {
      TermBound(s.readers, i, ReaderWork);
    }
    forall w | 0 <= w < |s.workers| ensures s.workers[w].Idle? {
      TermBound(s.workers, w, WorkerWork);
    }
    forall id | id in s.jobs ensures s.jobs[id].state == JobSucceeded || s.jobs[id].state == JobFailed {
      SumZero(s.submitters, SendingOf(id));
      SumZero(s.workers, PendingOf(id));
      SumZero(s.workers, ActiveOf(id));
      assert IdOk(s, id);
    }
  }

  // ----- the server object

  /** The shared memory of the server, with one method per critical section or channel operation. */
  class ProofServer {
    var jobs: Jobs
    var queue: seq<Id>
    const capacity: nat

    constructor (workers: int)
      ensures jobs == map[] && queue == [] && capacity == NewServer(workers).capacity == 4 * (if workers < 1 then 1 else workers)
    {
      jobs, queue := map[], [];
      capacity := 4 * (if workers < 1 then 1 else workers);
    }

    /** The critical section of `submit`; a new job still has to be sent, after unlocking. */
    method File(id: Id, manifest: Manifest) returns (isNew: bool, snapshot: Job)
      modifies this`jobs
      ensures jobs == FileJob(old(jobs), id, manifest)
      ensures isNew <==> id !in old(jobs)
      ensures id in jobs && snapshot == jobs[id]
      ensures isNew ==> snapshot == Job(JobQueued, manifest, None)
    {
      if id in jobs {
        return false, jobs[id];
      }
      var job := Job(JobQueued, manifest, None);
      jobs := jobs[id := job];
      return true, job;
    }

    method SendToQueue(id: Id)
      requires |queue| < capacity
      modifies this`queue
      ensures queue == old(queue) + [id] && |queue| <= capacity
    {
      queue := queue + [id];
    }

    method ReceiveFromQueue() returns (id: Id)
      requires queue != []
      modifies this`queue
      ensures [id] + queue == old(queue)
    {
      id := queue[0];
      queue := queue[1..];
    }

    method MarkProving(id: Id)
      requires id in jobs
      modifies this`jobs
      ensures jobs == MarkJob(old(jobs), id) == old(jobs)[id := old(jobs)[id].(state := JobProving)]
    {
      jobs := jobs[id := jobs[id].(state := JobProving)];
    }

    method StoreOutcome(id: Id, outcome: Outcome)
      requires id in jobs
      modifies this`jobs
      ensures jobs == StoreJob(old(jobs), id, outcome)
      ensures jobs[id].state == (if Proves(outcome) then JobSucceeded else JobFailed)
      ensures jobs[id].artifact == if Proves(outcome) then outcome.artifact else None
    {
      var job := jobs[id];
      if outcome.EngineError? {
        job := job.(state := JobFailed, artifact := None);
      } else if outcome.artifact.None? || !outcome.artifact.value.recursivelyProved {
        job := job.(state := JobFailed, artifact := None);
      } else {
        job := job.(state := JobSucceeded, artifact := outcome.artifact);
      }
      jobs := jobs[id := job];
    }

    /** The critical section of `readJob`. */
    method ReadJob(id: Id) returns (snapshot: Option<Job>)
      ensures JobReply(snapshot) == Answer(jobs, JobQuery(id))
      ensures snapshot == if id in jobs then Some(jobs[id]) else None
    {
      if id !in jobs {
        return None;
      }
      return Some(jobs[id]);
    }

    /** `readArtifact`: the answer of the reader's step, so on jobs that the invariant holds of, an artifact is served
        exactly for a succeeded job, and it is then recursively proved. */
    method ReadArtifact(id: Id) returns (r: ReadResult)
      ensures ArtifactReply(r) == Answer(jobs, ArtifactQuery(id))
      ensures (forall k :: k in jobs ==> JobOk(jobs[k])) ==>
        && (r.Found? <==> id in jobs && jobs[id].state == JobSucceeded)
        && (r.Found? ==> jobs[id].artifact == Some(r.artifact) && r.artifact.recursivelyProved)
    {
      if id !in jobs {
        return NotFound;
      }
      var job := jobs[id];
      if job.state != JobSucceeded || job.artifact.None? {
        return Conflict(job.state);
      }
      return Found(job.artifact.value);
    }
  }
}

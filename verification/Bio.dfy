/**
 Background jobs (bio.c). Each of the three workers has a queue guarded by a
 mutex and a condition variable, which the worker shares with whoever waits
 for the queue to drain. Completion requests come back to the event loop
 through a list and a non-blocking pipe.

 Every statement that touches shared state is a step of its own, and steps of
 different threads interleave freely. `submitted`, `ran` and `called` record
 what happened and guide no step.
 */
module Bio {

  const WORKERS := 3

  datatype JobType =
    CloseFile | AofFsync | LazyFree | CloseAof | CompCloseFile | CompAofFsync | CompLazyFree

  /** bio_job_to_worker */
  function WorkerOf(ty: JobType): nat {
    match ty
    case CloseFile => 0
    case AofFsync => 1
    case CloseAof => 1
    case LazyFree => 2
    case CompCloseFile => 0
    case CompAofFsync => 1
    case CompLazyFree => 2
  }

  predicate IsCompletion(ty: JobType) {
    ty.CompCloseFile? || ty.CompAofFsync? || ty.CompLazyFree?
  }

  datatype Job = Job(ty: JobType, arg: nat)

  /** A list node; `id` stands for its address. */
  datatype Node = Node(id: nat, job: Job)

  datatype Owner = Free | ByWorker | ByCall(t: nat)

  /** Where a worker thread stands in its loop. */
  datatype WorkerPc =
    | Top                          // start of the loop, mutex held
    | Waiting                      // in pthread_cond_wait
    | Woken                        // woken, the mutex still to be taken
    | Running(node: Node)
    | Writing(node: Node)          // completion appended, wake-up byte to be written
    | Finished(node: Node)
    | Deleting(node: Node)         // mutex taken again
    | Decrementing(ty: JobType)
    | Signalling

  /** Where a call of bioSubmitJob or bioDrainWorker stands. */
  datatype CallPc =
    | Idle
    | Pushing(job: Job)            // mutex held from here on
    | Counting(ty: JobType)
    | Notifying
    | Unlocking
    | Draining                     // at the loop test, mutex held
    | Sleeping                     // in pthread_cond_wait
    | Awake
    | Drained                      // loop left, mutex held

  /** One worker with everything its mutex guards. */
  datatype Lane = Lane(
    queue: seq<Node>,
    counter: map<JobType, int>,
    owner: Owner,
    pc: WorkerPc,
    calls: map<nat, CallPc>,
    submitted: seq<Job>,
    ran: seq<Job>)

  function PcOf(l: Lane, t: nat): CallPc {
    if t in l.calls then l.calls[t] else Idle
  }

  /** Whom pthread_cond_signal wakes. */
  datatype Wake = Nobody | TheWorker | TheCall(t: nat)

  datatype LaneAction =
    | SubmitLock(t: nat, job: Job) | Push(t: nat) | CountUp(t: nat) | Notify(t: nat, wake: Wake) | Unlock(t: nat)
    | DrainLock(t: nat) | DrainTest(t: nat) | DrainRelock(t: nat) | DrainUnlock(t: nat) | StrayCall(t: nat)
    | Relock | Loop | Run | WriteByte | LockAgain | Delete | CountDown | Signal(wake: Wake) | StrayWorker

  ghost predicate CanWake(l: Lane, k: Wake) {
    match k
    case Nobody => !l.pc.Waiting? && forall t :: !PcOf(l, t).Sleeping?
    case TheWorker => l.pc.Waiting?
    case TheCall(t) => PcOf(l, t).Sleeping?
  }

  function Awaken(l: Lane, k: Wake): Lane {
    match k
    case Nobody => l
    case TheWorker => l.(pc := Woken)
    case TheCall(t) => l.(calls := l.calls[t := Awake])
  }

  ghost predicate LaneEnabled(w: nat, l: Lane, a: LaneAction) {
    match a
    case SubmitLock(t, job) => PcOf(l, t).Idle? && l.owner.Free? && WorkerOf(job.ty) == w
    case Push(t) => PcOf(l, t).Pushing?
    case CountUp(t) => PcOf(l, t).Counting? && PcOf(l, t).ty in l.counter
    case Notify(t, k) => PcOf(l, t).Notifying? && CanWake(l, k)
    case Unlock(t) => PcOf(l, t).Unlocking?
    case DrainLock(t) => PcOf(l, t).Idle? && l.owner.Free?
    case DrainTest(t) => PcOf(l, t).Draining?
    case DrainRelock(t) => PcOf(l, t).Awake? && l.owner.Free?
    case DrainUnlock(t) => PcOf(l, t).Drained?
    case StrayCall(t) => PcOf(l, t).Sleeping?
    case Relock => l.pc.Woken? && l.owner.Free?
    case Loop => l.pc.Top?
    case Run => l.pc.Running?
    case WriteByte => l.pc.Writing?
    case LockAgain => l.pc.Finished? && l.owner.Free?
    case Delete => l.pc.Deleting?
    case CountDown => l.pc.Decrementing? && l.pc.ty in l.counter
    case Signal(k) => l.pc.Signalling? && CanWake(l, k)
    case StrayWorker => l.pc.Waiting?
  }

  /** listDelNode: the node is found by its address. */
  function Unlink(queue: seq<Node>, id: nat): seq<Node>
    decreases |queue|
  {
    if queue == [] then []
    else if queue[0].id == id then queue[1..]
    else [queue[0]] + Unlink(queue[1..], id)
  }

  function SetPc(l: Lane, t: nat, pc: CallPc): Lane {
    l.(calls := l.calls[t := pc])
  }

  ghost function LaneStep(w: nat, l: Lane, a: LaneAction): Lane
    requires LaneEnabled(w, l, a)
  {
    match a
    case SubmitLock(t, job) => SetPc(l, t, Pushing(job)).(owner := ByCall(t))
    case Push(t) =>
      var job := PcOf(l, t).job;
      SetPc(l, t, Counting(job.ty)).(
        queue := l.queue + [Node(|l.submitted|, job)],
        submitted := l.submitted + [job])
    case CountUp(t) =>
      var ty := PcOf(l, t).ty;
      SetPc(l, t, Notifying).(counter := l.counter[ty := l.counter[ty] + 1])
    case Notify(t, k) => SetPc(Awaken(l, k), t, Unlocking)
    case Unlock(t) => SetPc(l, t, Idle).(owner := Free)
    case DrainLock(t) => SetPc(l, t, Draining).(owner := ByCall(t))
    case DrainTest(t) =>
      if l.queue != [] then SetPc(l, t, Sleeping).(owner := Free) else SetPc(l, t, Drained)
    case DrainRelock(t) => SetPc(l, t, Draining).(owner := ByCall(t))
    case DrainUnlock(t) => SetPc(l, t, Idle).(owner := Free)
    case StrayCall(t) => SetPc(l, t, Awake)
    case Relock => l.(pc := Top, owner := ByWorker)
    case Loop =>
      if l.queue == [] then l.(pc := Waiting, owner := Free)
      else l.(pc := Running(l.queue[0]), owner := Free)
    case Run =>
      var n := l.pc.node;
      l.(ran := l.ran + [n.job], pc := if IsCompletion(n.job.ty) then Writing(n) else Finished(n))
    case WriteByte => l.(pc := Finished(l.pc.node))
    case LockAgain => l.(pc := Deleting(l.pc.node), owner := ByWorker)
    case Delete => l.(queue := Unlink(l.queue, l.pc.node.id), pc := Decrementing(l.pc.node.job.ty))
    case CountDown => l.(counter := l.counter[l.pc.ty := l.counter[l.pc.ty] - 1], pc := Signalling)
    case Signal(k) => Awaken(l, k).(pc := Top)
    case StrayWorker => l.(pc := Woken)
  }

  // ----- the whole system -----

  /** A completion handed to the event loop: request number `id` of a worker. */
  datatype Item = Item(worker: nat, id: nat, arg: nat)

  /** bioPipeReadJobCompList */
  datatype ReaderPc = AtRest | Reading | Swapping | Calling(items: seq<Item>)

  datatype System = System(
    lanes: seq<Lane>,
    comp: seq<Item>,
    pipe: nat,
    reader: ReaderPc,
    called: seq<Item>)

  datatype Action = OnLane(w: nat, a: LaneAction) | ReadStart | ReadPipe | Swap | Callback

  const READ_SIZE := 128

  ghost predicate Enabled(s: System, a: Action) {
    match a
    case OnLane(w, b) => w < |s.lanes| && LaneEnabled(w, s.lanes[w], b)
    case ReadStart => s.reader.AtRest? && s.pipe > 0
    case ReadPipe => s.reader.Reading?
    case Swap => s.reader.Swapping?
    case Callback => s.reader.Calling?
  }

  /** What a lane's step leaves in the completion list. */
  function Emits(w: nat, l: Lane, a: LaneAction): seq<Item> {
    if a.Run? && l.pc.Running? && IsCompletion(l.pc.node.job.ty)
    then [Item(w, l.pc.node.id, l.pc.node.job.arg)]
    else []
  }

  /** The pipe holds at most `capacity` bytes; a write to a full pipe fails unnoticed. */
  ghost function Step(capacity: nat, s: System, a: Action): System
    requires Enabled(s, a)
  {
    match a
    case OnLane(w, b) =>
      s.(lanes := s.lanes[w := LaneStep(w, s.lanes[w], b)],
         comp := s.comp + Emits(w, s.lanes[w], b),
         pipe := if b.WriteByte? && s.pipe < capacity then s.pipe + 1 else s.pipe)
    case ReadStart => s.(reader := Reading)
    case ReadPipe =>
      if s.pipe >= READ_SIZE then s.(pipe := s.pipe - READ_SIZE)
      else s.(pipe := 0, reader := Swapping)
    case Swap =>
      if s.comp != [] then s.(comp := [], reader := Calling(s.comp)) else s.(reader := AtRest)
    case Callback =>
      if s.reader.items == [] then s.(reader := AtRest)
      else s.(called := s.called + [s.reader.items[0]], reader := Calling(s.reader.items[1..]))
  }

  const NO_JOBS: map<JobType, int> :=
    map[CloseFile := 0, AofFsync := 0, LazyFree := 0, CloseAof := 0,
        CompCloseFile := 0, CompAofFsync := 0, CompLazyFree := 0]

  function NewLane(): Lane {
    Lane([], NO_JOBS, Free, Woken, map[], [], [])
  }

  /** bioInit */
  function Initial(): System {
    System([NewLane(), NewLane(), NewLane()], [], 0, AtRest, [])
  }

  ghost predicate Possible(capacity: nat, s: System, acts: seq<Action>)
    decreases |acts|
  {
    acts == [] || (Enabled(s, acts[0]) && Possible(capacity, Step(capacity, s, acts[0]), acts[1..]))
  }

  ghost function Execute(capacity: nat, s: System, acts: seq<Action>): System
    requires Possible(capacity, s, acts)
    decreases |acts|
  {
    if acts == [] then s else Execute(capacity, Step(capacity, s, acts[0]), acts[1..])
  }

  // ----- what every step keeps -----

  function Count(queue: seq<Node>, ty: JobType): nat
    decreases |queue|
  {
    if queue == [] then 0 else (if queue[0].job.ty == ty then 1 else 0) + Count(queue[1..], ty)
  }

  /** The number of jobs taken off the queue. */
  function Base(l: Lane): int {
    |l.submitted| - |l.queue|
  }

  /** The queue is what was submitted, in that order, less what was taken off. */
  predicate Numbered(l: Lane) {
    && Base(l) >= 0
    && forall i :: 0 <= i < |l.queue| ==> l.queue[i] == Node(Base(l) + i, l.submitted[Base(l) + i])
  }

  predicate HasNode(pc: WorkerPc) {
    pc.Running? || pc.Writing? || pc.Finished? || pc.Deleting?
  }

  /** Has the job at the front of the queue been run? */
  predicate PastRun(pc: WorkerPc) {
    pc.Writing? || pc.Finished? || pc.Deleting?
  }

  predicate AtFront(l: Lane) {
    && (HasNode(l.pc) ==> l.queue != [] && l.queue[0] == l.pc.node)
    && (l.pc.Writing? ==> IsCompletion(l.pc.node.job.ty))
  }

  predicate WorkerHolds(pc: WorkerPc) {
    pc.Top? || pc.Deleting? || pc.Decrementing? || pc.Signalling?
  }

  predicate CallHolds(pc: CallPc) {
    pc.Pushing? || pc.Counting? || pc.Notifying? || pc.Unlocking? || pc.Draining? || pc.Drained?
  }

  /** Only the owner of the mutex is inside a critical section. */
  ghost predicate Exclusive(l: Lane) {
    && (l.owner.ByWorker? <==> WorkerHolds(l.pc))
    && forall t :: CallHolds(PcOf(l, t)) <==> l.owner == ByCall(t)
  }

  function OwnerPc(l: Lane): CallPc {
    if l.owner.ByCall? then PcOf(l, l.owner.t) else Idle
  }

  /** Pushed and not yet counted, or taken off and still counted. */
  function Pending(l: Lane, ty: JobType): int {
    (if l.pc == Decrementing(ty) then 1 else 0) - (if OwnerPc(l) == Counting(ty) then 1 else 0)
  }

  ghost predicate Counted(w: nat, l: Lane) {
    forall ty :: WorkerOf(ty) == w ==> ty in l.counter && l.counter[ty] == Count(l.queue, ty) + Pending(l, ty)
  }

  predicate Typed(w: nat, l: Lane) {
    && (forall i :: 0 <= i < |l.submitted| ==> WorkerOf(l.submitted[i].ty) == w)
    && (OwnerPc(l).Pushing? ==> WorkerOf(OwnerPc(l).job.ty) == w)
    && (OwnerPc(l).Counting? ==> WorkerOf(OwnerPc(l).ty) == w)
    && (l.pc.Decrementing? ==> WorkerOf(l.pc.ty) == w)
  }

  /** Every job is run once, in the order of submission. */
  predicate InOrder(l: Lane) {
    var n := Base(l) + if PastRun(l.pc) then 1 else 0;
    0 <= n <= |l.submitted| && l.ran == l.submitted[..n]
  }

  predicate DrainedEmpty(l: Lane) {
    OwnerPc(l).Drained? ==> l.queue == []
  }

  ghost predicate LaneInv(w: nat, l: Lane) {
    && Numbered(l)
    && AtFront(l)
    && Exclusive(l)
    && Counted(w, l)
    && Typed(w, l)
    && InOrder(l)
    && DrainedEmpty(l)
  }

  lemma {:induction false} CountSnoc(queue: seq<Node>, n: Node, ty: JobType)
    ensures Count(queue + [n], ty) == Count(queue, ty) + if n.job.ty == ty then 1 else 0
    decreases |queue|
  {
    if queue == [] {
      assert queue + [n] == [n];
      assert [n][1..] == [];
    } else {
      assert (queue + [n])[1..] == queue[1..] + [n];
      CountSnoc(queue[1..], n, ty);
    }
  }

  /** Locking and unlocking touch neither queue nor counter. */
  lemma QuietStepInv(w: nat, l: Lane, a: LaneAction)
    requires LaneInv(w, l) && LaneEnabled(w, l, a)
    requires a.SubmitLock? || a.Unlock?
    ensures LaneInv(w, LaneStep(w, l, a))
  {
    hide Count;
    var k := LaneStep(w, l, a);
    assert forall t :: t != a.t ==> PcOf(k, t) == PcOf(l, t);
  }

  lemma NotifyInv(w: nat, l: Lane, a: LaneAction)
    requires LaneInv(w, l) && LaneEnabled(w, l, a) && a.Notify?
    ensures LaneInv(w, LaneStep(w, l, a))
  {
    hide Count;
    var k := LaneStep(w, l, a);
    assert forall t :: t != a.t && a.wake != TheCall(t) ==> PcOf(k, t) == PcOf(l, t);
  }

  lemma DrainStepInv(w: nat, l: Lane, a: LaneAction)
    requires LaneInv(w, l) && LaneEnabled(w, l, a)
    requires a.DrainLock? || a.DrainTest? || a.DrainRelock? || a.DrainUnlock? || a.StrayCall?
    ensures LaneInv(w, LaneStep(w, l, a))
  {
    hide Count;
    var k := LaneStep(w, l, a);
    assert forall t :: t != a.t ==> PcOf(k, t) == PcOf(l, t);
  }

  lemma PushInv(w: nat, l: Lane, a: LaneAction)
    requires LaneInv(w, l) && LaneEnabled(w, l, a) && a.Push?
    ensures LaneInv(w, LaneStep(w, l, a))
  {
    hide Count;
    var k := LaneStep(w, l, a);
    assert forall t :: t != a.t ==> PcOf(k, t) == PcOf(l, t);
    forall ty | WorkerOf(ty) == w ensures k.counter[ty] == Count(k.queue, ty) + Pending(k, ty) {
      CountSnoc(l.queue, Node(|l.submitted|, PcOf(l, a.t).job), ty);
    }
  }

  lemma CountUpInv(w: nat, l: Lane, a: LaneAction)
    requires LaneInv(w, l) && LaneEnabled(w, l, a) && a.CountUp?
    ensures LaneInv(w, LaneStep(w, l, a))
  {
    hide Count;
    var k := LaneStep(w, l, a);
    assert forall t :: t != a.t ==> PcOf(k, t) == PcOf(l, t);
  }

  lemma WorkerStepInv(w: nat, l: Lane, a: LaneAction)
    requires LaneInv(w, l) && LaneEnabled(w, l, a)
    requires a.Relock? || a.WriteByte? || a.LockAgain? || a.StrayWorker?
    ensures LaneInv(w, LaneStep(w, l, a))
  {
    hide Count;
    var k := LaneStep(w, l, a);
    assert forall t :: PcOf(k, t) == PcOf(l, t);
  }

  lemma FetchInv(w: nat, l: Lane, a: LaneAction)
    requires LaneInv(w, l) && LaneEnabled(w, l, a) && (a.Loop? || a.Run?)
    ensures LaneInv(w, LaneStep(w, l, a))
  {
    hide Count;
    var k := LaneStep(w, l, a);
    assert forall t :: PcOf(k, t) == PcOf(l, t);
  }

  lemma CountDownInv(w: nat, l: Lane)
    requires LaneInv(w, l) && LaneEnabled(w, l, LaneAction.CountDown)
    ensures LaneInv(w, LaneStep(w, l, LaneAction.CountDown))
  {
    hide Count;
    var k := LaneStep(w, l, LaneAction.CountDown);
    assert forall t :: PcOf(k, t) == PcOf(l, t);
  }

  lemma SignalInv(w: nat, l: Lane, a: LaneAction)
    requires LaneInv(w, l) && LaneEnabled(w, l, a) && a.Signal?
    ensures LaneInv(w, LaneStep(w, l, a))
  {
    hide Count;
    var k := LaneStep(w, l, a);
    assert forall t :: a.wake != TheCall(t) ==> PcOf(k, t) == PcOf(l, t);
  }

  lemma DeleteInv(w: nat, l: Lane)
    requires LaneInv(w, l) && LaneEnabled(w, l, LaneAction.Delete)
    ensures LaneInv(w, LaneStep(w, l, LaneAction.Delete))
  {
    var k := LaneStep(w, l, LaneAction.Delete);
    assert k.queue == l.queue[1..];
    assert forall t :: PcOf(k, t) == PcOf(l, t);
  }

  /** Mutual exclusion, order, counters and drain results survive every step. */
  lemma LaneStepInv(w: nat, l: Lane, a: LaneAction)
    requires LaneInv(w, l) && LaneEnabled(w, l, a)
    ensures LaneInv(w, LaneStep(w, l, a))
  {
    hide LaneInv, LaneStep, LaneEnabled;
    match a
    case Push(_) => PushInv(w, l, a);
    case CountUp(_) => CountUpInv(w, l, a);
    case Delete => DeleteInv(w, l);
    case CountDown => CountDownInv(w, l);
    case Loop => FetchInv(w, l, a);
    case Run => FetchInv(w, l, a);
    case Signal(_) => SignalInv(w, l, a);
    case SubmitLock(_, _) => QuietStepInv(w, l, a);
    case Notify(_, _) => NotifyInv(w, l, a);
    case Unlock(_) => QuietStepInv(w, l, a);
    case DrainLock(_) => DrainStepInv(w, l, a);
    case DrainTest(_) => DrainStepInv(w, l, a);
    case DrainRelock(_) => DrainStepInv(w, l, a);
    case DrainUnlock(_) => DrainStepInv(w, l, a);
    case StrayCall(_) => DrainStepInv(w, l, a);
    case _ => WorkerStepInv(w, l, a);
  }
}

/** The multi-producer, multi-consumer queue of Lib/Queue.py, as a step system.

    Every acquire, release, test and list operation of `put`, `get` and `get_nowait` is one atomic
    step of one thread, and threads interleave freely. The three locks are binary; `esema` and
    `fsema` are passed between threads as tokens, so that the thread that releases one of them is
    in general not the one that acquired it. */
module QueueProtocol {
  import opened Basics

  type Thread = nat
  type Item = int

  /** Where a thread stands: the name says which statement it executes next. */
  datatype PC =
    | Idle
    | PutAcquireF(item: Item)
    | PutAcquireM(item: Item)
    | PutTestEmpty(item: Item)
    | PutAppend(item: Item, wasEmpty: bool)
    | PutWakeE(wasEmpty: bool)
    | PutWakeF
    | PutReleaseM
    | GetAcquireE
    | GetAcquireM
    | NowaitTryE
    | NowaitAcquireM(locked: bool)
    | NowaitTestEmpty(locked: bool)
    | NowaitRetryE
    | NowaitRaise
    | TakeTestFull
    | TakePop(wasFull: bool)
    | TakeWakeF(wasFull: bool, item: Item)
    | TakeWakeE(item: Item)
    | TakeReleaseM(item: Item)

  /** The queue object. A lock field is true when the lock is held; `put` and `got` record the
      history. */
  datatype Shared = Shared(
    mutex: bool, esema: bool, fsema: bool,
    queue: seq<Item>, maxsize: int,
    put: seq<Item>, got: seq<Item>)
  {
    predicate Full() {
      maxsize > 0 && |queue| == maxsize
    }
  }

  /** A fault is the release of a lock that nobody holds, or a pop from an empty list. */
  datatype Outcome<+S> = Moved(state: S) | Blocked | Fault

  function ReleaseE(q: Shared, pc: PC): Outcome<(Shared, PC)> {
    if q.esema then Moved((q.(esema := false), pc)) else Fault
  }

  function ReleaseF(q: Shared, pc: PC): Outcome<(Shared, PC)> {
    if q.fsema then Moved((q.(fsema := false), pc)) else Fault
  }

  function ReleaseM(q: Shared, pc: PC): Outcome<(Shared, PC)> {
    if q.mutex then Moved((q.(mutex := false), pc)) else Fault
  }

  function AcquireM(q: Shared, pc: PC): Outcome<(Shared, PC)> {
    if q.mutex then Blocked else Moved((q.(mutex := true), pc))
  }

  /** The statement that a thread at pc executes next. */
  function Execute(q: Shared, pc: PC): Outcome<(Shared, PC)> {
    match pc
    case Idle => Blocked
    // put
    case PutAcquireF(item) => if q.fsema then Blocked else Moved((q.(fsema := true), PutAcquireM(item)))
    case PutAcquireM(item) => AcquireM(q, PutTestEmpty(item))
    case PutTestEmpty(item) => Moved((q, PutAppend(item, q.queue == [])))
    case PutAppend(item, wasEmpty) =>
      Moved((q.(queue := q.queue + [item], put := q.put + [item]), PutWakeE(wasEmpty)))
    case PutWakeE(wasEmpty) => if wasEmpty then ReleaseE(q, PutWakeF) else Moved((q, PutWakeF))
    case PutWakeF => if q.Full() then Moved((q, PutReleaseM)) else ReleaseF(q, PutReleaseM)
    case PutReleaseM => ReleaseM(q, Idle)
    // get
    case GetAcquireE => if q.esema then Blocked else Moved((q.(esema := true), GetAcquireM))
    case GetAcquireM => AcquireM(q, TakeTestFull)
    // get_nowait
    case NowaitTryE => Moved((q.(esema := true), NowaitAcquireM(!q.esema)))
    case NowaitAcquireM(locked) => AcquireM(q, NowaitTestEmpty(locked))
    case NowaitTestEmpty(locked) =>
      Moved((q, if q.queue == [] then NowaitRaise else if locked then TakeTestFull else NowaitRetryE))
    case NowaitRetryE => Moved((q.(esema := true), if q.esema then NowaitRaise else TakeTestFull))
    case NowaitRaise => ReleaseM(q, Idle)
    // the common end of get and get_nowait
    case TakeTestFull => Moved((q, TakePop(q.Full())))
    case TakePop(wasFull) =>
      if q.queue == [] then Fault
      else Moved((q.(queue := q.queue[1..], got := q.got + [q.queue[0]]), TakeWakeF(wasFull, q.queue[0])))
    case TakeWakeF(wasFull, item) => if wasFull then ReleaseF(q, TakeWakeE(item)) else Moved((q, TakeWakeE(item)))
    case TakeWakeE(item) => if q.queue == [] then Moved((q, TakeReleaseM(item))) else ReleaseE(q, TakeReleaseM(item))
    case TakeReleaseM(item) => ReleaseM(q, Idle)
  }

  // ---------- Threads and schedules ----------

  datatype State = State(q: Shared, pcs: map<Thread, PC>)

  datatype Operation = CallPut(item: Item) | CallGet | CallGetNowait

  datatype Action = Call(thread: Thread, op: Operation) | Step(thread: Thread)

  function Init(maxsize: int, threads: set<Thread>): State {
    State(Shared(false, true, false, [], maxsize, [], []), map t | t in threads :: Idle)
  }

  function StepOf(s: State, t: Thread): Outcome<State>
    requires t in s.pcs
  {
    match Execute(s.q, s.pcs[t])
    case Moved((q, pc)) => Moved(State(q, s.pcs[t := pc]))
    case Blocked => Blocked
    case Fault => Fault
  }

  function Entry(op: Operation): PC {
    match op
    case CallPut(item) => PutAcquireF(item)
    case CallGet => GetAcquireE
    case CallGetNowait => NowaitTryE
  }

  function Act(s: State, a: Action): Outcome<State> {
    if a.thread !in s.pcs then Blocked
    else match a
      case Call(t, op) => if s.pcs[t] == Idle then Moved(State(s.q, s.pcs[t := Entry(op)])) else Blocked
      case Step(t) => StepOf(s, t)
  }

  /** A schedule, one action after the other; a schedule that picks a blocked thread is Blocked. */
  function Run(s: State, schedule: seq<Action>): Outcome<State>
    decreases |schedule|
  {
    if schedule == [] then Moved(s)
    else
      var o := Act(s, schedule[0]);
      if o.Moved? then Run(o.state, schedule[1..]) else o
  }

  // ---------- Who owns which token ----------

  predicate HoldsM(pc: PC) {
    pc.PutTestEmpty? || pc.PutAppend? || pc.PutWakeE? || pc.PutWakeF? || pc.PutReleaseM? ||
    pc.NowaitTestEmpty? || pc.NowaitRetryE? || pc.NowaitRaise? ||
    pc.TakeTestFull? || pc.TakePop? || pc.TakeWakeF? || pc.TakeWakeE? || pc.TakeReleaseM?
  }

  /** Owns `esema`: has acquired it and not yet decided its fate, or is bound to release it. */
  predicate OwnsE(pc: PC) {
    pc.GetAcquireM? || (pc.NowaitAcquireM? && pc.locked) || (pc.NowaitTestEmpty? && pc.locked) ||
    pc.TakeTestFull? || pc.TakePop? || pc.TakeWakeF? || pc.TakeWakeE? || (pc.PutWakeE? && pc.wasEmpty)
  }

  predicate OwnsF(pc: PC) {
    pc.PutAcquireM? || pc.PutTestEmpty? || pc.PutAppend? || pc.PutWakeE? || pc.PutWakeF? ||
    (pc.TakeWakeF? && pc.wasFull)
  }

  /** What a thread at this point may rely on. */
  predicate Local(q: Shared, pc: PC) {
    && (HoldsM(pc) ==> q.mutex)
    && (OwnsE(pc) ==> q.esema)
    && (OwnsF(pc) ==> q.fsema)
    && (OwnsE(pc) && !pc.TakeWakeF? && !pc.TakeWakeE? ==> q.queue != [])
    && (OwnsF(pc) && !pc.PutWakeE? && !pc.PutWakeF? ==> !q.Full())
    && (pc.NowaitRetryE? ==> q.queue != [])
    && (pc.PutAppend? ==> pc.wasEmpty == (q.queue == []))
    && (pc.TakePop? ==> pc.wasFull == q.Full())
  }

  /** What two threads cannot both have. */
  predicate Compatible(p1: PC, p2: PC) {
    !(HoldsM(p1) && HoldsM(p2)) && !(OwnsE(p1) && OwnsE(p2)) && !(OwnsF(p1) && OwnsF(p2))
  }

  /** A free token means an item (or room), the bound is respected, and the items come out in the
      order in which they went in. */
  predicate Sound(q: Shared) {
    && (!q.esema ==> q.queue != [])
    && (!q.fsema ==> !q.Full())
    && (q.maxsize > 0 ==> |q.queue| <= q.maxsize)
    && q.put == q.got + q.queue
  }

  ghost predicate Inv(s: State) {
    && Sound(s.q)
    && (forall t :: t in s.pcs ==> Local(s.q, s.pcs[t]))
    && (forall t, u :: t in s.pcs && u in s.pcs && t != u ==> Compatible(s.pcs[t], s.pcs[u]))
    && (s.q.mutex ==> exists t :: t in s.pcs && HoldsM(s.pcs[t]))
    && (s.q.esema && s.q.queue != [] ==> exists t :: t in s.pcs && OwnsE(s.pcs[t]))
    && (s.q.fsema && !s.q.Full() ==> exists t :: t in s.pcs && OwnsF(s.pcs[t]))
  }

  lemma InitInv(maxsize: int, threads: set<Thread>)
    ensures Inv(Init(maxsize, threads))
  {
  }

  /** A thread's own step. */
  lemma OwnStepSound(q: Shared, pc: PC)
    requires Sound(q) && Local(q, pc)
    ensures !Execute(q, pc).Fault?
    ensures Execute(q, pc).Moved? ==> Sound(Execute(q, pc).state.0)
  {
    if pc.TakePop? && q.queue != [] {
      assert q.got + q.queue == (q.got + [q.queue[0]]) + q.queue[1..];
    }
  }

  predicate InPut(pc: PC) {
    pc.PutAcquireF? || pc.PutAcquireM? || pc.PutTestEmpty? || pc.PutAppend? ||
    pc.PutWakeE? || pc.PutWakeF? || pc.PutReleaseM?
  }

  predicate InTake(pc: PC) {
    pc.TakeTestFull? || pc.TakePop? || pc.TakeWakeF? || pc.TakeWakeE? || pc.TakeReleaseM?
  }

  lemma PutStepLocal(q: Shared, pc: PC)
    requires InPut(pc) && Sound(q) && Local(q, pc) && Execute(q, pc).Moved?
    ensures Local(Execute(q, pc).state.0, Execute(q, pc).state.1)
  {
  }

  lemma TakeStepLocal(q: Shared, pc: PC)
    requires InTake(pc) && Sound(q) && Local(q, pc) && Execute(q, pc).Moved?
    ensures Local(Execute(q, pc).state.0, Execute(q, pc).state.1)
  {
  }

  lemma OwnStepLocal(q: Shared, pc: PC)
    requires Sound(q) && Local(q, pc) && Execute(q, pc).Moved?
    ensures Local(Execute(q, pc).state.0, Execute(q, pc).state.1)
  {
    if InPut(pc) {
      PutStepLocal(q, pc);
    } else if InTake(pc) {
      TakeStepLocal(q, pc);
    }
  }

  /** If a step leaves a lock held that the thread does not own afterwards, then it was so before. */
  lemma OwnerStays(q: Shared, pc: PC)
    requires Sound(q) && Local(q, pc) && Execute(q, pc).Moved?
    ensures var (q', pc') := Execute(q, pc).state;
      && (q'.mutex && !HoldsM(pc') ==> q.mutex && !HoldsM(pc))
      && (q'.esema && q'.queue != [] && !OwnsE(pc') ==> q.esema && q.queue != [] && !OwnsE(pc))
      && (q'.fsema && !q'.Full() && !OwnsF(pc') ==> q.fsema && !q.Full() && !OwnsF(pc))
  {
  }

  /** What may change under another thread: a lock that it does not own, the list if it does not
      hold the mutex, and then only such that the tokens it owns keep their meaning. */
  predicate Leaves(q: Shared, q': Shared, other: PC) {
    && q'.maxsize == q.maxsize
    && (HoldsM(other) ==> q'.mutex && q'.queue == q.queue)
    && (OwnsE(other) ==> q'.esema && (q.queue != [] ==> q'.queue != []))
    && (OwnsF(other) ==> q'.fsema && (!q.Full() ==> !q'.Full()))
  }

  lemma PutLeaves(q: Shared, pc: PC, other: PC)
    requires InPut(pc) && Sound(q) && Local(q, pc) && Local(q, other) && Compatible(pc, other) && Execute(q, pc).Moved?
    ensures var (q', pc') := Execute(q, pc).state; Leaves(q, q', other) && Compatible(pc', other)
  {
  }

  lemma TakeLeaves(q: Shared, pc: PC, other: PC)
    requires InTake(pc) && Sound(q) && Local(q, pc) && Local(q, other) && Compatible(pc, other) && Execute(q, pc).Moved?
    ensures var (q', pc') := Execute(q, pc).state; Leaves(q, q', other) && Compatible(pc', other)
  {
  }

  lemma OthersLeave(q: Shared, pc: PC, other: PC)
    requires !InPut(pc) && !InTake(pc) && Sound(q) && Local(q, pc) && Local(q, other) && Compatible(pc, other)
    requires Execute(q, pc).Moved?
    ensures var (q', pc') := Execute(q, pc).state; Leaves(q, q', other) && Compatible(pc', other)
  {
  }

  lemma LeftLocal(q: Shared, q': Shared, other: PC)
    requires Local(q, other) && Leaves(q, q', other)
    ensures Local(q', other)
  {
  }

  /** Its effect on any other thread. */
  lemma OtherThread(q: Shared, pc: PC, other: PC)
    requires Sound(q) && Local(q, pc) && Local(q, other) && Compatible(pc, other)
    ensures Execute(q, pc).Moved? ==>
      var (q', pc') := Execute(q, pc).state;
      Local(q', other) && Compatible(pc', other)
  {
    hide Sound, Local, Compatible, Leaves, Execute;
    if Execute(q, pc).Moved? {
      if InPut(pc) {
        PutLeaves(q, pc, other);
      } else if InTake(pc) {
        TakeLeaves(q, pc, other);
      } else {
        OthersLeave(q, pc, other);
      }
      LeftLocal(q, Execute(q, pc).state.0, other);
    }
  }

  lemma StepInv(s: State, t: Thread)
    requires Inv(s) && t in s.pcs
    ensures !StepOf(s, t).Fault?
    ensures StepOf(s, t).Moved? ==> Inv(StepOf(s, t).state)
  {
    OwnStepSound(s.q, s.pcs[t]);
    if Execute(s.q, s.pcs[t]).Moved? {
      OwnStepLocal(s.q, s.pcs[t]);
      OwnerStays(s.q, s.pcs[t]);
      var (q', pc') := Execute(s.q, s.pcs[t]).state;
      forall u | u in s.pcs && u != t ensures Local(q', s.pcs[u]) && Compatible(pc', s.pcs[u]) {
        OtherThread(s.q, s.pcs[t], s.pcs[u]);
      }
      hide Execute, Sound, Local;
      ThreadsInv(s, t, State(q', s.pcs[t := pc']));
    }
  }

  /** The part of StepInv that is about the threads only. */
  lemma ThreadsInv(s: State, t: Thread, s': State)
    requires Inv(s) && t in s.pcs && t in s'.pcs && s'.pcs == s.pcs[t := s'.pcs[t]]
    requires Sound(s'.q) && Local(s'.q, s'.pcs[t])
    requires forall u :: u in s.pcs && u != t ==> Local(s'.q, s.pcs[u]) && Compatible(s'.pcs[t], s.pcs[u])
    requires s'.q.mutex && !HoldsM(s'.pcs[t]) ==> s.q.mutex && !HoldsM(s.pcs[t])
    requires s'.q.esema && s'.q.queue != [] && !OwnsE(s'.pcs[t]) ==> s.q.esema && s.q.queue != [] && !OwnsE(s.pcs[t])
    requires s'.q.fsema && !s'.q.Full() && !OwnsF(s'.pcs[t]) ==> s.q.fsema && !s.q.Full() && !OwnsF(s.pcs[t])
    ensures Inv(s')
  {
    hide Sound, Local;
    assert forall u :: u in s.pcs && u != t ==> u in s'.pcs && s'.pcs[u] == s.pcs[u];
    if s'.q.mutex && !HoldsM(s'.pcs[t]) {
      var w :| w in s.pcs && HoldsM(s.pcs[w]);
      assert HoldsM(s'.pcs[w]);
    }
    if s'.q.esema && s'.q.queue != [] && !OwnsE(s'.pcs[t]) {
      var w :| w in s.pcs && OwnsE(s.pcs[w]);
      assert OwnsE(s'.pcs[w]);
    }
    if s'.q.fsema && !s'.q.Full() && !OwnsF(s'.pcs[t]) {
      var w :| w in s.pcs && OwnsF(s.pcs[w]);
      assert OwnsF(s'.pcs[w]);
    }
  }

  lemma CallInv(s: State, t: Thread, op: Operation)
    requires Inv(s) && t in s.pcs && s.pcs[t] == Idle
    ensures Inv(State(s.q, s.pcs[t := Entry(op)]))
  {
    var pc := Entry(op);
    assert Local(s.q, pc) && !HoldsM(pc) && !OwnsE(pc) && !OwnsF(pc);
    ThreadsInv(s, t, State(s.q, s.pcs[t := pc]));
  }

  lemma ActInv(s: State, a: Action)
    requires Inv(s)
    ensures !Act(s, a).Fault?
    ensures Act(s, a).Moved? ==> Inv(Act(s, a).state)
  {
    if a.thread in s.pcs {
      match a
      case Call(t, op) => if s.pcs[t] == Idle { CallInv(s, t, op); }
      case Step(t) => StepInv(s, t);
    }
  }

  lemma {:induction false} RunInv(s: State, schedule: seq<Action>)
    requires Inv(s)
    ensures !Run(s, schedule).Fault?
    ensures Run(s, schedule).Moved? ==> Inv(Run(s, schedule).state)
    decreases |schedule|
  {
    if schedule != [] {
      hide Inv, Act;
      var o := Act(s, schedule[0]);
      ActInv(s, schedule[0]);
      if o.Moved? {
        RunInv(o.state, schedule[1..]);
      }
    }
  }

  /** No interleaving of any number of calls releases a free lock or pops an empty list; the
      queue object stays sound and the mutex excludes. */
  lemma Safety(maxsize: int, threads: set<Thread>, schedule: seq<Action>)
    ensures var o := Run(Init(maxsize, threads), schedule);
      && !o.Fault?
      && (o.Moved? ==> Sound(o.state.q))
      && (o.Moved? ==> forall t, u :: t in o.state.pcs && u in o.state.pcs && t != u ==>
            !(HoldsM(o.state.pcs[t]) && HoldsM(o.state.pcs[u])))
  {
    InitInv(maxsize, threads);
    RunInv(Init(maxsize, threads), schedule);
    var o := Run(Init(maxsize, threads), schedule);
    if o.Moved? {
      forall t, u | t in o.state.pcs && u in o.state.pcs && t != u
        ensures !(HoldsM(o.state.pcs[t]) && HoldsM(o.state.pcs[u]))
      {
        assert Compatible(o.state.pcs[t], o.state.pcs[u]);
      }
    }
  }

  // ---------- Progress ----------

  ghost predicate CanStep(s: State, t: Thread) {
    t in s.pcs && Execute(s.q, s.pcs[t]).Moved?
  }

  /** Every thread inside a call waits for an item and there is none. */
  ghost predicate AllStarved(s: State) {
    s.q.queue == [] && forall t :: t in s.pcs ==> s.pcs[t].Idle? || s.pcs[t].GetAcquireE?
  }

  /** Every thread inside a call waits for room and there is none. */
  ghost predicate AllJammed(s: State) {
    0 < s.q.maxsize == |s.q.queue| && forall t :: t in s.pcs ==> s.pcs[t].Idle? || s.pcs[t].PutAcquireF?
  }

  predicate Waits(q: Shared, pc: PC) {
    || pc.Idle?
    || (pc.PutAcquireF? && q.fsema)
    || (pc.GetAcquireE? && q.esema)
    || ((pc.PutAcquireM? || pc.GetAcquireM? || pc.NowaitAcquireM?) && q.mutex)
  }

  /** Only the blocking acquires can block, each on its own lock. */
  lemma WhoBlocks(q: Shared, pc: PC)
    requires Sound(q) && Local(q, pc)
    ensures Execute(q, pc).Moved? <==> !Waits(q, pc)
  {
    OwnStepSound(q, pc);
  }

  lemma StuckInv(s: State)
    requires Inv(s) && exists t :: t in s.pcs && !s.pcs[t].Idle?
    ensures (forall t :: !CanStep(s, t)) <==> AllStarved(s) || AllJammed(s)
  {
    forall t | t in s.pcs ensures CanStep(s, t) <==> !Waits(s.q, s.pcs[t]) {
      WhoBlocks(s.q, s.pcs[t]);
    }
    hide Execute, Local;
    if forall t :: !CanStep(s, t) {
      forall t | t in s.pcs ensures Waits(s.q, s.pcs[t]) && !HoldsM(s.pcs[t]) {
        assert !CanStep(s, t);
      }
      assert !s.q.mutex;
      var t :| t in s.pcs && !s.pcs[t].Idle?;
      assert Waits(s.q, s.pcs[t]);
    } else {
      var t :| CanStep(s, t);
      assert !Waits(s.q, s.pcs[t]);
    }
  }

  /** In a reachable state with a call in progress, nothing can move if and only if all the calls
      in progress are getters waiting on an empty queue, or all are putters waiting on a full one. */
  lemma Progress(maxsize: int, threads: set<Thread>, schedule: seq<Action>)
    requires Run(Init(maxsize, threads), schedule).Moved?
    ensures var s := Run(Init(maxsize, threads), schedule).state;
      (exists t :: t in s.pcs && !s.pcs[t].Idle?) ==>
        ((forall t :: !CanStep(s, t)) <==> AllStarved(s) || AllJammed(s))
  {
    InitInv(maxsize, threads);
    RunInv(Init(maxsize, threads), schedule);
    var s := Run(Init(maxsize, threads), schedule).state;
    if exists t :: t in s.pcs && !s.pcs[t].Idle? {
      StuckInv(s);
    }
  }

  /** Statements left in the current call, at most. */
  function Remaining(pc: PC): nat {
    match pc
    case Idle => 0
    case PutAcquireF(_) => 7
    case PutAcquireM(_) => 6
    case PutTestEmpty(_) => 5
    case PutAppend(_, _) => 4
    case PutWakeE(_) => 3
    case PutWakeF => 2
    case PutReleaseM => 1
    case GetAcquireE => 7
    case GetAcquireM => 6
    case NowaitTryE => 9
    case NowaitAcquireM(_) => 8
    case NowaitTestEmpty(_) => 7
    case NowaitRetryE => 6
    case NowaitRaise => 1
    case TakeTestFull => 5
    case TakePop(_) => 4
    case TakeWakeF(_, _) => 3
    case TakeWakeE(_) => 2
    case TakeReleaseM(_) => 1
  }

  /** A step brings its own call closer to its end. */
  lemma StepsDescend(q: Shared, pc: PC)
    requires Execute(q, pc).Moved?
    ensures Remaining(Execute(q, pc).state.1) < Remaining(pc)
  {
  }

  /** Statements left in all calls. */
  ghost function Total(pcs: map<Thread, PC>): nat {
    if pcs.Keys == {} then 0
    else
      var t :| t in pcs;
      Remaining(pcs[t]) + Total(pcs - {t})
  }

  lemma {:induction false} TotalAt(pcs: map<Thread, PC>, t: Thread)
    requires t in pcs
    ensures Total(pcs) == Remaining(pcs[t]) + Total(pcs - {t})
    decreases |pcs|
  {
    var u :| u in pcs && Total(pcs) == Remaining(pcs[u]) + Total(pcs - {u});
    if u != t {
      TotalAt(pcs - {u}, t);
      TotalAt(pcs - {t}, u);
      assert pcs - {u} - {t} == pcs - {t} - {u};
    }
  }

  lemma TotalUpdate(pcs: map<Thread, PC>, t: Thread, pc: PC)
    requires t in pcs
    ensures Total(pcs[t := pc]) + Remaining(pcs[t]) == Total(pcs) + Remaining(pc)
  {
    TotalAt(pcs, t);
    TotalAt(pcs[t := pc], t);
    assert pcs[t := pc] - {t} == pcs - {t};
  }

  lemma {:induction false} TotalIdle(pcs: map<Thread, PC>)
    requires forall t :: t in pcs ==> pcs[t] == Idle
    ensures Total(pcs) == 0
    decreases |pcs|
  {
    if pcs.Keys != {} {
      var t :| t in pcs && Total(pcs) == Remaining(pcs[t]) + Total(pcs - {t});
      TotalIdle(pcs - {t});
    }
  }

  function Steps(schedule: seq<Action>): nat {
    if schedule == [] then 0 else (if schedule[0].Step? then 1 else 0) + Steps(schedule[1..])
  }

  function Calls(schedule: seq<Action>): nat {
    if schedule == [] then 0 else (if schedule[0].Call? then 1 else 0) + Calls(schedule[1..])
  }

  lemma {:induction false} StepsBounded(s: State, schedule: seq<Action>)
    requires Run(s, schedule).Moved?
    ensures Steps(schedule) + Total(Run(s, schedule).state.pcs) <= Total(s.pcs) + 9 * Calls(schedule)
    decreases |schedule|
  {
    if schedule != [] {
      var a := schedule[0];
      var s' := Act(s, a).state;
      TotalUpdate(s.pcs, a.thread, s'.pcs[a.thread]);
      if a.Step? {
        StepsDescend(s.q, s.pcs[a.thread]);
      }
      hide Execute, Total;
      StepsBounded(s', schedule[1..]);
    }
  }

  /** So no interleaving of finitely many calls runs for ever: at most nine steps for each call. */
  lemma Termination(maxsize: int, threads: set<Thread>, schedule: seq<Action>)
    requires Run(Init(maxsize, threads), schedule).Moved?
    ensures Steps(schedule) <= 9 * Calls(schedule)
  {
    TotalIdle(Init(maxsize, threads).pcs);
    StepsBounded(Init(maxsize, threads), schedule);
  }

  /** `get_nowait` gives up only when the queue is empty or another thread owns `esema`, and
      never while owning `esema` itself: the token cannot leak. */
  lemma NowaitGivesUp(s: State, t: Thread)
    requires Inv(s) && t in s.pcs
    requires var o := Execute(s.q, s.pcs[t]); o.Moved? && o.state.1 == NowaitRaise
    ensures !OwnsE(s.pcs[t])
    ensures s.q.queue == [] || exists u :: u in s.pcs && u != t && OwnsE(s.pcs[u])
  {
    assert s.pcs[t].NowaitTestEmpty? || s.pcs[t].NowaitRetryE?;
    assert Local(s.q, s.pcs[t]);
    if s.q.queue != [] {
      var u :| u in s.pcs && OwnsE(s.pcs[u]);
      assert u != t;
    }
  }

  /** A getter never finds the list empty, and it leaves with the oldest item not yet delivered. */
  lemma PopDelivers(s: State, t: Thread)
    requires Inv(s) && t in s.pcs && s.pcs[t].TakePop?
    ensures |s.q.got| < |s.q.put|
    ensures var o := Execute(s.q, s.pcs[t]);
      o.Moved? && o.state.1.TakeWakeF? && o.state.1.item == s.q.put[|s.q.got|] &&
      o.state.0.got == s.q.put[..|s.q.got| + 1]
  {
    assert Local(s.q, s.pcs[t]);
    assert OwnsE(s.pcs[t]);
    assert s.q.put[|s.q.got|] == s.q.queue[0];
  }

  // ---------- Calls take effect at once ----------

  datatype Reply = Done | Got(item: Item) | Empty

  /** A queue whose calls take effect at once: what it holds, what each thread asked for in its last
      call, and the reply to it once the call has taken effect. */
  datatype Ideal = Ideal(items: seq<Item>, asked: map<Thread, Operation>, reply: map<Thread, Reply>)

  /** The step at which a call takes effect. */
  predicate TakesEffect(q: Shared, pc: PC) {
    pc.PutAppend? || pc.TakePop? || (Execute(q, pc).Moved? && Execute(q, pc).state.1.NowaitRaise?)
  }

  /** The effect of a call on the items, and its reply: an item is queued at the back, or taken from
      the front, or else the call gives up. */
  function Effect(items: seq<Item>, op: Operation, givesUp: bool): (seq<Item>, Reply) {
    match op
    case CallPut(item) => (items + [item], Done)
    case _ => if givesUp || items == [] then (items, Empty) else (items[1..], Got(items[0]))
  }

  /** Beside an action on the real queue. */
  function IdealAct(i: Ideal, s: State, a: Action): Ideal
    requires a.thread in s.pcs
  {
    match a
    case Call(t, op) => i.(asked := i.asked[t := op], reply := i.reply - {t})
    case Step(t) =>
      if TakesEffect(s.q, s.pcs[t]) && t in i.asked then
        var (items, reply) := Effect(i.items, i.asked[t], !s.pcs[t].TakePop?);
        i.(items := items, reply := i.reply[t := reply])
      else i
  }

  function IdealRun(i: Ideal, s: State, schedule: seq<Action>): Ideal
    requires Run(s, schedule).Moved?
    decreases |schedule|
  {
    if schedule == [] then i
    else IdealRun(IdealAct(i, s, schedule[0]), Act(s, schedule[0]).state, schedule[1..])
  }

  /** What a call answers: for a thread that is about to return. */
  function Answer(pc: PC): Option<Reply> {
    match pc
    case PutReleaseM => Some(Done)
    case NowaitRaise => Some(Empty)
    case TakeReleaseM(item) => Some(Got(item))
    case _ => None
  }

  /** The call that a thread is in, and whether it has taken effect. */
  predicate Matches(pc: PC, asked: Option<Operation>, reply: Option<Reply>) {
    match pc
    case Idle => true
    case PutAcquireF(x) => asked == Some(CallPut(x)) && reply == None
    case PutAcquireM(x) => asked == Some(CallPut(x)) && reply == None
    case PutTestEmpty(x) => asked == Some(CallPut(x)) && reply == None
    case PutAppend(x, _) => asked == Some(CallPut(x)) && reply == None
    case PutWakeE(_) => asked != None && asked.value.CallPut? && reply == Some(Done)
    case PutWakeF => asked != None && asked.value.CallPut? && reply == Some(Done)
    case PutReleaseM => asked != None && asked.value.CallPut? && reply == Some(Done)
    case GetAcquireE => asked == Some(CallGet) && reply == None
    case GetAcquireM => asked == Some(CallGet) && reply == None
    case NowaitTryE => asked == Some(CallGetNowait) && reply == None
    case NowaitAcquireM(_) => asked == Some(CallGetNowait) && reply == None
    case NowaitTestEmpty(_) => asked == Some(CallGetNowait) && reply == None
    case NowaitRetryE => asked == Some(CallGetNowait) && reply == None
    case NowaitRaise => asked == Some(CallGetNowait) && reply == Some(Empty)
    case TakeTestFull => asked != None && !asked.value.CallPut? && reply == None
    case TakePop(_) => asked != None && !asked.value.CallPut? && reply == None
    case TakeWakeF(_, x) => asked != None && !asked.value.CallPut? && reply == Some(Got(x))
    case TakeWakeE(x) => asked != None && !asked.value.CallPut? && reply == Some(Got(x))
    case TakeReleaseM(x) => asked != None && !asked.value.CallPut? && reply == Some(Got(x))
  }

  function At<V>(m: map<Thread, V>, t: Thread): Option<V> {
    if t in m then Some(m[t]) else None
  }

  ghost predicate Simulates(i: Ideal, s: State) {
    i.items == s.q.queue && forall t :: t in s.pcs ==> Matches(s.pcs[t], At(i.asked, t), At(i.reply, t))
  }

  /** One step, of one thread. */
  predicate Follows(q: Shared, pc: PC, asked: Option<Operation>, reply: Option<Reply>)
    requires Execute(q, pc).Moved?
  {
    var (q', pc') := Execute(q, pc).state;
    if TakesEffect(q, pc) then
      asked != None && reply == None &&
      var (items, r) := Effect(q.queue, asked.value, !pc.TakePop?);
      q'.queue == items && Matches(pc', asked, Some(r))
    else q'.queue == q.queue && Matches(pc', asked, reply)
  }

  lemma PutFollows(q: Shared, pc: PC, asked: Option<Operation>, reply: Option<Reply>)
    requires InPut(pc) && Matches(pc, asked, reply) && Execute(q, pc).Moved?
    ensures Follows(q, pc, asked, reply)
  {
  }

  lemma TakeFollows(q: Shared, pc: PC, asked: Option<Operation>, reply: Option<Reply>)
    requires InTake(pc) && Matches(pc, asked, reply) && Execute(q, pc).Moved?
    ensures Follows(q, pc, asked, reply)
  {
  }

  lemma OthersFollow(q: Shared, pc: PC, asked: Option<Operation>, reply: Option<Reply>)
    requires !InPut(pc) && !InTake(pc) && Matches(pc, asked, reply) && Execute(q, pc).Moved?
    ensures Follows(q, pc, asked, reply)
  {
  }

  lemma StepSimulates(i: Ideal, s: State, t: Thread)
    requires Simulates(i, s) && t in s.pcs && StepOf(s, t).Moved?
    ensures var s', i' := StepOf(s, t).state, IdealAct(i, s, Step(t));
      && i'.items == s'.q.queue
      && Matches(s'.pcs[t], At(i'.asked, t), At(i'.reply, t))
      && i'.asked == i.asked && i'.reply - {t} == i.reply - {t}
  {
    var asked, reply := At(i.asked, t), At(i.reply, t);
    assert Matches(s.pcs[t], asked, reply);
    hide Matches, Execute, TakesEffect, Effect;
    if InPut(s.pcs[t]) {
      PutFollows(s.q, s.pcs[t], asked, reply);
    } else if InTake(s.pcs[t]) {
      TakeFollows(s.q, s.pcs[t], asked, reply);
    } else {
      OthersFollow(s.q, s.pcs[t], asked, reply);
    }
  }

  lemma OthersMatch(i: Ideal, i': Ideal, s: State, s': State, t: Thread)
    requires Simulates(i, s) && t in s.pcs && t in s'.pcs && s'.pcs == s.pcs[t := s'.pcs[t]]
    requires i'.items == s'.q.queue && Matches(s'.pcs[t], At(i'.asked, t), At(i'.reply, t))
    requires i'.asked - {t} == i.asked - {t} && i'.reply - {t} == i.reply - {t}
    ensures Simulates(i', s')
  {
    hide Matches;
    forall u | u in s'.pcs ensures Matches(s'.pcs[u], At(i'.asked, u), At(i'.reply, u)) {
      if u != t {
        assert s'.pcs[u] == s.pcs[u];
        assert At(i'.asked, u) == At(i'.asked - {t}, u) == At(i.asked, u);
        assert At(i'.reply, u) == At(i'.reply - {t}, u) == At(i.reply, u);
      }
    }
  }

  lemma ActSimulates(i: Ideal, s: State, a: Action)
    requires Simulates(i, s) && Act(s, a).Moved?
    ensures Simulates(IdealAct(i, s, a), Act(s, a).state)
  {
    var t, s', i' := a.thread, Act(s, a).state, IdealAct(i, s, a);
    if a.Step? {
      StepSimulates(i, s, t);
    } else {
      assert i'.asked - {t} == i.asked - {t} && i'.reply - {t} == i.reply - {t};
    }
    hide Matches, Execute;
    OthersMatch(i, i', s, s', t);
  }

  lemma {:induction false} RunSimulates(i: Ideal, s: State, schedule: seq<Action>)
    requires Simulates(i, s) && Run(s, schedule).Moved?
    ensures Simulates(IdealRun(i, s, schedule), Run(s, schedule).state)
    decreases |schedule|
  {
    if schedule != [] {
      hide Simulates, Act, IdealAct;
      ActSimulates(i, s, schedule[0]);
      RunSimulates(IdealAct(i, s, schedule[0]), Act(s, schedule[0]).state, schedule[1..]);
    }
  }

  /** Every interleaving is linearizable: beside it runs a queue whose calls take effect at once, each
      at one step between its start and its return. The two hold the same items in the same order, a
      call takes effect only once, and what it answers is the reply of that queue: a put has queued
      the item that it was called with, and a get returns the item at the front. */
  lemma Linearizable(maxsize: int, threads: set<Thread>, schedule: seq<Action>)
    requires Run(Init(maxsize, threads), schedule).Moved?
    ensures var s := Run(Init(maxsize, threads), schedule).state;
      var i := IdealRun(Ideal([], map[], map[]), Init(maxsize, threads), schedule);
      && s.q.queue == i.items
      && (forall t :: t in s.pcs && TakesEffect(s.q, s.pcs[t]) ==> t in i.asked && t !in i.reply)
      && (forall t :: t in s.pcs && Answer(s.pcs[t]) != None ==> At(i.reply, t) == Answer(s.pcs[t]))
  {
    var s0, i0 := Init(maxsize, threads), Ideal([], map[], map[]);
    RunSimulates(i0, s0, schedule);
    var s, i := Run(s0, schedule).state, IdealRun(i0, s0, schedule);
    forall t | t in s.pcs
      ensures TakesEffect(s.q, s.pcs[t]) ==> t in i.asked && t !in i.reply
      ensures Answer(s.pcs[t]) != None ==> At(i.reply, t) == Answer(s.pcs[t])
    {
      assert Matches(s.pcs[t], At(i.asked, t), At(i.reply, t));
    }
  }
}

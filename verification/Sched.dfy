/**
  The scheduler and the hand-off of ptable.lock between threads (kernel/proc.c), on one CPU
  with interrupts. A run is a sequence of events; each event is one step of the code that
  has the CPU, or the arrival of an interrupt.
 */
module Sched {
  import opened Layout
  import opened Spinlock

  const NPROC := 64
  /** ptable.lock; every other number is some other lock of the kernel. */
  const PT: nat := 0

  datatype PState = Unused | Initial | Runnable | Running | Sleeping | Zombie

  /** Whose stack the CPU is on. */
  datatype Thread = Scheduler | Proc(slot: nat)

  /** Where scheduler() is. Away: switched out, process p has the CPU. */
  datatype SchedPc =
    | Sti
    | ReadFlags
    | CliWith(eflags: bool)
    | Scan(p: nat)
    | Switch(p: nat)
    | Away(p: nat)
    | Back(p: nat)
    | Unlocking

  /**
    Where a process's kernel thread is. held are the locks it took and did not release,
    ie is IF as it was when it last held none.
   */
  datatype ThreadPc =
    | Forged                                   // never run: process_alloc's stack
    | Saved(intena: bool, ie: bool, exiting: bool)  // switched out in enter_scheduler, which keeps intena
    | Handed(was: Option<bool>)                // just switched to: must release ptable.lock; was is ie if it ran before
    | Run(held: set<nat>, ie: bool)            // kernel or user code
    | CliFor(held: set<nat>, ie: bool, lock: nat, eflags: bool)  // in acquire, between readeflags and cli
    | Yield(ie: bool, exiting: bool)           // holds ptable.lock only and changed its state

  datatype State = State(
    procs: seq<PState>,
    cproc: Option<nat>,
    cur: Thread,
    spc: SchedPc,
    tpc: seq<ThreadPc>,
    irq: Option<set<nat>>,  // the locks an interrupt handler holds while one runs
    locked: set<nat>,       // lk->locked && lk->cpu == mycpu()
    cli: Cli,
    panicked: bool)

  datatype Event =
    | Interrupt
    | HandlerAcquire(lock: nat) | HandlerRelease(lock: nat) | HandlerAsk | HandlerReturn
    | SchedulerStep
    | HandRelease                 // enter_process, or after enter_scheduler returned
    | AcquireRead(lock: nat) | AcquireCli
    | Release(lock: nat)
    | Ask                         // myproc() or holding()
    | ReturnToUser                // iret to user mode, with IF set
    | Alloc(slot: nat)            // process_alloc: UNUSED to INITIAL
    | Abandon(slot: nat)          // process_alloc without a stack: INITIAL to UNUSED
    | Publish(slot: nat)          // INITIAL to RUNNABLE
    | SetState(state: PState)     // before enter_scheduler, as in exit
    | EnterScheduler

  function PanicIn(s: State): (t: State) {
    s.(panicked := true)
  }

  /** pushcli after eflags was read. */
  function PushWith(c: Cli, eflags: bool): (r: Cli) {
    Cli(c.ncli + 1, if c.ncli == 0 then eflags else c.intena, false)
  }

  /** The rest of acquire after eflags was read. The check goes through holding, which nests. */
  function Take(s: State, l: nat, eflags: bool): (t: State) {
    var c := Pop(Push(PushWith(s.cli, eflags)));
    if l in s.locked then PanicIn(s) else s.(cli := c, locked := s.locked + {l})
  }

  function Drop(s: State, l: nat): (t: State) {
    var c := Pop(Push(s.cli));
    if l !in s.locked || !MayPop(c) then PanicIn(s) else s.(cli := Pop(c), locked := s.locked - {l})
  }

  /** The other side of swtch to process p. */
  function Resume(s: State, p: nat): (t: State)
    requires p < |s.tpc|
  {
    match s.tpc[p]
    case Forged => s.(tpc := s.tpc[p := Handed(None)])
    case Saved(intena, ie, exiting) =>
      if exiting then PanicIn(s)  // zombie exit
      else s.(cli := s.cli.(intena := intena), tpc := s.tpc[p := Handed(Some(ie))])
    case _ => PanicIn(s)          // its stack is in use
  }

  function StepScheduler(s: State): (t: Option<State>) {
    match s.spc
    case Sti => Some(s.(cli := s.cli.(iflag := true), spc := ReadFlags))
    case ReadFlags => Some(s.(spc := CliWith(s.cli.iflag)))
    case CliWith(e) => Some(Take(s, PT, e).(spc := Scan(0)))
    case Scan(p) =>
      if p >= NPROC || p >= |s.procs| then Some(s.(spc := Unlocking))
      else if s.procs[p] != Runnable then Some(s.(spc := Scan(p + 1)))
      else Some(s.(cproc := Some(p), cli := Pop(Push(s.cli)), procs := s.procs[p := Running], spc := Switch(p)))
    case Switch(p) => if p < |s.tpc| then Some(Resume(s.(cur := Proc(p), spc := Away(p)), p)) else None
    case Away(_) => None
    case Back(p) => Some(s.(cproc := None, spc := Scan(p + 1)))
    case Unlocking => Some(Drop(s, PT).(spc := Sti))
  }

  /** enter_scheduler: its four checks, then swtch to the scheduler. */
  function StepEnterScheduler(s: State, ie: bool, exiting: bool): (t: State) {
    if PT !in s.locked || s.cli.ncli != 1 || s.cli.iflag || s.cproc.None? then PanicIn(s)
    else
      var p := s.cproc.value;
      if p >= |s.procs| || p >= |s.tpc| || s.procs[p] == Running || !s.spc.Away? then PanicIn(s)
      else s.(tpc := s.tpc[p := Saved(s.cli.intena, ie, exiting)], cur := Scheduler, spc := Back(s.spc.p))
  }

  /** A process's thread in ordinary code. */
  function StepRun(s: State, i: nat, held: set<nat>, ie: bool, e: Event): (t: Option<State>)
    requires i < |s.tpc|
  {
    match e
    case AcquireRead(l) =>
      if l in held then None else Some(s.(tpc := s.tpc[i := CliFor(held, ie, l, s.cli.iflag)]))
    case Release(l) =>
      if l !in held then None
      else
        var t := Drop(s, l);
        Some(t.(tpc := s.tpc[i := Run(held - {l}, ie)]))
    case Ask => Some(s.(cli := Pop(Push(s.cli))))
    case ReturnToUser => if held != {} then None else Some(s.(cli := s.cli.(iflag := true)))
    case Alloc(q) =>
      if PT !in held || q >= |s.procs| || q >= |s.tpc| || s.procs[q] != Unused then None
      else Some(s.(procs := s.procs[q := Initial], tpc := s.tpc[q := Forged]))
    case Abandon(q) =>
      if q >= |s.procs| || s.procs[q] != Initial then None else Some(s.(procs := s.procs[q := Unused]))
    case Publish(q) =>
      if PT !in held || q >= |s.procs| || s.procs[q] != Initial then None
      else Some(s.(procs := s.procs[q := Runnable]))
    case SetState(st) =>
      if held != {PT} || st == Running || s.cproc.None? || s.cproc.value >= |s.procs| then None
      else Some(s.(procs := s.procs[s.cproc.value := st], tpc := s.tpc[i := Yield(ie, st == Zombie)]))
    case _ => None
  }

  function StepThread(s: State, i: nat, e: Event): (t: Option<State>)
    requires i < |s.tpc|
  {
    match s.tpc[i]
    case Handed(_) => if e.HandRelease? then Some(Drop(s, PT).(tpc := s.tpc[i := Run({}, false)])) else None
    case Run(held, ie) => StepRun(s, i, held, ie, e)
    case CliFor(held, ie, l, eflags) =>
      if e.AcquireCli? then
        Some(Take(s, l, eflags).(tpc := s.tpc[i := Run(held + {l}, if held == {} then eflags else ie)]))
      else None
    case Yield(ie, exiting) => if e.EnterScheduler? then Some(StepEnterScheduler(s, ie, exiting)) else None
    case _ => None
  }

  /** An interrupt handler takes locks it does not hold and gives all of them back. */
  function StepHandler(s: State, h: set<nat>, e: Event): (t: Option<State>) {
    match e
    case HandlerAcquire(l) => if l in h then None else Some(Take(s, l, s.cli.iflag).(irq := Some(h + {l})))
    case HandlerRelease(l) => if l !in h then None else Some(Drop(s, l).(irq := Some(h - {l})))
    case HandlerAsk => Some(s.(cli := Pop(Push(s.cli))))
    case HandlerReturn => if h != {} then None else Some(s.(irq := None, cli := s.cli.(iflag := true)))
    case _ => None
  }

  /** The state after event e, None when e cannot happen in s. */
  function Step(s: State, e: Event): (t: Option<State>) {
    if s.panicked then None
    else if s.irq.Some? then StepHandler(s, s.irq.value, e)
    else if e.Interrupt? then
      if s.cli.iflag then Some(s.(irq := Some({}), cli := s.cli.(iflag := false))) else None
    else match s.cur
      case Scheduler => if e.SchedulerStep? then StepScheduler(s) else None
      case Proc(i) => if i < |s.tpc| then StepThread(s, i, e) else None
  }

  ghost predicate Init(s: State) {
    && |s.procs| == |s.tpc| == NPROC
    && (forall q | 0 <= q < NPROC :: s.procs[q] in {Unused, Initial, Runnable} && s.tpc[q].Forged?)
    && s.cproc.None? && s.cur.Scheduler? && s.spc.Sti?
    && s.irq.None? && s.locked == {} && s.cli.ncli == 0 && !s.cli.iflag && !s.panicked
  }

  /** The locks the running code believes it holds. */
  ghost function Believed(s: State): (h: set<nat>) {
    match s.cur
    case Scheduler => if s.spc.Scan? || s.spc.Switch? || s.spc.Back? || s.spc.Unlocking? then {PT} else {}
    case Proc(i) =>
      if i >= |s.tpc| then {} else
      match s.tpc[i]
      case Run(held, _) => held
      case CliFor(held, _, _, _) => held
      case Handed(_) => {PT}
      case Yield(_, _) => {PT}
      case _ => {}
  }

  /** The process that is RUNNING, if any. */
  ghost function RunningSlot(s: State): (p: Option<nat>) {
    match s.cur
    case Scheduler => if s.spc.Switch? then Some(s.spc.p) else None
    case Proc(i) => if i < |s.tpc| && s.tpc[i].Yield? then None else Some(i)
  }

  ghost function OwnProc(s: State): (p: Option<nat>) {
    match s.cur
    case Scheduler => if s.spc.Switch? || s.spc.Back? then Some(s.spc.p) else None
    case Proc(i) => Some(i)
  }

  ghost predicate LocksOk(s: State) {
    && s.cli.ncli == |s.locked|
    && (s.cli.ncli > 0 ==> !s.cli.iflag)
    && match s.irq
       case None => s.locked == Believed(s)
       case Some(h) => Believed(s) == {} && s.locked == h && !s.cli.iflag && (h != {} ==> !s.cli.intena)
  }

  ghost predicate FlagsOk(s: State) {
    match s.cur
    case Scheduler =>
      && (s.spc.ReadFlags? || s.spc.CliWith? ==> s.irq.Some? || s.cli.iflag)
      && (s.spc.CliWith? ==> s.spc.eflags)
    case Proc(i) =>
      i < |s.tpc| &&
      match s.tpc[i]
      case Run(held, ie) => held != {} ==> s.cli.intena == ie
      case CliFor(held, ie, l, e) =>
        l !in held && (held != {} ==> s.cli.intena == ie) && e == (s.irq.Some? || s.cli.iflag)
      case Yield(ie, _) => s.cli.intena == ie
      case Handed(was) => was.Some? ==> s.cli.intena == was.value
      case _ => true
  }

  ghost predicate CurOk(s: State)
    requires |s.tpc| == NPROC
  {
    match s.cur
    case Scheduler =>
      && !s.spc.Away?
      && (s.spc.Scan? ==> s.spc.p <= NPROC)
      && (s.spc.Switch? || s.spc.Back? ==> s.spc.p < NPROC)
    case Proc(i) =>
      && i < NPROC && s.spc == Away(i)
      && !s.tpc[i].Forged? && !s.tpc[i].Saved?
  }

  ghost predicate ProcsOk(s: State)
    requires |s.procs| == |s.tpc| == NPROC
  {
    && s.cproc == OwnProc(s)
    && (forall q: nat | q < NPROC :: s.procs[q] == Running <==> RunningSlot(s) == Some(q))
    && (forall q: nat | q < NPROC && s.cur != Proc(q) :: s.tpc[q].Forged? || s.tpc[q].Saved?)
    && (forall q: nat | q < NPROC && (s.tpc[q].Saved? || s.tpc[q].Yield?) && s.tpc[q].exiting :: s.procs[q] == Zombie)
    && (forall q: nat | q < NPROC && s.tpc[q].Saved? :: s.tpc[q].intena == s.tpc[q].ie)
  }

  ghost predicate Inv(s: State) {
    && !s.panicked && |s.procs| == |s.tpc| == NPROC
    && LocksOk(s) && FlagsOk(s) && CurOk(s) && ProcsOk(s)
  }

  lemma InvInit(s: State)
    requires Init(s)
    ensures Inv(s)
  {
  }

  lemma TakeOk(s: State, l: nat, e: bool)
    requires s.cli.ncli == |s.locked| && l !in s.locked
    ensures Take(s, l, e) == s.(cli := PushWith(s.cli, e), locked := s.locked + {l})
    ensures Take(s, l, e).cli.ncli == |s.locked + {l}|
  {
  }

  lemma DropOk(s: State, l: nat)
    requires s.cli.ncli == |s.locked| && l in s.locked && !s.cli.iflag
    ensures Drop(s, l) == s.(cli := Pop(s.cli), locked := s.locked - {l})
    ensures Drop(s, l).cli.ncli == |s.locked - {l}|
    ensures s.locked - {l} == {} <==> s.cli.ncli == 1
  {
    if s.cli.ncli == 1 {
      assert |s.locked - {l}| == 0;
    }
  }

  /** A handler leaves threads and processes alone. */
  lemma HandlerKeeps(s: State, e: Event)
    requires Inv(s) && s.irq.Some? && StepHandler(s, s.irq.value, e).Some?
    ensures var t := StepHandler(s, s.irq.value, e).value;
            |t.procs| == |t.tpc| == NPROC && CurOk(t) && ProcsOk(t)
  {
    hide LocksOk, FlagsOk, Push, Pop, MayPop, PushWith;
  }

  lemma HandlerLocks(s: State, e: Event)
    requires Inv(s) && s.irq.Some? && StepHandler(s, s.irq.value, e).Some?
    ensures var t := StepHandler(s, s.irq.value, e).value;
            !t.panicked && LocksOk(t) && t.cur == s.cur && t.spc == s.spc && t.tpc == s.tpc
    ensures var t := StepHandler(s, s.irq.value, e).value;
            (t.irq.Some? || t.cli.iflag) && Believed(s) == {}
  {
    hide CurOk, ProcsOk, FlagsOk;
    match e {
      case HandlerAcquire(l) => TakeOk(s, l, s.cli.iflag);
      case HandlerRelease(l) => DropOk(s, l);
      case _ =>
    }
  }

  lemma InvHandler(s: State, e: Event)
    requires Inv(s) && s.irq.Some? && StepHandler(s, s.irq.value, e).Some?
    ensures Inv(StepHandler(s, s.irq.value, e).value)
  {
    hide CurOk, ProcsOk, LocksOk, StepHandler;
    HandlerKeeps(s, e);
    HandlerLocks(s, e);
  }

  lemma InvSchedulerLocks(s: State)
    requires Inv(s) && s.irq.None? && s.cur.Scheduler? && (s.spc.CliWith? || s.spc.Unlocking?)
    ensures StepScheduler(s).Some? && Inv(StepScheduler(s).value)
  {
    if s.spc.CliWith? {
      TakeOk(s, PT, s.spc.eflags);
    } else {
      DropOk(s, PT);
    }
  }

  lemma InvSwitch(s: State)
    requires Inv(s) && s.irq.None? && s.cur.Scheduler? && s.spc.Switch?
    ensures StepScheduler(s).Some? && Inv(StepScheduler(s).value)
  {
    var p := s.spc.p;
    assert s.tpc[p].Forged? || (s.tpc[p].Saved? && !s.tpc[p].exiting);
  }

  lemma InvScheduler(s: State)
    requires Inv(s) && s.irq.None? && s.cur.Scheduler? && StepScheduler(s).Some?
    ensures Inv(StepScheduler(s).value)
  {
    if s.spc.CliWith? || s.spc.Unlocking? {
      InvSchedulerLocks(s);
    } else if s.spc.Switch? {
      InvSwitch(s);
    } else if s.spc.Scan? {
      PushPop(s.cli);
    }
  }

  lemma InvRunLocks(s: State, i: nat, e: Event)
    requires Inv(s) && s.irq.None? && s.cur == Proc(i) && i < |s.tpc| && s.tpc[i].Run?
    requires e.AcquireRead? || e.Release? || e.Ask? || e.ReturnToUser?
    requires StepThread(s, i, e).Some?
    ensures Inv(StepThread(s, i, e).value)
  {
    if e.Release? {
      DropOk(s, e.lock);
    } else if e.Ask? {
      PushPop(s.cli);
    }
  }

  lemma InvRunProcs(s: State, i: nat, e: Event)
    requires Inv(s) && s.irq.None? && s.cur == Proc(i) && i < |s.tpc| && s.tpc[i].Run?
    requires e.Alloc? || e.Abandon? || e.Publish? || e.SetState?
    requires StepThread(s, i, e).Some?
    ensures Inv(StepThread(s, i, e).value)
  {
  }

  lemma InvEnterScheduler(s: State, i: nat)
    requires Inv(s) && s.irq.None? && s.cur == Proc(i) && i < |s.tpc| && s.tpc[i].Yield?
    ensures StepThread(s, i, EnterScheduler).Some? && Inv(StepThread(s, i, EnterScheduler).value)
  {
    assert s.locked == {PT};
  }

  lemma InvHandRelease(s: State, i: nat)
    requires Inv(s) && s.irq.None? && s.cur == Proc(i) && i < |s.tpc| && s.tpc[i].Handed?
    ensures StepThread(s, i, HandRelease).Some? && Inv(StepThread(s, i, HandRelease).value)
  {
    hide Take, Resume, StepRun, StepEnterScheduler;
    DropOk(s, PT);
  }

  lemma InvAcquire(s: State, i: nat)
    requires Inv(s) && s.irq.None? && s.cur == Proc(i) && i < |s.tpc| && s.tpc[i].CliFor?
    ensures StepThread(s, i, AcquireCli).Some? && Inv(StepThread(s, i, AcquireCli).value)
  {
    hide Drop, Resume, StepRun, StepEnterScheduler;
    TakeOk(s, s.tpc[i].lock, s.tpc[i].eflags);
  }

  lemma InvThread(s: State, i: nat, e: Event)
    requires Inv(s) && s.irq.None? && s.cur == Proc(i) && i < |s.tpc| && StepThread(s, i, e).Some?
    ensures Inv(StepThread(s, i, e).value)
  {
    hide Inv, Take, Drop, StepEnterScheduler, Push, Pop, MayPop, PushWith;
    match s.tpc[i] {
      case Handed(_) => InvHandRelease(s, i);
      case Run(held, ie) =>
        if e.AcquireRead? || e.Release? || e.Ask? || e.ReturnToUser? {
          InvRunLocks(s, i, e);
        } else {
          InvRunProcs(s, i, e);
        }
      case CliFor(_, _, _, _) => InvAcquire(s, i);
      case Yield(_, _) => InvEnterScheduler(s, i);
      case _ =>
    }
  }

  lemma InvStep(s: State, e: Event)
    requires Inv(s) && Step(s, e).Some?
    ensures Inv(Step(s, e).value)
  {
    if s.irq.Some? {
      InvHandler(s, e);
    } else if !e.Interrupt? {
      match s.cur {
        case Scheduler => InvScheduler(s);
        case Proc(i) => InvThread(s, i, e);
      }
    }
  }

  /** The states of the run that events make from s, one per event. */
  ghost predicate IsRun(run: seq<State>, events: seq<Event>) {
    && |run| == |events| + 1 && Init(run[0])
    && (forall i | 0 <= i < |events| :: Step(run[i], events[i]) == Some(run[i + 1]))
  }

  lemma {:induction false} InvRun(run: seq<State>, events: seq<Event>, i: nat)
    requires IsRun(run, events) && i < |run|
    ensures Inv(run[i])
  {
    if i == 0 {
      InvInit(run[0]);
    } else {
      InvRun(run, events, i - 1);
      assert Step(run[i - 1], events[i - 1]) == Some(run[i - 1 + 1]);
      InvStep(run[i - 1], events[i - 1]);
    }
  }

  /** A swtch is about to happen, in either direction. */
  predicate AtSwitch(s: State) {
    && s.irq.None?
    && match s.cur
       case Scheduler => s.spc.Switch?
       case Proc(i) => i < |s.tpc| && s.tpc[i].Yield?
  }

  /**
    In every state of every run: nothing has panicked; at each swtch the lock is held by this
    CPU, it is the only one, and interrupts are off; while the lock is free the RUNNING
    process is exactly the one in c->proc.
   */
  lemma HandOff(run: seq<State>, events: seq<Event>, i: nat)
    requires IsRun(run, events) && i < |run|
    ensures var s := run[i];
            && !s.panicked && |s.procs| == NPROC
            && (AtSwitch(s) ==> s.locked == {PT} && s.cli.ncli == 1 && !s.cli.iflag)
            && (PT !in s.locked ==> forall q: nat | q < NPROC :: s.procs[q] == Running <==> s.cproc == Some(q))
  {
    InvRun(run, events, i);
    var s := run[i];
    if AtSwitch(s) {
      assert s.locked == {PT};
    }
  }

  /** Interrupts stay off while any lock is held, and handlers never nest. */
  lemma NoInterruptUnderLock(run: seq<State>, events: seq<Event>, i: nat)
    requires IsRun(run, events) && i < |events|
    ensures run[i].locked != {} ==> run[i].cli.ncli > 0 && !run[i].cli.iflag
    ensures events[i].Interrupt? ==> run[i].locked == {} && run[i].irq.None?
  {
    InvRun(run, events, i);
    assert Step(run[i], events[i]) == Some(run[i + 1]);
  }

  /**
    Whoever executes acquire, in every run, finds the lock free: the xchg succeeds at the first
    try, also when an interrupt came between readeflags and cli.
   */
  lemma FirstTry(run: seq<State>, events: seq<Event>, i: nat)
    requires IsRun(run, events) && i < |events|
    ensures var s := run[i];
            && (forall l: nat | events[i] == HandlerAcquire(l) :: l !in s.locked && s.locked < run[i + 1].locked)
            && (forall p: nat | s.cur == Proc(p) && p < |s.tpc| && events[i].AcquireCli? ::
                  s.tpc[p].CliFor? && s.tpc[p].lock !in s.locked && run[i + 1].locked == s.locked + {s.tpc[p].lock})
            && (events[i].SchedulerStep? && s.spc.CliWith? ==> s.locked == {} && run[i + 1].locked == {PT})
  {
    InvRun(run, events, i);
    InvRun(run, events, i + 1);
    assert Step(run[i], events[i]) == Some(run[i + 1]);
  }

  /** A thread that took a lock from IF on or off and has not given back its last one, wherever it is meanwhile. */
  predicate Nested(t: ThreadPc) {
    t.CliFor? || (t.Run? && t.held != {}) || t.Yield? || t.Saved? || (t.Handed? && t.was.Some?)
  }

  /** IF as that thread is to find it again. */
  function OuterFlag(t: ThreadPc): (ie: bool)
    requires Nested(t)
  {
    match t
    case CliFor(held, ie, _, eflags) => if held == {} then eflags else ie
    case Run(_, ie) => ie
    case Yield(ie, _) => ie
    case Saved(_, ie, _) => ie
    case Handed(was) => was.value
  }

  lemma NestedStep(s: State, e: Event, t: State, p: nat)
    requires Inv(s) && Step(s, e) == Some(t) && p < NPROC && |t.tpc| == NPROC && Nested(s.tpc[p]) && Nested(t.tpc[p])
    ensures OuterFlag(t.tpc[p]) == OuterFlag(s.tpc[p])
  {
    hide LocksOk, FlagsOk, Pop, Push, MayPop, PushWith, StepThread;
    if s.irq.None? && !e.Interrupt? && s.cur.Proc? {
      NestedThread(s, s.cur.slot, e, t, p);
    }
  }

  lemma NestedThread(s: State, i: nat, e: Event, t: State, p: nat)
    requires Inv(s) && i < |s.tpc| && s.cur == Proc(i) && StepThread(s, i, e) == Some(t)
    requires p < NPROC && |t.tpc| == NPROC && Nested(s.tpc[p]) && Nested(t.tpc[p])
    ensures OuterFlag(t.tpc[p]) == OuterFlag(s.tpc[p])
  {
    hide LocksOk, FlagsOk, Pop, Push, MayPop, PushWith;
  }

  lemma {:induction false} NestedRun(run: seq<State>, events: seq<Event>, a: nat, b: nat, p: nat)
    requires IsRun(run, events) && a <= b < |run| && p < NPROC
    requires forall k | a <= k <= b :: |run[k].tpc| == NPROC && Nested(run[k].tpc[p])
    ensures OuterFlag(run[b].tpc[p]) == OuterFlag(run[a].tpc[p])
  {
    hide Inv, Step, Init, Nested, OuterFlag;
    if a < b {
      NestedRun(run, events, a, b - 1, p);
      InvRun(run, events, b - 1);
      assert Step(run[b - 1], events[b - 1]) == Some(run[b - 1 + 1]);
      NestedStep(run[b - 1], events[b - 1], run[b], p);
    }
  }

  /**
    intena belongs to the thread. A process without locks starts an acquire at a. It gives back its
    last lock at b, directly or, switched out and in again by then, as the first thing it does.
    Whatever happened between, to it or to others, IF after b is what it was at a.
   */
  lemma FlagRestored(run: seq<State>, events: seq<Event>, a: nat, b: nat, p: nat, l: nat)
    requires IsRun(run, events) && a < b < |events| && p < NPROC
    requires forall k | a <= k <= b :: |run[k].tpc| == NPROC
    requires run[a].cur == Proc(p) && run[a].tpc[p].Run? && run[a].tpc[p].held == {} && events[a].AcquireRead?
    requires forall k | a < k <= b :: Nested(run[k].tpc[p])
    requires run[b].cur == Proc(p) && (events[b] == Release(l) || events[b] == HandRelease)
    requires events[b] == Release(l) ==> run[b].tpc[p].Run? && run[b].tpc[p].held == {l}
    ensures run[b + 1].cli.iflag == run[a].cli.iflag && run[b + 1].locked == {}
  {
    AcquireStarts(run, events, a, p);
    NestedRun(run, events, a + 1, b, p);
    LastRelease(run, events, b, p, l);
  }

  lemma AcquireStarts(run: seq<State>, events: seq<Event>, a: nat, p: nat)
    requires IsRun(run, events) && a < |events| && p < NPROC && |run[a].tpc| == NPROC
    requires run[a].cur == Proc(p) && run[a].tpc[p].Run? && run[a].tpc[p].held == {} && events[a].AcquireRead?
    ensures |run[a + 1].tpc| == NPROC && Nested(run[a + 1].tpc[p]) && OuterFlag(run[a + 1].tpc[p]) == run[a].cli.iflag
  {
    InvRun(run, events, a);
    assert Step(run[a], events[a]) == Some(run[a + 1]);
  }

  lemma LastRelease(run: seq<State>, events: seq<Event>, b: nat, p: nat, l: nat)
    requires IsRun(run, events) && b < |events| && run[b].cur == Proc(p) && p < |run[b].tpc| && Nested(run[b].tpc[p])
    requires || (events[b] == Release(l) && run[b].tpc[p].Run? && run[b].tpc[p].held == {l})
             || events[b] == HandRelease
    ensures run[b + 1].cli.iflag == OuterFlag(run[b].tpc[p]) && run[b + 1].locked == {}
  {
    InvRun(run, events, b);
    assert Step(run[b], events[b]) == Some(run[b + 1]);
    var s := run[b];
    assert s.irq.None?;
    var k := if events[b].Release? then l else PT;
    assert s.locked == {k};
    DropOk(s, k);
  }

  /** No state of a run is stuck: whatever code has the CPU can take a step that changes something. */
  lemma NeverStuck(s: State) returns (e: Event)
    requires Inv(s)
    ensures Step(s, e).Some? && Step(s, e).value != s
  {
    if s.irq.Some? {
      e := HandlerMoves(s, s.irq.value);
    } else {
      match s.cur {
        case Scheduler => e := SchedulerStep;
        case Proc(i) =>
          match s.tpc[i] {
            case Handed(_) => e := HandRelease;
            case CliFor(_, _, _, _) => e := AcquireCli;
            case Yield(_, _) => e := EnterScheduler;
            case Run(held, _) =>
              if held == {} {
                e := AcquireRead(PT);
              } else {
                var l :| l in held;
                e := Release(l);
              }
          }
      }
    }
  }

  lemma HandlerMoves(s: State, h: set<nat>) returns (e: Event)
    ensures StepHandler(s, h, e).Some? && (s.irq == Some(h) && !s.panicked ==> StepHandler(s, h, e).value != s)
  {
    if h == {} {
      e := HandlerReturn;
    } else {
      var l :| l in h;
      e := HandlerRelease(l);
      assert h - {l} != h;
    }
  }

  /**
    Each pass of the scheduler is open to interrupts: sti turns them on, they are on until the
    acquire that begins a scan, and no scan begins otherwise.
   */
  lemma PassOpen(run: seq<State>, events: seq<Event>, i: nat)
    requires IsRun(run, events) && i < |run|
    ensures var s := run[i];
            s.cur.Scheduler? && s.irq.None? && (s.spc.ReadFlags? || s.spc.CliWith?) ==>
              s.cli.iflag && Step(s, Interrupt).Some?
    ensures i < |events| && run[i].cur.Scheduler? && events[i].SchedulerStep? ==>
              var s, t := run[i], run[i + 1];
              && (s.spc.Sti? ==> t.spc.ReadFlags? && t.cli.iflag)
              && (s.spc.ReadFlags? ==> t.spc.CliWith?)
              && (t.spc == Scan(0) <==> s.spc.CliWith?)
              && (s.spc.Unlocking? ==> t.spc.Sti? && PT !in t.locked)
  {
    InvRun(run, events, i);
    if i < |events| {
      assert Step(run[i], events[i]) == Some(run[i + 1]);
    }
  }

  /** What the process table is after each event that changes it, and no other event does. */
  lemma TableStep(run: seq<State>, events: seq<Event>, i: nat)
    requires IsRun(run, events) && i < |events|
    ensures var s, e, t := run[i], events[i], run[i + 1];
            && |s.procs| == NPROC
            && (forall q: nat | e == Alloc(q) :: q < NPROC && s.procs[q] == Unused && t.procs == s.procs[q := Initial])
            && (forall q: nat | e == Abandon(q) ::
                q < NPROC && s.procs[q] == Initial && t.procs == s.procs[q := Unused])
            && (forall q: nat | e == Publish(q) ::
                q < NPROC && s.procs[q] == Initial && t.procs == s.procs[q := Runnable])
            && (forall q: nat | Dispatched(s, e) == Some(q) ::
                  q < NPROC && s.procs[q] == Runnable && t.procs == s.procs[q := Running] && t.cproc == Some(q))
            && (forall p: nat, st: PState | s.cur == Proc(p) && e == SetState(st) ::
                  p < NPROC && s.procs[p] == Running && t.procs == s.procs[p := st])
            && (!e.Alloc? && !e.Abandon? && !e.Publish? && !e.SetState? && Dispatched(s, e).None? ==>
                t.procs == s.procs)
  {
    InvRun(run, events, i);
    assert Step(run[i], events[i]) == Some(run[i + 1]);
  }

  /** Who has the CPU and whether interrupts are on after the events that change that. */
  lemma ControlStep(run: seq<State>, events: seq<Event>, i: nat)
    requires IsRun(run, events) && i < |events|
    ensures var s, e, t := run[i], events[i], run[i + 1];
            && (e.Interrupt? ==> s.cli.iflag && t.irq == Some({}) && !t.cli.iflag)
            && (e.HandlerReturn? ==> t.irq.None? && t.locked == {} && t.cli.iflag)
            && (e.ReturnToUser? ==> t.locked == {} && t.cli.iflag)
            && (e.EnterScheduler? ==> t.cur.Scheduler? && t.spc.Back? && s.cur == Proc(t.spc.p))
            && (e.SchedulerStep? && s.spc.Switch? ==> t.cur == Proc(s.spc.p) && t.cproc == Some(s.spc.p))
            && (e.SchedulerStep? && s.spc.Back? ==> t.cproc.None? && t.spc == Scan(s.spc.p + 1))
  {
    hide Take, Drop;
    InvRun(run, events, i);
    assert Step(run[i], events[i]) == Some(run[i + 1]);
  }

  /**
    Where a thread stands after the events that hand the CPU over: a new slot starts afresh, an exit
    is marked as one.
   */
  lemma ThreadStep(run: seq<State>, events: seq<Event>, i: nat)
    requires IsRun(run, events) && i < |events|
    ensures var s, e, t := run[i], events[i], run[i + 1];
            && |s.tpc| == |t.tpc| == NPROC
            && (forall q: nat | e == Alloc(q) :: q < NPROC && t.tpc[q].Forged?)
            && (forall p: nat | s.cur == Proc(p) && p < NPROC ::
                  && (e.SetState? ==> t.tpc[p].Yield? && t.tpc[p].exiting == (e.state == Zombie))
                  && (e.EnterScheduler? ==>
                        s.tpc[p].Yield? && t.tpc[p] == Saved(s.cli.intena, s.tpc[p].ie, s.tpc[p].exiting))
                  && (e.AcquireRead? ==>
                        s.tpc[p].Run? && t.tpc[p] == CliFor(s.tpc[p].held, s.tpc[p].ie, e.lock, s.cli.iflag)))
            && (e.SchedulerStep? && s.spc.Switch? && s.spc.p < NPROC ==>
                  t.tpc[s.spc.p] == Handed(if s.tpc[s.spc.p].Saved? then Some(s.tpc[s.spc.p].ie) else None))
  {
    hide Take, Drop, LocksOk, FlagsOk;
    InvRun(run, events, i);
    InvRun(run, events, i + 1);
    assert Step(run[i], events[i]) == Some(run[i + 1]);
  }

  /** Which locks are held after a release. */
  lemma ReleaseStep(run: seq<State>, events: seq<Event>, i: nat)
    requires IsRun(run, events) && i < |events|
    ensures var s, e, t := run[i], events[i], run[i + 1];
            && (e.HandRelease? ==> s.locked == {PT} && t.locked == {})
            && (forall l: nat | e == Release(l) || e == HandlerRelease(l) ::
                l in s.locked && t.locked == s.locked - {l})
  {
    hide Inv, Step;
    InvRun(run, events, i);
    assert Step(run[i], events[i]) == Some(run[i + 1]);
    match events[i] {
      case HandRelease => HandDrops(run[i], run[i + 1]);
      case Release(l) => ThreadDrops(run[i], l, run[i + 1]);
      case HandlerRelease(l) => HandlerDrops(run[i], l, run[i + 1]);
      case _ =>
    }
  }

  lemma HandDrops(s: State, t: State)
    requires Inv(s) && Step(s, HandRelease) == Some(t)
    ensures s.locked == {PT} && t.locked == {}
  {
    hide ProcsOk, Push, Pop, MayPop, Drop;
    DropOk(s, PT);
  }

  lemma ThreadDrops(s: State, l: nat, t: State)
    requires Inv(s) && Step(s, Release(l)) == Some(t)
    ensures l in s.locked && t.locked == s.locked - {l}
  {
    hide ProcsOk, Push, Pop, MayPop, Drop;
    DropOk(s, l);
  }

  lemma HandlerDrops(s: State, l: nat, t: State)
    requires Inv(s) && Step(s, HandlerRelease(l)) == Some(t)
    ensures l in s.locked && t.locked == s.locked - {l}
  {
    hide ProcsOk, Push, Pop, MayPop, Drop;
    DropOk(s, l);
  }

  /** When each panic would fire, in any state at all: acquire, release, enter_scheduler, and a switch to a thread. */
  lemma Checks(s: State, l: nat, p: nat, flag: bool)
    requires !s.panicked && s.cli.ncli >= 0 && |s.procs| == |s.tpc| == NPROC && p < NPROC
    ensures Take(s, l, flag).panicked <==> l in s.locked
    ensures Drop(s, l).panicked <==> l !in s.locked || s.cli.ncli == 0
    ensures s.spc.Away? && s.cproc == Some(p) ==>
              (StepEnterScheduler(s, flag, flag).panicked <==>
                 PT !in s.locked || s.cli.ncli != 1 || s.cli.iflag || s.procs[p] == Running)
    ensures Resume(s, p).panicked <==> !s.tpc[p].Forged? && !(s.tpc[p].Saved? && !s.tpc[p].exiting)
  {
  }

  /** When each event can happen, so that runs are as many as the kernel's: the handler's events. */
  lemma HandlerCan(run: seq<State>, events: seq<Event>, i: nat, l: nat)
    requires IsRun(run, events) && i < |run|
    ensures run[i].irq.None? ==> (Step(run[i], Interrupt).Some? <==> run[i].cli.iflag)
    ensures run[i].irq.Some? ==>
              && (Step(run[i], HandlerAcquire(l)).Some? <==> l !in run[i].locked)
              && (Step(run[i], HandlerRelease(l)).Some? <==> l in run[i].locked)
              && (Step(run[i], HandlerReturn).Some? <==> run[i].locked == {})
  {
    hide Take, Drop, ProcsOk;
    InvRun(run, events, i);
  }

  /** And those of the code that has the CPU while no handler runs. */
  lemma CodeCan(run: seq<State>, events: seq<Event>, i: nat, l: nat)
    requires IsRun(run, events) && i < |run| && run[i].irq.None?
    ensures var s := run[i];
            && |s.procs| == |s.tpc| == NPROC
            && (s.cur.Scheduler? <==> Step(s, SchedulerStep).Some?)
            && (forall p: nat | s.cur == Proc(p) ::
                  && p < NPROC
                  && (s.tpc[p].Handed? <==> Step(s, HandRelease).Some?)
                  && (s.tpc[p].CliFor? <==> Step(s, AcquireCli).Some?)
                  && (s.tpc[p].Yield? <==> Step(s, EnterScheduler).Some?)
                  && (s.tpc[p].Run? ==>
                        && (Step(s, AcquireRead(l)).Some? <==> l !in s.locked)
                        && (Step(s, Release(l)).Some? <==> l in s.locked)
                        && (Step(s, ReturnToUser).Some? <==> s.locked == {})
                        && (Step(s, SetState(Zombie)).Some? <==> s.locked == {PT})
                        && (Step(s, Alloc(l)).Some? <==> PT in s.locked && l < NPROC && s.procs[l] == Unused)
                        && (Step(s, Publish(l)).Some? <==> PT in s.locked && l < NPROC && s.procs[l] == Initial)))
  {
    hide Take, Drop, StepEnterScheduler;
    InvRun(run, events, i);
  }

  // Fairness.

  /** The slot the scheduler picks in this step, if it does. */
  function Dispatched(s: State, e: Event): (p: Option<nat>) {
    if s.irq.None? && s.cur.Scheduler? && e.SchedulerStep? && s.spc.Scan? && s.spc.p < |s.procs|
       && s.spc.p < NPROC && s.procs[s.spc.p] == Runnable
    then Some(s.spc.p) else None
  }

  /** How many slots the scan has yet to pass before it comes to q. */
  function Distance(s: State, q: nat): (d: int) {
    var pos :=
      match s.spc
      case Scan(p) => p
      case Switch(p) => p + 1
      case Away(p) => p + 1
      case Back(p) => p + 1
      case _ => NPROC;
    if pos <= q then q - pos else q + NPROC - pos
  }

  /** Only the scheduler's own steps move the scan. */
  lemma SpcStep(s: State, e: Event, t: State)
    requires Inv(s) && Step(s, e) == Some(t)
    ensures || t.spc == s.spc
            || (s.spc.Away? && t.spc == Back(s.spc.p))
            || (s.irq.None? && s.cur.Scheduler? && e.SchedulerStep? && Some(t) == StepScheduler(s))
  {
    hide LocksOk, FlagsOk, ProcsOk, StepScheduler, Pop, Push, MayPop, PushWith;
  }

  lemma Approach(s: State, e: Event, t: State, q: nat)
    requires Inv(s) && Step(s, e) == Some(t) && q < NPROC && s.procs[q] == Runnable
    requires Dispatched(s, e) != Some(q)
    ensures 0 <= Distance(t, q) <= Distance(s, q) - if Dispatched(s, e).Some? then 1 else 0
    ensures Distance(s, q) < NPROC
  {
    hide LocksOk, FlagsOk, ProcsOk, Pop, Push, MayPop, PushWith, StepThread, StepHandler;
    SpcStep(s, e, t);
  }

  function Dispatches(run: seq<State>, events: seq<Event>, from: nat, to: nat): (n: nat)
    requires from <= to <= |events| && to <= |run|
  {
    if from == to then 0
    else Dispatches(run, events, from, to - 1) + if Dispatched(run[to - 1], events[to - 1]).Some? then 1 else 0
  }

  lemma {:induction false} Approaches(run: seq<State>, events: seq<Event>, from: nat, to: nat, q: nat)
    requires IsRun(run, events) && from <= to <= |events| && q < NPROC
    requires forall j | from <= j < to :: |run[j].procs| == NPROC && run[j].procs[q] == Runnable
    requires forall j | from <= j < to :: Dispatched(run[j], events[j]) != Some(q)
    ensures from < to ==> Dispatches(run, events, from, to) <= Distance(run[from], q) - Distance(run[to], q)
    ensures from < to ==> 0 <= Distance(run[to], q) && Distance(run[from], q) < NPROC
  {
    hide Inv, Step, Init, Dispatched, Distance;
    if from < to {
      Approaches(run, events, from, to - 1, q);
      InvRun(run, events, to - 1);
      assert Step(run[to - 1], events[to - 1]) == Some(run[to - 1 + 1]);
      Approach(run[to - 1], events[to - 1], run[to], q);
    }
  }

  /** Only its dispatch ends the wait of a RUNNABLE slot. */
  lemma {:induction false} StaysRunnable(run: seq<State>, events: seq<Event>, from: nat, to: nat, q: nat)
    requires IsRun(run, events) && from <= to <= |events| && q < NPROC
    requires |run[from].procs| == NPROC && run[from].procs[q] == Runnable
    requires forall j | from <= j < to :: Dispatched(run[j], events[j]) != Some(q)
    ensures |run[to].procs| == NPROC && run[to].procs[q] == Runnable
  {
    hide IsRun, Dispatched;
    if from < to {
      StaysRunnable(run, events, from, to - 1, q);
      RunnableStep(run, events, to - 1, q);
    }
  }

  lemma RunnableStep(run: seq<State>, events: seq<Event>, i: nat, q: nat)
    requires IsRun(run, events) && i < |events| && q < NPROC && |run[i].procs| == NPROC && run[i].procs[q] == Runnable
    requires Dispatched(run[i], events[i]) != Some(q)
    ensures |run[i + 1].procs| == NPROC && run[i + 1].procs[q] == Runnable
  {
    hide Step, Dispatched, Inv;
    InvRun(run, events, i);
    TableStep(run, events, i);
    CurrentRuns(run, events, i);
  }

  lemma CurrentRuns(run: seq<State>, events: seq<Event>, i: nat)
    requires IsRun(run, events) && i < |events|
    ensures events[i].SetState? ==> run[i].cur.Proc?
  {
    assert Step(run[i], events[i]) == Some(run[i + 1]);
  }

  /** A RUNNABLE slot waits for at most 63 dispatches of others before it is picked. */
  lemma BoundedWaiting(run: seq<State>, events: seq<Event>, from: nat, to: nat, q: nat)
    requires IsRun(run, events) && from <= to <= |events| && q < NPROC
    requires |run[from].procs| == NPROC && run[from].procs[q] == Runnable
    requires forall j | from <= j < to :: Dispatched(run[j], events[j]) != Some(q)
    ensures Dispatches(run, events, from, to) <= 63
  {
    forall j | from <= j < to ensures |run[j].procs| == NPROC && run[j].procs[q] == Runnable {
      StaysRunnable(run, events, from, j, q);
    }
    Approaches(run, events, from, to, q);
  }

  /** So a slot that is published is dispatched after at most 63 others, and is RUNNABLE until then. */
  lemma PublishedWaits(run: seq<State>, events: seq<Event>, a: nat, to: nat, q: nat)
    requires IsRun(run, events) && a < to <= |events| && events[a] == Publish(q)
    requires forall j | a < j < to :: Dispatched(run[j], events[j]) != Some(q)
    ensures |run[to].procs| == 64 && q < 64 && run[to].procs[q] == Runnable
    ensures Dispatches(run, events, a + 1, to) <= 63
  {
    hide Dispatched;
    TableStep(run, events, a);
    StaysRunnable(run, events, a + 1, to, q);
    BoundedWaiting(run, events, a + 1, to, q);
  }

  /** How many of its own steps the scheduler takes at most before it comes to slot q. */
  function Rank(s: State, q: nat): (n: int) {
    match s.spc
    case Scan(p) => if p <= q then q - p else q + 5 + (NPROC - p)
    case CliWith(_) => q + 1
    case ReadFlags => q + 2
    case Sti => q + 3
    case Unlocking => q + 4
    case Back(p) => 1 + if p + 1 <= q then q - (p + 1) else q + 5 + (NPROC - (p + 1))
    case _ => 0
  }

  /** A step of the scheduler dispatches or brings it closer; interrupts between its steps do not set it back. */
  lemma RankStep(s: State, e: Event, t: State, q: nat)
    requires Inv(s) && Step(s, e) == Some(t) && q < NPROC && s.procs[q] == Runnable && s.cur.Scheduler?
             && !s.spc.Switch?
    requires Dispatched(s, e).None?
    ensures t.cur.Scheduler? && !t.spc.Switch? && t.procs == s.procs
    ensures 0 <= Rank(t, q) && Rank(s, q) <= NPROC + 5 && Rank(t, q) <= Rank(s, q) - if e.SchedulerStep? then 1 else 0
  {
    hide LocksOk, FlagsOk, ProcsOk, Pop, Push, MayPop, PushWith, StepThread;
  }

  function SchedulerSteps(events: seq<Event>, from: nat, to: nat): (n: nat)
    requires from <= to <= |events|
  {
    if from == to then 0 else SchedulerSteps(events, from, to - 1) + if events[to - 1].SchedulerStep? then 1 else 0
  }

  /**
    With a RUNNABLE slot the scheduler is never idle for long: it takes at most 69 of its own
    steps, however many interrupts come between them, before it dispatches some process.
   */
  lemma {:induction false} DispatchesSoon(run: seq<State>, events: seq<Event>, from: nat, to: nat, q: nat)
    requires IsRun(run, events) && from <= to <= |events| && q < NPROC
    requires run[from].cur.Scheduler? && !run[from].spc.Switch? && |run[from].procs| == NPROC
             && run[from].procs[q] == Runnable
    requires forall j | from <= j < to :: Dispatched(run[j], events[j]).None?
    ensures run[to].cur.Scheduler? && !run[to].spc.Switch? && run[to].procs == run[from].procs
    ensures from < to ==> 0 <= Rank(run[to], q) <= Rank(run[from], q) - SchedulerSteps(events, from, to)
    ensures SchedulerSteps(events, from, to) <= 69
  {
    hide Inv, Step, Init, Dispatched, Rank;
    if from < to {
      DispatchesSoon(run, events, from, to - 1, q);
      InvRun(run, events, to - 1);
      assert Step(run[to - 1], events[to - 1]) == Some(run[to - 1 + 1]);
      RankStep(run[to - 1], events[to - 1], run[to], q);
      InvRun(run, events, from);
      assert Step(run[from], events[from]) == Some(run[from + 1]);
      RankStep(run[from], events[from], run[from + 1], q);
    }
  }

  /** Which steps give the CPU to a process, and which change a process's state. */
  lemma ProcStep(s: State, e: Event, t: State, q: nat)
    requires Inv(s) && Step(s, e) == Some(t) && q < NPROC
    ensures |t.procs| == NPROC
    ensures t.procs[q] != s.procs[q] ==> s.procs[q] in {Unused, Initial, Runnable} || s.procs[q] == Running
    ensures t.cur == Proc(q) != s.cur ==> s.procs[q] == Running
  {
    hide LocksOk, FlagsOk, Pop, Push, MayPop, PushWith;
    if s.irq.None? && !e.Interrupt? && s.cur.Proc? {
      ThreadProcs(s, s.cur.slot, e, t, q);
    }
  }

  lemma ThreadProcs(s: State, i: nat, e: Event, t: State, q: nat)
    requires Inv(s) && i < |s.tpc| && s.cur == Proc(i) && StepThread(s, i, e) == Some(t) && q < NPROC
    ensures |t.procs| == NPROC && (t.cur == s.cur || t.cur.Scheduler?)
    ensures t.procs[q] != s.procs[q] ==> s.procs[q] in {Unused, Initial} || s.procs[q] == Running
  {
    hide LocksOk, FlagsOk, Pop, Push, MayPop, PushWith;
  }

  lemma ZombieStep(s: State, e: Event, t: State, q: nat)
    requires Inv(s) && Step(s, e) == Some(t) && q < NPROC && s.procs[q] == Zombie
    ensures |t.procs| == NPROC && t.procs[q] == Zombie && Dispatched(s, e) != Some(q)
    ensures s.cur != Proc(q) ==> t.cur != Proc(q)
  {
    hide Inv, Step;
    ProcStep(s, e, t, q);
  }

  /** An exited process never runs again. */
  lemma {:induction false} ZombieForever(run: seq<State>, events: seq<Event>, i: nat, j: nat, q: nat)
    requires IsRun(run, events) && i <= j < |events| && q < NPROC
    requires |run[i].procs| == NPROC && run[i].procs[q] == Zombie
    ensures |run[j].procs| == NPROC && run[j].procs[q] == Zombie && Dispatched(run[j], events[j]) != Some(q)
    ensures run[i].cur != Proc(q) ==> run[j].cur != Proc(q)
  {
    hide Inv, Step, Init, Dispatched;
    if i < j {
      ZombieForever(run, events, i, j - 1, q);
      InvRun(run, events, j - 1);
      assert Step(run[j - 1], events[j - 1]) == Some(run[j - 1 + 1]);
      ZombieStep(run[j - 1], events[j - 1], run[j], q);
    }
    InvRun(run, events, j);
    assert Step(run[j], events[j]) == Some(run[j + 1]);
    ZombieStep(run[j], events[j], run[j + 1], q);
  }
}

/**
  kernel/spinlock.c on one CPU: nested interrupt disabling, and locks on top of it.
 */
module Spinlock {
  import opened Layout

  /** struct cpu's ncli and intena, with the IF bit of the CPU's eflags. */
  datatype Cli = Cli(ncli: int, intena: bool, iflag: bool)

  function Push(c: Cli): (r: Cli) {
    Cli(c.ncli + 1, if c.ncli == 0 then c.iflag else c.intena, false)
  }

  predicate MayPop(c: Cli) {
    !c.iflag && c.ncli >= 1
  }

  function Pop(c: Cli): (r: Cli) {
    Cli(c.ncli - 1, c.intena, c.iflag || (c.ncli == 1 && c.intena))
  }

  /** pushcli then popcli: nothing but intena changes, and that only at depth 0, where it is dead. */
  lemma PushPop(c: Cli)
    requires c.ncli >= 0
    ensures MayPop(Push(c)) && Pop(Push(c)).ncli == c.ncli
    ensures c.ncli == 0 ==> Pop(Push(c)).iflag == c.iflag
    ensures c.ncli > 0 && !c.iflag ==> Pop(Push(c)) == c
  {
  }

  class Lock {
    var locked: Word
    var cpu: Cpu?

    constructor ()
      ensures locked == 0 && cpu == null
    {
      locked, cpu := 0, null;
    }

    /** On one CPU a lock is recorded as held by that CPU exactly while it is locked. */
    ghost predicate OnlyBy(c: Cpu)
      reads this
    {
      (locked == 0 && cpu == null) || (locked == 1 && cpu == c)
    }
  }

  class Cpu {
    var ncli: int
    var intena: bool
    var iflag: bool

    constructor ()
      ensures View() == Cli(0, false, false)
    {
      ncli, intena, iflag := 0, false, false;
    }

    function View(): (c: Cli)
      reads this
    {
      Cli(ncli, intena, iflag)
    }

    method Pushcli()
      modifies this
      ensures View() == Push(old(View()))
    {
      var eflags := iflag;
      iflag := false;
      if ncli == 0 {
        intena := eflags;
      }
      ncli := ncli + 1;
    }

    method Popcli() returns (r: Status)
      modifies this
      ensures !r.Fail? && (r.Ok? <==> MayPop(old(View())))
      ensures r.Ok? ==> View() == Pop(old(View()))
    {
      if iflag {
        return Panic("popcli - interruptible");
      }
      ncli := ncli - 1;
      if ncli < 0 {
        return Panic("popcli");
      }
      if ncli == 0 && intena {
        iflag := true;
      }
      return Ok;
    }

    /** Whether this CPU holds the lock; it leaves the CPU as a matched pushcli and popcli do. */
    method Holding(lk: Lock) returns (r: Status, yes: bool)
      requires ncli >= 0
      modifies this
      ensures r.Ok? && yes == (lk.locked != 0 && lk.cpu == this)
      ensures View() == Pop(Push(old(View())))
    {
      PushPop(View());
      Pushcli();
      yes := lk.locked != 0 && lk.cpu == this;
      r := Popcli();
    }

    /** Takes the lock, or panics if this CPU has it. The first xchg always gets it: Fail does not happen. */
    method Acquire(lk: Lock) returns (r: Status)
      requires lk.OnlyBy(this) && ncli >= 0
      modifies this, lk
      ensures lk.OnlyBy(this) && !r.Fail?
      ensures r.Panic? <==> old(lk.locked) != 0
      ensures r.Panic? ==> lk.locked == old(lk.locked)
      ensures r.Ok? ==> lk.locked == 1 && View() == Push(old(View()))
    {
      Pushcli();
      ghost var c := View();
      var held;
      r, held := Holding(lk);
      PushPop(c);
      if r.Panic? {
        return;
      }
      if held {
        return Panic("acquire");
      }
      var was := lk.locked;
      lk.locked := 1;
      if was != 0 {
        return Fail;  // the loop would spin for ever: there is no other CPU to store 0
      }
      lk.cpu := this;
      return Ok;
    }

    /** Gives the lock back, or panics if this CPU does not have it or its nesting is wrong. */
    method Release(lk: Lock) returns (r: Status)
      requires lk.OnlyBy(this) && ncli >= 0
      modifies this, lk
      ensures lk.OnlyBy(this) && !r.Fail?
      ensures r.Ok? <==> old(lk.locked) != 0 && MayPop(Pop(Push(old(View()))))
      ensures r.Ok? ==> lk.locked == 0 && View() == Pop(Pop(Push(old(View()))))
    {
      ghost var c := View();
      var held;
      r, held := Holding(lk);
      PushPop(c);
      if r.Panic? {
        return;
      }
      if !held {
        return Panic("release");
      }
      lk.cpu := null;
      lk.locked := 0;
      r := Popcli();
    }
  }

  // Whole sequences of calls.

  datatype Op = PushOp | PopOp | AcquireOp(lock: nat) | ReleaseOp(lock: nat)

  /** The CPU and the set of locks it holds. */
  datatype State = State(cli: Cli, held: set<nat>)

  /** The effect of one call, None for a panic. */
  function Step(s: State, op: Op): (r: Option<State>) {
    match op
    case PushOp => Some(s.(cli := Push(s.cli)))
    case PopOp => if MayPop(s.cli) then Some(s.(cli := Pop(s.cli))) else None
    case AcquireOp(l) => if l in s.held then None else Some(State(Push(s.cli), s.held + {l}))
    case ReleaseOp(l) =>
      if l in s.held && MayPop(Pop(Push(s.cli))) then Some(State(Pop(Pop(Push(s.cli))), s.held - {l})) else None
  }

  function Run(s: State, ops: seq<Op>): (r: Option<State>)
    decreases |ops|
  {
    if ops == [] then Some(s)
    else
      var t := Run(s, ops[..|ops| - 1]);
      if t.None? then None else Step(t.value, ops[|ops| - 1])
  }

  /** Nesting depth after a sequence of calls. */
  function Depth(ops: seq<Op>): (n: int) {
    if ops == [] then 0
    else
      var op := ops[|ops| - 1];
      Depth(ops[..|ops| - 1]) + if op.PushOp? || op.AcquireOp? then 1 else -1
  }

  /** The locks held after a sequence of calls, in whatever order they are released. */
  function HeldAfter(held: set<nat>, ops: seq<Op>): (r: set<nat>) {
    if ops == [] then held
    else
      var h, op := HeldAfter(held, ops[..|ops| - 1]), ops[|ops| - 1];
      match op
      case AcquireOp(l) => h + {l}
      case ReleaseOp(l) => h - {l}
      case _ => h
  }

  /** Every call is matched so far, acquires a free lock and releases a held one. */
  predicate Balanced(held: set<nat>, ops: seq<Op>) {
    ops == [] ||
    (var prefix, op := ops[..|ops| - 1], ops[|ops| - 1];
     && Balanced(held, prefix)
     && Depth(ops) >= 0
     && (op.AcquireOp? ==> op.lock !in HeldAfter(held, prefix))
     && (op.ReleaseOp? ==> op.lock in HeldAfter(held, prefix)))
  }

  /**
    A sequence of calls runs without a panic exactly when it is balanced. Interrupts are off
    at every depth above zero and as they were at the start whenever the depth is back at zero.
   */
  lemma {:induction false} Nesting(s: State, ops: seq<Op>)
    requires s.cli.ncli == 0
    ensures Run(s, ops).Some? <==> Balanced(s.held, ops)
    ensures Run(s, ops).Some? ==>
              var r := Run(s, ops).value;
              && r.cli.ncli == Depth(ops) >= 0
              && r.held == HeldAfter(s.held, ops)
              && (Depth(ops) > 0 ==> !r.cli.iflag && r.cli.intena == s.cli.iflag)
              && (Depth(ops) == 0 ==> r.cli.iflag == s.cli.iflag)
  {
    if ops != [] {
      Nesting(s, ops[..|ops| - 1]);
    }
  }
}

/**
  One spin lock shared by any number of CPUs, as the steps of acquire, release and holding
  in kernel/spinlock.c interleave. mycpu() returns the executing CPU, which is a parameter here.
  Callers may be wrong: a CPU may call any of the three at any time.
 */
module SmpLock {

  /**
    Where a CPU is. holding() reads lk->locked first (…Locked) and lk->cpu second (…Cpu). mine
    says whether the CPU has the lock; no step looks at it.
   */
  datatype Pc =
    | Idle(mine: bool)                          // outside the three
    | AskLocked(mine: bool) | AskCpu(mine: bool)  // holding()
    | AcqLocked(mine: bool) | AcqCpu(mine: bool)  // the check at the head of acquire
    | Spin                                      // about to xchg
    | SetCpu                                    // xchg returned 0; about to store lk->cpu
    | RelLocked(mine: bool) | RelCpu(mine: bool)  // the check at the head of release
    | ClearCpu                                  // about to store 0 to lk->cpu
    | ClearLocked                               // about to store 0 to lk->locked
    | Panicked(mine: bool)

  /** lk->locked, lk->cpu and every CPU's place; answers records what holding() last told each CPU. */
  datatype State = State(locked: bool, cpu: int, pc: seq<Pc>, answers: seq<bool>)

  const NOBODY := -1

  ghost predicate Init(s: State) {
    && !s.locked && s.cpu == NOBODY
    && |s.answers| == |s.pc|
    && (forall c | 0 <= c < |s.pc| :: s.pc[c] == Idle(false) && !s.answers[c])
  }

  function Goto(s: State, c: nat, p: Pc): (r: State)
    requires c < |s.pc|
  {
    s.(pc := s.pc[c := p])
  }

  function Answer(s: State, c: nat, p: Pc, yes: bool): (r: State)
    requires c < |s.pc| && c < |s.answers|
  {
    s.(pc := s.pc[c := p], answers := s.answers[c := yes])
  }

  /** CPU c takes one step. */
  ghost predicate Step(s: State, c: nat, t: State) {
    && c < |s.pc| && c < |s.answers|
    && match s.pc[c]
       case Idle(b) => t == Goto(s, c, AcqLocked(b)) || t == Goto(s, c, RelLocked(b)) || t == Goto(s, c, AskLocked(b))
       case AskLocked(b) => t == if s.locked then Goto(s, c, AskCpu(b)) else Answer(s, c, Idle(b), false)
       case AskCpu(b) => t == Answer(s, c, Idle(b), s.cpu == c)
       case AcqLocked(b) => t == Goto(s, c, if s.locked then AcqCpu(b) else Spin)
       case AcqCpu(b) => t == Goto(s, c, if s.cpu == c then Panicked(b) else Spin)
       case Spin => t == if s.locked then s else Goto(s.(locked := true), c, SetCpu)
       case SetCpu => t == Goto(s.(cpu := c), c, Idle(true))
       case RelLocked(b) => t == Goto(s, c, if s.locked then RelCpu(b) else Panicked(b))
       case RelCpu(b) => t == Goto(s, c, if s.cpu == c then ClearCpu else Panicked(b))
       case ClearCpu => t == Goto(s.(cpu := NOBODY), c, ClearLocked)
       case ClearLocked => t == Goto(s.(locked := false), c, Idle(false))
       case Panicked(_) => false
  }

  /** Between its successful xchg and its clearing store. */
  predicate Owns(p: Pc) {
    p.SetCpu? || Named(p) || p.ClearLocked?
  }

  /** Between its setting and its clearing of lk->cpu. */
  predicate Named(p: Pc) {
    p.ClearCpu? || (!p.Spin? && !p.SetCpu? && !p.ClearLocked? && p.mine)
  }

  /** A run: any interleaving of steps. */
  ghost predicate IsRun(run: seq<State>, who: seq<nat>) {
    && |run| == |who| + 1 && Init(run[0])
    && (forall i | 0 <= i < |who| :: Step(run[i], who[i], run[i + 1]))
  }

  /** CPU o, or nobody, is the one between its successful xchg and its clearing store. */
  ghost predicate Inv(s: State, o: int) {
    && |s.answers| == |s.pc|
    && (o == NOBODY || 0 <= o < |s.pc|)
    && (forall c | 0 <= c < |s.pc| :: Owns(s.pc[c]) <==> c == o)
    && (s.locked <==> o != NOBODY)
    && s.cpu == if o != NOBODY && Named(s.pc[o]) then o else NOBODY
  }

  lemma InvStep(s: State, c: nat, t: State, o: int) returns (o': int)
    requires Inv(s, o) && Step(s, c, t)
    ensures Inv(t, o') && |t.pc| == |s.pc|
  {
    o' := if Owns(t.pc[c]) then c else if Owns(s.pc[c]) then NOBODY else o;
  }

  lemma {:induction false} InvRun(run: seq<State>, who: seq<nat>, i: nat) returns (o: int)
    requires IsRun(run, who) && i < |run|
    ensures Inv(run[i], o) && |run[i].pc| == |run[0].pc|
  {
    if i == 0 {
      o := NOBODY;
    } else {
      o := InvRun(run, who, i - 1);
      o := InvStep(run[i - 1], who[i - 1], run[i], o);
    }
  }

  /**
    Mutual exclusion in every state of every run, however wrong the callers: at most one CPU is
    between its successful xchg and its clearing store, and lk->cpu names c exactly between c's two
    stores to it.
   */
  lemma MutualExclusion(run: seq<State>, who: seq<nat>, i: nat, c: nat, d: nat)
    requires IsRun(run, who) && i < |run| && c < |run[i].pc| && d < |run[i].pc|
    ensures Owns(run[i].pc[c]) && Owns(run[i].pc[d]) ==> c == d
    ensures run[i].cpu == c <==> Named(run[i].pc[c])
    ensures run[i].locked <==> exists e: nat :: e < |run[i].pc| && Owns(run[i].pc[e])
  {
    var o := InvRun(run, who, i);
    assert run[i].locked ==> Owns(run[i].pc[o]);
  }

  /** Although it reads two words that others may change in between, holding() always tells the truth. */
  lemma HoldingTells(run: seq<State>, who: seq<nat>, i: nat)
    requires IsRun(run, who) && i < |who|
    ensures var s, t, c := run[i], run[i + 1], who[i];
            && c < |s.pc| == |t.pc| && |t.answers| == |s.answers| == |s.pc|
            && (s.pc[c].AskLocked? || s.pc[c].AskCpu? ==>
                  t.pc[c] == AskCpu(s.pc[c].mine) || (t.pc[c] == Idle(s.pc[c].mine) && t.answers[c] == s.pc[c].mine))
            && (s.pc[c].AskCpu? ==> t.pc[c].Idle?)
  {
    var o := InvRun(run, who, i);
    o := InvStep(run[i], who[i], run[i + 1], o);
  }

  /**
    The panics are exactly the wrong calls: acquire by the CPU that has the lock, release by one
    that has not. Each ends in a panic at the second step of the check or before, and no other does.
   */
  lemma WrongCalls(run: seq<State>, who: seq<nat>, i: nat)
    requires IsRun(run, who) && i < |who|
    ensures var s, t, c := run[i], run[i + 1], who[i];
            && c < |s.pc| == |t.pc|
            && (s.pc[c] == AcqLocked(true) ==> t.pc[c] == AcqCpu(true))
            && (s.pc[c] == AcqCpu(true) ==> t.pc[c] == Panicked(true))
            && (s.pc[c] == RelLocked(false) ==> t.pc[c] == RelCpu(false) || t.pc[c] == Panicked(false))
            && (s.pc[c] == RelCpu(false) ==> t.pc[c] == Panicked(false))
            && (t.pc[c].Panicked? ==>
                  s.pc[c] == AcqCpu(true) || s.pc[c] == RelLocked(false) || s.pc[c] == RelCpu(false))
            && (forall d: nat | d < |s.pc| && d != c :: t.pc[d] == s.pc[d])
  {
    var o := InvRun(run, who, i);
    assert Step(run[i], who[i], run[i + 1]);
  }

  // Progress: the lock can be had, and is given back.

  /** Inside acquire, rightly called, after the call and before the return. */
  predicate Acquiring(p: Pc) {
    p == AcqLocked(false) || p == AcqCpu(false) || p.Spin? || p.SetCpu?
  }

  /** Inside release, rightly called. */
  predicate Releasing(p: Pc) {
    p == RelLocked(true) || p == RelCpu(true) || p.ClearCpu? || p.ClearLocked?
  }

  /** Steps that are left at most until acquire returns. */
  function AcquireLeft(p: Pc): (n: nat) {
    match p
    case AcqLocked(_) => 4
    case AcqCpu(_) => 3
    case Spin => 2
    case SetCpu => 1
    case _ => 0
  }

  /** Steps that are left until release returns. */
  function ReleaseLeft(p: Pc): (n: nat) {
    match p
    case RelLocked(_) => 4
    case RelCpu(_) => 3
    case ClearCpu => 2
    case ClearLocked => 1
    case _ => 0
  }

  /** How many of the steps from a to b are CPU c's. */
  function OwnSteps(who: seq<nat>, c: nat, a: nat, b: nat): (n: nat)
    requires a <= b <= |who|
  {
    if a == b then 0 else OwnSteps(who, c, a, b - 1) + if who[b - 1] == c then 1 else 0
  }

  /** An idle CPU may call acquire, release and holding. */
  lemma CpuCalls(run: seq<State>, who: seq<nat>, i: nat, c: nat)
    requires IsRun(run, who) && i < |run| && c < |run[i].pc| && run[i].pc[c].Idle?
    ensures var b := run[i].pc[c].mine;
            && Step(run[i], c, Goto(run[i], c, AcqLocked(b)))
            && Step(run[i], c, Goto(run[i], c, RelLocked(b)))
            && Step(run[i], c, Goto(run[i], c, AskLocked(b)))
  {
    var o := InvRun(run, who, i);
  }

  /** A CPU whose xchg finds the lock free has it, one that finds it taken goes on spinning. */
  lemma SpinTakes(run: seq<State>, who: seq<nat>, i: nat)
    requires IsRun(run, who) && i < |who| && who[i] < |run[i].pc| && run[i].pc[who[i]].Spin?
    ensures who[i] < |run[i + 1].pc|
    ensures !run[i].locked ==> Owns(run[i + 1].pc[who[i]]) && run[i + 1].locked
    ensures run[i].locked ==> run[i + 1] == run[i]
  {
    assert Step(run[i], who[i], run[i + 1]);
  }

  lemma AcquireStep(run: seq<State>, who: seq<nat>, i: nat, c: nat)
    requires IsRun(run, who) && i < |who| && c < |run[i].pc| && Acquiring(run[i].pc[c])
    requires forall d: nat | d < |run[i].pc| && d != c :: !Owns(run[i].pc[d])
    ensures c < |run[i + 1].pc|
    ensures who[i] != c ==> run[i + 1].pc[c] == run[i].pc[c]
    ensures who[i] == c ==> AcquireLeft(run[i + 1].pc[c]) < AcquireLeft(run[i].pc[c])
    ensures Acquiring(run[i + 1].pc[c]) || run[i + 1].pc[c] == Idle(true)
    ensures run[i + 1].pc[c] == Idle(true) ==> run[i + 1].locked && run[i + 1].cpu == c
  {
    var o := InvRun(run, who, i);
    assert Step(run[i], who[i], run[i + 1]);
  }

  /**
    A CPU that called acquire while nobody else has the lock returns from it, with the lock, within
    four of its own steps, whatever the others do meanwhile short of taking the lock.
   */
  lemma {:induction false} AcquireEnds(run: seq<State>, who: seq<nat>, a: nat, b: nat, c: nat)
    requires IsRun(run, who) && a <= b <= |who| && c < |run[a].pc|
    requires forall k | a <= k <= b :: |run[k].pc| == |run[a].pc|
    requires Acquiring(run[a].pc[c]) && forall k | a <= k < b :: !run[k].pc[c].Idle?
    requires forall k, d: nat | a <= k < b && d < |run[k].pc| && d != c :: !Owns(run[k].pc[d])
    ensures AcquireLeft(run[b].pc[c]) + OwnSteps(who, c, a, b) <= 4
    ensures Acquiring(run[b].pc[c]) || (run[b].pc[c] == Idle(true) && run[b].locked && run[b].cpu == c)
    ensures OwnSteps(who, c, a, b) == 4 ==> run[b].pc[c] == Idle(true)
  {
    hide IsRun, Owns;
    if a < b {
      AcquireEnds(run, who, a, b - 1, c);
      AcquireStep(run, who, b - 1, c);
    }
  }

  lemma ReleaseStep(run: seq<State>, who: seq<nat>, i: nat, c: nat)
    requires IsRun(run, who) && i < |who| && c < |run[i].pc| && Releasing(run[i].pc[c])
    ensures c < |run[i + 1].pc|
    ensures who[i] != c ==> run[i + 1].pc[c] == run[i].pc[c]
    ensures who[i] == c ==> ReleaseLeft(run[i + 1].pc[c]) == ReleaseLeft(run[i].pc[c]) - 1
    ensures Releasing(run[i + 1].pc[c])
            || (run[i + 1].pc[c] == Idle(false) && !run[i + 1].locked && run[i + 1].cpu == NOBODY)
  {
    var o := InvRun(run, who, i);
    assert Step(run[i], who[i], run[i + 1]);
  }

  /**
    A CPU with the lock that called release returns from it at its fourth step, whatever the others
    do; at that moment the lock is free.
   */
  lemma {:induction false} ReleaseEnds(run: seq<State>, who: seq<nat>, a: nat, b: nat, c: nat)
    requires IsRun(run, who) && a <= b <= |who| && c < |run[a].pc|
    requires forall k | a <= k <= b :: |run[k].pc| == |run[a].pc|
    requires run[a].pc[c] == RelLocked(true) && forall k | a <= k < b :: !run[k].pc[c].Idle?
    ensures ReleaseLeft(run[b].pc[c]) + OwnSteps(who, c, a, b) == 4
    ensures Releasing(run[b].pc[c]) || (run[b].pc[c] == Idle(false) && !run[b].locked && run[b].cpu == NOBODY)
  {
    hide IsRun;
    if a < b {
      ReleaseEnds(run, who, a, b - 1, c);
      ReleaseStep(run, who, b - 1, c);
    }
  }
}

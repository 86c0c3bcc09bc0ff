/**
 * acquiresleep and releasesleep, with sleep and wakeup inside them, one step per lock operation or store.
 * Any number of processes take steps in any order; the spin locks block.
 */
module SleepLock {

  const NONE := -1
  /** ptable.lock is held by somebody who has nothing to do with this sleep lock. */
  const OTHER := -2

  /** Where a process is. Names with a comment say which spin locks it holds. */
  datatype Pc =
    | Idle
    | Want      // acquiresleep: before acquire(&lk->lk), the first time or again after sleep
    | Check     // lk: at the test of the while loop
    | Going     // lk: in sleep, before acquire(&ptable.lock)
    | Gone      // lk, ptable: before release(lk)
    | Dozing    // ptable: before p->state = SLEEPING
    | Asleep    // SLEEPING on lk
    | Hold      // between acquiresleep and releasesleep
    | Leaving   // releasesleep: before acquire(&lk->lk)
    | Clear     // lk: locked is 0, before wakeup's acquire(&ptable.lock)
    | Waking    // lk, ptable: before wakeup1
    | Waked     // lk, ptable: after wakeup1
    | Last      // lk: before release(&lk->lk)

  predicate HasSpin(pc: Pc) {
    pc.Check? || pc.Going? || pc.Gone? || pc.Clear? || pc.Waking? || pc.Waked? || pc.Last?
  }

  predicate HasPtable(pc: Pc) { pc.Gone? || pc.Dozing? || pc.Waking? || pc.Waked? }

  /** The process has the sleep lock. */
  predicate Holds(pc: Pc) { pc == Hold || pc == Leaving }

  datatype State = State(pc: seq<Pc>, spin: int, ptable: int, locked: bool, holder: int) {

    /** A releaser has cleared the lock and not yet done its wakeup. */
    predicate Releasing() { 0 <= spin < |pc| && (pc[spin] == Clear || pc[spin] == Waking) }

    ghost predicate Good(p: nat) {
      p < |pc| ==>
        && (HasSpin(pc[p]) <==> spin == p) && (HasPtable(pc[p]) <==> ptable == p)
        && (Holds(pc[p]) <==> locked && holder == p)
        && (pc[p] == Going || pc[p] == Gone ==> locked)
        && (pc[p] == Clear || pc[p] == Waking || pc[p] == Waked || pc[p] == Last ==> !locked)
        && (pc[p] == Dozing || pc[p] == Asleep ==> locked || Releasing())
    }

    ghost predicate Inv() {
      && (forall p: nat :: p < |pc| ==> Good(p)) && (spin == NONE || 0 <= spin < |pc|)
      && (locked ==> 0 <= holder < |pc|)
      && (ptable == NONE || ptable == OTHER || 0 <= ptable < |pc|)
    }
  }

  datatype Step = Begin(p: nat) | Spin(p: nat) | Test(p: nat) | LockTable(p: nat) | DropSpin(p: nat) | Doze(p: nat)
                | Kick(p: nat) | Release(p: nat) | WakeAll(p: nat) | DropTable(p: nat) | TakeTable | FreeTable

  ghost predicate Enabled(s: State, a: Step) {
    match a
    case Begin(p) => p < |s.pc| && s.pc[p] == Idle
    case Spin(p) => p < |s.pc| && (s.pc[p] == Want || s.pc[p] == Leaving) && s.spin == NONE
    case Test(p) => p < |s.pc| && s.pc[p] == Check
    case LockTable(p) => p < |s.pc| && (s.pc[p] == Going || s.pc[p] == Clear) && s.ptable == NONE
    case DropSpin(p) => p < |s.pc| && (s.pc[p] == Gone || s.pc[p] == Last)
    case Doze(p) => p < |s.pc| && s.pc[p] == Dozing
    case Kick(p) => p < |s.pc| && s.pc[p] == Asleep && s.ptable == OTHER
    case Release(p) => p < |s.pc| && s.pc[p] == Hold
    case WakeAll(p) => p < |s.pc| && s.pc[p] == Waking
    case DropTable(p) => p < |s.pc| && s.pc[p] == Waked
    case TakeTable => s.ptable == NONE
    case FreeTable => s.ptable == OTHER
  }

  /** wakeup1(lk): everybody asleep goes back to the loop of acquiresleep. */
  function Roused(pc: seq<Pc>): (r: seq<Pc>)
    ensures |r| == |pc| && forall i: nat :: i < |pc| ==> r[i] == if pc[i] == Asleep then Want else pc[i]
  {
    seq(|pc|, i requires 0 <= i < |pc| => if pc[i] == Asleep then Want else pc[i])
  }

  ghost function Next(s: State, a: Step): State
    requires Enabled(s, a)
  {
    match a
    case Begin(p) => s.(pc := s.pc[p := Want])
    case Spin(p) =>
      if s.pc[p] == Want then s.(pc := s.pc[p := Check], spin := p)
      else s.(pc := s.pc[p := Clear], spin := p, locked := false, holder := NONE)
    case Test(p) =>
      if s.locked then s.(pc := s.pc[p := Going])
      else s.(pc := s.pc[p := Hold], locked := true, holder := p, spin := NONE)
    case LockTable(p) => s.(pc := s.pc[p := if s.pc[p] == Going then Gone else Waking], ptable := p)
    case DropSpin(p) => s.(pc := s.pc[p := if s.pc[p] == Gone then Dozing else Idle], spin := NONE)
    case Doze(p) => s.(pc := s.pc[p := Asleep], ptable := NONE)
    case Kick(p) => s.(pc := s.pc[p := Want])
    case Release(p) => s.(pc := s.pc[p := Leaving])
    case WakeAll(p) => s.(pc := Roused(s.pc)[p := Waked])
    case DropTable(p) => s.(pc := s.pc[p := Last], ptable := NONE)
    case TakeTable => s.(ptable := OTHER)
    case FreeTable => s.(ptable := NONE)
  }

  /** Steps that neither lock nor unlock the sleep lock leave sleepers a holder or a releaser to wake them. */
  lemma {:induction false} StepKeepsInv(s: State, a: Step)
    requires s.Inv() && Enabled(s, a)
    ensures Next(s, a).Inv()
  {
    var s' := Next(s, a);
    forall q: nat | q < |s'.pc|
      ensures s'.Good(q)
    {
      StepGood(s, a, q);
    }
  }

  /** What a step of p needs to know for process q. */
  ghost predicate Near(s: State, p: nat, q: nat) {
    && q < |s.pc| && p < |s.pc| && s.Good(q) && s.Good(p) && (0 <= s.spin ==> s.Good(s.spin))
    && (s.spin == NONE || 0 <= s.spin < |s.pc|)
  }

  lemma {:induction false} AcquireGood(s: State, a: Step, q: nat)
    requires (a.Begin? || a.Spin? || a.Test?) && Near(s, a.p, q) && Enabled(s, a)
    ensures Next(s, a).Good(q)
  {
  }

  lemma {:induction false} SleepGood(s: State, a: Step, q: nat)
    requires (a.LockTable? || a.DropSpin? || a.Doze? || a.Kick?) && Near(s, a.p, q) && Enabled(s, a)
    ensures Next(s, a).Good(q)
  {
  }

  lemma {:induction false} ReleaseGood(s: State, a: Step, q: nat)
    requires (a.Release? || a.WakeAll? || a.DropTable?) && Near(s, a.p, q) && Enabled(s, a)
    ensures Next(s, a).Good(q)
  {
  }

  lemma {:induction false} StepGood(s: State, a: Step, q: nat)
    requires s.Inv() && Enabled(s, a) && q < |Next(s, a).pc|
    ensures Next(s, a).Good(q)
  {
    assert s.Good(q);
    if a.TakeTable? || a.FreeTable? {
    } else {
      assert Near(s, a.p, q);
      hide State.Good, State.Inv, Near, Next;
      if a.Begin? || a.Spin? || a.Test? {
        AcquireGood(s, a, q);
      } else if a.Release? || a.WakeAll? || a.DropTable? {
        ReleaseGood(s, a, q);
      } else {
        SleepGood(s, a, q);
      }
    }
  }

  ghost predicate Run(s: State, steps: seq<Step>, s': State)
    decreases |steps|
  {
    if steps == [] then s' == s else Enabled(s, steps[0]) && Run(Next(s, steps[0]), steps[1..], s')
  }

  lemma {:induction false} RunKeepsInv(s: State, steps: seq<Step>, s': State)
    requires s.Inv() && Run(s, steps, s')
    ensures s'.Inv() && |s'.pc| == |s.pc|
    decreases |steps|
  {
    if steps != [] {
      StepKeepsInv(s, steps[0]);
      RunKeepsInv(Next(s, steps[0]), steps[1..], s');
    }
  }

  ghost predicate Fresh(s: State) {
    && s.spin == NONE && s.ptable == NONE && !s.locked && s.holder == NONE
    && forall p: nat :: p < |s.pc| ==> s.pc[p] == Idle
  }

  /** Mutual exclusion and no lost wakeup, in every interleaving in which only holders release. */
  lemma {:induction false} SleepLockSafety(s: State, steps: seq<Step>, s': State, p: nat, q: nat)
    requires Fresh(s) && Run(s, steps, s') && p < |s.pc| && q < |s.pc|
    ensures |s'.pc| == |s.pc|
    ensures Holds(s'.pc[p]) && Holds(s'.pc[q]) ==> p == q
    ensures Holds(s'.pc[p]) ==> s'.locked
    ensures s'.locked ==> exists h: nat :: h < |s'.pc| && Holds(s'.pc[h])
    ensures s'.pc[p] == Asleep && s'.spin == NONE ==> s'.locked
    ensures s'.pc[p] == Asleep ==>
              s'.locked || exists r: nat :: r < |s'.pc| && (s'.pc[r] == Clear || s'.pc[r] == Waking)
  {
    FreshInv(s);
    RunKeepsInv(s, steps, s');
    assert s'.Good(p) && s'.Good(q);
    if s'.locked {
      assert s'.Good(s'.holder);
    }
  }

  lemma {:induction false} FreshInv(s: State)
    requires Fresh(s)
    ensures s.Inv()
  {
  }

  // ---- What the steps achieve ------------------------------------------------------------------

  /** A step of another process moves p only by waking it, and users of ptable.lock elsewhere touch nothing else. */
  lemma {:induction false} OnlyWoken(s: State, a: Step, p: nat)
    requires Enabled(s, a) && p < |s.pc| && (a.TakeTable? || a.FreeTable? || a.p != p)
    ensures var s' := Next(s, a);
            && |s'.pc| == |s.pc|
            && s'.pc[p] == (if s.pc[p] == Asleep && a.WakeAll? then Want else s.pc[p])
            && (a.TakeTable? || a.FreeTable? ==>
                  && s'.ptable == (if a.TakeTable? then OTHER else NONE) != s.ptable
                  && s'.spin == s.spin && s'.locked == s.locked && s'.holder == s.holder)
  {
  }

  /** The way through acquiresleep and releasesleep. */
  function After(pc: Pc, locked: bool): Pc {
    match pc
    case Idle => Want
    case Want => Check
    case Check => if locked then Going else Hold
    case Going => Gone
    case Gone => Dozing
    case Dozing => Asleep
    case Asleep => Want
    case Hold => Leaving
    case Leaving => Clear
    case Clear => Waking
    case Waking => Waked
    case Waked => Last
    case Last => Idle
  }

  /**
   A step takes its process one place further on that way, and in every reachable state the locks follow from
   the places: a process has a spin lock or the sleep lock exactly at the places that say so.
   */
  lemma {:induction false} Path(s: State, a: Step)
    requires s.Inv() && Enabled(s, a) && !a.TakeTable? && !a.FreeTable?
    ensures var s' := Next(s, a);
            && |s'.pc| == |s.pc| && s'.pc[a.p] == After(s.pc[a.p], s.locked)
            && (s'.spin == a.p <==> HasSpin(s'.pc[a.p])) && (s'.ptable == a.p <==> HasPtable(s'.pc[a.p]))
            && (s'.locked && s'.holder == a.p <==> Holds(s'.pc[a.p]))
            && (s'.spin == s.spin || s.spin == a.p || s'.spin == a.p)
            && (s'.ptable == s.ptable || s.ptable == a.p || s'.ptable == a.p)
            && ((s'.locked == s.locked && s'.holder == s.holder)
                || (s.locked && s.holder == a.p) || (s'.locked && s'.holder == a.p))
  {
    StepKeepsInv(s, a);
    assert s.Good(a.p) && Next(s, a).Good(a.p);
  }

  /** The test in the loop of acquiresleep: a free lock is taken, a held one sends the process to sleep. */
  lemma {:induction false} TestTakes(s: State, p: nat)
    requires s.Inv() && p < |s.pc| && s.pc[p] == Check
    ensures Enabled(s, Test(p))
    ensures var s' := Next(s, Test(p));
            && |s'.pc| == |s.pc| && (forall q: nat :: q < |s.pc| && q != p ==> s'.pc[q] == s.pc[q])
            && s'.ptable == s.ptable && s'.locked
            && (!s.locked ==>
                  && (forall q: nat :: q < |s.pc| ==> (Holds(s'.pc[q]) <==> q == p))
                  && s'.pc[p] == Hold && s'.holder == p && s'.spin == NONE)
            && (s.locked ==> s'.pc[p] == Going && s'.holder == s.holder != p && s'.spin == p)
  {
    assert s.Good(p);
    forall q: nat | q < |s.pc|
      ensures !s.locked ==> (Holds(Next(s, Test(p)).pc[q]) <==> q == p)
    {
      assert s.Good(q);
    }
  }

  /** When a releaser has done its wakeup the lock is free, and nobody sleeps or is about to. */
  lemma {:induction false} ReleaseWakes(s: State, steps: seq<Step>, s': State, p: nat, q: nat)
    requires Fresh(s) && Run(s, steps, s') && p < |s.pc| && q < |s.pc|
    ensures |s'.pc| == |s.pc|
    ensures s'.pc[p] == Waked || s'.pc[p] == Last ==>
              && !s'.locked && s'.spin == p
              && !(s'.pc[q] == Going || s'.pc[q] == Gone || s'.pc[q] == Dozing || s'.pc[q] == Asleep || Holds(s'.pc[q]))
  {
    FreshInv(s);
    RunKeepsInv(s, steps, s');
    assert s'.Good(p) && s'.Good(q);
  }

  /** No spin lock is held. */
  predicate Quiet(s: State) { s.spin == NONE && s.ptable == NONE }

  lemma {:induction false} RunStep(s: State, a: Step, rest: seq<Step>, s': State)
    requires Enabled(s, a) && Run(Next(s, a), rest, s')
    ensures Run(s, [a] + rest, s')
  {
    assert ([a] + rest)[1..] == rest;
  }

  /** Nobody else begins, nobody is woken by a kill, and ptable.lock is not taken from outside. */
  predicate Orderly(steps: seq<Step>, p: nat) {
    forall k :: 0 <= k < |steps| ==>
      !steps[k].Kick? && !steps[k].TakeTable? && (steps[k].Begin? ==> steps[k].p == p)
  }

  /** releasesleep from its call to its return with nobody in between. */
  lemma {:induction false} ReleaseFrees(s: State, p: nat, q: nat) returns (steps: seq<Step>, s': State)
    requires s.Inv() && Quiet(s) && p < |s.pc| && Holds(s.pc[p])
    ensures Run(s, steps, s') && Quiet(s') && !s'.locked && s'.holder == NONE && |s'.pc| == |s.pc|
    ensures forall r: nat :: r < |s.pc| ==>
              s'.pc[r] == if r == p then Idle else if s.pc[r] == Asleep then Want else s.pc[r]
    ensures Orderly(steps, q)
  {
    assert s.Good(p);
    hide State.Inv;
    if s.pc[p] == Hold {
      var s0 := s.(pc := s.pc[p := Leaving]);
      assert Next(s, Release(p)) == s0;
      steps, s' := LeavingFrees(s0, p, q);
      RunStep(s, Release(p), steps, s');
      OrderlyJoin([Release(p)], steps, q);
      steps := [Release(p)] + steps;
    } else {
      steps, s' := LeavingFrees(s, p, q);
    }
  }

  lemma {:induction false} LeavingFrees(s: State, p: nat, q: nat) returns (steps: seq<Step>, s': State)
    requires Quiet(s) && p < |s.pc| && s.pc[p] == Leaving
    ensures Run(s, steps, s') && s' == s.(pc := Roused(s.pc)[p := Idle], locked := false, holder := NONE)
    ensures Orderly(steps, q)
  {
    var s2 := s.(pc := s.pc[p := Waking], spin := p, ptable := p, locked := false, holder := NONE);
    LeavingClears(s, p);
    RousedFor(s.pc, p);
    var s3 := s2.(pc := Roused(s.pc)[p := Waked]);
    assert Enabled(s2, WakeAll(p)) && Next(s2, WakeAll(p)) == s3;
    WakedLeaves(s3, p);
    s' := s.(pc := Roused(s.pc)[p := Idle], locked := false, holder := NONE);
    assert s3.(pc := s3.pc[p := Idle], spin := NONE, ptable := NONE) == s';
    hide Next, Enabled, Run, Roused;
    RunStep(s2, WakeAll(p), [DropTable(p), DropSpin(p)], s');
    steps := [Spin(p), LockTable(p)] + ([WakeAll(p)] + [DropTable(p), DropSpin(p)]);
    RunJoin(s, [Spin(p), LockTable(p)], s2, [WakeAll(p)] + [DropTable(p), DropSpin(p)], s');
  }

  lemma {:induction false} RousedFor(pc: seq<Pc>, p: nat)
    requires p < |pc|
    ensures Roused(pc[p := Waking])[p := Waked] == Roused(pc)[p := Waked]
  {
  }

  lemma {:induction false} LeavingClears(s: State, p: nat)
    requires Quiet(s) && p < |s.pc| && s.pc[p] == Leaving
    ensures Run(s, [Spin(p), LockTable(p)],
                s.(pc := s.pc[p := Waking], spin := p, ptable := p, locked := false, holder := NONE))
  {
    var s1 := s.(pc := s.pc[p := Clear], spin := p, locked := false, holder := NONE);
    var s2 := s1.(pc := s.pc[p := Waking], ptable := p);
    assert Enabled(s, Spin(p)) && Next(s, Spin(p)) == s1;
    assert Enabled(s1, LockTable(p)) && Next(s1, LockTable(p)) == s2 && Run(s2, [], s2);
    hide Next, Enabled, Run;
    RunStep(s1, LockTable(p), [], s2);
    RunStep(s, Spin(p), [LockTable(p)], s2);
  }

  lemma {:induction false} WakedLeaves(s: State, p: nat)
    requires p < |s.pc| && s.pc[p] == Waked
    ensures Run(s, [DropTable(p), DropSpin(p)], s.(pc := s.pc[p := Idle], spin := NONE, ptable := NONE))
  {
    var s1 := s.(pc := s.pc[p := Last], ptable := NONE);
    var s2 := s1.(pc := s.pc[p := Idle], spin := NONE);
    assert Enabled(s, DropTable(p)) && Next(s, DropTable(p)) == s1;
    assert Enabled(s1, DropSpin(p)) && Next(s1, DropSpin(p)) == s2 && Run(s2, [], s2);
    hide Next, Enabled, Run;
    RunStep(s1, DropSpin(p), [], s2);
    RunStep(s, DropTable(p), [DropSpin(p)], s2);
  }

  /** acquiresleep of a held lock, from its loop to sleep, with nobody in between. */
  lemma {:induction false} AcquireSleeps(s: State, p: nat) returns (steps: seq<Step>, s': State)
    requires Quiet(s) && p < |s.pc| && s.pc[p] == Want && s.locked
    ensures Run(s, steps, s') && s' == s.(pc := s.pc[p := Asleep])
  {
    var s1 := s.(pc := s.pc[p := Check], spin := p);
    var s2 := s1.(pc := s.pc[p := Going]);
    var s3 := s2.(pc := s.pc[p := Gone], ptable := p);
    var s4 := s3.(pc := s.pc[p := Dozing], spin := NONE);
    s' := s.(pc := s.pc[p := Asleep]);
    assert Enabled(s, Spin(p)) && Next(s, Spin(p)) == s1;
    assert Enabled(s1, Test(p)) && Next(s1, Test(p)) == s2;
    assert Enabled(s2, LockTable(p)) && Next(s2, LockTable(p)) == s3;
    assert Enabled(s3, DropSpin(p)) && Next(s3, DropSpin(p)) == s4;
    assert Enabled(s4, Doze(p)) && Next(s4, Doze(p)) == s' && Run(s', [], s');
    hide Next, Enabled, Run;
    RunStep(s4, Doze(p), [], s');
    RunStep(s3, DropSpin(p), [Doze(p)], s');
    RunStep(s2, LockTable(p), [DropSpin(p), Doze(p)], s');
    RunStep(s1, Test(p), [LockTable(p), DropSpin(p), Doze(p)], s');
    RunStep(s, Spin(p), [Test(p), LockTable(p), DropSpin(p), Doze(p)], s');
    steps := [Spin(p), Test(p), LockTable(p), DropSpin(p), Doze(p)];
  }

  // ---- Whoever wants the lock can get it -----------------------------------------------------------------

  /** How many steps a holder of a spin lock is from giving all of them up. */
  function Left(pc: Pc): nat {
    match pc
    case Check => 4
    case Going => 3
    case Gone => 2
    case Dozing => 1
    case Clear => 4
    case Waking => 3
    case Waked => 2
    case Last => 1
    case _ => 0
  }

  function LeftAt(s: State, p: int): nat { if 0 <= p < |s.pc| then Left(s.pc[p]) else 0 }

  /** Steps until both spin locks are free. */
  function Busy(s: State): nat {
    LeftAt(s, s.spin) + (if s.ptable == OTHER then 1 else if s.ptable == s.spin then 0 else LeftAt(s, s.ptable))
  }

  /** What the holder of ptable.lock, or else that of the spin lock, does next. */
  function Forward(s: State): Step {
    if s.ptable == OTHER then FreeTable
    else
      var p := if s.ptable != NONE then s.ptable else s.spin;
      if !(0 <= p < |s.pc|) then FreeTable
      else match s.pc[p]
           case Check => Test(p)
           case Going => LockTable(p)
           case Gone => DropSpin(p)
           case Dozing => Doze(p)
           case Clear => LockTable(p)
           case Waking => WakeAll(p)
           case Waked => DropTable(p)
           case _ => DropSpin(p)
  }

  lemma {:induction false} ForwardStep(s: State)
    requires s.Inv() && !Quiet(s)
    ensures Enabled(s, Forward(s)) && Busy(Next(s, Forward(s))) < Busy(s)
    ensures forall p: nat :: Orderly([Forward(s)], p)
  {
    if 0 <= s.ptable {
      assert s.Good(s.ptable);
    }
    if 0 <= s.spin {
      assert s.Good(s.spin);
    }
  }

  /** Those who hold spin locks get to where they hold none. */
  lemma {:induction false} Settles(s: State, p: nat) returns (steps: seq<Step>, s': State)
    requires s.Inv()
    ensures Run(s, steps, s') && s'.Inv() && Quiet(s') && |s'.pc| == |s.pc|
    ensures Orderly(steps, p)
    decreases Busy(s)
  {
    if Quiet(s) {
      steps, s' := [], s;
    } else {
      var a := Forward(s);
      ForwardStep(s);
      StepKeepsInv(s, a);
      steps, s' := Settles(Next(s, a), p);
      RunKeepsInv(Next(s, a), steps, s');
      RunStep(s, a, steps, s');
      OrderlyJoin([a], steps, p);
      steps := [a] + steps;
    }
  }

  lemma {:induction false} RunJoin(s: State, steps: seq<Step>, s1: State, more: seq<Step>, s': State)
    requires Run(s, steps, s1) && Run(s1, more, s')
    ensures Run(s, steps + more, s')
    decreases |steps|
  {
    if steps == [] {
      assert steps + more == more;
    } else {
      RunJoin(Next(s, steps[0]), steps[1..], s1, more, s');
      assert (steps + more)[1..] == steps[1..] + more;
    }
  }

  /** A quiet lock that nobody has: p is outside or at the loop of acquiresleep and gets through at once. */
  lemma {:induction false} Takes(s: State, p: nat) returns (steps: seq<Step>, s': State)
    requires s.Inv() && Quiet(s) && !s.locked && p < |s.pc|
    ensures Run(s, steps, s') && |s'.pc| == |s.pc| && s'.pc[p] == Hold && s'.locked && s'.holder == p
    ensures Orderly(steps, p)
  {
    assert s.Good(p);
    var s0, first := s, [];
    if s.pc[p] == Idle {
      s0, first := Next(s, Begin(p)), [Begin(p)];
    }
    var s1 := Next(s0, Spin(p));
    s' := Next(s1, Test(p));
    steps := [Spin(p), Test(p)];
    RunStep(s1, Test(p), [], s');
    RunStep(s0, Spin(p), [Test(p)], s');
    if first != [] {
      RunStep(s, Begin(p), steps, s');
    }
    steps := first + steps;
  }

  lemma {:induction false} OrderlyJoin(steps: seq<Step>, more: seq<Step>, p: nat)
    requires Orderly(steps, p) && Orderly(more, p)
    ensures Orderly(steps + more, p)
  {
  }

  /**
   From every reachable state some run brings any given process to hold the lock, without a kill to wake it and
   without anybody else beginning: holders release, sleepers are woken by them.
   */
  lemma {:induction false} CanHold(s0: State, past: seq<Step>, s: State, p: nat) returns (steps: seq<Step>, s': State)
    requires Fresh(s0) && Run(s0, past, s) && p < |s.pc|
    ensures Run(s, steps, s') && |s'.pc| == |s.pc| && s'.pc[p] == Hold && s'.locked && s'.holder == p
    ensures Orderly(steps, p)
  {
    FreshInv(s0);
    RunKeepsInv(s0, past, s);
    hide State.Good, Run, Orderly, Holds;
    steps, s' := Settles(s, p);
    if s'.locked {
      var h := s'.holder;
      HolderHolds(s');
      var more, s1 := ReleaseFrees(s', h, p);
      RunKeepsInv(s', more, s1);
      RunJoin(s, steps, s', more, s1);
      OrderlyJoin(steps, more, p);
      steps, s' := steps + more, s1;
    }
    var more, s1 := Takes(s', p);
    RunJoin(s, steps, s', more, s1);
    OrderlyJoin(steps, more, p);
    steps, s' := steps + more, s1;
  }

  lemma {:induction false} HolderHolds(s: State)
    requires s.Inv() && s.locked
    ensures 0 <= s.holder < |s.pc| && Holds(s.pc[s.holder])
  {
    assert s.Good(s.holder);
  }
}

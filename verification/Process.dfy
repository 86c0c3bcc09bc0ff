/**
 * The process table of proc.c. Every section that runs under ptable.lock is one step, as is every store
 * made without it, so a run of steps is an interleaving of any number of processors.
 */
module Process {

  const NPROC := 64

  /** The null parent, and a processor that runs no process. */
  const NONE := -1

  datatype PState = UNUSED | EMBRYO | SLEEPING | RUNNABLE | RUNNING | ZOMBIE

  /** A wait channel is an address: nobody's, that of a table slot, or some other. */
  datatype Chan = Nil | OfProc(p: int) | Other(n: nat)

  datatype Proc = Proc(state: PState, pid: nat, parent: int, chan: Chan, killed: bool)

  /** How far a process is in fork: np is allocated, or has its parent set. */
  datatype Pc = User | Forking(np: nat) | Ready(np: nat)

  datatype State = State(proc: seq<Proc>, cpu: seq<int>, pc: seq<Pc>, nextpid: nat, init: nat) {

    predicate Is(p: int, st: PState) { 0 <= p < |proc| && proc[p].state == st }

    predicate Alive(p: int) { Is(p, SLEEPING) || Is(p, RUNNABLE) || Is(p, RUNNING) }

    function Parent(p: int): int { if 0 <= p < |proc| then proc[p].parent else NONE }

    /** Asleep in wait. */
    predicate Waits(p: int) { Is(p, SLEEPING) && proc[p].chan == OfProc(p) }

    ghost predicate OnCpu(p: int) { exists c: nat :: c < |cpu| && cpu[c] == p }

    ghost predicate Shape() { |proc| == |pc| == NPROC && init < NPROC && Alive(init) && Parent(init) == NONE }

    ghost predicate Parents() { forall p: int :: Parent(p) != NONE ==> Parent(p) != p && Alive(Parent(p)) }

    ghost predicate Adopted() { forall p: int :: (Alive(p) || Is(p, ZOMBIE)) && p != init ==> Parent(p) != NONE }

    ghost predicate NoneUnused() { forall p: int :: Is(p, UNUSED) ==> Parent(p) == NONE }

    ghost predicate OwnChan() { forall p: int, x: int :: Is(p, SLEEPING) && proc[p].chan == OfProc(x) ==> x == p }

    ghost predicate NoZombieWaits() { forall p: int :: Is(p, ZOMBIE) ==> !Waits(Parent(p)) }

    ghost predicate Cpus() {
      && (forall c: nat :: c < |cpu| && cpu[c] != NONE ==> Is(cpu[c], RUNNING))
      && (forall c: nat, c': nat :: c < |cpu| && c' < |cpu| && cpu[c] != NONE && cpu[c] == cpu[c'] ==> c == c')
      && (forall p: int :: Is(p, RUNNING) ==> OnCpu(p))
    }

    /** The slot that p is filling in fork is nobody else's. */
    ghost predicate Fork(p: nat) {
      p < |pc| && pc[p] != User ==>
        && Alive(p) && Is(pc[p].np, EMBRYO) && Parent(pc[p].np) == (if pc[p].Ready? then p else NONE)
        && forall q: nat :: q < |pc| && q != p && pc[q] != User ==> pc[q].np != pc[p].np
    }

    ghost predicate Forks() { forall p: nat :: p < |pc| ==> Fork(p) }

    ghost predicate Inv() {
      Shape() && Parents() && Adopted() && NoneUnused() && OwnChan() && NoZombieWaits() && Cpus() && Forks()
    }
  }

  // ---- What the scans of the table compute ------------------------------------------------------------

  function WakeOne(q: Proc, ch: Chan): Proc {
    if q.state == SLEEPING && q.chan == ch then q.(state := RUNNABLE) else q
  }

  function Woken(ps: seq<Proc>, ch: Chan): (r: seq<Proc>)
    ensures |r| == |ps| && forall i: nat :: i < |ps| ==> r[i] == WakeOne(ps[i], ch)
  {
    seq(|ps|, i requires 0 <= i < |ps| => WakeOne(ps[i], ch))
  }

  ghost predicate HasZombie(ps: seq<Proc>, p: int) {
    exists k: nat :: k < |ps| && ps[k].parent == p && ps[k].state == ZOMBIE
  }

  ghost predicate HasChild(ps: seq<Proc>, p: int) { exists k: nat :: k < |ps| && ps[k].parent == p }

  /** Entry i of the table after p exits; z: p leaves a zombie behind. */
  function ExitOne(ps: seq<Proc>, i: nat, p: nat, init: nat, z: bool): Proc
    requires i < |ps| && p < |ps|
  {
    var q1 := WakeOne(ps[i], OfProc(ps[p].parent));
    var q2 := if q1.parent == p then q1.(parent := init) else q1;
    var q3 := if z then WakeOne(q2, OfProc(init)) else q2;
    if i == p then q3.(state := ZOMBIE) else q3
  }

  ghost function Exited(ps: seq<Proc>, p: nat, init: nat): (r: seq<Proc>)
    requires p < |ps|
    ensures |r| == |ps| && forall i: nat :: i < |ps| ==> r[i] == ExitOne(ps, i, p, init, HasZombie(ps, p))
  {
    seq(|ps|, i requires 0 <= i < |ps| => ExitOne(ps, i, p, init, HasZombie(ps, p)))
  }

  // ---- Steps -------------------------------------------------------------------------------------------

  datatype Step =
    | Alloc(p: nat, np: nat) | Drop(p: nat) | Adopt(p: nat) | Start(p: nat)
    | Exit(p: nat, c: nat) | Reap(p: nat, k: nat) | WaitSleep(p: nat, c: nat) | SleepOn(p: nat, c: nat, n: nat)
    | Yield(p: nat, c: nat) | Wake(n: nat) | Kill(k: nat) | Schedule(c: nat, p: nat) | Tidy(p: nat)

  /** p is running on processor c. */
  predicate At(s: State, p: nat, c: nat) { c < |s.cpu| && s.cpu[c] == p && p < |s.proc| }

  ghost predicate Enabled(s: State, a: Step) {
    match a
    case Alloc(p, np) => s.Is(p, RUNNING) && p < |s.pc| && s.pc[p] == User && s.Is(np, UNUSED)
    case Drop(p) => s.Is(p, RUNNING) && p < |s.pc| && s.pc[p].Forking? && s.pc[p].np < |s.proc|
    case Adopt(p) => s.Is(p, RUNNING) && p < |s.pc| && s.pc[p].Forking? && s.pc[p].np < |s.proc|
    case Start(p) => s.Is(p, RUNNING) && p < |s.pc| && s.pc[p].Ready? && s.pc[p].np < |s.proc|
    case Exit(p, c) => At(s, p, c) && p < |s.pc| && s.pc[p] == User && p != s.init
    case Reap(p, k) => s.Is(p, RUNNING) && s.Is(k, ZOMBIE) && s.proc[k].parent == p
    case WaitSleep(p, c) => At(s, p, c) && !HasZombie(s.proc, p)
    case SleepOn(p, c, n) => At(s, p, c)
    case Yield(p, c) => At(s, p, c)
    case Wake(n) => true
    case Kill(k) => k < |s.proc|
    case Schedule(c, p) => c < |s.cpu| && s.cpu[c] == NONE && s.Is(p, RUNNABLE)
    case Tidy(p) => s.Is(p, RUNNING)
  }

  /** p leaves processor c in state st. */
  function Leave(s: State, p: nat, c: nat, st: PState, ch: Chan): State
    requires At(s, p, c)
  {
    s.(proc := s.proc[p := s.proc[p].(state := st, chan := ch)], cpu := s.cpu[c := NONE])
  }

  ghost function Next(s: State, a: Step): State
    requires Enabled(s, a)
  {
    match a
    case Alloc(p, np) =>
      s.(proc := s.proc[np := s.proc[np].(state := EMBRYO, pid := s.nextpid)], nextpid := s.nextpid + 1,
          pc := s.pc[p := Forking(np)])
    case Drop(p) => s.(proc := s.proc[s.pc[p].np := s.proc[s.pc[p].np].(state := UNUSED)], pc := s.pc[p := User])
    case Adopt(p) => s.(proc := s.proc[s.pc[p].np := s.proc[s.pc[p].np].(parent := p)],
        pc := s.pc[p := Ready(s.pc[p].np)])
    case Start(p) => s.(proc := s.proc[s.pc[p].np := s.proc[s.pc[p].np].(state := RUNNABLE)], pc := s.pc[p := User])
    case Exit(p, c) => s.(proc := Exited(s.proc, p, s.init), cpu := s.cpu[c := NONE])
    case Reap(p, k) => s.(proc := s.proc[k := s.proc[k].(state := UNUSED, pid := 0, parent := NONE, killed := false)])
    case WaitSleep(p, c) => Leave(s, p, c, SLEEPING, OfProc(p))
    case SleepOn(p, c, n) => Leave(s, p, c, SLEEPING, Other(n))
    case Yield(p, c) => Leave(s, p, c, RUNNABLE, s.proc[p].chan)
    case Wake(n) => s.(proc := Woken(s.proc, Other(n)))
    case Kill(k) => s.(proc := s.proc[k := KillOne(s.proc[k])])
    case Schedule(c, p) => s.(proc := s.proc[p := s.proc[p].(state := RUNNING)], cpu := s.cpu[c := p])
    case Tidy(p) => s.(proc := s.proc[p := s.proc[p].(chan := Nil)])
  }

  function KillOne(q: Proc): Proc {
    q.(killed := true, state := if q.state == SLEEPING then RUNNABLE else q.state)
  }

  // ---- Every step keeps the invariant -------------------------------------------------------------------

  /** Only slot p changes, and its parent does not. */
  ghost predicate OneSlot(s: State, s': State, p: nat) {
    && s'.init == s.init && s'.pc == s.pc && |s'.proc| == |s.proc| && p < |s.proc|
    && s'.proc[p].parent == s.proc[p].parent
    && forall i: nat :: i < |s.proc| && i != p ==> s'.proc[i] == s.proc[i]
  }

  /** A process that stays alive keeps the tree, whatever it becomes. */
  lemma {:induction false} StaysAlive(s: State, s': State, p: nat)
    requires s.Inv() && OneSlot(s, s', p) && s.Alive(p) && s'.Alive(p)
    ensures s'.Shape() && s'.Parents() && s'.Adopted() && s'.NoneUnused() && s'.Forks()
  {
    assert forall x: int :: s'.Parent(x) == s.Parent(x) && (s'.Alive(x) <==> s.Alive(x));
    assert forall x: int ::
             && (s'.Is(x, EMBRYO) <==> s.Is(x, EMBRYO)) && (s'.Is(x, UNUSED) <==> s.Is(x, UNUSED))
             && (s'.Is(x, ZOMBIE) <==> s.Is(x, ZOMBIE));
    hide State.Alive, State.Is;
    forall x: nat | x < |s'.pc|
      ensures s'.Fork(x)
    {
      assert s.Fork(x);
    }
  }

  lemma {:induction false} LeaveKeeps(s: State, p: nat, c: nat, st: PState, ch: Chan)
    requires s.Inv() && At(s, p, c) && (st == RUNNABLE || st == SLEEPING)
    requires st == SLEEPING && ch.OfProc? ==> ch == OfProc(p) && !HasZombie(s.proc, p)
    ensures Leave(s, p, c, st, ch).Inv()
  {
    var s' := Leave(s, p, c, st, ch);
    assert s.Is(p, RUNNING);
    StaysAlive(s, s', p);
    assert s'.Cpus() by {
      LeaveCpus(s, p, c, st, ch);
    }
    forall x: int | s'.Is(x, ZOMBIE)
      ensures !s'.Waits(s'.Parent(x))
    {
      assert s.Is(x, ZOMBIE) && s'.Parent(x) == s.Parent(x);
    }
  }

  lemma {:induction false} LeaveCpus(s: State, p: nat, c: nat, st: PState, ch: Chan)
    requires s.Cpus() && At(s, p, c) && st != RUNNING
    ensures Leave(s, p, c, st, ch).Cpus()
  {
    var s' := Leave(s, p, c, st, ch);
    forall x: int | s'.Is(x, RUNNING)
      ensures s'.OnCpu(x)
    {
      assert s.Is(x, RUNNING) && s.OnCpu(x);
      var c': nat :| c' < |s.cpu| && s.cpu[c'] == x;
      assert s'.cpu[c'] == x;
    }
  }

  /** A slot that is not a process yet, or no longer, may change hands: nobody's parent, on no processor. */
  lemma {:induction false} SlotKeeps(s: State, s': State, k: nat)
    requires s.Inv() && s'.init == s.init && s'.cpu == s.cpu && |s'.proc| == |s.proc| && |s'.pc| == |s.pc|
             && k < |s.proc|
    requires forall i: nat :: i < |s.proc| && i != k ==> s'.proc[i] == s.proc[i]
    requires !s.Alive(k) && !s'.Is(k, ZOMBIE) && !s'.Is(k, RUNNING) && !s'.Is(k, SLEEPING)
    requires s'.Parent(k) == NONE || (s'.Parent(k) != k && s.Alive(s'.Parent(k)))
    requires (s'.Is(k, UNUSED) ==> s'.Parent(k) == NONE) && (s'.Is(k, RUNNABLE) ==> s'.Parent(k) != NONE)
    ensures s'.Shape() && s'.Parents() && s'.Adopted() && s'.NoneUnused() && s'.OwnChan() && s'.NoZombieWaits()
            && s'.Cpus()
  {
    assert forall x: int :: x != k ==> s'.Parent(x) == s.Parent(x) && (s'.Alive(x) <==> s.Alive(x));
    assert forall x: int, st: PState :: x != k ==> (s'.Is(x, st) <==> s.Is(x, st));
    assert forall x: int :: s'.Waits(x) <==> s.Waits(x);
    SlotCpus(s, s', k);
    hide State.Cpus, State.Waits, State.OnCpu;
  }

  lemma {:induction false} SlotCpus(s: State, s': State, k: nat)
    requires s.Cpus() && s'.cpu == s.cpu && !s.Is(k, RUNNING) && !s'.Is(k, RUNNING) && |s'.proc| == |s.proc|
    requires forall i: nat :: i < |s.proc| && i != k ==> s'.proc[i] == s.proc[i]
    ensures s'.Cpus()
  {
    assert forall x: int :: s'.Is(x, RUNNING) <==> s.Is(x, RUNNING);
    assert forall x: int :: s'.OnCpu(x) <==> s.OnCpu(x);
  }

  lemma {:induction false} ForkSteps(s: State, a: Step)
    requires s.Inv() && Enabled(s, a) && (a.Alloc? || a.Drop? || a.Adopt? || a.Start?)
    ensures Next(s, a).Inv()
  {
    var s' := Next(s, a);
    var k := if a.Alloc? then a.np else s.pc[a.p].np;
    assert s.Fork(a.p);
    assert a.p != k;
    assert forall x: int :: s.Parent(x) == k ==> s.Alive(k);
    SlotKeeps(s, s', k);
    ForksKeep(s, s', a.p, k);
  }

  lemma {:induction false} ForksKeep(s: State, s': State, p: nat, k: nat)
    requires s.Inv() && |s'.proc| == |s.proc| && k < |s.proc| && p < |s.pc| && p != k && s.Alive(p)
    requires forall i: nat :: i < |s.proc| && i != k ==> s'.proc[i] == s.proc[i]
    requires |s'.pc| == |s.pc| && s'.pc == s.pc[p := s'.pc[p]]
    requires s'.pc[p] != User ==>
               s'.pc[p].np == k && s'.Is(k, EMBRYO) && s'.Parent(k) == (if s'.pc[p].Ready? then p else NONE)
    requires if s.pc[p] == User then s.Is(k, UNUSED) else s.pc[p].np == k
    ensures s'.Forks()
  {
    assert s.Fork(p);
    assert forall x: int :: x != k ==> s'.Parent(x) == s.Parent(x) && (s'.Alive(x) <==> s.Alive(x));
    assert forall x: int, st: PState :: x != k ==> (s'.Is(x, st) <==> s.Is(x, st));
    forall q: nat | q < |s.pc| && q != p && s.pc[q] != User
      ensures s.pc[q].np != k && s'.pc[q] == s.pc[q]
    {
      assert s.Fork(q);
    }
    hide State.Alive, State.Is, State.Parent;
    forall q: nat | q < |s'.pc|
      ensures s'.Fork(q)
    {
      assert s.Fork(q);
    }
  }

  lemma {:induction false} ReapKeeps(s: State, p: nat, k: nat)
    requires s.Inv() && Enabled(s, Reap(p, k))
    ensures Next(s, Reap(p, k)).Inv()
  {
    var s' := Next(s, Reap(p, k));
    SlotKeeps(s, s', k);
    forall q: nat | q < |s'.pc|
      ensures s'.Fork(q)
    {
      assert s.Fork(q);
    }
  }

  /** Waking sleepers keeps everything: nobody dies, nobody starts to wait. */
  lemma {:induction false} WakingKeeps(s: State, s': State)
    requires s.Inv() && s'.init == s.init && s'.pc == s.pc && s'.cpu == s.cpu && |s'.proc| == |s.proc|
    requires forall i: nat :: i < |s.proc| ==> SameOrWoken(s.proc[i], s'.proc[i])
    ensures s'.Inv()
  {
    forall x: int {
      WakingFacts(s, s', x);
    }
    assert s'.OwnChan();
    hide State.Alive, State.Is, State.Waits, State.OnCpu, State.OwnChan, SameOrWoken;
    forall x: nat | x < |s'.pc|
      ensures s'.Fork(x)
    {
      assert s.Fork(x);
    }
  }

  /** What waking changes, seen from any slot x. */
  lemma {:induction false} WakingFacts(s: State, s': State, x: int)
    requires s'.cpu == s.cpu && |s'.proc| == |s.proc|
    requires forall i: nat :: i < |s.proc| ==> SameOrWoken(s.proc[i], s'.proc[i])
    ensures s'.Parent(x) == s.Parent(x) && (s'.Alive(x) <==> s.Alive(x)) && (s'.Waits(x) ==> s.Waits(x))
    ensures (s'.Is(x, EMBRYO) <==> s.Is(x, EMBRYO)) && (s'.Is(x, UNUSED) <==> s.Is(x, UNUSED))
    ensures (s'.Is(x, ZOMBIE) <==> s.Is(x, ZOMBIE)) && (s'.Is(x, RUNNING) <==> s.Is(x, RUNNING))
    ensures (s'.OnCpu(x) <==> s.OnCpu(x)) && (s'.Is(x, SLEEPING) ==> s.Is(x, SLEEPING))
    ensures s'.Is(x, SLEEPING) ==> s'.proc[x].chan == s.proc[x].chan
  {
  }

  predicate SameOrWoken(q: Proc, q': Proc) {
    q'.parent == q.parent && (q'.state == q.state || (q.state == SLEEPING && q'.state == RUNNABLE))
    && (q'.state == SLEEPING ==> q'.chan == q.chan)
  }

  lemma {:induction false} ScheduleKeeps(s: State, c: nat, p: nat)
    requires s.Inv() && Enabled(s, Schedule(c, p))
    ensures Next(s, Schedule(c, p)).Inv()
  {
    var s' := Next(s, Schedule(c, p));
    StaysAlive(s, s', p);
    forall x: int | s'.Is(x, RUNNING)
      ensures s'.OnCpu(x)
    {
      if x == p {
        assert s'.cpu[c] == p;
      } else {
        assert s.Is(x, RUNNING) && s.OnCpu(x);
        var c': nat :| c' < |s.cpu| && s.cpu[c'] == x;
        assert s'.cpu[c'] == x;
      }
    }
    assert forall x: int :: s'.Waits(x) <==> s.Waits(x);
    assert forall x: int :: s'.Is(x, ZOMBIE) ==> s.Is(x, ZOMBIE) && s'.Parent(x) == s.Parent(x);
  }

  /** What exit changes, seen from any slot x. */
  lemma {:induction false} ExitFacts(s: State, p: nat, c: nat, x: int)
    requires s.Inv() && Enabled(s, Exit(p, c))
    ensures var s' := Next(s, Exit(p, c));
            && s'.Parent(x) == (if s.Parent(x) == p then s.init else s.Parent(x))
            && (s'.Alive(x) <==> s.Alive(x) && x != p) && (s'.Is(x, RUNNING) <==> s.Is(x, RUNNING) && x != p)
            && (s'.Is(x, ZOMBIE) <==> s.Is(x, ZOMBIE) || x == p)
            && (s'.Is(x, EMBRYO) <==> s.Is(x, EMBRYO)) && (s'.Is(x, UNUSED) <==> s.Is(x, UNUSED))
            && (s'.Waits(x) ==> s.Waits(x) && x != s.Parent(p) && (HasZombie(s.proc, p) ==> x != s.init))
            && (s'.Is(x, SLEEPING) ==> s.Is(x, SLEEPING) && s'.proc[x].chan == s.proc[x].chan)
  {
    assert s.Is(p, RUNNING);
    if 0 <= x < |s.proc| {
      assert Next(s, Exit(p, c)).proc[x] == ExitOne(s.proc, x, p, s.init, HasZombie(s.proc, p));
    }
    hide State.Parents, State.Adopted, State.Cpus, State.Forks, State.NoZombieWaits, State.OwnChan, State.NoneUnused,
         HasZombie;
  }

  lemma {:induction false} ExitKeeps(s: State, p: nat, c: nat)
    requires s.Inv() && Enabled(s, Exit(p, c))
    ensures Next(s, Exit(p, c)).Inv()
  {
    var s' := Next(s, Exit(p, c));
    assert |s'.proc| == |s.proc| && s'.pc == s.pc && s'.init == s.init && s'.cpu == s.cpu[c := NONE] && s.cpu[c] == p;
    assert s.Is(p, RUNNING);
    forall x: int {
      ExitFacts(s, p, c, x);
    }
    assert s'.NoZombieWaits() by {
      forall x: int | s'.Is(x, ZOMBIE)
        ensures !s'.Waits(s'.Parent(x))
      {
        assert s.Is(x, ZOMBIE) && s.Parent(x) == p ==> HasZombie(s.proc, p);
      }
    }
    hide Next, Enabled, State.Alive, State.Parent, State.Waits, State.Is, HasZombie;
    assert s'.Cpus() by {
      ExitCpus(s, s', p, c);
    }
    forall q: nat | q < |s'.pc|
      ensures s'.Fork(q)
    {
      assert s.Fork(q);
    }
  }

  lemma {:induction false} ExitCpus(s: State, s': State, p: nat, c: nat)
    requires s.Cpus() && c < |s.cpu| && s.cpu[c] == p && s'.cpu == s.cpu[c := NONE]
    requires forall x: int :: s'.Is(x, RUNNING) <==> s.Is(x, RUNNING) && x != p
    ensures s'.Cpus()
  {
    hide State.Is;
    forall x: int | s'.Is(x, RUNNING)
      ensures s'.OnCpu(x)
    {
      assert s.OnCpu(x);
      var c': nat :| c' < |s.cpu| && s.cpu[c'] == x;
      assert s'.cpu[c'] == x;
    }
  }

  lemma {:induction false} StepKeepsInv(s: State, a: Step)
    requires s.Inv() && Enabled(s, a)
    ensures Next(s, a).Inv()
  {
    match a
    case Exit(p, c) => ExitKeeps(s, p, c);
    case Reap(p, k) => ReapKeeps(s, p, k);
    case WaitSleep(p, c) => LeaveKeeps(s, p, c, SLEEPING, OfProc(p));
    case SleepOn(p, c, n) => LeaveKeeps(s, p, c, SLEEPING, Other(n));
    case Yield(p, c) => LeaveKeeps(s, p, c, RUNNABLE, s.proc[p].chan);
    case Wake(n) => WakingKeeps(s, Next(s, a));
    case Kill(k) => WakingKeeps(s, Next(s, a));
    case Tidy(p) => WakingKeeps(s, Next(s, a));
    case Schedule(c, p) => ScheduleKeeps(s, c, p);
    case _ => ForkSteps(s, a);
  }

  // ---- Whole runs ----------------------------------------------------------------------------------------

  /** After userinit: only init exists, ready to run; no processor runs a process. */
  ghost predicate Booted(s: State) {
    && |s.proc| == |s.pc| == NPROC && s.init < NPROC && s.Is(s.init, RUNNABLE)
    && (forall i: nat :: i < NPROC ==>
        s.pc[i] == User && s.proc[i].parent == NONE && (i != s.init ==> s.proc[i].state == UNUSED))
    && forall c: nat :: c < |s.cpu| ==> s.cpu[c] == NONE
  }

  /** s' is reached from s by the steps, each of which was possible. */
  ghost predicate Run(s: State, steps: seq<Step>, s': State)
    decreases |steps|
  {
    if steps == [] then s' == s else Enabled(s, steps[0]) && Run(Next(s, steps[0]), steps[1..], s')
  }

  lemma {:induction false} RunKeepsInv(s: State, steps: seq<Step>, s': State)
    requires s.Inv() && Run(s, steps, s')
    ensures s'.Inv()
    decreases |steps|
  {
    if steps != [] {
      StepKeepsInv(s, steps[0]);
      RunKeepsInv(Next(s, steps[0]), steps[1..], s');
    }
  }

  /** The process tree in every reachable state. */
  lemma {:induction false} ProcessTree(s: State, steps: seq<Step>, s': State, p: nat)
    requires Booted(s) && Run(s, steps, s') && p < NPROC
    ensures |s'.proc| == NPROC
    // a process other than init has a parent, and parents are neither unused nor zombies
    ensures s'.proc[p].state !in {UNUSED, EMBRYO} && p != s'.init ==>
              0 <= s'.proc[p].parent < NPROC && s'.proc[s'.proc[p].parent].state !in {UNUSED, EMBRYO, ZOMBIE}
    // nobody sleeps in wait while a child is a zombie
    ensures s'.proc[p].state == SLEEPING && s'.proc[p].chan == OfProc(p) ==> !HasZombie(s'.proc, p)
    // a process runs exactly if it is the current process of a processor, and then of just one
    ensures s'.proc[p].state == RUNNING <==> exists c: nat :: c < |s'.cpu| && s'.cpu[c] == p
    ensures forall c: nat, c': nat :: c < |s'.cpu| && c' < |s'.cpu| && s'.cpu[c] == p && s'.cpu[c'] == p ==> c == c'
  {
    BootedInv(s);
    RunKeepsInv(s, steps, s');
    assert s'.Is(p, RUNNING) <==> s'.OnCpu(p);
    assert s'.Parent(p) == s'.proc[p].parent;
    if HasZombie(s'.proc, p) {
      var k: nat :| k < |s'.proc| && s'.proc[k].parent == p && s'.proc[k].state == ZOMBIE;
      assert s'.Is(k, ZOMBIE) && s'.Parent(k) == p;
    }
  }

  lemma {:induction false} BootedInv(s: State)
    requires Booted(s)
    ensures s.Inv()
  {
    assert forall x: int :: s.Parent(x) == NONE;
  }

  // ---- Processes that are born killed --------------------------------------------------------------------

  /** No unused slot is marked killed, so allocproc, which does not clear the mark, hands out a clean one. */
  predicate Unmarked(s: State) { forall k: nat :: k < |s.proc| && s.proc[k].state == UNUSED ==> !s.proc[k].killed }

  /** kill finds the pid in an unused slot, or allocproc gives back an embryo that has been killed. */
  predicate Marks(s: State, a: Step) {
    || (a.Kill? && s.Is(a.k, UNUSED))
    || (a.Drop? && a.p < |s.pc| && s.pc[a.p].Forking? && s.pc[a.p].np < |s.proc| && s.proc[s.pc[a.p].np].killed)
  }

  lemma {:induction false} MarksExactly(s: State, a: Step)
    requires s.Inv() && Enabled(s, a) && Unmarked(s)
    ensures Unmarked(Next(s, a)) <==> !Marks(s, a)
  {
    var s' := Next(s, a);
    if a.Exit? {
      ExitMarks(s, a.p, a.c);
    } else if a.Drop? {
      assert s'.proc[s.pc[a.p].np] == s.proc[s.pc[a.p].np].(state := UNUSED);
    } else if a.Kill? {
      assert s'.proc[a.k] == KillOne(s.proc[a.k]);
    }
    hide State.Inv, HasZombie;
  }

  lemma {:induction false} ExitMarks(s: State, p: nat, c: nat)
    requires s.Inv() && Enabled(s, Exit(p, c)) && Unmarked(s)
    ensures Unmarked(Next(s, Exit(p, c)))
  {
    var s' := Next(s, Exit(p, c));
    hide State.Inv, HasZombie, Next;
    assert s'.proc == Exited(s.proc, p, s.init) by { ExitProc(s, p, c); }
  }

  lemma {:induction false} ExitProc(s: State, p: nat, c: nat)
    requires Enabled(s, Exit(p, c))
    ensures Next(s, Exit(p, c)).proc == Exited(s.proc, p, s.init)
  {
  }

  /** Every state of the run is unmarked. */
  ghost predicate AlwaysUnmarked(s: State, steps: seq<Step>)
    decreases |steps|
  {
    Unmarked(s) && (steps != [] && Enabled(s, steps[0]) ==> AlwaysUnmarked(Next(s, steps[0]), steps[1..]))
  }

  ghost predicate NeverMarks(s: State, steps: seq<Step>)
    decreases |steps|
  {
    steps != [] && Enabled(s, steps[0]) ==> !Marks(s, steps[0]) && NeverMarks(Next(s, steps[0]), steps[1..])
  }

  /** A run keeps killed marks off unused slots exactly if no kill hits one and no killed embryo is given back. */
  lemma {:induction false} UnmarkedExactly(s: State, steps: seq<Step>, s': State)
    requires s.Inv() && Unmarked(s) && Run(s, steps, s')
    ensures AlwaysUnmarked(s, steps) <==> NeverMarks(s, steps)
    decreases |steps|
  {
    if steps != [] {
      MarksExactly(s, steps[0]);
      StepKeepsInv(s, steps[0]);
      hide Unmarked, Marks, Next, State.Inv;
      if Unmarked(Next(s, steps[0])) {
        UnmarkedExactly(Next(s, steps[0]), steps[1..], s');
      }
    }
  }

  /** The table userinit leaves, on one processor. */
  function AfterUserInit(): State {
    State([Proc(RUNNABLE, 1, NONE, Nil, false)] + seq(NPROC - 1, _ => Proc(UNUSED, 0, NONE, Nil, false)),
          [NONE], seq(NPROC, _ => User), 2, 0)
  }

  /** kill(0), then fork: the child becomes runnable with the mark of a kill that was never meant for it. */
  lemma {:induction false} BornKilled() returns (steps: seq<Step>, s': State)
    ensures Booted(AfterUserInit()) && Unmarked(AfterUserInit()) && Run(AfterUserInit(), steps, s')
    ensures AfterUserInit().proc[1].pid == 0 && |steps| == 5 && steps[1] == Kill(1)
    ensures |s'.proc| == NPROC && s'.proc[1] == Proc(RUNNABLE, 2, 0, Nil, true)
    ensures forall i :: 0 <= i < |steps| && steps[i].Kill? ==> i == 1
  {
    var s0 := AfterUserInit();
    var s1 := Next(s0, Schedule(0, 0));
    var s2 := Next(s1, Kill(1));
    var s3 := Next(s2, Alloc(0, 1));
    var s4 := Next(s3, Adopt(0));
    s' := Next(s4, Start(0));
    steps := [Schedule(0, 0), Kill(1), Alloc(0, 1), Adopt(0), Start(0)];
    RunStep(s4, Start(0), [], s');
    RunStep(s3, Adopt(0), [Start(0)], s');
    RunStep(s2, Alloc(0, 1), [Adopt(0), Start(0)], s');
    RunStep(s1, Kill(1), [Alloc(0, 1), Adopt(0), Start(0)], s');
    RunStep(s0, Schedule(0, 0), [Kill(1), Alloc(0, 1), Adopt(0), Start(0)], s');
  }

  lemma {:induction false} RunStep(s: State, a: Step, rest: seq<Step>, s': State)
    requires Enabled(s, a) && Run(Next(s, a), rest, s')
    ensures Run(s, [a] + rest, s')
  {
    assert ([a] + rest)[1..] == rest;
  }

  // ---- What the steps do to the table, slot by slot -----------------------------------------------------

  /** Only slot k changes. */
  ghost predicate Only(ps: seq<Proc>, ps': seq<Proc>, k: int) {
    0 <= k < |ps| == |ps'| && forall i: nat :: i < |ps| && i != k ==> ps'[i] == ps[i]
  }

  /** The same parent and wait channel. */
  predicate SamePlace(q: Proc, q': Proc) { q'.parent == q.parent && q'.chan == q.chan }

  /** Asleep on ch it becomes runnable; anybody else stays as it is. */
  predicate WokenBy(q: Proc, q': Proc, ch: Chan) {
    && q'.state == (if q.state == SLEEPING && q.chan == ch then RUNNABLE else q.state)
    && q'.pid == q.pid && SamePlace(q, q') && q'.killed == q.killed
  }

  /** p is off processor c, in state st on channel ch, and nothing else has changed. */
  ghost predicate LeavesTo(s: State, s': State, p: nat, c: nat, st: PState, ch: Chan) {
    && Only(s.proc, s'.proc, p) && s'.proc[p].state == st && s'.proc[p].chan == ch
    && s'.proc[p].pid == s.proc[p].pid && s'.proc[p].parent == s.proc[p].parent && s'.proc[p].killed == s.proc[p].killed
    && c < |s.cpu| == |s'.cpu| && s'.cpu[c] == NONE
    && (forall i: nat :: i < |s.cpu| && i != c ==> s'.cpu[i] == s.cpu[i])
    && s'.pc == s.pc && s'.nextpid == s.nextpid && s'.init == s.init
  }

  /** What becomes of another slot i when p exits. */
  ghost predicate ExitSlot(s: State, q: Proc, i: nat, p: nat)
    requires i < |s.proc| && p < |s.proc|
  {
    && q.parent == (if s.proc[i].parent == p then s.init else s.proc[i].parent)
    && q.state == (if s.Waits(i) && (i == s.proc[p].parent || (i == s.init && HasZombie(s.proc, p))) then RUNNABLE
                   else s.proc[i].state)
    && q.pid == s.proc[i].pid && q.chan == s.proc[i].chan && q.killed == s.proc[i].killed
  }

  /**
   exit: p is a zombie off its processor, its children are init's, its parent is awake if it was in wait, and so is
   init if it has got a zombie; nothing else has changed.
   */
  ghost predicate ExitsTo(s: State, s': State, p: nat, c: nat) {
    && p < |s.proc| == |s'.proc| && s'.proc[p] == s.proc[p].(state := ZOMBIE)
    && (forall i: nat :: i < |s.proc| && i != p ==> ExitSlot(s, s'.proc[i], i, p))
    && c < |s.cpu| == |s'.cpu| && s'.cpu[c] == NONE
    && (forall i: nat :: i < |s.cpu| && i != c ==> s'.cpu[i] == s.cpu[i])
    && s'.pc == s.pc && s'.nextpid == s.nextpid && s'.init == s.init
  }

  lemma {:induction false} ExitEffect(s: State, p: nat, c: nat)
    requires s.Inv() && Enabled(s, Exit(p, c))
    ensures ExitsTo(s, Next(s, Exit(p, c)), p, c)
  {
    assert s.Is(p, RUNNING) && s.Parent(p) != p && s.OwnChan();
    hide State.Inv, HasZombie, State.OwnChan, State.Waits;
    ExitProc(s, p, c);
    forall i: nat | i < |s.proc| && i != p
      ensures ExitSlot(s, ExitOne(s.proc, i, p, s.init, HasZombie(s.proc, p)), i, p)
    {
      ExitOneSlot(s, i, p);
    }
  }

  lemma {:induction false} ExitOneSlot(s: State, i: nat, p: nat)
    requires s.OwnChan() && i < |s.proc| && p < |s.proc| && i != p
    ensures ExitSlot(s, ExitOne(s.proc, i, p, s.init, HasZombie(s.proc, p)), i, p)
  {
    hide HasZombie;
    if s.Is(i, SLEEPING) && s.proc[i].chan.OfProc? {
      assert s.proc[i].chan == OfProc(i);
    }
  }

  /** wakeup, yield, sleep, and the store to chan after it. */
  lemma {:induction false} SleepEffects(s: State, a: Step)
    requires s.Inv() && Enabled(s, a)
    ensures var s' := Next(s, a);
            match a
            case Wake(n) =>
              && |s'.proc| == |s.proc| && (forall i: nat :: i < |s.proc| ==> WokenBy(s.proc[i], s'.proc[i], Other(n)))
              && s'.cpu == s.cpu && s'.pc == s.pc && s'.nextpid == s.nextpid && s'.init == s.init
            case SleepOn(p, c, n) => LeavesTo(s, s', p, c, SLEEPING, Other(n))
            case Yield(p, c) => LeavesTo(s, s', p, c, RUNNABLE, s.proc[p].chan)
            case Tidy(p) => s'.proc[p].chan == Nil && s' == s.(proc := s'.proc) && Only(s.proc, s'.proc, p)
                            && s'.proc[p] == s.proc[p].(chan := Nil)
            case _ => true
  {
    hide State.Inv;
  }

  /** The three ways on from allocproc in fork: giving the slot back, setting its parent, setting it going. */
  lemma {:induction false} ForkEffects(s: State, a: Step)
    requires s.Inv() && Enabled(s, a) && (a.Drop? || a.Adopt? || a.Start?)
    ensures var s' := Next(s, a);
            var np := s.pc[a.p].np;
            && Only(s.proc, s'.proc, np) && s.proc[np].state == EMBRYO
            && s'.proc[np].state == (if a.Drop? then UNUSED else if a.Start? then RUNNABLE else EMBRYO)
            && s'.proc[np].parent == (if a.Drop? then NONE else a.p)
            && s'.proc[np].pid == s.proc[np].pid && s'.proc[np].chan == s.proc[np].chan
            && s'.proc[np].killed == s.proc[np].killed
            && |s'.pc| == |s.pc| && s'.pc[a.p] == (if a.Adopt? then Ready(np) else User)
            && (forall i: nat :: i < |s.pc| && i != a.p ==> s'.pc[i] == s.pc[i])
            && s'.cpu == s.cpu && s'.nextpid == s.nextpid && s'.init == s.init
  {
    assert s.Fork(a.p);
    hide State.Inv;
  }

  // ---- Process numbers ----------------------------------------------------------------------------------

  /** No two slots have the same pid, 0 apart, and a slot in use has one. */
  ghost predicate Pids(s: State) {
    && s.nextpid >= 1 && (forall i: nat :: i < |s.proc| ==> s.proc[i].pid < s.nextpid)
    && (forall i: nat :: i < |s.proc| && s.proc[i].state != UNUSED ==> s.proc[i].pid != 0)
    && forall i: nat, j: nat :: i < |s.proc| && j < |s.proc| && s.proc[i].pid == s.proc[j].pid != 0 ==> i == j
  }

  /** Pids stay as they are, and who was unused is, as far as the step goes. */
  lemma {:induction false} SamePids(s: State, s': State)
    requires Pids(s) && s'.nextpid == s.nextpid && |s'.proc| == |s.proc|
    requires forall i: nat :: i < |s.proc| ==>
               s'.proc[i].pid == s.proc[i].pid && (s.proc[i].state == UNUSED ==> s'.proc[i].state == UNUSED)
    ensures Pids(s')
  {
  }

  lemma {:induction false} StepKeepsPids(s: State, a: Step)
    requires s.Inv() && Enabled(s, a) && Pids(s)
    ensures Pids(Next(s, a))
  {
    var s' := Next(s, a);
    if a.Alloc? {
      assert Only(s.proc, s'.proc, a.np) && s'.proc[a.np].pid == s.nextpid;
      hide State.Inv;
    } else if a.Reap? {
      assert Only(s.proc, s'.proc, a.k) && s'.proc[a.k].pid == 0 && s'.proc[a.k].state == UNUSED;
      hide State.Inv;
    } else {
      OtherPids(s, a);
      SamePids(s, s');
    }
  }

  lemma {:induction false} OtherPids(s: State, a: Step)
    requires s.Inv() && Enabled(s, a) && !a.Alloc? && !a.Reap?
    ensures var s' := Next(s, a);
            && s'.nextpid == s.nextpid && |s'.proc| == |s.proc|
            && forall i: nat :: i < |s.proc| ==>
                 s'.proc[i].pid == s.proc[i].pid && (s.proc[i].state == UNUSED ==> s'.proc[i].state == UNUSED)
  {
    if a.Exit? {
      ExitEffect(s, a.p, a.c);
      assert s.Is(a.p, RUNNING);
      hide Next, State.Inv, HasZombie;
    } else if a.Drop? || a.Adopt? || a.Start? {
      ForkEffects(s, a);
      hide Next, State.Inv, HasZombie;
    } else if a.WaitSleep? || a.SleepOn? || a.Yield? {
      assert s.Is(a.p, RUNNING);
      hide State.Inv, HasZombie;
    } else {
      hide State.Inv, HasZombie;
    }
  }

  /** In every run from userinit on, whoever has a pid other than 0 is the only one to have it. */
  lemma {:induction false} PidsDistinct(s: State, steps: seq<Step>, s': State)
    requires s.Inv() && Pids(s) && Run(s, steps, s')
    ensures Pids(s')
    decreases |steps|
  {
    if steps != [] {
      StepKeepsInv(s, steps[0]);
      StepKeepsPids(s, steps[0]);
      hide State.Inv, Pids, Next, Enabled;
      PidsDistinct(Next(s, steps[0]), steps[1..], s');
    }
  }

  // ---- fork, exit and wait together -----------------------------------------------------------------------

  /** np as a child of p in state st, with the next pid. */
  function Child(s: State, np: nat, p: nat, st: PState): State
    requires np < |s.proc|
  {
    s.(proc := s.proc[np := Proc(st, s.nextpid, p, s.proc[np].chan, s.proc[np].killed)], nextpid := s.nextpid + 1)
  }

  lemma {:induction false} ForkRun(s: State, p: nat, np: nat)
    requires s.Is(p, RUNNING) && |s.pc| == |s.proc| && s.pc[p] == User && s.Is(np, UNUSED)
    ensures Run(s, [Alloc(p, np), Adopt(p), Start(p)], Child(s, np, p, RUNNABLE))
  {
    var q := s.proc[np];
    var s1 := s.(proc := s.proc[np := Proc(EMBRYO, s.nextpid, q.parent, q.chan, q.killed)], nextpid := s.nextpid + 1,
                 pc := s.pc[p := Forking(np)]);
    var s2 := s1.(proc := s.proc[np := Proc(EMBRYO, s.nextpid, p, q.chan, q.killed)], pc := s.pc[p := Ready(np)]);
    var s3 := Child(s, np, p, RUNNABLE);
    assert Enabled(s, Alloc(p, np)) && Next(s, Alloc(p, np)) == s1;
    assert Enabled(s1, Adopt(p)) && Next(s1, Adopt(p)) == s2;
    assert s2.pc[p := User] == s.pc;
    assert Enabled(s2, Start(p)) && Next(s2, Start(p)) == s3 && Run(s3, [], s3);
    hide Next, Enabled, Run;
    RunStep(s2, Start(p), [], s3);
    RunStep(s1, Adopt(p), [Start(p)], s3);
    RunStep(s, Alloc(p, np), [Adopt(p), Start(p)], s3);
  }

  /** p sleeps in wait and np gets its processor. */
  lemma {:induction false} WaitRun(s: State, p: nat, c: nat, np: nat)
    requires At(s, p, c) && !HasZombie(s.proc, p) && s.Is(np, RUNNABLE) && p != np
    ensures Run(s, [WaitSleep(p, c), Schedule(c, np)],
                s.(proc := s.proc[p := s.proc[p].(state := SLEEPING, chan := OfProc(p))]
                           [np := s.proc[np].(state := RUNNING)], cpu := s.cpu[c := np]))
  {
    var s1 := s.(proc := s.proc[p := s.proc[p].(state := SLEEPING, chan := OfProc(p))], cpu := s.cpu[c := NONE]);
    var s2 := s1.(proc := s1.proc[np := s.proc[np].(state := RUNNING)], cpu := s.cpu[c := np]);
    assert Enabled(s, WaitSleep(p, c)) && Next(s, WaitSleep(p, c)) == s1;
    assert Enabled(s1, Schedule(c, np)) && Next(s1, Schedule(c, np)) == s2 && Run(s2, [], s2);
    hide Next, Enabled, Run;
    RunStep(s1, Schedule(c, np), [], s2);
    RunStep(s, WaitSleep(p, c), [Schedule(c, np)], s2);
  }

  /** A child without children exits under its waiting parent. */
  lemma {:induction false} ChildExits(s: State, p: nat, c: nat, np: nat)
    requires s.Inv() && At(s, np, c) && s.Waits(p) && s.Parent(np) == p != np && s.pc[np] == User && np != s.init
    requires !HasChild(s.proc, np)
    ensures Enabled(s, Exit(np, c))
    ensures Next(s, Exit(np, c)) == s.(proc := s.proc[np := s.proc[np].(state := ZOMBIE)]
                                               [p := s.proc[p].(state := RUNNABLE)], cpu := s.cpu[c := NONE])
  {
    assert |s.proc| == |s.pc|;
    ExitEffect(s, np, c);
    var s' := Next(s, Exit(np, c));
    var ps := s.proc[np := s.proc[np].(state := ZOMBIE)][p := s.proc[p].(state := RUNNABLE)];
    hide Next, State.Inv, State.Waits;
    assert s'.proc == ps;
    assert s'.cpu == s.cpu[c := NONE];
  }

  /** The parent gets the processor and reaps it. */
  lemma {:induction false} ReapRun(s: State, p: nat, c: nat, np: nat)
    requires s.Is(np, ZOMBIE) && s.Is(p, RUNNABLE) && s.proc[np].parent == p && c < |s.cpu| && s.cpu[c] == NONE
    ensures Run(s, [Schedule(c, p), Tidy(p), Reap(p, np)],
                s.(proc := s.proc[p := s.proc[p].(state := RUNNING, chan := Nil)]
                           [np := Proc(UNUSED, 0, NONE, s.proc[np].chan, false)], cpu := s.cpu[c := p]))
  {
    var s1 := s.(proc := s.proc[p := s.proc[p].(state := RUNNING)], cpu := s.cpu[c := p]);
    var s2 := s1.(proc := s.proc[p := s.proc[p].(state := RUNNING, chan := Nil)]);
    var s3 := s2.(proc := s2.proc[np := Proc(UNUSED, 0, NONE, s.proc[np].chan, false)]);
    assert Enabled(s, Schedule(c, p)) && Next(s, Schedule(c, p)) == s1;
    assert Enabled(s1, Tidy(p)) && Next(s1, Tidy(p)) == s2;
    assert Enabled(s2, Reap(p, np)) && Next(s2, Reap(p, np)) == s3 && Run(s3, [], s3);
    hide Next, Enabled, Run;
    RunStep(s2, Reap(p, np), [], s3);
    RunStep(s1, Tidy(p), [Reap(p, np)], s3);
    RunStep(s, Schedule(c, p), [Tidy(p), Reap(p, np)], s3);
  }

  lemma {:induction false} RunJoin(s: State, steps: seq<Step>, s1: State, more: seq<Step>, s': State)
    requires Run(s, steps, s1) && Run(s1, more, s')
    ensures Run(s, steps + more, s')
    decreases |steps|
  {
    if steps == [] {
      assert steps + more == more;
    } else {
      hide Next, Enabled;
      RunJoin(Next(s, steps[0]), steps[1..], s1, more, s');
      assert (steps + more)[1..] == steps[1..] + more;
    }
  }

  /** An unused slot has no children, is in no fork and is not init's. */
  lemma {:induction false} UnusedIsAlone(s: State, np: nat)
    requires s.Inv() && s.Is(np, UNUSED)
    ensures np != s.init && np < |s.pc| && s.pc[np] == User && !HasChild(s.proc, np)
  {
    assert s.Fork(np);
    forall k: nat | k < |s.proc|
      ensures s.proc[k].parent != np
    {
      assert s.Parent(k) == s.proc[k].parent;
    }
  }

  /** p in wait over its running child np. */
  lemma {:induction false} ForkAndWait(s: State, p: nat, c: nat, np: nat) returns (steps: seq<Step>, s': State)
    requires s.Inv() && At(s, p, c) && s.pc[p] == User && s.Is(np, UNUSED) && !HasZombie(s.proc, p)
    ensures p != np && Run(s, steps, s')
    ensures s' == Child(s, np, p, RUNNING).(cpu := s.cpu[c := np], proc :=
                    Child(s, np, p, RUNNING).proc[p := s.proc[p].(state := SLEEPING, chan := OfProc(p))])
    ensures s'.Inv() && At(s', np, c) && s'.Waits(p) && s'.Parent(np) == p && !HasChild(s'.proc, np)
    ensures s'.pc[np] == User && np != s'.init
  {
    assert s.Is(p, RUNNING) && |s.pc| == |s.proc|;
    UnusedIsAlone(s, np);
    var t := Child(s, np, p, RUNNABLE);
    NoZombieYet(s.proc, t.proc, np, p);
    ForkRun(s, p, np);
    WaitRun(t, p, c, np);
    s' := t.(proc := t.proc[p := t.proc[p].(state := SLEEPING, chan := OfProc(p))]
                     [np := t.proc[np].(state := RUNNING)], cpu := t.cpu[c := np]);
    steps := [Alloc(p, np), Adopt(p), Start(p)] + [WaitSleep(p, c), Schedule(c, np)];
    hide Run, State.Inv;
    RunJoin(s, [Alloc(p, np), Adopt(p), Start(p)], t, [WaitSleep(p, c), Schedule(c, np)], s');
    RunKeepsInv(s, steps, s');
    ChildlessYet(s.proc, s'.proc, np, p);
    var u := Child(s, np, p, RUNNING);
    assert u.proc[p := s.proc[p].(state := SLEEPING, chan := OfProc(p))] == s'.proc;
  }

  lemma {:induction false} ChildlessYet(ps: seq<Proc>, ps': seq<Proc>, np: nat, p: nat)
    requires |ps'| == |ps| && !HasChild(ps, np) && p < |ps| && np < |ps| && ps'[np].parent == p != np
    requires forall i: nat :: i < |ps| && i != np ==> ps'[i].parent == ps[i].parent
    ensures !HasChild(ps', np)
  {
    if k: nat :| k < |ps'| && ps'[k].parent == np {
      assert k != np && ps[k].parent == np;
    }
  }

  /**
   fork, exit of the child and wait of the parent on one processor: the parent runs again, the slot is unused as
   before, one pid has been used, and nobody else has noticed.
   */
  lemma {:induction false} ForkExitWait(s: State, p: nat, c: nat, np: nat) returns (steps: seq<Step>, s': State)
    requires s.Inv() && At(s, p, c) && s.pc[p] == User && s.Is(np, UNUSED) && !HasZombie(s.proc, p)
    ensures Run(s, steps, s') && p != np
    ensures s'.cpu == s.cpu && s'.pc == s.pc && s'.init == s.init && s'.nextpid == s.nextpid + 1
    ensures |s'.proc| == |s.proc| && s'.proc[p] == s.proc[p].(chan := Nil)
    ensures s'.proc[np] == Proc(UNUSED, 0, NONE, s.proc[np].chan, false)
    ensures forall i: nat :: i < |s.proc| && i != p && i != np ==> s'.proc[i] == s.proc[i]
  {
    assert s.Is(p, RUNNING);
    var first, t := ForkAndWait(s, p, c, np);
    ChildExits(t, p, c, np);
    var u := t.(proc := t.proc[np := t.proc[np].(state := ZOMBIE)][p := t.proc[p].(state := RUNNABLE)],
                cpu := t.cpu[c := NONE]);
    ReapRun(u, p, c, np);
    s' := u.(proc := u.proc[p := u.proc[p].(state := RUNNING, chan := Nil)]
                     [np := Proc(UNUSED, 0, NONE, u.proc[np].chan, false)], cpu := u.cpu[c := p]);
    hide Run, Next, Enabled, State.Inv;
    var more := [Schedule(c, p), Tidy(p), Reap(p, np)];
    RunStep(t, Exit(np, c), more, s');
    RunJoin(s, first, t, [Exit(np, c)] + more, s');
    steps := first + ([Exit(np, c)] + more);
  }

  lemma {:induction false} NoZombieYet(ps: seq<Proc>, ps': seq<Proc>, k: nat, p: int)
    requires Only(ps, ps', k) && ps'[k].state != ZOMBIE && !HasZombie(ps, p)
    ensures !HasZombie(ps', p)
  {
    if i: nat :| i < |ps'| && ps'[i].parent == p && ps'[i].state == ZOMBIE {
      assert i != k && ps[i] == ps'[i];
    }
  }

  // ---- The sections under ptable.lock, as the code runs them ---------------------------------------------

  /** Some child of p among the first n entries is a zombie. */
  ghost predicate ZombieIn(ps: seq<Proc>, p: int, n: nat) {
    exists k: nat :: k < n && k < |ps| && ps[k].parent == p && ps[k].state == ZOMBIE
  }

  /** Entry k when exit's loop has passed the first n entries. */
  ghost function Exiting(ps: seq<Proc>, k: nat, p: nat, init: nat, n: nat): Proc
    requires k < |ps| && p < |ps|
  {
    var q1 := WakeOne(ps[k], OfProc(ps[p].parent));
    var q2 := if k < n && q1.parent == p then q1.(parent := init) else q1;
    if ZombieIn(ps, p, n) then WakeOne(q2, OfProc(init)) else q2
  }

  datatype Waited = Reaped(k: nat, pid: nat) | NoChildren | Asleep

  class Ptable {
    const init: nat
    var proc: seq<Proc>
    var cpu: seq<int>
    var nextpid: nat
    ghost var pc: seq<Pc>

    /** After userinit: the first slot holds init, ready to run, on a machine with ncpu processors. */
    constructor (ncpu: nat)
      ensures Booted(Now()) && Now().Inv() && Pids(Now()) && init == 0 && |cpu| == ncpu
    {
      init := 0;
      proc := [Proc(RUNNABLE, 1, NONE, Nil, false)] + seq(NPROC - 1, _ => Proc(UNUSED, 0, NONE, Nil, false));
      cpu := seq(ncpu, _ => NONE);
      nextpid := 2;
      pc := seq(NPROC, _ => User);
      new;
      BootedInv(Now());
    }

    ghost function Now(): State
      reads this
    {
      State(proc, cpu, pc, nextpid, init)
    }

    /** The locked part of allocproc: the first unused slot becomes an embryo. */
    method AllocProc(p: nat) returns (np: int)
      requires Now().Inv() && Now().Is(p, RUNNING) && pc[p] == User
      modifies this
      ensures np == NONE ==> unchanged(this) && forall i: nat :: i < NPROC ==> proc[i].state != UNUSED
      ensures np != NONE ==>
                0 <= np < NPROC && Enabled(old(Now()), Alloc(p, np)) && Now() == Next(old(Now()), Alloc(p, np))
      ensures np != NONE ==> forall i: nat :: i < np && i < |old(proc)| ==> old(proc)[i].state != UNUSED
      ensures np != NONE ==>
                && Only(old(proc), proc, np) && proc[np].state == EMBRYO && proc[np].pid == old(nextpid)
                && SamePlace(old(proc)[np], proc[np]) && proc[np].killed == old(proc)[np].killed
                && nextpid == old(nextpid) + 1 && cpu == old(cpu)
                && |pc| == NPROC && pc[p] == Forking(np) && forall i: nat :: i < NPROC && i != p ==> pc[i] == old(pc)[i]
      ensures Now().Inv()
    {
      var i := 0;
      while i < NPROC && proc[i].state != UNUSED
        invariant i <= NPROC && forall j: nat :: j < i ==> proc[j].state != UNUSED
      {
        i := i + 1;
      }
      np := NONE;
      if i < NPROC {
        np := i;
        StepKeepsInv(Now(), Alloc(p, np));
        proc := proc[i := proc[i].(state := EMBRYO, pid := nextpid)];
        nextpid := nextpid + 1;
        pc := pc[p := Forking(i)];
      }
    }

    /** wakeup1. */
    method Wakeup1(ch: Chan)
      modifies `proc
      ensures proc == Woken(old(proc), ch)
      ensures |proc| == |old(proc)| && forall i: nat :: i < |proc| ==> WokenBy(old(proc)[i], proc[i], ch)
    {
      var i := 0;
      while i < |proc|
        invariant i <= |proc| == |old(proc)|
        invariant forall k: nat :: k < i ==> proc[k] == WakeOne(old(proc)[k], ch)
        invariant forall k: nat :: i <= k < |proc| ==> proc[k] == old(proc)[k]
      {
        if proc[i].state == SLEEPING && proc[i].chan == ch {
          proc := proc[i := proc[i].(state := RUNNABLE)];
        }
        i := i + 1;
      }
    }

    /** The locked part of exit, up to the scheduler's c->proc = 0. */
    method Exit(p: nat, c: nat)
      requires Now().Inv() && Enabled(Now(), Step.Exit(p, c))
      modifies this
      ensures Now() == Next(old(Now()), Step.Exit(p, c)) && Now().Inv()
      ensures ExitsTo(old(Now()), Now(), p, c)
    {
      ghost var s, ps := Now(), proc;
      StepKeepsInv(s, Step.Exit(p, c));
      ExitEffect(s, p, c);
      hide State.Inv, Next, ExitsTo;
      Wakeup1(OfProc(proc[p].parent));
      PassOn(p, ps);
      proc := proc[p := proc[p].(state := ZOMBIE)];
      cpu := cpu[c := NONE];
      assert proc == Exited(ps, p, init) by {
        assert ZombieIn(ps, p, |ps|) <==> HasZombie(ps, p);
        assert forall k: nat :: k < |ps| ==> proc[k] == ExitOne(ps, k, p, init, HasZombie(ps, p));
      }
      ExitNext(s, Now(), p, c);
    }

    /** The loop of exit that passes abandoned children to init. */
    method PassOn(p: nat, ghost ps: seq<Proc>)
      requires |proc| == |ps| && p < |ps| && proc == Woken(ps, OfProc(ps[p].parent))
      modifies `proc
      ensures |proc| == |ps| && forall k: nat :: k < |ps| ==> proc[k] == Exiting(ps, k, p, init, |ps|)
    {
      var i := 0;
      while i < |proc|
        invariant i <= |proc| == |ps|
        invariant forall k: nat :: k < |ps| ==> proc[k] == Exiting(ps, k, p, init, i)
      {
        if proc[i].parent == p {
          proc := proc[i := proc[i].(parent := init)];
          if proc[i].state == ZOMBIE {
            Wakeup1(OfProc(init));
          }
        }
        ExitingStep(ps, p, i);
        i := i + 1;
      }
    }

    /** One pass of wait. */
    method Wait(p: nat, c: nat) returns (r: Waited)
      requires Now().Inv() && At(Now(), p, c)
      modifies this
      ensures Now().Inv()
      ensures r.Reaped? ==>
                && Enabled(old(Now()), Reap(p, r.k)) && Now() == Next(old(Now()), Reap(p, r.k))
                && r.pid == old(proc)[r.k].pid
                && Only(old(proc), proc, r.k) && proc[r.k] == Proc(UNUSED, 0, NONE, old(proc)[r.k].chan, false)
                && cpu == old(cpu) && pc == old(pc) && nextpid == old(nextpid)
      ensures r.NoChildren? ==> unchanged(this) && !HasZombie(proc, p) && (!HasChild(proc, p) || proc[p].killed)
      ensures r.Asleep? ==>
                && Enabled(old(Now()), WaitSleep(p, c)) && Now() == Next(old(Now()), WaitSleep(p, c))
                && HasChild(old(proc), p) && !old(proc)[p].killed
                && LeavesTo(old(Now()), Now(), p, c, SLEEPING, OfProc(p))
      ensures r.Reaped? <==> HasZombie(old(proc), p)
    {
      var havekids, i := false, 0;
      assert Now().Is(p, RUNNING);
      while i < NPROC && !(proc[i].parent == p && proc[i].state == ZOMBIE)
        invariant i <= NPROC && !ZombieIn(proc, p, i)
        invariant havekids ==> HasChild(proc, p)
        invariant !havekids ==> forall k: nat :: k < i ==> proc[k].parent != p
      {
        if proc[i].parent == p {
          havekids := true;
        }
        i := i + 1;
      }
      if i < NPROC {
        r := Reaped(i, proc[i].pid);
        StepKeepsInv(Now(), Reap(p, i));
        proc := proc[i := proc[i].(state := UNUSED, pid := 0, parent := NONE, killed := false)];
      } else {
        assert !HasZombie(proc, p);
        if !havekids || proc[p].killed {
          r := NoChildren;
        } else {
          r := Asleep;
          StepKeepsInv(Now(), WaitSleep(p, c));
          proc := proc[p := proc[p].(chan := OfProc(p), state := SLEEPING)];
          cpu := cpu[c := NONE];
        }
      }
    }

    /** kill: the first slot with that pid, whatever its state. */
    method Kill(pid: nat) returns (k: int)
      requires Now().Inv()
      modifies this
      ensures k == NONE ==> unchanged(this) && forall i: nat :: i < NPROC ==> proc[i].pid != pid
      ensures k != NONE ==>
                && 0 <= k < NPROC && old(proc)[k].pid == pid && (forall i: nat :: i < k ==> old(proc)[i].pid != pid)
                && Now() == Next(old(Now()), Step.Kill(k))
      ensures k != NONE ==>
                && (Pids(old(Now())) && pid != 0 ==> forall i: nat :: i < NPROC && i != k ==> old(proc)[i].pid != pid)
                && Only(old(proc), proc, k) && proc[k].killed
                && proc[k].state == (if old(proc)[k].state == SLEEPING then RUNNABLE else old(proc)[k].state)
                && proc[k].pid == old(proc)[k].pid && SamePlace(old(proc)[k], proc[k])
                && cpu == old(cpu) && pc == old(pc) && nextpid == old(nextpid)
      ensures Now().Inv()
    {
      var i := 0;
      while i < NPROC && proc[i].pid != pid
        invariant i <= NPROC && forall j: nat :: j < i ==> proc[j].pid != pid
      {
        i := i + 1;
      }
      k := NONE;
      if i < NPROC {
        k := i;
        StepKeepsInv(Now(), Step.Kill(i));
        proc := proc[i := proc[i].(killed := true)];
        if proc[i].state == SLEEPING {
          proc := proc[i := proc[i].(state := RUNNABLE)];
        }
      }
    }

    /** The scan of scheduler: the first runnable process from slot i on gets processor c. */
    method Scheduler(c: nat, from: nat) returns (p: nat)
      requires Now().Inv() && c < |cpu| && cpu[c] == NONE && from <= NPROC
      modifies this
      ensures Now().Inv() && from <= p <= NPROC
      ensures forall i: nat :: from <= i < p && i < |old(proc)| ==> old(proc)[i].state != RUNNABLE
      ensures p == NPROC ==> unchanged(this)
      ensures p < NPROC ==> Enabled(old(Now()), Schedule(c, p)) && Now() == Next(old(Now()), Schedule(c, p))
      ensures p < NPROC ==>
                && old(proc)[p].state == RUNNABLE && Only(old(proc), proc, p) && proc[p].state == RUNNING
                && proc[p].pid == old(proc)[p].pid && SamePlace(old(proc)[p], proc[p])
                && proc[p].killed == old(proc)[p].killed
                && |cpu| == |old(cpu)| && cpu[c] == p
                && (forall i: nat :: i < |cpu| && i != c ==> cpu[i] == old(cpu)[i])
                && pc == old(pc) && nextpid == old(nextpid)
    {
      p := from;
      while p < NPROC && proc[p].state != RUNNABLE
        invariant from <= p <= NPROC && forall i: nat :: from <= i < p ==> proc[i].state != RUNNABLE
      {
        p := p + 1;
      }
      if p < NPROC {
        StepKeepsInv(Now(), Schedule(c, p));
        cpu := cpu[c := p];
        proc := proc[p := proc[p].(state := RUNNING)];
      }
    }
  }

  lemma {:induction false} ExitNext(s: State, s': State, p: nat, c: nat)
    requires Enabled(s, Exit(p, c)) && s'.proc == Exited(s.proc, p, s.init) && s'.cpu == s.cpu[c := NONE]
    requires s'.pc == s.pc && s'.nextpid == s.nextpid && s'.init == s.init
    ensures s' == Next(s, Exit(p, c))
  {
  }

  lemma {:induction false} ExitingStep(ps: seq<Proc>, p: nat, i: nat)
    requires i < |ps| && p < |ps|
    ensures ZombieIn(ps, p, i + 1) <==> ZombieIn(ps, p, i) || (ps[i].parent == p && ps[i].state == ZOMBIE)
  {
  }
}

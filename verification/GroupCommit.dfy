/**
 begin_op, log_write and end_op as a transition system over processes. One action is
 one critical section under log.lock (or the unlocked check at the top of log_write);
 a run is any sequence of actions, so it is any interleaving.
 */
module GroupCommit {
  import opened LittleEndian
  import opened RedoLog
  import opened LogLayer
  import BufferCache

  const MAXOPBLOCKS: nat := 10

  /** Where a process is with respect to the log. */
  datatype Phase =
    | Outside                                                    // in no file system operation
    | Trying                                                     // in begin_op's loop, not asleep
    | Asleep                                                     // asleep on the log in begin_op
    | Open(mine: set<uint32>, calls: nat)                        // in an operation that logged these blocks
    | Checked(mine: set<uint32>, calls: nat, b: uint32)          // in log_write, past the panics
    | Commits                                                    // in end_op, running commit()
    | Committed                                                  // in end_op, commit() has returned

  /** nlog from the superblock, whether operations keep to MAXOPBLOCKS calls of log_write, and the number of buffers. */
  datatype Config = Config(size: nat, frugal: bool, nbuf: nat)

  datatype State = State(procs: seq<Phase>, outstanding: nat, committing: bool, blocks: seq<uint32>, panicked: bool)

  datatype Action =
    | CallBegin(p: nat)
    | TryBegin(p: nat)
    | LogWriteCheck(p: nat, b: uint32)
    | LogWriteAdd(p: nat)
    | EndOp(p: nat)
    | CommitReturns(p: nat)
    | EndCommit(p: nat)
    | Kill(p: nat)                                               // kill() also wakes a sleeper

  function Init(n: nat): State {
    State(seq(n, _ => Outside), 0, false, [], false)
  }

  function WakeAll(procs: seq<Phase>): (r: seq<Phase>)
    ensures |r| == |procs|
  {
    seq(|procs|, i requires 0 <= i < |procs| => if procs[i] == Asleep then Trying else procs[i])
  }

  predicate MustWait(s: State) {
    s.committing || |s.blocks| + (s.outstanding + 1) * MAXOPBLOCKS > LOGSIZE
  }

  /** The calls of log_write an operation may make: at most MAXOPBLOCKS blocks, and if frugal as many calls. */
  predicate InBudget(cfg: Config, ph: Phase, b: uint32) {
    ph.Open? && |ph.mine + {b}| <= MAXOPBLOCKS && (cfg.frugal ==> ph.calls < MAXOPBLOCKS)
  }

  /** One action; an action that is not possible leaves the state alone, and so does any action after a panic. */
  function Act(cfg: Config, s: State, a: Action): State {
    if s.panicked || a.p >= |s.procs| then s
    else
      var ph := s.procs[a.p];
      match a
      case CallBegin(p) =>
        if ph == Outside then s.(procs := s.procs[p := Trying]) else s
      case TryBegin(p) =>
        if ph != Trying then s
        else if MustWait(s) then s.(procs := s.procs[p := Asleep])
        else s.(procs := s.procs[p := Open({}, 0)], outstanding := s.outstanding + 1)
      case LogWriteCheck(p, b) =>
        if !InBudget(cfg, ph, b) then s
        else if |s.blocks| >= LOGSIZE || |s.blocks| >= cfg.size - 1 || s.outstanding < 1 then s.(panicked := true)
        else s.(procs := s.procs[p := Checked(ph.mine, ph.calls, b)])
      case LogWriteAdd(p) =>
        if !ph.Checked? then s
        else s.(procs := s.procs[p := Open(ph.mine + {ph.b}, ph.calls + 1)], blocks := Absorb(s.blocks, ph.b))
      case EndOp(p) =>
        if !ph.Open? then s
        else if s.committing || s.outstanding == 0 then s.(panicked := true)
        else if s.outstanding == 1 then
          s.(procs := s.procs[p := Commits], outstanding := 0, committing := true)
        else
          s.(procs := WakeAll(s.procs[p := Outside]), outstanding := s.outstanding - 1)
      case CommitReturns(p) =>
        if ph != Commits then s
        else if s.blocks != [] && |s.blocks| >= cfg.nbuf then s.(panicked := true)   // no buffer for the log block
        else s.(procs := s.procs[p := Committed], blocks := [])
      case EndCommit(p) =>
        if ph != Committed then s
        else s.(procs := WakeAll(s.procs[p := Outside]), committing := false)
      case Kill(p) =>
        if ph == Asleep then s.(procs := s.procs[p := Trying]) else s
  }

  function Run(cfg: Config, s: State, actions: seq<Action>): State {
    if actions == [] then s else Act(cfg, Run(cfg, s, actions[..|actions| - 1]), actions[|actions| - 1])
  }

  // ---- Sums over the processes -----------------------------------------------------

  function InOp(ph: Phase): int { if ph.Open? || ph.Checked? then 1 else 0 }

  function InCommit(ph: Phase): int { if ph == Commits || ph == Committed then 1 else 0 }

  /** Blocks an open operation may still add. */
  function Unused(ph: Phase): int { if ph.Open? || ph.Checked? then MAXOPBLOCKS - |ph.mine| else 0 }

  function Sum(procs: seq<Phase>, f: Phase -> int): int {
    if procs == [] then 0 else Sum(procs[..|procs| - 1], f) + f(procs[|procs| - 1])
  }

  lemma {:induction false} SumUpdate(procs: seq<Phase>, p: nat, x: Phase, f: Phase -> int)
    requires p < |procs|
    ensures Sum(procs[p := x], f) == Sum(procs, f) - f(procs[p]) + f(x)
  {
    var last := |procs| - 1;
    if p == last {
      assert procs[p := x][..last] == procs[..last];
    } else {
      SumUpdate(procs[..last], p, x, f);
      assert procs[p := x][..last] == procs[..last][p := x];
    }
  }

  lemma {:induction false} SumWake(procs: seq<Phase>, f: Phase -> int)
    requires f(Asleep) == f(Trying)
    ensures Sum(WakeAll(procs), f) == Sum(procs, f)
  {
    if procs != [] {
      var last := |procs| - 1;
      SumWake(procs[..last], f);
      assert WakeAll(procs)[..last] == WakeAll(procs[..last]);
    }
  }

  /** A sum of non-negative terms is at least any of them. */
  lemma {:induction false} SumAtLeast(procs: seq<Phase>, p: nat, f: Phase -> int)
    requires p < |procs| && forall i :: 0 <= i < |procs| ==> f(procs[i]) >= 0
    ensures Sum(procs, f) >= f(procs[p]) && Sum(procs, f) >= 0
  {
    var last := |procs| - 1;
    if p < last {
      SumAtLeast(procs[..last], p, f);
    } else if last > 0 {
      SumAtLeast(procs[..last], 0, f);
    }
  }

  lemma {:induction false} SumZero(procs: seq<Phase>, f: Phase -> int)
    requires forall i :: 0 <= i < |procs| ==> f(procs[i]) == 0
    ensures Sum(procs, f) == 0
  {
    if procs != [] {
      SumZero(procs[..|procs| - 1], f);
    }
  }

  // ---- The invariant --------------------------------------------------------------

  ghost predicate PhaseOk(ph: Phase, blocks: seq<uint32>) {
    match ph
    case Open(mine, calls) => |mine| <= MAXOPBLOCKS && |mine| <= calls && forall b :: b in mine ==> b in blocks
    case Checked(mine, calls, b) =>
      && |mine + {b}| <= MAXOPBLOCKS && |mine| <= calls && (forall x :: x in mine ==> x in blocks)
    case Committed => blocks == []
    case _ => true
  }

  ghost predicate Inv(s: State) {
    && s.outstanding == Sum(s.procs, InOp)
    && Sum(s.procs, InCommit) == (if s.committing then 1 else 0)
    && (s.committing ==> s.outstanding == 0)
    && (s.outstanding == 0 && !s.committing ==> s.blocks == [])
    && Distinct(s.blocks)
    && |s.blocks| + Sum(s.procs, Unused) <= LOGSIZE
    && (forall p :: 0 <= p < |s.procs| ==> PhaseOk(s.procs[p], s.blocks))
    && (forall p :: 0 <= p < |s.procs| && s.procs[p] == Asleep ==> MustWait(s))
  }

  lemma {:induction false} SumsUpdate(procs: seq<Phase>, p: nat, x: Phase)
    requires p < |procs|
    ensures Sum(procs[p := x], InOp) == Sum(procs, InOp) - InOp(procs[p]) + InOp(x)
    ensures Sum(procs[p := x], InCommit) == Sum(procs, InCommit) - InCommit(procs[p]) + InCommit(x)
    ensures Sum(procs[p := x], Unused) == Sum(procs, Unused) - Unused(procs[p]) + Unused(x)
  {
    SumUpdate(procs, p, x, InOp);
    SumUpdate(procs, p, x, InCommit);
    SumUpdate(procs, p, x, Unused);
  }

  lemma {:induction false} SumsWake(procs: seq<Phase>)
    ensures Sum(WakeAll(procs), InOp) == Sum(procs, InOp)
    ensures Sum(WakeAll(procs), InCommit) == Sum(procs, InCommit)
    ensures Sum(WakeAll(procs), Unused) == Sum(procs, Unused)
  {
    SumWake(procs, InOp);
    SumWake(procs, InCommit);
    SumWake(procs, Unused);
  }

  lemma {:induction false} UnusedIsNat(s: State)
    requires Inv(s)
    ensures forall i :: 0 <= i < |s.procs| ==> Unused(s.procs[i]) >= 0
  {
    forall i | 0 <= i < |s.procs|
      ensures Unused(s.procs[i]) >= 0
    {
      assert PhaseOk(s.procs[i], s.blocks);
      if s.procs[i].Checked? {
        Grows(s.procs[i].mine, s.procs[i].b);
      }
    }
  }

  lemma {:induction false} Grows(mine: set<uint32>, b: uint32)
    ensures |mine| <= |mine + {b}| <= |mine| + 1
    ensures b !in mine ==> |mine + {b}| == |mine| + 1
    ensures b in mine ==> mine + {b} == mine
  {
    assert b in mine ==> mine + {b} == mine;
  }

  // ---- Every action keeps it -----------------------------------------------------------

  lemma {:induction false} UnusedBound(procs: seq<Phase>)
    ensures Sum(procs, Unused) <= MAXOPBLOCKS * Sum(procs, InOp)
  {
    if procs != [] {
      UnusedBound(procs[..|procs| - 1]);
    }
  }

  /** Between outside, trying and asleep a process moves without touching anything else. */
  lemma {:induction false} MovedInv(s: State, p: nat, x: Phase)
    requires Inv(s) && p < |s.procs| && s.procs[p] in {Outside, Trying, Asleep}
    requires x in {Outside, Trying, Asleep} && (x == Asleep ==> MustWait(s))
    ensures Inv(s.(procs := s.procs[p := x]))
  {
    SumsUpdate(s.procs, p, x);
    hide Sum, Distinct, MustWait;
  }

  /** begin_op gets through only when the log has room for its whole reservation. */
  lemma {:induction false} OpenedInv(s: State, p: nat)
    requires Inv(s) && p < |s.procs| && s.procs[p] == Trying && !MustWait(s)
    ensures Inv(s.(procs := s.procs[p := Open({}, 0)], outstanding := s.outstanding + 1))
  {
    SumsUpdate(s.procs, p, Open({}, 0));
    UnusedBound(s.procs);
    hide Sum, Distinct;
  }

  lemma {:induction false} BeginKeepsInv(cfg: Config, s: State, a: Action)
    requires Inv(s) && (a.CallBegin? || a.TryBegin? || a.Kill?)
    ensures Inv(Act(cfg, s, a))
  {
    if a.p < |s.procs| && !s.panicked {
      var s' := Act(cfg, s, a);
      var ph := s.procs[a.p];
      assert s.procs[a.p := ph] == s.procs;
      hide Inv;
      if a.TryBegin? && ph == Trying && !MustWait(s) {
        OpenedInv(s, a.p);
      } else if ph in {Outside, Trying, Asleep} {
        MovedInv(s, a.p, s'.procs[a.p]);
      }
    }
  }

  lemma {:induction false} CheckEffect(cfg: Config, s: State, p: nat, b: uint32)
    ensures var s' := Act(cfg, s, LogWriteCheck(p, b));
            || s' == s || s' == s.(panicked := true)
            || (p < |s.procs| && InBudget(cfg, s.procs[p], b)
                && s' == s.(procs := s.procs[p := Checked(s.procs[p].mine, s.procs[p].calls, b)]))
  {
  }

  lemma {:induction false} CheckedOk(cfg: Config, s: State, p: nat, b: uint32)
    requires Inv(s) && p < |s.procs| && InBudget(cfg, s.procs[p], b)
    ensures PhaseOk(Checked(s.procs[p].mine, s.procs[p].calls, b), s.blocks)
  {
    assert PhaseOk(s.procs[p], s.blocks);
  }

  lemma {:induction false} CheckedInv(cfg: Config, s: State, p: nat, b: uint32)
    requires Inv(s) && p < |s.procs| && InBudget(cfg, s.procs[p], b)
    ensures Inv(s.(procs := s.procs[p := Checked(s.procs[p].mine, s.procs[p].calls, b)]))
  {
    var ph := s.procs[p];
    CheckedOk(cfg, s, p, b);
    SumsUpdate(s.procs, p, Checked(ph.mine, ph.calls, b));
    hide PhaseOk, Sum, InBudget, Distinct, MustWait;
  }

  lemma {:induction false} CheckKeepsInv(cfg: Config, s: State, p: nat, b: uint32)
    requires Inv(s)
    ensures Inv(Act(cfg, s, LogWriteCheck(p, b)))
  {
    hide Act, Sum, PhaseOk, InBudget, Distinct;
    CheckEffect(cfg, s, p, b);
    if p < |s.procs| && InBudget(cfg, s.procs[p], b) {
      CheckedInv(cfg, s, p, b);
    }
  }

  /** An operation that trades reservation for listed blocks keeps the invariant. */
  lemma {:induction false} AddedInv(s: State, p: nat, x: Phase, blocks: seq<uint32>)
    requires Inv(s) && p < |s.procs| && s.procs[p].Checked? && x.Open? && s.outstanding >= 1
    requires PhaseOk(x, blocks) && forall q :: 0 <= q < |s.procs| && q != p ==> PhaseOk(s.procs[q], blocks)
    requires Distinct(blocks) && blocks != [] && |s.blocks| <= |blocks|
    requires |blocks| + Unused(x) <= |s.blocks| + Unused(s.procs[p])
    ensures Inv(s.(procs := s.procs[p := x], blocks := blocks))
  {
    hide PhaseOk, Sum, Distinct;
    SumsUpdate(s.procs, p, x);
    assert InOp(x) == InOp(s.procs[p]) && InCommit(x) == InCommit(s.procs[p]);
    hide Unused, InOp, InCommit;
  }

  lemma {:induction false} AddKeepsInv(cfg: Config, s: State, p: nat)
    requires Inv(s)
    ensures Inv(Act(cfg, s, LogWriteAdd(p)))
  {
    if p < |s.procs| && s.procs[p].Checked? && !s.panicked {
      var ph := s.procs[p];
      AddAct(cfg, s, p);
      AddKeepsPhases(s, p);
      AddKeepsReserve(s, p);
      hide PhaseOk, Absorb, Act, Distinct, Inv;
      AddedInv(s, p, Open(ph.mine + {ph.b}, ph.calls + 1), Absorb(s.blocks, ph.b));
    }
  }

  /** A new block uses up one unit of its operation's reservation; an absorbed one uses none or gives one back. */
  lemma {:induction false} AddKeepsReserve(s: State, p: nat)
    requires Inv(s) && p < |s.procs| && s.procs[p].Checked?
    ensures var ph := s.procs[p];
            |s.blocks| <= |Absorb(s.blocks, ph.b)|
            && |Absorb(s.blocks, ph.b)| - |ph.mine + {ph.b}| <= |s.blocks| - |ph.mine|
  {
    assert PhaseOk(s.procs[p], s.blocks);
    Grows(s.procs[p].mine, s.procs[p].b);
  }

  lemma {:induction false} AddKeepsPhases(s: State, p: nat)
    requires Inv(s) && p < |s.procs| && s.procs[p].Checked?
    ensures var ph := s.procs[p];
            var blocks := Absorb(s.blocks, ph.b);
            && PhaseOk(Open(ph.mine + {ph.b}, ph.calls + 1), blocks)
            && (forall q :: 0 <= q < |s.procs| && q != p ==> PhaseOk(s.procs[q], blocks))
            && Distinct(blocks)
            && blocks != [] && s.outstanding >= 1
  {
    var ph := s.procs[p];
    assert PhaseOk(ph, s.blocks);
    Grows(ph.mine, ph.b);
    SumAtLeast(s.procs, p, InOp);
    var blocks := Absorb(s.blocks, ph.b);
    assert forall x :: x in s.blocks ==> x in blocks;
    assert ph.b in blocks;
    forall q | 0 <= q < |s.procs| && q != p
      ensures PhaseOk(s.procs[q], blocks)
    {
      assert PhaseOk(s.procs[q], s.blocks);
      if s.procs[q] == Committed {
        TwoInCommit(s, p, q);
      }
    }
  }

  /** While some process commits, none is in an operation. */
  lemma {:induction false} TwoInCommit(s: State, p: nat, q: nat)
    requires Inv(s) && p < |s.procs| && q < |s.procs|
    requires InOp(s.procs[p]) == 1
    ensures InCommit(s.procs[q]) == 0
  {
    SumAtLeast(s.procs, p, InOp);
    SumAtLeast(s.procs, q, InCommit);
  }

  /** Waking everybody changes no sum, leaves nobody asleep and keeps every phase sound. */
  lemma {:induction false} WakeKeeps(procs: seq<Phase>, blocks: seq<uint32>)
    requires forall q :: 0 <= q < |procs| ==> PhaseOk(procs[q], blocks)
    ensures forall q :: 0 <= q < |procs| ==> PhaseOk(WakeAll(procs)[q], blocks) && WakeAll(procs)[q] != Asleep
    ensures Sum(WakeAll(procs), InOp) == Sum(procs, InOp)
    ensures Sum(WakeAll(procs), InCommit) == Sum(procs, InCommit)
    ensures Sum(WakeAll(procs), Unused) == Sum(procs, Unused)
  {
    SumsWake(procs);
  }

  lemma {:induction false} LastEndKeepsInv(cfg: Config, s: State, p: nat)
    requires Inv(s) && !s.panicked && p < |s.procs| && s.procs[p].Open? && s.outstanding == 1
    ensures Inv(Act(cfg, s, EndOp(p)))
  {
    assert PhaseOk(s.procs[p], s.blocks);
    SumsUpdate(s.procs, p, Commits);
  }

  /** An operation that is not the last ends: it gives back its reservation and wakes everybody. */
  lemma {:induction false} WokenInv(s: State, p: nat)
    requires Inv(s) && p < |s.procs| && s.procs[p].Open? && s.outstanding > 1
    requires |s.procs[p].mine| <= MAXOPBLOCKS
    ensures Inv(s.(procs := WakeAll(s.procs[p := Outside]), outstanding := s.outstanding - 1))
  {
    SumsUpdate(s.procs, p, Outside);
    WakeKeeps(s.procs[p := Outside], s.blocks);
    hide PhaseOk, WakeAll, Sum, Distinct, MustWait;
  }

  lemma {:induction false} EndOpKeepsInv(cfg: Config, s: State, p: nat)
    requires Inv(s)
    ensures Inv(Act(cfg, s, EndOp(p)))
  {
    if p < |s.procs| && s.procs[p].Open? && !s.panicked {
      SumAtLeast(s.procs, p, InOp);
      if s.outstanding == 1 {
        LastEndKeepsInv(cfg, s, p);
      } else {
        assert PhaseOk(s.procs[p], s.blocks);
        WokenInv(s, p);
        hide Inv;
      }
    }
  }

  lemma {:induction false} NobodyInOp(s: State, p: nat)
    requires Inv(s) && p < |s.procs| && InCommit(s.procs[p]) == 1
    ensures s.committing && s.outstanding == 0 && Sum(s.procs, Unused) == 0
    ensures forall q :: 0 <= q < |s.procs| ==> InOp(s.procs[q]) == 0
  {
    SumAtLeast(s.procs, p, InCommit);
    forall q | 0 <= q < |s.procs|
      ensures InOp(s.procs[q]) == 0 && Unused(s.procs[q]) == 0
    {
      if InOp(s.procs[q]) == 1 {
        TwoInCommit(s, q, p);
      }
    }
    SumZero(s.procs, Unused);
  }

  /** commit empties the list. */
  lemma {:induction false} EmptiedInv(s: State, p: nat)
    requires Inv(s) && p < |s.procs| && s.procs[p] == Commits
    ensures Inv(s.(procs := s.procs[p := Committed], blocks := []))
  {
    NobodyInOp(s, p);
    SumsUpdate(s.procs, p, Committed);
    hide Sum;
  }

  /** end_op after commit opens the log again and wakes everybody. */
  lemma {:induction false} CommittedInv(s: State, p: nat)
    requires Inv(s) && p < |s.procs| && s.procs[p] == Committed
    ensures Inv(s.(procs := WakeAll(s.procs[p := Outside]), committing := false))
  {
    NobodyInOp(s, p);
    assert PhaseOk(s.procs[p], s.blocks);
    SumsUpdate(s.procs, p, Outside);
    WakeKeeps(s.procs[p := Outside], s.blocks);
    hide Sum, WakeAll, PhaseOk, MustWait;
  }

  lemma {:induction false} CommitKeepsInv(cfg: Config, s: State, a: Action)
    requires Inv(s) && (a.CommitReturns? || a.EndCommit?)
    ensures Inv(Act(cfg, s, a))
  {
    if a.p < |s.procs| && InCommit(s.procs[a.p]) == 1 && !s.panicked {
      assert PhaseOk(s.procs[a.p], s.blocks);
      hide Inv, PhaseOk;
      if s.procs[a.p] == Commits {
        EmptiedInv(s, a.p);
      } else {
        CommittedInv(s, a.p);
      }
    }
  }

  lemma {:induction false} ActKeepsInv(cfg: Config, s: State, a: Action)
    requires Inv(s)
    ensures Inv(Act(cfg, s, a))
  {
    match a
    case CallBegin(_) => BeginKeepsInv(cfg, s, a);
    case TryBegin(_) => BeginKeepsInv(cfg, s, a);
    case Kill(_) => BeginKeepsInv(cfg, s, a);
    case LogWriteCheck(p, b) => CheckKeepsInv(cfg, s, p, b);
    case LogWriteAdd(p) => AddKeepsInv(cfg, s, p);
    case EndOp(p) => EndOpKeepsInv(cfg, s, p);
    case CommitReturns(_) => CommitKeepsInv(cfg, s, a);
    case EndCommit(_) => CommitKeepsInv(cfg, s, a);
  }

  lemma {:induction false} InitInv(n: nat)
    ensures Inv(Init(n))
  {
    SumZero(Init(n).procs, InOp);
    SumZero(Init(n).procs, InCommit);
    SumZero(Init(n).procs, Unused);
  }

  /** Every reachable state satisfies the invariant. */
  lemma {:induction false} RunKeepsInv(cfg: Config, n: nat, actions: seq<Action>)
    ensures Inv(Run(cfg, Init(n), actions))
    decreases |actions|
  {
    if actions == [] {
      InitInv(n);
    } else {
      RunKeepsInv(cfg, n, actions[..|actions| - 1]);
      ActKeepsInv(cfg, Run(cfg, Init(n), actions[..|actions| - 1]), actions[|actions| - 1]);
    }
  }

  lemma {:induction false} ShortList(s: State)
    requires Inv(s)
    ensures |s.blocks| <= LOGSIZE
  {
    if s.procs != [] {
      UnusedIsNat(s);
      SumAtLeast(s.procs, 0, Unused);
    }
  }

  lemma {:induction false} ListIsShort(cfg: Config, n: nat, actions: seq<Action>)
    ensures |Run(cfg, Init(n), actions).blocks| <= LOGSIZE
  {
    RunKeepsInv(cfg, n, actions);
    ShortList(Run(cfg, Init(n), actions));
  }

  // ---- What that means ------------------------------------------------------------------

  /**
   In every interleaving: nobody is in an operation while a commit runs, no block is listed
   twice, the listed blocks and the unused reservations fit the log, and whoever sleeps in
   begin_op still has to wait, so no wakeup is ever lost.
   */
  lemma {:induction false} GroupCommitSafety(cfg: Config, n: nat, actions: seq<Action>)
    ensures var s := Run(cfg, Init(n), actions);
            && (s.committing ==> forall p :: 0 <= p < |s.procs| ==> !s.procs[p].Open? && !s.procs[p].Checked?)
            && Distinct(s.blocks)
            && |s.blocks| + Sum(s.procs, Unused) <= LOGSIZE
            && |s.blocks| <= LOGSIZE
            && (forall p :: 0 <= p < |s.procs| && s.procs[p] == Asleep ==> MustWait(s))
  {
    ListIsShort(cfg, n, actions);
    RunKeepsInv(cfg, n, actions);
    var s := Run(cfg, Init(n), actions);
    if s.committing {
      forall p | 0 <= p < |s.procs|
        ensures !s.procs[p].Open? && !s.procs[p].Checked?
      {
        SumAtLeast(s.procs, p, InOp);
      }
    }
  }

  /** While a commit runs, only commit itself changes the list, and it empties it. */
  lemma {:induction false} ListFrozenInCommit(cfg: Config, s: State, a: Action)
    requires Inv(s) && s.committing
    ensures Act(cfg, s, a).blocks != s.blocks ==> a.CommitReturns? && Act(cfg, s, a).blocks == []
  {
    if a.LogWriteAdd? && a.p < |s.procs| && s.procs[a.p].Checked? {
      SumAtLeast(s.procs, a.p, InOp);
    }
  }

  /** Nobody sleeps for good: some other process is in an operation or in a commit, and its end_op wakes all
      sleepers. */
  lemma {:induction false} SleeperHasWaker(s: State, p: nat)
    requires Inv(s) && p < |s.procs| && s.procs[p] == Asleep
    ensures exists q :: 0 <= q < |s.procs| && InOp(s.procs[q]) + InCommit(s.procs[q]) == 1
  {
    if forall q :: 0 <= q < |s.procs| ==> InOp(s.procs[q]) + InCommit(s.procs[q]) == 0 {
      SumZero(s.procs, InOp);
      SumZero(s.procs, InCommit);
    }
  }

  // ---- What begin_op and end_op achieve --------------------------------------------------

  /** Process p goes to ph, and the others stay where they are. */
  ghost predicate Moved(s: State, t: State, p: nat, ph: Phase) {
    p < |s.procs| == |t.procs| && t.procs[p] == ph
    && forall q: nat :: q < |s.procs| && q != p ==> t.procs[q] == s.procs[q]
  }

  /** Process p goes to ph, sleepers wake, and the others stay where they are. */
  ghost predicate MovedWaking(s: State, t: State, p: nat, ph: Phase) {
    p < |s.procs| == |t.procs| && t.procs[p] == ph
    && (forall q: nat :: q < |s.procs| && q != p ==>
          t.procs[q] == if s.procs[q] == Asleep then Trying else s.procs[q])
    && forall q: nat :: q < |t.procs| && q != p ==> t.procs[q] != Asleep
  }

  /** begin_op gets through exactly if nobody commits and the log has room for all operations and one more. */
  lemma {:induction false} BeginEnters(cfg: Config, n: nat, actions: seq<Action>, p: nat)
    requires p < |Run(cfg, Init(n), actions).procs| && Run(cfg, Init(n), actions).procs[p] == Trying
    requires !Run(cfg, Init(n), actions).panicked
    ensures var s := Run(cfg, Init(n), actions);
            var t := Act(cfg, s, TryBegin(p));
            var enters := (forall q :: 0 <= q < |s.procs| ==> InCommit(s.procs[q]) == 0)
                          && |s.blocks| + (Sum(s.procs, InOp) + 1) * MAXOPBLOCKS <= LOGSIZE;
            && Moved(s, t, p, if enters then Open({}, 0) else Asleep)
            && t.outstanding == s.outstanding + (if enters then 1 else 0)
            && t.committing == s.committing && t.blocks == s.blocks && !t.panicked
  {
    RunKeepsInv(cfg, n, actions);
    var s := Run(cfg, Init(n), actions);
    hide Run;
    if forall q :: 0 <= q < |s.procs| ==> InCommit(s.procs[q]) == 0 {
      SumZero(s.procs, InCommit);
    } else {
      var q :| 0 <= q < |s.procs| && InCommit(s.procs[q]) != 0;
      SumAtLeast(s.procs, q, InCommit);
    }
  }

  /** Nobody but p is in an operation. */
  ghost predicate Alone(procs: seq<Phase>, p: nat) {
    forall q :: 0 <= q < |procs| && q != p ==> InOp(procs[q]) == 0
  }

  /** end_op of an operation: with others open it wakes all sleepers, as the last one it starts a commit. */
  lemma {:induction false} EndOpEnds(cfg: Config, n: nat, actions: seq<Action>, p: nat)
    requires p < |Run(cfg, Init(n), actions).procs| && Run(cfg, Init(n), actions).procs[p].Open?
    requires !Run(cfg, Init(n), actions).panicked
    ensures var s := Run(cfg, Init(n), actions);
            var t := Act(cfg, s, EndOp(p));
            var last := Alone(s.procs, p);
            && (if last then Moved(s, t, p, Commits) else MovedWaking(s, t, p, Outside))
            && t.outstanding == s.outstanding - 1 && (last <==> t.outstanding == 0)
            && t.committing == last && t.blocks == s.blocks && !t.panicked
  {
    RunKeepsInv(cfg, n, actions);
    var s := Run(cfg, Init(n), actions);
    hide Run;
    EndOpAct(cfg, s, p);
  }

  lemma {:induction false} OthersOpen(procs: seq<Phase>, p: nat)
    requires p < |procs| && InOp(procs[p]) == 1
    ensures Sum(procs, InOp) == 1 <==> Alone(procs, p)
    ensures Sum(procs, InOp) >= 1
  {
    var rest := procs[p := Outside];
    SumUpdate(procs, p, Outside, InOp);
    if q :| 0 <= q < |procs| && q != p && InOp(procs[q]) != 0 {
      assert rest[q] == procs[q];
      SumAtLeast(rest, q, InOp);
    } else {
      SumZero(rest, InOp);
    }
    SumAtLeast(procs, p, InOp);
  }

  lemma {:induction false} EndOpAct(cfg: Config, s: State, p: nat)
    requires Inv(s) && !s.panicked && p < |s.procs| && s.procs[p].Open?
    ensures var t := Act(cfg, s, EndOp(p));
            var last := Alone(s.procs, p);
            && (if last then Moved(s, t, p, Commits) else MovedWaking(s, t, p, Outside))
            && t.outstanding == s.outstanding - 1 && (last <==> t.outstanding == 0)
            && t.committing == last && t.blocks == s.blocks && !t.panicked
  {
    OthersOpen(s.procs, p);
    assert s.outstanding >= 1 && !s.committing && (Alone(s.procs, p) <==> s.outstanding == 1);
    hide Sum, Inv, Alone;
  }

  /** The end of end_op after its commit: the log is open again and nobody is left asleep. */
  lemma {:induction false} EndCommitWakes(cfg: Config, n: nat, actions: seq<Action>, p: nat)
    requires p < |Run(cfg, Init(n), actions).procs| && Run(cfg, Init(n), actions).procs[p] == Committed
    requires !Run(cfg, Init(n), actions).panicked
    ensures var s := Run(cfg, Init(n), actions);
            var t := Act(cfg, s, EndCommit(p));
            && MovedWaking(s, t, p, Outside) && s.committing && !t.committing && t.blocks == s.blocks == []
            && t.outstanding == s.outstanding == 0 && !t.panicked && !MustWait(t)
  {
    RunKeepsInv(cfg, n, actions);
    var s := Run(cfg, Init(n), actions);
    hide Run;
    SumAtLeast(s.procs, p, InCommit);
    assert PhaseOk(s.procs[p], s.blocks);
  }

  /** commit's return empties the list, and a kill brings a sleeper back to begin_op's loop. */
  lemma {:induction false} CommitEmpties(cfg: Config, n: nat, actions: seq<Action>, p: nat)
    requires p < |Run(cfg, Init(n), actions).procs| && !Run(cfg, Init(n), actions).panicked
    ensures var s := Run(cfg, Init(n), actions);
            var t := Act(cfg, s, CommitReturns(p));
            s.procs[p] == Commits ==>
              if 0 < |s.blocks| && cfg.nbuf <= |s.blocks| then t == s.(panicked := true)
              else Moved(s, t, p, Committed) && t.blocks == [] && t.committing && t.outstanding == 0 && !t.panicked
    ensures var s := Run(cfg, Init(n), actions);
            var t := Act(cfg, s, Kill(p));
            s.procs[p] == Asleep ==> Moved(s, t, p, Trying) && t == s.(procs := t.procs)
  {
    RunKeepsInv(cfg, n, actions);
    var s := Run(cfg, Init(n), actions);
    hide Run;
    if s.procs[p] == Commits {
      SumAtLeast(s.procs, p, InCommit);
    }
  }

  // ---- Nobody waits for good ------------------------------------------------------------

  /** Actions a process is from being outside of operations and commits. */
  function Steps(ph: Phase): int {
    match ph
    case Checked(_, _, _) => 4
    case Open(_, _) => 3
    case Commits => 2
    case Committed => 1
    case _ => 0
  }

  /** The action that takes it there. */
  function Onward(ph: Phase, p: nat): Action {
    match ph
    case Checked(_, _, _) => LogWriteAdd(p)
    case Open(_, _) => EndOp(p)
    case Commits => CommitReturns(p)
    case _ => EndCommit(p)
  }

  lemma {:induction false} OnwardAct(cfg: Config, s: State, p: nat)
    requires Inv(s) && !s.panicked && p < |s.procs| && Steps(s.procs[p]) > 0
    ensures var t := Act(cfg, s, Onward(s.procs[p], p));
            || (t.panicked && 0 < |t.blocks| && cfg.nbuf <= |t.blocks|)
            || (!t.panicked && |t.procs| == |s.procs| && Steps(t.procs[p]) < Steps(s.procs[p])
                && (t.procs == s.procs[p := t.procs[p]] || t.procs == WakeAll(s.procs[p := t.procs[p]])))
  {
    match s.procs[p]
    case Checked(_, _, _) => AddAct(cfg, s, p); hide Inv, Act, Absorb;
    case Open(_, _) =>
      OthersOpen(s.procs, p);
      assert s.outstanding >= 1 && !s.committing;
      hide Inv;
      EndOpOnward(cfg, s, p);
    case _ => hide Inv;
  }

  lemma {:induction false} EndOpOnward(cfg: Config, s: State, p: nat)
    requires !s.panicked && p < |s.procs| && s.procs[p].Open? && s.outstanding >= 1 && !s.committing
    ensures var t := Act(cfg, s, EndOp(p));
            && !t.panicked && |t.procs| == |s.procs| && Steps(t.procs[p]) < 3
            && (t.procs == s.procs[p := t.procs[p]] || t.procs == WakeAll(s.procs[p := t.procs[p]]))
  {
  }

  lemma {:induction false} FewerSteps(procs: seq<Phase>, p: nat, ph: Phase)
    requires p < |procs| && Steps(ph) < Steps(procs[p])
    ensures Sum(procs[p := ph], Steps) < Sum(procs, Steps)
    ensures Sum(WakeAll(procs[p := ph]), Steps) < Sum(procs, Steps)
  {
    SumUpdate(procs, p, ph, Steps);
    SumWake(procs[p := ph], Steps);
  }

  lemma {:induction false} StepsIsNat(procs: seq<Phase>)
    ensures Sum(procs, Steps) >= 0
  {
    if procs != [] {
      SumAtLeast(procs, 0, Steps);
    }
  }

  /** With nobody in an operation or a commit, nobody sleeps and begin_op gets through. */
  lemma {:induction false} EmptyLog(s: State)
    requires Inv(s) && forall q :: 0 <= q < |s.procs| ==> Steps(s.procs[q]) <= 0
    ensures !MustWait(s) && forall q :: 0 <= q < |s.procs| ==> s.procs[q] != Asleep
  {
    SumZero(s.procs, InOp);
    SumZero(s.procs, InCommit);
    hide Sum;
  }

  lemma {:induction false} RunFirst(cfg: Config, s: State, a: Action, rest: seq<Action>)
    ensures Run(cfg, s, [a] + rest) == Run(cfg, Act(cfg, s, a), rest)
    decreases |rest|
  {
    hide Act;
    var all := [a] + rest;
    if rest == [] {
      assert all[..|all| - 1] == [] && all[|all| - 1] == a;
    } else {
      RunFirst(cfg, s, a, rest[..|rest| - 1]);
      assert all[..|all| - 1] == [a] + rest[..|rest| - 1];
    }
  }

  /** Nobody new comes, nothing more is logged, and no kill helps. */
  predicate Finishing(actions: seq<Action>) {
    forall k :: 0 <= k < |actions| ==> !actions[k].CallBegin? && !actions[k].LogWriteCheck? && !actions[k].Kill?
  }

  lemma {:induction false} OnwardStep(cfg: Config, s: State, q: nat, p: nat)
    requires Inv(s) && !s.panicked && q < |s.procs| && Steps(s.procs[q]) > 0
    requires p < |s.procs| && s.procs[p] in {Asleep, Trying}
    ensures var t := Act(cfg, s, Onward(s.procs[q], q));
            || (t.panicked && 0 < |t.blocks| && cfg.nbuf <= |t.blocks|)
            || (!t.panicked && Inv(t) && 0 <= Sum(t.procs, Steps) < Sum(s.procs, Steps)
                && p < |t.procs| && t.procs[p] in {Asleep, Trying})
  {
    hide Inv, Sum, MustWait, Act;
    OnwardAct(cfg, s, q);
    ActKeepsInv(cfg, s, Onward(s.procs[q], q));
    var t := Act(cfg, s, Onward(s.procs[q], q));
    if !t.panicked {
      FewerSteps(s.procs, q, t.procs[q]);
      StepsIsNat(t.procs);
    }
  }

  lemma {:induction false} BeginsNow(cfg: Config, s: State, p: nat)
    requires !s.panicked && p < |s.procs| && s.procs[p] == Trying && !MustWait(s)
    ensures var t := Act(cfg, s, TryBegin(p)); !t.panicked && p < |t.procs| && t.procs[p] == Open({}, 0)
  {
  }

  lemma {:induction false} GetsThrough(cfg: Config, s: State, p: nat) returns (actions: seq<Action>)
    requires Inv(s) && !s.panicked && p < |s.procs| && s.procs[p] in {Asleep, Trying}
    ensures Finishing(actions)
    ensures var t := Run(cfg, s, actions);
            || (t.panicked && 0 < |t.blocks| && cfg.nbuf <= |t.blocks|)
            || (!t.panicked && p < |t.procs| && t.procs[p] == Open({}, 0))
    decreases Sum(s.procs, Steps)
  {
    hide Inv, Sum, MustWait, Act;
    if q: nat :| q < |s.procs| && Steps(s.procs[q]) > 0 {
      var a := Onward(s.procs[q], q);
      var t := Act(cfg, s, a);
      OnwardStep(cfg, s, q, p);
      if t.panicked {
        actions := [];
      } else {
        actions := GetsThrough(cfg, t, p);
      }
      RunFirst(cfg, s, a, actions);
      actions := [a] + actions;
    } else {
      EmptyLog(s);
      BeginsNow(cfg, s, p);
      actions := [TryBegin(p)];
      RunFirst(cfg, s, TryBegin(p), []);
    }
  }

  /**
   From every reachable state a process that waits in begin_op, asleep or not, gets its operation by a run of
   the processes that are there already, unless their commit panics for want of a buffer.
   */
  lemma {:induction false} WaiterGetsThrough(cfg: Config, n: nat, past: seq<Action>, p: nat)
    returns (actions: seq<Action>)
    requires p < |Run(cfg, Init(n), past).procs| && Run(cfg, Init(n), past).procs[p] in {Asleep, Trying}
    requires !Run(cfg, Init(n), past).panicked
    ensures Finishing(actions)
    ensures var t := Run(cfg, Run(cfg, Init(n), past), actions);
            || (t.panicked && 0 < |t.blocks| && cfg.nbuf <= |t.blocks|)
            || (!t.panicked && p < |t.procs| && t.procs[p] == Open({}, 0))
    ensures cfg.nbuf > LOGSIZE ==> !Run(cfg, Run(cfg, Init(n), past), actions).panicked
  {
    RunKeepsInv(cfg, n, past);
    var s := Run(cfg, Init(n), past);
    actions := GetsThrough(cfg, s, p);
    LaterInv(cfg, s, actions);
    ShortList(Run(cfg, s, actions));
  }

  lemma {:induction false} LaterInv(cfg: Config, s: State, actions: seq<Action>)
    requires Inv(s)
    ensures Inv(Run(cfg, s, actions))
    decreases |actions|
  {
    if actions != [] {
      LaterInv(cfg, s, actions[..|actions| - 1]);
      ActKeepsInv(cfg, Run(cfg, s, actions[..|actions| - 1]), actions[|actions| - 1]);
    }
  }

  // ---- When the kernel panics ----------------------------------------------------------

  lemma {:induction false} ActNoPanic(cfg: Config, s: State, a: Action)
    requires Inv(s) && !s.panicked && |s.blocks| <= LOGSIZE
    requires cfg.frugal && cfg.size > LOGSIZE && cfg.nbuf > LOGSIZE
    ensures !Act(cfg, s, a).panicked
  {
    if a.p < |s.procs| && s.procs[a.p].Open? {
      UnusedIsNat(s);
      SumAtLeast(s.procs, a.p, Unused);
      SumAtLeast(s.procs, a.p, InOp);
      assert PhaseOk(s.procs[a.p], s.blocks);
    }
  }

  lemma {:induction false} NoPanic(cfg: Config, n: nat, actions: seq<Action>)
    requires cfg.frugal && cfg.size > LOGSIZE && cfg.nbuf > LOGSIZE
    ensures !Run(cfg, Init(n), actions).panicked
    decreases |actions|
  {
    if actions != [] {
      var init := actions[..|actions| - 1];
      NoPanic(cfg, n, init);
      RunKeepsInv(cfg, n, init);
      ListIsShort(cfg, n, init);
      hide Act, Inv;
      ActNoPanic(cfg, Run(cfg, Init(n), init), actions[|actions| - 1]);
    }
  }

  // ---- Runs that fill the list: three operations log blocks 0, 1, 2, ... in turn -----------

  /** The operation whose turn block k is. */
  function Who(k: nat): (p: nat)
    ensures p < 3
  {
    k % 3
  }

  lemma {:induction false} TurnPasses(k: nat)
    ensures Who(k + 1) != Who(k)
  {
  }

  function Turns(p: nat, k: nat): nat
  {
    if k == 0 then 0 else if Who(k - 1) == p then Turns(p, k - 1) + 1 else Turns(p, k - 1)
  }

  /** Among three blocks in a row each operation has its turn once. */
  lemma {:induction false} OneInThree(p: nat, k: nat)
    requires p < 3
    ensures Who(k + 3) == Who(k)
    ensures p == Who(k) ==> p != Who(k + 1) && p != Who(k + 2)
    ensures p == Who(k) || p == Who(k + 1) || p == Who(k + 2)
    ensures Who(k + 1) != Who(k + 2)
  {
  }

  lemma {:induction false} TurnsOfThree(p: nat, k: nat)
    requires p < 3
    ensures Turns(p, k + 3) == Turns(p, k) + 1
  {
    OneInThree(p, k);
    hide Who;
    assert Turns(p, k + 3) == Turns(p, k + 2) + (if Who(k + 2) == p then 1 else 0);
    assert Turns(p, k + 2) == Turns(p, k + 1) + (if Who(k + 1) == p then 1 else 0);
    assert Turns(p, k + 1) == Turns(p, k) + (if Who(k) == p then 1 else 0);
  }

  lemma {:induction false} TurnsBound(k: nat)
    ensures 3 * Turns(Who(k), k) <= k
  {
    if k >= 3 {
      TurnsBound(k - 3);
      OneInThree(Who(k), k - 3);
      TurnsOfThree(Who(k), k - 3);
    } else {
      assert Who(0) == 0 && Who(1) == 1 && Who(2) == 2;
    }
  }

  lemma {:induction false} TurnsLeft(k: nat)
    requires k < LOGSIZE
    ensures Turns(Who(k), k) < MAXOPBLOCKS
  {
    TurnsBound(k);
  }

  /** The blocks below k that are operation p's turn. */
  function Turn(p: nat, k: nat): (r: set<uint32>)
    requires k <= LOGSIZE
    ensures forall x :: x in r ==> x < k
    ensures |r| == Turns(p, k)
  {
    if k == 0 then {} else if Who(k - 1) == p then Turn(p, k - 1) + {k - 1} else Turn(p, k - 1)
  }

  function Share(p: nat, k: nat): Phase
    requires k <= LOGSIZE
  {
    Open(Turn(p, k), Turns(p, k))
  }

  function UpTo(k: nat): (r: seq<uint32>)
    requires k <= LOGSIZE
    ensures |r| == k && forall i :: 0 <= i < k ==> r[i] == i
  {
    if k == 0 then [] else UpTo(k - 1) + [k - 1]
  }

  function Shares(n: nat, k: nat): (r: seq<Phase>)
    requires n >= 3 && k <= LOGSIZE
    ensures |r| == n && forall i :: 0 <= i < n ==> r[i] == if i < 3 then Share(i, k) else Outside
  {
    seq(n, i requires 0 <= i => if i < 3 then Share(i, k) else Outside)
  }

  /** Three open operations that have logged blocks 0 to k - 1 between them. */
  function Filled(n: nat, k: nat): State
    requires n >= 3 && k <= LOGSIZE
  {
    State(Shares(n, k), 3, false, UpTo(k), false)
  }

  lemma {:induction false} Then(cfg: Config, s: State, actions: seq<Action>, a: Action) returns (more: seq<Action>)
    ensures more == actions + [a] && Run(cfg, s, more) == Act(cfg, Run(cfg, s, actions), a)
  {
    more := actions + [a];
    assert more[..|actions|] == actions;
  }

  lemma {:induction false} ThreeOpen(cfg: Config, n: nat) returns (actions: seq<Action>)
    requires n >= 3
    ensures Run(cfg, Init(n), actions) == Filled(n, 0)
  {
    var s0 := Init(n);
    actions := [CallBegin(0)];
    var s1 := s0.(procs := s0.procs[0 := Trying]);
    assert actions[..0] == [];
    assert Run(cfg, s0, actions) == s1;
    actions := Then(cfg, s0, actions, TryBegin(0));
    actions := Then(cfg, s0, actions, CallBegin(1));
    actions := Then(cfg, s0, actions, TryBegin(1));
    actions := Then(cfg, s0, actions, CallBegin(2));
    actions := Then(cfg, s0, actions, TryBegin(2));
    assert Run(cfg, s0, actions).procs == Filled(n, 0).procs;
  }

  lemma {:induction false} ShareGrows(k: nat)
    requires k < LOGSIZE
    ensures var p := Who(k);
            var ph := Share(p, k);
            && ph.Open? && k !in ph.mine && |ph.mine + {k}| <= MAXOPBLOCKS && ph.calls < MAXOPBLOCKS
            && Share(p, k + 1) == Open(ph.mine + {k}, ph.calls + 1)
  {
    hide Who;
    TurnsLeft(k);
  }

  lemma {:induction false} ShareStays(q: nat, k: nat)
    requires k < LOGSIZE && q != Who(k)
    ensures Share(q, k + 1) == Share(q, k)
  {
    hide Who;
  }

  lemma {:induction false} SharesGrow(n: nat, k: nat)
    requires n >= 3 && k < LOGSIZE
    ensures Shares(n, k)[Who(k) := Share(Who(k), k + 1)] == Shares(n, k + 1)
    ensures Absorb(UpTo(k), k) == UpTo(k + 1)
  {
    hide Share, Turn, Who;
    forall q: nat | q < 3 && q != Who(k)
      ensures Share(q, k + 1) == Share(q, k)
    {
      ShareStays(q, k);
    }
  }

  lemma {:induction false} CheckAct(cfg: Config, s: State, p: nat, b: uint32)
    requires p < |s.procs| && !s.panicked && s.outstanding >= 1 && InBudget(cfg, s.procs[p], b)
    ensures var ph := s.procs[p];
            Act(cfg, s, LogWriteCheck(p, b)) ==
            if |s.blocks| >= LOGSIZE || |s.blocks| >= cfg.size - 1 then s.(panicked := true)
            else s.(procs := s.procs[p := Checked(ph.mine, ph.calls, b)])
  {
  }

  lemma {:induction false} AddAct(cfg: Config, s: State, p: nat)
    requires p < |s.procs| && !s.panicked && s.procs[p].Checked?
    ensures var ph := s.procs[p];
            Act(cfg, s, LogWriteAdd(p)) ==
            s.(procs := s.procs[p := Open(ph.mine + {ph.b}, ph.calls + 1)], blocks := Absorb(s.blocks, ph.b))
  {
  }

  lemma {:induction false} OneMore(cfg: Config, n: nat, k: nat)
    requires n >= 3 && k < cfg.size - 1 && k < LOGSIZE
    ensures Act(cfg, Act(cfg, Filled(n, k), LogWriteCheck(Who(k), k)), LogWriteAdd(Who(k))) == Filled(n, k + 1)
  {
    ShareGrows(k);
    SharesGrow(n, k);
    hide Share, Turn, Shares, UpTo, Act, Absorb, Who;
    CheckAct(cfg, Filled(n, k), Who(k), k);
    AddAct(cfg, Act(cfg, Filled(n, k), LogWriteCheck(Who(k), k)), Who(k));
  }

  lemma {:induction false} Fill(cfg: Config, n: nat, k: nat) returns (actions: seq<Action>)
    requires n >= 3 && k <= LOGSIZE && (k == 0 || k <= cfg.size - 1)
    ensures Run(cfg, Init(n), actions) == Filled(n, k)
    decreases k
  {
    hide Filled, Act, Run, Who;
    if k == 0 {
      actions := ThreeOpen(cfg, n);
    } else {
      actions := Fill(cfg, n, k - 1);
      OneMore(cfg, n, k - 1);
      actions := Then(cfg, Init(n), actions, LogWriteCheck(Who(k - 1), k - 1));
      actions := Then(cfg, Init(n), actions, LogWriteAdd(Who(k - 1)));
    }
  }

  lemma {:induction false} RelogPanics(cfg: Config, n: nat)
    requires n >= 3 && !cfg.frugal
    ensures Act(cfg, Filled(n, LOGSIZE), LogWriteCheck(2, LOGSIZE - 1)).panicked
  {
    var k: uint32 := LOGSIZE - 1;
    assert Who(k) == 2;
    ShareGrows(k);
    hide Turn, Share, Shares, UpTo, Act, Who;
    assert Share(2, LOGSIZE).mine + {k} == Share(2, LOGSIZE).mine;
    CheckAct(cfg, Filled(n, LOGSIZE), 2, k);
  }

  lemma {:induction false} NextPanics(cfg: Config, n: nat, k: nat)
    requires n >= 3 && k >= cfg.size - 1 && k < LOGSIZE
    ensures Act(cfg, Filled(n, k), LogWriteCheck(Who(k), k)).panicked
  {
    hide Turn, Share, Shares, UpTo, Act, Who;
    ShareGrows(k);
    CheckAct(cfg, Filled(n, k), Who(k), k);
  }

  /** The three operations end one after the other, and the last one commits. */
  lemma {:induction false} AllEnd(cfg: Config, n: nat, actions: seq<Action>, k: nat) returns (more: seq<Action>)
    requires n >= 3 && k <= LOGSIZE && Run(cfg, Init(n), actions) == Filled(n, k)
    ensures var s := Run(cfg, Init(n), more);
            !s.panicked && s.committing && s.blocks == UpTo(k) && |s.procs| == n && s.procs[2] == Commits
  {
    hide Turn, UpTo;
    more := Then(cfg, Init(n), actions, EndOp(0));
    more := Then(cfg, Init(n), more, EndOp(1));
    more := Then(cfg, Init(n), more, EndOp(2));
  }

  /** With as many blocks listed as there are buffers, commit finds none for the log block. */
  lemma {:induction false} CommitPanics(cfg: Config, n: nat) returns (actions: seq<Action>)
    requires n >= 3 && cfg.size > LOGSIZE && cfg.nbuf <= LOGSIZE
    ensures Run(cfg, Init(n), actions).panicked
  {
    hide Filled;
    actions := Fill(cfg, n, LOGSIZE);
    actions := AllEnd(cfg, n, actions, LOGSIZE);
    actions := Then(cfg, Init(n), actions, CommitReturns(2));
  }

  /** With too small a log, too few buffers, or operations that log a block again, a panic can be reached. */
  lemma {:induction false} CanPanic(cfg: Config, n: nat) returns (actions: seq<Action>)
    requires n >= 3 && !(cfg.frugal && cfg.size > LOGSIZE && cfg.nbuf > LOGSIZE)
    ensures Run(cfg, Init(n), actions).panicked
  {
    hide Filled, Act, Run, Who;
    if cfg.size <= LOGSIZE {
      var k := if cfg.size == 0 then 0 else cfg.size - 1;
      actions := Fill(cfg, n, k);
      NextPanics(cfg, n, k);
      actions := Then(cfg, Init(n), actions, LogWriteCheck(Who(k), k));
    } else if cfg.nbuf <= LOGSIZE {
      actions := CommitPanics(cfg, n);
    } else {
      actions := Fill(cfg, n, LOGSIZE);
      RelogPanics(cfg, n);
      actions := Then(cfg, Init(n), actions, LogWriteCheck(2, LOGSIZE - 1));
    }
  }

  /**
   Operations of at most MAXOPBLOCKS blocks each can never be stopped by the panics of log_write,
   end_op and commit exactly when the log has more than LOGSIZE blocks, the cache has more than
   LOGSIZE buffers and each operation calls log_write at most MAXOPBLOCKS times, not just for
   that many blocks.
   */
  lemma {:induction false} PanicFreeExactly(cfg: Config, n: nat)
    requires n >= 3
    ensures (forall actions :: !Run(cfg, Init(n), actions).panicked)
            <==> cfg.frugal && cfg.size > LOGSIZE && cfg.nbuf > LOGSIZE
  {
    if cfg.frugal && cfg.size > LOGSIZE && cfg.nbuf > LOGSIZE {
      forall actions
        ensures !Run(cfg, Init(n), actions).panicked
      {
        NoPanic(cfg, n, actions);
      }
    } else {
      var actions := CanPanic(cfg, n);
    }
  }

  /** With the kernel's NBUF, which is LOGSIZE, no log size and no discipline of the operations is enough. */
  lemma {:induction false} NeverPanicFree(cfg: Config, n: nat)
    requires n >= 3 && cfg.nbuf == BufferCache.NBUF
    ensures exists actions :: Run(cfg, Init(n), actions).panicked
  {
    var actions := CanPanic(cfg, n);
  }

  // ---- When the list fits the log --------------------------------------------------------

  /** Two operations pass the test in the same state, and then both add their block. */
  lemma {:induction false} BothAdd(cfg: Config, s: State, p: nat, b: uint32, q: nat, c: uint32)
    requires p < |s.procs| && q < |s.procs| && p != q && !s.panicked && s.outstanding >= 1
    requires InBudget(cfg, s.procs[p], b) && InBudget(cfg, s.procs[q], c)
    requires |s.blocks| < LOGSIZE && |s.blocks| < cfg.size - 1
    ensures var s2 := Act(cfg, Act(cfg, s, LogWriteCheck(p, b)), LogWriteCheck(q, c));
            var t := Act(cfg, Act(cfg, s2, LogWriteAdd(p)), LogWriteAdd(q));
            var ph, qh := s.procs[p], s.procs[q];
            t == s.(procs := s.procs[p := Open(ph.mine + {b}, ph.calls + 1)][q := Open(qh.mine + {c}, qh.calls + 1)],
                    blocks := Absorb(Absorb(s.blocks, b), c))
  {
    assert s.procs[p].Open? && s.procs[q].Open?;
    hide Act, Absorb, InBudget;
    CheckAct(cfg, s, p, b);
    var s1 := Act(cfg, s, LogWriteCheck(p, b));
    assert s1.procs[q] == s.procs[q];
    CheckAct(cfg, s1, q, c);
    var s2 := Act(cfg, s1, LogWriteCheck(q, c));
    AddAct(cfg, s2, p);
    var s3 := Act(cfg, s2, LogWriteAdd(p));
    AddAct(cfg, s3, q);
    var t := Act(cfg, s3, LogWriteAdd(q));
    var ph, qh := s.procs[p], s.procs[q];
    assert t.procs == s.procs[p := Open(ph.mine + {b}, ph.calls + 1)][q := Open(qh.mine + {c}, qh.calls + 1)];
  }

  lemma {:induction false} InTurn(cfg: Config, n: nat, k: nat)
    requires n >= 3 && k < LOGSIZE
    ensures InBudget(cfg, Filled(n, k).procs[Who(k)], k)
    ensures k + 1 < LOGSIZE ==> InBudget(cfg, Filled(n, k).procs[Who(k + 1)], k + 1)
    ensures Absorb(UpTo(k), k) == UpTo(k + 1)
  {
    hide Share, Turn, Who, Absorb, UpTo;
    ShareGrows(k);
    SharesGrow(n, k);
    if k + 1 < LOGSIZE {
      TurnPasses(k);
      ShareStays(Who(k + 1), k);
      ShareGrows(k + 1);
    }
  }

  lemma {:induction false} TwoMore(cfg: Config, n: nat, k: nat)
    requires n >= 3 && k < cfg.size - 1 && k + 2 <= LOGSIZE
    ensures var p, q := Who(k), Who(k + 1);
            var s := Act(cfg, Act(cfg, Filled(n, k), LogWriteCheck(p, k)), LogWriteCheck(q, k + 1));
            Act(cfg, Act(cfg, s, LogWriteAdd(p)), LogWriteAdd(q)) == Filled(n, k + 2)
  {
    hide Act, Absorb, Shares, UpTo, InBudget, Who, Share, Turn;
    TurnPasses(k);
    InTurn(cfg, n, k);
    InTurn(cfg, n, k + 1);
    BothAdd(cfg, Filled(n, k), Who(k), k, Who(k + 1), k + 1);
    ShareGrows(k);
    SharesGrow(n, k);
    ShareStays(Who(k + 1), k);
    ShareGrows(k + 1);
    SharesGrow(n, k + 1);
  }

  lemma {:induction false} FilledFacts(n: nat, k: nat)
    requires n >= 3 && k <= LOGSIZE
    ensures !Filled(n, k).panicked && |Filled(n, k).blocks| == k
  {
  }

  lemma {:induction false} FillBeyond(cfg: Config, n: nat) returns (actions: seq<Action>)
    requires n >= 3 && 2 <= cfg.size <= LOGSIZE
    ensures Run(cfg, Init(n), actions) == Filled(n, cfg.size)
  {
    hide Filled, Act, Run, Who;
    var k := cfg.size - 2;
    actions := Fill(cfg, n, k);
    TwoMore(cfg, n, k);
    actions := Then(cfg, Init(n), actions, LogWriteCheck(Who(k), k));
    actions := Then(cfg, Init(n), actions, LogWriteCheck(Who(k + 1), k + 1));
    actions := Then(cfg, Init(n), actions, LogWriteAdd(Who(k)));
    actions := Then(cfg, Init(n), actions, LogWriteAdd(Who(k + 1)));
  }

  /** A log of at most LOGSIZE blocks can be asked to hold as many blocks as it has, header included. */
  lemma {:induction false} Overrun(cfg: Config, n: nat) returns (actions: seq<Action>)
    requires n >= 3 && 2 <= cfg.size <= LOGSIZE
    ensures !Run(cfg, Init(n), actions).panicked && |Run(cfg, Init(n), actions).blocks| == cfg.size
  {
    hide Filled, Act, Run;
    actions := FillBeyond(cfg, n);
    FilledFacts(n, cfg.size);
  }

  ghost predicate NothingToList(s: State) {
    s.blocks == [] && forall p :: 0 <= p < |s.procs| ==> !s.procs[p].Checked?
  }

  lemma {:induction false} ActListsNothing(cfg: Config, s: State, a: Action)
    requires cfg.size <= 1 && NothingToList(s)
    ensures NothingToList(Act(cfg, s, a))
  {
    hide MustWait, InBudget;
  }

  /** With only the header block every log_write panics, so nothing is ever listed. */
  lemma {:induction false} NothingListed(cfg: Config, n: nat, actions: seq<Action>)
    requires cfg.size <= 1
    ensures NothingToList(Run(cfg, Init(n), actions))
    decreases |actions|
  {
    if actions != [] {
      var init := actions[..|actions| - 1];
      NothingListed(cfg, n, init);
      ActListsNothing(cfg, Run(cfg, Init(n), init), actions[|actions| - 1]);
      hide Act;
    }
  }

  /**
   In every interleaving the listed blocks and the header fit the log, exactly when the log has
   more than LOGSIZE blocks or nothing but its header. The test in log_write does not see to it,
   because it is made before log.lock is taken.
   */
  lemma {:induction false} FitsExactly(cfg: Config, n: nat)
    requires n >= 3
    ensures (forall actions :: |Run(cfg, Init(n), actions).blocks| + 1 <= cfg.size)
            <==> cfg.size > LOGSIZE || cfg.size == 1
  {
    if cfg.size > LOGSIZE {
      forall actions
        ensures |Run(cfg, Init(n), actions).blocks| + 1 <= cfg.size
      {
        ListIsShort(cfg, n, actions);
      }
    } else if cfg.size == 1 {
      forall actions
        ensures |Run(cfg, Init(n), actions).blocks| + 1 <= cfg.size
      {
        NothingListed(cfg, n, actions);
      }
    } else if cfg.size == 0 {
      assert |Run(cfg, Init(n), []).blocks| + 1 > cfg.size;
    } else {
      var actions := Overrun(cfg, n);
      assert |Run(cfg, Init(n), actions).blocks| + 1 > cfg.size;
    }
  }

  /** A commit is under way that writes: it has blocks to write, and a buffer for its log blocks. */
  predicate Writing(cfg: Config, s: State) {
    s.committing && s.blocks != [] && |s.blocks| < cfg.nbuf
  }

  /** Every commit that writes anything writes within the log. */
  predicate Harmless(cfg: Config) {
    cfg.size > LOGSIZE || cfg.size <= 1 || cfg.nbuf <= cfg.size
  }

  lemma {:induction false} WritesWithin(cfg: Config, s: State)
    requires Inv(s) && Harmless(cfg) && Writing(cfg, s) && (cfg.size <= 1 ==> NothingToList(s))
    ensures |s.blocks| + 1 <= cfg.size
  {
    ShortList(s);
  }

  /** A list as long as the log, all operations ended, and a buffer left: commit writes behind the log. */
  lemma {:induction false} WritesBehind(cfg: Config, n: nat) returns (actions: seq<Action>)
    requires n >= 3 && !Harmless(cfg)
    ensures Writing(cfg, Run(cfg, Init(n), actions)) && |Run(cfg, Init(n), actions).blocks| == cfg.size
  {
    hide Filled, Act, Run;
    actions := FillBeyond(cfg, n);
    actions := AllEnd(cfg, n, actions, cfg.size);
  }

  /**
   In every interleaving each commit that gets past its buffers has a list that fits the log, exactly
   when the log has more than LOGSIZE blocks, or at most its header, or at least as many blocks as there are buffers.
   */
  lemma {:induction false} CommitFitsExactly(cfg: Config, n: nat)
    requires n >= 3
    ensures (forall actions :: Writing(cfg, Run(cfg, Init(n), actions)) ==>
              |Run(cfg, Init(n), actions).blocks| + 1 <= cfg.size)
            <==> cfg.size > LOGSIZE || cfg.size <= 1 || cfg.nbuf <= cfg.size
  {
    if Harmless(cfg) {
      forall actions | Writing(cfg, Run(cfg, Init(n), actions))
        ensures |Run(cfg, Init(n), actions).blocks| + 1 <= cfg.size
      {
        RunKeepsInv(cfg, n, actions);
        if cfg.size <= 1 {
          NothingListed(cfg, n, actions);
        }
        WritesWithin(cfg, Run(cfg, Init(n), actions));
      }
    } else {
      var actions := WritesBehind(cfg, n);
      assert Writing(cfg, Run(cfg, Init(n), actions));
    }
  }
}

/**
 File system operations across crashes: the runs of GroupCommit with the block contents that
 operations log, joined to the disk of RedoLog. A crash anywhere keeps or loses operations whole.
 */
module Operations {
  import opened LittleEndian
  import opened RedoLog
  import opened LogLayer
  import opened GroupCommit

  /** One log_write: operation op leaves a block with these contents. */
  datatype Update = Update(op: nat, blockno: uint32, data: Block)

  /** A log state, the operation each process is in, the updates since the last commit, and the committed groups. */
  datatype World = World(s: State, ids: seq<nat>, next: nat, group: seq<Update>, groups: seq<seq<Update>>)

  /** An action, and for a log_write the contents of its block. */
  datatype Step = Step(a: Action, data: Block)

  function Start(n: nat): World {
    World(Init(n), seq(n, _ => 0), 0, [], [])
  }

  /** One action: begin_op numbers the operation, log_write records an update, commit closes the group. */
  function Do(cfg: Config, w: World, step: Step): World {
    var s := Act(cfg, w.s, step.a);
    var p := step.a.p;
    if s.panicked || p >= |w.s.procs| || p >= |w.ids| then w.(s := s)
    else if step.a.TryBegin? && s.outstanding > w.s.outstanding then
      w.(s := s, ids := w.ids[p := w.next], next := w.next + 1)
    else if step.a.LogWriteAdd? && w.s.procs[p].Checked? then
      w.(s := s, group := w.group + [Update(w.ids[p], w.s.procs[p].b, step.data)])
    else if step.a.CommitReturns? && w.s.procs[p] == Commits then
      w.(s := s, group := [], groups := w.groups + [w.group])
    else w.(s := s)
  }

  function RunSteps(cfg: Config, w: World, steps: seq<Step>): World {
    if steps == [] then w else Do(cfg, RunSteps(cfg, w, steps[..|steps| - 1]), steps[|steps| - 1])
  }

  // ---- Updates as a transaction --------------------------------------------------------

  function Writes(us: seq<Update>): (r: seq<Write>)
    ensures |r| == |us|
  {
    seq(|us|, i requires 0 <= i < |us| => Write(us[i].blockno, us[i].data))
  }

  function Flat(groups: seq<seq<Update>>): seq<Update> {
    if groups == [] then [] else Flat(groups[..|groups| - 1]) + groups[|groups| - 1]
  }

  /** The list log_write builds for these updates. */
  function BlocksOf(us: seq<Update>): seq<uint32> {
    if us == [] then [] else Absorb(BlocksOf(us[..|us| - 1]), us[|us| - 1].blockno)
  }

  lemma {:induction false} BlocksOfMore(us: seq<Update>, u: Update)
    ensures BlocksOf(us + [u]) == Absorb(BlocksOf(us), u.blockno)
  {
    assert (us + [u])[..|us|] == us;
  }

  lemma {:induction false} BlocksOfListed(us: seq<Update>)
    ensures Distinct(BlocksOf(us))
    ensures forall i :: 0 <= i < |us| ==> us[i].blockno in BlocksOf(us)
  {
    if us != [] {
      var init := us[..|us| - 1];
      BlocksOfListed(init);
      forall i | 0 <= i < |us| - 1
        ensures us[i].blockno in BlocksOf(us)
      {
        assert init[i] == us[i];
      }
    }
  }

  /** A group the log can take. */
  ghost predicate GroupOk(us: seq<Update>, size: nat, area: Area) {
    Homes(BlocksOf(us), size, area) && |BlocksOf(us)| <= LOGSIZE && |BlocksOf(us)| + 1 <= area.size
  }

  /** What commit writes for a group when readers see d before it. */
  function TxOf(d: seq<Block>, us: seq<Update>): (tx: Tx)
    requires forall i :: 0 <= i < |BlocksOf(us)| ==> BlocksOf(us)[i] < |d|
    ensures |tx.blocks| == |tx.data| && tx.blocks == BlocksOf(us)
  {
    Tx(BlocksOf(us), ContentsOf(Apply(d, Writes(us)), BlocksOf(us)))
  }

  lemma {:induction false} GroupLoggable(d: seq<Block>, e: seq<Block>, area: Area, us: seq<Update>)
    requires GroupOk(us, |d|, area) && |e| == |d|
    ensures Loggable(e, area, TxOf(d, us))
  {
    BlocksOfListed(us);
  }

  /** The transaction has the effect of its updates, one after the other. */
  lemma {:induction false} TxIsUpdates(d: seq<Block>, area: Area, us: seq<Update>)
    requires GroupOk(us, |d|, area)
    ensures ApplyTx(d, TxOf(d, us)) == Apply(d, Writes(us))
  {
    GroupLoggable(d, d, area, us);
    BlocksOfListed(us);
    var tx, view := TxOf(d, us), Apply(d, Writes(us));
    forall b: nat | b < |d|
      ensures ApplyTx(d, tx)[b] == view[b]
    {
      hide Apply, Loggable, ApplyTx;
      TransactionEffect(d, area, tx, b);
      if i :| 0 <= i < |tx.blocks| && tx.blocks[i] == b {
        assert tx.data[i] == view[b];
      } else {
        ApplyFrame(d, Writes(us), b);
      }
    }
  }

  // ---- The disk after whole commits ------------------------------------------------------

  ghost predicate GroupsOk(groups: seq<seq<Update>>, size: nat, area: Area) {
    forall i :: 0 <= i < |groups| ==> GroupOk(groups[i], size, area)
  }

  /** What readers see after these groups. */
  function View(d: seq<Block>, groups: seq<seq<Update>>): (r: seq<Block>)
    ensures |r| == |d|
  {
    Apply(d, Writes(Flat(groups)))
  }

  lemma {:induction false} ViewMore(d: seq<Block>, groups: seq<seq<Update>>)
    requires groups != []
    ensures View(d, groups) == Apply(View(d, groups[..|groups| - 1]), Writes(groups[|groups| - 1]))
  {
    var init, last := groups[..|groups| - 1], groups[|groups| - 1];
    assert Writes(Flat(init) + last) == Writes(Flat(init)) + Writes(last);
    ApplyAppend(d, Writes(Flat(init)), Writes(last));
  }

  /** The disk after the block writes of one commit after the other. */
  function DiskAfter(d: seq<Block>, area: Area, groups: seq<seq<Update>>): (r: seq<Block>)
    requires WellFormed(d, area) && GroupsOk(groups, |d|, area)
    ensures |r| == |d|
    decreases |groups|
  {
    if groups == [] then d
    else
      var init, last := groups[..|groups| - 1], groups[|groups| - 1];
      var e := DiskAfter(d, area, init);
      var tx := TxOf(View(d, init), last);
      GroupLoggable(View(d, init), e, area, last);
      Apply(e, CommitWrites(e, area, tx))
  }

  lemma {:induction false} DiskSettled(d: seq<Block>, area: Area, groups: seq<seq<Update>>)
    requires Settled(d, area, d) && GroupsOk(groups, |d|, area)
    ensures Settled(DiskAfter(d, area, groups), area, View(d, groups))
    decreases |groups|
  {
    if groups != [] {
      var init, last := groups[..|groups| - 1], groups[|groups| - 1];
      DiskSettled(d, area, init);
      hide Settled, Apply, CommitWrites, ApplyTx, GroupOk, Loggable;
      assert GroupOk(last, |d|, area);
      var e, v := DiskAfter(d, area, init), View(d, init);
      GroupLoggable(v, e, area, last);
      CommitSettles(e, area, v, TxOf(v, last));
      TxIsUpdates(v, area, last);
      ViewMore(d, groups);
    }
  }

  // ---- What every run keeps -----------------------------------------------------------------

  ghost predicate Made(op: nat, us: seq<Update>) {
    exists i :: 0 <= i < |us| && us[i].op == op
  }

  lemma {:induction false} MadeMore(a: seq<Update>, b: seq<Update>)
    ensures forall op: nat :: Made(op, a + b) <==> Made(op, a) || Made(op, b)
  {
    forall op: nat | Made(op, a)
      ensures Made(op, a + b)
    {
      var i :| 0 <= i < |a| && a[i].op == op;
      assert (a + b)[i].op == op;
    }
    forall op: nat | Made(op, b)
      ensures Made(op, a + b)
    {
      var i :| 0 <= i < |b| && b[i].op == op;
      assert (a + b)[|a| + i].op == op;
    }
  }

  lemma {:induction false} FlatMore(groups: seq<seq<Update>>, group: seq<Update>)
    ensures Flat(groups + [group]) == Flat(groups) + group
  {
    assert (groups + [group])[..|groups|] == groups;
  }

  /** Operations are numbered apart, and those open or in the open group have nothing in a committed group. */
  ghost predicate NumbersOk(w: World) {
    && |w.ids| == |w.s.procs|
    && (forall op: nat :: Made(op, w.group) ==> op < w.next && !Made(op, Flat(w.groups)))
    && (forall op: nat :: Made(op, Flat(w.groups)) ==> op < w.next)
    && (forall p :: 0 <= p < |w.ids| && InOp(w.s.procs[p]) == 1 ==>
          w.ids[p] < w.next && !Made(w.ids[p], Flat(w.groups)))
  }

  ghost predicate Home(b: uint32, size: nat, area: Area) { b < size && !area.Holds(b) }

  ghost predicate WorldInv(cfg: Config, w: World, size: nat, area: Area) {
    && Inv(w.s) && NumbersOk(w) && (cfg.size <= 1 ==> NothingToList(w.s))
    && w.s.blocks == BlocksOf(w.group) && Homes(w.s.blocks, size, area)
    && GroupsOk(w.groups, size, area)
    && forall p :: 0 <= p < |w.s.procs| && w.s.procs[p].Checked? ==> Home(w.s.procs[p].b, size, area)
  }

  /** What an action leaves alone, as far as operations and their updates are concerned. */
  lemma {:induction false} ActFrame(cfg: Config, s: State, a: Action)
    ensures var t := Act(cfg, s, a);
            && |t.procs| == |s.procs|
            && (forall q :: 0 <= q < |s.procs| && InOp(t.procs[q]) == 1 ==>
                  InOp(s.procs[q]) == 1 || (a.TryBegin? && q == a.p && t.outstanding > s.outstanding && !t.panicked))
            && (forall q :: 0 <= q < |s.procs| && t.procs[q].Checked? ==>
                  s.procs[q] == t.procs[q] || (a.LogWriteCheck? && t.procs[q].b == a.b))
  {
    hide MustWait, Absorb;
  }

  lemma {:induction false} ActBlocks(cfg: Config, s: State, a: Action)
    ensures var t := Act(cfg, s, a);
            if s.panicked || t.panicked || a.p >= |s.procs| then t.blocks == s.blocks
            else if a.LogWriteAdd? && s.procs[a.p].Checked? then t.blocks == Absorb(s.blocks, s.procs[a.p].b)
            else if a.CommitReturns? && s.procs[a.p] == Commits then t.blocks == []
            else t.blocks == s.blocks
    ensures s.panicked ==> Act(cfg, s, a) == s
  {
    hide MustWait, InBudget, Absorb;
  }

  lemma {:induction false} AddKeepsNumbers(w: World, s: State, p: nat, u: Update)
    requires NumbersOk(w) && p < |w.ids| && InOp(w.s.procs[p]) == 1 && u.op == w.ids[p]
    requires |s.procs| == |w.ids| && forall q :: 0 <= q < |w.ids| && InOp(s.procs[q]) == 1 ==> InOp(w.s.procs[q]) == 1
    ensures NumbersOk(w.(s := s, group := w.group + [u]))
  {
    MadeMore(w.group, [u]);
    assert forall op: nat :: Made(op, [u]) <==> op == u.op by { assert [u][0].op == u.op; }
    hide Made, Flat;
  }

  lemma {:induction false} CommitKeepsNumbers(w: World, s: State)
    requires NumbersOk(w) && |s.procs| == |w.ids|
    requires forall q :: 0 <= q < |w.ids| ==> InOp(s.procs[q]) == 0
    ensures NumbersOk(w.(s := s, group := [], groups := w.groups + [w.group]))
  {
    hide Made, Flat;
    FlatMore(w.groups, w.group);
    MadeMore(Flat(w.groups), w.group);
    forall op: nat
      ensures !Made(op, [])
    {
      NothingMade(op);
    }
  }

  lemma {:induction false} NothingMade(op: nat)
    ensures !Made(op, [])
  {
  }

  lemma {:induction false} DoKeepsNumbers(cfg: Config, w: World, step: Step)
    requires Inv(w.s) && NumbersOk(w)
    ensures NumbersOk(Do(cfg, w, step))
  {
    ActFrame(cfg, w.s, step.a);
    ActBlocks(cfg, w.s, step.a);
    var s := Act(cfg, w.s, step.a);
    var p := step.a.p;
    hide Act, Made, Flat, Inv;
    if !s.panicked && p < |w.ids| {
      if step.a.LogWriteAdd? && w.s.procs[p].Checked? {
        AddKeepsNumbers(w, s, p, Update(w.ids[p], w.s.procs[p].b, step.data));
      } else if step.a.CommitReturns? && w.s.procs[p] == Commits {
        NobodyInOp(w.s, p);
        CommitKeepsNumbers(w, s);
      }
    }
  }

  /** The list is what absorption makes of the open group. */
  lemma {:induction false} DoKeepsList(cfg: Config, w: World, step: Step, size: nat, area: Area)
    requires WorldInv(cfg, w, size, area)
    ensures var t := Do(cfg, w, step); t.s.blocks == BlocksOf(t.group) && Homes(t.s.blocks, size, area)
  {
    ActBlocks(cfg, w.s, step.a);
    EmptyList(size, area);
    NoBlocks();
    assert |w.ids| == |w.s.procs|;
    hide Act, Inv, NumbersOk, GroupsOk, Absorb, BlocksOf, Homes;
    var p := step.a.p;
    if p < |w.s.procs| && w.s.procs[p].Checked? {
      var b := w.s.procs[p].b;
      BlocksOfMore(w.group, Update(w.ids[p], b, step.data));
      AbsorbHomes(w.s.blocks, b, size, area);
    }
  }

  /** The log and the configuration are those of one kernel, and no commit of it writes behind the log. */
  predicate Suits(cfg: Config, area: Area) {
    cfg.size == area.size && area.size >= 1 && Harmless(cfg)
  }

  lemma {:induction false} CommitHadBuffers(cfg: Config, s: State, p: nat)
    requires Inv(s) && p < |s.procs| && s.procs[p] == Commits && !Act(cfg, s, CommitReturns(p)).panicked
    ensures s.blocks == [] || Writing(cfg, s)
  {
    NobodyInOp(s, p);
  }

  /** A commit that returns has written a group that fits the log. */
  lemma {:induction false} CommittedFits(cfg: Config, w: World, p: nat, size: nat, area: Area)
    requires WorldInv(cfg, w, size, area) && Suits(cfg, area)
    requires p < |w.s.procs| && w.s.procs[p] == Commits && !Act(cfg, w.s, CommitReturns(p)).panicked
    ensures GroupOk(w.group, size, area)
  {
    ShortList(w.s);
    CommitHadBuffers(cfg, w.s, p);
    hide Act, Inv, NumbersOk, BlocksOf, Homes;
    if w.s.blocks != [] {
      WritesWithin(cfg, w.s);
    }
  }

  lemma {:induction false} DoKeepsGroups(cfg: Config, w: World, step: Step, size: nat, area: Area)
    requires WorldInv(cfg, w, size, area) && Suits(cfg, area)
    ensures GroupsOk(Do(cfg, w, step).groups, size, area)
  {
    var p := step.a.p;
    if step.a.CommitReturns? && p < |w.s.procs| && w.s.procs[p] == Commits && !Act(cfg, w.s, step.a).panicked {
      CommittedFits(cfg, w, p, size, area);
    }
    hide Act, Inv, NumbersOk, GroupOk;
  }

  lemma {:induction false} DoKeepsInv(cfg: Config, w: World, step: Step, size: nat, area: Area)
    requires WorldInv(cfg, w, size, area) && Suits(cfg, area)
    requires step.a.LogWriteCheck? ==> Home(step.a.b, size, area)
    ensures WorldInv(cfg, Do(cfg, w, step), size, area)
  {
    DoKeepsNumbers(cfg, w, step);
    DoKeepsList(cfg, w, step, size, area);
    DoKeepsGroups(cfg, w, step, size, area);
    ActKeepsInv(cfg, w.s, step.a);
    ActFrame(cfg, w.s, step.a);
    if cfg.size <= 1 {
      ActListsNothing(cfg, w.s, step.a);
    }
    hide Act, Inv, NumbersOk, GroupsOk, BlocksOf, Homes, Home, NothingToList;
    assert Do(cfg, w, step).s == Act(cfg, w.s, step.a);
    hide Do;
  }

  lemma {:induction false} NoBlocks()
    ensures BlocksOf([]) == []
  {
  }

  /** Every log_write is for a block of the disk outside the log. */
  ghost predicate HomeSteps(steps: seq<Step>, size: nat, area: Area) {
    forall i :: 0 <= i < |steps| && steps[i].a.LogWriteCheck? ==> Home(steps[i].a.b, size, area)
  }

  lemma {:induction false} RunKeepsWorld(cfg: Config, n: nat, steps: seq<Step>, size: nat, area: Area)
    requires Suits(cfg, area) && HomeSteps(steps, size, area)
    ensures WorldInv(cfg, RunSteps(cfg, Start(n), steps), size, area)
    decreases |steps|
  {
    if steps == [] {
      InitInv(n);
      assert forall op: nat :: !Made(op, []);
    } else {
      RunKeepsWorld(cfg, n, steps[..|steps| - 1], size, area);
      hide WorldInv, Do;
      DoKeepsInv(cfg, RunSteps(cfg, Start(n), steps[..|steps| - 1]), steps[|steps| - 1], size, area);
    }
  }

  // ---- Operations survive whole or not at all ------------------------------------------------

  /** The updates of one operation, in order. */
  function Of(op: nat, us: seq<Update>): seq<Update> {
    if us == [] then []
    else if us[|us| - 1].op == op then Of(op, us[..|us| - 1]) + [us[|us| - 1]]
    else Of(op, us[..|us| - 1])
  }

  lemma {:induction false} OfNone(op: nat, us: seq<Update>)
    requires !Made(op, us)
    ensures Of(op, us) == []
  {
    if us != [] {
      var init := us[..|us| - 1];
      forall i | 0 <= i < |init|
        ensures init[i].op != op
      {
        assert init[i] == us[i];
      }
      OfNone(op, init);
    }
  }

  lemma {:induction false} OfMore(op: nat, a: seq<Update>, b: seq<Update>)
    ensures Of(op, a + b) == Of(op, a) + Of(op, b)
  {
    if b == [] {
      assert a + b == a;
    } else {
      var init := b[..|b| - 1];
      OfMore(op, a, init);
      assert (a + b)[..|a + b| - 1] == a + init;
    }
  }

  /** The groups a crash keeps: those committed, and the one being committed if its header was written. */
  function Kept(cfg: Config, w: World, k: nat): seq<seq<Update>> {
    if Writing(cfg, w.s) && k > |w.s.blocks| then w.groups + [w.group] else w.groups
  }

  lemma {:induction false} OpenGroupOk(cfg: Config, w: World, size: nat, area: Area)
    requires WorldInv(cfg, w, size, area) && Suits(cfg, area) && Writing(cfg, w.s)
    ensures GroupOk(w.group, size, area)
  {
    ShortList(w.s);
    WritesWithin(cfg, w.s);
  }

  /**
   The disk when the machine stops in this state, after k block writes of a commit if one is writing.
   A commit that finds no buffer panics before its first write.
   */
  function CrashDisk(cfg: Config, d: seq<Block>, area: Area, w: World, k: nat): seq<Block>
    requires WellFormed(d, area) && WorldInv(cfg, w, |d|, area) && Suits(cfg, area)
  {
    var e, v := DiskAfter(d, area, w.groups), View(d, w.groups);
    if !Writing(cfg, w.s) then e
    else
      OpenGroupOk(cfg, w, |d|, area);
      GroupLoggable(v, e, area, w.group);
      Stopped(e, CommitWrites(e, area, TxOf(v, w.group)), k)
  }

  /** The commit of one more group, stopped after k writes, keeps it exactly from the header write on. */
  lemma {:induction false} GroupSurvives(d: seq<Block>, area: Area, groups: seq<seq<Update>>, group: seq<Update>,
                                         k: nat, ks: seq<nat>)
    requires Settled(d, area, d) && GroupsOk(groups, |d|, area) && GroupOk(group, |d|, area)
    ensures var e, v := DiskAfter(d, area, groups), View(d, groups);
            && Loggable(e, area, TxOf(v, group))
            && RecoversTo(Stopped(e, CommitWrites(e, area, TxOf(v, group)), k), area, ks,
                          View(d, if k > |BlocksOf(group)| then groups + [group] else groups))
  {
    assert WellFormed(d, area);
    hide Settled, RecoversTo, Apply, ApplyTx, CommitWrites, Stopped, Loggable, GroupOk, GroupsOk, BlocksOf;
    DiskSettled(d, area, groups);
    var e, v := DiskAfter(d, area, groups), View(d, groups);
    GroupLoggable(v, e, area, group);
    CrashAtomicity(e, area, v, TxOf(v, group), k, ks);
    TxIsUpdates(v, area, group);
    ViewMore(d, groups + [group]);
    assert (groups + [group])[..|groups|] == groups;
  }

  lemma {:induction false} CrashKeeps(cfg: Config, d: seq<Block>, area: Area, w: World, k: nat, ks: seq<nat>)
    requires Settled(d, area, d) && WorldInv(cfg, w, |d|, area) && Suits(cfg, area)
    ensures RecoversTo(CrashDisk(cfg, d, area, w, k), area, ks, View(d, Kept(cfg, w, k)))
  {
    assert WellFormed(d, area);
    hide Settled, RecoversTo, Stopped, CommitWrites, DiskAfter, View, Loggable, NumbersOk, Inv, Homes, GroupOk,
         GroupsOk;
    if Writing(cfg, w.s) {
      OpenGroupOk(cfg, w, |d|, area);
      GroupSurvives(d, area, w.groups, w.group, k, ks);
    } else {
      DiskSettled(d, area, w.groups);
      SettledRecovers(DiskAfter(d, area, w.groups), area, View(d, w.groups), ks);
    }
  }

  lemma {:induction false} WholeOrNothing(cfg: Config, w: World, k: nat, op: nat)
    requires NumbersOk(w)
    ensures var kept := Of(op, Flat(Kept(cfg, w, k)));
            kept == Of(op, Flat(w.groups + [w.group])) || kept == []
  {
    FlatMore(w.groups, w.group);
    OfMore(op, Flat(w.groups), w.group);
    if Made(op, w.group) {
      OfNone(op, Flat(w.groups));
    } else {
      OfNone(op, w.group);
    }
  }

  /**
   In every interleaving of any number of processes, whenever the machine stops, after any number
   of interrupted recoveries and one that completes: the disk outside the log holds all updates of
   the kept groups in order and nothing else; every operation has all of its updates among them or
   none; an operation that is still open has none.
   */
  lemma {:induction false} OperationAtomicity(cfg: Config, n: nat, area: Area, d: seq<Block>, steps: seq<Step>,
                                              k: nat, ks: seq<nat>)
    requires Settled(d, area, d) && Suits(cfg, area) && HomeSteps(steps, |d|, area)
    ensures var w := RunSteps(cfg, Start(n), steps);
            && WorldInv(cfg, w, |d|, area)
            && RecoversTo(CrashDisk(cfg, d, area, w, k), area, ks, View(d, Kept(cfg, w, k)))
            && (forall op: nat :: Of(op, Flat(Kept(cfg, w, k))) == Of(op, Flat(w.groups + [w.group]))
                                  || Of(op, Flat(Kept(cfg, w, k))) == [])
            && (forall p :: 0 <= p < |w.ids| && InOp(w.s.procs[p]) == 1 ==> Of(w.ids[p], Flat(Kept(cfg, w, k))) == [])
  {
    RunKeepsWorld(cfg, n, steps, |d|, area);
    var w := RunSteps(cfg, Start(n), steps);
    hide RunSteps, Settled, RecoversTo, CrashDisk, View, HomeSteps, Suits;
    CrashKeeps(cfg, d, area, w, k, ks);
    assert Inv(w.s) && NumbersOk(w);
    hide WorldInv, Inv, NumbersOk, Of, Flat, Kept, InOp;
    forall op: nat
      ensures Of(op, Flat(Kept(cfg, w, k))) == Of(op, Flat(w.groups + [w.group])) || Of(op, Flat(Kept(cfg, w, k))) == []
    {
      WholeOrNothing(cfg, w, k, op);
    }
    forall p | 0 <= p < |w.ids| && InOp(w.s.procs[p]) == 1
      ensures Of(w.ids[p], Flat(Kept(cfg, w, k))) == []
    {
      OpenIsLost(cfg, w, k, p);
    }
  }

  lemma {:induction false} OpenIsLost(cfg: Config, w: World, k: nat, p: nat)
    requires Inv(w.s) && NumbersOk(w) && p < |w.ids| && InOp(w.s.procs[p]) == 1
    ensures Of(w.ids[p], Flat(Kept(cfg, w, k))) == []
  {
    SumAtLeast(w.s.procs, p, InOp);
    OfNone(w.ids[p], Flat(w.groups));
  }

  // ---- What the run has logged, and what of it is safe --------------------------------------

  function ActionsOf(steps: seq<Step>): (r: seq<Action>)
    ensures |r| == |steps|
  {
    seq(|steps|, i requires 0 <= i < |steps| => steps[i].a)
  }

  /** The log after these steps of n processes. */
  function LogAfter(cfg: Config, n: nat, steps: seq<Step>): State { Run(cfg, Init(n), ActionsOf(steps)) }

  /** The phase of process p, if there is one and the kernel has not panicked. */
  function PhaseIn(s: State, p: nat): Phase { if p < |s.procs| && !s.panicked then s.procs[p] else Outside }

  /** Where the process of the last step was before it, and where it is after it. */
  function Was(cfg: Config, n: nat, steps: seq<Step>): Phase
    requires steps != []
  {
    PhaseIn(LogAfter(cfg, n, steps[..|steps| - 1]), steps[|steps| - 1].a.p)
  }

  function Is(cfg: Config, n: nat, steps: seq<Step>): Phase
    requires steps != []
  {
    PhaseIn(LogAfter(cfg, n, steps), steps[|steps| - 1].a.p)
  }

  predicate Begins(cfg: Config, n: nat, steps: seq<Step>)
    requires steps != []
  {
    Was(cfg, n, steps) == Trying && Is(cfg, n, steps).Open?
  }

  predicate Logs(cfg: Config, n: nat, steps: seq<Step>)
    requires steps != []
  {
    Was(cfg, n, steps).Checked? && Is(cfg, n, steps).Open?
  }

  predicate CommitEnds(cfg: Config, n: nat, steps: seq<Step>)
    requires steps != []
  {
    Was(cfg, n, steps) == Commits && Is(cfg, n, steps) == Committed
  }

  /** How many operations have begun. */
  function Begun(cfg: Config, n: nat, steps: seq<Step>): nat {
    if steps == [] then 0 else Begun(cfg, n, steps[..|steps| - 1]) + if Begins(cfg, n, steps) then 1 else 0
  }

  /** The operation that p has begun last: how many had begun before it. */
  function OpOf(cfg: Config, n: nat, steps: seq<Step>, p: nat): nat {
    if steps == [] then 0
    else
      var init := steps[..|steps| - 1];
      if Begins(cfg, n, steps) && steps[|steps| - 1].a.p == p then Begun(cfg, n, init) else OpOf(cfg, n, init, p)
  }

  /** All log_writes of the run, in order. */
  function History(cfg: Config, n: nat, steps: seq<Step>): seq<Update> {
    if steps == [] then []
    else
      var init, last := steps[..|steps| - 1], steps[|steps| - 1];
      History(cfg, n, init)
      + if Logs(cfg, n, steps) then [Update(OpOf(cfg, n, init, last.a.p), Was(cfg, n, steps).b, last.data)] else []
  }

  /** Those made before the last commit that has returned. */
  function Saved(cfg: Config, n: nat, steps: seq<Step>): seq<Update> {
    if steps == [] then []
    else if CommitEnds(cfg, n, steps) then History(cfg, n, steps)
    else Saved(cfg, n, steps[..|steps| - 1])
  }

  lemma {:induction false} LogAfterMore(cfg: Config, n: nat, steps: seq<Step>)
    requires steps != []
    ensures LogAfter(cfg, n, steps) == Act(cfg, LogAfter(cfg, n, steps[..|steps| - 1]), steps[|steps| - 1].a)
  {
    hide Act;
    assert ActionsOf(steps)[..|steps| - 1] == ActionsOf(steps[..|steps| - 1]);
  }

  /** Which steps of the machine move a process so. */
  lemma {:induction false} StepKinds(cfg: Config, s: State, a: Action)
    requires a.p < |s.procs| && !Act(cfg, s, a).panicked
    ensures var t := Act(cfg, s, a);
            && |t.procs| == |s.procs| && !s.panicked
            && (s.procs[a.p] == Trying && t.procs[a.p].Open? <==> a.TryBegin? && t.outstanding > s.outstanding)
            && (s.procs[a.p].Checked? && t.procs[a.p].Open? <==> a.LogWriteAdd? && s.procs[a.p].Checked?)
            && (s.procs[a.p] == Commits && t.procs[a.p] == Committed
                <==> a.CommitReturns? && s.procs[a.p] == Commits)
  {
    hide MustWait, Absorb;
  }

  /** The state of the run and what has been logged and saved, step by step. */
  ghost predicate Recorded(cfg: Config, n: nat, steps: seq<Step>, w: World) {
    && w.s == LogAfter(cfg, n, steps) && |w.ids| == |w.s.procs| == n && w.next == Begun(cfg, n, steps)
    && (forall p: nat :: p < n ==> w.ids[p] == OpOf(cfg, n, steps, p))
    && Flat(w.groups) + w.group == History(cfg, n, steps) && Flat(w.groups) == Saved(cfg, n, steps)
  }

  lemma {:induction false} RunIsRecorded(cfg: Config, n: nat, steps: seq<Step>)
    ensures Recorded(cfg, n, steps, RunSteps(cfg, Start(n), steps))
    decreases |steps|
  {
    if steps == [] {
      assert ActionsOf(steps) == [];
    } else {
      var init, last := steps[..|steps| - 1], steps[|steps| - 1];
      RunIsRecorded(cfg, n, init);
      hide RunSteps;
      StepIsRecorded(cfg, n, steps, RunSteps(cfg, Start(n), init));
      RunStepsMore(cfg, Start(n), steps);
    }
  }

  lemma {:induction false} RunStepsMore(cfg: Config, w: World, steps: seq<Step>)
    requires steps != []
    ensures RunSteps(cfg, w, steps) == Do(cfg, RunSteps(cfg, w, steps[..|steps| - 1]), steps[|steps| - 1])
  {
  }

  lemma {:induction false} StepIsRecorded(cfg: Config, n: nat, steps: seq<Step>, w: World)
    requires steps != [] && Recorded(cfg, n, steps[..|steps| - 1], w)
    ensures Recorded(cfg, n, steps, Do(cfg, w, steps[|steps| - 1]))
  {
    var init, last := steps[..|steps| - 1], steps[|steps| - 1];
    LastStep(cfg, n, steps);
    FlatMore(w.groups, w.group);
    hide LogAfter, Act, Flat, Begins, Logs, CommitEnds, Was;
    assert Flat(w.groups) + w.group + [] == Flat(w.groups) + w.group;
  }

  /** The last step, in terms of the machine's own. */
  lemma {:induction false} LastStep(cfg: Config, n: nat, steps: seq<Step>)
    requires steps != []
    ensures var s, a := LogAfter(cfg, n, steps[..|steps| - 1]), steps[|steps| - 1].a;
            var t := Act(cfg, s, a);
            var goes := !t.panicked && a.p < |s.procs|;
            && LogAfter(cfg, n, steps) == t && |t.procs| == |s.procs|
            && (Begins(cfg, n, steps) <==> goes && a.TryBegin? && t.outstanding > s.outstanding)
            && (Logs(cfg, n, steps) <==> goes && a.LogWriteAdd? && s.procs[a.p].Checked?)
            && (CommitEnds(cfg, n, steps) <==> goes && a.CommitReturns? && s.procs[a.p] == Commits)
            && (goes ==> Was(cfg, n, steps) == s.procs[a.p])
  {
    var s, a := LogAfter(cfg, n, steps[..|steps| - 1]), steps[|steps| - 1].a;
    LogAfterMore(cfg, n, steps);
    hide LogAfter;
    ActFrame(cfg, s, a);
    if a.p < |s.procs| && !Act(cfg, s, a).panicked {
      StepKinds(cfg, s, a);
    }
    hide Act;
  }

  /**
   Safe are the log_writes made before the last commit that has returned, and those of a running commit from its
   header write on: after any crash and recovery the disk outside the log is the old one with exactly these in it.
   */
  lemma {:induction false} Durability(cfg: Config, n: nat, area: Area, d: seq<Block>, steps: seq<Step>, k: nat,
                                      ks: seq<nat>)
    requires Settled(d, area, d) && Suits(cfg, area) && HomeSteps(steps, |d|, area)
    ensures var w, s := RunSteps(cfg, Start(n), steps), LogAfter(cfg, n, steps);
            && WorldInv(cfg, w, |d|, area)
            && RecoversTo(CrashDisk(cfg, d, area, w, k), area, ks,
                          Apply(d, Writes(if Writing(cfg, s) && k > |s.blocks| then History(cfg, n, steps)
                                          else Saved(cfg, n, steps))))
  {
    OperationAtomicity(cfg, n, area, d, steps, k, ks);
    RunIsRecorded(cfg, n, steps);
    var w := RunSteps(cfg, Start(n), steps);
    FlatMore(w.groups, w.group);
    hide RunSteps, Settled, RecoversTo, CrashDisk, Apply, History, Saved, LogAfter, Begun, OpOf, WorldInv, Flat;
  }

  /** What is saved stays saved: it is the first part of what is saved later. */
  lemma {:induction false} SavedGrows(cfg: Config, n: nat, steps: seq<Step>, more: seq<Step>)
    ensures History(cfg, n, steps) <= History(cfg, n, steps + more)
    ensures Saved(cfg, n, steps) <= Saved(cfg, n, steps + more) <= History(cfg, n, steps + more)
    decreases |more|
  {
    if more == [] {
      assert steps + more == steps;
      SavedIsPart(cfg, n, steps);
    } else {
      var all, init := steps + more, more[..|more| - 1];
      assert all[..|all| - 1] == steps + init;
      SavedGrows(cfg, n, steps, init);
      SavedIsPart(cfg, n, steps);
      SavedIsPart(cfg, n, all);
      hide CommitEnds, Logs, OpOf, LogAfter;
    }
  }

  lemma {:induction false} SavedIsPart(cfg: Config, n: nat, steps: seq<Step>)
    ensures Saved(cfg, n, steps) <= History(cfg, n, steps)
    decreases |steps|
  {
    if steps != [] {
      SavedIsPart(cfg, n, steps[..|steps| - 1]);
      hide CommitEnds, Logs, OpOf, LogAfter;
    }
  }

  // ---- The same on log.c's own data structures -------------------------------------------------------

  /** The two stores agree outside the log. */
  ghost predicate Agree(area: Area, t: seq<Block>, t': seq<Block>) {
    |t'| == |t| && forall b: nat :: b < |t| && !area.Holds(b) ==> t'[b] == t[b]
  }

  lemma {:induction false} SettledAgrees(d: seq<Block>, area: Area, t: seq<Block>, t': seq<Block>)
    requires Settled(d, area, t) && Agree(area, t, t')
    ensures Settled(d, area, t')
  {
  }

  lemma {:induction false} RecoversAgrees(d: seq<Block>, area: Area, ks: seq<nat>, t: seq<Block>, t': seq<Block>)
    requires RecoversTo(d, area, ks, t) && Agree(area, t, t')
    ensures RecoversTo(d, area, ks, t')
  {
    hide Settled, Apply, Agree;
    var e := Reboots(d, area, ks);
    SettledAgrees(Apply(e, RecoverWrites(e, area)), area, t, t');
  }

  lemma {:induction false} TxAgrees(area: Area, tx: Tx, t: seq<Block>, t': seq<Block>)
    requires Agree(area, t, t') && Loggable(t, area, tx)
    ensures Agree(area, ApplyTx(t, tx), ApplyTx(t', tx))
  {
    forall b: nat | b < |t| && !area.Holds(b)
      ensures ApplyTx(t', tx)[b] == ApplyTx(t, tx)[b]
    {
      assert Loggable(t', area, tx);
      hide ApplyTx;
      TransactionEffect(t, area, tx, b);
      TransactionEffect(t', area, tx, b);
    }
  }

  /** One more update, seen through the view. */
  lemma {:induction false} ViewOfUpdate(d: seq<Block>, groups: seq<seq<Update>>, group: seq<Update>, u: Update)
    ensures View(d, groups + [group + [u]])
            == if u.blockno < |d| then View(d, groups + [group])[u.blockno := u.data] else View(d, groups + [group])
  {
    FlatMore(groups, group);
    FlatMore(groups, group + [u]);
    var us := Flat(groups) + group;
    assert Flat(groups) + (group + [u]) == us + [u];
    assert Writes(us + [u]) == Writes(us) + [Write(u.blockno, u.data)];
    ApplyOne(d, Writes(us), Write(u.blockno, u.data));
  }

  lemma {:induction false} ViewOfNothing(d: seq<Block>, groups: seq<seq<Update>>)
    ensures View(d, groups + [[]]) == View(d, groups) && View(d, []) == d
  {
    FlatMore(groups, []);
    assert Flat(groups) + [] == Flat(groups);
    assert Writes([]) == [];
  }

  lemma {:induction false} SameContents(v: seq<Block>, s: seq<Block>, blocks: seq<uint32>, area: Area)
    requires Agree(area, v, s) && Homes(blocks, |v|, area)
    ensures ContentsOf(s, blocks) == ContentsOf(v, blocks)
  {
  }
}

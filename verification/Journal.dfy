/**
 The methods of log.c on the buffer cache, with the updates of operations recorded beside them: log_write adds
 an update to the open group and commit closes the group, so that what the log and the cache hold is at every
 moment what the updates of Operations say.
 */
module Journal {
  import opened LittleEndian
  import opened RedoLog
  import opened BufferCache
  import opened LogLayer
  import opened Operations

  class GroupLog {
    const log: Log
    ghost const d: seq<Block>              // the disk when the log was opened
    ghost var groups: seq<seq<Update>>     // what has been committed
    ghost var group: seq<Update>           // what has been logged since

    /** The disk holds the committed groups, readers see the open group too, and the list is its blocks. */
    ghost predicate Linked()
      reads this, log, log.cache
    {
      && log.Valid() && |d| == |log.cache.disk| && GroupsOk(groups, |d|, log.area)
      && Settled(log.cache.disk, log.area, View(d, groups))
      && log.Blocks() == BlocksOf(group)
      && Agree(log.area, View(d, groups + [group]), log.cache.spec)
    }

    /** After initlog: nothing committed and nothing logged. */
    constructor (log: Log)
      requires log.Valid() && log.n == 0 && log.cache.spec == log.cache.disk
      requires Settled(log.cache.disk, log.area, log.cache.disk)
      ensures this.log == log && Linked() && groups == [] && group == [] && d == log.cache.disk
    {
      this.log, d, groups, group := log, log.cache.disk, [], [];
      new;
      ViewOfNothing(d, []);
      assert log.Blocks() == [] == BlocksOf([]);
      assert [] + [group] == [group];
    }

    /** The transaction that commit will write is the one of the open group. */
    lemma TxnIsGroup()
      requires Linked()
      ensures Homes(BlocksOf(group), |d|, log.area)
      ensures (forall i :: 0 <= i < |BlocksOf(group)| ==> BlocksOf(group)[i] < |d|)
              && log.Txn() == TxOf(View(d, groups), group)
    {
      hide Settled, GroupsOk, Bcache.Valid, View, Apply, Agree, BlocksOf, PinsAre;
      ViewMore(d, groups + [group]);
      assert (groups + [group])[..|groups|] == groups;
      SameContents(View(d, groups + [group]), log.cache.spec, log.Blocks(), log.area);
    }

    /** log_write under log.lock: one update more in the open group. */
    method Record(b: nat, ghost op: nat)
      requires Linked() && b < NBUF && log.cache.bufs[b].locked && log.cache.bufs[b].valid
      requires !log.area.Holds(log.cache.bufs[b].blockno)
      requires log.n < LOGSIZE || Lists(log.Blocks(), log.cache.bufs[b].blockno)
      modifies this`group, log`n, log`block, log.cache`bufs, log.cache`spec
      ensures Linked()
      ensures var x := old(log.cache.bufs[b]);
              x.blockno < U32 && group == old(group) + [Update(op, x.blockno, x.data)]
    {
      hide Settled, GroupsOk, Bcache.Valid, View, BlocksOf, Absorb, PinsAre, Homes, Distinct;
      log.Facts();
      log.cache.Known();
      ghost var x := log.cache.bufs[b];
      assert Current(x, log.cache.spec);
      log.LogAppend(b);
      ghost var u := Update(op, x.blockno, x.data);
      BlocksOfMore(group, u);
      ViewOfUpdate(d, groups, group, u);
      group := group + [u];
    }

    /**
     end_op's call of commit: when it returns the open group is committed. Whether it returns, panics or never
     wakes up, a stop after any k of its writes recovers to the committed groups, with the open one
     among them exactly from the header write on.
     */
    method Commit() returns (f: Fate)
      requires Linked() && log.AllPublished() && (log.Fits() || log.Full())
      modifies this`groups, this`group, log`n, log.cache
      ensures old(log.n) == NBUF ==> f == NoBuffer && log.cache.disk == old(log.cache.disk)
      ensures old(log.Calm()) ==> (f == Ready <==> old(log.n) < NBUF)
      ensures f == Ready ==>
                Linked() && log.AllPublished() && log.n == 0 && groups == old(groups) + [old(group)] && group == []
      ensures f != Ready ==> groups == old(groups) && group == old(group)
      ensures old(log.cache.writes) <= log.cache.writes
      ensures var issued := log.cache.writes[|old(log.cache.writes)|..];
              forall k: nat, ks: seq<nat> :: k <= |issued| || f == Ready ==>
                RecoversTo(Stopped(old(log.cache.disk), issued, k), log.area, ks,
                    Survivors(d, old(groups), old(group), k))
    {
      hide Bcache.Valid, Log.Valid, Log.AllPublished, Log.Calm, Settled, View, Apply, ApplyTx, Agree, BlocksOf,
           RecoversTo, Stopped, TxOf, Loggable, Survivors, GroupsOk;
      log.Facts();
      TxnIsGroup();
      ghost var disk0, tx, fits := log.cache.disk, log.Txn(), log.Fits();
      assert fits ==> GroupOk(group, |d|, log.area);
      DiskAgrees(disk0, log.area, View(d, groups));
      f := log.CommitSurvivesCrashes();
      ghost var issued := log.cache.writes[|old(log.cache.writes)|..];
      forall k: nat, ks: seq<nat> | k <= |issued| || f == Ready
        ensures RecoversTo(Stopped(disk0, issued, k), log.area, ks, Survivors(d, groups, group, k))
      {
        GroupOutcome(disk0, log.area, d, groups, group, tx, k);
        RecoversAgrees(Stopped(disk0, issued, k), log.area, ks, Outcome(disk0, tx, k), Survivors(d, groups, group, k));
      }
      if f == Ready {
        log.Facts();
        Agrees(log.area, log.cache.disk, log.cache.spec);
        GroupCommitted(log.cache.disk, log.cache.spec, disk0, log.area, d, groups, group, tx);
        NoBlocks();
        assert log.Blocks() == [];
        groups, group := groups + [group], [];
      }
    }
  }

  /** What is left of the groups when the commit of the open one is stopped after k writes. */
  ghost function Survivors(d: seq<Block>, groups: seq<seq<Update>>, group: seq<Update>, k: nat): seq<Block> {
    View(d, if k > |BlocksOf(group)| then groups + [group] else groups)
  }

  lemma {:induction false} DiskAgrees(disk: seq<Block>, area: Area, t: seq<Block>)
    requires Settled(disk, area, t)
    ensures Agree(area, disk, t) && Settled(disk, area, disk)
  {
  }

  lemma {:induction false} Agrees(area: Area, t: seq<Block>, t': seq<Block>)
    requires |t'| == |t| && forall b: nat :: b < |t| && !area.Holds(b) ==> t[b] == t'[b]
    ensures Agree(area, t, t')
  {
  }

  /** The transaction applied to the disk is the open group applied to the view. */
  lemma {:induction false} GroupApplied(disk: seq<Block>, area: Area, d: seq<Block>, groups: seq<seq<Update>>,
                                        group: seq<Update>, tx: Tx)
    requires |disk| == |d| && Agree(area, disk, View(d, groups)) && GroupOk(group, |d|, area)
    requires tx == TxOf(View(d, groups), group)
    ensures Loggable(disk, area, tx) && Agree(area, ApplyTx(disk, tx), View(d, groups + [group]))
  {
    hide View, Apply, ApplyTx, Agree, BlocksOf, TxOf, Loggable;
    GroupLoggable(View(d, groups), disk, area, group);
    TxAgrees(area, tx, disk, View(d, groups));
    TxIsUpdates(View(d, groups), area, group);
    ViewMore(d, groups + [group]);
    assert (groups + [group])[..|groups|] == groups;
  }

  lemma {:induction false} GroupOutcome(disk: seq<Block>, area: Area, d: seq<Block>, groups: seq<seq<Update>>,
                                        group: seq<Update>, tx: Tx, k: nat)
    requires |disk| == |d| && Agree(area, disk, View(d, groups)) && Homes(BlocksOf(group), |d|, area)
    requires tx == TxOf(View(d, groups), group) && (GroupOk(group, |d|, area) || k <= |BlocksOf(group)|)
    ensures Agree(area, Outcome(disk, tx, k), Survivors(d, groups, group, k))
  {
    hide View, Apply, ApplyTx, Agree, BlocksOf, TxOf;
    if k > |BlocksOf(group)| {
      GroupApplied(disk, area, d, groups, group, tx);
    }
  }

  lemma {:induction false} GroupCommitted(disk': seq<Block>, spec': seq<Block>, disk: seq<Block>, area: Area,
                                          d: seq<Block>, groups: seq<seq<Update>>, group: seq<Update>, tx: Tx)
    requires |disk| == |d| && Agree(area, disk, View(d, groups)) && GroupOk(group, |d|, area)
             && GroupsOk(groups, |d|, area)
    requires tx == TxOf(View(d, groups), group) && Settled(disk', area, ApplyTx(disk, tx))
    requires Agree(area, disk', spec')
    ensures |disk'| == |d| && Settled(disk', area, View(d, groups + [group])) && GroupsOk(groups + [group], |d|, area)
    ensures Agree(area, View(d, groups + [group] + [[]]), spec')
  {
    GroupApplied(disk, area, d, groups, group, tx);
    hide View, Apply, ApplyTx, BlocksOf, TxOf, GroupOk;
    SettledAgrees(disk', area, ApplyTx(disk, tx), View(d, groups + [group]));
    ViewOfNothing(d, groups + [group]);
    hide HeaderIs;
  }
}

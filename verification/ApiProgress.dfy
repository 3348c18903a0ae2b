/** When the syncs succeed: after sends, after sends that were given up, and with nothing outstanding. */
module ApiProgress {
  import opened MsgFifo
  import opened ApiQueue
  import opened ApiMachine
  import opened ApiSequence
  import opened ApiProtocol
  import opened ApiSync
  import opened Wrappers

  /** The number of the thread's last API in the list, 0 when it has none. */
  function LastNumber(ids: seq<Id>, thr: Thread): nat {
    if ids == [] then 0
    else if ids[|ids| - 1].thr == thr then ids[|ids| - 1].seqNo
    else LastNumber(ids[..|ids| - 1], thr)
  }

  function LastNumberOf(ids: seq<Id>, handle: nat): nat {
    if ids == [] then 0
    else if ids[|ids| - 1].thr.handle == handle then ids[|ids| - 1].seqNo
    else LastNumberOf(ids[..|ids| - 1], handle)
  }

  /** What the thread does not own does not change its last number. */
  lemma {:induction false} OthersAfter(ids: seq<Id>, k: nat, thr: Thread)
    requires k <= |ids| && forall i :: k <= i < |ids| ==> ids[i].thr != thr
    ensures LastNumber(ids, thr) == LastNumber(ids[..k], thr)
  {
    if k < |ids| {
      OthersAfter(ids[..|ids| - 1], k, thr);
      assert ids[..|ids| - 1][..k] == ids[..k];
    } else {
      assert ids[..k] == ids;
    }
  }

  lemma Appended(ids: seq<Id>, id: Id, thr: Thread, handle: nat)
    ensures LastNumber(ids + [id], thr) == if id.thr == thr then id.seqNo else LastNumber(ids, thr)
    ensures LastNumberOf(ids + [id], handle) == if id.thr.handle == handle then id.seqNo else LastNumberOf(ids, handle)
  {
    assert (ids + [id])[..|ids|] == ids;
  }

  /** The last number is that of some API of the thread, above all its others. */
  lemma {:induction false} LastIsHighest(ids: seq<Id>, thr: Thread)
    requires forall i, j :: 0 <= i < j < |ids| ==> ids[i].seqNo < ids[j].seqNo
    ensures forall i :: 0 <= i < |ids| && ids[i].thr == thr ==> ids[i].seqNo <= LastNumber(ids, thr)
    ensures LastNumber(ids, thr) == 0 || Id(thr, LastNumber(ids, thr)) in ids
  {
    if ids != [] && ids[|ids| - 1].thr != thr {
      LastIsHighest(ids[..|ids| - 1], thr);
    }
  }

  lemma {:induction false} LastOfHandleIsHighest(ids: seq<Id>, handle: nat)
    requires forall i, j :: 0 <= i < j < |ids| ==> ids[i].seqNo < ids[j].seqNo
    ensures forall i :: 0 <= i < |ids| && ids[i].thr.handle == handle ==> ids[i].seqNo <= LastNumberOf(ids, handle)
    ensures LastNumberOf(ids, handle) == 0
            || exists i :: 0 <= i < |ids| && ids[i].thr.handle == handle && ids[i].seqNo == LastNumberOf(ids, handle)
  {
    if ids != [] && ids[|ids| - 1].thr.handle != handle {
      LastOfHandleIsHighest(ids[..|ids| - 1], handle);
      var rest := ids[..|ids| - 1];
      if LastNumberOf(rest, handle) != 0 {
        var i :| 0 <= i < |rest| && rest[i].thr.handle == handle && rest[i].seqNo == LastNumberOf(rest, handle);
        assert ids[i].thr.handle == handle;
      }
    }
  }

  // ---------------------------------------------------------------- what the completed numbers are

  /** The thread has never sent on the CPU channel; nor any thread of the handle. */
  ghost predicate XpuThread(s: State, thr: Thread) {
    forall id :: id in s.sq.cpuIds ==> id.thr != thr
  }

  ghost predicate XpuHandle(s: State, handle: nat) {
    forall id :: id in s.sq.cpuIds ==> id.thr.handle != handle
  }

  /** The completed number is that of the last API that retired. */
  ghost predicate Completed(s: State, thr: Thread) {
    && s.ch.retired <= |s.q.ids|
    && (thr.handle !in s.closed && XpuThread(s, thr) ==>
          Lookup(s.sq.cpl, thr) == LastNumber(s.q.ids[..s.ch.retired], thr))
    && (thr.handle !in s.closed && XpuHandle(s, thr.handle) ==>
          Lookup(s.sq.hCpl, thr.handle) == LastNumberOf(s.q.ids[..s.ch.retired], thr.handle))
  }

  lemma PopCompletes(s: State, s': State, thr: Thread, id: Id)
    requires s.ch.retired < |s.q.ids| && id == s.q.ids[s.ch.retired] && s'.ch.retired == s.ch.retired + 1 && s'.q.ids == s.q.ids
    requires Completed(s, thr) && s'.closed == s.closed && s'.sq.cpuIds == s.sq.cpuIds
    requires if id.thr.handle in s.closed then s'.sq.cpl == s.sq.cpl && s'.sq.hCpl == s.sq.hCpl
             else s'.sq.cpl == s.sq.cpl[id.thr := id.seqNo] && s'.sq.hCpl == s.sq.hCpl[id.thr.handle := id.seqNo]
    ensures Completed(s', thr)
  {
    assert s'.q.ids[..s'.ch.retired] == s.q.ids[..s.ch.retired] + [id];
    Appended(s.q.ids[..s.ch.retired], id, thr, thr.handle);
  }

  lemma OtherCompletes(s: State, s': State, thr: Thread)
    requires Completed(s, thr) && s'.ch.retired == s.ch.retired && s.q.ids <= s'.q.ids
    requires s.closed <= s'.closed && s.sq.cpuIds <= s'.sq.cpuIds
    requires thr.handle !in s'.closed && XpuThread(s', thr) ==> Lookup(s'.sq.cpl, thr) == Lookup(s.sq.cpl, thr)
    requires thr.handle !in s'.closed && XpuHandle(s', thr.handle) ==> Lookup(s'.sq.hCpl, thr.handle) == Lookup(s.sq.hCpl, thr.handle)
    ensures Completed(s', thr)
  {
    assert s'.q.ids[..s'.ch.retired] == s.q.ids[..s.ch.retired];
  }

  lemma OnlyPopRetires(n: nat, cap: nat, s: State, a: Action, s': State)
    requires IsStep(n, cap, s, a, s') && (Completes(s, a) == None || !a.IrqPop?)
    ensures s'.ch.retired == s.ch.retired
  {
  }

  lemma PopFrame(n: nat, cap: nat, s: State, a: Action, s': State)
    requires IsStep(n, cap, s, a, s') && a.IrqPop?
    ensures s'.closed == s.closed && s'.sq.cpuIds == s.sq.cpuIds && s'.q.ids == s.q.ids
  {
  }

  lemma StepCompleted(n: nat, cap: nat, s: State, a: Action, s': State, thr: Thread)
    requires IsStep(n, cap, s, a, s') && QueueInv(s.q, s.ch.retired) && SeqOk(s) && Completed(s, thr)
    ensures Completed(s', thr)
  {
    StepCompletes(n, cap, s, a, s');
    ActionExtends(n, cap, s, a, s');
    StepQueues(n, cap, s, a, s');
    if Completes(s, a).Some? && a.IrqPop? {
      CompletesFrom(n, cap, s, a, s');
      PopFrame(n, cap, s, a, s');
      PopCompletes(s, s', thr, Completes(s, a).value);
    } else {
      OnlyPopRetires(n, cap, s, a, s');
      if Completes(s, a).Some? {
        CompletesFrom(n, cap, s, a, s');
      }
      OtherCompletes(s, s', thr);
    }
  }

  /** In every run: for a thread and a handle that only send on the XPU channel, the completed number is that of
      the last API retired. */
  lemma {:induction false} RunCompleted(n: nat, cap: nat, run: seq<State>, i: nat, thr: Thread)
    requires ValidRing(n, cap) && Run(n, cap, run) && i < |run|
    ensures Completed(run[i], thr)
  {
    if i > 0 {
      RunCompleted(n, cap, run, i - 1, thr);
      RunInv(n, cap, run, i - 1);
      NextCompleted(n, cap, run[i - 1], run[i], thr);
    } else {
      assert run[0].q.ids[..0] == [];
    }
  }

  lemma NextCompleted(n: nat, cap: nat, s: State, s': State, thr: Thread)
    requires Next(n, cap, s, s') && Inv(n, s) && Completed(s, thr)
    ensures Completed(s', thr)
  {
    var a: Action :| IsStep(n, cap, s, a, s');
    StepCompleted(n, cap, s, a, s', thr);
  }

  /** The exact condition for thread sync to succeed, in every run: for a thread that only sends on the XPU channel,
      its last number is that of the last of its APIs that retired. */
  lemma ThreadSyncSucceedsExactly(n: nat, cap: nat, run: seq<State>, i: nat, thr: Thread)
    requires ValidRing(n, cap) && Run(n, cap, run) && i < |run| && thr.handle !in run[i].closed && XpuThread(run[i], thr)
    ensures run[i].ch.retired <= |run[i].q.ids|
    ensures ThreadSyncs(run[i], thr) <==> Lookup(run[i].sq.last, thr) == LastNumber(run[i].q.ids[..run[i].ch.retired], thr)
  {
    RunCompleted(n, cap, run, i, thr);
  }

  /** The exact condition for handle sync to succeed, in every run: for a handle that only sends on the XPU channel,
      one of its APIs at or above the number read has retired, or none was sent before. */
  lemma HandleSyncSucceedsExactly(n: nat, cap: nat, run: seq<State>, i: nat, j: nat, handle: nat)
    requires ValidRing(n, cap) && Run(n, cap, run) && i < |run| && j < |run|
    requires handle !in run[j].closed && XpuHandle(run[j], handle)
    ensures HandleSyncs(run[i], run[j], handle) <==>
            || Lookup(run[i].sq.hSend, handle) <= 0
            || exists k :: 0 <= k < run[j].ch.retired && k < |run[j].q.ids| && run[j].q.ids[k].thr.handle == handle
                 && run[j].q.ids[k].seqNo >= Lookup(run[i].sq.hSend, handle)
  {
    var s := run[j];
    RunCompleted(n, cap, run, j, Thread(handle, 0));
    RunInv(n, cap, run, j);
    var ids := s.q.ids[..s.ch.retired];
    LastOfHandleIsHighest(ids, handle);
    if LastNumberOf(ids, handle) != 0 {
      var k :| 0 <= k < |ids| && ids[k].thr.handle == handle && ids[k].seqNo == LastNumberOf(ids, handle);
      assert s.q.ids[k] == ids[k];
    }
    if k :| 0 <= k < s.ch.retired && s.q.ids[k].thr.handle == handle && s.q.ids[k].seqNo >= Lookup(run[i].sq.hSend, handle) {
      assert ids[k] == s.q.ids[k];
    }
  }

  // ---------------------------------------------------------------- after a send

  /** Everything the thread queued is retired, so it can only wait for the number of its last API. */
  lemma DoneDecides(s: State, thr: Thread)
    requires Completed(s, thr) && thr.handle !in s.closed && XpuThread(s, thr) && ThreadDone(s, thr)
    ensures ThreadSyncs(s, thr) <==> Lookup(s.sq.last, thr) == LastNumber(s.q.ids, thr)
  {
    OthersAfter(s.q.ids, s.ch.retired, thr);
  }

  /** While others go on, the thread's last number, stored and queued, stays. */
  lemma LastsAlong(n: nat, cap: nat, path: seq<State>, thr: Thread)
    requires Path(n, cap, OfThread(thr), path) && Inv(n, path[0]) && NotSending(path[0], thr)
    ensures Lookup(Last(path).sq.last, thr) == Lookup(path[0].sq.last, thr)
    ensures LastNumber(Last(path).q.ids, thr) == LastNumber(path[0].q.ids, thr)
  {
    PathKept(n, cap, path, thr);
    OthersAfter(Last(path).q.ids, |path[0].q.ids|, thr);
    assert Last(path).q.ids[..|path[0].q.ids|] == path[0].q.ids;
  }

  /** The end of a send that reached the ring. */
  lemma AfterPublish(n: nat, cap: nat, s: State, s': State)
    requires Inv(n, s) && IsStep(n, cap, s, SendPublish, s')
    ensures var v := s.sender.value;
            && Lookup(s'.sq.last, v.thr) == v.seqNo == LastNumber(s'.q.ids, v.thr) && NotSending(s', v.thr)
  {
    PublishFrame(n, cap, s, s');
    PushedIsLast(s.sq, s.ch.sent, s.q.ids, s.sender, s.cpuSender);
  }

  lemma PublishFrame(n: nat, cap: nat, s: State, s': State)
    requires IsStep(n, cap, s, SendPublish, s')
    ensures IsPushed(s.sender) && s'.sq == s.sq && s'.q == s.q && s'.sender == None && s'.cpuSender == s.cpuSender
  {
  }

  lemma PushedIsLast(sq: Seqs, sent: seq<Msg>, ids: seq<Id>, sender: Option<Sending>, cpuSender: Option<CpuSending>)
    requires LinkInv(sent, ids, sender) && SenderInv(sq, ids, sender) && CpuSenderInv(sq, ids, sender, cpuSender) && IsPushed(sender)
    ensures Lookup(sq.last, sender.value.thr) == sender.value.seqNo == LastNumber(ids, sender.value.thr)
    ensures cpuSender.Some? ==> cpuSender.value.id.thr != sender.value.thr
  {
    assert ids[|sent|] == Id(sender.value.thr, sender.value.seqNo);
  }

  /** After a send that reached the ring: as soon as it and the thread's earlier APIs are retired, thread sync
      succeeds, whatever everybody else did meanwhile. */
  lemma SyncSucceedsAfterSend(n: nat, cap: nat, run: seq<State>, path: seq<State>, thr: Thread)
    requires ValidRing(n, cap) && Run(n, cap, run) && Path(n, cap, OfThread(thr), path)
    requires |path| > 0 && IsStep(n, cap, Last(run), SendPublish, path[0]) && Last(run).sender.value.thr == thr
    requires thr.handle !in Last(path).closed && XpuThread(Last(path), thr) && ThreadDone(Last(path), thr)
    ensures ThreadSyncs(Last(path), thr)
  {
    RunInv(n, cap, run, |run| - 1);
    NextKeepsInv(n, cap, Last(run), SendPublish, path[0]);
    AfterPublish(n, cap, Last(run), path[0]);
    LastsAlong(n, cap, path, thr);
    var whole := RunThenPath(n, cap, run, SendPublish, path, thr);
    DoneDecides(Last(path), thr);
  }

  /** A run, one step and a path make a run. */
  lemma RunThenPath(n: nat, cap: nat, run: seq<State>, a: Action, path: seq<State>, thr: Thread) returns (whole: seq<State>)
    requires ValidRing(n, cap) && Run(n, cap, run) && Path(n, cap, OfThread(thr), path) && IsStep(n, cap, Last(run), a, path[0])
    ensures Run(n, cap, whole) && Last(whole) == Last(path) && Completed(Last(path), thr)
  {
    whole := run + path;
    forall i | 0 <= i < |whole| - 1 ensures Next(n, cap, whole[i], whole[i + 1]) {
      if i < |run| - 1 {
        assert Next(n, cap, run[i], run[i + 1]);
      } else if i >= |run| {
        assert WaitStep(n, cap, OfThread(thr), path[i - |run|], path[i - |run| + 1]);
      }
    }
    RunCompleted(n, cap, whole, |whole| - 1, thr);
  }

  // ---------------------------------------------------------------- after a send that was given up

  /** The end of a send that timed out or found the kfifo full. */
  lemma AfterGiveUp(n: nat, cap: nat, s: State, s': State)
    requires Inv(n, s) && IsStep(n, cap, s, SendGiveUp, s')
    ensures var v := s.sender.value;
            && Lookup(s'.sq.last, v.thr) == v.seqNo - 1 && NotSending(s', v.thr) && s'.q.ids == s.q.ids
            && (XpuHandle(s, v.thr.handle) ==> Lookup(s'.sq.hSend, v.thr.handle) == v.seqNo)
            && v.seqNo > 0 && forall k :: 0 <= k < |s.q.ids| ==> s.q.ids[k].seqNo < v.seqNo
  {
  }

  /** The same on the CPU channel. */
  lemma AfterCpuGiveUp(n: nat, cap: nat, s: State, s': State, id: Id)
    requires s.cpuSender.Some? && s.cpuSender.value.id == id && SeqOk(s) && IsStep(n, cap, s, CpuGiveUp, s')
    ensures Lookup(s'.sq.last, id.thr) == id.seqNo - 1
    ensures ThreadSyncs(s', id.thr) <==> Lookup(s'.sq.cpl, id.thr) == id.seqNo - 1
  {
    CpuNumberStored(s.sq, s.q.ids, s.sender, s.cpuSender);
    CpuGiveUpFrame(n, cap, s, s');
  }

  lemma CpuNumberStored(sq: Seqs, ids: seq<Id>, sender: Option<Sending>, cpuSender: Option<CpuSending>)
    requires CpuSenderInv(sq, ids, sender, cpuSender) && cpuSender.Some? && cpuSender.value.stored
    ensures Lookup(sq.last, cpuSender.value.id.thr) == cpuSender.value.id.seqNo
  {
  }

  lemma CpuGiveUpFrame(n: nat, cap: nat, s: State, s': State)
    requires IsStep(n, cap, s, CpuGiveUp, s')
    ensures s.cpuSender.Some? && s.cpuSender.value.stored && s'.sq.cpl == s.sq.cpl
    ensures Lookup(s'.sq.last, s.cpuSender.value.id.thr) == Lookup(s.sq.last, s.cpuSender.value.id.thr) - 1
  {
  }

  /** Right after giving up number g, thread sync succeeds exactly when g - 1 is the completed number. */
  lemma GiveUpTakesBack(n: nat, cap: nat, run: seq<State>, s': State)
    requires ValidRing(n, cap) && Run(n, cap, run) && IsStep(n, cap, Last(run), SendGiveUp, s')
    ensures var v := Last(run).sender.value;
            ThreadSyncs(s', v.thr) <==> Lookup(s'.sq.cpl, v.thr) == v.seqNo - 1
  {
    RunInv(n, cap, run, |run| - 1);
    AfterGiveUp(n, cap, Last(run), s');
  }

  /** After giving up number g, and with everything the thread queued retired: thread sync succeeds if and only if
      nobody else took a number since the thread's last API, that is, its last API had number g - 1 (or it had
      none and g was the first number of all). */
  lemma SyncAfterGiveUpExactly(n: nat, cap: nat, run: seq<State>, path: seq<State>, thr: Thread, g: nat)
    requires ValidRing(n, cap) && Run(n, cap, run) && Path(n, cap, OfThread(thr), path)
    requires IsStep(n, cap, Last(run), SendGiveUp, path[0])
    requires Last(run).sender.value.thr == thr && Last(run).sender.value.seqNo == g
    requires thr.handle !in Last(path).closed && XpuThread(Last(path), thr) && ThreadDone(Last(path), thr)
    ensures ThreadSyncs(Last(path), thr) <==> g == 1 || (g > 1 && Id(thr, g - 1) in Last(run).q.ids)
  {
    RunInv(n, cap, run, |run| - 1);
    NextKeepsInv(n, cap, Last(run), SendGiveUp, path[0]);
    AfterGiveUp(n, cap, Last(run), path[0]);
    LastsAlong(n, cap, path, thr);
    var whole := RunThenPath(n, cap, run, SendGiveUp, path, thr);
    DoneDecides(Last(path), thr);
    NumberBefore(Last(run).q.ids, thr, g);
  }

  lemma NumberBefore(ids: seq<Id>, thr: Thread, g: nat)
    requires forall i, j :: 0 <= i < j < |ids| ==> ids[i].seqNo < ids[j].seqNo
    requires forall k :: 0 <= k < |ids| ==> 0 < ids[k].seqNo < g
    ensures g > 0 ==> (LastNumber(ids, thr) == g - 1 <==> g == 1 || (g > 1 && Id(thr, g - 1) in ids))
  {
    LastIsHighest(ids, thr);
    if g > 1 && Id(thr, g - 1) in ids {
      var k :| 0 <= k < |ids| && ids[k] == Id(thr, g - 1);
      assert ids[k].seqNo <= LastNumber(ids, thr);
    }
    if LastNumber(ids, thr) != 0 {
      var k :| 0 <= k < |ids| && ids[k] == Id(thr, LastNumber(ids, thr));
    }
  }

  /** A send that was given up is not taken back from the handle: right after it, handle sync can only succeed by a
      later API of the handle. */
  lemma HandleSyncAfterGiveUp(n: nat, cap: nat, run: seq<State>, path: seq<State>, thr: Thread)
    requires ValidRing(n, cap) && Run(n, cap, run) && Path(n, cap, OfThread(thr), path)
    requires IsStep(n, cap, Last(run), SendGiveUp, path[0]) && Last(run).sender.value.thr == thr
    requires thr.handle !in Last(path).closed && XpuHandle(Last(path), thr.handle)
    requires forall k :: |path[0].q.ids| <= k < |Last(path).q.ids| ==> Last(path).q.ids[k].thr.handle != thr.handle
    ensures !HandleSyncs(path[0], Last(path), thr.handle)
  {
    RunInv(n, cap, run, |run| - 1);
    NextKeepsInv(n, cap, Last(run), SendGiveUp, path[0]);
    AfterGiveUp(n, cap, Last(run), path[0]);
    GiveUpKeepsCpu(n, cap, Last(run), path[0]);
    PathExtends(n, cap, OfThread(thr), path);
    XpuBefore(path[0], Last(path), thr.handle);
    var whole := RunThenPath(n, cap, run, SendGiveUp, path, thr);
    StaysBelow(path[0], Last(path), thr, Last(run).sender.value.seqNo);
  }

  lemma XpuBefore(s: State, t: State, handle: nat)
    requires s.sq.cpuIds <= t.sq.cpuIds && XpuHandle(t, handle)
    ensures XpuHandle(s, handle)
  {
  }

  lemma StaysBelow(s: State, t: State, thr: Thread, g: nat)
    requires Completed(t, thr) && thr.handle !in t.closed && XpuHandle(t, thr.handle) && s.q.ids <= t.q.ids
    requires g > 0 && forall k :: 0 <= k < |s.q.ids| ==> s.q.ids[k].seqNo < g
    requires forall k :: |s.q.ids| <= k < |t.q.ids| ==> t.q.ids[k].thr.handle != thr.handle
    ensures Lookup(t.sq.hCpl, thr.handle) < g
  {
    BelowGivenUp(t.q.ids[..t.ch.retired], s.q.ids, g, thr.handle);
  }

  lemma GiveUpKeepsCpu(n: nat, cap: nat, s: State, s': State)
    requires IsStep(n, cap, s, SendGiveUp, s')
    ensures s'.sq.cpuIds == s.sq.cpuIds
  {
  }

  lemma PathExtends(n: nat, cap: nat, w: Waiter, path: seq<State>)
    requires Path(n, cap, w, path)
    ensures Extends(path[0], Last(path))
  {
    forall k | 0 <= k < |path| - 1 ensures Extends(path[k], path[k + 1]) {
      assert WaitStep(n, cap, w, path[k], path[k + 1]);
      StepExtends(n, cap, path[k], path[k + 1]);
    }
    GrowingExtends(path, 0, |path| - 1);
  }

  lemma BelowGivenUp(retired: seq<Id>, before: seq<Id>, g: nat, handle: nat)
    requires forall k :: 0 <= k < |before| ==> before[k].seqNo < g
    requires g > 0 && forall k :: 0 <= k < |retired| ==>
               retired[k].thr.handle != handle || (k < |before| && retired[k] == before[k])
    ensures LastNumberOf(retired, handle) < g
  {
    if retired != [] && retired[|retired| - 1].thr.handle != handle {
      BelowGivenUp(retired[..|retired| - 1], before, g, handle);
    }
  }

  // ---------------------------------------------------------------- with nothing outstanding

  /** The thread is not sending and has nothing outstanding on either channel. */
  ghost predicate Rests(s: State, thr: Thread) {
    && NotSending(s, thr) && ThreadDone(s, thr)
    && forall id :: id in s.sq.cpuPending ==> id.thr != thr
  }

  ghost predicate RestGoesOn(thr: Thread, s: State, s': State) {
    Rests(s, thr) ==> Rests(s', thr) && (ThreadSyncs(s', thr) <==> ThreadSyncs(s, thr))
  }

  lemma NotTheThread(n: nat, cap: nat, s: State, a: Action, s': State, thr: Thread)
    requires IsStep(n, cap, s, a, s') && QueueInv(s.q, s.ch.retired) && Rests(s, thr) && Completes(s, a).Some?
    ensures Completes(s, a).value.thr != thr
  {
    CompletesFrom(n, cap, s, a, s');
  }

  lemma StepRests(n: nat, cap: nat, s: State, s': State, thr: Thread)
    requires WaitStep(n, cap, OfThread(thr), s, s') && Inv(n, s)
    ensures RestGoesOn(thr, s, s')
  {
    if Rests(s, thr) {
      var a: Action :| IsStep(n, cap, s, a, s') && HoldsBack(OfThread(thr), a);
      NotSendingStays(n, cap, s, a, s', thr);
      StepKept(n, cap, s, a, s', thr);
      StepCompletes(n, cap, s, a, s');
      if Completes(s, a).Some? {
        NotTheThread(n, cap, s, a, s', thr);
      }
      DoneStays(thr, s, s');
    }
  }

  lemma {:induction false} RestChain(thr: Thread, path: seq<State>, i: nat)
    requires i < |path| && Rests(path[0], thr) && forall k :: 0 <= k < |path| - 1 ==> RestGoesOn(thr, path[k], path[k + 1])
    ensures Rests(path[i], thr) && (ThreadSyncs(path[i], thr) <==> ThreadSyncs(path[0], thr))
  {
    if i > 0 {
      RestChain(thr, path, i - 1);
      assert RestGoesOn(thr, path[i - 1], path[i - 1 + 1]);
    }
  }

  /** With nothing of the thread outstanding on either channel the outcome of its sync is settled: it succeeds at
      once, or never while the thread waits. */
  lemma OutcomeSettled(n: nat, cap: nat, run: seq<State>, path: seq<State>, thr: Thread)
    requires ValidRing(n, cap) && Run(n, cap, run) && Rests(Last(run), thr)
    requires Path(n, cap, OfThread(thr), path) && path[0] == Last(run)
    ensures ThreadSyncs(Last(path), thr) <==> ThreadSyncs(Last(run), thr)
  {
    RunInv(n, cap, run, |run| - 1);
    forall k | 0 <= k < |path| - 1 ensures RestGoesOn(thr, path[k], path[k + 1]) {
      PathInv(n, cap, OfThread(thr), path, k);
      StepRests(n, cap, path[k], path[k + 1], thr);
    }
    RestChain(thr, path, |path| - 1);
  }

  // ---------------------------------------------------------------- witnesses

  /** A run after which a thread with nothing outstanding waits in vain: another thread took a number before its
      send, which was given up. */
  lemma VainAfterGiveUp(n: nat, cap: nat, thr: Thread, other: Thread) returns (run: seq<State>)
    requires ValidRing(n, cap) && n > 2 * HEADER && cap >= 2 && thr != other
    requires thr.handle < 0x1_0000_0000_0000_0000 && other.handle < 0x1_0000_0000_0000_0000
    ensures Run(n, cap, run) && Rests(Last(run), thr) && !ThreadSyncs(Last(run), thr)
  {
    run := SendNow(n, cap, [Init(n)], other);
    LastInRange(n, cap, run);
    RunGrows(n, cap, run, SendBegin(thr, 1, []));
    run := run + [Apply(n, cap, Last(run), SendBegin(thr, 1, []))];
    RunGrows(n, cap, run, SendStore);
    run := run + [Apply(n, cap, Last(run), SendStore)];
    RunGrows(n, cap, run, SendGiveUp);
    run := run + [Apply(n, cap, Last(run), SendGiveUp)];
    assert Last(run).q.ids == [Id(other, 1)];
  }

  /** The only message in the ring is finished and retired. */
  lemma RetireNow(n: nat, cap: nat, run: seq<State>, id: Id) returns (run': seq<State>)
    requires ValidRing(n, cap) && Run(n, cap, run) && Last(run).irq == None && Last(run).q.fifo == [Api(id)]
    requires Last(run).ch.retired == Last(run).ch.finished == Last(run).ch.taken < |Last(run).ch.sent|
    ensures Run(n, cap, run') && run <= run'
    ensures var s, s' := Last(run), Last(run');
            && s'.sq == Complete(s.sq, id, s.closed) && s'.q.ids == s.q.ids && s'.ch.retired == s.ch.retired + 1
            && s'.sender == s.sender && s'.cpuSender == s.cpuSender && s'.closed == s.closed
  {
    run' := run;
    LastInRange(n, cap, run');
    RunGrows(n, cap, run', FwTake);
    run' := run' + [Apply(n, cap, Last(run'), FwTake)];
    LastInRange(n, cap, run');
    RunGrows(n, cap, run', FwFinish(0, 0));
    run' := run' + [Apply(n, cap, Last(run'), FwFinish(0, 0))];
    LastInRange(n, cap, run');
    RunGrows(n, cap, run', IrqStart(1));
    run' := run' + [Apply(n, cap, Last(run'), IrqStart(1))];
    RunGrows(n, cap, run', IrqPop);
    run' := run' + [Apply(n, cap, Last(run'), IrqPop)];
  }

  /** One API sent on the CPU channel. */
  lemma OneOnCpu(n: nat, cap: nat, thr: Thread) returns (run: seq<State>)
    requires ValidRing(n, cap)
    ensures Run(n, cap, run) && var s, z := Last(run), Init(n);
            s.(sq := z.sq) == z && s.sq.send == 1 && s.sq.cpuPending == {Id(thr, 1)}
  {
    run := [Init(n)];
    RunGrows(n, cap, run, CpuTake(thr));
    run := run + [Apply(n, cap, Last(run), CpuTake(thr))];
    RunGrows(n, cap, run, CpuStore);
    run := run + [Apply(n, cap, Last(run), CpuStore)];
    RunGrows(n, cap, run, CpuPublish);
    run := run + [Apply(n, cap, Last(run), CpuPublish)];
  }

  lemma OneOnEach(n: nat, cap: nat, thr: Thread) returns (run: seq<State>)
    requires ValidRing(n, cap) && thr.handle < 0x1_0000_0000_0000_0000
    ensures Run(n, cap, run) && var s := Last(run);
            && s.q.ids == [Id(thr, 2)] && s.ch.retired == 1 && s.sender == None && s.cpuSender == None && s.closed == {}
            && s.sq.cpuPending == {Id(thr, 1)} && Lookup(s.sq.last, thr) == 2
  {
    run := OneOnCpu(n, cap, thr);
    run := SendNow(n, cap, run, thr);
    run := RetireNow(n, cap, run, Id(thr, 2));
  }

  /** A run after which a thread with nothing outstanding waits in vain, though no send failed: its older API, on the
      CPU channel, completed after its last one, on the XPU channel. */
  lemma VainAfterLateCompletion(n: nat, cap: nat, thr: Thread) returns (run: seq<State>)
    requires ValidRing(n, cap) && thr.handle < 0x1_0000_0000_0000_0000
    ensures Run(n, cap, run) && Rests(Last(run), thr) && !ThreadSyncs(Last(run), thr)
  {
    run := OneOnEach(n, cap, thr);
    LastInRange(n, cap, run);
    RunGrows(n, cap, run, CpuRetire(Id(thr, 1)));
    run := run + [Apply(n, cap, Last(run), CpuRetire(Id(thr, 1)))];
  }
}

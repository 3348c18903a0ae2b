/** What thread sync and handle sync promise when both channels are in use. */
module ApiSync {
  import opened Ring
  import opened MsgFifo
  import opened ApiQueue
  import opened ApiMachine
  import opened ApiSequence
  import opened ApiProtocol
  import opened Wrappers

  /** Everything the thread queued on the XPU channel is retired. */
  ghost predicate ThreadDone(s: State, thr: Thread) {
    forall k :: 0 <= k < |s.q.ids| && s.q.ids[k].thr == thr ==> k < s.ch.retired
  }

  /** What bmdrv_thread_sync_api waits for. */
  predicate ThreadSyncs(s: State, thr: Thread) {
    Lookup(s.sq.cpl, thr) == Lookup(s.sq.last, thr)
  }

  /** The number the thread holds in last_api_seq went to the CPU channel. */
  ghost predicate LastWentToCpu(s: State, thr: Thread) {
    CpuNumberOf(s.sq, thr, Lookup(s.sq.last, thr))
  }

  /** Thread sync: in every run, if the thread's last number is not one that it took for the CPU channel, then
      finding cpl_api_seq equal to last_api_seq means that everything the thread queued is retired, whatever
      it sent on either channel before and whichever sends timed out. */
  lemma ThreadSyncIsSound(n: nat, cap: nat, run: seq<State>, i: nat, thr: Thread)
    requires ValidRing(n, cap) && Run(n, cap, run) && i < |run|
    requires ThreadSyncs(run[i], thr) && !LastWentToCpu(run[i], thr)
    ensures ThreadDone(run[i], thr)
  {
    RunInv(n, cap, run, i);
    NumbersSettle(run[i].sq, run[i].q.ids, run[i].ch.retired, thr);
  }

  lemma NumbersSettle(sq: Seqs, ids: seq<Id>, retired: nat, thr: Thread)
    requires Rising(sq, ids) && CompletedFrom(sq, ids, retired) && Covers(sq, ids)
    requires Lookup(sq.cpl, thr) == Lookup(sq.last, thr) && !CpuNumberOf(sq, thr, Lookup(sq.last, thr))
    ensures forall k :: 0 <= k < |ids| && ids[k].thr == thr ==> k < retired
  {
    forall k | 0 <= k < |ids| && ids[k].thr == thr ensures k < retired {
      assert thr in sq.cpl && RetiredNumberOf(ids, retired, thr, sq.cpl[thr]);
      var k0 :| 0 <= k0 < retired && k0 < |ids| && ids[k0].thr == thr && ids[k0].seqNo == sq.cpl[thr];
      assert ids[k].seqNo <= ids[k0].seqNo;
    }
  }

  /** The XPU channel is as it was, and nobody sends on the CPU channel. */
  ghost predicate OnlyCpuMoved(s: State, s': State) {
    s'.q == s.q && s'.ch == s.ch && s'.sender == s.sender && s'.closed == s.closed && s'.irq == s.irq && s'.inval == s.inval
  }

  /** A send in progress on the CPU channel can be completed. */
  lemma CpuSendEnds(n: nat, cap: nat, run: seq<State>) returns (run': seq<State>)
    requires ValidRing(n, cap) && Run(n, cap, run)
    ensures Run(n, cap, run') && run <= run'
    ensures OnlyCpuMoved(run[|run| - 1], run'[|run'| - 1]) && run'[|run'| - 1].cpuSender == None
  {
    run' := run;
    LastInRange(n, cap, run);
    if run[|run| - 1].cpuSender.Some? {
      if !run[|run| - 1].cpuSender.value.stored {
        RunGrows(n, cap, run', CpuStore);
        run' := run' + [Apply(n, cap, run'[|run'| - 1], CpuStore)];
      }
      RunGrows(n, cap, run', CpuPublish);
      run' := run' + [Apply(n, cap, run'[|run'| - 1], CpuPublish)];
    }
  }

  /** One API sent on the CPU channel ... */
  lemma CpuSendNow(n: nat, cap: nat, run: seq<State>, thr: Thread) returns (run': seq<State>)
    requires ValidRing(n, cap) && Run(n, cap, run)
    requires var s := run[|run| - 1];
             s.cpuSender == None && thr.handle !in s.closed && (s.sender.Some? ==> s.sender.value.thr != thr)
    ensures Run(n, cap, run') && run <= run' && OnlyCpuMoved(run[|run| - 1], run'[|run'| - 1])
    ensures var g, s' := run[|run| - 1].sq.send + 1, run'[|run'| - 1];
            && InRange(n, s') && s'.cpuSender == None
            && Id(thr, g) in s'.sq.cpuPending && Id(thr, g) in s'.sq.cpuIds
            && Lookup(s'.sq.last, thr) == g && Lookup(s'.sq.hSend, thr.handle) == g
  {
    LastInRange(n, cap, run);
    RunGrows(n, cap, run, CpuTake(thr));
    run' := run + [Apply(n, cap, run[|run| - 1], CpuTake(thr))];
    RunGrows(n, cap, run', CpuStore);
    run' := run' + [Apply(n, cap, run'[|run'| - 1], CpuStore)];
    RunGrows(n, cap, run', CpuPublish);
    run' := run' + [Apply(n, cap, run'[|run'| - 1], CpuPublish)];
  }

  /** ... and completed there at once. */
  lemma CpuRoundTrip(n: nat, cap: nat, run: seq<State>, thr: Thread) returns (run': seq<State>)
    requires ValidRing(n, cap) && Run(n, cap, run)
    requires var s := run[|run| - 1];
             s.cpuSender == None && thr.handle !in s.closed && (s.sender.Some? ==> s.sender.value.thr != thr)
    ensures Run(n, cap, run') && run <= run' && OnlyCpuMoved(run[|run| - 1], run'[|run'| - 1])
    ensures var s, s' := run[|run| - 1], run'[|run'| - 1];
            && ThreadSyncs(s', thr) && LastWentToCpu(s', thr)
            && Lookup(s'.sq.hCpl, thr.handle) == Lookup(s'.sq.hSend, thr.handle) == s.sq.send + 1
            && Id(thr, s.sq.send + 1) in s'.sq.cpuIds
  {
    var g := run[|run| - 1].sq.send + 1;
    run' := CpuSendNow(n, cap, run, thr);
    RunGrows(n, cap, run', CpuRetire(Id(thr, g)));
    run' := run' + [Apply(n, cap, run'[|run'| - 1], CpuRetire(Id(thr, g)))];
    assert Id(thr, g) in run'[|run'| - 1].sq.cpuIds;
  }

  /** Both syncs can be fooled from everywhere: every run in which the thread's file is open and the thread is
      not sending extends, with the XPU channel left exactly as it is, to a state in which thread sync and
      handle sync succeed. */
  lemma SyncsFooledByCpuChannel(n: nat, cap: nat, run: seq<State>, thr: Thread) returns (run': seq<State>)
    requires ValidRing(n, cap) && Run(n, cap, run)
    requires var s := run[|run| - 1];
             && thr.handle !in s.closed && (s.sender.Some? ==> s.sender.value.thr != thr)
             && (s.cpuSender.Some? ==> s.cpuSender.value.id.thr != thr)
    ensures Run(n, cap, run') && run <= run' && OnlyCpuMoved(run[|run| - 1], run'[|run'| - 1])
    ensures var s, s' := run[|run| - 1], run'[|run'| - 1];
            && ThreadSyncs(s', thr) && LastWentToCpu(s', thr)
            && Lookup(s'.sq.hCpl, thr.handle) >= Lookup(s'.sq.hSend, thr.handle)
            && CpuNumberOfHandle(s'.sq, thr.handle, Lookup(s'.sq.hSend, thr.handle))
  {
    run' := CpuSendEnds(n, cap, run);
    var g := run'[|run'| - 1].sq.send + 1;
    run' := CpuRoundTrip(n, cap, run', thr);
    assert Id(thr, g) in run'[|run'| - 1].sq.cpuIds;
  }

  /** Everything the handle had queued on the XPU channel at `snap` is retired in `s`. */
  ghost predicate HandleDone(snap: State, s: State, handle: nat) {
    forall k :: 0 <= k < |snap.q.ids| && snap.q.ids[k].thr.handle == handle ==> k < s.ch.retired
  }

  /** bmdrv_handle_sync_api: h_send_api_seq read in `snap` is reached by h_cpl_api_seq in `s`. */
  predicate HandleSyncs(snap: State, s: State, handle: nat) {
    Lookup(s.sq.hCpl, handle) >= Lookup(snap.sq.hSend, handle)
  }

  /** By `s`, threads of the handle had taken a number for the CPU channel at or above the one read in `snap`. */
  ghost predicate CpuReached(snap: State, s: State, handle: nat) {
    exists id :: id in s.sq.cpuIds && id.thr.handle == handle && id.seqNo >= Lookup(snap.sq.hSend, handle)
  }

  /** Handle sync: with h_send_api_seq read at step i and reached at step j, everything the handle had queued
      by step i is retired by step j, unless by then the handle had a number at or above it on the CPU
      channel.  Sends on that channel with lower numbers do no harm. */
  lemma HandleSyncIsSound(n: nat, cap: nat, run: seq<State>, i: nat, j: nat, handle: nat)
    requires ValidRing(n, cap) && Run(n, cap, run) && i <= j < |run|
    requires HandleSyncs(run[i], run[j], handle) && !CpuReached(run[i], run[j], handle)
    ensures HandleDone(run[i], run[j], handle)
  {
    RunInv(n, cap, run, i);
    RunInv(n, cap, run, j);
    RunExtends(n, cap, run, i, j);
    HandleNumbersSettle(run[i].sq, run[j].sq, run[i].q.ids, run[j].q.ids, run[j].ch.retired, handle);
  }

  lemma HandleNumbersSettle(before: Seqs, sq: Seqs, idsBefore: seq<Id>, ids: seq<Id>, retired: nat, handle: nat)
    requires Rising(before, idsBefore) && Covers(before, idsBefore) && idsBefore <= ids && before.cpuIds <= sq.cpuIds
    requires Rising(sq, ids) && CompletedFrom(sq, ids, retired)
    requires Lookup(sq.hCpl, handle) >= Lookup(before.hSend, handle)
    requires forall id :: id in sq.cpuIds && id.thr.handle == handle ==> id.seqNo < Lookup(before.hSend, handle)
    ensures forall k :: 0 <= k < |idsBefore| && idsBefore[k].thr.handle == handle ==> k < retired
  {
    forall k | 0 <= k < |idsBefore| && idsBefore[k].thr.handle == handle ensures k < retired {
      assert ids[k] == idsBefore[k];
      assert ids[k].seqNo <= Lookup(before.hSend, handle);
      assert handle in sq.hCpl && RetiredNumberOfHandle(ids, retired, handle, sq.hCpl[handle]);
      var k0 :| 0 <= k0 < retired && k0 < |ids| && ids[k0].thr.handle == handle && ids[k0].seqNo == sq.hCpl[handle];
      assert ids[k].seqNo <= ids[k0].seqNo;
    }
  }

  // ---------------------------------------------------------------- ways on from a state

  /** Who holds back: a thread that waits starts no send, and a handle none on the CPU channel. */
  datatype Waiter = OfThread(thr: Thread) | OfHandle(handle: nat)

  predicate HoldsBack(w: Waiter, a: Action) {
    match w
    case OfThread(thr) => !(a.SendBegin? && a.thr == thr) && !(a.CpuTake? && a.cthr == thr)
    case OfHandle(handle) => !(a.CpuTake? && a.cthr.handle == handle)
  }

  ghost predicate WaitStep(n: nat, cap: nat, w: Waiter, s: State, s': State) {
    exists a: Action :: IsStep(n, cap, s, a, s') && HoldsBack(w, a)
  }

  /** Any steps of everybody else. */
  ghost predicate Path(n: nat, cap: nat, w: Waiter, path: seq<State>) {
    |path| > 0 && forall i :: 0 <= i < |path| - 1 ==> WaitStep(n, cap, w, path[i], path[i + 1])
  }

  function Last(path: seq<State>): State
    requires |path| > 0
  {
    path[|path| - 1]
  }

  lemma {:induction false} PathInv(n: nat, cap: nat, w: Waiter, path: seq<State>, i: nat)
    requires Path(n, cap, w, path) && Inv(n, path[0]) && i < |path|
    ensures Inv(n, path[i])
  {
    if i > 0 {
      PathInv(n, cap, w, path, i - 1);
      assert WaitStep(n, cap, w, path[i - 1], path[i - 1 + 1]);
      var a: Action :| IsStep(n, cap, path[i - 1], a, path[i]) && HoldsBack(w, a);
      NextKeepsInv(n, cap, path[i - 1], a, path[i]);
    }
  }

  /** One step more, of somebody else. */
  lemma Onward(n: nat, cap: nat, w: Waiter, path: seq<State>, a: Action, s': State)
    requires Path(n, cap, w, path) && IsStep(n, cap, Last(path), a, s') && HoldsBack(w, a)
    ensures Path(n, cap, w, path + [s'])
  {
    assert WaitStep(n, cap, w, Last(path), s');
    var path' := path + [s'];
    forall i | 0 <= i < |path'| - 1 ensures WaitStep(n, cap, w, path'[i], path'[i + 1]) {
      assert i < |path| - 1 ==> WaitStep(n, cap, w, path[i], path[i + 1]);
    }
  }

  // ---------------------------------------------------------------- the exact condition of thread sync

  predicate NotSending(s: State, thr: Thread) {
    (s.sender.Some? ==> s.sender.value.thr != thr) && (s.cpuSender.Some? ==> s.cpuSender.value.id.thr != thr)
  }

  /** From here, whatever everybody else does, thread sync means that everything the thread queued is retired. */
  ghost predicate ThreadSyncTrusted(n: nat, cap: nat, s: State, thr: Thread) {
    forall path: seq<State> :: Path(n, cap, OfThread(thr), path) && path[0] == s && ThreadSyncs(Last(path), thr) ==>
      ThreadDone(Last(path), thr)
  }

  /** The thread's last number went to the CPU channel and has completed there, or still can. */
  ghost predicate CpuCompletes(s: State, thr: Thread) {
    && LastWentToCpu(s, thr)
    && (ThreadSyncs(s, thr) || (thr.handle !in s.closed && Id(thr, Lookup(s.sq.last, thr)) in s.sq.cpuPending))
  }

  /** What the steps of others leave to a thread that is not sending. */
  ghost predicate Kept(thr: Thread, s: State, t: State) {
    && KeptNumbers(thr, s.sq, t.sq)
    && s.q.ids <= t.q.ids && (forall k :: |s.q.ids| <= k < |t.q.ids| ==> t.q.ids[k].thr != thr)
    && s.ch.retired <= t.ch.retired && s.closed <= t.closed
  }

  ghost predicate KeptNumbers(thr: Thread, sq: Seqs, sq': Seqs) {
    && Lookup(sq'.last, thr) == Lookup(sq.last, thr)
    && (forall id :: id in sq'.cpuIds && id.thr == thr ==> id in sq.cpuIds)
    && (forall id :: id in sq'.cpuPending && id.thr == thr ==> id in sq.cpuPending)
  }

  lemma NotSendingStays(n: nat, cap: nat, s: State, a: Action, s': State, thr: Thread)
    requires IsStep(n, cap, s, a, s') && HoldsBack(OfThread(thr), a) && NotSending(s, thr)
    ensures NotSending(s', thr)
  {
  }

  lemma StepKept(n: nat, cap: nat, s: State, a: Action, s': State, thr: Thread)
    requires IsStep(n, cap, s, a, s') && HoldsBack(OfThread(thr), a) && NotSending(s, thr)
    ensures Kept(thr, s, s')
  {
    StepKeptNumbers(n, cap, s, a, s', thr);
    ActionExtends(n, cap, s, a, s');
    StepQueues(n, cap, s, a, s');
  }

  lemma StepKeptNumbers(n: nat, cap: nat, s: State, a: Action, s': State, thr: Thread)
    requires IsStep(n, cap, s, a, s') && HoldsBack(OfThread(thr), a) && NotSending(s, thr)
    ensures KeptNumbers(thr, s.sq, s'.sq)
  {
  }

  /** Only a push lengthens the queue. */
  lemma StepQueues(n: nat, cap: nat, s: State, a: Action, s': State)
    requires IsStep(n, cap, s, a, s')
    ensures if a.SendPush? then s'.q.ids == s.q.ids + [Id(s.sender.value.thr, s.sender.value.seqNo)] else s'.q.ids == s.q.ids
    ensures s.closed <= s'.closed
  {
  }

  /** Which API a step completes, if any. */
  function Completes(s: State, a: Action): Option<Id> {
    match a
    case IrqPop => if s.q.fifo != [] && s.q.fifo[0].Api? then Some(s.q.fifo[0].id) else None
    case CpuRetire(id) => Some(id)
    case _ => None
  }

  lemma StepCompletes(n: nat, cap: nat, s: State, a: Action, s': State)
    requires IsStep(n, cap, s, a, s')
    ensures var c := Completes(s, a);
            if c == None || c.value.thr.handle in s.closed then s'.sq.cpl == s.sq.cpl && s'.sq.hCpl == s.sq.hCpl
            else s'.sq.cpl == s.sq.cpl[c.value.thr := c.value.seqNo] && s'.sq.hCpl == s.sq.hCpl[c.value.thr.handle := c.value.seqNo]
  {
  }

  /** An API that completes was the next one to retire, or was pending on the CPU channel. */
  lemma CompletesFrom(n: nat, cap: nat, s: State, a: Action, s': State)
    requires IsStep(n, cap, s, a, s') && QueueInv(s.q, s.ch.retired) && Completes(s, a).Some?
    ensures a.IrqPop? ==> s.ch.retired < |s.q.ids| && Completes(s, a).value == s.q.ids[s.ch.retired] && s'.ch.retired == s.ch.retired + 1
    ensures !a.IrqPop? ==> Completes(s, a).value in s.sq.cpuPending
  {
    if a.IrqPop? {
      PopApiKeeps(s.q, s.ch.retired);
    }
  }

  /** While the last number is on the CPU channel and cannot complete there, thread sync does not succeed. */
  ghost predicate Stuck(s: State, thr: Thread) {
    && LastWentToCpu(s, thr) && !ThreadSyncs(s, thr)
    && (thr.handle in s.closed || Id(thr, Lookup(s.sq.last, thr)) !in s.sq.cpuPending)
  }

  /** A CPU number that is not pending does not complete. */
  lemma NotCompleted(n: nat, cap: nat, s: State, a: Action, s': State, id: Id)
    requires IsStep(n, cap, s, a, s') && QueueInv(s.q, s.ch.retired) && SeqOk(s)
    requires id in s.sq.cpuIds && id !in s.sq.cpuPending
    ensures Completes(s, a) != Some(id)
  {
    if Completes(s, a).Some? {
      CompletesFrom(n, cap, s, a, s');
    }
  }

  lemma StuckStays(s: State, s': State, thr: Thread, id: Id, c: Option<Id>)
    requires id.thr == thr && id.seqNo == Lookup(s.sq.last, thr) && id in s'.sq.cpuIds && Lookup(s.sq.cpl, thr) != id.seqNo
    requires Kept(thr, s, s') && (thr.handle in s.closed || (id !in s.sq.cpuPending && c != Some(id)))
    requires if c == None || c.value.thr.handle in s.closed then s'.sq.cpl == s.sq.cpl
             else s'.sq.cpl == s.sq.cpl[c.value.thr := c.value.seqNo]
    ensures Stuck(s', thr)
  {
  }

  lemma StepStuck(n: nat, cap: nat, s: State, a: Action, s': State, thr: Thread)
    requires IsStep(n, cap, s, a, s') && HoldsBack(OfThread(thr), a) && NotSending(s, thr)
    requires QueueInv(s.q, s.ch.retired) && SeqOk(s) && Stuck(s, thr)
    ensures Stuck(s', thr)
  {
    var id :| id in s.sq.cpuIds && id.thr == thr && id.seqNo == Lookup(s.sq.last, thr);
    StepKept(n, cap, s, a, s', thr);
    ActionExtends(n, cap, s, a, s');
    StepCompletes(n, cap, s, a, s');
    if thr.handle !in s.closed {
      NotCompleted(n, cap, s, a, s', id);
    }
    StuckStays(s, s', thr, id, Completes(s, a));
  }

  /** A step of others. */
  ghost predicate Aside(thr: Thread, s: State, s': State) {
    NotSending(s, thr) ==> NotSending(s', thr) && Kept(thr, s, s') && (Stuck(s, thr) ==> Stuck(s', thr))
  }

  lemma StepAside(n: nat, cap: nat, s: State, s': State, thr: Thread)
    requires WaitStep(n, cap, OfThread(thr), s, s') && Inv(n, s)
    ensures Aside(thr, s, s')
  {
    if NotSending(s, thr) {
      var a: Action :| IsStep(n, cap, s, a, s') && HoldsBack(OfThread(thr), a);
      NotSendingStays(n, cap, s, a, s', thr);
      StepKept(n, cap, s, a, s', thr);
      if Stuck(s, thr) {
        StepStuck(n, cap, s, a, s', thr);
      }
    }
  }

  lemma {:induction false} AsideChain(thr: Thread, path: seq<State>, i: nat)
    requires i < |path| && NotSending(path[0], thr)
    requires forall k :: 0 <= k < |path| - 1 ==> Aside(thr, path[k], path[k + 1])
    ensures NotSending(path[i], thr) && Kept(thr, path[0], path[i])
    ensures Stuck(path[0], thr) ==> Stuck(path[i], thr)
  {
    if i > 0 {
      AsideChain(thr, path, i - 1);
      assert Aside(thr, path[i - 1], path[i - 1 + 1]);
      KeptTransitive(thr, path[0], path[i - 1], path[i]);
    }
  }

  /** Along any way on: what others leave, and stuck stays stuck. */
  lemma PathKept(n: nat, cap: nat, path: seq<State>, thr: Thread)
    requires Path(n, cap, OfThread(thr), path) && Inv(n, path[0]) && NotSending(path[0], thr)
    ensures Kept(thr, path[0], Last(path)) && (Stuck(path[0], thr) ==> Stuck(Last(path), thr))
  {
    forall k | 0 <= k < |path| - 1 ensures Aside(thr, path[k], path[k + 1]) {
      PathInv(n, cap, OfThread(thr), path, k);
      StepAside(n, cap, path[k], path[k + 1], thr);
    }
    AsideChain(thr, path, |path| - 1);
  }

  lemma KeptTransitive(thr: Thread, s: State, t: State, u: State)
    requires Kept(thr, s, t) && Kept(thr, t, u)
    ensures Kept(thr, s, u)
  {
  }

  lemma DoneStays(thr: Thread, s: State, t: State)
    requires Kept(thr, s, t) && ThreadDone(s, thr)
    ensures ThreadDone(t, thr)
  {
  }

  /** The last number can complete on the CPU channel, so it does, and thread sync succeeds. */
  lemma CpuCompletion(n: nat, cap: nat, s: State, thr: Thread) returns (path: seq<State>)
    requires ValidRing(n, cap) && Inv(n, s) && CpuCompletes(s, thr)
    ensures Path(n, cap, OfThread(thr), path) && path[0] == s
    ensures ThreadSyncs(Last(path), thr) && Last(path).q == s.q && Last(path).ch == s.ch
  {
    path := [s];
    if !ThreadSyncs(s, thr) {
      InvInRange(n, s);
      var a := CpuRetire(Id(thr, Lookup(s.sq.last, thr)));
      var s' := Apply(n, cap, s, a);
      Onward(n, cap, OfThread(thr), path, a, s');
      path := path + [s'];
    }
  }

  lemma ThreadTrusted(n: nat, cap: nat, s: State, thr: Thread)
    requires Inv(n, s) && NotSending(s, thr) && (ThreadDone(s, thr) || !CpuCompletes(s, thr))
    ensures ThreadSyncTrusted(n, cap, s, thr)
  {
    forall path: seq<State> | Path(n, cap, OfThread(thr), path) && path[0] == s && ThreadSyncs(Last(path), thr)
      ensures ThreadDone(Last(path), thr)
    {
      var t := Last(path);
      PathKept(n, cap, path, thr);
      PathInv(n, cap, OfThread(thr), path, |path| - 1);
      if ThreadDone(s, thr) {
        DoneStays(thr, s, t);
      } else {
        assert !Stuck(t, thr) && !LastWentToCpu(s, thr);
        NumbersSettle(t.sq, t.q.ids, t.ch.retired, thr);
      }
    }
  }

  /** The exact condition of thread sync, for every state a run can reach: waiting on for it can be trusted,
      whatever everybody else does, if and only if everything the thread queued is retired already, or its last
      number is not one of the CPU channel that has completed there or still can.  A number given up there
      does no harm. */
  lemma ThreadSyncExactly(n: nat, cap: nat, run: seq<State>, thr: Thread)
    requires ValidRing(n, cap) && Run(n, cap, run) && NotSending(Last(run), thr)
    ensures ThreadSyncTrusted(n, cap, Last(run), thr) <==> ThreadDone(Last(run), thr) || !CpuCompletes(Last(run), thr)
  {
    var s := Last(run);
    RunInv(n, cap, run, |run| - 1);
    if ThreadDone(s, thr) || !CpuCompletes(s, thr) {
      ThreadTrusted(n, cap, s, thr);
    } else {
      var path := CpuCompletion(n, cap, s, thr);
      assert !ThreadDone(Last(path), thr);
    }
  }

  // ---------------------------------------------------------------- the next message can be retired

  lemma Do(n: nat, cap: nat, w: Waiter, path: seq<State>, a: Action) returns (path': seq<State>)
    requires Path(n, cap, w, path) && Inv(n, Last(path)) && Enabled(n, cap, Last(path), a) && HoldsBack(w, a)
    ensures Path(n, cap, w, path') && path'[0] == path[0] && Inv(n, Last(path')) && IsStep(n, cap, Last(path), a, Last(path'))
  {
    var s' := Apply(n, cap, Last(path), a);
    NextKeepsInv(n, cap, Last(path), a, s');
    Onward(n, cap, w, path, a, s');
    path' := path + [s'];
  }

  /** Nothing but the firmware, the handler's state and markers moved. */
  ghost predicate Steady(s: State, t: State) {
    && t.q.ids == s.q.ids && t.closed == s.closed && |t.ch.sent| == |s.ch.sent| && t.ch.retired == s.ch.retired
    && t.ch.finished >= s.ch.finished
  }

  predicate Calls(a: Action) {
    a.FwTake? || a.FwFinish? || a.IrqStart? || a.IrqDrain? || a.IrqPop?
  }

  lemma CallsSteady(n: nat, cap: nat, s: State, a: Action, s': State)
    requires IsStep(n, cap, s, a, s') && Calls(a) && Completes(s, a) == None
    ensures Steady(s, s')
    ensures a.IrqDrain? || a.IrqPop? ==> s'.ch == s.ch
    ensures !a.IrqDrain? && !a.IrqPop? ==> s'.q == s.q
    ensures a.FwTake? || a.FwFinish? ==> s'.irq == s.irq
    ensures a.FwTake? ==> s'.ch.taken == s.ch.taken + 1 && s'.ch.finished == s.ch.finished
    ensures a.FwFinish? ==> s'.ch.finished == s.ch.finished + 1
    ensures a.IrqStart? ==> s'.irq == Some(a.pending)
  {
  }

  lemma SteadyTransitive(s: State, t: State, u: State)
    requires Steady(s, t) && Steady(t, u)
    ensures Steady(s, u)
  {
  }

  /** The firmware has taken the next message. */
  lemma TakeNext(n: nat, cap: nat, w: Waiter, path: seq<State>) returns (path': seq<State>)
    requires Path(n, cap, w, path) && Inv(n, Last(path)) && Last(path).ch.taken < |Last(path).ch.sent|
    ensures Path(n, cap, w, path') && path'[0] == path[0] && Inv(n, Last(path'))
    ensures Steady(Last(path), Last(path')) && Last(path').irq == Last(path).irq && Last(path').q == Last(path).q
    ensures Last(path').ch.taken > Last(path').ch.finished == Last(path).ch.finished
  {
    InvInRange(n, Last(path));
    path' := Do(n, cap, w, path, FwTake);
    CallsSteady(n, cap, Last(path), FwTake, Last(path'));
  }

  lemma FinishTaken(n: nat, cap: nat, w: Waiter, path: seq<State>) returns (path': seq<State>)
    requires Path(n, cap, w, path) && Inv(n, Last(path)) && Last(path).ch.finished < Last(path).ch.taken
    ensures Path(n, cap, w, path') && path'[0] == path[0] && Inv(n, Last(path'))
    ensures Steady(Last(path), Last(path')) && Last(path').ch.finished > Last(path').ch.retired
  {
    InvInRange(n, Last(path));
    path' := Do(n, cap, w, path, FwFinish(0, 0));
    CallsSteady(n, cap, Last(path), FwFinish(0, 0), Last(path'));
  }

  /** The firmware finishes the next message. */
  lemma FinishNext(n: nat, cap: nat, w: Waiter, path: seq<State>) returns (path': seq<State>)
    requires Path(n, cap, w, path) && Inv(n, Last(path)) && Last(path).ch.retired < |Last(path).ch.sent|
    ensures Path(n, cap, w, path') && path'[0] == path[0] && Inv(n, Last(path'))
    ensures Steady(Last(path), Last(path')) && Last(path').ch.finished > Last(path').ch.retired
  {
    var s := Last(path);
    if s.ch.finished > s.ch.retired {
      path' := path;
    } else if s.ch.taken > s.ch.finished {
      path' := FinishTaken(n, cap, w, path);
    } else {
      path' := TakeNext(n, cap, w, path);
      var t := Last(path');
      path' := FinishTaken(n, cap, w, path');
      SteadyTransitive(s, t, Last(path'));
    }
  }

  /** A handler without work left comes to its end. */
  lemma {:induction false} Drain(n: nat, cap: nat, w: Waiter, path: seq<State>) returns (path': seq<State>)
    requires Path(n, cap, w, path) && Inv(n, Last(path)) && Last(path).irq == Some(0)
    ensures Path(n, cap, w, path') && path'[0] == path[0] && Inv(n, Last(path'))
    ensures Steady(Last(path), Last(path')) && Last(path').irq == None
    decreases |Last(path).q.fifo|
  {
    var s := Last(path);
    InvInRange(n, s);
    path' := Do(n, cap, w, path, IrqDrain);
    CallsSteady(n, cap, s, IrqDrain, Last(path'));
    if s.q.fifo != [] && s.q.fifo[0].Marker? {
      path' := Drain(n, cap, w, path');
    }
  }

  /** The step retired the next message and completed it. */
  ghost predicate Retired(s: State, t: State) {
    && t.q.ids == s.q.ids && t.closed == s.closed && |t.ch.sent| == |s.ch.sent| && t.ch.retired == s.ch.retired + 1
    && s.ch.retired < |s.q.ids|
    && var id := s.q.ids[s.ch.retired];
       id.thr.handle !in s.closed ==> Lookup(t.sq.hCpl, id.thr.handle) == id.seqNo
  }

  lemma PopRetires(n: nat, cap: nat, s: State, s': State)
    requires IsStep(n, cap, s, IrqPop, s') && QueueInv(s.q, s.ch.retired) && Completes(s, IrqPop).Some?
    ensures Retired(s, s')
  {
    CompletesFrom(n, cap, s, IrqPop, s');
    StepCompletes(n, cap, s, IrqPop, s');
    StepQueues(n, cap, s, IrqPop, s');
  }

  /** A handler with work left retires the next message, after the markers before it. */
  lemma {:induction false} PopNext(n: nat, cap: nat, w: Waiter, path: seq<State>) returns (path': seq<State>)
    requires Path(n, cap, w, path) && Inv(n, Last(path)) && Last(path).irq.Some? && Last(path).irq.value > 0
    ensures Path(n, cap, w, path') && path'[0] == path[0] && Inv(n, Last(path'))
    ensures Retired(Last(path), Last(path'))
    decreases |Last(path).q.fifo|
  {
    var s := Last(path);
    InvInRange(n, s);
    NotEmpty(s.q.fifo, s.q.ids, s.q.marks, s.ch.retired, s.q.deviceCpl);
    path' := Do(n, cap, w, path, IrqPop);
    if s.q.fifo[0].Api? {
      PopRetires(n, cap, s, Last(path'));
    } else {
      CallsSteady(n, cap, s, IrqPop, Last(path'));
      path' := PopNext(n, cap, w, path');
    }
  }

  lemma HandlerStarts(n: nat, cap: nat, w: Waiter, path: seq<State>) returns (path': seq<State>)
    requires Path(n, cap, w, path) && Inv(n, Last(path)) && Last(path).ch.finished > Last(path).ch.retired && Last(path).irq == None
    ensures Path(n, cap, w, path') && path'[0] == path[0] && Inv(n, Last(path'))
    ensures Steady(Last(path), Last(path')) && Last(path').irq == Some(1)
  {
    InvInRange(n, Last(path));
    path' := Do(n, cap, w, path, IrqStart(1));
    CallsSteady(n, cap, Last(path), IrqStart(1), Last(path'));
  }

  /** The handler has work, once a message is finished. */
  lemma HandlerRuns(n: nat, cap: nat, w: Waiter, path: seq<State>) returns (path': seq<State>)
    requires Path(n, cap, w, path) && Inv(n, Last(path)) && Last(path).ch.finished > Last(path).ch.retired
    ensures Path(n, cap, w, path') && path'[0] == path[0] && Inv(n, Last(path'))
    ensures Steady(Last(path), Last(path')) && Last(path').irq.Some? && Last(path').irq.value > 0
  {
    var s := Last(path);
    if s.irq == None {
      path' := HandlerStarts(n, cap, w, path);
    } else if s.irq == Some(0) {
      path' := Drain(n, cap, w, path);
      var t := Last(path');
      path' := HandlerStarts(n, cap, w, path');
      SteadyTransitive(s, t, Last(path'));
    } else {
      path' := path;
    }
  }

  lemma SteadyThenRetired(s: State, t: State, u: State, v: State)
    requires Steady(s, t) && Steady(t, u) && Retired(u, v)
    ensures Retired(s, v)
  {
  }

  /** Every published message can be retired next, whatever firmware and handler are doing. */
  lemma RetireNext(n: nat, cap: nat, w: Waiter, path: seq<State>) returns (path': seq<State>)
    requires Path(n, cap, w, path) && Inv(n, Last(path)) && Last(path).ch.retired < |Last(path).ch.sent|
    ensures Path(n, cap, w, path') && path'[0] == path[0] && Inv(n, Last(path'))
    ensures Retired(Last(path), Last(path'))
  {
    path' := FinishNext(n, cap, w, path);
    var t := Last(path');
    path' := HandlerRuns(n, cap, w, path');
    var u := Last(path');
    path' := PopNext(n, cap, w, path');
    SteadyThenRetired(Last(path), t, u, Last(path'));
  }

  lemma {:induction false} RetireTo(n: nat, cap: nat, w: Waiter, path: seq<State>, k: nat) returns (path': seq<State>)
    requires Path(n, cap, w, path) && Inv(n, Last(path)) && Last(path).ch.retired <= k < |Last(path).ch.sent|
    requires k < |Last(path).q.ids|
    ensures Path(n, cap, w, path') && path'[0] == path[0]
    ensures Last(path').ch.retired == k + 1 && Last(path').q.ids == Last(path).q.ids
    ensures var id := Last(path).q.ids[k]; id.thr.handle !in Last(path).closed ==> Lookup(Last(path').sq.hCpl, id.thr.handle) == id.seqNo
    decreases k - Last(path).ch.retired
  {
    path' := RetireNext(n, cap, w, path);
    if Last(path).ch.retired < k {
      path' := RetireTo(n, cap, w, path', k);
    }
  }

  // ---------------------------------------------------------------- the exact condition of handle sync

  /** No number of the handle at or above `v` can still complete on the CPU channel. */
  ghost predicate CpuFree(s: State, handle: nat, v: int) {
    && (forall id :: id in s.sq.cpuPending && id.thr.handle == handle ==> id.seqNo < v)
    && (s.cpuSender.Some? && s.cpuSender.value.id.thr.handle == handle ==> s.cpuSender.value.id.seqNo < v)
  }

  /** Of what the handle had queued by `snap`, only the last can have a number at or above `v` and be unretired. */
  ghost predicate OnlyLast(snap: State, s: State, handle: nat, v: int) {
    forall k, m :: s.ch.retired <= k < m < |snap.q.ids| && snap.q.ids[k].thr.handle == handle && snap.q.ids[m].thr.handle == handle ==>
      snap.q.ids[k].seqNo < v
  }

  /** The number read in `snap` is reached in `s` or can be before everything queued by `snap` is retired: by a
      number of the CPU channel, or because it does not cover everything. */
  ghost predicate ReachedEarly(snap: State, s: State, handle: nat) {
    var v := Lookup(snap.sq.hSend, handle);
    HandleSyncs(snap, s, handle) || (handle !in s.closed && !(CpuFree(s, handle, v) && OnlyLast(snap, s, handle, v)))
  }

  /** From here, as long as the handle starts no new send on the CPU channel, handle sync with the number read
      in `snap` means that everything queued by `snap` is retired. */
  ghost predicate HandleSyncTrusted(n: nat, cap: nat, snap: State, s: State, handle: nat) {
    forall path: seq<State> :: Path(n, cap, OfHandle(handle), path) && path[0] == s && HandleSyncs(snap, Last(path), handle) ==>
      HandleDone(snap, Last(path), handle)
  }

  ghost predicate Covered(snap: State, s: State, handle: nat) {
    snap.q.ids <= s.q.ids && (HandleDone(snap, s, handle) || !ReachedEarly(snap, s, handle))
  }

  lemma StepKeepsCpuFree(n: nat, cap: nat, s: State, a: Action, s': State, handle: nat, v: int)
    requires IsStep(n, cap, s, a, s') && HoldsBack(OfHandle(handle), a) && CpuFree(s, handle, v)
    ensures CpuFree(s', handle, v)
  {
  }

  /** The next XPU message to complete reaches the number only when it is the last one waited for. */
  lemma ReachedByLast(snap: State, s: State, s': State, handle: nat, v: int, id: Id)
    requires snap.q.ids <= s.q.ids && OnlyLast(snap, s, handle, v) && s.ch.retired < |s.q.ids|
    requires id == s.q.ids[s.ch.retired] && id.thr.handle == handle && id.seqNo >= v && s'.ch.retired == s.ch.retired + 1
    ensures HandleDone(snap, s', handle)
  {
  }

  lemma StepCovered(n: nat, cap: nat, snap: State, s: State, a: Action, s': State, handle: nat)
    requires IsStep(n, cap, s, a, s') && HoldsBack(OfHandle(handle), a) && QueueInv(s.q, s.ch.retired)
    requires Covered(snap, s, handle)
    ensures Covered(snap, s', handle)
  {
    var v := Lookup(snap.sq.hSend, handle);
    var c := Completes(s, a);
    ActionExtends(n, cap, s, a, s');
    StepQueues(n, cap, s, a, s');
    StepCompletes(n, cap, s, a, s');
    if !HandleDone(snap, s, handle) && handle !in s.closed {
      StepKeepsCpuFree(n, cap, s, a, s', handle, v);
      if c.Some? && c.value.thr.handle == handle {
        CompletesFrom(n, cap, s, a, s');
        if c.value.seqNo >= v {
          assert a.IrqPop?;
          ReachedByLast(snap, s, s', handle, v, c.value);
        }
      }
    }
  }

  lemma WaitCovered(n: nat, cap: nat, snap: State, s: State, s': State, handle: nat)
    requires WaitStep(n, cap, OfHandle(handle), s, s') && Inv(n, s)
    ensures Covered(snap, s, handle) ==> Covered(snap, s', handle)
  {
    var a: Action :| IsStep(n, cap, s, a, s') && HoldsBack(OfHandle(handle), a);
    if Covered(snap, s, handle) {
      StepCovered(n, cap, snap, s, a, s', handle);
    }
  }

  lemma {:induction false} CoveredChain(snap: State, path: seq<State>, handle: nat, i: nat)
    requires i < |path| && Covered(snap, path[0], handle)
    requires forall k :: 0 <= k < |path| - 1 ==> Covered(snap, path[k], handle) ==> Covered(snap, path[k + 1], handle)
    ensures Covered(snap, path[i], handle)
  {
    if i > 0 {
      CoveredChain(snap, path, handle, i - 1);
      assert Covered(snap, path[i - 1], handle) ==> Covered(snap, path[i - 1 + 1], handle);
    }
  }

  lemma HandleTrusted(n: nat, cap: nat, snap: State, s: State, handle: nat)
    requires Inv(n, s) && Covered(snap, s, handle)
    ensures HandleSyncTrusted(n, cap, snap, s, handle)
  {
    forall path: seq<State> | Path(n, cap, OfHandle(handle), path) && path[0] == s && HandleSyncs(snap, Last(path), handle)
      ensures HandleDone(snap, Last(path), handle)
    {
      forall k | 0 <= k < |path| - 1 ensures Covered(snap, path[k], handle) ==> Covered(snap, path[k + 1], handle) {
        PathInv(n, cap, OfHandle(handle), path, k);
        WaitCovered(n, cap, snap, path[k], path[k + 1], handle);
      }
      CoveredChain(snap, path, handle, |path| - 1);
    }
  }

  /** A pending number of the CPU channel completes ... */
  lemma PendingReaches(n: nat, cap: nat, s: State, path: seq<State>, id: Id) returns (path': seq<State>)
    requires Path(n, cap, OfHandle(id.thr.handle), path) && path[0] == s && Inv(n, Last(path))
    requires id in Last(path).sq.cpuPending && id.thr.handle !in Last(path).closed
    ensures Path(n, cap, OfHandle(id.thr.handle), path') && path'[0] == s
    ensures Last(path').q == Last(path).q && Last(path').ch == Last(path).ch
    ensures Lookup(Last(path').sq.hCpl, id.thr.handle) == id.seqNo
  {
    InvInRange(n, Last(path));
    path' := Do(n, cap, OfHandle(id.thr.handle), path, CpuRetire(id));
  }

  /** ... and so does one that is being sent. */
  lemma SendingReaches(n: nat, cap: nat, s: State, handle: nat) returns (path: seq<State>)
    requires Inv(n, s) && s.cpuSender.Some? && s.cpuSender.value.id.thr.handle == handle && handle !in s.closed
    ensures Path(n, cap, OfHandle(handle), path) && path[0] == s && Last(path).q == s.q && Last(path).ch == s.ch
    ensures Lookup(Last(path).sq.hCpl, handle) == s.cpuSender.value.id.seqNo
  {
    path := [s];
    InvInRange(n, s);
    if !s.cpuSender.value.stored {
      path := Do(n, cap, OfHandle(handle), path, CpuStore);
      InvInRange(n, Last(path));
    }
    path := Do(n, cap, OfHandle(handle), path, CpuPublish);
    path := PendingReaches(n, cap, s, path, s.cpuSender.value.id);
  }

  /** A number that does not cover everything is reached by a message before the last. */
  lemma UncoveredReaches(n: nat, cap: nat, snap: State, s: State, handle: nat) returns (path: seq<State>)
    requires Inv(n, s) && snap.q.ids <= s.q.ids && handle !in s.closed && !OnlyLast(snap, s, handle, Lookup(snap.sq.hSend, handle))
    ensures Path(n, cap, OfHandle(handle), path) && path[0] == s
    ensures HandleSyncs(snap, Last(path), handle) && !HandleDone(snap, Last(path), handle)
  {
    var v := Lookup(snap.sq.hSend, handle);
    var k: int, m: int :| s.ch.retired <= k < m < |snap.q.ids| && snap.q.ids[k].thr.handle == handle
      && snap.q.ids[m].thr.handle == handle && snap.q.ids[k].seqNo >= v;
    assert s.q.ids[k] == snap.q.ids[k];
    path := RetireTo(n, cap, OfHandle(handle), [s], k);
  }

  lemma EarlyIsFooled(n: nat, cap: nat, snap: State, s: State, handle: nat)
    requires Inv(n, s) && snap.q.ids <= s.q.ids && ReachedEarly(snap, s, handle) && !HandleDone(snap, s, handle)
    ensures !HandleSyncTrusted(n, cap, snap, s, handle)
  {
    var v := Lookup(snap.sq.hSend, handle);
    if HandleSyncs(snap, s, handle) {
      assert Path(n, cap, OfHandle(handle), [s]) && Last([s]) == s;
    } else if !OnlyLast(snap, s, handle, v) {
      var path := UncoveredReaches(n, cap, snap, s, handle);
    } else if id :| id in s.sq.cpuPending && id.thr.handle == handle && id.seqNo >= v {
      assert Path(n, cap, OfHandle(handle), [s]) && Last([s]) == s;
      var path := PendingReaches(n, cap, s, [s], id);
      assert !HandleDone(snap, Last(path), handle);
    } else {
      var path := SendingReaches(n, cap, s, handle);
      assert !HandleDone(snap, Last(path), handle);
    }
  }

  /** The exact condition of handle sync, for every snapshot and every later state of every run: waiting on for
      the number read in the snapshot can be trusted, as long as the handle starts no new send on the CPU
      channel, if and only if everything queued by the snapshot is retired already or the number cannot be
      reached early.  A number given up on the CPU channel does no harm by itself. */
  lemma HandleSyncExactly(n: nat, cap: nat, run: seq<State>, i: nat, handle: nat)
    requires ValidRing(n, cap) && Run(n, cap, run) && i < |run|
    ensures HandleSyncTrusted(n, cap, run[i], Last(run), handle) <==>
            HandleDone(run[i], Last(run), handle) || !ReachedEarly(run[i], Last(run), handle)
  {
    RunInv(n, cap, run, |run| - 1);
    RunExtends(n, cap, run, i, |run| - 1);
    if HandleDone(run[i], Last(run), handle) || !ReachedEarly(run[i], Last(run), handle) {
      HandleTrusted(n, cap, run[i], Last(run), handle);
    } else {
      EarlyIsFooled(n, cap, run[i], Last(run), handle);
    }
  }

  /** The number read covers everything queued unless it is one of the CPU channel. */
  lemma SnapshotCovers(n: nat, cap: nat, run: seq<State>, i: nat, s: State, handle: nat)
    requires ValidRing(n, cap) && Run(n, cap, run) && i < |run|
    requires !CpuNumberOfHandle(run[i].sq, handle, Lookup(run[i].sq.hSend, handle))
    ensures OnlyLast(run[i], s, handle, Lookup(run[i].sq.hSend, handle))
  {
    RunInv(n, cap, run, i);
  }

  // ---------------------------------------------------------------- witnesses

  /** Nobody is at work on the XPU channel, and there is room for a message without payload. */
  ghost predicate Idle(n: nat, cap: nat, s: State) {
    && s.sender == None && s.inval == None && s.irq == None && s.closed == {}
    && s.ch.wp < n && s.ch.swRp < n && n - Used(n, s.ch.wp, s.ch.swRp) - 1 >= HEADER && |s.q.fifo| < cap
  }

  /** A whole send without payload. */
  lemma SendNow(n: nat, cap: nat, run: seq<State>, thr: Thread) returns (run': seq<State>)
    requires ValidRing(n, cap) && Run(n, cap, run) && Idle(n, cap, Last(run)) && thr.handle < 0x1_0000_0000_0000_0000
    requires Last(run).cpuSender.Some? ==> Last(run).cpuSender.value.id.thr != thr
    ensures Run(n, cap, run') && run <= run'
    ensures var s, s' := Last(run), Last(run'); var g := s.sq.send + 1;
            && s'.sq == Store(s.sq, Id(thr, g)).(send := g) && s'.cpuSender == s.cpuSender
            && s'.sender == None && s'.inval == None && s'.irq == None && s'.closed == {}
            && s'.q.ids == s.q.ids + [Id(thr, g)] && s'.q.fifo == s.q.fifo + [Api(Id(thr, g))]
            && |s'.ch.sent| == |s.ch.sent| + 1 && s'.ch.taken == s.ch.taken && s'.ch.finished == s.ch.finished
            && s'.ch.retired == s.ch.retired && s'.ch.swRp == s.ch.swRp && s'.ch.wp == AddPointer(n, s.ch.wp, HEADER)
  {
    LastInRange(n, cap, run);
    run' := run;
    RunGrows(n, cap, run', SendBegin(thr, 1, []));
    run' := run' + [Apply(n, cap, Last(run'), SendBegin(thr, 1, []))];
    RunGrows(n, cap, run', SendStore);
    run' := run' + [Apply(n, cap, Last(run'), SendStore)];
    RunGrows(n, cap, run', SendGrant);
    run' := run' + [Apply(n, cap, Last(run'), SendGrant)];
    RunGrows(n, cap, run', SendPush);
    run' := run' + [Apply(n, cap, Last(run'), SendPush)];
    RunGrows(n, cap, run', SendPublish);
    run' := run' + [Apply(n, cap, Last(run'), SendPublish)];
  }

  /** A run from the start in which a thread sends on both channels, and both syncs succeed with its message
      on the XPU channel unretired. */
  lemma FalseSync(n: nat, cap: nat, thr: Thread) returns (run: seq<State>)
    requires ValidRing(n, cap) && thr.handle < 0x1_0000_0000_0000_0000
    ensures Run(n, cap, run) && ThreadSyncs(Last(run), thr) && !ThreadDone(Last(run), thr)
    ensures HandleSyncs(Last(run), Last(run), thr.handle) && !HandleDone(Last(run), Last(run), thr.handle)
  {
    run := SendNow(n, cap, [Init(n)], thr);
    run := SyncsFooledByCpuChannel(n, cap, run, thr);
    assert Last(run).q.ids[0] == Id(thr, 1);
  }

  /** A run from the start to a snapshot that does not cover everything: a number of the CPU channel is stored
      late, over those of two later sends, and given up.  With no number left on the CPU channel, handle sync
      is then satisfied by the first of the two messages. */
  lemma StaleSnapshot(n: nat, cap: nat, handle: nat) returns (run: seq<State>)
    requires ValidRing(n, cap) && n > 2 * HEADER && cap >= 2 && handle < 0x1_0000_0000_0000_0000
    ensures Run(n, cap, run) && Last(run).sq.cpuPending == {} && Last(run).cpuSender == None
    ensures !HandleSyncs(Last(run), Last(run), handle) && !HandleSyncTrusted(n, cap, Last(run), Last(run), handle)
  {
    var a, b := Thread(handle, 1), Thread(handle, 2);
    run := [Init(n)];
    RunGrows(n, cap, run, CpuTake(a));
    run := run + [Apply(n, cap, Last(run), CpuTake(a))];
    run := SendNow(n, cap, run, b);
    assert AddPointer(n, 0, HEADER) == HEADER && Used(n, HEADER, 0) == HEADER;
    run := SendNow(n, cap, run, b);
    LastInRange(n, cap, run);
    RunGrows(n, cap, run, CpuStore);
    run := run + [Apply(n, cap, Last(run), CpuStore)];
    RunGrows(n, cap, run, CpuGiveUp);
    run := run + [Apply(n, cap, Last(run), CpuGiveUp)];
    Uncovered(n, cap, run, b);
  }

  lemma Uncovered(n: nat, cap: nat, run: seq<State>, thr: Thread)
    requires ValidRing(n, cap) && Run(n, cap, run)
    requires var s := Last(run);
             s.closed == {} && s.ch.retired == 0 && s.q.ids == [Id(thr, 2), Id(thr, 3)] && Lookup(s.sq.hSend, thr.handle) == 1
    ensures !HandleSyncTrusted(n, cap, Last(run), Last(run), thr.handle)
  {
    var s := Last(run);
    assert s.q.ids[0] == Id(thr, 2) && s.q.ids[1] == Id(thr, 3);
    HandleSyncExactly(n, cap, run, |run| - 1, thr.handle);
  }
}

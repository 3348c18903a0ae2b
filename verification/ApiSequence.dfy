/** The sequence numbers that the syncs compare: which channel a number went to, how far numbers have
    completed, and what every step of ApiMachine keeps about them. */
module ApiSequence {
  import opened ApiQueue
  import opened ApiMachine
  import opened MsgFifo
  import opened Wrappers

  /** APIs queue in the order of their numbers. */
  ghost predicate Rising(sq: Seqs, ids: seq<Id>) {
    && (forall i :: 0 <= i < |ids| ==> 0 < ids[i].seqNo <= sq.send)
    && (forall i, j :: 0 <= i < j < |ids| ==> ids[i].seqNo < ids[j].seqNo)
  }

  /** No number is on both channels. */
  ghost predicate Apart(sq: Seqs, ids: seq<Id>, sender: Option<Sending>, cpuSender: Option<CpuSending>) {
    && (forall id :: id in sq.cpuIds ==>
          && 0 < id.seqNo <= sq.send
          && (forall k :: 0 <= k < |ids| ==> ids[k].seqNo != id.seqNo)
          && (sender.Some? ==> sender.value.seqNo != id.seqNo))
    && sq.cpuPending <= sq.cpuIds
    && (cpuSender.Some? ==> cpuSender.value.id in sq.cpuIds)
  }

  ghost predicate CpuNumberOf(sq: Seqs, thr: Thread, v: int) {
    exists id :: id in sq.cpuIds && id.thr == thr && id.seqNo == v
  }

  ghost predicate CpuNumberOfHandle(sq: Seqs, handle: nat, v: int) {
    exists id :: id in sq.cpuIds && id.thr.handle == handle && id.seqNo == v
  }

  ghost predicate RetiredNumberOf(ids: seq<Id>, retired: nat, thr: Thread, v: int) {
    exists k :: 0 <= k < retired && k < |ids| && ids[k].thr == thr && ids[k].seqNo == v
  }

  ghost predicate RetiredNumberOfHandle(ids: seq<Id>, retired: nat, handle: nat, v: int) {
    exists k :: 0 <= k < retired && k < |ids| && ids[k].thr.handle == handle && ids[k].seqNo == v
  }

  /** A completed number is that of a retired message or of an API of the CPU channel. */
  ghost predicate CompletedFrom(sq: Seqs, ids: seq<Id>, retired: nat) {
    && (forall t :: t in sq.cpl ==> CpuNumberOf(sq, t, sq.cpl[t]) || RetiredNumberOf(ids, retired, t, sq.cpl[t]))
    && (forall h :: h in sq.hCpl ==>
          CpuNumberOfHandle(sq, h, sq.hCpl[h]) || RetiredNumberOfHandle(ids, retired, h, sq.hCpl[h]))
  }

  /** A thread's last number covers all it queued, and so does a handle's unless it is a number of the CPU
      channel. */
  ghost predicate Covers(sq: Seqs, ids: seq<Id>) {
    forall k :: 0 <= k < |ids| ==>
      && ids[k].seqNo <= Lookup(sq.last, ids[k].thr)
      && (ids[k].seqNo <= Lookup(sq.hSend, ids[k].thr.handle)
          || CpuNumberOfHandle(sq, ids[k].thr.handle, Lookup(sq.hSend, ids[k].thr.handle)))
  }

  ghost predicate SenderInv(sq: Seqs, ids: seq<Id>, sender: Option<Sending>) {
    sender.Some? ==>
      var v := sender.value;
      && 0 < v.seqNo <= sq.send
      && (v.phase != Pushed ==> forall k :: 0 <= k < |ids| ==> ids[k].seqNo < v.seqNo)
      && (v.phase != Taken ==>
            && Lookup(sq.last, v.thr) == v.seqNo
            && (Lookup(sq.hSend, v.thr.handle) == v.seqNo
                || CpuNumberOfHandle(sq, v.thr.handle, Lookup(sq.hSend, v.thr.handle))))
  }

  ghost predicate CpuSenderInv(sq: Seqs, ids: seq<Id>, sender: Option<Sending>, cpuSender: Option<CpuSending>) {
    cpuSender.Some? ==>
      var id := cpuSender.value.id;
      && (forall k :: 0 <= k < |ids| && ids[k].thr == id.thr ==> ids[k].seqNo < id.seqNo)
      && (cpuSender.value.stored ==> Lookup(sq.last, id.thr) == id.seqNo)
      && (sender.Some? ==> sender.value.thr != id.thr)
  }

  ghost predicate SeqInv(sq: Seqs, ids: seq<Id>, retired: nat, sender: Option<Sending>, cpuSender: Option<CpuSending>) {
    && Rising(sq, ids) && Apart(sq, ids, sender, cpuSender) && CompletedFrom(sq, ids, retired) && Covers(sq, ids)
    && SenderInv(sq, ids, sender) && CpuSenderInv(sq, ids, sender, cpuSender)
  }

  lemma BeginKeeps(sq: Seqs, ids: seq<Id>, retired: nat, cpuSender: Option<CpuSending>, thr: Thread, msg: Msg)
    requires SeqInv(sq, ids, retired, None, cpuSender) && (cpuSender.Some? ==> cpuSender.value.id.thr != thr)
    ensures SeqInv(sq.(send := sq.send + 1), ids, retired, Some(Sending(thr, sq.send + 1, msg, Taken)), cpuSender)
  {
    MoreCpuIds(sq, sq.(send := sq.send + 1), ids, retired);
  }

  /** Completed numbers keep their origin. */
  lemma MoreCpuIds(sq: Seqs, sq': Seqs, ids: seq<Id>, retired: nat)
    requires CompletedFrom(sq, ids, retired) && sq.cpl == sq'.cpl && sq.hCpl == sq'.hCpl && sq.cpuIds <= sq'.cpuIds
    ensures CompletedFrom(sq', ids, retired)
  {
    forall t | t in sq'.cpl ensures CpuNumberOf(sq', t, sq'.cpl[t]) || RetiredNumberOf(ids, retired, t, sq'.cpl[t]) {
      if CpuNumberOf(sq, t, sq.cpl[t]) {
        var id :| id in sq.cpuIds && id.thr == t && id.seqNo == sq.cpl[t];
        assert id in sq'.cpuIds;
      }
    }
    forall h | h in sq'.hCpl
      ensures CpuNumberOfHandle(sq', h, sq'.hCpl[h]) || RetiredNumberOfHandle(ids, retired, h, sq'.hCpl[h])
    {
      if CpuNumberOfHandle(sq, h, sq.hCpl[h]) {
        var id :| id in sq.cpuIds && id.thr.handle == h && id.seqNo == sq.hCpl[h];
        assert id in sq'.cpuIds;
      }
    }
  }

  lemma StoreKeeps(sq: Seqs, ids: seq<Id>, retired: nat, v: Sending, cpuSender: Option<CpuSending>)
    requires SeqInv(sq, ids, retired, Some(v), cpuSender) && v.phase == Taken
    ensures SeqInv(Store(sq, Id(v.thr, v.seqNo)), ids, retired, Some(v.(phase := Waiting)), cpuSender)
  {
    MoreCpuIds(sq, Store(sq, Id(v.thr, v.seqNo)), ids, retired);
  }

  lemma GiveUpKeeps(sq: Seqs, ids: seq<Id>, retired: nat, v: Sending, cpuSender: Option<CpuSending>)
    requires SeqInv(sq, ids, retired, Some(v), cpuSender) && (v.phase == Waiting || v.phase == Granted)
    ensures SeqInv(GiveUp(sq, v.thr), ids, retired, None, cpuSender)
  {
    MoreCpuIds(sq, GiveUp(sq, v.thr), ids, retired);
  }

  lemma PushKeeps(sq: Seqs, ids: seq<Id>, retired: nat, v: Sending, cpuSender: Option<CpuSending>)
    requires SeqInv(sq, ids, retired, Some(v), cpuSender) && v.phase == Granted && retired <= |ids|
    ensures SeqInv(sq, ids + [Id(v.thr, v.seqNo)], retired, Some(v.(phase := Pushed)), cpuSender)
  {
    MoreIds(sq, ids, ids + [Id(v.thr, v.seqNo)], retired, retired);
  }

  lemma MoreIds(sq: Seqs, ids: seq<Id>, ids': seq<Id>, retired: nat, retired': nat)
    requires CompletedFrom(sq, ids, retired) && ids <= ids' && retired <= retired'
    ensures CompletedFrom(sq, ids', retired')
  {
    forall t | t in sq.cpl ensures CpuNumberOf(sq, t, sq.cpl[t]) || RetiredNumberOf(ids', retired', t, sq.cpl[t]) {
      if RetiredNumberOf(ids, retired, t, sq.cpl[t]) {
        var k :| 0 <= k < retired && k < |ids| && ids[k].thr == t && ids[k].seqNo == sq.cpl[t];
        assert ids'[k] == ids[k];
      }
    }
    forall h | h in sq.hCpl
      ensures CpuNumberOfHandle(sq, h, sq.hCpl[h]) || RetiredNumberOfHandle(ids', retired', h, sq.hCpl[h])
    {
      if RetiredNumberOfHandle(ids, retired, h, sq.hCpl[h]) {
        var k :| 0 <= k < retired && k < |ids| && ids[k].thr.handle == h && ids[k].seqNo == sq.hCpl[h];
        assert ids'[k] == ids[k];
      }
    }
  }

  lemma CompleteKeeps(sq: Seqs, ids: seq<Id>, retired: nat, sender: Option<Sending>, cpuSender: Option<CpuSending>,
      closed: set<nat>)
    requires SeqInv(sq, ids, retired, sender, cpuSender) && retired < |ids|
    ensures SeqInv(Complete(sq, ids[retired], closed), ids, retired + 1, sender, cpuSender)
  {
    MoreIds(sq, ids, ids, retired, retired + 1);
    CompletedXpu(sq, ids, retired + 1, retired, closed);
  }

  lemma CompletedXpu(sq: Seqs, ids: seq<Id>, retired: nat, k: nat, closed: set<nat>)
    requires CompletedFrom(sq, ids, retired) && k < retired && k < |ids|
    ensures CompletedFrom(Complete(sq, ids[k], closed), ids, retired)
  {
    var sq' := Complete(sq, ids[k], closed);
    forall t | t in sq'.cpl ensures CpuNumberOf(sq', t, sq'.cpl[t]) || RetiredNumberOf(ids, retired, t, sq'.cpl[t]) {
      if t == ids[k].thr && ids[k].thr.handle !in closed {
        assert sq'.cpl[t] == ids[k].seqNo;
      } else {
        assert t in sq.cpl && sq'.cpl[t] == sq.cpl[t];
        assert CpuNumberOf(sq, t, sq.cpl[t]) ==> CpuNumberOf(sq', t, sq'.cpl[t]);
      }
    }
    forall h | h in sq'.hCpl
      ensures CpuNumberOfHandle(sq', h, sq'.hCpl[h]) || RetiredNumberOfHandle(ids, retired, h, sq'.hCpl[h])
    {
      if h == ids[k].thr.handle && h !in closed {
        assert sq'.hCpl[h] == ids[k].seqNo;
      } else {
        assert h in sq.hCpl && sq'.hCpl[h] == sq.hCpl[h];
        assert CpuNumberOfHandle(sq, h, sq.hCpl[h]) ==> CpuNumberOfHandle(sq', h, sq'.hCpl[h]);
      }
    }
  }

  lemma CompletedCpu(sq: Seqs, ids: seq<Id>, retired: nat, id: Id, closed: set<nat>)
    requires CompletedFrom(sq, ids, retired) && id in sq.cpuIds
    ensures CompletedFrom(Complete(sq, id, closed), ids, retired)
  {
    var sq' := Complete(sq, id, closed);
    forall t | t in sq'.cpl ensures CpuNumberOf(sq', t, sq'.cpl[t]) || RetiredNumberOf(ids, retired, t, sq'.cpl[t]) {
      if t == id.thr && id.thr.handle !in closed {
        assert id in sq'.cpuIds && sq'.cpl[t] == id.seqNo;
      } else {
        assert t in sq.cpl && sq'.cpl[t] == sq.cpl[t];
        assert CpuNumberOf(sq, t, sq.cpl[t]) ==> CpuNumberOf(sq', t, sq'.cpl[t]);
      }
    }
    forall h | h in sq'.hCpl
      ensures CpuNumberOfHandle(sq', h, sq'.hCpl[h]) || RetiredNumberOfHandle(ids, retired, h, sq'.hCpl[h])
    {
      if h == id.thr.handle && h !in closed {
        assert id in sq'.cpuIds && sq'.hCpl[h] == id.seqNo;
      } else {
        assert h in sq.hCpl && sq'.hCpl[h] == sq.hCpl[h];
        assert CpuNumberOfHandle(sq, h, sq.hCpl[h]) ==> CpuNumberOfHandle(sq', h, sq'.hCpl[h]);
      }
    }
  }

  function TakeCpu(sq: Seqs, thr: Thread): Seqs {
    sq.(send := sq.send + 1, cpuIds := sq.cpuIds + {Id(thr, sq.send + 1)})
  }

  /** A handle's number that is one of the CPU channel stays one. */
  lemma MoreCpuNumbers(sq: Seqs, sq': Seqs, handle: nat, v: int)
    requires sq.cpuIds <= sq'.cpuIds && CpuNumberOfHandle(sq, handle, v)
    ensures CpuNumberOfHandle(sq', handle, v)
  {
    var id :| id in sq.cpuIds && id.thr.handle == handle && id.seqNo == v;
    assert id in sq'.cpuIds;
  }

  lemma CpuTakeKeeps(sq: Seqs, ids: seq<Id>, retired: nat, sender: Option<Sending>, thr: Thread)
    requires SeqInv(sq, ids, retired, sender, None) && (sender.Some? ==> sender.value.thr != thr)
    ensures SeqInv(TakeCpu(sq, thr), ids, retired, sender, Some(CpuSending(Id(thr, sq.send + 1), false)))
  {
    var sq' := TakeCpu(sq, thr);
    MoreCpuIds(sq, sq', ids, retired);
    forall k | 0 <= k < |ids|
      ensures ids[k].seqNo <= Lookup(sq'.hSend, ids[k].thr.handle)
              || CpuNumberOfHandle(sq', ids[k].thr.handle, Lookup(sq'.hSend, ids[k].thr.handle))
    {
      if ids[k].seqNo > Lookup(sq.hSend, ids[k].thr.handle) {
        MoreCpuNumbers(sq, sq', ids[k].thr.handle, Lookup(sq.hSend, ids[k].thr.handle));
      }
    }
    if sender.Some? && CpuNumberOfHandle(sq, sender.value.thr.handle, Lookup(sq.hSend, sender.value.thr.handle)) {
      MoreCpuNumbers(sq, sq', sender.value.thr.handle, Lookup(sq.hSend, sender.value.thr.handle));
    }
  }

  lemma CpuStoreKeeps(sq: Seqs, ids: seq<Id>, retired: nat, sender: Option<Sending>, c: CpuSending)
    requires SeqInv(sq, ids, retired, sender, Some(c))
    ensures SeqInv(Store(sq, c.id), ids, retired, sender, Some(c.(stored := true)))
  {
    var sq' := Store(sq, c.id);
    MoreCpuIds(sq, sq', ids, retired);
    assert c.id in sq'.cpuIds;
    assert CpuNumberOfHandle(sq', c.id.thr.handle, Lookup(sq'.hSend, c.id.thr.handle));
    forall k | 0 <= k < |ids|
      ensures ids[k].seqNo <= Lookup(sq'.hSend, ids[k].thr.handle)
              || CpuNumberOfHandle(sq', ids[k].thr.handle, Lookup(sq'.hSend, ids[k].thr.handle))
    {
      if ids[k].thr.handle != c.id.thr.handle && ids[k].seqNo > Lookup(sq.hSend, ids[k].thr.handle) {
        MoreCpuNumbers(sq, sq', ids[k].thr.handle, Lookup(sq.hSend, ids[k].thr.handle));
      }
    }
    if sender.Some? && sender.value.thr.handle != c.id.thr.handle
       && CpuNumberOfHandle(sq, sender.value.thr.handle, Lookup(sq.hSend, sender.value.thr.handle)) {
      MoreCpuNumbers(sq, sq', sender.value.thr.handle, Lookup(sq.hSend, sender.value.thr.handle));
    }
  }

  lemma CpuPublishKeeps(sq: Seqs, ids: seq<Id>, retired: nat, sender: Option<Sending>, c: CpuSending)
    requires SeqInv(sq, ids, retired, sender, Some(c))
    ensures SeqInv(sq.(cpuPending := sq.cpuPending + {c.id}), ids, retired, sender, None)
  {
    MoreCpuIds(sq, sq.(cpuPending := sq.cpuPending + {c.id}), ids, retired);
  }

  lemma CpuGiveUpKeeps(sq: Seqs, ids: seq<Id>, retired: nat, sender: Option<Sending>, c: CpuSending)
    requires SeqInv(sq, ids, retired, sender, Some(c)) && c.stored
    ensures SeqInv(GiveUp(sq, c.id.thr), ids, retired, sender, None)
  {
    MoreCpuIds(sq, GiveUp(sq, c.id.thr), ids, retired);
  }

  lemma CpuRetireKeeps(sq: Seqs, ids: seq<Id>, retired: nat, sender: Option<Sending>, cpuSender: Option<CpuSending>,
      id: Id, closed: set<nat>)
    requires SeqInv(sq, ids, retired, sender, cpuSender) && id in sq.cpuPending
    ensures SeqInv(Complete(sq, id, closed).(cpuPending := sq.cpuPending - {id}), ids, retired, sender, cpuSender)
  {
    CompletedCpu(sq, ids, retired, id, closed);
    var done := Complete(sq, id, closed);
    MoreCpuIds(done, done.(cpuPending := sq.cpuPending - {id}), ids, retired);
  }
}

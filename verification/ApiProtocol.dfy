/** What holds in every run of the XPU channel: the ring and the kfifo agree, device sync means what it
    promises, and an invalidation is complete.  ApiSync has the other two syncs. */
module ApiProtocol {
  import opened Ring
  import opened MsgFifo
  import opened ApiQueue
  import opened ApiMachine
  import opened ApiSequence
  import opened Wrappers

  // ---------------------------------------------------------------- the whole

  /** The kfifo lines up with what is unretired, and passed markers had only retired APIs before them. */
  ghost predicate QueueInv(q: Queue, retired: nat) {
    && Lined(q.fifo, q.ids, q.marks, retired, q.deviceCpl)
    && q.deviceLast == |q.marks|
    && forall m :: 0 <= m < q.deviceCpl && m < |q.marks| ==> q.marks[m] <= retired
  }

  /** Message k of the ring carries the number of entry k, and its handle until that was invalidated. */
  ghost predicate Carries(sent: seq<Msg>, ids: seq<Id>) {
    && |sent| <= |ids|
    && forall k :: 0 <= k < |sent| ==>
         && sent[k].seqNo == ids[k].seqNo % 0x1_0000_0000
         && (sent[k].handle == ids[k].thr.handle || sent[k].handle == 0)
  }

  predicate IsPushed(sender: Option<Sending>) {
    sender.Some? && sender.value.phase == Pushed
  }

  ghost predicate LinkInv(sent: seq<Msg>, ids: seq<Id>, sender: Option<Sending>) {
    && |ids| == |sent| + (if IsPushed(sender) then 1 else 0)
    && Carries(sent, ids)
    && (sender.Some? ==>
          var v := sender.value;
          && v.msg.seqNo == v.seqNo % 0x1_0000_0000 && v.msg.handle == v.thr.handle
          && (v.phase == Pushed ==> ids[|sent|] == Id(v.thr, v.seqNo)))
  }

  ghost predicate LockInv(s: State) {
    && (s.sender == None || s.inval == None)
    && (s.irq.Some? ==> s.ch.retired + s.irq.value <= s.ch.finished)
    && (s.irq == None ==> s.q.fifo == [] || s.q.fifo[0].Api?)
  }

  ghost predicate SeqOk(s: State) {
    SeqInv(s.sq, s.q.ids, s.ch.retired, s.sender, s.cpuSender)
  }

  ghost predicate Inv(n: nat, s: State) {
    && ChanInv(n, s.ch) && SpaceInv(n, s.ch, s.sender) && InvalInv(n, s.ch, s.inval)
    && QueueInv(s.q, s.ch.retired)
    && LinkInv(s.ch.sent, s.q.ids, s.sender)
    && SeqOk(s)
    && LockInv(s)
  }

  lemma InitInv(n: nat, cap: nat)
    requires ValidRing(n, cap)
    ensures Inv(n, Init(n))
  {
  }

  lemma PopMarkerKeeps(q: Queue, retired: nat)
    requires QueueInv(q, retired) && q.fifo != [] && q.fifo[0].Marker?
    ensures QueueInv(q.(fifo := q.fifo[1..], deviceCpl := q.fifo[0].number), retired)
    ensures q.fifo[0].number == q.deviceCpl + 1
  {
  }

  lemma PopApiKeeps(q: Queue, retired: nat)
    requires QueueInv(q, retired) && q.fifo != [] && q.fifo[0].Api?
    ensures retired < |q.ids| && q.fifo[0].id == q.ids[retired]
    ensures QueueInv(q.(fifo := q.fifo[1..]), retired + 1)
  {
  }

  lemma MarkKeeps(q: Queue, retired: nat)
    requires QueueInv(q, retired)
    ensures QueueInv(q.(deviceLast := q.deviceLast + 1, fifo := q.fifo + [Marker(q.deviceLast + 1)],
                        marks := q.marks + [|q.ids|]), retired)
  {
    LinedApis(q.fifo, q.ids, q.marks, retired, q.deviceCpl);
    QueueMarker(q.fifo, q.ids, q.marks, retired, q.deviceCpl);
  }

  lemma QueuePushKeeps(q: Queue, retired: nat, id: Id)
    requires QueueInv(q, retired)
    ensures QueueInv(q.(fifo := q.fifo + [Api(id)], ids := q.ids + [id]), retired)
  {
    QueueApi(q.fifo, q.ids, q.marks, retired, q.deviceCpl, id);
  }

  // ---------------------------------------------------------------- every step keeps the invariant

  lemma InvInRange(n: nat, s: State)
    requires Inv(n, s)
    ensures InRange(n, s)
  {
    PointersInRange(n, s.ch);
    if s.inval.Some? {
      PosInRange(n, s.ch.sizes, s.inval.value.idx);
    }
    if s.sender.Some? && s.sender.value.phase == Pushed {
      OffMonotone(s.ch.sizes, s.ch.low, |s.ch.sent|);
    }
  }

  lemma LinkPublish(sent: seq<Msg>, ids: seq<Id>, v: Sending)
    requires LinkInv(sent, ids, Some(v)) && v.phase == Pushed
    ensures LinkInv(sent + [v.msg], ids, None)
  {
  }

  lemma LinkPush(sent: seq<Msg>, ids: seq<Id>, v: Sending)
    requires LinkInv(sent, ids, Some(v)) && v.phase == Granted
    ensures LinkInv(sent, ids + [Id(v.thr, v.seqNo)], Some(v.(phase := Pushed)))
  {
  }

  lemma LinkBlank(sent: seq<Msg>, ids: seq<Id>, idx: nat)
    requires LinkInv(sent, ids, None) && idx < |sent|
    ensures LinkInv(sent[idx := Blank(sent[idx])], ids, None)
  {
  }

  // Each part of the invariant is kept by itself; NextKeepsInv puts the parts together.

  lemma InvalStepRing(n: nat, s: State)
    requires InRange(n, s) && ChanInv(n, s.ch) && InvalInv(n, s.ch, s.inval) && s.inval.Some?
    requires s.inval.value.cur != s.inval.value.end
    ensures s.inval.value.idx < |s.ch.sent|
    ensures HandleAt(n, s.ch.words, s.inval.value.cur) == s.ch.sent[s.inval.value.idx].handle
    ensures AddPointer(n, s.inval.value.cur, SizeAt(n, s.ch.words, s.inval.value.cur)) == Pos(n, s.ch.sizes, s.inval.value.idx + 1)
  {
    SizeReads(n, s.ch, s.inval.value.idx);
  }

  lemma InvalStepChan(n: nat, s: State)
    requires InRange(n, s) && ChanInv(n, s.ch) && InvalInv(n, s.ch, s.inval) && s.inval.Some?
    requires s.inval.value.cur != s.inval.value.end
    ensures ChanInv(n, InvalidateOne(n, s).ch)
  {
    var v := s.inval.value;
    InvalStepRing(n, s);
    if s.ch.sent[v.idx].handle == v.handle {
      InvalidateKeeps(n, s.ch, v.idx);
    }
  }

  lemma InvalInvNext(n: nat, ch: Chan, v: Inval, ch': Chan, v': Inval)
    requires Counts(ch) && InvalInv(n, ch, Some(v)) && v.idx < |ch.sent|
    requires ch' == ch.(words := ch'.words, sent := ch'.sent) && v' == v.(cur := Pos(n, ch.sizes, v.idx + 1), idx := v.idx + 1)
    requires ch'.sent == if ch.sent[v.idx].handle == v.handle then ch.sent[v.idx := Blank(ch.sent[v.idx])] else ch.sent
    ensures Counts(ch') && InvalInv(n, ch', Some(v'))
  {
    InvalidatedStep(ch.sent, v.before, v.start, v.idx, v.handle);
  }

  lemma InvalStepInval(n: nat, s: State, s': State)
    requires InRange(n, s) && ChanInv(n, s.ch) && InvalInv(n, s.ch, s.inval) && s.inval.Some?
    requires s.inval.value.cur != s.inval.value.end && s' == InvalidateOne(n, s)
    ensures Counts(s'.ch) && InvalInv(n, s'.ch, s'.inval)
  {
    InvalStepRing(n, s);
    InvalInvNext(n, s.ch, s.inval.value, s'.ch, s'.inval.value);
  }

  lemma NextKeepsChan(n: nat, cap: nat, s: State, a: Action, s': State)
    requires IsStep(n, cap, s, a, s')
    requires ChanInv(n, s.ch) && SpaceInv(n, s.ch, s.sender) && InvalInv(n, s.ch, s.inval) && LockInv(s)
    ensures ChanInv(n, s'.ch)
  {
    match a
    case SendGrant => GrantKeeps(n, s.ch, s.sender.value.msg);
    case SendPublish => PublishKeeps(n, s.ch, s.sender.value.msg);
    case FwTake => TakeKeeps(n, s.ch);
    case FwFinish(duration, result) => FinishKeeps(n, s.ch, duration, result);
    case IrqPop =>
      if s.q.fifo != [] && s.q.fifo[0].Api? {
        RetireKeeps(n, s.ch);
      }
    case InvalStep => InvalStepChan(n, s);
    case _ =>
  }

  lemma NextKeepsSpace(n: nat, cap: nat, s: State, a: Action, s': State)
    requires IsStep(n, cap, s, a, s')
    requires ChanInv(n, s.ch) && SpaceInv(n, s.ch, s.sender) && LockInv(s) && ChanInv(n, s'.ch)
    ensures SpaceInv(n, s'.ch, s'.sender)
  {
    if a.SendGrant? {
      GrantKeeps(n, s.ch, s.sender.value.msg);
    }
  }

  lemma InvalFrame(n: nat, cap: nat, s: State, a: Action, s': State)
    requires IsStep(n, cap, s, a, s') && !a.InvalStart? && !a.InvalStep? && !a.InvalDone?
    requires s.sender == None || s.inval == None
    ensures s'.inval == s.inval
    ensures s.inval.Some? ==> s'.ch.low == s.ch.low && s'.ch.sent == s.ch.sent && s'.ch.sizes == s.ch.sizes && s'.ch.wp == s.ch.wp
  {
  }

  lemma InvalFramed(n: nat, ch: Chan, ch': Chan, inval: Option<Inval>)
    requires Counts(ch) && Counts(ch') && InvalInv(n, ch, inval)
    requires inval.Some? ==> ch'.low == ch.low && ch'.sent == ch.sent && ch'.sizes == ch.sizes && ch'.wp == ch.wp
    ensures InvalInv(n, ch', inval)
  {
  }

  lemma NextKeepsInval(n: nat, cap: nat, s: State, a: Action, s': State)
    requires IsStep(n, cap, s, a, s')
    requires ChanInv(n, s.ch) && InvalInv(n, s.ch, s.inval) && LockInv(s) && ChanInv(n, s'.ch)
    ensures InvalInv(n, s'.ch, s'.inval)
  {
    if a.InvalStep? {
      InvalStepInval(n, s, s');
    } else if !a.InvalStart? && !a.InvalDone? {
      InvalFrame(n, cap, s, a, s');
      InvalFramed(n, s.ch, s'.ch, s.inval);
    }
  }

  lemma NextKeepsQueue(n: nat, cap: nat, s: State, a: Action, s': State)
    requires IsStep(n, cap, s, a, s')
    requires QueueInv(s.q, s.ch.retired)
    ensures QueueInv(s'.q, s'.ch.retired)
  {
    match a
    case SendPush => QueuePushKeeps(s.q, s.ch.retired, Id(s.sender.value.thr, s.sender.value.seqNo));
    case IrqPop =>
      if s.q.fifo != [] && s.q.fifo[0].Api? {
        PopApiKeeps(s.q, s.ch.retired);
      } else if s.q.fifo != [] {
        PopMarkerKeeps(s.q, s.ch.retired);
      }
    case IrqDrain =>
      if s.q.fifo != [] && s.q.fifo[0].Marker? {
        PopMarkerKeeps(s.q, s.ch.retired);
      }
    case DeviceSync => MarkKeeps(s.q, s.ch.retired);
    case _ =>
  }

  lemma NextKeepsLink(n: nat, cap: nat, s: State, a: Action, s': State)
    requires IsStep(n, cap, s, a, s')
    requires LinkInv(s.ch.sent, s.q.ids, s.sender) && (s.sender == None || s.inval == None)
    ensures LinkInv(s'.ch.sent, s'.q.ids, s'.sender)
  {
    match a
    case SendPush => LinkPush(s.ch.sent, s.q.ids, s.sender.value);
    case SendPublish => LinkPublish(s.ch.sent, s.q.ids, s.sender.value);
    case InvalStep =>
      if s.inval.value.idx < |s.ch.sent| {
        LinkBlank(s.ch.sent, s.q.ids, s.inval.value.idx);
      }
    case _ =>
  }

  lemma SendKeepsSeq(n: nat, cap: nat, s: State, a: Action, s': State)
    requires IsStep(n, cap, s, a, s') && SeqOk(s) && QueueInv(s.q, s.ch.retired)
    requires a.SendBegin? || a.SendStore? || a.SendGiveUp?
    ensures SeqOk(s')
  {
    match a
    case SendBegin(thr, id, payload) =>
      BeginKeeps(s.sq, s.q.ids, s.ch.retired, s.cpuSender, thr, Msg(id, thr.handle, (s.sq.send + 1) % 0x1_0000_0000, payload));
    case SendStore => StoreKeeps(s.sq, s.q.ids, s.ch.retired, s.sender.value, s.cpuSender);
    case SendGiveUp => GiveUpKeeps(s.sq, s.q.ids, s.ch.retired, s.sender.value, s.cpuSender);
  }

  lemma CpuKeepsSeq(n: nat, cap: nat, s: State, a: Action, s': State)
    requires IsStep(n, cap, s, a, s') && SeqOk(s)
    requires a.CpuTake? || a.CpuStore? || a.CpuPublish? || a.CpuGiveUp? || a.CpuRetire?
    ensures SeqOk(s')
  {
    match a
    case CpuTake(thr) => CpuTakeKeeps(s.sq, s.q.ids, s.ch.retired, s.sender, thr);
    case CpuStore => CpuStoreKeeps(s.sq, s.q.ids, s.ch.retired, s.sender, s.cpuSender.value);
    case CpuPublish => CpuPublishKeeps(s.sq, s.q.ids, s.ch.retired, s.sender, s.cpuSender.value);
    case CpuGiveUp => CpuGiveUpKeeps(s.sq, s.q.ids, s.ch.retired, s.sender, s.cpuSender.value);
    case CpuRetire(id) => CpuRetireKeeps(s.sq, s.q.ids, s.ch.retired, s.sender, s.cpuSender, id, s.closed);
  }

  /** Steps that touch neither numbers nor queue nor what is retired. */
  lemma OtherKeepsSeq(s: State, s': State)
    requires SeqOk(s) && s'.sq == s.sq && s'.q.ids == s.q.ids && s'.ch.retired == s.ch.retired && s'.cpuSender == s.cpuSender
    requires s'.sender == s.sender
             || (s.sender.Some? && s.sender.value.phase == Waiting && s'.sender == Some(s.sender.value.(phase := Granted)))
             || (s.sender.Some? && s.sender.value.phase == Pushed && s'.sender == None)
    ensures SeqOk(s')
  {
  }

  lemma NextKeepsSeq(n: nat, cap: nat, s: State, a: Action, s': State)
    requires IsStep(n, cap, s, a, s') && SeqOk(s) && QueueInv(s.q, s.ch.retired)
    ensures SeqOk(s')
  {
    if a.SendBegin? || a.SendStore? || a.SendGiveUp? {
      SendKeepsSeq(n, cap, s, a, s');
    } else if a.CpuTake? || a.CpuStore? || a.CpuPublish? || a.CpuGiveUp? || a.CpuRetire? {
      CpuKeepsSeq(n, cap, s, a, s');
    } else if a.SendPush? {
      PushSeq(s);
    } else if a.IrqPop? && s.q.fifo != [] && s.q.fifo[0].Api? {
      PopSeq(s);
    } else {
      OtherKeepsSeq(s, s');
    }
  }

  lemma PushSeq(s: State)
    requires SeqInv(s.sq, s.q.ids, s.ch.retired, s.sender, s.cpuSender) && QueueInv(s.q, s.ch.retired)
    requires s.sender.Some? && s.sender.value.phase == Granted
    ensures var v := s.sender.value;
            SeqInv(s.sq, s.q.ids + [Id(v.thr, v.seqNo)], s.ch.retired, Some(v.(phase := Pushed)), s.cpuSender)
  {
    LinedApis(s.q.fifo, s.q.ids, s.q.marks, s.ch.retired, s.q.deviceCpl);
    PushKeeps(s.sq, s.q.ids, s.ch.retired, s.sender.value, s.cpuSender);
  }

  lemma PopSeq(s: State)
    requires SeqInv(s.sq, s.q.ids, s.ch.retired, s.sender, s.cpuSender) && QueueInv(s.q, s.ch.retired)
    ensures s.q.fifo != [] && s.q.fifo[0].Api? ==>
              SeqInv(Complete(s.sq, s.q.fifo[0].id, s.closed), s.q.ids, s.ch.retired + 1, s.sender, s.cpuSender)
  {
    if s.q.fifo != [] && s.q.fifo[0].Api? {
      PopApiKeeps(s.q, s.ch.retired);
      CompleteKeeps(s.sq, s.q.ids, s.ch.retired, s.sender, s.cpuSender, s.closed);
    }
  }

  lemma NextKeepsLock(n: nat, cap: nat, s: State, a: Action, s': State)
    requires IsStep(n, cap, s, a, s') && LockInv(s)
    ensures LockInv(s')
  {
  }

  lemma NextKeepsInv(n: nat, cap: nat, s: State, a: Action, s': State)
    requires Inv(n, s) && IsStep(n, cap, s, a, s')
    ensures Inv(n, s')
  {
    NextKeepsChan(n, cap, s, a, s');
    NextKeepsSpace(n, cap, s, a, s');
    NextKeepsInval(n, cap, s, a, s');
    NextKeepsQueue(n, cap, s, a, s');
    NextKeepsLink(n, cap, s, a, s');
    NextKeepsSeq(n, cap, s, a, s');
    NextKeepsLock(n, cap, s, a, s');
  }

  lemma {:induction false} RunInv(n: nat, cap: nat, run: seq<State>, i: nat)
    requires ValidRing(n, cap) && Run(n, cap, run) && i < |run|
    ensures Inv(n, run[i])
  {
    if i == 0 {
      InitInv(n, cap);
    } else {
      RunInv(n, cap, run, i - 1);
      StepKeepsInv(n, cap, run[i - 1], run[i]);
    }
  }

  lemma StepKeepsInv(n: nat, cap: nat, s: State, s': State)
    requires Inv(n, s) && Next(n, cap, s, s')
    ensures Inv(n, s')
  {
    var a: Action :| IsStep(n, cap, s, a, s');
    NextKeepsInv(n, cap, s, a, s');
  }

  // ---------------------------------------------------------------- what holds in every run

  /** In every run the words from sw_rp to wp are exactly the unretired messages, whole and in order; the
      API entries of the kfifo are theirs, plus at most the one that is pushed but not yet published; and
      the ring is never so full that it would look empty. */
  lemma RingHoldsUnretired(n: nat, cap: nat, run: seq<State>, i: nat)
    requires ValidRing(n, cap) && Run(n, cap, run) && i < |run|
    ensures var ch, q := run[i].ch, run[i].q;
            && ch.retired <= |ch.sent| == |ch.sizes| <= |q.ids|
            && ch.swRp == Pos(n, ch.sizes, ch.retired) < n && ch.wp == Pos(n, ch.sizes, |ch.sent|) < n
            && Used(n, ch.wp, ch.swRp) == Off(ch.sizes, |ch.sent|) - Off(ch.sizes, ch.retired) < n
            && (ch.wp == ch.swRp <==> ch.retired == |ch.sent|)
            && AllLaid(n, ch.words, ch.sent, ch.sizes, ch.retired)
            && Apis(q.fifo) == q.ids[ch.retired..]
            && |q.ids| == |ch.sent| + (if IsPushed(run[i].sender) then 1 else 0)
            && Carries(ch.sent, q.ids)
  {
    RunInv(n, cap, run, i);
    RingOf(n, run[i].ch);
    var q := run[i].q;
    LinedApis(q.fifo, q.ids, q.marks, run[i].ch.retired, q.deviceCpl);
  }

  lemma RingOf(n: nat, ch: Chan)
    requires ChanInv(n, ch)
    ensures ch.swRp < n && ch.wp < n
    ensures Used(n, ch.wp, ch.swRp) == Off(ch.sizes, |ch.sent|) - Off(ch.sizes, ch.retired) < n
    ensures ch.wp == ch.swRp <==> ch.retired == |ch.sent|
    ensures AllLaid(n, ch.words, ch.sent, ch.sizes, ch.retired)
  {
    OffMonotone(ch.sizes, ch.low, ch.retired);
    Distance(n, ch.sizes, ch.retired, |ch.sent|);
  }

  /** A send never touches an unretired message: whatever step comes next, the messages not retired before
      it are still in the ring afterwards, except for the handles an invalidation blanks. */
  lemma UnretiredSurvive(n: nat, cap: nat, run: seq<State>, i: nat, k: nat)
    requires ValidRing(n, cap) && Run(n, cap, run) && i + 1 < |run|
    requires run[i].ch.retired <= k < |run[i].ch.sent|
    ensures var ch, ch' := run[i].ch, run[i + 1].ch;
            && k < |ch'.sent| == |ch'.sizes| && |ch.sizes| == |ch.sent|
            && Pos(n, ch'.sizes, k) == Pos(n, ch.sizes, k)
            && Laid(n, ch'.words, Pos(n, ch'.sizes, k), ch'.sent[k])
            && (ch'.sent[k] == ch.sent[k] || ch'.sent[k] == Blank(ch.sent[k]))
  {
    RunInv(n, cap, run, i);
    RunInv(n, cap, run, i + 1);
    var a: Action :| IsStep(n, cap, run[i], a, run[i + 1]);
    MessageKept(n, cap, run[i], a, run[i + 1], k);
    if a.SendGrant? {
      assert run[i + 1].ch.low <= k;
    }
  }

  lemma MessageKept(n: nat, cap: nat, s: State, a: Action, s': State, k: nat)
    requires IsStep(n, cap, s, a, s') && Counts(s.ch) && Counts(s'.ch)
    requires s.ch.low <= s.ch.retired <= k < |s.ch.sent|
    ensures k < |s'.ch.sent| && s'.ch.low <= k
    ensures s'.ch.sent[k] == s.ch.sent[k] || s'.ch.sent[k] == Blank(s.ch.sent[k])
    ensures Pos(n, s'.ch.sizes, k) == Pos(n, s.ch.sizes, k)
  {
    if a.SendPublish? {
      PosKept(n, s.ch.sizes, WordLen(s.sender.value.msg), k);
    }
  }

  ghost predicate Modular(n: nat, cur: nat, val: nat)
    requires n > 0
  {
    AddPointer(n, cur, val) == (cur + val) % n
  }

  lemma SendIsModular(n: nat, ch: Chan, v: Sending, k: nat)
    requires ChanInv(n, ch) && SpaceInv(n, ch, Some(v)) && ch.wp < n && (v.phase == Granted || v.phase == Pushed) && k <= WordLen(v.msg)
    ensures Modular(n, ch.wp, k)
  {
    OffMonotone(ch.sizes, ch.low, |ch.sent|);
    AddPointerIsModular(n, ch.wp, k);
  }

  lemma RecordIsModular(n: nat, ch: Chan, i: nat, k: nat)
    requires ChanInv(n, ch) && ch.low <= i < |ch.sent| && Pos(n, ch.sizes, i) < n
    requires k <= SizeAt(n, ch.words, Pos(n, ch.sizes, i))
    ensures Modular(n, Pos(n, ch.sizes, i), k)
  {
    RecordSize(n, ch, i);
    ShortIsModular(n, Pos(n, ch.sizes, i), k);
  }

  lemma RecordSize(n: nat, ch: Chan, i: nat)
    requires ChanInv(n, ch) && ch.low <= i < |ch.sent| && Pos(n, ch.sizes, i) < n
    ensures SizeAt(n, ch.words, Pos(n, ch.sizes, i)) < n
  {
    SizeReads(n, ch, i);
  }

  lemma ShortIsModular(n: nat, cur: nat, k: nat)
    requires cur < n && k < n
    ensures Modular(n, cur, k)
  {
    AddPointerIsModular(n, cur, k);
  }

  /** In every run every add_pointer call the host makes is addition modulo the ring size: filling a granted
      message, retiring the next one, and a round of an invalidation. */
  lemma EveryAddPointerIsModular(n: nat, cap: nat, run: seq<State>, i: nat, k: nat)
    requires ValidRing(n, cap) && Run(n, cap, run) && i < |run|
    ensures InRange(n, run[i])
    ensures var s := run[i];
            s.sender.Some? && s.sender.value.phase in {Granted, Pushed} && k <= WordLen(s.sender.value.msg) ==>
              Modular(n, s.ch.wp, k)
    ensures var s := run[i];
            s.ch.retired < |s.ch.sent| && k <= SizeAt(n, s.ch.words, s.ch.swRp) ==> Modular(n, s.ch.swRp, k)
    ensures var s := run[i];
            s.inval.Some? && s.inval.value.cur != s.inval.value.end && k <= SizeAt(n, s.ch.words, s.inval.value.cur) ==>
              Modular(n, s.inval.value.cur, k)
  {
    var s := run[i];
    RunInv(n, cap, run, i);
    InvInRange(n, s);
    if s.sender.Some? && s.sender.value.phase in {Granted, Pushed} && k <= WordLen(s.sender.value.msg) {
      SendIsModular(n, s.ch, s.sender.value, k);
    }
    if s.ch.retired < |s.ch.sent| && k <= SizeAt(n, s.ch.words, s.ch.swRp) {
      RecordIsModular(n, s.ch, s.ch.retired, k);
    }
    if s.inval.Some? && s.inval.value.cur != s.inval.value.end && k <= SizeAt(n, s.ch.words, s.inval.value.cur) {
      InvalStepRing(n, s);
      RecordIsModular(n, s.ch, s.inval.value.idx, k);
    }
  }

  /** The handler never finds the kfifo empty while messages are pending, and no marker is left at the head
      when it has finished. */
  lemma HandlerNeverStarves(n: nat, cap: nat, run: seq<State>, i: nat)
    requires ValidRing(n, cap) && Run(n, cap, run) && i < |run|
    ensures run[i].irq.Some? && run[i].irq.value > 0 ==> run[i].q.fifo != []
    ensures run[i].irq == None && run[i].q.fifo != [] ==> run[i].q.fifo[0].Api?
  {
    RunInv(n, cap, run, i);
    var s := run[i];
    if s.irq.Some? && s.irq.value > 0 {
      NotEmpty(s.q.fifo, s.q.ids, s.q.marks, s.ch.retired, s.q.deviceCpl);
    }
  }

  // ---------------------------------------------------------------- what a send puts into the ring

  /** The same send is in progress. */
  predicate SameSend(sender: Option<Sending>, sender': Option<Sending>) {
    && sender.Some? && sender'.Some? && sender'.value.msg == sender.value.msg
    && sender'.value.thr == sender.value.thr && sender'.value.seqNo == sender.value.seqNo
  }

  lemma SenderKept(n: nat, cap: nat, s: State, s': State)
    requires Next(n, cap, s, s') && s.sender.Some? && s'.sender.Some?
    ensures SameSend(s.sender, s'.sender)
  {
    var a: Action :| IsStep(n, cap, s, a, s');
  }

  lemma {:induction false} SendKept(n: nat, cap: nat, run: seq<State>, i: nat, j: nat)
    requires Run(n, cap, run) && i <= j < |run| && forall k :: i <= k <= j ==> run[k].sender.Some?
    ensures SameSend(run[i].sender, run[j].sender)
    decreases j
  {
    if i < j {
      SendKept(n, cap, run, i, j - 1);
      assert Next(n, cap, run[j - 1], run[j - 1 + 1]);
      SenderKept(n, cap, run[j - 1], run[j]);
    }
  }

  lemma Published(n: nat, cap: nat, s: State, s': State)
    requires IsStep(n, cap, s, SendPublish, s') && ChanInv(n, s'.ch) && Counts(s.ch) && s.ch.wp == Pos(n, s'.ch.sizes, |s.ch.sent|)
    ensures s'.ch.sent == s.ch.sent + [s.sender.value.msg] && ReadsAs(n, s'.ch.words, s.ch.wp, s.sender.value.msg)
  {
    var k := |s.ch.sent|;
    assert s'.ch.sent[k] == s.sender.value.msg;
    assert Laid(n, s'.ch.words, Pos(n, s'.ch.sizes, k), s'.ch.sent[k]);
    LaidReadsAs(n, s'.ch.words, s.ch.wp, s.sender.value.msg);
  }

  /** What a thread hands to a send is what the firmware finds in the ring when the send is over: the API's number,
      its arguments in their order, the file handle, and the next sequence number, at the old write pointer. */
  lemma SendArrives(n: nat, cap: nat, run: seq<State>, i: nat, j: nat, thr: Thread, id: Word32, payload: seq<Word32>)
    requires ValidRing(n, cap) && Run(n, cap, run) && i < j && j + 1 < |run|
    requires IsStep(n, cap, run[i], SendBegin(thr, id, payload), run[i + 1]) && IsStep(n, cap, run[j], SendPublish, run[j + 1])
    requires forall k :: i < k <= j ==> run[k].sender.Some?
    ensures var m := Msg(id, thr.handle, (run[i].sq.send + 1) % 0x1_0000_0000, payload);
            && run[j + 1].ch.sent == run[j].ch.sent + [m]
            && ReadsAs(n, run[j + 1].ch.words, run[j].ch.wp, m)
  {
    SendKept(n, cap, run, i + 1, j);
    RunInv(n, cap, run, j);
    RunInv(n, cap, run, j + 1);
    PublishedAt(n, cap, run[j], run[j + 1]);
    Published(n, cap, run[j], run[j + 1]);
  }

  lemma PublishedAt(n: nat, cap: nat, s: State, s': State)
    requires IsStep(n, cap, s, SendPublish, s') && ChanInv(n, s.ch)
    ensures s.ch.wp == Pos(n, s'.ch.sizes, |s.ch.sent|)
  {
    PosKept(n, s.ch.sizes, WordLen(s.sender.value.msg), |s.ch.sent|);
  }

  // ---------------------------------------------------------------- along a run

  /** What only grows. */
  ghost predicate Extends(s: State, s': State) {
    && s.q.ids <= s'.q.ids && s.q.marks <= s'.q.marks
    && s.ch.retired <= s'.ch.retired && s.sq.cpuIds <= s'.sq.cpuIds
  }

  lemma ActionExtends(n: nat, cap: nat, s: State, a: Action, s': State)
    requires IsStep(n, cap, s, a, s')
    ensures Extends(s, s')
  {
  }

  lemma StepExtends(n: nat, cap: nat, s: State, s': State)
    requires Next(n, cap, s, s')
    ensures Extends(s, s')
  {
    var a: Action :| IsStep(n, cap, s, a, s');
    ActionExtends(n, cap, s, a, s');
  }

  lemma ExtendsTransitive(s: State, t: State, u: State)
    requires Extends(s, t) && Extends(t, u)
    ensures Extends(s, u)
  {
  }

  ghost predicate Growing(run: seq<State>) {
    forall i :: 0 <= i < |run| - 1 ==> Extends(run[i], run[i + 1])
  }

  lemma {:induction false} GrowingExtends(run: seq<State>, i: nat, j: nat)
    requires Growing(run) && i <= j < |run|
    ensures Extends(run[i], run[j])
    decreases j
  {
    if i < j {
      GrowingExtends(run, i, j - 1);
      ExtendsTransitive(run[i], run[j - 1], run[j]);
    }
  }

  lemma RunExtends(n: nat, cap: nat, run: seq<State>, i: nat, j: nat)
    requires Run(n, cap, run) && i <= j < |run|
    ensures Extends(run[i], run[j])
  {
    forall k | 0 <= k < |run| - 1 ensures Extends(run[k], run[k + 1]) {
      StepExtends(n, cap, run[k], run[k + 1]);
    }
    GrowingExtends(run, i, j);
  }

  lemma RunGrows(n: nat, cap: nat, run: seq<State>, a: Action)
    requires Run(n, cap, run) && Enabled(n, cap, run[|run| - 1], a)
    ensures Run(n, cap, run + [Apply(n, cap, run[|run| - 1], a)])
  {
    assert IsStep(n, cap, run[|run| - 1], a, Apply(n, cap, run[|run| - 1], a));
  }

  lemma LastInRange(n: nat, cap: nat, run: seq<State>)
    requires ValidRing(n, cap) && Run(n, cap, run)
    ensures InRange(n, run[|run| - 1])
  {
    RunInv(n, cap, run, |run| - 1);
    InvInRange(n, run[|run| - 1]);
  }

  // ---------------------------------------------------------------- device sync

  lemma StepMarks(n: nat, cap: nat, s: State, s': State)
    requires QueueInv(s.q, s.ch.retired) && Next(n, cap, s, s')
    ensures s.q.deviceCpl <= s'.q.deviceCpl <= s.q.deviceCpl + 1
  {
    if s.q.fifo != [] && s.q.fifo[0].Marker? {
      PopMarkerKeeps(s.q, s.ch.retired);
    }
    var a: Action :| IsStep(n, cap, s, a, s');
  }

  lemma RunMarks(n: nat, cap: nat, run: seq<State>, i: nat)
    requires ValidRing(n, cap) && Run(n, cap, run) && i + 1 < |run|
    ensures run[i].q.deviceCpl <= run[i + 1].q.deviceCpl
  {
    RunInv(n, cap, run, i);
    StepMarks(n, cap, run[i], run[i + 1]);
  }

  /** device_sync_cpl never decreases. */
  lemma {:induction false} DeviceCplMonotone(n: nat, cap: nat, run: seq<State>, i: nat, j: nat)
    requires ValidRing(n, cap) && Run(n, cap, run) && i <= j < |run|
    ensures run[i].q.deviceCpl <= run[j].q.deviceCpl
    decreases j
  {
    if i < j {
      DeviceCplMonotone(n, cap, run, i, j - 1);
      RunMarks(n, cap, run, j - 1);
    }
  }

  /** Device sync: if step i queues marker number m, then device_sync_cpl reaches m only after every API that
      was queued before step i has been retired. */
  lemma DeviceSyncIsSound(n: nat, cap: nat, run: seq<State>, i: nat, j: nat)
    requires ValidRing(n, cap) && Run(n, cap, run) && i < j < |run|
    requires run[i + 1].q.deviceLast == run[i].q.deviceLast + 1
    requires run[j].q.deviceCpl >= run[i + 1].q.deviceLast
    ensures |run[i].q.ids| <= run[j].ch.retired
  {
    RunInv(n, cap, run, i);
    RunInv(n, cap, run, i + 1);
    RunInv(n, cap, run, j);
    MarkAdded(n, cap, run[i], run[i + 1]);
    RunExtends(n, cap, run, i + 1, j);
    var m := run[i].q.deviceLast;
    assert run[j].q.marks[m] == run[i + 1].q.marks[m] == |run[i].q.ids|;
  }

  lemma MarkAdded(n: nat, cap: nat, s: State, s': State)
    requires Next(n, cap, s, s') && s'.q.deviceLast == s.q.deviceLast + 1
    ensures s'.q.marks == s.q.marks + [|s.q.ids|]
  {
    var a: Action :| IsStep(n, cap, s, a, s');
    OnlyDeviceSyncMarks(n, cap, s, a, s');
  }

  lemma OnlyDeviceSyncMarks(n: nat, cap: nat, s: State, a: Action, s': State)
    requires IsStep(n, cap, s, a, s')
    ensures || (s'.q.marks == s.q.marks && s'.q.deviceLast == s.q.deviceLast)
            || (a.DeviceSync? && s'.q.marks == s.q.marks + [|s.q.ids|] && s'.q.deviceLast == s.q.deviceLast + 1)
  {
  }

  // ---------------------------------------------------------------- invalidation

  /** An invalidation never runs past wp: while its position differs from wp a whole message lies there, and
      every round brings it one message closer, so it ends, however the firmware and the handler interleave. */
  lemma InvalidationLandsOnWp(n: nat, cap: nat, run: seq<State>, i: nat)
    requires ValidRing(n, cap) && Run(n, cap, run) && i < |run| && run[i].inval.Some?
    ensures var ch, v := run[i].ch, run[i].inval.value;
            && v.end == ch.wp && v.idx <= |ch.sent|
            && (v.cur == v.end <==> v.idx == |ch.sent|)
            && (v.cur != v.end ==>
                  && Enabled(n, cap, run[i], InvalStep)
                  && Apply(n, cap, run[i], InvalStep).inval.value.idx == v.idx + 1
                  && Apply(n, cap, run[i], InvalStep).ch.sent[v.idx].handle
                     == if ch.sent[v.idx].handle == v.handle then 0 else ch.sent[v.idx].handle)
  {
    RunInv(n, cap, run, i);
    InvInRange(n, run[i]);
    var ch, v := run[i].ch, run[i].inval.value;
    OffMonotone(ch.sizes, ch.low, v.idx);
    Distance(n, ch.sizes, v.idx, |ch.sent|);
    if v.cur != v.end {
      InvalStepRing(n, run[i]);
    }
  }

  /** When it ends, exactly the messages of the closing file between the read pointer it started from and wp
      have lost their handle; every other message is as it was when it started. */
  lemma InvalidationComplete(n: nat, cap: nat, run: seq<State>, i: nat)
    requires ValidRing(n, cap) && Run(n, cap, run) && i < |run|
    requires Enabled(n, cap, run[i], InvalDone)
    ensures var ch, v := run[i].ch, run[i].inval.value;
            && |ch.sent| == |v.before| == |ch.sizes| && ch.low <= v.start
            && (forall k: nat :: k < |ch.sent| ==>
                  ch.sent[k] == if v.start <= k && v.before[k].handle == v.handle then Blank(v.before[k]) else v.before[k])
            && AllLaid(n, ch.words, ch.sent, ch.sizes, v.start)
  {
    RunInv(n, cap, run, i);
    InvalidationLandsOnWp(n, cap, run, i);
  }

  /** A round of an invalidation changes no word of the ring but the two handle words of the message it is
      at, and the steps of the firmware change only the two words the host leaves to it. */
  lemma OnlyHandleWordsChange(n: nat, cap: nat, s: State, j: nat)
    requires Enabled(n, cap, s, InvalStep) && j < n
    requires Apply(n, cap, s, InvalStep).ch.words[j] != s.ch.words[j]
    ensures j == AddPointer(n, s.inval.value.cur, API_HANDLE) || j == AddPointer(n, s.inval.value.cur, API_HANDLE + 1)
    ensures HandleAt(n, s.ch.words, s.inval.value.cur) == s.inval.value.handle
    ensures Apply(n, cap, s, InvalStep).ch.words[j] == 0
  {
  }
}

/** That packets get through: from every reachable state both sides can finish what they are doing, and a packet that
    fits the ring can be sent and received. */
module PacketProgress {
  import opened Ring
  import opened PacketRing
  import opened PacketProtocol
  import opened Wrappers

  function Last(run: seq<State>): State
    requires |run| > 0
  {
    run[|run| - 1]
  }

  lemma Do(n: nat, run: seq<State>, a: Action) returns (run': seq<State>)
    requires Run(n, run) && Enabled(n, Last(run), a)
    ensures Run(n, run') && run <= run' && Last(run') == Apply(n, Last(run), a)
  {
    run' := run + [Apply(n, Last(run), a)];
    assert IsStep(n, Last(run), a, Last(run'));
    forall i | 0 <= i < |run'| - 1 ensures Next(n, run'[i], run'[i + 1]) {
      assert i < |run| - 1 ==> Next(n, run[i], run[i + 1]);
    }
  }

  lemma LastInRange(n: nat, run: seq<State>)
    requires ValidLen(n) && Run(n, run)
    ensures InRange(n, Last(run)) && Counts(Last(run))
  {
    RunInv(n, run, |run| - 1);
  }

  /** What the sender's steps leave alone. */
  predicate ReceiverSame(s: State, t: State) {
    && t.received == s.received && t.receiving == s.receiving && t.got == s.got
    && t.cHead == s.cHead && t.cTail == s.cTail && t.seen == s.seen && t.freed == s.freed && t.sTail == s.sTail
  }

  /** What the receiver's steps leave alone. */
  predicate SenderSame(s: State, t: State) {
    && t.sent == s.sent && t.sending == s.sending && t.sizes == s.sizes && t.buf == s.buf && t.written == s.written
    && t.pHead == s.pHead && t.pTail == s.pTail && t.sHead == s.sHead && t.published == s.published && t.known == s.known
  }

  function WithCurrent(s: State): seq<Packet> {
    if s.sending.Some? then s.sent + [s.sending.value] else s.sent
  }

  /** The send in progress comes to its end. */
  lemma {:induction false} FinishSend(n: nat, run: seq<State>) returns (run': seq<State>)
    requires ValidLen(n) && Run(n, run)
    ensures Run(n, run') && run <= run' && ReceiverSame(Last(run), Last(run'))
    ensures Last(run').sending == None && Last(run').sent == WithCurrent(Last(run))
    decreases if Last(run).sending.Some? && Last(run).written < FrameLen(Last(run).sending.value)
              then FrameLen(Last(run).sending.value) - Last(run).written else 0
  {
    var s := Last(run);
    LastInRange(n, run);
    if s.sending == None {
      run' := run;
    } else if s.written < FrameLen(s.sending.value) {
      run' := Do(n, run, WriteByte);
      run' := FinishSend(n, run');
    } else {
      run' := Do(n, run, SendDone);
    }
  }

  /** The receive in progress comes to its end. */
  lemma {:induction false} FinishReceive(n: nat, run: seq<State>) returns (run': seq<State>)
    requires ValidLen(n) && Run(n, run)
    ensures Run(n, run') && run <= run' && SenderSame(Last(run), Last(run'))
    ensures Last(run').receiving == None && Last(run').seen == Last(run).seen
    ensures |Last(run').received| == |Last(run).received| + (if Last(run).receiving.Some? then 1 else 0)
    decreases if Last(run).receiving.Some? && |Last(run).got| < Last(run).receiving.value
              then Last(run).receiving.value - |Last(run).got| else 0
  {
    var s := Last(run);
    LastInRange(n, run);
    if s.receiving == None {
      run' := run;
    } else if |s.got| < s.receiving.value {
      run' := Do(n, run, ReadByte);
      run' := FinishReceive(n, run');
    } else {
      run' := Do(n, run, RecvDone);
    }
  }

  /** A packet the receiver has not taken is there to be seen. */
  lemma SeenIsThere(n: nat, s: State)
    requires Inv(n, s) && |s.received| < s.seen
    ensures s.cHead != s.cTail
  {
    OffMonotone(s.sizes, s.known, |s.received|);
    OffMonotone(s.sizes, s.seen, |s.sent|);
    OffMonotone(s.sizes, |s.received|, s.seen);
    Distance(n, s.sizes, |s.received|, s.seen);
    SomeBetween(s.sizes, |s.received|, s.seen, n);
  }

  lemma SomeBetween(sizes: seq<nat>, i: nat, j: nat, n: nat)
    requires i < j <= |sizes| && Small(n, sizes)
    ensures Off(sizes, i) < Off(sizes, j)
  {
    OffMonotone(sizes, i + 1, j);
    assert sizes[i] > 0;
  }

  /** The receiver takes every packet it has seen. */
  lemma {:induction false} ReceiveSeen(n: nat, run: seq<State>) returns (run': seq<State>)
    requires ValidLen(n) && Run(n, run) && Last(run).receiving == None
    ensures Run(n, run') && run <= run' && SenderSame(Last(run), Last(run'))
    ensures Last(run').receiving == None && |Last(run').received| == Last(run').seen == Last(run).seen
    decreases Last(run).seen - |Last(run).received|
  {
    var s := Last(run);
    LastInRange(n, run);
    if |s.received| == s.seen {
      run' := run;
    } else {
      RunInv(n, run, |run| - 1);
      SeenIsThere(n, s);
      var len := |s.sent[|s.received|]|;
      ReceiveNeverRefused(n, run, |run| - 1, len);
      run' := Do(n, run, RecvStart(len));
      run' := FinishReceive(n, run');
      run' := ReceiveSeen(n, run');
    }
  }

  /** From every reachable state both sides can catch up: the send in progress is finished, everything sent is
      received, and the sender knows all space to be free again. */
  lemma CatchesUp(n: nat, run: seq<State>) returns (run': seq<State>)
    requires ValidLen(n) && Run(n, run)
    ensures Run(n, run') && run <= run'
    ensures Last(run').received == Last(run').sent == WithCurrent(Last(run))
    ensures Last(run').sending == None && Last(run').receiving == None && Last(run').known == |Last(run').sent|
  {
    run' := FinishSend(n, run);
    run' := FinishReceive(n, run');
    run' := Delivered(n, run');
    LastInRange(n, run');
    run' := Do(n, run', StoreRx);
    LastInRange(n, run');
    run' := Do(n, run', LoadTx);
  }

  /** With nobody at work, what was sent is published, seen and received. */
  lemma Delivered(n: nat, run: seq<State>) returns (run': seq<State>)
    requires ValidLen(n) && Run(n, run) && Last(run).sending == None && Last(run).receiving == None
    ensures Run(n, run') && run <= run' && Last(run').sent == Last(run).sent == Last(run').received
    ensures Last(run').sending == None && Last(run').receiving == None
  {
    LastInRange(n, run);
    run' := Do(n, run, StoreTx);
    LastInRange(n, run');
    run' := Do(n, run', LoadRx);
    run' := ReceiveSeen(n, run');
    RunInv(n, run', |run'| - 1);
  }

  lemma SendStarts(n: nat, run: seq<State>, data: Packet) returns (run': seq<State>)
    requires ValidLen(n) && Run(n, run) && |data| < 0x8000_0000 && TotalLen(|data|) < n
    requires Last(run).sending == None && Last(run).known == |Last(run).sent|
    ensures Run(n, run') && run <= run' && Last(run') == Last(run).(sending := Some(data), written := 0)
  {
    LastInRange(n, run);
    SendRefusedExactlyWhenFull(n, run, |run| - 1, data);
    run' := Do(n, run, SendStart(data));
  }

  /** From every reachable state, a packet whose padded length is below the ring size gets through: after everything
      sent before, whole. */
  lemma PacketArrives(n: nat, run: seq<State>, data: Packet) returns (run': seq<State>)
    requires ValidLen(n) && Run(n, run) && |data| < 0x8000_0000 && TotalLen(|data|) < n
    ensures Run(n, run') && run <= run' && Last(run').received == WithCurrent(Last(run)) + [data]
  {
    run' := CatchesUp(n, run);
    run' := SendStarts(n, run', data);
    run' := FinishSend(n, run');
    run' := Delivered(n, run');
  }
}

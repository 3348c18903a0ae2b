/** Sending an image in numbered packets that are repeated until an ACK is read.  An ACK is one byte without a
    number, and nothing empties the receive FIFO before a packet is sent, so an ACK that comes after its wait
    has ended is taken for the answer to a later packet.  The line, the FIFO and the receiver (the one the
    XMODEM-CRC protocol describes, counting from 0 as the sender does) are part of the state; the sender's
    loops are the methods at the end. */
module Xmodem {
  import opened Crc

  const SOH: nat := 0x01
  const STX: nat := 0x02
  const BLOCK: nat := 128

  /** A packet as it goes on the line: header, number, complement, data, two checksum bytes. */
  datatype Packet = Packet(head: nat, number: nat, complement: nat, data: seq<Byte>, tail: seq<Byte>)

  /** The receiver: what it has stored, how many packets that was, and whether it got out of step. */
  datatype Receiver = Receiver(got: seq<Byte>, count: nat, confused: bool)

  /** send_package without the waiting; numbers go out as single bytes. */
  function Package(data: seq<Byte>, number: nat): Packet
    requires |data| == 128 || |data| == 1024
  {
    Packet(if |data| == 128 then SOH else STX, number % 256, (255 - number) % 256, data, CrcBytes(CrcOf(data)))
  }

  predicate Intact(p: Packet) {
    && p.head == SOH && |p.data| == BLOCK
    && p.number + p.complement == 255
    && CrcOf(p.data + p.tail) == Zero()
  }

  /** The next packet in order. */
  predicate IsNext(r: Receiver, p: Packet) {
    Intact(p) && p.number == r.count % 256
  }

  /** The last packet once more. */
  predicate IsRepeat(r: Receiver, p: Packet) {
    Intact(p) && r.count > 0 && p.number == (r.count - 1) % 256
  }

  /** The next packet is stored, the previous one again is dropped, any other is out of step. */
  function Deliver(r: Receiver, p: Packet): Receiver {
    if !Intact(p) then r
    else if IsNext(r, p) then Receiver(r.got + p.data, r.count + 1, r.confused)
    else if IsRepeat(r, p) then r
    else Receiver(r.got, r.count, true)
  }

  /** Stored and repeated packets are acknowledged. */
  predicate Acknowledges(r: Receiver, p: Packet) {
    IsNext(r, p) || IsRepeat(r, p)
  }

  lemma PackageIntact(data: seq<Byte>, number: nat)
    requires |data| == BLOCK
    ensures Intact(Package(data, number))
    ensures Package(data, number).data == data && Package(data, number).number == number % 256
  {
    ResidueIsZero(data, CrcBytes(CrcOf(data)));
  }

  // ---------------------------------------------------------------- sender, line and receiver

  datatype Phase = Ready | Waiting | Done | Failed

  /** `i` is the block being sent.  `acks` are the ACKs on their way or in the FIFO, oldest first, each with
      the block it answers, which the sender cannot see; other bytes are read and dropped. */
  datatype State = State(i: nat, phase: Phase, acks: seq<nat>, r: Receiver)

  datatype Action =
    | Send(lost: bool)         // a packet, which may not arrive intact
    | LoseAck(k: nat)
    | TakeAck                  // uart_wait reads an ACK
    | TimeOut(giveUp: bool)    // uart_wait ends without one; the block's timer may be over too

  /** An image is whole blocks. */
  predicate Whole(data: seq<Byte>) {
    |data| % BLOCK == 0
  }

  function Total(data: seq<Byte>): nat {
    |data| / BLOCK
  }

  function Front(data: seq<Byte>, blocks: nat): seq<Byte>
    requires blocks <= Total(data)
  {
    data[..BLOCK * blocks]
  }

  function PacketOf(data: seq<Byte>, i: nat): Packet
    requires i < Total(data)
  {
    Package(data[BLOCK * i..BLOCK * (i + 1)], i)
  }

  function Init(data: seq<Byte>): State {
    State(0, if Total(data) == 0 then Done else Ready, [], Receiver([], 0, false))
  }

  predicate Enabled(data: seq<Byte>, s: State, a: Action) {
    && s.i <= Total(data)
    && match a
       case Send(_) => s.phase == Ready && s.i < Total(data)
       case LoseAck(k) => k < |s.acks|
       case TakeAck => s.phase == Waiting && s.acks != [] && s.i < Total(data)
       case TimeOut(_) => s.phase == Waiting
  }

  function Apply(data: seq<Byte>, s: State, a: Action): State
    requires Enabled(data, s, a)
  {
    match a
    case Send(lost) =>
      var p := PacketOf(data, s.i);
      if lost then s.(phase := Waiting)
      else s.(phase := Waiting, r := Deliver(s.r, p), acks := if Acknowledges(s.r, p) then s.acks + [s.i] else s.acks)
    case LoseAck(k) => s.(acks := s.acks[..k] + s.acks[k + 1..])
    case TakeAck =>
      s.(i := s.i + 1, acks := s.acks[1..], phase := if s.i + 1 == Total(data) then Done else Ready)
    case TimeOut(giveUp) => s.(phase := if giveUp then Failed else Ready)
  }

  ghost predicate IsStep(data: seq<Byte>, s: State, a: Action, s': State) {
    Enabled(data, s, a) && s' == Apply(data, s, a)
  }

  /** A wait for a block before the last ends although an ACK is still to come. */
  predicate Hasty(data: seq<Byte>, s: State, a: Action) {
    a.TimeOut? && s.acks != [] && s.i + 1 < Total(data)
  }

  ghost predicate Next(data: seq<Byte>, s: State, s': State) {
    exists a: Action :: IsStep(data, s, a, s')
  }

  ghost predicate CarefulNext(data: seq<Byte>, s: State, s': State) {
    exists a: Action :: IsStep(data, s, a, s') && !Hasty(data, s, a)
  }

  /** A run of any steps, from any state. */
  ghost predicate Steps(data: seq<Byte>, run: seq<State>) {
    |run| > 0 && forall k :: 0 <= k < |run| - 1 ==> Next(data, run[k], run[k + 1])
  }

  ghost predicate CarefulSteps(data: seq<Byte>, run: seq<State>) {
    |run| > 0 && forall k :: 0 <= k < |run| - 1 ==> CarefulNext(data, run[k], run[k + 1])
  }

  /** The receiver has exactly the first `blocks` blocks. */
  ghost predicate Holds(data: seq<Byte>, r: Receiver, blocks: nat) {
    blocks <= Total(data) && r == Receiver(Front(data, blocks), blocks, false)
  }

  /** With careful waits only: the receiver has the blocks before the current one, or that one too; an ACK
      still to come answers the current block, and between blocks there is none. */
  ghost predicate Inv(data: seq<Byte>, s: State) {
    && s.i <= Total(data)
    && (Holds(data, s.r, s.i) || Holds(data, s.r, s.i + 1))
    && (s.i < Total(data) && s.acks != [] ==> Holds(data, s.r, s.i + 1))
    && (s.i + 1 < Total(data) ==> |s.acks| <= 1 && (s.phase == Ready ==> s.acks == []))
    && (s.phase == Done <==> s.i == Total(data))
  }

  /** Block `i` is taken once, however often it arrives. */
  lemma DeliverBlock(data: seq<Byte>, i: nat, r: Receiver)
    requires i < Total(data) && (Holds(data, r, i) || Holds(data, r, i + 1))
    ensures Holds(data, Deliver(r, PacketOf(data, i)), i + 1) && Acknowledges(r, PacketOf(data, i))
  {
    PackageIntact(data[BLOCK * i..BLOCK * (i + 1)], i);
    assert Front(data, i) + data[BLOCK * i..BLOCK * (i + 1)] == Front(data, i + 1);
  }

  lemma InitInv(data: seq<Byte>)
    ensures Inv(data, Init(data))
  {
    assert Front(data, 0) == [];
  }

  lemma CarefulKeepsInv(data: seq<Byte>, s: State, s': State)
    requires Inv(data, s) && CarefulNext(data, s, s')
    ensures Inv(data, s')
  {
    var a: Action :| IsStep(data, s, a, s') && !Hasty(data, s, a);
    if a.Send? {
      DeliverBlock(data, s.i, s.r);
    }
  }

  lemma {:induction false} CarefulStepsKeepInv(data: seq<Byte>, run: seq<State>, k: nat)
    requires CarefulSteps(data, run) && Inv(data, run[0]) && k < |run|
    ensures Inv(data, run[k])
  {
    if k > 0 {
      CarefulStepsKeepInv(data, run, k - 1);
      CarefulKeepsInv(data, run[k - 1], run[k]);
    }
  }

  /** Success means that the receiver has exactly the image, and failure that it has whole blocks from the
      front and is in step, however packets and ACKs are lost, as long as no wait before the last block ends
      with an ACK still to come. */
  lemma CarefulMeansComplete(data: seq<Byte>, run: seq<State>, k: nat)
    requires Whole(data) && CarefulSteps(data, run) && run[0] == Init(data) && k < |run|
    ensures run[k].phase == Done ==> run[k].r == Receiver(data, Total(data), false)
    ensures run[k].r.got <= data && |run[k].r.got| % BLOCK == 0 && !run[k].r.confused
  {
    InitInv(data);
    CarefulStepsKeepInv(data, run, k);
    assert Front(data, Total(data)) == data;
  }

  // ---------------------------------------------------------------- a wait that ends too early

  /** Reached with careful waits only. */
  ghost predicate Reached(data: seq<Byte>, s: State) {
    exists run: seq<State> :: CarefulSteps(data, run) && run[0] == Init(data) && run[|run| - 1] == s
  }

  /** From here on, with careful waits, success is always complete. */
  ghost predicate SafeFrom(data: seq<Byte>, s: State) {
    forall run: seq<State> :: CarefulSteps(data, run) && run[0] == s && run[|run| - 1].phase == Done ==>
      run[|run| - 1].r.got == data
  }

  /** From here a careful run succeeds with the last block missing. */
  ghost predicate Fools(data: seq<Byte>, s: State, run: seq<State>) {
    && CarefulSteps(data, run) && run[0] == s
    && run[|run| - 1].phase == Done && |run[|run| - 1].r.got| < |data|
  }

  lemma Prepend(data: seq<Byte>, s: State, a: Action, run: seq<State>)
    requires Enabled(data, s, a) && !Hasty(data, s, a) && Fools(data, Apply(data, s, a), run)
    ensures Fools(data, s, [s] + run)
  {
    var run' := [s] + run;
    forall k | 0 <= k < |run'| - 1 ensures CarefulNext(data, run'[k], run'[k + 1]) {
      if k == 0 {
        assert IsStep(data, s, a, run'[1]);
      } else {
        assert run'[k] == run[k - 1] && run'[k + 1] == run[k];
      }
    }
  }

  /** One ACK ahead: the answer to each block is read as the answer to the next, and the last block need not
      arrive at all. */
  lemma {:induction false} OneAhead(data: seq<Byte>, s: State) returns (run: seq<State>)
    requires Whole(data) && s.i < Total(data) && s.phase == Ready && |s.acks| == 1 && Holds(data, s.r, s.i)
    ensures Fools(data, s, run)
    decreases Total(data) - s.i
  {
    var a := Send(s.i + 1 == Total(data));
    var sent := Apply(data, s, a);
    DeliverBlock(data, s.i, s.r);
    var next := Apply(data, sent, TakeAck);
    if s.i + 1 == Total(data) {
      run := [next];
      assert Fools(data, next, run);
    } else {
      run := OneAhead(data, next);
    }
    Prepend(data, sent, TakeAck, run);
    run := [sent] + run;
    Prepend(data, s, a, run);
    run := [s] + run;
  }

  /** A wait that ends with the ACK of its block still to come: the block is repeated and answered twice, and
      from the next block on the sender is one ACK ahead. */
  lemma HastyWaitFools(data: seq<Byte>, s: State) returns (run: seq<State>)
    requires Whole(data) && s.i + 1 < Total(data) && s.phase == Ready && |s.acks| == 1 && Holds(data, s.r, s.i + 1)
    ensures Fools(data, s, run)
  {
    var sent := Apply(data, s, Send(false));
    DeliverBlock(data, s.i, s.r);
    var next := Apply(data, sent, TakeAck);
    run := OneAhead(data, next);
    Prepend(data, sent, TakeAck, run);
    run := [sent] + run;
    Prepend(data, s, Send(false), run);
    run := [s] + run;
  }

  lemma ReachedInv(data: seq<Byte>, s: State)
    requires Reached(data, s)
    ensures Inv(data, s)
  {
    var run: seq<State> :| CarefulSteps(data, run) && run[0] == Init(data) && run[|run| - 1] == s;
    InitInv(data);
    CarefulStepsKeepInv(data, run, |run| - 1);
  }

  lemma InvIsSafe(data: seq<Byte>, s: State)
    requires Whole(data) && Inv(data, s)
    ensures SafeFrom(data, s)
  {
    forall run: seq<State> | CarefulSteps(data, run) && run[0] == s && run[|run| - 1].phase == Done
      ensures run[|run| - 1].r.got == data
    {
      CarefulStepsKeepInv(data, run, |run| - 1);
      assert Front(data, Total(data)) == data;
    }
  }

  /** The exact condition: a wait may end and the packet be repeated without danger if and only if no ACK is
      still to come, or the block is the last.  Otherwise there is a way on, with careful waits only, to a
      success with the last block missing. */
  lemma WaitMayEndExactly(data: seq<Byte>, s: State)
    requires Whole(data) && Reached(data, s) && Enabled(data, s, TimeOut(false))
    ensures SafeFrom(data, Apply(data, s, TimeOut(false))) <==> s.acks == [] || s.i + 1 == Total(data)
  {
    ReachedInv(data, s);
    var next := Apply(data, s, TimeOut(false));
    if s.acks == [] || s.i + 1 == Total(data) {
      InvIsSafe(data, next);
    } else {
      var run := HastyWaitFools(data, next);
      assert !SafeFrom(data, next);
    }
  }

  /** And such a wait does occur: for every image of two blocks or more there is a run from the start, with one
      wait that ends before its ACK arrives, that reports success with the last block missing. */
  lemma SuccessWithoutTheLastBlock(data: seq<Byte>) returns (run: seq<State>)
    requires Whole(data) && Total(data) >= 2
    ensures Steps(data, run) && run[0] == Init(data)
    ensures run[|run| - 1].phase == Done && |run[|run| - 1].r.got| < |data|
  {
    var s0 := Init(data);
    InitInv(data);
    DeliverBlock(data, 0, s0.r);
    var s1 := Apply(data, s0, Send(false));
    var s2 := Apply(data, s1, TimeOut(false));
    var tail := HastyWaitFools(data, s2);
    run := [s0, s1] + tail;
    forall k | 0 <= k < |run| - 1 ensures Next(data, run[k], run[k + 1]) {
      if k == 0 {
        assert IsStep(data, s0, Send(false), s1);
      } else if k == 1 {
        assert IsStep(data, s1, TimeOut(false), s2);
      } else {
        assert CarefulNext(data, tail[k - 2], tail[k - 1]);
        var a: Action :| IsStep(data, tail[k - 2], a, tail[k - 1]);
      }
    }
  }

  // ---------------------------------------------------------------- the sender's loops

  /** What the line does to one attempt. */
  datatype Attempt = Attempt(packetLost: bool, ackLost: bool, ackLate: bool)

  /** No ACK comes after its wait has ended. */
  ghost predicate Timely(line: nat -> Attempt, patience: nat) {
    forall k: nat :: k <= patience ==> !line(k).ackLate
  }

  /** Neither the packet nor its ACK is lost. */
  predicate Clean(a: Attempt) {
    !a.packetLost && !a.ackLost
  }

  /** Some attempt within the block's time is clean. */
  ghost predicate GetsThrough(line: nat -> Attempt, patience: nat) {
    exists k: nat :: k <= patience && Clean(line(k))
  }

  /** The receiver is in step and no ACK is on its way. */
  ghost predicate Settled(data: seq<Byte>, s: State) {
    Inv(data, s) && s.acks == []
  }

  lemma Extend(data: seq<Byte>, run: seq<State>, a: Action)
    requires Steps(data, run) && Enabled(data, run[|run| - 1], a)
    ensures Steps(data, run + [Apply(data, run[|run| - 1], a)])
    ensures CarefulSteps(data, run) && !Hasty(data, run[|run| - 1], a) ==>
              CarefulSteps(data, run + [Apply(data, run[|run| - 1], a)])
  {
    var s := run[|run| - 1];
    assert IsStep(data, s, a, Apply(data, s, a));
  }

  /** With nothing on its way, a packet that arrives is answered, and the wait ends in step. */
  lemma SettledSend(data: seq<Byte>, s: State, lost: bool)
    requires Settled(data, s) && Enabled(data, s, Send(lost))
    ensures var t := Apply(data, s, Send(lost));
            t.acks == (if lost then [] else [s.i]) && (forall p :: Settled(data, t.(acks := [], phase := p)) <==> p != Done)
    ensures !lost ==> Settled(data, Apply(data, Apply(data, s, Send(lost)), TakeAck))
  {
    DeliverBlock(data, s.i, s.r);
  }

  /** send_package: the packet goes out, and the wait ends with an ACK from the FIFO or, when none has come in
      time, without. */
  method SendPackage(data: seq<Byte>, s: State, line: Attempt, giveUp: bool, ghost run: seq<State>)
    returns (ok: bool, s': State, ghost run': seq<State>)
    requires Enabled(data, s, Send(line.packetLost)) && Steps(data, run) && run[|run| - 1] == s
    ensures Steps(data, run') && run <= run' && run'[|run'| - 1] == s'
    ensures ok ==> s'.i == s.i + 1 && s'.phase == if s'.i == Total(data) then Done else Ready
    ensures !ok ==> s'.i == s.i && s'.phase == if giveUp then Failed else Ready
    ensures Settled(data, s) && !line.ackLate ==> Settled(data, s') && (ok <==> Clean(line))
  {
    if Settled(data, s) {
      SettledSend(data, s, line.packetLost);
    }
    Extend(data, run, Send(line.packetLost));
    s' := Apply(data, s, Send(line.packetLost));
    run' := run + [s'];
    if line.ackLost && s'.acks != [] {
      Extend(data, run', LoseAck(|s'.acks| - 1));
      s' := Apply(data, s', LoseAck(|s'.acks| - 1));
      run' := run' + [s'];
    }
    ok := s'.acks != [] && !line.ackLate;
    var a := if ok then TakeAck else TimeOut(giveUp);
    Extend(data, run', a);
    s' := Apply(data, s', a);
    run' := run' + [s'];
  }

  /** One block: send until acknowledged or until the timer of the block runs out, here after `patience`
      failed attempts. */
  method SendBlock(data: seq<Byte>, s: State, line: nat -> Attempt, patience: nat, ghost run: seq<State>)
    returns (ok: bool, s': State, ghost run': seq<State>)
    requires s.phase == Ready && s.i < Total(data) && Steps(data, run) && run[|run| - 1] == s
    ensures Steps(data, run') && run <= run' && run'[|run'| - 1] == s'
    ensures ok ==> s'.i == s.i + 1 && s'.phase == if s'.i == Total(data) then Done else Ready
    ensures !ok ==> s'.phase == Failed
    ensures Settled(data, s) && Timely(line, patience) ==> Settled(data, s') && (ok <==> GetsThrough(line, patience))
  {
    s', run' := s, run;
    var attempt := 0;
    while true
      invariant attempt <= patience && s'.phase == Ready && s'.i == s.i
      invariant Steps(data, run') && run <= run' && run'[|run'| - 1] == s'
      invariant Settled(data, s) && Timely(line, patience) ==>
                  Settled(data, s') && forall k :: 0 <= k < attempt ==> !Clean(line(k))
      decreases patience - attempt
    {
      ok, s', run' := SendPackage(data, s', line(attempt), attempt == patience, run');
      if ok || attempt == patience {
        return;
      }
      attempt := attempt + 1;
    }
  }

  /** xmodem_send is a run of the machine, and succeeds exactly when it ends in Done.  When no ACK comes late,
      that is exactly when for every block one attempt within its time is clean.  By
      CarefulMeansComplete success means that the receiver has exactly the image, unless some wait before the
      last block ended with an ACK still to come. */
  method XmodemSend(data: seq<Byte>, started: bool, line: nat -> nat -> Attempt, patience: nat -> nat)
    returns (ok: bool, final: State, ghost run: seq<State>)
    ensures Steps(data, run) && run[0] == Init(data) && run[|run| - 1] == final
    ensures |data| % BLOCK != 0 || !started ==> !ok && final == Init(data)
    ensures |data| % BLOCK == 0 && started ==> (ok <==> final.phase == Done)
    ensures CarefulSteps(data, run) && ok ==> final.r == Receiver(data, Total(data), false)
    ensures CarefulSteps(data, run) && Whole(data) ==>
              final.r.got <= data && |final.r.got| % BLOCK == 0 && !final.r.confused
    ensures Whole(data) && started && (forall i :: 0 <= i < Total(data) ==> Timely(line(i), patience(i))) ==>
              (ok <==> forall i :: 0 <= i < Total(data) ==> GetsThrough(line(i), patience(i)))
  {
    InitInv(data);
    final := Init(data);
    run := [final];
    if |data| % BLOCK != 0 || !started {
      if Whole(data) {
        CarefulMeansComplete(data, run, 0);
      }
      return false, final, run;
    }
    var i := 0;
    ok := true;
    while i < Total(data) && ok
      invariant i <= Total(data) && Steps(data, run) && run[0] == Init(data) && run[|run| - 1] == final
      invariant ok ==> final.i == i && final.phase == if i == Total(data) then Done else Ready
      invariant !ok ==> final.phase == Failed
      invariant (forall k :: 0 <= k < Total(data) ==> Timely(line(k), patience(k))) ==>
                  Settled(data, final) && (ok <==> forall k :: 0 <= k < i ==> GetsThrough(line(k), patience(k)))
      decreases Total(data) - i, ok
    {
      ok, final, run := SendBlock(data, final, line(i), patience(i), run);
      i := i + 1;
    }
    if CarefulSteps(data, run) {
      CarefulMeansComplete(data, run, |run| - 1);
    }
  }
}

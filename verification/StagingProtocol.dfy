/** Transfers that share one stage buffer: taking a slot, filling it, the DMA and giving the slot back are
    separate steps of any number of transfers, interleaved in every way.  To the chip the slot is filled by
    memcpy and emptied by DMA, from the chip it is filled by DMA and emptied by memcpy; only the DMA can fail.
    A transfer that finds the bitmap full waits: it has no step to take. */
module StagingProtocol {
  import opened Arith
  import opened Staging

  datatype Phase = Idle | Holding(slot: nat) | Filled(slot: nat) | Sent(slot: nat) | Failing(slot: nat) | Failed

  /** One transfer: its direction, its source, the pass it is in, and what has reached the destination. */
  datatype Transfer = Transfer(toChip: bool, data: seq<Byte>, pass: nat, delivered: seq<Byte>, phase: Phase)

  datatype State = State(bitmap: seq<bool>, stage: seq<Byte>, transfers: seq<Transfer>)

  datatype Action =
    | Begin(toChip: bool, data: seq<Byte>)
    | Get(t: nat)        // bmdrv_get_stagemem
    | Fill(t: nat)       // into the slot
    | Empty(t: nat)      // out of the slot
    | DmaFails(t: nat)
    | Free(t: nat)       // bmdrv_free_stagemem

  predicate HasSlot(p: Phase) {
    p.Holding? || p.Filled? || p.Sent? || p.Failing?
  }

  /** The bytes of the current pass. */
  function Chunk(x: Transfer): seq<Byte>
    requires |x.data| < U32 && x.pass < Passes(|x.data|)
  {
    StepLenExact(|x.data|, x.pass);
    x.data[x.pass * SLOT..x.pass * SLOT + StepLen(|x.data|, x.pass)]
  }

  /** The part of the stage buffer the current pass uses. */
  function Range(x: Transfer): nat
    requires HasSlot(x.phase)
  {
    x.phase.slot * SLOT
  }

  ghost predicate Sound(slots: nat, s: State) {
    && |s.bitmap| == slots && |s.stage| == slots * SLOT
    && forall t :: 0 <= t < |s.transfers| ==> SoundTransfer(slots, s.transfers[t])
  }

  ghost predicate SoundTransfer(slots: nat, x: Transfer) {
    && |x.data| < U32
    && (HasSlot(x.phase) ==> x.pass < Passes(|x.data|) && x.phase.slot < slots && x.phase.slot * SLOT + SLOT <= slots * SLOT)
  }

  ghost predicate Enabled(slots: nat, s: State, a: Action) {
    && Sound(slots, s)
    && match a
       case Begin(_, data) => |data| < U32
       case Get(t) => t < |s.transfers| && s.transfers[t].phase == Idle
                      && s.transfers[t].pass < Passes(|s.transfers[t].data|) && false in s.bitmap
       case Fill(t) => t < |s.transfers| && s.transfers[t].phase.Holding?
       case Empty(t) => t < |s.transfers| && s.transfers[t].phase.Filled?
       case DmaFails(t) =>
         t < |s.transfers| && (if s.transfers[t].toChip then s.transfers[t].phase.Filled? else s.transfers[t].phase.Holding?)
       case Free(t) => t < |s.transfers| && (s.transfers[t].phase.Sent? || s.transfers[t].phase.Failing?)
  }

  /** The slot caculate_stage_index finds. */
  function FirstFreeFrom(bitmap: seq<bool>, i: nat): (r: nat)
    requires i <= |bitmap|
    ensures i <= r <= |bitmap|
    ensures r < |bitmap| ==> !bitmap[r]
    ensures forall k :: i <= k < r ==> bitmap[k]
    decreases |bitmap| - i
  {
    if i == |bitmap| || !bitmap[i] then i else FirstFreeFrom(bitmap, i + 1)
  }

  lemma NotFullHasFirstFree(bitmap: seq<bool>)
    requires false in bitmap
    ensures FirstFreeFrom(bitmap, 0) < |bitmap|
  {
  }

  ghost function Apply(slots: nat, s: State, a: Action): State
    requires Enabled(slots, s, a)
  {
    match a
    case Begin(toChip, data) => s.(transfers := s.transfers + [Transfer(toChip, data, 0, [], Idle)])
    case Get(t) =>
      NotFullHasFirstFree(s.bitmap);
      var slot := FirstFreeFrom(s.bitmap, 0);
      State(s.bitmap[slot := true], s.stage, s.transfers[t := s.transfers[t].(phase := Holding(slot))])
    case Fill(t) =>
      var x := s.transfers[t];
      State(s.bitmap, Patched(s.stage, Range(x), Chunk(x)), s.transfers[t := x.(phase := Filled(x.phase.slot))])
    case Empty(t) =>
      var x := s.transfers[t];
      StepLenExact(|x.data|, x.pass);
      State(s.bitmap, s.stage,
            s.transfers[t := x.(delivered := x.delivered + s.stage[Range(x)..Range(x) + StepLen(|x.data|, x.pass)],
                                phase := Sent(x.phase.slot))])
    case DmaFails(t) => s.(transfers := s.transfers[t := s.transfers[t].(phase := Failing(s.transfers[t].phase.slot))])
    case Free(t) =>
      var x := s.transfers[t];
      State(s.bitmap[x.phase.slot := false], s.stage,
            s.transfers[t := if x.phase.Sent? then x.(pass := x.pass + 1, phase := Idle) else x.(phase := Failed)])
  }

  ghost predicate Next(slots: nat, s: State, s': State) {
    exists a: Action :: IsStep(slots, s, a, s')
  }

  ghost predicate IsStep(slots: nat, s: State, a: Action, s': State) {
    Enabled(slots, s, a) && s' == Apply(slots, s, a)
  }

  function Init(slots: nat): State {
    State(seq(slots, i => false), seq(slots * SLOT, i => 0), [])
  }

  ghost predicate Run(slots: nat, run: seq<State>) {
    |run| > 0 && run[0] == Init(slots) && forall i :: 0 <= i < |run| - 1 ==> Next(slots, run[i], run[i + 1])
  }

  // ---------------------------------------------------------------- the invariant

  /** A slot in use has its bit set, and no two transfers use one slot. */
  ghost predicate Exclusive(s: State) {
    && (forall t :: 0 <= t < |s.transfers| && HasSlot(s.transfers[t].phase) ==>
          s.transfers[t].phase.slot < |s.bitmap| && s.bitmap[s.transfers[t].phase.slot])
    && (forall t, u :: 0 <= t < u < |s.transfers| && HasSlot(s.transfers[t].phase) && HasSlot(s.transfers[u].phase) ==>
          s.transfers[t].phase.slot != s.transfers[u].phase.slot)
  }

  ghost predicate HeldBy(s: State, t: nat, slot: nat) {
    t < |s.transfers| && HasSlot(s.transfers[t].phase) && s.transfers[t].phase.slot == slot
  }

  /** Every set bit belongs to a transfer. */
  ghost predicate Owned(s: State) {
    forall slot: nat :: slot < |s.bitmap| && s.bitmap[slot] ==> exists t: nat :: HeldBy(s, t, slot)
  }

  /** What a transfer has delivered is the front of its own data. */
  ghost predicate Delivers(x: Transfer) {
    && |x.data| < U32
    && x.pass <= Passes(|x.data|)
    && (HasSlot(x.phase) ==> x.pass < Passes(|x.data|))
    && x.delivered == x.data[..if x.phase.Sent? then Done(x.data, x.pass + 1) else Done(x.data, x.pass)]
  }

  /** Bytes moved by the first `pass` passes. */
  function Done(data: seq<Byte>, pass: nat): (n: nat)
    ensures n <= |data|
  {
    if pass * SLOT <= |data| && pass < Passes(|data|) then pass * SLOT
    else if Moved(|data|) <= |data| then Moved(|data|) else 0
  }

  /** A filled slot holds the chunk of its transfer. */
  ghost predicate Loaded(s: State, x: Transfer)
    requires Delivers(x)
  {
    x.phase.Filled? ==>
      && Range(x) + |Chunk(x)| <= |s.stage|
      && s.stage[Range(x)..Range(x) + |Chunk(x)|] == Chunk(x)
  }

  ghost predicate Inv(slots: nat, s: State) {
    && Sound(slots, s) && Exclusive(s) && Owned(s)
    && (forall t :: 0 <= t < |s.transfers| ==> Delivers(s.transfers[t]) && Loaded(s, s.transfers[t]))
  }

  lemma DoneNext(data: seq<Byte>, pass: nat)
    requires |data| < U32 && pass < Passes(|data|)
    ensures Done(data, pass) == pass * SLOT
    ensures Done(data, pass) + StepLen(|data|, pass) == Done(data, pass + 1) <= |data|
  {
    StepLenExact(|data|, pass);
    PassesExact(|data|);
  }

  lemma DoneAll(data: seq<Byte>)
    requires |data| < U32
    ensures Done(data, Passes(|data|)) == Moved(|data|) && Done(data, 0) == 0
  {
    PassesExact(|data|);
  }

  lemma InitInv(slots: nat)
    ensures Inv(slots, Init(slots))
  {
  }

  lemma BeginOwners(s: State, x: Transfer)
    requires Exclusive(s) && Owned(s) && x.phase == Idle
    ensures Exclusive(s.(transfers := s.transfers + [x])) && Owned(s.(transfers := s.transfers + [x]))
  {
    var s' := s.(transfers := s.transfers + [x]);
    forall slot: nat | slot < |s'.bitmap| && s'.bitmap[slot] ensures exists t: nat :: HeldBy(s', t, slot) {
      var t: nat :| HeldBy(s, t, slot);
      assert HeldBy(s', t, slot);
    }
  }

  lemma BeginKeeps(slots: nat, s: State, toChip: bool, data: seq<Byte>)
    requires Inv(slots, s) && Enabled(slots, s, Begin(toChip, data))
    ensures Inv(slots, Apply(slots, s, Begin(toChip, data)))
  {
    DoneAll(data);
    BeginOwners(s, Transfer(toChip, data, 0, [], Idle));
  }

  lemma GetOwners(slots: nat, s: State, t: nat)
    requires Inv(slots, s) && Enabled(slots, s, Get(t))
    ensures Exclusive(Apply(slots, s, Get(t))) && Owned(Apply(slots, s, Get(t)))
  {
    var s' := Apply(slots, s, Get(t));
    forall k: nat | k < |s'.bitmap| && s'.bitmap[k] ensures exists u: nat :: HeldBy(s', u, k) {
      if k == FirstFreeFrom(s.bitmap, 0) {
        assert HeldBy(s', t, k);
      } else {
        var u: nat :| HeldBy(s, u, k);
        assert HeldBy(s', u, k);
      }
    }
  }

  lemma GetKeeps(slots: nat, s: State, t: nat)
    requires Inv(slots, s) && Enabled(slots, s, Get(t))
    ensures Inv(slots, Apply(slots, s, Get(t)))
  {
    GetOwners(slots, s, t);
    NotFullHasFirstFree(s.bitmap);
    MulMono(FirstFreeFrom(s.bitmap, 0) + 1, slots, SLOT);
  }

  /** Filling one slot leaves the bytes of the others alone. */
  lemma OtherSlotKept(stage: seq<Byte>, slots: nat, i: nat, chunk: seq<Byte>, j: nat, len: nat)
    requires |stage| == slots * SLOT && i != j && |chunk| <= SLOT && len <= SLOT
    requires i * SLOT + SLOT <= |stage| && j * SLOT + SLOT <= |stage|
    ensures Patched(stage, i * SLOT, chunk)[j * SLOT..j * SLOT + len] == stage[j * SLOT..j * SLOT + len]
  {
    if i < j {
      MulMono(i + 1, j, SLOT);
    } else {
      MulMono(j + 1, i, SLOT);
    }
  }

  lemma PhaseKeepsOwners(s: State, s': State, t: nat)
    requires Owned(s) && t < |s.transfers| == |s'.transfers| && s'.bitmap == s.bitmap
    requires forall u :: 0 <= u < |s.transfers| && u != t ==> s'.transfers[u] == s.transfers[u]
    requires HasSlot(s.transfers[t].phase) && HasSlot(s'.transfers[t].phase)
    requires s'.transfers[t].phase.slot == s.transfers[t].phase.slot
    ensures Owned(s')
  {
    forall slot: nat | slot < |s'.bitmap| && s'.bitmap[slot] ensures exists u: nat :: HeldBy(s', u, slot) {
      var u: nat :| HeldBy(s, u, slot);
      assert HeldBy(s', u, slot);
    }
  }

  lemma FillOthers(slots: nat, stage: seq<Byte>, x: Transfer, y: Transfer)
    requires |stage| == slots * SLOT && SoundTransfer(slots, x) && SoundTransfer(slots, y)
    requires HasSlot(x.phase) && y.phase.Filled? && x.phase.slot != y.phase.slot
    ensures |Chunk(x)| <= SLOT && |Chunk(y)| <= SLOT
    ensures Patched(stage, Range(x), Chunk(x))[Range(y)..Range(y) + |Chunk(y)|] == stage[Range(y)..Range(y) + |Chunk(y)|]
  {
    StepLenExact(|x.data|, x.pass);
    StepLenExact(|y.data|, y.pass);
    OtherSlotKept(stage, slots, x.phase.slot, Chunk(x), y.phase.slot, |Chunk(y)|);
  }

  lemma FillOwn(slots: nat, s: State, x: Transfer)
    requires |s.stage| == slots * SLOT && SoundTransfer(slots, x) && x.phase.Holding? && Delivers(x)
    ensures Range(x) + |Chunk(x)| <= |s.stage|
    ensures var y := x.(phase := Filled(x.phase.slot));
            Delivers(y) && Loaded(s.(stage := Patched(s.stage, Range(x), Chunk(x))), y)
  {
    StepLenExact(|x.data|, x.pass);
  }

  /** Another transfer does not notice. */
  lemma FillOther(slots: nat, s: State, x: Transfer, y: Transfer)
    requires |s.stage| == slots * SLOT && SoundTransfer(slots, x) && SoundTransfer(slots, y)
    requires HasSlot(x.phase) && (HasSlot(y.phase) ==> x.phase.slot != y.phase.slot)
    requires Delivers(y) && Loaded(s, y)
    ensures Range(x) + |Chunk(x)| <= |s.stage|
    ensures Loaded(s.(stage := Patched(s.stage, Range(x), Chunk(x))), y)
  {
    StepLenExact(|x.data|, x.pass);
    if y.phase.Filled? {
      FillOthers(slots, s.stage, x, y);
    }
  }

  lemma FillKeeps(slots: nat, s: State, t: nat)
    requires Inv(slots, s) && Enabled(slots, s, Fill(t))
    ensures Inv(slots, Apply(slots, s, Fill(t)))
  {
    var s' := Apply(slots, s, Fill(t));
    var x := s.transfers[t];
    PhaseKeepsOwners(s, s', t);
    FillOwn(slots, s, x);
    forall u | 0 <= u < |s'.transfers| ensures Delivers(s'.transfers[u]) && Loaded(s', s'.transfers[u]) {
      if u != t {
        FillOther(slots, s, x, s.transfers[u]);
      }
    }
  }

  lemma EmptyDelivers(s: State, x: Transfer)
    requires Delivers(x) && Loaded(s, x) && x.phase.Filled?
    ensures StepLen(|x.data|, x.pass) == |Chunk(x)|
    ensures Delivers(x.(delivered := x.delivered + s.stage[Range(x)..Range(x) + |Chunk(x)|], phase := Sent(x.phase.slot)))
  {
    DoneNext(x.data, x.pass);
    StepLenExact(|x.data|, x.pass);
    assert x.data[..Done(x.data, x.pass)] + Chunk(x) == x.data[..Done(x.data, x.pass + 1)];
  }

  lemma EmptyKeeps(slots: nat, s: State, t: nat)
    requires Inv(slots, s) && Enabled(slots, s, Empty(t))
    ensures Inv(slots, Apply(slots, s, Empty(t)))
  {
    var s' := Apply(slots, s, Empty(t));
    PhaseKeepsOwners(s, s', t);
    EmptyDelivers(s, s.transfers[t]);
  }

  lemma DmaFailsKeeps(slots: nat, s: State, t: nat)
    requires Inv(slots, s) && Enabled(slots, s, DmaFails(t))
    ensures Inv(slots, Apply(slots, s, DmaFails(t)))
  {
    PhaseKeepsOwners(s, Apply(slots, s, DmaFails(t)), t);
  }

  lemma FreeOwners(slots: nat, s: State, t: nat)
    requires Inv(slots, s) && Enabled(slots, s, Free(t))
    ensures Exclusive(Apply(slots, s, Free(t))) && Owned(Apply(slots, s, Free(t)))
  {
    var s' := Apply(slots, s, Free(t));
    forall slot: nat | slot < |s'.bitmap| && s'.bitmap[slot] ensures exists u: nat :: HeldBy(s', u, slot) {
      var u: nat :| HeldBy(s, u, slot);
      assert HeldBy(s', u, slot);
    }
  }

  lemma FreeKeeps(slots: nat, s: State, t: nat)
    requires Inv(slots, s) && Enabled(slots, s, Free(t))
    ensures Inv(slots, Apply(slots, s, Free(t)))
  {
    FreeOwners(slots, s, t);
    DoneNext(s.transfers[t].data, s.transfers[t].pass);
  }

  lemma NextKeepsInv(slots: nat, s: State, a: Action, s': State)
    requires Inv(slots, s) && Enabled(slots, s, a) && s' == Apply(slots, s, a)
    ensures Inv(slots, s')
  {
    match a
    case Begin(toChip, data) => BeginKeeps(slots, s, toChip, data);
    case Get(t) => GetKeeps(slots, s, t);
    case Fill(t) => FillKeeps(slots, s, t);
    case Empty(t) => EmptyKeeps(slots, s, t);
    case DmaFails(t) => DmaFailsKeeps(slots, s, t);
    case Free(t) => FreeKeeps(slots, s, t);
  }

  lemma StepKeepsInv(slots: nat, s: State, s': State)
    requires Inv(slots, s) && Next(slots, s, s')
    ensures Inv(slots, s')
  {
    var a: Action :| IsStep(slots, s, a, s');
    NextKeepsInv(slots, s, a, s');
  }

  lemma {:induction false} RunInv(slots: nat, run: seq<State>, i: nat)
    requires Run(slots, run) && i < |run|
    ensures Inv(slots, run[i])
  {
    if i == 0 {
      InitInv(slots);
    } else {
      RunInv(slots, run, i - 1);
      StepKeepsInv(slots, run[i - 1], run[i]);
    }
  }

  /** In every run no two transfers hold the same slot, and the bytes of the stage buffer they may touch are
      disjoint and inside it. */
  lemma SlotsAreExclusive(slots: nat, run: seq<State>, i: nat, t: nat, u: nat, a: nat, b: nat)
    requires Run(slots, run) && i < |run| && t < u < |run[i].transfers| && a < SLOT && b < SLOT
    requires HasSlot(run[i].transfers[t].phase) && HasSlot(run[i].transfers[u].phase)
    ensures Range(run[i].transfers[t]) + a != Range(run[i].transfers[u]) + b
    ensures Range(run[i].transfers[t]) + a < slots * SLOT && Range(run[i].transfers[u]) + b < slots * SLOT
  {
    RunInv(slots, run, i);
    SlotsApart(run[i].transfers[t].phase.slot, run[i].transfers[u].phase.slot, slots, a, b);
  }

  /** In every run a transfer that has finished all its passes delivered its own source, whole and in order,
      whatever other transfers did meanwhile: all of it up to 2^32 minus a slot, and nothing above. */
  lemma FinishedMeansDelivered(slots: nat, run: seq<State>, i: nat, t: nat)
    requires Run(slots, run) && i < |run| && t < |run[i].transfers|
    requires run[i].transfers[t].phase == Idle && run[i].transfers[t].pass == Passes(|run[i].transfers[t].data|)
    ensures var x := run[i].transfers[t];
            x.delivered == x.data[..Moved(|x.data|)] && (x.delivered == x.data <==> |x.data| <= U32 - SLOT)
  {
    RunInv(slots, run, i);
    DoneAll(run[i].transfers[t].data);
  }

  /** In every run a transfer only ever waits for a slot that another transfer really holds: when nobody holds
      a slot, all are free, and with one free the search finds it. */
  lemma NoSlotLeaks(slots: nat, run: seq<State>, i: nat, slot: nat)
    requires Run(slots, run) && i < |run| && slot < slots
    ensures |run[i].bitmap| == slots
    ensures run[i].bitmap[slot] <==> exists t: nat :: HeldBy(run[i], t, slot)
  {
    RunInv(slots, run, i);
  }

  // ---------------------------------------------------------------- transfers can be finished

  function Last(run: seq<State>): State
    requires |run| > 0
  {
    run[|run| - 1]
  }

  lemma Do(slots: nat, run: seq<State>, a: Action) returns (run': seq<State>)
    requires Run(slots, run) && Enabled(slots, Last(run), a)
    ensures Run(slots, run') && run <= run' && Last(run') == Apply(slots, Last(run), a)
  {
    run' := run + [Apply(slots, Last(run), a)];
    assert IsStep(slots, Last(run), a, Last(run'));
    forall i | 0 <= i < |run'| - 1 ensures Next(slots, run'[i], run'[i + 1]) {
      assert i < |run| - 1 ==> Next(slots, run[i], run[i + 1]);
    }
  }

  lemma LastSound(slots: nat, run: seq<State>)
    requires Run(slots, run)
    ensures Sound(slots, Last(run))
  {
    RunInv(slots, run, |run| - 1);
  }

  /** The other transfers are as they were. */
  ghost predicate OthersSame(s: State, s': State, t: nat) {
    |s'.transfers| == |s.transfers| && forall u :: 0 <= u < |s.transfers| && u != t ==> s'.transfers[u] == s.transfers[u]
  }

  /** A transfer that holds a slot can end its pass, and gives the slot back. */
  lemma GivesBack(slots: nat, run: seq<State>, t: nat) returns (run': seq<State>)
    requires Run(slots, run) && t < |Last(run).transfers| && HasSlot(Last(run).transfers[t].phase)
    ensures Run(slots, run') && run <= run' && OthersSame(Last(run), Last(run'), t)
    ensures var x, y := Last(run).transfers[t], Last(run').transfers[t];
            && y.data == x.data && y.toChip == x.toChip
            && if x.phase.Failing? then y.phase == Failed else y.phase == Idle && y.pass == x.pass + 1
    ensures var slot := Last(run).transfers[t].phase.slot; slot < |Last(run').bitmap| && !Last(run').bitmap[slot]
  {
    run' := run;
    LastSound(slots, run');
    if Last(run').transfers[t].phase.Holding? {
      run' := Do(slots, run', Fill(t));
      LastSound(slots, run');
    }
    if Last(run').transfers[t].phase.Filled? {
      run' := Do(slots, run', Empty(t));
      LastSound(slots, run');
    }
    run' := Do(slots, run', Free(t));
  }

  /** A waiting transfer can go through its next pass, even if other transfers hold every slot now. */
  lemma PassesOn(slots: nat, run: seq<State>, t: nat) returns (run': seq<State>)
    requires slots > 0 && Run(slots, run) && t < |Last(run).transfers|
    requires Last(run).transfers[t].phase == Idle && Last(run).transfers[t].pass < Passes(|Last(run).transfers[t].data|)
    ensures Run(slots, run') && run <= run' && t < |Last(run').transfers|
    ensures var x, y := Last(run).transfers[t], Last(run').transfers[t];
            y.data == x.data && y.toChip == x.toChip && y.phase == Idle && y.pass == x.pass + 1
  {
    run' := run;
    if false !in Last(run).bitmap {
      LastSound(slots, run);
      assert Last(run).bitmap[0] in Last(run).bitmap;
      NoSlotLeaks(slots, run, |run| - 1, 0);
      var u: nat :| HeldBy(Last(run), u, 0);
      run' := GivesBack(slots, run, u);
    }
    LastSound(slots, run');
    run' := Do(slots, run', Get(t));
    run' := GivesBack(slots, run', t);
  }

  /** A transfer between two passes can be finished. */
  lemma {:induction false} FinishFromIdle(slots: nat, run: seq<State>, t: nat) returns (run': seq<State>)
    requires slots > 0 && Run(slots, run) && t < |Last(run).transfers|
    requires Last(run).transfers[t].phase == Idle
    ensures Run(slots, run') && run <= run' && t < |Last(run').transfers|
    ensures var x, y := Last(run).transfers[t], Last(run').transfers[t];
            y.phase == Idle && y.data == x.data && y.pass == Passes(|x.data|) && y.delivered == x.data[..Moved(|x.data|)]
    decreases Passes(|Last(run).transfers[t].data|) - Last(run).transfers[t].pass
  {
    var x := Last(run).transfers[t];
    RunInv(slots, run, |run| - 1);
    assert Delivers(x);
    if x.pass == Passes(|x.data|) {
      run' := run;
      FinishedMeansDelivered(slots, run, |run| - 1, t);
    } else {
      run' := PassesOn(slots, run, t);
      run' := FinishFromIdle(slots, run', t);
    }
  }

  /** From every reachable state every transfer that has not failed can be finished, whatever the others hold, and
      then it has delivered its data. */
  lemma CanFinish(slots: nat, run: seq<State>, t: nat) returns (run': seq<State>)
    requires slots > 0 && Run(slots, run) && t < |Last(run).transfers|
    requires !Last(run).transfers[t].phase.Failing? && !Last(run).transfers[t].phase.Failed?
    ensures Run(slots, run') && run <= run' && t < |Last(run').transfers|
    ensures var x, y := Last(run).transfers[t], Last(run').transfers[t];
            y.phase == Idle && y.data == x.data && y.pass == Passes(|x.data|) && y.delivered == x.data[..Moved(|x.data|)]
  {
    run' := run;
    if HasSlot(Last(run).transfers[t].phase) {
      run' := GivesBack(slots, run, t);
    }
    run' := FinishFromIdle(slots, run', t);
  }
}

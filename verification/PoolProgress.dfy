/** That requests come to an end: from every reachable state each request alone can finish what it is doing, so a
    quiescent state, in which the counter is exact, can always be reached. */
module PoolProgress {
  import opened Arith
  import opened WordBits
  import opened Bitmap
  import opened PoolProtocol
  import opened Wrappers

  function Last(run: seq<State>): State
    requires |run| > 0
  {
    run[|run| - 1]
  }

  lemma Do(c: Chunk, run: seq<State>, a: Action) returns (run': seq<State>)
    requires Run(c, run) && Enabled(c, Last(run), a)
    ensures Run(c, run') && run <= run' && Last(run') == Apply(c, Last(run), a)
  {
    run' := run + [Apply(c, Last(run), a)];
    assert IsStep(c, Last(run), a, Last(run'));
    forall i | 0 <= i < |run'| - 1 ensures Next(c, run'[i], run'[i + 1]) {
      assert i < |run| - 1 ==> Next(c, run[i], run[i + 1]);
    }
  }

  /** Live or done, and nothing in between. */
  predicate AtRest(ph: Phase) {
    ph.Live? || ph.Done?
  }

  /** What a request does next when nobody disturbs it. */
  function Move(s: State, id: nat): Action
    requires id < |s.reqs| && !AtRest(s.reqs[id])
  {
    match s.reqs[id]
    case Searching(_) => GiveUp(id)
    case Setting(_, _, _, seen) => if seen == None then Load(id) else Exchange(id)
    case RollingBack(_, _, stop, pos, seen) =>
      if pos >= stop then Retry(id) else if seen == None then Load(id) else Exchange(id)
    case Claimed(_, _) => Charge(id)
    case Freeing(_, _, _, seen) => if seen == None then Load(id) else Exchange(id)
    case _ => Credit(id)
  }

  /** How far it still has to go: the phases left, the bits left, and whether the value seen is up to date. */
  function PhasesLeft(ph: Phase): nat {
    match ph
    case Setting(_, _, _, _) => 4
    case RollingBack(_, _, _, _, _) => 3
    case Claimed(_, _) => 2
    case Freeing(_, _, _, _) => 2
    case Searching(_) => 1
    case Cleared(_) => 1
    case _ => 0
  }

  function BitsLeft(ph: Phase): nat {
    if InLoop(ph) && End(ph) >= ph.pos then End(ph) - ph.pos else 0
  }

  function Fresh(s: State, ph: Phase): nat {
    if InLoop(ph) && PoolProtocol.Cursor(ph) < |s.words| && ph.seen == Some(s.words[PoolProtocol.Cursor(ph)]) then 0 else 1
  }

  lemma CursorInside(c: Chunk, s: State, id: nat)
    requires Inv(c, s) && id < |s.reqs| && InLoop(s.reqs[id])
    ensures PoolProtocol.Cursor(s.reqs[id]) < |s.words|
  {
    var ph := s.reqs[id];
    assert WellFormed(c, ph);
    WordStep(s.words, ph.pos, End(ph), true);
  }

  lemma CanMove(c: Chunk, s: State, id: nat)
    requires Inv(c, s) && id < |s.reqs| && !AtRest(s.reqs[id])
    ensures Enabled(c, s, Move(s, id))
  {
    assert WellFormed(c, s.reqs[id]);
    if InLoop(s.reqs[id]) {
      CursorInside(c, s, id);
    }
  }

  /** Request `id` is nearer to its end, and the others are as they were. */
  ghost predicate Nearer(s: State, id: nat, s': State)
    requires id < |s.reqs|
  {
    && |s'.reqs| == |s.reqs| && (forall i :: 0 <= i < |s.reqs| && i != id ==> s'.reqs[i] == s.reqs[i])
    && var ph, ph' := s.reqs[id], s'.reqs[id];
       || PhasesLeft(ph') < PhasesLeft(ph)
       || (PhasesLeft(ph') == PhasesLeft(ph) && BitsLeft(ph') < BitsLeft(ph))
       || (PhasesLeft(ph') == PhasesLeft(ph) && BitsLeft(ph') == BitsLeft(ph) && Fresh(s', ph') < Fresh(s, ph))
  }

  lemma ExchangeHelps(c: Chunk, s: State, id: nat, s': State)
    requires IsStep(c, s, Exchange(id), s') && WellFormed(c, s.reqs[id]) && WellFormed(c, s'.reqs[id])
    ensures Nearer(s, id, s')
  {
    var ph := s.reqs[id];
    var val := ph.seen.value;
    if Ready(val, Mask(ph), ph.Setting?) && s.words[PoolProtocol.Cursor(ph)] == val {
      assert s'.reqs[id] == Advanced(ph);
    }
  }

  lemma OtherMoveHelps(c: Chunk, s: State, id: nat, s': State)
    requires id < |s.reqs| && !AtRest(s.reqs[id]) && IsStep(c, s, Move(s, id), s') && !Move(s, id).Exchange?
    requires WellFormed(c, s.reqs[id])
    ensures Nearer(s, id, s')
  {
  }

  /** Every such move brings the request nearer to its end and leaves the others alone. */
  lemma MoveHelps(c: Chunk, s: State, id: nat)
    requires Inv(c, s) && id < |s.reqs| && !AtRest(s.reqs[id]) && Enabled(c, s, Move(s, id))
    ensures Nearer(s, id, Apply(c, s, Move(s, id)))
  {
    var s' := Apply(c, s, Move(s, id));
    assert WellFormed(c, s.reqs[id]);
    if Move(s, id).Exchange? {
      NextKeepsInv(c, s, Move(s, id));
      assert |s'.reqs| == |s.reqs| && WellFormed(c, s'.reqs[id]);
      ExchangeHelps(c, s, id, s');
    } else {
      OtherMoveHelps(c, s, id, s');
    }
  }

  /** A request alone comes to rest. */
  lemma {:induction false} Finishes(c: Chunk, run: seq<State>, id: nat) returns (run': seq<State>)
    requires Run(c, run) && id < |Last(run).reqs|
    ensures Run(c, run') && run <= run' && |Last(run').reqs| == |Last(run).reqs| && AtRest(Last(run').reqs[id])
    ensures forall i :: 0 <= i < |Last(run).reqs| && i != id ==> Last(run').reqs[i] == Last(run).reqs[i]
    decreases PhasesLeft(Last(run).reqs[id]), BitsLeft(Last(run).reqs[id]), Fresh(Last(run), Last(run).reqs[id])
  {
    var s := Last(run);
    RunInv(c, run, |run| - 1);
    if AtRest(s.reqs[id]) {
      run' := run;
    } else {
      CanMove(c, s, id);
      MoveHelps(c, s, id);
      run' := Do(c, run, Move(s, id));
      run' := Finishes(c, run', id);
    }
  }

  lemma {:induction false} FinishFirst(c: Chunk, run: seq<State>, k: nat) returns (run': seq<State>)
    requires Run(c, run) && k <= |Last(run).reqs|
    ensures Run(c, run') && run <= run' && |Last(run').reqs| == |Last(run).reqs|
    ensures forall i :: 0 <= i < k ==> AtRest(Last(run').reqs[i])
  {
    if k == 0 {
      run' := run;
    } else {
      run' := FinishFirst(c, run, k - 1);
      run' := Finishes(c, run', k - 1);
    }
  }

  /** From every reachable state all requests can come to rest, and then the counter plus the live granules is the
      chunk size again. */
  lemma CanRest(c: Chunk, run: seq<State>) returns (run': seq<State>)
    requires Run(c, run)
    ensures Run(c, run') && run <= run' && Quiescent(Last(run'))
    ensures Last(run').avail + LiveGranules(Last(run').reqs) * c.granule == c.size
  {
    run' := FinishFirst(c, run, |Last(run).reqs|);
    QuiescentConservation(c, run', |run'| - 1);
  }

  /** A live block can be given back: its owner's free alone comes to its end and credits it. */
  lemma FreeCompletes(c: Chunk, run: seq<State>, id: nat) returns (run': seq<State>)
    requires Run(c, run) && id < |Last(run).reqs| && Last(run).reqs[id].Live?
    ensures Run(c, run') && run <= run' && Last(run').reqs == Last(run).reqs[id := Done]
    ensures Last(run').avail == Last(run).avail + Last(run).reqs[id].nr * c.granule
  {
    run' := Do(c, run, Release(id));
    run' := Freed(c, run', id);
    RunInv(c, run, |run| - 1);
    RunInv(c, run', |run'| - 1);
    TotalChargedUpdate(Last(run).reqs, id, Done);
    Distribute(TotalCharged(Last(run).reqs), Last(run).reqs[id].nr, 0, c.granule);
  }

  lemma {:induction false} Freed(c: Chunk, run: seq<State>, id: nat) returns (run': seq<State>)
    requires Run(c, run) && id < |Last(run).reqs| && (Last(run).reqs[id].Freeing? || Last(run).reqs[id].Cleared? || Last(run).reqs[id].Done?)
    ensures Run(c, run') && run <= run' && Last(run').reqs == Last(run).reqs[id := Done]
    decreases PhasesLeft(Last(run).reqs[id]), BitsLeft(Last(run).reqs[id]), Fresh(Last(run), Last(run).reqs[id])
  {
    var s := Last(run);
    RunInv(c, run, |run| - 1);
    if s.reqs[id].Done? {
      run' := run;
    } else {
      CanMove(c, s, id);
      MoveHelps(c, s, id);
      StaysFreeing(c, s, id);
      run' := Do(c, run, Move(s, id));
      var t := Last(run');
      run' := Freed(c, run', id);
      assert Last(run').reqs == s.reqs[id := Done];
    }
  }

  lemma StaysFreeing(c: Chunk, s: State, id: nat)
    requires Inv(c, s) && id < |s.reqs| && (s.reqs[id].Freeing? || s.reqs[id].Cleared?) && Enabled(c, s, Move(s, id))
    ensures var ph := Apply(c, s, Move(s, id)).reqs[id]; ph.Freeing? || ph.Cleared? || ph.Done?
  {
    NextKeepsInv(c, s, Move(s, id));
    assert WellFormed(c, Apply(c, s, Move(s, id)).reqs[id]);
  }
}

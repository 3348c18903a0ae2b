/** The board power window and the voltage/frequency controller of the SC7 boards.  The controller's state is
    also given as a value, with one function per monitor tick, so that whole runs can be talked about. */
module FreqScaling {
  import opened Arith

  const U32: nat := 0x1_0000_0000
  const SAMPLES: nat := 10
  const INDEX_LIMIT: nat := 10000
  const MAX_LEVEL: nat := 20
  const TICKS_PER_RUN: nat := 31
  const RUNS_PER_UP: nat := 60

  /** The three power thresholds, vf_init_level and vf_relbl_level. */
  datatype Limits = Limits(peak: nat, upper: nat, lower: nat, init: nat, relbl: nat)

  ghost predicate ValidLimits(lim: Limits) {
    lim.init < MAX_LEVEL && lim.relbl < MAX_LEVEL
  }

  function BoardLimits(pro: bool): (lim: Limits)
    ensures ValidLimits(lim) && lim.lower < lim.upper < lim.peak
  {
    if pro then Limits(180, 150, 140, 0, 5) else Limits(85, 80, 72, 0, 5)
  }

  /** The last ten samples; before ten have come, zeros stand in. */
  function LastTen(samples: seq<nat>): (w: seq<nat>)
    ensures |w| == SAMPLES
  {
    (seq(SAMPLES, i => 0) + samples)[|samples|..]
  }

  lemma LastTenSlides(samples: seq<nat>, power: nat)
    ensures LastTen(samples + [power]) == LastTen(samples)[1..] + [power]
  {
  }

  /** Replacing the oldest sample in the running total keeps it the sum of the window, in 32 bits. */
  lemma TotalSlides(samples: seq<nat>, power: nat, total: nat)
    requires total == Sum(LastTen(samples)) % U32
    ensures ((total - LastTen(samples)[0]) % U32 + power) % U32 == Sum(LastTen(samples + [power])) % U32
  {
    LastTenSlides(samples, power);
    var w := LastTen(samples);
    SumSplit(w, power);
    assert (total - w[0]) % U32 == Sum(w[1..]) % U32;
  }

  lemma SumSplit(w: seq<int>, x: int)
    requires w != []
    ensures Sum(w) == w[0] + Sum(w[1..])
    ensures Sum(w[1..] + [x]) == Sum(w[1..]) + x
  {
    assert w == [w[0]] + w[1..];
    SumConcat([w[0]], w[1..]);
    SumConcat(w[1..], [x]);
    SumOne(w[0]);
    SumOne(x);
  }

  lemma SumOne(x: int)
    ensures Sum([x]) == x
  {
    assert [x][..|[x]| - 1] == [];
  }

  /** Samples below a tenth of 2^32 never make the total wrap, so taking the oldest out never goes below
      zero. */
  lemma ExactWhileSmall(samples: seq<nat>, total: nat)
    requires forall i :: 0 <= i < |samples| ==> samples[i] <= 429_496_729
    requires total == Sum(LastTen(samples)) % U32
    ensures LastTen(samples)[0] <= total == Sum(LastTen(samples))
  {
    var w := LastTen(samples);
    SumBetween(w, 0, 429_496_729);
    SumBetween(w[1..], 0, 429_496_729);
    SumSplit(w, 0);
  }

  // ---------------------------------------------------------------- the controller

  /** The counters and the level of the controller; a higher level is slower. */
  datatype Control = Control(level: nat, upCount: nat, scalCount: nat, idleCount: nat, pwrCount: nat)

  /** What a tick sees: mean and highest board power, and the TPU load (-1 when it cannot be read). */
  datatype Sensors = Sensors(average: nat, highest: nat, util: int)

  /** bmdrv_volt_freq_scaling_controller. */
  function RunController(lim: Limits, c: Control, s: Sensors): Control {
    if s.average >= lim.upper then
      if c.level < MAX_LEVEL - 1 then c.(level := c.level + 1, upCount := 0) else c
    else if s.average <= lim.lower then
      if c.upCount + 1 < RUNS_PER_UP then c.(upCount := c.upCount + 1)
      else if c.level > 0 && (s.util != 0 || c.level > lim.init) then c.(upCount := 0, level := c.level - 1)
      else c.(upCount := 0)
    else c.(upCount := 0)
  }

  predicate Clips(lim: Limits, c: Control, s: Sensors) {
    s.highest >= lim.peak && c.level < lim.relbl
  }

  /** The tick on which the controller runs. */
  predicate Runs(lim: Limits, c: Control, s: Sensors) {
    !Clips(lim, c, s) && c.scalCount + 1 >= TICKS_PER_RUN
  }

  /** bmdrv_volt_freq_scaling in mission mode: clip a peak, run the controller every 31 ticks, or watch for
      an idle chip. */
  function Tick(lim: Limits, c: Control, s: Sensors): Control {
    var c1 :=
      if Clips(lim, c, s) then c.(level := lim.relbl, scalCount := 0)
      else if Runs(lim, c, s) then RunController(lim, c.(scalCount := 0), s)
      else if s.util != 0 then c.(scalCount := c.scalCount + 1, idleCount := 0)
      else if c.level < lim.init && (c.idleCount + 1) % U32 > 49 then c.(level := lim.init, scalCount := 0, idleCount := 0)
      else c.(scalCount := c.scalCount + 1, idleCount := (c.idleCount + 1) % U32);
    var p := (c.pwrCount + 1) % U32;
    c1.(pwrCount := if p == 4 then 0 else p)
  }

  function Start(lim: Limits): Control {
    Control(lim.init, 0, 0, 0, 0)
  }

  /** A run of the controller from its initialisation: state i + 1 follows from state i under input i. */
  ghost predicate Run(lim: Limits, states: seq<Control>, inputs: seq<Sensors>) {
    && |states| == |inputs| + 1 && states[0] == Start(lim)
    && forall i :: 0 <= i < |inputs| ==> states[i + 1] == Tick(lim, states[i], inputs[i])
  }

  /** An up-step: the controller lowers the level. */
  predicate StepsUp(lim: Limits, c: Control, s: Sensors) {
    Tick(lim, c, s).level < c.level
  }

  ghost predicate Bounds(c: Control) {
    c.level < MAX_LEVEL && c.upCount < RUNS_PER_UP && c.scalCount < TICKS_PER_RUN
  }

  lemma TickBounds(lim: Limits, c: Control, s: Sensors)
    requires ValidLimits(lim) && Bounds(c)
    ensures Bounds(Tick(lim, c, s))
    ensures StepsUp(lim, c, s) ==>
              Runs(lim, c, s) && s.average <= lim.lower && c.upCount == RUNS_PER_UP - 1
              && Tick(lim, c, s).upCount == 0 && Tick(lim, c, s).scalCount == 0 && Tick(lim, c, s).level == c.level - 1
    ensures Tick(lim, c, s).upCount <= c.upCount + (if Runs(lim, c, s) then 1 else 0)
  {
  }

  /** The level only moves for a reason: down the table (slower) for a clipped peak, for a controller run at
      high power, or to the initial level of an idle chip; up the table only after 60 low-power runs. */
  lemma LevelMovesForAReason(lim: Limits, c: Control, s: Sensors)
    requires ValidLimits(lim) && Bounds(c)
    ensures Tick(lim, c, s).level > c.level <==>
            || Clips(lim, c, s)
            || (Runs(lim, c, s) && s.average >= lim.upper && c.level < MAX_LEVEL - 1)
            || (!Clips(lim, c, s) && !Runs(lim, c, s) && s.util == 0 && c.level < lim.init && (c.idleCount + 1) % U32 > 49)
    ensures Tick(lim, c, s).level < c.level <==>
            && Runs(lim, c, s) && lim.lower >= s.average && s.average < lim.upper
            && c.upCount == RUNS_PER_UP - 1 && c.level > 0 && (s.util != 0 || c.level > lim.init)
  {
  }

  /** Where a tick takes the level: a clipped peak to the reliable level, high power exactly one level slower, the
      sixtieth run at low power exactly one level faster, an idle chip to its initial level; and nowhere
      otherwise. */
  lemma LevelAfterTick(lim: Limits, c: Control, s: Sensors)
    requires ValidLimits(lim) && Bounds(c)
    ensures s.highest >= lim.peak && c.level < lim.relbl ==> Tick(lim, c, s).level == lim.relbl && Tick(lim, c, s).scalCount == 0
    ensures Runs(lim, c, s) && s.average >= lim.upper && c.level < MAX_LEVEL - 1 ==> Tick(lim, c, s).level == c.level + 1
    ensures Tick(lim, c, s).level < c.level ==> Tick(lim, c, s).level == c.level - 1
    ensures !Clips(lim, c, s) && !Runs(lim, c, s) && Tick(lim, c, s).level != c.level ==>
              && Tick(lim, c, s).level == lim.init && Tick(lim, c, s).scalCount == 0 && Tick(lim, c, s).idleCount == 0
    ensures s.highest >= lim.peak ==> Tick(lim, c, s).level + 1 >= lim.relbl
  {
  }

  /** On every run: after a tick that saw a peak the chip is at the reliable level, if it was faster, and never
      more than one level faster than that; and an idle reset leaves it at its initial level. */
  lemma PeaksAreClipped(lim: Limits, states: seq<Control>, inputs: seq<Sensors>, i: nat)
    requires ValidLimits(lim) && Run(lim, states, inputs) && i < |inputs| && inputs[i].highest >= lim.peak
    ensures states[i].level < lim.relbl ==> states[i + 1].level == lim.relbl && states[i + 1].scalCount == 0
    ensures states[i + 1].level + 1 >= lim.relbl
  {
    LevelStaysInTable(lim, states, inputs, i);
    LevelAfterTick(lim, states[i], inputs[i]);
  }

  // ---- what the counters count

  /** A tick on which the chip is watched for being idle. */
  predicate Watches(lim: Limits, c: Control, s: Sensors) {
    !Clips(lim, c, s) && !Runs(lim, c, s)
  }

  /** An idle chip is put back to its initial level. */
  predicate IdleReset(lim: Limits, c: Control, s: Sensors) {
    Watches(lim, c, s) && s.util == 0 && Tick(lim, c, s).level != c.level
  }

  /** Something that starts the count of ticks over. */
  predicate StartsOver(lim: Limits, c: Control, s: Sensors) {
    Clips(lim, c, s) || Runs(lim, c, s) || IdleReset(lim, c, s)
  }

  /** On every run freq_scal_count is the number of ticks since the last clip, controller run or idle reset; so
      the controller runs exactly on the 31st tick after it, unless another comes in between. */
  lemma {:induction false} TicksSince(lim: Limits, states: seq<Control>, inputs: seq<Sensors>, k: nat) returns (m: nat)
    requires ValidLimits(lim) && Run(lim, states, inputs) && k <= |inputs|
    ensures m <= k && states[k].scalCount == k - m
    ensures m == 0 || StartsOver(lim, states[m - 1], inputs[m - 1])
    ensures forall t :: m <= t < k ==> !StartsOver(lim, states[t], inputs[t])
    ensures k < |inputs| && !Clips(lim, states[k], inputs[k]) ==> (Runs(lim, states[k], inputs[k]) <==> k - m + 1 == TICKS_PER_RUN)
  {
    m := 0;
    LevelStaysInTable(lim, states, inputs, k);
    if k > 0 {
      m := TicksSince(lim, states, inputs, k - 1);
      if StartsOver(lim, states[k - 1], inputs[k - 1]) {
        m := k;
      }
    }
  }

  /** Idle ticks among those from `from` up to `upto`. */
  ghost function CountIdle(lim: Limits, states: seq<Control>, inputs: seq<Sensors>, from: nat, upto: nat): nat
    requires from <= upto <= |inputs| <= |states|
    decreases upto
  {
    if from == upto then 0
    else CountIdle(lim, states, inputs, from, upto - 1)
         + (if Watches(lim, states[upto - 1], inputs[upto - 1]) && inputs[upto - 1].util == 0 then 1 else 0)
  }

  lemma IdleAfterTick(lim: Limits, c: Control, s: Sensors)
    requires c.idleCount + 1 < U32
    ensures var d := Tick(lim, c, s);
            d.idleCount == if !Watches(lim, c, s) then c.idleCount
                           else if s.util != 0 || IdleReset(lim, c, s) then 0 else c.idleCount + 1
  {
  }

  /** On every run shorter than 2^32 ticks idle_count is the number of idle ticks since the chip was last seen busy
      or put back; so it is put back to a faster initial level exactly on the fiftieth. */
  lemma {:induction false} IdleSince(lim: Limits, states: seq<Control>, inputs: seq<Sensors>, k: nat) returns (m: nat)
    requires ValidLimits(lim) && Run(lim, states, inputs) && k <= |inputs| < U32
    ensures m <= k && states[k].idleCount == CountIdle(lim, states, inputs, m, k) <= k
    ensures forall t :: m <= t < k && Watches(lim, states[t], inputs[t]) ==>
              inputs[t].util == 0 && !IdleReset(lim, states[t], inputs[t])
    ensures m == 0 || (Watches(lim, states[m - 1], inputs[m - 1])
                       && (inputs[m - 1].util != 0 || IdleReset(lim, states[m - 1], inputs[m - 1])))
  {
    m := 0;
    if k > 0 {
      m := IdleSince(lim, states, inputs, k - 1);
      IdleAfterTick(lim, states[k - 1], inputs[k - 1]);
      if Watches(lim, states[k - 1], inputs[k - 1])
        && (inputs[k - 1].util != 0 || IdleReset(lim, states[k - 1], inputs[k - 1])) {
        m := k;
      }
    }
  }

  /** On every run board_pwr_count is the number of ticks modulo 4. */
  lemma {:induction false} PwrCountIsTicks(lim: Limits, states: seq<Control>, inputs: seq<Sensors>, k: nat)
    requires Run(lim, states, inputs) && k <= |inputs|
    ensures states[k].pwrCount == k % 4
  {
    if k > 0 {
      PwrCountIsTicks(lim, states, inputs, k - 1);
    }
  }

  /** On every run the level indexes the table, so the controller's level check never fails. */
  lemma {:induction false} LevelStaysInTable(lim: Limits, states: seq<Control>, inputs: seq<Sensors>, i: nat)
    requires ValidLimits(lim) && Run(lim, states, inputs) && i < |states|
    ensures Bounds(states[i])
  {
    if i > 0 {
      LevelStaysInTable(lim, states, inputs, i - 1);
      TickBounds(lim, states[i - 1], inputs[i - 1]);
    }
  }

  /** Controller runs among the ticks from `from` up to `upto`. */
  ghost function CountRuns(lim: Limits, states: seq<Control>, inputs: seq<Sensors>, from: nat, upto: nat): nat
    requires from <= upto <= |inputs| <= |states|
    decreases upto
  {
    if from == upto then 0
    else CountRuns(lim, states, inputs, from, upto - 1) + (if Runs(lim, states[upto - 1], inputs[upto - 1]) then 1 else 0)
  }

  /** From a point where both counters are zero, they measure the runs and ticks since. */
  lemma {:induction false} CountersSince(lim: Limits, states: seq<Control>, inputs: seq<Sensors>, from: nat, upto: nat)
    requires ValidLimits(lim) && Run(lim, states, inputs) && from <= upto <= |inputs|
    requires states[from].upCount == 0 && states[from].scalCount == 0
    ensures states[upto].upCount <= CountRuns(lim, states, inputs, from, upto)
    ensures upto - from >= TICKS_PER_RUN * CountRuns(lim, states, inputs, from, upto) + states[upto].scalCount
    decreases upto
  {
    if from < upto {
      CountersSince(lim, states, inputs, from, upto - 1);
      LevelStaysInTable(lim, states, inputs, upto - 1);
      TickBounds(lim, states[upto - 1], inputs[upto - 1]);
    }
  }

  /** Two up-steps are at least 60 controller runs, and at least 60 * 31 ticks, apart; the first is that far
      from the start. */
  lemma UpStepsAreSpaced(lim: Limits, states: seq<Control>, inputs: seq<Sensors>, i: nat, j: nat)
    requires ValidLimits(lim) && Run(lim, states, inputs) && i < j < |inputs|
    requires StepsUp(lim, states[i], inputs[i]) && StepsUp(lim, states[j], inputs[j])
    ensures CountRuns(lim, states, inputs, i + 1, j + 1) >= RUNS_PER_UP
    ensures j - i >= RUNS_PER_UP * TICKS_PER_RUN
  {
    LevelStaysInTable(lim, states, inputs, i);
    TickBounds(lim, states[i], inputs[i]);
    LevelStaysInTable(lim, states, inputs, j);
    TickBounds(lim, states[j], inputs[j]);
    CountersSince(lim, states, inputs, i + 1, j);
  }

  lemma FirstUpStep(lim: Limits, states: seq<Control>, inputs: seq<Sensors>, j: nat)
    requires ValidLimits(lim) && Run(lim, states, inputs) && j < |inputs| && StepsUp(lim, states[j], inputs[j])
    ensures CountRuns(lim, states, inputs, 0, j + 1) >= RUNS_PER_UP && j + 1 >= RUNS_PER_UP * TICKS_PER_RUN
  {
    LevelStaysInTable(lim, states, inputs, j);
    TickBounds(lim, states[j], inputs[j]);
    CountersSince(lim, states, inputs, 0, j);
  }

  /** A controller run above the upper threshold starts the low-power count over exactly when the level is
      not already the slowest: at the slowest level the code returns before it resets the count. */
  lemma HighPowerResetsExactlyAboveBottom(lim: Limits, c: Control, s: Sensors)
    requires Bounds(c) && s.average >= lim.upper
    ensures RunController(lim, c, s).upCount == 0 <==> c.level < MAX_LEVEL - 1 || c.upCount == 0
  {
  }

  /** A controller run at low power. */
  predicate LowRun(lim: Limits, c: Control, s: Sensors) {
    Runs(lim, c, s) && s.average <= lim.lower && s.average < lim.upper
  }

  /** A controller run at high power that finds the level already the slowest. */
  predicate HotAtBottom(lim: Limits, c: Control, s: Sensors) {
    Runs(lim, c, s) && s.average >= lim.upper && c.level == MAX_LEVEL - 1
  }

  ghost function CountLow(lim: Limits, states: seq<Control>, inputs: seq<Sensors>, from: nat, upto: nat): nat
    requires from <= upto <= |inputs| <= |states|
    decreases upto
  {
    if from == upto then 0
    else CountLow(lim, states, inputs, from, upto - 1) + (if LowRun(lim, states[upto - 1], inputs[upto - 1]) then 1 else 0)
  }

  /** Every controller run among the ticks from `from` up to `upto` is at low power, or hot at the bottom. */
  ghost predicate Unbroken(lim: Limits, states: seq<Control>, inputs: seq<Sensors>, from: nat, upto: nat)
    requires from <= upto <= |inputs| <= |states|
  {
    forall t :: from <= t < upto && Runs(lim, states[t], inputs[t]) ==>
      LowRun(lim, states[t], inputs[t]) || HotAtBottom(lim, states[t], inputs[t])
  }

  /** The low-power count is the number of low runs since some tick after which nothing broke the series. */
  lemma {:induction false} CountSince(lim: Limits, states: seq<Control>, inputs: seq<Sensors>, k: nat) returns (m: nat)
    requires ValidLimits(lim) && Run(lim, states, inputs) && k <= |inputs|
    ensures m <= k && CountLow(lim, states, inputs, m, k) == states[k].upCount && Unbroken(lim, states, inputs, m, k)
  {
    if k == 0 {
      m := 0;
    } else {
      m := CountSince(lim, states, inputs, k - 1);
      LevelStaysInTable(lim, states, inputs, k - 1);
      if states[k].upCount == 0 && states[k - 1].upCount != 0 {
        m := k;
      } else if Runs(lim, states[k - 1], inputs[k - 1]) && states[k].upCount == 0 {
        m := k;
      }
    }
  }

  /** What precedes an up-step on any run: exactly 60 low-power controller runs, the last of them the step
      itself, with no other run in between except runs hot at the bottom; so the 60 are consecutive exactly
      when there was none of those. */
  lemma UpStepPrecededBy(lim: Limits, states: seq<Control>, inputs: seq<Sensors>, j: nat) returns (m: nat)
    requires ValidLimits(lim) && Run(lim, states, inputs) && j < |inputs| && StepsUp(lim, states[j], inputs[j])
    ensures m <= j && LowRun(lim, states[j], inputs[j])
    ensures CountLow(lim, states, inputs, m, j + 1) == RUNS_PER_UP
    ensures Unbroken(lim, states, inputs, m, j + 1)
    ensures (forall t :: m <= t <= j && Runs(lim, states[t], inputs[t]) ==> LowRun(lim, states[t], inputs[t]))
            <==> forall t :: m <= t <= j ==> !HotAtBottom(lim, states[t], inputs[t])
  {
    LevelStaysInTable(lim, states, inputs, j);
    TickBounds(lim, states[j], inputs[j]);
    m := CountSince(lim, states, inputs, j);
  }

  // ---- a run in which they are not consecutive

  function After(lim: Limits, c: Control, inputs: seq<Sensors>): Control {
    if inputs == [] then c else Tick(lim, After(lim, c, inputs[..|inputs| - 1]), inputs[|inputs| - 1])
  }

  lemma {:induction false} AfterConcat(lim: Limits, c: Control, a: seq<Sensors>, b: seq<Sensors>)
    ensures After(lim, c, a + b) == After(lim, After(lim, c, a), b)
    decreases |b|
  {
    if b == [] {
      assert a + b == a;
    } else {
      var ab := a + b;
      assert ab[..|ab| - 1] == a + b[..|b| - 1] && ab[|ab| - 1] == b[|b| - 1];
      AfterConcat(lim, c, a, b[..|b| - 1]);
    }
  }

  /** The states of the run on given inputs. */
  lemma RunOf(lim: Limits, inputs: seq<Sensors>) returns (states: seq<Control>)
    ensures Run(lim, states, inputs)
    ensures forall i :: 0 <= i <= |inputs| ==> states[i] == After(lim, Start(lim), inputs[..i])
  {
    states := seq(|inputs| + 1, i requires 0 <= i <= |inputs| => After(lim, Start(lim), inputs[..i]));
    forall i | 0 <= i < |inputs| ensures states[i + 1] == Tick(lim, states[i], inputs[i]) {
      assert inputs[..i + 1][..i] == inputs[..i];
    }
    assert inputs[..0] == [];
  }

  /** `k` ticks with the same busy sensors and no peak. */
  function Steady(s: Sensors, k: nat): (r: seq<Sensors>)
    ensures |r| == k
  {
    seq(k, _ => s)
  }

  ghost predicate Busy(lim: Limits, s: Sensors) {
    s.util != 0 && s.highest < lim.peak
  }

  ghost predicate AtRest(c: Control, level: nat, upCount: nat) {
    c.level == level && c.upCount == upCount && c.scalCount == 0
  }

  lemma {:induction false} SteadyCounts(lim: Limits, c: Control, s: Sensors, k: nat)
    requires Busy(lim, s) && c.scalCount == 0 && k < TICKS_PER_RUN
    ensures var d := After(lim, c, Steady(s, k)); d.level == c.level && d.upCount == c.upCount && d.scalCount == k
  {
    if k > 0 {
      SteadyCounts(lim, c, s, k - 1);
      assert Steady(s, k)[..k - 1] == Steady(s, k - 1);
    }
  }

  /** 31 steady ticks are one controller run. */
  lemma OneRun(lim: Limits, c: Control, s: Sensors)
    requires Busy(lim, s) && c.scalCount == 0
    ensures var d, r := After(lim, c, Steady(s, TICKS_PER_RUN)), RunController(lim, c, s);
            AtRest(d, r.level, r.upCount)
    ensures Runs(lim, After(lim, c, Steady(s, TICKS_PER_RUN - 1)), s)
  {
    SteadyCounts(lim, c, s, TICKS_PER_RUN - 1);
    assert Steady(s, TICKS_PER_RUN)[..TICKS_PER_RUN - 1] == Steady(s, TICKS_PER_RUN - 1);
  }

  /** High power takes the level to the bottom. */
  lemma {:induction false} HotRuns(lim: Limits, c: Control, hot: Sensors, n: nat) returns (inputs: seq<Sensors>)
    requires Busy(lim, hot) && hot.average >= lim.upper && AtRest(c, c.level, 0) && c.level + n == MAX_LEVEL - 1
    ensures AtRest(After(lim, c, inputs), MAX_LEVEL - 1, 0)
    decreases n
  {
    if n == 0 {
      inputs := [];
    } else {
      OneRun(lim, c, hot);
      var rest := HotRuns(lim, After(lim, c, Steady(hot, TICKS_PER_RUN)), hot, n - 1);
      AfterConcat(lim, c, Steady(hot, TICKS_PER_RUN), rest);
      inputs := Steady(hot, TICKS_PER_RUN) + rest;
    }
  }

  /** Low power counts. */
  lemma {:induction false} CoolRuns(lim: Limits, c: Control, cool: Sensors, n: nat) returns (inputs: seq<Sensors>)
    requires Busy(lim, cool) && cool.average <= lim.lower && cool.average < lim.upper && c.scalCount == 0
    requires c.upCount + n < RUNS_PER_UP
    ensures AtRest(After(lim, c, inputs), c.level, c.upCount + n)
    decreases n
  {
    if n == 0 {
      inputs := [];
    } else {
      OneRun(lim, c, cool);
      var rest := CoolRuns(lim, After(lim, c, Steady(cool, TICKS_PER_RUN)), cool, n - 1);
      AfterConcat(lim, c, Steady(cool, TICKS_PER_RUN), rest);
      inputs := Steady(cool, TICKS_PER_RUN) + rest;
    }
  }

  /** The state before the last two controller runs of the witness: 59 low runs at the bottom. */
  lemma FiftyNineAtBottom(lim: Limits, hot: Sensors, cool: Sensors) returns (inputs: seq<Sensors>)
    requires ValidLimits(lim) && Busy(lim, hot) && Busy(lim, cool)
    requires cool.average <= lim.lower < lim.upper <= hot.average
    ensures AtRest(After(lim, Start(lim), inputs), MAX_LEVEL - 1, RUNS_PER_UP - 1)
  {
    var down := HotRuns(lim, Start(lim), hot, MAX_LEVEL - 1 - lim.init);
    var low := CoolRuns(lim, After(lim, Start(lim), down), cool, RUNS_PER_UP - 1);
    AfterConcat(lim, Start(lim), down, low);
    inputs := down + low;
  }

  /** The 60 runs need not be consecutive: on both boards there is a run from the start in which the
      controller run right before an up-step is at high power. */
  lemma LowRunsNeedNotBeConsecutive(pro: bool) returns (states: seq<Control>, inputs: seq<Sensors>, m: nat, j: nat)
    ensures Run(BoardLimits(pro), states, inputs) && m < j < |inputs|
    ensures StepsUp(BoardLimits(pro), states[j], inputs[j])
    ensures Runs(BoardLimits(pro), states[m], inputs[m]) && inputs[m].average >= BoardLimits(pro).upper
    ensures forall t :: m < t < j ==> !Runs(BoardLimits(pro), states[t], inputs[t])
  {
    var lim := BoardLimits(pro);
    var hot, cool := Sensors(lim.upper, 0, 1), Sensors(lim.lower, 0, 1);
    var before := FiftyNineAtBottom(lim, hot, cool);
    var c := After(lim, Start(lim), before);
    var h, l := Steady(hot, TICKS_PER_RUN), Steady(cool, TICKS_PER_RUN);
    inputs := before + h + l;
    states := RunOf(lim, inputs);
    m := |before| + TICKS_PER_RUN - 1;
    j := m + TICKS_PER_RUN;
    AtTick(lim, before, h, l, TICKS_PER_RUN - 1, hot);
    OneRun(lim, c, hot);
    AfterConcat(lim, Start(lim), before, h);
    var d := After(lim, Start(lim), before + h);
    OneRun(lim, d, cool);
    LastRunSteps(lim, d, cool);
    forall t | m < t <= j ensures states[t] == After(lim, d, Steady(cool, t - m - 1)) {
      AtLateTick(lim, before + h, l, t - m - 1, cool);
      assert inputs[..t] == (before + h) + l[..t - m - 1];
    }
    forall t | m < t < j ensures !Runs(lim, states[t], inputs[t]) {
      SteadyCounts(lim, d, cool, t - m - 1);
    }
  }

  lemma AtTick(lim: Limits, before: seq<Sensors>, h: seq<Sensors>, l: seq<Sensors>, k: nat, s: Sensors)
    requires h == Steady(s, TICKS_PER_RUN) && k < TICKS_PER_RUN
    ensures After(lim, Start(lim), (before + h + l)[..|before| + k])
            == After(lim, After(lim, Start(lim), before), Steady(s, k))
    ensures (before + h + l)[|before| + k] == s
  {
    assert (before + h + l)[..|before| + k] == before + Steady(s, k);
    AfterConcat(lim, Start(lim), before, Steady(s, k));
  }

  lemma AtLateTick(lim: Limits, before: seq<Sensors>, l: seq<Sensors>, k: nat, s: Sensors)
    requires l == Steady(s, TICKS_PER_RUN) && k < TICKS_PER_RUN
    ensures After(lim, Start(lim), before + l[..k]) == After(lim, After(lim, Start(lim), before), Steady(s, k))
  {
    assert l[..k] == Steady(s, k);
    AfterConcat(lim, Start(lim), before, Steady(s, k));
  }

  /** The sixtieth low run lowers the level. */
  lemma LastRunSteps(lim: Limits, d: Control, cool: Sensors)
    requires Busy(lim, cool) && cool.average <= lim.lower && cool.average < lim.upper
    requires AtRest(d, d.level, RUNS_PER_UP - 1) && d.level > 0
    ensures StepsUp(lim, After(lim, d, Steady(cool, TICKS_PER_RUN - 1)), cool)
  {
    SteadyCounts(lim, d, cool, TICKS_PER_RUN - 1);
  }

  // ---------------------------------------------------------------- the database

  /** Voltage of each level, in millivolt. */
  function Volts(pro: bool): (v: seq<nat>)
    ensures |v| == MAX_LEVEL
  {
    if pro then [780, 760, 740, 720, 700, 680, 660, 640, 620, 600, 600, 600, 600, 600, 600, 600, 600, 600, 600, 600]
    else [800, 800, 780, 760, 740, 720, 700, 680, 660, 640, 620, 600, 600, 600, 600, 600, 600, 600, 600, 600]
  }

  /** The samples lie around the ring, the oldest where the next one goes. */
  ghost predicate InRing(board: seq<nat>, index: nat, window: seq<nat>) {
    |board| == |window| == SAMPLES && forall i: nat :: i < SAMPLES ==> board[(index + i) % SAMPLES] == window[i]
  }

  lemma RingSlides(board: seq<nat>, index: nat, window: seq<nat>, power: nat)
    requires InRing(board, index, window)
    ensures board[index % SAMPLES] == window[0]
    ensures InRing(board[index % SAMPLES := power], index + 1, window[1..] + [power])
  {
    var board' := board[index % SAMPLES := power];
    assert board[(index + 0) % SAMPLES] == window[0];
    forall i: nat | i < SAMPLES ensures board'[(index + 1 + i) % SAMPLES] == (window[1..] + [power])[i] {
      if i < SAMPLES - 1 {
        assert board[(index + (i + 1)) % SAMPLES] == window[i + 1];
      }
    }
  }

  /** The limit of the index is a multiple of the ring size, so starting over does not disturb the order. */
  lemma RingStartsOver(board: seq<nat>, window: seq<nat>)
    requires InRing(board, INDEX_LIMIT, window)
    ensures InRing(board, 0, window)
  {
    forall i: nat | i < SAMPLES ensures board[(0 + i) % SAMPLES] == window[i] {
      assert board[(INDEX_LIMIT + i) % SAMPLES] == window[i];
    }
  }

  lemma RingNext(board: seq<nat>, index: nat, samples: seq<nat>, power: nat)
    requires index < INDEX_LIMIT && InRing(board, index, LastTen(samples))
    ensures board[index % SAMPLES] == LastTen(samples)[0]
    ensures InRing(board[index % SAMPLES := power], if index + 1 == INDEX_LIMIT then 0 else index + 1,
                   LastTen(samples + [power]))
  {
    RingSlides(board, index, LastTen(samples), power);
    LastTenSlides(samples, power);
    if index + 1 == INDEX_LIMIT {
      RingStartsOver(board[index % SAMPLES := power], LastTen(samples + [power]));
    }
  }

  /** struct bm_freq_scaling_db, as far as power and levels go. */
  class Database {
    const boardPower: array<nat>
    const limits: Limits
    const volts: seq<nat>
    var powerIndex: nat
    var powerTotal: nat
    var powerAverage: nat
    var powerHighest: nat
    var level: nat
    var upCount: nat
    var scalCount: nat
    var idleCount: nat
    var pwrCount: nat
    var volt: nat              // what the board was last set to
    ghost var samples: seq<nat>

    ghost predicate WindowValid()
      reads this`powerIndex, this`powerTotal, this`powerAverage, this`samples, boardPower
    {
      && boardPower.Length == SAMPLES && powerIndex < INDEX_LIMIT
      && InRing(boardPower[..], powerIndex, LastTen(samples))
      && powerTotal == Sum(LastTen(samples)) % U32
      && powerAverage == powerTotal / SAMPLES
    }

    ghost predicate LevelValid()
      reads this`level, this`upCount, this`scalCount, this`idleCount, this`pwrCount
    {
      Bounds(State()) && |volts| == MAX_LEVEL && ValidLimits(limits)
    }

    function State(): Control
      reads this`level, this`upCount, this`scalCount, this`idleCount, this`pwrCount
    {
      Control(level, upCount, scalCount, idleCount, pwrCount)
    }

    /** bmdrv_init_freq_scaling_status on a zeroed database, with the voltage set for the first level. */
    constructor (pro: bool)
      ensures WindowValid() && LevelValid() && State() == Start(limits) && samples == [] && volt == volts[level] && fresh(boardPower)
      ensures limits == BoardLimits(pro) && volts == Volts(pro)
    {
      boardPower := new nat[SAMPLES](i => 0);
      limits := BoardLimits(pro);
      volts := Volts(pro);
      powerIndex, powerTotal, powerAverage, powerHighest := 0, 0, 0, 0;
      level, upCount, scalCount, idleCount, pwrCount := BoardLimits(pro).init, 0, 0, 0, 0;
      volt := Volts(pro)[BoardLimits(pro).init];
      samples := [];
      new;
      SumBetween(LastTen([]), 0, 0);
    }

    /** bmdrv_record_board_power: the total stays the sum of the last ten samples, also when the index starts
        over. */
    method RecordBoardPower(power: nat)
      requires WindowValid() && power < U32
      modifies this`powerIndex, this`powerTotal, this`powerAverage, this`powerHighest, this`samples, boardPower
      ensures WindowValid() && samples == old(samples) + [power]
      ensures powerHighest == if old(powerHighest) < power then power else old(powerHighest)
    {
      TotalSlides(samples, power, powerTotal);
      RingNext(boardPower[..], powerIndex, samples, power);
      var slot := powerIndex % SAMPLES;
      powerTotal := (powerTotal - boardPower[slot]) % U32;
      boardPower[slot] := power;
      assert boardPower[..] == old(boardPower[..])[slot := power];
      powerTotal := (powerTotal + boardPower[slot]) % U32;
      powerAverage := powerTotal / SAMPLES;
      if powerHighest < power {
        powerHighest := power;
      }
      powerIndex := powerIndex + 1;
      if powerIndex == INDEX_LIMIT {
        powerIndex := 0;
      }
      samples := samples + [power];
    }

    /** bmdrv_volt_freq_scaling_controller; `failed` is its level error. */
    method Controller(util: int) returns (failed: bool)
      requires LevelValid()
      modifies this`level, this`upCount, this`volt
      ensures LevelValid() && !failed
      ensures State() == RunController(limits, old(State()), Sensors(powerAverage, powerHighest, util))
      ensures volt == if level != old(level) then volts[level] else old(volt)
    {
      failed := false;
      if powerAverage >= limits.upper {
        if level < MAX_LEVEL - 1 {
          level := level + 1;
        } else {
          return;
        }
        upCount := 0;
      } else if powerAverage <= limits.lower {
        upCount := upCount + 1;
        if upCount < RUNS_PER_UP {
          return;
        }
        upCount := 0;
        if level > 0 {
          if util == 0 {
            if level > limits.init {
              level := level - 1;
            } else {
              return;
            }
          } else {
            level := level - 1;
          }
        } else {
          return;
        }
      } else {
        upCount := 0;
        return;
      }
      failed := level >= MAX_LEVEL;
      if !failed {
        volt := volts[level];
      }
    }

    /** bmdrv_volt_freq_scaling in mission mode. */
    method ScaleVoltFreq(util: int)
      requires LevelValid()
      modifies this`level, this`upCount, this`scalCount, this`idleCount, this`pwrCount, this`powerHighest, this`volt
      ensures old(powerHighest) >= limits.peak && old(level) < limits.relbl ==>
                level == limits.relbl && volt == volts[limits.relbl] && scalCount == 0
      ensures old(powerHighest) >= limits.peak ==> level + 1 >= limits.relbl
      ensures level != old(level) ==>
                || level == old(level) - 1 || level == old(level) + 1
                || (level == limits.relbl && old(powerHighest) >= limits.peak) || (level == limits.init && util == 0 && idleCount == 0)
      ensures LevelValid() && powerHighest == 0
      ensures State() == Tick(limits, old(State()), Sensors(powerAverage, old(powerHighest), util))
      ensures volt == if level != old(level) then volts[level] else old(volt)
    {
      scalCount := scalCount + 1;
      pwrCount := (pwrCount + 1) % U32;
      if powerHighest >= limits.peak && level < limits.relbl {
        level := limits.relbl;
        volt := volts[level];
        scalCount := 0;
      } else if scalCount > 30 {
        scalCount := 0;
        var _ := Controller(util);
      } else {
        if util == 0 {
          idleCount := (idleCount + 1) % U32;
          if level < limits.init && idleCount > 49 {
            level := limits.init;
            volt := volts[level];
            scalCount := 0;
            idleCount := 0;
          }
        } else {
          idleCount := 0;
        }
      }
      powerHighest := 0;
      if pwrCount == 4 {
        pwrCount := 0;
      }
    }
  }
}

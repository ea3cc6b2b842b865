/** The tool-loop guard (extensions/agents/loopguard.go).

    Each covered agent has a buffer of its most recent accepted tool calls.  A call whose
    acceptance would leave a repeated pattern at the tail of the buffer is blocked and
    rolled back.  The main results speak about the whole history of accepted calls, which
    the guard never stores: it contains no repeated block and no long run anywhere. */
module LoopGuard {
  import opened Options

  const DEFAULT_WINDOW := 10
  const DEFAULT_MIN_REPEATS := 3
  const DEFAULT_MAX_PERIOD := 5

  /** A tool call, identified by its name and its normalized input. */
  datatype ToolCallSig = ToolCallSig(name: string, input: string)

  datatype Config = Config(enabled: Option<bool>, window: int, minRepeats: int, maxPeriod: int, subagentsOnly: bool)
  {
    function ApplyDefaults(): Config {
      Config(enabled,
             if window <= 0 then DEFAULT_WINDOW else window,
             if minRepeats <= 0 then DEFAULT_MIN_REPEATS else minRepeats,
             if maxPeriod <= 0 then DEFAULT_MAX_PERIOD else maxPeriod,
             subagentsOnly)
    }

    predicate AppliesTo(agentID: string) {
      subagentsOnly ==> '/' in agentID
    }

    predicate Covers(agentID: string) {
      enabled != Some(false) && AppliesTo(agentID)
    }
  }

  datatype Detection = Detection(period: nat, repeats: nat, tool: string, lastN: nat)

  // ---------- Patterns at the tail of a call sequence ----------

  function LastN<T>(t: seq<T>, n: nat): seq<T> {
    if |t| <= n then t else t[|t| - n..]
  }

  /** The last r calls are identical. */
  predicate TailRun<T(==)>(t: seq<T>, r: nat) {
    r <= |t| && forall i :: |t| - r <= i < |t| ==> t[i] == t[|t| - 1]
  }

  /** The tail is a square uu with |u| == m. */
  predicate TailSquare<T(==)>(t: seq<T>, m: nat) {
    2 * m <= |t| && t[|t| - 2 * m..|t| - m] == t[|t| - m..]
  }

  ghost predicate Looping<T(!new)>(t: seq<T>, minRepeats: nat, maxPeriod: int) {
    TailRun(t, minRepeats) || exists m :: 2 <= m <= maxPeriod && TailSquare(t, m)
  }

  /** The length of k blocks of m calls. */
  function Extent(k: nat, m: nat): nat {
    k * m
  }

  lemma ExtentGrows(k: nat, m: nat)
    ensures Extent(0, m) == 0 && Extent(1, m) == m
    ensures Extent(k + 1, m) == Extent(k, m) + m
    ensures k >= 1 ==> Extent(k, m) == Extent(k - 1, m) + m
  {
  }

  lemma ExtentIsMonotone(j: nat, k: nat, m: nat)
    requires j <= k
    ensures Extent(j, m) <= Extent(k, m)
  {
  }

  /** The last k blocks of length m are identical. */
  ghost predicate TailPower<T(!new)>(t: seq<T>, m: nat, k: nat) {
    && Extent(k, m) <= |t|
    && (k > 1 ==>
          && TailPower(t, m, k - 1)
          && (ExtentGrows(k, m); t[|t| - Extent(k, m)..|t| - Extent(k, m) + m] == t[|t| - m..]))
  }

  lemma {:induction false} PowersAreNested<T(!new)>(t: seq<T>, m: nat, j: nat, k: nat)
    requires TailPower(t, m, k) && 1 <= j <= k
    ensures TailPower(t, m, j)
  {
    if j == k {
    } else {
      PowersAreNested(t, m, j, k - 1);
    }
  }

  lemma SquareIsSecondPower<T(!new)>(t: seq<T>, m: nat)
    ensures TailSquare(t, m) <==> TailPower(t, m, 2)
  {
    ExtentGrows(1, m);
  }

  /** The inner comparison loop: are the m calls from `a` the m calls from `b`? */
  method SameBlock<T(==)>(calls: seq<T>, a: nat, b: nat, m: nat) returns (same: bool)
    requires a + m <= |calls| && b + m <= |calls|
    ensures same <==> calls[a..a + m] == calls[b..b + m]
  {
    for i := 0 to m
      invariant calls[a..a + i] == calls[b..b + i]
    {
      if calls[a + i] != calls[b + i] {
        assert calls[a..a + m][i] != calls[b..b + m][i];
        return false;
      }
      assert calls[a..a + i + 1] == calls[a..a + i] + [calls[a + i]];
      assert calls[b..b + i + 1] == calls[b..b + i] + [calls[b + i]];
    }
    return true;
  }

  lemma OneBlock<T(!new)>(calls: seq<T>, m: nat)
    requires m <= |calls|
    ensures TailPower(calls, m, 1)
  {
    ExtentGrows(1, m);
  }

  /** The last k * m calls form k identical blocks: each block is compared to the last one. */
  method BlocksEqual<T(==,!new)>(calls: seq<T>, m: nat, k: nat) returns (equal: bool)
    requires 1 <= k && Extent(k, m) <= |calls|
    ensures equal <==> TailPower(calls, m, k)
  {
    hide Extent;
    ExtentGrows(1, m);
    ExtentIsMonotone(1, k, m);
    OneBlock(calls, m);
    for block := 1 to k
      invariant TailPower(calls, m, block)
    {
      ExtentGrows(block, m);
      ExtentIsMonotone(block + 1, k, m);
      assert calls[|calls| - m..|calls| - m + m] == calls[|calls| - m..];
      var same := SameBlock(calls, |calls| - Extent(block + 1, m), |calls| - m, m);
      if !same {
        if TailPower(calls, m, k) {
          PowersAreNested(calls, m, block + 1, k);
        }
        return false;
      }
    }
    return true;
  }

  // ---------- The detector ----------

  function EffectiveRepeats(minRepeats: int): nat {
    if minRepeats <= 1 then DEFAULT_MIN_REPEATS else minRepeats
  }

  function EffectiveWindow(window: int): nat {
    if window <= 0 then DEFAULT_WINDOW else window
  }

  function LongestPeriod(window: int, maxPeriod: int): nat {
    var half := EffectiveWindow(window) / 2;
    var cap := if maxPeriod <= 0 then DEFAULT_MAX_PERIOD else maxPeriod;
    if half > cap then cap else half
  }

  /** `det` reports the run, or else the shortest repeated cycle, and how often it occurs. */
  ghost predicate Describes(det: Detection, c: seq<ToolCallSig>, minRepeats: nat, maxPeriod: int) {
    && c != [] && det.tool == c[|c| - 1].name && det.lastN == |c|
    && if TailRun(c, minRepeats) then
         && det.period == 1
         && TailRun(c, det.repeats) && !TailRun(c, det.repeats + 1)
       else
         && 2 <= det.period <= maxPeriod && TailSquare(c, det.period)
         && (forall m :: 2 <= m < det.period ==> !TailSquare(c, m))
         && TailPower(c, det.period, det.repeats) && !TailPower(c, det.period, det.repeats + 1)
  }

  /** The length of the run of identical calls at the tail. */
  method CountRun<T(==)>(calls: seq<T>) returns (run: nat)
    requires calls != []
    ensures 1 <= run && forall r: nat :: TailRun(calls, r) <==> r <= run
  {
    var n := |calls|;
    var last := calls[n - 1];
    run := 1;
    while run < n && calls[n - 1 - run] == last
      invariant 1 <= run <= n && TailRun(calls, run)
    {
      run := run + 1;
    }
  }

  /** How many identical blocks of length m end the sequence. */
  method CountBlocks<T(==,!new)>(calls: seq<T>, m: nat) returns (k: nat)
    requires 1 <= m <= |calls|
    ensures 1 <= k && TailPower(calls, m, k) && !TailPower(calls, m, k + 1)
  {
    hide Extent;
    k := 1;
    OneBlock(calls, m);
    while Extent(k + 1, m) <= |calls|
      invariant 1 <= k && TailPower(calls, m, k)
      decreases |calls| - Extent(k, m)
    {
      var equal := BlocksEqual(calls, m, k + 1);
      if !equal {
        return;
      }
      ExtentGrows(k, m);
      k := k + 1;
    }
  }

  /** The shortest cycle, up to maxP calls long, that the calls end with at least twice. */
  method FindCycle<T(==,!new)>(calls: seq<T>, maxP: nat) returns (m: nat, k: nat)
    ensures k >= 2 <==> exists p :: 2 <= p <= maxP && TailSquare(calls, p)
    ensures k >= 2 ==>
              && 2 <= m <= maxP && TailSquare(calls, m) && (forall p :: 2 <= p < m ==> !TailSquare(calls, p))
              && TailPower(calls, m, k) && !TailPower(calls, m, k + 1)
  {
    m, k := 2, 0;
    while m <= maxP && 2 * m <= |calls|
      invariant 2 <= m
      invariant forall p :: 2 <= p < m ==> !TailSquare(calls, p)
    {
      k := CountBlocks(calls, m);
      SquareIsSecondPower(calls, m);
      if k >= 2 {
        PowersAreNested(calls, m, 2, k);
        return;
      }
      m := m + 1;
    }
    k := 0;
  }

  /** With w calls examined, a run threshold of r and periods up to p. */
  ghost predicate EndsInRepetition(t: seq<ToolCallSig>, w: nat, r: nat, p: nat) {
    TailRun(LastN(t, w), r) || exists m :: 2 <= m <= p && 2 * m <= w && TailSquare(LastN(t, w), m)
  }

  lemma LoopingMeansRepetition(t: seq<ToolCallSig>, window: int, minRepeats: int, maxPeriod: int)
    ensures Looping(LastN(t, EffectiveWindow(window)), EffectiveRepeats(minRepeats), LongestPeriod(window, maxPeriod))
       <==> EndsInRepetition(t, if window <= 0 then 10 else window, if minRepeats <= 1 then 3 else minRepeats,
                             if maxPeriod <= 0 then 5 else maxPeriod)
  {
    hide TailRun, TailSquare;
  }

  method DetectToolLoop(allCalls: seq<ToolCallSig>, window: int, minRepeats: int, maxPeriod: int)
    returns (det: Option<Detection>)
    ensures var c := LastN(allCalls, EffectiveWindow(window));
            && (det.Some? <==> Looping(c, EffectiveRepeats(minRepeats), LongestPeriod(window, maxPeriod)))
            && (det.Some? ==> Describes(det.value, c, EffectiveRepeats(minRepeats), LongestPeriod(window, maxPeriod)))
    ensures det.Some? <==> EndsInRepetition(allCalls, if window <= 0 then 10 else window,
                                            if minRepeats <= 1 then 3 else minRepeats,
                                            if maxPeriod <= 0 then 5 else maxPeriod)
  {
    LoopingMeansRepetition(allCalls, window, minRepeats, maxPeriod);
    hide EndsInRepetition;
    var calls := LastN(allCalls, EffectiveWindow(window));
    var n := |calls|;
    if n < 2 {
      return None;
    }
    var run := CountRun(calls);
    if run >= EffectiveRepeats(minRepeats) {
      return Some(Detection(1, run, calls[n - 1].name, n));
    }
    var m, k := FindCycle(calls, LongestPeriod(window, maxPeriod));
    if k >= 2 {
      return Some(Detection(m, k, calls[n - 1].name, n));
    }
    return None;
  }

  // ---------- The guard ----------

  /** Window, run threshold and longest cycle after all defaults are filled in. */
  datatype Limits = Limits(window: nat, minRepeats: nat, maxPeriod: nat)

  function LimitsOf(cfg: Config): Limits {
    Limits(EffectiveWindow(cfg.window), EffectiveRepeats(cfg.minRepeats), LongestPeriod(cfg.window, cfg.maxPeriod))
  }

  /** The detector's own fallbacks and the configuration's defaults come to the same. */
  lemma DefaultsAgree(cfg: Config)
    ensures LimitsOf(cfg.ApplyDefaults()) == LimitsOf(cfg)
    ensures forall agentID :: cfg.ApplyDefaults().Covers(agentID) == cfg.Covers(agentID)
    ensures cfg.ApplyDefaults().ApplyDefaults() == cfg.ApplyDefaults()
  {
  }

  ghost predicate ValidLimits(l: Limits) {
    1 <= l.window && 2 <= l.minRepeats && 2 * l.maxPeriod <= l.window
  }

  /** The limits in force, from the configuration alone: the window is 10 or as configured, a
      run needs 3 calls or as many as configured (more than one), and a cycle of m calls is
      watched iff two rounds of it fit the window and m is at most 5 or the configured period. */
  lemma LimitsAreTheConfigured(cfg: Config, m: nat)
    ensures LimitsOf(cfg).window == if cfg.window <= 0 then 10 else cfg.window
    ensures LimitsOf(cfg).minRepeats == if cfg.minRepeats <= 1 then 3 else cfg.minRepeats
    ensures m <= LimitsOf(cfg).maxPeriod <==>
              && 2 * m <= (if cfg.window <= 0 then 10 else cfg.window)
              && m <= (if cfg.maxPeriod <= 0 then 5 else cfg.maxPeriod)
  {
  }

  /** The windowed decision: does the buffer extended by the call loop? */
  ghost predicate Blocks(l: Limits, buffer: seq<ToolCallSig>, call: ToolCallSig) {
    Looping(LastN(buffer + [call], l.window), l.minRepeats, l.maxPeriod)
  }

  ghost function Accept(l: Limits, buffer: seq<ToolCallSig>, call: ToolCallSig): seq<ToolCallSig> {
    if Blocks(l, buffer, call) then buffer else LastN(buffer + [call], l.window)
  }

  /** The same guard with unbounded memory: it looks at the whole history of accepted calls.
      A run longer than the window is the only pattern the window can hide. */
  ghost predicate HistoryBlocks(l: Limits, history: seq<ToolCallSig>, call: ToolCallSig) {
    || (l.minRepeats <= l.window && TailRun(history + [call], l.minRepeats))
    || exists m :: 2 <= m <= l.maxPeriod && TailSquare(history + [call], m)
  }

  ghost function HistoryAccept(l: Limits, history: seq<ToolCallSig>, call: ToolCallSig): seq<ToolCallSig> {
    if HistoryBlocks(l, history, call) then history else history + [call]
  }

  ghost predicate SquareAt<T(!new)>(t: seq<T>, i: nat, m: nat) {
    i + 2 * m <= |t| && t[i..i + m] == t[i + m..i + 2 * m]
  }

  ghost predicate RunAt<T(!new)>(t: seq<T>, i: nat, r: nat) {
    i + r <= |t| && forall j :: i <= j < i + r ==> t[j] == t[i]
  }

  /** No block of 2 to maxPeriod calls is immediately repeated anywhere, and (when the window
      can hold one) no run of minRepeats identical calls occurs anywhere. */
  ghost predicate Clean(l: Limits, t: seq<ToolCallSig>) {
    && (forall i: nat, m: nat :: 2 <= m <= l.maxPeriod ==> !SquareAt(t, i, m))
    && (l.minRepeats <= l.window ==> forall i: nat :: !RunAt(t, i, l.minRepeats))
  }

  lemma WindowShowsTheTail<T(!new)>(t: seq<T>, w: nat, m: nat)
    requires 2 * m <= w
    ensures TailSquare(LastN(t, w), m) <==> TailSquare(t, m)
  {
    var c := LastN(t, w);
    if 2 * m <= |t| {
      assert c[|c| - m..] == t[|t| - m..];
      assert c[|c| - 2 * m..|c| - m] == t[|t| - 2 * m..|t| - m];
    }
  }

  lemma WindowShowsRuns<T(!new)>(t: seq<T>, w: nat, r: nat)
    requires 1 <= r
    ensures TailRun(LastN(t, w), r) <==> r <= w && TailRun(t, r)
  {
    var c := LastN(t, w);
    if r <= |c| {
      assert forall i :: |c| - r <= i < |c| ==> c[i] == t[i + (|t| - |c|)];
      if TailRun(c, r) {
        forall i | |t| - r <= i < |t|
          ensures t[i] == t[|t| - 1]
        {
          assert c[i - (|t| - |c|)] == c[|c| - 1];
        }
      }
    }
  }

  /** Refinement: the buffer of a history decides exactly like the history itself. */
  lemma WindowDecidesLikeHistory(l: Limits, history: seq<ToolCallSig>, call: ToolCallSig)
    requires ValidLimits(l)
    ensures Blocks(l, LastN(history, l.window), call) <==> HistoryBlocks(l, history, call)
    ensures LastN(LastN(history, l.window) + [call], l.window) == LastN(history + [call], l.window)
  {
    var t := history + [call];
    assert LastN(LastN(history, l.window) + [call], l.window) == LastN(t, l.window);
    WindowShowsRuns(t, l.window, l.minRepeats);
    forall m | 2 <= m <= l.maxPeriod
      ensures TailSquare(LastN(t, l.window), m) <==> TailSquare(t, m)
    {
      WindowShowsTheTail(t, l.window, m);
    }
  }

  lemma NewSquareIsAtTheTail(history: seq<ToolCallSig>, call: ToolCallSig, i: nat, m: nat)
    requires SquareAt(history + [call], i, m)
    ensures SquareAt(history, i, m) || TailSquare(history + [call], m)
  {
    var t := history + [call];
    if i + 2 * m < |t| {
      assert t[i..i + m] == history[i..i + m] && t[i + m..i + 2 * m] == history[i + m..i + 2 * m];
    } else {
      assert t[i + m..i + 2 * m] == t[|t| - m..];
    }
  }

  lemma NewRunIsAtTheTail(history: seq<ToolCallSig>, call: ToolCallSig, i: nat, r: nat)
    requires 1 <= r && RunAt(history + [call], i, r)
    ensures RunAt(history, i, r) || TailRun(history + [call], r)
  {
    var t := history + [call];
    if i + r < |t| {
      assert forall j :: i <= j < i + r ==> history[j] == t[j];
      assert i < |history|;
    } else if r > 0 {
      assert t[|t| - 1] == t[i];
    }
  }

  /** Accepting a call keeps the whole history free of repetitions. */
  lemma AcceptingKeepsClean(l: Limits, history: seq<ToolCallSig>, call: ToolCallSig)
    requires Clean(l, history) && 1 <= l.minRepeats
    ensures Clean(l, HistoryAccept(l, history, call))
  {
    var t := history + [call];
    if !HistoryBlocks(l, history, call) {
      forall i: nat, m: nat | 2 <= m <= l.maxPeriod
        ensures !SquareAt(t, i, m)
      {
        if SquareAt(t, i, m) {
          NewSquareIsAtTheTail(history, call, i, m);
        }
      }
      forall i: nat | l.minRepeats <= l.window
        ensures !RunAt(t, i, l.minRepeats)
      {
        if RunAt(t, i, l.minRepeats) {
          NewRunIsAtTheTail(history, call, i, l.minRepeats);
        }
      }
    }
  }

  lemma CubeBlocks<T(!new)>(c: seq<T>, m: nat)
    requires TailPower(c, m, 3)
    ensures 3 * m <= |c|
    ensures c[|c| - 3 * m..|c| - 2 * m] == c[|c| - m..] && c[|c| - 2 * m..|c| - m] == c[|c| - m..]
  {
    ExtentGrows(1, m);
    ExtentGrows(2, m);
    hide Extent;
    assert TailPower(c, m, 2);
  }

  /** Three equal blocks at the tail repeat with period m throughout. */
  lemma CubeIsPeriodic<T(!new)>(c: seq<T>, m: nat, j: nat)
    requires 1 <= m && TailPower(c, m, 3)
    requires |c| - 3 * m <= j < |c| - m
    ensures c[j] == c[j + m]
  {
    CubeBlocks(c, m);
    hide TailPower;
    var n := |c|;
    var x, y, z := c[n - 3 * m..n - 2 * m], c[n - 2 * m..n - m], c[n - m..];
    if j < n - 2 * m {
      assert c[j] == x[j - (n - 3 * m)] && c[j + m] == y[j - (n - 3 * m)];
    } else {
      assert c[j] == y[j - (n - 2 * m)] && c[j + m] == z[j - (n - 2 * m)];
    }
  }

  lemma CubeShiftsBack(history: seq<ToolCallSig>, call: ToolCallSig, w: nat, m: nat, j: nat)
    requires 1 <= m && TailPower(LastN(history + [call], w), m, 3) && j < m
    ensures 2 * m <= |history|
    ensures history[|history| - 2 * m + j] == history[|history| - m + j]
  {
    hide TailPower;
    var t := history + [call];
    var c := LastN(t, w);
    CubeBlocks(c, m);
    var at := |c| - 1 - 2 * m + j;
    CubeIsPeriodic(c, m, at);
    assert c[at] == t[|t| - 1 - 2 * m + j] && c[at + m] == t[|t| - 1 - m + j];
  }

  /** If the tail of a sequence is uuu, a square of the same length ends one call earlier. */
  lemma CubeHidesASquare(history: seq<ToolCallSig>, call: ToolCallSig, w: nat, m: nat)
    requires 1 <= m && TailPower(LastN(history + [call], w), m, 3)
    ensures 2 * m <= |history| && SquareAt(history, |history| - 2 * m, m)
  {
    hide TailPower, LastN;
    CubeShiftsBack(history, call, w, m, 0);
    var i := |history| - 2 * m;
    var x, y := history[i..i + m], history[i + m..i + 2 * m];
    forall j | 0 <= j < m
      ensures x[j] == y[j]
    {
      CubeShiftsBack(history, call, w, m, j);
    }
    assert x == y;
  }

  /** A run longer than r at the tail hides a run of r that ends one call earlier. */
  lemma LongRunHidesARun(history: seq<ToolCallSig>, call: ToolCallSig, r: nat)
    requires TailRun(history + [call], r + 1)
    ensures RunAt(history, |history| - r, r)
  {
    var t := history + [call];
    forall j | |history| - r <= j < |history|
      ensures history[j] == history[|history| - r]
    {
      assert t[j] == history[j] && t[j] == t[|t| - 1] && t[|history| - r] == t[|t| - 1];
    }
  }

  /** Because the history is clean, a blocked pattern is always minimal: a blocked run has
      exactly minRepeats calls and a blocked cycle exactly two rounds. */
  lemma {:induction false} BlockedPatternIsMinimal(l: Limits, history: seq<ToolCallSig>, call: ToolCallSig,
                                                   det: Detection)
    requires ValidLimits(l) && Clean(l, history)
    requires Describes(det, LastN(history + [call], l.window), l.minRepeats, l.maxPeriod)
    ensures det.period == 1 ==> det.repeats == l.minRepeats
    ensures det.period != 1 ==> det.repeats == 2
  {
    var c := LastN(history + [call], l.window);
    WindowShowsRuns(history + [call], l.window, l.minRepeats);
    if TailRun(c, l.minRepeats) {
      RunIsMinimal(l, history, call, det.repeats);
    } else {
      CycleIsMinimal(l, history, call, det.period, det.repeats);
    }
  }

  lemma RunIsMinimal(l: Limits, history: seq<ToolCallSig>, call: ToolCallSig, repeats: nat)
    requires ValidLimits(l) && Clean(l, history) && l.minRepeats <= l.window
    requires TailRun(LastN(history + [call], l.window), l.minRepeats)
    requires TailRun(LastN(history + [call], l.window), repeats)
    requires !TailRun(LastN(history + [call], l.window), repeats + 1)
    ensures repeats == l.minRepeats
  {
    if repeats > l.minRepeats {
      assert TailRun(LastN(history + [call], l.window), l.minRepeats + 1);
      WindowShowsRuns(history + [call], l.window, l.minRepeats + 1);
      LongRunHidesARun(history, call, l.minRepeats);
    }
  }

  lemma CycleIsMinimal(l: Limits, history: seq<ToolCallSig>, call: ToolCallSig, m: nat, k: nat)
    requires ValidLimits(l) && Clean(l, history) && 2 <= m <= l.maxPeriod
    requires TailSquare(LastN(history + [call], l.window), m)
    requires TailPower(LastN(history + [call], l.window), m, k)
    requires !TailPower(LastN(history + [call], l.window), m, k + 1)
    ensures k == 2
  {
    var c := LastN(history + [call], l.window);
    ExtentGrows(0, m);
    SquareIsSecondPower(c, m);
    if k > 2 {
      PowersAreNested(c, m, 3, k);
      CubeHidesASquare(history, call, l.window, m);
    }
  }

  /** With cycles of length 2 watched, no call is ever made four times in a row. */
  lemma NeverFourInARow(l: Limits, t: seq<ToolCallSig>, i: nat)
    requires Clean(l, t) && 2 <= l.maxPeriod
    ensures !RunAt(t, i, 4)
  {
    assert !SquareAt(t, i, 2);
    assert i + 4 <= |t| ==> t[i..i + 2] == [t[i], t[i + 1]] && t[i + 2..i + 4] == [t[i + 2], t[i + 3]];
  }

  function Same(call: ToolCallSig, n: nat): seq<ToolCallSig> {
    seq(n, _ => call)
  }

  lemma FewEqualCallsAreClean(l: Limits, call: ToolCallSig, n: nat)
    requires n <= 3 && n < l.minRepeats
    ensures Clean(l, Same(call, n))
  {
  }

  /** min_repeats is documented as the threshold for identical calls.  With cycles of two
      watched it is one only up to 4: a larger value never blocks anything, because two
      rounds of a two-call cycle are complete before the run is long enough. */
  lemma {:induction false} ThresholdMattersUpToFour(l: Limits)
    requires ValidLimits(l) && 2 <= l.maxPeriod
    ensures l.minRepeats <= 4
       <==> exists history: seq<ToolCallSig>, call ::
              Clean(l, history) && TailRun(LastN(history + [call], l.window), l.minRepeats)
  {
    if l.minRepeats <= 4 {
      var call := ToolCallSig("", "");
      var history := Same(call, l.minRepeats - 1);
      FewEqualCallsAreClean(l, call, l.minRepeats - 1);
      assert TailRun(history + [call], l.minRepeats);
      WindowShowsRuns(history + [call], l.window, l.minRepeats);
    } else {
      forall history: seq<ToolCallSig>, call | Clean(l, history)
        ensures !TailRun(LastN(history + [call], l.window), l.minRepeats)
      {
        LongRunsNeverEnd(l, history, call);
      }
    }
  }

  lemma LongRunsNeverEnd(l: Limits, history: seq<ToolCallSig>, call: ToolCallSig)
    requires ValidLimits(l) && 2 <= l.maxPeriod && 5 <= l.minRepeats && Clean(l, history)
    ensures !TailRun(LastN(history + [call], l.window), l.minRepeats)
  {
    WindowShowsRuns(history + [call], l.window, l.minRepeats);
    if TailRun(history + [call], l.minRepeats) {
      assert TailRun(history + [call], 5);
      LongRunHidesARun(history, call, 4);
      NeverFourInARow(l, history, |history| - 4);
    }
  }

  /** What the guard is for, in terms of the configuration: with W calls in the window, a run
      threshold of R and periods up to P, no block of 2 to min(W/2, P) calls is immediately
      repeated, and no run of R identical calls occurs (unless R exceeds W). */
  ghost predicate RepetitionFree(cfg: Config, t: seq<ToolCallSig>) {
    NoRepetition(t, if cfg.window <= 0 then 10 else cfg.window, if cfg.minRepeats <= 1 then 3 else cfg.minRepeats,
                 if cfg.maxPeriod <= 0 then 5 else cfg.maxPeriod)
  }

  ghost predicate NoRepetition(t: seq<ToolCallSig>, w: nat, r: nat, p: nat) {
    && (forall i: nat, m: nat :: 2 <= m <= p && 2 * m <= w ==> !SquareAt(t, i, m))
    && (r <= w ==> forall i: nat :: !RunAt(t, i, r))
  }

  lemma CleanMeansRepetitionFree(cfg: Config, t: seq<ToolCallSig>)
    ensures Clean(LimitsOf(cfg), t) <==> RepetitionFree(cfg, t)
  {
    var l := LimitsOf(cfg);
    LimitsAreTheConfigured(cfg, 0);
    hide SquareAt, RunAt;
    if Clean(l, t) {
      forall i: nat, m: nat | 2 <= m <= (if cfg.maxPeriod <= 0 then 5 else cfg.maxPeriod)
                              && 2 * m <= (if cfg.window <= 0 then 10 else cfg.window)
        ensures !SquareAt(t, i, m)
      {
        LimitsAreTheConfigured(cfg, m);
      }
    }
    if RepetitionFree(cfg, t) {
      forall i: nat, m: nat | 2 <= m <= l.maxPeriod
        ensures !SquareAt(t, i, m)
      {
        LimitsAreTheConfigured(cfg, m);
      }
    }
  }

  /** A call is blocked exactly when accepting it would put a repetition into the history. */
  lemma {:induction false} BlockedExactlyWhenNeeded(cfg: Config, history: seq<ToolCallSig>, call: ToolCallSig)
    requires RepetitionFree(cfg, history)
    ensures HistoryBlocks(LimitsOf(cfg), history, call) <==> !RepetitionFree(cfg, history + [call])
  {
    var l, t := LimitsOf(cfg), history + [call];
    LimitsAreValid(cfg);
    CleanMeansRepetitionFree(cfg, history);
    CleanMeansRepetitionFree(cfg, t);
    hide RepetitionFree, LimitsOf;
    AcceptingKeepsClean(l, history, call);
    if l.minRepeats <= l.window && TailRun(t, l.minRepeats) {
      assert RunAt(t, |t| - l.minRepeats, l.minRepeats);
    } else if m :| 2 <= m <= l.maxPeriod && TailSquare(t, m) {
      assert SquareAt(t, |t| - 2 * m, m);
    }
  }

  // ---------- Whole runs ----------

  datatype Event = Event(agentID: string, call: ToolCallSig)

  type Buffers = map<string, seq<ToolCallSig>>

  function BufferOf(b: Buffers, agentID: string): seq<ToolCallSig> {
    if agentID in b then b[agentID] else []
  }

  /** One call of `observe`, as a function of the per-agent buffers. */
  ghost function Step(cfg: Config, b: Buffers, e: Event): Buffers {
    if cfg.Covers(e.agentID)
    then b[e.agentID := Accept(LimitsOf(cfg), BufferOf(b, e.agentID), e.call)]
    else b
  }

  ghost function HistoryStep(cfg: Config, h: Buffers, e: Event): Buffers {
    if cfg.Covers(e.agentID)
    then h[e.agentID := HistoryAccept(LimitsOf(cfg), BufferOf(h, e.agentID), e.call)]
    else h
  }

  ghost function GuardRun(cfg: Config, events: seq<Event>): Buffers {
    if events == [] then map[]
    else Step(cfg, GuardRun(cfg, events[..|events| - 1]), events[|events| - 1])
  }

  ghost function HistoryRun(cfg: Config, events: seq<Event>): Buffers {
    if events == [] then map[]
    else HistoryStep(cfg, HistoryRun(cfg, events[..|events| - 1]), events[|events| - 1])
  }

  /** The buffers are the windows onto clean histories. */
  ghost predicate Windows(cfg: Config, b: Buffers, h: Buffers) {
    && b.Keys == h.Keys
    && forall a :: a in h ==> b[a] == LastN(h[a], LimitsOf(cfg).window) && Clean(LimitsOf(cfg), h[a])
  }

  lemma LimitsAreValid(cfg: Config)
    ensures ValidLimits(LimitsOf(cfg))
  {
  }

  lemma WindowOf(cfg: Config, b: Buffers, h: Buffers, agentID: string)
    requires Windows(cfg, b, h)
    ensures BufferOf(b, agentID) == LastN(BufferOf(h, agentID), LimitsOf(cfg).window)
    ensures Clean(LimitsOf(cfg), BufferOf(h, agentID))
  {
  }

  lemma StepKeepsWindows(cfg: Config, b: Buffers, h: Buffers, e: Event)
    requires Windows(cfg, b, h)
    ensures Windows(cfg, Step(cfg, b, e), HistoryStep(cfg, h, e))
    ensures Blocks(LimitsOf(cfg), BufferOf(b, e.agentID), e.call)
       <==> HistoryBlocks(LimitsOf(cfg), BufferOf(h, e.agentID), e.call)
  {
    var l := LimitsOf(cfg);
    LimitsAreValid(cfg);
    var history := BufferOf(h, e.agentID);
    WindowDecidesLikeHistory(l, history, e.call);
    assert Clean(l, history);
    AcceptingKeepsClean(l, history, e.call);
  }

  /** Over every run: each agent's buffer is the window onto its history of accepted calls,
      and that whole history is free of the repetitions that the configuration names.  Filling
      in the defaults first, or leaving them to the detector, makes no difference. */
  lemma {:induction false} EveryRunIsClean(cfg: Config, events: seq<Event>)
    ensures Windows(cfg, GuardRun(cfg, events), HistoryRun(cfg, events))
    ensures forall a :: a in HistoryRun(cfg, events) ==> RepetitionFree(cfg, HistoryRun(cfg, events)[a])
    ensures GuardRun(cfg.ApplyDefaults(), events) == GuardRun(cfg, events)
  {
    RunIsClean(cfg, events);
    hide GuardRun, HistoryRun, RepetitionFree, Clean;
    forall a | a in HistoryRun(cfg, events)
      ensures RepetitionFree(cfg, HistoryRun(cfg, events)[a])
    {
      CleanMeansRepetitionFree(cfg, HistoryRun(cfg, events)[a]);
    }
  }

  lemma {:induction false} RunIsClean(cfg: Config, events: seq<Event>)
    ensures Windows(cfg, GuardRun(cfg, events), HistoryRun(cfg, events))
    ensures GuardRun(cfg.ApplyDefaults(), events) == GuardRun(cfg, events)
  {
    if events == [] {
    } else {
      var before := events[..|events| - 1];
      DefaultsAgree(cfg);
      RunIsClean(cfg, before);
      StepKeepsWindows(cfg, GuardRun(cfg, before), HistoryRun(cfg, before), events[|events| - 1]);
    }
  }

  function Retries(e: Event, n: nat): seq<Event> {
    seq(n, _ => e)
  }

  lemma BlockedStepChangesNothing(cfg: Config, b: Buffers, e: Event)
    requires Blocks(LimitsOf(cfg), BufferOf(b, e.agentID), e.call)
    ensures e.agentID in b && Step(cfg, b, e) == b
  {
    LimitsAreValid(cfg);
    FirstCallIsNeverBlocked(LimitsOf(cfg), e.call);
    hide Blocks;
    assert b[e.agentID := b[e.agentID]] == b;
  }

  /** A blocked call leaves no trace: after any number of retries the guard is in the same
      state, so every retry is blocked again. */
  lemma {:induction false} RetriesStayBlocked(cfg: Config, events: seq<Event>, e: Event, n: nat)
    requires cfg.Covers(e.agentID)
    requires Blocks(LimitsOf(cfg), BufferOf(GuardRun(cfg, events), e.agentID), e.call)
    ensures GuardRun(cfg, events + Retries(e, n)) == GuardRun(cfg, events)
  {
    hide Blocks, Step;
    if n == 0 {
      assert events + Retries(e, 0) == events;
    } else {
      var all := events + Retries(e, n);
      assert all[..|all| - 1] == events + Retries(e, n - 1);
      RetriesStayBlocked(cfg, events, e, n - 1);
      BlockedStepChangesNothing(cfg, GuardRun(cfg, events), e);
    }
  }

  lemma FirstCallIsNeverBlocked(l: Limits, call: ToolCallSig)
    requires 2 <= l.minRepeats
    ensures !Blocks(l, [], call)
  {
  }

  lemma AcceptedHistory(cfg: Config, h: Buffers, e: Event)
    requires HistoryBlocks(LimitsOf(cfg), BufferOf(h, e.agentID), e.call) ==> e.agentID in h
    ensures HistoryStep(cfg, h, e) ==
            if !cfg.Covers(e.agentID) || HistoryBlocks(LimitsOf(cfg), BufferOf(h, e.agentID), e.call) then h
            else h[e.agentID := BufferOf(h, e.agentID) + [e.call]]
  {
    hide HistoryBlocks;
    if e.agentID in h {
      assert h[e.agentID := h[e.agentID]] == h;
    }
  }

  lemma BlockedAgentsHaveHistory(cfg: Config, h: Buffers, e: Event)
    ensures HistoryBlocks(LimitsOf(cfg), BufferOf(h, e.agentID), e.call) ==> e.agentID in h
  {
    LimitsAreValid(cfg);
  }

  class LoopGuard {
    const cfg: Config
    var buffers: Buffers
    /** Every call accepted so far, per agent. */
    ghost var histories: Buffers

    ghost predicate Valid()
      reads this
    {
      Windows(cfg, buffers, histories)
    }

    constructor (config: Config)
      ensures Valid() && cfg == config.ApplyDefaults() && buffers == map[] && histories == map[]
    {
      cfg := config.ApplyDefaults();
      buffers := map[];
      histories := map[];
    }

    method Observe(agentID: string, call: ToolCallSig) returns (det: Option<Detection>)
      requires Valid()
      modifies this
      ensures Valid()
      ensures buffers == Step(cfg, old(buffers), Event(agentID, call))
      ensures histories == HistoryStep(cfg, old(histories), Event(agentID, call))
      ensures det.Some? <==>
                cfg.Covers(agentID) && HistoryBlocks(LimitsOf(cfg), BufferOf(old(histories), agentID), call)
      ensures var history := BufferOf(old(histories), agentID);
              && RepetitionFree(cfg, history)
              && (det.Some? <==>
                    && cfg.enabled != Some(false) && (cfg.subagentsOnly ==> '/' in agentID)
                    && !RepetitionFree(cfg, history + [call]))
              && histories == if det.Some? || cfg.enabled == Some(false) || (cfg.subagentsOnly && '/' !in agentID)
                              then old(histories)
                              else old(histories)[agentID := history + [call]]
      ensures det.Some? ==> buffers == old(buffers)
      ensures det.Some? ==>
                && Describes(det.value, LastN(BufferOf(old(buffers), agentID) + [call], LimitsOf(cfg).window),
                             LimitsOf(cfg).minRepeats, LimitsOf(cfg).maxPeriod)
                && det.value.tool == call.name
                && det.value.repeats == if det.value.period == 1 then LimitsOf(cfg).minRepeats else 2
    {
      CleanMeansRepetitionFree(cfg, BufferOf(histories, agentID));
      WindowOf(cfg, buffers, histories, agentID);
      if cfg.enabled == Some(false) || !cfg.AppliesTo(agentID) {
        return None;
      }
      BlockedExactlyWhenNeeded(cfg, BufferOf(histories, agentID), call);
      BlockedAgentsHaveHistory(cfg, histories, Event(agentID, call));
      AcceptedHistory(cfg, histories, Event(agentID, call));
      hide Blocks, HistoryBlocks, Looping, Clean, Describes, LongestPeriod, EffectiveRepeats, Windows, HistoryStep,
        HistoryAccept, RepetitionFree;
      ghost var e := Event(agentID, call);
      ghost var history := BufferOf(histories, agentID);
      StepKeepsWindows(cfg, buffers, histories, e);
      WindowDecides(cfg, BufferOf(buffers, agentID), history, call);
      histories := HistoryStep(cfg, histories, e);
      var buf := BufferOf(buffers, agentID);
      buf := buf + [call];
      det := DetectToolLoop(buf, cfg.window, cfg.minRepeats, cfg.maxPeriod);
      if det.Some? {
        BlockedStepChangesNothing(cfg, buffers, e);
        BlockedReport(cfg, history, call, det.value);
        assert buf[..|buf| - 1] == buffers[agentID];
        buffers := buffers[agentID := buf[..|buf| - 1]];
        return;
      }
      if |buf| > EffectiveWindow(cfg.window) {
        buf := buf[|buf| - EffectiveWindow(cfg.window)..];
      }
      buffers := buffers[agentID := buf];
    }
  }

  /** What `observe` learns from the detector, in terms of the accepted history. */
  lemma WindowDecides(cfg: Config, buffer: seq<ToolCallSig>, history: seq<ToolCallSig>, call: ToolCallSig)
    requires buffer == LastN(history, LimitsOf(cfg).window)
    ensures Blocks(LimitsOf(cfg), buffer, call)
       <==> Looping(LastN(buffer + [call], EffectiveWindow(cfg.window)),
                    EffectiveRepeats(cfg.minRepeats), LongestPeriod(cfg.window, cfg.maxPeriod))
    ensures LastN(buffer + [call], EffectiveWindow(cfg.window))
         == LastN(history + [call], LimitsOf(cfg).window)
  {
    LimitsAreValid(cfg);
    WindowDecidesLikeHistory(LimitsOf(cfg), history, call);
  }

  lemma {:induction false} BlockedReport(cfg: Config, history: seq<ToolCallSig>, call: ToolCallSig, det: Detection)
    requires Clean(LimitsOf(cfg), history)
    requires Describes(det, LastN(history + [call], LimitsOf(cfg).window),
                       EffectiveRepeats(cfg.minRepeats), LongestPeriod(cfg.window, cfg.maxPeriod))
    ensures det.tool == call.name
    ensures det.repeats == if det.period == 1 then LimitsOf(cfg).minRepeats else 2
  {
    LimitsAreValid(cfg);
    BlockedPatternIsMinimal(LimitsOf(cfg), history, call, det);
  }
}

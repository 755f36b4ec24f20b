/** firmware_loopback_sync.py: per-stride classification, windowed statistics over circular
    histories, and recovery counting. The eight parallel history arrays are one array of records. */
module LoopbackMonitor {
  import opened Basics
  import opened Circular

  datatype State = Nominal | Warning | Critical
  datatype Event = NoEvent | SampleSlip | TransportStall | AbruptHandover | Recovery

  datatype Config = Config(historyLen: nat,
    driftWarningS: real, driftCriticalS: real, latencyWarningS: real, latencyCriticalS: real,
    slipThresholdSamples: int, continuityGapThreshold: int, nullWarningDb: real, nullCriticalDb: real,
    recoveryClearCount: int, warmupStrides: int)

  datatype Stride = Stride(tsSysS: real, tsSdrS: real, seqIdx: int, latencyS: real, nullDb: real, handoverActive: int)

  /** What one stride leaves in the histories. */
  datatype Entry = Entry(stride: Stride, driftS: real, state: State, event: Event)

  // ---- one stride, from the log of all strides ----

  function Drift(x: Stride): real { x.tsSysS - x.tsSdrS }

  function Gap(log: seq<Stride>, i: nat): nat
    requires i < |log|
  {
    if i > 0 && log[i].seqIdx > log[i - 1].seqIdx then log[i].seqIdx - log[i - 1].seqIdx - 1 else 0
  }

  /** The state the measurements alone call for. */
  function Measured(cfg: Config, x: Stride): State {
    var d := Abs(Drift(x));
    if d >= cfg.driftCriticalS || x.latencyS >= cfg.latencyCriticalS || x.nullDb >= cfg.nullCriticalDb then Critical
    else if d >= cfg.driftWarningS || x.latencyS >= cfg.latencyWarningS || x.nullDb >= cfg.nullWarningDb then Warning
    else Nominal
  }

  function StateAt(cfg: Config, log: seq<Stride>, i: nat): State
    requires i < |log|
  {
    if Gap(log, i) >= cfg.slipThresholdSamples then Critical
    else if Gap(log, i) >= cfg.continuityGapThreshold then Warning
    else Measured(cfg, log[i])
  }

  /** Length of the run of nominal strides after warm-up that ends with the t-th stride. */
  function Streak(cfg: Config, log: seq<Stride>, t: nat): nat
    requires t <= |log|
  {
    if t > 0 && StateAt(cfg, log, t - 1) == Nominal && t - 1 >= cfg.warmupStrides then Streak(cfg, log, t - 1) + 1 else 0
  }

  function EventAt(cfg: Config, log: seq<Stride>, i: nat): Event
    requires i < |log|
  {
    if Streak(cfg, log, i + 1) == cfg.recoveryClearCount then Recovery
    else if log[i].latencyS >= cfg.latencyCriticalS then TransportStall
    else if log[i].handoverActive == 1 then AbruptHandover
    else if Gap(log, i) >= cfg.slipThresholdSamples then SampleSlip
    else NoEvent
  }

  function EntryAt(cfg: Config, log: seq<Stride>, i: nat): Entry
    requires i < |log|
  {
    Entry(log[i], Drift(log[i]), StateAt(cfg, log, i), EventAt(cfg, log, i))
  }

  datatype Counts = Counts(slips: nat, stalls: nat, handovers: nat, recoveries: nat)

  function CountsAfter(cfg: Config, log: seq<Stride>, t: nat): Counts
    requires t <= |log|
  {
    if t == 0 then Counts(0, 0, 0, 0)
    else
      var c, x := CountsAfter(cfg, log, t - 1), log[t - 1];
      var gap, stall := Gap(log, t - 1), x.latencyS >= cfg.latencyCriticalS;
      Counts(c.slips + (if gap >= cfg.slipThresholdSamples || gap >= cfg.continuityGapThreshold then 1 else 0),
        c.stalls + (if stall then 1 else 0),
        c.handovers + (if !stall && x.handoverActive == 1 then 1 else 0),
        c.recoveries + (if Streak(cfg, log, t) == cfg.recoveryClearCount then 1 else 0))
  }

  // ---- recoveries are long streaks ----

  /** Streaks of at least recoveryClearCount that ended before stride t. */
  function EndedStreaks(cfg: Config, log: seq<Stride>, t: nat): nat
    requires t <= |log|
  {
    if t == 0 then 0
    else
      EndedStreaks(cfg, log, t - 1)
      + (if Streak(cfg, log, t) == 0 && Streak(cfg, log, t - 1) >= cfg.recoveryClearCount then 1 else 0)
  }

  /** Each long enough streak is counted once, the one under way included. */
  lemma {:induction false} RecoveriesAreLongStreaks(cfg: Config, log: seq<Stride>, t: nat)
    requires t <= |log| && cfg.recoveryClearCount >= 1
    ensures CountsAfter(cfg, log, t).recoveries
         == EndedStreaks(cfg, log, t) + if Streak(cfg, log, t) >= cfg.recoveryClearCount then 1 else 0
  {
    if t > 0 {
      RecoveriesAreLongStreaks(cfg, log, t - 1);
      assert Streak(cfg, log, t) == 0 || Streak(cfg, log, t) == Streak(cfg, log, t - 1) + 1;
      hide StateAt, Gap;
    }
  }

  /** A gap at the continuity threshold, below the slip threshold, lowers a critical measurement
      to a warning: the only way a critical measurement is not reported as critical. */
  lemma CriticalIsMasked(cfg: Config, log: seq<Stride>, i: nat)
    requires i < |log| && Measured(cfg, log[i]) == Critical
    ensures StateAt(cfg, log, i) != Critical <==>
            cfg.continuityGapThreshold <= Gap(log, i) < cfg.slipThresholdSamples
  {
  }

  /** What is reported for every stride of every log: a gap of the slip threshold is critical, a
      smaller one of the continuity threshold a warning, and otherwise the worst of drift, latency
      and null depth decides. */
  lemma StatesExactly(cfg: Config, log: seq<Stride>, i: nat)
    requires i < |log|
    ensures var x := log[i];
      var missing := if i == 0 then 0 else x.seqIdx - log[i - 1].seqIdx - 1;
      var gap := if missing > 0 then missing else 0;
      var late := x.tsSysS - x.tsSdrS;
      var critical := late >= cfg.driftCriticalS || -late >= cfg.driftCriticalS || x.latencyS >= cfg.latencyCriticalS || x.nullDb >= cfg.nullCriticalDb;
      var raised := late >= cfg.driftWarningS || -late >= cfg.driftWarningS || x.latencyS >= cfg.latencyWarningS || x.nullDb >= cfg.nullWarningDb;
      var slip, broken := gap >= cfg.slipThresholdSamples, gap >= cfg.continuityGapThreshold;
      && (StateAt(cfg, log, i) == Critical <==> slip || (!broken && critical))
      && (StateAt(cfg, log, i) == Warning <==> !slip && (broken || (!critical && raised)))
      && (StateAt(cfg, log, i) == Nominal <==> !slip && !broken && !critical && !raised)
  {
  }

  /** Nominal, and past the warm-up. */
  predicate Calm(cfg: Config, log: seq<Stride>, i: nat)
    requires i < |log|
  {
    StateAt(cfg, log, i) == Nominal && i >= cfg.warmupStrides
  }

  /** The streak has reached k exactly when the last k strides were nominal and past the warm-up. */
  lemma {:induction false} StreakReaches(cfg: Config, log: seq<Stride>, t: nat, k: nat)
    requires t <= |log|
    ensures Streak(cfg, log, t) >= k <==> k <= t && forall i: nat :: t - k <= i < t ==> Calm(cfg, log, i)
  {
    hide StateAt;
    if t > 0 && k > 0 {
      StreakReaches(cfg, log, t - 1, k - 1);
      assert Streak(cfg, log, t) == if Calm(cfg, log, t - 1) then Streak(cfg, log, t - 1) + 1 else 0;
    }
  }

  /** Which event a stride leaves: a recovery before a stall, a stall before a handover, a handover
      before a slip. */
  lemma EventsExactly(cfg: Config, log: seq<Stride>, i: nat)
    requires i < |log|
    ensures var e, x := EventAt(cfg, log, i), log[i];
      var recovered := Streak(cfg, log, i + 1) == cfg.recoveryClearCount;
      var stalled, handed := x.latencyS >= cfg.latencyCriticalS, x.handoverActive == 1;
      && (e == Recovery <==> recovered)
      && (e == TransportStall <==> !recovered && stalled)
      && (e == AbruptHandover <==> !recovered && !stalled && handed)
      && (e == SampleSlip <==> !recovered && !stalled && !handed && Gap(log, i) >= cfg.slipThresholdSamples)
  {
    hide Streak, Gap;
  }

  ghost function Stalls(cfg: Config, log: seq<Stride>, t: nat): (ks: set<nat>)
    requires t <= |log|
  {
    set k: nat | k < t && log[k].latencyS >= cfg.latencyCriticalS
  }

  ghost function Handovers(cfg: Config, log: seq<Stride>, t: nat): (ks: set<nat>)
    requires t <= |log|
  {
    set k: nat | k < t && log[k].latencyS < cfg.latencyCriticalS && log[k].handoverActive == 1
  }

  ghost function Breaks(cfg: Config, log: seq<Stride>, t: nat): (ks: set<nat>)
    requires t <= |log|
  {
    set k: nat | k < t && (Gap(log, k) >= cfg.slipThresholdSamples || Gap(log, k) >= cfg.continuityGapThreshold)
  }

  lemma BreaksStep(cfg: Config, log: seq<Stride>, k: nat)
    requires k < |log|
    ensures var here := Gap(log, k) >= cfg.slipThresholdSamples || Gap(log, k) >= cfg.continuityGapThreshold;
      |Breaks(cfg, log, k + 1)| == |Breaks(cfg, log, k)| + if here then 1 else 0
  {
    hide Gap;
    var here := Gap(log, k) >= cfg.slipThresholdSamples || Gap(log, k) >= cfg.continuityGapThreshold;
    assert Breaks(cfg, log, k + 1) == Breaks(cfg, log, k) + (if here then {k} else {});
  }

  lemma StallsStep(cfg: Config, log: seq<Stride>, k: nat)
    requires k < |log|
    ensures |Stalls(cfg, log, k + 1)| == |Stalls(cfg, log, k)| + if log[k].latencyS >= cfg.latencyCriticalS then 1 else 0
  {
    assert Stalls(cfg, log, k + 1) == Stalls(cfg, log, k) + (if log[k].latencyS >= cfg.latencyCriticalS then {k} else {});
  }

  lemma HandoversStep(cfg: Config, log: seq<Stride>, k: nat)
    requires k < |log|
    ensures var here := log[k].latencyS < cfg.latencyCriticalS && log[k].handoverActive == 1;
      |Handovers(cfg, log, k + 1)| == |Handovers(cfg, log, k)| + if here then 1 else 0
  {
    var here := log[k].latencyS < cfg.latencyCriticalS && log[k].handoverActive == 1;
    assert Handovers(cfg, log, k + 1) == Handovers(cfg, log, k) + (if here then {k} else {});
  }

  /** The counters count strides: gaps of either threshold, critical latencies, and handovers without
      one. */
  lemma {:induction false} CountersCount(cfg: Config, log: seq<Stride>, t: nat)
    requires t <= |log|
    ensures var c := CountsAfter(cfg, log, t);
      c.slips == |Breaks(cfg, log, t)| && c.stalls == |Stalls(cfg, log, t)| && c.handovers == |Handovers(cfg, log, t)|
  {
    if t == 0 {
      assert Breaks(cfg, log, 0) == {} && Stalls(cfg, log, 0) == {} && Handovers(cfg, log, 0) == {};
    } else {
      CountersCount(cfg, log, t - 1);
      hide Gap, Breaks, Stalls, Handovers, Streak;
      BreaksStep(cfg, log, t - 1); StallsStep(cfg, log, t - 1); HandoversStep(cfg, log, t - 1);
    }
  }

  const DEFAULT := Config(256, 0.0025, 0.005, 0.004, 0.008, 2, 1, -20.0, -10.0, 8, 16)

  /** Two strides, the second of critical latency, with `gap` sequence numbers missing between. */
  function GapThenStall(cfg: Config, gap: nat): (log: seq<Stride>)
    ensures |log| == 2 && Gap(log, 1) == gap && Measured(cfg, log[1]) == Critical
  {
    [Stride(0.0, 0.0, 0, 0.0, 0.0, 0), Stride(0.0, 0.0, gap + 1, cfg.latencyCriticalS, 0.0, 0)]
  }

  ghost predicate Masks(cfg: Config) {
    exists log: seq<Stride>, i: nat :: i < |log| && Measured(cfg, log[i]) == Critical && StateAt(cfg, log, i) != Critical
  }

  /** A configuration can hide a critical measurement exactly when its continuity threshold is
      below a positive slip threshold; */
  lemma MaskingConfigurations(cfg: Config)
    ensures Masks(cfg) <==> cfg.continuityGapThreshold < cfg.slipThresholdSamples && cfg.slipThresholdSamples > 0
  {
    if cfg.continuityGapThreshold < cfg.slipThresholdSamples && cfg.slipThresholdSamples > 0 {
      var log := GapThenStall(cfg, if cfg.continuityGapThreshold < 0 then 0 else cfg.continuityGapThreshold);
      CriticalIsMasked(cfg, log, 1);
      assert StateAt(cfg, log, 1) != Critical;
    }
    forall log: seq<Stride>, i: nat | i < |log| && Measured(cfg, log[i]) == Critical && StateAt(cfg, log, i) != Critical
      ensures cfg.continuityGapThreshold < cfg.slipThresholdSamples && cfg.slipThresholdSamples > 0
    {
      CriticalIsMasked(cfg, log, i);
    }
  }

  /** the default one does: a stall behind one lost stride is reported as a warning. */
  lemma DefaultMasks()
    ensures Measured(DEFAULT, GapThenStall(DEFAULT, 1)[1]) == Critical
    ensures StateAt(DEFAULT, GapThenStall(DEFAULT, 1), 1) == Warning
  {
  }

  lemma {:induction false} LogPrefix(cfg: Config, log: seq<Stride>, x: Stride, t: nat)
    requires t <= |log|
    ensures Streak(cfg, log + [x], t) == Streak(cfg, log, t)
    ensures CountsAfter(cfg, log + [x], t) == CountsAfter(cfg, log, t)
    ensures t < |log| ==> EntryAt(cfg, log + [x], t) == EntryAt(cfg, log, t)
  {
    if t > 0 { LogPrefix(cfg, log, x, t - 1); }
  }

  /** One more stride, in terms of the registers before it. */
  lemma LastStride(cfg: Config, log: seq<Stride>, x: Stride)
    ensures var r, t := log + [x], |log|;
      var gap, stall := Gap(r, t), x.latencyS >= cfg.latencyCriticalS;
      var streak := if StateAt(cfg, r, t) == Nominal && t >= cfg.warmupStrides then Streak(cfg, log, t) + 1 else 0;
      var c := CountsAfter(cfg, log, t);
      Streak(cfg, r, t + 1) == streak
      && CountsAfter(cfg, r, t + 1) == Counts(
           c.slips + (if gap >= cfg.slipThresholdSamples || gap >= cfg.continuityGapThreshold then 1 else 0),
           c.stalls + (if stall then 1 else 0),
           c.handovers + (if !stall && x.handoverActive == 1 then 1 else 0),
           c.recoveries + (if streak == cfg.recoveryClearCount then 1 else 0))
      && EntryAt(cfg, r, t) == Entry(x, Drift(x), StateAt(cfg, r, t),
           if streak == cfg.recoveryClearCount then Recovery
           else if stall then TransportStall
           else if x.handoverActive == 1 then AbruptHandover
           else if gap >= cfg.slipThresholdSamples then SampleSlip
           else NoEvent)
      && StateAt(cfg, r, t) == if gap >= cfg.slipThresholdSamples then Critical
                               else if gap >= cfg.continuityGapThreshold then Warning
                               else Measured(cfg, x)
  {
    LogPrefix(cfg, log, x, |log|);
    hide Measured, Gap;
  }

  // ---- windowed statistics ----

  /** The last min(t, historyLen) entries, oldest first. */
  function Window(cfg: Config, log: seq<Stride>): (es: seq<Entry>)
    ensures |es| == if |log| < cfg.historyLen then |log| else cfg.historyLen
  {
    var v := if |log| < cfg.historyLen then |log| else cfg.historyLen;
    seq(v, i requires 0 <= i < v => EntryAt(cfg, log, |log| - v + i))
  }

  function Sum(f: Entry -> real, es: seq<Entry>): real {
    if |es| == 0 then 0.0 else Sum(f, es[..|es| - 1]) + f(es[|es| - 1])
  }

  /** The largest value, or 0 when all are smaller. */
  function Largest(f: Entry -> real, es: seq<Entry>): real {
    if |es| == 0 then 0.0
    else var m := Largest(f, es[..|es| - 1]); if f(es[|es| - 1]) > m then f(es[|es| - 1]) else m
  }

  const NO_NULL := 1000000000.0

  function Smallest(f: Entry -> real, es: seq<Entry>): real {
    if |es| == 0 then NO_NULL
    else var m := Smallest(f, es[..|es| - 1]); if f(es[|es| - 1]) < m then f(es[|es| - 1]) else m
  }

  function DriftOf(e: Entry): real { e.driftS }
  function AbsDriftOf(e: Entry): real { Abs(e.driftS) }
  function LatencyOf(e: Entry): real { e.stride.latencyS }
  function NullOf(e: Entry): real { e.stride.nullDb }

  datatype Summary = Summary(meanDrift: real, maxAbsDrift: real, meanLatency: real, maxLatency: real, minNull: real)

  function Summarised(es: seq<Entry>): Summary
    requires |es| > 0
  {
    Summary(Sum(DriftOf, es) / |es| as real, Largest(AbsDriftOf, es), Sum(LatencyOf, es) / |es| as real, Largest(LatencyOf, es), Smallest(NullOf, es))
  }

  lemma {:induction false} SumSplits(f: Entry -> real, a: seq<Entry>, b: seq<Entry>)
    ensures Sum(f, a + b) == Sum(f, a) + Sum(f, b)
    decreases |b|
  {
    if |b| == 0 {
      assert a + b == a;
    } else {
      var k := |b| - 1;
      SumSplits(f, a, b[..k]);
      assert (a + b)[..|a + b| - 1] == a + b[..k];
    }
  }

  /** Largest is the least bound from zero up, */
  lemma {:induction false} LargestBounds(f: Entry -> real, es: seq<Entry>, m: real)
    ensures Largest(f, es) <= m <==> (0.0 <= m && forall i :: 0 <= i < |es| ==> f(es[i]) <= m)
    decreases |es|
  {
    if |es| > 0 {
      var k := |es| - 1;
      LargestBounds(f, es[..k], m);
      LargestBounds(f, es[..k], Largest(f, es[..k]));
      assert forall i :: 0 <= i < k ==> es[..k][i] == es[i];
    }
  }

  /** and Smallest the greatest bound from NO_NULL down. */
  lemma {:induction false} SmallestBounds(f: Entry -> real, es: seq<Entry>, m: real)
    ensures m <= Smallest(f, es) <==> (m <= NO_NULL && forall i :: 0 <= i < |es| ==> m <= f(es[i]))
    decreases |es|
  {
    if |es| > 0 {
      var k := |es| - 1;
      SmallestBounds(f, es[..k], m);
      assert forall i :: 0 <= i < k ==> es[..k][i] == es[i];
    }
  }

  lemma Swapped(f: Entry -> real, a: seq<Entry>, b: seq<Entry>)
    ensures Sum(f, a + b) == Sum(f, b + a) && Largest(f, a + b) == Largest(f, b + a) && Smallest(f, a + b) == Smallest(f, b + a)
  {
    SumSplits(f, a, b);
    SumSplits(f, b, a);
    LargestOfSwapped(f, a, b);
    LargestOfSwapped(f, b, a);
    SmallestOfSwapped(f, a, b);
    SmallestOfSwapped(f, b, a);
  }

  lemma LargestOfSwapped(f: Entry -> real, a: seq<Entry>, b: seq<Entry>)
    ensures Largest(f, a + b) <= Largest(f, b + a)
  {
    var m := Largest(f, b + a);
    LargestBounds(f, b + a, m);
    forall i | 0 <= i < |a + b| ensures f((a + b)[i]) <= m {
      assert (a + b)[i] == (b + a)[if i < |a| then |b| + i else i - |a|];
    }
    LargestBounds(f, a + b, m);
  }

  lemma SmallestOfSwapped(f: Entry -> real, a: seq<Entry>, b: seq<Entry>)
    ensures Smallest(f, b + a) <= Smallest(f, a + b)
  {
    var m := Smallest(f, b + a);
    SmallestBounds(f, b + a, m);
    forall i | 0 <= i < |a + b| ensures m <= f((a + b)[i]) {
      assert (a + b)[i] == (b + a)[if i < |a| then |b| + i else i - |a|];
    }
    SmallestBounds(f, a + b, m);
  }

  // ---- the monitor ----

  const BLANK := Entry(Stride(0.0, 0.0, 0, 0.0, 0.0, 0), 0.0, Nominal, NoEvent)

  class FirmwareLoopbackSync {
    const cfg: Config
    const hist: array<Entry>
    var writeIdx: nat
    var initialized: bool
    var prevSeq: int
    var clearCounter: nat
    var totalStrides: nat
    var counts: Counts
    var summary: Summary
    ghost var log: seq<Stride>

    ghost predicate Valid()
      reads this, hist
    {
      cfg.historyLen > 0 && hist.Length == cfg.historyLen
      && totalStrides == |log| && writeIdx == Slot(|log|, cfg.historyLen)
      && (initialized <==> |log| > 0) && (|log| > 0 ==> prevSeq == log[|log| - 1].seqIdx)
      && clearCounter == Streak(cfg, log, |log|) && counts == CountsAfter(cfg, log, |log|)
      && (|log| > 0 ==> summary == Summarised(Window(cfg, log)))
      && Remembers(log)
    }

    ghost predicate Remembers(r: seq<Stride>)
      requires hist.Length == cfg.historyLen > 0
      reads hist
    {
      forall i: nat :: |r| - cfg.historyLen <= i < |r| ==> hist[Slot(i, cfg.historyLen)] == EntryAt(cfg, r, i)
    }

    constructor (cfg: Config)
      requires cfg.historyLen > 0
      ensures Valid() && log == [] && this.cfg == cfg && fresh(hist)
    {
      this.cfg := cfg;
      hist := new Entry[cfg.historyLen](_ => BLANK);
      writeIdx, initialized, prevSeq, clearCounter, totalStrides := 0, false, -1, 0, 0;
      counts := Counts(0, 0, 0, 0);
      summary := Summary(0.0, 0.0, 0.0, 0.0, 0.0);
      log := [];
    }

    /** The slots in use are the window, cut at the write position. */
    lemma SlotsAreWindow(r: seq<Stride>) returns (a: seq<Entry>, b: seq<Entry>)
      requires hist.Length == cfg.historyLen > 0 && |r| > 0 && Remembers(r)
      ensures var v := if |r| < cfg.historyLen then |r| else cfg.historyLen;
        Window(cfg, r) == a + b && hist[..v] == b + a
    {
      hide EntryAt;
      var n := cfg.historyLen;
      var es := Window(cfg, r);
      if |r| <= n {
        forall i | 0 <= i < |r| ensures hist[i] == es[i] { SlotIdentity(i, n); }
        a, b := es, [];
        assert hist[..|r|] == es;
      } else {
        var w, q := Slot(|r|, n), |r| / n;
        assert |r| == n * q + w;
        a, b := es[..n - w], es[n - w..];
        forall i | 0 <= i < n ensures hist[i] == (b + a)[i] {
          if i < w {
            SlotUnique(|r| - w + i, q, i, n);
          } else {
            assert n * (q - 1) == n * q - n;
            SlotUnique(|r| - n + i - w, q - 1, i, n);
          }
        }
        assert hist[..n] == b + a;
      }
    }

    /** The scan over the slots in use. */
    method Summarise(validLen: nat) returns (s: Summary)
      requires 0 < validLen <= hist.Length
      ensures s == Summarised(hist[..validLen])
    {
      var sumDrift, maxAbsDrift, sumLatency, maxLatency, minNull := 0.0, 0.0, 0.0, 0.0, NO_NULL;
      for i := 0 to validLen
        invariant sumDrift == Sum(DriftOf, hist[..i]) && maxAbsDrift == Largest(AbsDriftOf, hist[..i])
        invariant sumLatency == Sum(LatencyOf, hist[..i]) && maxLatency == Largest(LatencyOf, hist[..i])
        invariant minNull == Smallest(NullOf, hist[..i])
      {
        assert hist[..i + 1][..i] == hist[..i];
        var d := hist[i].driftS;
        var ad := if d >= 0.0 then d else -d;
        sumDrift := sumDrift + d;
        if ad > maxAbsDrift { maxAbsDrift := ad; }
        var l := hist[i].stride.latencyS;
        sumLatency := sumLatency + l;
        if l > maxLatency { maxLatency := l; }
        var nd := hist[i].stride.nullDb;
        if nd < minNull { minNull := nd; }
      }
      s := Summary(sumDrift / validLen as real, maxAbsDrift, sumLatency / validLen as real, maxLatency, minNull);
    }

    method Measure(x: Stride, driftS: real) returns (state: State)
      requires driftS == Drift(x)
      ensures state == Measured(cfg, x)
    {
      state := Nominal;
      var absDrift := if driftS >= 0.0 then driftS else -driftS;
      if absDrift >= cfg.driftCriticalS || x.latencyS >= cfg.latencyCriticalS || x.nullDb >= cfg.nullCriticalDb {
        state := Critical;
      } else if absDrift >= cfg.driftWarningS || x.latencyS >= cfg.latencyWarningS || x.nullDb >= cfg.nullWarningDb {
        state := Warning;
      }
    }

    /** The verdict on one stride, and the registers it moves. */
    method Classify(x: Stride) returns (entry: Entry, gap: nat, recoveryTimeS: real)
      requires Valid()
      modifies this`initialized, this`clearCounter, this`counts
      ensures initialized
      ensures var r := log + [x];
        entry == EntryAt(cfg, r, |log|) && gap == Gap(r, |log|)
        && clearCounter == Streak(cfg, r, |r|) && counts == CountsAfter(cfg, r, |r|)
        && recoveryTimeS == if Streak(cfg, r, |r|) == cfg.recoveryClearCount
                              then cfg.recoveryClearCount as real * x.latencyS else -1.0
    {
      hide StateAt, Streak, CountsAfter, EntryAt, Measured, Window, Summarised, Remembers, Slot;
      ghost var r := log + [x];
      LastStride(cfg, log, x);
      var driftS := x.tsSysS - x.tsSdrS;
      gap := 0;
      var event := NoEvent;
      if initialized {
        if x.seqIdx > prevSeq { gap := x.seqIdx - prevSeq - 1; }
      } else {
        initialized := true;
      }
      assert gap == Gap(r, |log|);
      hide Gap;
      var state := Measure(x, driftS);
      if gap >= cfg.slipThresholdSamples {
        event := SampleSlip;
        counts := counts.(slips := counts.slips + 1);
        state := Critical;
      } else if gap >= cfg.continuityGapThreshold {
        counts := counts.(slips := counts.slips + 1);
        state := Warning;
      }
      if x.latencyS >= cfg.latencyCriticalS {
        event := TransportStall;
        counts := counts.(stalls := counts.stalls + 1);
      } else if x.handoverActive == 1 {
        event := AbruptHandover;
        counts := counts.(handovers := counts.handovers + 1);
      }
      if state == Nominal && totalStrides >= cfg.warmupStrides {
        clearCounter := clearCounter + 1;
      } else {
        clearCounter := 0;
      }
      recoveryTimeS := -1.0;
      if clearCounter == cfg.recoveryClearCount {
        event := Recovery;
        counts := counts.(recoveries := counts.recoveries + 1);
        recoveryTimeS := cfg.recoveryClearCount as real * x.latencyS;
      }
      entry := Entry(x, driftS, state, event);
    }

    /** The entry goes into the ring, over the oldest. */
    method Store(entry: Entry, x: Stride)
      requires entry == EntryAt(cfg, log + [x], |log|)
      requires hist.Length == cfg.historyLen > 0 && writeIdx == Slot(|log|, cfg.historyLen) && Remembers(log)
      modifies hist
      ensures Remembers(log + [x])
    {
      hide EntryAt;
      forall i: nat | i < |log|
        ensures EntryAt(cfg, log + [x], i) == EntryAt(cfg, log, i)
        ensures |log| - cfg.historyLen < i ==> Slot(i, cfg.historyLen) != Slot(|log|, cfg.historyLen)
      {
        LogPrefix(cfg, log, x, i);
        if |log| - cfg.historyLen < i { SlotInjective(i, |log|, cfg.historyLen); }
      }
      hist[writeIdx] := entry;
    }

    method EvaluateStride(x: Stride) returns (entry: Entry, gap: nat, recoveryTimeS: real)
      requires Valid()
      modifies this, hist
      ensures Valid() && log == old(log) + [x]
      ensures entry == EntryAt(cfg, log, |log| - 1) && gap == Gap(log, |log| - 1)
      ensures recoveryTimeS == if Streak(cfg, log, |log|) == cfg.recoveryClearCount
                                 then cfg.recoveryClearCount as real * x.latencyS else -1.0
    {
      hide EntryAt, Streak, CountsAfter, Summarised, Window, Slot, Gap;
      var n := hist.Length;
      entry, gap, recoveryTimeS := Classify(x);
      Store(entry, x);
      ghost var r := log + [x];
      var validLen := totalStrides + 1;
      if validLen > n { validLen := n; }
      ghost var a, b := SlotsAreWindow(r);
      SummariesSwap(a, b);
      summary := Summarise(validLen);
      SlotNext(|log|, n);
      writeIdx := (writeIdx + 1) % n;
      prevSeq := x.seqIdx;
      totalStrides := totalStrides + 1;
      log := r;
    }
  }

  lemma SummariesSwap(a: seq<Entry>, b: seq<Entry>)
    ensures |a + b| > 0 ==> Summarised(a + b) == Summarised(b + a)
  {
    Swapped(DriftOf, a, b);
    Swapped(AbsDriftOf, a, b);
    Swapped(LatencyOf, a, b);
    Swapped(NullOf, a, b);
  }
}

/**
 * internal/emos/rules.go: the detectors over a connection's samples. The four sustained rules (packet loss, RTT,
 * jitter, audio concealment) are one loop over different columns; the video freeze rule is the same scan over
 * consecutive differences; the spike and bitrate rules look at one sample or a pair.
 */
module Rules {
  import opened Common

  /** Samples lo up to, not including, hi. */
  datatype Run = Run(lo: nat, hi: nat)

  /** hot[i] says that sample i is above the threshold. A maximal run cannot be extended either way. */
  ghost predicate Maximal(hot: seq<bool>, r: Run) {
    && r.lo < r.hi <= |hot|
    && (forall i | r.lo <= i < r.hi :: hot[i])
    && (r.lo == 0 || !hot[r.lo - 1])
    && (r.hi == |hot| || !hot[r.hi])
  }

  ghost predicate InOrder(runs: seq<Run>) {
    && (forall i | 0 <= i < |runs| :: runs[i].lo < runs[i].hi)
    && (forall i, j | 0 <= i < j < |runs| :: runs[i].hi < runs[j].lo)
  }

  /** runs lists exactly the maximal runs of at least minSamples samples, in order and disjoint. */
  ghost predicate ExactlyRuns(runs: seq<Run>, hot: seq<bool>, minSamples: int) {
    && InOrder(runs)
    && (forall i | 0 <= i < |runs| :: Maximal(hot, runs[i]) && runs[i].hi - runs[i].lo >= minSamples)
    && (forall r | Maximal(hot, r) && r.hi - r.lo >= minSamples :: r in runs)
  }

  // ----- the scan --------------------------------------------------------------------

  /** One appended observation: the samples it averages and the count it reports. */
  datatype Report = Report(run: Run, count: int)

  ghost function RunsOf(reports: seq<Report>): seq<Run> {
    seq(|reports|, i requires 0 <= i < |reports| => reports[i].run)
  }

  /** The reports describe exactly the maximal runs, with correct counts. */
  ghost predicate Exact(reports: seq<Report>, hot: seq<bool>, minSamples: int) {
    && ExactlyRuns(RunsOf(reports), hot, minSamples)
    && forall i | 0 <= i < |reports| :: reports[i].count == reports[i].run.hi - reports[i].run.lo
  }

  /** No two adjacent samples among the first n are below the threshold. */
  ghost predicate ColdsApart(hot: seq<bool>, n: nat)
    requires n <= |hot|
  {
    forall i | 0 < i < n :: hot[i - 1] || hot[i]
  }

  /** consecutive after i samples: the run in progress, if any. */
  ghost predicate Current(hot: seq<bool>, i: nat, start: nat, count: nat)
    requires i <= |hot|
  {
    && (if i == 0 then start == 0 else start < i)
    && (count == 0 ==> i == 0 || !hot[i - 1])
    && (count > 0 ==>
          && start + count == i && (forall k | start <= k < i :: hot[k])
          && (start == 0 || !hot[start - 1]))
  }

  /** The reports so far are exact for the runs that ended before sample i. */
  ghost predicate ExactBefore(reports: seq<Report>, hot: seq<bool>, minSamples: int, i: nat)
    requires i <= |hot|
  {
    && InOrder(RunsOf(reports))
    && (forall k | 0 <= k < |reports| ::
          && Maximal(hot, reports[k].run) && reports[k].run.hi < i
          && reports[k].count == reports[k].run.hi - reports[k].run.lo >= minSamples)
    && (forall r | Maximal(hot, r) && r.hi < i && r.hi - r.lo >= minSamples :: r in RunsOf(reports))
  }

  /**
   * What the loop maintains. With minSamples below one, an empty streak also passes the length test,
   * so two adjacent cold samples leave a report of count zero behind.
   */
  ghost predicate Scan(reports: seq<Report>, hot: seq<bool>, minSamples: int, i: nat, start: nat, count: nat)
    requires i <= |hot|
  {
    && Current(hot, i, start, count)
    && (forall k | 0 <= k < |reports| :: reports[k].run.lo < reports[k].run.hi <= |hot|)
    && (if minSamples >= 1 || ColdsApart(hot, i) then ExactBefore(reports, hot, minSamples, i)
        else exists k :: 0 <= k < |reports| && reports[k].count == 0)
  }

  lemma {:induction false} ScanHot(reports: seq<Report>, hot: seq<bool>, minSamples: int, i: nat, start: nat, count: nat)
    requires i < |hot| && hot[i] && Scan(reports, hot, minSamples, i, start, count)
    ensures Scan(reports, hot, minSamples, i + 1, if count == 0 then i else start, count + 1)
  {
  }

  /** What is appended when a streak ends before sample i, or at the end of input. */
  function Close(reports: seq<Report>, minSamples: int, i: nat, start: nat, count: nat): seq<Report> {
    if count >= minSamples then reports + [Report(Run(start, i), count)] else reports
  }

  /** How many hot samples stand directly before sample i. */
  ghost function Trailing(hot: seq<bool>, i: nat): (count: nat)
    requires i <= |hot|
    ensures count <= i
  {
    if i == 0 || !hot[i - 1] then 0 else Trailing(hot, i - 1) + 1
  }

  /** Where the last hot stretch that begins before sample i begins, 0 for none. */
  ghost function LastStart(hot: seq<bool>, i: nat): (start: nat)
    requires i <= |hot|
    ensures start < i || start == i == 0
  {
    if Trailing(hot, i) > 0 then i - Trailing(hot, i)
    else if i <= 1 then 0
    else LastStart(hot, i - 1)
  }

  /** What is reported at the cold samples before i, and at the end of input for i == |hot| + 1. */
  ghost function Closings(hot: seq<bool>, minSamples: int, i: nat): seq<Report>
    requires i <= |hot| + 1
  {
    if i == 0 then []
    else
      var before := Closings(hot, minSamples, i - 1);
      if i - 1 < |hot| && hot[i - 1] then before
      else Close(before, minSamples, i - 1, LastStart(hot, i - 1), Trailing(hot, i - 1))
  }

  lemma {:induction false} CloseGenuine(reports: seq<Report>, hot: seq<bool>, minSamples: int, i: nat, start: nat, count: nat)
    requires i <= |hot| && (i == |hot| || !hot[i]) && Current(hot, i, start, count)
    requires count > 0 && count >= minSamples && ExactBefore(reports, hot, minSamples, i)
    ensures ExactBeforeOrAt(Close(reports, minSamples, i, start, count), hot, minSamples, i)
  {
    var reports' := Close(reports, minSamples, i, start, count);
    assert Maximal(hot, Run(start, i));
    assert RunsOf(reports') == RunsOf(reports) + [Run(start, i)];
    CloseInOrder(reports, hot, minSamples, i, start, count);
    forall r | Maximal(hot, r) && r.hi <= i && r.hi - r.lo >= minSamples ensures r in RunsOf(reports') {
      CloseFinds(reports, hot, minSamples, i, start, count, r);
    }
  }

  lemma {:induction false} CloseInOrder(reports: seq<Report>, hot: seq<bool>, minSamples: int, i: nat, start: nat, count: nat)
    requires i <= |hot| && Current(hot, i, start, count) && count > 0 && ExactBefore(reports, hot, minSamples, i)
    ensures InOrder(RunsOf(reports) + [Run(start, i)])
  {
  }

  lemma {:induction false} CloseFinds(reports: seq<Report>, hot: seq<bool>, minSamples: int, i: nat, start: nat, count: nat, r: Run)
    requires i <= |hot| && (i == |hot| || !hot[i]) && Current(hot, i, start, count)
    requires count >= minSamples && ExactBefore(reports, hot, minSamples, i)
    requires Maximal(hot, r) && r.hi <= i && r.hi - r.lo >= minSamples
    ensures r in RunsOf(reports) + [Run(start, i)]
  {
  }

  /** As ExactBefore, with the runs that end exactly before sample i included. */
  ghost predicate ExactBeforeOrAt(reports: seq<Report>, hot: seq<bool>, minSamples: int, i: nat)
    requires i <= |hot|
  {
    && InOrder(RunsOf(reports))
    && (forall k | 0 <= k < |reports| ::
          && Maximal(hot, reports[k].run) && reports[k].run.hi <= i
          && reports[k].count == reports[k].run.hi - reports[k].run.lo >= minSamples)
    && (forall r | Maximal(hot, r) && r.hi <= i && r.hi - r.lo >= minSamples :: r in RunsOf(reports))
  }

  lemma {:induction false} CloseShort(reports: seq<Report>, hot: seq<bool>, minSamples: int, i: nat, start: nat, count: nat)
    requires i <= |hot| && (i == |hot| || !hot[i]) && Current(hot, i, start, count)
    requires count < minSamples && ExactBefore(reports, hot, minSamples, i)
    ensures ExactBeforeOrAt(reports, hot, minSamples, i)
  {
  }

  lemma {:induction false} ScanCold(reports: seq<Report>, hot: seq<bool>, minSamples: int, i: nat, start: nat, count: nat)
    requires i < |hot| && !hot[i] && Scan(reports, hot, minSamples, i, start, count)
    requires count >= minSamples ==> i > 0
    ensures Scan(Close(reports, minSamples, i, start, count), hot, minSamples, i + 1, start, 0)
  {
    var reports' := Close(reports, minSamples, i, start, count);
    var good := minSamples >= 1 || ColdsApart(hot, i);
    if good && count < minSamples {
      CloseShort(reports, hot, minSamples, i, start, count);
    } else if good && count > 0 {
      CloseGenuine(reports, hot, minSamples, i, start, count);
      assert ColdsApart(hot, i) ==> ColdsApart(hot, i + 1);
    } else if count >= minSamples && count == 0 {
      assert !hot[i - 1] && !ColdsApart(hot, i + 1);
      assert reports'[|reports|].count == 0;
    } else {
      var k :| 0 <= k < |reports| && reports[k].count == 0;
      assert reports'[k].count == 0;
      assert !ColdsApart(hot, i + 1);
    }
  }

  /** After the last sample: exact when minSamples is at least one; otherwise unless an empty streak was closed. */
  lemma {:induction false} ScanEnd(reports: seq<Report>, hot: seq<bool>, minSamples: int, start: nat, count: nat)
    requires Scan(reports, hot, minSamples, |hot|, start, count)
    requires count >= minSamples ==> hot != []
    ensures NeverEmptyStreak(hot, minSamples) ==> Exact(Close(reports, minSamples, |hot|, start, count), hot, minSamples)
    ensures !NeverEmptyStreak(hot, minSamples) ==> HasEmpty(Close(reports, minSamples, |hot|, start, count))
  {
    var n := |hot|;
    var reports' := Close(reports, minSamples, n, start, count);
    if NeverEmptyStreak(hot, minSamples) {
      if count >= minSamples {
        CloseGenuine(reports, hot, minSamples, n, start, count);
      } else {
        CloseShort(reports, hot, minSamples, n, start, count);
      }
      ExactAtEnd(reports', hot, minSamples);
    } else if !ColdsApart(hot, n) {
      var k :| 0 <= k < |reports| && reports[k].count == 0;
      assert reports'[k].count == 0;
    } else {
      assert reports'[|reports|].count == 0;
    }
  }

  /** Before sample i the list of closings is what the scan has left. */
  ghost predicate ScanOf(hot: seq<bool>, minSamples: int, i: nat)
    requires i <= |hot|
  {
    Scan(Closings(hot, minSamples, i), hot, minSamples, i, LastStart(hot, i), Trailing(hot, i))
  }

  lemma {:induction false} ScanNext(hot: seq<bool>, minSamples: int, i: nat)
    requires 0 < i <= |hot| && ScanOf(hot, minSamples, i - 1)
    requires i == 1 && minSamples < 1 ==> hot[0]
    ensures ScanOf(hot, minSamples, i)
  {
    NextStart(hot, i);
    if hot[i - 1] {
      ScanNextHot(hot, minSamples, i);
    } else {
      ScanCold(Closings(hot, minSamples, i - 1), hot, minSamples, i - 1, LastStart(hot, i - 1), Trailing(hot, i - 1));
    }
  }

  lemma {:induction false} ScanNextHot(hot: seq<bool>, minSamples: int, i: nat)
    requires 0 < i <= |hot| && ScanOf(hot, minSamples, i - 1) && hot[i - 1]
    ensures ScanOf(hot, minSamples, i)
  {
    NextStart(hot, i);
    ScanHot(Closings(hot, minSamples, i - 1), hot, minSamples, i - 1, LastStart(hot, i - 1), Trailing(hot, i - 1));
  }

  lemma {:induction false} ScanFirst(hot: seq<bool>, minSamples: int)
    ensures ScanOf(hot, minSamples, 0)
  {
    assert Closings(hot, minSamples, 0) == [] && RunsOf([]) == [];
  }

  lemma {:induction false} ScanAlways(hot: seq<bool>, minSamples: int, i: nat)
    requires i <= |hot| && (minSamples < 1 ==> hot != [] && hot[0])
    ensures ScanOf(hot, minSamples, i)
  {
    if i == 0 {
      ScanFirst(hot, minSamples);
    } else {
      ScanAlways(hot, minSamples, i - 1);
      ScanNext(hot, minSamples, i);
    }
  }

  /** One sample further: a hot one starts or lengthens a stretch, a cold one ends it. */
  lemma {:induction false} NextStart(hot: seq<bool>, i: nat)
    requires 0 < i <= |hot|
    ensures Trailing(hot, i) == if hot[i - 1] then Trailing(hot, i - 1) + 1 else 0
    ensures LastStart(hot, i) == if hot[i - 1] && Trailing(hot, i - 1) == 0 then i - 1 else LastStart(hot, i - 1)
  {
  }

  /** Without a hot first sample, a minSamples below one reports an empty streak before the first sample. */
  lemma {:induction false} FirstClosing(hot: seq<bool>, minSamples: int, i: nat)
    requires 0 < i <= |hot| + 1 && minSamples < 1 && (hot == [] || !hot[0])
    ensures Closings(hot, minSamples, i) != [] && Closings(hot, minSamples, i)[0] == Report(Run(0, 0), 0)
  {
    if i > 1 {
      FirstClosing(hot, minSamples, i - 1);
    }
  }

  /** Earlier closings stay where they are. */
  lemma {:induction false} ClosingsStay(hot: seq<bool>, minSamples: int, i: nat, n: nat)
    requires i <= n <= |hot| + 1
    ensures Closings(hot, minSamples, i) <= Closings(hot, minSamples, n)
  {
    if i < n {
      ClosingsStay(hot, minSamples, i, n - 1);
    }
  }

  lemma {:induction false} ClosingsExact(hot: seq<bool>, minSamples: int)
    requires minSamples < 1 ==> hot != [] && hot[0]
    ensures NeverEmptyStreak(hot, minSamples) ==> Exact(Closings(hot, minSamples, |hot| + 1), hot, minSamples)
    ensures !NeverEmptyStreak(hot, minSamples) ==> HasEmpty(Closings(hot, minSamples, |hot| + 1))
  {
    ScanAlways(hot, minSamples, |hot|);
    ScanEnd(Closings(hot, minSamples, |hot|), hot, minSamples, LastStart(hot, |hot|), Trailing(hot, |hot|));
  }

  /** No empty streak can pass the length test: either minSamples forbids it, or every cold sample ends a run. */
  ghost predicate NeverEmptyStreak(hot: seq<bool>, minSamples: int) {
    minSamples >= 1 || (hot != [] && ColdsApart(hot, |hot|) && hot[|hot| - 1])
  }

  ghost predicate HasEmpty(reports: seq<Report>) {
    exists k :: 0 <= k < |reports| && reports[k].count == 0
  }

  lemma {:induction false} ExactAtEnd(reports: seq<Report>, hot: seq<bool>, minSamples: int)
    requires ExactBeforeOrAt(reports, hot, minSamples, |hot|)
    ensures Exact(reports, hot, minSamples)
  {
  }

  // ----- int32 arithmetic ------------------------------------------------------------

  type int32 = x: int | -0x8000_0000 <= x < 0x8000_0000

  /** Two's-complement wrap-around. */
  function Wrap32(x: int): (r: int32)
    ensures -0x8000_0000 <= x < 0x8000_0000 ==> r == x
  {
    (x + 0x8000_0000) % 0x1_0000_0000 - 0x8000_0000
  }

  /** Go's integer division: truncated toward zero. */
  function TruncDiv(a: int, b: int): (q: int)
    requires b != 0
    ensures b > 0 && a >= 0 ==> q * b <= a < (q + 1) * b
    ensures b > 0 && a < 0 ==> (q - 1) * b < a <= q * b
  {
    if a >= 0 then a / b else -((-a) / b)
  }

  /** Go's conversion of a float to an integer: truncated toward zero. */
  function Trunc(x: real): (r: int)
    ensures if x >= 0.0 then r as real <= x < (r + 1) as real else (r - 1) as real < x <= r as real
  {
    if x >= 0.0 then x.Floor else -((-x).Floor)
  }

  lemma {:induction false} WrapIsCongruent(x: int, k: int)
    requires k == (x + 0x8000_0000) / 0x1_0000_0000
    ensures Wrap32(x) == x - k * 0x1_0000_0000
  {
  }

  lemma {:induction false} WrapAdds(a: int, b: int)
    ensures Wrap32(Wrap32(a) + b) == Wrap32(a + b)
  {
  }

  // ----- rows, rules and averages ----------------------------------------------------

  datatype StatRow = StatRow(timestamp: int, packetLossRatio: real, rtt: int32, jitter: int32,
                             videoFreezeCount: int, audioConcealmentRatio: real, outboundBitrate: int)

  /** The four sustained rules. */
  datatype Rule = PacketLossSustained | RttHigh | JitterHigh | AudioConcealmentHigh

  predicate InMillis(rule: Rule) {
    rule.RttHigh? || rule.JitterHigh?
  }

  function Millis(rule: Rule, row: StatRow): int32
    requires InMillis(rule)
  {
    if rule.RttHigh? then row.rtt else row.jitter
  }

  /** The column a rule looks at. */
  function Value(rule: Rule, row: StatRow): real {
    match rule
    case PacketLossSustained => row.packetLossRatio
    case AudioConcealmentHigh => row.audioConcealmentRatio
    case _ => Millis(rule, row) as real
  }

  /** A configured threshold is a JSON value; only numbers are used. */
  datatype Setting = Number(value: real) | NotANumber

  function FloatThreshold(thresholds: map<string, Setting>, key: string, fallback: real): real {
    if key in thresholds && thresholds[key].Number? then thresholds[key].value else fallback
  }

  function ThresholdOf(rule: Rule, thresholds: map<string, Setting>): real {
    match rule
    case PacketLossSustained => FloatThreshold(thresholds, "packet_loss_sustained.threshold", 0.05)
    case RttHigh => Trunc(FloatThreshold(thresholds, "rtt_high.threshold", 300.0)) as real
    case JitterHigh => Trunc(FloatThreshold(thresholds, "jitter_high.threshold", 50.0)) as real
    case AudioConcealmentHigh => FloatThreshold(thresholds, "audio_concealment_high.threshold", 0.10)
  }

  function MinSamplesOf(rule: Rule, thresholds: map<string, Setting>): int {
    match rule
    case PacketLossSustained => Trunc(FloatThreshold(thresholds, "packet_loss_sustained.min_samples", 3.0))
    case RttHigh => Trunc(FloatThreshold(thresholds, "rtt_high.min_samples", 2.0))
    case JitterHigh => Trunc(FloatThreshold(thresholds, "jitter_high.min_samples", 3.0))
    case AudioConcealmentHigh => Trunc(FloatThreshold(thresholds, "audio_concealment_high.min_samples", 3.0))
  }

  /** A configured number counts, truncated for milliseconds and sample counts; anything else that is configured does not. */
  lemma {:induction false} SettingsCount(thresholds: map<string, Setting>, v: real, other: string, setting: Setting)
    ensures ThresholdOf(PacketLossSustained, thresholds["packet_loss_sustained.threshold" := Number(v)]) == v
    ensures ThresholdOf(RttHigh, thresholds["rtt_high.threshold" := Number(v)]) == Trunc(v) as real
    ensures ThresholdOf(JitterHigh, thresholds["jitter_high.threshold" := Number(v)]) == Trunc(v) as real
    ensures ThresholdOf(AudioConcealmentHigh, thresholds["audio_concealment_high.threshold" := Number(v)]) == v
    ensures MinSamplesOf(PacketLossSustained, thresholds["packet_loss_sustained.min_samples" := Number(v)]) == Trunc(v)
    ensures MinSamplesOf(RttHigh, thresholds["rtt_high.min_samples" := Number(v)]) == Trunc(v)
    ensures MinSamplesOf(JitterHigh, thresholds["jitter_high.min_samples" := Number(v)]) == Trunc(v)
    ensures MinSamplesOf(AudioConcealmentHigh, thresholds["audio_concealment_high.min_samples" := Number(v)]) == Trunc(v)
    ensures setting.NotANumber? ==> FloatThreshold(thresholds[other := setting], other, v) == v
    ensures FloatThreshold(map[other := Number(v)], other, v + 1.0) == v
  {
  }

  ghost function Hot(rule: Rule, rows: seq<StatRow>, threshold: real): seq<bool> {
    seq(|rows|, i requires 0 <= i < |rows| => Value(rule, rows[i]) > threshold)
  }

  ghost function Sum(rule: Rule, rows: seq<StatRow>): real {
    if rows == [] then 0.0 else Sum(rule, rows[..|rows| - 1]) + Value(rule, rows[|rows| - 1])
  }

  ghost function MillisSum(rule: Rule, rows: seq<StatRow>): int
    requires InMillis(rule)
  {
    if rows == [] then 0 else MillisSum(rule, rows[..|rows| - 1]) + Millis(rule, rows[|rows| - 1])
  }

  /** The int32 average, on the true sum: None is a division by zero, when the length itself wraps to zero. */
  ghost function MillisAverage(rule: Rule, rows: seq<StatRow>): Option<int32>
    requires InMillis(rule)
  {
    if rows == [] then Some(0)
    else if Wrap32(|rows|) == 0 then None
    else Some(Wrap32(TruncDiv(Wrap32(MillisSum(rule, rows)), Wrap32(|rows|))))
  }

  ghost function Average(rule: Rule, rows: seq<StatRow>): Option<real> {
    if InMillis(rule) then
      match MillisAverage(rule, rows)
      case None => None
      case Some(ms) => Some(ms as real)
    else Some(if rows == [] then 0.0 else Sum(rule, rows) / |rows| as real)
  }

  /** averageRTT and averageJitter. */
  method AverageMillis(rule: Rule, rows: seq<StatRow>) returns (average: Option<int32>)
    requires InMillis(rule)
    ensures average == MillisAverage(rule, rows)
  {
    if |rows| == 0 {
      return Some(0);
    }
    var sum: int32 := 0;
    for i := 0 to |rows|
      invariant sum == Wrap32(MillisSum(rule, rows[..i]))
    {
      assert rows[..i + 1][..i] == rows[..i];
      WrapAdds(MillisSum(rule, rows[..i]), Millis(rule, rows[i]));
      sum := Wrap32(sum + Millis(rule, rows[i]));
    }
    assert rows[..|rows|] == rows;
    if Wrap32(|rows|) == 0 {
      return None;
    }
    return Some(Wrap32(TruncDiv(sum, Wrap32(|rows|))));
  }

  /** averagePacketLoss and averageAudioConcealment. */
  method AverageRatio(rule: Rule, rows: seq<StatRow>) returns (average: real)
    requires !InMillis(rule)
    ensures Average(rule, rows) == Some(average) && average * |rows| as real == Sum(rule, rows)
  {
    if |rows| == 0 {
      return 0.0;
    }
    var sum := 0.0;
    for i := 0 to |rows|
      invariant sum == Sum(rule, rows[..i])
    {
      assert rows[..i + 1][..i] == rows[..i];
      sum := sum + Value(rule, rows[i]);
    }
    assert rows[..|rows|] == rows;
    return sum / |rows| as real;
  }

  method AverageOf(rule: Rule, rows: seq<StatRow>) returns (average: Option<real>)
    ensures average == Average(rule, rows)
  {
    if InMillis(rule) {
      var ms := AverageMillis(rule, rows);
      average := match ms case None => None case Some(m) => Some(m as real);
    } else {
      var ratio := AverageRatio(rule, rows);
      average := Some(ratio);
    }
  }

  // ----- the sustained rules ---------------------------------------------------------

  datatype Observation = Observation(startTs: int, endTs: int, average: real, sampleCount: int)

  ghost predicate Tells(o: Observation, rule: Rule, rows: seq<StatRow>, report: Report) {
    && report.run.lo < report.run.hi <= |rows|
    && o.startTs == rows[report.run.lo].timestamp
    && o.endTs == rows[report.run.hi - 1].timestamp
    && o.sampleCount == report.count
    && Average(rule, rows[report.run.lo..report.run.hi]) == Some(o.average)
  }

  ghost predicate Told(observations: seq<Observation>, rule: Rule, rows: seq<StatRow>, reports: seq<Report>) {
    && |observations| == |reports|
    && forall k | 0 <= k < |observations| :: Tells(observations[k], rule, rows, reports[k])
  }

  /**
   * The observations are exactly the maximal runs above the threshold of at least minSamples samples, in
   * order, each with its first and last timestamp, its length and its average.
   */
  ghost predicate ExactlyObserved(observations: seq<Observation>, rule: Rule, rows: seq<StatRow>,
                                  threshold: real, minSamples: int) {
    exists reports :: Told(observations, rule, rows, reports) && Exact(reports, Hot(rule, rows, threshold), minSamples)
  }

  lemma {:induction false} EmptyIsNotExact(observations: seq<Observation>, rule: Rule, rows: seq<StatRow>,
                                           threshold: real, minSamples: int, reports: seq<Report>)
    requires Told(observations, rule, rows, reports) && HasEmpty(reports)
    ensures !ExactlyObserved(observations, rule, rows, threshold, minSamples)
  {
  }

  /** The reports of a rule: one for every cold sample, and the end of input, that ends a long enough streak. */
  ghost function ReportsOf(rule: Rule, rows: seq<StatRow>, threshold: real, minSamples: int): seq<Report> {
    Closings(Hot(rule, rows, threshold), minSamples, |rows| + 1)
  }

  /** A report that cannot be told: rows[-1], or a division by a length that wraps to zero. */
  ghost predicate Untellable(report: Report, rule: Rule, rows: seq<StatRow>) {
    report.run.hi == 0 || (report.run.lo <= report.run.hi <= |rows| && Average(rule, rows[report.run.lo..report.run.hi]).None?)
  }

  ghost predicate Panics(rule: Rule, rows: seq<StatRow>, threshold: real, minSamples: int) {
    var reports := ReportsOf(rule, rows, threshold, minSamples);
    exists k :: 0 <= k < |reports| && Untellable(reports[k], rule, rows)
  }

  /**
   * What a sustained rule does (None is a panic), for every minSamples: it panics exactly when one of its
   * reports cannot be told, and otherwise tells them all.
   */
  ghost predicate Evaluated(result: Option<seq<Observation>>, rule: Rule, rows: seq<StatRow>, threshold: real, minSamples: int) {
    && (result.None? <==> Panics(rule, rows, threshold, minSamples))
    && (result.Some? ==> Told(result.value, rule, rows, ReportsOf(rule, rows, threshold, minSamples)))
  }

  /** The observation for rows[start..end]; None when an index or the average panics. */
  method Observe(rule: Rule, rows: seq<StatRow>, start: nat, end: nat, count: nat) returns (o: Option<Observation>)
    requires start < end <= |rows| || start == end == 0
    ensures o.Some? ==> Tells(o.value, rule, rows, Report(Run(start, end), count))
    ensures o.None? <==> Untellable(Report(Run(start, end), count), rule, rows)
  {
    if end == 0 {
      return None;
    }
    var average := AverageOf(rule, rows[start..end]);
    if average.None? {
      return None;
    }
    return Some(Observation(rows[start].timestamp, rows[end - 1].timestamp, average.value, count));
  }

  /** Appends the observation of a streak that is long enough; None is a panic. */
  method CloseStreak(observations: seq<Observation>, ghost reports: seq<Report>, rule: Rule, rows: seq<StatRow>,
                     minSamples: int, i: nat, start: nat, count: nat)
    returns (result: Option<seq<Observation>>)
    requires Told(observations, rule, rows, reports)
    requires start < i <= |rows| || start == i == 0
    ensures result.Some? ==> Told(result.value, rule, rows, Close(reports, minSamples, i, start, count))
    ensures result.None? ==> count >= minSamples && Untellable(Report(Run(start, i), count), rule, rows)
  {
    if count < minSamples {
      return Some(observations);
    }
    var o := Observe(rule, rows, start, i, count);
    if o.None? {
      return None;
    }
    return Some(observations + [o.value]);
  }

  /** The rule with the thresholds the caller configured. */
  method EvaluateConfigured(rule: Rule, rows: seq<StatRow>, thresholds: map<string, Setting>)
    returns (result: Option<seq<Observation>>)
    ensures Evaluated(result, rule, rows, ThresholdOf(rule, thresholds), MinSamplesOf(rule, thresholds))
  {
    result := Evaluate(rule, rows, ThresholdOf(rule, thresholds), MinSamplesOf(rule, thresholds));
  }

  /** The loop shared by the four sustained rules. */
  method Evaluate(rule: Rule, rows: seq<StatRow>, threshold: real, minSamples: int)
    returns (result: Option<seq<Observation>>)
    ensures Evaluated(result, rule, rows, threshold, minSamples)
  {
    ghost var hot := Hot(rule, rows, threshold);
    var observations: seq<Observation> := [];
    var start: nat, count: nat := 0, 0;
    for i := 0 to |rows|
      invariant start == LastStart(hot, i) && count == Trailing(hot, i)
      invariant Told(observations, rule, rows, Closings(hot, minSamples, i))
    {
      NextStart(hot, i + 1);
      if Value(rule, rows[i]) > threshold {
        if count == 0 {
          start := i;
        }
        count := count + 1;
      } else {
        var closed := CloseStreak(observations, Closings(hot, minSamples, i), rule, rows, minSamples, i, start, count);
        if closed.None? {
          ClosingPanics(rule, rows, threshold, minSamples, i);
          return None;
        }
        observations := closed.value;
        count := 0;
      }
    }
    result := CloseStreak(observations, Closings(hot, minSamples, |rows|), rule, rows, minSamples, |rows|, start, count);
    if result.None? {
      ClosingPanics(rule, rows, threshold, minSamples, |rows|);
    } else {
      ToldAll(result.value, rule, rows, threshold, minSamples);
    }
  }

  lemma {:induction false} ClosingPanics(rule: Rule, rows: seq<StatRow>, threshold: real, minSamples: int, i: nat)
    requires i <= |rows| && (i < |rows| ==> Value(rule, rows[i]) <= threshold)
    requires var hot := Hot(rule, rows, threshold);
      Trailing(hot, i) >= minSamples && Untellable(Report(Run(LastStart(hot, i), i), Trailing(hot, i)), rule, rows)
    ensures Panics(rule, rows, threshold, minSamples)
  {
    var hot := Hot(rule, rows, threshold);
    ClosingsStay(hot, minSamples, i + 1, |rows| + 1);
    var k := |Closings(hot, minSamples, i)|;
    assert ReportsOf(rule, rows, threshold, minSamples)[k] == Report(Run(LastStart(hot, i), i), Trailing(hot, i));
  }

  lemma {:induction false} ToldAll(observations: seq<Observation>, rule: Rule, rows: seq<StatRow>, threshold: real, minSamples: int)
    requires Told(observations, rule, rows, ReportsOf(rule, rows, threshold, minSamples))
    ensures !Panics(rule, rows, threshold, minSamples)
  {
    forall k | 0 <= k < |observations| ensures !Untellable(ReportsOf(rule, rows, threshold, minSamples)[k], rule, rows) {
      assert Tells(observations[k], rule, rows, ReportsOf(rule, rows, threshold, minSamples)[k]);
    }
  }

  // ----- what the settings mean ------------------------------------------------------

  /** With fewer than 2^32 rows a rule panics exactly when minSamples is below one and there is no hot first row. */
  lemma {:induction false} PanicsExactlyWhen(rule: Rule, rows: seq<StatRow>, threshold: real, minSamples: int)
    requires |rows| < 0x1_0000_0000
    ensures Panics(rule, rows, threshold, minSamples) <==> minSamples < 1 && (rows == [] || Value(rule, rows[0]) <= threshold)
  {
    var hot := Hot(rule, rows, threshold);
    if minSamples < 1 && (rows == [] || Value(rule, rows[0]) <= threshold) {
      FirstClosing(hot, minSamples, |rows| + 1);
      assert Untellable(ReportsOf(rule, rows, threshold, minSamples)[0], rule, rows);
    } else {
      ScanAlways(hot, minSamples, |rows|);
      var reports := ReportsOf(rule, rows, threshold, minSamples);
      forall k | 0 <= k < |reports| ensures !Untellable(reports[k], rule, rows) {
        ShortIsTold(reports[k], rule, rows);
      }
    }
  }

  lemma {:induction false} ShortIsTold(report: Report, rule: Rule, rows: seq<StatRow>)
    requires |rows| < 0x1_0000_0000 && report.run.lo < report.run.hi <= |rows|
    ensures !Untellable(report, rule, rows)
  {
    assert Wrap32(report.run.hi - report.run.lo) != 0;
  }

  lemma {:induction false} ToldStartsHot(observations: seq<Observation>, rule: Rule, rows: seq<StatRow>, threshold: real, minSamples: int)
    requires Told(observations, rule, rows, ReportsOf(rule, rows, threshold, minSamples)) && minSamples < 1
    ensures rows != [] && Value(rule, rows[0]) > threshold
  {
    if rows == [] || Value(rule, rows[0]) <= threshold {
      FirstClosing(Hot(rule, rows, threshold), minSamples, |rows| + 1);
    }
  }

  /** What a rule tells is exact unless minSamples below one lets it report an empty streak. */
  lemma {:induction false} ExactlyWhenNoEmptyStreak(observations: seq<Observation>, rule: Rule, rows: seq<StatRow>,
                                                    threshold: real, minSamples: int)
    requires Told(observations, rule, rows, ReportsOf(rule, rows, threshold, minSamples))
    ensures ExactlyObserved(observations, rule, rows, threshold, minSamples)
       <==> NeverEmptyStreak(Hot(rule, rows, threshold), minSamples)
  {
    var hot := Hot(rule, rows, threshold);
    var reports := ReportsOf(rule, rows, threshold, minSamples);
    if minSamples < 1 {
      ToldStartsHot(observations, rule, rows, threshold, minSamples);
    }
    ClosingsExact(hot, minSamples);
    if !NeverEmptyStreak(hot, minSamples) {
      EmptyIsNotExact(observations, rule, rows, threshold, minSamples, reports);
    }
  }

  /** Samples and settings determine the observations, sensible or not. */
  lemma {:induction false} EvaluatedUnique(a: Option<seq<Observation>>, b: Option<seq<Observation>>, rule: Rule, rows: seq<StatRow>,
                                           threshold: real, minSamples: int)
    requires Evaluated(a, rule, rows, threshold, minSamples) && Evaluated(b, rule, rows, threshold, minSamples)
    ensures a == b
  {
    if a.Some? {
      ToldUnique(a.value, b.value, rule, rows, ReportsOf(rule, rows, threshold, minSamples));
    }
  }

  // ----- each rule on its own column -------------------------------------------------

  /** The observation tells of these samples and of no others. */
  ghost predicate About(o: Observation, rule: Rule, rows: seq<StatRow>, r: Run) {
    && r.lo < r.hi <= |rows| && o.sampleCount == r.hi - r.lo && Average(rule, rows[r.lo..r.hi]) == Some(o.average)
    && o.startTs == rows[r.lo].timestamp && o.endTs == rows[r.hi - 1].timestamp
  }

  ghost predicate Covered(runs: seq<Run>, k: nat) {
    exists j :: 0 <= j < |runs| && runs[j].lo <= k < runs[j].hi
  }

  /** Sample k stands among minSamples samples in a row that are above. */
  ghost predicate InStretch(above: seq<bool>, minSamples: int, k: nat) {
    exists r: Run :: r.lo <= k < r.hi <= |above| && r.hi - r.lo >= minSamples && forall m | r.lo <= m < r.hi :: above[m]
  }

  /** The runs hold exactly the samples of long enough stretches. */
  ghost predicate HoldStretches(runs: seq<Run>, above: seq<bool>, minSamples: int) {
    forall k | 0 <= k < |above| :: Covered(runs, k) <==> InStretch(above, minSamples, k)
  }

  lemma {:induction false} RunsHoldStretches(runs: seq<Run>, above: seq<bool>, minSamples: int)
    requires ExactlyRuns(runs, above, minSamples)
    ensures HoldStretches(runs, above, minSamples)
  {
    forall k: nat | k < |above| ensures Covered(runs, k) <==> InStretch(above, minSamples, k) {
      CoveredExactlyWhen(runs, above, minSamples, k);
    }
  }

  lemma {:induction false} CoveredExactlyWhen(runs: seq<Run>, above: seq<bool>, minSamples: int, k: nat)
    requires ExactlyRuns(runs, above, minSamples) && k < |above|
    ensures Covered(runs, k) <==> InStretch(above, minSamples, k)
  {
    if Covered(runs, k) {
      var j :| 0 <= j < |runs| && runs[j].lo <= k < runs[j].hi;
      assert Maximal(above, runs[j]);
    }
    if InStretch(above, minSamples, k) {
      StretchIsCovered(runs, above, minSamples, k);
    }
  }

  lemma {:induction false} StretchIsCovered(runs: seq<Run>, above: seq<bool>, minSamples: int, k: nat)
    requires ExactlyRuns(runs, above, minSamples) && k < |above| && InStretch(above, minSamples, k)
    ensures Covered(runs, k)
  {
    var s: Run :| s.lo <= k < s.hi <= |above| && s.hi - s.lo >= minSamples && forall m | s.lo <= m < s.hi :: above[m];
    MaximalAround(above, s, k);
    var r := Run(Left(above, k), Right(above, k));
    assert r in runs;
  }

  lemma {:induction false} MaximalAround(above: seq<bool>, s: Run, k: nat)
    requires s.lo <= k < s.hi <= |above| && forall m | s.lo <= m < s.hi :: above[m]
    ensures above[k]
    ensures var r := Run(Left(above, k), Right(above, k));
      Maximal(above, r) && r.lo <= s.lo <= k < s.hi <= r.hi
  {
    var lo, hi := Left(above, k), Right(above, k);
    assert lo <= s.lo && s.hi <= hi;
  }

  /**
   * With minSamples at least one the observations tell of runs in order, and a sample is in one of them exactly
   * when it stands among minSamples samples in a row whose loss, RTT, jitter or concealment, as the rule has it,
   * is above the threshold.
   */
  lemma {:induction false} ReportedExactlyWhen(observations: seq<Observation>, rule: Rule, rows: seq<StatRow>, threshold: real,
                                               minSamples: int) returns (runs: seq<Run>)
    requires Evaluated(Some(observations), rule, rows, threshold, minSamples) && minSamples >= 1
    ensures InOrder(runs) && |runs| == |observations| && forall j | 0 <= j < |runs| :: About(observations[j], rule, rows, runs[j])
    ensures rule.PacketLossSustained? ==>
      HoldStretches(runs, seq(|rows|, m requires 0 <= m < |rows| => rows[m].packetLossRatio > threshold), minSamples)
    ensures rule.RttHigh? ==>
      HoldStretches(runs, seq(|rows|, m requires 0 <= m < |rows| => rows[m].rtt as real > threshold), minSamples)
    ensures rule.JitterHigh? ==>
      HoldStretches(runs, seq(|rows|, m requires 0 <= m < |rows| => rows[m].jitter as real > threshold), minSamples)
    ensures rule.AudioConcealmentHigh? ==>
      HoldStretches(runs, seq(|rows|, m requires 0 <= m < |rows| => rows[m].audioConcealmentRatio > threshold), minSamples)
  {
    runs := ToldRuns(observations, rule, rows, threshold, minSamples);
    var hot := Hot(rule, rows, threshold);
    RunsHoldStretches(runs, hot, minSamples);
    match rule
    case PacketLossSustained => assert hot == seq(|rows|, m requires 0 <= m < |rows| => rows[m].packetLossRatio > threshold);
    case RttHigh => assert hot == seq(|rows|, m requires 0 <= m < |rows| => rows[m].rtt as real > threshold);
    case JitterHigh => assert hot == seq(|rows|, m requires 0 <= m < |rows| => rows[m].jitter as real > threshold);
    case AudioConcealmentHigh => assert hot == seq(|rows|, m requires 0 <= m < |rows| => rows[m].audioConcealmentRatio > threshold);
  }

  lemma {:induction false} ToldRuns(observations: seq<Observation>, rule: Rule, rows: seq<StatRow>, threshold: real,
                                    minSamples: int) returns (runs: seq<Run>)
    requires Evaluated(Some(observations), rule, rows, threshold, minSamples) && minSamples >= 1
    ensures ExactlyRuns(runs, Hot(rule, rows, threshold), minSamples)
    ensures |runs| == |observations| && forall j | 0 <= j < |runs| :: About(observations[j], rule, rows, runs[j])
  {
    var reports := ReportsOf(rule, rows, threshold, minSamples);
    runs := RunsOf(reports);
    ClosingsExact(Hot(rule, rows, threshold), minSamples);
    forall j | 0 <= j < |runs| ensures About(observations[j], rule, rows, runs[j]) {
      assert Tells(observations[j], rule, rows, reports[j]);
    }
  }

  /** Samples that agree in time and in the rule's own column. */
  ghost predicate SameColumn(rule: Rule, a: seq<StatRow>, b: seq<StatRow>) {
    && |a| == |b| && (forall i | 0 <= i < |a| :: a[i].timestamp == b[i].timestamp)
    && match rule
       case PacketLossSustained => forall i | 0 <= i < |a| :: a[i].packetLossRatio == b[i].packetLossRatio
       case RttHigh => forall i | 0 <= i < |a| :: a[i].rtt == b[i].rtt
       case JitterHigh => forall i | 0 <= i < |a| :: a[i].jitter == b[i].jitter
       case AudioConcealmentHigh => forall i | 0 <= i < |a| :: a[i].audioConcealmentRatio == b[i].audioConcealmentRatio
  }

  lemma {:induction false} SameSums(rule: Rule, a: seq<StatRow>, b: seq<StatRow>)
    requires SameColumn(rule, a, b)
    ensures Sum(rule, a) == Sum(rule, b) && (InMillis(rule) ==> MillisSum(rule, a) == MillisSum(rule, b))
  {
    if a != [] {
      var n := |a| - 1;
      SameSums(rule, a[..n], b[..n]);
    }
  }

  lemma {:induction false} SameTells(o: Observation, rule: Rule, a: seq<StatRow>, b: seq<StatRow>, report: Report)
    requires SameColumn(rule, a, b)
    ensures Tells(o, rule, a, report) <==> Tells(o, rule, b, report)
    ensures Untellable(report, rule, a) <==> Untellable(report, rule, b)
  {
    var lo, hi := report.run.lo, report.run.hi;
    if lo <= hi <= |a| {
      SameSums(rule, a[lo..hi], b[lo..hi]);
    }
  }

  lemma {:induction false} SameReports(rule: Rule, a: seq<StatRow>, b: seq<StatRow>, threshold: real, minSamples: int)
    requires SameColumn(rule, a, b)
    ensures ReportsOf(rule, a, threshold, minSamples) == ReportsOf(rule, b, threshold, minSamples)
  {
    assert Hot(rule, a, threshold) == Hot(rule, b, threshold);
  }

  /** No other column counts: samples that agree in time and in the rule's own column give the same result. */
  lemma {:induction false} OwnColumn(result: Option<seq<Observation>>, rule: Rule, a: seq<StatRow>, b: seq<StatRow>,
                                     threshold: real, minSamples: int)
    requires SameColumn(rule, a, b) && Evaluated(result, rule, a, threshold, minSamples)
    ensures Evaluated(result, rule, b, threshold, minSamples)
  {
    SameReports(rule, a, b, threshold, minSamples);
    var reports := ReportsOf(rule, a, threshold, minSamples);
    if result.None? {
      var k :| 0 <= k < |reports| && Untellable(reports[k], rule, a);
      SameTells(Observation(0, 0, 0.0, 0), rule, a, b, reports[k]);
      assert Panics(rule, b, threshold, minSamples);
    } else {
      forall k | 0 <= k < |reports| ensures !Untellable(reports[k], rule, b) {
        SameTells(result.value[k], rule, a, b, reports[k]);
      }
      forall k | 0 <= k < |reports| ensures Tells(result.value[k], rule, b, reports[k]) {
        SameTells(result.value[k], rule, a, b, reports[k]);
      }
    }
  }

  // ----- averages --------------------------------------------------------------------

  /** The sums of an average add up, and that of one sample is the rule's own column of it. */
  lemma {:induction false} SumsAdd(rule: Rule, a: seq<StatRow>, b: seq<StatRow>, row: StatRow)
    ensures Sum(rule, a + b) == Sum(rule, a) + Sum(rule, b)
    ensures InMillis(rule) ==> MillisSum(rule, a + b) == MillisSum(rule, a) + MillisSum(rule, b)
    ensures Sum(PacketLossSustained, [row]) == row.packetLossRatio && MillisSum(RttHigh, [row]) == row.rtt
    ensures MillisSum(JitterHigh, [row]) == row.jitter && Sum(AudioConcealmentHigh, [row]) == row.audioConcealmentRatio
    decreases |b|
  {
    assert [row][..0] == [];
    if b == [] {
      assert a + b == a;
    } else {
      var n := |b| - 1;
      SumsAdd(rule, a, b[..n], row);
      assert (a + b)[..|a| + n] == a + b[..n];
    }
  }

  /**
   * The reported milliseconds are the truncated quotient of the true sum exactly when that sum fits in
   * an int32: any overflow moves the quotient by at least two.
   */
  lemma {:induction false} MillisAverageExactlyWhen(rule: Rule, rows: seq<StatRow>)
    requires InMillis(rule) && 0 < |rows| < 0x8000_0000
    ensures MillisAverage(rule, rows) == Some(TruncDiv(MillisSum(rule, rows), |rows|))
       <==> -0x8000_0000 <= MillisSum(rule, rows) < 0x8000_0000
  {
    var sum, n := MillisSum(rule, rows), |rows|;
    var k := (sum + 0x8000_0000) / 0x1_0000_0000;
    WrapIsCongruent(sum, k);
    QuotientFits(Wrap32(sum), n);
    if k != 0 {
      QuotientsApart(sum, k, n);
    }
  }

  lemma {:induction false} QuotientFits(a: int32, n: int)
    requires n > 0
    ensures -0x8000_0000 <= TruncDiv(a, n) < 0x8000_0000
  {
    var size: int := a;
    NatQuotient(if size >= 0 then size else -size, n);
  }

  lemma {:induction false} NatQuotient(a: nat, n: int)
    requires n > 0
    ensures 0 <= a / n <= a
  {
    var q := a / n;
    assert a == q * n + a % n;
    MulMonotone(q, -1, n);
    MulMonotone(1, n, q);
  }

  lemma {:induction false} MulMonotone(a: int, b: int, n: int)
    ensures a <= b && n >= 0 ==> a * n <= b * n
  {
  }

  lemma {:induction false} QuotientsApart(sum: int, k: int, n: int)
    requires 0 < n < 0x8000_0000 && k != 0
    ensures TruncDiv(sum, n) != TruncDiv(sum - k * 0x1_0000_0000, n)
  {
    NearMultiple(sum, n);
    NearMultiple(sum - k * 0x1_0000_0000, n);
  }

  lemma {:induction false} NearMultiple(a: int, n: int)
    requires n > 0
    ensures -n < a - TruncDiv(a, n) * n < n
  {
  }

  /** Every sample above the threshold puts the average above it, in the reals. */
  lemma {:induction false} SumAbove(rule: Rule, rows: seq<StatRow>, threshold: real)
    requires forall i | 0 <= i < |rows| :: Value(rule, rows[i]) > threshold
    ensures rows != [] ==> Sum(rule, rows) > threshold * |rows| as real
    ensures rows == [] ==> Sum(rule, rows) == 0.0
  {
    if |rows| > 0 {
      SumAbove(rule, rows[..|rows| - 1], threshold);
      assert threshold * |rows| as real == threshold * (|rows| - 1) as real + threshold;
    }
  }

  lemma {:induction false} MillisSumIsSum(rule: Rule, rows: seq<StatRow>)
    requires InMillis(rule)
    ensures MillisSum(rule, rows) as real == Sum(rule, rows)
  {
    if |rows| > 0 {
      MillisSumIsSum(rule, rows[..|rows| - 1]);
    }
  }

  lemma {:induction false} MillisSumAbove(rule: Rule, rows: seq<StatRow>, threshold: int)
    requires InMillis(rule) && forall i | 0 <= i < |rows| :: Millis(rule, rows[i]) > threshold
    ensures MillisSum(rule, rows) >= (threshold + 1) * |rows|
  {
    if |rows| > 0 {
      MillisSumAbove(rule, rows[..|rows| - 1], threshold);
      assert (threshold + 1) * |rows| == (threshold + 1) * (|rows| - 1) + threshold + 1;
    }
  }

  /** When a truncated quotient reaches a bound. */
  lemma {:induction false} TruncDivAtLeast(a: int, n: int, least: int)
    requires n > 0
    ensures TruncDiv(a, n) >= least <==> if least > 0 then a >= least * n else a > (least - 1) * n
  {
    var q := TruncDiv(a, n);
    assert (q + 1) * n == q * n + n && (q - 1) * n == q * n - n && (least - 1) * n == least * n - n;
    MulMonotone(least, q, n);
    MulMonotone(q + 1, least, n);
    MulMonotone(0, q, n);
    MulMonotone(q, 0, n);
    MulMonotone(1, least, n);
    MulMonotone(least, 0, n);
  }

  /** The smallest wrapped sum of n values whose average exceeds the threshold. */
  function LeastSum(threshold: int, n: int): int {
    if threshold >= 0 then (threshold + 1) * n else threshold * n + 1
  }

  /** The threshold of a millisecond rule is a whole number of milliseconds. */
  function MillisThreshold(rule: Rule, thresholds: map<string, Setting>): int {
    if rule.RttHigh? then Trunc(FloatThreshold(thresholds, "rtt_high.threshold", 300.0))
    else Trunc(FloatThreshold(thresholds, "jitter_high.threshold", 50.0))
  }

  /**
   * When the reported average of a run exceeds the threshold: always for the ratio rules; for the millisecond
   * rules exactly when the sum, after wrapping, has not dropped below what the threshold demands.
   */
  lemma {:induction false} AverageAboveExactlyWhen(rule: Rule, rows: seq<StatRow>, thresholds: map<string, Setting>)
    requires 0 < |rows| < 0x8000_0000
    requires forall i | 0 <= i < |rows| :: Value(rule, rows[i]) > ThresholdOf(rule, thresholds)
    ensures Average(rule, rows).Some?
    ensures Average(rule, rows).value > ThresholdOf(rule, thresholds)
       <==> InMillis(rule) ==> Wrap32(MillisSum(rule, rows)) >= LeastSum(MillisThreshold(rule, thresholds), |rows|)
  {
    var threshold := ThresholdOf(rule, thresholds);
    if InMillis(rule) {
      var t, n, wrapped := MillisThreshold(rule, thresholds), |rows|, Wrap32(MillisSum(rule, rows));
      assert threshold == t as real;
      QuotientFits(wrapped, n);
      TruncDivAtLeast(wrapped, n, t + 1);
      assert (t + 1) * n == t * n + n;
    } else {
      SumAbove(rule, rows, threshold);
      RatioAbove(Sum(rule, rows), |rows| as real, threshold);
    }
  }

  /** A sum that fits in an int32 never drops: then the average of a run is above the threshold. */
  lemma {:induction false} AverageAboveThreshold(rule: Rule, rows: seq<StatRow>, thresholds: map<string, Setting>)
    requires 0 < |rows| < 0x8000_0000
    requires forall i | 0 <= i < |rows| :: Value(rule, rows[i]) > ThresholdOf(rule, thresholds)
    requires InMillis(rule) ==> -0x8000_0000 <= MillisSum(rule, rows) < 0x8000_0000
    ensures Average(rule, rows).Some? && Average(rule, rows).value > ThresholdOf(rule, thresholds)
  {
    AverageAboveExactlyWhen(rule, rows, thresholds);
    if InMillis(rule) {
      var t := MillisThreshold(rule, thresholds);
      forall i | 0 <= i < |rows| ensures Millis(rule, rows[i]) > t {
        assert Value(rule, rows[i]) > ThresholdOf(rule, thresholds);
      }
      MillisSumAbove(rule, rows, t);
      LeastBelow(t, |rows|);
    }
  }

  lemma {:induction false} LeastBelow(threshold: int, n: int)
    requires n > 0
    ensures LeastSum(threshold, n) <= (threshold + 1) * n
  {
    assert (threshold + 1) * n == threshold * n + n;
  }

  lemma {:induction false} RatioAbove(sum: real, n: real, threshold: real)
    requires n > 0.0 && sum > threshold * n
    ensures sum / n > threshold
  {
  }

  /** The overflow is reachable: two samples of 2^30 ms average to -2^30 ms. */
  lemma {:induction false} OverflowingAverage()
    ensures var row := StatRow(0, 0.0, 0x4000_0000, 0, 0, 0.0, 0);
      MillisAverage(RttHigh, [row, row]) == Some(-0x4000_0000)
  {
    var row := StatRow(0, 0.0, 0x4000_0000, 0, 0, 0.0, 0);
    assert [row, row][..1] == [row] && [row][..0] == [];
    assert MillisSum(RttHigh, [row]) == 0x4000_0000;
    assert MillisSum(RttHigh, [row, row]) == 0x8000_0000;
  }

  // ----- what changing a setting does ------------------------------------------------

  lemma {:induction false} IndexAtLeast(idx: seq<nat>, i: nat)
    requires i < |idx| && forall j, k :: 0 <= j < k < |idx| ==> idx[j] < idx[k]
    ensures idx[i] >= i
  {
    if i > 0 {
      IndexAtLeast(idx, i - 1);
    }
  }

  ghost function Place(runs: seq<Run>, r: Run): (j: nat)
    requires r in runs
    ensures j < |runs| && runs[j] == r
  {
    var j: nat :| j < |runs| && runs[j] == r;
    j
  }

  /** The longer runs sit, in the same order, among all runs. */
  lemma {:induction false} FewerRuns(fewer: seq<Run>, runs: seq<Run>, hot: seq<bool>, high: int, low: int) returns (idx: seq<nat>)
    requires high >= low && ExactlyRuns(fewer, hot, high) && ExactlyRuns(runs, hot, low)
    ensures SubsequenceAt(fewer, runs, idx)
  {
    forall i | 0 <= i < |fewer| ensures fewer[i] in runs {
      assert Maximal(hot, fewer[i]);
    }
    idx := seq(|fewer|, i requires 0 <= i < |fewer| => Place(runs, fewer[i]));
    forall i, j | 0 <= i < j < |idx| ensures idx[i] < idx[j] {
      assert fewer[i].hi < fewer[j].lo && runs[idx[i]] == fewer[i] && runs[idx[j]] == fewer[j];
    }
  }

  /** Being exact pins the list down: there is one list of maximal runs. */
  lemma {:induction false} ExactRunsUnique(a: seq<Run>, b: seq<Run>, hot: seq<bool>, minSamples: int)
    requires ExactlyRuns(a, hot, minSamples) && ExactlyRuns(b, hot, minSamples)
    ensures a == b
  {
    var ab := FewerRuns(a, b, hot, minSamples, minSamples);
    var ba := FewerRuns(b, a, hot, minSamples, minSamples);
    MutualSubsequences(a, b, ab, ba);
  }

  lemma {:induction false} MutualSubsequences<T>(a: seq<T>, b: seq<T>, ab: seq<nat>, ba: seq<nat>)
    requires SubsequenceAt(a, b, ab) && SubsequenceAt(b, a, ba)
    ensures a == b
  {
    SubsequenceLength(a, b, ab);
    SubsequenceLength(b, a, ba);
    forall i | 0 <= i < |a| ensures a[i] == b[i] {
      SubsequenceIdentity(a, b, ab, i);
    }
  }

  lemma {:induction false} SubsequenceLength<T>(a: seq<T>, b: seq<T>, ab: seq<nat>)
    requires SubsequenceAt(a, b, ab)
    ensures |a| <= |b|
  {
    if |a| > 0 {
      IndexAtLeast(ab, |a| - 1);
      assert ab[|a| - 1] < |b|;
    }
  }

  lemma {:induction false} SubsequenceIdentity<T>(a: seq<T>, b: seq<T>, ab: seq<nat>, i: nat)
    requires SubsequenceAt(a, b, ab) && |a| == |b| && i < |a|
    ensures a[i] == b[i]
  {
    OnlyIdentity(ab, i, |b|);
    assert b[ab[i]] == a[i];
  }

  lemma {:induction false} OnlyIdentity(idx: seq<nat>, i: nat, n: nat)
    requires i < |idx| == n && (forall j :: 0 <= j < |idx| ==> idx[j] < n)
    requires forall j, k :: 0 <= j < k < |idx| ==> idx[j] < idx[k]
    ensures idx[i] == i
    decreases n - i
  {
    IndexAtLeast(idx, i);
    if i + 1 < n {
      OnlyIdentity(idx, i + 1, n);
    }
  }

  /** Raising minSamples only drops observations: what is left is a sublist, each observation unchanged. */
  lemma {:induction false} RaisingMinSamples(rule: Rule, rows: seq<StatRow>, threshold: real, high: int, low: int,
                                             fewer: seq<Observation>, all: seq<Observation>)
    requires high >= low
    requires ExactlyObserved(fewer, rule, rows, threshold, high) && ExactlyObserved(all, rule, rows, threshold, low)
    ensures IsSubsequence(fewer, all)
  {
    var hot := Hot(rule, rows, threshold);
    var f :| Told(fewer, rule, rows, f) && Exact(f, hot, high);
    var a :| Told(all, rule, rows, a) && Exact(a, hot, low);
    var idx := FewerRuns(RunsOf(f), RunsOf(a), hot, high, low);
    SublistTold(rule, rows, fewer, all, f, a, idx, hot, high, low);
  }

  /** An observation is determined by its run. */
  lemma {:induction false} SublistTold(rule: Rule, rows: seq<StatRow>, fewer: seq<Observation>, all: seq<Observation>,
                                       f: seq<Report>, a: seq<Report>, idx: seq<nat>, hot: seq<bool>, high: int, low: int)
    requires Told(fewer, rule, rows, f) && Told(all, rule, rows, a)
    requires SubsequenceAt(RunsOf(f), RunsOf(a), idx) && Exact(f, hot, high) && Exact(a, hot, low)
    ensures SubsequenceAt(fewer, all, idx)
  {
  }

  /** The observations of a rule are determined by its input. */
  lemma {:induction false} ObservedUnique(a: seq<Observation>, b: seq<Observation>, rule: Rule, rows: seq<StatRow>,
                                          threshold: real, minSamples: int)
    requires ExactlyObserved(a, rule, rows, threshold, minSamples) && ExactlyObserved(b, rule, rows, threshold, minSamples)
    ensures a == b
  {
    var hot := Hot(rule, rows, threshold);
    var ra: seq<Report> :| Told(a, rule, rows, ra) && Exact(ra, hot, minSamples);
    var rb: seq<Report> :| Told(b, rule, rows, rb) && Exact(rb, hot, minSamples);
    ExactReportsUnique(ra, rb, hot, minSamples);
    ToldUnique(a, b, rule, rows, ra);
  }

  lemma {:induction false} ToldUnique(a: seq<Observation>, b: seq<Observation>, rule: Rule, rows: seq<StatRow>, reports: seq<Report>)
    requires Told(a, rule, rows, reports) && Told(b, rule, rows, reports)
    ensures a == b
  {
  }

  lemma {:induction false} ExactReportsUnique(a: seq<Report>, b: seq<Report>, hot: seq<bool>, minSamples: int)
    requires Exact(a, hot, minSamples) && Exact(b, hot, minSamples)
    ensures a == b
  {
    ExactRunsUnique(RunsOf(a), RunsOf(b), hot, minSamples);
    assert |RunsOf(a)| == |a| && |RunsOf(b)| == |b|;
    forall i | 0 <= i < |a| ensures a[i] == b[i] {
      assert RunsOf(a)[i] == a[i].run && RunsOf(b)[i] == b[i].run;
    }
  }

  /** The first and one past the last sample of the hot stretch around i. */
  function Left(hot: seq<bool>, i: nat): (lo: nat)
    requires i < |hot| && hot[i]
    ensures lo <= i && (forall k | lo <= k <= i :: hot[k]) && (lo == 0 || !hot[lo - 1])
  {
    if i == 0 || !hot[i - 1] then i else Left(hot, i - 1)
  }

  function Right(hot: seq<bool>, i: nat): (hi: nat)
    requires i < |hot| && hot[i]
    ensures i < hi <= |hot| && (forall k | i <= k < hi :: hot[k]) && (hi == |hot| || !hot[hi])
    decreases |hot| - i
  {
    if i + 1 == |hot| || !hot[i + 1] then i + 1 else Right(hot, i + 1)
  }

  ghost predicate Inside(inner: Run, outer: Run) {
    outer.lo <= inner.lo && inner.hi <= outer.hi
  }

  /** A maximal run lies inside exactly one maximal run of a weaker condition. */
  lemma {:induction false} InsideOneRun(hot: seq<bool>, weaker: seq<bool>, r: Run, runs: seq<Run>, minSamples: int) returns (j: nat)
    requires |hot| == |weaker| && (forall i | 0 <= i < |hot| && hot[i] :: weaker[i])
    requires Maximal(hot, r) && r.hi - r.lo >= minSamples && ExactlyRuns(runs, weaker, minSamples)
    ensures j < |runs| && Inside(r, runs[j])
    ensures forall k | 0 <= k < |runs| && k != j :: runs[k].hi < r.lo || r.hi < runs[k].lo
  {
    var outer := Run(Left(weaker, r.lo), Right(weaker, r.hi - 1));
    assert Maximal(weaker, outer) by {
      forall i | outer.lo <= i < outer.hi ensures weaker[i] {
        assert r.lo <= i < r.hi ==> hot[i];
      }
    }
    j := Place(runs, outer);
    forall k | 0 <= k < |runs| && k != j ensures runs[k].hi < r.lo || r.hi < runs[k].lo {
      assert if k < j then runs[k].hi < runs[j].lo else runs[j].hi < runs[k].lo;
    }
  }

  /** The samples come in the order of their timestamps, as the query delivers them. */
  ghost predicate TimeOrdered(rows: seq<StatRow>) {
    forall i, j | 0 <= i < j < |rows| :: rows[i].timestamp <= rows[j].timestamp
  }

  ghost predicate DistinctTimes(rows: seq<StatRow>) {
    forall i, j | 0 <= i < j < |rows| :: rows[i].timestamp < rows[j].timestamp
  }

  /** In time, a lies within b. */
  ghost predicate Within(a: Observation, b: Observation) {
    b.startTs <= a.startTs && a.endTs <= b.endTs
  }

  /**
   * Raising the threshold: every observation still reported lies within one reported before, which counts at
   * least as many samples, and within exactly one when no two samples share a timestamp.
   */
  lemma {:induction false} RaisingThreshold(rule: Rule, rows: seq<StatRow>, high: real, low: real, minSamples: int,
                                            strict: seq<Observation>, lax: seq<Observation>, i: nat) returns (j: nat)
    requires high >= low && TimeOrdered(rows) && i < |strict|
    requires ExactlyObserved(strict, rule, rows, high, minSamples) && ExactlyObserved(lax, rule, rows, low, minSamples)
    ensures j < |lax| && Within(strict[i], lax[j]) && strict[i].sampleCount <= lax[j].sampleCount
    ensures DistinctTimes(rows) ==> forall k | 0 <= k < |lax| && Within(strict[i], lax[k]) :: k == j
  {
    var ra := ReportOf(strict, rule, rows, high, minSamples, i);
    j := InsideOneReport(rule, rows, high, low, minSamples, strict[i], ra, lax);
  }

  /** The run behind an observation. */
  lemma {:induction false} ReportOf(observations: seq<Observation>, rule: Rule, rows: seq<StatRow>, threshold: real,
                                    minSamples: int, i: nat) returns (report: Report)
    requires ExactlyObserved(observations, rule, rows, threshold, minSamples) && i < |observations|
    ensures Tells(observations[i], rule, rows, report) && Genuine(report, Hot(rule, rows, threshold), minSamples)
  {
    var reports: seq<Report> :|
      Told(observations, rule, rows, reports) && Exact(reports, Hot(rule, rows, threshold), minSamples);
    report := reports[i];
    GenuineAt(reports, Hot(rule, rows, threshold), minSamples, i);
  }

  ghost predicate Genuine(report: Report, hot: seq<bool>, minSamples: int) {
    Maximal(hot, report.run) && report.count == report.run.hi - report.run.lo >= minSamples
  }

  lemma {:induction false} GenuineAt(reports: seq<Report>, hot: seq<bool>, minSamples: int, i: nat)
    requires Exact(reports, hot, minSamples) && i < |reports|
    ensures Genuine(reports[i], hot, minSamples)
  {
    assert Maximal(hot, RunsOf(reports)[i]);
  }

  /** The one report of the weaker threshold around a run of the stronger one. */
  lemma {:induction false} AroundReport(rule: Rule, rows: seq<StatRow>, high: real, low: real, minSamples: int, r: Run,
                                        lax: seq<Observation>) returns (l: seq<Report>, j: nat)
    requires high >= low && Maximal(Hot(rule, rows, high), r) && r.hi - r.lo >= minSamples
    requires ExactlyObserved(lax, rule, rows, low, minSamples)
    ensures Told(lax, rule, rows, l) && j < |l| && Inside(r, l[j].run) && l[j].count == l[j].run.hi - l[j].run.lo
    ensures forall k | 0 <= k < |l| && k != j :: l[k].run.hi < r.lo || r.hi < l[k].run.lo
  {
    var hot := Hot(rule, rows, low);
    l :| Told(lax, rule, rows, l) && Exact(l, hot, minSamples);
    j := InsideOneRun(Hot(rule, rows, high), hot, r, RunsOf(l), minSamples);
    assert RunsOf(l)[j] == l[j].run;
    forall k | 0 <= k < |l| && k != j ensures l[k].run.hi < r.lo || r.hi < l[k].run.lo {
      assert RunsOf(l)[k] == l[k].run;
    }
  }

  lemma {:induction false} InsideOneReport(rule: Rule, rows: seq<StatRow>, high: real, low: real, minSamples: int,
                                           a: Observation, ra: Report, lax: seq<Observation>) returns (j: nat)
    requires high >= low && TimeOrdered(rows)
    requires Tells(a, rule, rows, ra) && Genuine(ra, Hot(rule, rows, high), minSamples)
    requires ExactlyObserved(lax, rule, rows, low, minSamples)
    ensures j < |lax| && Within(a, lax[j]) && a.sampleCount <= lax[j].sampleCount
    ensures DistinctTimes(rows) ==> forall k | 0 <= k < |lax| && Within(a, lax[k]) :: k == j
  {
    var l;
    l, j := AroundReport(rule, rows, high, low, minSamples, ra.run, lax);
    ToldWithin(rule, rows, a, ra, lax[j], l[j]);
    if DistinctTimes(rows) {
      OthersApart(rule, rows, a, ra, lax, l, j);
    }
  }

  lemma {:induction false} OthersApart(rule: Rule, rows: seq<StatRow>, a: Observation, ra: Report,
                                       lax: seq<Observation>, l: seq<Report>, j: nat)
    requires DistinctTimes(rows) && Tells(a, rule, rows, ra) && Told(lax, rule, rows, l)
    requires forall k | 0 <= k < |l| && k != j :: l[k].run.hi < ra.run.lo || ra.run.hi < l[k].run.lo
    ensures forall k | 0 <= k < |lax| && Within(a, lax[k]) :: k == j
  {
    forall k | 0 <= k < |lax| && k != j ensures !Within(a, lax[k]) {
      ToldApart(rule, rows, a, ra, lax[k], l[k]);
    }
  }

  lemma {:induction false} ToldWithin(rule: Rule, rows: seq<StatRow>, a: Observation, ra: Report, b: Observation, rb: Report)
    requires TimeOrdered(rows) && Tells(a, rule, rows, ra) && Tells(b, rule, rows, rb) && Inside(ra.run, rb.run)
    requires ra.count == ra.run.hi - ra.run.lo && rb.count == rb.run.hi - rb.run.lo
    ensures Within(a, b) && a.sampleCount <= b.sampleCount
  {
  }

  lemma {:induction false} ToldApart(rule: Rule, rows: seq<StatRow>, a: Observation, ra: Report, b: Observation, rb: Report)
    requires DistinctTimes(rows) && Tells(a, rule, rows, ra) && Tells(b, rule, rows, rb)
    requires rb.run.hi < ra.run.lo || ra.run.hi < rb.run.lo
    ensures !Within(a, b)
  {
  }

  // ----- the rules about one sample or a pair ----------------------------------------

  datatype SpikeRule = PacketLossSpike | RttSpike | BitrateCollapse

  /** Sample i fires the rule; the RTT increase is an int32 subtraction. */
  predicate Fires(rule: SpikeRule, rows: seq<StatRow>, thresholds: map<string, Setting>, i: nat)
    requires i < |rows|
  {
    match rule
    case PacketLossSpike =>
      rows[i].packetLossRatio > FloatThreshold(thresholds, "packet_loss_spike.threshold", 0.15)
    case RttSpike =>
      i > 0 && Wrap32(rows[i].rtt - rows[i - 1].rtt) > Trunc(FloatThreshold(thresholds, "rtt_spike_delta.threshold", 100.0))
    case BitrateCollapse =>
      && i > 0 && rows[i - 1].outboundBitrate > 0
      && 1.0 - rows[i].outboundBitrate as real / rows[i - 1].outboundBitrate as real
         > FloatThreshold(thresholds, "bitrate_collapse_ratio.threshold", 0.50)
  }

  datatype Spike = Spike(startTs: int, endTs: int, before: StatRow, after: StatRow)

  function SpikeAt(rule: SpikeRule, rows: seq<StatRow>, i: nat): Spike
    requires i < |rows|
  {
    var before := if rule.PacketLossSpike? || i == 0 then rows[i] else rows[i - 1];
    Spike(before.timestamp, rows[i].timestamp, before, rows[i])
  }

  /** The samples before n that fire the rule, in order. */
  ghost function Firing(rule: SpikeRule, rows: seq<StatRow>, thresholds: map<string, Setting>, n: nat): (idx: seq<nat>)
    requires n <= |rows|
    ensures forall k | 0 <= k < |idx| :: idx[k] < n && Fires(rule, rows, thresholds, idx[k])
    ensures forall j, k | 0 <= j < k < |idx| :: idx[j] < idx[k]
    ensures forall i | 0 <= i < n && Fires(rule, rows, thresholds, i) :: i in idx
  {
    if n == 0 then []
    else Firing(rule, rows, thresholds, n - 1) + if Fires(rule, rows, thresholds, n - 1) then [n - 1] else []
  }

  /** One spike for each firing sample, in order. */
  ghost predicate SpikesBefore(spikes: seq<Spike>, rule: SpikeRule, rows: seq<StatRow>, thresholds: map<string, Setting>, n: nat)
    requires n <= |rows|
  {
    var idx := Firing(rule, rows, thresholds, n);
    |spikes| == |idx| && forall k | 0 <= k < |idx| :: spikes[k] == SpikeAt(rule, rows, idx[k])
  }

  lemma {:induction false} SpikesNext(spikes: seq<Spike>, rule: SpikeRule, rows: seq<StatRow>, thresholds: map<string, Setting>, i: nat)
    requires i < |rows| && SpikesBefore(spikes, rule, rows, thresholds, i)
    ensures var more := if Fires(rule, rows, thresholds, i) then [SpikeAt(rule, rows, i)] else [];
      SpikesBefore(spikes + more, rule, rows, thresholds, i + 1)
  {
  }

  ghost predicate ExactlySpikes(spikes: seq<Spike>, rule: SpikeRule, rows: seq<StatRow>, thresholds: map<string, Setting>) {
    SpikesBefore(spikes, rule, rows, thresholds, |rows|)
  }

  lemma {:induction false} SpikesUnique(a: seq<Spike>, b: seq<Spike>, rule: SpikeRule, rows: seq<StatRow>, thresholds: map<string, Setting>)
    requires ExactlySpikes(a, rule, rows, thresholds) && ExactlySpikes(b, rule, rows, thresholds)
    ensures a == b
  {
    var idx := Firing(rule, rows, thresholds, |rows|);
    forall k | 0 <= k < |idx| ensures a[k] == b[k] {
      assert a[k] == SpikeAt(rule, rows, idx[k]);
    }
  }

  /** evaluatePacketLossSpike, evaluateRTTSpike and evaluateBitrateCollapse. */
  method EvaluateSpikes(rule: SpikeRule, rows: seq<StatRow>, thresholds: map<string, Setting>) returns (spikes: seq<Spike>)
    ensures ExactlySpikes(spikes, rule, rows, thresholds)
  {
    spikes := [];
    for i := 0 to |rows|
      invariant SpikesBefore(spikes, rule, rows, thresholds, i)
    {
      SpikesNext(spikes, rule, rows, thresholds, i);
      spikes := spikes + if Fires(rule, rows, thresholds, i) then [SpikeAt(rule, rows, i)] else [];
    }
  }

  /**
   * What the three rules report, on their own columns: a loss spike is one sample, the other two lie between a
   * sample and the one before it.
   */
  lemma {:induction false} SpikeColumns(spikes: seq<Spike>, rule: SpikeRule, rows: seq<StatRow>, thresholds: map<string, Setting>)
    returns (idx: seq<nat>)
    requires ExactlySpikes(spikes, rule, rows, thresholds)
    ensures |idx| == |spikes| && (forall k | 0 <= k < |idx| :: idx[k] < |rows|) && (forall j, k | 0 <= j < k < |idx| :: idx[j] < idx[k])
    ensures rule.PacketLossSpike? ==>
      && (forall i: nat | i < |rows| :: i in idx
            <==> rows[i].packetLossRatio > FloatThreshold(thresholds, "packet_loss_spike.threshold", 0.15))
      && (forall k | 0 <= k < |idx| :: spikes[k].startTs == spikes[k].endTs == rows[idx[k]].timestamp)
    ensures !rule.PacketLossSpike? ==> forall k | 0 <= k < |idx| ::
      && idx[k] > 0 && spikes[k].startTs == rows[idx[k] - 1].timestamp && spikes[k].endTs == rows[idx[k]].timestamp
      && spikes[k].before == rows[idx[k] - 1] && spikes[k].after == rows[idx[k]]
    ensures rule.RttSpike? ==>
      var delta := Trunc(FloatThreshold(thresholds, "rtt_spike_delta.threshold", 100.0));
      forall i: nat | 0 < i < |rows| :: (i in idx <==> Wrap32(rows[i].rtt - rows[i - 1].rtt) > delta)
    ensures rule.BitrateCollapse? ==>
      var ratio := FloatThreshold(thresholds, "bitrate_collapse_ratio.threshold", 0.50);
      forall i: nat | 0 < i < |rows| :: (i in idx <==> Collapsed(rows[i - 1].outboundBitrate, rows[i].outboundBitrate, ratio))
  {
    idx := Firing(rule, rows, thresholds, |rows|);
    if rule.BitrateCollapse? {
      var ratio := FloatThreshold(thresholds, "bitrate_collapse_ratio.threshold", 0.50);
      forall i: nat | 0 < i < |rows|
        ensures Fires(rule, rows, thresholds, i) <==> Collapsed(rows[i - 1].outboundBitrate, rows[i].outboundBitrate, ratio)
      {
        CollapseExactlyWhen(rows, thresholds, i);
      }
    }
  }

  /** A positive bitrate is followed by less than its share 1 - ratio. */
  predicate Collapsed(before: int, after: int, ratio: real) {
    before > 0 && after as real < (1.0 - ratio) * before as real
  }

  /** The difference of two int32 values wraps at most once. */
  lemma {:induction false} WrapOnce(x: int)
    requires -0x1_0000_0000 < x < 0x1_0000_0000
    ensures Wrap32(x) == if x >= 0x8000_0000 then x - 0x1_0000_0000 else if x < -0x8000_0000 then x + 0x1_0000_0000 else x
  {
    if x >= 0x8000_0000 {
      WrapIsCongruent(x, 1);
    } else if x < -0x8000_0000 {
      WrapIsCongruent(x, -1);
    }
  }

  /**
   * The int32 increase exceeds the threshold as the true increase does exactly when the true increase fits, or
   * its wrapped value happens to fall on the same side.
   */
  lemma {:induction false} RttSpikeExactlyWhen(rows: seq<StatRow>, thresholds: map<string, Setting>, i: nat)
    requires 0 < i < |rows|
    requires -0x8000_0000 <= Trunc(FloatThreshold(thresholds, "rtt_spike_delta.threshold", 100.0)) < 0x8000_0000
    ensures var increase := rows[i].rtt - rows[i - 1].rtt;
      var delta := Trunc(FloatThreshold(thresholds, "rtt_spike_delta.threshold", 100.0));
      (Fires(RttSpike, rows, thresholds, i) <==> increase > delta)
      <==> if increase >= 0x8000_0000 then increase > delta + 0x1_0000_0000
           else if increase < -0x8000_0000 then increase <= delta - 0x1_0000_0000
           else true
  {
    WrapOnce(rows[i].rtt - rows[i - 1].rtt);
  }

  /** A bitrate collapses exactly when it falls below its share of the last one that was positive. */
  lemma {:induction false} CollapseExactlyWhen(rows: seq<StatRow>, thresholds: map<string, Setting>, i: nat)
    requires 0 < i < |rows|
    ensures var ratio := FloatThreshold(thresholds, "bitrate_collapse_ratio.threshold", 0.50);
      Fires(BitrateCollapse, rows, thresholds, i) <==> Collapsed(rows[i - 1].outboundBitrate, rows[i].outboundBitrate, ratio)
  {
    var ratio := FloatThreshold(thresholds, "bitrate_collapse_ratio.threshold", 0.50);
    if rows[i - 1].outboundBitrate > 0 {
      QuotientBelow(rows[i].outboundBitrate as real, rows[i - 1].outboundBitrate as real, 1.0 - ratio);
    }
  }

  lemma {:induction false} QuotientBelow(a: real, b: real, share: real)
    requires b > 0.0
    ensures a / b < share <==> a < share * b
  {
    var q := a / b;
    assert q * b == a;
    if q < share {
      assert (share - q) * b > 0.0;
    } else {
      assert (q - share) * b >= 0.0;
    }
  }

  // ----- repeated video freezes ------------------------------------------------------

  datatype FreezeObservation = FreezeObservation(startTs: int, endTs: int, freezeCount: int)

  /** Rise e is between rows e and e + 1. */
  ghost function Rises(rows: seq<StatRow>): seq<bool> {
    seq(if rows == [] then 0 else |rows| - 1,
        e requires 0 <= e < |rows| - 1 => rows[e + 1].videoFreezeCount > rows[e].videoFreezeCount)
  }

  /** The sum of the rises lo up to, not including, hi. */
  ghost function SumOfRises(rows: seq<StatRow>, lo: nat, hi: nat): int
    requires lo <= hi && (lo < hi ==> hi < |rows|)
  {
    if lo == hi then 0
    else SumOfRises(rows, lo, hi - 1) + (rows[hi].videoFreezeCount - rows[hi - 1].videoFreezeCount)
  }

  /** Rises lo up to hi join rows lo up to and including hi; every rise adds at least one. */
  ghost predicate TellsFreeze(o: FreezeObservation, rows: seq<StatRow>, run: Run) {
    && run.lo < run.hi < |rows|
    && o.startTs == rows[run.lo].timestamp
    && o.endTs == rows[run.hi].timestamp
    && o.freezeCount == SumOfRises(rows, run.lo, run.hi) >= run.hi - run.lo
  }

  ghost predicate ToldFreezes(observations: seq<FreezeObservation>, rows: seq<StatRow>, reports: seq<Report>) {
    && |observations| == |reports|
    && forall k | 0 <= k < |observations| :: TellsFreeze(observations[k], rows, reports[k].run)
  }

  lemma {:induction false} RisesTelescope(rows: seq<StatRow>, lo: nat, hi: nat)
    requires lo <= hi < |rows| && forall e | lo <= e < hi :: Rises(rows)[e]
    ensures SumOfRises(rows, lo, hi) == rows[hi].videoFreezeCount - rows[lo].videoFreezeCount >= hi - lo
  {
    if lo < hi {
      RisesTelescope(rows, lo, hi - 1);
      assert Rises(rows)[hi - 1];
    }
  }

  ghost predicate ExactlyFreezes(observations: seq<FreezeObservation>, rows: seq<StatRow>) {
    exists reports :: ToldFreezes(observations, rows, reports) && Exact(reports, Rises(rows), 2)
  }

  /** The loop's invariant before rise e: the streak in progress, and the streaks closed so far are told. */
  ghost predicate FreezeScan(observations: seq<FreezeObservation>, rows: seq<StatRow>, e: nat, start: nat, count: nat) {
    && e <= |Rises(rows)| && start == LastStart(Rises(rows), e) && count == Trailing(Rises(rows), e)
    && ToldFreezes(observations, rows, Closings(Rises(rows), 2, e))
  }

  lemma {:induction false} TrailingHot(hot: seq<bool>, i: nat)
    requires i <= |hot|
    ensures forall k | i - Trailing(hot, i) <= k < i :: hot[k]
  {
    if i > 0 && hot[i - 1] {
      TrailingHot(hot, i - 1);
    }
  }

  /** What is appended for a streak that ends in row last, when it has two or more rises. */
  function AppendFreeze(observations: seq<FreezeObservation>, rows: seq<StatRow>, start: nat, count: nat, last: nat): seq<FreezeObservation>
    requires count >= 2 ==> start < |rows| && last < |rows|
  {
    if count < 2 then observations
    else
      var freezeCount := rows[last].videoFreezeCount - rows[start].videoFreezeCount;
      observations + [FreezeObservation(rows[start].timestamp, rows[last].timestamp, freezeCount)]
  }

  /** A streak that ends before rise e joins rows start up to and including row e. */
  lemma {:induction false} AppendFreezeTold(observations: seq<FreezeObservation>, rows: seq<StatRow>, e: nat, start: nat, count: nat)
    requires FreezeScan(observations, rows, e, start, count)
    requires e < |Rises(rows)| ==> !Rises(rows)[e]
    ensures count > 0 ==> start + count == e < |rows|
    ensures ToldFreezes(AppendFreeze(observations, rows, start, count, e), rows, Closings(Rises(rows), 2, e + 1))
  {
    if count >= 2 {
      TrailingHot(Rises(rows), e);
      RisesTelescope(rows, start, e);
    }
  }

  /** The loop body for row i. */
  method ReadFreezeRow(rows: seq<StatRow>, i: nat, observations: seq<FreezeObservation>, start: nat, count: nat)
    returns (observations': seq<FreezeObservation>, start': nat, count': nat)
    requires 0 < i < |rows| && FreezeScan(observations, rows, i - 1, start, count)
    ensures FreezeScan(observations', rows, i, start', count')
  {
    observations', start', count' := observations, start, count;
    NextStart(Rises(rows), i);
    assert Rises(rows)[i - 1] <==> rows[i].videoFreezeCount > rows[i - 1].videoFreezeCount;
    if rows[i].videoFreezeCount > rows[i - 1].videoFreezeCount {
      if count == 0 {
        start' := i - 1;
      }
      count' := count + 1;
    } else if count > 0 {
      AppendFreezeTold(observations, rows, i - 1, start, count);
      observations' := AppendFreeze(observations, rows, start, count, start + count);
      count' := 0;
    }
  }

  /**
   * Exactly the maximal strictly rising stretches with at least two rises; the first row only starts them. Inside
   * the loop the last row of a stretch is read at start + count, after it at the end of the input.
   */
  method EvaluateVideoFreezeRepeated(rows: seq<StatRow>) returns (observations: seq<FreezeObservation>)
    ensures ExactlyFreezes(observations, rows)
  {
    observations := [];
    var start: nat, count: nat := 0, 0;
    for i := 0 to |rows|
      invariant FreezeScan(observations, rows, if i == 0 then 0 else i - 1, start, count)
    {
      if i > 0 {
        observations, start, count := ReadFreezeRow(rows, i, observations, start, count);
      }
    }
    ghost var n := |Rises(rows)|;
    AppendFreezeTold(observations, rows, n, start, count);
    observations := AppendFreeze(observations, rows, start, count, if rows == [] then 0 else |rows| - 1);
    ClosingsExact(Rises(rows), 2);
  }

  lemma {:induction false} FreezesUnique(a: seq<FreezeObservation>, b: seq<FreezeObservation>, rows: seq<StatRow>)
    requires ExactlyFreezes(a, rows) && ExactlyFreezes(b, rows)
    ensures a == b
  {
    var ra: seq<Report> :| ToldFreezes(a, rows, ra) && Exact(ra, Rises(rows), 2);
    var rb: seq<Report> :| ToldFreezes(b, rows, rb) && Exact(rb, Rises(rows), 2);
    ExactReportsUnique(ra, rb, Rises(rows), 2);
    ToldFreezesUnique(a, b, rows, ra);
  }

  lemma {:induction false} ToldFreezesUnique(a: seq<FreezeObservation>, b: seq<FreezeObservation>, rows: seq<StatRow>, reports: seq<Report>)
    requires ToldFreezes(a, rows, reports) && ToldFreezes(b, rows, reports)
    ensures a == b
  {
  }

  /**
   * The observations tell of runs of rises in order: a rise from one sample's counter to the next is in one of
   * them exactly when it stands among two or more rises in a row, and the count is the counter's growth.
   */
  lemma {:induction false} FreezesExactlyWhen(observations: seq<FreezeObservation>, rows: seq<StatRow>) returns (runs: seq<Run>)
    requires ExactlyFreezes(observations, rows)
    ensures InOrder(runs) && |runs| == |observations|
    ensures forall j | 0 <= j < |runs| :: FreezeAbout(observations[j], rows, runs[j])
    ensures HoldStretches(runs, seq(Max(|rows| - 1, 0), m requires 0 <= m < |rows| - 1 =>
                                      rows[m].videoFreezeCount < rows[m + 1].videoFreezeCount), 2)
  {
    var reports: seq<Report> :| ToldFreezes(observations, rows, reports) && Exact(reports, Rises(rows), 2);
    runs := RunsOf(reports);
    forall j | 0 <= j < |runs| ensures FreezeAbout(observations[j], rows, runs[j]) {
      assert TellsFreeze(observations[j], rows, reports[j].run) && Maximal(Rises(rows), runs[j]);
      RisesTelescope(rows, runs[j].lo, runs[j].hi);
    }
    RunsHoldStretches(runs, Rises(rows), 2);
    assert Rises(rows) == seq(Max(|rows| - 1, 0), m requires 0 <= m < |rows| - 1 =>
                                rows[m].videoFreezeCount < rows[m + 1].videoFreezeCount);
  }

  /** Rises lo up to hi are told with the first and the last sample they join. */
  ghost predicate FreezeAbout(o: FreezeObservation, rows: seq<StatRow>, r: Run) {
    && r.lo < r.hi < |rows| && o.startTs == rows[r.lo].timestamp && o.endTs == rows[r.hi].timestamp
    && o.freezeCount == rows[r.hi].videoFreezeCount - rows[r.lo].videoFreezeCount
  }
}

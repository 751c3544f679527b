/**
 * internal/emos/observations.go: evaluating a connection and writing what is found to the events table. The duplicate check
 * compares full timestamps with stored ones, but what is stored is cut to whole seconds.
 */
module Observations {
  import opened Common
  import Rules

  /** Times in nanoseconds. */
  datatype Entry = Entry(ruleName: string, startTs: int, endTs: int)

  datatype Stored = Stored(connectionID: int, entry: Entry)

  predicate Whole(ts: int) {
    ts % Second == 0
  }

  /** RFC 3339 without a fraction: the seconds only. */
  function Cut(ts: int): int {
    ts - ts % Second
  }

  /** The event that stores an observation. */
  function Row(connectionID: int, o: Entry): Stored {
    Stored(connectionID, Entry(o.ruleName, Cut(o.startTs), Cut(o.endTs)))
  }

  /** insertObservationIfNew. */
  function Insert(events: seq<Stored>, connectionID: int, o: Entry): seq<Stored> {
    if Stored(connectionID, o) in events then events else events + [Row(connectionID, o)]
  }

  /** The insertions of one evaluation, in order. */
  function InsertAll(events: seq<Stored>, connectionID: int, observations: seq<Entry>): seq<Stored> {
    if observations == [] then events
    else Insert(InsertAll(events, connectionID, observations[..|observations| - 1]), connectionID, observations[|observations| - 1])
  }

  /** The events table, for observations. */
  class Engine {
    var events: seq<Stored>

    constructor ()
      ensures events == []
    {
      events := [];
    }

    /** An insertion that fails is logged and skipped; the rest go on. */
    method InsertNew(connectionID: int, observations: seq<Entry>, failing: set<nat>)
      modifies this
      ensures events == InsertAll(old(events), connectionID, Surviving(observations, failing))
    {
      for i := 0 to |observations|
        invariant events == InsertAll(old(events), connectionID, Surviving(observations[..i], failing))
      {
        SurvivingNext(old(events), connectionID, observations, failing, i);
        var o := observations[i];
        if i !in failing {
          if Stored(connectionID, o) !in events {
            events := events + [Row(connectionID, o)];
          }
        }
      }
      assert observations[..|observations|] == observations;
    }

    /**
     * EvaluateConnection: all nine rules in the order of DefaultRules, then the insertions. None stands for a
     * query that fails: of the statistics, of the app's settings, or of the connection's ICE failures. Settings
     * that are not valid JSON count as none.
     */
    method EvaluateConnection(connectionID: int, stats: Option<seq<Rules.StatRow>>, settings: Option<map<string, Rules.Setting>>,
                              ice: Option<seq<int>>, failing: set<nat>) returns (outcome: Outcome)
      modifies this
      ensures outcome.Failed? <==> stats.None? || (stats.value != [] && settings.None?)
      ensures outcome.Panicked? <==>
        !outcome.Failed? && stats.value != [] && exists rule :: RulePanics(rule, stats.value, settings.value)
      ensures outcome.Evaluated? && stats.value != [] ==>
        exists found :: Found(found, stats.value, settings.value, ice)
          && events == InsertAll(old(events), connectionID, Surviving(found, failing))
      ensures !outcome.Evaluated? || stats.value == [] ==> events == old(events)
    {
      if stats.None? {
        return Failed;
      }
      if |stats.value| == 0 {
        return Evaluated;
      }
      if settings.None? {
        return Failed;
      }
      var found := EvaluateRules(stats.value, LoadThresholds(settings.value), ice);
      DefaultsChangeNothing(stats.value, settings.value, ice);
      if found.None? {
        return Panicked;
      }
      InsertNew(connectionID, found.value, failing);
      return Evaluated;
    }
  }

  datatype Outcome = Evaluated | Failed | Panicked

  /** The loop over the nine rules; a panic of a rule ends it. */
  method EvaluateRules(rows: seq<Rules.StatRow>, thresholds: map<string, Rules.Setting>, ice: Option<seq<int>>)
    returns (found: Option<seq<Entry>>)
    ensures found.None? <==> exists rule :: RulePanics(rule, rows, thresholds)
    ensures found.Some? ==> Found(found.value, rows, thresholds, ice)
  {
    var loss := Rules.EvaluateConfigured(Rules.PacketLossSustained, rows, thresholds);
    var lossSpikes := Rules.EvaluateSpikes(Rules.PacketLossSpike, rows, thresholds);
    var rtt := Rules.EvaluateConfigured(Rules.RttHigh, rows, thresholds);
    var rttSpikes := Rules.EvaluateSpikes(Rules.RttSpike, rows, thresholds);
    var jitter := Rules.EvaluateConfigured(Rules.JitterHigh, rows, thresholds);
    var freezes := Rules.EvaluateVideoFreezeRepeated(rows);
    var audio := Rules.EvaluateConfigured(Rules.AudioConcealmentHigh, rows, thresholds);
    var collapses := Rules.EvaluateSpikes(Rules.BitrateCollapse, rows, thresholds);
    if loss.None? || rtt.None? || jitter.None? || audio.None? {
      PanicOfOne(loss, rtt, jitter, audio, rows, thresholds);
      return None;
    }
    var findings := Findings(loss.value, lossSpikes, rtt.value, rttSpikes, jitter.value, freezes, audio.value, collapses);
    NoPanic(findings, rows, thresholds);
    return Some(Gather(findings, ice));
  }

  /** The observations whose insertion does not fail. */
  function Surviving(observations: seq<Entry>, failing: set<nat>): seq<Entry> {
    if observations == [] then []
    else
      var n := |observations| - 1;
      Surviving(observations[..n], failing) + if n in failing then [] else [observations[n]]
  }

  /** What survives are the observations whose insertion does not fail, all of them and in order. */
  lemma {:induction false} SurvivingExactly(observations: seq<Entry>, failing: set<nat>) returns (idx: seq<nat>)
    ensures SubsequenceAt(Surviving(observations, failing), observations, idx)
    ensures forall i: nat :: i in idx <==> i < |observations| && i !in failing
  {
    idx := [];
    if observations != [] {
      var n := |observations| - 1;
      idx := SurvivingExactly(observations[..n], failing);
      var front := Surviving(observations[..n], failing);
      SubsequenceSkip(front, observations[..n], idx, observations[n]);
      assert observations[..n] + [observations[n]] == observations && front + [] == front;
      if n !in failing {
        idx := idx + [n];
      }
    }
  }

  lemma {:induction false} SurvivingNext(events: seq<Stored>, connectionID: int, observations: seq<Entry>,
                                         failing: set<nat>, i: nat)
    requires i < |observations|
    ensures InsertAll(events, connectionID, Surviving(observations[..i + 1], failing))
         == var before := InsertAll(events, connectionID, Surviving(observations[..i], failing));
            if i in failing then before else Insert(before, connectionID, observations[i])
  {
    assert observations[..i + 1][..i] == observations[..i];
    var before, o := Surviving(observations[..i], failing), observations[i];
    assert (before + [o])[..|before|] == before;
    assert before + [] == before;
  }

  // ----- what an evaluation finds ----------------------------------------------------

  /** All sustained rules ask for at least one sample. */
  predicate Sensible(thresholds: map<string, Rules.Setting>) {
    forall rule: Rules.Rule :: Rules.MinSamplesOf(rule, thresholds) >= 1
  }

  function Entries(ruleName: string, observations: seq<Rules.Observation>): (entries: seq<Entry>)
    ensures |entries| == |observations|
    ensures forall k | 0 <= k < |entries| :: entries[k] == Entry(ruleName, observations[k].startTs, observations[k].endTs)
  {
    seq(|observations|, i requires 0 <= i < |observations| =>
      Entry(ruleName, observations[i].startTs, observations[i].endTs))
  }

  function FreezeEntries(observations: seq<Rules.FreezeObservation>): (entries: seq<Entry>)
    ensures |entries| == |observations|
    ensures forall k | 0 <= k < |entries| ::
      entries[k] == Entry("video_freeze_repeated", observations[k].startTs, observations[k].endTs)
  {
    seq(|observations|, i requires 0 <= i < |observations| =>
      Entry("video_freeze_repeated", observations[i].startTs, observations[i].endTs))
  }

  function SpikeEntries(ruleName: string, spikes: seq<Rules.Spike>): (entries: seq<Entry>)
    ensures |entries| == |spikes|
    ensures forall k | 0 <= k < |entries| :: entries[k] == Entry(ruleName, spikes[k].startTs, spikes[k].endTs)
  {
    seq(|spikes|, i requires 0 <= i < |spikes| => Entry(ruleName, spikes[i].startTs, spikes[i].endTs))
  }

  /** The times of the connection's failed ICE states; a failing query is logged and skipped. */
  function IceEntries(ice: Option<seq<int>>): (entries: seq<Entry>)
    ensures |entries| == if ice.None? then 0 else |ice.value|
    ensures forall k | 0 <= k < |entries| :: entries[k] == Entry("ice_failure", ice.value[k], ice.value[k])
  {
    if ice.None? then [] else seq(|ice.value|, i requires 0 <= i < |ice.value| => Entry("ice_failure", ice.value[i], ice.value[i]))
  }

  /** What each rule that looks at the statistics reports. */
  datatype Findings = Findings(
    loss: seq<Rules.Observation>, lossSpikes: seq<Rules.Spike>, rtt: seq<Rules.Observation>, rttSpikes: seq<Rules.Spike>,
    jitter: seq<Rules.Observation>, freezes: seq<Rules.FreezeObservation>, audio: seq<Rules.Observation>,
    collapses: seq<Rules.Spike>)

  /** The rules' reports in the order of DefaultRules. */
  function Parts(f: Findings, ice: Option<seq<int>>): seq<seq<Entry>> {
    [Entries("packet_loss_sustained", f.loss), SpikeEntries("packet_loss_spike", f.lossSpikes),
     Entries("rtt_high", f.rtt), SpikeEntries("rtt_spike", f.rttSpikes), Entries("jitter_high", f.jitter),
     FreezeEntries(f.freezes), Entries("audio_concealment_high", f.audio),
     SpikeEntries("bitrate_collapse", f.collapses), IceEntries(ice)]
  }

  function Gather(f: Findings, ice: Option<seq<int>>): seq<Entry> {
    Concat(Parts(f, ice))
  }

  // ----- the thresholds --------------------------------------------------------------

  /** The defaults of NewObservationEngine. */
  const Defaults: map<string, Rules.Setting> := map[
    "packet_loss_sustained.threshold" := Rules.Number(0.05),
    "packet_loss_spike.threshold" := Rules.Number(0.15),
    "rtt_high.threshold" := Rules.Number(300.0),
    "rtt_spike_delta.threshold" := Rules.Number(100.0),
    "jitter_high.threshold" := Rules.Number(50.0),
    "audio_concealment_high.threshold" := Rules.Number(0.10),
    "bitrate_collapse_ratio.threshold" := Rules.Number(0.50),
    "packet_loss_sustained.min_samples" := Rules.Number(3.0),
    "rtt_high.min_samples" := Rules.Number(2.0),
    "jitter_high.min_samples" := Rules.Number(3.0),
    "audio_concealment_high.min_samples" := Rules.Number(3.0)]

  /** loadThresholds: the app's own settings over the defaults. */
  function LoadThresholds(settings: map<string, Rules.Setting>): map<string, Rules.Setting> {
    Defaults + settings
  }

  /** The defaults of the engine and the fallbacks of the rules are the same: laying one over the other changes nothing. */
  lemma {:induction false} FallbacksAreDefaults(settings: map<string, Rules.Setting>, rule: Rules.Rule, spikes: Rules.SpikeRule,
                                                rows: seq<Rules.StatRow>, i: nat)
    ensures Rules.ThresholdOf(rule, LoadThresholds(settings)) == Rules.ThresholdOf(rule, settings)
    ensures Rules.MinSamplesOf(rule, LoadThresholds(settings)) == Rules.MinSamplesOf(rule, settings)
    ensures i < |rows| ==> (Rules.Fires(spikes, rows, LoadThresholds(settings), i) <==> Rules.Fires(spikes, rows, settings, i))
    ensures Rules.ThresholdOf(rule, Defaults) == Rules.ThresholdOf(rule, map[])
    ensures Rules.MinSamplesOf(rule, Defaults) == Rules.MinSamplesOf(rule, map[])
  {
    match rule {
      case PacketLossSustained =>
        LaidOver(settings, "packet_loss_sustained.threshold", 0.05);
        LaidOver(settings, "packet_loss_sustained.min_samples", 3.0);
      case RttHigh =>
        LaidOver(settings, "rtt_high.threshold", 300.0);
        LaidOver(settings, "rtt_high.min_samples", 2.0);
      case JitterHigh =>
        LaidOver(settings, "jitter_high.threshold", 50.0);
        LaidOver(settings, "jitter_high.min_samples", 3.0);
      case AudioConcealmentHigh =>
        LaidOver(settings, "audio_concealment_high.threshold", 0.10);
        LaidOver(settings, "audio_concealment_high.min_samples", 3.0);
    }
    match spikes {
      case PacketLossSpike => LaidOver(settings, "packet_loss_spike.threshold", 0.15);
      case RttSpike => LaidOver(settings, "rtt_spike_delta.threshold", 100.0);
      case BitrateCollapse => LaidOver(settings, "bitrate_collapse_ratio.threshold", 0.50);
    }
  }

  lemma {:induction false} LaidOver(settings: map<string, Rules.Setting>, key: string, fallback: real)
    requires key in Defaults && Defaults[key] == Rules.Number(fallback)
    ensures Rules.FloatThreshold(LoadThresholds(settings), key, fallback) == Rules.FloatThreshold(settings, key, fallback)
    ensures Rules.FloatThreshold(Defaults, key, fallback) == fallback
  {
  }

  lemma {:induction false} FiringSame(settings: map<string, Rules.Setting>, spikes: Rules.SpikeRule, rows: seq<Rules.StatRow>, n: nat)
    requires n <= |rows|
    ensures Rules.Firing(spikes, rows, LoadThresholds(settings), n) == Rules.Firing(spikes, rows, settings, n)
  {
    if n > 0 {
      FiringSame(settings, spikes, rows, n - 1);
      FallbacksAreDefaults(settings, Rules.RttHigh, spikes, rows, n - 1);
    }
  }

  lemma {:induction false} SameFoundBy(f: Findings, rows: seq<Rules.StatRow>, settings: map<string, Rules.Setting>)
    requires FoundBy(f, rows, LoadThresholds(settings))
    ensures FoundBy(f, rows, settings)
  {
    forall rule: Rules.Rule
      ensures Rules.ThresholdOf(rule, LoadThresholds(settings)) == Rules.ThresholdOf(rule, settings)
      ensures Rules.MinSamplesOf(rule, LoadThresholds(settings)) == Rules.MinSamplesOf(rule, settings)
    {
      FallbacksAreDefaults(settings, rule, Rules.RttSpike, rows, 0);
    }
    FiringSame(settings, Rules.PacketLossSpike, rows, |rows|);
    FiringSame(settings, Rules.RttSpike, rows, |rows|);
    FiringSame(settings, Rules.BitrateCollapse, rows, |rows|);
  }

  lemma {:induction false} DefaultsChangeNothing(rows: seq<Rules.StatRow>, settings: map<string, Rules.Setting>, ice: Option<seq<int>>)
    ensures (exists rule :: RulePanics(rule, rows, LoadThresholds(settings))) <==> exists rule :: RulePanics(rule, rows, settings)
    ensures forall found | Found(found, rows, LoadThresholds(settings), ice) :: Found(found, rows, settings, ice)
  {
    forall rule ensures RulePanics(rule, rows, LoadThresholds(settings)) <==> RulePanics(rule, rows, settings) {
      FallbacksAreDefaults(settings, rule, Rules.RttSpike, rows, 0);
    }
    forall found | Found(found, rows, LoadThresholds(settings), ice) ensures Found(found, rows, settings, ice) {
      var f :| FoundBy(f, rows, LoadThresholds(settings)) && found == Gather(f, ice);
      SameFoundBy(f, rows, settings);
    }
  }

  // ----- what holds of the entries ---------------------------------------------------

  ghost predicate RulePanics(rule: Rules.Rule, rows: seq<Rules.StatRow>, thresholds: map<string, Rules.Setting>) {
    Rules.Panics(rule, rows, Rules.ThresholdOf(rule, thresholds), Rules.MinSamplesOf(rule, thresholds))
  }

  /** The result of a sustained rule with its configured threshold and length. */
  ghost predicate Answers(result: Option<seq<Rules.Observation>>, rule: Rules.Rule, rows: seq<Rules.StatRow>,
                          thresholds: map<string, Rules.Setting>) {
    Rules.Evaluated(result, rule, rows, Rules.ThresholdOf(rule, thresholds), Rules.MinSamplesOf(rule, thresholds))
  }

  ghost predicate FoundBy(f: Findings, rows: seq<Rules.StatRow>, thresholds: map<string, Rules.Setting>) {
    && Answers(Some(f.loss), Rules.PacketLossSustained, rows, thresholds)
    && Answers(Some(f.rtt), Rules.RttHigh, rows, thresholds)
    && Answers(Some(f.jitter), Rules.JitterHigh, rows, thresholds)
    && Answers(Some(f.audio), Rules.AudioConcealmentHigh, rows, thresholds)
    && Rules.ExactlyFreezes(f.freezes, rows)
    && Rules.ExactlySpikes(f.lossSpikes, Rules.PacketLossSpike, rows, thresholds)
    && Rules.ExactlySpikes(f.rttSpikes, Rules.RttSpike, rows, thresholds)
    && Rules.ExactlySpikes(f.collapses, Rules.BitrateCollapse, rows, thresholds)
  }

  /** found is what the rules report, one rule after the other. */
  ghost predicate Found(found: seq<Entry>, rows: seq<Rules.StatRow>, thresholds: map<string, Rules.Setting>, ice: Option<seq<int>>) {
    exists f :: FoundBy(f, rows, thresholds) && found == Gather(f, ice)
  }

  lemma {:induction false} PanicOfOne(loss: Option<seq<Rules.Observation>>, rtt: Option<seq<Rules.Observation>>,
                                      jitter: Option<seq<Rules.Observation>>, audio: Option<seq<Rules.Observation>>,
                                      rows: seq<Rules.StatRow>, thresholds: map<string, Rules.Setting>)
    requires Answers(loss, Rules.PacketLossSustained, rows, thresholds) && Answers(rtt, Rules.RttHigh, rows, thresholds)
    requires Answers(jitter, Rules.JitterHigh, rows, thresholds) && Answers(audio, Rules.AudioConcealmentHigh, rows, thresholds)
    requires loss.None? || rtt.None? || jitter.None? || audio.None?
    ensures exists rule :: RulePanics(rule, rows, thresholds)
  {
    var rule := if loss.None? then Rules.PacketLossSustained else if rtt.None? then Rules.RttHigh
                else if jitter.None? then Rules.JitterHigh else Rules.AudioConcealmentHigh;
    assert RulePanics(rule, rows, thresholds);
  }

  lemma {:induction false} NoPanic(f: Findings, rows: seq<Rules.StatRow>, thresholds: map<string, Rules.Setting>)
    requires FoundBy(f, rows, thresholds)
    ensures !exists rule :: RulePanics(rule, rows, thresholds)
  {
    forall rule: Rules.Rule ensures !RulePanics(rule, rows, thresholds) {
      match rule
      case PacketLossSustained =>
      case RttHigh =>
      case JitterHigh =>
      case AudioConcealmentHigh =>
    }
  }

  /** The entries under one rule's name, in order. */
  function OfRule(found: seq<Entry>, ruleName: string): seq<Entry> {
    if found == [] then []
    else OfRule(found[..|found| - 1], ruleName) + if found[|found| - 1].ruleName == ruleName then [found[|found| - 1]] else []
  }

  lemma {:induction false} OfRuleConcat(a: seq<Entry>, b: seq<Entry>, ruleName: string)
    ensures OfRule(a + b, ruleName) == OfRule(a, ruleName) + OfRule(b, ruleName)
  {
    if b == [] {
      assert a + b == a;
    } else {
      var n := |b| - 1;
      OfRuleConcat(a, b[..n], ruleName);
      assert (a + b)[..|a| + n] == a + b[..n];
    }
  }

  ghost predicate AllNamed(entries: seq<Entry>, ruleName: string) {
    forall k | 0 <= k < |entries| :: entries[k].ruleName == ruleName
  }

  lemma {:induction false} OfRuleAll(entries: seq<Entry>, own: string, ruleName: string)
    requires AllNamed(entries, own)
    ensures OfRule(entries, ruleName) == if own == ruleName then entries else []
  {
    if entries != [] {
      var n := |entries| - 1;
      OfRuleAll(entries[..n], own, ruleName);
      assert entries == entries[..n] + [entries[n]];
    }
  }

  /** Each part has one name, and part i shares its name with no other. */
  ghost predicate NamedApart(parts: seq<seq<Entry>>, names: seq<string>, i: nat)
    requires |parts| == |names| && i < |parts|
  {
    forall j | 0 <= j < |parts| :: AllNamed(parts[j], names[j]) && (j != i ==> names[j] != names[i])
  }

  /** With a name of its own for every part, a part is what the whole has under its name. */
  lemma {:induction false} OfRulePart(parts: seq<seq<Entry>>, names: seq<string>, i: nat)
    requires |parts| == |names| && i < |parts|
    requires NamedApart(parts, names, i)
    ensures OfRule(Concat(parts), names[i]) == parts[i]
  {
    OfRulePrefix(parts, names, i, |parts|);
    assert parts[..|parts|] == parts;
  }

  lemma {:induction false} OfRulePrefix(parts: seq<seq<Entry>>, names: seq<string>, i: nat, n: nat)
    requires |parts| == |names| && i < |parts| && n <= |parts|
    requires NamedApart(parts, names, i)
    ensures OfRule(Concat(parts[..n]), names[i]) == if i < n then parts[i] else []
  {
    if n > 0 {
      OfRulePrefix(parts, names, i, n - 1);
      if n - 1 == i {
        OfRuleOwn(parts, n, names[i]);
      } else {
        OfRuleOther(parts, n, names[n - 1], names[i]);
      }
    }
  }

  lemma {:induction false} OfRuleOwn(parts: seq<seq<Entry>>, n: nat, ruleName: string)
    requires 0 < n <= |parts| && AllNamed(parts[n - 1], ruleName) && OfRule(Concat(parts[..n - 1]), ruleName) == []
    ensures OfRule(Concat(parts[..n]), ruleName) == parts[n - 1]
  {
    assert parts[..n][..n - 1] == parts[..n - 1];
    OfRuleConcat(Concat(parts[..n - 1]), parts[n - 1], ruleName);
    OfRuleAll(parts[n - 1], ruleName, ruleName);
  }

  lemma {:induction false} OfRuleOther(parts: seq<seq<Entry>>, n: nat, own: string, ruleName: string)
    requires 0 < n <= |parts| && AllNamed(parts[n - 1], own) && own != ruleName
    ensures OfRule(Concat(parts[..n]), ruleName) == OfRule(Concat(parts[..n - 1]), ruleName)
  {
    assert parts[..n][..n - 1] == parts[..n - 1];
    OfRuleConcat(Concat(parts[..n - 1]), parts[n - 1], ruleName);
    OfRuleAll(parts[n - 1], own, ruleName);
  }

  const RuleNames: seq<string> := [
    "packet_loss_sustained", "packet_loss_spike", "rtt_high", "rtt_spike", "jitter_high", "video_freeze_repeated",
    "audio_concealment_high", "bitrate_collapse", "ice_failure"]

  lemma {:induction false} NamesDiffer(i: nat, j: nat)
    requires i < 9 && j < 9 && RuleNames[i] == RuleNames[j]
    ensures i == j
  {
  }

  lemma {:induction false} PartsOfRules(f: Findings, ice: Option<seq<int>>)
    ensures forall i: nat | i < 9 :: OfRule(Gather(f, ice), RuleNames[i]) == Parts(f, ice)[i]
  {
    var parts := Parts(f, ice);
    forall i: nat | i < 9 ensures OfRule(Gather(f, ice), RuleNames[i]) == parts[i] {
      forall j: nat | j < 9 ensures AllNamed(parts[j], RuleNames[j]) && (j != i ==> RuleNames[j] != RuleNames[i]) {
        if RuleNames[j] == RuleNames[i] {
          NamesDiffer(i, j);
        }
      }
      OfRulePart(parts, RuleNames, i);
    }
  }

  /** Every finding of every rule is told once, under its rule's name and with its own times. */
  lemma {:induction false} EveryFindingTold(found: seq<Entry>, rows: seq<Rules.StatRow>, thresholds: map<string, Rules.Setting>,
                                            ice: Option<seq<int>>) returns (f: Findings)
    requires Found(found, rows, thresholds, ice)
    ensures FoundBy(f, rows, thresholds)
    ensures OfRule(found, "packet_loss_sustained") == Entries("packet_loss_sustained", f.loss)
    ensures OfRule(found, "packet_loss_spike") == SpikeEntries("packet_loss_spike", f.lossSpikes)
    ensures OfRule(found, "rtt_high") == Entries("rtt_high", f.rtt)
    ensures OfRule(found, "rtt_spike") == SpikeEntries("rtt_spike", f.rttSpikes)
    ensures OfRule(found, "jitter_high") == Entries("jitter_high", f.jitter)
    ensures OfRule(found, "video_freeze_repeated") == FreezeEntries(f.freezes)
    ensures OfRule(found, "audio_concealment_high") == Entries("audio_concealment_high", f.audio)
    ensures OfRule(found, "bitrate_collapse") == SpikeEntries("bitrate_collapse", f.collapses)
    ensures OfRule(found, "ice_failure") == IceEntries(ice)
    ensures forall e | e in found :: e.ruleName in RuleNames
  {
    f :| FoundBy(f, rows, thresholds) && found == Gather(f, ice);
    GatheredByRule(f, ice);
    NoOtherName(f, ice);
  }

  lemma {:induction false} GatheredByRule(f: Findings, ice: Option<seq<int>>)
    ensures var found := Gather(f, ice);
      && OfRule(found, "packet_loss_sustained") == Entries("packet_loss_sustained", f.loss)
      && OfRule(found, "packet_loss_spike") == SpikeEntries("packet_loss_spike", f.lossSpikes)
      && OfRule(found, "rtt_high") == Entries("rtt_high", f.rtt)
      && OfRule(found, "rtt_spike") == SpikeEntries("rtt_spike", f.rttSpikes)
      && OfRule(found, "jitter_high") == Entries("jitter_high", f.jitter)
      && OfRule(found, "video_freeze_repeated") == FreezeEntries(f.freezes)
      && OfRule(found, "audio_concealment_high") == Entries("audio_concealment_high", f.audio)
      && OfRule(found, "bitrate_collapse") == SpikeEntries("bitrate_collapse", f.collapses)
      && OfRule(found, "ice_failure") == IceEntries(ice)
  {
    PartsOfRules(f, ice);
    var found := Gather(f, ice);
    assert OfRule(found, RuleNames[0]) == Parts(f, ice)[0] && OfRule(found, RuleNames[1]) == Parts(f, ice)[1];
    assert OfRule(found, RuleNames[2]) == Parts(f, ice)[2] && OfRule(found, RuleNames[3]) == Parts(f, ice)[3];
    assert OfRule(found, RuleNames[4]) == Parts(f, ice)[4] && OfRule(found, RuleNames[5]) == Parts(f, ice)[5];
    assert OfRule(found, RuleNames[6]) == Parts(f, ice)[6] && OfRule(found, RuleNames[7]) == Parts(f, ice)[7];
    assert OfRule(found, RuleNames[8]) == Parts(f, ice)[8];
  }

  lemma {:induction false} NoOtherName(f: Findings, ice: Option<seq<int>>)
    ensures forall e | e in Gather(f, ice) :: e.ruleName in RuleNames
  {
    forall e | e in Gather(f, ice) ensures e.ruleName in RuleNames {
      var i := PartOf(Parts(f, ice), e);
      assert AllNamed(Parts(f, ice)[i], RuleNames[i]);
    }
  }

  lemma {:induction false} PartOf(parts: seq<seq<Entry>>, e: Entry) returns (i: nat)
    requires e in Concat(parts)
    ensures i < |parts| && e in parts[i]
  {
    var n := |parts| - 1;
    if e in parts[n] {
      i := n;
    } else {
      i := PartOf(parts[..n], e);
    }
  }

  /** The same statistics, thresholds and ICE failures give the same entries. */
  lemma {:induction false} FoundUnique(a: seq<Entry>, b: seq<Entry>, rows: seq<Rules.StatRow>,
                                       thresholds: map<string, Rules.Setting>, ice: Option<seq<int>>)
    requires Found(a, rows, thresholds, ice) && Found(b, rows, thresholds, ice)
    ensures a == b
  {
    var f :| FoundBy(f, rows, thresholds) && a == Gather(f, ice);
    var g :| FoundBy(g, rows, thresholds) && b == Gather(g, ice);
    FindingsUnique(f, g, rows, thresholds);
  }

  lemma {:induction false} FindingsUnique(f: Findings, g: Findings, rows: seq<Rules.StatRow>, thresholds: map<string, Rules.Setting>)
    requires FoundBy(f, rows, thresholds) && FoundBy(g, rows, thresholds)
    ensures f == g
  {
    AnswersUnique(f.loss, g.loss, Rules.PacketLossSustained, rows, thresholds);
    AnswersUnique(f.rtt, g.rtt, Rules.RttHigh, rows, thresholds);
    AnswersUnique(f.jitter, g.jitter, Rules.JitterHigh, rows, thresholds);
    AnswersUnique(f.audio, g.audio, Rules.AudioConcealmentHigh, rows, thresholds);
    Rules.FreezesUnique(f.freezes, g.freezes, rows);
    Rules.SpikesUnique(f.lossSpikes, g.lossSpikes, Rules.PacketLossSpike, rows, thresholds);
    Rules.SpikesUnique(f.rttSpikes, g.rttSpikes, Rules.RttSpike, rows, thresholds);
    Rules.SpikesUnique(f.collapses, g.collapses, Rules.BitrateCollapse, rows, thresholds);
  }

  lemma {:induction false} AnswersUnique(a: seq<Rules.Observation>, b: seq<Rules.Observation>, rule: Rules.Rule,
                                         rows: seq<Rules.StatRow>, thresholds: map<string, Rules.Setting>)
    requires Answers(Some(a), rule, rows, thresholds) && Answers(Some(b), rule, rows, thresholds)
    ensures a == b
  {
    Rules.EvaluatedUnique(Some(a), Some(b), rule, rows, Rules.ThresholdOf(rule, thresholds), Rules.MinSamplesOf(rule, thresholds));
  }

  /** With sensible settings no rule panics, and every sustained rule reports exactly its maximal runs. */
  lemma {:induction false} SensibleIsExact(rows: seq<Rules.StatRow>, thresholds: map<string, Rules.Setting>, rule: Rules.Rule,
                                           result: Option<seq<Rules.Observation>>)
    requires Sensible(thresholds) && |rows| < 0x1_0000_0000 && Answers(result, rule, rows, thresholds)
    ensures result.Some?
    ensures Rules.ExactlyObserved(result.value, rule, rows, Rules.ThresholdOf(rule, thresholds), Rules.MinSamplesOf(rule, thresholds))
  {
    var threshold, minSamples := Rules.ThresholdOf(rule, thresholds), Rules.MinSamplesOf(rule, thresholds);
    Rules.PanicsExactlyWhen(rule, rows, threshold, minSamples);
    Rules.ExactlyWhenNoEmptyStreak(result.value, rule, rows, threshold, minSamples);
  }

  // ----- running an evaluation again -------------------------------------------------

  predicate WholeSeconds(o: Entry) {
    Whole(o.startTs) && Whole(o.endTs)
  }

  /** Everything stored is in whole seconds. */
  ghost predicate AllWhole(events: seq<Stored>) {
    forall e | e in events :: WholeSeconds(e.entry)
  }

  function Fractional(observations: seq<Entry>): nat {
    if observations == [] then 0
    else
      var n := |observations| - 1;
      Fractional(observations[..n]) + if WholeSeconds(observations[n]) then 0 else 1
  }

  ghost predicate Knows(events: seq<Stored>, connectionID: int, observations: seq<Entry>) {
    forall o | o in observations && WholeSeconds(o) :: Stored(connectionID, o) in events
  }

  lemma {:induction false} InsertKeeps(events: seq<Stored>, connectionID: int, o: Entry)
    ensures events <= Insert(events, connectionID, o)
    ensures AllWhole(events) ==> AllWhole(Insert(events, connectionID, o))
    ensures WholeSeconds(o) ==> Stored(connectionID, o) in Insert(events, connectionID, o)
  {
  }

  lemma {:induction false} InsertAllKeeps(events: seq<Stored>, connectionID: int, observations: seq<Entry>)
    ensures events <= InsertAll(events, connectionID, observations)
    ensures AllWhole(events) ==> AllWhole(InsertAll(events, connectionID, observations))
    ensures Knows(InsertAll(events, connectionID, observations), connectionID, observations)
  {
    if observations != [] {
      var n := |observations| - 1;
      var before := InsertAll(events, connectionID, observations[..n]);
      InsertAllKeeps(events, connectionID, observations[..n]);
      InsertKeeps(before, connectionID, observations[n]);
      assert observations == observations[..n] + [observations[n]];
    }
  }

  /** The event is the observation with both times cut to whole seconds. */
  ghost predicate StoresCut(e: Stored, connectionID: int, o: Entry) {
    && e.connectionID == connectionID && e.entry.ruleName == o.ruleName
    && e.entry.startTs == o.startTs - o.startTs % 1_000_000_000 && e.entry.endTs == o.endTs - o.endTs % 1_000_000_000
  }

  /** Whatever is stored is an observation, cut; and every observation is there, cut or as it was before. */
  lemma {:induction false} StoredIsFound(events: seq<Stored>, connectionID: int, observations: seq<Entry>)
    ensures forall e | e in InsertAll(events, connectionID, observations) ::
      e in events || exists o :: o in observations && StoresCut(e, connectionID, o)
    ensures forall o | o in observations ::
      Stored(connectionID, o) in events
      || exists e :: e in InsertAll(events, connectionID, observations) && StoresCut(e, connectionID, o)
  {
    if observations != [] {
      var n := |observations| - 1;
      var before, o := InsertAll(events, connectionID, observations[..n]), observations[n];
      StoredIsFound(events, connectionID, observations[..n]);
      assert observations == observations[..n] + [o];
      assert StoresCut(Row(connectionID, o), connectionID, o);
      if Stored(connectionID, o) in before && Stored(connectionID, o) !in events {
        var q :| q in observations[..n] && StoresCut(Stored(connectionID, o), connectionID, q);
        CutStays(connectionID, o, q);
      }
    }
  }

  /** What is stored as the cut of something is its own cut. */
  lemma {:induction false} CutStays(connectionID: int, o: Entry, q: Entry)
    requires StoresCut(Stored(connectionID, o), connectionID, q)
    ensures StoresCut(Stored(connectionID, o), connectionID, o)
  {
  }

  /** Where all whole-second observations are known, a run adds one row for each of the others, every time. */
  lemma {:induction false} GrowsByFractional(events: seq<Stored>, connectionID: int, all: seq<Entry>, n: nat)
    requires AllWhole(events) && Knows(events, connectionID, all) && n <= |all|
    ensures |InsertAll(events, connectionID, all[..n])| == |events| + Fractional(all[..n])
  {
    if n > 0 {
      var before := InsertAll(events, connectionID, all[..n - 1]);
      GrowsByFractional(events, connectionID, all, n - 1);
      InsertAllKeeps(events, connectionID, all[..n - 1]);
      assert all[..n][..n - 1] == all[..n - 1];
      var o := all[n - 1];
      assert o in all;
      if WholeSeconds(o) {
        assert Stored(connectionID, o) in events;
        assert Stored(connectionID, o) in before;
      } else {
        assert Stored(connectionID, o) !in before;
      }
    }
  }

  /** Evaluating again adds exactly one more row for every observation that does not fall on whole seconds. */
  lemma {:induction false} RerunAdds(events: seq<Stored>, connectionID: int, observations: seq<Entry>)
    requires AllWhole(events)
    ensures var once := InsertAll(events, connectionID, observations);
      |InsertAll(once, connectionID, observations)| == |once| + Fractional(observations)
  {
    var once := InsertAll(events, connectionID, observations);
    InsertAllKeeps(events, connectionID, observations);
    GrowsByFractional(once, connectionID, observations, |observations|);
    assert observations[..|observations|] == observations;
  }

  lemma {:induction false} FractionalZero(observations: seq<Entry>)
    ensures Fractional(observations) == 0 <==> forall o | o in observations :: WholeSeconds(o)
  {
    if observations != [] {
      var n := |observations| - 1;
      FractionalZero(observations[..n]);
      assert observations == observations[..n] + [observations[n]];
    }
  }

  /** Evaluation is idempotent exactly when all its observations start and end on whole seconds. */
  lemma {:induction false} IdempotentExactlyWhen(events: seq<Stored>, connectionID: int, observations: seq<Entry>)
    requires AllWhole(events)
    ensures var once := InsertAll(events, connectionID, observations);
      InsertAll(once, connectionID, observations) == once <==> forall o | o in observations :: WholeSeconds(o)
  {
    var once := InsertAll(events, connectionID, observations);
    RerunAdds(events, connectionID, observations);
    FractionalZero(observations);
    InsertAllKeeps(once, connectionID, observations);
  }

  /** The table after n evaluations that find the same. */
  function Evaluations(events: seq<Stored>, connectionID: int, found: seq<Entry>, n: nat): seq<Stored> {
    if n == 0 then events else InsertAll(Evaluations(events, connectionID, found, n - 1), connectionID, found)
  }

  /** Every evaluation after the first adds the same number of rows again. */
  lemma {:induction false} EvaluationsGrow(events: seq<Stored>, connectionID: int, found: seq<Entry>, n: nat)
    requires AllWhole(events) && n > 0
    ensures AllWhole(Evaluations(events, connectionID, found, n - 1))
    ensures |Evaluations(events, connectionID, found, n)|
         == |InsertAll(events, connectionID, found)| + (n - 1) * Fractional(found)
  {
    if n == 1 {
      assert Evaluations(events, connectionID, found, 0) == events;
    } else {
      var before := Evaluations(events, connectionID, found, n - 2);
      EvaluationsGrow(events, connectionID, found, n - 1);
      InsertAllKeeps(before, connectionID, found);
      RerunAdds(before, connectionID, found);
    }
  }

  /**
   * Evaluating a connection a second time with the same statistics and ICE failures: it finds the same, and
   * leaves the table as it is exactly when every reported stretch starts and ends on whole seconds.
   */
  lemma {:induction false} ReevaluationExactlyWhen(events: seq<Stored>, connectionID: int, rows: seq<Rules.StatRow>,
                                                   thresholds: map<string, Rules.Setting>, ice: Option<seq<int>>,
                                                   first: seq<Entry>, second: seq<Entry>)
    requires AllWhole(events) && Found(first, rows, thresholds, ice) && Found(second, rows, thresholds, ice)
    ensures var once := InsertAll(events, connectionID, first);
      InsertAll(once, connectionID, second) == once <==> forall o | o in first :: WholeSeconds(o)
  {
    FoundUnique(first, second, rows, thresholds, ice);
    IdempotentExactlyWhen(events, connectionID, first);
  }
}

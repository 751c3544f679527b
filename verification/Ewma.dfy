/**
 * internal/ingest/flush.go, the smoothing half: exponentially weighted averages kept per
 * (connection, source) key across flushes, with a sweep of entries idle for over an hour.
 *
 * Table, Sweep and Observe are the map the code mutates. Val is the reference they are compared
 * with: it looks only at the list of all events so far and knows no map and no sweep.
 */
module Ewma {
  import opened Common
  import opened Model

  /** One hour in nanoseconds. */
  const StateTtl: int := 3_600_000_000_000

  datatype State = State(value: Metrics, lastSeen: int)
  type Table = map<string, State>

  function Mix(raw: real, s: real): real { 0.2 * raw + (1.0 - 0.2) * s }

  /** ewmaState.update, without the clock. */
  function Blend(raw: Metrics, s: Metrics): Metrics {
    Metrics(Mix(raw.loss, s.loss), Mix(raw.jitter, s.jitter), Mix(raw.rtt, s.rtt),
            Mix(raw.bitrateIn, s.bitrateIn), Mix(raw.bitrateOut, s.bitrateOut))
  }

  /** One snapshot being smoothed: at is the clock reading taken for it, now the one its call swept with. */
  datatype Event = Event(key: string, raw: Metrics, at: int, now: int)

  predicate Stale(lastSeen: int, now: int) { lastSeen < now - StateTtl }

  function Sweep(t: Table, now: int): Table {
    map k | k in t && !Stale(t[k].lastSeen, now) :: t[k]
  }

  function Observe(t: Table, e: Event): Table {
    t[e.key := State(if e.key in t then Blend(e.raw, t[e.key].value) else e.raw, e.at)]
  }

  function ObserveAll(t: Table, es: seq<Event>): Table
    decreases |es|
  {
    if es == [] then t else ObserveAll(Observe(t, es[0]), es[1..])
  }

  /** The smoothed values emitted while es is observed. */
  function Emit(t: Table, es: seq<Event>): seq<Metrics>
    decreases |es|
  {
    if es == [] then [] else [Observe(t, es[0])[es[0].key].value] + Emit(Observe(t, es[0]), es[1..])
  }

  // ----- the reference: the list of all events ---------------------------------------

  /** The raw values of one key since its average last restarted, and when it was last seen. */
  datatype Track = Unseen | Seen(values: seq<Metrics>, lastSeen: int)

  /**
   * What the event list says about key k. Every event of k is appended to the values, after
   * forgetting them if k had been idle for over an hour when the event's call began.
   */
  function Follow(es: seq<Event>, k: string): (r: Track)
    ensures r.Seen? ==> r.values != []
  {
    if es == [] then Unseen
    else Advance(Follow(es[..|es| - 1], k), es[|es| - 1], k)
  }

  function Advance(before: Track, e: Event, k: string): Track {
    if e.key != k then before
    else if before.Unseen? || Stale(before.lastSeen, e.now) then Seen([e.raw], e.at)
    else Seen(before.values + [e.raw], e.at)
  }

  /** The average of a list of values: the first one, blended with each of the others in turn. */
  function Smooth(xs: seq<Metrics>): Metrics
    requires xs != []
  {
    if |xs| == 1 then xs[0] else Blend(xs[|xs| - 1], Smooth(xs[..|xs| - 1]))
  }

  /** The average due to the last event. */
  function Val(es: seq<Event>): Metrics
    requires es != []
  {
    var track := Follow(es, es[|es| - 1].key);
    if track.Seen? then Smooth(track.values) else es[|es| - 1].raw
  }

  lemma {:induction false} FollowSnoc(es: seq<Event>, e: Event, k: string)
    ensures Follow(es + [e], k) == Advance(Follow(es, k), e, k)
  {
  }

  /** Event j is the last one with key k. */
  ghost predicate LastOf(es: seq<Event>, k: string, j: nat) {
    j < |es| && es[j].key == k && forall i | j < i < |es| :: es[i].key != k
  }

  /** Reading of Follow: lastSeen is the clock reading of the key's last event. */
  lemma {:induction false} FollowIsLastEvent(es: seq<Event>, k: string) returns (j: nat)
    requires Follow(es, k).Seen?
    ensures LastOf(es, k, j) && Follow(es, k).lastSeen == es[j].at
  {
    j := |es| - 1;
    if es[j].key != k { j := FollowIsLastEvent(es[..j], k); }
  }

  lemma {:induction false} FollowUnseen(es: seq<Event>, k: string)
    ensures Follow(es, k).Unseen? <==> forall i | 0 <= i < |es| :: es[i].key != k
  {
    if es != [] {
      var n := |es| - 1;
      FollowUnseen(es[..n], k);
      assert forall i | 0 <= i < n :: es[..n][i] == es[i];
    }
  }

  /** Under key k, t is what a sweep at now leaves of the averages of es. */
  ghost predicate Agrees(t: Table, es: seq<Event>, now: int, k: string) {
    match Follow(es, k)
    case Unseen => k !in t
    case Seen(values, lastSeen) =>
      if Stale(lastSeen, now) then k !in t else k in t && t[k] == State(Smooth(values), lastSeen)
  }

  ghost predicate Represents(t: Table, es: seq<Event>, now: int) {
    forall k: string :: Agrees(t, es, now, k)
  }

  lemma {:induction false} RepresentsSweep(t: Table, es: seq<Event>, now: int, now': int)
    requires Represents(t, es, now) && now <= now'
    ensures Represents(Sweep(t, now'), es, now')
  {
    forall k: string ensures Agrees(Sweep(t, now'), es, now', k) {
      assert Agrees(t, es, now, k);
    }
  }

  lemma {:induction false} AgreesObserve(t: Table, es: seq<Event>, e: Event, k: string)
    requires Agrees(t, es, e.now, k) && e.now <= e.at
    ensures Agrees(Observe(t, e), es + [e], e.now, k)
  {
  }

  lemma {:induction false} RepresentsObserve(t: Table, es: seq<Event>, e: Event)
    requires Represents(t, es, e.now) && e.now <= e.at
    ensures Represents(Observe(t, e), es + [e], e.now)
  {
    forall k: string ensures Agrees(Observe(t, e), es + [e], e.now, k) {
      assert Agrees(t, es, e.now, k);
      AgreesObserve(t, es, e, k);
    }
  }

  /**
   * The code starts a new average exactly when the key's last event, if there is one, was over an
   * hour before the current call.
   */
  lemma {:induction false} RestartExactlyWhen(t: Table, es: seq<Event>, e: Event)
    requires Represents(t, es, e.now)
    ensures e.key !in t <==> forall j: nat | LastOf(es, e.key, j) :: Stale(es[j].at, e.now)
    ensures Follow(es + [e], e.key).Seen?
    ensures e.key !in t <==> Follow(es + [e], e.key).values == [e.raw]
  {
    assert Agrees(t, es, e.now, e.key);
    FollowSnoc(es, e, e.key);
    var before := Follow(es, e.key);
    FollowUnseen(es, e.key);
    if before.Seen? {
      var last := FollowIsLastEvent(es, e.key);
      assert |before.values + [e.raw]| > 1;
    }
  }

  // ----- any sequence of calls -------------------------------------------------------

  /** One buildStatRows call: the clock reading its sweep uses and the events it smooths. */
  datatype Call = Call(now: int, events: seq<Event>)

  /** The clock does not run backwards: calls are in order and each event is read after its call began. */
  predicate ClockOk(calls: seq<Call>) {
    && (forall c, d | 0 <= c < d < |calls| :: calls[c].now <= calls[d].now)
    && (forall c | 0 <= c < |calls| :: CallOk(calls[c]))
  }

  predicate CallOk(c: Call) {
    forall i | 0 <= i < |c.events| :: c.events[i].now == c.now <= c.events[i].at
  }

  function TableAfter(calls: seq<Call>): Table {
    if calls == [] then map[]
    else
      var c := calls[|calls| - 1];
      ObserveAll(Sweep(TableAfter(calls[..|calls| - 1]), c.now), c.events)
  }

  function Emitted(calls: seq<Call>): seq<Metrics> {
    if calls == [] then []
    else
      var c := calls[|calls| - 1];
      Emitted(calls[..|calls| - 1]) + Emit(Sweep(TableAfter(calls[..|calls| - 1]), c.now), c.events)
  }

  function Stream(calls: seq<Call>): seq<Event> {
    if calls == [] then [] else Stream(calls[..|calls| - 1]) + calls[|calls| - 1].events
  }

  lemma {:induction false} CallAdded(calls: seq<Call>, c: Call)
    requires ClockOk(calls) && (calls != [] ==> calls[|calls| - 1].now <= c.now)
    requires CallOk(c)
    ensures ClockOk(calls + [c])
    ensures TableAfter(calls + [c]) == ObserveAll(Sweep(TableAfter(calls), c.now), c.events)
  {
    assert (calls + [c])[..|calls|] == calls;
  }

  lemma {:induction false} ObserveAllRepresents(t: Table, es: seq<Event>, more: seq<Event>, now: int)
    requires Represents(t, es, now)
    requires forall i | 0 <= i < |more| :: more[i].now == now <= more[i].at
    ensures Represents(ObserveAll(t, more), es + more, now)
    decreases |more|
  {
    if more == [] {
      assert es + more == es;
    } else {
      RepresentsObserve(t, es, more[0]);
      ObserveAllRepresents(Observe(t, more[0]), es + [more[0]], more[1..], now);
      assert es + [more[0]] + more[1..] == es + more;
    }
  }

  lemma {:induction false} EmitLength(t: Table, es: seq<Event>)
    ensures |Emit(t, es)| == |es|
    decreases |es|
  {
    if es != [] { EmitLength(Observe(t, es[0]), es[1..]); }
  }

  lemma {:induction false} EmitIsTable(t: Table, es: seq<Event>, i: nat)
    requires i < |es| == |Emit(t, es)|
    ensures es[i].key in ObserveAll(t, es[..i + 1])
    ensures Emit(t, es)[i] == ObserveAll(t, es[..i + 1])[es[i].key].value
    decreases i
  {
    var t' := Observe(t, es[0]);
    assert es[..i + 1][1..] == es[1..][..i];
    if i == 0 {
      assert ObserveAll(t, es[..1]) == ObserveAll(t', []);
    } else {
      EmitIsTable(t', es[1..], i - 1);
    }
  }

  lemma {:induction false} EmitIsVal(t: Table, es: seq<Event>, more: seq<Event>, now: int, i: nat)
    requires Represents(t, es, now)
    requires forall i | 0 <= i < |more| :: more[i].now == now <= more[i].at
    requires i < |more| == |Emit(t, more)|
    ensures Emit(t, more)[i] == Val((es + more)[..|es| + i + 1])
  {
    EmitIsTable(t, more, i);
    ObserveAllRepresents(t, es, more[..i + 1], now);
    var all := es + more[..i + 1];
    assert all == (es + more)[..|es| + i + 1] && all[|all| - 1] == more[i];
    assert Agrees(ObserveAll(t, more[..i + 1]), all, now, more[i].key);
  }

  lemma {:induction false} EmptyRepresents(now: int)
    ensures Represents(map[], [], now)
  {
  }

  lemma {:induction false} ClockOkPrefix(calls: seq<Call>, n: nat)
    requires ClockOk(calls) && n <= |calls|
    ensures ClockOk(calls[..n])
  {
  }

  /** Just after call n's sweep, the table stands for all events of the calls before it. */
  lemma {:induction false} SweptTable(calls: seq<Call>, n: nat)
    requires ClockOk(calls) && n < |calls|
    ensures Represents(Sweep(TableAfter(calls[..n]), calls[n].now), Stream(calls[..n]), calls[n].now)
    decreases n
  {
    if n == 0 {
      EmptyRepresents(calls[0].now);
      assert Sweep(map[], calls[0].now) == map[];
    } else {
      var c := calls[n - 1];
      SweptTable(calls, n - 1);
      assert calls[..n][..n - 1] == calls[..n - 1];
      var t := Sweep(TableAfter(calls[..n - 1]), c.now);
      ObserveAllRepresents(t, Stream(calls[..n - 1]), c.events, c.now);
      RepresentsSweep(ObserveAll(t, c.events), Stream(calls[..n - 1]) + c.events, c.now, calls[n].now);
    }
  }

  /** The events before event i of call n, and the table the code holds when it comes to it. */
  ghost function Before(calls: seq<Call>, n: nat, i: nat): seq<Event>
    requires n < |calls| && i < |calls[n].events|
  {
    Stream(calls[..n]) + calls[n].events[..i]
  }

  ghost function TableBefore(calls: seq<Call>, n: nat, i: nat): Table
    requires n < |calls| && i < |calls[n].events|
  {
    ObserveAll(Sweep(TableAfter(calls[..n]), calls[n].now), calls[n].events[..i])
  }

  /**
   * In any run of calls: event i of call n starts a new average exactly when its key's last event, if there is
   * one, is over an hour before that call, and then the average is over that event alone.
   */
  lemma {:induction false} RestartInRun(calls: seq<Call>, n: nat, i: nat)
    requires ClockOk(calls) && n < |calls| && i < |calls[n].events|
    ensures var e, es := calls[n].events[i], Before(calls, n, i);
      && (e.key !in TableBefore(calls, n, i) <==> forall j: nat | LastOf(es, e.key, j) :: es[j].at < calls[n].now - 3_600_000_000_000)
      && Follow(es + [e], e.key).Seen?
      && (e.key !in TableBefore(calls, n, i) <==> Follow(es + [e], e.key).values == [e.raw])
  {
    var c := calls[n];
    SweptTable(calls, n);
    ObserveAllRepresents(Sweep(TableAfter(calls[..n]), c.now), Stream(calls[..n]), c.events[..i], c.now);
    RestartExactlyWhen(TableBefore(calls, n, i), Before(calls, n, i), c.events[i]);
  }

  /**
   * The sweep cannot be observed: over any sequence of calls, each emitted average is the one the
   * whole event list defines, and an event restarts its average exactly when its key is new or was
   * last seen over an hour before the call.
   */
  lemma {:induction false} SweepUnobservable(calls: seq<Call>)
    requires ClockOk(calls)
    ensures |Emitted(calls)| == |Stream(calls)|
    ensures forall i | 0 <= i < |Stream(calls)| :: Emitted(calls)[i] == Val(Stream(calls)[..i + 1])
    decreases |calls|
  {
    if calls != [] {
      var n := |calls| - 1;
      var c := calls[n];
      ClockOkPrefix(calls, n);
      SweepUnobservable(calls[..n]);
      SweptTable(calls, n);
      var es := Stream(calls[..n]);
      var t := Sweep(TableAfter(calls[..n]), c.now);
      EmitLength(t, c.events);
      forall i | 0 <= i < |Stream(calls)| ensures Emitted(calls)[i] == Val(Stream(calls)[..i + 1]) {
        if i < |es| {
          assert Stream(calls)[..i + 1] == es[..i + 1];
        } else {
          EmitIsVal(t, es, c.events, c.now, i - |es|);
        }
      }
    }
  }

  /** The averages a call reports, by the whole event list alone. */
  ghost function Reported(calls: seq<Call>, c: Call): (r: seq<Metrics>)
    ensures |r| == |c.events|
  {
    seq(|c.events|, i requires 0 <= i < |c.events| => Val(Stream(calls) + c.events[..i + 1]))
  }

  /** One more call reports what the whole event list defines. */
  lemma {:induction false} CallReports(calls: seq<Call>, c: Call)
    requires ClockOk(calls + [c])
    ensures Emit(Sweep(TableAfter(calls), c.now), c.events) == Reported(calls, c)
  {
    SweptTable(calls + [c], |calls|);
    assert (calls + [c])[..|calls|] == calls;
    var t := Sweep(TableAfter(calls), c.now);
    EmitLength(t, c.events);
    forall i | 0 <= i < |c.events| ensures Emit(t, c.events)[i] == Reported(calls, c)[i] {
      EmitIsVal(t, Stream(calls), c.events, c.now, i);
      assert (Stream(calls) + c.events)[..|Stream(calls)| + i + 1] == Stream(calls) + c.events[..i + 1];
    }
  }

  // ----- what one average is ---------------------------------------------------------

  datatype Metric = Loss | Jitter | Rtt | BitrateIn | BitrateOut

  function Get(m: Metrics, f: Metric): real {
    match f
    case Loss => m.loss
    case Jitter => m.jitter
    case Rtt => m.rtt
    case BitrateIn => m.bitrateIn
    case BitrateOut => m.bitrateOut
  }

  function Pow(n: nat): real { if n == 0 then 1.0 else 0.8 * Pow(n - 1) }

  /** 0.8^n x0 + sum over i in 1..k of 0.2 * 0.8^(n - i) xi. */
  function Weighted(xs: seq<Metrics>, f: Metric, n: nat, k: nat): real
    requires k < |xs| && k <= n
  {
    if k == 0 then Pow(n) * Get(xs[0], f)
    else Weighted(xs, f, n, k - 1) + 0.2 * Pow(n - k) * Get(xs[k], f)
  }

  lemma {:induction false} WeightedShift(xs: seq<Metrics>, ys: seq<Metrics>, f: Metric, n: nat, k: nat)
    requires k < |xs| && k < |ys| && k <= n && forall i | 0 <= i <= k :: xs[i] == ys[i]
    ensures Weighted(ys, f, n + 1, k) == 0.8 * Weighted(xs, f, n, k)
  {
    if k > 0 {
      WeightedShift(xs, ys, f, n, k - 1);
      assert 0.2 * Pow(n + 1 - k) * Get(ys[k], f) == 0.8 * (0.2 * Pow(n - k) * Get(xs[k], f));
    }
  }

  /** An average is the closed form 0.8^n x0 + sum of 0.2 * 0.8^(n - i) xi over its values. */
  lemma {:induction false} ClosedForm(xs: seq<Metrics>, f: Metric)
    requires xs != []
    ensures Get(Smooth(xs), f) == Weighted(xs, f, |xs| - 1, |xs| - 1)
    decreases |xs|
  {
    var n := |xs| - 1;
    if n > 0 {
      ClosedForm(xs[..n], f);
      WeightedShift(xs[..n], xs, f, n - 1, n - 1);
    }
  }

  /** An average lies between the least and the greatest of its values. */
  lemma {:induction false} AverageBetweenExtremes(xs: seq<Metrics>, f: Metric) returns (lo: nat, hi: nat)
    requires xs != []
    ensures lo < |xs| && hi < |xs|
    ensures Get(xs[lo], f) <= Get(Smooth(xs), f) <= Get(xs[hi], f)
    decreases |xs|
  {
    var n := |xs| - 1;
    lo, hi := 0, 0;
    if n > 0 {
      lo, hi := AverageBetweenExtremes(xs[..n], f);
      if Get(xs[n], f) < Get(xs[lo], f) { lo := n; }
      if Get(xs[n], f) > Get(xs[hi], f) { hi := n; }
    }
  }

  /** d scaled by 0.8 n times. */
  function Decay(n: nat, d: real): real { if n == 0 then d else 0.8 * Decay(n - 1, d) }

  lemma {:induction false} DecayIsPow(n: nat, d: real)
    ensures Decay(n, d) == Pow(n) * d
  {
    if n > 0 { DecayIsPow(n - 1, d); }
  }

  lemma {:induction false} DifferenceDecays(xs: seq<Metrics>, ys: seq<Metrics>, f: Metric)
    requires 0 < |xs| == |ys| && forall i | 0 < i < |xs| :: xs[i] == ys[i]
    ensures Get(Smooth(xs), f) - Get(Smooth(ys), f) == Decay(|xs| - 1, Get(xs[0], f) - Get(ys[0], f))
    decreases |xs|
  {
    var n := |xs| - 1;
    if n > 0 { DifferenceDecays(xs[..n], ys[..n], f); }
  }

  /** Two averages fed the same n values differ by exactly 0.8^n of their initial difference. */
  lemma {:induction false} Contraction(xs: seq<Metrics>, ys: seq<Metrics>, f: Metric)
    requires 0 < |xs| == |ys| && forall i | 0 < i < |xs| :: xs[i] == ys[i]
    ensures Get(Smooth(xs), f) - Get(Smooth(ys), f) == Pow(|xs| - 1) * (Get(xs[0], f) - Get(ys[0], f))
  {
    DifferenceDecays(xs, ys, f);
    DecayIsPow(|xs| - 1, Get(xs[0], f) - Get(ys[0], f));
  }

  // ----- independence of other keys --------------------------------------------------

  function OnlyKey(es: seq<Event>, k: string): seq<Event> {
    if es == [] then []
    else OnlyKey(es[..|es| - 1], k) + if es[|es| - 1].key == k then [es[|es| - 1]] else []
  }

  /** Events of other keys do not influence an average: dropping them all changes nothing. */
  lemma {:induction false} KeysAreIndependent(es: seq<Event>, k: string)
    ensures Follow(OnlyKey(es, k), k) == Follow(es, k)
    ensures es != [] && es[|es| - 1].key == k ==> OnlyKey(es, k) != [] && Val(OnlyKey(es, k)) == Val(es)
    decreases |es|
  {
    if es != [] {
      var n := |es| - 1;
      var own := OnlyKey(es[..n], k);
      KeysAreIndependent(es[..n], k);
      FollowSnoc(own, es[n], k);
      assert own + [] == own;
    }
  }

  // ----- splitting a batch -----------------------------------------------------------

  lemma {:induction false} ObserveAllConcat(t: Table, a: seq<Event>, b: seq<Event>)
    ensures ObserveAll(t, a + b) == ObserveAll(ObserveAll(t, a), b)
    ensures Emit(t, a + b) == Emit(t, a) + Emit(ObserveAll(t, a), b)
    decreases |a|
  {
    if a == [] {
      assert a + b == b;
    } else {
      assert (a + b)[1..] == a[1..] + b;
      ObserveAllConcat(Observe(t, a[0]), a[1..], b);
    }
  }

  lemma {:induction false} ObserveAllKeys(t: Table, es: seq<Event>, k: string)
    ensures k in ObserveAll(t, es) <==> k in t || exists i | 0 <= i < |es| :: es[i].key == k
    decreases |es|
  {
    if es != [] {
      ObserveAllKeys(Observe(t, es[0]), es[1..], k);
      assert forall i | 1 <= i < |es| :: es[i] == es[1..][i - 1];
      assert forall i | 0 <= i < |es| - 1 :: es[1..][i] == es[i + 1];
    }
  }

  ghost predicate NoStaleKeys(t: Table, now: int) { forall k | k in t :: !Stale(t[k].lastSeen, now) }

  /**
   * Smoothing a batch in one call or in two gives the same rows and the same table when no key is
   * idle at the second call; an idle key absent from the second half is the difference otherwise.
   */
  lemma {:induction false} SplittingABatch(t: Table, a: seq<Event>, b: seq<Event>, later: int)
    ensures NoStaleKeys(ObserveAll(t, a), later) ==>
      && ObserveAll(Sweep(ObserveAll(t, a), later), b) == ObserveAll(t, a + b)
      && Emit(t, a) + Emit(Sweep(ObserveAll(t, a), later), b) == Emit(t, a + b)
    ensures (forall i | 0 <= i < |b| :: b[i].key !in ObserveAll(t, a) || !Stale(ObserveAll(t, a)[b[i].key].lastSeen, later))
      ==> (ObserveAll(Sweep(ObserveAll(t, a), later), b) == ObserveAll(t, a + b) <==> NoStaleKeys(ObserveAll(t, a), later))
  {
    var mid := ObserveAll(t, a);
    var swept := Sweep(mid, later);
    ObserveAllConcat(t, a, b);
    if NoStaleKeys(mid, later) {
      assert swept == mid;
    } else {
      var k :| k in mid && Stale(mid[k].lastSeen, later);
      ObserveAllKeys(swept, b, k);
      ObserveAllKeys(mid, b, k);
    }
  }
}

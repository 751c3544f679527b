/**
 * internal/ingest/flush.go: whose average a row carries, on the fields of the snapshots alone. A sample belongs
 * to a connection and a source; no composed key, no map and no sweep occurs in the definitions.
 */
module Averages {
  import opened Common
  import opened Model
  import opened Keys
  import Ewma

  /** One snapshot that was smoothed: at is the clock reading taken for it, now the one its call swept with. */
  datatype Sample = Sample(connectionID: string, source: string, raw: Metrics, at: int, now: int)

  predicate IsOf(x: Sample, connectionID: string, source: string) {
    x.connectionID == connectionID && x.source == source
  }

  /** The raw values of a connection and source since the last break of over an hour, 3600 * 10^9 nanoseconds. */
  function Own(samples: seq<Sample>, connectionID: string, source: string): (r: Ewma.Track)
    ensures r.Seen? ==> r.values != []
  {
    if samples == [] then Ewma.Unseen
    else
      var before, x := Own(samples[..|samples| - 1], connectionID, source), samples[|samples| - 1];
      if !IsOf(x, connectionID, source) then before
      else if before.Unseen? || before.lastSeen < x.now - 3_600_000_000_000 then Ewma.Seen([x.raw], x.at)
      else Ewma.Seen(before.values + [x.raw], x.at)
  }

  /** The average due to the last sample: of its own connection's and source's values. */
  function Due(samples: seq<Sample>): Metrics
    requires samples != []
  {
    var x := samples[|samples| - 1];
    var own := Own(samples, x.connectionID, x.source);
    if own.Seen? then Ewma.Smooth(own.values) else x.raw
  }

  // ----- the keys the code uses ------------------------------------------------------

  /** The event that smooths a sample. */
  ghost predicate KeyedEvent(x: Sample, e: Ewma.Event) {
    e == Ewma.Event(EwmaKey(x.connectionID, x.source), x.raw, x.at, x.now)
  }

  ghost predicate Keyed(samples: seq<Sample>, es: seq<Ewma.Event>) {
    |samples| == |es| && forall i | 0 <= i < |es| :: KeyedEvent(samples[i], es[i])
  }

  /** No source is another one behind a bar, as when no source has a bar. */
  ghost predicate BarsApart(samples: seq<Sample>) {
    forall x, y | x in samples && y in samples :: !EndsWithBar(x.source, y.source)
  }

  lemma {:induction false} NoBars(samples: seq<Sample>)
    requires forall x | x in samples :: '|' !in x.source
    ensures BarsApart(samples)
  {
    forall x, y | x in samples && y in samples ensures !EndsWithBar(x.source, y.source) {
      assert |x.source| > |y.source| ==> x.source[|x.source| - |y.source| - 1] != '|';
    }
  }

  lemma {:induction false} BarsApartPrefix(samples: seq<Sample>, n: nat)
    requires BarsApart(samples) && n <= |samples|
    ensures BarsApart(samples[..n])
  {
  }

  lemma {:induction false} KeyedPrefix(samples: seq<Sample>, es: seq<Ewma.Event>, n: nat)
    requires Keyed(samples, es) && n <= |samples|
    ensures Keyed(samples[..n], es[..n])
  {
  }

  lemma {:induction false} KeyedConcat(a: seq<Sample>, es: seq<Ewma.Event>, b: seq<Sample>, fs: seq<Ewma.Event>)
    requires Keyed(a, es) && Keyed(b, fs)
    ensures Keyed(a + b, es + fs)
  {
  }

  /** Following a key in the events is following its connection and source in the samples. */
  lemma {:induction false} OwnIsFollow(samples: seq<Sample>, es: seq<Ewma.Event>, connectionID: string, source: string)
    requires Keyed(samples, es)
    requires forall x | x in samples :: !EndsWithBar(x.source, source) && !EndsWithBar(source, x.source)
    ensures Own(samples, connectionID, source) == Ewma.Follow(es, EwmaKey(connectionID, source))
    decreases |samples|
  {
    if samples != [] {
      var n := |samples| - 1;
      KeyedPrefix(samples, es, n);
      OwnIsFollow(samples[..n], es[..n], connectionID, source);
      assert KeyedEvent(samples[n], es[n]) && samples[n] in samples;
      if es[n].key == EwmaKey(connectionID, source) {
        EqualEwmaKeys(samples[n].connectionID, samples[n].source, connectionID, source);
      }
    }
  }

  lemma {:induction false} DueIsVal(samples: seq<Sample>, es: seq<Ewma.Event>)
    requires Keyed(samples, es) && BarsApart(samples) && samples != []
    ensures Due(samples) == Ewma.Val(es)
  {
    var x := samples[|samples| - 1];
    assert KeyedEvent(x, es[|es| - 1]);
    OwnIsFollow(samples, es, x.connectionID, x.source);
  }

  /** The same after some of a further call's samples. */
  lemma {:induction false} DueAfter(samples: seq<Sample>, es: seq<Ewma.Event>, own: seq<Sample>, fs: seq<Ewma.Event>, i: nat)
    requires Keyed(samples, es) && Keyed(own, fs) && BarsApart(samples + own) && i < |own|
    ensures Due(samples + own[..i + 1]) == Ewma.Val(es + fs[..i + 1])
  {
    KeyedConcat(samples, es, own, fs);
    KeyedPrefix(samples + own, es + fs, |samples| + i + 1);
    BarsApartPrefix(samples + own, |samples| + i + 1);
    DueIsVal((samples + own)[..|samples| + i + 1], (es + fs)[..|es| + i + 1]);
    assert (samples + own)[..|samples| + i + 1] == samples + own[..i + 1];
    assert (es + fs)[..|es| + i + 1] == es + fs[..i + 1];
  }

  // ----- nobody else's samples count -------------------------------------------------

  function OnlyOwn(samples: seq<Sample>, connectionID: string, source: string): seq<Sample> {
    if samples == [] then []
    else
      var x := samples[|samples| - 1];
      OnlyOwn(samples[..|samples| - 1], connectionID, source) + if IsOf(x, connectionID, source) then [x] else []
  }

  lemma {:induction false} OwnAlone(samples: seq<Sample>, connectionID: string, source: string)
    ensures Own(OnlyOwn(samples, connectionID, source), connectionID, source) == Own(samples, connectionID, source)
    decreases |samples|
  {
    if samples != [] {
      var n := |samples| - 1;
      OwnAlone(samples[..n], connectionID, source);
      var own := OnlyOwn(samples[..n], connectionID, source);
      if IsOf(samples[n], connectionID, source) {
        assert (own + [samples[n]])[..|own|] == own;
      } else {
        assert own + [] == own;
      }
    }
  }

  /** Two histories with the same samples of a connection and source owe its next sample the same average. */
  lemma {:induction false} SameOwnSameAverage(a: seq<Sample>, b: seq<Sample>, x: Sample)
    requires OnlyOwn(a, x.connectionID, x.source) == OnlyOwn(b, x.connectionID, x.source)
    ensures Due(a + [x]) == Due(b + [x])
  {
    OwnAlone(a, x.connectionID, x.source);
    OwnAlone(b, x.connectionID, x.source);
    assert (a + [x])[..|a|] == a && (b + [x])[..|b|] == b;
  }

  /** The first sample of a connection and source is its own average, whatever else was smoothed before. */
  lemma {:induction false} FirstIsOwn(samples: seq<Sample>, x: Sample)
    requires forall y | y in samples :: y.connectionID != x.connectionID || y.source != x.source
    ensures Due(samples + [x]) == x.raw
  {
    NoneOwn(samples, x);
    assert (samples + [x])[..|samples|] == samples;
  }

  lemma {:induction false} NoneOwn(samples: seq<Sample>, x: Sample)
    requires forall y | y in samples :: y.connectionID != x.connectionID || y.source != x.source
    ensures Own(samples, x.connectionID, x.source).Unseen?
  {
    if samples != [] {
      NoneOwn(samples[..|samples| - 1], x);
    }
  }
}

/**
 * internal/ingest/cache.go: the active-conference hashes in Redis, one per (app, conference) of a flushed
 * batch.
 */
module Cache {
  import opened Common
  import opened Model
  import Keys
  import Hierarchy

  datatype Hash = Hash(participantCount: nat, lastEventTs: int)

  /** What the aggregation loop keeps per key; the zero value is what a new key starts from. */
  datatype ConfStats = ConfStats(maxTS: int, userIDs: set<string>)

  function KeyOf(p: Payload): string {
    Keys.CacheKey(p.appID, p.conferenceID)
  }

  // ----- specification ---------------------------------------------------------------

  function UsersOf(batch: seq<Payload>, key: string): set<string> {
    set p | p in batch && KeyOf(p) == key :: p.userID
  }

  ghost predicate Reports(batch: seq<Payload>, key: string, ts: int) {
    exists p, e :: p in batch && KeyOf(p) == key && e in p.events && e.ts == ts
  }

  /** The latest event of the key, never below zero. */
  ghost predicate IsLast(batch: seq<Payload>, key: string, ts: int) {
    && (forall t | Reports(batch, key, t) :: t <= ts)
    && ts >= 0 && (ts == 0 || Reports(batch, key, ts))
  }

  ghost predicate InBatch(batch: seq<Payload>, key: string) {
    exists p :: p in batch && KeyOf(p) == key
  }

  ghost predicate Describes(h: Hash, batch: seq<Payload>, key: string) {
    h.participantCount == |UsersOf(batch, key)| && IsLast(batch, key, h.lastEventTs)
  }

  // ----- the aggregation loop --------------------------------------------------------

  ghost predicate StatsOk(stats: map<string, ConfStats>, batch: seq<Payload>) {
    && (forall key :: key in stats <==> InBatch(batch, key))
    && (forall key | key in stats ::
          stats[key].userIDs == UsersOf(batch, key) && IsLast(batch, key, stats[key].maxTS))
  }

  /** The inner loop after some events of one payload. */
  ghost predicate IsMaxOf(events: seq<Snapshot>, start: int, ts: int) {
    && ts >= start && (forall e | e in events :: e.ts <= ts)
    && (ts == start || exists e :: e in events && e.ts == ts)
  }

  method MaxTs(start: int, events: seq<Snapshot>) returns (ts: int)
    ensures IsMaxOf(events, start, ts)
  {
    ts := start;
    for i := 0 to |events|
      invariant IsMaxOf(events[..i], start, ts)
    {
      assert events[..i + 1] == events[..i] + [events[i]];
      ghost var was := ts;
      if events[i].ts > ts {
        ts := events[i].ts;
      }
      assert ts == was && ts != start ==> exists e :: e in events[..i] && e.ts == ts;
      assert events[i] in events[..i + 1];
    }
    assert events[..|events|] == events;
  }

  lemma {:induction false} ReportsSnoc(batch: seq<Payload>, p: Payload, key: string, ts: int)
    ensures Reports(batch + [p], key, ts)
       <==> Reports(batch, key, ts) || (KeyOf(p) == key && exists e :: e in p.events && e.ts == ts)
  {
  }

  lemma {:induction false} LastSnoc(batch: seq<Payload>, p: Payload, was: int, ts: int)
    requires IsLast(batch, KeyOf(p), was) && IsMaxOf(p.events, was, ts)
    ensures IsLast(batch + [p], KeyOf(p), ts)
  {
    forall t | Reports(batch + [p], KeyOf(p), t) ensures t <= ts {
      ReportsSnoc(batch, p, KeyOf(p), t);
    }
    ReportsSnoc(batch, p, KeyOf(p), ts);
  }

  lemma {:induction false} OtherSnoc(batch: seq<Payload>, p: Payload, key: string)
    requires key != KeyOf(p)
    ensures UsersOf(batch + [p], key) == UsersOf(batch, key)
    ensures InBatch(batch + [p], key) <==> InBatch(batch, key)
    ensures forall ts :: IsLast(batch, key, ts) ==> IsLast(batch + [p], key, ts)
  {
    forall t ensures Reports(batch + [p], key, t) <==> Reports(batch, key, t) {
      ReportsSnoc(batch, p, key, t);
    }
    if InBatch(batch, key) {
      var q :| q in batch && KeyOf(q) == key;
      assert q in batch + [p];
    }
  }

  lemma {:induction false} OwnSnoc(batch: seq<Payload>, p: Payload)
    ensures UsersOf(batch + [p], KeyOf(p)) == UsersOf(batch, KeyOf(p)) + {p.userID}
    ensures InBatch(batch + [p], KeyOf(p))
    ensures !InBatch(batch, KeyOf(p)) ==> UsersOf(batch, KeyOf(p)) == {} && IsLast(batch, KeyOf(p), 0)
  {
  }

  lemma {:induction false} StepStats(stats: map<string, ConfStats>, batch: seq<Payload>, p: Payload, ts: int)
    requires StatsOk(stats, batch)
    requires IsMaxOf(p.events, if KeyOf(p) in stats then stats[KeyOf(p)].maxTS else 0, ts)
    ensures StatsOk(stats[KeyOf(p) := ConfStats(ts, UsersOf(batch, KeyOf(p)) + {p.userID})], batch + [p])
  {
    var key := KeyOf(p);
    var stats' := stats[key := ConfStats(ts, UsersOf(batch, key) + {p.userID})];
    OwnSnoc(batch, p);
    LastSnoc(batch, p, if key in stats then stats[key].maxTS else 0, ts);
    forall k ensures k in stats' <==> InBatch(batch + [p], k) {
      if k != key { OtherSnoc(batch, p, k); }
    }
    forall k | k in stats' ensures stats'[k].userIDs == UsersOf(batch + [p], k) && IsLast(batch + [p], k, stats'[k].maxTS) {
      if k != key { OtherSnoc(batch, p, k); }
    }
  }

  method Aggregate(batch: seq<Payload>) returns (stats: map<string, ConfStats>)
    ensures StatsOk(stats, batch)
  {
    stats := map[];
    for i := 0 to |batch|
      invariant StatsOk(stats, batch[..i])
    {
      var p := batch[i];
      var key := KeyOf(p);
      var s := if key in stats then stats[key] else ConfStats(0, {});
      var maxTS := MaxTs(s.maxTS, p.events);
      StepStats(stats, batch[..i], p, maxTS);
      OwnSnoc(batch[..i], p);
      assert batch[..i + 1] == batch[..i] + [p];
      stats := stats[key := ConfStats(maxTS, s.userIDs + {p.userID})];
    }
    assert batch[..|batch|] == batch;
  }

  /** The hash of every key of the batch that the pipeline reached is new; all others are untouched. */
  ghost predicate Refreshed(was: map<string, Hash>, now: map<string, Hash>, batch: seq<Payload>, configured: bool,
                            failed: bool, reached: set<string>) {
    forall key ::
      if InBatch(batch, key) && configured && (failed ==> key in reached) then key in now && Describes(now[key], batch, key)
      else (key in now <==> key in was) && (key in now ==> now[key] == was[key])
  }

  /** The Redis client, absent when none is configured. */
  class ActiveConferences {
    const configured: bool
    var hashes: map<string, Hash>

    constructor (configured: bool)
      ensures this.configured == configured && hashes == map[]
    {
      this.configured := configured;
      hashes := map[];
    }

    /**
     * One pipeline. When it fails, only the keys in reached were written; the error is logged and goes
     * no further.
     */
    method UpdateCache(batch: seq<Payload>, failed: bool, reached: set<string>)
      modifies this
      ensures Refreshed(old(hashes), hashes, batch, configured, failed, reached)
    {
      var stats := Aggregate(batch);
      if !configured {
        return;
      }
      var written := map key | key in stats && (failed ==> key in reached) ::
          Hash(|stats[key].userIDs|, stats[key].maxTS);
      hashes := hashes + written;
    }
  }

  // ----- what a hash says ------------------------------------------------------------

  /** The users a batch brings to a conference of an app, the app being the number its id parses to. */
  ghost function UsersOfApp(batch: seq<Payload>, app: int, conferenceID: string): set<string> {
    set p | p in batch && Hierarchy.App(p) == app && p.conferenceID == conferenceID :: p.userID
  }

  /** Another spelling of the same app id brings the conference a user that this spelling does not. */
  ghost predicate SplitBySpelling(batch: seq<Payload>, appID: string, app: int, conferenceID: string) {
    exists p ::
      && p in batch && Hierarchy.App(p) == app && p.conferenceID == conferenceID && p.appID != appID
      && !BringsUser(batch, appID, conferenceID, p.userID)
  }

  ghost predicate BringsUser(batch: seq<Payload>, appID: string, conferenceID: string, userID: string) {
    exists q :: q in batch && q.appID == appID && q.conferenceID == conferenceID && q.userID == userID
  }

  /** Once flushing has parsed every app id, the key stands for one spelling of the app and one conference. */
  lemma {:induction false} KeyMeans(batch: seq<Payload>, appID: string, conferenceID: string, userID: string)
    requires Keys.ParseInt(appID).Some? && Hierarchy.Parses(batch)
    ensures userID in UsersOf(batch, Keys.CacheKey(appID, conferenceID)) <==> BringsUser(batch, appID, conferenceID, userID)
  {
    forall p | p in batch
      ensures KeyOf(p) == Keys.CacheKey(appID, conferenceID) <==> p.appID == appID && p.conferenceID == conferenceID
    {
      var i :| 0 <= i < |batch| && batch[i] == p;
      Keys.CacheKeyInjective(p.appID, p.conferenceID, appID, conferenceID);
    }
  }

  /** A hash never counts anybody else, and counts all users of its app's conference exactly when no other spelling adds one. */
  lemma {:induction false} CountsConferenceExactlyWhen(batch: seq<Payload>, appID: string, conferenceID: string)
    requires Keys.ParseInt(appID).Some? && Hierarchy.Parses(batch)
    ensures var app := Keys.ParseInt(appID).value;
      var counted, all := UsersOf(batch, Keys.CacheKey(appID, conferenceID)), UsersOfApp(batch, app, conferenceID);
      counted <= all && (counted == all <==> !SplitBySpelling(batch, appID, app, conferenceID))
  {
    var app := Keys.ParseInt(appID).value;
    var counted, all := UsersOf(batch, Keys.CacheKey(appID, conferenceID)), UsersOfApp(batch, app, conferenceID);
    forall u ensures u in counted <==> BringsUser(batch, appID, conferenceID, u) {
      KeyMeans(batch, appID, conferenceID, u);
    }
    if !SplitBySpelling(batch, appID, app, conferenceID) {
      forall u | u in all ensures u in counted {
        var p :| p in batch && Hierarchy.App(p) == app && p.conferenceID == conferenceID && p.userID == u;
        assert p.appID == appID ==> BringsUser(batch, appID, conferenceID, u);
      }
    }
  }

  /** Canonical app ids, as decimal formatting writes them, never split: every hash counts its whole conference. */
  lemma {:induction false} CanonicalIdsCount(batch: seq<Payload>, appID: string, conferenceID: string)
    requires Keys.ParseInt(appID).Some? && Hierarchy.Parses(batch)
    requires appID == Keys.FormatInt(Keys.ParseInt(appID).value)
    requires forall p | p in batch :: p.appID == Keys.FormatInt(Hierarchy.App(p))
    ensures UsersOf(batch, Keys.CacheKey(appID, conferenceID))
         == UsersOfApp(batch, Keys.ParseInt(appID).value, conferenceID)
  {
    CountsConferenceExactlyWhen(batch, appID, conferenceID);
  }

  /** It does split: app 5 spelled "5" and "+5" has two hashes for one conference, each with one of its two users. */
  lemma {:induction false} TwoSpellings() returns (batch: seq<Payload>)
    ensures Hierarchy.Parses(batch) && |UsersOfApp(batch, 5, "room")| == 2
    ensures UsersOf(batch, Keys.CacheKey("5", "room")) == {"ann"} && UsersOf(batch, Keys.CacheKey("+5", "room")) == {"bob"}
  {
    var a, b := Payload("5", "ann", "", "room", "s1", "c1", []), Payload("+5", "bob", "", "room", "s2", "c2", []);
    batch := [a, b];
    SpelledFive();
    assert a in batch && b in batch && Hierarchy.App(a) == 5 && Hierarchy.App(b) == 5;
    assert UsersOfApp(batch, 5, "room") == {"ann", "bob"};
    Keys.CacheKeyInjective("5", "room", "+5", "room");
    assert KeyOf(a) == Keys.CacheKey("5", "room") && KeyOf(b) == Keys.CacheKey("+5", "room");
  }

  lemma {:induction false} SpelledFive()
    ensures Keys.ParseInt("5") == Some(5) && Keys.ParseInt("+5") == Some(5)
  {
  }

  /** p's hash, on the fields of the payloads: the users of its conference, and an event of it that none is later than. */
  ghost predicate HashIsOf(h: Hash, batch: seq<Payload>, p: Payload) {
    && h.participantCount == |set q | q in batch && SameConference(q, p) :: q.userID|
    && (forall q, e | q in batch && SameConference(q, p) && e in q.events :: e.ts <= h.lastEventTs)
    && (h.lastEventTs == 0 || exists q, e :: q in batch && SameConference(q, p) && e in q.events && e.ts == h.lastEventTs)
  }

  predicate SameConference(q: Payload, p: Payload) {
    q.appID == p.appID && q.conferenceID == p.conferenceID
  }

  /** With Redis configured and up every payload's hash says that; without Redis nothing changes. */
  lemma {:induction false} RefreshedHash(was: map<string, Hash>, now: map<string, Hash>, batch: seq<Payload>, configured: bool,
                                         reached: set<string>, p: Payload)
    requires Refreshed(was, now, batch, configured, false, reached) && Hierarchy.Parses(batch) && p in batch
    ensures configured ==> Keys.CacheKey(p.appID, p.conferenceID) in now
                           && HashIsOf(now[Keys.CacheKey(p.appID, p.conferenceID)], batch, p)
    ensures !configured ==> forall key :: (key in now <==> key in was) && (key in now ==> now[key] == was[key])
  {
    var key := KeyOf(p);
    forall q | q in batch ensures KeyOf(q) == key <==> SameConference(q, p) {
      SameKey(batch, q, p);
    }
    assert InBatch(batch, key);
    if configured {
      assert UsersOf(batch, key) == set q | q in batch && SameConference(q, p) :: q.userID;
      forall q, e | q in batch && SameConference(q, p) && e in q.events ensures e.ts <= now[key].lastEventTs {
        assert Reports(batch, key, e.ts);
      }
    }
  }

  lemma {:induction false} SameKey(batch: seq<Payload>, q: Payload, p: Payload)
    requires Hierarchy.Parses(batch) && p in batch && q in batch
    ensures KeyOf(q) == KeyOf(p) <==> SameConference(q, p)
  {
    var i :| 0 <= i < |batch| && batch[i] == p;
    var j :| 0 <= j < |batch| && batch[j] == q;
    Keys.CacheKeyInjective(q.appID, q.conferenceID, p.appID, p.conferenceID);
  }

  /** A hash depends only on which payloads the batch holds, not on their order or repetition. */
  lemma {:induction false} OrderIrrelevant(a: seq<Payload>, b: seq<Payload>, key: string, h: Hash, h': Hash)
    requires (forall p :: p in a <==> p in b) && Describes(h, a, key) && Describes(h', b, key)
    ensures h == h'
  {
    assert UsersOf(a, key) == UsersOf(b, key);
    assert forall t :: Reports(a, key, t) <==> Reports(b, key, t);
    assert h.lastEventTs <= h'.lastEventTs;
    assert h'.lastEventTs <= h.lastEventTs;
  }
}

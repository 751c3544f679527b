/**
 * internal/ingest/flush.go: the Flusher itself, as the loops and state changes of the source, each
 * proved against Hierarchy and Ewma.
 */
module Flusher {
  import opened Common
  import opened Model
  import opened Keys
  import opened Hierarchy
  import Ewma
  import Averages
  import Cache

  /** A database transaction: the tables as its statements see them. */
  class Tx {
    var db: Db

    constructor (db: Db)
      ensures this.db == db
    {
      this.db := db;
    }
  }

  /** A Go map read: the zero value if the key is absent. */
  function Lookup(m: map<string, int>, k: string): int { if k in m then m[k] else 0 }

  /** One upsert statement. */
  method UpsertRow<K(==), V>(t: Table<K, V>, k: K, v: V) returns (t': Table<K, V>, id: int)
    requires TableOk(t)
    ensures (t', id) == Upsert(t, k, v)
  {
    if found :| found in t.rows && t.rows[found].key == k {
      t', id := t.(next := t.next + 1), found;
      IdOfIs(t, k, found);
    } else {
      t', id := Table(t.rows[t.next := Row(k, v)], t.next + 1), t.next;
    }
  }

  // ----- the four upsert loops -------------------------------------------------------

  method UpsertConferences(tx: Tx, batch: seq<Payload>) returns (r: Option<map<string, int>>)
    requires TableOk(tx.db.conferences)
    modifies tx
    ensures tx.db == old(tx.db).(conferences := tx.db.conferences)
    ensures TableOk(tx.db.conferences) && Extends(old(tx.db.conferences), tx.db.conferences)
    ensures r.Some? <==> forall i | 0 <= i < |batch| :: ParseInt(batch[i].appID).Some?
    ensures r.Some? ==>
      && Grown(old(tx.db.conferences), tx.db.conferences, FirstWins(ConferenceItems(batch)))
      && ConferencesResolved(r.value, tx.db.conferences, batch)
  {
    var seen: set<(int, string)> := {};
    var result: map<string, int> := map[];
    var conferences := tx.db.conferences;
    ConferenceLoopStart(conferences, batch);
    for i := 0 to |batch|
      invariant tx.db == old(tx.db)
      invariant Parses(batch[..i])
      invariant ConferenceLoop(old(tx.db.conferences), conferences, batch, i, seen, result)
    {
      var p := batch[i];
      var parsed := ParseInt(p.appID);
      if parsed.None? {
        tx.db := tx.db.(conferences := conferences);
        assert !Parses(batch);
        return None;
      }
      ParsesOneMore(batch, i);
      var k := (parsed.value, p.conferenceID);
      if k !in seen {
        ConferenceLoopStep(old(tx.db.conferences), conferences, batch, i, seen, result);
        var dbID;
        conferences, dbID := UpsertRow(conferences, k, ());
        seen, result := seen + {k}, result[p.conferenceID := dbID];
      } else {
        ConferenceLoopSkip(old(tx.db.conferences), conferences, batch, i, seen, result);
      }
    }
    ConferenceLoopEnd(old(tx.db.conferences), conferences, batch, seen, result);
    assert batch[..|batch|] == batch;
    tx.db := tx.db.(conferences := conferences);
    return Some(result);
  }

  lemma {:induction false} ParsesOneMore(batch: seq<Payload>, i: nat)
    requires i < |batch| && Parses(batch[..i]) && ParseInt(batch[i].appID).Some?
    ensures Parses(batch[..i + 1])
  {
  }

  /** confIDs: one entry per conference id of the batch, each the id the flush will use. */
  ghost predicate ConferencesResolved(ids: map<string, int>, conferences: Table<(int, string), ()>, batch: seq<Payload>) {
    && ids.Keys == ChosenApps(batch).Keys
    && forall ext | ext in ids :: ids[ext] == ConferenceId(conferences, batch, ext)
  }

  ghost predicate ConferenceLoop(
      t0: Table<(int, string), ()>, t: Table<(int, string), ()>, batch: seq<Payload>, i: nat,
      seen: set<(int, string)>, result: map<string, int>)
    requires i <= |batch|
  {
    && Grown(t0, t, FirstWins(ConferenceItems(batch[..i])))
    && seen == FirstWins(ConferenceItems(batch[..i])).Keys
    && result.Keys == ChosenApps(batch[..i]).Keys
    && ResolvesTo(result, ChosenApps(batch[..i]), t)
  }

  lemma {:induction false} ConferenceLoopStart(t: Table<(int, string), ()>, batch: seq<Payload>)
    requires TableOk(t)
    ensures ConferenceLoop(t, t, batch, 0, {}, map[])
  {
  }

  lemma {:induction false} NewConference(t0: Table<(int, string), ()>, t: Table<(int, string), ()>, batch: seq<Payload>, i: nat)
    requires i < |batch| && Grown(t0, t, FirstWins(ConferenceItems(batch[..i])))
    requires (App(batch[i]), batch[i].conferenceID) !in FirstWins(ConferenceItems(batch[..i]))
    ensures var k := (App(batch[i]), batch[i].conferenceID); var (t', id) := Upsert(t, k, ());
      && Grown(t0, t', FirstWins(ConferenceItems(batch[..i + 1])))
      && Extends(t, t') && HasKey(t', k) && id == IdOf(t', k)
      && FirstWins(ConferenceItems(batch[..i + 1])).Keys == FirstWins(ConferenceItems(batch[..i])).Keys + {k}
      && ChosenApps(batch[..i + 1]) == ChosenApps(batch[..i])[batch[i].conferenceID := App(batch[i])]
  {
    var items := ConferenceItems(batch[..i + 1]);
    assert batch[..i + 1][..i] == batch[..i];
    assert items[..i] == ConferenceItems(batch[..i]) && items[..i + 1] == items;
    GrownUpsert(t0, t, items, i);
    FirstWinsNew(items, i);
  }

  lemma {:induction false} ConferenceLoopStep(
      t0: Table<(int, string), ()>, t: Table<(int, string), ()>, batch: seq<Payload>, i: nat,
      seen: set<(int, string)>, result: map<string, int>)
    requires i < |batch| && ConferenceLoop(t0, t, batch, i, seen, result)
    requires (App(batch[i]), batch[i].conferenceID) !in seen
    ensures var k := (App(batch[i]), batch[i].conferenceID); var (t', id) := Upsert(t, k, ());
      ConferenceLoop(t0, t', batch, i + 1, seen + {k}, result[batch[i].conferenceID := id])
  {
    var k := (App(batch[i]), batch[i].conferenceID);
    var (t', id) := Upsert(t, k, ());
    NewConference(t0, t, batch, i);
    ResolvesLater(result, ChosenApps(batch[..i]), t, t');
    ResolvesNew(result, ChosenApps(batch[..i]), t', App(batch[i]), batch[i].conferenceID);
  }

  lemma {:induction false} ResolvesNew(
      ids: map<string, int>, apps: map<string, int>, t: Table<(int, string), ()>, app: int, ext: string)
    requires ResolvesTo(ids, apps, t) && HasKey(t, (app, ext))
    ensures ResolvesTo(ids[ext := IdOf(t, (app, ext))], apps[ext := app], t)
  {
  }

  lemma {:induction false} ConferenceLoopSkip(
      t0: Table<(int, string), ()>, t: Table<(int, string), ()>, batch: seq<Payload>, i: nat,
      seen: set<(int, string)>, result: map<string, int>)
    requires i < |batch| && ConferenceLoop(t0, t, batch, i, seen, result)
    requires (App(batch[i]), batch[i].conferenceID) in seen
    ensures ConferenceLoop(t0, t, batch, i + 1, seen, result)
  {
    var items := ConferenceItems(batch[..i + 1]);
    assert batch[..i + 1][..i] == batch[..i];
    assert items[..i] == ConferenceItems(batch[..i]) && items[..i + 1] == items;
    GrownSkip(items, i);
  }

  lemma {:induction false} ConferenceLoopEnd(
      t0: Table<(int, string), ()>, t: Table<(int, string), ()>, batch: seq<Payload>,
      seen: set<(int, string)>, result: map<string, int>)
    requires ConferenceLoop(t0, t, batch, |batch|, seen, result)
    ensures Grown(t0, t, FirstWins(ConferenceItems(batch))) && ConferencesResolved(result, t, batch)
  {
    assert batch[..|batch|] == batch;
  }

  /** Every entry of ids is the row id of its (app, conference) pair. */
  ghost predicate ResolvesTo(ids: map<string, int>, apps: map<string, int>, conferences: Table<(int, string), ()>) {
    forall ext | ext in ids :: ext in apps && HasKey(conferences, (apps[ext], ext)) && ids[ext] == IdOf(conferences, (apps[ext], ext))
  }

  lemma {:induction false} ResolvesLater(
      ids: map<string, int>, apps: map<string, int>, t: Table<(int, string), ()>, t': Table<(int, string), ()>)
    requires ResolvesTo(ids, apps, t) && Extends(t, t') && TableOk(t')
    ensures ResolvesTo(ids, apps, t')
  {
  }

  // ----- the loop shared by the three lower levels -----------------------------------

  /** The string names under which ids are stored tell keys apart exactly as the keys themselves do. */
  ghost predicate Faithful<K, V>(items: seq<(K, V)>, names: seq<string>) {
    && |names| == |items|
    && forall a, b | 0 <= a < |items| && 0 <= b < |items| :: names[a] == names[b] <==> items[a].0 == items[b].0
  }

  /** result gives the row id of each of the first n items under its name. */
  ghost predicate Named<K, V>(t: Table<K, V>, items: seq<(K, V)>, names: seq<string>, n: nat, result: map<string, int>)
    requires n <= |items| == |names|
  {
    forall j | 0 <= j < n :: names[j] in result && HasKey(t, items[j].0) && result[names[j]] == IdOf(t, items[j].0)
  }

  ghost predicate UpsertLoop<K, V>(
      t0: Table<K, V>, t: Table<K, V>, items: seq<(K, V)>, names: seq<string>, i: nat, seen: set<K>, result: map<string, int>)
    requires i <= |items| == |names|
  {
    && Grown(t0, t, FirstWins(items[..i]))
    && seen == FirstWins(items[..i]).Keys
    && Named(t, items, names, i, result)
  }

  lemma {:induction false} UpsertLoopStep<K, V>(
      t0: Table<K, V>, t: Table<K, V>, items: seq<(K, V)>, names: seq<string>, i: nat, seen: set<K>, result: map<string, int>)
    requires i < |items| && Faithful(items, names) && UpsertLoop(t0, t, items, names, i, seen, result)
    requires items[i].0 !in seen
    ensures var (t', id) := Upsert(t, items[i].0, items[i].1);
      UpsertLoop(t0, t', items, names, i + 1, seen + {items[i].0}, result[names[i] := id])
  {
    GrownUpsert(t0, t, items, i);
    FirstWinsNew(items, i);
    NamedStep(t, items, names, i, result);
  }

  lemma {:induction false} NamedStep<K, V>(t: Table<K, V>, items: seq<(K, V)>, names: seq<string>, i: nat, result: map<string, int>)
    requires i < |items| && Faithful(items, names) && TableOk(t) && Named(t, items, names, i, result)
    requires items[i].0 !in FirstWins(items[..i])
    ensures var (t', id) := Upsert(t, items[i].0, items[i].1); Named(t', items, names, i + 1, result[names[i] := id])
  {
    var (t', id) := Upsert(t, items[i].0, items[i].1);
    var result' := result[names[i] := id];
    forall j | 0 <= j <= i
      ensures names[j] in result' && HasKey(t', items[j].0) && result'[names[j]] == IdOf(t', items[j].0)
    {
      if j < i {
        NewKey(items, names, i, j);
        IdOfStable(t, t', items[j].0);
      } else {
        IdOfIs(t', items[i].0, id);
      }
    }
  }

  lemma {:induction false} NewKey<K, V>(items: seq<(K, V)>, names: seq<string>, i: nat, j: nat)
    requires j < i < |items| && Faithful(items, names) && items[i].0 !in FirstWins(items[..i])
    ensures names[j] != names[i]
  {
    FirstWinsKeys(items[..i], items[i].0);
    assert items[..i][j] == items[j];
  }

  lemma {:induction false} UpsertLoopSkip<K, V>(
      t0: Table<K, V>, t: Table<K, V>, items: seq<(K, V)>, names: seq<string>, i: nat, seen: set<K>, result: map<string, int>)
    requires i < |items| && Faithful(items, names) && UpsertLoop(t0, t, items, names, i, seen, result)
    requires items[i].0 in seen
    ensures UpsertLoop(t0, t, items, names, i + 1, seen, result)
  {
    GrownSkip(items, i);
    FirstWinsKeys(items[..i], items[i].0);
    var j :| 0 <= j < i && items[..i][j].0 == items[i].0;
    assert names[j] == names[i];
  }

  lemma {:induction false} UpsertLoopStart<K, V>(t: Table<K, V>, items: seq<(K, V)>, names: seq<string>)
    requires TableOk(t) && |items| == |names|
    ensures UpsertLoop(t, t, items, names, 0, {}, map[])
  {
  }

  // ----- participants ----------------------------------------------------------------

  ghost function ParticipantNames(conferences: Table<(int, string), ()>, batch: seq<Payload>): seq<string> {
    seq(|batch|, i requires 0 <= i < |batch| =>
      ParticipantKey(ConferenceId(conferences, batch, batch[i].conferenceID), batch[i].userID))
  }

  lemma {:induction false} ParticipantNamesFaithful(conferences: Table<(int, string), ()>, batch: seq<Payload>)
    ensures Faithful(ParticipantItems(conferences, batch), ParticipantNames(conferences, batch))
  {
    var items, names := ParticipantItems(conferences, batch), ParticipantNames(conferences, batch);
    forall a, b | 0 <= a < |items| && 0 <= b < |items| ensures names[a] == names[b] <==> items[a].0 == items[b].0 {
      ParticipantKeyInjective(items[a].0.0, items[a].0.1, items[b].0.0, items[b].0.1);
    }
  }

  ghost predicate ConfIdsOk(confIDs: map<string, int>, conferences: Table<(int, string), ()>, batch: seq<Payload>) {
    forall i | 0 <= i < |batch| ::
      batch[i].conferenceID in confIDs && confIDs[batch[i].conferenceID] == ConferenceId(conferences, batch, batch[i].conferenceID)
  }

  method UpsertParticipants(tx: Tx, batch: seq<Payload>, confIDs: map<string, int>) returns (result: map<string, int>)
    requires TableOk(tx.db.participants) && ConfIdsOk(confIDs, tx.db.conferences, batch)
    modifies tx
    ensures tx.db == old(tx.db).(participants := tx.db.participants)
    ensures Grown(old(tx.db.participants), tx.db.participants, FirstWins(ParticipantItems(tx.db.conferences, batch)))
    ensures Named(tx.db.participants, ParticipantItems(tx.db.conferences, batch),
                  ParticipantNames(tx.db.conferences, batch), |batch|, result)
  {
    var seen: set<(int, string)> := {};
    result := map[];
    var participants := tx.db.participants;
    ghost var items := ParticipantItems(tx.db.conferences, batch);
    ghost var names := ParticipantNames(tx.db.conferences, batch);
    ParticipantNamesFaithful(tx.db.conferences, batch);
    UpsertLoopStart(participants, items, names);
    for i := 0 to |batch|
      invariant tx.db == old(tx.db)
      invariant UpsertLoop(old(tx.db.participants), participants, items, names, i, seen, result)
    {
      var p := batch[i];
      var confDBID := Lookup(confIDs, p.conferenceID);
      var k := (confDBID, p.userID);
      if k !in seen {
        UpsertLoopStep(old(tx.db.participants), participants, items, names, i, seen, result);
        var dbID;
        participants, dbID := UpsertRow(participants, k, ());
        seen := seen + {k};
        result := result[ParticipantKey(confDBID, p.userID) := dbID];
      } else {
        UpsertLoopSkip(old(tx.db.participants), participants, items, names, i, seen, result);
      }
    }
    assert items[..|items|] == items;
    tx.db := tx.db.(participants := participants);
  }

  // ----- sessions --------------------------------------------------------------------

  ghost function SessionNames(batch: seq<Payload>): (names: seq<string>)
    ensures |names| == |batch| && forall i | 0 <= i < |batch| :: names[i] == batch[i].sessionID
  {
    seq(|batch|, i requires 0 <= i < |batch| => batch[i].sessionID)
  }

  method UpsertSessions(tx: Tx, batch: seq<Payload>, partIDs: map<string, int>, confIDs: map<string, int>)
    returns (result: map<string, int>)
    requires TableOk(tx.db.sessions) && ConfIdsOk(confIDs, tx.db.conferences, batch)
    requires Named(tx.db.participants, ParticipantItems(tx.db.conferences, batch),
                   ParticipantNames(tx.db.conferences, batch), |batch|, partIDs)
    modifies tx
    ensures tx.db == old(tx.db).(sessions := tx.db.sessions)
    ensures Grown(old(tx.db.sessions), tx.db.sessions, FirstWins(SessionItems(tx.db, batch)))
    ensures Named(tx.db.sessions, SessionItems(tx.db, batch), SessionNames(batch), |batch|, result)
  {
    var seen: set<string> := {};
    result := map[];
    var sessions := tx.db.sessions;
    ghost var items, names := SessionItems(tx.db, batch), SessionNames(batch);
    UpsertLoopStart(sessions, items, names);
    for i := 0 to |batch|
      invariant tx.db == old(tx.db)
      invariant UpsertLoop(old(tx.db.sessions), sessions, items, names, i, seen, result)
    {
      var p := batch[i];
      if p.sessionID !in seen {
        var confDBID := Lookup(confIDs, p.conferenceID);
        var partDBID := Lookup(partIDs, ParticipantKey(confDBID, p.userID));
        assert partDBID == items[i].1 by {
          assert ParticipantKey(confDBID, p.userID) == ParticipantNames(tx.db.conferences, batch)[i];
        }
        UpsertLoopStep(old(tx.db.sessions), sessions, items, names, i, seen, result);
        var dbID;
        sessions, dbID := UpsertRow(sessions, p.sessionID, partDBID);
        seen, result := seen + {p.sessionID}, result[p.sessionID := dbID];
      } else {
        UpsertLoopSkip(old(tx.db.sessions), sessions, items, names, i, seen, result);
      }
    }
    assert items[..|items|] == items;
    tx.db := tx.db.(sessions := sessions);
    assert SessionItems(tx.db, batch) == items;
  }

  // ----- connections -----------------------------------------------------------------

  ghost function ConnectionNames(batch: seq<Payload>): (names: seq<string>)
    ensures |names| == |batch| && forall i | 0 <= i < |batch| :: names[i] == batch[i].connectionID
  {
    seq(|batch|, i requires 0 <= i < |batch| => batch[i].connectionID)
  }

  /** minTS holds the earliest of the times for connection c, and nothing if there are none. */
  ghost predicate MinFor(minTS: map<string, int>, times: seq<int>, c: string) {
    match Earliest(times)
    case Some(t) => c in minTS && minTS[c] == t
    case None => c !in minTS
  }

  ghost predicate MinTsIs(minTS: map<string, int>, batch: seq<Payload>) {
    forall c: string :: MinFor(minTS, EventTimes(batch, c), c)
  }

  /** Midway through a payload of connection conn, whose times so far are given. */
  ghost predicate MinTsMid(minTS: map<string, int>, done: seq<Payload>, conn: string, times: seq<int>) {
    forall c: string :: MinFor(minTS, TimesMid(done, conn, times, c), c)
  }

  ghost function TimesMid(done: seq<Payload>, conn: string, times: seq<int>, c: string): seq<int> {
    if c == conn then times else EventTimes(done, c)
  }

  /** The pre-pass of upsertConnections. */
  method ComputeMinTs(batch: seq<Payload>) returns (minTS: map<string, int>)
    ensures MinTsIs(minTS, batch)
  {
    minTS := map[];
    for i := 0 to |batch|
      invariant MinTsIs(minTS, batch[..i])
    {
      var p := batch[i];
      ghost var earlier := EventTimes(batch[..i], p.connectionID);
      assert earlier + Times(p.events[..0]) == earlier;
      MinTsStart(minTS, batch[..i], p.connectionID);
      for k := 0 to |p.events|
        invariant MinTsMid(minTS, batch[..i], p.connectionID, earlier + Times(p.events[..k]))
      {
        var ev := p.events[k];
        MinTsStep(minTS, batch[..i], p.connectionID, earlier + Times(p.events[..k]), ev.ts);
        assert earlier + Times(p.events[..k + 1]) == earlier + Times(p.events[..k]) + [ev.ts];
        if p.connectionID !in minTS || ev.ts < minTS[p.connectionID] {
          minTS := minTS[p.connectionID := ev.ts];
        }
      }
      MinTsPayload(minTS, batch, i);
    }
    assert batch[..|batch|] == batch;
  }

  lemma {:induction false} MinTsStart(minTS: map<string, int>, done: seq<Payload>, conn: string)
    requires MinTsIs(minTS, done)
    ensures MinTsMid(minTS, done, conn, EventTimes(done, conn))
  {
  }

  lemma {:induction false} MinTsStep(minTS: map<string, int>, done: seq<Payload>, conn: string, times: seq<int>, t: int)
    requires MinTsMid(minTS, done, conn, times)
    ensures MinTsMid(if conn !in minTS || t < minTS[conn] then minTS[conn := t] else minTS, done, conn, times + [t])
  {
    var minTS' := if conn !in minTS || t < minTS[conn] then minTS[conn := t] else minTS;
    forall c: string ensures MinFor(minTS', TimesMid(done, conn, times + [t], c), c) {
      assert MinFor(minTS, TimesMid(done, conn, times, c), c);
      EarliestSnoc(times, t);
    }
  }

  lemma {:induction false} MinTsPayload(minTS: map<string, int>, batch: seq<Payload>, i: nat)
    requires i < |batch|
    requires MinTsMid(minTS, batch[..i], batch[i].connectionID,
                      EventTimes(batch[..i], batch[i].connectionID) + Times(batch[i].events[..|batch[i].events|]))
    ensures MinTsIs(minTS, batch[..i + 1])
  {
    var p, done, done' := batch[i], batch[..i], batch[..i + 1];
    var times := EventTimes(done, p.connectionID) + Times(p.events[..|p.events|]);
    assert p.events[..|p.events|] == p.events;
    forall c: string ensures MinFor(minTS, EventTimes(done', c), c) {
      assert MinFor(minTS, TimesMid(done, p.connectionID, times, c), c);
      EventTimesSnoc(batch, i, c);
    }
  }

  ghost function Times(events: seq<Snapshot>): seq<int> {
    seq(|events|, i requires 0 <= i < |events| => events[i].ts)
  }

  lemma {:induction false} EarliestSnoc(times: seq<int>, t: int)
    ensures Earliest(times + [t])
         == Some(match Earliest(times) case None => t case Some(m) => if t < m then t else m)
  {
  }

  lemma {:induction false} EventTimesSnoc(batch: seq<Payload>, i: nat, c: string)
    requires i < |batch|
    ensures EventTimes(batch[..i + 1], c)
         == if batch[i].connectionID == c then EventTimes(batch[..i], c) + Times(batch[i].events)
            else EventTimes(batch[..i], c)
  {
    assert batch[..i + 1][..i] == batch[..i];
  }

  /** What the loop looks up for a payload's connection is what its item asks for. */
  lemma {:induction false} ConnectionItemIs(db: Db, batch: seq<Payload>, sessIDs: map<string, int>, minTS: map<string, int>, i: nat)
    requires i < |batch| && MinTsIs(minTS, batch)
    requires Named(db.sessions, SessionItems(db, batch), SessionNames(batch), |batch|, sessIDs)
    ensures ConnectionItems(db.sessions, batch)[i]
         == (batch[i].connectionID, (Lookup(sessIDs, batch[i].sessionID), Lookup(minTS, batch[i].connectionID)))
  {
    assert batch[i].sessionID == SessionNames(batch)[i] == SessionItems(db, batch)[i].0;
    assert MinFor(minTS, EventTimes(batch, batch[i].connectionID), batch[i].connectionID);
  }

  method UpsertConnections(tx: Tx, batch: seq<Payload>, sessIDs: map<string, int>) returns (result: map<string, int>)
    requires TableOk(tx.db.connections)
    requires Named(tx.db.sessions, SessionItems(tx.db, batch), SessionNames(batch), |batch|, sessIDs)
    modifies tx
    ensures tx.db == old(tx.db).(connections := tx.db.connections)
    ensures Grown(old(tx.db.connections), tx.db.connections, FirstWins(ConnectionItems(tx.db.sessions, batch)))
    ensures Named(tx.db.connections, ConnectionItems(tx.db.sessions, batch), ConnectionNames(batch), |batch|, result)
  {
    var minTS := ComputeMinTs(batch);
    var seen: set<string> := {};
    result := map[];
    var connections := tx.db.connections;
    ghost var items, names := ConnectionItems(tx.db.sessions, batch), ConnectionNames(batch);
    UpsertLoopStart(connections, items, names);
    for i := 0 to |batch|
      invariant tx.db == old(tx.db)
      invariant UpsertLoop(old(tx.db.connections), connections, items, names, i, seen, result)
    {
      var p := batch[i];
      if p.connectionID !in seen {
        var sessDBID := Lookup(sessIDs, p.sessionID);
        var startedAt := Lookup(minTS, p.connectionID);
        ConnectionItemIs(tx.db, batch, sessIDs, minTS, i);
        UpsertLoopStep(old(tx.db.connections), connections, items, names, i, seen, result);
        var dbID;
        connections, dbID := UpsertRow(connections, p.connectionID, (sessDBID, startedAt));
        seen, result := seen + {p.connectionID}, result[p.connectionID := dbID];
      } else {
        UpsertLoopSkip(old(tx.db.connections), connections, items, names, i, seen, result);
      }
    }
    assert items[..|items|] == items;
    tx.db := tx.db.(connections := connections);
  }

  // ----- smoothing -------------------------------------------------------------------

  /** A connection_stats row. */
  datatype StatRow = StatRow(connection: int, ts: int, source: string, raw: Metrics, ewma: Metrics, media: Media)

  /** An empty source means the browser SDK. */
  function SourceOf(p: Payload): string { if p.source == "" then "browser" else p.source }

  /** All snapshots of a batch with the payload they came in, in order. */
  function Flat(batch: seq<Payload>): seq<(Payload, Snapshot)> {
    if batch == [] then []
    else
      var p := batch[|batch| - 1];
      Flat(batch[..|batch| - 1]) + seq(|p.events|, k requires 0 <= k < |p.events| => (p, p.events[k]))
  }

  function EventFor(item: (Payload, Snapshot), at: int, now: int): Ewma.Event {
    Ewma.Event(EwmaKey(item.0.connectionID, SourceOf(item.0)), item.1.metrics, at, now)
  }

  /** The events one call smooths; times are the clock readings taken while it runs. */
  ghost function EventsOf(batch: seq<Payload>, now: int, times: seq<int>): (es: seq<Ewma.Event>)
    requires |times| == |Flat(batch)|
    ensures |es| == |times| && forall i | 0 <= i < |es| :: es[i] == EventFor(Flat(batch)[i], times[i], now)
  {
    seq(|times|, i requires 0 <= i < |times| => EventFor(Flat(batch)[i], times[i], now))
  }

  /** One smoothing call on a batch. */
  ghost function CallOf(batch: seq<Payload>, now: int, times: seq<int>): Ewma.Call
    requires |times| == |Flat(batch)|
  {
    Ewma.Call(now, EventsOf(batch, now, times))
  }

  /** The samples of one call, on the fields of its payloads. */
  ghost function SamplesOf(batch: seq<Payload>, now: int, times: seq<int>): (xs: seq<Averages.Sample>)
    requires |times| == |Flat(batch)|
  {
    seq(|times|, i requires 0 <= i < |times| =>
      var (p, ev) := Flat(batch)[i];
      Averages.Sample(p.connectionID, if p.source == "" then "browser" else p.source, ev.metrics, times[i], now))
  }

  lemma {:induction false} SamplesKeyed(batch: seq<Payload>, now: int, times: seq<int>)
    requires |times| == |Flat(batch)|
    ensures Averages.Keyed(SamplesOf(batch, now, times), EventsOf(batch, now, times))
  {
  }

  /** Two snapshots of a call feed one average exactly when connection and source agree, "" being the browser. */
  lemma {:induction false} SameKeyExactlyWhen(batch: seq<Payload>, now: int, times: seq<int>, i: nat, j: nat)
    requires |times| == |Flat(batch)| && i < |times| && j < |times|
    requires '|' !in Flat(batch)[i].0.source && '|' !in Flat(batch)[j].0.source
    ensures var es, p, q := CallOf(batch, now, times).events, Flat(batch)[i].0, Flat(batch)[j].0;
      es[i].key == es[j].key
      <==> p.connectionID == q.connectionID
           && (if p.source == "" then "browser" else p.source) == (if q.source == "" then "browser" else q.source)
  {
    var p, q := Flat(batch)[i].0, Flat(batch)[j].0;
    EwmaKeyInjective(p.connectionID, SourceOf(p), q.connectionID, SourceOf(q));
  }

  /** Each row carries the average its own connection and source are owed, unless a source hides behind a bar. */
  ghost predicate OwnAverages(rows: seq<StatRow>, earlier: seq<Averages.Sample>, own: seq<Averages.Sample>) {
    && |rows| == |own|
    && (Averages.BarsApart(earlier + own) ==>
          forall i | 0 <= i < |rows| :: rows[i].ewma == Averages.Due(earlier + own[..i + 1]))
  }

  lemma {:induction false} ReportedIsOwn(rows: seq<StatRow>, samples: seq<Averages.Sample>, own: seq<Averages.Sample>,
                                         calls: seq<Ewma.Call>, c: Ewma.Call)
    requires Averages.Keyed(samples, Ewma.Stream(calls)) && Averages.Keyed(own, c.events) && |rows| == |own|
    requires forall i | 0 <= i < |rows| :: rows[i].ewma == Ewma.Reported(calls, c)[i]
    ensures OwnAverages(rows, samples, own)
  {
    if Averages.BarsApart(samples + own) {
      forall i | 0 <= i < |rows| ensures rows[i].ewma == Averages.Due(samples + own[..i + 1]) {
        OwnAverageAt(samples, own, calls, c, i);
      }
    }
  }

  lemma {:induction false} SamplesFollow(samples: seq<Averages.Sample>, calls: seq<Ewma.Call>, batch: seq<Payload>, now: int, times: seq<int>)
    requires |times| == |Flat(batch)| && Averages.Keyed(samples, Ewma.Stream(calls))
    ensures Averages.Keyed(samples + SamplesOf(batch, now, times), Ewma.Stream(calls + [CallOf(batch, now, times)]))
  {
    var c := CallOf(batch, now, times);
    SamplesKeyed(batch, now, times);
    Averages.KeyedConcat(samples, Ewma.Stream(calls), SamplesOf(batch, now, times), c.events);
    assert (calls + [c])[..|calls|] == calls;
  }

  lemma {:induction false} OwnAverageAt(samples: seq<Averages.Sample>, own: seq<Averages.Sample>, calls: seq<Ewma.Call>,
                                        c: Ewma.Call, i: nat)
    requires Averages.Keyed(samples, Ewma.Stream(calls)) && Averages.Keyed(own, c.events) && i < |own|
    requires Averages.BarsApart(samples + own)
    ensures Ewma.Reported(calls, c)[i] == Averages.Due(samples + own[..i + 1])
  {
    Averages.DueAfter(samples, Ewma.Stream(calls), own, c.events, i);
  }

  lemma {:induction false} EventsClock(batch: seq<Payload>, now: int, times: seq<int>)
    requires |times| == |Flat(batch)| && forall i | 0 <= i < |times| :: now <= times[i]
    ensures Ewma.CallOk(Ewma.Call(now, EventsOf(batch, now, times)))
  {
  }

  /** The row for a snapshot and its smoothed values. */
  function RowOf(p: Payload, ev: Snapshot, connIDs: map<string, int>, ewma: Metrics): StatRow {
    StatRow(Lookup(connIDs, p.connectionID), ev.ts, SourceOf(p), ev.metrics, ewma, ev.media)
  }

  ghost predicate RowsAre(rows: seq<StatRow>, batch: seq<Payload>, connIDs: map<string, int>, ewmas: seq<Metrics>) {
    && |rows| == |ewmas| <= |Flat(batch)|
    && forall i | 0 <= i < |rows| :: rows[i] == RowOf(Flat(batch)[i].0, Flat(batch)[i].1, connIDs, ewmas[i])
  }

  lemma {:induction false} FlatPrefix(batch: seq<Payload>, i: nat)
    requires i <= |batch|
    ensures Flat(batch[..i]) <= Flat(batch)
    decreases |batch|
  {
    if i == |batch| {
      assert batch[..i] == batch;
    } else {
      assert batch[..|batch| - 1][..i] == batch[..i];
      FlatPrefix(batch[..|batch| - 1], i);
    }
  }

  lemma {:induction false} FlatAt(batch: seq<Payload>, i: nat, k: nat)
    requires i < |batch| && k < |batch[i].events|
    ensures |Flat(batch[..i])| + k < |Flat(batch)|
    ensures Flat(batch)[|Flat(batch[..i])| + k] == (batch[i], batch[i].events[k])
  {
    FlatPrefix(batch, i + 1);
    assert batch[..i + 1][..i] == batch[..i];
    assert Flat(batch[..i + 1])[|Flat(batch[..i])| + k] == (batch[i], batch[i].events[k]);
  }

  lemma {:induction false} FlatLength(batch: seq<Payload>, i: nat)
    requires i < |batch|
    ensures |Flat(batch[..i + 1])| == |Flat(batch[..i])| + |batch[i].events|
  {
    assert batch[..i + 1][..i] == batch[..i];
  }

  /** What the smoothing loop has done after c events. */
  ghost predicate SmoothLoop(
      swept: Ewma.Table, t: Ewma.Table, events: seq<Ewma.Event>, c: nat, rows: seq<StatRow>, batch: seq<Payload>,
      connIDs: map<string, int>)
  {
    && c <= |events|
    && t == Ewma.ObserveAll(swept, events[..c])
    && RowsAre(rows, batch, connIDs, Ewma.Emit(swept, events[..c]))
  }

  lemma {:induction false} SmoothLoopStep(
      swept: Ewma.Table, t: Ewma.Table, events: seq<Ewma.Event>, c: nat, rows: seq<StatRow>, batch: seq<Payload>,
      connIDs: map<string, int>)
    requires SmoothLoop(swept, t, events, c, rows, batch, connIDs) && c < |events| == |Flat(batch)|
    ensures var t' := Ewma.Observe(t, events[c]);
      SmoothLoop(swept, t', events, c + 1,
        rows + [RowOf(Flat(batch)[c].0, Flat(batch)[c].1, connIDs, t'[events[c].key].value)], batch, connIDs)
  {
    Ewma.ObserveAllConcat(swept, events[..c], [events[c]]);
    assert events[..c + 1] == events[..c] + [events[c]];
    Ewma.EmitLength(swept, events[..c]);
    ObserveOne(t, events[c]);
  }

  lemma {:induction false} ObserveOne(t: Ewma.Table, e: Ewma.Event)
    ensures Ewma.ObserveAll(t, [e]) == Ewma.Observe(t, e)
    ensures Ewma.Emit(t, [e]) == [Ewma.Observe(t, e)[e.key].value]
  {
  }

  /** Each snapshot's row in order, with the average the calls so far define for its key, and its samples for itself. */
  ghost predicate RowsAveraged(rows: seq<StatRow>, batch: seq<Payload>, connIDs: map<string, int>, calls: seq<Ewma.Call>,
                               samples: seq<Averages.Sample>, now: int, times: seq<int>)
    requires |times| == |Flat(batch)|
  {
    exists ewmas ::
      && ewmas == Ewma.Reported(calls, CallOf(batch, now, times)) && RowsAre(rows, batch, connIDs, ewmas)
      && OwnAverages(rows, samples, SamplesOf(batch, now, times))
  }

  /** A table that these calls, which smoothed these samples, leave behind. */
  ghost predicate Smoothed(calls: seq<Ewma.Call>, samples: seq<Averages.Sample>, t: Ewma.Table) {
    exists es ::
      && Averages.Keyed(samples, es) && es == Ewma.Stream(calls)
      && Ewma.ClockOk(calls) && t == Ewma.TableAfter(calls)
  }

  /** A call that smoothed its events after the calls before it: its table, its rows and their averages. */
  lemma {:induction false} SmoothingDone(calls: seq<Ewma.Call>, samples: seq<Averages.Sample>, t: Ewma.Table, rows: seq<StatRow>,
                                         batch: seq<Payload>, connIDs: map<string, int>, now: int, times: seq<int>)
    requires |times| == |Flat(batch)| && forall i | 0 <= i < |times| :: now <= times[i]
    requires Smoothed(calls, samples, t) && (calls != [] ==> calls[|calls| - 1].now <= now)
    requires RowsAre(rows, batch, connIDs, Ewma.Emit(Ewma.Sweep(t, now), EventsOf(batch, now, times)))
    ensures var c := CallOf(batch, now, times);
      && Smoothed(calls + [c], samples + SamplesOf(batch, now, times), Ewma.ObserveAll(Ewma.Sweep(t, now), c.events))
      && RowsAveraged(rows, batch, connIDs, calls, samples, now, times)
  {
    var c, own := CallOf(batch, now, times), SamplesOf(batch, now, times);
    EventsClock(batch, now, times);
    Ewma.CallAdded(calls, c);
    Ewma.CallReports(calls, c);
    SamplesKeyed(batch, now, times);
    SamplesFollow(samples, calls, batch, now, times);
    ReportedIsOwn(rows, samples, own, calls, c);
  }

  // ----- the Flusher -----------------------------------------------------------------

  lemma {:induction false} ResolvedIsOk(ids: map<string, int>, conferences: Table<(int, string), ()>, batch: seq<Payload>)
    requires ConferencesResolved(ids, conferences, batch)
    ensures ConfIdsOk(ids, conferences, batch)
  {
    forall i | 0 <= i < |batch| ensures batch[i].conferenceID in ids {
      ChosenInBatch(batch, batch[i].conferenceID);
    }
  }

  lemma {:induction false} SessionItemsSame(db: Db, db': Db, batch: seq<Payload>)
    requires db.conferences == db'.conferences && db.participants == db'.participants
    ensures SessionItems(db, batch) == SessionItems(db', batch)
  {
  }

  /** Steps 1 to 4 of flush; ok counts the database calls that succeed before one fails. */
  method UpsertAll(tx: Tx, batch: seq<Payload>, ok: nat) returns (r: Option<map<string, int>>)
    requires DbOk(tx.db)
    modifies tx
    ensures DbExtends(old(tx.db), tx.db)
    ensures r.Some? <==> Parses(batch) && ok > 4
    ensures r.Some? ==>
      && Committed(old(tx.db), tx.db, batch)
      && Named(tx.db.connections, ConnectionItems(tx.db.sessions, batch), ConnectionNames(batch), |batch|, r.value)
  {
    if ok <= 1 { return None; }
    var confIDs := UpsertConferences(tx, batch);
    if confIDs.None? || ok <= 2 { return None; }
    ResolvedIsOk(confIDs.value, tx.db.conferences, batch);
    var partIDs := UpsertParticipants(tx, batch, confIDs.value);
    if ok <= 3 { return None; }
    var sessIDs := UpsertSessions(tx, batch, partIDs, confIDs.value);
    if ok <= 4 { return None; }
    ghost var before := tx.db;
    var connIDs := UpsertConnections(tx, batch, sessIDs);
    SessionItemsSame(before, tx.db, batch);
    return Some(connIDs);
  }

  /** connIDs gives the row id of every connection of the batch. */
  ghost predicate ConnIdsOk(connIDs: map<string, int>, connections: Table<string, (int, int)>, batch: seq<Payload>) {
    forall i | 0 <= i < |batch| ::
      batch[i].connectionID in connIDs && connIDs[batch[i].connectionID] == IdOf(connections, batch[i].connectionID)
  }

  lemma {:induction false} NamedConnections(db: Db, batch: seq<Payload>, connIDs: map<string, int>)
    requires Named(db.connections, ConnectionItems(db.sessions, batch), ConnectionNames(batch), |batch|, connIDs)
    ensures ConnIdsOk(connIDs, db.connections, batch)
  {
    forall i | 0 <= i < |batch|
      ensures batch[i].connectionID in connIDs && connIDs[batch[i].connectionID] == IdOf(db.connections, batch[i].connectionID)
    {
      assert ConnectionNames(batch)[i] == ConnectionItems(db.sessions, batch)[i].0 == batch[i].connectionID;
    }
  }

  /** Each snapshot's row, under the row id of the connection its payload names, with its average. */
  ghost predicate RowsFiled(rows: seq<StatRow>, connections: Table<string, (int, int)>, batch: seq<Payload>, ewmas: seq<Metrics>) {
    && |rows| == |ewmas| == |Flat(batch)|
    && forall i | 0 <= i < |rows| :: RowFiled(rows[i], connections, Flat(batch)[i].0, Flat(batch)[i].1, ewmas[i])
  }

  ghost predicate RowFiled(row: StatRow, connections: Table<string, (int, int)>, p: Payload, ev: Snapshot, ewma: Metrics) {
    row == StatRow(IdOf(connections, p.connectionID), ev.ts, SourceOf(p), ev.metrics, ewma, ev.media)
  }

  lemma {:induction false} FlatPayload(batch: seq<Payload>, i: nat) returns (j: nat)
    requires i < |Flat(batch)|
    ensures j < |batch| && Flat(batch)[i].0 == batch[j]
    decreases |batch|
  {
    var n := |batch| - 1;
    if i < |Flat(batch[..n])| {
      j := FlatPayload(batch[..n], i);
    } else {
      j := n;
    }
  }

  lemma {:induction false} RowsAreFiled(
      rows: seq<StatRow>, db: Db, batch: seq<Payload>, connIDs: map<string, int>, ewmas: seq<Metrics>)
    requires RowsAre(rows, batch, connIDs, ewmas) && |rows| == |Flat(batch)|
    requires ConnIdsOk(connIDs, db.connections, batch)
    ensures RowsFiled(rows, db.connections, batch, ewmas)
  {
    forall i | 0 <= i < |rows| ensures RowFiled(rows[i], db.connections, Flat(batch)[i].0, Flat(batch)[i].1, ewmas[i]) {
      var j := FlatPayload(batch, i);
    }
  }

  /** How many snapshots the first n payloads carry. */
  function Offset(batch: seq<Payload>, n: nat): nat
    requires n <= |batch|
  {
    if n == 0 then 0 else Offset(batch, n - 1) + |batch[n - 1].events|
  }

  /** The row of one snapshot: its own columns, under the connection its payload names. */
  ghost predicate FiledAs(row: StatRow, connections: Table<string, (int, int)>, p: Payload, ev: Snapshot) {
    && row.connection in connections.rows && connections.rows[row.connection].key == p.connectionID
    && row.ts == ev.ts && row.raw == ev.metrics && row.media == ev.media
    && row.source == if p.source == "" then "browser" else p.source
  }

  /** One row for every snapshot of every payload, in order, and no more. */
  ghost predicate InOrder(rows: seq<StatRow>, connections: Table<string, (int, int)>, batch: seq<Payload>) {
    && |rows| == Offset(batch, |batch|)
    && forall i, k | 0 <= i < |batch| && 0 <= k < |batch[i].events| :: FiledAt(rows, connections, batch, i, k)
  }

  ghost predicate FiledAt(rows: seq<StatRow>, connections: Table<string, (int, int)>, batch: seq<Payload>, i: nat, k: nat)
    requires i < |batch| && k < |batch[i].events|
  {
    Offset(batch, i) + k < |rows| && FiledAs(rows[Offset(batch, i) + k], connections, batch[i], batch[i].events[k])
  }

  lemma {:induction false} OffsetIs(batch: seq<Payload>, n: nat)
    requires n <= |batch|
    ensures Offset(batch, n) == |Flat(batch[..n])|
  {
    if n > 0 {
      OffsetIs(batch, n - 1);
      FlatLength(batch, n - 1);
    }
  }

  lemma {:induction false} FiledInOrder(rows: seq<StatRow>, db: Db, batch: seq<Payload>, ewmas: seq<Metrics>)
    requires RowsFiled(rows, db.connections, batch, ewmas)
    requires forall i | 0 <= i < |batch| :: HasKey(db.connections, batch[i].connectionID)
    ensures InOrder(rows, db.connections, batch)
  {
    OffsetIs(batch, |batch|);
    assert batch[..|batch|] == batch;
    forall i, k | 0 <= i < |batch| && 0 <= k < |batch[i].events| ensures FiledAt(rows, db.connections, batch, i, k) {
      SnapshotFiled(rows, db, batch, ewmas, i, k);
    }
  }

  lemma {:induction false} SnapshotFiled(rows: seq<StatRow>, db: Db, batch: seq<Payload>, ewmas: seq<Metrics>, i: nat, k: nat)
    requires RowsFiled(rows, db.connections, batch, ewmas) && i < |batch| && k < |batch[i].events|
    requires HasKey(db.connections, batch[i].connectionID)
    ensures FiledAt(rows, db.connections, batch, i, k)
  {
    OffsetIs(batch, i);
    FlatAt(batch, i, k);
    var c := Offset(batch, i) + k;
    assert RowFiled(rows[c], db.connections, Flat(batch)[c].0, Flat(batch)[c].1, ewmas[c]);
    RowFiledAs(rows[c], db.connections, batch[i], batch[i].events[k], ewmas[c]);
  }

  lemma {:induction false} RowFiledAs(row: StatRow, connections: Table<string, (int, int)>, p: Payload, ev: Snapshot, ewma: Metrics)
    requires RowFiled(row, connections, p, ev, ewma) && HasKey(connections, p.connectionID)
    ensures FiledAs(row, connections, p, ev)
  {
  }

  /**
   * Flushing a batch again, a dead letter whose commit had taken effect, files every one of its snapshots a
   * second time, under the same connection; only the averages may differ.
   */
  lemma {:induction false} ReplayFilesTwice(db: Db, db': Db, between: seq<Outcome>, batch: seq<Payload>,
                                            rows: seq<StatRow>, again: seq<StatRow>, ewmas: seq<Metrics>, ewmas': seq<Metrics>)
    requires DbOk(db) && Leads(db, db', between)
    requires forall i | 0 <= i < |batch| :: HasKey(db.connections, batch[i].connectionID)
    requires RowsFiled(rows, db.connections, batch, ewmas) && RowsFiled(again, db'.connections, batch, ewmas')
    ensures |again| == |rows| == |Flat(batch)|
    ensures forall i | 0 <= i < |rows| :: again[i] == rows[i].(ewma := ewmas'[i])
  {
    RowsAreForever(db, db', between);
    forall i | 0 <= i < |rows| ensures again[i] == rows[i].(ewma := ewmas'[i]) {
      var j := FlatPayload(batch, i);
      IdOfStable(db.connections, db'.connections, batch[j].connectionID);
      assert RowFiled(rows[i], db.connections, Flat(batch)[i].0, Flat(batch)[i].1, ewmas[i]);
      assert RowFiled(again[i], db'.connections, Flat(batch)[i].0, Flat(batch)[i].1, ewmas'[i]);
    }
  }

  /**
   * The rows of a batch, in order and under their connections, with the averages the whole history defines: by
   * key, and on the fields of the snapshots.
   */
  ghost predicate RowsOf(rows: seq<StatRow>, db: Db, batch: seq<Payload>, calls: seq<Ewma.Call>,
                         samples: seq<Averages.Sample>, now: int, times: seq<int>)
    requires |times| == |Flat(batch)|
  {
    && InOrder(rows, db.connections, batch)
    && RowsFiled(rows, db.connections, batch, Ewma.Reported(calls, CallOf(batch, now, times)))
    && OwnAverages(rows, samples, SamplesOf(batch, now, times))
    && SampledRows(rows, db.connections, SamplesOf(batch, now, times))
  }

  /** The samples are those of the rows, by the rows' own columns. */
  ghost predicate SampledRows(rows: seq<StatRow>, connections: Table<string, (int, int)>, own: seq<Averages.Sample>) {
    |rows| == |own| && forall i | 0 <= i < |rows| :: SampledAs(rows[i], connections, own[i])
  }

  ghost predicate SampledAs(row: StatRow, connections: Table<string, (int, int)>, x: Averages.Sample) {
    && row.connection in connections.rows && connections.rows[row.connection].key == x.connectionID
    && row.source == x.source && row.raw == x.raw
  }

  lemma {:induction false} RowsAreSampled(rows: seq<StatRow>, connections: Table<string, (int, int)>, batch: seq<Payload>,
                                          ewmas: seq<Metrics>, now: int, times: seq<int>)
    requires |times| == |Flat(batch)| && RowsFiled(rows, connections, batch, ewmas)
    requires forall i | 0 <= i < |batch| :: HasKey(connections, batch[i].connectionID)
    ensures SampledRows(rows, connections, SamplesOf(batch, now, times))
  {
    forall i | 0 <= i < |rows| ensures SampledAs(rows[i], connections, SamplesOf(batch, now, times)[i]) {
      var j := FlatPayload(batch, i);
      assert HasKey(connections, batch[j].connectionID);
      RowFiledAs(rows[i], connections, Flat(batch)[i].0, Flat(batch)[i].1, ewmas[i]);
    }
  }

  /** The batch is stored: its entities are committed and its rows stand behind those that were there. */
  ghost predicate Stored(db: Db, db': Db, stats: seq<StatRow>, stats': seq<StatRow>, batch: seq<Payload>,
                         calls: seq<Ewma.Call>, samples: seq<Averages.Sample>, now: int, times: seq<int>)
    requires |times| == |Flat(batch)|
  {
    exists rows ::
      && Committed(db, db', batch)
      && RowsOf(rows, db', batch, calls, samples, now, times)
      && stats' == stats + rows
  }

  lemma {:induction false} RowsStored(db: Db, db': Db, stats: seq<StatRow>, rows: seq<StatRow>, batch: seq<Payload>,
                                      calls: seq<Ewma.Call>, samples: seq<Averages.Sample>, now: int, times: seq<int>)
    requires |times| == |Flat(batch)| && Committed(db, db', batch) && RowsOf(rows, db', batch, calls, samples, now, times)
    ensures Stored(db, db', stats, stats + rows, batch, calls, samples, now, times)
  {
  }

  lemma {:induction false} NewRowsFiled(rows: seq<StatRow>, db: Db, db': Db, stats: seq<StatRow>, batch: seq<Payload>, connIDs: map<string, int>,
                                        calls: seq<Ewma.Call>, samples: seq<Averages.Sample>, now: int, times: seq<int>)
    requires |times| == |Flat(batch)| && Committed(db, db', batch) && ConnIdsOk(connIDs, db'.connections, batch)
    requires RowsAveraged(rows, batch, connIDs, calls, samples, now, times)
    ensures Stored(db, db', stats, stats + rows, batch, calls, samples, now, times)
  {
    var ewmas := Ewma.Reported(calls, CallOf(batch, now, times));
    RowsAreFiled(rows, db', batch, connIDs, ewmas);
    forall i | 0 <= i < |batch| ensures HasKey(db'.connections, batch[i].connectionID) {
      LookupsHit(db, db', batch, i);
    }
    FiledInOrder(rows, db', batch, ewmas);
    RowsAreSampled(rows, db'.connections, batch, ewmas, now, times);
    RowsStored(db, db', stats, rows, batch, calls, samples, now, times);
  }

  /** The rows of every table are as they were; only sequences may have moved on. */
  ghost predicate RolledBack(db: Db, db': Db) {
    SameRows(db, db') && DbExtends(db, db')
  }

  /** What a flush does to the tables is a step of the runs of flushes. */
  lemma {:induction false} FlushIsStep(db: Db, db': Db, batch: seq<Payload>, stored: bool)
    requires if stored then Committed(db, db', batch) else RolledBack(db, db')
    ensures FlushStep(db, db', if stored then Commit(batch) else Rollback)
  {
    assert Ends(db, db', db', if stored then Commit(batch) else Rollback);
  }

  class Flusher {
    var db: Db
    var stats: seq<StatRow>
    var ewma: Ewma.Table
    var deadLetters: seq<seq<Payload>>
    const cache: Cache.ActiveConferences
    ghost var calls: seq<Ewma.Call>
    ghost var samples: seq<Averages.Sample>

    /** ewma is what all smoothing calls so far leave behind, and samples is what they smoothed. */
    ghost predicate EwmaOk()
      reads this`calls, this`samples, this`ewma
    {
      Smoothed(calls, samples, ewma)
    }

    ghost predicate Valid()
      reads this`db, this`calls, this`samples, this`ewma
    {
      DbOk(db) && EwmaOk()
    }

    constructor (db: Db, cache: Cache.ActiveConferences)
      requires DbOk(db)
      ensures Valid() && this.db == db && this.cache == cache && stats == [] && calls == [] && samples == [] && deadLetters == []
    {
      this.db, this.cache := db, cache;
      stats, ewma, deadLetters, calls, samples := [], map[], [], [], [];
      assert Averages.Keyed([], Ewma.Stream([]));
    }

    /** Evict entries idle for over an hour. */
    method SweepStale(now: int)
      modifies this`ewma
      ensures ewma == Ewma.Sweep(old(ewma), now)
    {
      var pending := ewma.Keys;
      while pending != {}
        invariant pending <= old(ewma).Keys
        invariant forall k | k in pending :: k in ewma
        invariant forall k: string :: k in ewma <==> k in old(ewma) && (k in pending || !Ewma.Stale(old(ewma)[k].lastSeen, now))
        invariant forall k | k in ewma :: ewma[k] == old(ewma)[k]
        decreases pending
      {
        var k :| k in pending;
        pending := pending - {k};
        if ewma[k].lastSeen < now - Ewma.StateTtl {
          ewma := ewma - {k};
        }
      }
    }

    /** newEWMA or update, and the value to report. */
    method Smooth(key: string, raw: Metrics, at: int) returns (value: Metrics)
      modifies this`ewma
      ensures forall now :: ewma == Ewma.Observe(old(ewma), Ewma.Event(key, raw, at, now))
      ensures key in ewma && value == ewma[key].value
    {
      if key !in ewma {
        ewma := ewma[key := Ewma.State(raw, at)];
      } else {
        ewma := ewma[key := Ewma.State(Ewma.Blend(raw, ewma[key].value), at)];
      }
      value := ewma[key].value;
    }

    /** buildStatRows: now is the reading the sweep uses, times those taken per event. */
    method BuildStatRows(batch: seq<Payload>, connIDs: map<string, int>, now: int, times: seq<int>)
      returns (rows: seq<StatRow>)
      requires EwmaOk() && |times| == |Flat(batch)|
      requires calls != [] ==> calls[|calls| - 1].now <= now
      requires forall i | 0 <= i < |times| :: now <= times[i]
      modifies this`ewma, this`calls, this`samples
      ensures EwmaOk() && calls == old(calls) + [CallOf(batch, now, times)]
      ensures samples == old(samples) + SamplesOf(batch, now, times)
      ensures RowsAveraged(rows, batch, connIDs, old(calls), old(samples), now, times)
    {
      ghost var earlier := calls;
      SweepStale(now);
      ghost var swept, events := ewma, EventsOf(batch, now, times);
      rows := SmoothAll(batch, connIDs, times, now, events);
      SmoothingDone(earlier, samples, old(ewma), rows, batch, connIDs, now, times);
      calls, samples := calls + [CallOf(batch, now, times)], samples + SamplesOf(batch, now, times);
    }

    /** The two nested loops of buildStatRows. */
    method SmoothAll(batch: seq<Payload>, connIDs: map<string, int>, times: seq<int>, ghost now: int, ghost events: seq<Ewma.Event>)
      returns (rows: seq<StatRow>)
      requires |events| == |times| == |Flat(batch)|
      requires forall i | 0 <= i < |events| :: events[i] == EventFor(Flat(batch)[i], times[i], now)
      modifies this`ewma
      ensures ewma == Ewma.ObserveAll(old(ewma), events)
      ensures RowsAre(rows, batch, connIDs, Ewma.Emit(old(ewma), events))
    {
      rows := [];
      var c := 0;
      assert events[..0] == [];
      for i := 0 to |batch|
        invariant c == |Flat(batch[..i])|
        invariant SmoothLoop(old(ewma), ewma, events, c, rows, batch, connIDs)
      {
        FlatLength(batch, i);
        rows, c := SmoothPayload(old(ewma), batch, i, c, rows, connIDs, times, now, events);
      }
      assert batch[..|batch|] == batch && events[..|events|] == events;
    }

    /** The inner loop: one payload's snapshots, the first of them the batch's c-th. */
    method SmoothPayload(ghost swept: Ewma.Table, batch: seq<Payload>, i: nat, c0: nat, filed: seq<StatRow>,
                         connIDs: map<string, int>, times: seq<int>, ghost now: int, ghost events: seq<Ewma.Event>)
      returns (rows: seq<StatRow>, c: nat)
      requires i < |batch| && c0 == |Flat(batch[..i])|
      requires |events| == |times| == |Flat(batch)|
      requires forall j | 0 <= j < |events| :: events[j] == EventFor(Flat(batch)[j], times[j], now)
      requires SmoothLoop(swept, ewma, events, c0, filed, batch, connIDs)
      modifies this`ewma
      ensures c == c0 + |batch[i].events| && SmoothLoop(swept, ewma, events, c, rows, batch, connIDs)
    {
      rows, c := filed, c0;
      var p := batch[i];
      var source := SourceOf(p);
      var connDBID := Lookup(connIDs, p.connectionID);
      for k := 0 to |p.events|
        invariant c == c0 + k && SmoothLoop(swept, ewma, events, c, rows, batch, connIDs)
      {
        FlatAt(batch, i, k);
        var row := SmoothSnapshot(swept, batch, c, rows, connIDs, p, p.events[k], connDBID, source, times[c], now, events);
        rows, c := rows + [row], c + 1;
      }
    }

    /** The loop body: the c-th snapshot of the batch updates its average and makes its row. */
    method SmoothSnapshot(ghost swept: Ewma.Table, ghost batch: seq<Payload>, ghost c: nat, ghost rows: seq<StatRow>,
                          ghost connIDs: map<string, int>, p: Payload, ev: Snapshot, connDBID: int, source: string, at: int,
                          ghost now: int, ghost events: seq<Ewma.Event>) returns (row: StatRow)
      requires c < |events| == |Flat(batch)| && Flat(batch)[c] == (p, ev) && events[c] == EventFor((p, ev), at, now)
      requires connDBID == Lookup(connIDs, p.connectionID) && source == SourceOf(p)
      requires SmoothLoop(swept, ewma, events, c, rows, batch, connIDs)
      modifies this`ewma
      ensures SmoothLoop(swept, ewma, events, c + 1, rows + [row], batch, connIDs)
    {
      SmoothLoopStep(swept, ewma, events, c, rows, batch, connIDs);
      var value := Smooth(EwmaKey(p.connectionID, source), ev.metrics, at);
      row := StatRow(connDBID, ev.ts, source, ev.metrics, value, ev.media);
    }

    /**
     * flush: one transaction for the hierarchy and the rows. ok counts the database calls that succeed before
     * one fails: begin, the four upserts, the bulk copy and the commit; unheard says that a failing commit took
     * effect and only its answer was lost. The averages are already updated when the copy or the commit fails,
     * and stay so.
     */
    method FlushTx(batch: seq<Payload>, now: int, times: seq<int>, ok: nat, unheard: bool)
      returns (committed: bool, ghost stored: bool)
      requires Valid() && |times| == |Flat(batch)|
      requires calls != [] ==> calls[|calls| - 1].now <= now
      requires forall i | 0 <= i < |times| :: now <= times[i]
      modifies this`db, this`stats, this`ewma, this`calls, this`samples
      ensures Valid()
      ensures stored <==> Parses(batch) && (ok > 6 || (ok == 6 && unheard))
      ensures committed <==> Parses(batch) && ok > 6
      ensures stored ==> Stored(old(db), db, old(stats), stats, batch, old(calls), old(samples), now, times)
      ensures !stored ==> RolledBack(old(db), db) && stats == old(stats)
      ensures if Parses(batch) && ok > 4
              then calls == old(calls) + [CallOf(batch, now, times)] && samples == old(samples) + SamplesOf(batch, now, times)
              else calls == old(calls) && samples == old(samples)
    {
      var takesEffect := ok > 6 || (ok == 6 && unheard);
      var prepared, stats', db' := Prepare(batch, now, times, ok, takesEffect);
      committed, stored := prepared && ok > 6, prepared && takesEffect;
      db, stats := db', stats';
    }

    /** All of the transaction but its effect on the tables: what it leaves behind there. */
    method Prepare(batch: seq<Payload>, now: int, times: seq<int>, ok: nat, takesEffect: bool)
      returns (prepared: bool, stats': seq<StatRow>, db': Db)
      requires Valid() && |times| == |Flat(batch)| && (takesEffect ==> ok > 4)
      requires calls != [] ==> calls[|calls| - 1].now <= now
      requires forall i | 0 <= i < |times| :: now <= times[i]
      modifies this`ewma, this`calls, this`samples
      ensures DbOk(db') && EwmaOk()
      ensures prepared <==> Parses(batch) && ok > 4
      ensures if prepared && takesEffect then Stored(db, db', stats, stats', batch, old(calls), old(samples), now, times)
              else RolledBack(db, db') && stats' == stats
      ensures if prepared
              then calls == old(calls) + [CallOf(batch, now, times)] && samples == old(samples) + SamplesOf(batch, now, times)
              else calls == old(calls) && samples == old(samples)
    {
      var connIDs, txDb;
      connIDs, txDb, db' := Transact(batch, ok, takesEffect);
      var rows := FileStatRows(batch, connIDs, now, times, txDb);
      prepared := connIDs.Some?;
      stats' := if prepared && takesEffect then stats + rows else stats;
    }

    /** The transaction: the tables its statements saw last, and those it leaves behind by commit or rollback. */
    method Transact(batch: seq<Payload>, ok: nat, takesEffect: bool)
      returns (connIDs: Option<map<string, int>>, txDb: Db, db': Db)
      requires DbOk(db) && (takesEffect ==> ok > 4)
      ensures DbOk(db')
      ensures connIDs.Some? <==> Parses(batch) && ok > 4
      ensures connIDs.Some? ==> ConnIdsOk(connIDs.value, txDb.connections, batch) && Committed(db, txDb, batch)
      ensures if connIDs.Some? && takesEffect then db' == txDb else RolledBack(db, db')
    {
      var undone;
      connIDs, txDb, undone := BeginAndUpsert(batch, ok);
      db' := if connIDs.Some? && takesEffect then txDb else undone;
      if connIDs.Some? {
        CommittedKeepsDbOk(db, txDb, batch);
      }
    }

    /** buildStatRows with the connection ids of the transaction, when it got that far. */
    method FileStatRows(batch: seq<Payload>, connIDs: Option<map<string, int>>, now: int, times: seq<int>, ghost txDb: Db)
      returns (rows: seq<StatRow>)
      requires EwmaOk() && |times| == |Flat(batch)|
      requires calls != [] ==> calls[|calls| - 1].now <= now
      requires forall i | 0 <= i < |times| :: now <= times[i]
      requires connIDs.Some? ==> ConnIdsOk(connIDs.value, txDb.connections, batch) && Committed(db, txDb, batch)
      modifies this`ewma, this`calls, this`samples
      ensures EwmaOk()
      ensures if connIDs.Some?
              then calls == old(calls) + [CallOf(batch, now, times)] && samples == old(samples) + SamplesOf(batch, now, times)
              else calls == old(calls) && samples == old(samples)
      ensures connIDs.Some? ==>
        Stored(db, txDb, stats, stats + rows, batch, old(calls), old(samples), now, times)
    {
      if connIDs.None? {
        return [];
      }
      rows := BuildStatRows(batch, connIDs.value, now, times);
      NewRowsFiled(rows, db, txDb, stats, batch, connIDs.value, old(calls), old(samples), now, times);
    }

    /** The transaction up to the statistics: the tables it sees, and those a rollback would leave. */
    method BeginAndUpsert(batch: seq<Payload>, ok: nat) returns (connIDs: Option<map<string, int>>, txDb: Db, undone: Db)
      requires DbOk(db)
      ensures RolledBack(db, undone)
      ensures connIDs.Some? <==> Parses(batch) && ok > 4
      ensures connIDs.Some? ==> Committed(db, txDb, batch) && ConnIdsOk(connIDs.value, txDb.connections, batch)
    {
      var tx := new Tx(db);
      connIDs := UpsertAll(tx, batch, ok);
      txDb, undone := tx.db, AfterRollback(db, tx.db);
      if connIDs.Some? {
        NamedConnections(txDb, batch, connIDs.value);
      }
    }

    /**
     * Flush: an empty batch is ignored; a batch whose flush errs goes whole to the dead letters and leaves the
     * cache alone, also when its commit took effect unheard. cacheDown and reached describe the fate of the
     * cache's pipeline.
     */
    method Flush(batch: seq<Payload>, now: int, times: seq<int>, ok: nat, unheard: bool, cacheDown: bool, reached: set<string>)
      returns (committed: bool, ghost stored: bool)
      requires Valid() && |times| == |Flat(batch)|
      requires calls != [] ==> calls[|calls| - 1].now <= now
      requires forall i | 0 <= i < |times| :: now <= times[i]
      modifies this, cache
      ensures Valid()
      ensures stored <==> batch != [] && Parses(batch) && (ok > 6 || (ok == 6 && unheard))
      ensures committed <==> batch != [] && Parses(batch) && ok > 6
      ensures stored ==> Stored(old(db), db, old(stats), stats, batch, old(calls), old(samples), now, times)
      ensures !stored ==> RolledBack(old(db), db) && stats == old(stats)
      ensures batch != [] ==> if committed then deadLetters == old(deadLetters) else deadLetters == old(deadLetters) + [batch]
      ensures batch == [] ==> unchanged(this)
      ensures committed ==> Cache.Refreshed(old(cache.hashes), cache.hashes, batch, cache.configured, cacheDown, reached)
      ensures !committed ==> unchanged(cache)
      ensures if batch != [] && Parses(batch) && ok > 4
              then calls == old(calls) + [CallOf(batch, now, times)] && samples == old(samples) + SamplesOf(batch, now, times)
              else calls == old(calls) && samples == old(samples)
    {
      if batch == [] { return false, false; }
      committed, stored := FlushTx(batch, now, times, ok, unheard);
      Report(batch, committed, cacheDown, reached);
    }

    /** After the transaction: the dead letters, or the cache. */
    method Report(batch: seq<Payload>, committed: bool, cacheDown: bool, reached: set<string>)
      modifies this`deadLetters, cache
      ensures if committed then deadLetters == old(deadLetters) else deadLetters == old(deadLetters) + [batch]
      ensures committed ==> Cache.Refreshed(old(cache.hashes), cache.hashes, batch, cache.configured, cacheDown, reached)
      ensures !committed ==> unchanged(cache)
    {
      if !committed {
        deadLetters := deadLetters + [batch];
        return;
      }
      cache.UpdateCache(batch, cacheDown, reached);
    }
  }
}

/**
 * internal/ingest/flush.go, the entity half: what one committed flush does to the conferences,
 * participants, sessions and connections tables, and what any run of flushes preserves.
 *
 * A table maps row ids to rows; that no two rows share a unique key is proved, not built in.
 * A transaction is one atomic step.
 */
module Hierarchy {
  import opened Common
  import opened Model
  import opened Keys

  datatype Row<K, V> = Row(key: K, value: V)

  /** next is the bigserial sequence: it also advances on conflicts and rolled back inserts. */
  datatype Table<K, V> = Table(rows: map<int, Row<K, V>>, next: int)

  ghost predicate HasKey<K, V>(t: Table<K, V>, k: K) { exists id :: id in t.rows && t.rows[id].key == k }

  ghost predicate TableOk<K, V>(t: Table<K, V>) {
    && (forall id | id in t.rows :: id < t.next)
    && (forall i, j | i in t.rows && j in t.rows && t.rows[i].key == t.rows[j].key :: i == j)
  }

  /** The id of the row with key k. */
  ghost function IdOf<K, V>(t: Table<K, V>, k: K): int {
    if HasKey(t, k) then var id :| id in t.rows && t.rows[id].key == k; id else 0
  }

  /** No row is lost or altered. */
  ghost predicate Extends<K, V>(t: Table<K, V>, t': Table<K, V>) {
    && t.next <= t'.next
    && forall id | id in t.rows :: id in t'.rows && t'.rows[id] == t.rows[id]
  }

  /** t' is t with exactly the wanted keys t lacked, each inserted with its wanted value. */
  ghost predicate Grown<K, V>(t: Table<K, V>, t': Table<K, V>, wanted: map<K, V>) {
    && TableOk(t') && Extends(t, t')
    && (forall id | id in t'.rows && id !in t.rows ::
          t'.rows[id].key in wanted && t'.rows[id].value == wanted[t'.rows[id].key] && !HasKey(t, t'.rows[id].key))
    && (forall k | k in wanted :: HasKey(t', k))
  }

  /** INSERT ... ON CONFLICT DO NOTHING, then the id of the row with that key. */
  ghost function Upsert<K, V>(t: Table<K, V>, k: K, v: V): (r: (Table<K, V>, int)) {
    if HasKey(t, k) then (t.(next := t.next + 1), IdOf(t, k))
    else (Table(t.rows[t.next := Row(k, v)], t.next + 1), t.next)
  }

  /** The first value listed for each key. */
  function FirstWins<K, V>(items: seq<(K, V)>): map<K, V> {
    if items == [] then map[]
    else
      var n := |items| - 1;
      var m := FirstWins(items[..n]);
      if items[n].0 in m then m else m[items[n].0 := items[n].1]
  }

  lemma {:induction false} IdOfIs<K, V>(t: Table<K, V>, k: K, id: int)
    requires TableOk(t) && id in t.rows && t.rows[id].key == k
    ensures IdOf(t, k) == id
  {
  }

  lemma {:induction false} IdOfStable<K, V>(t: Table<K, V>, t': Table<K, V>, k: K)
    requires TableOk(t') && Extends(t, t') && HasKey(t, k)
    ensures HasKey(t', k) && IdOf(t', k) == IdOf(t, k)
  {
  }

  lemma {:induction false} GrownStart<K, V>(t: Table<K, V>)
    requires TableOk(t)
    ensures Grown(t, t, FirstWins<K, V>([]))
  {
  }

  /** One more upsert, of a key not seen before in the batch. */
  lemma {:induction false} GrownUpsert<K, V>(t: Table<K, V>, t': Table<K, V>, items: seq<(K, V)>, n: nat)
    requires n < |items| && items[n].0 !in FirstWins(items[..n])
    requires Grown(t, t', FirstWins(items[..n]))
    ensures Grown(t, Upsert(t', items[n].0, items[n].1).0, FirstWins(items[..n + 1]))
    ensures var (t'', id) := Upsert(t', items[n].0, items[n].1);
      Extends(t', t'') && HasKey(t'', items[n].0) && id == IdOf(t'', items[n].0)
  {
    var k, v := items[n].0, items[n].1;
    var (t'', id) := Upsert(t', k, v);
    assert items[..n + 1][..n] == items[..n];
    var wanted, wanted' := FirstWins(items[..n]), FirstWins(items[..n + 1]);
    assert wanted' == wanted[k := v];
    assert id in t''.rows && t''.rows[id].key == k;
    IdOfIs(t'', k, id);
    forall k' | k' in wanted' ensures HasKey(t'', k') {
      if k' != k { IdOfStable(t', t'', k'); }
    }
    forall j | j in t''.rows && j !in t.rows ensures !HasKey(t, t''.rows[j].key) {
      if HasKey(t, k) { IdOfStable(t, t', k); }
    }
  }

  lemma {:induction false} GrownSkip<K, V>(items: seq<(K, V)>, n: nat)
    requires n < |items| && items[n].0 in FirstWins(items[..n])
    ensures FirstWins(items[..n + 1]) == FirstWins(items[..n])
  {
    assert items[..n + 1][..n] == items[..n];
  }

  lemma {:induction false} FirstWinsNew<K, V>(items: seq<(K, V)>, n: nat)
    requires n < |items| && items[n].0 !in FirstWins(items[..n])
    ensures FirstWins(items[..n + 1]) == FirstWins(items[..n])[items[n].0 := items[n].1]
  {
    assert items[..n + 1][..n] == items[..n];
  }

  lemma {:induction false} FirstWinsKeys<K, V>(items: seq<(K, V)>, k: K)
    ensures k in FirstWins(items) <==> exists i :: 0 <= i < |items| && items[i].0 == k
  {
    if items != [] {
      var n := |items| - 1;
      FirstWinsKeys(items[..n], k);
      assert forall i | 0 <= i < n :: items[..n][i] == items[i];
    }
  }

  lemma {:induction false} FirstWinsValue<K, V>(items: seq<(K, V)>, k: K) returns (i: nat)
    requires k in FirstWins(items)
    ensures i < |items| && items[i].0 == k && FirstWins(items)[k] == items[i].1
    ensures forall j | 0 <= j < i :: items[j].0 != k
  {
    var n := |items| - 1;
    if k in FirstWins(items[..n]) {
      i := FirstWinsValue(items[..n], k);
    } else {
      i := n;
      FirstWinsKeys(items[..n], k);
      forall j | 0 <= j < i ensures items[j].0 != k {
        assert items[..n][j] == items[j];
      }
    }
  }

  // ----- what one flush asks for -----------------------------------------------------

  /**
   * Conferences are unique by (app, external id), participants by (conference, user), sessions and
   * connections by external id; a session's value is its participant, a connection's its session and
   * its started_at in milliseconds.
   */
  datatype Db = Db(
    conferences: Table<(int, string), ()>,
    participants: Table<(int, string), ()>,
    sessions: Table<string, int>,
    connections: Table<string, (int, int)>)

  ghost predicate DbOk(db: Db) {
    && TableOk(db.conferences) && TableOk(db.participants) && TableOk(db.sessions) && TableOk(db.connections)
    && (forall id | id in db.participants.rows :: db.participants.rows[id].key.0 in db.conferences.rows)
    && (forall id | id in db.sessions.rows :: db.sessions.rows[id].value in db.participants.rows)
    && (forall id | id in db.connections.rows :: db.connections.rows[id].value.0 in db.sessions.rows)
  }

  ghost predicate DbExtends(db: Db, db': Db) {
    && Extends(db.conferences, db'.conferences) && Extends(db.participants, db'.participants)
    && Extends(db.sessions, db'.sessions) && Extends(db.connections, db'.connections)
  }

  predicate Parses(batch: seq<Payload>) { forall i | 0 <= i < |batch| :: ParseInt(batch[i].appID).Some? }

  function App(p: Payload): int { match ParseInt(p.appID) case Some(id) => id case None => 0 }

  function ConferenceItems(batch: seq<Payload>): seq<((int, string), ())> {
    seq(|batch|, i requires 0 <= i < |batch| => ((App(batch[i]), batch[i].conferenceID), ()))
  }

  /**
   * confIDs is keyed by external id alone: the app it stands for is the last one to appear with that
   * id for the first time in the batch.
   */
  function ChosenApps(batch: seq<Payload>): map<string, int> {
    if batch == [] then map[]
    else
      var n := |batch| - 1;
      var m := ChosenApps(batch[..n]);
      if (App(batch[n]), batch[n].conferenceID) in FirstWins(ConferenceItems(batch[..n])) then m
      else m[batch[n].conferenceID := App(batch[n])]
  }

  /** confIDs[conferenceID] in the code. */
  ghost function ConferenceId(conferences: Table<(int, string), ()>, batch: seq<Payload>, conferenceID: string): int {
    if conferenceID in ChosenApps(batch) then IdOf(conferences, (ChosenApps(batch)[conferenceID], conferenceID)) else 0
  }

  ghost function ParticipantItems(conferences: Table<(int, string), ()>, batch: seq<Payload>): seq<((int, string), ())> {
    seq(|batch|, i requires 0 <= i < |batch| =>
      ((ConferenceId(conferences, batch, batch[i].conferenceID), batch[i].userID), ()))
  }

  /** partIDs[participantKey(...)] in the code. */
  ghost function ParticipantId(db: Db, batch: seq<Payload>, p: Payload): int {
    IdOf(db.participants, (ConferenceId(db.conferences, batch, p.conferenceID), p.userID))
  }

  ghost function SessionItems(db: Db, batch: seq<Payload>): seq<(string, int)> {
    seq(|batch|, i requires 0 <= i < |batch| => (batch[i].sessionID, ParticipantId(db, batch, batch[i])))
  }

  /** All event times of a connection in the batch. */
  function EventTimes(batch: seq<Payload>, connectionID: string): seq<int> {
    if batch == [] then []
    else
      var p := batch[|batch| - 1];
      EventTimes(batch[..|batch| - 1], connectionID)
      + if p.connectionID == connectionID then seq(|p.events|, i requires 0 <= i < |p.events| => p.events[i].ts) else []
  }

  function Earliest(times: seq<int>): (r: Option<int>)
    ensures r.None? <==> times == []
    ensures r.Some? ==> r.value in times && forall i | 0 <= i < |times| :: r.value <= times[i]
  {
    if times == [] then None
    else
      var t := times[|times| - 1];
      match Earliest(times[..|times| - 1])
      case None => Some(t)
      case Some(m) => Some(if t < m then t else m)
  }

  /** The batch's earliest event time for the connection; the epoch if it has no events. */
  function StartedAt(batch: seq<Payload>, connectionID: string): int {
    match Earliest(EventTimes(batch, connectionID)) case Some(t) => t case None => 0
  }

  ghost function ConnectionItems(sessions: Table<string, int>, batch: seq<Payload>): seq<(string, (int, int))> {
    seq(|batch|, i requires 0 <= i < |batch| =>
      (batch[i].connectionID, (IdOf(sessions, batch[i].sessionID), StartedAt(batch, batch[i].connectionID))))
  }

  /** The effect of committing a flush of this batch. */
  ghost predicate Committed(db: Db, db': Db, batch: seq<Payload>) {
    && Parses(batch)
    && Grown(db.conferences, db'.conferences, FirstWins(ConferenceItems(batch)))
    && Grown(db.participants, db'.participants, FirstWins(ParticipantItems(db'.conferences, batch)))
    && Grown(db.sessions, db'.sessions, FirstWins(SessionItems(db', batch)))
    && Grown(db.connections, db'.connections, FirstWins(ConnectionItems(db'.sessions, batch)))
  }

  // ----- every lookup hits -----------------------------------------------------------

  ghost predicate Uses(batch: seq<Payload>, ext: string) {
    exists i :: 0 <= i < |batch| && batch[i].conferenceID == ext
  }

  ghost predicate UsesFor(batch: seq<Payload>, ext: string, app: int) {
    exists i :: 0 <= i < |batch| && batch[i].conferenceID == ext && App(batch[i]) == app
  }

  /** Every conference id of the batch has a chosen app, and that (app, id) pair is in the batch. */
  lemma {:induction false} ChosenInBatch(batch: seq<Payload>, ext: string)
    ensures Uses(batch, ext) ==> ext in ChosenApps(batch)
    ensures ext in ChosenApps(batch) ==> UsesFor(batch, ext, ChosenApps(batch)[ext])
    decreases |batch|
  {
    if batch != [] {
      var n := |batch| - 1;
      var prefix, last := batch[..n], batch[n];
      ChosenInBatch(prefix, ext);
      UsesPrefix(batch, ext);
      if (App(last), last.conferenceID) in FirstWins(ConferenceItems(prefix)) {
        KnownPair(prefix, last);
      } else if last.conferenceID == ext {
        assert batch[n].conferenceID == ext && App(batch[n]) == ChosenApps(batch)[ext];
      }
    }
  }

  lemma {:induction false} UsesPrefix(batch: seq<Payload>, ext: string)
    requires batch != []
    ensures var prefix, last := batch[..|batch| - 1], batch[|batch| - 1];
      && (Uses(batch, ext) <==> Uses(prefix, ext) || last.conferenceID == ext)
      && (forall app :: UsesFor(prefix, ext, app) ==> UsesFor(batch, ext, app))
  {
  }

  lemma {:induction false} KnownPair(prefix: seq<Payload>, p: Payload)
    requires (App(p), p.conferenceID) in FirstWins(ConferenceItems(prefix))
    ensures Uses(prefix, p.conferenceID)
  {
    var pair := (App(p), p.conferenceID);
    FirstWinsKeys(ConferenceItems(prefix), pair);
    var j :| 0 <= j < |ConferenceItems(prefix)| && ConferenceItems(prefix)[j].0 == pair;
    assert prefix[j].conferenceID == p.conferenceID;
  }

  lemma {:induction false} ConferenceHit(db: Db, db': Db, batch: seq<Payload>, ext: string)
    requires Committed(db, db', batch) && Uses(batch, ext)
    ensures ext in ChosenApps(batch)
    ensures HasKey(db'.conferences, (ChosenApps(batch)[ext], ext))
    ensures var id := ConferenceId(db'.conferences, batch, ext);
      id in db'.conferences.rows && db'.conferences.rows[id].key == (ChosenApps(batch)[ext], ext)
  {
    ChosenInBatch(batch, ext);
    var pair := (ChosenApps(batch)[ext], ext);
    var i :| 0 <= i < |batch| && batch[i].conferenceID == ext && App(batch[i]) == ChosenApps(batch)[ext];
    assert ConferenceItems(batch)[i].0 == pair;
    FirstWinsKeys(ConferenceItems(batch), pair);
  }

  /** For every payload, each id the flush threads to the next level is a row's id, never Go's zero default. */
  lemma {:induction false} LookupsHit(db: Db, db': Db, batch: seq<Payload>, i: nat)
    requires Committed(db, db', batch) && i < |batch|
    ensures ConferenceId(db'.conferences, batch, batch[i].conferenceID) in db'.conferences.rows
    ensures ParticipantId(db', batch, batch[i]) in db'.participants.rows
    ensures HasKey(db'.sessions, batch[i].sessionID) && HasKey(db'.connections, batch[i].connectionID)
  {
    ConferenceHit(db, db', batch, batch[i].conferenceID);
    var participants := ParticipantItems(db'.conferences, batch);
    var sessions := SessionItems(db', batch);
    var connections := ConnectionItems(db'.sessions, batch);
    FirstWinsKeys(participants, participants[i].0);
    FirstWinsKeys(sessions, sessions[i].0);
    FirstWinsKeys(connections, connections[i].0);
  }

  lemma {:induction false} ParticipantParent(db: Db, db': Db, batch: seq<Payload>, id: int)
    requires DbOk(db) && Committed(db, db', batch) && id in db'.participants.rows
    ensures db'.participants.rows[id].key.0 in db'.conferences.rows
  {
    if id !in db.participants.rows {
      var key := db'.participants.rows[id].key;
      var i := FirstWinsValue(ParticipantItems(db'.conferences, batch), key);
      assert key.0 == ConferenceId(db'.conferences, batch, batch[i].conferenceID);
      LookupsHit(db, db', batch, i);
    } else {
      var parent: int := db.participants.rows[id].key.0;
      assert parent in db.conferences.rows;
      assert db'.participants.rows[id] == db.participants.rows[id];
    }
  }

  lemma {:induction false} SessionParent(db: Db, db': Db, batch: seq<Payload>, id: int)
    requires DbOk(db) && Committed(db, db', batch) && id in db'.sessions.rows
    ensures db'.sessions.rows[id].value in db'.participants.rows
  {
    if id !in db.sessions.rows {
      var i := FirstWinsValue(SessionItems(db', batch), db'.sessions.rows[id].key);
      assert db'.sessions.rows[id].value == ParticipantId(db', batch, batch[i]);
      LookupsHit(db, db', batch, i);
    } else {
      var parent := db.sessions.rows[id].value;
      assert parent in db.participants.rows;
      assert db'.sessions.rows[id] == db.sessions.rows[id];
    }
  }

  lemma {:induction false} ConnectionParent(db: Db, db': Db, batch: seq<Payload>, id: int)
    requires DbOk(db) && Committed(db, db', batch) && id in db'.connections.rows
    ensures db'.connections.rows[id].value.0 in db'.sessions.rows
  {
    if id !in db.connections.rows {
      var i := FirstWinsValue(ConnectionItems(db'.sessions, batch), db'.connections.rows[id].key);
      assert db'.connections.rows[id].value.0 == IdOf(db'.sessions, batch[i].sessionID);
      LookupsHit(db, db', batch, i);
    } else {
      var parent: int := db.connections.rows[id].value.0;
      assert parent in db.sessions.rows;
      assert db'.connections.rows[id] == db.connections.rows[id];
    }
  }

  /** A committed flush keeps unique keys unique and every foreign key pointing at a row. */
  lemma {:induction false} CommittedKeepsDbOk(db: Db, db': Db, batch: seq<Payload>)
    requires DbOk(db) && Committed(db, db', batch)
    ensures DbOk(db') && DbExtends(db, db')
  {
    forall id | id in db'.participants.rows ensures db'.participants.rows[id].key.0 in db'.conferences.rows {
      ParticipantParent(db, db', batch, id);
    }
    forall id | id in db'.sessions.rows ensures db'.sessions.rows[id].value in db'.participants.rows {
      SessionParent(db, db', batch, id);
    }
    forall id | id in db'.connections.rows ensures db'.connections.rows[id].value.0 in db'.sessions.rows {
      ConnectionParent(db, db', batch, id);
    }
  }

  // ----- what a commit creates, on the fields of the payloads ------------------------

  lemma {:induction false} GrownKeys<K, V>(t: Table<K, V>, t': Table<K, V>, items: seq<(K, V)>, k: K)
    requires Grown(t, t', FirstWins(items))
    ensures HasKey(t', k) <==> HasKey(t, k) || exists i :: 0 <= i < |items| && items[i].0 == k
  {
    FirstWinsKeys(items, k);
    if HasKey(t, k) {
      KeyStays(t, t', k);
    } else if HasKey(t', k) {
      var id :| id in t'.rows && t'.rows[id].key == k;
      assert id !in t.rows;
    }
  }

  /** A payload's app id is the number, and it names the conference. */
  predicate AsksFor(p: Payload, app: int, conferenceID: string) {
    ParseInt(p.appID) == Some(app) && p.conferenceID == conferenceID
  }

  /** After a commit a conference, session or connection exists exactly when it did before or some payload names it. */
  lemma {:induction false} ExistsExactlyWhen(db: Db, db': Db, batch: seq<Payload>, app: int, name: string)
    requires Committed(db, db', batch)
    ensures HasKey(db'.conferences, (app, name))
       <==> HasKey(db.conferences, (app, name)) || exists i :: 0 <= i < |batch| && AsksFor(batch[i], app, name)
    ensures HasKey(db'.sessions, name) <==> HasKey(db.sessions, name) || exists i :: 0 <= i < |batch| && batch[i].sessionID == name
    ensures HasKey(db'.connections, name)
       <==> HasKey(db.connections, name) || exists i :: 0 <= i < |batch| && batch[i].connectionID == name
  {
    var conferences, sessions, connections := ConferenceItems(batch), SessionItems(db', batch), ConnectionItems(db'.sessions, batch);
    GrownKeys(db.conferences, db'.conferences, conferences, (app, name));
    GrownKeys(db.sessions, db'.sessions, sessions, name);
    GrownKeys(db.connections, db'.connections, connections, name);
    forall i | 0 <= i < |batch|
      ensures conferences[i].0 == (app, name) <==> AsksFor(batch[i], app, name)
      ensures sessions[i].0 == batch[i].sessionID && connections[i].0 == batch[i].connectionID
    {
      assert ParseInt(batch[i].appID).Some?;
    }
  }

  /** A participant exists exactly when it did before or a payload of that user names its conference. */
  lemma {:induction false} ParticipantExactlyWhen(db: Db, db': Db, batch: seq<Payload>, conference: int, userID: string)
    requires Committed(db, db', batch)
    ensures HasKey(db'.participants, (conference, userID))
       <==> HasKey(db.participants, (conference, userID))
            || exists i :: 0 <= i < |batch| && batch[i].userID == userID && IsConference(db', batch, batch[i].conferenceID, conference)
  {
    var items := ParticipantItems(db'.conferences, batch);
    GrownKeys(db.participants, db'.participants, items, (conference, userID));
    forall i | 0 <= i < |batch|
      ensures items[i].0 == (conference, userID)
         <==> batch[i].userID == userID && IsConference(db', batch, batch[i].conferenceID, conference)
    {
      ConferenceHit(db, db', batch, batch[i].conferenceID);
      var id := ConferenceId(db'.conferences, batch, batch[i].conferenceID);
      if IsConference(db', batch, batch[i].conferenceID, conference) {
        IdOfIs(db'.conferences, db'.conferences.rows[id].key, conference);
      }
    }
  }

  /** The row stands for the conference id, under the app chosen for it. */
  ghost predicate IsConference(db: Db, batch: seq<Payload>, conferenceID: string, id: int) {
    && id in db.conferences.rows && conferenceID in ChosenApps(batch)
    && db.conferences.rows[id].key == (ChosenApps(batch)[conferenceID], conferenceID)
  }

  /** Payload i brings its conference id with an app that no payload before it did. */
  ghost predicate FirstPair(batch: seq<Payload>, i: nat)
    requires i < |batch|
  {
    forall j | 0 <= j < i && batch[j].conferenceID == batch[i].conferenceID :: App(batch[j]) != App(batch[i])
  }

  /** Payload i is the last to bring the conference id with an app new to it. */
  ghost predicate LastNew(batch: seq<Payload>, ext: string, i: nat) {
    && i < |batch| && batch[i].conferenceID == ext && FirstPair(batch, i)
    && forall j | i < j < |batch| && batch[j].conferenceID == ext :: !FirstPair(batch, j)
  }

  /** That payload's app is the one chosen for the conference id. */
  lemma {:induction false} ChosenIsLastNew(batch: seq<Payload>, ext: string) returns (i: nat)
    requires ext in ChosenApps(batch)
    ensures LastNew(batch, ext, i) && ChosenApps(batch)[ext] == App(batch[i])
    decreases |batch|
  {
    var n := |batch| - 1;
    ChosenNext(batch);
    if batch[n].conferenceID == ext && FirstPair(batch, n) {
      i := n;
    } else {
      i := ChosenIsLastNew(batch[..n], ext);
      LastNewNext(batch, ext, i);
    }
  }

  lemma {:induction false} LastNewNext(batch: seq<Payload>, ext: string, i: nat)
    requires batch != [] && LastNew(batch[..|batch| - 1], ext, i)
    requires batch[|batch| - 1].conferenceID != ext || !FirstPair(batch, |batch| - 1)
    ensures LastNew(batch, ext, i)
  {
    var n := |batch| - 1;
    forall j | 0 <= j < n ensures FirstPair(batch[..n], j) <==> FirstPair(batch, j) {
      FirstPairPrefix(batch, n, j);
    }
  }

  lemma {:induction false} FirstPairPrefix(batch: seq<Payload>, n: nat, j: nat)
    requires j < n <= |batch|
    ensures FirstPair(batch[..n], j) <==> FirstPair(batch, j)
  {
    assert forall k | 0 <= k <= j :: batch[..n][k] == batch[k];
  }

  lemma {:induction false} ChosenNext(batch: seq<Payload>)
    requires batch != []
    ensures var n := |batch| - 1;
      ChosenApps(batch) == if FirstPair(batch, n) then ChosenApps(batch[..n])[batch[n].conferenceID := App(batch[n])]
                           else ChosenApps(batch[..n])
  {
    var n := |batch| - 1;
    var pair, items := (App(batch[n]), batch[n].conferenceID), ConferenceItems(batch[..n]);
    FirstWinsKeys(items, pair);
    assert forall j | 0 <= j < n :: items[j].0 == (App(batch[j]), batch[j].conferenceID);
  }

  /** t is the time of an event of the connection. */
  ghost predicate HappensAt(batch: seq<Payload>, connectionID: string, t: int) {
    exists i, k :: 0 <= i < |batch| && batch[i].connectionID == connectionID && 0 <= k < |batch[i].events| && batch[i].events[k].ts == t
  }

  lemma {:induction false} EventTimesAre(batch: seq<Payload>, connectionID: string, t: int)
    ensures t in EventTimes(batch, connectionID) <==> HappensAt(batch, connectionID, t)
    decreases |batch|
  {
    if batch != [] {
      var n := |batch| - 1;
      EventTimesAre(batch[..n], connectionID, t);
      LastHappens(batch, connectionID, t);
    }
  }

  lemma {:induction false} LastHappens(batch: seq<Payload>, connectionID: string, t: int)
    requires batch != []
    ensures var p := batch[|batch| - 1];
      HappensAt(batch, connectionID, t)
      <==> HappensAt(batch[..|batch| - 1], connectionID, t)
           || (p.connectionID == connectionID && exists k :: 0 <= k < |p.events| && p.events[k].ts == t)
  {
    var n := |batch| - 1;
    assert forall i | 0 <= i < n :: batch[..n][i] == batch[i];
  }

  /** A connection starts at its earliest event of the batch, and at the epoch when the batch has none. */
  ghost predicate StartsAt(batch: seq<Payload>, connectionID: string, t: int) {
    && (forall u | HappensAt(batch, connectionID, u) :: t <= u)
    && (HappensAt(batch, connectionID, t) || (t == 0 && forall u :: !HappensAt(batch, connectionID, u)))
  }

  lemma {:induction false} StartedAtIs(batch: seq<Payload>, connectionID: string)
    ensures StartsAt(batch, connectionID, StartedAt(batch, connectionID))
  {
    var times := EventTimes(batch, connectionID);
    forall u ensures u in times <==> HappensAt(batch, connectionID, u) {
      EventTimesAre(batch, connectionID, u);
    }
  }

  /** A connection that the commit creates starts at the earliest event the batch has for it. */
  lemma {:induction false} NewConnectionStarts(db: Db, db': Db, batch: seq<Payload>, id: int)
    requires Committed(db, db', batch) && id in db'.connections.rows && id !in db.connections.rows
    ensures StartsAt(batch, db'.connections.rows[id].key, db'.connections.rows[id].value.1)
  {
    var connectionID := db'.connections.rows[id].key;
    var i := FirstWinsValue(ConnectionItems(db'.sessions, batch), connectionID);
    StartedAtIs(batch, connectionID);
  }

  // ----- whose app a participant lands under -----------------------------------------

  /** The participant the flush uses for p sits in the conference of p's own app. */
  ghost predicate UnderOwnApp(db: Db, batch: seq<Payload>, p: Payload) {
    var id := ParticipantId(db, batch, p);
    && id in db.participants.rows
    && db.participants.rows[id].key.0 in db.conferences.rows
    && db.conferences.rows[db.participants.rows[id].key.0].key == (App(p), p.conferenceID)
  }

  /** No conference id of the batch occurs with two apps. */
  predicate OneAppPerConference(batch: seq<Payload>) {
    forall i, j | 0 <= i < |batch| && 0 <= j < |batch| && batch[i].conferenceID == batch[j].conferenceID ::
      App(batch[i]) == App(batch[j])
  }

  lemma {:induction false} ParticipantConference(db: Db, db': Db, batch: seq<Payload>, i: nat)
    requires DbOk(db) && Committed(db, db', batch) && i < |batch|
    ensures batch[i].conferenceID in ChosenApps(batch)
    ensures var id := ParticipantId(db', batch, batch[i]);
      && id in db'.participants.rows
      && db'.participants.rows[id].key.0 in db'.conferences.rows
      && db'.conferences.rows[db'.participants.rows[id].key.0].key
         == (ChosenApps(batch)[batch[i].conferenceID], batch[i].conferenceID)
  {
    ConferenceHit(db, db', batch, batch[i].conferenceID);
    LookupsHit(db, db', batch, i);
    var participants := ParticipantItems(db'.conferences, batch);
    FirstWinsKeys(participants, participants[i].0);
  }

  /**
   * Every payload's participant lands under the payload's own app exactly when no conference id is
   * used by two apps within the batch.
   */
  lemma {:induction false} OwnAppExactlyWhen(db: Db, db': Db, batch: seq<Payload>)
    requires DbOk(db) && Committed(db, db', batch)
    ensures (forall i | 0 <= i < |batch| :: UnderOwnApp(db', batch, batch[i])) <==> OneAppPerConference(batch)
  {
    forall i | 0 <= i < |batch|
      ensures batch[i].conferenceID in ChosenApps(batch)
      ensures UnderOwnApp(db', batch, batch[i]) <==> App(batch[i]) == ChosenApps(batch)[batch[i].conferenceID]
    {
      ParticipantConference(db, db', batch, i);
    }
    if OneAppPerConference(batch) {
      forall i | 0 <= i < |batch| ensures UnderOwnApp(db', batch, batch[i]) {
        ChosenInBatch(batch, batch[i].conferenceID);
      }
    }
  }

  /** The upserts of all items in turn, each key once. */
  ghost function UpsertEach<K, V>(t: Table<K, V>, items: seq<(K, V)>, n: nat): Table<K, V>
    requires n <= |items|
  {
    if n == 0 then t
    else
      var t' := UpsertEach(t, items, n - 1);
      if items[n - 1].0 in FirstWins(items[..n - 1]) then t' else Upsert(t', items[n - 1].0, items[n - 1].1).0
  }

  lemma {:induction false} UpsertEachGrows<K, V>(t: Table<K, V>, items: seq<(K, V)>, n: nat)
    requires TableOk(t) && n <= |items|
    ensures Grown(t, UpsertEach(t, items, n), FirstWins(items[..n]))
  {
    if n == 0 {
      assert items[..0] == [];
      GrownStart(t);
    } else {
      UpsertEachGrows(t, items, n - 1);
      if items[n - 1].0 in FirstWins(items[..n - 1]) {
        GrownSkip(items, n - 1);
      } else {
        GrownUpsert(t, UpsertEach(t, items, n - 1), items, n - 1);
      }
    }
  }

  lemma {:induction false} UpsertAllGrows<K, V>(t: Table<K, V>, items: seq<(K, V)>) returns (t': Table<K, V>)
    requires TableOk(t)
    ensures Grown(t, t', FirstWins(items))
  {
    t' := UpsertEach(t, items, |items|);
    UpsertEachGrows(t, items, |items|);
    assert items[..|items|] == items;
  }

  /** Every batch whose app ids parse can be committed to every database. */
  lemma {:induction false} EveryBatchCommits(db: Db, batch: seq<Payload>) returns (db': Db)
    requires DbOk(db) && Parses(batch)
    ensures Committed(db, db', batch)
  {
    var conferences := UpsertAllGrows(db.conferences, ConferenceItems(batch));
    var participants := UpsertAllGrows(db.participants, ParticipantItems(conferences, batch));
    var upper := db.(conferences := conferences, participants := participants);
    var sessions := UpsertAllGrows(db.sessions, SessionItems(upper, batch));
    var connections := UpsertAllGrows(db.connections, ConnectionItems(sessions, batch));
    db' := upper.(sessions := sessions, connections := connections);
    assert SessionItems(db', batch) == SessionItems(upper, batch);
  }

  /** Whatever is in the tables, a batch that uses one conference id for two apps commits and files someone under the wrong app. */
  lemma {:induction false} TwoAppsMisfile(db: Db, batch: seq<Payload>) returns (db': Db, i: nat)
    requires DbOk(db) && Parses(batch) && !OneAppPerConference(batch)
    ensures Committed(db, db', batch) && i < |batch| && !UnderOwnApp(db', batch, batch[i])
  {
    db' := EveryBatchCommits(db, batch);
    OwnAppExactlyWhen(db, db', batch);
    i :| 0 <= i < |batch| && !UnderOwnApp(db', batch, batch[i]);
  }

  /** Such a batch: apps 1 and 2 both call their conference "room". */
  lemma {:induction false} TwoAppsOneRoom() returns (batch: seq<Payload>)
    ensures Parses(batch) && !OneAppPerConference(batch)
  {
    batch := [Payload("1", "ann", "", "room", "s1", "c1", []), Payload("2", "bob", "", "room", "s2", "c2", [])];
    ParseFormat(1);
    ParseFormat(2);
    assert FormatInt(1) == "1" && FormatInt(2) == "2";
    assert batch[0].conferenceID == batch[1].conferenceID && App(batch[0]) == 1 && App(batch[1]) == 2;
  }

  // ----- any run of flushes ----------------------------------------------------------

  ghost predicate SameRows(db: Db, db': Db) {
    && db'.conferences.rows == db.conferences.rows && db'.participants.rows == db.participants.rows
    && db'.sessions.rows == db.sessions.rows && db'.connections.rows == db.connections.rows
  }

  /** The tables after a rollback: the old rows, with the sequence numbers the transaction used up. */
  function AfterRollback(db: Db, tx: Db): Db {
    Db(db.conferences.(next := tx.conferences.next), db.participants.(next := tx.participants.next),
       db.sessions.(next := tx.sessions.next), db.connections.(next := tx.connections.next))
  }

  datatype Outcome = Commit(batch: seq<Payload>) | Rollback

  /** The transaction that saw tx last leaves db'. */
  ghost predicate Ends(db: Db, tx: Db, db': Db, outcome: Outcome) {
    match outcome
    case Commit(batch) => Committed(db, tx, batch) && db' == tx
    case Rollback => DbExtends(db, tx) && db' == AfterRollback(db, tx)
  }

  /** One flush, in some transaction. */
  ghost predicate FlushStep(db: Db, db': Db, outcome: Outcome) {
    exists tx :: Ends(db, tx, db', outcome)
  }

  /** A run of flushes with these outcomes, in this order, can lead from db to db'. */
  ghost predicate Leads(db: Db, db': Db, outcomes: seq<Outcome>)
    decreases |outcomes|
  {
    if outcomes == [] then DbOk(db) && db' == db
    else
      var n := |outcomes| - 1;
      exists mid :: Leads(db, mid, outcomes[..n]) && FlushStep(mid, db', outcomes[n])
  }

  lemma {:induction false} StepExtends(db: Db, db': Db, outcome: Outcome)
    requires DbOk(db) && FlushStep(db, db', outcome)
    ensures DbOk(db') && DbExtends(db, db')
  {
    var tx :| Ends(db, tx, db', outcome);
    match outcome
    case Commit(batch) => CommittedKeepsDbOk(db, db', batch);
    case Rollback =>
  }

  /**
   * Over any run of flushes, unique keys stay unique and foreign keys valid, and no row ever changes:
   * a session's participant and a connection's session are fixed at creation.
   */
  lemma {:induction false} RowsAreForever(db: Db, db': Db, outcomes: seq<Outcome>)
    requires Leads(db, db', outcomes)
    ensures DbOk(db') && DbExtends(db, db')
    decreases |outcomes|
  {
    if outcomes != [] {
      var n := |outcomes| - 1;
      var mid :| Leads(db, mid, outcomes[..n]) && FlushStep(mid, db', outcomes[n]);
      RowsAreForever(db, mid, outcomes[..n]);
      StepExtends(mid, db', outcomes[n]);
      ExtendsOn(db, mid, db');
    }
  }

  lemma {:induction false} ExtendsOn(db: Db, mid: Db, db': Db)
    requires DbExtends(db, mid) && DbExtends(mid, db')
    ensures DbExtends(db, db')
  {
  }

  lemma {:induction false} NothingWanted<K, V>(t: Table<K, V>, t': Table<K, V>, wanted: map<K, V>)
    requires Grown(t, t', wanted) && forall k | k in wanted :: HasKey(t, k)
    ensures t'.rows == t.rows
  {
    forall id: int ensures id in t'.rows <==> id in t.rows {
      if id in t'.rows && id !in t.rows {
        assert false;
      }
    }
    assert forall id: int | id in t.rows :: id in t'.rows && t'.rows[id] == t.rows[id];
    assert t'.rows.Keys == t.rows.Keys;
  }

  /** Conference ids resolve to the same rows in any later state. */
  lemma {:induction false} ConferenceIdStable(db: Db, after: Db, later: Db, later': Db, batch: seq<Payload>, ext: string)
    requires Committed(db, after, batch) && Extends(after.conferences, later.conferences)
    requires Extends(later.conferences, later'.conferences) && TableOk(later'.conferences)
    requires exists i :: 0 <= i < |batch| && batch[i].conferenceID == ext
    ensures ConferenceId(later'.conferences, batch, ext) == ConferenceId(after.conferences, batch, ext)
  {
    ConferenceHit(db, after, batch, ext);
    IdOfStable(after.conferences, later'.conferences, (ChosenApps(batch)[ext], ext));
  }

  /** A key present after the first commit is present later. */
  lemma {:induction false} KeyStays<K, V>(t: Table<K, V>, t': Table<K, V>, k: K)
    requires Extends(t, t') && HasKey(t, k)
    ensures HasKey(t', k)
  {
  }

  lemma {:induction false} ReplayConferences(db: Db, after: Db, later: Db, later': Db, batch: seq<Payload>)
    requires Committed(db, after, batch) && DbExtends(after, later) && Committed(later, later', batch)
    ensures later'.conferences.rows == later.conferences.rows
  {
    forall k | k in FirstWins(ConferenceItems(batch)) ensures HasKey(later.conferences, k) {
      KeyStays(after.conferences, later.conferences, k);
    }
    NothingWanted(later.conferences, later'.conferences, FirstWins(ConferenceItems(batch)));
  }

  lemma {:induction false} ReplayParticipants(db: Db, after: Db, later: Db, later': Db, batch: seq<Payload>)
    requires Committed(db, after, batch) && DbExtends(after, later) && Committed(later, later', batch)
    ensures later'.participants.rows == later.participants.rows
  {
    var first, again := ParticipantItems(after.conferences, batch), ParticipantItems(later'.conferences, batch);
    forall k | k in FirstWins(again) ensures HasKey(later.participants, k) {
      var i := FirstWinsValue(again, k);
      ConferenceIdStable(db, after, later, later', batch, batch[i].conferenceID);
      assert k == first[i].0;
      FirstWinsKeys(first, k);
      KeyStays(after.participants, later.participants, k);
    }
    NothingWanted(later.participants, later'.participants, FirstWins(again));
  }

  lemma {:induction false} ReplaySessions(db: Db, after: Db, later: Db, later': Db, batch: seq<Payload>)
    requires Committed(db, after, batch) && DbExtends(after, later) && Committed(later, later', batch)
    ensures later'.sessions.rows == later.sessions.rows
  {
    var again := SessionItems(later', batch);
    forall k | k in FirstWins(again) ensures HasKey(later.sessions, k) {
      var i := FirstWinsValue(again, k);
      LookupsHit(db, after, batch, i);
      KeyStays(after.sessions, later.sessions, k);
    }
    NothingWanted(later.sessions, later'.sessions, FirstWins(again));
  }

  lemma {:induction false} ReplayConnections(db: Db, after: Db, later: Db, later': Db, batch: seq<Payload>)
    requires Committed(db, after, batch) && DbExtends(after, later) && Committed(later, later', batch)
    ensures later'.connections.rows == later.connections.rows
  {
    var again := ConnectionItems(later'.sessions, batch);
    forall k | k in FirstWins(again) ensures HasKey(later.connections, k) {
      var i := FirstWinsValue(again, k);
      LookupsHit(db, after, batch, i);
      KeyStays(after.connections, later.connections, k);
    }
    NothingWanted(later.connections, later'.connections, FirstWins(again));
  }

  /**
   * Flushing a batch again, at any later time, creates no conference, participant, session or
   * connection.
   */
  lemma {:induction false} ReplayCreatesNothing(db: Db, after: Db, later: Db, later': Db, batch: seq<Payload>)
    requires Committed(db, after, batch) && DbExtends(after, later) && Committed(later, later', batch)
    ensures SameRows(later, later')
  {
    ReplayConferences(db, after, later, later', batch);
    ReplayParticipants(db, after, later, later', batch);
    ReplaySessions(db, after, later, later', batch);
    ReplayConnections(db, after, later, later', batch);
  }

  /** The same along a run: a batch was committed, any flushes followed, and it is committed again. */
  lemma {:induction false} ReplayInRun(db: Db, after: Db, later: Db, later': Db, batch: seq<Payload>, between: seq<Outcome>)
    requires FlushStep(db, after, Commit(batch)) && Leads(after, later, between) && FlushStep(later, later', Commit(batch))
    ensures SameRows(later, later')
  {
    RowsAreForever(after, later, between);
    assert Committed(db, after, batch) by { var tx :| Ends(db, tx, after, Commit(batch)); }
    assert Committed(later, later', batch) by { var tx :| Ends(later, tx, later', Commit(batch)); }
    ReplayCreatesNothing(db, after, later, later', batch);
  }
}

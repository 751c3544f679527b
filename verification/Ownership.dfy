/**
 * internal/ingest/flush.go: whose data a statistics row ends up with. Sessions and connections are unique by
 * external id over all apps, and the first payload to use an id keeps it: a row leads, through its connection,
 * session and participant, to whoever came first.
 */
module Ownership {
  import opened Common
  import opened Model
  import opened Keys
  import opened Hierarchy
  import Flusher

  /** The user of a conference of an app. */
  datatype Owner = Owner(app: int, conferenceID: string, userID: string)

  function OwnerOf(p: Payload): Owner {
    Owner(App(p), p.conferenceID, p.userID)
  }

  // ----- where rows lead -------------------------------------------------------------

  ghost function ParticipantOwner(db: Db, id: int): Owner
    requires DbOk(db) && id in db.participants.rows
  {
    var key := db.participants.rows[id].key;
    var conference := db.conferences.rows[key.0].key;
    Owner(conference.0, conference.1, key.1)
  }

  ghost function SessionOwner(db: Db, sessionID: string): Owner
    requires DbOk(db) && HasKey(db.sessions, sessionID)
  {
    ParticipantOwner(db, db.sessions.rows[IdOf(db.sessions, sessionID)].value)
  }

  /** The session a connection hangs on. */
  ghost function SessionOfConnection(db: Db, connectionID: string): string
    requires DbOk(db) && HasKey(db.connections, connectionID)
  {
    db.sessions.rows[db.connections.rows[IdOf(db.connections, connectionID)].value.0].key
  }

  /** The connection row leads to the payload's own session, user, conference and app. */
  ghost predicate LeadsTo(db: Db, connection: int, p: Payload)
    requires DbOk(db)
  {
    && connection in db.connections.rows
    && var session := db.connections.rows[connection].value.0;
    && session in db.sessions.rows && db.sessions.rows[session].key == p.sessionID
    && db.sessions.rows[session].value in db.participants.rows
    && ParticipantOwner(db, db.sessions.rows[session].value) == OwnerOf(p)
  }

  // ----- what decides it before the flush --------------------------------------------

  /** The first place of a name. */
  function First(names: seq<string>, name: string): (i: nat)
    requires name in names
    ensures i < |names| && names[i] == name && forall j | 0 <= j < i :: names[j] != name
  {
    if names[0] == name then 0 else First(names[1..], name) + 1
  }

  /** Whom a new session goes to: the user of the first payload that names it, under the app its conference id stands for. */
  ghost function NewOwner(batch: seq<Payload>, sessionID: string): Owner
    requires sessionID in Flusher.SessionNames(batch)
  {
    var q := batch[First(Flusher.SessionNames(batch), sessionID)];
    Owner(if q.conferenceID in ChosenApps(batch) then ChosenApps(batch)[q.conferenceID] else 0, q.conferenceID, q.userID)
  }

  ghost function OwnerBefore(db: Db, batch: seq<Payload>, sessionID: string): Owner
    requires DbOk(db) && sessionID in Flusher.SessionNames(batch)
  {
    if HasKey(db.sessions, sessionID) then SessionOwner(db, sessionID) else NewOwner(batch, sessionID)
  }

  ghost function SessionBefore(db: Db, batch: seq<Payload>, connectionID: string): string
    requires DbOk(db) && connectionID in Flusher.ConnectionNames(batch)
  {
    if HasKey(db.connections, connectionID) then SessionOfConnection(db, connectionID)
    else batch[First(Flusher.ConnectionNames(batch), connectionID)].sessionID
  }

  lemma {:induction false} NamesIn(batch: seq<Payload>, i: nat)
    requires i < |batch|
    ensures batch[i].sessionID in Flusher.SessionNames(batch) && batch[i].connectionID in Flusher.ConnectionNames(batch)
  {
    assert Flusher.SessionNames(batch)[i] == batch[i].sessionID && Flusher.ConnectionNames(batch)[i] == batch[i].connectionID;
  }

  // ----- rows that were there stay ---------------------------------------------------

  lemma {:induction false} OwnerStays(db: Db, db': Db, id: int)
    requires DbOk(db) && DbOk(db') && DbExtends(db, db') && id in db.participants.rows
    ensures id in db'.participants.rows && ParticipantOwner(db', id) == ParticipantOwner(db, id)
  {
    var conference: int := db.participants.rows[id].key.0;
    assert db'.participants.rows[id] == db.participants.rows[id];
    assert db'.conferences.rows[conference] == db.conferences.rows[conference];
  }

  lemma {:induction false} OldSession(db: Db, db': Db, sessionID: string)
    requires DbOk(db) && DbOk(db') && DbExtends(db, db') && HasKey(db.sessions, sessionID)
    ensures HasKey(db'.sessions, sessionID) && SessionOwner(db', sessionID) == SessionOwner(db, sessionID)
  {
    IdOfStable(db.sessions, db'.sessions, sessionID);
    OwnerStays(db, db', db.sessions.rows[IdOf(db.sessions, sessionID)].value);
  }

  lemma {:induction false} OldConnection(db: Db, db': Db, connectionID: string)
    requires DbOk(db) && DbOk(db') && DbExtends(db, db') && HasKey(db.connections, connectionID)
    ensures HasKey(db'.connections, connectionID)
    ensures SessionOfConnection(db', connectionID) == SessionOfConnection(db, connectionID)
  {
    IdOfStable(db.connections, db'.connections, connectionID);
    var id := IdOf(db.connections, connectionID);
    var session: int := db.connections.rows[id].value.0;
    assert db'.connections.rows[id] == db.connections.rows[id];
    assert db'.sessions.rows[session] == db.sessions.rows[session];
  }

  // ----- rows that are new -----------------------------------------------------------

  /** A row with a wanted key that was not there has the wanted value. */
  lemma {:induction false} NewRow<K, V>(t: Table<K, V>, t': Table<K, V>, wanted: map<K, V>, k: K)
    requires Grown(t, t', wanted) && k in wanted && !HasKey(t, k)
    ensures HasKey(t', k) && IdOf(t', k) in t'.rows && t'.rows[IdOf(t', k)] == Row(k, wanted[k])
  {
    var id := IdOf(t', k);
    assert id in t'.rows && t'.rows[id].key == k;
    assert id !in t.rows;
  }

  lemma {:induction false} NewSession(db: Db, db': Db, batch: seq<Payload>, sessionID: string)
    requires DbOk(db) && DbOk(db') && Committed(db, db', batch) && sessionID in Flusher.SessionNames(batch) && !HasKey(db.sessions, sessionID)
    ensures HasKey(db'.sessions, sessionID) && SessionOwner(db', sessionID) == NewOwner(batch, sessionID)
  {
    var i, items := First(Flusher.SessionNames(batch), sessionID), SessionItems(db', batch);
    assert items[i].0 == sessionID;
    FirstWinsKeys(items, sessionID);
    var j := FirstWinsValue(items, sessionID);
    assert items[j].0 == batch[j].sessionID && i == j;
    NewRow(db.sessions, db'.sessions, FirstWins(items), sessionID);
    ParticipantConference(db, db', batch, i);
    ParticipantUser(db, db', batch, i);
  }

  lemma {:induction false} ParticipantUser(db: Db, db': Db, batch: seq<Payload>, i: nat)
    requires Committed(db, db', batch) && i < |batch|
    ensures var id := ParticipantId(db', batch, batch[i]);
      id in db'.participants.rows && db'.participants.rows[id].key.1 == batch[i].userID
  {
    var items := ParticipantItems(db'.conferences, batch);
    FirstWinsKeys(items, items[i].0);
  }

  lemma {:induction false} NewConnection(db: Db, db': Db, batch: seq<Payload>, connectionID: string)
    requires DbOk(db) && DbOk(db') && Committed(db, db', batch) && connectionID in Flusher.ConnectionNames(batch)
    requires !HasKey(db.connections, connectionID)
    ensures HasKey(db'.connections, connectionID)
    ensures SessionOfConnection(db', connectionID) == batch[First(Flusher.ConnectionNames(batch), connectionID)].sessionID
  {
    var i, items := First(Flusher.ConnectionNames(batch), connectionID), ConnectionItems(db'.sessions, batch);
    assert items[i].0 == connectionID;
    FirstWinsKeys(items, connectionID);
    var j := FirstWinsValue(items, connectionID);
    assert items[j].0 == batch[j].connectionID && i == j;
    NewRow(db.connections, db'.connections, FirstWins(items), connectionID);
    LookupsHit(db, db', batch, i);
  }

  // ----- the theorems ----------------------------------------------------------------

  /** After a commit, a session's owner and a connection's session are what the tables and the batch said before. */
  lemma {:induction false} DecidedBefore(db: Db, db': Db, batch: seq<Payload>, i: nat)
    requires DbOk(db) && Committed(db, db', batch) && i < |batch|
    ensures DbOk(db') && batch[i].sessionID in Flusher.SessionNames(batch) && batch[i].connectionID in Flusher.ConnectionNames(batch)
    ensures HasKey(db'.sessions, batch[i].sessionID) && HasKey(db'.connections, batch[i].connectionID)
    ensures SessionOwner(db', batch[i].sessionID) == OwnerBefore(db, batch, batch[i].sessionID)
    ensures SessionOfConnection(db', batch[i].connectionID) == SessionBefore(db, batch, batch[i].connectionID)
  {
    var p := batch[i];
    CommittedKeepsDbOk(db, db', batch);
    NamesIn(batch, i);
    if HasKey(db.sessions, p.sessionID) {
      OldSession(db, db', p.sessionID);
    } else {
      NewSession(db, db', batch, p.sessionID);
    }
    if HasKey(db.connections, p.connectionID) {
      OldConnection(db, db', p.connectionID);
    } else {
      NewConnection(db, db', batch, p.connectionID);
    }
  }

  lemma {:induction false} LeadsByName(db: Db, p: Payload)
    requires DbOk(db) && HasKey(db.connections, p.connectionID) && HasKey(db.sessions, p.sessionID)
    ensures LeadsTo(db, IdOf(db.connections, p.connectionID), p)
       <==> SessionOfConnection(db, p.connectionID) == p.sessionID && SessionOwner(db, p.sessionID) == OwnerOf(p)
  {
    var id := db.connections.rows[IdOf(db.connections, p.connectionID)].value.0;
    if db.sessions.rows[id].key == p.sessionID {
      IdOfIs(db.sessions, p.sessionID, id);
    }
  }

  /** A payload's rows lead to its own owner exactly when the ids it uses are its own, by tables and batch. */
  lemma {:induction false} LeadsExactlyWhen(db: Db, db': Db, batch: seq<Payload>, i: nat)
    requires DbOk(db) && Committed(db, db', batch) && i < |batch|
    ensures DbOk(db') && batch[i].sessionID in Flusher.SessionNames(batch) && batch[i].connectionID in Flusher.ConnectionNames(batch)
    ensures LeadsTo(db', IdOf(db'.connections, batch[i].connectionID), batch[i])
       <==> SessionBefore(db, batch, batch[i].connectionID) == batch[i].sessionID
            && OwnerBefore(db, batch, batch[i].sessionID) == OwnerOf(batch[i])
  {
    DecidedBefore(db, db', batch, i);
    LeadsByName(db', batch[i]);
  }

  /** Within the batch, a session is used for one owner and a connection for one session. */
  predicate OneOwner(batch: seq<Payload>) {
    forall i, j | 0 <= i < |batch| && 0 <= j < |batch| :: Agree(batch[i], batch[j])
  }

  predicate Agree(p: Payload, q: Payload) {
    && (p.sessionID == q.sessionID ==> OwnerOf(p) == OwnerOf(q))
    && (p.connectionID == q.connectionID ==> p.sessionID == q.sessionID)
  }

  /** No earlier row gives a session of the batch to another owner, or a connection to another session. */
  ghost predicate EarlierAgree(db: Db, batch: seq<Payload>)
    requires DbOk(db)
  {
    forall i | 0 <= i < |batch| :: EarlierAgrees(db, batch[i])
  }

  ghost predicate EarlierAgrees(db: Db, p: Payload)
    requires DbOk(db)
  {
    && (HasKey(db.sessions, p.sessionID) ==> SessionOwner(db, p.sessionID) == OwnerOf(p))
    && (HasKey(db.connections, p.connectionID) ==> SessionOfConnection(db, p.connectionID) == p.sessionID)
  }

  /** The conference ids of payloads with a new session stand for the payloads' own apps. */
  ghost predicate NewResolve(db: Db, batch: seq<Payload>) {
    forall i | 0 <= i < |batch| && !HasKey(db.sessions, batch[i].sessionID) :: Resolves(batch, batch[i])
  }

  predicate Resolves(batch: seq<Payload>, p: Payload) {
    p.conferenceID in ChosenApps(batch) && ChosenApps(batch)[p.conferenceID] == App(p)
  }

  ghost predicate AllLead(db': Db, batch: seq<Payload>)
    requires DbOk(db')
  {
    forall i | 0 <= i < |batch| :: LeadsTo(db', IdOf(db'.connections, batch[i].connectionID), batch[i])
  }

  lemma {:induction false} OwnIds(db: Db, batch: seq<Payload>, i: nat)
    requires DbOk(db) && i < |batch| && OneOwner(batch) && EarlierAgree(db, batch) && NewResolve(db, batch)
    ensures batch[i].sessionID in Flusher.SessionNames(batch) && batch[i].connectionID in Flusher.ConnectionNames(batch)
    ensures SessionBefore(db, batch, batch[i].connectionID) == batch[i].sessionID
    ensures OwnerBefore(db, batch, batch[i].sessionID) == OwnerOf(batch[i])
  {
    var p := batch[i];
    NamesIn(batch, i);
    assert EarlierAgrees(db, p);
    var k, q := First(Flusher.ConnectionNames(batch), p.connectionID), First(Flusher.SessionNames(batch), p.sessionID);
    assert Agree(batch[k], p) && Agree(batch[q], p);
    if !HasKey(db.sessions, p.sessionID) {
      assert Resolves(batch, p);
    }
  }

  lemma {:induction false} SharedIds(db: Db, db': Db, batch: seq<Payload>, i: nat, j: nat)
    requires DbOk(db) && Committed(db, db', batch) && i < |batch| && j < |batch|
    requires DbOk(db') && AllLead(db', batch)
    ensures Agree(batch[i], batch[j])
  {
    DecidedBefore(db, db', batch, i);
    DecidedBefore(db, db', batch, j);
    LeadsByName(db', batch[i]);
    LeadsByName(db', batch[j]);
  }

  lemma {:induction false} NeededIds(db: Db, db': Db, batch: seq<Payload>, i: nat)
    requires DbOk(db) && Committed(db, db', batch) && i < |batch|
    requires DbOk(db') && AllLead(db', batch)
    ensures EarlierAgrees(db, batch[i]) && (!HasKey(db.sessions, batch[i].sessionID) ==> Resolves(batch, batch[i]))
  {
    var p := batch[i];
    LeadsExactlyWhen(db, db', batch, i);
    assert LeadsTo(db', IdOf(db'.connections, p.connectionID), p);
    if !HasKey(db.sessions, p.sessionID) {
      var q := batch[First(Flusher.SessionNames(batch), p.sessionID)];
      ConferenceHit(db, db', batch, q.conferenceID);
    }
  }

  /**
   * All rows of a committed batch lead to their own owners exactly when the batch uses each session for one owner
   * and each connection for one session, earlier rows agree, and the conference ids of new sessions stand for
   * their own apps.
   */
  lemma {:induction false} AllLeadExactlyWhen(db: Db, db': Db, batch: seq<Payload>)
    requires DbOk(db) && DbOk(db') && Committed(db, db', batch)
    ensures AllLead(db', batch) <==> OneOwner(batch) && EarlierAgree(db, batch) && NewResolve(db, batch)
  {
    if OneOwner(batch) && EarlierAgree(db, batch) && NewResolve(db, batch) {
      forall i | 0 <= i < |batch| ensures LeadsTo(db', IdOf(db'.connections, batch[i].connectionID), batch[i]) {
        OwnIds(db, batch, i);
        LeadsExactlyWhen(db, db', batch, i);
      }
    }
    if AllLead(db', batch) {
      forall i, j | 0 <= i < |batch| && 0 <= j < |batch| ensures Agree(batch[i], batch[j]) {
        SharedIds(db, db', batch, i, j);
      }
      forall i | 0 <= i < |batch|
        ensures EarlierAgrees(db, batch[i]) && (!HasKey(db.sessions, batch[i].sessionID) ==> Resolves(batch, batch[i]))
      {
        NeededIds(db, db', batch, i);
      }
    }
  }

  /** For a batch of new sessions the last condition is that no conference id is used for two apps. */
  lemma {:induction false} NewSessionsResolve(db: Db, batch: seq<Payload>)
    requires forall i | 0 <= i < |batch| :: !HasKey(db.sessions, batch[i].sessionID)
    ensures NewResolve(db, batch) <==> OneAppPerConference(batch)
  {
    if OneAppPerConference(batch) {
      forall i | 0 <= i < |batch| ensures Resolves(batch, batch[i]) {
        assert Uses(batch, batch[i].conferenceID);
        ChosenInBatch(batch, batch[i].conferenceID);
      }
    }
    if NewResolve(db, batch) {
      forall i, j | 0 <= i < |batch| && 0 <= j < |batch| && batch[i].conferenceID == batch[j].conferenceID
        ensures App(batch[i]) == App(batch[j])
      {
        assert Resolves(batch, batch[i]) && Resolves(batch, batch[j]);
      }
    }
  }

  /** What the flusher files leads right, row by row, exactly when its payload's ids are its own. */
  lemma {:induction false} FiledRowLeadsExactlyWhen(db: Db, db': Db, batch: seq<Payload>, rows: seq<Flusher.StatRow>,
                                                    ewmas: seq<Metrics>, k: nat) returns (i: nat)
    requires DbOk(db) && DbOk(db') && Committed(db, db', batch)
    requires Flusher.RowsFiled(rows, db'.connections, batch, ewmas) && k < |rows|
    ensures i < |batch| && Flusher.Flat(batch)[k].0 == batch[i]
    ensures batch[i].sessionID in Flusher.SessionNames(batch) && batch[i].connectionID in Flusher.ConnectionNames(batch)
    ensures LeadsTo(db', rows[k].connection, batch[i])
       <==> SessionBefore(db, batch, batch[i].connectionID) == batch[i].sessionID
            && OwnerBefore(db, batch, batch[i].sessionID) == OwnerOf(batch[i])
  {
    i := Flusher.FlatPayload(batch, k);
    var item := Flusher.Flat(batch)[k];
    assert Flusher.RowFiled(rows[k], db'.connections, item.0, item.1, ewmas[k]);
    LeadsExactlyWhen(db, db', batch, i);
  }

  // ----- a session taken over --------------------------------------------------------

  const NoRows: Db := Db(Table(map[], 0), Table(map[], 0), Table(map[], 0), Table(map[], 0))

  /**
   * However orderly a one-payload batch is in itself, when its session already belongs to somebody else its rows
   * lead there.
   */
  lemma {:induction false} TakenSession(db: Db, db': Db, p: Payload)
    requires DbOk(db) && DbOk(db') && Committed(db, db', [p])
    requires HasKey(db.sessions, p.sessionID) && SessionOwner(db, p.sessionID) != OwnerOf(p)
    ensures !AllLead(db', [p])
    ensures HasKey(db'.sessions, p.sessionID) && SessionOwner(db', p.sessionID) == SessionOwner(db, p.sessionID)
  {
    DecidedBefore(db, db', [p], 0);
    AllLeadExactlyWhen(db, db', [p]);
    assert !EarlierAgrees(db, [p][0]);
  }

  /** A single payload with nothing before it owns its session. */
  lemma {:induction false} FirstPayload(db: Db, p: Payload)
    requires DbOk(db) && Committed(NoRows, db, [p])
    ensures HasKey(db.sessions, p.sessionID) && SessionOwner(db, p.sessionID) == OwnerOf(p)
  {
    assert DbOk(NoRows);
    DecidedBefore(NoRows, db, [p], 0);
    assert Uses([p], p.conferenceID) by { assert [p][0].conferenceID == p.conferenceID; }
    ChosenInBatch([p], p.conferenceID);
  }

  /** It happens: Bob sends Ann's session id, and his rows lead to her. */
  lemma {:induction false} BobAsAnn() returns (db: Db, db': Db, bob: Payload)
    ensures DbOk(db) && DbOk(db') && Committed(db, db', [bob]) && !AllLead(db', [bob])
    ensures HasKey(db'.sessions, bob.sessionID) && SessionOwner(db', bob.sessionID).userID == "ann" != bob.userID
  {
    var ann := Payload("1", "ann", "", "room", "s", "c1", []);
    bob := Payload("1", "bob", "", "room", "s", "c2", []);
    assert ParseInt("1").Some? by {
      ParseFormat(1);
      assert FormatInt(1) == "1";
    }
    db := CommitOne(NoRows, ann);
    FirstPayload(db, ann);
    db' := CommitOne(db, bob);
    TakenSession(db, db', bob);
  }

  lemma {:induction false} CommitOne(db: Db, p: Payload) returns (db': Db)
    requires DbOk(db) && ParseInt(p.appID).Some?
    ensures DbOk(db') && Committed(db, db', [p])
  {
    db' := EveryBatchCommits(db, [p]);
    CommittedKeepsDbOk(db, db', [p]);
  }
}

/**
 * internal/stale/job.go and services/ingest-api/handler/end_conference.go: any number of stale scans and
 * end-conference calls racing to close conferences. Every SQL statement and every eMOS trigger is one
 * atomic step; a run is any interleaving of them. A step that is not enabled changes nothing.
 */
module Closing {
  import opened Common

  datatype Conference = Conference(appID: int, externalID: string, endedAt: Option<int>)

  /** Where a RunOnce call is: next is the index of the id its next UPDATE is for. */
  datatype Scan =
    | Idle
    | Updating(listed: seq<int>, next: nat)
    | Firing(listed: seq<int>, next: nat)
    | Returned(listed: seq<int>, ok: bool)

  /** Where an end-conference call is, up to the status it answers. */
  datatype End = Begun | Found(id: int) | Ended(id: int) | Answered(status: int)

  datatype Actor = Scanner(s: nat) | Ender(e: nat)

  /** One write of ended_at, and whether the one who made it got to know. */
  datatype Write = Write(id: int, at: int, who: Actor, heard: bool)

  datatype World = World(
    conferences: map<int, Conference>,
    scans: map<nat, Scan>,
    ends: map<nat, End>,
    writes: seq<Write>,
    staleTriggers: seq<int>,
    endTriggers: seq<int>)

  datatype Step =
    | Create(id: int, appID: int, externalID: string)
    | Query(s: nat, idle: set<int>, rows: seq<int>)
    | Update(s: nat, now: int, fault: Fault)
    | Fire(s: nat)
    | Lookup(e: nat, externalID: string, callerApp: int, row: Option<int>)
    | SetEnded(e: nat, now: int, fault: Fault)
    | FireEnd(e: nat)

  function ScanOf(w: World, s: nat): Scan {
    if s in w.scans then w.scans[s] else Idle
  }

  function EndOf(w: World, e: nat): End {
    if e in w.ends then w.ends[e] else Begun
  }

  predicate Open(w: World, id: int) {
    id in w.conferences && w.conferences[id].endedAt.None?
  }

  predicate Closed(w: World, id: int) {
    id in w.conferences && w.conferences[id].endedAt.Some?
  }

  /** The rows of the scan's SELECT, in any order: the open conferences that are idle. */
  predicate Lists(w: World, idle: set<int>, rows: seq<int>) {
    && (forall i | 0 <= i < |rows| :: Open(w, rows[i]) && rows[i] in idle)
    && (forall id | id in idle :: Open(w, id) ==> id in rows)
    && (forall i, j | 0 <= i < j < |rows| :: rows[i] != rows[j])
  }

  /** LIMIT 1 over the external id alone may pick any app's conference. */
  predicate Picks(w: World, externalID: string, row: Option<int>) {
    match row
    case Some(id) => id in w.conferences && w.conferences[id].externalID == externalID
    case None => forall id | id in w.conferences :: w.conferences[id].externalID != externalID
  }

  predicate Enabled(w: World, step: Step) {
    match step
    case Create(id, appID, externalID) =>
      && id !in w.conferences
      && forall c | c in w.conferences :: !SameName(w.conferences[c], Conference(appID, externalID, None))
    case Query(s, idle, rows) => (ScanOf(w, s).Idle? || ScanOf(w, s).Returned?) && Lists(w, idle, rows)
    case Update(s, _, _) => ScanOf(w, s).Updating?
    case Fire(s) => ScanOf(w, s).Firing?
    case Lookup(e, externalID, _, row) => EndOf(w, e).Begun? && Picks(w, externalID, row)
    case SetEnded(e, _, _) => EndOf(w, e).Found?
    case FireEnd(e) => EndOf(w, e).Ended?
  }

  /** UPDATE conferences SET ended_at = now() WHERE id = $1 AND ended_at IS NULL. */
  function Close(w: World, id: int, now: int, who: Actor, heard: bool): World {
    if Open(w, id) then
      w.(conferences := w.conferences[id := w.conferences[id].(endedAt := Some(now))],
         writes := w.writes + [Write(id, now, who, heard)])
    else w
  }

  function SetScan(w: World, s: nat, scan: Scan): World {
    w.(scans := w.scans[s := scan])
  }

  function SetEnd(w: World, e: nat, end: End): World {
    w.(ends := w.ends[e := end])
  }

  /** RunOnce's loop: a scan that has no id left returns; an UPDATE that closed its row is followed by a trigger. */
  function Advance(listed: seq<int>, next: nat): Scan {
    if next < |listed| then Updating(listed, next) else Returned(listed, true)
  }

  function UpdateEffect(w: World, s: nat, now: int, fault: Fault): World
    requires ScanOf(w, s).Updating?
  {
    var listed, next := ScanOf(w, s).listed, ScanOf(w, s).next;
    if next >= |listed| then SetScan(w, s, Returned(listed, true))
    else if fault.NotRun? then SetScan(w, s, Returned(listed, false))
    else if fault.AnswerLost? then SetScan(Close(w, listed[next], now, Scanner(s), false), s, Returned(listed, false))
    else if Open(w, listed[next]) then SetScan(Close(w, listed[next], now, Scanner(s), true), s, Firing(listed, next))
    else SetScan(w, s, Advance(listed, next + 1))
  }

  function FireEffect(w: World, s: nat): World
    requires ScanOf(w, s).Firing?
  {
    var listed, next := ScanOf(w, s).listed, ScanOf(w, s).next;
    if next < |listed| then
      SetScan(w.(staleTriggers := w.staleTriggers + [listed[next]]), s, Advance(listed, next + 1))
    else w
  }

  function LookupEffect(w: World, e: nat, callerApp: int, row: Option<int>): World {
    if row.None? then SetEnd(w, e, Answered(404))
    else if row.value in w.conferences && w.conferences[row.value].appID == callerApp then SetEnd(w, e, Found(row.value))
    else SetEnd(w, e, Answered(403))
  }

  function Exec(w: World, step: Step): World {
    if !Enabled(w, step) then w
    else match step
      case Create(id, appID, externalID) => w.(conferences := w.conferences[id := Conference(appID, externalID, None)])
      case Query(s, _, rows) => SetScan(w, s, Advance(rows, 0))
      case Update(s, now, fault) => UpdateEffect(w, s, now, fault)
      case Fire(s) => FireEffect(w, s)
      case Lookup(e, _, callerApp, row) => LookupEffect(w, e, callerApp, row)
      case SetEnded(e, now, fault) =>
        var id := EndOf(w, e).id;
        if fault.NotRun? then SetEnd(w, e, Answered(500))
        else SetEnd(Close(w, id, now, Ender(e), fault.NoFault?), e, if fault.NoFault? then Ended(id) else Answered(500))
      case FireEnd(e) => SetEnd(w.(endTriggers := w.endTriggers + [EndOf(w, e).id]), e, Answered(202))
  }

  function After(w: World, steps: seq<Step>): World {
    if steps == [] then w else Exec(After(w, steps[..|steps| - 1]), steps[|steps| - 1])
  }

  const Init: World := World(map[], map[], map[], [], [], [])

  ghost predicate Reachable(w: World) {
    exists steps :: w == After(Init, steps)
  }

  // ----- the invariant ---------------------------------------------------------------

  /** ended_at is what its one write put there. */
  ghost predicate WritesOk(w: World) {
    && (forall i, j | 0 <= i < j < |w.writes| :: w.writes[i].id != w.writes[j].id)
    && (forall x | x in w.writes :: x.id in w.conferences && w.conferences[x.id].endedAt == Some(x.at))
    && (forall id | id in w.conferences && w.conferences[id].endedAt.Some? ::
          exists x :: x in w.writes && x.id == id)
  }

  /** Everything a scan is past is closed. */
  ghost predicate ScanOk(w: World, scan: Scan) {
    match scan
    case Idle => true
    case Updating(listed, next) => next <= |listed| && Known(w, listed) && ClosedUpTo(w, listed, next)
    case Firing(listed, next) => next < |listed| && Known(w, listed) && ClosedUpTo(w, listed, next + 1)
    case Returned(listed, ok) => Known(w, listed) && (ok ==> ClosedUpTo(w, listed, |listed|))
  }

  ghost predicate Known(w: World, listed: seq<int>) {
    forall k {:trigger listed[k]} | 0 <= k < |listed| :: listed[k] in w.conferences
  }

  ghost predicate ClosedUpTo(w: World, listed: seq<int>, n: nat)
    requires n <= |listed|
  {
    forall k {:trigger listed[k]} | 0 <= k < n :: Closed(w, listed[k])
  }

  /** Scan s is between closing the conference and its trigger. */
  predicate Pending(w: World, s: nat, id: int) {
    var scan := ScanOf(w, s);
    scan.Firing? && scan.next < |scan.listed| && scan.listed[scan.next] == id
  }

  /** Scan s closed the conference and knows it. */
  ghost predicate ByScan(w: World, id: int, s: nat) {
    exists x :: x in w.writes && x.id == id && x.who == Scanner(s) && x.heard
  }

  /** A scan owes a trigger exactly for what it closed and has not triggered yet. */
  ghost predicate TriggersOk(w: World) {
    && (forall i, j | 0 <= i < j < |w.staleTriggers| :: w.staleTriggers[i] != w.staleTriggers[j])
    && (forall id | id in w.staleTriggers :: exists s :: ByScan(w, id, s))
    && (forall s, id :: OwedOk(w, s, id))
  }

  /** UNIQUE (app_id, external_id). */
  ghost predicate UniqueIds(w: World) {
    forall a, b | a in w.conferences && b in w.conferences && SameName(w.conferences[a], w.conferences[b]) :: a == b
  }

  predicate SameName(a: Conference, b: Conference) {
    a.appID == b.appID && a.externalID == b.externalID
  }

  ghost predicate Inv(w: World) {
    UniqueIds(w) && WritesOk(w) && (forall s :: ScanOk(w, ScanOf(w, s))) && TriggersOk(w)
  }

  // ----- conferences only ever close -------------------------------------------------

  /** Rows stay, and a row that is closed keeps its ended_at. */
  ghost predicate Grows(w: World, w': World) {
    forall id {:trigger id in w.conferences} | id in w.conferences ::
      && id in w'.conferences && w'.conferences[id].appID == w.conferences[id].appID
      && w'.conferences[id].externalID == w.conferences[id].externalID
      && (w.conferences[id].endedAt.Some? ==> w'.conferences[id].endedAt == w.conferences[id].endedAt)
  }

  lemma {:induction false} StepGrows(w: World, step: Step)
    ensures Grows(w, Exec(w, step)) && w.writes <= Exec(w, step).writes
  {
  }

  lemma {:induction false} StepUniqueIds(w: World, step: Step)
    requires UniqueIds(w)
    ensures UniqueIds(Exec(w, step))
  {
  }

  lemma {:induction false} StepWritesOk(w: World, step: Step)
    requires WritesOk(w)
    ensures WritesOk(Exec(w, step))
  {
    var w' := Exec(w, step);
    if !Enabled(w, step) {
    } else if step.Update? {
      var scan := ScanOf(w, step.s);
      if scan.next < |scan.listed| {
        CloseWritesOk(w, scan.listed[scan.next], step.now, Scanner(step.s), step.fault.NoFault?);
      }
    } else if step.SetEnded? {
      CloseWritesOk(w, EndOf(w, step.e).id, step.now, Ender(step.e), step.fault.NoFault?);
    } else if step.Create? {
      assert w'.writes == w.writes;
    } else {
      assert w'.writes == w.writes && w'.conferences == w.conferences;
    }
  }

  lemma {:induction false} CloseWritesOk(w: World, id: int, now: int, who: Actor, heard: bool)
    requires WritesOk(w)
    ensures WritesOk(Close(w, id, now, who, heard))
  {
  }

  lemma {:induction false} ScanOkGrows(w: World, w': World, scan: Scan)
    requires Grows(w, w') && ScanOk(w, scan)
    ensures ScanOk(w', scan)
  {
    if !scan.Idle? {
      ListGrows(w, w', scan.listed);
    }
  }

  lemma {:induction false} ListGrows(w: World, w': World, listed: seq<int>)
    requires Grows(w, w') && Known(w, listed)
    ensures Known(w', listed)
    ensures forall n: nat | n <= |listed| :: ClosedUpTo(w, listed, n) ==> ClosedUpTo(w', listed, n)
  {
    forall k | 0 <= k < |listed| ensures listed[k] in w'.conferences && (Closed(w, listed[k]) ==> Closed(w', listed[k])) {
      var id := listed[k];
      assert id in w.conferences;
    }
  }

  lemma {:induction false} UpdateScanOk(w: World, s: nat, now: int, fault: Fault)
    requires ScanOf(w, s).Updating? && ScanOk(w, ScanOf(w, s))
    ensures var w' := UpdateEffect(w, s, now, fault); ScanOk(w', ScanOf(w', s))
  {
  }

  lemma {:induction false} FireScanOk(w: World, s: nat)
    requires ScanOf(w, s).Firing? && ScanOk(w, ScanOf(w, s))
    ensures var w' := FireEffect(w, s); ScanOk(w', ScanOf(w', s))
  {
  }

  /** Only its own steps move a scan. */
  predicate StepOf(step: Step, s: nat) {
    (step.Query? || step.Update? || step.Fire?) && step.s == s
  }

  lemma {:induction false} OthersLeaveScan(w: World, step: Step, s: nat)
    requires !StepOf(step, s)
    ensures ScanOf(Exec(w, step), s) == ScanOf(w, s)
  {
  }

  lemma {:induction false} StepScanOk(w: World, step: Step, s: nat)
    requires ScanOk(w, ScanOf(w, s))
    ensures ScanOk(Exec(w, step), ScanOf(Exec(w, step), s))
  {
    if Enabled(w, step) {
      if !StepOf(step, s) {
        OthersLeaveScan(w, step, s);
        StepGrows(w, step);
        ScanOkGrows(w, Exec(w, step), ScanOf(w, s));
      } else if step.Update? {
        UpdateScanOk(w, s, step.now, step.fault);
      } else if step.Fire? {
        FireScanOk(w, s);
      }
    }
  }

  // ----- triggers --------------------------------------------------------------------

  /** Two writes of one conference are one write. */
  lemma {:induction false} OneCloser(w: World, id: int, s: nat, t: nat)
    requires WritesOk(w) && ByScan(w, id, s) && ByScan(w, id, t)
    ensures s == t
  {
  }

  lemma {:induction false} ByScanClose(w: World, id: int, now: int, who: Actor, heard: bool, c: int, s: nat)
    ensures ByScan(Close(w, id, now, who, heard), c, s)
       <==> ByScan(w, c, s) || (Open(w, id) && c == id && who == Scanner(s) && heard)
  {
  }

  ghost predicate OwedOk(w: World, s: nat, id: int) {
    && (Pending(w, s, id) ==> ByScan(w, id, s) && id !in w.staleTriggers)
    && (ByScan(w, id, s) ==> id in w.staleTriggers || Pending(w, s, id))
  }

  /** A step that neither writes nor triggers and leaves every scan as far as firing is concerned. */
  lemma {:induction false} QuietTriggersOk(w: World, w': World)
    requires TriggersOk(w) && w'.writes == w.writes && w'.staleTriggers == w.staleTriggers
    requires forall s, id :: Pending(w', s, id) == Pending(w, s, id)
    ensures TriggersOk(w')
  {
    forall s, id ensures OwedOk(w', s, id) {
      assert OwedOk(w, s, id);
      assert ByScan(w', id, s) == ByScan(w, id, s);
    }
    forall id | id in w'.staleTriggers ensures exists s :: ByScan(w', id, s) {
      var s :| ByScan(w, id, s);
      assert ByScan(w', id, s);
    }
  }

  /** An UPDATE that closes a conference makes its scan owe a trigger when it hears of it; any other closer owes none. */
  lemma {:induction false} CloseTriggersOk(w: World, w': World, id: int, now: int, who: Actor, heard: bool)
    requires WritesOk(w) && TriggersOk(w) && Open(w, id)
    requires w'.writes == Close(w, id, now, who, heard).writes && w'.staleTriggers == w.staleTriggers
    requires forall s, c :: Pending(w', s, c) <==> Pending(w, s, c) || (who == Scanner(s) && heard && c == id)
    ensures TriggersOk(w')
  {
    forall s, c ensures OwedOk(w', s, c) {
      assert OwedOk(w, s, c);
      ByScanClose(w, id, now, who, heard, c, s);
      assert ByScan(w', c, s) == ByScan(Close(w, id, now, who, heard), c, s);
      if c in w.staleTriggers {
        TriggeredIsClosed(w, c);
      }
    }
    forall c | c in w'.staleTriggers ensures exists s :: ByScan(w', c, s) {
      var s :| ByScan(w, c, s);
      ByScanClose(w, id, now, who, heard, c, s);
      assert ByScan(w', c, s);
    }
  }

  /** What has been triggered is closed. */
  lemma {:induction false} TriggeredIsClosed(w: World, id: int)
    requires WritesOk(w) && TriggersOk(w) && id in w.staleTriggers
    ensures Closed(w, id)
  {
  }

  lemma {:induction false} UpdateTriggersOk(w: World, s: nat, now: int, fault: Fault)
    requires WritesOk(w) && TriggersOk(w) && ScanOf(w, s).Updating?
    ensures TriggersOk(UpdateEffect(w, s, now, fault))
  {
    var listed, next, w' := ScanOf(w, s).listed, ScanOf(w, s).next, UpdateEffect(w, s, now, fault);
    if next < |listed| && !fault.NotRun? && Open(w, listed[next]) {
      CloseTriggersOk(w, w', listed[next], now, Scanner(s), fault.NoFault?);
    } else {
      QuietTriggersOk(w, w');
    }
  }

  lemma {:induction false} FireTriggersOk(w: World, s: nat)
    requires WritesOk(w) && TriggersOk(w) && ScanOf(w, s).Firing?
    ensures TriggersOk(FireEffect(w, s))
  {
    var listed, next, w' := ScanOf(w, s).listed, ScanOf(w, s).next, FireEffect(w, s);
    if next < |listed| {
      var id := listed[next];
      assert Pending(w, s, id) && OwedOk(w, s, id);
      forall t, c ensures OwedOk(w', t, c) {
        assert OwedOk(w, t, c) && ByScan(w', c, t) == ByScan(w, c, t);
        if t != s && c == id && Pending(w, t, c) {
          OneCloser(w, id, s, t);
        }
      }
      forall c | c in w'.staleTriggers ensures exists t :: ByScan(w', c, t) {
        if c == id {
          assert ByScan(w', c, s);
        } else {
          var t :| ByScan(w, c, t);
          assert ByScan(w', c, t);
        }
      }
    }
  }

  lemma {:induction false} StepTriggersOk(w: World, step: Step)
    requires WritesOk(w) && TriggersOk(w)
    ensures TriggersOk(Exec(w, step))
  {
    var w' := Exec(w, step);
    if !Enabled(w, step) {
    } else if step.Update? {
      UpdateTriggersOk(w, step.s, step.now, step.fault);
    } else if step.Fire? {
      FireTriggersOk(w, step.s);
    } else if step.SetEnded? && !step.fault.NotRun? && Open(w, EndOf(w, step.e).id) {
      CloseTriggersOk(w, w', EndOf(w, step.e).id, step.now, Ender(step.e), step.fault.NoFault?);
    } else {
      QuietTriggersOk(w, w');
    }
  }

  lemma {:induction false} InvStep(w: World, step: Step)
    requires Inv(w)
    ensures Inv(Exec(w, step))
  {
    StepUniqueIds(w, step);
    StepWritesOk(w, step);
    StepTriggersOk(w, step);
    forall s ensures ScanOk(Exec(w, step), ScanOf(Exec(w, step), s)) {
      StepScanOk(w, step, s);
    }
  }

  lemma {:induction false} RunKeepsInv(w: World, steps: seq<Step>)
    requires Inv(w)
    ensures Inv(After(w, steps))
  {
    if steps != [] {
      RunKeepsInv(w, steps[..|steps| - 1]);
      InvStep(After(w, steps[..|steps| - 1]), steps[|steps| - 1]);
    }
  }

  lemma {:induction false} ReachableInv(w: World)
    requires Reachable(w)
    ensures Inv(w)
  {
    var steps :| w == After(Init, steps);
    assert Inv(Init);
    RunKeepsInv(Init, steps);
  }

  // ----- the theorems ----------------------------------------------------------------

  /** Over any run from a reachable world: each conference is written at most once, and ended_at is that write. */
  lemma {:induction false} WrittenAtMostOnce(w: World)
    requires Reachable(w)
    ensures forall i, j | 0 <= i < j < |w.writes| :: w.writes[i].id != w.writes[j].id
    ensures forall id, at | id in w.conferences ::
      w.conferences[id].endedAt == Some(at) <==> exists x :: x in w.writes && x.id == id && x.at == at
  {
    ReachableInv(w);
  }

  /** A conference is closed by an UPDATE alone, a scan's or a call's, and ended_at is the time of that UPDATE. */
  lemma {:induction false} ClosedNow(w: World, step: Step, id: int)
    requires Open(w, id) && Closed(Exec(w, step), id)
    ensures (step.Update? || step.SetEnded?) && !step.fault.NotRun?
    ensures Exec(w, step).conferences[id].endedAt == Some(step.now)
  {
  }

  /** Once set, ended_at is never altered, whatever runs next. */
  lemma {:induction false} NeverAltered(w: World, steps: seq<Step>)
    ensures Grows(w, After(w, steps)) && w.writes <= After(w, steps).writes
  {
    if steps != [] {
      var last := |steps| - 1;
      NeverAltered(w, steps[..last]);
      StepGrows(After(w, steps[..last]), steps[last]);
    }
  }

  /**
   * The stale job triggers eMOS at most once per conference over all its scans together, and exactly for
   * what its own UPDATEs closed, but for scans that are just about to.
   */
  lemma {:induction false} OneTriggerPerConference(w: World, id: int)
    requires Reachable(w)
    ensures forall i, j | 0 <= i < j < |w.staleTriggers| :: w.staleTriggers[i] != w.staleTriggers[j]
    ensures (exists s :: ByScan(w, id, s)) <==> id in w.staleTriggers || exists s :: Pending(w, s, id)
    ensures id in w.staleTriggers ==> forall s :: !Pending(w, s, id)
  {
    ReachableInv(w);
    if s :| ByScan(w, id, s) {
      assert OwedOk(w, s, id);
    }
    if s :| Pending(w, s, id) {
      assert OwedOk(w, s, id);
    }
  }

  /** A conference whose UPDATE by a scan lost its answer is closed for good without ever being triggered by the stale job. */
  lemma {:induction false} LostAnswerNeverTriggers(w: World, steps: seq<Step>, x: Write)
    requires Reachable(w) && x in w.writes && x.who.Scanner? && !x.heard
    ensures Closed(After(w, steps), x.id) && x.id !in After(w, steps).staleTriggers
  {
    ReachableAfter(w, steps);
    var w' := After(w, steps);
    ReachableInv(w');
    NeverAltered(w, steps);
    assert x in w'.writes;
    if x.id in w'.staleTriggers {
      var s :| ByScan(w', x.id, s);
      OneWrite(w', x, x.id, s);
    }
  }

  lemma {:induction false} OneWrite(w: World, x: Write, id: int, s: nat)
    requires WritesOk(w) && x in w.writes && x.id == id && ByScan(w, id, s)
    ensures x.heard
  {
  }

  lemma {:induction false} ReachableAfter(w: World, steps: seq<Step>)
    requires Reachable(w)
    ensures Reachable(After(w, steps))
  {
    var before :| w == After(Init, before);
    AfterConcat(Init, before, steps);
  }

  /** When a scan returns without error, everything it listed is closed. */
  lemma {:induction false} ListedAreClosed(w: World, s: nat)
    requires Reachable(w) && ScanOf(w, s).Returned? && ScanOf(w, s).ok
    ensures forall id | id in ScanOf(w, s).listed :: Closed(w, id)
  {
    ReachableInv(w);
    assert ScanOk(w, ScanOf(w, s));
  }

  // ----- the two programs, run against any interference ------------------------------

  lemma {:induction false} AfterConcat(w: World, a: seq<Step>, b: seq<Step>)
    ensures After(w, a + b) == After(After(w, a), b)
  {
    if b == [] {
      assert a + b == a;
    } else {
      var last := |b| - 1;
      AfterConcat(w, a, b[..last]);
      assert (a + b)[..|a + b| - 1] == a + b[..last];
    }
  }

  lemma {:induction false} AfterOne(w: World, step: Step)
    ensures After(w, [step]) == Exec(w, step)
  {
  }

  /** What everybody but scan s may do between two of its statements. */
  ghost predicate OthersOf(steps: seq<Step>, s: nat) {
    forall i | 0 <= i < |steps| :: !StepOf(steps[i], s)
  }

  lemma {:induction false} OthersRun(w: World, steps: seq<Step>, s: nat)
    requires OthersOf(steps, s)
    ensures ScanOf(After(w, steps), s) == ScanOf(w, s)
  {
    if steps != [] {
      var last := |steps| - 1;
      OthersRun(w, steps[..last], s);
      OthersLeaveScan(After(w, steps[..last]), steps[last], s);
    }
  }

  lemma {:induction false} ReachableRun(w: World, others: seq<Step>, step: Step)
    requires Reachable(w)
    ensures Reachable(Exec(After(w, others), step)) && Grows(w, Exec(After(w, others), step))
  {
    var steps :| w == After(Init, steps);
    AfterConcat(Init, steps, others + [step]);
    AfterConcat(w, others, [step]);
    AfterOne(After(w, others), step);
    NeverAltered(w, others + [step]);
  }

  /** The k-th UPDATE of scan s, after others: the scan fails, owes a trigger, or goes on to the next id. */
  lemma {:induction false} UpdateOutcome(w: World, others: seq<Step>, s: nat, rows: seq<int>, k: nat, now: int, fault: Fault)
    requires OthersOf(others, s) && k < |rows| && ScanOf(w, s) == Updating(rows, k)
    ensures var scan := ScanOf(Exec(After(w, others), Update(s, now, fault)), s);
      if !fault.NoFault? then scan == Returned(rows, false) else scan == Firing(rows, k) || scan == Advance(rows, k + 1)
  {
    OthersRun(w, others, s);
  }

  lemma {:induction false} FireOutcome(w: World, others: seq<Step>, s: nat, rows: seq<int>, k: nat)
    requires OthersOf(others, s) && k < |rows| && ScanOf(w, s) == Firing(rows, k)
    ensures ScanOf(Exec(After(w, others), Fire(s)), s) == Advance(rows, k + 1)
  {
    OthersRun(w, others, s);
  }

  predicate EndStepOf(step: Step, e: nat) {
    (step.Lookup? || step.SetEnded? || step.FireEnd?) && step.e == e
  }

  ghost predicate EndOthersOf(steps: seq<Step>, e: nat) {
    forall i | 0 <= i < |steps| :: !EndStepOf(steps[i], e)
  }

  lemma {:induction false} OthersLeaveEnd(w: World, step: Step, e: nat)
    requires !EndStepOf(step, e)
    ensures EndOf(Exec(w, step), e) == EndOf(w, e)
  {
  }

  lemma {:induction false} OthersRunEnd(w: World, steps: seq<Step>, e: nat)
    requires EndOthersOf(steps, e)
    ensures EndOf(After(w, steps), e) == EndOf(w, e)
  {
    if steps != [] {
      var last := |steps| - 1;
      OthersRunEnd(w, steps[..last], e);
      OthersLeaveEnd(After(w, steps[..last]), steps[last], e);
    }
  }

  lemma {:induction false} SetEndedOutcome(w: World, others: seq<Step>, e: nat, id: int, now: int, fault: Fault)
    requires EndOthersOf(others, e) && EndOf(w, e) == Found(id) && id in w.conferences
    ensures var w' := Exec(After(w, others), SetEnded(e, now, fault));
      if !fault.NoFault? then EndOf(w', e) == Answered(500) else EndOf(w', e) == Ended(id) && Closed(w', id)
  {
    OthersRunEnd(w, others, e);
    NeverAltered(w, others);
  }

  lemma {:induction false} FireEndOutcome(w: World, others: seq<Step>, e: nat, id: int)
    requires EndOthersOf(others, e) && EndOf(w, e) == Ended(id)
    ensures var w' := Exec(After(w, others), FireEnd(e)); EndOf(w', e) == Answered(202) && id in w'.endTriggers
  {
    OthersRunEnd(w, others, e);
    var w1 := After(w, others);
    assert Exec(w1, FireEnd(e)).endTriggers == w1.endTriggers + [id];
  }

  /** The database and the calls in flight. */
  class Service {
    var world: World

    constructor ()
      ensures world == Init
    {
      world := Init;
    }

    /** One statement of the running call, after whatever the others did before it. */
    method Perform(others: seq<Step>, step: Step)
      requires Reachable(world)
      modifies this
      ensures world == Exec(After(old(world), others), step)
      ensures Reachable(world) && Grows(old(world), world)
    {
      ReachableRun(world, others, step);
      world := Exec(After(world, others), step);
    }

    /** RunOnce's loop body for the k-th listed id: an UPDATE, and a trigger when it closed the conference. */
    method CloseListed(s: nat, rows: seq<int>, k: nat, now: int, fault: Fault, before: seq<Step>, between: seq<Step>)
      requires Reachable(world) && k < |rows| && ScanOf(world, s) == Updating(rows, k)
      requires OthersOf(before, s) && OthersOf(between, s)
      modifies this
      ensures Reachable(world) && Grows(old(world), world)
      ensures ScanOf(world, s) == if !fault.NoFault? then Returned(rows, false) else Advance(rows, k + 1)
    {
      UpdateOutcome(world, before, s, rows, k, now, fault);
      Perform(before, Update(s, now, fault));
      if ScanOf(world, s).Firing? {
        FireOutcome(world, between, s, rows, k);
        Perform(between, Fire(s));
      }
    }

    /**
     * RunOnce as scan s: the rows of its query, then an UPDATE and perhaps a trigger for each, while others run
     * in between. clock(k) is the time of the k-th UPDATE, which fails before it runs when k is in unrun and
     * loses its answer when k is in unheard.
     */
    method RunOnce(s: nat, idle: set<int>, rows: seq<int>, clock: nat -> int, unrun: set<nat>, unheard: set<nat>,
                   others: nat -> seq<Step>) returns (ok: bool)
      requires Reachable(world) && (ScanOf(world, s).Idle? || ScanOf(world, s).Returned?) && Lists(world, idle, rows)
      requires forall k :: OthersOf(others(k), s)
      modifies this
      ensures Reachable(world) && Grows(old(world), world)
      ensures ScanOf(world, s) == Returned(rows, ok)
      ensures ok <==> forall k | k in unrun + unheard :: k >= |rows|
      ensures ok ==> forall id | id in rows :: Closed(world, id)
    {
      Perform([], Query(s, idle, rows));
      for k := 0 to |rows|
        invariant Reachable(world) && Grows(old(world), world)
        invariant ScanOf(world, s) == Advance(rows, k)
        invariant forall j | j in unrun + unheard :: j >= k
      {
        var fault := if k in unrun then NotRun else if k in unheard then AnswerLost else NoFault;
        CloseListed(s, rows, k, clock(k), fault, others(2 * k), others(2 * k + 1));
        if !fault.NoFault? {
          assert k in unrun + unheard;
          return false;
        }
      }
      ListedAreClosed(world, s);
      return true;
    }

    /** HandleEndConference as call e, from the row its lookup picked to the status it answers. */
    method EndConference(e: nat, externalID: string, callerApp: int, row: Option<int>, now: int, fault: Fault,
                         beforeUpdate: seq<Step>, beforeTrigger: seq<Step>) returns (status: int)
      requires Reachable(world) && EndOf(world, e).Begun? && Picks(world, externalID, row)
      requires EndOthersOf(beforeUpdate, e) && EndOthersOf(beforeTrigger, e)
      modifies this
      ensures Reachable(world) && EndOf(world, e) == Answered(status) && Grows(old(world), world)
      ensures status == if row.None? then 404
                        else if old(world).conferences[row.value].appID != callerApp then 403
                        else if !fault.NoFault? then 500 else 202
      ensures status == 202 ==> Closed(world, row.value) && row.value in world.endTriggers
    {
      Perform([], Lookup(e, externalID, callerApp, row));
      if EndOf(world, e).Answered? {
        return EndOf(world, e).status;
      }
      SetEndedOutcome(world, beforeUpdate, e, row.value, now, fault);
      Perform(beforeUpdate, SetEnded(e, now, fault));
      if !fault.NoFault? {
        return 500;
      }
      FireEndOutcome(world, beforeTrigger, e, row.value);
      Perform(beforeTrigger, FireEnd(e));
      return 202;
    }
  }

  // ----- whose conference a call ends ------------------------------------------------

  /** What a call by the conference's own app comes to, for the row its lookup picks. */
  function OwnLookup(w: World, e: nat, id: int, row: Option<int>): End
    requires id in w.conferences
  {
    EndOf(Exec(w, Lookup(e, w.conferences[id].externalID, w.conferences[id].appID, row)), e)
  }

  /**
   * A call by its own app finds the conference, whatever row LIMIT 1 picks, exactly when no other app has a
   * conference with that external id.
   */
  lemma {:induction false} ReachesOwnExactlyWhen(w: World, e: nat, id: int)
    requires Reachable(w) && EndOf(w, e).Begun? && id in w.conferences
    ensures (forall row | Picks(w, w.conferences[id].externalID, row) :: OwnLookup(w, e, id, row) == Found(id))
       <==> (forall c | c in w.conferences && w.conferences[c].externalID == w.conferences[id].externalID ::
               w.conferences[c].appID == w.conferences[id].appID)
  {
    var own := w.conferences[id];
    assert UniqueIds(w) by { ReachableInv(w); }
    forall row | Picks(w, own.externalID, row)
      ensures row.Some? && (OwnLookup(w, e, id, row) == Found(id) <==> w.conferences[row.value].appID == own.appID)
    {
      LookupFinds(w, e, id, row);
    }
    forall c | c in w.conferences && w.conferences[c].externalID == own.externalID
      ensures Picks(w, own.externalID, Some(c))
    {}
  }

  lemma {:induction false} LookupFinds(w: World, e: nat, id: int, row: Option<int>)
    requires UniqueIds(w) && EndOf(w, e).Begun? && id in w.conferences && Picks(w, w.conferences[id].externalID, row)
    ensures row.Some?
    ensures OwnLookup(w, e, id, row) == Found(id) <==> w.conferences[row.value].appID == w.conferences[id].appID
  {
  }

  /** Two apps may share an external id; the owner of the second conference can be refused. */
  lemma {:induction false} OwnerRefused()
    ensures var w := After(Init, [Create(1, 10, "room"), Create(2, 20, "room"), Lookup(0, "room", 20, Some(1))]);
      EndOf(w, 0) == Answered(403) && Open(w, 2) && w.conferences[2].appID == 20
  {
    var a, b, c := Create(1, 10, "room"), Create(2, 20, "room"), Lookup(0, "room", 20, Some(1));
    AfterConcat(Init, [a, b], [c]);
    AfterConcat(Init, [a], [b]);
    AfterOne(Init, a);
    AfterOne(After(Init, [a]), b);
    AfterOne(After(Init, [a, b]), c);
    assert [a] + [b] == [a, b] && [a, b] + [c] == [a, b, c];
  }
}

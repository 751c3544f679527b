/**
 * internal/retention/job.go: the nightly retention pass. Events are deleted in batches of rows that the
 * database chooses; connection_stats partitions, which hold the rows of all apps, are dropped whole.
 * Times are integers, in nanoseconds; the calendar is any nondecreasing numbering of months.
 */
module Retention {
  import opened Common

  const BatchSize: nat := 10_000
  const Day: int := 86_400_000_000_000

  /** An event may belong to no connection. */
  datatype Event = Event(connection: Option<int>, ts: int)

  datatype App = App(id: int, retentionDays: int)

  /** The app of each connection, by its session, participant and conference. */
  type Owners = map<int, int>

  /** Rows of the app before this time are past its retention. */
  function Cutoff(now: int, a: App): int {
    now - a.retentionDays * Day
  }

  predicate Matches(e: Event, owners: Owners, appID: int, cutoff: int) {
    e.connection.Some? && e.connection.value in owners && owners[e.connection.value] == appID && e.ts < cutoff
  }

  /** The ids the inner SELECT would return without its LIMIT. */
  function Matching(events: map<int, Event>, owners: Owners, appID: int, cutoff: int): set<int> {
    set id | id in events && Matches(events[id], owners, appID, cutoff)
  }

  function Min(a: int, b: int): int {
    if a <= b then a else b
  }

  /** The number of batches of at most BatchSize that n rows take. */
  function Batches(n: nat): nat {
    (n + BatchSize - 1) / BatchSize
  }

  lemma {:induction false} SubsetOfSize<T>(s: set<T>, n: nat) returns (sub: set<T>)
    requires n <= |s|
    ensures sub <= s && |sub| == n
  {
    if n == 0 {
      sub := {};
    } else {
      var x :| x in s;
      var rest := SubsetOfSize(s - {x}, n - 1);
      sub := rest + {x};
    }
  }

  lemma {:induction false} SubsetSize<T>(a: set<T>, b: set<T>)
    requires a <= b
    ensures |a| + |b - a| == |b|
  {
  }

  // ----- deleting events -------------------------------------------------------------

  /** How far the batches have come: deleted is what is gone, all of it matching. */
  ghost predicate Progress(was: map<int, Event>, now: map<int, Event>, matching: set<int>, deleted: set<int>,
                           total: nat, batches: nat) {
    && deleted <= matching && now == was - deleted
    && total == |deleted| == Min(|matching|, batches * BatchSize)
    && batches <= Batches(|matching|)
  }

  /** A DELETE that fails: how many went before it, and whether it ran and only its answer was lost. */
  datatype Strike = Strike(statement: nat, unheard: bool)

  /** It comes no later than the last statement that n matching events take. */
  predicate Strikes(failing: Option<Strike>, n: nat) {
    failing.Some? && failing.value.statement <= Batches(n)
  }

  lemma {:induction false} RemainingMatch(was: map<int, Event>, deleted: set<int>, owners: Owners, appID: int, cutoff: int)
    ensures Matching(was - deleted, owners, appID, cutoff) == Matching(was, owners, appID, cutoff) - deleted
  {
  }

  lemma {:induction false} MinusBoth(was: map<int, Event>, a: set<int>, b: set<int>)
    ensures (was - a) - b == was - (a + b)
    ensures b == {} ==> was - a == was - (a + b)
  {
  }

  lemma {:induction false} BatchesDone(n: nat, batches: nat)
    requires batches * BatchSize >= n && batches <= Batches(n)
    ensures batches == Batches(n)
  {
  }

  lemma {:induction false} StepProgress(was: map<int, Event>, now: map<int, Event>, matching: set<int>, deleted: set<int>,
                                        total: nat, batches: nat, chosen: set<int>)
    requires Progress(was, now, matching, deleted, total, batches)
    requires chosen <= matching - deleted && |chosen| == Min(|matching - deleted|, BatchSize) && chosen != {}
    ensures Progress(was, now - chosen, matching, deleted + chosen, total + |chosen|, batches + 1)
  {
  }

  // ----- dropping partitions ---------------------------------------------------------

  datatype Stat = Stat(appID: int, ts: int)

  /** A table called connection_stats_*: the month its name parses to, if any, and whether it is still attached. */
  datatype Table = Table(month: Option<int>, attached: bool, rows: set<Stat>)

  /** The table's whole month lies before the cutoff's month. */
  predicate Old(t: Table, cutoffMonth: int) {
    t.month.Some? && t.month.value < cutoffMonth
  }

  /** The tables whose DETACH or DROP fails, before it ran or after it. */
  datatype DropFaults = DropFaults(detachUnrun: set<string>, detachUnheard: set<string>,
                                   dropUnrun: set<string>, dropUnheard: set<string>)

  const NoDropFaults: DropFaults := DropFaults({}, {}, {}, {})

  function FaultIn(unrun: set<string>, unheard: set<string>, name: string): Fault {
    if name in unrun then NotRun else if name in unheard then AnswerLost else NoFault
  }

  function DetachFault(f: DropFaults, name: string): Fault { FaultIn(f.detachUnrun, f.detachUnheard, name) }

  function DropFault(f: DropFaults, name: string): Fault { FaultIn(f.dropUnrun, f.dropUnheard, name) }

  /** A table to detach; one that is detached already fails to detach and is skipped. */
  predicate Due(t: Table, cutoffMonth: int) {
    Old(t, cutoffMonth) && t.attached
  }

  /** What one pass goes on to drop. */
  function Droppable(tables: map<string, Table>, cutoffMonth: int, f: DropFaults): set<string> {
    set n | n in tables && Due(tables[n], cutoffMonth) && DetachFault(f, n).NoFault?
  }

  /** What one pass detaches without hearing of it, and so skips. */
  function Abandoned(tables: map<string, Table>, cutoffMonth: int, f: DropFaults): set<string> {
    set n | n in tables && Due(tables[n], cutoffMonth) && DetachFault(f, n).AnswerLost?
  }

  /** What one pass fails to drop. */
  function Fatal(tables: map<string, Table>, cutoffMonth: int, f: DropFaults): set<string> {
    set n | n in Droppable(tables, cutoffMonth, f) && !DropFault(f, n).NoFault?
  }

  /** The tables once some are gone and some are left detached. */
  function Swept(tables: map<string, Table>, gone: set<string>, left: set<string>): map<string, Table> {
    map n | n in tables && n !in gone :: if n in left then tables[n].(attached := false) else tables[n]
  }

  /** The listing names every table once. */
  ghost predicate Listing(names: seq<string>, tables: map<string, Table>) {
    && (forall n :: n in names <==> n in tables)
    && (forall i, j | 0 <= i < j < |names| :: names[i] != names[j])
  }

  /** The first i names are dealt with, none of them fatally. */
  ghost predicate Dropping(was: map<string, Table>, now: map<string, Table>, cutoffMonth: int, f: DropFaults,
                           names: seq<string>, i: nat, gone: set<string>, left: set<string>)
    requires i <= |names|
  {
    && gone == (set n | n in names[..i] && n in Droppable(was, cutoffMonth, f))
    && left == (set n | n in names[..i] && n in Abandoned(was, cutoffMonth, f))
    && gone !! Fatal(was, cutoffMonth, f) && now == Swept(was, gone, left)
  }

  /** What the loop body makes of one table: it is skipped, skipped but detached, dropped, or fails the pass. */
  datatype Attempt = Kept | LeftDetached | Dropped | Failed(gone: bool)

  function AttemptOf(t: Table, name: string, cutoffMonth: int, f: DropFaults): Attempt {
    if !Due(t, cutoffMonth) || DetachFault(f, name).NotRun? then Kept
    else if DetachFault(f, name).AnswerLost? then LeftDetached
    else match DropFault(f, name)
      case NoFault => Dropped
      case NotRun => Failed(false)
      case AnswerLost => Failed(true)
  }

  function Attempted(tables: map<string, Table>, name: string, attempt: Attempt): map<string, Table>
    requires name in tables
  {
    match attempt
    case Kept => tables
    case Dropped => tables - {name}
    case Failed(true) => tables - {name}
    case _ => tables[name := tables[name].(attached := false)]
  }

  lemma {:induction false} StepDropping(was: map<string, Table>, now: map<string, Table>, cutoffMonth: int, f: DropFaults,
                                        names: seq<string>, i: nat, gone: set<string>, left: set<string>)
    requires i < |names| && Listing(names, was) && Dropping(was, now, cutoffMonth, f, names, i, gone, left)
    ensures names[i] in now && now[names[i]] == was[names[i]] && names[i] !in gone && names[i] !in left
    ensures var attempt := AttemptOf(was[names[i]], names[i], cutoffMonth, f);
      var now' := Attempted(now, names[i], attempt);
      var gone' := if attempt.Dropped? || attempt == Failed(true) then gone + {names[i]} else gone;
      var left' := if attempt.LeftDetached? || attempt == Failed(false) then left + {names[i]} else left;
      && now' == Swept(was, gone', left')
      && (attempt.Failed? <==> names[i] in Fatal(was, cutoffMonth, f))
      && (!attempt.Failed? ==> Dropping(was, now', cutoffMonth, f, names, i + 1, gone', left'))
  {
    assert names[..i + 1] == names[..i] + [names[i]];
    assert names[i] in names && names[i] !in names[..i];
  }

  /** A DROP failed: its table is gone when only the answer was lost, and left detached otherwise; nothing else fatal was tried. */
  ghost predicate StoppedAt(was: map<string, Table>, cutoffMonth: int, f: DropFaults, dropped: nat, culprit: string,
                            gone: set<string>, left: set<string>)
  {
    && culprit in Fatal(was, cutoffMonth, f) && dropped == |gone - {culprit}|
    && (culprit in gone <==> DropFault(f, culprit).AnswerLost?) && (culprit in left <==> DropFault(f, culprit).NotRun?)
    && gone - {culprit} <= Droppable(was, cutoffMonth, f) - Fatal(was, cutoffMonth, f)
    && left - {culprit} <= Abandoned(was, cutoffMonth, f)
  }

  lemma {:induction false} Stops(was: map<string, Table>, cutoffMonth: int, f: DropFaults, names: seq<string>, i: nat,
                                 gone: set<string>, left: set<string>)
    requires i < |names| && names[i] in Fatal(was, cutoffMonth, f) && names[i] !in gone && names[i] !in left
    requires gone == (set n | n in names[..i] && n in Droppable(was, cutoffMonth, f)) && gone !! Fatal(was, cutoffMonth, f)
    requires left == (set n | n in names[..i] && n in Abandoned(was, cutoffMonth, f))
    ensures DropFault(f, names[i]).AnswerLost? ==>
      StoppedAt(was, cutoffMonth, f, |gone|, names[i], gone + {names[i]}, left)
    ensures DropFault(f, names[i]).NotRun? ==>
      StoppedAt(was, cutoffMonth, f, |gone|, names[i], gone, left + {names[i]})
  {
    assert (gone + {names[i]}) - {names[i]} == gone && gone - {names[i]} == gone;
    assert (left + {names[i]}) - {names[i]} == left && left - {names[i]} == left;
  }

  /** Only tables that are due, and so attached, are dropped or detached. */
  lemma {:induction false} SweptAreDue(was: map<string, Table>, cutoffMonth: int, f: DropFaults, dropped: nat, culprit: string,
                                       gone: set<string>, left: set<string>)
    requires StoppedAt(was, cutoffMonth, f, dropped, culprit, gone, left)
          || (gone == Droppable(was, cutoffMonth, f) && left == Abandoned(was, cutoffMonth, f))
    ensures forall n | n in was && !was[n].attached :: n in Swept(was, gone, left) && Swept(was, gone, left)[n] == was[n]
  {
    forall n | n in was && !was[n].attached ensures n !in gone && n !in left {
      assert n !in Droppable(was, cutoffMonth, f) && n !in Abandoned(was, cutoffMonth, f) && n !in Fatal(was, cutoffMonth, f);
      assert n in gone ==> n == culprit || n in gone - {culprit};
      assert n in left ==> n == culprit || n in left - {culprit};
    }
  }

  /** A table that is attached, of an earlier month, and whose DETACH answers and DROP runs. */
  ghost predicate MayDrop(t: Table, name: string, cutoffMonth: int, f: DropFaults) {
    && t.attached && t.month.Some? && t.month.value < cutoffMonth
    && name !in f.detachUnrun && name !in f.detachUnheard && name !in f.dropUnrun
  }

  /** What a pass drops is what may be dropped, and without an error all of it. */
  lemma {:induction false} GoneMayDrop(was: map<string, Table>, cutoffMonth: int, f: DropFaults, dropped: nat, culprit: string,
                                       gone: set<string>, left: set<string>)
    requires StoppedAt(was, cutoffMonth, f, dropped, culprit, gone, left)
          || (gone == Droppable(was, cutoffMonth, f) && left == Abandoned(was, cutoffMonth, f) && Fatal(was, cutoffMonth, f) == {})
    ensures forall n | n in was && n !in Swept(was, gone, left) :: MayDrop(was[n], n, cutoffMonth, f)
    ensures gone == Droppable(was, cutoffMonth, f) ==>
      forall n | n in Swept(was, gone, left) :: !MayDrop(was[n], n, cutoffMonth, f)
  {
    forall n | n in was && n in gone ensures MayDrop(was[n], n, cutoffMonth, f) {
      assert n == culprit || n in gone - {culprit};
      assert n in Droppable(was, cutoffMonth, f);
      assert DropFault(f, n).NotRun? ==> n in Fatal(was, cutoffMonth, f);
    }
    if gone == Droppable(was, cutoffMonth, f) {
      forall n | n in was && n !in gone ensures !MayDrop(was[n], n, cutoffMonth, f) {
        assert n !in Droppable(was, cutoffMonth, f);
      }
    }
  }

  lemma {:induction false} AllDropped(was: map<string, Table>, now: map<string, Table>, cutoffMonth: int, f: DropFaults,
                                      names: seq<string>, gone: set<string>, left: set<string>)
    requires Listing(names, was) && Dropping(was, now, cutoffMonth, f, names, |names|, gone, left)
    ensures gone == Droppable(was, cutoffMonth, f) && left == Abandoned(was, cutoffMonth, f) && Fatal(was, cutoffMonth, f) == {}
  {
    assert names[..|names|] == names;
  }

  // ----- the job ---------------------------------------------------------------------

  /** The tables the job changes. */
  class Database {
    var events: map<int, Event>
    var tables: map<string, Table>
    const owners: Owners

    constructor (events: map<int, Event>, tables: map<string, Table>, owners: Owners)
      ensures this.events == events && this.tables == tables && this.owners == owners
    {
      this.events, this.tables, this.owners := events, tables, owners;
    }

    /** The loop body: an old table is detached and dropped; what does not answer its DETACH is skipped. */
    method DropPartition(name: string, cutoffMonth: int, f: DropFaults) returns (attempt: Attempt)
      requires name in tables
      modifies this`tables
      ensures attempt == AttemptOf(old(tables)[name], name, cutoffMonth, f)
      ensures tables == Attempted(old(tables), name, attempt)
    {
      if !Old(tables[name], cutoffMonth) {
        return Kept;
      }
      if !tables[name].attached || DetachFault(f, name).NotRun? {
        return Kept;
      }
      tables := tables[name := tables[name].(attached := false)];
      if DetachFault(f, name).AnswerLost? {
        return LeftDetached;
      }
      if DropFault(f, name).NotRun? {
        return Failed(false);
      }
      tables := tables - {name};
      return if DropFault(f, name).AnswerLost? then Failed(true) else Dropped;
    }

    /**
     * The old tables in the order listed; a failing DROP ends the pass. gone and left are what is dropped and what
     * is left detached, culprit the table whose DROP failed.
     */
    method DropOldPartitions(names: seq<string>, cutoffMonth: int, f: DropFaults)
      returns (dropped: nat, failed: bool, culprit: string, ghost gone: set<string>, ghost left: set<string>)
      requires Listing(names, tables)
      modifies this`tables
      ensures tables == Swept(old(tables), gone, left)
      ensures failed <==> Fatal(old(tables), cutoffMonth, f) != {}
      ensures if failed then StoppedAt(old(tables), cutoffMonth, f, dropped, culprit, gone, left)
              else gone == Droppable(old(tables), cutoffMonth, f) && left == Abandoned(old(tables), cutoffMonth, f)
                   && dropped == |gone|
    {
      ghost var was := tables;
      dropped, gone, left := 0, {}, {};
      assert tables == Swept(was, {}, {});
      for i := 0 to |names|
        invariant Dropping(was, tables, cutoffMonth, f, names, i, gone, left)
        invariant dropped == |gone|
      {
        var attempt;
        attempt, gone, left := DropNamed(was, names, i, cutoffMonth, f, gone, left);
        if attempt.Failed? {
          return dropped, true, names[i], gone, left;
        }
        if attempt.Dropped? {
          dropped := dropped + 1;
        }
      }
      AllDropped(was, tables, cutoffMonth, f, names, gone, left);
      return dropped, false, "", gone, left;
    }

    /** The loop body for the i-th name, and what is gone and left detached after it. */
    method DropNamed(ghost was: map<string, Table>, names: seq<string>, i: nat, cutoffMonth: int, f: DropFaults,
                     ghost gone: set<string>, ghost left: set<string>)
      returns (attempt: Attempt, ghost gone': set<string>, ghost left': set<string>)
      requires i < |names| && Listing(names, was) && Dropping(was, tables, cutoffMonth, f, names, i, gone, left)
      modifies this`tables
      ensures tables == Swept(was, gone', left')
      ensures if attempt.Failed? then Fatal(was, cutoffMonth, f) != {} && StoppedAt(was, cutoffMonth, f, |gone|, names[i], gone', left')
              else Dropping(was, tables, cutoffMonth, f, names, i + 1, gone', left')
                   && |gone'| == |gone| + if attempt.Dropped? then 1 else 0
    {
      StepDropping(was, tables, cutoffMonth, f, names, i, gone, left);
      attempt := DropPartition(names[i], cutoffMonth, f);
      gone' := if attempt.Dropped? || attempt == Failed(true) then gone + {names[i]} else gone;
      left' := if attempt.LeftDetached? || attempt == Failed(false) then left + {names[i]} else left;
      if attempt.Failed? {
        Stops(was, cutoffMonth, f, names, i, gone, left);
      }
    }

    /** One DELETE; LIMIT picks any rows, as many as it may. */
    method DeleteBatch(appID: int, cutoff: int) returns (n: nat, ghost chosen: set<int>)
      modifies this`events
      ensures chosen <= Matching(old(events), owners, appID, cutoff)
      ensures n == |chosen| == Min(|Matching(old(events), owners, appID, cutoff)|, BatchSize)
      ensures events == old(events) - chosen
    {
      var matching := Matching(events, owners, appID, cutoff);
      ghost var some := SubsetOfSize(matching, Min(|matching|, BatchSize));
      var picked :| picked <= matching && |picked| == Min(|matching|, BatchSize);
      events := events - picked;
      return |picked|, picked;
    }

    /** A DELETE that errors, having run or not. */
    method DeleteUnheard(appID: int, cutoff: int, ran: bool) returns (ghost unheard: set<int>)
      modifies this`events
      ensures unheard <= Matching(old(events), owners, appID, cutoff) && events == old(events) - unheard
      ensures |unheard| == if ran then Min(|Matching(old(events), owners, appID, cutoff)|, BatchSize) else 0
    {
      unheard := {};
      if ran {
        var n;
        n, unheard := DeleteBatch(appID, cutoff);
      }
    }

    /**
     * Batches until one deletes nothing; the statement failing strikes, if any, errors. deleted are the events
     * counted, unheard those of a batch that ran and lost its answer.
     */
    method DeleteOldEvents(appID: int, cutoff: int, failing: Option<Strike>)
      returns (total: nat, batches: nat, failed: bool, ghost deleted: set<int>, ghost unheard: set<int>)
      modifies this`events
      ensures events == old(events) - (deleted + unheard)
      ensures Progress(old(events), old(events) - deleted, Matching(old(events), owners, appID, cutoff), deleted, total, batches)
      ensures failed <==> Strikes(failing, |Matching(old(events), owners, appID, cutoff)|)
      ensures failed ==> batches == failing.value.statement
      ensures !failed ==> deleted == Matching(old(events), owners, appID, cutoff) && batches == Batches(total)
      ensures unheard <= Matching(old(events), owners, appID, cutoff) - deleted
      ensures |unheard| == if failed && failing.value.unheard
                           then Min(|Matching(old(events), owners, appID, cutoff) - deleted|, BatchSize) else 0
      ensures forall id | id in old(events) && id !in events ::
        var e := old(events)[id];
        e.connection.Some? && e.connection.value in owners && owners[e.connection.value] == appID && e.ts < cutoff
      ensures !failed ==> forall id | id in events ::
        var e := events[id];
        !(e.connection.Some? && e.connection.value in owners && owners[e.connection.value] == appID && e.ts < cutoff)
      ensures !failed ==> total <= batches * 10_000 < total + 10_000
    {
      ghost var was := events;
      ghost var matching := Matching(events, owners, appID, cutoff);
      total, batches, deleted, unheard := 0, 0, {}, {};
      while true
        invariant Progress(was, events, matching, deleted, total, batches) && unheard == {}
        invariant failing.Some? ==> failing.value.statement >= batches
        decreases |matching| - total
      {
        RemainingMatch(was, deleted, owners, appID, cutoff);
        if failing.Some? && failing.value.statement == batches {
          unheard := DeleteUnheard(appID, cutoff, failing.value.unheard);
          MinusBoth(was, deleted, unheard);
          return total, batches, true, deleted, unheard;
        }
        ghost var before := events;
        var n, chosen := DeleteBatch(appID, cutoff);
        SubsetSize(deleted, matching);
        if n == 0 {
          break;
        }
        StepProgress(was, before, matching, deleted, total, batches, chosen);
        deleted := deleted + chosen;
        total := total + n;
        batches := batches + 1;
      }
      failed := false;
      BatchesDone(|matching|, batches);
      MinusBoth(was, deleted, {});
    }

    /** Step 2: every app in turn, each with its own clock reading; the first error ends the loop. */
    method DeleteForApps(apps: seq<App>, clock: nat -> int, eventFaults: nat -> Option<Strike>)
      returns (failed: bool, ghost deleted: set<int>)
      modifies this`events
      ensures events == old(events) - deleted && deleted <= Expired(old(events), owners, apps, clock)
      ensures !failed ==> deleted == Expired(old(events), owners, apps, clock)
      ensures failed <==> Failures(old(events), owners, apps, clock, eventFaults, |apps|) > 0
    {
      ghost var was := events;
      deleted := {};
      NoneExpired(was, owners, apps[..0], clock);
      for i := 0 to |apps|
        invariant Expiring(was, events, owners, apps, clock, i, deleted)
        invariant Failures(was, owners, apps, clock, eventFaults, i) == 0
      {
        var cutoff := Cutoff(clock(i + 1), apps[i]);
        ghost var before := events;
        var total, batches, bad, now, unheard := DeleteOldEvents(apps[i].id, cutoff, eventFaults(i));
        ExpiredNext(was, owners, apps, clock, i);
        AppDone(was, before, owners, apps, clock, i, deleted, now + unheard);
        FailsWhen(was, before, owners, apps, clock, eventFaults, i, deleted);
        deleted := deleted + (now + unheard);
        if bad {
          FailuresCount(was, owners, apps, clock, eventFaults, i + 1, |apps|);
          return true, deleted;
        }
      }
      assert apps[..|apps|] == apps;
      return false, deleted;
    }

    /** One pass: partitions first, then the events, for the apps the query finds to have a retention. */
    method RunOnce(all: seq<App>, month: int -> int, clock: nat -> int, names: seq<string>,
                   f: DropFaults, eventFaults: nat -> Option<Strike>)
      returns (failed: bool, ghost deleted: set<int>)
      requires Listing(names, tables)
      modifies this
      ensures failed <==> DropFails(old(tables), Retaining(all), month, clock(0), f)
                          || Failures(old(events), owners, Retaining(all), clock, eventFaults, |Retaining(all)|) > 0
      ensures !DropFails(old(tables), Retaining(all), month, clock(0), f) ==>
        tables == TablesAfter(old(tables), Retaining(all), month, clock(0), f)
      ensures events == old(events) - deleted && deleted <= Expired(old(events), owners, Retaining(all), clock)
      ensures !failed ==> deleted == Expired(old(events), owners, Retaining(all), clock)
      ensures forall id | id in old(events) && id !in events :: Overdue(old(events)[id], owners, all, clock)
      ensures !failed ==> forall id | id in events :: !Overdue(events[id], owners, all, clock)
      ensures forall n | n in old(tables) && !old(tables)[n].attached :: n in tables && tables[n] == old(tables)[n]
    {
      var apps := Retaining(all);
      ExpiredAreOverdue(events, owners, all, clock);
      if |apps| == 0 {
        NoneExpired(events, owners, apps, clock);
        return false, {};
      }
      var bad := DropForApps(apps, month, clock(0), names, f);
      if bad {
        return true, {};
      }
      failed, deleted := DeleteForApps(apps, clock, eventFaults);
    }

    /** Step 1: partitions hold all apps' rows and are dropped by the shortest retention. */
    method DropForApps(apps: seq<App>, month: int -> int, now: int, names: seq<string>, f: DropFaults) returns (failed: bool)
      requires apps != [] && Listing(names, tables)
      modifies this`tables
      ensures failed <==> DropFails(old(tables), apps, month, now, f)
      ensures !failed ==> tables == TablesAfter(old(tables), apps, month, now, f)
      ensures forall n | n in old(tables) && !old(tables)[n].attached :: n in tables && tables[n] == old(tables)[n]
    {
      var days := MinRetentionDays(apps);
      var cutoffMonth := month(now - days * Day);
      var dropped, bad, culprit, gone, left := DropOldPartitions(names, cutoffMonth, f);
      SweptAreDue(old(tables), cutoffMonth, f, dropped, culprit, gone, left);
      failed := bad;
    }
  }

  /** SELECT ... WHERE retention_days > 0. */
  function Retaining(all: seq<App>): (apps: seq<App>)
    ensures forall a :: a in apps <==> a in all && a.retentionDays > 0
  {
    if all == [] then []
    else
      var front, a := all[..|all| - 1], all[|all| - 1];
      assert all == front + [a];
      Retaining(front) + if a.retentionDays > 0 then [a] else []
  }

  /** The shortest retention of the apps. */
  ghost function ShortestDays(apps: seq<App>): (days: int)
    requires apps != []
    ensures IsMin(days, apps)
  {
    var last := apps[|apps| - 1].retentionDays;
    if |apps| == 1 then assert apps[0].retentionDays == last; last
    else
      var front := apps[..|apps| - 1];
      var days := ShortestDays(front);
      ShorterOf(apps, days);
      if last < days then last else days
  }

  lemma {:induction false} ShorterOf(apps: seq<App>, days: int)
    requires |apps| > 1 && IsMin(days, apps[..|apps| - 1])
    ensures var last := apps[|apps| - 1].retentionDays; IsMin(if last < days then last else days, apps)
  {
  }

  /** The cutoff of the shortest retention. */
  ghost function ShortestCutoff(now: int, apps: seq<App>): int
    requires apps != []
  {
    now - ShortestDays(apps) * Day
  }

  /** What a pass leaves of the tables when no DROP fails. */
  ghost function TablesAfter(tables: map<string, Table>, apps: seq<App>, month: int -> int, now: int,
                             f: DropFaults): map<string, Table> {
    if apps == [] then tables
    else
      var cutoffMonth := month(ShortestCutoff(now, apps));
      Swept(tables, Droppable(tables, cutoffMonth, f), Abandoned(tables, cutoffMonth, f))
  }

  ghost predicate DropFails(tables: map<string, Table>, apps: seq<App>, month: int -> int, now: int, f: DropFaults) {
    apps != [] && Fatal(tables, month(ShortestCutoff(now, apps)), f) != {}
  }

  /** The deletion for app i fails: the statement that fails comes no later than the last one it needs. */
  ghost predicate FailsAt(events: map<int, Event>, owners: Owners, apps: seq<App>, clock: nat -> int,
                          eventFaults: nat -> Option<Strike>, i: nat)
    requires i < |apps|
  {
    var left := events - Expired(events, owners, apps[..i], clock);
    var matching := Matching(left, owners, apps[i].id, Cutoff(clock(i + 1), apps[i]));
    Strikes(eventFaults(i), |matching|)
  }

  lemma {:induction false} FailsWhen(was: map<int, Event>, before: map<int, Event>, owners: Owners, apps: seq<App>,
                                     clock: nat -> int, eventFaults: nat -> Option<Strike>, i: nat, deleted: set<int>)
    requires i < |apps| && Expiring(was, before, owners, apps, clock, i, deleted)
    ensures var matching := Matching(before, owners, apps[i].id, Cutoff(clock(i + 1), apps[i]));
      FailsAt(was, owners, apps, clock, eventFaults, i) <==> Strikes(eventFaults(i), |matching|)
  {
  }

  /** How many of the first n apps' deletions would fail. */
  ghost function Failures(events: map<int, Event>, owners: Owners, apps: seq<App>, clock: nat -> int,
                          eventFaults: nat -> Option<Strike>, n: nat): nat
    requires n <= |apps|
  {
    if n == 0 then 0
    else Failures(events, owners, apps, clock, eventFaults, n - 1)
         + if FailsAt(events, owners, apps, clock, eventFaults, n - 1) then 1 else 0
  }

  lemma {:induction false} FailuresCount(events: map<int, Event>, owners: Owners, apps: seq<App>, clock: nat -> int,
                                         eventFaults: nat -> Option<Strike>, i: nat, n: nat)
    requires i <= n <= |apps|
    ensures Failures(events, owners, apps, clock, eventFaults, i) <= Failures(events, owners, apps, clock, eventFaults, n)
  {
    if i < n {
      FailuresCount(events, owners, apps, clock, eventFaults, i, n - 1);
    }
  }

  /** minRetentionDays: the loop over the apps that have a retention. */
  method MinRetentionDays(apps: seq<App>) returns (days: int)
    requires apps != []
    ensures days == ShortestDays(apps) && IsMin(days, apps)
  {
    days := apps[0].retentionDays;
    for i := 1 to |apps|
      invariant IsMin(days, apps[..i])
    {
      assert apps[..i + 1] == apps[..i] + [apps[i]];
      if apps[i].retentionDays < days {
        days := apps[i].retentionDays;
        assert apps[..i + 1][i].retentionDays == days;
      }
    }
    assert apps[..|apps|] == apps;
  }

  /** After the first i apps exactly their expired events are gone. */
  ghost predicate Expiring(was: map<int, Event>, now: map<int, Event>, owners: Owners, apps: seq<App>, clock: nat -> int,
                           i: nat, deleted: set<int>)
    requires i <= |apps|
  {
    now == was - deleted && deleted == Expired(was, owners, apps[..i], clock)
  }

  lemma {:induction false} AppDone(was: map<int, Event>, before: map<int, Event>, owners: Owners, apps: seq<App>,
                                   clock: nat -> int, i: nat, deleted: set<int>, more: set<int>)
    requires i < |apps| && Expiring(was, before, owners, apps, clock, i, deleted)
    requires var cutoff := Cutoff(clock(i + 1), apps[i]); more <= Matching(before, owners, apps[i].id, cutoff)
    ensures before - more == was - (deleted + more) && deleted + more <= Expired(was, owners, apps, clock)
    ensures more == Matching(before, owners, apps[i].id, Cutoff(clock(i + 1), apps[i])) ==>
      Expiring(was, before - more, owners, apps, clock, i + 1, deleted + more)
  {
    var cutoff := Cutoff(clock(i + 1), apps[i]);
    ExpiredNext(was, owners, apps, clock, i);
    RemainingMatch(was, deleted, owners, apps[i].id, cutoff);
    assert before - more == was - (deleted + more);
  }

  ghost predicate IsMin(days: int, apps: seq<App>) {
    && (exists i :: 0 <= i < |apps| && apps[i].retentionDays == days)
    && (forall i | 0 <= i < |apps| :: days <= apps[i].retentionDays)
  }

  /** The event is past the retention of one of these apps. */
  predicate PastRetention(e: Event, owners: Owners, apps: seq<App>, clock: nat -> int) {
    exists i: nat :: i < |apps| && Matches(e, owners, apps[i].id, Cutoff(clock(i + 1), apps[i]))
  }

  ghost function Expired(events: map<int, Event>, owners: Owners, apps: seq<App>, clock: nat -> int): set<int> {
    set id | id in events && PastRetention(events[id], owners, apps, clock)
  }

  /** Some app that has a retention owns the event, and it is older than that, by the clock read for the app. */
  ghost predicate Overdue(e: Event, owners: Owners, all: seq<App>, clock: nat -> int) {
    exists i: nat {:trigger clock(i + 1)} :: i < |Retaining(all)| && OlderThan(e, owners, Retaining(all)[i], clock(i + 1))
  }

  /** The app owns the event's connection, and the event is older than the app's days of 24 hours. */
  predicate OlderThan(e: Event, owners: Owners, a: App, now: int) {
    && e.connection.Some? && e.connection.value in owners && owners[e.connection.value] == a.id
    && e.ts < now - a.retentionDays * 86_400_000_000_000
  }

  lemma {:induction false} ExpiredAreOverdue(events: map<int, Event>, owners: Owners, all: seq<App>, clock: nat -> int)
    ensures forall id | id in events :: id in Expired(events, owners, Retaining(all), clock) <==> Overdue(events[id], owners, all, clock)
  {
    var apps := Retaining(all);
    forall id | id in events ensures PastRetention(events[id], owners, apps, clock) <==> Overdue(events[id], owners, all, clock) {
      forall i: nat | i < |apps|
        ensures Matches(events[id], owners, apps[i].id, Cutoff(clock(i + 1), apps[i])) <==> OlderThan(events[id], owners, apps[i], clock(i + 1))
      {}
    }
  }

  /** An app's events stay for as long as it retains them, for ever when it has no retention. */
  lemma {:induction false} RetainedIsNotOverdue(e: Event, owners: Owners, all: seq<App>, clock: nat -> int, a: App)
    requires forall b, c | b in all && c in all && b.id == c.id :: b == c
    requires a in all && e.connection.Some? && e.connection.value in owners && owners[e.connection.value] == a.id
    requires forall i: nat | i < |Retaining(all)| && Retaining(all)[i] == a :: Retains(a, clock(i + 1), e.ts)
    ensures !Overdue(e, owners, all, clock)
  {
    forall i: nat | i < |Retaining(all)| ensures !OlderThan(e, owners, Retaining(all)[i], clock(i + 1)) {
      assert Retaining(all)[i] in Retaining(all);
      assert Retaining(all)[i].id == a.id ==> Retaining(all)[i] == a;
    }
  }

  /** An event of no connection is never deleted. */
  lemma {:induction false} UnlinkedStay(e: Event, owners: Owners, all: seq<App>, clock: nat -> int)
    requires e.connection.None?
    ensures !Overdue(e, owners, all, clock)
  {
  }

  lemma {:induction false} NoneExpired(events: map<int, Event>, owners: Owners, apps: seq<App>, clock: nat -> int)
    requires |apps| == 0
    ensures Expired(events, owners, apps, clock) == {}
  {
    forall id | id in events ensures !PastRetention(events[id], owners, apps, clock) {}
  }

  lemma {:induction false} ExpiredNext(events: map<int, Event>, owners: Owners, apps: seq<App>, clock: nat -> int, i: nat)
    requires i < |apps|
    ensures Expired(events, owners, apps[..i + 1], clock)
         == Expired(events, owners, apps[..i], clock)
            + Matching(events, owners, apps[i].id, Cutoff(clock(i + 1), apps[i]))
    ensures Expired(events, owners, apps[..i + 1], clock) <= Expired(events, owners, apps, clock)
  {
    var a, b := apps[..i], apps[..i + 1];
    forall id | id in events
      ensures PastRetention(events[id], owners, b, clock)
         <==> PastRetention(events[id], owners, a, clock)
              || Matches(events[id], owners, apps[i].id, Cutoff(clock(i + 1), apps[i]))
      ensures PastRetention(events[id], owners, b, clock) ==> PastRetention(events[id], owners, apps, clock)
    {
      PastNext(events[id], owners, apps, clock, i);
    }
  }

  lemma {:induction false} PastNext(e: Event, owners: Owners, apps: seq<App>, clock: nat -> int, i: nat)
    requires i < |apps|
    ensures PastRetention(e, owners, apps[..i + 1], clock)
       <==> PastRetention(e, owners, apps[..i], clock)
            || Matches(e, owners, apps[i].id, Cutoff(clock(i + 1), apps[i]))
    ensures PastRetention(e, owners, apps[..i + 1], clock) ==> PastRetention(e, owners, apps, clock)
  {
  }

  // ----- who loses rows to a dropped partition ---------------------------------------

  /** A calendar numbers months without ever going back. */
  ghost predicate Calendar(month: int -> int) {
    forall t, u | t <= u :: month(t) <= month(u)
  }

  /** A partition's rows are of the month in its name. */
  ghost predicate WellPlaced(t: Table, month: int -> int) {
    t.month.Some? ==> forall r | r in t.rows :: month(r.ts) == t.month.value
  }

  /** The app wants rows of this time kept: all of them when it has no retention. */
  predicate Retains(a: App, now: int, ts: int) {
    a.retentionDays <= 0 || ts >= Cutoff(now, a)
  }

  /** Whatever the tables hold, dropping the ones before the cutoff's month takes no row app a still retains. */
  ghost predicate KeepsRetained(a: App, now: int, cutoff: int, month: int -> int) {
    forall t, r | WellPlaced(t, month) && Old(t, month(cutoff)) && r in t.rows && r.appID == a.id :: !Retains(a, now, r.ts)
  }

  /** No time lies in a month before the cutoff's. */
  ghost predicate NothingEarlier(cutoff: int, month: int -> int) {
    forall t :: month(t) >= month(cutoff)
  }

  /**
   * The cutoff is that of the shortest retention. An app keeps all it should exactly when its own cutoff falls in
   * no earlier month, and an app without a retention exactly when there is no earlier month.
   */
  lemma {:induction false} KeepsRetainedExactlyWhen(a: App, now: int, cutoff: int, month: int -> int)
    requires Calendar(month)
    ensures KeepsRetained(a, now, cutoff, month)
       <==> if a.retentionDays <= 0 then NothingEarlier(cutoff, month) else month(Cutoff(now, a)) >= month(cutoff)
  {
    if KeepsRetained(a, now, cutoff, month) {
      forall ts | Retains(a, now, ts) ensures month(ts) >= month(cutoff) {
        var r := Stat(a.id, ts);
        var t := Table(Some(month(ts)), true, {r});
        assert WellPlaced(t, month) && r in t.rows;
        assert Old(t, month(cutoff)) ==> !Retains(a, now, r.ts);
      }
      assert a.retentionDays > 0 ==> Retains(a, now, Cutoff(now, a));
      assert a.retentionDays <= 0 ==> forall t :: Retains(a, now, t);
    } else {
      var t: Table, r :| WellPlaced(t, month) && Old(t, month(cutoff)) && r in t.rows && r.appID == a.id && Retains(a, now, r.ts);
      assert month(r.ts) == t.month.value < month(cutoff);
    }
  }

  /** Every row an app still retains is where it was. */
  ghost predicate LeavesRetained(tables: map<string, Table>, tables': map<string, Table>, all: seq<App>, now: int) {
    forall a, n, r | a in all && n in tables && RetainedIn(tables[n], r, a, now) :: n in tables' && tables'[n] == tables[n]
  }

  predicate RetainedIn(t: Table, r: Stat, a: App, now: int) {
    r in t.rows && r.appID == a.id && Retains(a, now, r.ts)
  }

  ghost predicate AllWellPlaced(tables: map<string, Table>, month: int -> int) {
    forall n | n in tables :: WellPlaced(tables[n], month)
  }

  /** A pass without faults leaves, whatever the tables hold, all that the apps retain. */
  ghost predicate PassIsSafe(all: seq<App>, now: int, month: int -> int) {
    forall tables: map<string, Table> | AllWellPlaced(tables, month) ::
      LeavesRetained(tables, TablesAfter(tables, Retaining(all), month, now, NoDropFaults), all, now)
  }

  /** The cutoffs of all apps that have one fall in the same month. */
  ghost predicate OneCutoffMonth(all: seq<App>, now: int, cutoff: int, month: int -> int) {
    forall a | a in all && a.retentionDays > 0 :: month(Cutoff(now, a)) == month(cutoff)
  }

  /**
   * It is safe exactly when no app has a retention, or the cutoffs of those that have one fall in one month and
   * either all have one or no month lies before that.
   */
  lemma {:induction false} PassIsSafeExactlyWhen(all: seq<App>, now: int, month: int -> int)
    requires Calendar(month)
    ensures PassIsSafe(all, now, month)
       <==> Retaining(all) == []
            || (OneCutoffMonth(all, now, ShortestCutoff(now, Retaining(all)), month)
                && ((forall a | a in all :: a.retentionDays > 0)
                    || NothingEarlier(ShortestCutoff(now, Retaining(all)), month)))
  {
    if Retaining(all) != [] {
      var cutoff := ShortestCutoff(now, Retaining(all));
      forall a | a in all
        ensures KeepsRetained(a, now, cutoff, month)
           <==> if a.retentionDays <= 0 then NothingEarlier(cutoff, month) else month(Cutoff(now, a)) == month(cutoff)
      {
        KeepsRetainedExactlyWhen(a, now, cutoff, month);
        if a.retentionDays > 0 {
          NoLaterCutoff(Retaining(all), a, now);
        }
      }
      if forall a | a in all :: KeepsRetained(a, now, cutoff, month) {
        forall tables: map<string, Table> | AllWellPlaced(tables, month)
          ensures LeavesRetained(tables, TablesAfter(tables, Retaining(all), month, now, NoDropFaults), all, now)
        {
          RetainedStay(tables, all, now, cutoff, month);
        }
      } else {
        var a :| a in all && !KeepsRetained(a, now, cutoff, month);
        LosesRow(all, now, cutoff, month, a);
      }
    }
  }

  lemma {:induction false} NoLaterCutoff(apps: seq<App>, a: App, now: int)
    requires a in apps
    ensures Cutoff(now, a) <= ShortestCutoff(now, apps)
  {
    var i :| 0 <= i < |apps| && apps[i] == a;
    assert ShortestDays(apps) <= apps[i].retentionDays;
  }

  lemma {:induction false} RetainedStay(tables: map<string, Table>, all: seq<App>, now: int, cutoff: int, month: int -> int)
    requires AllWellPlaced(tables, month) && forall a | a in all :: KeepsRetained(a, now, cutoff, month)
    ensures var m := month(cutoff);
      LeavesRetained(tables, Swept(tables, Droppable(tables, m, NoDropFaults), Abandoned(tables, m, NoDropFaults)), all, now)
  {
    forall a, n, r | a in all && n in tables && RetainedIn(tables[n], r, a, now) ensures !Old(tables[n], month(cutoff)) {
      assert WellPlaced(tables[n], month) && KeepsRetained(a, now, cutoff, month);
    }
  }

  lemma {:induction false} LosesRow(all: seq<App>, now: int, cutoff: int, month: int -> int, a: App)
    requires Retaining(all) != [] && cutoff == ShortestCutoff(now, Retaining(all))
    requires a in all && !KeepsRetained(a, now, cutoff, month)
    ensures !PassIsSafe(all, now, month)
  {
    var t: Table, r :| WellPlaced(t, month) && Old(t, month(cutoff)) && r in t.rows && r.appID == a.id && Retains(a, now, r.ts);
    var tables := map["p" := t.(attached := true)];
    assert AllWellPlaced(tables, month);
    assert "p" in tables && RetainedIn(tables["p"], r, a, now);
    assert "p" in Droppable(tables, month(cutoff), NoDropFaults);
    assert "p" !in TablesAfter(tables, Retaining(all), month, now, NoDropFaults);
  }

  function ThirtyDays(t: int): int {
    t / (30 * Day)
  }

  lemma {:induction false} MonthsInOrder()
    ensures Calendar(ThirtyDays)
  {
  }

  /** An app that keeps 90 days loses rows to an app that keeps 7. */
  lemma {:induction false} LongerRetentionLosesRows()
    ensures !PassIsSafe([App(1, 90), App(2, 7)], 120 * Day, ThirtyDays)
  {
    var all, now := [App(1, 90), App(2, 7)], 120 * Day;
    MonthsInOrder();
    PassIsSafeExactlyWhen(all, now, ThirtyDays);
    assert all[0] in all && all[1] in all;
    NoLaterCutoff(Retaining(all), all[1], now);
  }

  /** So does an app without a retention, although the job passes it over and the only cutoff is in one month. */
  lemma {:induction false} SkippedAppLosesRows()
    ensures !PassIsSafe([App(1, 7), App(2, 0)], 120 * Day, ThirtyDays)
    ensures OneCutoffMonth([App(1, 7), App(2, 0)], 120 * Day, 113 * Day, ThirtyDays)
  {
    var all, now := [App(1, 7), App(2, 0)], 120 * Day;
    MonthsInOrder();
    PassIsSafeExactlyWhen(all, now, ThirtyDays);
    assert all[0] in all && all[1] in all;
    NoLaterCutoff(Retaining(all), all[0], now);
    assert ThirtyDays(0) < ThirtyDays(ShortestCutoff(now, Retaining(all)));
  }

  // ----- when the next pass runs -----------------------------------------------------

  function TimeOfDay(hour: int, minute: int): int {
    (hour * 60 + minute) * 60_000_000_000
  }

  /** Today's hour:minute if it is still ahead, tomorrow's otherwise; days start at multiples of Day. */
  function NextRunTime(hour: int, minute: int, from: int): int {
    var next := from / Day * Day + TimeOfDay(hour, minute);
    if next > from then next else next + Day
  }

  lemma {:induction false} NextRunDay(hour: int, minute: int, from: int, t: int)
    requires 0 <= hour < 24 && 0 <= minute < 60
    ensures from < NextRunTime(hour, minute, from) && NextRunTime(hour, minute, from) % Day == TimeOfDay(hour, minute)
    ensures t > from && t % Day == TimeOfDay(hour, minute) ==> t >= NextRunTime(hour, minute, from)
  {
  }

  /** It is the first time strictly after from at that time of day. */
  lemma {:induction false} NextRunIsFirst(hour: int, minute: int, from: int, t: int)
    requires 0 <= hour < 24 && 0 <= minute < 60
    ensures var next, minutes := NextRunTime(hour, minute, from), 60 * hour + minute;
      from < next && next % 86_400_000_000_000 == minutes * 60_000_000_000
    ensures t > from && t % 86_400_000_000_000 == (60 * hour + minute) * 60_000_000_000 ==> t >= NextRunTime(hour, minute, from)
  {
    NextRunDay(hour, minute, from, t);
    assert TimeOfDay(hour, minute) == (60 * hour + minute) * 60_000_000_000;
  }
}

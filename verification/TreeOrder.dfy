/**
 * services/query-api/handler/conference_detail.go: why the assembly depends on its ORDER BY. The tree is right
 * whatever append does exactly when each session's rows stand together; otherwise an append that moves its
 * array every time loses a connection.
 */
module TreeOrder {
  import opened Common
  import opened ConferenceTree

  /** mems are the states of memory row by row, under some behaviour of append. */
  ghost predicate Reads(mems: seq<Memory>, rows: seq<Row>, n: nat)
    requires n <= |rows|
  {
    |mems| == n + 1 && forall i {:trigger rows[i]} | 0 <= i < n :: RowStep(mems[i], rows[i], mems[i + 1])
  }

  ghost predicate ShowsTree(m: Memory, people: seq<Person>, rows: seq<Row>) {
    MemOk(m) && forall p | Listed(people, p) :: p in m.participants && View(m, p) == GroupBy(rows, p)
  }

  /** Every behaviour of append gives the tree. */
  ghost predicate AlwaysTree(start: Memory, people: seq<Person>, rows: seq<Row>) {
    forall mems | Reads(mems, rows, |rows|) && mems[0] == start :: ShowsTree(mems[|rows|], people, rows)
  }

  ghost predicate RowsListed(people: seq<Person>, rows: seq<Row>) {
    forall i | 0 <= i < |rows| :: Listed(people, rows[i].pid)
  }

  // ----- rows that stand together ----------------------------------------------------

  /** What every step keeps holds at the end. */
  lemma {:induction false} KeptToTheEnd(good: (int, Memory) -> bool, mems: seq<Memory>, n: nat)
    requires n < |mems| && good(0, mems[0])
    requires forall i | 0 <= i < |mems| - 1 :: good(i, mems[i]) ==> good(i + 1, mems[i + 1])
    ensures good(n, mems[n])
  {
    if n > 0 {
      KeptToTheEnd(good, mems, n - 1);
    }
  }

  /** Whatever append does, rows that stand together are shown as their group-by. */
  lemma {:induction false} TogetherShowsTree(mems: seq<Memory>, people: seq<Person>, rows: seq<Row>)
    requires SessionsConsistent(rows) && SessionsTogether(rows)
    requires Reads(mems, rows, |rows|) && Starts(mems[0], people)
    ensures ShowsTree(mems[|rows|], people, rows)
  {
    var keys := mems[0].participants.Keys;
    var good := (i: int, m: Memory) =>
      0 <= i <= |rows| && MemOk(m) && LastRefs(m) && Assembled(m, rows, i) && m.participants.Keys == keys;
    assert good(0, mems[0]) by { StartsAssembled(mems[0], people); }
    forall i | 0 <= i < |mems| - 1 ensures good(i, mems[i]) ==> good(i + 1, mems[i + 1]) {
      if good(i, mems[i]) {
        assert RowStep(mems[i], rows[i], mems[i + 1]);
        StepAssembled(mems[i], mems[i + 1], rows, i);
      }
    }
    KeptToTheEnd(good, mems, |rows|);
    var m := mems[|rows|];
    assert rows[..|rows|] == rows;
    forall p | Listed(people, p) ensures p in m.participants && View(m, p) == GroupBy(rows, p) {
      assert p in keys;
      assert ShowsGroupBy(m, rows, |rows|, p);
    }
  }

  // ----- what an append that always moves shows --------------------------------------

  /** The participant's sessions when a write to any but the last session is lost. */
  function Lossy(rows: seq<Row>, pid: int): seq<Session> {
    if rows == [] then []
    else
      var front, r := rows[..|rows| - 1], rows[|rows| - 1];
      var g := Lossy(front, pid);
      if r.pid != pid then g
      else if r.sid !in SessionIds(front, pid) then Extended(Opened(g, r, true), r)
      else if g != [] && g[|g| - 1].id == r.sid then Extended(g, r)
      else g
  }

  /** A write to the last session changes no id, and no other session. */
  lemma {:induction false} ExtendedIds(g: seq<Session>, r: Row)
    ensures |Extended(g, r)| == |g|
    ensures forall k | 0 <= k < |g| :: Extended(g, r)[k].id == g[k].id && (k < |g| - 1 ==> Extended(g, r)[k] == g[k])
    ensures g != [] ==> |Extended(g, r)[|g| - 1].conns| == |g[|g| - 1].conns| + if r.conn.Some? then 1 else 0
  {
  }

  lemma {:induction false} LossyIds(rows: seq<Row>, pid: int)
    ensures |Lossy(rows, pid)| == |SessionIds(rows, pid)|
    ensures forall k | 0 <= k < |Lossy(rows, pid)| :: Lossy(rows, pid)[k].id == SessionIds(rows, pid)[k]
  {
    if rows != [] {
      var front, r := rows[..|rows| - 1], rows[|rows| - 1];
      LossyIds(front, pid);
      ExtendedIds(Opened(Lossy(front, pid), r, true), r);
      ExtendedIds(Lossy(front, pid), r);
    }
  }

  /** The row's connection is shown: its session is new or its participant's last. */
  predicate Kept(front: seq<Row>, r: Row) {
    var ids := SessionIds(front, r.pid);
    r.sid !in ids || ids[|ids| - 1] == r.sid
  }

  /** How many connections of the session are shown. */
  function LossyCount(rows: seq<Row>, sid: int): nat {
    if rows == [] then 0
    else
      var front, r := rows[..|rows| - 1], rows[|rows| - 1];
      LossyCount(front, sid) + if r.sid == sid && r.conn.Some? && Kept(front, r) then 1 else 0
  }

  lemma {:induction false} LossyCountZero(rows: seq<Row>, sid: int)
    requires forall i | 0 <= i < |rows| :: rows[i].sid != sid
    ensures LossyCount(rows, sid) == 0
  {
    if rows != [] {
      LossyCountZero(rows[..|rows| - 1], sid);
    }
  }

  lemma {:induction false} LossyConns(rows: seq<Row>, pid: int, k: nat)
    requires SessionsConsistent(rows) && k < |Lossy(rows, pid)|
    ensures |Lossy(rows, pid)[k].conns| == LossyCount(rows, Lossy(rows, pid)[k].id)
  {
    LossyIds(rows, pid);
    if k < |Lossy(rows[..|rows| - 1], pid)| {
      LossyConns(rows[..|rows| - 1], pid, k);
      LossyConnsOld(rows, pid, k);
    } else {
      LossyConnsNew(rows, pid, k);
    }
  }

  lemma {:induction false} LossyConnsOld(rows: seq<Row>, pid: int, k: nat)
    requires rows != [] && SessionsConsistent(rows) && k < |Lossy(rows[..|rows| - 1], pid)|
    requires var g := Lossy(rows[..|rows| - 1], pid); |g[k].conns| == LossyCount(rows[..|rows| - 1], g[k].id)
    ensures k < |Lossy(rows, pid)| && |Lossy(rows, pid)[k].conns| == LossyCount(rows, Lossy(rows, pid)[k].id)
  {
    var n := |rows| - 1;
    var front, r := rows[..n], rows[n];
    var g := Lossy(front, pid);
    LossyIds(front, pid);
    if r.pid != pid {
      assert Lossy(rows, pid) == g;
      OtherSession(rows, pid, g[k].id);
    } else if r.sid !in SessionIds(front, pid) {
      ExtendedIds(Opened(g, r, true), r);
      assert g[k].id != r.sid;
    } else if g[|g| - 1].id == r.sid {
      ExtendedIds(g, r);
      LossyDistinct(front, pid, k);
    } else {
      assert Lossy(rows, pid) == g && !Kept(front, r);
    }
  }

  lemma {:induction false} LossyDistinct(rows: seq<Row>, pid: int, k: nat)
    requires k < |Lossy(rows, pid)|
    ensures var g := Lossy(rows, pid); g[k].id == g[|g| - 1].id ==> k == |g| - 1
  {
    LossyIds(rows, pid);
    SessionIdsDistinct(rows, pid);
  }

  /** The last row is of another session than those of a participant it does not belong to. */
  lemma {:induction false} OtherSession(rows: seq<Row>, pid: int, sid: int)
    requires rows != [] && SessionsConsistent(rows) && sid in SessionIds(rows[..|rows| - 1], pid)
    ensures rows[|rows| - 1].pid != pid ==> rows[|rows| - 1].sid != sid
  {
    var front := rows[..|rows| - 1];
    SessionIdsIn(front, pid, sid);
    var i :| 0 <= i < |front| && front[i].pid == pid && front[i].sid == sid;
    assert rows[i] == front[i];
  }

  lemma {:induction false} LossyConnsNew(rows: seq<Row>, pid: int, k: nat)
    requires rows != [] && SessionsConsistent(rows) && |Lossy(rows[..|rows| - 1], pid)| <= k < |Lossy(rows, pid)|
    ensures |Lossy(rows, pid)[k].conns| == LossyCount(rows, Lossy(rows, pid)[k].id)
  {
    var n := |rows| - 1;
    var front, r := rows[..n], rows[n];
    SessionIdsIn(front, pid, r.sid);
    forall i | 0 <= i < |front| ensures front[i].sid != r.sid {
      assert front[i] == rows[i];
    }
    LossyCountZero(front, r.sid);
    ExtendNew(Lossy(front, pid), r);
  }

  lemma {:induction false} LossyAtMost(rows: seq<Row>, sid: int)
    ensures LossyCount(rows, sid) <= |ConnsOf(rows, sid)|
  {
    if rows != [] {
      LossyAtMost(rows[..|rows| - 1], sid);
    }
  }

  /** A connection that is lost stays lost. */
  lemma {:induction false} LostForGood(rows: seq<Row>, n: nat)
    requires n < |rows| && rows[n].conn.Some? && !Kept(rows[..n], rows[n])
    ensures LossyCount(rows, rows[n].sid) < |ConnsOf(rows, rows[n].sid)|
  {
    var last := |rows| - 1;
    if n < last {
      assert rows[..last][..n] == rows[..n];
      LostForGood(rows[..last], n);
    } else {
      LossyAtMost(rows[..last], rows[n].sid);
    }
  }

  // ----- rows that do not stand together lose one ------------------------------------

  /** Row b brought a new session after sid: from then on sid is not the last. */
  lemma {:induction false} NoLongerLast(rows: seq<Row>, n: nat, b: nat, sid: int)
    requires SessionsConsistent(rows) && b < n <= |rows| && rows[b].sid != sid
    requires SeenBefore(rows, b, sid) && !SeenBefore(rows, b, rows[b].sid)
    ensures var ids := SessionIds(rows[..n], rows[b].pid); ids != [] && ids[|ids| - 1] != sid
  {
    var pid := rows[b].pid;
    assert rows[..n][..n - 1] == rows[..n - 1];
    if n == b + 1 {
      SessionIdsIn(rows[..b], pid, rows[b].sid);
      assert rows[b].sid !in SessionIds(rows[..b], pid);
    } else {
      NoLongerLast(rows, n - 1, b, sid);
      SessionIdsIn(rows[..n - 1], pid, sid);
      var i :| 0 <= i < b && rows[i].sid == sid;
      assert rows[..n - 1][i].sid == sid;
      if rows[n - 1].sid == sid && rows[n - 1].pid == pid {
        assert rows[i].pid == pid;
      }
    }
  }

  lemma {:induction false} FirstRow(rows: seq<Row>, n: nat) returns (f: nat)
    requires n < |rows|
    ensures f <= n && rows[f].sid == rows[n].sid && !SeenBefore(rows, f, rows[n].sid)
  {
    if i :| 0 <= i < n && rows[i].sid == rows[n].sid {
      f := FirstRow(rows, i);
    } else {
      f := n;
    }
  }

  /** Row n is a later row of a session another one has followed since: its connection is lost. */
  lemma {:induction false} LostRow(rows: seq<Row>, n: nat, b: nat)
    requires SessionsConsistent(rows) && LeftJoin(rows) && b < n < |rows|
    requires rows[b].sid != rows[n].sid && rows[b].pid == rows[n].pid
    requires SeenBefore(rows, b, rows[n].sid) && !SeenBefore(rows, b, rows[b].sid)
    ensures rows[n].conn.Some? && !Kept(rows[..n], rows[n])
  {
    NoLongerLast(rows, n, b, rows[n].sid);
    var i :| 0 <= i < b && rows[i].sid == rows[n].sid;
    SessionIdsIn(rows[..n], rows[n].pid, rows[n].sid);
    assert rows[..n][i] == rows[i];
  }

  lemma {:induction false} SomeLost(rows: seq<Row>) returns (n: nat)
    requires SessionsConsistent(rows) && LeftJoin(rows) && !SessionsTogether(rows)
    ensures n < |rows| && rows[n].conn.Some? && !Kept(rows[..n], rows[n])
  {
    var i, j, k :| 0 <= i < j < k < |rows| && rows[i].sid == rows[k].sid && rows[j].pid == rows[i].pid
      && rows[j].sid != rows[i].sid;
    var a := FirstRow(rows, i);
    var b := FirstRow(rows, j);
    if a < b {
      n := k;
      LostRow(rows, k, b);
    } else {
      n := j;
      LostRow(rows, j, a);
    }
  }

  // ----- an append that always moves -------------------------------------------------

  /** The session goes to a new array, with copies of the others. */
  function MoveSession(m: Memory, r: Row): Memory
    requires r.pid in m.participants && SliceOk(m.sessionBlocks, m.participants[r.pid])
  {
    var s := m.participants[r.pid];
    var cell, block := Cell(r.sid, r.client, Slice(|m.connBlocks|, 0)), |m.sessionBlocks|;
    Memory(m.sessionBlocks + [Elements(m.sessionBlocks, s) + [cell]], m.connBlocks + [[]],
           m.participants[r.pid := Slice(block, s.len + 1)], m.sessionMap[r.sid := Ref(block, s.len)])
  }

  predicate InRange(m: Memory, sd: Ref) {
    && sd.block < |m.sessionBlocks| && sd.index < |m.sessionBlocks[sd.block]|
    && SliceOk(m.connBlocks, m.sessionBlocks[sd.block][sd.index].conns)
  }

  function Target(m: Memory, sd: Ref): Cell
    requires InRange(m, sd)
  {
    m.sessionBlocks[sd.block][sd.index]
  }

  /** The connection goes to a new array, behind the pointer. */
  function MoveConn(m: Memory, sd: Ref, c: Connection): Memory
    requires InRange(m, sd)
  {
    var cell := Target(m, sd);
    m.(connBlocks := m.connBlocks + [Elements(m.connBlocks, cell.conns) + [c]],
       sessionBlocks := m.sessionBlocks[sd.block := m.sessionBlocks[sd.block][sd.index :=
         cell.(conns := Slice(|m.connBlocks|, cell.conns.len + 1))]])
  }

  lemma {:induction false} MoveSessionIsAppend(m: Memory, r: Row)
    requires SlicesOk(m) && r.pid in m.participants
    ensures SessionAdded(m, MoveSession(m, r), r.pid, r.sid, r.client)
  {
  }

  lemma {:induction false} MoveConnIsAppend(m: Memory, sd: Ref, c: Connection)
    requires InRange(m, sd)
    ensures WrittenThrough(m, MoveConn(m, sd, c), sd, c, Slice(|m.connBlocks|, Target(m, sd).conns.len + 1))
  {
  }

  /** The pointer reaches an array no participant uses any more. */
  ghost predicate Stale(m: Memory, sd: Ref) {
    forall p | p in m.participants :: m.participants[p].block != sd.block
  }

  /** The pointer reaches the last session of p. */
  predicate Last(m: Memory, sd: Ref, p: int) {
    p in m.participants && m.participants[p].len > 0 && sd == Ref(m.participants[p].block, m.participants[p].len - 1)
  }

  /** A saved pointer reaches its session, the last of a participant or a stale copy. */
  ghost predicate RefOk(m: Memory, sid: int)
    requires MemOk(m) && sid in m.sessionMap
  {
    var sd := m.sessionMap[sid];
    && InRange(m, sd) && Target(m, sd).id == sid && NoLonger(m, Target(m, sd).conns)
    && (Stale(m, sd) || exists p :: Last(m, sd, p))
  }

  ghost predicate RefsOk(m: Memory)
    requires MemOk(m)
  {
    forall sid | sid in m.sessionMap :: RefOk(m, sid)
  }

  // A new session.

  lemma {:induction false} MoveSessionRef(m: Memory, r: Row, sid: int)
    requires MemOk(m) && RefsOk(m) && r.pid in m.participants && r.sid !in m.sessionMap
    requires MemOk(MoveSession(m, r)) && sid in m.sessionMap
    ensures RefOk(MoveSession(m, r), sid)
  {
    var m', sd := MoveSession(m, r), m.sessionMap[sid];
    assert RefOk(m, sid);
    assert InRange(m', sd) && Target(m', sd) == Target(m, sd);
    MoveSessionIsAppend(m, r);
    forall p, k: nat | p in m'.participants && k < m'.participants[p].len
        && CellAt(m', p, k).conns.block == Target(m', sd).conns.block
      ensures CellAt(m', p, k).conns.len <= Target(m', sd).conns.len
    {
      AddedCells(m, m', r.pid, r.sid, r.client, p, k);
    }
    MoveSessionPlace(m, r, sd);
  }

  /** A pointer to the participant's former last session turns stale; all others stay what they were. */
  lemma {:induction false} MoveSessionPlace(m: Memory, r: Row, sd: Ref)
    requires MemOk(m) && r.pid in m.participants && InRange(m, sd)
    requires Stale(m, sd) || exists p :: Last(m, sd, p)
    ensures Stale(MoveSession(m, r), sd) || exists p :: Last(MoveSession(m, r), sd, p)
  {
    var m' := MoveSession(m, r);
    if !Stale(m, sd) {
      var p :| Last(m, sd, p);
      if p != r.pid {
        assert Last(m', sd, p);
      }
    }
  }

  lemma {:induction false} MoveSessionNewRef(m: Memory, r: Row)
    requires MemOk(m) && r.pid in m.participants && MemOk(MoveSession(m, r))
    ensures RefOk(MoveSession(m, r), r.sid)
  {
    var m' := MoveSession(m, r);
    var sd := m'.sessionMap[r.sid];
    MoveSessionIsAppend(m, r);
    assert InRange(m', sd) && Target(m', sd) == Cell(r.sid, r.client, Slice(|m.connBlocks|, 0));
    forall p, k: nat | p in m'.participants && k < m'.participants[p].len
        && CellAt(m', p, k).conns.block == Target(m', sd).conns.block
      ensures CellAt(m', p, k).conns.len <= Target(m', sd).conns.len
    {
      AddedCells(m, m', r.pid, r.sid, r.client, p, k);
    }
    assert Last(m', sd, r.pid);
  }

  lemma {:induction false} MoveSessionRefs(m: Memory, r: Row)
    requires MemOk(m) && RefsOk(m) && r.pid in m.participants && r.sid !in m.sessionMap
    ensures MemOk(MoveSession(m, r)) && RefsOk(MoveSession(m, r))
  {
    var m' := MoveSession(m, r);
    MoveSessionIsAppend(m, r);
    AddSessionMemOk(m, m', r.pid, r.sid, r.client);
    forall sid | sid in m'.sessionMap ensures RefOk(m', sid) {
      if sid == r.sid {
        MoveSessionNewRef(m, r);
      } else {
        MoveSessionRef(m, r, sid);
      }
    }
  }

  // A new connection.

  lemma {:induction false} MoveConnCell(m: Memory, sd: Ref, c: Connection, p: int, k: nat)
    requires MemOk(m) && InRange(m, sd) && p in m.participants && k < m.participants[p].len
    ensures SlicesOk(MoveConn(m, sd, c))
    ensures CellAt(MoveConn(m, sd, c), p, k)
         == if sd == Ref(m.participants[p].block, k)
            then CellAt(m, p, k).(conns := Slice(|m.connBlocks|, CellAt(m, p, k).conns.len + 1)) else CellAt(m, p, k)
  {
  }

  lemma {:induction false} MoveConnRef(m: Memory, sid: int, c: Connection, other: int)
    requires MemOk(m) && RefsOk(m) && sid in m.sessionMap && other in m.sessionMap && RefOk(m, sid)
    requires MemOk(MoveConn(m, m.sessionMap[sid], c))
    ensures RefOk(MoveConn(m, m.sessionMap[sid], c), other)
  {
    var sd, sd' := m.sessionMap[sid], m.sessionMap[other];
    var m' := MoveConn(m, sd, c);
    assert RefOk(m, other);
    assert InRange(m', sd');
    assert other != sid ==> Target(m', sd') == Target(m, sd');
    forall p, k: nat | p in m'.participants && k < m'.participants[p].len
        && CellAt(m', p, k).conns.block == Target(m', sd').conns.block
      ensures CellAt(m', p, k).conns.len <= Target(m', sd').conns.len
    {
      MoveConnCell(m, sd, c, p, k);
      assert SliceOk(m.connBlocks, CellAt(m, p, k).conns);
    }
    if p :| Last(m, sd', p) {
      assert Last(m', sd', p);
    }
  }

  lemma {:induction false} MoveConnRefs(m: Memory, sid: int, c: Connection)
    requires MemOk(m) && RefsOk(m) && sid in m.sessionMap && RefOk(m, sid) && MemOk(MoveConn(m, m.sessionMap[sid], c))
    ensures RefsOk(MoveConn(m, m.sessionMap[sid], c))
  {
    var m' := MoveConn(m, m.sessionMap[sid], c);
    forall other | other in m'.sessionMap ensures RefOk(m', other) {
      MoveConnRef(m, sid, c, other);
    }
  }

  /** A write through a stale pointer shows nowhere, and leaves the pointers to last sessions alone. */
  lemma {:induction false} MoveConnStale(m: Memory, sd: Ref, c: Connection)
    requires MemOk(m) && LastRefs(m) && InRange(m, sd) && Stale(m, sd) && NoLonger(m, Target(m, sd).conns)
    ensures var m' := MoveConn(m, sd, c);
      MemOk(m') && LastRefs(m') && forall p | p in m.participants :: View(m', p) == View(m, p)
  {
    var m' := MoveConn(m, sd, c);
    MoveConnIsAppend(m, sd, c);
    StaleWriteLost(m, m', sd, c, Slice(|m.connBlocks|, Target(m, sd).conns.len + 1));
    forall p | p in m'.participants && m'.participants[p].len > 0
      ensures var last := m'.participants[p].len - 1;
        && CellAt(m', p, last).id in m'.sessionMap
        && m'.sessionMap[CellAt(m', p, last).id] == Ref(m'.participants[p].block, last)
    {
      MoveConnCell(m, sd, c, p, m.participants[p].len - 1);
    }
  }

  // One row.

  predicate EndsWith(g: seq<Session>, sid: int) {
    g != [] && g[|g| - 1].id == sid
  }

  /** What the row makes of its participant's sessions once its session is there. */
  function LossyWrite(g: seq<Session>, r: Row): seq<Session> {
    if EndsWith(g, r.sid) then Extended(g, r) else g
  }

  lemma {:induction false} OpenMoving(m: Memory, r: Row) returns (mid: Memory)
    requires MemOk(m) && LastRefs(m) && RefsOk(m) && r.pid in m.participants
    ensures if r.sid in m.sessionMap then mid == m else SessionAdded(m, mid, r.pid, r.sid, r.client)
    ensures InOrder(m, mid, r.pid, Opened(View(m, r.pid), r, r.sid !in m.sessionMap)) && RefsOk(mid)
    ensures mid.sessionMap.Keys == m.sessionMap.Keys + {r.sid}
  {
    mid := m;
    if r.sid !in m.sessionMap {
      mid := MoveSession(m, r);
      MoveSessionIsAppend(m, r);
      MoveSessionRefs(m, r);
    }
    OpenStep(m, mid, r);
  }

  lemma {:induction false} WriteMoving(mid: Memory, r: Row) returns (m': Memory, conns': Slice)
    requires MemOk(mid) && LastRefs(mid) && RefsOk(mid) && r.pid in mid.participants && r.sid in mid.sessionMap
    requires EndsWith(View(mid, r.pid), r.sid) || Stale(mid, mid.sessionMap[r.sid])
    ensures if r.conn.None? then m' == mid else WrittenThrough(mid, m', mid.sessionMap[r.sid], r.conn.value, conns')
    ensures InOrder(mid, m', r.pid, LossyWrite(View(mid, r.pid), r)) && RefsOk(m') && m'.sessionMap == mid.sessionMap
  {
    m', conns' := mid, Slice(0, 0);
    assert RefOk(mid, r.sid);
    if r.conn.Some? {
      var sd, c := mid.sessionMap[r.sid], r.conn.value;
      m', conns' := MoveConn(mid, sd, c), Slice(|mid.connBlocks|, Target(mid, sd).conns.len + 1);
      MoveConnIsAppend(mid, sd, c);
      if EndsWith(View(mid, r.pid), r.sid) {
        WriteStep(mid, m', r, conns');
      } else {
        MoveConnStale(mid, sd, c);
      }
      MoveConnRefs(mid, r.sid, c);
    }
  }

  // Any number of rows.

  /** The sessions of the first n rows. */
  function Seen(rows: seq<Row>, n: nat): set<int>
    requires n <= |rows|
  {
    set i | 0 <= i < n :: rows[i].sid
  }

  /** Memory shows the lossy sessions of the first n rows, and has a pointer for each session in them. */
  ghost predicate Lossily(m: Memory, rows: seq<Row>, n: nat)
    requires n <= |rows| && MemOk(m)
  {
    (forall p | p in m.participants :: ShowsLossy(m, rows, n, p)) && m.sessionMap.Keys == Seen(rows, n)
  }

  ghost predicate ShowsLossy(m: Memory, rows: seq<Row>, n: nat, p: int)
    requires n <= |rows| && MemOk(m) && p in m.participants
  {
    View(m, p) == Lossy(rows[..n], p)
  }

  lemma {:induction false} SeenIsListed(rows: seq<Row>, n: nat)
    requires n < |rows| && SessionsConsistent(rows)
    ensures rows[n].sid in Seen(rows, n) <==> rows[n].sid in SessionIds(rows[..n], rows[n].pid)
  {
    SessionIdsIn(rows[..n], rows[n].pid, rows[n].sid);
    assert forall i | 0 <= i < n :: rows[..n][i] == rows[i];
  }

  lemma {:induction false} LossySnoc(front: seq<Row>, r: Row, p: int)
    ensures var g := Lossy(front, p);
      Lossy(front + [r], p)
      == if r.pid == p then LossyWrite(Opened(g, r, r.sid !in SessionIds(front, p)), r) else g
  {
  }

  lemma {:induction false} LossyRow(rows: seq<Row>, n: nat, p: int)
    requires n < |rows| && SessionsConsistent(rows)
    ensures var r, g := rows[n], Lossy(rows[..n], p);
      Lossy(rows[..n + 1], p)
      == if r.pid == p then LossyWrite(Opened(g, r, r.sid !in Seen(rows, n)), r) else g
  {
    assert rows[..n + 1] == rows[..n] + [rows[n]];
    LossySnoc(rows[..n], rows[n], p);
    SeenIsListed(rows, n);
  }

  /** A session that is nobody's last is reached by a stale pointer only. */
  lemma {:induction false} NobodysLastIsStale(m: Memory, sid: int)
    requires MemOk(m) && sid in m.sessionMap && RefOk(m, sid)
    requires forall p | p in m.participants :: !EndsWith(View(m, p), sid)
    ensures Stale(m, m.sessionMap[sid])
  {
  }

  lemma {:induction false} NotLastIsStale(m: Memory, mid: Memory, rows: seq<Row>, n: nat)
    requires n < |rows| && SessionsConsistent(rows) && MemOk(m) && Lossily(m, rows, n) && rows[n].pid in m.participants
    requires InOrder(m, mid, rows[n].pid, Opened(View(m, rows[n].pid), rows[n], rows[n].sid !in m.sessionMap))
    requires rows[n].sid in mid.sessionMap && RefOk(mid, rows[n].sid) && !EndsWith(View(mid, rows[n].pid), rows[n].sid)
    ensures Stale(mid, mid.sessionMap[rows[n].sid])
  {
    forall p | p in mid.participants ensures !EndsWith(View(mid, p), rows[n].sid) {
      if p != rows[n].pid {
        assert ShowsLossy(m, rows, n, p) && View(mid, p) == View(m, p);
        NotAmong(rows, n, p);
      }
    }
    NobodysLastIsStale(mid, rows[n].sid);
  }

  lemma {:induction false} NotAmong(rows: seq<Row>, n: nat, p: int)
    requires n < |rows| && SessionsConsistent(rows) && rows[n].pid != p
    ensures forall k | 0 <= k < |Lossy(rows[..n], p)| :: Lossy(rows[..n], p)[k].id != rows[n].sid
  {
    LossyIds(rows[..n], p);
    SessionIdsIn(rows[..n], p, rows[n].sid);
    assert forall i | 0 <= i < n :: rows[..n][i] == rows[i];
  }

  ghost predicate Moving(m: Memory, rows: seq<Row>, n: int, keys: set<int>) {
    0 <= n <= |rows| && MemOk(m) && LastRefs(m) && RefsOk(m) && Lossily(m, rows, n) && m.participants.Keys == keys
  }

  lemma {:induction false} MovingStep(m: Memory, rows: seq<Row>, n: nat, keys: set<int>) returns (m': Memory)
    requires n < |rows| && SessionsConsistent(rows) && Moving(m, rows, n, keys) && rows[n].pid in keys
    ensures RowStep(m, rows[n], m') && Moving(m', rows, n + 1, keys)
  {
    var r := rows[n];
    var mid := OpenMoving(m, r);
    if !EndsWith(View(mid, r.pid), r.sid) {
      assert RefOk(mid, r.sid);
      NotLastIsStale(m, mid, rows, n);
    }
    var conns';
    m', conns' := WriteMoving(mid, r);
    assert Stepped(m, r, mid, m', conns');
    MovedRow(m, mid, m', rows, n);
  }

  lemma {:induction false} MovedRow(m: Memory, mid: Memory, m': Memory, rows: seq<Row>, n: nat)
    requires n < |rows| && SessionsConsistent(rows) && MemOk(m) && Lossily(m, rows, n) && rows[n].pid in m.participants
    requires InOrder(m, mid, rows[n].pid, Opened(View(m, rows[n].pid), rows[n], rows[n].sid !in m.sessionMap))
    requires InOrder(mid, m', rows[n].pid, LossyWrite(View(mid, rows[n].pid), rows[n]))
    requires mid.sessionMap.Keys == m.sessionMap.Keys + {rows[n].sid} && m'.sessionMap == mid.sessionMap
    ensures Lossily(m', rows, n + 1)
  {
    MovedViews(m, mid, m', rows, n);
    SeenNext(rows, n);
  }

  lemma {:induction false} SeenNext(rows: seq<Row>, n: nat)
    requires n < |rows|
    ensures Seen(rows, n + 1) == Seen(rows, n) + {rows[n].sid}
  {
  }

  lemma {:induction false} MovedViews(m: Memory, mid: Memory, m': Memory, rows: seq<Row>, n: nat)
    requires n < |rows| && SessionsConsistent(rows) && MemOk(m) && Lossily(m, rows, n) && rows[n].pid in m.participants
    requires InOrder(m, mid, rows[n].pid, Opened(View(m, rows[n].pid), rows[n], rows[n].sid !in m.sessionMap))
    requires InOrder(mid, m', rows[n].pid, LossyWrite(View(mid, rows[n].pid), rows[n]))
    ensures forall p | p in m'.participants :: ShowsLossy(m', rows, n + 1, p)
  {
    forall p | p in m'.participants ensures ShowsLossy(m', rows, n + 1, p) {
      assert ShowsLossy(m, rows, n, p);
      assert p != rows[n].pid ==> View(m', p) == View(m, p);
      MovedView(m, m', rows, n, p);
    }
  }

  lemma {:induction false} MovedView(m: Memory, m': Memory, rows: seq<Row>, n: nat, p: int)
    requires n < |rows| && SessionsConsistent(rows) && MemOk(m) && MemOk(m') && p in m.participants && p in m'.participants
    requires ShowsLossy(m, rows, n, p) && m.sessionMap.Keys == Seen(rows, n)
    requires p != rows[n].pid ==> View(m', p) == View(m, p)
    requires p == rows[n].pid ==>
      View(m', p) == LossyWrite(Opened(View(m, p), rows[n], rows[n].sid !in m.sessionMap), rows[n])
    ensures ShowsLossy(m', rows, n + 1, p)
  {
    LossyRow(rows, n, p);
  }

  /** Says which state a successor is wanted for. */
  ghost predicate Asked(i: int, m: Memory) { true }

  ghost predicate HasNext(good: (int, Memory) -> bool, step: (int, Memory, Memory) -> bool, i: int, m: Memory) {
    exists m' :: step(i, m, m') && good(i + 1, m')
  }

  /** If every good state has a good successor, there is a run of good states. */
  lemma {:induction false} BuildRun(good: (int, Memory) -> bool, step: (int, Memory, Memory) -> bool, start: Memory, n: nat, max: nat)
    returns (mems: seq<Memory>)
    requires good(0, start) && n <= max
    requires forall i, m | Asked(i, m) && 0 <= i < max && good(i, m) :: HasNext(good, step, i, m)
    ensures |mems| == n + 1 && mems[0] == start && good(n, mems[n])
    ensures forall i | 0 <= i < n :: step(i, mems[i], mems[i + 1])
  {
    if n == 0 {
      mems := [start];
    } else {
      var before := BuildRun(good, step, start, n - 1, max);
      assert Asked(n - 1, before[n - 1]) && HasNext(good, step, n - 1, before[n - 1]);
      var m' :| step(n - 1, before[n - 1], m') && good(n, m');
      mems := before + [m'];
      forall i | 0 <= i < n ensures step(i, mems[i], mems[i + 1]) {
        assert mems[i] == before[i];
        assert mems[i + 1] == if i < n - 1 then before[i + 1] else m';
      }
    }
  }

  /** Moving its arrays every time, append leads to a memory that shows the lossy sessions. */
  lemma {:induction false} MovingRun(start: Memory, people: seq<Person>, rows: seq<Row>) returns (mems: seq<Memory>)
    requires SessionsConsistent(rows) && Starts(start, people) && RowsListed(people, rows)
    ensures Reads(mems, rows, |rows|) && mems[0] == start && Moving(mems[|rows|], rows, |rows|, start.participants.Keys)
  {
    var keys := start.participants.Keys;
    var good := (i: int, m: Memory) => Moving(m, rows, i, keys);
    var step := (i: int, m: Memory, m': Memory) => 0 <= i < |rows| && RowStep(m, rows[i], m');
    assert good(0, start) by { StartsMoving(start, people, rows); }
    forall i | 0 <= i < |rows| ensures rows[i].pid in keys {
      assert Listed(people, rows[i].pid);
    }
    mems := MovingRunFrom(good, step, start, rows, keys);
    forall i | 0 <= i < |rows| ensures RowStep(mems[i], rows[i], mems[i + 1]) {
      assert step(i, mems[i], mems[i + 1]);
    }
    assert good(|rows|, mems[|rows|]);
  }

  lemma {:induction false} MovingRunFrom(good: (int, Memory) -> bool, step: (int, Memory, Memory) -> bool, start: Memory,
                                         rows: seq<Row>, keys: set<int>) returns (mems: seq<Memory>)
    requires SessionsConsistent(rows) && (forall i | 0 <= i < |rows| :: rows[i].pid in keys) && good(0, start)
    requires forall i, m :: good(i, m) == Moving(m, rows, i, keys)
    requires forall i, m, m' :: step(i, m, m') == (0 <= i < |rows| && RowStep(m, rows[i], m'))
    ensures |mems| == |rows| + 1 && mems[0] == start && good(|rows|, mems[|rows|])
    ensures forall i | 0 <= i < |rows| :: step(i, mems[i], mems[i + 1])
  {
    forall i, m | Asked(i, m) && 0 <= i < |rows| && good(i, m) ensures HasNext(good, step, i, m) {
      var m' := MovingStep(m, rows, i, keys);
      assert step(i, m, m') && good(i + 1, m');
    }
    mems := BuildRun(good, step, start, |rows|, |rows|);
  }

  lemma {:induction false} StartsMoving(start: Memory, people: seq<Person>, rows: seq<Row>)
    requires Starts(start, people)
    ensures Moving(start, rows, 0, start.participants.Keys)
  {
  }

  /** Where a row is lost, the lossy sessions are not the group-by. */
  lemma {:induction false} LossyIsNotTree(rows: seq<Row>, n: nat)
    requires SessionsConsistent(rows) && n < |rows| && rows[n].conn.Some? && !Kept(rows[..n], rows[n])
    ensures Lossy(rows, rows[n].pid) != GroupBy(rows, rows[n].pid)
  {
    var pid, sid := rows[n].pid, rows[n].sid;
    SessionIdsIn(rows, pid, sid);
    var k :| 0 <= k < |SessionIds(rows, pid)| && SessionIds(rows, pid)[k] == sid;
    LossyIds(rows, pid);
    LossyConns(rows, pid, k);
    LostForGood(rows, n);
    assert GroupBy(rows, pid)[k].conns == ConnsOf(rows, sid);
  }

  /**
   * For the rows of a LEFT JOIN: whatever append does the tree is right exactly when each session's rows stand
   * together within its participant.
   */
  lemma {:induction false} TreeExactlyWhen(start: Memory, people: seq<Person>, rows: seq<Row>)
    requires Starts(start, people) && RowsListed(people, rows) && SessionsConsistent(rows) && LeftJoin(rows)
    ensures AlwaysTree(start, people, rows) <==> SessionsTogether(rows)
  {
    if SessionsTogether(rows) {
      forall mems | Reads(mems, rows, |rows|) && mems[0] == start ensures ShowsTree(mems[|rows|], people, rows) {
        TogetherShowsTree(mems, people, rows);
      }
    } else {
      var mems := MovingRun(start, people, rows);
      var n := SomeLost(rows);
      ShownIsLost(mems[|rows|], people, rows, n, start.participants.Keys);
    }
  }

  lemma {:induction false} ShownIsLost(m: Memory, people: seq<Person>, rows: seq<Row>, n: nat, keys: set<int>)
    requires SessionsConsistent(rows) && RowsListed(people, rows) && Moving(m, rows, |rows|, keys)
    requires n < |rows| && rows[n].conn.Some? && !Kept(rows[..n], rows[n])
    ensures !ShowsTree(m, people, rows)
  {
    var pid := rows[n].pid;
    assert Listed(people, pid);
    LossyIsNotTree(rows, n);
    assert rows[..|rows|] == rows;
    if pid in m.participants {
      assert ShowsLossy(m, rows, |rows|, pid);
    }
  }
}

/**
 * services/query-api/handler/conference_detail.go and share.go: assembling the conference tree from
 * the flat LEFT JOIN rows, through saved pointers into slices that keep growing.
 *
 * The part of the Go heap the loop touches is explicit: a slice is a block number and a length, a
 * block is a backing array (its length is the capacity), append writes in place or moves to a new
 * block, and a pointer to a slice element is a block and an index. A moved slice leaves the old
 * block behind, so a pointer saved before the move no longer reaches the live element.
 */
module ConferenceTree {
  import opened Common

  datatype Connection = Connection(
    id: int, peerID: string, startedAt: int, endedAt: Option<int>, iceState: string, codecAudio: string, codecVideo: string)

  datatype Client = Client(browser: string, os: string, country: string, city: string, networkType: string)

  /** One row of sessions LEFT JOIN connections. */
  datatype Row = Row(sid: int, pid: int, client: Client, conn: Option<Connection>)

  /** A session of the result. */
  datatype Session = Session(id: int, client: Client, conns: seq<Connection>)

  // ----- the nested group-by ---------------------------------------------------------

  /** The participant's session ids in order of first appearance. */
  function SessionIds(rows: seq<Row>, pid: int): seq<int> {
    if rows == [] then []
    else
      var ids, r := SessionIds(rows[..|rows| - 1], pid), rows[|rows| - 1];
      if r.pid == pid && r.sid !in ids then ids + [r.sid] else ids
  }

  /** The session's connections in row order. */
  function ConnsOf(rows: seq<Row>, sid: int): seq<Connection> {
    if rows == [] then []
    else
      var r := rows[|rows| - 1];
      ConnsOf(rows[..|rows| - 1], sid) + if r.sid == sid && r.conn.Some? then [r.conn.value] else []
  }

  /** The client columns of the session's first row. */
  function ClientOf(rows: seq<Row>, sid: int): Option<Client> {
    if rows == [] then None
    else
      var earlier, r := ClientOf(rows[..|rows| - 1], sid), rows[|rows| - 1];
      if earlier.None? && r.sid == sid then Some(r.client) else earlier
  }

  function SessionOf(rows: seq<Row>, sid: int): Session {
    var client := ClientOf(rows, sid);
    Session(sid, if client.Some? then client.value else Client("", "", "", "", ""), ConnsOf(rows, sid))
  }

  function GroupBy(rows: seq<Row>, pid: int): seq<Session> {
    var ids := SessionIds(rows, pid);
    seq(|ids|, k requires 0 <= k < |ids| => SessionOf(rows, ids[k]))
  }

  /** Rows of one session come from one sessions row. */
  predicate SessionsConsistent(rows: seq<Row>) {
    forall i, j | 0 <= i < |rows| && 0 <= j < |rows| && rows[i].sid == rows[j].sid ::
      rows[i].pid == rows[j].pid && rows[i].client == rows[j].client
  }

  /** Within a participant's rows, each session's rows stand together. */
  predicate SessionsTogether(rows: seq<Row>) {
    forall i, j, k | 0 <= i < j < k < |rows| && rows[i].sid == rows[k].sid && rows[j].pid == rows[i].pid ::
      rows[j].sid == rows[i].sid
  }

  /** ORDER BY participant, then session. */
  predicate Ordered(rows: seq<Row>) {
    forall i, j | 0 <= i < j < |rows| ::
      rows[i].pid < rows[j].pid || (rows[i].pid == rows[j].pid && rows[i].sid <= rows[j].sid)
  }

  /** The SQL ORDER BY gives what the pointer code relies on. */
  lemma {:induction false} OrderedKeepsTogether(rows: seq<Row>)
    requires Ordered(rows) && SessionsConsistent(rows)
    ensures SessionsTogether(rows)
  {
  }

  // ----- facts about the group-by ----------------------------------------------------

  lemma {:induction false} SessionIdsIn(rows: seq<Row>, pid: int, sid: int)
    ensures sid in SessionIds(rows, pid) <==> exists i :: 0 <= i < |rows| && rows[i].pid == pid && rows[i].sid == sid
  {
    if rows != [] {
      var n := |rows| - 1;
      SessionIdsIn(rows[..n], pid, sid);
      assert forall i | 0 <= i < n :: rows[..n][i] == rows[i];
    }
  }

  lemma {:induction false} SessionIdsDistinct(rows: seq<Row>, pid: int)
    ensures forall a, b | 0 <= a < b < |SessionIds(rows, pid)| :: SessionIds(rows, pid)[a] != SessionIds(rows, pid)[b]
  {
    if rows != [] {
      SessionIdsDistinct(rows[..|rows| - 1], pid);
    }
  }

  lemma {:induction false} NoRowsNoSession(rows: seq<Row>, sid: int)
    requires forall i | 0 <= i < |rows| :: rows[i].sid != sid
    ensures ConnsOf(rows, sid) == [] && ClientOf(rows, sid) == None
  {
    if rows != [] {
      NoRowsNoSession(rows[..|rows| - 1], sid);
    }
  }

  lemma {:induction false} ClientOfIs(rows: seq<Row>, i: nat)
    requires i < |rows| && SessionsConsistent(rows)
    ensures ClientOf(rows, rows[i].sid) == Some(rows[i].client)
  {
    var n := |rows| - 1;
    assert rows[..n] + [rows[n]] == rows;
    if i < n {
      ClientOfIs(rows[..n], i);
    } else if j :| 0 <= j < n && rows[j].sid == rows[n].sid {
      ClientOfIs(rows[..n], j);
      assert rows[..n][j] == rows[j];
    } else {
      NoRowsNoSession(rows[..n], rows[n].sid);
    }
  }

  /** A row of another participant leaves a participant's group-by alone. */
  lemma {:induction false} GroupByOther(rows: seq<Row>, n: nat, pid: int)
    requires n < |rows| && SessionsConsistent(rows) && rows[n].pid != pid
    ensures GroupBy(rows[..n + 1], pid) == GroupBy(rows[..n], pid)
  {
    var before, after := rows[..n], rows[..n + 1];
    assert after[..n] == before;
    var ids := SessionIds(before, pid);
    forall k | 0 <= k < |ids| ensures SessionOf(after, ids[k]) == SessionOf(before, ids[k]) {
      SessionIdsIn(before, pid, ids[k]);
      var i :| 0 <= i < n && before[i].pid == pid && before[i].sid == ids[k];
      assert rows[i].sid != rows[n].sid;
    }
  }

  /** The first row of a session appends the session. */
  lemma {:induction false} GroupByNew(rows: seq<Row>, n: nat)
    requires n < |rows| && SessionsConsistent(rows)
    requires forall i | 0 <= i < n :: rows[i].sid != rows[n].sid
    ensures var r := rows[n];
      GroupBy(rows[..n + 1], r.pid)
      == GroupBy(rows[..n], r.pid) + [Session(r.sid, r.client, if r.conn.Some? then [r.conn.value] else [])]
  {
    var before, after, r := rows[..n], rows[..n + 1], rows[n];
    assert after[..n] == before;
    var ids := SessionIds(before, r.pid);
    SessionIdsIn(before, r.pid, r.sid);
    NoRowsNoSession(before, r.sid);
    forall k | 0 <= k < |ids| ensures SessionOf(after, ids[k]) == SessionOf(before, ids[k]) {
    }
    assert SessionOf(after, r.sid) == Session(r.sid, r.client, if r.conn.Some? then [r.conn.value] else []);
  }

  /** A further row of a participant's last session adds to that session. */
  lemma {:induction false} GroupByAgain(rows: seq<Row>, n: nat)
    requires n < |rows| && SessionsConsistent(rows) && SessionsTogether(rows)
    requires exists i :: 0 <= i < n && rows[i].sid == rows[n].sid
    ensures var r, g := rows[n], GroupBy(rows[..n], rows[n].pid);
      && g != [] && g[|g| - 1].id == r.sid
      && GroupBy(rows[..n + 1], r.pid)
         == g[..|g| - 1] + [g[|g| - 1].(conns := g[|g| - 1].conns + if r.conn.Some? then [r.conn.value] else [])]
  {
    var before, after, r := rows[..n], rows[..n + 1], rows[n];
    assert after[..n] == before;
    var ids := SessionIds(before, r.pid);
    LastSession(rows, n);
    assert SessionIds(after, r.pid) == ids;
    var i :| 0 <= i < n && rows[i].sid == rows[n].sid;
    ClientOfIs(before, i);
    forall k | 0 <= k < |ids| - 1 ensures SessionOf(after, ids[k]) == SessionOf(before, ids[k]) {
      SessionIdsDistinct(before, r.pid);
      assert ids[k] != r.sid;
    }
  }

  /** A session whose rows resume is still its participant's last. */
  lemma {:induction false} LastSession(rows: seq<Row>, n: nat)
    requires n < |rows| && SessionsConsistent(rows) && SessionsTogether(rows)
    requires exists i :: 0 <= i < n && rows[i].sid == rows[n].sid
    ensures var ids := SessionIds(rows[..n], rows[n].pid); ids != [] && ids[|ids| - 1] == rows[n].sid
  {
    var i :| 0 <= i < n && rows[i].sid == rows[n].sid;
    LastSessionFrom(rows, i, n, n);
  }

  lemma {:induction false} LastSessionFrom(rows: seq<Row>, i: nat, m: nat, n: nat)
    requires i < m <= n < |rows| && SessionsConsistent(rows) && SessionsTogether(rows) && rows[i].sid == rows[n].sid
    ensures var ids := SessionIds(rows[..m], rows[n].pid); ids != [] && ids[|ids| - 1] == rows[n].sid
    decreases m
  {
    assert rows[..m][..m - 1] == rows[..m - 1];
    var ids := SessionIds(rows[..m - 1], rows[n].pid);
    if m - 1 > i {
      LastSessionFrom(rows, i, m - 1, n);
    } else if rows[i].sid in ids {
      SessionIdsIn(rows[..m - 1], rows[n].pid, rows[i].sid);
      var j :| 0 <= j < m - 1 && rows[..m - 1][j].pid == rows[n].pid && rows[..m - 1][j].sid == rows[i].sid;
      LastSessionFrom(rows, j, m - 1, n);
    }
  }

  /** A participant's sessions once r's session is among them. */
  function Opened(g: seq<Session>, r: Row, isNew: bool): seq<Session> {
    if isNew then g + [Session(r.sid, r.client, [])] else g
  }

  /** A participant's sessions once r's connection, if any, is in the last of them. */
  function Extended(g: seq<Session>, r: Row): seq<Session> {
    if r.conn.None? || g == [] then g
    else
      var last := g[|g| - 1];
      g[..|g| - 1] + [last.(conns := last.conns + [r.conn.value])]
  }

  lemma {:induction false} ExtendNew(g: seq<Session>, r: Row)
    ensures Extended(Opened(g, r, true), r) == g + [Session(r.sid, r.client, if r.conn.Some? then [r.conn.value] else [])]
  {
    var g2 := Opened(g, r, true);
    assert g2[..|g2| - 1] == g;
    assert r.conn.Some? ==> [] + [r.conn.value] == [r.conn.value];
  }

  lemma {:induction false} ExtendLast(g: seq<Session>, r: Row)
    requires g != []
    ensures Extended(g, r)
         == g[..|g| - 1] + [g[|g| - 1].(conns := g[|g| - 1].conns + if r.conn.Some? then [r.conn.value] else [])]
  {
    if r.conn.None? {
      assert g[|g| - 1].conns + [] == g[|g| - 1].conns;
      assert g[..|g| - 1] + [g[|g| - 1]] == g;
    }
  }

  /** One row, in the two steps the code takes. */
  lemma {:induction false} GroupByRow(rows: seq<Row>, n: nat, isNew: bool)
    requires n < |rows| && SessionsConsistent(rows) && SessionsTogether(rows)
    requires isNew <==> !exists i :: 0 <= i < n && rows[i].sid == rows[n].sid
    ensures var g := Opened(GroupBy(rows[..n], rows[n].pid), rows[n], isNew);
      && g != [] && g[|g| - 1].id == rows[n].sid
      && GroupBy(rows[..n + 1], rows[n].pid) == Extended(g, rows[n])
  {
    var g := GroupBy(rows[..n], rows[n].pid);
    if isNew {
      GroupByNew(rows, n);
      ExtendNew(g, rows[n]);
    } else {
      GroupByAgain(rows, n);
      ExtendLast(g, rows[n]);
    }
  }

  // ----- Go slices -------------------------------------------------------------------

  datatype Slice = Slice(block: nat, len: nat)

  predicate SliceOk<T>(blocks: seq<seq<T>>, s: Slice) { s.block < |blocks| && s.len <= |blocks[s.block]| }

  function Elements<T>(blocks: seq<seq<T>>, s: Slice): seq<T>
    requires SliceOk(blocks, s)
  {
    blocks[s.block][..s.len]
  }

  /** What append may do: write behind the length in place, or leave the old block and use a new one. */
  ghost predicate Appended<T>(blocks: seq<seq<T>>, s: Slice, x: T, blocks': seq<seq<T>>, s': Slice)
    requires SliceOk(blocks, s)
  {
    && |blocks| <= |blocks'| && SliceOk(blocks', s') && s'.len == s.len + 1
    && Elements(blocks', s') == Elements(blocks, s) + [x]
    && (s'.block == s.block || s'.block >= |blocks|)
    && (forall b | 0 <= b < |blocks| && b != s'.block :: blocks'[b] == blocks[b])
  }

  /** Go's append, free to reallocate at any time and to any capacity. */
  method Append<T>(blocks: seq<seq<T>>, s: Slice, x: T) returns (blocks': seq<seq<T>>, s': Slice)
    requires SliceOk(blocks, s)
    ensures Appended(blocks, s, x, blocks', s')
  {
    var move: bool := *;
    if s.len < |blocks[s.block]| && !move {
      blocks' := blocks[s.block := blocks[s.block][s.len := x]];
      s' := Slice(s.block, s.len + 1);
    } else {
      var spare: seq<T> := *;
      blocks' := blocks + [blocks[s.block][..s.len] + [x] + spare];
      s' := Slice(|blocks|, s.len + 1);
    }
    assert Elements(blocks', s') == Elements(blocks, s) + [x];
  }

  /** A SessionDetail in memory: its Connections field is itself a slice. */
  datatype Cell = Cell(id: int, client: Client, conns: Slice)

  /** &p.Sessions[index] for a slice with this backing array. */
  datatype Ref = Ref(block: nat, index: nat)

  /** participants holds the Sessions slice of each entry of participantMap. */
  datatype Memory = Memory(
    sessionBlocks: seq<seq<Cell>>, connBlocks: seq<seq<Connection>>, participants: map<int, Slice>, sessionMap: map<int, Ref>)

  ghost predicate SlicesOk(m: Memory) {
    forall p | p in m.participants :: SliceOk(m.sessionBlocks, m.participants[p])
  }

  function CellAt(m: Memory, p: int, k: nat): Cell
    requires SlicesOk(m) && p in m.participants && k < m.participants[p].len
  {
    m.sessionBlocks[m.participants[p].block][k]
  }

  /** Participants share no backing array, and neither do the connection lists of live sessions. */
  ghost predicate MemOk(m: Memory) {
    && SlicesOk(m)
    && (forall p, q | p in m.participants && q in m.participants && p != q ::
          m.participants[p].block != m.participants[q].block)
    && (forall p, k: nat | p in m.participants && k < m.participants[p].len :: SliceOk(m.connBlocks, CellAt(m, p, k).conns))
    && (forall p, q, k: nat, l: nat
          | p in m.participants && q in m.participants && k < m.participants[p].len && l < m.participants[q].len
            && (p != q || k != l) ::
          CellAt(m, p, k).conns.block != CellAt(m, q, l).conns.block)
  }

  /** The saved pointer of each participant's last session still reaches the live element. */
  ghost predicate LastRefs(m: Memory)
    requires SlicesOk(m)
  {
    forall p | p in m.participants && m.participants[p].len > 0 ::
      var last := m.participants[p].len - 1;
      && CellAt(m, p, last).id in m.sessionMap
      && m.sessionMap[CellAt(m, p, last).id] == Ref(m.participants[p].block, last)
  }

  function SessionAt(m: Memory, p: int, k: nat): Session
    requires MemOk(m) && p in m.participants && k < m.participants[p].len
  {
    var c := CellAt(m, p, k);
    Session(c.id, c.client, Elements(m.connBlocks, c.conns))
  }

  /** The sessions of a participant as the final response would show them now. */
  function View(m: Memory, p: int): seq<Session>
    requires MemOk(m) && p in m.participants
  {
    seq(m.participants[p].len, k requires 0 <= k < m.participants[p].len => SessionAt(m, p, k))
  }

  // ----- a new session ---------------------------------------------------------------

  /** p.Sessions = append(p.Sessions, newSD); sessionMap[sID] = &p.Sessions[len-1]. */
  ghost predicate SessionAdded(m: Memory, m': Memory, p: int, id: int, client: Client)
    requires SlicesOk(m) && p in m.participants
  {
    && m'.connBlocks == m.connBlocks + [[]]
    && p in m'.participants && m'.participants == m.participants[p := m'.participants[p]]
    && Appended(m.sessionBlocks, m.participants[p], Cell(id, client, Slice(|m.connBlocks|, 0)),
                m'.sessionBlocks, m'.participants[p])
    && m'.sessionMap == m.sessionMap[id := Ref(m'.participants[p].block, m.participants[p].len)]
  }

  lemma {:induction false} AddedCells(m: Memory, m': Memory, p: int, id: int, client: Client, q: int, k: nat)
    requires MemOk(m) && p in m.participants && SessionAdded(m, m', p, id, client)
    requires q in m'.participants && k < m'.participants[q].len
    ensures SlicesOk(m')
    ensures q == p && k == m.participants[p].len ==> CellAt(m', q, k) == Cell(id, client, Slice(|m.connBlocks|, 0))
    ensures !(q == p && k == m.participants[p].len) ==>
      q in m.participants && k < m.participants[q].len && CellAt(m', q, k) == CellAt(m, q, k)
  {
  }

  lemma {:induction false} AddedSlices(m: Memory, m': Memory, p: int, id: int, client: Client)
    requires MemOk(m) && p in m.participants && SessionAdded(m, m', p, id, client)
    ensures SlicesOk(m')
    ensures forall q, r | q in m'.participants && r in m'.participants && q != r ::
      m'.participants[q].block != m'.participants[r].block
  {
  }

  lemma {:induction false} AddSessionMemOk(m: Memory, m': Memory, p: int, id: int, client: Client)
    requires MemOk(m) && p in m.participants && SessionAdded(m, m', p, id, client)
    ensures MemOk(m')
  {
    AddedSlices(m, m', p, id, client);
    forall q, k: nat | q in m'.participants && k < m'.participants[q].len
      ensures SliceOk(m'.connBlocks, CellAt(m', q, k).conns)
    {
      AddedCells(m, m', p, id, client, q, k);
    }
    forall q, r, k: nat, l: nat
      | q in m'.participants && r in m'.participants && k < m'.participants[q].len && l < m'.participants[r].len
        && (q != r || k != l)
      ensures CellAt(m', q, k).conns.block != CellAt(m', r, l).conns.block
    {
      AddedCells(m, m', p, id, client, q, k);
      AddedCells(m, m', p, id, client, r, l);
    }
  }

  lemma {:induction false} AddSessionView(m: Memory, m': Memory, p: int, id: int, client: Client)
    requires MemOk(m) && MemOk(m') && p in m.participants && SessionAdded(m, m', p, id, client)
    ensures View(m', p) == View(m, p) + [Session(id, client, [])]
    ensures forall q | q in m.participants && q != p :: View(m', q) == View(m, q)
  {
    forall q, k: nat | q in m'.participants && k < m'.participants[q].len
      ensures q == p && k == m.participants[p].len ==> SessionAt(m', q, k) == Session(id, client, [])
      ensures !(q == p && k == m.participants[p].len) ==>
        q in m.participants && k < m.participants[q].len && SessionAt(m', q, k) == SessionAt(m, q, k)
    {
      AddedCells(m, m', p, id, client, q, k);
    }
  }

  lemma {:induction false} AddSessionRefs(m: Memory, m': Memory, p: int, id: int, client: Client)
    requires MemOk(m) && MemOk(m') && LastRefs(m) && p in m.participants && SessionAdded(m, m', p, id, client)
    requires id !in m.sessionMap
    ensures LastRefs(m')
  {
    forall q | q in m'.participants && m'.participants[q].len > 0
      ensures var last := m'.participants[q].len - 1;
        && CellAt(m', q, last).id in m'.sessionMap
        && m'.sessionMap[CellAt(m', q, last).id] == Ref(m'.participants[q].block, last)
    {
      AddedCells(m, m', p, id, client, q, m'.participants[q].len - 1);
    }
  }

  // ----- a new connection ------------------------------------------------------------

  /** sd.Connections = append(sd.Connections, ...) where sd points at p's last session. */
  ghost predicate ConnAdded(m: Memory, m': Memory, p: int, c: Connection, conns': Slice)
    requires MemOk(m) && p in m.participants && m.participants[p].len > 0
  {
    var s := m.participants[p];
    var cell := CellAt(m, p, s.len - 1);
    && m'.participants == m.participants && m'.sessionMap == m.sessionMap
    && Appended(m.connBlocks, cell.conns, c, m'.connBlocks, conns')
    && m'.sessionBlocks == m.sessionBlocks[s.block := m.sessionBlocks[s.block][s.len - 1 := cell.(conns := conns')]]
  }

  lemma {:induction false} ConnCells(m: Memory, m': Memory, p: int, c: Connection, conns': Slice, q: int, k: nat)
    requires MemOk(m) && p in m.participants && m.participants[p].len > 0 && ConnAdded(m, m', p, c, conns')
    requires q in m.participants && k < m.participants[q].len
    ensures SlicesOk(m')
    ensures CellAt(m', q, k)
         == if q == p && k == m.participants[p].len - 1 then CellAt(m, q, k).(conns := conns') else CellAt(m, q, k)
  {
  }

  lemma {:induction false} AddConnMemOk(m: Memory, m': Memory, p: int, c: Connection, conns': Slice)
    requires MemOk(m) && p in m.participants && m.participants[p].len > 0 && ConnAdded(m, m', p, c, conns')
    ensures MemOk(m')
  {
    forall q, k: nat | q in m'.participants && k < m'.participants[q].len
      ensures SliceOk(m'.connBlocks, CellAt(m', q, k).conns)
    {
      ConnCells(m, m', p, c, conns', q, k);
    }
    forall q, r, k: nat, l: nat
      | q in m'.participants && r in m'.participants && k < m'.participants[q].len && l < m'.participants[r].len
        && (q != r || k != l)
      ensures CellAt(m', q, k).conns.block != CellAt(m', r, l).conns.block
    {
      ConnCells(m, m', p, c, conns', q, k);
      ConnCells(m, m', p, c, conns', r, l);
    }
  }

  lemma {:induction false} AddConnView(m: Memory, m': Memory, p: int, c: Connection, conns': Slice)
    requires MemOk(m) && MemOk(m') && p in m.participants && m.participants[p].len > 0 && ConnAdded(m, m', p, c, conns')
    ensures var v := View(m, p); var n := |v| - 1;
      View(m', p) == v[..n] + [v[n].(conns := v[n].conns + [c])]
    ensures forall q | q in m.participants && q != p :: View(m', q) == View(m, q)
  {
  }

  lemma {:induction false} AddConnRefs(m: Memory, m': Memory, p: int, c: Connection, conns': Slice)
    requires MemOk(m) && MemOk(m') && LastRefs(m)
    requires p in m.participants && m.participants[p].len > 0 && ConnAdded(m, m', p, c, conns')
    ensures LastRefs(m')
  {
  }

  // ----- why the rows must come session by session -----------------------------------

  /** sd.Connections = append(sd.Connections, ...) through any saved pointer. */
  ghost predicate WrittenThrough(m: Memory, m': Memory, sd: Ref, c: Connection, conns': Slice) {
    && sd.block < |m.sessionBlocks| && sd.index < |m.sessionBlocks[sd.block]|
    && var cell := m.sessionBlocks[sd.block][sd.index];
    && SliceOk(m.connBlocks, cell.conns) && Appended(m.connBlocks, cell.conns, c, m'.connBlocks, conns')
    && m'.participants == m.participants && m'.sessionMap == m.sessionMap
    && m'.sessionBlocks == m.sessionBlocks[sd.block := m.sessionBlocks[sd.block][sd.index := cell.(conns := conns')]]
  }

  /** The live copies of a connection list are no longer than the one the pointer reaches. */
  ghost predicate NoLonger(m: Memory, conns: Slice)
    requires MemOk(m)
  {
    forall p, k: nat | p in m.participants && k < m.participants[p].len && CellAt(m, p, k).conns.block == conns.block ::
      CellAt(m, p, k).conns.len <= conns.len
  }

  /**
   * Once append has moved a participant's sessions, a pointer into the old array is stale: what is written
   * through it shows in no response. Only a session that is still the last one can be written to.
   */
  lemma {:induction false} StaleWriteLost(m: Memory, m': Memory, sd: Ref, c: Connection, conns': Slice)
    requires MemOk(m) && WrittenThrough(m, m', sd, c, conns')
    requires NoLonger(m, m.sessionBlocks[sd.block][sd.index].conns)
    requires forall p | p in m.participants :: m.participants[p].block != sd.block
    ensures MemOk(m') && forall p | p in m.participants :: View(m', p) == View(m, p)
  {
    forall p, k: nat | p in m.participants && k < m.participants[p].len
      ensures SlicesOk(m') && CellAt(m', p, k) == CellAt(m, p, k)
    {
    }
    var conns := m.sessionBlocks[sd.block][sd.index].conns;
    forall p, k: nat | p in m.participants && k < m.participants[p].len
      ensures SliceOk(m'.connBlocks, CellAt(m, p, k).conns)
      ensures Elements(m'.connBlocks, CellAt(m, p, k).conns) == Elements(m.connBlocks, CellAt(m, p, k).conns)
    {
      PrefixStays(m.connBlocks, m'.connBlocks, conns, c, conns', CellAt(m, p, k).conns);
    }
  }

  /** Appending leaves every slice that is no longer than the one appended to as it was. */
  lemma {:induction false} PrefixStays<T>(blocks: seq<seq<T>>, blocks': seq<seq<T>>, s: Slice, x: T, s': Slice, t: Slice)
    requires SliceOk(blocks, s) && SliceOk(blocks, t) && Appended(blocks, s, x, blocks', s')
    requires t.block == s.block ==> t.len <= s.len
    ensures SliceOk(blocks', t) && Elements(blocks', t) == Elements(blocks, t)
  {
  }

  /** An append that moves leaves the pointers to the earlier sessions in an array no participant uses. */
  lemma {:induction false} MovedSessionsGoStale(m: Memory, m': Memory, p: int, id: int, client: Client)
    requires MemOk(m) && p in m.participants && SessionAdded(m, m', p, id, client)
    requires m'.participants[p].block != m.participants[p].block
    ensures forall q | q in m'.participants :: m'.participants[q].block != m.participants[p].block
  {
  }

  // ----- the loop --------------------------------------------------------------------

  /** After n rows, memory shows the group-by of those rows. */
  ghost predicate Assembled(m: Memory, rows: seq<Row>, n: nat)
    requires n <= |rows| && MemOk(m)
  {
    && (forall p | p in m.participants :: ShowsGroupBy(m, rows, n, p))
    && (forall sid :: sid in m.sessionMap.Keys <==> SeenBefore(rows, n, sid))
  }

  ghost predicate ShowsGroupBy(m: Memory, rows: seq<Row>, n: nat, p: int)
    requires n <= |rows| && MemOk(m) && p in m.participants
  {
    View(m, p) == GroupBy(rows[..n], p)
  }

  ghost predicate SeenBefore(rows: seq<Row>, n: nat, sid: int)
    requires n <= |rows|
  {
    exists i :: 0 <= i < n && rows[i].sid == sid
  }

  /** A participants row. */
  datatype Person = Person(id: int, userID: string, displayName: string, joinedAt: int, leftAt: Option<int>)

  /** A participant of the response. */
  datatype Participant = Participant(person: Person, sessions: seq<Session>)

  ghost predicate DistinctPeople(people: seq<Person>) {
    forall i, j | 0 <= i < j < |people| :: people[i].id != people[j].id
  }

  ghost predicate Listed(people: seq<Person>, pid: int) {
    exists j :: 0 <= j < |people| && people[j].id == pid
  }

  /** What the queries promise: consistent rows, session by session, of the listed participants. */
  ghost predicate RowsOk(rows: seq<Row>, people: seq<Person>) {
    && DistinctPeople(people) && SessionsConsistent(rows) && SessionsTogether(rows)
    && forall i | 0 <= i < |rows| :: Listed(people, rows[i].pid)
  }

  /** The response the rows stand for: participants in query order, each with its group-by. */
  function Tree(people: seq<Person>, rows: seq<Row>): seq<Participant> {
    seq(|people|, i requires 0 <= i < |people| => Participant(people[i], GroupBy(rows, people[i].id)))
  }

  lemma {:induction false} RowAssembled(m: Memory, m': Memory, rows: seq<Row>, n: nat)
    requires n < |rows| && SessionsConsistent(rows) && MemOk(m) && Assembled(m, rows, n)
    requires MemOk(m') && m'.participants.Keys == m.participants.Keys
    requires m'.sessionMap.Keys == m.sessionMap.Keys + {rows[n].sid}
    requires rows[n].pid in m.participants && View(m', rows[n].pid) == GroupBy(rows[..n + 1], rows[n].pid)
    requires forall q | q in m.participants && q != rows[n].pid :: View(m', q) == View(m, q)
    ensures Assembled(m', rows, n + 1)
  {
    forall p | p in m'.participants ensures ShowsGroupBy(m', rows, n + 1, p) {
      assert ShowsGroupBy(m, rows, n, p);
      if p != rows[n].pid {
        GroupByOther(rows, n, p);
      }
    }
    SeenOneMore(m.sessionMap.Keys, rows, n);
  }

  lemma {:induction false} SeenOneMore(keys: set<int>, rows: seq<Row>, n: nat)
    requires n < |rows| && forall sid :: sid in keys <==> SeenBefore(rows, n, sid)
    ensures forall sid :: sid in keys + {rows[n].sid} <==> SeenBefore(rows, n + 1, sid)
  {
  }

  /** Memory after one row, whatever append does: mid is in between, after the session. */
  ghost predicate Stepped(m: Memory, r: Row, mid: Memory, m': Memory, conns': Slice) {
    && SlicesOk(m) && r.pid in m.participants
    && (if r.sid in m.sessionMap then mid == m else SessionAdded(m, mid, r.pid, r.sid, r.client))
    && r.sid in mid.sessionMap
    && (if r.conn.None? then m' == mid else WrittenThrough(mid, m', mid.sessionMap[r.sid], r.conn.value, conns'))
  }

  ghost predicate RowStep(m: Memory, r: Row, m': Memory) {
    exists mid, conns' :: Stepped(m, r, mid, m', conns')
  }

  /** The memory is in order, and p's sessions are g while all others' are as in m. */
  ghost predicate InOrder(m: Memory, m': Memory, p: int, g: seq<Session>)
    requires MemOk(m)
  {
    && MemOk(m') && LastRefs(m') && m'.participants.Keys == m.participants.Keys && p in m.participants
    && View(m', p) == g && forall q | q in m.participants && q != p :: View(m', q) == View(m, q)
  }

  lemma {:induction false} OpenStep(m: Memory, mid: Memory, r: Row)
    requires MemOk(m) && LastRefs(m) && r.pid in m.participants
    requires if r.sid in m.sessionMap then mid == m else SessionAdded(m, mid, r.pid, r.sid, r.client)
    ensures InOrder(m, mid, r.pid, Opened(View(m, r.pid), r, r.sid !in m.sessionMap))
    ensures mid.sessionMap.Keys == m.sessionMap.Keys + {r.sid}
  {
    if r.sid !in m.sessionMap {
      AddSessionMemOk(m, mid, r.pid, r.sid, r.client);
      AddSessionView(m, mid, r.pid, r.sid, r.client);
      AddSessionRefs(m, mid, r.pid, r.sid, r.client);
    }
  }

  lemma {:induction false} WriteStep(mid: Memory, m': Memory, r: Row, conns': Slice)
    requires MemOk(mid) && LastRefs(mid) && r.pid in mid.participants && r.sid in mid.sessionMap
    requires View(mid, r.pid) != [] && View(mid, r.pid)[|View(mid, r.pid)| - 1].id == r.sid
    requires if r.conn.None? then m' == mid else WrittenThrough(mid, m', mid.sessionMap[r.sid], r.conn.value, conns')
    ensures InOrder(mid, m', r.pid, Extended(View(mid, r.pid), r)) && m'.sessionMap == mid.sessionMap
  {
    if r.conn.Some? {
      assert SessionAt(mid, r.pid, mid.participants[r.pid].len - 1).id == r.sid;
      assert ConnAdded(mid, m', r.pid, r.conn.value, conns');
      AddConnMemOk(mid, m', r.pid, r.conn.value, conns');
      AddConnView(mid, m', r.pid, r.conn.value, conns');
      AddConnRefs(mid, m', r.pid, r.conn.value, conns');
    }
  }

  /** Once a row's session is there, it is its participant's last. */
  lemma {:induction false} LastToWrite(m: Memory, rows: seq<Row>, n: nat)
    requires n < |rows| && SessionsConsistent(rows) && SessionsTogether(rows)
    requires MemOk(m) && Assembled(m, rows, n) && rows[n].pid in m.participants
    ensures var g := Opened(View(m, rows[n].pid), rows[n], rows[n].sid !in m.sessionMap);
      g != [] && g[|g| - 1].id == rows[n].sid
  {
    var r := rows[n];
    assert ShowsGroupBy(m, rows, n, r.pid);
    assert r.sid in m.sessionMap.Keys <==> SeenBefore(rows, n, r.sid);
    GroupByRow(rows, n, r.sid !in m.sessionMap);
  }

  /** One more row keeps memory showing the group-by, whatever append does. */
  lemma {:induction false} StepAssembled(m: Memory, m': Memory, rows: seq<Row>, n: nat)
    requires n < |rows| && SessionsConsistent(rows) && SessionsTogether(rows)
    requires MemOk(m) && LastRefs(m) && Assembled(m, rows, n) && RowStep(m, rows[n], m')
    ensures MemOk(m') && LastRefs(m') && Assembled(m', rows, n + 1) && m'.participants.Keys == m.participants.Keys
  {
    var r := rows[n];
    var mid, conns' :| Stepped(m, r, mid, m', conns');
    assert ShowsGroupBy(m, rows, n, r.pid);
    assert r.sid in m.sessionMap.Keys <==> SeenBefore(rows, n, r.sid);
    GroupByRow(rows, n, r.sid !in m.sessionMap);
    OpenStep(m, mid, r);
    WriteStep(mid, m', r, conns');
    RowAssembled(m, m', rows, n);
  }

  /** Memory before the first row: an empty Sessions slice of its own for each participant, and no pointer saved. */
  ghost predicate Starts(m: Memory, people: seq<Person>) {
    && (forall p :: p in m.participants <==> Listed(people, p))
    && SlicesOk(m) && (forall p | p in m.participants :: m.participants[p].len == 0)
    && (forall p, q | p in m.participants && q in m.participants && p != q ::
          m.participants[p].block != m.participants[q].block)
    && m.sessionMap == map[]
  }

  lemma {:induction false} StartsNext(m: Memory, people: seq<Person>, i: nat)
    requires i < |people| && Starts(m, people[..i])
    ensures Starts(m.(participants := m.participants[people[i].id := Slice(|m.sessionBlocks|, 0)],
                      sessionBlocks := m.sessionBlocks + [[]]), people[..i + 1])
  {
  }

  lemma {:induction false} StartsAssembled(m: Memory, people: seq<Person>)
    requires Starts(m, people)
    ensures MemOk(m) && LastRefs(m) && forall rows: seq<Row> :: Assembled(m, rows, 0)
  {
  }

  class Assembler {
    var mem: Memory

    /** Query 2: one entry of participantMap, with an empty Sessions slice, per participant. */
    constructor (people: seq<Person>)
      ensures Starts(mem, people)
      ensures MemOk(mem) && LastRefs(mem) && forall rows: seq<Row> :: Assembled(mem, rows, 0)
    {
      mem := Memory([], [], map[], map[]);
      new;
      for i := 0 to |people|
        invariant Starts(mem, people[..i])
      {
        StartsNext(mem, people, i);
        mem := mem.(participants := mem.participants[people[i].id := Slice(|mem.sessionBlocks|, 0)],
                    sessionBlocks := mem.sessionBlocks + [[]]);
      }
      assert people[..|people|] == people;
      StartsAssembled(mem, people);
    }

    /** The first row of a session. */
    method AddSession(r: Row)
      requires MemOk(mem) && LastRefs(mem) && r.pid in mem.participants && r.sid !in mem.sessionMap
      modifies this
      ensures SessionAdded(old(mem), mem, r.pid, r.sid, r.client)
      ensures MemOk(mem) && LastRefs(mem) && mem.participants.Keys == old(mem.participants.Keys)
      ensures mem.sessionMap.Keys == old(mem.sessionMap.Keys) + {r.sid}
      ensures View(mem, r.pid) == Opened(old(View(mem, r.pid)), r, true)
      ensures forall q | q in mem.participants && q != r.pid :: View(mem, q) == old(View(mem, q))
    {
      ghost var m := mem;
      var cell := Cell(r.sid, r.client, Slice(|mem.connBlocks|, 0));
      var blocks, s := Append(mem.sessionBlocks, mem.participants[r.pid], cell);
      mem := Memory(blocks, mem.connBlocks + [[]], mem.participants[r.pid := s],
                    mem.sessionMap[r.sid := Ref(s.block, s.len - 1)]);
      AddSessionMemOk(m, mem, r.pid, r.sid, r.client);
      AddSessionView(m, mem, r.pid, r.sid, r.client);
      AddSessionRefs(m, mem, r.pid, r.sid, r.client);
    }

    /** A row with a connection, written through the pointer saved for its session. */
    method AddConnection(r: Row) returns (ghost conns': Slice)
      requires MemOk(mem) && LastRefs(mem) && r.conn.Some? && r.pid in mem.participants
      requires View(mem, r.pid) != [] && View(mem, r.pid)[|View(mem, r.pid)| - 1].id == r.sid
      modifies this
      ensures r.sid in old(mem).sessionMap
      ensures WrittenThrough(old(mem), mem, old(mem).sessionMap[r.sid], r.conn.value, conns')
      ensures MemOk(mem) && LastRefs(mem) && mem.participants.Keys == old(mem.participants.Keys)
      ensures mem.sessionMap.Keys == old(mem.sessionMap.Keys)
      ensures View(mem, r.pid) == Extended(old(View(mem, r.pid)), r)
      ensures forall q | q in mem.participants && q != r.pid :: View(mem, q) == old(View(mem, q))
    {
      ghost var m := mem;
      assert SessionAt(m, r.pid, m.participants[r.pid].len - 1).id == r.sid;
      var sd := mem.sessionMap[r.sid];
      var cell := mem.sessionBlocks[sd.block][sd.index];
      var blocks, conns := Append(mem.connBlocks, cell.conns, r.conn.value);
      mem := mem.(
        connBlocks := blocks,
        sessionBlocks := mem.sessionBlocks[sd.block := mem.sessionBlocks[sd.block][sd.index := cell.(conns := conns)]]);
      AddConnMemOk(m, mem, r.pid, r.conn.value, conns);
      AddConnView(m, mem, r.pid, r.conn.value, conns);
      AddConnRefs(m, mem, r.pid, r.conn.value, conns);
      return conns;
    }

    /** The row loop of query 3. */
    method ReadRows(rows: seq<Row>)
      requires MemOk(mem) && LastRefs(mem) && Assembled(mem, rows, 0) && SessionsConsistent(rows) && SessionsTogether(rows)
      requires forall i | 0 <= i < |rows| :: rows[i].pid in mem.participants
      modifies this
      ensures mem.participants.Keys == old(mem.participants.Keys)
      ensures MemOk(mem) && Assembled(mem, rows, |rows|)
    {
      for n := 0 to |rows|
        invariant mem.participants.Keys == old(mem.participants.Keys)
        invariant MemOk(mem) && LastRefs(mem)
        invariant Assembled(mem, rows, n)
      {
        ReadRow(rows, n);
      }
    }

    /** The loop body: the session when it is new, and the connection when the LEFT JOIN matched one. */
    method ReadRow(rows: seq<Row>, n: nat)
      requires n < |rows| && SessionsConsistent(rows) && SessionsTogether(rows)
      requires MemOk(mem) && LastRefs(mem) && Assembled(mem, rows, n) && rows[n].pid in mem.participants
      modifies this
      ensures RowStep(old(mem), rows[n], mem)
      ensures mem.participants.Keys == old(mem.participants.Keys)
      ensures MemOk(mem) && LastRefs(mem)
      ensures Assembled(mem, rows, n + 1)
    {
      ghost var m := mem;
      var r := rows[n];
      LastToWrite(m, rows, n);
      if r.sid !in mem.sessionMap {
        AddSession(r);
      }
      ghost var mid, conns' := mem, Slice(0, 0);
      if r.conn.Some? {
        conns' := AddConnection(r);
      }
      assert Stepped(m, r, mid, mem, conns');
      StepAssembled(m, mem, rows, n);
    }

    /** The final loop: copy each participant out in joined_at order. */
    method Collect(people: seq<Person>, rows: seq<Row>) returns (tree: seq<Participant>)
      requires MemOk(mem) && Assembled(mem, rows, |rows|) && forall i | 0 <= i < |people| :: people[i].id in mem.participants
      ensures tree == Tree(people, rows)
    {
      tree := [];
      for i := 0 to |people|
        invariant tree == Tree(people, rows)[..i]
      {
        assert ShowsGroupBy(mem, rows, |rows|, people[i].id) && rows[..|rows|] == rows;
        tree := tree + [Participant(people[i], View(mem, people[i].id))];
      }
    }
  }

  lemma {:induction false} NobodyNoRows(rows: seq<Row>, people: seq<Person>)
    requires RowsOk(rows, people)
    ensures people == [] ==> rows == []
  {
    if rows != [] {
      assert Listed(people, rows[0].pid);
    }
  }

  /**
   * The whole assembly. Whatever append does, the response is the nested group-by of the rows; both
   * handlers run these same statements.
   */
  method Assemble(people: seq<Person>, rows: seq<Row>) returns (tree: seq<Participant>)
    requires RowsOk(rows, people)
    ensures tree == Tree(people, rows)
    ensures |tree| == |people| && forall i | 0 <= i < |people| :: tree[i].person == people[i]
    ensures forall i | 0 <= i < |people| :: HoldsRows(tree[i].sessions, people[i].id, rows)
  {
    var a := new Assembler(people);
    NobodyNoRows(rows, people);
    forall i | 0 <= i < |people| ensures people[i].id in a.mem.participants {
      assert Listed(people, people[i].id);
    }
    if |people| > 0 {
      a.ReadRows(rows);
    }
    tree := a.Collect(people, rows);
    TreeHolds(people, rows);
  }

  // ----- the tree loses nothing ------------------------------------------------------

  /** LEFT JOIN: a session without connections has exactly one row, a NULL one. */
  predicate LeftJoin(rows: seq<Row>) {
    forall i, j | 0 <= i < |rows| && 0 <= j < |rows| && i != j && rows[i].sid == rows[j].sid :: rows[i].conn.Some?
  }

  /** The rows a session of the tree stands for. */
  function SessionRows(s: Session, pid: int): seq<Row> {
    if s.conns == [] then [Row(s.id, pid, s.client, None)]
    else seq(|s.conns|, k requires 0 <= k < |s.conns| => Row(s.id, pid, s.client, Some(s.conns[k])))
  }

  function Flatten(g: seq<Session>, pid: int): seq<Row> {
    if g == [] then [] else Flatten(g[..|g| - 1], pid) + SessionRows(g[|g| - 1], pid)
  }

  function RowsOf(rows: seq<Row>, pid: int): seq<Row> {
    if rows == [] then []
    else RowsOf(rows[..|rows| - 1], pid) + if rows[|rows| - 1].pid == pid then [rows[|rows| - 1]] else []
  }

  lemma {:induction false} FlattenSnoc(g: seq<Session>, s: Session, pid: int)
    ensures Flatten(g + [s], pid) == Flatten(g, pid) + SessionRows(s, pid)
  {
  }

  /** The last session of a participant who has rows of it already carries a connection. */
  lemma {:induction false} ConnsNotEmpty(rows: seq<Row>, i: nat)
    requires i < |rows| && rows[i].conn.Some?
    ensures ConnsOf(rows, rows[i].sid) != []
  {
    var n := |rows| - 1;
    if i < n {
      ConnsNotEmpty(rows[..n], i);
    }
  }

  lemma {:induction false} MoreRows(s: Session, r: Row)
    requires r.conn.Some? && s.id == r.sid && s.client == r.client && s.conns != []
    ensures SessionRows(s.(conns := s.conns + [r.conn.value]), r.pid) == SessionRows(s, r.pid) + [r]
  {
  }

  lemma {:induction false} FlattenExtended(g: seq<Session>, r: Row)
    requires r.conn.Some? && g != []
    requires var last := g[|g| - 1]; last.id == r.sid && last.client == r.client && last.conns != []
    ensures Flatten(Extended(g, r), r.pid) == Flatten(g, r.pid) + [r]
  {
    var last, front := g[|g| - 1], g[..|g| - 1];
    var last' := last.(conns := last.conns + [r.conn.value]);
    assert Flatten(g, r.pid) == Flatten(front, r.pid) + SessionRows(last, r.pid) by {
      FlattenSnoc(front, last, r.pid);
      assert g == front + [last];
    }
    assert Flatten(Extended(g, r), r.pid) == Flatten(front, r.pid) + SessionRows(last', r.pid) by {
      FlattenSnoc(front, last', r.pid);
      assert Extended(g, r) == front + [last'];
    }
    MoreRows(last, r);
  }

  lemma {:induction false} FlattenNew(g: seq<Session>, r: Row)
    ensures Flatten(Extended(Opened(g, r, true), r), r.pid) == Flatten(g, r.pid) + [r]
  {
  }

  /** What GroupBy shows for a session that has rows before n. */
  lemma {:induction false} LastShown(rows: seq<Row>, n: nat, i: nat)
    requires i < n < |rows| && SessionsConsistent(rows) && SessionsTogether(rows) && LeftJoin(rows)
    requires rows[i].sid == rows[n].sid
    ensures var g := GroupBy(rows[..n], rows[n].pid);
      g != [] && g[|g| - 1].id == rows[n].sid && g[|g| - 1].client == rows[n].client && g[|g| - 1].conns != []
  {
    LastSession(rows, n);
    ConnsNotEmpty(rows[..n], i);
    ClientOfIs(rows[..n], i);
  }

  lemma {:induction false} FlattenRow(rows: seq<Row>, n: nat)
    requires n < |rows| && SessionsConsistent(rows) && SessionsTogether(rows) && LeftJoin(rows)
    ensures Flatten(GroupBy(rows[..n + 1], rows[n].pid), rows[n].pid)
         == Flatten(GroupBy(rows[..n], rows[n].pid), rows[n].pid) + [rows[n]]
  {
    var r, g := rows[n], GroupBy(rows[..n], rows[n].pid);
    if i :| 0 <= i < n && rows[i].sid == r.sid {
      GroupByRow(rows, n, false);
      LastShown(rows, n, i);
      FlattenExtended(g, r);
    } else {
      GroupByRow(rows, n, true);
      FlattenNew(g, r);
    }
  }

  /** Flattening a participant's sessions gives back that participant's rows, in order. */
  lemma {:induction false} FlattenInvertsGroupBy(rows: seq<Row>, n: nat, pid: int)
    requires n <= |rows| && SessionsConsistent(rows) && SessionsTogether(rows) && LeftJoin(rows)
    ensures Flatten(GroupBy(rows[..n], pid), pid) == RowsOf(rows[..n], pid)
  {
    if n == 0 {
      assert SessionIds(rows[..0], pid) == [];
    } else {
      FlattenInvertsGroupBy(rows, n - 1, pid);
      assert rows[..n][..n - 1] == rows[..n - 1];
      if rows[n - 1].pid == pid {
        FlattenRow(rows, n - 1);
      } else {
        GroupByOther(rows, n - 1, pid);
      }
    }
  }

  /**
   * The sessions are those of the participant's rows, each once; for the rows of a LEFT JOIN they stand for
   * exactly the rows that carry the participant's id, in order and as often as they occur.
   */
  ghost predicate HoldsRows(g: seq<Session>, pid: int, rows: seq<Row>) {
    && (forall a, b | 0 <= a < b < |g| :: g[a].id != g[b].id)
    && (forall sid :: HasSession(g, sid) <==> exists j :: 0 <= j < |rows| && rows[j].pid == pid && rows[j].sid == sid)
    && (LeftJoin(rows) ==>
          && Flatten(g, pid) == RowsOf(rows, pid) && IsSubsequence(Flatten(g, pid), rows)
          && forall r :: multiset(Flatten(g, pid))[r] == if r.pid == pid then multiset(rows)[r] else 0)
  }

  ghost predicate HasSession(g: seq<Session>, sid: int) {
    exists k :: 0 <= k < |g| && g[k].id == sid
  }

  lemma {:induction false} RowsOfCount(rows: seq<Row>, pid: int, r: Row)
    ensures multiset(RowsOf(rows, pid))[r] == if r.pid == pid then multiset(rows)[r] else 0
  {
    if rows != [] {
      var n := |rows| - 1;
      RowsOfCount(rows[..n], pid, r);
      assert rows == rows[..n] + [rows[n]];
    }
  }

  lemma {:induction false} RowsOfInOrder(rows: seq<Row>, pid: int) returns (idx: seq<nat>)
    ensures SubsequenceAt(RowsOf(rows, pid), rows, idx)
  {
    idx := [];
    if rows != [] {
      var n := |rows| - 1;
      idx := RowsOfInOrder(rows[..n], pid);
      if rows[n].pid == pid {
        idx := idx + [n];
      }
    }
  }

  lemma {:induction false} GroupBySessions(rows: seq<Row>, pid: int, sid: int)
    ensures HasSession(GroupBy(rows, pid), sid) <==> exists j :: 0 <= j < |rows| && rows[j].pid == pid && rows[j].sid == sid
  {
    var g, ids := GroupBy(rows, pid), SessionIds(rows, pid);
    SessionIdsIn(rows, pid, sid);
    if sid in ids {
      var k :| 0 <= k < |ids| && ids[k] == sid;
      assert g[k].id == sid;
    }
  }

  lemma {:induction false} GroupByRows(rows: seq<Row>, pid: int)
    requires SessionsConsistent(rows) && SessionsTogether(rows) && LeftJoin(rows)
    ensures var flat := Flatten(GroupBy(rows, pid), pid);
      flat == RowsOf(rows, pid) && IsSubsequence(flat, rows)
      && forall r :: multiset(flat)[r] == if r.pid == pid then multiset(rows)[r] else 0
  {
    FlattenInvertsGroupBy(rows, |rows|, pid);
    assert rows[..|rows|] == rows;
    var idx := RowsOfInOrder(rows, pid);
    forall r ensures multiset(RowsOf(rows, pid))[r] == if r.pid == pid then multiset(rows)[r] else 0 {
      RowsOfCount(rows, pid, r);
    }
  }

  lemma {:induction false} GroupByHolds(rows: seq<Row>, pid: int)
    requires SessionsConsistent(rows) && SessionsTogether(rows)
    ensures HoldsRows(GroupBy(rows, pid), pid, rows)
  {
    SessionIdsDistinct(rows, pid);
    forall sid
      ensures HasSession(GroupBy(rows, pid), sid) <==> exists j :: 0 <= j < |rows| && rows[j].pid == pid && rows[j].sid == sid
    {
      GroupBySessions(rows, pid, sid);
    }
    if LeftJoin(rows) {
      GroupByRows(rows, pid);
    }
  }

  lemma {:induction false} TreeHolds(people: seq<Person>, rows: seq<Row>)
    requires RowsOk(rows, people)
    ensures forall i | 0 <= i < |people| :: HoldsRows(Tree(people, rows)[i].sessions, people[i].id, rows)
  {
    forall i | 0 <= i < |people| ensures HoldsRows(Tree(people, rows)[i].sessions, people[i].id, rows) {
      GroupByHolds(rows, people[i].id);
    }
  }

  /** Every row of the input shows under the participant whose id it carries, and under nobody else. */
  lemma {:induction false} EveryRowOnce(tree: seq<Participant>, people: seq<Person>, rows: seq<Row>, r: Row, i: nat)
    requires RowsOk(rows, people) && LeftJoin(rows) && |tree| == |people| && r in rows && i < |people|
    requires forall j | 0 <= j < |people| :: tree[j].person == people[j] && HoldsRows(tree[j].sessions, people[j].id, rows)
    ensures r in Flatten(tree[i].sessions, tree[i].person.id) <==> r.pid == tree[i].person.id
    ensures exists j :: 0 <= j < |people| && tree[j].person.id == r.pid && r in Flatten(tree[j].sessions, r.pid)
  {
    var k :| 0 <= k < |rows| && rows[k] == r;
    assert Listed(people, rows[k].pid);
    var j :| 0 <= j < |people| && people[j].id == r.pid;
    assert multiset(rows)[r] > 0;
    assert multiset(Flatten(tree[j].sessions, r.pid))[r] > 0;
    assert r in multiset(Flatten(tree[i].sessions, people[i].id)) <==> r.pid == people[i].id;
  }

  // ----- the two handlers ------------------------------------------------------------

  datatype Conference = Conference(id: int, externalID: string, startedAt: int, endedAt: Option<int>, orgID: int)

  datatype Detail = Detail(id: int, externalID: string, startedAt: int, endedAt: Option<int>, participants: seq<Participant>)

  /** What both handlers answer for a conference the caller may see: its own columns, and everybody with their rows. */
  ghost predicate Shown(d: Detail, c: Conference, people: seq<Person>, rows: seq<Row>) {
    && d.id == c.id && d.externalID == c.externalID && d.startedAt == c.startedAt && d.endedAt == c.endedAt
    && d.participants == Tree(people, rows) && |d.participants| == |people|
    && forall i | 0 <= i < |people| ::
         d.participants[i].person == people[i] && HoldsRows(d.participants[i].sessions, people[i].id, rows)
  }

  datatype Response = NotFound | Forbidden | Found(detail: Detail)

  /** HandleGetConference, given what its three queries return. */
  method GetConference(conference: Option<Conference>, callerOrg: int, people: seq<Person>, rows: seq<Row>)
    returns (r: Response)
    requires RowsOk(rows, people)
    ensures r.NotFound? <==> conference.None?
    ensures r.Forbidden? <==> conference.Some? && conference.value.orgID != callerOrg
    ensures r.Found? ==> Shown(r.detail, conference.value, people, rows)
  {
    if conference.None? { return NotFound; }
    var c := conference.value;
    if c.orgID != callerOrg { return Forbidden; }
    var participants := Assemble(people, rows);
    return Found(Detail(c.id, c.externalID, c.startedAt, c.endedAt, participants));
  }

  /** fetchConferenceDetail: the share token's copy answers "no rows" where the other says 404 or 403. */
  method FetchConferenceDetail(conference: Option<Conference>, callerOrg: int, people: seq<Person>, rows: seq<Row>)
    returns (r: Option<Detail>)
    requires RowsOk(rows, people)
    ensures r.None? <==> conference.None? || conference.value.orgID != callerOrg
    ensures r.Some? ==> Shown(r.value, conference.value, people, rows)
  {
    if conference.None? || conference.value.orgID != callerOrg { return None; }
    var c := conference.value;
    var participants := Assemble(people, rows);
    return Some(Detail(c.id, c.externalID, c.startedAt, c.endedAt, participants));
  }
}

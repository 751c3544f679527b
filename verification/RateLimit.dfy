/**
 * internal/ratelimit/ratelimit.go: the sliding-window limiter. The Lua script prunes and adds to one sorted
 * set per key and lets the key expire; the specification keeps every grant for ever.
 */
module RateLimit {
  import opened Common
  import Decimal = Keys

  /** max and windowSecs may be anything, also zero or negative. */
  datatype Config = Config(max: int, windowSecs: int)

  /** A Redis key holding a sorted set: scores by member, and when the key expires (nanoseconds). */
  datatype ZSet = ZSet(scores: map<string, int>, expireAt: int)

  /** A key that ZADD has just created does not expire. */
  const Never: int := -1

  /** Redis keys; an empty sorted set does not exist as a key. */
  type Keys = map<string, ZSet>

  /**
   * One Allow: the clock reading t in nanoseconds, the unique member, the fault, and whether Redis has
   * dropped the key, which it may do from its expiry on.
   */
  datatype Call = Call(appID: string, t: int, uid: string, fault: Fault, dropped: bool)

  function Now(c: Call): int {
    c.t / Second
  }

  function KeyOf(appID: string): string {
    "ratelimit:" + appID
  }

  // ----- the script, as a function of one key ----------------------------------------

  function Live(keys: Keys, c: Call): map<string, int> {
    if KeyOf(c.appID) in keys && !c.dropped then keys[KeyOf(c.appID)].scores else map[]
  }

  /** ZREMRANGEBYSCORE key 0 last. */
  function Pruned(scores: map<string, int>, last: int): map<string, int> {
    map u | u in scores && !(0 <= scores[u] <= last) :: scores[u]
  }

  function Kept(cfg: Config, keys: Keys, c: Call): map<string, int> {
    Pruned(Live(keys, c), Now(c) - cfg.windowSecs)
  }

  predicate Decides(cfg: Config, keys: Keys, c: Call) {
    |Kept(cfg, keys, c)| < cfg.max
  }

  /** Pruning a set down to nothing deletes its key. */
  function PrunedKeys(cfg: Config, keys: Keys, c: Call): Keys {
    var key, kept := KeyOf(c.appID), Kept(cfg, keys, c);
    if key in keys && kept != map[] then keys[key := keys[key].(scores := kept)] else keys - {key}
  }

  /** The keys after the script: EXPIRE with a period that is not positive deletes the key at once. */
  function KeysAfter(cfg: Config, keys: Keys, c: Call): Keys {
    var key, pruned := KeyOf(c.appID), PrunedKeys(cfg, keys, c);
    if !Decides(cfg, keys, c) then pruned
    else if cfg.windowSecs <= 0 then pruned - {key}
    else pruned[key := ZSet(Kept(cfg, keys, c)[c.uid := Now(c)], c.t + cfg.windowSecs * Second)]
  }

  /** A grant is recorded under the whole second of its time, and its key lives for the window from then on. */
  lemma {:induction false} GrantIsRecorded(cfg: Config, keys: Keys, c: Call)
    requires Decides(cfg, keys, c) && cfg.windowSecs > 0
    ensures var key, keys' := KeyOf(c.appID), KeysAfter(cfg, keys, c);
      && key in keys' && c.uid in keys'[key].scores && keys'[key].scores[c.uid] == c.t / 1_000_000_000
      && keys'[key].expireAt == c.t + cfg.windowSecs * 1_000_000_000
  {
  }

  /** Where only one key differs, setting it gives the same keys. */
  lemma {:induction false} SameElsewhere(a: Keys, b: Keys, key: string, z: ZSet)
    requires a - {key} == b - {key}
    ensures a[key := z] == b[key := z]
  {
    assert forall k | k in a && k != key :: k in a - {key} && (a - {key})[k] == a[k];
    assert forall k | k in b && k != key :: k in b - {key} && (b - {key})[k] == b[k];
  }

  /** The limiter's Redis connection, with the keys it changes in place. */
  class RateLimiter {
    const cfg: Config
    var keys: Keys
    ghost var calls: seq<Call>

    /** The keys are what all calls so far have left. */
    ghost predicate Valid()
      reads this
    {
      CallsOk(cfg, calls) && keys == Run(cfg, calls)
    }

    constructor (cfg: Config)
      ensures Valid() && this.cfg == cfg && calls == []
    {
      this.cfg := cfg;
      keys, calls := map[], [];
    }

    /** ZREMRANGEBYSCORE, after Redis has dropped the key if it was over. */
    method RemoveRangeByScore(c: Call, last: int)
      requires last == Now(c) - cfg.windowSecs
      modifies this`keys
      ensures keys == PrunedKeys(cfg, old(keys), c)
    {
      var key := KeyOf(c.appID);
      if key in keys && !c.dropped {
        var kept := Pruned(keys[key].scores, last);
        keys := if kept == map[] then keys - {key} else keys[key := keys[key].(scores := kept)];
      } else {
        assert Kept(cfg, keys, c) == map[];
        keys := keys - {key};
      }
    }

    method Cardinality(key: string) returns (n: nat)
      ensures n == if key in keys then |keys[key].scores| else 0
    {
      n := if key in keys then |keys[key].scores| else 0;
    }

    method Add(key: string, score: int, member: string)
      modifies this`keys
      ensures key in keys && keys - {key} == old(keys) - {key}
      ensures keys[key].scores == (if key in old(keys) then old(keys)[key].scores else map[])[member := score]
    {
      if key in keys {
        keys := keys[key := keys[key].(scores := keys[key].scores[member := score])];
      } else {
        keys := keys[key := ZSet(map[member := score], Never)];
      }
    }

    method Expire(key: string, t: int, periodSecs: int)
      requires key in keys
      modifies this`keys
      ensures keys == if periodSecs <= 0 then old(keys) - {key}
                      else old(keys)[key := ZSet(old(keys)[key].scores, t + periodSecs * Second)]
    {
      if periodSecs <= 0 {
        keys := keys - {key};
      } else {
        keys := keys[key := keys[key].(expireAt := t + periodSecs * Second)];
      }
    }

    /** The Lua script, command by command. */
    method RunScript(c: Call) returns (granted: bool)
      modifies this`keys
      ensures granted == Decides(cfg, old(keys), c)
      ensures keys == KeysAfter(cfg, old(keys), c)
    {
      var key, now := KeyOf(c.appID), Now(c);
      RemoveRangeByScore(c, now - cfg.windowSecs);
      ghost var pruned := keys;
      var count := Cardinality(key);
      assert (if key in keys then keys[key].scores else map[]) == Kept(cfg, old(keys), c);
      if count >= cfg.max {
        return false;
      }
      Add(key, now, c.uid);
      ghost var added := keys;
      Expire(key, c.t, cfg.windowSecs);
      SameElsewhere(pruned, added, key, ZSet(added[key].scores, c.t + cfg.windowSecs * Second));
      return true;
    }

    /**
     * Fails open: an error from Redis allows the request, whether or not the script ran. Otherwise the answer is
     * the one the whole history of calls gives.
     */
    method Allow(c: Call) returns (allowed: bool, failed: bool)
      requires Valid() && CallsOk(cfg, calls + [c])
      modifies this
      ensures Valid() && calls == old(calls) + [c]
      ensures failed <==> !c.fault.NoFault?
      ensures allowed <==> failed || EarlierMembers(cfg, calls) < cfg.max
    {
      assert (calls + [c])[..|calls|] == calls;
      GrantedExactlyWhen(cfg, calls + [c]);
      calls := calls + [c];
      if c.fault.NotRun? {
        return true, true;
      }
      var granted := RunScript(c);
      if c.fault.AnswerLost? {
        return true, true;
      }
      return granted, false;
    }
  }

  // ----- runs and the full-history specification -------------------------------------

  /** A slot the script handed out. */
  datatype Grant = Grant(appID: string, uid: string, t: int)

  /** The whole second the script recorded. */
  function At(g: Grant): int {
    g.t / Second
  }

  ghost function Run(cfg: Config, calls: seq<Call>): Keys {
    if calls == [] then map[]
    else
      var before, c := Run(cfg, calls[..|calls| - 1]), calls[|calls| - 1];
      if c.fault.NotRun? then before else KeysAfter(cfg, before, c)
  }

  /** The script's answer to the last call: 1 is a grant. */
  ghost function Answer(cfg: Config, calls: seq<Call>): int
    requires calls != []
  {
    if Decides(cfg, Run(cfg, calls[..|calls| - 1]), calls[|calls| - 1]) then 1 else 0
  }

  /** Redis drops a key only when its period is over. */
  ghost predicate DropOk(keys: Keys, c: Call) {
    c.dropped && KeyOf(c.appID) in keys ==> c.t >= keys[KeyOf(c.appID)].expireAt
  }

  /** The clock is not negative and never runs backwards. */
  ghost predicate CallsOk(cfg: Config, calls: seq<Call>) {
    calls != [] ==>
      var before, c := calls[..|calls| - 1], calls[|calls| - 1];
      && CallsOk(cfg, before) && c.t >= 0
      && (before != [] ==> before[|before| - 1].t <= c.t)
      && DropOk(Run(cfg, before), c)
  }

  /** The members granted to an app in the window that ends now. */
  ghost function InWindow(grants: seq<Grant>, appID: string, now: int, windowSecs: int): set<string> {
    set g | g in grants && g.appID == appID && now - windowSecs < At(g) <= now :: g.uid
  }

  /** The specification: nothing is ever pruned or expires. */
  ghost function History(cfg: Config, calls: seq<Call>): seq<Grant> {
    if calls == [] then []
    else
      var before, c := History(cfg, calls[..|calls| - 1]), calls[|calls| - 1];
      if c.fault.NotRun? then before else GrantsAfter(cfg, before, c)
  }

  ghost function GrantsAfter(cfg: Config, grants: seq<Grant>, c: Call): seq<Grant> {
    if |InWindow(grants, c.appID, Now(c), cfg.windowSecs)| < cfg.max
    then grants + [Grant(c.appID, c.uid, c.t)] else grants
  }

  // ----- the sorted sets represent the history ---------------------------------------

  ghost predicate Recorded(grants: seq<Grant>, appID: string, u: string, at: int) {
    exists g :: g in grants && g.appID == appID && g.uid == u && At(g) == at
  }

  /** An entry is a grant, and the key outlives the entry's window. */
  ghost predicate EntryOk(cfg: Config, z: ZSet, grants: seq<Grant>, appID: string, u: string, now: int)
    requires u in z.scores
  {
    && Recorded(grants, appID, u, z.scores[u])
    && 0 <= z.scores[u] <= now
    && (z.scores[u] + cfg.windowSecs) * Second <= z.expireAt
  }

  /** A grant is over for good, or still in its set with its own or a later score. */
  ghost predicate GrantOk(cfg: Config, keys: Keys, g: Grant, now: int) {
    || At(g) <= now - cfg.windowSecs
    || (KeyOf(g.appID) in keys && g.uid in keys[KeyOf(g.appID)].scores
        && At(g) <= keys[KeyOf(g.appID)].scores[g.uid])
  }

  ghost predicate EntriesOk(cfg: Config, keys: Keys, grants: seq<Grant>, appID: string, now: int) {
    KeyOf(appID) in keys ==>
      forall u | u in keys[KeyOf(appID)].scores :: EntryOk(cfg, keys[KeyOf(appID)], grants, appID, u, now)
  }

  ghost predicate Represents(cfg: Config, keys: Keys, grants: seq<Grant>, now: int) {
    && (forall appID :: EntriesOk(cfg, keys, grants, appID, now))
    && (forall g | g in grants :: At(g) <= now && GrantOk(cfg, keys, g, now))
  }

  lemma {:induction false} KeyOfInjective(a: string, b: string)
    requires KeyOf(a) == KeyOf(b)
    ensures a == b
  {
    assert a == KeyOf(a)[|"ratelimit:"|..] && b == KeyOf(b)[|"ratelimit:"|..];
  }

  /** What the script still sees is exactly the window of the full history. */
  lemma {:induction false} KeptIsWindow(cfg: Config, keys: Keys, grants: seq<Grant>, was: int, c: Call)
    requires Represents(cfg, keys, grants, was) && was <= Now(c) && c.t >= 0 && DropOk(keys, c)
    ensures Kept(cfg, keys, c).Keys == InWindow(grants, c.appID, Now(c), cfg.windowSecs)
    ensures |Kept(cfg, keys, c)| == |InWindow(grants, c.appID, Now(c), cfg.windowSecs)|
  {
    var kept, window := Kept(cfg, keys, c), InWindow(grants, c.appID, Now(c), cfg.windowSecs);
    assert EntriesOk(cfg, keys, grants, c.appID, was);
    forall u | u in kept ensures u in window {
      assert Recorded(grants, c.appID, u, kept[u]);
    }
    forall u | u in window ensures u in kept {
      var g :| g in grants && g.appID == c.appID && Now(c) - cfg.windowSecs < At(g) <= Now(c) && g.uid == u;
      assert GrantOk(cfg, keys, g, was);
      StillThere(cfg, keys, grants, was, c, u);
    }
    assert kept.Keys == window;
    assert |kept| == |kept.Keys|;
  }

  /** Until an entry leaves the window its key has not expired. */
  lemma {:induction false} StillThere(cfg: Config, keys: Keys, grants: seq<Grant>, was: int, c: Call, u: string)
    requires DropOk(keys, c) && KeyOf(c.appID) in keys && u in keys[KeyOf(c.appID)].scores
    requires EntryOk(cfg, keys[KeyOf(c.appID)], grants, c.appID, u, was)
    requires Now(c) - cfg.windowSecs < keys[KeyOf(c.appID)].scores[u]
    ensures u in Kept(cfg, keys, c)
  {
  }

  /** A key the script does not touch keeps representing its grants as time goes by. */
  lemma {:induction false} OtherGrants(cfg: Config, keys: Keys, keys': Keys, g: Grant, was: int, now: int)
    requires was <= now && GrantOk(cfg, keys, g, was)
    requires KeyOf(g.appID) in keys ==> KeyOf(g.appID) in keys' && keys'[KeyOf(g.appID)] == keys[KeyOf(g.appID)]
    ensures GrantOk(cfg, keys', g, now)
  {
  }

  /** A grant of the app the script ran for is in what was kept, or over. */
  lemma {:induction false} OwnGrants(cfg: Config, keys: Keys, grants: seq<Grant>, was: int, c: Call, g: Grant)
    requires Represents(cfg, keys, grants, was) && was <= Now(c) && c.t >= 0 && DropOk(keys, c)
    requires g in grants && g.appID == c.appID && At(g) > Now(c) - cfg.windowSecs
    ensures g.uid in Kept(cfg, keys, c) && At(g) <= Kept(cfg, keys, c)[g.uid]
  {
    assert GrantOk(cfg, keys, g, was);
    assert EntriesOk(cfg, keys, grants, c.appID, was);
    StillThere(cfg, keys, grants, was, c, g.uid);
  }

  lemma {:induction false} StepGrantOk(cfg: Config, keys: Keys, grants: seq<Grant>, was: int, c: Call, g: Grant)
    requires Represents(cfg, keys, grants, was) && was <= Now(c) && c.t >= 0 && DropOk(keys, c)
    requires g in GrantsAfter(cfg, grants, c)
    ensures At(g) <= Now(c) && GrantOk(cfg, KeysAfter(cfg, keys, c), g, Now(c))
  {
    KeptIsWindow(cfg, keys, grants, was, c);
    if g in grants {
      if g.appID == c.appID {
        if At(g) > Now(c) - cfg.windowSecs {
          OwnGrants(cfg, keys, grants, was, c, g);
        }
      } else {
        if KeyOf(g.appID) == KeyOf(c.appID) {
          KeyOfInjective(g.appID, c.appID);
        }
        OtherGrants(cfg, keys, KeysAfter(cfg, keys, c), g, was, Now(c));
      }
    }
  }

  lemma {:induction false} StepEntriesOk(cfg: Config, keys: Keys, grants: seq<Grant>, was: int, c: Call, appID: string)
    requires Represents(cfg, keys, grants, was) && was <= Now(c) && c.t >= 0 && DropOk(keys, c)
    ensures EntriesOk(cfg, KeysAfter(cfg, keys, c), GrantsAfter(cfg, grants, c), appID, Now(c))
  {
    KeptIsWindow(cfg, keys, grants, was, c);
    var keys', grants' := KeysAfter(cfg, keys, c), GrantsAfter(cfg, grants, c);
    assert EntriesOk(cfg, keys, grants, appID, was);
    if appID != c.appID && KeyOf(appID) == KeyOf(c.appID) {
      KeyOfInjective(appID, c.appID);
    }
    if KeyOf(appID) in keys' {
      var z' := keys'[KeyOf(appID)];
      forall u | u in z'.scores ensures EntryOk(cfg, z', grants', appID, u, Now(c)) {
        if appID == c.appID && Decides(cfg, keys, c) && u == c.uid {
          assert grants'[|grants|] == Grant(appID, u, c.t) && At(grants'[|grants|]) == Now(c);
        } else {
          assert KeyOf(appID) in keys && u in keys[KeyOf(appID)].scores;
          assert EntryOk(cfg, keys[KeyOf(appID)], grants, appID, u, was);
          var g :| g in grants && g.appID == appID && g.uid == u && At(g) == z'.scores[u];
          assert g in grants';
        }
      }
    }
  }

  lemma {:induction false} StepRepresents(cfg: Config, keys: Keys, grants: seq<Grant>, was: int, c: Call)
    requires Represents(cfg, keys, grants, was) && was <= Now(c) && c.t >= 0 && DropOk(keys, c)
    ensures Represents(cfg, KeysAfter(cfg, keys, c), GrantsAfter(cfg, grants, c), Now(c))
  {
    forall appID ensures EntriesOk(cfg, KeysAfter(cfg, keys, c), GrantsAfter(cfg, grants, c), appID, Now(c)) {
      StepEntriesOk(cfg, keys, grants, was, c, appID);
    }
    forall g | g in GrantsAfter(cfg, grants, c)
      ensures At(g) <= Now(c) && GrantOk(cfg, KeysAfter(cfg, keys, c), g, Now(c))
    {
      StepGrantOk(cfg, keys, grants, was, c, g);
    }
  }

  // ----- the theorems ----------------------------------------------------------------

  ghost function LastNow(calls: seq<Call>): int {
    if calls == [] then 0 else Now(calls[|calls| - 1])
  }

  lemma {:induction false} ClockMonotone(calls: seq<Call>, cfg: Config)
    requires calls != [] && CallsOk(cfg, calls)
    ensures 0 <= LastNow(calls[..|calls| - 1]) <= LastNow(calls)
  {
  }

  lemma {:induction false} RunRepresents(cfg: Config, calls: seq<Call>)
    requires CallsOk(cfg, calls)
    ensures Represents(cfg, Run(cfg, calls), History(cfg, calls), LastNow(calls))
  {
    if calls != [] {
      var before, c := calls[..|calls| - 1], calls[|calls| - 1];
      RunRepresents(cfg, before);
      ClockMonotone(calls, cfg);
      if c.fault.NotRun? {
        LaterRepresents(cfg, Run(cfg, before), History(cfg, before), LastNow(before), Now(c));
      } else {
        StepRepresents(cfg, Run(cfg, before), History(cfg, before), LastNow(before), c);
      }
    }
  }

  lemma {:induction false} LaterRepresents(cfg: Config, keys: Keys, grants: seq<Grant>, was: int, now: int)
    requires Represents(cfg, keys, grants, was) && was <= now
    ensures Represents(cfg, keys, grants, now)
  {
    forall appID ensures EntriesOk(cfg, keys, grants, appID, now) {
      assert EntriesOk(cfg, keys, grants, appID, was);
    }
    forall g | g in grants ensures At(g) <= now && GrantOk(cfg, keys, g, now) {
      assert GrantOk(cfg, keys, g, was);
    }
  }

  /** The members the last call's app had before it in the window that ends with it. */
  ghost function EarlierMembers(cfg: Config, calls: seq<Call>): nat
    requires calls != []
  {
    var before, c := calls[..|calls| - 1], calls[|calls| - 1];
    |InWindow(History(cfg, before), c.appID, Now(c), cfg.windowSecs)|
  }

  /**
   * The script grants a request exactly when the whole history holds fewer than max members in
   * (now - window, now]. The history ignores pruning, EXPIRE and when Redis drops a key, so none of
   * them changes any decision.
   */
  lemma {:induction false} GrantedExactlyWhen(cfg: Config, calls: seq<Call>)
    requires calls != [] && CallsOk(cfg, calls)
    ensures Answer(cfg, calls) == 1 <==> EarlierMembers(cfg, calls) < cfg.max
  {
    var before, c := calls[..|calls| - 1], calls[|calls| - 1];
    assert CallsOk(cfg, before);
    RunRepresents(cfg, before);
    ClockMonotone(calls, cfg);
    KeptIsWindow(cfg, Run(cfg, before), History(cfg, before), LastNow(before), c);
  }

  /** The members granted to an app in the windowSecs whole seconds from second lo on. */
  ghost function InSpan(cfg: Config, grants: seq<Grant>, appID: string, lo: int): set<string> {
    set g | g in grants && g.appID == appID && lo <= At(g) < lo + cfg.windowSecs :: g.uid
  }

  lemma {:induction false} SubsetSize<T>(a: set<T>, b: set<T>)
    requires a <= b
    ensures |a| <= |b|
  {
    if a != {} {
      var x :| x in a;
      SubsetSize(a - {x}, b - {x});
    }
  }

  lemma {:induction false} HistoryIsPast(cfg: Config, calls: seq<Call>)
    requires CallsOk(cfg, calls)
    ensures forall g | g in History(cfg, calls) :: At(g) <= LastNow(calls)
  {
    RunRepresents(cfg, calls);
  }

  /** Any windowSecs whole seconds of the clock hold at most max granted members. */
  lemma {:induction false} SpanBound(cfg: Config, calls: seq<Call>, appID: string, lo: int)
    requires CallsOk(cfg, calls)
    ensures |InSpan(cfg, History(cfg, calls), appID, lo)| <= Max(cfg.max, 0)
  {
    if calls == [] {
      assert InSpan(cfg, [], appID, lo) == {};
    } else {
      var before, c := calls[..|calls| - 1], calls[|calls| - 1];
      SpanBound(cfg, before, appID, lo);
      HistoryIsPast(cfg, before);
      ClockMonotone(calls, cfg);
      SpanStep(cfg, History(cfg, before), c, appID, lo);
    }
  }

  lemma {:induction false} SpanStep(cfg: Config, grants: seq<Grant>, c: Call, appID: string, lo: int)
    requires forall g | g in grants :: At(g) <= Now(c)
    requires |InSpan(cfg, grants, appID, lo)| <= Max(cfg.max, 0)
    ensures |InSpan(cfg, GrantsAfter(cfg, grants, c), appID, lo)| <= Max(cfg.max, 0)
  {
    var window := InWindow(grants, c.appID, Now(c), cfg.windowSecs);
    if |window| < cfg.max {
      var after := InSpan(cfg, GrantsAfter(cfg, grants, c), appID, lo);
      if appID == c.appID && lo <= Now(c) < lo + cfg.windowSecs {
        assert after <= window + {c.uid};
        SubsetSize(after, window + {c.uid});
      } else {
        assert after <= InSpan(cfg, grants, appID, lo);
        SubsetSize(after, InSpan(cfg, grants, appID, lo));
      }
    }
  }

  // ----- members and grants ----------------------------------------------------------

  /** The clock hands out a different member for every call of an app. */
  ghost predicate DistinctUids(calls: seq<Call>) {
    forall i, j | 0 <= i < j < |calls| && calls[i].appID == calls[j].appID :: calls[i].uid != calls[j].uid
  }

  /** The grants of an app from lo up to, not including, hi, in nanoseconds. */
  ghost function CountGrants(grants: seq<Grant>, appID: string, lo: int, hi: int): nat {
    if grants == [] then 0
    else
      var g := grants[|grants| - 1];
      CountGrants(grants[..|grants| - 1], appID, lo, hi) + if g.appID == appID && lo <= g.t < hi then 1 else 0
  }

  ghost predicate DistinctGrants(grants: seq<Grant>) {
    forall i, j | 0 <= i < j < |grants| && grants[i].appID == grants[j].appID :: grants[i].uid != grants[j].uid
  }

  /** With distinct members, counting members is counting grants. */
  lemma {:induction false} CountsMembers(cfg: Config, grants: seq<Grant>, appID: string, lo: int)
    requires DistinctGrants(grants)
    ensures CountGrants(grants, appID, lo * Second, (lo + cfg.windowSecs) * Second) == |InSpan(cfg, grants, appID, lo)|
  {
    if grants == [] {
      assert InSpan(cfg, grants, appID, lo) == {};
    } else {
      var front, g := grants[..|grants| - 1], grants[|grants| - 1];
      CountsMembers(cfg, front, appID, lo);
      assert grants == front + [g];
      SpanSnoc(cfg, front, g, appID, lo);
      InSeconds(g, lo, lo + cfg.windowSecs);
    }
  }

  lemma {:induction false} InSeconds(g: Grant, lo: int, hi: int)
    ensures lo <= At(g) < hi <==> lo * Second <= g.t < hi * Second
  {
  }

  lemma {:induction false} SpanSnoc(cfg: Config, front: seq<Grant>, g: Grant, appID: string, lo: int)
    requires forall i | 0 <= i < |front| && front[i].appID == g.appID :: front[i].uid != g.uid
    ensures |InSpan(cfg, front + [g], appID, lo)|
         == |InSpan(cfg, front, appID, lo)| + if g.appID == appID && lo <= At(g) < lo + cfg.windowSecs then 1 else 0
  {
    var was, span := InSpan(cfg, front, appID, lo), InSpan(cfg, front + [g], appID, lo);
    if g.appID == appID && lo <= At(g) < lo + cfg.windowSecs {
      assert g.uid !in was;
      assert span == was + {g.uid};
    } else {
      assert span == was;
    }
  }

  /** Every grant was asked for. */
  ghost predicate AskedBy(calls: seq<Call>, g: Grant) {
    exists i :: 0 <= i < |calls| && calls[i].appID == g.appID && calls[i].uid == g.uid && calls[i].t == g.t
  }

  lemma {:induction false} HistoryAsked(cfg: Config, calls: seq<Call>)
    ensures forall g | g in History(cfg, calls) :: AskedBy(calls, g)
  {
    if calls != [] {
      var before, c := calls[..|calls| - 1], calls[|calls| - 1];
      HistoryAsked(cfg, before);
      forall g | g in History(cfg, calls) ensures AskedBy(calls, g) {
        if g in History(cfg, before) {
          assert AskedBy(before, g);
          var i :| 0 <= i < |before| && before[i].appID == g.appID && before[i].uid == g.uid && before[i].t == g.t;
          assert calls[i] == before[i];
        } else {
          assert calls[|calls| - 1] == c;
        }
      }
    }
  }

  lemma {:induction false} HistoryUids(cfg: Config, calls: seq<Call>)
    requires DistinctUids(calls)
    ensures DistinctGrants(History(cfg, calls))
  {
    if calls != [] {
      var before, c := calls[..|calls| - 1], calls[|calls| - 1];
      HistoryUids(cfg, before);
      HistoryAsked(cfg, before);
      var was := History(cfg, before);
      forall k | 0 <= k < |was| && was[k].appID == c.appID ensures was[k].uid != c.uid {
        assert AskedBy(before, was[k]);
      }
    }
  }

  /** The grants the last call's app had before it, in the window that ends with it. */
  ghost function EarlierGrants(cfg: Config, calls: seq<Call>): nat
    requires calls != []
  {
    var before, c := calls[..|calls| - 1], calls[|calls| - 1];
    CountGrants(History(cfg, before), c.appID, (Now(c) - cfg.windowSecs + 1) * Second, (Now(c) + 1) * Second)
  }

  /** With a fresh member per call: granted exactly when fewer than max earlier grants lie in (now - window, now]. */
  lemma {:induction false} GrantedByCount(cfg: Config, calls: seq<Call>)
    requires calls != [] && CallsOk(cfg, calls) && DistinctUids(calls)
    ensures Answer(cfg, calls) == 1 <==> EarlierGrants(cfg, calls) < cfg.max
  {
    GrantedExactlyWhen(cfg, calls);
    EarlierCount(cfg, calls);
  }

  lemma {:induction false} EarlierCount(cfg: Config, calls: seq<Call>)
    requires calls != [] && DistinctUids(calls)
    ensures EarlierGrants(cfg, calls) == EarlierMembers(cfg, calls)
  {
    var before, c := calls[..|calls| - 1], calls[|calls| - 1];
    EarlierUids(cfg, calls);
    CountsWindow(cfg, History(cfg, before), c.appID, Now(c));
  }

  lemma {:induction false} EarlierUids(cfg: Config, calls: seq<Call>)
    requires calls != [] && DistinctUids(calls)
    ensures DistinctGrants(History(cfg, calls[..|calls| - 1]))
  {
    assert DistinctUids(calls[..|calls| - 1]);
    HistoryUids(cfg, calls[..|calls| - 1]);
  }

  lemma {:induction false} CountsWindow(cfg: Config, grants: seq<Grant>, appID: string, now: int)
    requires DistinctGrants(grants)
    ensures CountGrants(grants, appID, (now - cfg.windowSecs + 1) * Second, (now + 1) * Second)
         == |InWindow(grants, appID, now, cfg.windowSecs)|
  {
    var lo := now - cfg.windowSecs + 1;
    CountsMembers(cfg, grants, appID, lo);
    assert lo + cfg.windowSecs == now + 1;
    forall g: Grant ensures now - cfg.windowSecs < At(g) <= now <==> lo <= At(g) < lo + cfg.windowSecs {}
    assert InWindow(grants, appID, now, cfg.windowSecs) == InSpan(cfg, grants, appID, lo);
  }

  /** With a fresh member per call, an app is granted at most max requests in any windowSecs whole seconds of the clock. */
  lemma {:induction false} AtMostMaxGrants(cfg: Config, calls: seq<Call>, appID: string, lo: int)
    requires CallsOk(cfg, calls) && DistinctUids(calls)
    ensures CountGrants(History(cfg, calls), appID, lo * Second, (lo + cfg.windowSecs) * Second) <= Max(cfg.max, 0)
  {
    SpanBound(cfg, calls, appID, lo);
    HistoryUids(cfg, calls);
    CountsMembers(cfg, History(cfg, calls), appID, lo);
  }

  /** Distinct members are needed: three requests with one member all pass a limit of two. */
  lemma {:induction false} SameMemberTwice()
    ensures var cfg, c := Config(2, 1), Call("a", 0, "0", NoFault, false);
      |History(cfg, [c, c, c])| == 3
  {
    var cfg, c := Config(2, 1), Call("a", 0, "0", NoFault, false);
    var g := Grant("a", "0", 0);
    assert [c, c, c][..2] == [c, c] && [c, c][..1] == [c] && [c][..0] == [];
    assert InWindow([], "a", 0, 1) == {};
    assert InWindow([g], "a", 0, 1) == {"0"} by { assert g in [g]; }
    assert InWindow([g, g], "a", 0, 1) == {"0"} by { assert g in [g, g]; }
    assert History(cfg, [c]) == [g];
    assert History(cfg, [c, c]) == [g, g];
  }

  // ----- elapsed time ----------------------------------------------------------------

  lemma {:induction false} CountWider(grants: seq<Grant>, appID: string, lo: int, hi: int, lo': int, hi': int)
    requires lo' <= lo && hi <= hi'
    ensures CountGrants(grants, appID, lo, hi) <= CountGrants(grants, appID, lo', hi')
  {
    if grants != [] {
      CountWider(grants[..|grants| - 1], appID, lo, hi, lo', hi');
    }
  }

  lemma {:induction false} CountSplits(grants: seq<Grant>, appID: string, lo: int, mid: int, hi: int)
    requires lo <= mid <= hi
    ensures CountGrants(grants, appID, lo, hi) == CountGrants(grants, appID, lo, mid) + CountGrants(grants, appID, mid, hi)
  {
    if grants != [] {
      CountSplits(grants[..|grants| - 1], appID, lo, mid, hi);
    }
  }

  /** The longest elapsed span that always fits into windowSecs whole seconds of the clock. */
  function SafeSpan(cfg: Config): int {
    (cfg.windowSecs - 1) * Second + 1
  }

  /** The grants of a run to one app in the elapsed span of this length that starts at lo. */
  ghost function GrantsIn(cfg: Config, calls: seq<Call>, appID: string, lo: int, length: int): nat {
    CountGrants(History(cfg, calls), appID, lo, lo + length)
  }

  lemma {:induction false} Covered(grants: seq<Grant>, appID: string, lo: int, length: int, windowSecs: int)
    requires length <= (windowSecs - 1) * Second + 1
    ensures CountGrants(grants, appID, lo, lo + length)
         <= CountGrants(grants, appID, lo / Second * Second, (lo / Second + windowSecs) * Second)
  {
    CountWider(grants, appID, lo, lo + length, lo / Second * Second, (lo / Second + windowSecs) * Second);
  }

  /** A span that is not too long, wherever it starts, is covered by windowSecs whole seconds. */
  lemma {:induction false} ShortSpan(cfg: Config, calls: seq<Call>, appID: string, lo: int, length: int)
    requires CallsOk(cfg, calls) && DistinctUids(calls) && length <= SafeSpan(cfg)
    ensures GrantsIn(cfg, calls, appID, lo, length) <= Max(cfg.max, 0)
  {
    Covered(History(cfg, calls), appID, lo, length, cfg.windowSecs);
    AtMostMaxGrants(cfg, calls, appID, lo / Second);
  }

  lemma {:induction false} CoveredTwice(grants: seq<Grant>, appID: string, lo: int, w: int)
    requires w >= 1
    ensures CountGrants(grants, appID, lo, lo + w * Second)
         <= CountGrants(grants, appID, lo / Second * Second, (lo / Second + w) * Second)
            + CountGrants(grants, appID, (lo / Second + w) * Second, (lo / Second + w + w) * Second)
  {
    var first := lo / Second;
    CountWider(grants, appID, lo, lo + w * Second, first * Second, (first + w + w) * Second);
    CountSplits(grants, appID, first * Second, (first + w) * Second, (first + w + w) * Second);
  }

  /** Over elapsed time a span of windowSecs seconds holds at most twice max grants. */
  lemma {:induction false} AtMostTwiceMax(cfg: Config, calls: seq<Call>, appID: string, lo: int)
    requires CallsOk(cfg, calls) && DistinctUids(calls) && cfg.windowSecs >= 1
    ensures GrantsIn(cfg, calls, appID, lo, cfg.windowSecs * 1_000_000_000) <= 2 * Max(cfg.max, 0)
  {
    CoveredTwice(History(cfg, calls), appID, lo, cfg.windowSecs);
    AtMostMaxGrants(cfg, calls, appID, lo / Second);
    AtMostMaxGrants(cfg, calls, appID, lo / Second + cfg.windowSecs);
  }

  // ----- the clock the service uses --------------------------------------------------

  /** defaultClock: the member is the same reading the score is cut from, in nanoseconds and decimal. */
  ghost predicate ByDefaultClock(calls: seq<Call>) {
    forall i | 0 <= i < |calls| :: calls[i].uid == Decimal.FormatInt(calls[i].t)
  }

  ghost predicate DistinctTimes(grants: seq<Grant>) {
    forall i, j | 0 <= i < j < |grants| && grants[i].appID == grants[j].appID :: grants[i].t != grants[j].t
  }

  lemma {:induction false} HistoryTimes(cfg: Config, calls: seq<Call>)
    requires DistinctUids(calls) && ByDefaultClock(calls)
    ensures DistinctTimes(History(cfg, calls))
  {
    var grants := History(cfg, calls);
    HistoryUids(cfg, calls);
    HistoryAsked(cfg, calls);
    forall i | 0 <= i < |grants| ensures grants[i].uid == Decimal.FormatInt(grants[i].t) {
      assert AskedBy(calls, grants[i]);
    }
  }

  lemma {:induction false} NoneAt(grants: seq<Grant>, appID: string, t: int)
    requires forall i | 0 <= i < |grants| && grants[i].appID == appID :: grants[i].t != t
    ensures CountGrants(grants, appID, t, t + 1) == 0
  {
    if grants != [] {
      NoneAt(grants[..|grants| - 1], appID, t);
    }
  }

  lemma {:induction false} OneAt(grants: seq<Grant>, appID: string, t: int)
    requires DistinctTimes(grants)
    ensures CountGrants(grants, appID, t, t + 1) <= 1
  {
    if grants != [] {
      var front, g := grants[..|grants| - 1], grants[|grants| - 1];
      if g.appID == appID && g.t == t {
        NoneAt(front, appID, t);
      } else {
        OneAt(front, appID, t);
      }
    }
  }

  lemma {:induction false} NoneInEmpty(grants: seq<Grant>, appID: string, lo: int, hi: int)
    requires hi <= lo
    ensures CountGrants(grants, appID, lo, hi) == 0
  {
    if grants != [] {
      NoneInEmpty(grants[..|grants| - 1], appID, lo, hi);
    }
  }

  /** One grant per nanosecond at most. */
  lemma {:induction false} OnePerNanosecond(grants: seq<Grant>, appID: string, lo: int, length: nat)
    requires DistinctTimes(grants)
    ensures CountGrants(grants, appID, lo, lo + length) <= length
  {
    if length == 0 {
      NoneInEmpty(grants, appID, lo, lo);
    } else {
      OnePerNanosecond(grants, appID, lo, length - 1);
      OneAt(grants, appID, lo + length - 1);
      CountSplits(grants, appID, lo, lo + length - 1, lo + length);
    }
  }

  // ----- runs at given readings ------------------------------------------------------

  ghost predicate Ascending(times: seq<int>) {
    (forall i | 0 <= i < |times| :: 0 <= times[i]) && forall i, j | 0 <= i < j < |times| :: times[i] < times[j]
  }

  /** One app asks at these readings of the default clock. */
  ghost function Asking(times: seq<int>): seq<Call> {
    seq(|times|, i requires 0 <= i < |times| => Call("a", times[i], Decimal.FormatInt(times[i]), NoFault, false))
  }

  ghost function AllGrants(times: seq<int>): seq<Grant> {
    seq(|times|, i requires 0 <= i < |times| => Grant("a", Decimal.FormatInt(times[i]), times[i]))
  }

  lemma {:induction false} AskingSnoc(times: seq<int>)
    requires times != []
    ensures Asking(times)[..|times| - 1] == Asking(times[..|times| - 1])
    ensures AllGrants(times) == AllGrants(times[..|times| - 1]) + [AllGrants(times)[|times| - 1]]
  {
  }

  lemma {:induction false} AskingOk(cfg: Config, times: seq<int>)
    requires Ascending(times)
    ensures CallsOk(cfg, Asking(times))
  {
    if times != [] {
      AskingOk(cfg, times[..|times| - 1]);
      AskingSnoc(times);
    }
  }

  lemma {:induction false} AskingDistinct(times: seq<int>)
    requires Ascending(times)
    ensures DistinctUids(Asking(times)) && ByDefaultClock(Asking(times)) && DistinctGrants(AllGrants(times))
  {
    forall i, j | 0 <= i < j < |times| ensures Decimal.FormatInt(times[i]) != Decimal.FormatInt(times[j]) {
      if Decimal.FormatInt(times[i]) == Decimal.FormatInt(times[j]) {
        Decimal.FormatIntInjective(times[i], times[j]);
      }
    }
  }

  /** How many readings lie in the span. */
  ghost function CountTimes(times: seq<int>, lo: int, hi: int): nat {
    CountGrants(AllGrants(times), "a", lo, hi)
  }

  lemma {:induction false} CountTimesSnoc(times: seq<int>, lo: int, hi: int)
    requires times != []
    ensures CountTimes(times, lo, hi)
         == CountTimes(times[..|times| - 1], lo, hi) + if lo <= times[|times| - 1] < hi then 1 else 0
  {
    AskingSnoc(times);
  }

  /** Each reading comes when fewer than max earlier ones lie in its window. */
  ghost predicate Spaced(cfg: Config, times: seq<int>) {
    forall i | 0 <= i < |times| :: SpacedAt(cfg, times[..i], times[i])
  }

  ghost predicate SpacedAt(cfg: Config, before: seq<int>, t: int) {
    CountTimes(before, (t / Second - cfg.windowSecs + 1) * Second, (t / Second + 1) * Second) < cfg.max
  }

  lemma {:induction false} SpacedSnoc(cfg: Config, times: seq<int>)
    requires times != [] && Spaced(cfg, times) && Ascending(times)
    ensures var before := times[..|times| - 1];
      Spaced(cfg, before) && Ascending(before) && SpacedAt(cfg, before, times[|times| - 1])
  {
    var before := times[..|times| - 1];
    forall i | 0 <= i < |before| ensures SpacedAt(cfg, before[..i], before[i]) {
      assert before[..i] == times[..i] && SpacedAt(cfg, times[..i], times[i]);
    }
  }

  lemma {:induction false} SpacedStep(cfg: Config, before: seq<int>, t: int)
    requires Ascending(before) && SpacedAt(cfg, before, t)
    ensures GrantsAfter(cfg, AllGrants(before), Call("a", t, Decimal.FormatInt(t), NoFault, false))
         == AllGrants(before) + [Grant("a", Decimal.FormatInt(t), t)]
  {
    AskingDistinct(before);
    CountsWindow(cfg, AllGrants(before), "a", t / Second);
  }

  /** Then all of them are granted. */
  lemma {:induction false} SpacedGranted(cfg: Config, times: seq<int>)
    requires Ascending(times) && Spaced(cfg, times)
    ensures History(cfg, Asking(times)) == AllGrants(times)
  {
    if times != [] {
      var before, t := times[..|times| - 1], times[|times| - 1];
      assert History(cfg, Asking(before)) == AllGrants(before) by {
        SpacedSnoc(cfg, times);
        SpacedGranted(cfg, before);
      }
      assert GrantsAfter(cfg, AllGrants(before), Asking(times)[|times| - 1]) == AllGrants(times) by {
        SpacedSnoc(cfg, times);
        SpacedStep(cfg, before, t);
        AskingSnoc(times);
      }
      AskingSnoc(times);
    }
  }

  /** Some run on the default clock grants an app n requests within an elapsed span of this length, in nanoseconds. */
  ghost predicate CanGrant(cfg: Config, n: int, length: int) {
    exists calls, appID, lo ::
      CallsOk(cfg, calls) && DistinctUids(calls) && ByDefaultClock(calls) && GrantsIn(cfg, calls, appID, lo, length) == n
  }

  lemma {:induction false} SpacedCounts(cfg: Config, times: seq<int>, lo: int, length: int)
    requires Ascending(times) && Spaced(cfg, times)
    ensures GrantsIn(cfg, Asking(times), "a", lo, length) == CountTimes(times, lo, lo + length)
  {
    SpacedGranted(cfg, times);
  }

  /** All these readings can be granted. */
  lemma {:induction false} SpacedRun(cfg: Config, times: seq<int>, lo: int, length: int)
    requires Ascending(times) && Spaced(cfg, times) && forall i | 0 <= i < |times| :: lo <= times[i] < lo + length
    ensures CanGrant(cfg, |times|, length)
  {
    AskingOk(cfg, times);
    AskingDistinct(times);
    SpacedCounts(cfg, times, lo, length);
    CountTimesAll(times, lo, lo + length);
  }

  lemma {:induction false} CountTimesAtMost(times: seq<int>, lo: int, hi: int)
    ensures CountTimes(times, lo, hi) <= |times|
    ensures times != [] && times[0] < lo ==> CountTimes(times, lo, hi) < |times|
  {
    if times != [] {
      CountTimesAtMost(times[..|times| - 1], lo, hi);
      CountTimesSnoc(times, lo, hi);
    }
  }

  lemma {:induction false} CountTimesAll(times: seq<int>, lo: int, hi: int)
    requires forall i | 0 <= i < |times| :: lo <= times[i] < hi
    ensures CountTimes(times, lo, hi) == |times|
  {
    if times != [] {
      CountTimesAll(times[..|times| - 1], lo, hi);
      CountTimesSnoc(times, lo, hi);
    }
  }

  // ----- how long the limit holds ----------------------------------------------------

  /** No run on the default clock grants an app more than max requests within any elapsed span of this length. */
  ghost predicate AlwaysWithin(cfg: Config, length: int) {
    forall n | CanGrant(cfg, n, length) :: n <= cfg.max
  }

  /** max consecutive nanoseconds from the last one of second 0 on, and one more request as soon as that one has left the window. */
  function Overrun(cfg: Config): seq<int>
    requires cfg.max >= 1
  {
    seq(cfg.max, i requires 0 <= i < cfg.max => Second - 1 + i) + [Second - 1 + Max(SafeSpan(cfg), cfg.max)]
  }

  lemma {:induction false} OverrunSpaced(cfg: Config)
    requires cfg.max >= 1 && cfg.windowSecs >= 1
    ensures Ascending(Overrun(cfg)) && Spaced(cfg, Overrun(cfg))
  {
    var times := Overrun(cfg);
    forall i | 0 <= i < |times| ensures SpacedAt(cfg, times[..i], times[i]) {
      OverrunSpacedAt(cfg, i);
    }
  }

  lemma {:induction false} OverrunSpacedAt(cfg: Config, i: nat)
    requires cfg.max >= 1 && cfg.windowSecs >= 1 && i < |Overrun(cfg)|
    ensures SpacedAt(cfg, Overrun(cfg)[..i], Overrun(cfg)[i])
  {
    var times := Overrun(cfg);
    var now := times[i] / Second;
    CountTimesAtMost(times[..i], (now - cfg.windowSecs + 1) * Second, (now + 1) * Second);
    if i == cfg.max {
      assert times[i] >= cfg.windowSecs * Second;
      assert now >= cfg.windowSecs;
    }
  }

  lemma {:induction false} NeverMore(cfg: Config, calls: seq<Call>, appID: string, lo: int, length: int)
    requires cfg.max >= 1 && length <= Max(SafeSpan(cfg), cfg.max)
    requires CallsOk(cfg, calls) && DistinctUids(calls) && ByDefaultClock(calls)
    ensures GrantsIn(cfg, calls, appID, lo, length) <= cfg.max
  {
    if length <= SafeSpan(cfg) {
      ShortSpan(cfg, calls, appID, lo, length);
    } else if length > 0 {
      HistoryTimes(cfg, calls);
      OnePerNanosecond(History(cfg, calls), appID, lo, length);
    } else {
      NoneInEmpty(History(cfg, calls), appID, lo, lo + length);
    }
  }

  /**
   * The limit holds over elapsed time exactly for spans up to windowSecs - 1 seconds and a nanosecond, or up to
   * max nanoseconds where that is longer.
   */
  lemma {:induction false} ElapsedExactlyWhen(cfg: Config, length: int)
    requires cfg.max >= 1 && cfg.windowSecs >= 1
    ensures AlwaysWithin(cfg, length) <==> length <= Max(SafeSpan(cfg), cfg.max)
  {
    if length <= Max(SafeSpan(cfg), cfg.max) {
      forall n | CanGrant(cfg, n, length) ensures n <= cfg.max {
        var calls, appID, lo :| CallsOk(cfg, calls) && DistinctUids(calls) && ByDefaultClock(calls)
          && GrantsIn(cfg, calls, appID, lo, length) == n;
        NeverMore(cfg, calls, appID, lo, length);
      }
    } else {
      OverrunSpaced(cfg);
      SpacedRun(cfg, Overrun(cfg), Second - 1, length);
    }
  }

  /** The last max nanoseconds of second 0, and the first max of second windowSecs. */
  function TwoBursts(cfg: Config, n: nat): seq<int> {
    seq(n, i requires 0 <= i < n => if i < cfg.max then Second - cfg.max + i else cfg.windowSecs * Second + i - cfg.max)
  }

  lemma {:induction false} BurstSecond(cfg: Config, i: nat)
    requires 1 <= cfg.max <= Second && cfg.windowSecs >= 1 && i < 2 * cfg.max
    ensures TwoBursts(cfg, i + 1)[i] / Second == if i < cfg.max then 0 else cfg.windowSecs
  {
  }

  lemma {:induction false} BurstsPrefix(cfg: Config, n: nat)
    requires 1 <= cfg.max <= Second && 0 < n
    ensures TwoBursts(cfg, n)[..n - 1] == TwoBursts(cfg, n - 1)
    ensures n <= cfg.max ==> TwoBursts(cfg, n)[n - 1] < Second
  {
  }

  /** What a window that begins after second 0 sees of the bursts. */
  lemma {:induction false} CountBursts(cfg: Config, n: nat, lo: int, hi: int)
    requires 1 <= cfg.max <= Second && cfg.windowSecs >= 1 && n <= 2 * cfg.max && lo >= Second
    ensures CountTimes(TwoBursts(cfg, n), lo, hi) <= if n < cfg.max then 0 else n - cfg.max
  {
    if n > 0 {
      CountBursts(cfg, n - 1, lo, hi);
      BurstsPrefix(cfg, n);
      CountTimesSnoc(TwoBursts(cfg, n), lo, hi);
    }
  }

  lemma {:induction false} BurstsSpaced(cfg: Config)
    requires 1 <= cfg.max <= Second && cfg.windowSecs >= 1
    ensures Ascending(TwoBursts(cfg, 2 * cfg.max)) && Spaced(cfg, TwoBursts(cfg, 2 * cfg.max))
  {
    var times := TwoBursts(cfg, 2 * cfg.max);
    forall i | 0 <= i < |times| ensures SpacedAt(cfg, times[..i], times[i]) {
      var lo, hi := (times[i] / Second - cfg.windowSecs + 1) * Second, (times[i] / Second + 1) * Second;
      assert times[..i] == TwoBursts(cfg, i) && TwoBursts(cfg, i + 1)[i] == times[i];
      BurstSecond(cfg, i);
      if i < cfg.max {
        CountTimesAtMost(times[..i], lo, hi);
      } else {
        CountBursts(cfg, i, lo, hi);
      }
    }
  }

  /** Twice max is reached, when a second has that many nanoseconds: in windowSecs - 1 seconds and 2 * max nanoseconds. */
  lemma {:induction false} TwiceMaxReached(cfg: Config)
    requires 1 <= cfg.max <= Second && cfg.windowSecs >= 1
    ensures CanGrant(cfg, 2 * cfg.max, (cfg.windowSecs - 1) * 1_000_000_000 + 2 * cfg.max)
  {
    BurstsSpaced(cfg);
    SpacedRun(cfg, TwoBursts(cfg, 2 * cfg.max), Second - cfg.max, (cfg.windowSecs - 1) * Second + 2 * cfg.max);
  }

  /** A limit of one request a second grants two requests in two nanoseconds. */
  lemma {:induction false} TwoInTwoNanoseconds()
    ensures CanGrant(Config(1, 1), 2, 2)
  {
    TwiceMaxReached(Config(1, 1));
  }
}

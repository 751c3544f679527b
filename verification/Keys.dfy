/**
 * The composed string keys: participantKey and the EWMA key (internal/ingest/flush.go), the cache
 * key (internal/ingest/cache.go) and the canonical request (internal/auth/apikey.go), with the
 * strconv functions they rely on. Each is shown not to collide, or exactly when it does.
 */
module Keys {
  import opened Common

  const Int64Min: int := -0x8000_0000_0000_0000
  const Int64Max: int := 0x7fff_ffff_ffff_ffff

  predicate IsDigit(c: char) { '0' <= c <= '9' }

  ghost predicate AllDigits(s: string) { forall i | 0 <= i < |s| :: IsDigit(s[i]) }

  function DigitChar(d: int): (c: char)
    requires 0 <= d < 10
    ensures IsDigit(c) && (c as int) - ('0' as int) == d
  {
    '0' + d as char
  }

  function FormatNat(n: nat): (s: string)
    ensures s != [] && AllDigits(s)
  {
    if n < 10 then [DigitChar(n)] else FormatNat(n / 10) + [DigitChar(n % 10)]
  }

  /** strconv.FormatInt(i, 10). */
  function FormatInt(i: int): string { if i < 0 then "-" + FormatNat(-i) else FormatNat(i) }

  /** Value of a string of digits; None if some character is not one. */
  function DigitsValue(s: string): Option<int> {
    if s == [] then Some(0)
    else
      var n := |s| - 1;
      var high := DigitsValue(s[..n]);
      if high.None? || !IsDigit(s[n]) then None
      else Some(10 * high.value + (s[n] as int - '0' as int))
  }

  /** strconv.ParseInt(s, 10, 64): an optional sign, at least one digit, in range. */
  function ParseInt(s: string): Option<int> {
    var negative := s != [] && s[0] == '-';
    var body := if s != [] && (s[0] == '-' || s[0] == '+') then s[1..] else s;
    var magnitude := DigitsValue(body);
    if body == [] || magnitude.None? then None
    else
      var value := if negative then -magnitude.value else magnitude.value;
      if Int64Min <= value <= Int64Max then Some(value) else None
  }

  lemma {:induction false} FormatNatValue(n: nat)
    ensures DigitsValue(FormatNat(n)) == Some(n)
  {
    if n < 10 {
      assert [DigitChar(n)][..0] == [];
    } else {
      FormatNatValue(n / 10);
      assert FormatNat(n)[..|FormatNat(n)| - 1] == FormatNat(n / 10);
    }
  }

  /** Printing and parsing round trip on the whole int64 range. */
  lemma {:induction false} ParseFormat(i: int)
    requires Int64Min <= i <= Int64Max
    ensures ParseInt(FormatInt(i)) == Some(i)
  {
    if i < 0 {
      FormatNatValue(-i);
      assert FormatInt(i)[1..] == FormatNat(-i);
    } else {
      FormatNatValue(i);
      assert IsDigit(FormatNat(i)[0]);
    }
  }

  lemma {:induction false} DigitsValueDigits(s: string)
    ensures DigitsValue(s).Some? <==> AllDigits(s)
  {
    if s != [] {
      var n := |s| - 1;
      DigitsValueDigits(s[..n]);
      assert forall i | 0 <= i < n :: s[..n][i] == s[i];
    }
  }

  function Zeros(n: nat): string { seq(n, _ => '0') }

  /** Digits without leading zeros are what FormatNat writes. */
  lemma {:induction false} DigitsAreFormatted(s: string) returns (zeros: nat)
    requires s != [] && DigitsValue(s).Some?
    ensures DigitsValue(s).value >= 0 && s == Zeros(zeros) + FormatNat(DigitsValue(s).value)
  {
    var n := |s| - 1;
    var d := s[n] as int - '0' as int;
    if n == 0 {
      zeros := 0;
      assert DigitsValue(s[..0]) == Some(0);
      assert s == [DigitChar(d)];
    } else {
      zeros := DigitsAreFormatted(s[..n]);
      var high := DigitsValue(s[..n]).value;
      assert s == s[..n] + [DigitChar(d)];
      if high == 0 {
        assert FormatNat(0) == "0" && Zeros(zeros) + "0" == Zeros(zeros + 1);
        zeros := zeros + 1;
      } else {
        assert FormatNat(10 * high + d) == FormatNat(high) + [DigitChar(d)];
      }
    }
  }

  lemma {:induction false} ZerosValue(zeros: nat, s: string)
    requires DigitsValue(s).Some?
    ensures DigitsValue(Zeros(zeros) + s) == DigitsValue(s)
    decreases |s|, zeros
  {
    if s == [] {
      if zeros > 0 {
        ZerosValue(zeros - 1, []);
        assert (Zeros(zeros) + [])[..zeros - 1] == Zeros(zeros - 1) + [];
      }
    } else {
      var n := |s| - 1;
      ZerosValue(zeros, s[..n]);
      assert (Zeros(zeros) + s)[..zeros + n] == Zeros(zeros) + s[..n];
    }
  }

  /** The sign of a number: a plus may be left out, and zero may have either. */
  predicate SignOf(sign: string, i: int) {
    (sign == "-" && i <= 0) || (sign in {"", "+"} && i >= 0)
  }

  function Abs(i: int): nat { if i < 0 then -i else i }

  /** Exactly the int64 numbers parse, from their decimal digits with a sign and any number of leading zeros. */
  lemma {:induction false} ParsesExactlyWhen(s: string, i: int)
    ensures ParseInt(s) == Some(i)
       <==> -0x8000_0000_0000_0000 <= i <= 0x7fff_ffff_ffff_ffff
            && exists sign, zeros :: SignOf(sign, i) && s == sign + (Zeros(zeros) + FormatNat(Abs(i)))
  {
    if ParseInt(s) == Some(i) {
      var sign, body := SplitSign(s, i);
      var zeros := DigitsAreFormatted(body);
      assert SignOf(sign, i) && s == sign + (Zeros(zeros) + FormatNat(Abs(i)));
    }
    if Int64Min <= i <= Int64Max {
      forall sign, zeros | SignOf(sign, i) && s == sign + (Zeros(zeros) + FormatNat(Abs(i))) ensures ParseInt(s) == Some(i) {
        FormatNatValue(Abs(i));
        ZerosValue(zeros, FormatNat(Abs(i)));
        JoinSign(sign, Zeros(zeros) + FormatNat(Abs(i)), i);
      }
    }
  }

  lemma {:induction false} SplitSign(s: string, i: int) returns (sign: string, body: string)
    requires ParseInt(s) == Some(i)
    ensures SignOf(sign, i) && s == sign + body && body != [] && DigitsValue(body) == Some(Abs(i))
  {
    var signed := s != [] && (s[0] == '-' || s[0] == '+');
    sign, body := if signed then [s[0]] else "", if signed then s[1..] else s;
    DigitsNotNegative(body);
  }

  lemma {:induction false} DigitsNotNegative(s: string)
    ensures DigitsValue(s).Some? ==> DigitsValue(s).value >= 0
  {
    if s != [] {
      DigitsNotNegative(s[..|s| - 1]);
    }
  }

  lemma {:induction false} JoinSign(sign: string, body: string, i: int)
    requires SignOf(sign, i) && Int64Min <= i <= Int64Max && body != [] && DigitsValue(body) == Some(Abs(i))
    ensures ParseInt(sign + body) == Some(i)
  {
    DigitsValueDigits(body);
    assert IsDigit(body[0]);
    if sign == "" {
      assert sign + body == body;
    } else {
      assert (sign + body)[1..] == body && (sign + body)[0] == sign[0];
    }
  }

  /** What ParseInt accepts contains only digits and a sign. */
  lemma {:induction false} ParsedHasNo(s: string, c: char)
    requires ParseInt(s).Some? && !IsDigit(c) && c != '-' && c != '+'
    ensures c !in s
  {
    var body := if s != [] && (s[0] == '-' || s[0] == '+') then s[1..] else s;
    DigitsValueDigits(body);
    forall i | 0 <= i < |s| ensures s[i] != c {
      if s[0] == '-' || s[0] == '+' {
        if i > 0 { assert s[i] == body[i - 1]; }
      } else {
        assert s[i] == body[i];
      }
    }
  }

  lemma {:induction false} FormatIntChars(i: int, c: char)
    requires !IsDigit(c) && c != '-'
    ensures c !in FormatInt(i)
  {
  }

  lemma {:induction false} FormatIntInjective(i: int, j: int)
    requires FormatInt(i) == FormatInt(j)
    ensures i == j
  {
    FormatNatValue(if i < 0 then -i else i);
    FormatNatValue(if j < 0 then -j else j);
    SignShows(i);
    SignShows(j);
    if i < 0 {
      assert FormatNat(-i) == FormatInt(i)[1..] == FormatNat(-j);
    }
  }

  lemma {:induction false} SignShows(i: int)
    ensures FormatInt(i) != [] && (FormatInt(i)[0] == '-' <==> i < 0)
  {
  }

  // ----- splitting at a separator ----------------------------------------------------

  lemma {:induction false} SplitFirst(a: string, b: string, a': string, b': string, c: char)
    requires c !in a && c !in a' && a + [c] + b == a' + [c] + b'
    ensures a == a' && b == b'
  {
    var s := a + [c] + b;
    assert s[|a|] == c && s[|a'|] == c;
    assert forall k | 0 <= k < |a| :: s[k] == a[k];
    assert forall k | 0 <= k < |a'| :: s[k] == a'[k];
    assert |a| == |a'|;
    assert a == s[..|a|] == s[..|a'|] == a';
    assert b == s[|a| + 1..] == s[|a'| + 1..] == b';
  }

  lemma {:induction false} SplitLast(a: string, b: string, a': string, b': string, c: char)
    requires c !in b && c !in b' && a + [c] + b == a' + [c] + b'
    ensures a == a' && b == b'
  {
    var s := a + [c] + b;
    assert s[|a|] == c && s[|a'|] == c;
    assert forall k | |a| < k < |s| :: s[k] == b[k - |a| - 1];
    assert forall k | |a'| < k < |s| :: s[k] == b'[k - |a'| - 1];
    assert |a| == |a'|;
    assert a == s[..|a|] == s[..|a'|] == a';
    assert b == s[|a| + 1..] == s[|a'| + 1..] == b';
  }

  // ----- the keys --------------------------------------------------------------------

  function ParticipantKey(confDBID: int, userID: string): string {
    FormatInt(confDBID) + "::" + userID
  }

  lemma {:induction false} FirstColon(confDBID: int, userID: string)
    ensures ParticipantKey(confDBID, userID) == FormatInt(confDBID) + [':'] + ([':'] + userID)
  {
  }

  /** Distinct (conference, user) pairs never share a key, whatever the user id contains. */
  lemma {:induction false} ParticipantKeyInjective(conf: int, user: string, conf': int, user': string)
    ensures ParticipantKey(conf, user) == ParticipantKey(conf', user') <==> conf == conf' && user == user'
  {
    if ParticipantKey(conf, user) == ParticipantKey(conf', user') {
      FormatIntChars(conf, ':');
      FormatIntChars(conf', ':');
      FirstColon(conf, user);
      FirstColon(conf', user');
      SplitFirst(FormatInt(conf), [':'] + user, FormatInt(conf'), [':'] + user', ':');
      FormatIntInjective(conf, conf');
      assert user == ([':'] + user)[1..] == ([':'] + user')[1..] == user';
    }
  }

  function EwmaKey(connectionID: string, source: string): string { connectionID + "|" + source }

  /** s is some string, a bar, and then t. */
  ghost predicate EndsWithBar(s: string, t: string) {
    |s| > |t| && s[|s| - |t| - 1..] == ['|'] + t
  }

  /** Sources without a bar, such as "browser" and "server", never share a key. */
  lemma {:induction false} EwmaKeyInjective(conn: string, source: string, conn': string, source': string)
    requires '|' !in source && '|' !in source'
    ensures EwmaKey(conn, source) == EwmaKey(conn', source') <==> conn == conn' && source == source'
  {
    if EwmaKey(conn, source) == EwmaKey(conn', source') {
      SplitLast(conn, source, conn', source', '|');
    }
  }

  /**
   * Exactly which pairs of sources can collide for some connection ids: equal ones (for equal ids
   * only), and those where one is the other behind a bar.
   */
  lemma {:induction false} EwmaKeyCollidesExactlyWhen(source: string, source': string)
    ensures (exists conn, conn' :: (conn != conn' || source != source') && EwmaKey(conn, source) == EwmaKey(conn', source'))
       <==> EndsWithBar(source, source') || EndsWithBar(source', source)
  {
    if EndsWithBar(source, source') {
      var conn' := BarCollision(source, source');
    }
    if EndsWithBar(source', source) {
      var conn := BarCollision(source', source);
    }
    forall conn, conn' | (conn != conn' || source != source') && EwmaKey(conn, source) == EwmaKey(conn', source')
      ensures EndsWithBar(source, source') || EndsWithBar(source', source)
    {
      EqualEwmaKeys(conn, source, conn', source');
    }
  }

  lemma {:induction false} EqualEwmaKeys(conn: string, source: string, conn': string, source': string)
    requires EwmaKey(conn, source) == EwmaKey(conn', source')
    ensures (conn == conn' && source == source') || EndsWithBar(source, source') || EndsWithBar(source', source)
  {
    var s := EwmaKey(conn, source);
    if |source| == |source'| {
      assert source == s[|s| - |source|..] == source';
      assert conn == s[..|s| - |source| - 1] == conn';
    } else if |source| > |source'| {
      assert source[|source| - |source'| - 1..] == s[|s| - |source'| - 1..] == ['|'] + source';
    } else {
      assert source'[|source'| - |source| - 1..] == s[|s| - |source| - 1..] == ['|'] + source;
    }
  }

  lemma {:induction false} BarCollision(s: string, t: string) returns (conn: string)
    requires EndsWithBar(s, t)
    ensures conn != "" && EwmaKey("", s) == EwmaKey(conn, t)
  {
    var extra := s[..|s| - |t| - 1];
    assert s == extra + (['|'] + t);
    conn := ['|'] + extra;
    assert EwmaKey("", s) == EwmaKey(conn, t);
  }

  function CacheKey(appID: string, conferenceID: string): string {
    "active_conf:" + (appID + ":" + conferenceID)
  }

  /** Once every app id has parsed as an integer, the cache key separates (app, conference) pairs. */
  lemma {:induction false} CacheKeyInjective(app: string, conf: string, app': string, conf': string)
    requires ParseInt(app).Some? && ParseInt(app').Some?
    ensures CacheKey(app, conf) == CacheKey(app', conf') <==> app == app' && conf == conf'
  {
    if CacheKey(app, conf) == CacheKey(app', conf') {
      ParsedHasNo(app, ':');
      ParsedHasNo(app', ':');
      assert app + [':'] + conf == CacheKey(app, conf)[12..] == app' + [':'] + conf';
      SplitFirst(app, conf, app', conf', ':');
    }
  }

  const Newline: char := '\n'

  /** BuildCanonical; digest is the 64 hex characters of the body's SHA-256. */
  function BuildCanonical(verb: string, path: string, ts: int, digest: string): string {
    verb + [Newline] + path + [Newline] + FormatInt(ts) + [Newline] + digest
  }

  /**
   * The signed string fixes timestamp and digest outright, and verb and path up to where the
   * newline between them stands.
   */
  lemma {:induction false} CanonicalExactlyWhen(
      verb: string, path: string, ts: int, digest: string, verb': string, path': string, ts': int, digest': string)
    requires |digest| == |digest'| == 64
    ensures BuildCanonical(verb, path, ts, digest) == BuildCanonical(verb', path', ts', digest')
       <==> verb + [Newline] + path == verb' + [Newline] + path' && ts == ts' && digest == digest'
  {
    var s, s' := BuildCanonical(verb, path, ts, digest), BuildCanonical(verb', path', ts', digest');
    var head, head' := verb + [Newline] + path, verb' + [Newline] + path';
    var front, front' := head + [Newline] + FormatInt(ts), head' + [Newline] + FormatInt(ts');
    assert s == front + [Newline] + digest && s' == front' + [Newline] + digest';
    if s == s' {
      assert digest == s[|s| - 64..] == digest';
      assert front == s[..|s| - 65] == front';
      FormatIntChars(ts, Newline);
      FormatIntChars(ts', Newline);
      SplitLast(head, FormatInt(ts), head', FormatInt(ts'), Newline);
      FormatIntInjective(ts, ts');
    }
  }

  /** With verbs free of newlines the signed string determines the request, newlines in paths or not. */
  lemma {:induction false} CanonicalInjective(
      verb: string, path: string, ts: int, digest: string, verb': string, path': string, ts': int, digest': string)
    requires |digest| == |digest'| == 64
    requires Newline !in verb && Newline !in verb'
    ensures BuildCanonical(verb, path, ts, digest) == BuildCanonical(verb', path', ts', digest')
       <==> verb == verb' && path == path' && ts == ts' && digest == digest'
  {
    CanonicalExactlyWhen(verb, path, ts, digest, verb', path', ts', digest');
    if verb + [Newline] + path == verb' + [Newline] + path' {
      SplitFirst(verb, path, verb', path', Newline);
    }
  }
}

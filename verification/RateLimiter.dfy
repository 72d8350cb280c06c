/** Request rate limiting: a token bucket and a sliding window together, one pair per client and path pattern. */
module RateLimiter {
  import opened Common

  datatype Limit = Limit(rpm: int, burst: int)

  /** Patterns in dictionary order; `fallback` is the `_default` entry. */
  datatype Config = Config(enabled: bool, whitelist: set<string>, custom: seq<(string, Limit)>,
                           defaults: seq<(string, Limit)>, fallback: Limit)

  datatype Bucket = Bucket(tokens: real, lastUpdate: real, requests: seq<real>)

  datatype Info =
    | Unlimited
    | Allowed(remaining: int, limit: int, reset: int)
    | Denied(limit: int, retryAfter: int)

  const WINDOW: real := 60.0

  // ---- which limit, which bucket ----

  function FirstMatch(table: seq<(string, Limit)>, path: string): (i: nat)
    ensures i <= |table|
    ensures i < |table| ==> table[i].0 <= path
    ensures forall k :: 0 <= k < i ==> !(table[k].0 <= path)
  {
    if table == [] then 0 else if table[0].0 <= path then 0 else 1 + FirstMatch(table[1..], path)
  }

  function GetLimit(cfg: Config, path: string): Limit {
    var c := FirstMatch(cfg.custom, path);
    if c < |cfg.custom| then cfg.custom[c].1
    else
      var d := FirstMatch(cfg.defaults, path);
      if d < |cfg.defaults| then cfg.defaults[d].1 else cfg.fallback
  }

  function BucketPattern(cfg: Config, path: string): string {
    var d := FirstMatch(cfg.defaults, path);
    if d < |cfg.defaults| then cfg.defaults[d].0 else "_default"
  }

  function BucketKey(cfg: Config, ip: string, path: string): string {
    ip + ":" + BucketPattern(cfg, path)
  }

  /** The built-in table: distinct patterns, none called `_default`, none with a colon. */
  ghost predicate TableOk(cfg: Config) {
    && (forall i :: 0 <= i < |cfg.defaults| ==> cfg.defaults[i].0 != "_default" && ':' !in cfg.defaults[i].0)
    && (forall i, j :: 0 <= i < j < |cfg.defaults| ==> cfg.defaults[i].0 != cfg.defaults[j].0)
  }

  /** A text is cut at its last colon in one way only. */
  lemma {:induction false} LastColon(a: string, p: string, b: string, q: string)
    requires ':' !in p && ':' !in q && a + ":" + p == b + ":" + q
    ensures a == b && p == q
  {
    var s := a + ":" + p;
    assert s[|a|] == ':' && s[|b|] == ':';
    assert forall k :: |a| < k < |s| ==> s[k] == p[k - |a| - 1];
    assert forall k :: |b| < k < |s| ==> s[k] == q[k - |b| - 1];
    assert |a| == |b|;
    assert a == s[..|a|] && b == s[..|b|] && p == s[|a| + 1..] && q == s[|b| + 1..];
  }

  lemma PatternHasNoColon(cfg: Config, path: string)
    requires TableOk(cfg)
    ensures ':' !in BucketPattern(cfg, path)
  {
  }

  lemma SameKeySamePattern(cfg: Config, ip: string, path: string, ip': string, path': string)
    requires TableOk(cfg) && BucketKey(cfg, ip, path) == BucketKey(cfg, ip', path')
    ensures ip == ip' && BucketPattern(cfg, path) == BucketPattern(cfg, path')
  {
    PatternHasNoColon(cfg, path);
    PatternHasNoColon(cfg, path');
    LastColon(ip, BucketPattern(cfg, path), ip', BucketPattern(cfg, path'));
  }

  /** Pattern i is the first of the table that the path begins with. */
  predicate BeginsWith(table: seq<(string, Limit)>, path: string, i: nat) {
    i < |table| && table[i].0 <= path && forall k :: 0 <= k < i ==> !(table[k].0 <= path)
  }

  predicate BeginsWithNone(table: seq<(string, Limit)>, path: string) { forall k :: 0 <= k < |table| ==> !(table[k].0 <= path) }

  /** A custom limit goes before a built-in one, the first pattern before later ones, and the fallback comes last. Buckets go
      by the built-in patterns alone. */
  lemma {:induction false} LimitAndBucket(cfg: Config, ip: string, path: string)
    ensures forall i: nat :: BeginsWith(cfg.custom, path, i) ==> GetLimit(cfg, path) == cfg.custom[i].1
    ensures BeginsWithNone(cfg.custom, path) ==> forall i: nat :: BeginsWith(cfg.defaults, path, i) ==> GetLimit(cfg, path) == cfg.defaults[i].1
    ensures BeginsWithNone(cfg.custom, path) && BeginsWithNone(cfg.defaults, path) ==> GetLimit(cfg, path) == cfg.fallback
    ensures forall i: nat :: BeginsWith(cfg.defaults, path, i) ==> BucketKey(cfg, ip, path) == ip + ":" + cfg.defaults[i].0
    ensures BeginsWithNone(cfg.defaults, path) ==> BucketKey(cfg, ip, path) == ip + ":_default"
  {
    forall i: nat | BeginsWith(cfg.custom, path, i) ensures FirstMatch(cfg.custom, path) == i { FirstMatchIs(cfg.custom, path, i); }
    forall i: nat | BeginsWith(cfg.defaults, path, i) ensures FirstMatch(cfg.defaults, path) == i {
      FirstMatchIs(cfg.defaults, path, i);
      assert ip + (":" + cfg.defaults[i].0) == ip + ":" + cfg.defaults[i].0;
    }
    assert ip + (":" + "_default") == ip + ":_default";
  }

  /** Requests counted in one bucket all get one limit, as long as no custom limit touches their paths. */
  lemma OneLimitPerBucket(cfg: Config, ip: string, path: string, ip': string, path': string)
    requires TableOk(cfg) && BucketKey(cfg, ip, path) == BucketKey(cfg, ip', path')
    requires FirstMatch(cfg.custom, path) == |cfg.custom| && FirstMatch(cfg.custom, path') == |cfg.custom|
    ensures GetLimit(cfg, path) == GetLimit(cfg, path')
  {
    SameKeySamePattern(cfg, ip, path, ip', path');
    var d, e := FirstMatch(cfg.defaults, path), FirstMatch(cfg.defaults, path');
    assert d == e;
  }

  /** Requests counted in one bucket are held to one limit, whichever they are. */
  ghost predicate OneLimitEach(cfg: Config) {
    forall ip, path, ip', path' :: OneLimit(cfg, ip, path, ip', path')
  }

  predicate OneLimit(cfg: Config, ip: string, path: string, ip': string, path': string) {
    BucketKey(cfg, ip, path) == BucketKey(cfg, ip', path') ==> GetLimit(cfg, path) == GetLimit(cfg, path')
  }

  lemma {:induction false} NoCustomOneLimit(cfg: Config)
    requires TableOk(cfg) && cfg.custom == []
    ensures OneLimitEach(cfg)
  {
    forall ip, path, ip', path' ensures OneLimit(cfg, ip, path, ip', path') {
      if BucketKey(cfg, ip, path) == BucketKey(cfg, ip', path') {
        OneLimitPerBucket(cfg, ip, path, ip', path');
      }
    }
  }

  function Patterns(table: seq<(string, Limit)>): (names: seq<string>)
    ensures |names| == |table| && forall i :: 0 <= i < |table| ==> names[i] == table[i].0
  {
    seq(|table|, i requires 0 <= i < |table| => table[i].0)
  }

  /** The paths that decide: the empty one and every pattern of either table. */
  function Decisive(cfg: Config): seq<string> { [""] + Patterns(cfg.custom) + Patterns(cfg.defaults) }

  /** The two tables agree: patterns that fall into one bucket have one limit. */
  predicate TablesAgree(cfg: Config) {
    forall p, q :: p in Decisive(cfg) && q in Decisive(cfg) && BucketPattern(cfg, p) == BucketPattern(cfg, q) ==>
      GetLimit(cfg, p) == GetLimit(cfg, q)
  }

  lemma {:induction false} FirstMatchIs(table: seq<(string, Limit)>, path: string, i: nat)
    requires i <= |table| && (i < |table| ==> table[i].0 <= path)
    requires forall k :: 0 <= k < i ==> !(table[k].0 <= path)
    ensures FirstMatch(table, path) == i
  {
    if i > 0 {
      assert !(table[0].0 <= path);
      forall k | 0 <= k < i - 1 ensures !(table[1..][k].0 <= path) {
        assert !(table[k + 1].0 <= path);
      }
      FirstMatchIs(table[1..], path, i - 1);
    }
  }

  /** Cutting a path down to a prefix that still has its first match leaves the first match. */
  lemma {:induction false} FirstMatchOfPrefix(table: seq<(string, Limit)>, path: string, q: string)
    requires q <= path
    requires FirstMatch(table, path) < |table| ==> table[FirstMatch(table, path)].0 <= q
    ensures FirstMatch(table, q) == FirstMatch(table, path)
  {
    var i := FirstMatch(table, path);
    forall k | 0 <= k < i ensures !(table[k].0 <= q) {
      if table[k].0 <= q {
        PrefixTrans(table[k].0, q, path);
      }
    }
    FirstMatchIs(table, q, i);
  }

  lemma PrefixTrans(a: string, b: string, c: string)
    requires a <= b && b <= c
    ensures a <= c
  {
  }

  lemma {:induction false} PrefixesCompare(a: string, b: string, c: string)
    requires a <= c && b <= c && |a| <= |b|
    ensures a <= b
  {
    assert a == c[..|a|] && b == c[..|b|];
  }

  /** Every path has the bucket and the limit of a decisive one. */
  lemma {:induction false} DecidedBy(cfg: Config, path: string) returns (q: string)
    ensures q in Decisive(cfg) && BucketPattern(cfg, q) == BucketPattern(cfg, path) && GetLimit(cfg, q) == GetLimit(cfg, path)
  {
    var c, d := FirstMatch(cfg.custom, path), FirstMatch(cfg.defaults, path);
    var x := if c < |cfg.custom| then cfg.custom[c].0 else "";
    var y := if d < |cfg.defaults| then cfg.defaults[d].0 else "";
    assert c < |cfg.custom| ==> x == Patterns(cfg.custom)[c];
    assert d < |cfg.defaults| ==> y == Patterns(cfg.defaults)[d];
    assert "" in [""];
    if |x| <= |y| {
      PrefixesCompare(x, y, path);
      q := y;
    } else {
      PrefixesCompare(y, x, path);
      q := x;
    }
    FirstMatchOfPrefix(cfg.custom, path, q);
    FirstMatchOfPrefix(cfg.defaults, path, q);
  }

  /** For any configuration: every bucket has one limit if and only if the finitely many patterns of its two tables
      agree. */
  lemma {:induction false} OneLimitEachIffTablesAgree(cfg: Config)
    requires TableOk(cfg)
    ensures OneLimitEach(cfg) <==> TablesAgree(cfg)
  {
    if OneLimitEach(cfg) {
      forall p, q | p in Decisive(cfg) && q in Decisive(cfg) && BucketPattern(cfg, p) == BucketPattern(cfg, q)
        ensures GetLimit(cfg, p) == GetLimit(cfg, q)
      {
        assert OneLimit(cfg, "", p, "", q);
      }
    }
    if TablesAgree(cfg) {
      forall ip, path, ip', path' ensures OneLimit(cfg, ip, path, ip', path') {
        if BucketKey(cfg, ip, path) == BucketKey(cfg, ip', path') {
          SameKeySamePattern(cfg, ip, path, ip', path');
          var p := DecidedBy(cfg, path);
          var q := DecidedBy(cfg, path');
        }
      }
    }
  }

  /** One built-in pattern and one custom limit below it. */
  function Shared(): Config {
    Config(true, {}, [("/api/v2/cas/7", Limit(5, 1))], [("/api/v2/cas", Limit(60, 15))], Limit(300, 50))
  }

  /** There one bucket serves two limits: for one authority, and for the list of them. */
  lemma {:induction false} CustomLimitSharesBucket(ip: string)
    ensures TableOk(Shared()) && !TablesAgree(Shared())
    ensures BucketKey(Shared(), ip, "/api/v2/cas/7") == BucketKey(Shared(), ip, "/api/v2/cas")
    ensures GetLimit(Shared(), "/api/v2/cas/7") == Limit(5, 1) && GetLimit(Shared(), "/api/v2/cas") == Limit(60, 15)
  {
    var cfg := Shared();
    var p, q := "/api/v2/cas/7", "/api/v2/cas";
    assert |q| < |p|;
    FirstMatchIs(cfg.custom, p, 0);
    FirstMatchIs(cfg.custom, q, 1);
    assert q <= p by { assert p[..|q|] == q; }
    FirstMatchIs(cfg.defaults, p, 0);
    FirstMatchIs(cfg.defaults, q, 0);
    assert Patterns(cfg.custom)[0] == p && Patterns(cfg.defaults)[0] == q;
    assert p in Decisive(cfg) && q in Decisive(cfg);
  }

  /** And a path below no pattern has the fallback limit and the common bucket. */
  lemma {:induction false} OtherPathsShareTheDefault(ip: string)
    ensures GetLimit(Shared(), "/login") == Limit(300, 50) && BucketKey(Shared(), ip, "/login") == ip + ":_default"
  {
    var cfg, r := Shared(), "/login";
    assert |"/api/v2/cas"| > |r| && |"/api/v2/cas/7"| > |r|;
    FirstMatchIs(cfg.custom, r, 1);
    FirstMatchIs(cfg.defaults, r, 1);
  }

  // ---- one bucket over time ----

  /** [t for t in requests if now - t < window] */
  function Recent(requests: seq<real>, now: real): seq<real> {
    if requests == [] then []
    else
      var t, rest := requests[|requests| - 1], Recent(requests[..|requests| - 1], now);
      if now - t < WINDOW then rest + [t] else rest
  }

  function Credit(rpm: int, elapsed: real): real { (elapsed / WINDOW) * rpm as real }

  function MinReal(a: real, b: real): real { if a < b then a else b }

  function Refilled(b: Bucket, limit: Limit, now: real): Bucket {
    Bucket(MinReal(limit.burst as real, b.tokens + Credit(limit.rpm, now - b.lastUpdate)), now, Recent(b.requests, now))
  }

  predicate Admits(b: Bucket, limit: Limit) { b.tokens >= 1.0 && |b.requests| < limit.rpm }

  function Spent(b: Bucket, now: real): Bucket { b.(tokens := b.tokens - 1.0, requests := b.requests + [now]) }

  function NewBucket(limit: Limit, now: real): Bucket { Bucket(limit.burst as real, now, []) }

  /** A request at a bucket: the limit it was held to and when it came. */
  datatype Attempt = Attempt(limit: Limit, at: real)

  /** A bucket and the times of the requests it ever admitted. */
  datatype Trace = Trace(bucket: Bucket, admitted: seq<real>)

  function Replay(log: seq<Attempt>): Trace
    requires log != []
  {
    var a, init := log[|log| - 1], log[..|log| - 1];
    var before := if init == [] then Trace(NewBucket(a.limit, a.at), []) else Replay(init);
    var b := Refilled(before.bucket, a.limit, a.at);
    if Admits(b, a.limit) then Trace(Spent(b, a.at), before.admitted + [a.at]) else Trace(b, before.admitted)
  }

  /** Fixed limits and a clock that does not go back. */
  predicate Steady(log: seq<Attempt>, limit: Limit) {
    && (forall i :: 0 <= i < |log| ==> log[i].limit == limit)
    && (forall i, j :: 0 <= i < j < |log| ==> log[i].at <= log[j].at)
  }

  lemma CreditAdds(rpm: int, a: real, b: real)
    ensures Credit(rpm, a) + Credit(rpm, b) == Credit(rpm, a + b)
  {
    assert a / WINDOW + b / WINDOW == (a + b) / WINDOW;
  }

  lemma CreditGrows(rpm: int, a: real, b: real)
    requires rpm >= 0 && a <= b
    ensures Credit(rpm, a) <= Credit(rpm, b)
  {
    assert a / WINDOW <= b / WINDOW;
  }

  lemma CreditIsRate(rpm: int, elapsed: real)
    ensures Credit(rpm, elapsed) == rpm as real * elapsed / 60.0
  {
    var r := rpm as real;
    assert (elapsed / WINDOW) * r == r * (elapsed / WINDOW);
    assert r * (elapsed / WINDOW) == r * elapsed / WINDOW;
  }

  predicate SortedTimes(h: seq<real>, now: real) {
    && (forall i :: 0 <= i < |h| ==> h[i] <= now)
    && (forall i, j :: 0 <= i < j < |h| ==> h[i] <= h[j])
  }

  /** Pruning twice is pruning once at the later time. */
  lemma {:induction false} RecentTwice(h: seq<real>, earlier: real, now: real)
    requires earlier <= now
    ensures Recent(Recent(h, earlier), now) == Recent(h, now)
  {
    if h != [] {
      RecentTwice(h[..|h| - 1], earlier, now);
      var t, rest := h[|h| - 1], Recent(h[..|h| - 1], earlier);
      if earlier - t < WINDOW {
        assert (rest + [t])[..|rest|] == rest;
      }
    }
  }

  lemma {:induction false} RecentAppend(h: seq<real>, t: real, now: real)
    ensures Recent(h + [t], now) == if now - t < WINDOW then Recent(h, now) + [t] else Recent(h, now)
  {
    assert (h + [t])[..|h|] == h;
  }

  /** Everything from a recent request on is recent. */
  lemma {:induction false} RecentHolds(h: seq<real>, now: real, i: nat)
    requires SortedTimes(h, now) && i < |h| && now - h[i] < WINDOW
    ensures |Recent(h, now)| >= |h| - i
  {
    if i < |h| - 1 {
      assert h[i] <= h[|h| - 1];
      RecentHolds(h[..|h| - 1], now, i);
    }
  }

  /** Window: admissions less than a minute apart number at most rpm. */
  ghost predicate WindowOk(h: seq<real>, limit: Limit) {
    forall i, j :: 0 <= i <= j < |h| && h[j] - h[i] < WINDOW ==> j - i + 1 <= limit.rpm
  }

  /** Rate: admissions over a span number at most burst plus what the span refills. */
  ghost predicate RateOk(h: seq<real>, limit: Limit) {
    forall i, j :: 0 <= i <= j < |h| ==> (j - i + 1) as real <= limit.burst as real + Credit(limit.rpm, h[j] - h[i])
  }

  /** What the tokens still owe to past admissions. */
  ghost predicate TokensOk(b: Bucket, h: seq<real>, limit: Limit) {
    && b.tokens <= limit.burst as real
    && forall i :: 0 <= i < |h| ==>
         (|h| - i) as real + b.tokens <= limit.burst as real + Credit(limit.rpm, b.lastUpdate - h[i])
  }

  ghost predicate TraceOk(t: Trace, limit: Limit) {
    && SortedTimes(t.admitted, t.bucket.lastUpdate)
    && t.bucket.requests == Recent(t.admitted, t.bucket.lastUpdate)
    && (t.admitted != [] ==> limit.rpm >= 1)
    && WindowOk(t.admitted, limit) && RateOk(t.admitted, limit) && TokensOk(t.bucket, t.admitted, limit)
  }

  lemma RefillOk(t: Trace, limit: Limit, now: real)
    requires TraceOk(t, limit) && t.bucket.lastUpdate <= now
    ensures TraceOk(t.(bucket := Refilled(t.bucket, limit, now)), limit)
  {
    var b := Refilled(t.bucket, limit, now);
    RecentTwice(t.admitted, t.bucket.lastUpdate, now);
    forall i | 0 <= i < |t.admitted|
      ensures (|t.admitted| - i) as real + b.tokens <= limit.burst as real + Credit(limit.rpm, now - t.admitted[i])
    {
      CreditAdds(limit.rpm, t.bucket.lastUpdate - t.admitted[i], now - t.bucket.lastUpdate);
      assert (t.bucket.lastUpdate - t.admitted[i]) + (now - t.bucket.lastUpdate) == now - t.admitted[i];
    }
  }

  lemma SpendKeepsWindow(h: seq<real>, now: real, limit: Limit)
    requires SortedTimes(h, now) && WindowOk(h, limit) && |Recent(h, now)| < limit.rpm
    ensures WindowOk(h + [now], limit)
  {
    var h' := h + [now];
    forall i, j | 0 <= i <= j < |h'| && h'[j] - h'[i] < WINDOW ensures j - i + 1 <= limit.rpm {
      if j == |h| && i < |h| {
        RecentHolds(h, now, i);
      }
    }
  }

  lemma SpendKeepsRate(b: Bucket, h: seq<real>, limit: Limit)
    requires RateOk(h, limit) && TokensOk(b, h, limit) && b.tokens >= 1.0
    ensures RateOk(h + [b.lastUpdate], limit)
  {
    var h' := h + [b.lastUpdate];
    forall i, j | 0 <= i <= j < |h'|
      ensures (j - i + 1) as real <= limit.burst as real + Credit(limit.rpm, h'[j] - h'[i])
    {
      if j == |h| {
        assert Credit(limit.rpm, 0.0) == 0.0;
      }
    }
  }

  lemma SpendKeepsTokens(b: Bucket, h: seq<real>, limit: Limit)
    requires TokensOk(b, h, limit)
    ensures TokensOk(Spent(b, b.lastUpdate), h + [b.lastUpdate], limit)
  {
    var h', b' := h + [b.lastUpdate], Spent(b, b.lastUpdate);
    forall i | 0 <= i < |h'|
      ensures (|h'| - i) as real + b'.tokens <= limit.burst as real + Credit(limit.rpm, b.lastUpdate - h'[i])
    {
      if i == |h| {
        assert Credit(limit.rpm, 0.0) == 0.0;
      } else {
        assert (|h'| - i) as real == (|h| - i) as real + 1.0;
      }
    }
  }

  lemma SpendOk(t: Trace, limit: Limit)
    requires TraceOk(t, limit) && Admits(t.bucket, limit)
    ensures var now := t.bucket.lastUpdate; TraceOk(Trace(Spent(t.bucket, now), t.admitted + [now]), limit)
  {
    var now, h := t.bucket.lastUpdate, t.admitted;
    RecentAppend(h, now, now);
    SpendKeepsWindow(h, now, limit);
    SpendKeepsRate(t.bucket, h, limit);
    SpendKeepsTokens(t.bucket, h, limit);
    SortedSnoc(h, now);
    TraceMade(Trace(Spent(t.bucket, now), h + [now]), limit);
  }

  lemma SortedSnoc(h: seq<real>, now: real)
    requires SortedTimes(h, now)
    ensures SortedTimes(h + [now], now)
  {
  }

  lemma TraceMade(t: Trace, limit: Limit)
    requires SortedTimes(t.admitted, t.bucket.lastUpdate) && t.bucket.requests == Recent(t.admitted, t.bucket.lastUpdate)
    requires limit.rpm >= 1 && WindowOk(t.admitted, limit) && RateOk(t.admitted, limit) && TokensOk(t.bucket, t.admitted, limit)
    ensures TraceOk(t, limit)
  {
  }

  lemma {:induction false} ReplayOk(log: seq<Attempt>, limit: Limit)
    requires log != [] && Steady(log, limit)
    ensures TraceOk(Replay(log), limit) && Replay(log).bucket.lastUpdate == log[|log| - 1].at
  {
    var a, init := log[|log| - 1], log[..|log| - 1];
    if init != [] {
      ReplayOk(init, limit);
    }
    var before := if init == [] then Trace(NewBucket(limit, a.at), []) else Replay(init);
    RefillOk(before, limit, a.at);
    var filled := before.(bucket := Refilled(before.bucket, limit, a.at));
    if Admits(filled.bucket, limit) {
      SpendOk(filled, limit);
    }
  }

  /** The pruned list is the admissions of the last minute, taken from the full history. */
  lemma RequestsAreTheLastMinute(log: seq<Attempt>, limit: Limit)
    requires log != [] && Steady(log, limit)
    ensures Replay(log).bucket.requests == Recent(Replay(log).admitted, log[|log| - 1].at)
  {
    ReplayOk(log, limit);
  }

  // ---- counting over intervals ----

  predicate Inside(t: real, lo: real, hi: real, closed: bool) { lo <= t && (t < hi || (closed && t == hi)) }

  function Count(h: seq<real>, lo: real, hi: real, closed: bool): nat {
    if h == [] then 0
    else Count(h[..|h| - 1], lo, hi, closed) + if Inside(h[|h| - 1], lo, hi, closed) then 1 else 0
  }

  lemma {:induction false} CountSpan(h: seq<real>, now: real, lo: real, hi: real, closed: bool)
    requires SortedTimes(h, now)
    ensures Count(h, lo, hi, closed) == 0
            || exists i, j :: 0 <= i <= j < |h| && Inside(h[i], lo, hi, closed) && Inside(h[j], lo, hi, closed)
                              && Count(h, lo, hi, closed) <= j - i + 1
  {
    if h != [] {
      var init, k := h[..|h| - 1], |h| - 1;
      CountSpan(init, now, lo, hi, closed);
      if Count(init, lo, hi, closed) == 0 {
        if Inside(h[k], lo, hi, closed) {
          assert Inside(h[k], lo, hi, closed) && Count(h, lo, hi, closed) <= k - k + 1;
        }
      } else {
        var i, j :| 0 <= i <= j < |init| && Inside(init[i], lo, hi, closed) && Inside(init[j], lo, hi, closed)
                    && Count(init, lo, hi, closed) <= j - i + 1;
        if Inside(h[k], lo, hi, closed) {
          assert Inside(h[i], lo, hi, closed) && Inside(h[k], lo, hi, closed) && Count(h, lo, hi, closed) <= k - i + 1;
        } else {
          assert Inside(h[i], lo, hi, closed) && Inside(h[j], lo, hi, closed) && Count(h, lo, hi, closed) <= j - i + 1;
        }
      }
    }
  }

  /** In any half-open minute, a bucket admits at most rpm requests. */
  lemma AtMostRpmPerMinute(log: seq<Attempt>, limit: Limit, start: real)
    requires log != [] && Steady(log, limit)
    ensures Count(Replay(log).admitted, start, start + WINDOW, false) <= Max(0, limit.rpm)
  {
    ReplayOk(log, limit);
    CountSpan(Replay(log).admitted, log[|log| - 1].at, start, start + WINDOW, false);
  }

  /** Any block of admissions that spans at most `length` has at most `most` members. */
  ghost predicate BlocksHold(h: seq<real>, length: real, most: real) {
    forall i, j :: 0 <= i <= j < |h| && h[j] - h[i] <= length ==> (j - i + 1) as real <= most
  }

  lemma {:induction false} BlocksWithinCredit(h: seq<real>, limit: Limit, length: real)
    requires RateOk(h, limit) && (h != [] ==> limit.rpm >= 1)
    ensures BlocksHold(h, length, limit.burst as real + limit.rpm as real * length / 60.0)
  {
    forall i, j | 0 <= i <= j < |h| && h[j] - h[i] <= length
      ensures (j - i + 1) as real <= limit.burst as real + limit.rpm as real * length / 60.0
    {
      CreditGrows(limit.rpm, h[j] - h[i], length);
      CreditIsRate(limit.rpm, length);
    }
  }

  lemma {:induction false} CountWithin(h: seq<real>, now: real, start: real, length: real, most: real)
    requires SortedTimes(h, now) && BlocksHold(h, length, most) && Count(h, start, start + length, true) != 0
    ensures Count(h, start, start + length, true) as real <= most
  {
    CountSpan(h, now, start, start + length, true);
    var n := Count(h, start, start + length, true);
    var i, j :| 0 <= i <= j < |h| && Inside(h[i], start, start + length, true) && Inside(h[j], start, start + length, true)
                && n <= j - i + 1;
    InsideSpan(h[i], h[j], start, length);
    NoMoreThan(n, j - i + 1, most);
  }

  lemma InsideSpan(x: real, y: real, start: real, length: real)
    requires Inside(x, start, start + length, true) && Inside(y, start, start + length, true)
    ensures y - x <= length
  {
  }

  lemma NoMoreThan(n: nat, m: nat, most: real)
    requires n <= m && m as real <= most
    ensures n as real <= most
  {
    assert n as real <= m as real;
  }

  /** In any closed interval of length L, a bucket admits at most burst + rpm * L / 60 requests. */
  lemma AtMostBurstPlusRate(log: seq<Attempt>, limit: Limit, start: real, length: real)
    requires log != [] && Steady(log, limit) && 0.0 <= length
    ensures var n := Count(Replay(log).admitted, start, start + length, true);
            n == 0 || n as real <= limit.burst as real + limit.rpm as real * length / 60.0
  {
    ReplayOk(log, limit);
    if Count(Replay(log).admitted, start, start + length, true) != 0 {
      BlocksWithinCredit(Replay(log).admitted, limit, length);
      CountWithin(Replay(log).admitted, log[|log| - 1].at, start, length,
                  limit.burst as real + limit.rpm as real * length / 60.0);
    }
  }

  // ---- waiting out a refusal ----

  function RetryAfter(b: Bucket, now: real): int {
    if b.requests != [] then (WINDOW - (now - b.requests[0])).Floor + 1 else 60
  }

  lemma {:induction false} RecentShrinks(h: seq<real>, now: real, later: real)
    requires SortedTimes(h, now) && now <= later
    ensures |Recent(h, later)| <= |Recent(h, now)|
    ensures Recent(h, now) != [] && later - Recent(h, now)[0] >= WINDOW ==> |Recent(h, later)| < |Recent(h, now)|
    ensures Recent(h, now) != [] ==> Recent(h, now)[0] <= h[|h| - 1]
  {
    if h != [] {
      RecentShrinks(h[..|h| - 1], now, later);
    }
  }

  /** The recent requests are a block at the end of the history. */
  lemma {:induction false} RecentIsABlock(h: seq<real>, now: real)
    requires SortedTimes(h, now)
    ensures |Recent(h, now)| <= |h|
    ensures forall k :: 0 <= k < |h| && k >= |h| - |Recent(h, now)| ==> now - h[k] < WINDOW
  {
    if h != [] {
      var init := h[..|h| - 1];
      RecentIsABlock(init, now);
      if now - h[|h| - 1] >= WINDOW {
        forall k | 0 <= k < |init| ensures now - h[k] >= WINDOW {}
        NoneRecent(init, now);
      }
    }
  }

  lemma {:induction false} NoneRecent(h: seq<real>, now: real)
    requires forall k :: 0 <= k < |h| ==> now - h[k] >= WINDOW
    ensures Recent(h, now) == []
  {
    if h != [] {
      NoneRecent(h[..|h| - 1], now);
    }
  }

  lemma {:induction false} RecentBounded(h: seq<real>, now: real, limit: Limit)
    requires SortedTimes(h, now) && WindowOk(h, limit) && limit.rpm >= 1
    ensures |Recent(h, now)| <= limit.rpm
  {
    RecentIsABlock(h, now);
    var n := |Recent(h, now)|;
    if n > 0 {
      assert h[|h| - 1] - h[|h| - n] < WINDOW;
    }
  }

  lemma {:induction false} SteadyPrefix(log: seq<Attempt>, more: seq<Attempt>, limit: Limit)
    requires Steady(log + more, limit)
    ensures Steady(log, limit)
  {
    forall i | 0 <= i < |log| ensures log[i] == (log + more)[i] {}
  }

  lemma {:induction false} WindowAfterWaiting(log: seq<Attempt>, limit: Limit, later: real)
    requires log != [] && Steady(log, limit) && limit.rpm >= 1
    requires var t := Replay(log); later >= t.bucket.lastUpdate + RetryAfter(t.bucket, t.bucket.lastUpdate) as real
    ensures |Recent(Replay(log).admitted, later)| < limit.rpm
  {
    ReplayOk(log, limit);
    var t := Replay(log);
    var now := t.bucket.lastUpdate;
    if t.bucket.requests != [] {
      OldestIsRecent(t.admitted, now);
    }
    RecentBounded(t.admitted, now, limit);
    RecentShrinks(t.admitted, now, later);
  }

  /** A refused caller who waits `retry_after` is not refused by the window count, whatever other attempts come to the bucket
      meanwhile, as long as none of them is admitted. */
  lemma {:induction false} WaitingClearsTheWindow(log: seq<Attempt>, more: seq<Attempt>, limit: Limit, later: real)
    requires log != [] && Steady(log + more, limit) && limit.rpm >= 1
    requires Replay(log + more).admitted == Replay(log).admitted && (log + more)[|log + more| - 1].at <= later
    requires var t := Replay(log); later >= t.bucket.lastUpdate + RetryAfter(t.bucket, t.bucket.lastUpdate) as real
    ensures |Refilled(Replay(log + more).bucket, limit, later).requests| < limit.rpm
  {
    SteadyPrefix(log, more, limit);
    WindowAfterWaiting(log, limit, later);
    ReplayOk(log + more, limit);
    RecentTwice(Replay(log + more).admitted, (log + more)[|log + more| - 1].at, later);
  }

  lemma {:induction false} OldestIsRecent(h: seq<real>, now: real)
    requires SortedTimes(h, now) && Recent(h, now) != []
    ensures now - Recent(h, now)[0] < WINDOW && Recent(h, now)[0] <= now
  {
    if Recent(h[..|h| - 1], now) != [] {
      OldestIsRecent(h[..|h| - 1], now);
    }
  }

  // ---- the limiter ----

  type Logs = map<string, seq<Attempt>>

  function Attempts(logs: Logs, key: string): seq<Attempt> { if key in logs then logs[key] else [] }

  /** Each bucket has held all its requests to the limit of its own pattern. */
  ghost predicate Uniform(cfg: Config, logs: Logs) {
    forall k :: k in logs ==> exists ip, path :: Labels(cfg, k, logs[k], ip, path)
  }

  ghost predicate Labels(cfg: Config, key: string, log: seq<Attempt>, ip: string, path: string) {
    BucketKey(cfg, ip, path) == key && forall i :: 0 <= i < |log| ==> log[i].limit == GetLimit(cfg, path)
  }

  lemma OneMoreAttempt(cfg: Config, logs: Logs, ip: string, path: string, now: real)
    requires OneLimitEach(cfg) && Uniform(cfg, logs)
    ensures var key := BucketKey(cfg, ip, path);
            Labels(cfg, key, Attempts(logs, key) + [Attempt(GetLimit(cfg, path), now)], ip, path)
  {
    var key := BucketKey(cfg, ip, path);
    if key in logs {
      var ip', path' :| Labels(cfg, key, logs[key], ip', path');
      assert OneLimit(cfg, ip, path, ip', path');
    }
  }

  /** Where the tables agree, a checked request keeps every bucket on one limit, so the bounds above apply to it. */
  lemma UniformStep(cfg: Config, logs: Logs, ip: string, path: string, now: real)
    requires OneLimitEach(cfg) && Uniform(cfg, logs)
    ensures var key := BucketKey(cfg, ip, path);
            Uniform(cfg, logs[key := Attempts(logs, key) + [Attempt(GetLimit(cfg, path), now)]])
  {
    var key := BucketKey(cfg, ip, path);
    var next := logs[key := Attempts(logs, key) + [Attempt(GetLimit(cfg, path), now)]];
    OneMoreAttempt(cfg, logs, ip, path, now);
    forall k | k in next ensures exists a, b :: Labels(cfg, k, next[k], a, b) {
      if k == key {
        assert Labels(cfg, k, next[k], ip, path);
      } else {
        var a, b :| Labels(cfg, k, logs[k], a, b);
        assert Labels(cfg, k, next[k], a, b);
      }
    }
  }

  // ---- requests of many clients ----

  datatype Event = Check(ip: string, path: string, at: real) | Clear(ip: string)

  predicate Charged(cfg: Config, ip: string) { cfg.enabled && ip !in cfg.whitelist }

  function LogsStep(cfg: Config, logs: Logs, e: Event): Logs {
    match e
    case Check(ip, path, at) =>
      if !Charged(cfg, ip) then logs
      else
        var key := BucketKey(cfg, ip, path);
        logs[key := Attempts(logs, key) + [Attempt(GetLimit(cfg, path), at)]]
    case Clear(ip) => if ip == "" then map[] else map k | k in logs && !(ip + ":" <= k) :: logs[k]
  }

  /** What each bucket has seen since it was last cleared, after any run of requests and clearings. */
  function LogsAfter(cfg: Config, es: seq<Event>): Logs {
    if es == [] then map[] else LogsStep(cfg, LogsAfter(cfg, es[..|es| - 1]), es[|es| - 1])
  }

  /** The clock does not go back: every earlier check is no later than `now`. */
  predicate Past(es: seq<Event>, now: real) {
    es == [] ||
    (var e := es[|es| - 1];
     if e.Check? then e.at <= now && Past(es[..|es| - 1], e.at) else Past(es[..|es| - 1], now))
  }

  predicate Falls(cfg: Config, ip: string, path: string, key: string) { BucketKey(cfg, ip, path) == key }

  /** The limit of some request that falls into the bucket. */
  ghost function LimitOf(cfg: Config, key: string): Limit {
    if w: (string, string) :| Falls(cfg, w.0, w.1, key) then GetLimit(cfg, w.1) else Limit(0, 0)
  }

  lemma {:induction false} LimitOfKey(cfg: Config, ip: string, path: string)
    requires OneLimitEach(cfg)
    ensures LimitOf(cfg, BucketKey(cfg, ip, path)) == GetLimit(cfg, path)
  {
    var key := BucketKey(cfg, ip, path);
    var v := (ip, path);
    assert Falls(cfg, v.0, v.1, key);
    var w: (string, string) :| Falls(cfg, w.0, w.1, key) && LimitOf(cfg, key) == GetLimit(cfg, w.1);
    assert OneLimit(cfg, ip, path, w.0, w.1);
  }

  /** A bucket's log is a steady run under its limit. */
  ghost predicate SteadyLog(log: seq<Attempt>, limit: Limit, now: real) {
    log != [] && Steady(log, limit) && log[|log| - 1].at <= now
  }

  ghost predicate AllSteady(cfg: Config, logs: Logs, now: real) {
    forall k :: k in logs ==> SteadyLog(logs[k], LimitOf(cfg, k), now)
  }

  lemma {:induction false} SteadySnoc(log: seq<Attempt>, limit: Limit, before: real, at: real)
    requires (log == [] || SteadyLog(log, limit, before)) && before <= at
    ensures SteadyLog(log + [Attempt(limit, at)], limit, at)
  {
  }

  lemma {:induction false} SteadyLater(log: seq<Attempt>, limit: Limit, before: real, now: real)
    requires SteadyLog(log, limit, before) && before <= now
    ensures SteadyLog(log, limit, now)
  {
  }

  lemma {:induction false} CheckKeepsSteady(cfg: Config, logs: Logs, key: string, limit: Limit, before: real, at: real)
    requires LimitOf(cfg, key) == limit && AllSteady(cfg, logs, before) && before <= at
    ensures AllSteady(cfg, logs[key := Attempts(logs, key) + [Attempt(limit, at)]], at)
  {
    var next := logs[key := Attempts(logs, key) + [Attempt(limit, at)]];
    forall k | k in next ensures SteadyLog(next[k], LimitOf(cfg, k), at) {
      if k == key {
        SteadySnoc(Attempts(logs, key), limit, before, at);
      } else {
        SteadyLater(logs[k], LimitOf(cfg, k), before, at);
      }
    }
  }

  lemma {:induction false} LaterIsSteady(cfg: Config, logs: Logs, rest: Logs, before: real, now: real)
    requires AllSteady(cfg, logs, before) && before <= now && forall k :: k in rest ==> k in logs && rest[k] == logs[k]
    ensures AllSteady(cfg, rest, now)
  {
    forall k | k in rest ensures SteadyLog(rest[k], LimitOf(cfg, k), now) {
      SteadyLater(logs[k], LimitOf(cfg, k), before, now);
    }
  }

  /** Where the tables agree, every bucket of every run is held to one limit, by a clock that does not go back. */
  lemma {:induction false} EveryBucketIsSteady(cfg: Config, es: seq<Event>, now: real)
    requires OneLimitEach(cfg) && Past(es, now)
    ensures AllSteady(cfg, LogsAfter(cfg, es), now)
  {
    if es != [] {
      var init, e := es[..|es| - 1], es[|es| - 1];
      var before := if e.Check? then e.at else now;
      EveryBucketIsSteady(cfg, init, before);
      if e.Check? && Charged(cfg, e.ip) {
        LimitOfKey(cfg, e.ip, e.path);
        CheckKeepsSteady(cfg, LogsAfter(cfg, init), BucketKey(cfg, e.ip, e.path), GetLimit(cfg, e.path), before, e.at);
        LaterIsSteady(cfg, LogsAfter(cfg, es), LogsAfter(cfg, es), before, now);
      } else {
        LaterIsSteady(cfg, LogsAfter(cfg, init), LogsAfter(cfg, es), before, now);
      }
    }
  }

  /** At most rpm admissions in the minute from `start`, and at most burst + rpm * length / 60 in the interval. */
  ghost predicate Bounded(log: seq<Attempt>, limit: Limit, start: real, length: real) {
    log != [] &&
    var h := Replay(log).admitted;
    && Count(h, start, start + WINDOW, false) <= Max(0, limit.rpm)
    && (Count(h, start, start + length, true) == 0
        || Count(h, start, start + length, true) as real <= limit.burst as real + limit.rpm as real * length / 60.0)
  }

  lemma {:induction false} SteadyIsBounded(log: seq<Attempt>, limit: Limit, start: real, length: real)
    requires log != [] && Steady(log, limit) && 0.0 <= length
    ensures Bounded(log, limit, start, length)
  {
    AtMostRpmPerMinute(log, limit, start);
    AtMostBurstPlusRate(log, limit, start, length);
  }

  /** The bounds, for every client and path after every run: in any minute, and in any interval, the bucket of the path
      admitted no more since it was last cleared. */
  lemma {:induction false} EveryBucketIsBounded(cfg: Config, es: seq<Event>, now: real, ip: string, path: string, start: real, length: real)
    requires OneLimitEach(cfg) && Past(es, now) && 0.0 <= length && BucketKey(cfg, ip, path) in LogsAfter(cfg, es)
    ensures Bounded(LogsAfter(cfg, es)[BucketKey(cfg, ip, path)], GetLimit(cfg, path), start, length)
  {
    EveryBucketIsSteady(cfg, es, now);
    LimitOfKey(cfg, ip, path);
    SteadyIsBounded(LogsAfter(cfg, es)[BucketKey(cfg, ip, path)], GetLimit(cfg, path), start, length);
  }

  /** The requests that fall to one bucket, over the whole run. */
  function RequestsOf(cfg: Config, es: seq<Event>, key: string): seq<Attempt> {
    if es == [] then []
    else
      var rest, e := RequestsOf(cfg, es[..|es| - 1], key), es[|es| - 1];
      if e.Check? && Charged(cfg, e.ip) && BucketKey(cfg, e.ip, e.path) == key then rest + [Attempt(GetLimit(cfg, e.path), e.at)] else rest
  }

  /** In a run without clearings a bucket's log is all its requests, so there the bounds are over the whole run. */
  lemma {:induction false} UnclearedLogIsWhole(cfg: Config, es: seq<Event>, key: string)
    requires forall i :: 0 <= i < |es| ==> es[i].Check?
    ensures Attempts(LogsAfter(cfg, es), key) == RequestsOf(cfg, es, key)
  {
    if es != [] {
      UnclearedLogIsWhole(cfg, es[..|es| - 1], key);
    }
  }

  lemma {:induction false} LogsSnoc(cfg: Config, es: seq<Event>, e: Event)
    ensures LogsAfter(cfg, es + [e]) == LogsStep(cfg, LogsAfter(cfg, es), e)
  {
    InitOfSnoc(es, e);
  }

  lemma {:induction false} ClearedLogs(cfg: Config, logs: Logs, ip: string, gone: set<string>)
    requires ip != "" && gone == set k | k in logs && ip + ":" <= k
    ensures LogsStep(cfg, logs, Clear(ip)) == logs - gone
  {
  }

  /** Did the last attempt get through? */
  predicate LastAdmitted(log: seq<Attempt>)
    requires log != []
  {
    var a, past := log[|log| - 1], log[..|log| - 1];
    Admits(Refilled(if past == [] then NewBucket(a.limit, a.at) else Replay(past).bucket, a.limit, a.at), a.limit)
  }

  /** An attempt adds its own time to the admissions, or nothing. */
  lemma {:induction false} AdmissionsGrow(past: seq<Attempt>, a: Attempt)
    ensures Replay(past + [a]).admitted ==
            (if past == [] then [] else Replay(past).admitted) + (if LastAdmitted(past + [a]) then [a.at] else [])
    ensures LastAdmitted(past + [a]) ==> Replay(past + [a]).bucket.requests != []
  {
    assert (past + [a])[..|past|] == past;
  }

  lemma {:induction false} ReplayNext(past: seq<Attempt>, a: Attempt)
    ensures var before := if past == [] then Trace(NewBucket(a.limit, a.at), []) else Replay(past);
            var b := Refilled(before.bucket, a.limit, a.at);
            Replay(past + [a]) == if Admits(b, a.limit) then Trace(Spent(b, a.at), before.admitted + [a.at]) else Trace(b, before.admitted)
  {
    assert (past + [a])[..|past|] == past;
  }

  // ---- refused only when it must be ----

  /** Fewer than rpm of the admissions are younger than a minute. */
  predicate WindowRoom(h: seq<real>, limit: Limit, now: real) {
    |set i | 0 <= i < |h| && now - h[i] < 60.0| < limit.rpm
  }

  /** From any admission on, one more at `now` included, they number at most the burst and what the rate gives since. */
  predicate RateRoom(h: seq<real>, limit: Limit, now: real) {
    && 1 <= limit.burst
    && forall i :: 0 <= i < |h| ==> (|h| - i + 1) as real <= limit.burst as real + limit.rpm as real * (now - h[i]) / 60.0
  }

  /** One more admission at `now` after those of h would keep both bounds. */
  predicate RoomFor(h: seq<real>, limit: Limit, now: real) {
    WindowRoom(h, limit, now) && RateRoom(h, limit, now)
  }

  /** The admissions of a limiter without tokens or pruning, which admits whatever keeps both bounds. */
  function Greedy(log: seq<Attempt>): seq<real> {
    if log == [] then []
    else
      var a, h := log[|log| - 1], Greedy(log[..|log| - 1]);
      if RoomFor(h, a.limit, a.at) then h + [a.at] else h
  }

  /** The tokens are full, or some admission accounts for all that is missing. */
  ghost predicate TokensTight(b: Bucket, h: seq<real>, limit: Limit) {
    b.tokens == limit.burst as real || exists i :: Pins(b, h, limit, i)
  }

  predicate Pins(b: Bucket, h: seq<real>, limit: Limit, i: nat) {
    i < |h| && (|h| - i) as real + b.tokens == limit.burst as real + Credit(limit.rpm, b.lastUpdate - h[i])
  }

  lemma {:induction false} RefillTight(b: Bucket, h: seq<real>, limit: Limit, now: real)
    requires TokensTight(b, h, limit) && b.lastUpdate <= now && limit.rpm >= 0
    ensures TokensTight(Refilled(b, limit, now), h, limit)
  {
    var next := Refilled(b, limit, now);
    CreditGrows(limit.rpm, 0.0, now - b.lastUpdate);
    assert Credit(limit.rpm, 0.0) == 0.0;
    if next.tokens != limit.burst as real {
      var i: nat :| Pins(b, h, limit, i);
      CreditAdds(limit.rpm, b.lastUpdate - h[i], now - b.lastUpdate);
      assert (b.lastUpdate - h[i]) + (now - b.lastUpdate) == now - h[i];
      assert Pins(next, h, limit, i);
    }
  }

  lemma {:induction false} SpendTight(b: Bucket, h: seq<real>, limit: Limit)
    requires TokensTight(b, h, limit)
    ensures TokensTight(Spent(b, b.lastUpdate), h + [b.lastUpdate], limit)
  {
    var next, all := Spent(b, b.lastUpdate), h + [b.lastUpdate];
    if b.tokens == limit.burst as real {
      assert Credit(limit.rpm, 0.0) == 0.0;
      assert Pins(next, all, limit, |h|);
    } else {
      var i: nat :| Pins(b, h, limit, i);
      assert (|all| - i) as real == (|h| - i) as real + 1.0;
      assert Pins(next, all, limit, i);
    }
  }

  /** The bucket an attempt meets, refilled, and the admissions before it. */
  function Met(past: seq<Attempt>, limit: Limit, at: real): Trace {
    var before := if past == [] then Trace(NewBucket(limit, at), []) else Replay(past);
    before.(bucket := Refilled(before.bucket, limit, at))
  }

  lemma {:induction false} LastIsLatest(past: seq<Attempt>, limit: Limit, at: real)
    requires past != [] && Steady(past + [Attempt(limit, at)], limit)
    ensures Steady(past, limit) && past[|past| - 1].at <= at
  {
    SteadyPrefix(past, [Attempt(limit, at)], limit);
    var all, n := past + [Attempt(limit, at)], |past| - 1;
    assert all[n].at <= all[n + 1].at;
  }

  lemma {:induction false} MetOk(past: seq<Attempt>, limit: Limit, at: real)
    requires Steady(past + [Attempt(limit, at)], limit)
    ensures TraceOk(Met(past, limit, at), limit)
  {
    if past == [] {
      RefillOk(Trace(NewBucket(limit, at), []), limit, at);
    } else {
      LastIsLatest(past, limit, at);
      ReplayOk(past, limit);
      RefillOk(Replay(past), limit, at);
    }
  }

  lemma {:induction false} MetTight(past: seq<Attempt>, limit: Limit, at: real)
    requires Steady(past + [Attempt(limit, at)], limit) && limit.rpm >= 0
    ensures TokensTight(Met(past, limit, at).bucket, Met(past, limit, at).admitted, limit)
    decreases |past|, 1
  {
    if past == [] {
      RefillTight(NewBucket(limit, at), [], limit, at);
    } else {
      LastIsLatest(past, limit, at);
      ReplayOk(past, limit);
      ReplayTight(past, limit);
      RefillTight(Replay(past).bucket, Replay(past).admitted, limit, at);
    }
  }

  lemma {:induction false} ReplayTight(log: seq<Attempt>, limit: Limit)
    requires log != [] && Steady(log, limit) && limit.rpm >= 0
    ensures TokensTight(Replay(log).bucket, Replay(log).admitted, limit)
    decreases |log|, 0
  {
    var n := |log| - 1;
    var past, at := log[..n], log[n].at;
    assert log == past + [Attempt(limit, at)];
    ReplayNext(past, Attempt(limit, at));
    MetTight(past, limit, at);
    var met := Met(past, limit, at);
    if Admits(met.bucket, limit) {
      SpendTight(met.bucket, met.admitted, limit);
    }
  }

  lemma {:induction false} RecentCount(h: seq<real>, now: real)
    ensures |set i | 0 <= i < |h| && now - h[i] < 60.0| == |Recent(h, now)|
  {
    var young := set i | 0 <= i < |h| && now - h[i] < 60.0;
    if h == [] {
      assert young == {};
    } else {
      var init, n := h[..|h| - 1], |h| - 1;
      RecentCount(init, now);
      var rest := set i | 0 <= i < |init| && now - init[i] < 60.0;
      assert young == if now - h[n] < 60.0 then rest + {n} else rest;
    }
  }

  lemma OneMoreFits(n: nat, tokens: real, limit: Limit, elapsed: real)
    requires n as real + tokens <= limit.burst as real + Credit(limit.rpm, elapsed) && tokens >= 1.0
    ensures (n + 1) as real <= limit.burst as real + limit.rpm as real * elapsed / 60.0
  {
    CreditIsRate(limit.rpm, elapsed);
  }

  lemma OneMoreIsPaid(n: nat, tokens: real, limit: Limit, elapsed: real)
    requires n as real + tokens == limit.burst as real + Credit(limit.rpm, elapsed)
    requires (n + 1) as real <= limit.burst as real + limit.rpm as real * elapsed / 60.0
    ensures tokens >= 1.0
  {
    CreditIsRate(limit.rpm, elapsed);
  }

  lemma {:induction false} TokenIffRateRoom(b: Bucket, h: seq<real>, limit: Limit)
    requires TokensOk(b, h, limit)
    ensures b.tokens >= 1.0 ==> RateRoom(h, limit, b.lastUpdate)
    ensures TokensTight(b, h, limit) && RateRoom(h, limit, b.lastUpdate) ==> b.tokens >= 1.0
  {
    if b.tokens >= 1.0 {
      forall i | 0 <= i < |h|
        ensures (|h| - i + 1) as real <= limit.burst as real + limit.rpm as real * (b.lastUpdate - h[i]) / 60.0
      {
        OneMoreFits(|h| - i, b.tokens, limit, b.lastUpdate - h[i]);
      }
    }
    if TokensTight(b, h, limit) && RateRoom(h, limit, b.lastUpdate) && b.tokens != limit.burst as real {
      var i: nat :| Pins(b, h, limit, i);
      OneMoreIsPaid(|h| - i, b.tokens, limit, b.lastUpdate - h[i]);
    }
  }

  /** A token and a place in the window are there exactly when both bounds leave room. */
  lemma {:induction false} AdmitsIffRoom(b: Bucket, h: seq<real>, limit: Limit)
    requires TraceOk(Trace(b, h), limit) && (limit.rpm >= 0 ==> TokensTight(b, h, limit))
    ensures Admits(b, limit) <==> RoomFor(h, limit, b.lastUpdate)
  {
    RecentCount(h, b.lastUpdate);
    TokenIffRateRoom(b, h, limit);
  }

  /** The limiter refuses only when it must: an attempt gets through if and only if the admissions before it leave room. */
  lemma {:induction false} AdmittedIffRoom(past: seq<Attempt>, limit: Limit, at: real)
    requires Steady(past + [Attempt(limit, at)], limit)
    ensures LastAdmitted(past + [Attempt(limit, at)]) <==> RoomFor(if past == [] then [] else Replay(past).admitted, limit, at)
  {
    InitOfSnoc(past, Attempt(limit, at));
    MetOk(past, limit, at);
    if limit.rpm >= 0 {
      MetTight(past, limit, at);
    }
    AdmitsIffRoom(Met(past, limit, at).bucket, Met(past, limit, at).admitted, limit);
  }

  /** The token bucket with its pruned list admits exactly what the limiter without them would. */
  lemma {:induction false} TokenBucketIsGreedy(log: seq<Attempt>, limit: Limit)
    requires log != [] && Steady(log, limit)
    ensures Replay(log).admitted == Greedy(log)
  {
    var n := |log| - 1;
    var past, a := log[..n], log[n];
    assert log == past + [a] && a == Attempt(limit, a.at);
    if past != [] {
      TokenBucketIsGreedy(past, limit);
    }
    AdmittedIffRoom(past, limit, a.at);
    AdmissionsGrow(past, a);
  }

  lemma {:induction false} AdmittedIffGreedyRoom(past: seq<Attempt>, limit: Limit, at: real)
    requires Steady(past + [Attempt(limit, at)], limit)
    ensures LastAdmitted(past + [Attempt(limit, at)]) <==> RoomFor(Greedy(past), limit, at)
  {
    AdmittedIffRoom(past, limit, at);
    if past != [] {
      SteadyPrefix(past, [Attempt(limit, at)], limit);
      TokenBucketIsGreedy(past, limit);
    }
  }

  /** In a run where the tables agree and the clock does not go back, the next attempt continues a steady log, and gets
      through exactly where the admissions of the bucket leave room. */
  lemma {:induction false} NextAnswer(cfg: Config, es: seq<Event>, ip: string, path: string, now: real)
    ensures OneLimitEach(cfg) && Past(es, now) ==>
              NextIs(Attempts(LogsAfter(cfg, es), BucketKey(cfg, ip, path)), GetLimit(cfg, path), now)
  {
    if OneLimitEach(cfg) && Past(es, now) {
      var past, limit := Attempts(LogsAfter(cfg, es), BucketKey(cfg, ip, path)), GetLimit(cfg, path);
      EveryBucketIsSteady(cfg, es, now);
      LimitOfKey(cfg, ip, path);
      SteadySnoc(past, limit, now, now);
      AdmittedIffGreedyRoom(past, limit, now);
    }
  }

  predicate NextIs(past: seq<Attempt>, limit: Limit, now: real) {
    LastAdmitted(past + [Attempt(limit, now)]) <==> RoomFor(Greedy(past), limit, now)
  }

  /** What the caller is told: the room left, or how long to wait. */
  function Description(b: Bucket, limit: Limit, now: real, allowed: bool): Info {
    if !allowed then Denied(limit.rpm, RetryAfter(b, now))
    else Allowed(b.tokens.Floor, limit.rpm, (now + WINDOW - (if b.requests != [] then b.requests[0] else now)).Floor)
  }

  /** What the caller is told is meant to be acted on: a refused one waits between 1 and 61 seconds, the least whole
      number after which the oldest counted request has left the window; an admitted one has at most burst - 1 tokens
      left, and its reset lies 60 to 119 seconds ahead. */
  lemma {:induction false} AdviceIsBounded(log: seq<Attempt>, limit: Limit)
    requires log != [] && Steady(log, limit)
    ensures WorthTelling(Replay(log).bucket, limit, log[|log| - 1].at, Description(Replay(log).bucket, limit, log[|log| - 1].at, LastAdmitted(log)))
  {
    ReplayOk(log, limit);
    var t, now := Replay(log), log[|log| - 1].at;
    if t.bucket.requests != [] {
      OldestIsRecent(t.admitted, now);
      AgeBounds(now, t.bucket.requests[0]);
    }
    if LastAdmitted(log) {
      SplitLast(log);
      AdmissionsGrow(log[..|log| - 1], log[|log| - 1]);
      TokensAfter(log, limit);
      FloorBounds(t.bucket.tokens, limit.burst);
    }
  }

  ghost predicate WorthTelling(b: Bucket, limit: Limit, now: real, info: Info) {
    match info
    case Denied(rpm, wait) =>
      && rpm == limit.rpm && 1 <= wait <= 61 && (b.requests == [] ==> wait == 60)
      && (b.requests != [] ==> now + wait as real - b.requests[0] > WINDOW >= now + (wait - 1) as real - b.requests[0])
    case Allowed(remaining, rpm, reset) =>
      && rpm == limit.rpm && 0 <= remaining < limit.burst && remaining as real <= b.tokens < remaining as real + 1.0
      && b.requests != [] && 60 <= reset <= 119 && 0.0 <= now + WINDOW - b.requests[0] - reset as real < 1.0
    case Unlimited => false
  }

  lemma AgeBounds(now: real, oldest: real)
    requires 0.0 <= now - oldest < WINDOW
    ensures var wait := (WINDOW - (now - oldest)).Floor + 1;
            1 <= wait <= 61 && now + wait as real - oldest > WINDOW >= now + (wait - 1) as real - oldest
    ensures 60 <= (now + WINDOW - oldest).Floor <= 119
  {
  }

  lemma FloorBounds(tokens: real, burst: int)
    requires 0.0 <= tokens <= burst as real - 1.0
    ensures 0 <= tokens.Floor < burst
  {
  }

  lemma {:induction false} TokensAfter(log: seq<Attempt>, limit: Limit)
    requires log != [] && Steady(log, limit) && LastAdmitted(log)
    ensures 0.0 <= Replay(log).bucket.tokens <= limit.burst as real - 1.0
  {
    ReplayNext(log[..|log| - 1], log[|log| - 1]);
    SplitLast(log);
  }

  function Repeat(now: real, k: nat): seq<real> {
    if k == 0 then [] else Repeat(now, k - 1) + [now]
  }

  function Drained(b: Bucket, k: nat): Bucket { b.(tokens := b.tokens - k as real) }

  /** Taking k tokens at one instant is k more admissions at that instant. */
  lemma {:induction false} DrainedOk(b: Bucket, h: seq<real>, limit: Limit, k: nat)
    requires TokensOk(b, h, limit) && TokensTight(b, h, limit)
    ensures TokensOk(Drained(b, k), h + Repeat(b.lastUpdate, k), limit)
    ensures TokensTight(Drained(b, k), h + Repeat(b.lastUpdate, k), limit)
  {
    if k == 0 {
      assert h + Repeat(b.lastUpdate, 0) == h;
    } else {
      DrainedOk(b, h, limit, k - 1);
      DrainOne(Drained(b, k - 1), h + Repeat(b.lastUpdate, k - 1), limit);
      assert h + Repeat(b.lastUpdate, k) == h + Repeat(b.lastUpdate, k - 1) + [b.lastUpdate];
      DrainMore(b, k);
    }
  }

  lemma DrainMore(b: Bucket, k: nat)
    requires k > 0
    ensures Drained(b, k) == Drained(Drained(b, k - 1), 1)
  {
  }

  lemma {:induction false} DrainOne(b: Bucket, h: seq<real>, limit: Limit)
    requires TokensOk(b, h, limit) && TokensTight(b, h, limit)
    ensures TokensOk(Drained(b, 1), h + [b.lastUpdate], limit) && TokensTight(Drained(b, 1), h + [b.lastUpdate], limit)
  {
    SpendKeepsTokens(b, h, limit);
    SpendTight(b, h, limit);
    SameTokens(Spent(b, b.lastUpdate), Drained(b, 1), h + [b.lastUpdate], limit);
  }

  /** The request list does not matter to the tokens. */
  lemma {:induction false} SameTokens(a: Bucket, b: Bucket, h: seq<real>, limit: Limit)
    requires a.tokens == b.tokens && a.lastUpdate == b.lastUpdate
    ensures TokensOk(a, h, limit) <==> TokensOk(b, h, limit)
    ensures TokensTight(a, h, limit) <==> TokensTight(b, h, limit)
  {
    forall i: nat ensures Pins(a, h, limit, i) <==> Pins(b, h, limit, i) {}
  }

  /** The `remaining` an admitted caller is told is the number of further requests at this very moment that the rate leaves
      room for. */
  lemma {:induction false} RemainingIsExact(log: seq<Attempt>, limit: Limit, k: nat)
    requires log != [] && Steady(log, limit) && LastAdmitted(log)
    ensures var b, now := Replay(log).bucket, log[|log| - 1].at;
      && Description(b, limit, now, true).Allowed?
      && (k < Description(b, limit, now, true).remaining <==> RateRoom(Replay(log).admitted + Repeat(now, k), limit, now))
  {
    var t := Replay(log);
    ReplayOk(log, limit);
    SplitLast(log);
    AdmissionsGrow(log[..|log| - 1], log[|log| - 1]);
    ReplayTight(log, limit);
    DrainedOk(t.bucket, t.admitted, limit, k);
    TokenIffRateRoom(Drained(t.bucket, k), t.admitted + Repeat(t.bucket.lastUpdate, k), limit);
    FloorAbove(t.bucket.tokens, k);
  }

  lemma FloorAbove(tokens: real, k: nat)
    ensures k < tokens.Floor <==> tokens - k as real >= 1.0
  {
  }

  datatype Tally = Tally(allowed: nat, blocked: nat)

  class RateLimiter {
    const cfg: Config
    var buckets: map<string, Bucket>
    var totalRequests: nat
    var rateLimited: nat
    var byEndpoint: map<string, Tally>
    /** Every attempt each bucket has seen since it was created. */
    ghost var log: Logs
    /** Every request and every clearing there ever was. */
    ghost var history: seq<Event>

    ghost predicate Replayed()
      reads `buckets, `log
    {
      && buckets.Keys == log.Keys
      && (forall k :: k in log ==> log[k] != [] && buckets[k] == Replay(log[k]).bucket)
    }

    ghost predicate Valid()
      reads `buckets, `log, `history
    {
      Replayed() && log == LogsAfter(cfg, history)
    }

    constructor (cfg: Config)
      ensures Valid() && this.cfg == cfg && buckets == map[] && totalRequests == 0 && history == []
    {
      this.cfg := cfg;
      buckets, byEndpoint, log, history := map[], map[], map[], [];
      totalRequests, rateLimited := 0, 0;
    }

    static method Prune(requests: seq<real>, now: real) returns (kept: seq<real>)
      ensures kept == Recent(requests, now)
    {
      kept := [];
      for i := 0 to |requests|
        invariant kept == Recent(requests[..i], now)
      {
        assert requests[..i + 1][..i] == requests[..i];
        if now - requests[i] < WINDOW {
          kept := kept + [requests[i]];
        }
      }
      assert requests[..|requests|] == requests;
    }

    /** Prune, refill, and take a token if there is one and the window has room. */
    static method TakeToken(b: Bucket, limit: Limit, now: real) returns (allowed: bool, after: Bucket)
      ensures allowed == Admits(Refilled(b, limit, now), limit)
      ensures after == if allowed then Spent(Refilled(b, limit, now), now) else Refilled(b, limit, now)
    {
      var requests := Prune(b.requests, now);
      var tokens := MinReal(limit.burst as real, b.tokens + Credit(limit.rpm, now - b.lastUpdate));
      allowed := tokens >= 1.0 && |requests| < limit.rpm;
      if allowed {
        tokens := tokens - 1.0;
        requests := requests + [now];
      }
      after := Bucket(tokens, now, requests);
    }

    function TallyOf(path: string): Tally
      reads this
    {
      if path in byEndpoint then byEndpoint[path] else Tally(0, 0)
    }

    /** One attempt at a bucket, created full if it is new. */
    method Charge(key: string, limit: Limit, now: real) returns (allowed: bool)
      requires Replayed()
      modifies `buckets, `log
      ensures Replayed()
      ensures log == old(log)[key := old(Attempts(log, key)) + [Attempt(limit, now)]]
      ensures allowed == LastAdmitted(log[key]) && (allowed ==> buckets[key].requests != [])
    {
      ghost var all := Attempts(log, key) + [Attempt(limit, now)];
      ReplayNext(Attempts(log, key), Attempt(limit, now));
      InitOfSnoc(Attempts(log, key), Attempt(limit, now));
      var bucket := if key in buckets then buckets[key] else NewBucket(limit, now);
      allowed, bucket := TakeToken(bucket, limit, now);
      assert allowed == LastAdmitted(all) && bucket == Replay(all).bucket;
      log, buckets := log[key := all], buckets[key := bucket];
    }

    method Record(path: string, allowed: bool)
      modifies `totalRequests, `rateLimited, `byEndpoint
      ensures totalRequests == old(totalRequests) + 1
      ensures rateLimited == old(rateLimited) + if allowed then 0 else 1
      ensures byEndpoint == old(byEndpoint)[path :=
                if allowed then old(TallyOf(path)).(allowed := old(TallyOf(path)).allowed + 1)
                else old(TallyOf(path)).(blocked := old(TallyOf(path)).blocked + 1)]
    {
      totalRequests := totalRequests + 1;
      var tally := TallyOf(path);
      if allowed {
        byEndpoint := byEndpoint[path := tally.(allowed := tally.allowed + 1)];
      } else {
        rateLimited := rateLimited + 1;
        byEndpoint := byEndpoint[path := tally.(blocked := tally.blocked + 1)];
      }
    }

    static method Describe(b: Bucket, limit: Limit, now: real, allowed: bool) returns (info: Info)
      requires allowed ==> b.requests != []
      ensures info == Description(b, limit, now, allowed)
    {
      if allowed {
        info := Allowed(b.tokens.Floor, limit.rpm, (now + WINDOW - b.requests[0]).Floor);
      } else {
        var retry := 60;
        if b.requests != [] {
          retry := (WINDOW - (now - b.requests[0])).Floor + 1;
        }
        info := Denied(limit.rpm, retry);
      }
    }

    /** Charging the bucket of the request and describing it. */
    method Serve(ip: string, path: string, now: real) returns (allowed: bool, info: Info)
      requires Valid() && Charged(cfg, ip)
      modifies `buckets, `log, `history
      ensures Valid() && history == old(history) + [Check(ip, path, now)]
      ensures var key, limit := BucketKey(cfg, ip, path), GetLimit(cfg, path);
              && log == old(log)[key := old(Attempts(log, key)) + [Attempt(limit, now)]] && allowed == LastAdmitted(log[key])
              && info == Description(buckets[key], limit, now, allowed)
    {
      var limit := GetLimit(cfg, path);
      var key := BucketKey(cfg, ip, path);
      allowed := Charge(key, limit, now);
      info := Describe(buckets[key], limit, now, allowed);
      LogsSnoc(cfg, history, Check(ip, path, now));
      history := history + [Check(ip, path, now)];
    }

    /** The locked part: charge, describe, count. */
    method Limited(ip: string, path: string, now: real) returns (allowed: bool, info: Info)
      requires Valid() && Charged(cfg, ip)
      modifies this
      ensures Valid() && history == old(history) + [Check(ip, path, now)]
      ensures var key, limit := BucketKey(cfg, ip, path), GetLimit(cfg, path);
              && log == old(log)[key := old(Attempts(log, key)) + [Attempt(limit, now)]] && allowed == LastAdmitted(log[key])
              && info == Description(buckets[key], limit, now, allowed)
      ensures byEndpoint == old(byEndpoint)[path :=
                if allowed then old(TallyOf(path)).(allowed := old(TallyOf(path)).allowed + 1)
                else old(TallyOf(path)).(blocked := old(TallyOf(path)).blocked + 1)]
      ensures totalRequests == old(totalRequests) + 1 && rateLimited == old(rateLimited) + (if allowed then 0 else 1)
    {
      allowed, info := Serve(ip, path, now);
      Record(path, allowed);
    }

    method CheckRateLimit(ip: string, path: string, now: real) returns (allowed: bool, info: Info)
      requires Valid()
      modifies this
      ensures Valid() && history == old(history) + [Check(ip, path, now)]
      ensures Charged(cfg, ip) <==> cfg.enabled && ip !in cfg.whitelist
      ensures Charged(cfg, ip) ==>
        byEndpoint == old(byEndpoint)[path :=
                if allowed then old(TallyOf(path)).(allowed := old(TallyOf(path)).allowed + 1)
                else old(TallyOf(path)).(blocked := old(TallyOf(path)).blocked + 1)]
      ensures !Charged(cfg, ip) ==>
        allowed && info == Unlimited && log == old(log) && totalRequests == old(totalRequests)
        && rateLimited == old(rateLimited) && byEndpoint == old(byEndpoint)
      ensures Charged(cfg, ip) ==>
        var key, limit := BucketKey(cfg, ip, path), GetLimit(cfg, path);
        && log == old(log)[key := old(Attempts(log, key)) + [Attempt(limit, now)]] && allowed == LastAdmitted(log[key])
        && totalRequests == old(totalRequests) + 1 && rateLimited == old(rateLimited) + (if allowed then 0 else 1)
        && info == Description(buckets[key], limit, now, allowed)
      ensures Charged(cfg, ip) && OneLimitEach(cfg) && Past(old(history), now) ==>
                (allowed <==> RoomFor(Greedy(old(Attempts(log, BucketKey(cfg, ip, path)))), GetLimit(cfg, path), now))
    {
      if !cfg.enabled || ip in cfg.whitelist {
        LogsSnoc(cfg, history, Check(ip, path, now));
        history := history + [Check(ip, path, now)];
        return true, Unlimited;
      }
      ghost var es, past := history, Attempts(log, BucketKey(cfg, ip, path));
      allowed, info := Limited(ip, path, now);
      assert allowed == LastAdmitted(past + [Attempt(GetLimit(cfg, path), now)]);
      NextAnswer(cfg, es, ip, path, now);
    }

    method ClearBucket(ip: string)
      requires Valid()
      modifies this
      ensures Valid() && totalRequests == old(totalRequests) && history == old(history) + [Clear(ip)]
      ensures forall k :: k in buckets <==> k in old(buckets) && ip != "" && !(ip + ":" <= k)
      ensures forall k :: k in buckets ==> buckets[k] == old(buckets)[k] && log[k] == old(log)[k]
    {
      LogsSnoc(cfg, history, Clear(ip));
      history := history + [Clear(ip)];
      if ip != "" {
        var gone := set k | k in buckets && ip + ":" <= k;
        ClearedLogs(cfg, log, ip, gone);
        buckets, log := buckets - gone, log - gone;
      } else {
        buckets, log := map[], map[];
      }
    }
  }
}

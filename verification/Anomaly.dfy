/** Sliding five-minute windows: bulk operations of a user and failed logins of an address. */
module Anomaly {
  import opened Common

  const WINDOW: Time := 300_000_000
  const BULK_OPERATION_THRESHOLD: int := 50
  const FAILED_LOGIN_THRESHOLD: nat := 5

  datatype Stamped<T> = Stamped(at: Time, what: T)

  datatype Bulk = Bulk(operation: string, count: int)

  type Op = Stamped<Bulk>

  /** A failed attempt is remembered by its time only. */
  datatype Attempt = Attempt

  datatype Alert = Alert(total: int, operations: seq<string>)

  /** The entries younger than five minutes at `now`. */
  function Recent<T>(s: seq<Stamped<T>>, now: Time): seq<Stamped<T>> {
    if s == [] then []
    else
      var rest := Recent(s[..|s| - 1], now);
      if s[|s| - 1].at > now - WINDOW then rest + [s[|s| - 1]] else rest
  }

  function Total(ops: seq<Op>): int {
    if ops == [] then 0 else Total(ops[..|ops| - 1]) + ops[|ops| - 1].what.count
  }

  function Names(ops: seq<Op>): seq<string> {
    if ops == [] then [] else Names(ops[..|ops| - 1]) + [ops[|ops| - 1].what.operation]
  }

  // ---- bulk operations of one user ----

  /** What a call looks at: the list with the new operation, pruned. */
  function Pruned(stored: seq<Op>, op: Op): seq<Op> { Recent(stored + [op], op.at) }

  predicate Raises(stored: seq<Op>, op: Op) { Total(Pruned(stored, op)) >= BULK_OPERATION_THRESHOLD }

  /** The list kept after a call: emptied by an alert. */
  function Kept(stored: seq<Op>, op: Op): seq<Op> { if Raises(stored, op) then [] else Pruned(stored, op) }

  /** The list after a user's whole history of calls. */
  function Stored(ops: seq<Op>): seq<Op> {
    if ops == [] then [] else Kept(Stored(ops[..|ops| - 1]), ops[|ops| - 1])
  }

  /** Call k of the history raised an alert. */
  predicate Alerted(ops: seq<Op>, k: nat)
    requires k < |ops|
  {
    Raises(Stored(ops[..k]), ops[k])
  }

  /** How much of the history lies at or before the last alert. */
  function Reported(ops: seq<Op>): (n: nat)
    ensures n <= |ops|
  {
    if ops == [] then 0
    else if Alerted(ops, |ops| - 1) then |ops|
    else Reported(ops[..|ops| - 1])
  }

  ghost predicate Ordered<T>(s: seq<Stamped<T>>) {
    forall i, j :: 0 <= i < j < |s| ==> s[i].at <= s[j].at
  }

  ghost predicate NonNegative(ops: seq<Op>) {
    forall i :: 0 <= i < |ops| ==> ops[i].what.count >= 0
  }

  lemma {:induction false} RecentTwice<T>(s: seq<Stamped<T>>, t: Time, u: Time)
    requires t <= u
    ensures Recent(Recent(s, t), u) == Recent(s, u)
  {
    if s != [] {
      RecentTwice(s[..|s| - 1], t, u);
      InitOfSnoc(Recent(s[..|s| - 1], t), s[|s| - 1]);
    }
  }

  lemma {:induction false} RecentSnoc<T>(s: seq<Stamped<T>>, x: Stamped<T>, now: Time)
    ensures Recent(s + [x], now) == if x.at > now - WINDOW then Recent(s, now) + [x] else Recent(s, now)
  {
    InitOfSnoc(s, x);
  }

  /** In time order, the recent entries are a suffix. */
  function FirstRecent<T>(s: seq<Stamped<T>>, now: Time): (i: nat)
    ensures i <= |s|
  {
    if s == [] || s[|s| - 1].at <= now - WINDOW then |s| else FirstRecent(s[..|s| - 1], now)
  }

  lemma {:induction false} RecentIsSuffix<T>(s: seq<Stamped<T>>, now: Time)
    requires Ordered(s)
    ensures Recent(s, now) == s[FirstRecent(s, now)..]
  {
    if s != [] {
      var init, last := s[..|s| - 1], s[|s| - 1];
      if last.at > now - WINDOW {
        RecentIsSuffix(init, now);
        assert s[FirstRecent(s, now)..] == init[FirstRecent(init, now)..] + [last];
      } else {
        NoneRecent(s, now);
      }
    }
  }

  lemma {:induction false} FirstRecentSplits<T>(s: seq<Stamped<T>>, now: Time, i: nat)
    requires Ordered(s) && i < |s|
    ensures s[i].at > now - WINDOW <==> FirstRecent(s, now) <= i
  {
    var last := |s| - 1;
    if s[last].at > now - WINDOW {
      if i < last {
        FirstRecentSplits(s[..last], now, i);
      } else if last > 0 {
        assert FirstRecent(s[..last], now) <= last;
      }
    }
  }

  lemma {:induction false} NoneRecent<T>(s: seq<Stamped<T>>, now: Time)
    requires forall i :: 0 <= i < |s| ==> s[i].at <= now - WINDOW
    ensures Recent(s, now) == []
  {
    if s != [] {
      NoneRecent(s[..|s| - 1], now);
    }
  }

  lemma {:induction false} OrderedSlice<T>(s: seq<Stamped<T>>, i: nat, j: nat)
    requires Ordered(s) && i <= j <= |s|
    ensures Ordered(s[i..j])
  {
  }

  lemma {:induction false} PruneStep(window: seq<Op>, t: Time, op: Op)
    requires t <= op.at
    ensures Pruned(Recent(window, t), op) == Recent(window + [op], op.at)
  {
    RecentSnoc(Recent(window, t), op, op.at);
    RecentTwice(window, t, op.at);
    RecentSnoc(window, op, op.at);
  }

  /** What a call looks at is the window over the calls since the last alert, however those were pruned before. */
  lemma {:induction false} CallSeesTheWindow(ops: seq<Op>, op: Op)
    requires Ordered(ops + [op])
    ensures Pruned(Stored(ops), op) == Recent((ops + [op])[Reported(ops)..], op.at)
    decreases |ops|, 1
  {
    var from := Reported(ops);
    assert (ops + [op])[from..] == ops[from..] + [op];
    if ops != [] {
      assert (ops + [op])[|ops| - 1] == ops[|ops| - 1] && (ops + [op])[|ops|] == op;
      OrderedSlice(ops + [op], 0, |ops|);
      assert (ops + [op])[0..|ops|] == ops;
      StoredIsTheWindow(ops);
      PruneStep(ops[from..], ops[|ops| - 1].at, op);
    } else {
      PruneStep([], op.at, op);
    }
  }

  /** With a clock that does not run back, the stored list is the user's operations of the last five minutes since
      the last alert. */
  lemma {:induction false} StoredIsTheWindow(ops: seq<Op>)
    requires Ordered(ops) && ops != []
    ensures Stored(ops) == Recent(ops[Reported(ops)..], ops[|ops| - 1].at)
    decreases |ops|, 0
  {
    var last := |ops| - 1;
    assert ops[..last] + [ops[last]] == ops;
    CallSeesTheWindow(ops[..last], ops[last]);
    if Alerted(ops, last) {
      assert ops[|ops|..] == [];
    }
  }

  lemma {:induction false} RecentTotal(ops: seq<Op>, now: Time)
    requires NonNegative(ops)
    ensures NonNegative(Recent(ops, now)) && Total(Recent(ops, now)) <= Total(ops)
  {
    if ops != [] {
      RecentTotal(ops[..|ops| - 1], now);
      InitOfSnoc(Recent(ops[..|ops| - 1], now), ops[|ops| - 1]);
    }
  }

  lemma {:induction false} StoredNonNegative(ops: seq<Op>)
    requires NonNegative(ops)
    ensures NonNegative(Stored(ops))
  {
    if ops != [] {
      StoredNonNegative(ops[..|ops| - 1]);
      RecentTotal(Stored(ops[..|ops| - 1]) + [ops[|ops| - 1]], ops[|ops| - 1].at);
    }
  }

  /** After any calls, and at any later moment, fewer than fifty items are left unreported. */
  lemma {:induction false} UnreportedStaysSmall(ops: seq<Op>, now: Time)
    requires NonNegative(ops)
    ensures Total(Recent(Stored(ops), now)) <= Total(Stored(ops)) < 50
  {
    StoredNonNegative(ops);
    RecentTotal(Stored(ops), now);
  }

  /** One call counts what it says, and its name is the one listed. */
  lemma {:induction false} OfOneCall(op: Op)
    ensures Total([op]) == op.what.count && Names([op]) == [op.what.operation]
  {
    assert [op][..0] == [];
  }

  lemma {:induction false} NamesInOrder(ops: seq<Op>)
    ensures |Names(ops)| == |ops| && forall i :: 0 <= i < |ops| ==> Names(ops)[i] == ops[i].what.operation
  {
    if ops != [] {
      NamesInOrder(ops[..|ops| - 1]);
    }
  }

  lemma {:induction false} TotalSplits(a: seq<Op>, b: seq<Op>)
    ensures Total(a + b) == Total(a) + Total(b)
  {
    if b == [] {
      assert a + b == a;
    } else {
      AppendLast(a, b);
      InitOfSnoc(a + b[..|b| - 1], b[|b| - 1]);
      TotalSplits(a, b[..|b| - 1]);
    }
  }

  lemma {:induction false} TotalNonNegative(ops: seq<Op>)
    requires NonNegative(ops)
    ensures Total(ops) >= 0
  {
    if ops != [] {
      TotalNonNegative(ops[..|ops| - 1]);
    }
  }

  /** A stretch of calls ending with call k: all within five minutes, none already reported, fifty items or more. */
  ghost predicate Burst(ops: seq<Op>, from: nat, k: nat) {
    && from <= k < |ops|
    && Reported(ops[..k]) <= from
    && ops[k].at - ops[from].at < 5 * 60 * 1_000_000
    && Total(ops[from..k + 1]) >= 50
  }

  /** The calls up to k that no alert before k covers. */
  function Pending(ops: seq<Op>, k: nat): seq<Op>
    requires k < |ops|
  {
    ops[Reported(ops[..k])..k + 1]
  }

  /** Where the calls that call k looks at begin. */
  function WindowStart(ops: seq<Op>, k: nat): (i: nat)
    requires k < |ops|
    ensures i <= k + 1
  {
    Reported(ops[..k]) + FirstRecent(Pending(ops, k), ops[k].at)
  }

  lemma {:induction false} CallSeesPending(ops: seq<Op>, k: nat)
    requires k < |ops| && Ordered(ops)
    ensures Pruned(Stored(ops[..k]), ops[k]) == Recent(Pending(ops, k), ops[k].at)
  {
    OrderedSlice(ops, 0, k + 1);
    assert ops[..k] + [ops[k]] == ops[0..k + 1];
    CallSeesTheWindow(ops[..k], ops[k]);
    assert ops[0..k + 1][Reported(ops[..k])..] == Pending(ops, k);
  }

  lemma {:induction false} PendingSuffix(ops: seq<Op>, k: nat)
    requires k < |ops| && Ordered(ops)
    ensures Recent(Pending(ops, k), ops[k].at) == ops[WindowStart(ops, k)..k + 1]
  {
    var reported := Reported(ops[..k]);
    OrderedSlice(ops, reported, k + 1);
    RecentIsSuffix(Pending(ops, k), ops[k].at);
    assert ops[reported..k + 1][WindowStart(ops, k) - reported..] == ops[WindowStart(ops, k)..k + 1];
  }

  lemma {:induction false} AlertByWindow(ops: seq<Op>, k: nat)
    requires k < |ops| && Ordered(ops)
    ensures Alerted(ops, k) <==> Total(ops[WindowStart(ops, k)..k + 1]) >= BULK_OPERATION_THRESHOLD
  {
    CallSeesPending(ops, k);
    PendingSuffix(ops, k);
  }

  lemma {:induction false} WindowHoldsTheRecent(ops: seq<Op>, k: nat, i: nat)
    requires k < |ops| && Ordered(ops) && Reported(ops[..k]) <= i <= k
    ensures ops[k].at - ops[i].at < WINDOW <==> WindowStart(ops, k) <= i
  {
    var reported := Reported(ops[..k]);
    OrderedSlice(ops, reported, k + 1);
    FirstRecentSplits(Pending(ops, k), ops[k].at, i - reported);
  }

  /** An alert is raised by a call exactly when it completes a burst of fifty not yet reported items. */
  lemma {:induction false} AlertIffBurst(ops: seq<Op>, k: nat)
    requires k < |ops| && Ordered(ops) && NonNegative(ops)
    ensures Alerted(ops, k) <==> exists from: nat :: Burst(ops, from, k)
  {
    AlertByWindow(ops, k);
    if Alerted(ops, k) {
      WindowIsBurst(ops, k);
    }
    if from: nat :| Burst(ops, from, k) {
      BurstIsInWindow(ops, from, k);
    }
  }

  /** The last call completes a burst. */
  ghost predicate EndsABurst(ops: seq<Op>) {
    exists from: nat, last :: last == |ops| - 1 && Burst(ops, from, last)
  }

  /** An alert after the last call of a history, or none, is what the history asks for. */
  ghost predicate RightAlert(ops: seq<Op>, alert: Option<Alert>) {
    match alert
    case None => Ordered(ops) && NonNegative(ops) ==> !EndsABurst(ops)
    case Some(_) => Ordered(ops) && NonNegative(ops) ==> EndsABurst(ops)
  }

  lemma {:induction false} LastCallDecides(ops: seq<Op>, alert: Option<Alert>)
    requires ops != [] && (alert.Some? <==> Alerted(ops, |ops| - 1))
    ensures RightAlert(ops, alert)
  {
    if Ordered(ops) && NonNegative(ops) {
      AlertIffBurst(ops, |ops| - 1);
    }
  }

  lemma NothingTotals(ops: seq<Op>, i: nat)
    requires i <= |ops|
    ensures Total(ops[i..i]) == 0
  {
  }

  lemma {:induction false} WindowIsBurst(ops: seq<Op>, k: nat)
    requires k < |ops| && Ordered(ops) && Total(ops[WindowStart(ops, k)..k + 1]) >= BULK_OPERATION_THRESHOLD
    ensures Burst(ops, WindowStart(ops, k), k)
  {
    var start := WindowStart(ops, k);
    NothingTotals(ops, k + 1);
    WindowHoldsTheRecent(ops, k, start);
  }

  lemma {:induction false} BurstIsInWindow(ops: seq<Op>, from: nat, k: nat)
    requires Burst(ops, from, k) && Ordered(ops) && NonNegative(ops)
    ensures Total(ops[WindowStart(ops, k)..k + 1]) >= BULK_OPERATION_THRESHOLD
  {
    var start := WindowStart(ops, k);
    WindowHoldsTheRecent(ops, k, from);
    assert ops[start..k + 1] == ops[start..from] + ops[from..k + 1];
    TotalSplits(ops[start..from], ops[from..k + 1]);
    TotalNonNegative(ops[start..from]);
  }

  lemma {:induction false} ReportedBefore(ops: seq<Op>, from: nat)
    requires from <= |ops| && forall k :: from <= k < |ops| ==> !Alerted(ops, k)
    ensures Reported(ops) <= from
  {
    if from < |ops| {
      var init := ops[..|ops| - 1];
      forall k | from <= k < |init| ensures !Alerted(init, k) {
        assert init[..k] == ops[..k];
        assert !Alerted(ops, k);
      }
      ReportedBefore(init, from);
    }
  }

  /** No burst goes unseen: any stretch of a user's calls within five minutes that reaches fifty items has an alert
      in it. */
  lemma {:induction false} BurstsAreReported(ops: seq<Op>, from: nat, k: nat)
    requires from <= k < |ops| && Ordered(ops) && NonNegative(ops)
    requires ops[k].at - ops[from].at < 5 * 60 * 1_000_000 && Total(ops[from..k + 1]) >= 50
    ensures exists m :: from <= m <= k && Alerted(ops, m)
  {
    if forall m :: from <= m < k ==> !Alerted(ops, m) {
      forall m | from <= m < k ensures !Alerted(ops[..k], m) {
        assert ops[..k][..m] == ops[..m];
        assert !Alerted(ops, m);
      }
      ReportedBefore(ops[..k], from);
      assert Burst(ops, from, k);
      AlertIffBurst(ops, k);
    }
  }

  // ---- failed logins from one address ----

  /** The list of an address after its failures; it is never emptied by a finding. */
  function Failures(attempts: seq<Stamped<Attempt>>): seq<Stamped<Attempt>> {
    if attempts == [] then []
    else
      var last := attempts[|attempts| - 1];
      Recent(Failures(attempts[..|attempts| - 1]) + [last], last.at)
  }

  lemma {:induction false} FailuresSnoc(init: seq<Stamped<Attempt>>, last: Stamped<Attempt>, before: Time)
    requires before <= last.at && Failures(init) == Recent(init, before)
    ensures Failures(init + [last]) == Recent(init + [last], last.at)
  {
    InitOfSnoc(init, last);
    RecentTwice(init, before, last.at);
    RecentSnoc(Recent(init, before), last, last.at);
    RecentSnoc(init, last, last.at);
  }

  lemma {:induction false} FailuresAreRecent(attempts: seq<Stamped<Attempt>>)
    requires Ordered(attempts) && attempts != []
    ensures Failures(attempts) == Recent(attempts, attempts[|attempts| - 1].at)
  {
    var n := |attempts| - 1;
    var init, last := attempts[..n], attempts[n];
    assert attempts == init + [last];
    if n == 0 {
      FailuresSnoc([], last, last.at);
    } else {
      assert attempts[n - 1].at <= attempts[n].at && init[n - 1] == attempts[n - 1];
      FailuresAreRecent(init);
      FailuresSnoc(init, last, init[n - 1].at);
    }
  }

  /** The last failure and the four before it fall within five minutes. */
  predicate FiveRecent(attempts: seq<Stamped<Attempt>>) {
    |attempts| >= 5 && attempts[|attempts| - 1].at - attempts[|attempts| - 5].at < 5 * 60 * 1_000_000
  }

  /** A failure is flagged exactly when it and the four before it from the same address fall within five minutes,
      whoever they were for. */
  lemma {:induction false} FlaggedIffFiveRecent(attempts: seq<Stamped<Attempt>>)
    requires Ordered(attempts) && attempts != []
    ensures |Failures(attempts)| >= FAILED_LOGIN_THRESHOLD <==> FiveRecent(attempts)
  {
    var now := attempts[|attempts| - 1].at;
    FailuresAreRecent(attempts);
    RecentIsSuffix(attempts, now);
    if |attempts| >= 5 {
      FirstRecentSplits(attempts, now, |attempts| - 5);
    }
  }

  // ---- the detector ----

  /** defaultdict(list) */
  function Get<K, V>(m: map<K, seq<V>>, k: K): seq<V> { if k in m then m[k] else [] }

  /** Each user's list is what the user's history leaves. */
  ghost predicate BulkOk(bulkOps: map<nat, seq<Op>>, operations: map<nat, seq<Op>>) {
    forall u :: Get(bulkOps, u) == Stored(Get(operations, u))
  }

  ghost predicate FailuresOk(failedLogins: map<string, seq<Stamped<Attempt>>>, failures: map<string, seq<Stamped<Attempt>>>) {
    forall ip :: Get(failedLogins, ip) == Failures(Get(failures, ip))
  }

  lemma {:induction false} BulkStep(bulkOps: map<nat, seq<Op>>, operations: map<nat, seq<Op>>, user: nat, op: Op)
    requires BulkOk(bulkOps, operations)
    ensures BulkOk(bulkOps[user := Kept(Get(bulkOps, user), op)], operations[user := Get(operations, user) + [op]])
    ensures var h := Get(operations, user) + [op]; Raises(Get(bulkOps, user), op) == Alerted(h, |h| - 1)
  {
    InitOfSnoc(Get(operations, user), op);
    var bulkOps', operations' := bulkOps[user := Kept(Get(bulkOps, user), op)], operations[user := Get(operations, user) + [op]];
    forall u ensures Get(bulkOps', u) == Stored(Get(operations', u)) {
      assert Get(bulkOps, u) == Stored(Get(operations, u));
      if u == user {
        assert Get(operations', u) == Get(operations, user) + [op];
      } else {
        assert Get(operations', u) == Get(operations, u) && Get(bulkOps', u) == Get(bulkOps, u);
      }
    }
  }

  lemma {:induction false} FailureStep(failedLogins: map<string, seq<Stamped<Attempt>>>,
                                       failures: map<string, seq<Stamped<Attempt>>>, ip: string, a: Stamped<Attempt>)
    requires FailuresOk(failedLogins, failures)
    ensures FailuresOk(failedLogins[ip := Recent(Get(failedLogins, ip) + [a], a.at)], failures[ip := Get(failures, ip) + [a]])
    ensures Recent(Get(failedLogins, ip) + [a], a.at) == Failures(Get(failures, ip) + [a])
  {
    InitOfSnoc(Get(failures, ip), a);
    var failedLogins', failures' := failedLogins[ip := Recent(Get(failedLogins, ip) + [a], a.at)], failures[ip := Get(failures, ip) + [a]];
    assert Get(failedLogins, ip) == Failures(Get(failures, ip));
    forall i ensures Get(failedLogins', i) == Failures(Get(failures', i)) {
      if i == ip {
        assert Get(failures', i) == Get(failures, ip) + [a];
      } else {
        assert Get(failedLogins, i) == Failures(Get(failures, i));
        assert Get(failures', i) == Get(failures, i) && Get(failedLogins', i) == Get(failedLogins, i);
      }
    }
  }

  class AnomalyDetector {
    var bulkOps: map<nat, seq<Op>>
    var failedLogins: map<string, seq<Stamped<Attempt>>>
    /** Every operation each user ever recorded, and every failure of each address. */
    ghost var operations: map<nat, seq<Op>>
    ghost var failures: map<string, seq<Stamped<Attempt>>>

    ghost predicate Valid()
      reads this
    {
      BulkOk(bulkOps, operations) && FailuresOk(failedLogins, failures)
    }

    constructor ()
      ensures Valid() && operations == map[] && failures == map[]
    {
      bulkOps, failedLogins, operations, failures := map[], map[], map[], map[];
    }

    method Prune<T>(list: seq<Stamped<T>>, now: Time) returns (kept: seq<Stamped<T>>)
      ensures kept == Recent(list, now)
    {
      kept := [];
      for i := 0 to |list|
        invariant kept == Recent(list[..i], now)
      {
        assert list[..i + 1][..i] == list[..i];
        if list[i].at > now - WINDOW { kept := kept + [list[i]]; }
      }
      assert list[..|list|] == list;
    }

    method Sum(ops: seq<Op>) returns (total: int)
      ensures total == Total(ops)
    {
      total := 0;
      for i := 0 to |ops|
        invariant total == Total(ops[..i])
      {
        assert ops[..i + 1][..i] == ops[..i];
        total := total + ops[i].what.count;
      }
      assert ops[..|ops|] == ops;
    }

    /** record_bulk_operation: the alert is the one the user's whole history calls for. */
    method RecordBulkOperation(user: nat, operation: string, count: int, now: Time) returns (alert: Option<Alert>)
      requires Valid()
      modifies `bulkOps, `operations
      ensures Valid()
      ensures operations == old(operations)[user := Get(old(operations), user) + [Stamped(now, Bulk(operation, count))]]
      ensures alert.Some? <==> Alerted(operations[user], |operations[user]| - 1)
      ensures RightAlert(operations[user], alert)
      ensures alert.Some? ==>
                var seen := Pruned(Stored(Get(old(operations), user)), Stamped(now, Bulk(operation, count)));
                alert.value == Alert(Total(seen), Names(seen))
    {
      var op := Stamped(now, Bulk(operation, count));
      var stored := Get(bulkOps, user);
      assert stored == Stored(Get(operations, user));
      BulkStep(bulkOps, operations, user, op);
      ghost var all := Get(operations, user) + [op];
      operations := operations[user := all];
      var pruned := Prune(stored + [op], now);
      var total := Sum(pruned);
      if total >= BULK_OPERATION_THRESHOLD {
        alert := Some(Alert(total, Names(pruned)));
        bulkOps := bulkOps[user := []];
      } else {
        alert := None;
        bulkOps := bulkOps[user := pruned];
      }
      LastCallDecides(all, alert);
    }

    /** record_login for a failed attempt: whether credential stuffing is reported. */
    method RecordFailedLogin(ip: string, now: Time) returns (flagged: bool)
      requires Valid()
      modifies `failedLogins, `failures
      ensures Valid()
      ensures failures == old(failures)[ip := Get(old(failures), ip) + [Stamped(now, Attempt)]]
      ensures flagged <==> |Failures(failures[ip])| >= FAILED_LOGIN_THRESHOLD
      ensures Ordered(failures[ip]) ==> (flagged <==> FiveRecent(failures[ip]))
    {
      var attempt := Stamped(now, Attempt);
      ghost var all := Get(failures, ip) + [attempt];
      FailureStep(failedLogins, failures, ip, attempt);
      if Ordered(all) {
        FlaggedIffFiveRecent(all);
      }
      var recent := Prune(Get(failedLogins, ip) + [attempt], now);
      flagged := |recent| >= FAILED_LOGIN_THRESHOLD;
      assert flagged <==> |Failures(all)| >= FAILED_LOGIN_THRESHOLD;
      failures, failedLogins := failures[ip := all], failedLogins[ip := recent];
      assert failures[ip] == all;
    }
  }
}

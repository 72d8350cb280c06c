/** Does the scheduler keep an authority's full CRL from going stale (RFC 5280 section 5.1.2.5)?

    The scheduler looks at the newest CRL row of either kind and rounds its remaining life down to whole days, so a
    young delta can hide an old full CRL. This module proves exactly how far apart ticks may be, for which
    delta intervals. A check reads the clock up to three times, and an authority's delta check comes after
    all the base checks of its tick. Only the kind and the dates of a row matter here. */
module CrlFreshness {
  import opened Common

  datatype Row = Row(isDelta: bool, made: Time, next: Time)

  const BASE_LIFE: Time := 7 * DAY
  const THRESHOLD_HOURS: int := 24

  function IsStale(r: Row, now: Time): bool { now > r.next }

  function DaysUntilExpiry(r: Row, now: Time): int { Max(0, (r.next - now) / DAY) }

  /** order_by(created_at desc).first(), the later row where two share a time */
  function Newest(rows: seq<Row>): Option<Row> {
    if rows == [] then None
    else
      var r := rows[|rows| - 1];
      match Newest(rows[..|rows| - 1])
      case None => Some(r)
      case Some(n) => Some(if n.made > r.made then n else r)
  }

  function Last(rows: seq<Row>, delta: bool): Option<Row> {
    if rows == [] then None
    else if rows[|rows| - 1].isDelta == delta then Some(rows[|rows| - 1])
    else Last(rows[..|rows| - 1], delta)
  }

  /** The two questions of a base check, each with its own reading of the clock. */
  predicate ShouldRegenerate(rows: seq<Row>, asked: Time, at: Time) {
    match Newest(rows)
    case None => true
    case Some(n) => IsStale(n, asked) || DaysUntilExpiry(n, at) * 24 <= THRESHOLD_HOURS
  }

  function IntervalHours(configured: nat): nat { if configured == 0 then 4 else configured }

  predicate NeedsDelta(rows: seq<Row>, interval: nat, asked: Time, at: Time) {
    match Last(rows, true)
    case None => Last(rows, false).Some?
    case Some(d) => IsStale(d, asked) || at - d.made >= interval * HOUR
  }

  /** Row i is the last of its kind. */
  predicate IsLast(rows: seq<Row>, delta: bool, i: nat) {
    i < |rows| && rows[i].isDelta == delta && forall k :: i < k < |rows| ==> rows[k].isDelta != delta
  }

  predicate HasKind(rows: seq<Row>, delta: bool) { exists i :: 0 <= i < |rows| && rows[i].isDelta == delta }

  lemma {:induction false} LastIs(rows: seq<Row>, delta: bool)
    ensures Last(rows, delta).Some? <==> HasKind(rows, delta)
    ensures forall i: nat :: IsLast(rows, delta, i) ==> Last(rows, delta) == Some(rows[i])
  {
    if rows != [] {
      LastIs(rows[..|rows| - 1], delta);
      if rows[|rows| - 1].isDelta != delta {
        forall i: nat | IsLast(rows, delta, i) ensures Last(rows, delta) == Some(rows[i]) {
          assert IsLast(rows[..|rows| - 1], delta, i);
        }
      }
    }
  }

  /** A check asks at `asked` and at `at`, and dates what it makes `done`. */
  datatype Event =
    | BaseCheck(asked: Time, at: Time, done: Time)
    | DeltaCheck(asked: Time, at: Time, done: Time, configured: nat)
    | ManualBase(at: Time, life: Time)
    | ManualDelta(at: Time, life: Time)

  function AfterBaseCheck(rows: seq<Row>, asked: Time, at: Time, done: Time): seq<Row> {
    if ShouldRegenerate(rows, asked, at) then rows + [Row(false, done, done + BASE_LIFE)] else rows
  }

  function AfterDeltaCheck(rows: seq<Row>, configured: nat, asked: Time, at: Time, done: Time): seq<Row> {
    var hours := IntervalHours(configured) * 2;
    if NeedsDelta(rows, IntervalHours(configured), asked, at) && hours <= 720 && Last(rows, false).Some?
    then rows + [Row(true, done, done + hours * HOUR)]
    else rows
  }

  /** A first delta needs a full CRL only; a later one comes after a stale delta or one as old as the interval. */
  lemma {:induction false} NeedsDeltaIff(rows: seq<Row>, hours: nat, asked: Time, at: Time)
    ensures !HasKind(rows, true) ==> (NeedsDelta(rows, hours, asked, at) <==> HasKind(rows, false))
    ensures forall i: nat :: IsLast(rows, true, i) ==>
              (NeedsDelta(rows, hours, asked, at) <==> rows[i].next < asked || at >= rows[i].made + hours * HOUR)
  {
    LastIs(rows, false);
    LastIs(rows, true);
  }

  /** The delta a check makes, where one is needed after the interval, four hours where none is set: it lives for two
      intervals, and there is none without a full CRL or for more than 720 hours. */
  lemma {:induction false} DeltaCheckMakes(rows: seq<Row>, configured: nat, asked: Time, at: Time, done: Time)
    ensures var hours := if configured == 0 then 4 else configured;
      AfterDeltaCheck(rows, configured, asked, at, done) ==
      if NeedsDelta(rows, hours, asked, at) && HasKind(rows, false) && hours <= 360
      then rows + [Row(true, done, done + 2 * hours * HOUR)] else rows
  {
    LastIs(rows, false);
  }

  function Step(rows: seq<Row>, e: Event): seq<Row> {
    match e
    case BaseCheck(asked, at, done) => AfterBaseCheck(rows, asked, at, done)
    case DeltaCheck(asked, at, done, configured) => AfterDeltaCheck(rows, configured, asked, at, done)
    case ManualBase(at, life) => rows + [Row(false, at, at + life)]
    case ManualDelta(at, life) => if Last(rows, false).None? then rows else rows + [Row(true, at, at + life)]
  }

  function Run(es: seq<Event>): seq<Row> {
    if es == [] then [] else Step(Run(es[..|es| - 1]), es[|es| - 1])
  }

  function Start(e: Event): Time { if e.BaseCheck? || e.DeltaCheck? then e.asked else e.at }

  function End(e: Event): Time { if e.BaseCheck? || e.DeltaCheck? then e.done else e.at }

  /** When the last base check looked at the rows. */
  function LastCheck(es: seq<Event>): Option<Time> {
    if es == [] then None
    else if es[|es| - 1].BaseCheck? then Some(es[|es| - 1].at)
    else LastCheck(es[..|es| - 1])
  }

  /** One more event: the clock does not go back; a base check ends at most `gap` after the one before looked; a delta
      check ends at most `late` after the base check before it looked, with an interval in lo..hi hours; full CRLs
      made by hand live for a week at least, deltas for an hour up to less than two days. */
  predicate InTime(init: seq<Event>, e: Event, gap: Time, late: Time, lo: nat, hi: nat) {
    && (init != [] ==> End(init[|init| - 1]) <= Start(e))
    && Start(e) <= e.at <= End(e)
    && match e
       case BaseCheck(_, _, done) => LastCheck(init).Some? ==> done <= LastCheck(init).value + gap
       case DeltaCheck(_, _, done, configured) =>
         lo <= IntervalHours(configured) <= hi && LastCheck(init).Some? && done <= LastCheck(init).value + late
       case ManualBase(_, life) => BASE_LIFE <= life
       case ManualDelta(_, life) => HOUR <= life < 2 * DAY
  }

  predicate Scheduled(es: seq<Event>, gap: Time, late: Time, lo: nat, hi: nat) {
    es == [] || (Scheduled(es[..|es| - 1], gap, late, lo, hi) && InTime(es[..|es| - 1], es[|es| - 1], gap, late, lo, hi))
  }

  /** At time now, after the events es and before the next base check is due to end, the full CRL is not stale. */
  predicate FreshAt(es: seq<Event>, now: Time) {
    Last(Run(es), false).Some? && !IsStale(Last(Run(es), false).value, now)
  }

  predicate Between(es: seq<Event>, gap: Time, now: Time) {
    es != [] && LastCheck(es).Some? && End(es[|es| - 1]) <= now <= LastCheck(es).value + gap
  }

  // ---- enough ----

  predicate Sorted(rows: seq<Row>, now: Time) {
    && (forall i :: 0 <= i < |rows| ==> rows[i].made <= now)
    && (forall i, j :: 0 <= i < j < |rows| ==> rows[i].made <= rows[j].made)
  }

  lemma {:induction false} NewestIsLast(rows: seq<Row>, now: Time)
    requires Sorted(rows, now) && rows != []
    ensures Newest(rows) == Some(rows[|rows| - 1])
  {
    var init := rows[..|rows| - 1];
    if init != [] {
      NewestIsLast(init, now);
    }
  }

  /** A base check without its rounding and its first reading. */
  predicate Due(rows: seq<Row>, at: Time) { rows == [] || rows[|rows| - 1].next - at < 2 * DAY }

  lemma ThresholdIsTwoDays(rows: seq<Row>, asked: Time, at: Time)
    requires Sorted(rows, asked) && asked <= at
    ensures ShouldRegenerate(rows, asked, at) <==> Due(rows, at)
  {
    if rows != [] {
      NewestIsLast(rows, asked);
    }
  }

  /** Can a delta of interval x hide a full CRL at all? */
  predicate CanHide(x: int, lo: nat) { x >= lo && x >= 24 }

  /** How long after its making a delta of interval x can keep an old full CRL hidden, by itself and by the deltas that can
      follow while it hides: it hides for 2x - 48 hours; the delta check of the last tick it hides may end `late`
      after that, with any interval of at most 2x - 48 hours, and its delta hides longer in turn if that interval
      allows. Two days are enough to outlast any full CRL that is not due. */
  function Span(x: nat, lo: nat, late: Time): Time {
    if !CanHide(x, lo) then 0
    else if x >= 48 then 48 * HOUR
    else (2 * x - 48) * HOUR + if CanHide(2 * x - 48, lo) then late + Span(2 * x - 48, lo, late) else 0
  }

  lemma {:induction false} SpanGrows(x: nat, y: nat, lo: nat, late: Time)
    requires x <= y < 48 && 0 <= late
    ensures 0 <= Span(x, lo, late) <= Span(y, lo, late)
    decreases y
  {
    if CanHide(y, lo) {
      if CanHide(2 * y - 48, lo) {
        SpanGrows(if CanHide(2 * x - 48, lo) then 2 * x - 48 else 0, 2 * y - 48, lo, late);
      }
    }
  }

  /** Ticks and intervals that let no delta hide a full CRL past its end. */
  predicate CloseEnough(gap: Time, late: Time, lo: nat, hi: nat) {
    gap <= 48 * HOUR && (CanHide(hi, lo) ==> late + Span(hi, lo, late) + gap <= 48 * HOUR)
  }

  /** The bounds of a schedule, in one name. */
  datatype Bounds = Bounds(gap: Time, late: Time, lo: nat, hi: nat)
  {
    predicate Ok() { 0 < gap && 0 <= late < HOUR && CloseEnough(gap, late, lo, hi) }
  }

  lemma OkIsBelowTwoDays(b: Bounds)
    requires b.Ok() && b.lo <= b.hi
    ensures b.hi < 48
  {
  }

  predicate LivesFor(d: Row, interval: nat) { d.next == d.made + 2 * interval * HOUR }

  /** The full CRL of time `next` outlasts the hiding by delta d. */
  predicate Outlived(d: Row, interval: nat, next: Time, b: Bounds) {
    b.lo <= interval <= b.hi && LivesFor(d, interval) && d.made + Span(interval, b.lo, b.late) + b.gap <= next
  }

  ghost predicate OutlivedBy(d: Row, next: Time, b: Bounds) { exists i: nat :: Outlived(d, i, next, b) }

  /** What leaves room for a delta made within `late` after a base check looked at `check`: two days of the full CRL,
      or a last delta that hides it, or one too young to be followed. */
  ghost predicate Room(last: Option<Row>, next: Time, check: Time, b: Bounds) {
    || check + 2 * DAY <= next
    || (last.Some? && last.value.made >= check && last.value.next >= last.value.made + HOUR)
    || (last.Some? && last.value.made <= check && check + 2 * DAY <= last.value.next && OutlivedBy(last.value, next, b))
  }

  /** After a base check the full CRL lasts until the next is due to end; and while the newest row is a delta that can still
      hide it, it outlives the hiding. */
  ghost predicate Covered(rows: seq<Row>, check: Option<Time>, b: Bounds) {
    && (check.Some? ==>
          && Last(rows, false).Some? && check.value + b.gap <= Last(rows, false).value.next
          && Room(Last(rows, true), Last(rows, false).value.next, check.value, b))
    && (rows != [] && rows[|rows| - 1].isDelta ==>
          var d := rows[|rows| - 1];
          d.next - d.made < 2 * DAY || (Last(rows, false).Some? && OutlivedBy(d, Last(rows, false).value.next, b)))
  }

  lemma LastAppend(rows: seq<Row>, r: Row)
    ensures Last(rows + [r], r.isDelta) == Some(r)
    ensures Last(rows + [r], !r.isDelta) == Last(rows, !r.isDelta)
  {
    assert (rows + [r])[..|rows|] == rows;
  }

  lemma SortedAppend(rows: seq<Row>, r: Row, before: Time)
    requires Sorted(rows, before) && before <= r.made
    ensures Sorted(rows + [r], r.made)
  {
  }

  /** How far ahead a delta that is not due can lie. */
  lemma HidingTime(d: Row, interval: nat, at: Time, b: Bounds)
    requires LivesFor(d, interval) && d.made <= at && d.next - at >= 2 * DAY && b.lo <= interval < 48 && 0 <= b.late
    ensures CanHide(interval, b.lo) && at <= d.made + (2 * interval - 48) * HOUR
    ensures at <= d.made + Span(interval, b.lo, b.late)
  {
    assert 2 * interval * HOUR >= 48 * HOUR;
    if CanHide(2 * interval - 48, b.lo) {
      SpanGrows(0, 2 * interval - 48, b.lo, b.late);
    }
  }

  /** A row that is not due either is a full CRL with two days left, or a delta that the full CRL outlives. */
  lemma NotDueCovers(rows: seq<Row>, check: Option<Time>, at: Time, b: Bounds)
    requires Sorted(rows, at) && Covered(rows, check, b) && !Due(rows, at) && b.Ok() && b.hi < 48
    ensures Covered(rows, Some(at), b)
  {
    var d := rows[|rows| - 1];
    if d.isDelta {
      assert d.made <= at;
      var i: nat :| Outlived(d, i, Last(rows, false).value.next, b);
      HidingTime(d, i, at, b);
      assert Last(rows, true) == Some(d);
    } else {
      assert Last(rows, false) == Some(d);
    }
  }

  /** The base check leaves a full CRL that lasts until the next one ends. */
  lemma BaseCheckCovers(rows: seq<Row>, check: Option<Time>, e: Event, b: Bounds)
    requires e.BaseCheck? && e.asked <= e.at <= e.done && Sorted(rows, e.asked) && Covered(rows, check, b) && b.Ok() && b.hi < 48
    ensures Sorted(Step(rows, e), e.done) && Covered(Step(rows, e), Some(e.at), b)
  {
    ThresholdIsTwoDays(rows, e.asked, e.at);
    if Due(rows, e.at) {
      LastAppend(rows, Row(false, e.done, e.done + BASE_LIFE));
      SortedAppend(rows, Row(false, e.done, e.done + BASE_LIFE), e.asked);
    } else {
      NotDueCovers(rows, check, e.at, b);
    }
  }

  /** A delta too young to be followed is followed by none. */
  lemma FollowedIsOld(rows: seq<Row>, d: Row, interval: nat, asked: Time, at: Time, check: Time)
    requires Last(rows, true) == Some(d) && NeedsDelta(rows, interval, asked, at) && asked <= at < check + HOUR && 1 <= interval
    ensures d.made < check || d.next < d.made + HOUR
  {
  }

  /** The reach of a delta that follows a hiding one is part of the reach of that one. */
  lemma ReachIsShared(d: Row, i: nat, interval: nat, check: Time, at: Time, done: Time, next: Time, b: Bounds)
    requires Outlived(d, i, next, b) && b.Ok() && b.hi < 48 && d.made <= check && check + 2 * DAY <= d.next
    requires CanHide(interval, b.lo) && at <= done <= check + b.late && interval * HOUR <= at - d.made
    ensures done + Span(interval, b.lo, b.late) + b.gap <= next
  {
    HidingTime(d, i, check, b);
    var k: nat := 2 * i - 48;
    assert interval * HOUR <= k * HOUR + b.late < (k + 1) * HOUR;
    assert interval <= k;
    SpanGrows(interval, k, b.lo, b.late);
    assert CanHide(k, b.lo);
    assert Span(i, b.lo, b.late) == k * HOUR + b.late + Span(k, b.lo, b.late);
  }

  /** A new delta never reaches beyond the full CRL. */
  lemma NewDeltaIsOutlived(rows: seq<Row>, check: Time, interval: nat, asked: Time, at: Time, done: Time, b: Bounds)
    requires Covered(rows, Some(check), b) && b.Ok() && b.lo <= interval <= b.hi < 48 && CanHide(interval, b.lo)
    requires asked <= at <= done <= check + b.late && NeedsDelta(rows, interval, asked, at)
    ensures done + Span(interval, b.lo, b.late) + b.gap <= Last(rows, false).value.next
  {
    var next, last := Last(rows, false).value.next, Last(rows, true);
    SpanGrows(interval, b.hi, b.lo, b.late);
    if check + 2 * DAY > next {
      FollowedIsOld(rows, last.value, interval, asked, at, check);
      var i: nat :| Outlived(last.value, i, next, b);
      ReachIsShared(last.value, i, interval, check, at, done, next, b);
    }
  }

  lemma DeltaCheckCovers(rows: seq<Row>, check: Time, e: Event, b: Bounds)
    requires e.DeltaCheck? && e.asked <= e.at <= e.done <= check + b.late && Sorted(rows, e.asked) && check <= e.asked
    requires Covered(rows, Some(check), b) && b.Ok() && b.lo <= IntervalHours(e.configured) <= b.hi < 48
    ensures Sorted(Step(rows, e), e.done) && Covered(Step(rows, e), Some(check), b)
  {
    var x := IntervalHours(e.configured);
    var d := Row(true, e.done, e.done + x * 2 * HOUR);
    if Step(rows, e) != rows {
      assert Step(rows, e) == rows + [d];
      LastAppend(rows, d);
      SortedAppend(rows, d, e.asked);
      if CanHide(x, b.lo) {
        NewDeltaIsOutlived(rows, check, x, e.asked, e.at, e.done, b);
        assert Outlived(d, x, Last(rows, false).value.next, b);
      }
    }
  }

  lemma ManualCovers(rows: seq<Row>, check: Option<Time>, before: Time, e: Event, b: Bounds)
    requires (e.ManualBase? && BASE_LIFE <= e.life) || (e.ManualDelta? && HOUR <= e.life < 2 * DAY)
    requires Sorted(rows, before) && before <= e.at && (check.Some? ==> check.value <= e.at) && Covered(rows, check, b) && b.Ok()
    ensures Sorted(Step(rows, e), e.at) && Covered(Step(rows, e), check, b)
  {
    var r := Row(e.ManualDelta?, e.at, e.at + e.life);
    LastAppend(rows, r);
    SortedAppend(rows, r, before);
  }

  lemma {:induction false} RunCovered(es: seq<Event>, b: Bounds)
    requires Scheduled(es, b.gap, b.late, b.lo, b.hi) && b.Ok() && b.hi < 48
    ensures Covered(Run(es), LastCheck(es), b)
    ensures es == [] ==> Run(es) == [] && LastCheck(es) == None
    ensures es != [] ==> Sorted(Run(es), End(es[|es| - 1]))
    ensures es != [] && LastCheck(es).Some? ==> LastCheck(es).value <= End(es[|es| - 1])
  {
    if es != [] {
      var init, e := es[..|es| - 1], es[|es| - 1];
      RunCovered(init, b);
      var rows, before := Run(init), if init == [] then Start(e) else End(init[|init| - 1]);
      assert Sorted(rows, before) && before <= Start(e);
      match e
      case BaseCheck(_, _, _) => BaseCheckCovers(rows, LastCheck(init), e, b);
      case DeltaCheck(_, _, _, _) => DeltaCheckCovers(rows, LastCheck(init).value, e, b);
      case ManualBase(_, _) => ManualCovers(rows, LastCheck(init), before, e, b);
      case ManualDelta(_, _) => ManualCovers(rows, LastCheck(init), before, e, b);
    }
  }

  /** Base checks at most `gap` apart keep the full CRL fresh, for delta checks up to `late` after them and delta intervals
      that vary within lo..hi hours from tick to tick, with full and delta CRLs also made by hand at any time. */
  lemma FreshWhenTicksAreClose(es: seq<Event>, gap: Time, late: Time, lo: nat, hi: nat, now: Time)
    requires Scheduled(es, gap, late, lo, hi) && Between(es, gap, now) && 0 < gap && 0 <= late < HOUR && lo <= hi
    requires CloseEnough(gap, late, lo, hi)
    ensures FreshAt(es, now)
  {
    OkIsBelowTwoDays(Bounds(gap, late, lo, hi));
    RunCovered(es, Bounds(gap, late, lo, hi));
  }

  // ---- and no less ----

  const START: Time := 5 * DAY
  const OLD: Row := Row(false, 0, BASE_LIFE)

  /** One tick: a base check at t, and a delta check at d with interval x. */
  function TickAt(t: Time, d: Time, x: nat): seq<Event> { [BaseCheck(t, t, t), DeltaCheck(d, d, d, x)] }

  /** Delta CRLs are on throughout: every base check is followed by a delta check. */
  predicate Paired(es: seq<Event>) {
    es == [] ||
    if es[|es| - 1].DeltaCheck? then |es| >= 2 && es[|es| - 2].BaseCheck? && Paired(es[..|es| - 2])
    else !es[|es| - 1].BaseCheck? && Paired(es[..|es| - 1])
  }

  /** A schedule that ends at `now`, after a base check at `check`, with the full CRL of time 0 as its last. */
  ghost predicate Stands(es: seq<Event>, b: Bounds, check: Time, now: Time) {
    match LastCheck(es)
    case None => false
    case Some(t) =>
      && t == check && es != [] && End(es[|es| - 1]) == now && check <= now <= check + b.gap
      && Scheduled(es, b.gap, b.late, b.lo, b.hi) && Paired(es) && Last(Run(es), false) == Some(OLD)
  }

  /** And behind a delta of `made`. */
  ghost predicate Hides(es: seq<Event>, b: Bounds, made: Time, interval: nat, check: Time, now: Time) {
    var rows := Run(es);
    match Last(rows, true)
    case None => false
    case Some(d) =>
      && Stands(es, b, check, now) && Sorted(rows, now) && made <= now
      && d == rows[|rows| - 1] == Row(true, made, made + 2 * interval * HOUR)
  }

  /** The bounds a stale schedule is built for. */
  predicate Feasible(b: Bounds) { 0 < b.gap && 0 <= b.late < HOUR && b.late <= b.gap && b.lo <= b.hi && 1 <= b.hi <= 360 }

  lemma {:induction false} TickRun(es: seq<Event>, t: Time, d: Time, x: nat)
    ensures Run(es + TickAt(t, d, x)) == AfterDeltaCheck(AfterBaseCheck(Run(es), t, t, t), x, d, d, d)
    ensures LastCheck(es + TickAt(t, d, x)) == Some(t)
  {
    var first, second := BaseCheck(t, t, t), DeltaCheck(d, d, d, x);
    InitOfSnoc(es, first);
    InitOfSnoc(es + [first], second);
    assert es + TickAt(t, d, x) == es + [first] + [second];
  }

  lemma {:induction false} ScheduledSnoc(es: seq<Event>, e: Event, b: Bounds)
    requires Scheduled(es, b.gap, b.late, b.lo, b.hi) && InTime(es, e, b.gap, b.late, b.lo, b.hi)
    ensures Scheduled(es + [e], b.gap, b.late, b.lo, b.hi)
    ensures LastCheck(es + [e]) == if e.BaseCheck? then Some(e.at) else LastCheck(es)
  {
    InitOfSnoc(es, e);
  }

  lemma {:induction false} PairedSnoc(es: seq<Event>, first: Event, second: Event)
    requires Paired(es) && first.BaseCheck? && second.DeltaCheck?
    ensures Paired(es + [first] + [second])
  {
    var all := es + [first] + [second];
    assert all[|all| - 1] == second && all[|all| - 2] == first && all[..|all| - 2] == es;
  }

  lemma {:induction false} TickScheduled(es: seq<Event>, b: Bounds, t: Time, d: Time, x: nat)
    requires es != [] && End(es[|es| - 1]) <= t && (LastCheck(es).Some? ==> t <= LastCheck(es).value + b.gap)
    requires Scheduled(es, b.gap, b.late, b.lo, b.hi) && Paired(es)
    requires t <= d <= t + b.late && b.lo <= IntervalHours(x) <= b.hi
    ensures Scheduled(es + TickAt(t, d, x), b.gap, b.late, b.lo, b.hi) && Paired(es + TickAt(t, d, x))
  {
    var first, second := BaseCheck(t, t, t), DeltaCheck(d, d, d, x);
    ScheduledSnoc(es, first, b);
    ScheduledSnoc(es + [first], second, b);
    PairedSnoc(es, first, second);
    assert es + TickAt(t, d, x) == es + [first] + [second];
  }

  /** A tick while the delta hides leaves the full CRL alone. */
  lemma {:induction false} HiddenTick(es: seq<Event>, b: Bounds, made: Time, interval: nat, check: Time, now: Time, t: Time, d: Time, x: nat)
    returns (all: seq<Event>)
    requires Hides(es, b, made, interval, check, now) && Feasible(b) && t + 2 * DAY <= made + 2 * interval * HOUR
    requires now <= t <= check + b.gap && t <= d <= t + b.late && b.lo <= IntervalHours(x) <= b.hi
    ensures Stands(all, b, t, d) && Run(all) == AfterDeltaCheck(Run(es), x, d, d, d)
  {
    all := es + TickAt(t, d, x);
    ThresholdIsTwoDays(Run(es), t, t);
    TickRun(es, t, d, x);
    TickScheduled(es, b, t, d, x);
    LastAppend(Run(es), Row(true, d, d + IntervalHours(x) * 2 * HOUR));
  }

  /** Before a delta of the longest interval is due, it leaves everything as it is. */
  lemma {:induction false} IdleTick(es: seq<Event>, b: Bounds, made: Time, interval: nat, check: Time, now: Time, t: Time)
    returns (all: seq<Event>)
    requires Hides(es, b, made, interval, check, now) && Feasible(b) && t + 2 * DAY <= made + 2 * interval * HOUR
    requires now <= t <= check + b.gap && t < made + b.hi * HOUR
    ensures Hides(all, b, made, interval, t, t)
  {
    all := HiddenTick(es, b, made, interval, check, now, t, t, b.hi);
    assert Last(Run(es), true) == Some(Row(true, made, made + 2 * interval * HOUR));
    assert !NeedsDelta(Run(es), b.hi, t, t);
  }

  /** At its last hiding moment the delta is old enough for a new one of a short enough interval. */
  lemma {:induction false} RenewTick(es: seq<Event>, b: Bounds, made: Time, interval: nat, check: Time, now: Time, t: Time, k: nat)
    returns (all: seq<Event>)
    requires Hides(es, b, made, interval, check, now) && Feasible(b) && t + 2 * DAY <= made + 2 * interval * HOUR
    requires now <= t <= check + b.gap && 1 <= k && b.lo <= k <= b.hi && made + k * HOUR <= t
    ensures Hides(all, b, t + b.late, k, t, t + b.late)
  {
    all := HiddenTick(es, b, made, interval, check, now, t, t + b.late, k);
    RenewedHides(es, all, b, made, interval, check, now, t, t + b.late, k);
  }

  lemma {:induction false} RenewedHides(es: seq<Event>, all: seq<Event>, b: Bounds, made: Time, interval: nat, check: Time,
                                        now: Time, t: Time, d: Time, k: nat)
    requires Hides(es, b, made, interval, check, now) && now <= d && 1 <= k <= 360 && made + k * HOUR <= d
    requires Stands(all, b, t, d) && Run(all) == AfterDeltaCheck(Run(es), k, d, d, d)
    ensures Hides(all, b, d, k, t, d)
  {
    RenewedRows(Run(es), Run(all), made, made + 2 * interval * HOUR, now, d, k);
  }

  lemma {:induction false} RenewedRows(rows: seq<Row>, after: seq<Row>, made: Time, next: Time, now: Time, d: Time, k: nat)
    requires rows != [] && rows[|rows| - 1] == Row(true, made, next) && Last(rows, false).Some? && Sorted(rows, now) && now <= d
    requires 1 <= k <= 360 && made + k * HOUR <= d && after == AfterDeltaCheck(rows, k, d, d, d)
    ensures Sorted(after, d) && after != [] && after[|after| - 1] == Row(true, d, d + 2 * k * HOUR)
  {
    var row := Row(true, d, d + 2 * k * HOUR);
    RenewRows(rows, made, next, d, k);
    SortedAppend(rows, row, now);
    LastRow(rows, row);
  }

  lemma LastRow(rows: seq<Row>, r: Row)
    ensures rows + [r] != [] && (rows + [r])[|rows + [r]| - 1] == r
  {
  }

  lemma {:induction false} RenewRows(rows: seq<Row>, made: Time, next: Time, d: Time, k: nat)
    requires rows != [] && rows[|rows| - 1] == Row(true, made, next) && Last(rows, false).Some?
    requires 1 <= k <= 360 && made + k * HOUR <= d
    ensures AfterDeltaCheck(rows, k, d, d, d) == rows + [Row(true, d, d + k * 2 * HOUR)]
  {
    assert Last(rows, true) == Some(Row(true, made, next));
  }

  /** Ticks `gap` apart, all with the longest interval, until `end` is in reach of the next. */
  lemma {:induction false} Approach(es: seq<Event>, b: Bounds, made: Time, interval: nat, check: Time, now: Time, end: Time)
    returns (longer: seq<Event>, c: Time, n: Time)
    requires Hides(es, b, made, interval, check, now) && Feasible(b)
    requires now <= end && end + 2 * DAY <= made + 2 * interval * HOUR && end <= made + b.hi * HOUR
    ensures Hides(longer, b, made, interval, c, n) && n <= end <= c + b.gap
    decreases end - check
  {
    if end <= check + b.gap {
      longer, c, n := es, check, now;
    } else {
      var t := check + b.gap;
      var all := IdleTick(es, b, made, interval, check, now, t);
      longer, c, n := Approach(all, b, made, interval, t, t, end);
    }
  }

  lemma {:induction false} LastLeg(es: seq<Event>, b: Bounds, made: Time, interval: nat, check: Time)
    returns (longer: seq<Event>, end: Time)
    requires Hides(es, b, made, interval, check, made) && Feasible(b) && interval <= b.hi
    requires CanHide(interval, b.lo) && interval < 48 && !CanHide(2 * interval - 48, b.lo)
    ensures Stands(longer, b, end, end) && end == made + Span(interval, b.lo, b.late)
  {
    end := made + (2 * interval - 48) * HOUR;
    var c, n;
    longer, c, n := Approach(es, b, made, interval, check, made, end);
    longer := HiddenTick(longer, b, made, interval, c, n, end, end, b.hi);
  }

  /** Wait out a delta, and renew it at its last hiding moment. */
  lemma {:induction false} OneLeg(es: seq<Event>, b: Bounds, made: Time, interval: nat, check: Time, k: nat)
    returns (longer: seq<Event>, next: Time)
    requires Hides(es, b, made, interval, check, made) && Feasible(b) && interval <= b.hi
    requires interval < 48 && k == 2 * interval - 48 && CanHide(k, b.lo)
    ensures next == made + k * HOUR + b.late && Hides(longer, b, next, k, next - b.late, next)
  {
    var end := made + k * HOUR;
    var c, n;
    longer, c, n := Approach(es, b, made, interval, check, made, end);
    longer := RenewTick(longer, b, made, interval, c, n, end, k);
    next := end + b.late;
  }

  /** One delta after the other, each made at the last moment its predecessor lets it: the full span. */
  lemma {:induction false} HideLong(es: seq<Event>, b: Bounds, made: Time, interval: nat, check: Time)
    returns (longer: seq<Event>, end: Time)
    requires Hides(es, b, made, interval, check, made) && Feasible(b) && interval <= b.hi && interval < 48
    requires CanHide(interval, b.lo)
    ensures Stands(longer, b, end, end) && end == made + Span(interval, b.lo, b.late)
    decreases interval
  {
    var k: int := 2 * interval - 48;
    if CanHide(k, b.lo) {
      var next;
      longer, next := OneLeg(es, b, made, interval, check, k);
      longer, end := HideLong(longer, b, next, k, next - b.late);
    } else {
      longer, end := LastLeg(es, b, made, interval, check);
    }
  }

  /** An interval of two days or more needs no successor to hide for two days. */
  lemma {:induction false} HideTwoDays(es: seq<Event>, b: Bounds, made: Time) returns (longer: seq<Event>)
    requires made == START + b.late && Hides(es, b, made, b.hi, START, made) && Feasible(b) && 48 <= b.hi
    ensures Stands(longer, b, OLD.next, OLD.next)
  {
    var c, n;
    longer, c, n := Approach(es, b, made, b.hi, START, made, OLD.next);
    longer := HiddenTick(longer, b, made, b.hi, c, n, OLD.next, OLD.next, b.hi);
  }

  lemma {:induction false} OneBase(b: Bounds)
    ensures var es := [ManualBase(0, BASE_LIFE)];
      Run(es) == [OLD] && Scheduled(es, b.gap, b.late, b.lo, b.hi) && LastCheck(es) == None && Paired(es)
  {
    ScheduledSnoc([], ManualBase(0, BASE_LIFE), b);
    assert [] + [ManualBase(0, BASE_LIFE)] == [ManualBase(0, BASE_LIFE)] && [] + [OLD] == [OLD];
    assert [ManualBase(0, BASE_LIFE)][..0] == [];
  }

  lemma {:induction false} FirstChecks(d: Time, hi: nat)
    requires 1 <= hi <= 360 && START <= d
    ensures AfterDeltaCheck(AfterBaseCheck([OLD], START, START, START), hi, d, d, d) == [OLD] + [Row(true, d, d + hi * 2 * HOUR)]
  {
    ThresholdIsTwoDays([OLD], START, START);
    OldIsLast();
  }

  lemma OldIsLast()
    ensures Last([OLD], true) == None && Last([OLD], false) == Some(OLD)
  {
    LastAppend([], OLD);
    assert [] + [OLD] == [OLD];
  }

  /** A full CRL of time 0, not due on day 5 by a hair, and a delta of the longest interval made right after. */
  lemma {:induction false} FirstDelta(b: Bounds) returns (es: seq<Event>)
    requires Feasible(b)
    ensures Hides(es, b, START + b.late, b.hi, START, START + b.late)
  {
    var d := START + b.late;
    es := [ManualBase(0, BASE_LIFE)] + TickAt(START, d, b.hi);
    OneBase(b);
    TickRun([ManualBase(0, BASE_LIFE)], START, d, b.hi);
    FirstChecks(d, b.hi);
    TickScheduled([ManualBase(0, BASE_LIFE)], b, START, d, b.hi);
    LastAppend([OLD], Row(true, d, d + b.hi * 2 * HOUR));
    OldIsLast();
  }

  /** Beyond the bound there is a schedule that leaves the full CRL stale, delta CRLs being on throughout. */
  lemma {:induction false} StaleWhenTicksAreFar(gap: Time, late: Time, lo: nat, hi: nat) returns (es: seq<Event>, now: Time)
    requires 0 < gap && 0 <= late < HOUR && late <= gap && 1 <= hi <= 360 && lo <= hi && !CloseEnough(gap, late, lo, hi)
    ensures Scheduled(es, gap, late, lo, hi) && Paired(es) && Between(es, gap, now) && !FreshAt(es, now)
  {
    var b, end := Bounds(gap, late, lo, hi), START;
    es := FirstDelta(b);
    if gap <= 48 * HOUR {
      if hi < 48 {
        es, end := HideLong(es, b, START + late, hi, START);
      } else {
        es := HideTwoDays(es, b, START + late);
        end := OLD.next;
      }
    }
    now := end + gap;
  }

  /** The full CRL is fresh at every moment from the first tick on, in every schedule with base checks at most `gap` apart,
      delta checks at most `late` after them and delta intervals within lo..hi hours, exactly when the gap, the
      lateness and the span of the longest interval are together at most 48 hours. */
  lemma {:induction false} FreshnessExactlyVarying(gap: Time, late: Time, lo: nat, hi: nat)
    requires 0 < gap && 0 <= late < HOUR && late <= gap && 1 <= hi <= 360 && lo <= hi
    ensures (forall es, now :: Scheduled(es, gap, late, lo, hi) && Between(es, gap, now) ==> FreshAt(es, now))
            <==> CloseEnough(gap, late, lo, hi)
  {
    if CloseEnough(gap, late, lo, hi) {
      forall es, now | Scheduled(es, gap, late, lo, hi) && Between(es, gap, now) ensures FreshAt(es, now) {
        FreshWhenTicksAreClose(es, gap, late, lo, hi, now);
      }
    } else {
      var es, now := StaleWhenTicksAreFar(gap, late, lo, hi);
      assert Scheduled(es, gap, late, lo, hi) && Between(es, gap, now) && !FreshAt(es, now);
    }
  }

  lemma {:induction false} ConstantSpan(gap: Time, late: Time, interval: nat)
    requires 0 < gap && 0 <= late
    ensures CloseEnough(gap, late, interval, interval) <==>
            gap <= 48 * HOUR && (interval >= 24 ==> 2 * interval * HOUR + late + gap <= 96 * HOUR)
  {
  }

  /** With one delta interval throughout: exactly when the gap is at most 48 hours and, for intervals from a day on, twice
      the interval, the lateness and the gap are together at most 96 hours. */
  lemma {:induction false} FreshnessExactly(gap: Time, late: Time, interval: nat)
    requires 0 < gap && 0 <= late < HOUR && late <= gap && 1 <= interval <= 360
    ensures (forall es, now :: Scheduled(es, gap, late, interval, interval) && Between(es, gap, now) ==> FreshAt(es, now))
            <==> gap <= 48 * HOUR && (interval >= 24 ==> 2 * interval * HOUR + late + gap <= 96 * HOUR)
  {
    FreshnessExactlyVarying(gap, late, interval, interval);
    ConstantSpan(gap, late, interval);
  }

  /** With any delta intervals of at most a day, base checks and their delta checks within 48 hours are enough. */
  lemma {:induction false} FreshForDailyDeltas(es: seq<Event>, gap: Time, late: Time, now: Time)
    requires Scheduled(es, gap, late, 1, 24) && Between(es, gap, now) && 0 < gap && 0 <= late < HOUR && late + gap <= 48 * HOUR
    ensures FreshAt(es, now)
  {
    FreshWhenTicksAreClose(es, gap, late, 1, 24, now);
  }

  lemma {:induction false} SpanOfForty(late: Time)
    requires 0 <= late
    ensures Span(39, 1, late) == 42 * HOUR + late && Span(40, 1, late) == 48 * HOUR + late
  {
    assert Span(39, 1, late) == 30 * HOUR + late + Span(30, 1, late) && Span(30, 1, late) == 12 * HOUR;
    assert Span(40, 1, late) == 32 * HOUR + late + Span(32, 1, late) && Span(32, 1, late) == 16 * HOUR;
  }

  /** With base checks one to four hours apart, as ticks every hour give them, and intervals free to vary, the full CRL is
      always fresh exactly for intervals up to 39 hours. */
  lemma {:induction false} FreshnessForHourlyTicks(gap: Time, late: Time, hi: nat)
    requires HOUR <= gap <= 4 * HOUR && 0 <= late < HOUR && 1 <= hi <= 360
    ensures (forall es, now :: Scheduled(es, gap, late, 1, hi) && Between(es, gap, now) ==> FreshAt(es, now)) <==> hi <= 39
  {
    FreshnessExactlyVarying(gap, late, 1, hi);
    SpanOfForty(late);
    if hi <= 39 {
      SpanGrows(hi, 39, 1, late);
    } else if hi < 48 {
      SpanGrows(40, hi, 1, late);
    }
  }
}

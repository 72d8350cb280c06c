/** The CRL service, certificate revocation and the CRL scheduler as the program runs them: one call at a
    time over the database tables. */
module CrlService {
  import opened Common
  import opened CrlStore
  import opened CrlNumbering
  import opened CrlCompleteness
  import F = CrlFreshness

  /** A generator with all it needs to commit, when nothing else happens meanwhile. */
  function Finished(db: Db, j: Job, at: Time): Job
    requires j.caId in db.cas
  {
    j.(rows := Some(SelectedRows(db.certs, db.cas[j.caId].refid, j.base)),
       number := Some(NextNumber(db.crls, j.caId)), stamp := Some(at))
  }

  /** A whole generation at one instant. */
  function Generated(db: Db, ca: nat, kind: Kind, at: Time): Db {
    match OpenJob(db, ca, kind)
    case Err(_) => db.(clock := at)
    case Ok(j) => db.(clock := at, crls := db.crls + [CrlFrom(Finished(db, j, at), at)])
  }

  /** The invariants of every run. */
  ghost predicate Consistent(db: Db) { NumbersOk(db) && CertsOk(db) && KnownCas(db) }

  /** No full CRL has missed a revocation, as in every timely run. */
  ghost predicate AllSeen(db: Db) { KnownCas(db) && SeenOk(db) }

  /** No generator is at work, and none has ever been interrupted. */
  ghost predicate Idle(db: Db) {
    db.jobs == map[] && Consistent(db) && forall r :: r in db.crls ==> r.thisUpdate == r.createdAt
  }

  function FiveSteps(db: Db, ca: nat, kind: Kind, at: Time): Db {
    Step(Step(Step(Step(Step(db, At(at, Query(0, ca, kind))), At(at, SelectRows(0))), At(at, ReadNumber(0))),
              At(at, StampTime(0))), At(at, Commit(0)))
  }

  lemma {:induction false} FiveStepsGenerate(db: Db, ca: nat, kind: Kind, at: Time)
    requires db.jobs == map[] && NumbersOk(db)
    ensures FiveSteps(db, ca, kind, at) == Generated(db, ca, kind, at)
  {
    if OpenJob(db, ca, kind).Ok? {
      var j := OpenJob(db, ca, kind).value;
      var done := Finished(db, j, at);
      var selected := j.(rows := done.rows);
      var numbered := selected.(number := done.number);
      SoloQuery(db, ca, kind, at);
      SoloSelect(db.(clock := at, jobs := map[0 := j]), j, at);
      SoloRead(db.(clock := at, jobs := map[0 := selected]), selected, at);
      SoloStamp(db.(clock := at, jobs := map[0 := numbered]), numbered, at);
      SoloCommit(db.(clock := at, jobs := map[0 := done]), done, at);
      NextNumberIsCount(db, ca);
      InsertOutcome(db.crls, CrlFrom(done, at), db.clock);
    } else {
      IdleSteps(db, ca, kind, at);
    }
  }

  lemma {:induction false} SoloQuery(db: Db, ca: nat, kind: Kind, at: Time)
    requires db.jobs == map[] && OpenJob(db, ca, kind).Ok?
    ensures Step(db, At(at, Query(0, ca, kind))) == db.(clock := at, jobs := map[0 := OpenJob(db, ca, kind).value])
  {
  }

  lemma {:induction false} SoloSelect(db: Db, j: Job, at: Time)
    requires db.jobs == map[0 := j] && j.rows.None? && j.caId in db.cas
    ensures Step(db, At(at, SelectRows(0)))
         == db.(clock := at, jobs := map[0 := j.(rows := Some(SelectedRows(db.certs, db.cas[j.caId].refid, j.base)))])
  {
  }

  lemma {:induction false} SoloRead(db: Db, j: Job, at: Time)
    requires db.jobs == map[0 := j] && j.rows.Some? && j.number.None?
    ensures Step(db, At(at, ReadNumber(0)))
         == db.(clock := at, jobs := map[0 := j.(number := Some(NextNumber(db.crls, j.caId)))])
  {
  }

  lemma {:induction false} SoloStamp(db: Db, j: Job, at: Time)
    requires db.jobs == map[0 := j] && j.number.Some? && j.stamp.None?
    ensures Step(db, At(at, StampTime(0))) == db.(clock := at, jobs := map[0 := j.(stamp := Some(at))])
  {
  }

  lemma {:induction false} SoloCommit(db: Db, j: Job, at: Time)
    requires db.jobs == map[0 := j] && j.Ready()
    ensures Step(db, At(at, Commit(0))) == db.(clock := at, jobs := map[], crls := Insert(db.crls, CrlFrom(j, at)))
  {
    assert db.jobs - {0} == map[];
  }

  lemma {:induction false} IdleSteps(db: Db, ca: nat, kind: Kind, at: Time)
    requires db.jobs == map[] && OpenJob(db, ca, kind).Err?
    ensures FiveSteps(db, ca, kind, at) == db.(clock := at)
  {
    var q := db.(clock := at);
    assert Step(db, At(at, Query(0, ca, kind))) == q;
    assert Step(q, At(at, SelectRows(0))) == q && Step(q, At(at, ReadNumber(0))) == q;
    assert Step(q, At(at, StampTime(0))) == q && Step(q, At(at, Commit(0))) == q;
  }

  lemma {:induction false} FiveStepsKeep(db: Db, ca: nat, kind: Kind, at: Time)
    requires Consistent(db) && db.clock <= at
    ensures Consistent(FiveSteps(db, ca, kind, at))
    ensures AllSeen(db) ==> AllSeen(FiveSteps(db, ca, kind, at))
  {
    var q1 := Step(db, At(at, Query(0, ca, kind)));
    var q2 := Step(q1, At(at, SelectRows(0)));
    var q3 := Step(q2, At(at, ReadNumber(0)));
    var q4 := Step(q3, At(at, StampTime(0)));
    Kept(db, At(at, Query(0, ca, kind)));
    Kept(q1, At(at, SelectRows(0)));
    Kept(q2, At(at, ReadNumber(0)));
    Kept(q3, At(at, StampTime(0)));
    Kept(q4, At(at, Commit(0)));
  }

  lemma {:induction false} Kept(db: Db, t: Timed)
    requires Consistent(db) && db.clock <= t.time
    ensures Consistent(Step(db, t))
    ensures AllSeen(db) && Timely(db, t) ==> AllSeen(Step(db, t))
  {
    StepOk(db, t);
    StepRows(db, t);
    StepKnown(db, t);
    if AllSeen(db) && Timely(db, t) { SeenStep(db, t); }
  }

  /** A sequential generation is one way of interleaving the generator's steps, and keeps every invariant. */
  lemma {:induction false} GeneratedIsARun(db: Db, ca: nat, kind: Kind, at: Time)
    requires Idle(db) && db.clock <= at
    ensures Generated(db, ca, kind, at) ==
            Run(db, [At(at, Query(0, ca, kind)), At(at, SelectRows(0)), At(at, ReadNumber(0)), At(at, StampTime(0)), At(at, Commit(0))])
    ensures Idle(Generated(db, ca, kind, at))
    ensures AllSeen(db) ==> AllSeen(Generated(db, ca, kind, at))
  {
    FiveStepsGenerate(db, ca, kind, at);
    FiveStepsKeep(db, ca, kind, at);
    RunOfFive(db, At(at, Query(0, ca, kind)), At(at, SelectRows(0)), At(at, ReadNumber(0)), At(at, StampTime(0)), At(at, Commit(0)));
  }

  lemma {:induction false} RunOfFive(db: Db, a: Timed, b: Timed, c: Timed, d: Timed, e: Timed)
    ensures Run(db, [a, b, c, d, e]) == Step(Step(Step(Step(Step(db, a), b), c), d), e)
  {
    RunSnoc(db, [], a);
    RunSnoc(db, [a], b);
    RunSnoc(db, [a, b], c);
    RunSnoc(db, [a, b, c], d);
    RunSnoc(db, [a, b, c, d], e);
    assert [] + [a] == [a] && [a] + [b] == [a, b] && [a, b] + [c] == [a, b, c] && [a, b, c] + [d] == [a, b, c, d];
    assert [a, b, c, d] + [e] == [a, b, c, d, e];
  }

  // ---- CRL rows as the scheduler sees them ----

  function Face(r: Crl): F.Row { F.Row(r.IsDelta(), r.createdAt, r.nextUpdate) }

  function FaceOf(r: Option<Crl>): Option<F.Row> { if r.Some? then Some(Face(r.value)) else None }

  function Faces(rows: seq<Crl>): (fs: seq<F.Row>)
    ensures |fs| == |rows| && forall i :: 0 <= i < |fs| ==> fs[i] == Face(rows[i])
  {
    seq(|rows|, i requires 0 <= i < |rows| => Face(rows[i]))
  }

  lemma {:induction false} FacesSnoc(rows: seq<Crl>, r: Crl)
    ensures Faces(rows + [r]) == Faces(rows) + [Face(r)]
  {
  }

  lemma {:induction false} RowsOkPrefix(rows: seq<Crl>, clock: Time)
    requires RowsOk(rows, clock) && rows != []
    ensures RowsOk(rows[..|rows| - 1], clock)
  {
    var init := rows[..|rows| - 1];
    forall k | 0 <= k < |init| && init[k].IsDelta() ensures HasBase(init, k) {
      assert HasBase(rows, k);
    }
  }

  lemma {:induction false} OfKindSnoc(rows: seq<Crl>, r: Crl, delta: bool)
    ensures OfKind(rows + [r], delta) == if r.IsDelta() == delta then OfKind(rows, delta) + [r] else OfKind(rows, delta)
  {
    assert (rows + [r])[..|rows|] == rows;
  }

  lemma {:induction false} HighestAppend(rows: seq<Crl>, r: Crl)
    requires forall x :: x in rows ==> x.number < r.number
    ensures Highest(rows + [r]) == Some(r)
  {
    assert (rows + [r])[..|rows|] == rows;
  }

  lemma {:induction false} LatestSnoc(rows: seq<Crl>, r: Crl, delta: bool)
    requires F.Last(Faces(rows), delta) == FaceOf(Highest(OfKind(rows, delta)))
    requires forall x :: x in OfKind(rows, delta) ==> x.number < r.number
    ensures F.Last(Faces(rows + [r]), delta) == FaceOf(Highest(OfKind(rows + [r], delta)))
  {
    FacesSnoc(rows, r);
    F.LastAppend(Faces(rows), Face(r));
    OfKindSnoc(rows, r, delta);
    if r.IsDelta() == delta {
      HighestAppend(OfKind(rows, delta), r);
    }
  }

  lemma {:induction false} NumbersBelow(rows: seq<Crl>, delta: bool, clock: Time)
    requires RowsOk(rows, clock) && rows != []
    ensures forall x :: x in OfKind(rows[..|rows| - 1], delta) ==> x.number < rows[|rows| - 1].number
  {
    forall x | x in OfKind(rows[..|rows| - 1], delta) ensures x.number < rows[|rows| - 1].number {
      InKind(rows[..|rows| - 1], delta, x);
    }
  }

  /** The highest-numbered row of a kind is the last one of that kind. */
  lemma {:induction false} LatestIsLast(rows: seq<Crl>, delta: bool, clock: Time)
    requires RowsOk(rows, clock)
    ensures F.Last(Faces(rows), delta) == FaceOf(Highest(OfKind(rows, delta)))
  {
    if rows != [] {
      RowsOkPrefix(rows, clock);
      LatestIsLast(rows[..|rows| - 1], delta, clock);
      NumbersBelow(rows, delta, clock);
      LatestSnoc(rows[..|rows| - 1], rows[|rows| - 1], delta);
      SplitLast(rows);
    }
  }

  lemma {:induction false} BaseExists(db: Db, ca: nat)
    requires NumbersOk(db)
    ensures F.Last(Faces(RowsOf(db.crls, ca)), false) == FaceOf(LatestBase(db.crls, ca))
    ensures F.Last(Faces(RowsOf(db.crls, ca)), true) == FaceOf(LatestDelta(db.crls, ca))
  {
    assert RowsOk(RowsOf(db.crls, ca), db.clock);
    LatestIsLast(RowsOf(db.crls, ca), false, db.clock);
    LatestIsLast(RowsOf(db.crls, ca), true, db.clock);
  }

  // ---- what a generation adds ----

  function Life(kind: Kind): Time {
    match kind
    case Full(days) => days * DAY
    case Delta(hours) => hours * HOUR
  }

  /** The table has grown by one row of the authority with this face, or not at all. */
  ghost predicate Grown(crls: seq<Crl>, crls': seq<Crl>, ca: nat, face: Option<F.Row>) {
    if face.None? then crls' == crls
    else crls' != [] && crls' == crls + [crls'[|crls'| - 1]] && crls'[|crls'| - 1].caId == ca && Face(crls'[|crls'| - 1]) == face.value
  }

  lemma {:induction false} GrownFaces(crls: seq<Crl>, crls': seq<Crl>, ca: nat, face: Option<F.Row>, other: nat)
    requires Grown(crls, crls', ca, face)
    ensures Faces(RowsOf(crls', other)) ==
            if other == ca && face.Some? then Faces(RowsOf(crls, other)) + [face.value] else Faces(RowsOf(crls, other))
  {
    if face.Some? {
      RowsOfAppend(crls, crls'[|crls'| - 1], other);
      FacesSnoc(RowsOf(crls, other), crls'[|crls'| - 1]);
    }
  }

  lemma {:induction false} GeneratedGrows(db: Db, ca: nat, kind: Kind, at: Time)
    ensures Grown(db.crls, Generated(db, ca, kind, at).crls, ca,
                  if OpenJob(db, ca, kind).Ok? then Some(F.Row(kind.Delta?, at, at + Life(kind))) else None)
  {
  }

  // ---- the events of the scheduling model that a table has seen ----

  type Past = map<nat, seq<F.Event>>

  function PastOf(past: Past, ca: nat): seq<F.Event> { if ca in past then past[ca] else [] }

  function Noted(past: Past, ca: nat, e: F.Event): Past { past[ca := PastOf(past, ca) + [e]] }

  /** Every authority's rows are what the scheduling model makes of its events. */
  ghost predicate Recorded(crls: seq<Crl>, past: Past) { forall ca: nat :: RecordedFor(crls, past, ca) }

  predicate RecordedFor(crls: seq<Crl>, past: Past, ca: nat) { Faces(RowsOf(crls, ca)) == F.Run(PastOf(past, ca)) }

  lemma {:induction false} ModelSnoc(es: seq<F.Event>, e: F.Event)
    ensures F.Run(es + [e]) == F.Step(F.Run(es), e)
  {
    InitOfSnoc(es, e);
  }

  lemma {:induction false} RecordedGrown(crls: seq<Crl>, crls': seq<Crl>, ca: nat, face: Option<F.Row>, past: Past, e: F.Event)
    requires Recorded(crls, past) && Grown(crls, crls', ca, face)
    requires F.Step(Faces(RowsOf(crls, ca)), e) == Added(Faces(RowsOf(crls, ca)), face)
    ensures Recorded(crls', Noted(past, ca, e))
  {
    ModelSnoc(PastOf(past, ca), e);
    assert RecordedFor(crls, past, ca);
    forall other: nat ensures RecordedFor(crls', Noted(past, ca, e), other) {
      GrownFaces(crls, crls', ca, face, other);
      assert RecordedFor(crls, past, other);
    }
  }

  function ManualEvent(kind: Kind, at: Time): F.Event {
    if kind.Full? then F.ManualBase(at, Life(kind)) else F.ManualDelta(at, Life(kind))
  }

  lemma {:induction false} DeltaNeedsBase(db: Db, ca: nat, kind: Kind)
    requires NumbersOk(db) && OpenJob(db, ca, kind).Ok? && kind.Delta?
    ensures F.Last(Faces(RowsOf(db.crls, ca)), false).Some?
  {
    BaseExists(db, ca);
  }

  lemma {:induction false} ManualStep(rows: seq<F.Row>, kind: Kind, at: Time)
    requires kind.Delta? ==> F.Last(rows, false).Some?
    ensures F.Step(rows, ManualEvent(kind, at)) == rows + [F.Row(kind.Delta?, at, at + Life(kind))]
  {
  }

  /** A generation on request is one event. */
  lemma {:induction false} RecordedGeneration(db: Db, ca: nat, kind: Kind, at: Time, past: Past)
    requires NumbersOk(db) && Recorded(db.crls, past)
    ensures Recorded(Generated(db, ca, kind, at).crls,
                     if OpenJob(db, ca, kind).Ok? then Noted(past, ca, ManualEvent(kind, at)) else past)
  {
    var crls' := Generated(db, ca, kind, at).crls;
    GeneratedGrows(db, ca, kind, at);
    if OpenJob(db, ca, kind).Ok? {
      if kind.Delta? { DeltaNeedsBase(db, ca, kind); }
      RecordedManual(db.crls, crls', ca, kind, at, past);
    } else {
      assert crls' == db.crls;
    }
  }

  lemma {:induction false} RecordedManual(crls: seq<Crl>, crls': seq<Crl>, ca: nat, kind: Kind, at: Time, past: Past)
    requires Recorded(crls, past) && Grown(crls, crls', ca, Some(F.Row(kind.Delta?, at, at + Life(kind))))
    requires kind.Delta? ==> F.Last(Faces(RowsOf(crls, ca)), false).Some?
    ensures Recorded(crls', Noted(past, ca, ManualEvent(kind, at)))
  {
    ManualStep(Faces(RowsOf(crls, ca)), kind, at);
    RecordedGrown(crls, crls', ca, Some(F.Row(kind.Delta?, at, at + Life(kind))), past, ManualEvent(kind, at));
  }

  // ---- one authority's part of a tick ----

  /** When a check asks its two questions, and when it dates what it makes. */
  datatype Reading = Reading(asked: Time, at: Time, done: Time)
  {
    predicate Within(lo: Time, hi: Time) { lo <= asked <= at <= done <= hi }
  }

  function BaseEvent(r: Reading): F.Event { F.BaseCheck(r.asked, r.at, r.done) }

  function DeltaEvent(r: Reading, interval: nat): F.Event { F.DeltaCheck(r.asked, r.at, r.done, interval) }

  function TickBase(db: Db, ca: nat, r: Reading): Db {
    if F.ShouldRegenerate(Faces(RowsOf(db.crls, ca)), r.asked, r.at) then Generated(db, ca, Full(7), r.done) else db.(clock := r.done)
  }

  function TickDelta(db: Db, ca: nat, interval: nat, r: Reading): Db {
    if F.NeedsDelta(Faces(RowsOf(db.crls, ca)), F.IntervalHours(interval), r.asked, r.at)
    then Generated(db, ca, Delta(F.IntervalHours(interval) * 2), r.done)
    else db.(clock := r.done)
  }

  lemma {:induction false} LaterIsIdle(db: Db, now: Time)
    requires Idle(db) && db.clock <= now
    ensures Idle(db.(clock := now))
    ensures AllSeen(db) ==> AllSeen(db.(clock := now))
  {
    Kept(db, At(now, Abort(0)));
    assert db.jobs - {0} == db.jobs;
  }

  lemma {:induction false} TickBaseIdle(db: Db, ca: nat, r: Reading)
    requires Idle(db) && db.clock <= r.done
    ensures Idle(TickBase(db, ca, r))
    ensures AllSeen(db) ==> AllSeen(TickBase(db, ca, r))
  {
    LaterIsIdle(db, r.done);
    GeneratedIsARun(db, ca, Full(7), r.done);
  }

  lemma {:induction false} TickDeltaIdle(db: Db, ca: nat, interval: nat, r: Reading)
    requires Idle(db) && db.clock <= r.done
    ensures Idle(TickDelta(db, ca, interval, r))
    ensures AllSeen(db) ==> AllSeen(TickDelta(db, ca, interval, r))
  {
    LaterIsIdle(db, r.done);
    GeneratedIsARun(db, ca, Delta(F.IntervalHours(interval) * 2), r.done);
  }

  lemma {:induction false} FullOpens(db: Db, ca: nat)
    requires ca in db.cas && db.cas[ca].hasKey
    ensures OpenJob(db, ca, Full(7)).Ok?
  {
  }

  lemma {:induction false} DeltaOpens(db: Db, ca: nat, hours: nat)
    requires ca in db.cas && db.cas[ca].hasKey && db.cas[ca].cdpEnabled && db.cas[ca].deltaEnabled && 1 <= hours
    ensures OpenJob(db, ca, Delta(hours)).Ok? <==> hours <= 720 && LatestBase(db.crls, ca).Some?
  {
  }

  /** What a base check adds. */
  function BaseFace(rows: seq<F.Row>, r: Reading): Option<F.Row> {
    if F.ShouldRegenerate(rows, r.asked, r.at) then Some(F.Row(false, r.done, r.done + F.BASE_LIFE)) else None
  }

  /** What a delta check adds. */
  function DeltaFace(rows: seq<F.Row>, interval: nat, r: Reading): Option<F.Row> {
    var hours := F.IntervalHours(interval) * 2;
    if F.NeedsDelta(rows, F.IntervalHours(interval), r.asked, r.at) && hours <= 720 && F.Last(rows, false).Some?
    then Some(F.Row(true, r.done, r.done + hours * HOUR))
    else None
  }

  function Added(rows: seq<F.Row>, face: Option<F.Row>): seq<F.Row> { if face.Some? then rows + [face.value] else rows }

  lemma {:induction false} FaceIsStep(rows: seq<F.Row>, interval: nat, r: Reading)
    ensures F.Step(rows, BaseEvent(r)) == Added(rows, BaseFace(rows, r))
    ensures F.Step(rows, DeltaEvent(r, interval)) == Added(rows, DeltaFace(rows, interval, r))
  {
  }

  lemma {:induction false} TickBaseGrows(db: Db, ca: nat, r: Reading)
    requires ca in db.cas && db.cas[ca].hasKey
    ensures Grown(db.crls, TickBase(db, ca, r).crls, ca, BaseFace(Faces(RowsOf(db.crls, ca)), r))
  {
    if F.ShouldRegenerate(Faces(RowsOf(db.crls, ca)), r.asked, r.at) {
      FullOpens(db, ca);
      GeneratedGrows(db, ca, Full(7), r.done);
    }
  }

  lemma {:induction false} TickDeltaGrows(db: Db, ca: nat, interval: nat, r: Reading)
    requires ca in db.cas && db.cas[ca].hasKey && db.cas[ca].cdpEnabled && db.cas[ca].deltaEnabled && NumbersOk(db)
    ensures Grown(db.crls, TickDelta(db, ca, interval, r).crls, ca, DeltaFace(Faces(RowsOf(db.crls, ca)), interval, r))
  {
    var hours := F.IntervalHours(interval) * 2;
    BaseExists(db, ca);
    DeltaOpens(db, ca, hours);
    if F.NeedsDelta(Faces(RowsOf(db.crls, ca)), F.IntervalHours(interval), r.asked, r.at) {
      GeneratedGrows(db, ca, Delta(hours), r.done);
    }
  }

  /** A base check is one event of the scheduling model. */
  lemma {:induction false} TickBaseRecorded(db: Db, ca: nat, r: Reading, past: Past)
    requires ca in db.cas && db.cas[ca].hasKey && Recorded(db.crls, past)
    ensures Recorded(TickBase(db, ca, r).crls, Noted(past, ca, BaseEvent(r)))
  {
    TickBaseGrows(db, ca, r);
    FaceIsStep(Faces(RowsOf(db.crls, ca)), 0, r);
    RecordedGrown(db.crls, TickBase(db, ca, r).crls, ca, BaseFace(Faces(RowsOf(db.crls, ca)), r), past, BaseEvent(r));
  }

  /** A delta check is one event of the scheduling model. */
  lemma {:induction false} TickDeltaRecorded(db: Db, ca: nat, interval: nat, r: Reading, past: Past)
    requires ca in db.cas && db.cas[ca].hasKey && db.cas[ca].cdpEnabled && db.cas[ca].deltaEnabled
    requires NumbersOk(db) && Recorded(db.crls, past)
    ensures Recorded(TickDelta(db, ca, interval, r).crls, Noted(past, ca, DeltaEvent(r, interval)))
  {
    TickDeltaGrows(db, ca, interval, r);
    FaceIsStep(Faces(RowsOf(db.crls, ca)), interval, r);
    RecordedGrown(db.crls, TickDelta(db, ca, interval, r).crls, ca, DeltaFace(Faces(RowsOf(db.crls, ca)), interval, r), past,
                  DeltaEvent(r, interval));
  }

  /** The scheduler's three questions about the latest delta, asked of the table. */
  lemma {:induction false} NeedsDeltaAsked(db: Db, ca: nat, interval: nat, asked: Time, at: Time)
    requires Idle(db)
    ensures F.NeedsDelta(Faces(RowsOf(db.crls, ca)), interval, asked, at) ==
            match LatestDelta(db.crls, ca)
            case None => LatestBase(db.crls, ca).Some?
            case Some(d) => asked > d.nextUpdate || at - d.thisUpdate >= interval * HOUR
  {
    BaseExists(db, ca);
    if LatestDelta(db.crls, ca).Some? {
      InKind(RowsOf(db.crls, ca), true, LatestDelta(db.crls, ca).value);
      InRowsOf(db.crls, ca, LatestDelta(db.crls, ca).value);
    }
  }

  /** Whatever an authority's table has seen, in whatever order ticks, generations on request and revocations came: as long
      as its checks were close enough, its latest full CRL is not stale. */
  lemma {:induction false} TableStaysFresh(db: Db, past: Past, ca: nat, gap: Time, late: Time, lo: nat, hi: nat, now: Time)
    requires NumbersOk(db) && Recorded(db.crls, past)
    requires F.Scheduled(PastOf(past, ca), gap, late, lo, hi) && F.Between(PastOf(past, ca), gap, now)
    requires 0 < gap && 0 <= late < HOUR && lo <= hi && F.CloseEnough(gap, late, lo, hi)
    ensures LatestBase(db.crls, ca).Some? && now <= LatestBase(db.crls, ca).value.nextUpdate
  {
    F.FreshWhenTicksAreClose(PastOf(past, ca), gap, late, lo, hi, now);
    assert RecordedFor(db.crls, past, ca);
    BaseExists(db, ca);
  }

  function TickEvents(base: Reading, delta: Option<Reading>, interval: nat): seq<F.Event> {
    [BaseEvent(base)] + if delta.Some? then [DeltaEvent(delta.value, interval)] else []
  }

  /** A tick that starts after all that came before, ends within `gap` of the last base check and takes at most `late`
      keeps an authority's checks close. */
  lemma {:induction false} TickKeepsSchedule(es: seq<F.Event>, base: Reading, delta: Option<Reading>, interval: nat,
                                             b: F.Bounds, from: Time, to: Time)
    requires F.Scheduled(es, b.gap, b.late, b.lo, b.hi) && (es != [] ==> F.End(es[|es| - 1]) <= from)
    requires F.LastCheck(es).Some? ==> to <= F.LastCheck(es).value + b.gap
    requires base.Within(from, to) && to <= from + b.late && b.lo <= F.IntervalHours(interval) <= b.hi
    requires delta.Some? ==> delta.value.Within(base.done, to)
    ensures F.Scheduled(es + TickEvents(base, delta, interval), b.gap, b.late, b.lo, b.hi)
  {
    F.ScheduledSnoc(es, BaseEvent(base), b);
    if delta.Some? {
      F.ScheduledSnoc(es + [BaseEvent(base)], DeltaEvent(delta.value, interval), b);
      assert es + TickEvents(base, delta, interval) == es + [BaseEvent(base)] + [DeltaEvent(delta.value, interval)];
    } else {
      assert es + TickEvents(base, delta, interval) == es + [BaseEvent(base)];
    }
  }

  // ---- the services ----

  datatype RevokeError = CertNotFound | AlreadyRevoked

  /** RFC 5280 section 5.2.4 for one delta made now: nothing revoked is lost exactly when the base missed nothing, and
      nothing else is listed exactly when nothing on the base was taken back. */
  ghost predicate Combines(db: Db, ca: nat, b: Crl, delta: Crl)
    requires ca in db.cas
  {
    && (FullEntries(db, ca) <= Elements(b.entries) + Elements(delta.entries) <==> NothingMissed(db, db.cas[ca].refid, b))
    && (Elements(b.entries) + Elements(delta.entries) <= FullEntries(db, ca) <==> NothingWithdrawn(db, db.cas[ca].refid, b))
  }

  lemma {:induction false} DeltaCombines(db: Db, ca: nat, hours: int, at: Time)
    requires Idle(db) && db.clock <= at && OpenJob(db, ca, Delta(hours)).Ok?
    ensures var j := OpenJob(db, ca, Delta(hours)).value;
            var q := Generated(db, ca, Delta(hours), at);
            LatestBase(db.crls, ca) == j.base && j.base.Some?
            && Combines(q, ca, j.base.value, q.crls[|db.crls|])
            && (AllSeen(db) ==> NothingMissed(q, q.cas[ca].refid, j.base.value))
  {
    var j := OpenJob(db, ca, Delta(hours)).value;
    var b := j.base.value;
    var q := Generated(db, ca, Delta(hours), at);
    GeneratedIsARun(db, ca, Delta(hours), at);
    LatestBaseIsBase(db.crls, ca);
    assert b in q.crls;
    NothingRevokedIsLost(q, ca, b, at);
    NothingElseIsListed(q, ca, b, at);
  }

  /** A revocation at a later instant than the last step is timely when no generator is at work. */
  lemma {:induction false} LaterIsTimely(db: Db, id: nat, reason: string, now: Time)
    requires Idle(db) && db.clock < now
    ensures Timely(db, At(now, Revoke(id, reason)))
  {
    forall r | r in db.crls ensures r.thisUpdate <= db.clock {
      InRowsOf(db.crls, r.caId, r);
      assert RowsOk(RowsOf(db.crls, r.caId), db.clock);
    }
  }

  function Stored(db: Db, row: Crl, now: Time): Db { db.(clock := now, crls := db.crls + [row]) }

  function FullCrl(db: Db, ca: nat, days: int, now: Time): Crl
    requires ca in db.cas
  {
    var rows := RevokedRows(db.certs, db.cas[ca].refid);
    Crl(ca, NextNumber(db.crls, ca), now, now + days * DAY, EntriesOf(rows, now), |rows|, None, now)
  }

  function DeltaCrl(db: Db, ca: nat, base: Crl, hours: int, now: Time): Crl
    requires ca in db.cas
  {
    var rows := ChangedRows(db.certs, db.cas[ca].refid, base.thisUpdate);
    Crl(ca, NextNumber(db.crls, ca), now, now + hours * HOUR, EntriesOf(rows, now), |rows|, Some(base.number), now)
  }

  /** The stored CRL: a line for each revoked certificate and no other, and the columns beside them. */
  lemma {:induction false} FullCrlLists(db: Db, ca: nat, days: int, now: Time)
    requires ca in db.cas
    ensures var row, refid := FullCrl(db, ca, days, now), db.cas[ca].refid;
      && Lists(row.entries, db.certs, refid, None, now) && row.revokedCount == |WantedRows(db.certs, refid, None)|
      && row.caId == ca && row.thisUpdate == now && row.createdAt == now && row.nextUpdate == now + days * 24 * HOUR
  {
    SelectionLists(db.certs, db.cas[ca].refid, None, now);
    SelectedCount(db.certs, db.cas[ca].refid, None);
  }

  lemma {:induction false} DeltaCrlLists(db: Db, ca: nat, base: Crl, hours: int, now: Time)
    requires ca in db.cas
    ensures var row, refid := DeltaCrl(db, ca, base, hours, now), db.cas[ca].refid;
      && Lists(row.entries, db.certs, refid, Some(base.thisUpdate), now)
      && row.revokedCount == |WantedRows(db.certs, refid, Some(base.thisUpdate))|
      && row.caId == ca && row.thisUpdate == now && row.createdAt == now && row.nextUpdate == now + hours * HOUR
  {
    SelectionLists(db.certs, db.cas[ca].refid, Some(base), now);
    SelectedCount(db.certs, db.cas[ca].refid, Some(base));
  }

  lemma {:induction false} FullRow(db: Db, ca: nat, days: int, now: Time)
    requires ca in db.cas && db.cas[ca].hasKey
    ensures Generated(db, ca, Full(days), now) == Stored(db, FullCrl(db, ca, days, now), now)
  {
    var j := OpenJob(db, ca, Full(days)).value;
    assert j == Job(ca, None, days * DAY, None, None, None);
    RowOf(Finished(db, j, now), now, FullCrl(db, ca, days, now));
  }

  lemma {:induction false} DeltaRow(db: Db, ca: nat, base: Crl, hours: int, now: Time)
    requires OpenJob(db, ca, Delta(hours)).Ok? && LatestBase(db.crls, ca) == Some(base)
    ensures Generated(db, ca, Delta(hours), now) == Stored(db, DeltaCrl(db, ca, base, hours, now), now)
  {
    var j := OpenJob(db, ca, Delta(hours)).value;
    assert j == Job(ca, Some(base), hours * HOUR, None, None, None);
    RowOf(Finished(db, j, now), now, DeltaCrl(db, ca, base, hours, now));
  }

  lemma {:induction false} RowOf(j: Job, now: Time, row: Crl)
    requires j.Ready() && j.stamp == Some(now)
    requires row == Crl(j.caId, j.number.value, now, now + j.validity, EntriesOf(j.rows.value, now), |j.rows.value|,
                        if j.base.Some? then Some(j.base.value.number) else None, now)
    ensures CrlFrom(j, now) == row
  {
  }

  /** What a generation that is not refused leaves behind. */
  ghost predicate Leaves(db: Db, q: Db, ca: nat, past: Past, past': Past) {
    && Idle(q) && (AllSeen(db) ==> AllSeen(q)) && Recorded(q.crls, past')
    && q.cas == db.cas && q.certs == db.certs && NextNumber(db.crls, ca) == |RowsOf(db.crls, ca)| + 1
  }

  lemma {:induction false} FullLeaves(db: Db, ca: nat, days: int, now: Time, past: Past)
    requires Idle(db) && db.clock <= now && Recorded(db.crls, past) && ca in db.cas && db.cas[ca].hasKey
    ensures Leaves(db, Stored(db, FullCrl(db, ca, days, now), now), ca, past, Noted(past, ca, F.ManualBase(now, days * DAY)))
  {
    FullRow(db, ca, days, now);
    GeneratedIsARun(db, ca, Full(days), now);
    RecordedGeneration(db, ca, Full(days), now, past);
    NextNumberIsCount(db, ca);
  }

  lemma {:induction false} DeltaLeaves(db: Db, ca: nat, base: Crl, hours: int, now: Time, past: Past)
    requires Idle(db) && db.clock <= now && Recorded(db.crls, past) && PublishingDeltas(db.cas, ca) && 1 <= hours <= 720
    requires LatestBase(db.crls, ca) == Some(base)
    ensures Leaves(db, Stored(db, DeltaCrl(db, ca, base, hours, now), now), ca, past, Noted(past, ca, F.ManualDelta(now, hours * HOUR)))
  {
    DeltaOpens(db, ca, hours);
    DeltaRow(db, ca, base, hours, now);
    GeneratedIsARun(db, ca, Delta(hours), now);
    RecordedGeneration(db, ca, Delta(hours), now, past);
    NextNumberIsCount(db, ca);
  }

  class CrlService {
    var clock: Time
    var cas: map<nat, Ca>
    var certs: seq<Cert>
    var crls: seq<Crl>

    // every revocation so far was timely
    ghost var timely: bool
    // the checks and generations each authority has seen
    ghost var past: Past

    function State(): Db
      reads this
    {
      Db(clock, cas, certs, crls, map[])
    }

    ghost predicate Valid()
      reads this
    {
      && Idle(State()) && (timely ==> AllSeen(State())) && Recorded(crls, past)
      && forall a, b :: a in cas && b in cas && cas[a].refid == cas[b].refid ==> a == b
    }

    constructor (cas: map<nat, Ca>, clock: Time)
      requires forall a, b :: a in cas && b in cas && cas[a].refid == cas[b].refid ==> a == b
      ensures Valid() && timely && Fresh(State()) && this.cas == cas && this.clock == clock
      ensures past == map[]
    {
      this.cas, this.clock, certs, crls, timely, past := cas, clock, [], [], true, map[];
      new;
      forall ca: nat ensures RowsOk(RowsOf(crls, ca), clock) {}
    }

    /** The loop over the selected rows that adds one entry per parsable serial number. */
    static method BuildEntries(rows: seq<Cert>, now: Time) returns (entries: seq<Entry>)
      ensures entries == EntriesOf(rows, now)
    {
      entries := [];
      for i := 0 to |rows|
        invariant entries == EntriesOf(rows[..i], now)
      {
        assert rows[..i + 1][..i] == rows[..i];
        var entry := EntryOf(rows[i], now);
        if entry.Some? {
          entries := entries + [entry.value];
        }
      }
      assert rows[..|rows|] == rows;
    }

    method GenerateCrl(caId: nat, validityDays: int, now: Time) returns (r: Result<Crl, CrlError>)
      requires Valid() && clock <= now
      modifies this
      ensures Valid() && State() == Generated(old(State()), caId, Full(validityDays), now) && timely == old(timely)
      ensures past == if r.Ok? then Noted(old(past), caId, F.ManualBase(now, validityDays * DAY)) else old(past)
      ensures r.Ok? <==> caId in cas && cas[caId].hasKey
      ensures r.Ok? ==> crls == old(crls) + [r.value] && !r.value.IsDelta()
                        && Elements(r.value.entries) == FullEntries(State(), caId)
                        && r.value.number == |old(RowsOf(crls, caId))| + 1
      ensures r.Ok? ==> Lists(r.value.entries, certs, cas[caId].refid, None, now)
                        && r.value.revokedCount == |WantedRows(certs, cas[caId].refid, None)|
                        && r.value.thisUpdate == now && r.value.nextUpdate == now + validityDays * 24 * HOUR
      ensures certs == old(certs) && cas == old(cas) && (r.Err? ==> crls == old(crls))
    {
      ghost var was := State();
      if caId !in cas {
        LaterIsIdle(was, now);
        clock := now;
        return Err(CaNotFound);
      }
      var ca := cas[caId];
      if !ca.hasKey {
        LaterIsIdle(was, now);
        clock := now;
        return Err(NoPrivateKey);
      }
      FullRow(was, caId, validityDays, now);
      FullCrlLists(was, caId, validityDays, now);
      var row := StoreFull(caId, validityDays, now);
      return Ok(row);
    }

    /** Selecting the rows, numbering, signing and storing. */
    method StoreFull(caId: nat, validityDays: int, now: Time) returns (row: Crl)
      requires Valid() && clock <= now && caId in cas && cas[caId].hasKey
      modifies this
      ensures Valid() && State() == Stored(old(State()), row, now) && timely == old(timely)
      ensures row == FullCrl(old(State()), caId, validityDays, now) && row.number == |old(RowsOf(crls, caId))| + 1
      ensures past == Noted(old(past), caId, F.ManualBase(now, validityDays * DAY))
    {
      ghost var was := State();
      FullLeaves(was, caId, validityDays, now, past);
      var rows := RevokedRows(certs, cas[caId].refid);
      var number := NextNumber(crls, caId);
      var entries := BuildEntries(rows, now);
      row := Crl(caId, number, now, now + validityDays * DAY, entries, |rows|, None, now);
      assert row == FullCrl(was, caId, validityDays, now);
      clock, crls := now, crls + [row];
      past := Noted(past, caId, F.ManualBase(now, validityDays * DAY));
      assert State() == Stored(was, row, now);
    }

    /** The checks before a delta, and the full CRL it is made on. */
    method FindBase(caId: nat, validityHours: int) returns (r: Result<Crl, CrlError>)
      ensures r.Ok? <==> OpenJob(State(), caId, Delta(validityHours)).Ok?
      ensures r.Err? ==> r.error == OpenJob(State(), caId, Delta(validityHours)).error
      ensures r.Ok? <==> caId in cas && cas[caId].hasKey && cas[caId].cdpEnabled && cas[caId].deltaEnabled
                         && 1 <= validityHours <= 720 && exists b :: b in crls && b.caId == caId && !b.IsDelta()
      ensures r == Err(CaNotFound) <==> caId !in cas
      ensures r == Err(NoPrivateKey) <==> caId in cas && !cas[caId].hasKey
      ensures r == Err(CdpDisabled) <==> caId in cas && cas[caId].hasKey && !cas[caId].cdpEnabled
      ensures r == Err(DeltaDisabled) <==> caId in cas && cas[caId].hasKey && cas[caId].cdpEnabled && !cas[caId].deltaEnabled
      ensures r == Err(NoBaseCrl) ==> 1 <= validityHours <= 720
      ensures r == Err(BadValidity) ==> validityHours < 1 || 720 < validityHours
      ensures r.Ok? ==> LatestBase(crls, caId) == Some(r.value)
      ensures r.Ok? ==> r.value in crls && r.value.caId == caId && !r.value.IsDelta()
                        && forall b :: b in crls && b.caId == caId && !b.IsDelta() ==> b.number <= r.value.number
    {
      if caId !in cas { return Err(CaNotFound); }
      var ca := cas[caId];
      LatestBaseIsHighest(crls, caId);
      if !ca.hasKey { return Err(NoPrivateKey); }
      if !ca.cdpEnabled { return Err(CdpDisabled); }
      if !ca.deltaEnabled { return Err(DeltaDisabled); }
      if validityHours < 1 || validityHours > 720 { return Err(BadValidity); }
      var base := LatestBase(crls, caId);
      if base.None? { return Err(NoBaseCrl); }
      return Ok(base.value);
    }

    method GenerateDeltaCrl(caId: nat, validityHours: int, now: Time) returns (r: Result<Crl, CrlError>)
      requires Valid() && clock <= now
      modifies this
      ensures Valid() && State() == Generated(old(State()), caId, Delta(validityHours), now) && timely == old(timely)
      ensures past == if r.Ok? then Noted(old(past), caId, F.ManualDelta(now, validityHours * HOUR)) else old(past)
      ensures r.Ok? <==> OpenJob(old(State()), caId, Delta(validityHours)).Ok?
      ensures r.Err? ==> r.error == OpenJob(old(State()), caId, Delta(validityHours)).error
      ensures r.Ok? ==> crls == old(crls) + [r.value] && r.value.number == |old(RowsOf(crls, caId))| + 1
      ensures r.Ok? ==> LatestBase(old(crls), caId).Some?
                        && r.value.baseNumber == Some(LatestBase(old(crls), caId).value.number)
                        && Combines(State(), caId, LatestBase(old(crls), caId).value, r.value)
      ensures r.Ok? && timely ==> NothingMissed(State(), cas[caId].refid, LatestBase(old(crls), caId).value)
      ensures r.Ok? ==> Lists(r.value.entries, certs, cas[caId].refid, Some(LatestBase(old(crls), caId).value.thisUpdate), now)
                        && r.value.thisUpdate == now && r.value.nextUpdate == now + validityHours * HOUR
    {
      ghost var was := State();
      var base := FindBase(caId, validityHours);
      if base.Err? {
        LaterIsIdle(was, now);
        clock := now;
        return Err(base.error);
      }
      DeltaCombines(was, caId, validityHours, now);
      DeltaRow(was, caId, base.value, validityHours, now);
      var row := StoreDelta(caId, base.value, validityHours, now);
      return Ok(row);
    }

    /** Selecting the rows, numbering, signing and storing. */
    method StoreDelta(caId: nat, base: Crl, validityHours: int, now: Time) returns (row: Crl)
      requires Valid() && clock <= now && PublishingDeltas(cas, caId) && 1 <= validityHours <= 720 && LatestBase(crls, caId) == Some(base)
      modifies this
      ensures Valid() && State() == Stored(old(State()), row, now) && timely == old(timely)
      ensures row == DeltaCrl(old(State()), caId, base, validityHours, now)
      ensures past == Noted(old(past), caId, F.ManualDelta(now, validityHours * HOUR))
      ensures crls == old(crls) + [row] && row.number == |old(RowsOf(crls, caId))| + 1 && row.baseNumber == Some(base.number)
      ensures Lists(row.entries, certs, cas[caId].refid, Some(base.thisUpdate), now)
              && row.revokedCount == |WantedRows(certs, cas[caId].refid, Some(base.thisUpdate))|
              && row.thisUpdate == now && row.nextUpdate == now + validityHours * HOUR
    {
      ghost var was := State();
      DeltaLeaves(was, caId, base, validityHours, now, past);
      DeltaCrlLists(was, caId, base, validityHours, now);
      var rows := ChangedRows(certs, cas[caId].refid, base.thisUpdate);
      var number := NextNumber(crls, caId);
      var entries := BuildEntries(rows, now);
      row := Crl(caId, number, now, now + validityHours * HOUR, entries, |rows|, Some(base.number), now);
      assert row == DeltaCrl(was, caId, base, validityHours, now);
      clock, crls := now, crls + [row];
      past := Noted(past, caId, F.ManualDelta(now, validityHours * HOUR));
      assert State() == Stored(was, row, now);
    }

    /** The revocation itself: one step of the table. */
    method MarkRevoked(id: nat, reason: string, now: Time) returns (r: Result<Cert, RevokeError>)
      requires Valid() && clock <= now
      modifies this
      ensures Valid() && State() == Step(old(State()), At(now, Revoke(id, reason)))
      ensures timely == (old(timely) && Timely(old(State()), At(now, Revoke(id, reason))))
      ensures cas == old(cas) && crls == old(crls) && past == old(past)
      ensures r.Ok? <==> IndexOf(old(certs), id) < |old(certs)| && !old(certs)[IndexOf(old(certs), id)].revoked
      ensures r == Err(CertNotFound) <==> IndexOf(old(certs), id) == |old(certs)|
      ensures r.Ok? ==> r.value == old(certs)[IndexOf(old(certs), id)].(revoked := true, revokedAt := Some(now), reason := Some(reason))
      ensures certs == if r.Ok? then old(certs)[IndexOf(old(certs), id) := r.value] else old(certs)
    {
      Kept(State(), At(now, Revoke(id, reason)));
      timely := timely && Timely(State(), At(now, Revoke(id, reason)));
      clock := now;
      var i := IndexOf(certs, id);
      if i == |certs| { return Err(CertNotFound); }
      if certs[i].revoked { return Err(AlreadyRevoked); }
      var cert := certs[i].(revoked := true, revokedAt := Some(now), reason := Some(reason));
      certs := certs[i := cert];
      return Ok(cert);
    }

    /** A full CRL of the authority with this refid, if there is one and it publishes CRLs. */
    method PublishFor(refid: string, now: Time)
      requires Valid() && clock <= now
      modifies this
      ensures Valid() && cas == old(cas) && certs == old(certs) && timely == old(timely)
      ensures (forall ca :: ca in cas && cas[ca].refid == refid ==> !cas[ca].cdpEnabled) ==>
                State() == old(State()) && past == old(past)
      ensures forall ca :: ca in cas && cas[ca].refid == refid && cas[ca].cdpEnabled ==>
                State() == Generated(old(State()), ca, Full(7), now)
      ensures past == old(past)
              || exists ca :: ca in cas && cas[ca].refid == refid && past == Noted(old(past), ca, F.ManualBase(now, F.BASE_LIFE))
    {
      if ca :| ca in cas && cas[ca].refid == refid {
        if cas[ca].cdpEnabled {
          var _ := GenerateCrl(ca, 7, now);
        }
      }
    }

    /** Revocation, then a full CRL when the authority publishes CRLs; a failed CRL does not undo the revocation. */
    method RevokeCertificate(id: nat, reason: string, now: Time, crlTime: Time) returns (r: Result<Cert, RevokeError>)
      requires Valid() && clock <= now <= crlTime
      modifies this
      ensures Valid() && cas == old(cas)
      ensures timely == (old(timely) && Timely(old(State()), At(now, Revoke(id, reason))))
      ensures r.Ok? <==> IndexOf(old(certs), id) < |old(certs)| && !old(certs)[IndexOf(old(certs), id)].revoked
      ensures r == Err(CertNotFound) <==> IndexOf(old(certs), id) == |old(certs)|
      ensures r.Ok? ==> r.value == old(certs)[IndexOf(old(certs), id)].(revoked := true, revokedAt := Some(now), reason := Some(reason))
      ensures certs == if r.Ok? then old(certs)[IndexOf(old(certs), id) := r.value] else old(certs)
      ensures r.Err? || (forall ca :: ca in cas && cas[ca].refid == r.value.caref ==> !cas[ca].cdpEnabled) ==> crls == old(crls)
      ensures r.Ok? ==> forall ca :: ca in cas && cas[ca].refid == r.value.caref && cas[ca].cdpEnabled ==>
                State() == Generated(Step(old(State()), At(now, Revoke(id, reason))), ca, Full(7), crlTime)
      ensures r.Ok? ==> past == old(past)
                        || exists ca :: ca in cas && cas[ca].refid == r.value.caref
                                        && past == Noted(old(past), ca, F.ManualBase(crlTime, F.BASE_LIFE))
    {
      r := MarkRevoked(id, reason, now);
      if r.Ok? {
        PublishFor(r.value.caref, crlTime);
      }
    }

    /** The delta settings, within the API's bounds. */
    method ConfigureDelta(caId: nat, enabled: Option<bool>, interval: Option<int>, now: Time) returns (ok: bool)
      requires Valid() && clock <= now
      modifies this
      ensures Valid() && timely == old(timely) && past == old(past) && certs == old(certs) && crls == old(crls)
      ensures ok <==> caId in old(cas) && (interval.Some? ==> 1 <= interval.value <= 168)
      ensures cas == if !ok then old(cas) else
                var ca := old(cas)[caId];
                old(cas)[caId := Ca(ca.refid, ca.hasKey, ca.cdpEnabled, if enabled.Some? then enabled.value else ca.deltaEnabled,
                                    if interval.Some? then interval.value else ca.deltaInterval)]
    {
      if caId !in cas || (interval.Some? && (interval.value < 1 || interval.value > 168)) {
        LaterIsIdle(State(), now);
        clock := now;
        return false;
      }
      SetDelta(caId, if enabled.Some? then enabled.value else cas[caId].deltaEnabled,
               if interval.Some? then interval.value else cas[caId].deltaInterval, now);
      return true;
    }

    /** Writing both delta settings of an authority. */
    method SetDelta(caId: nat, on: bool, hours: nat, now: Time)
      requires Valid() && clock <= now && caId in cas
      modifies this
      ensures Valid() && timely == old(timely) && past == old(past) && certs == old(certs) && crls == old(crls)
      ensures cas == old(cas)[caId := Ca(old(cas)[caId].refid, old(cas)[caId].hasKey, old(cas)[caId].cdpEnabled, on, hours)]
    {
      ghost var was, e := State(), At(now, Configure(caId, cas[caId].cdpEnabled, on, hours));
      Kept(was, e);
      clock, cas := now, cas[caId := cas[caId].(deltaEnabled := on, deltaInterval := hours)];
      assert State() == Step(was, e);
    }

    // ---- the scheduler ----

    method CheckBase(caId: nat, t: Reading)
      requires Valid() && t.Within(clock, t.done) && caId in cas && cas[caId].hasKey
      modifies this
      ensures Valid() && State() == TickBase(old(State()), caId, t) && timely == old(timely)
      ensures cas == old(cas) && certs == old(certs) && clock == t.done
      ensures past == Noted(old(past), caId, BaseEvent(t))
    {
      ghost var before := past;
      TickBaseIdle(State(), caId, t);
      TickBaseRecorded(State(), caId, t, past);
      if F.ShouldRegenerate(Faces(RowsOf(crls, caId)), t.asked, t.at) {
        var _ := GenerateCrl(caId, 7, t.done);
      } else {
        clock := t.done;
      }
      past := Noted(before, caId, BaseEvent(t));
    }

    /** The three questions about the latest delta. */
    method NeedsDelta(caId: nat, interval: nat, t: Reading) returns (needed: bool)
      requires Idle(State())
      ensures needed == F.NeedsDelta(Faces(RowsOf(crls, caId)), interval, t.asked, t.at)
    {
      NeedsDeltaAsked(State(), caId, interval, t.asked, t.at);
      var latest := LatestDelta(crls, caId);
      needed := false;
      if latest.None? {
        var base := LatestBase(crls, caId);
        needed := base.Some?;
      } else if t.asked > latest.value.nextUpdate {
        needed := true;
      } else if t.at - latest.value.thisUpdate >= interval * HOUR {
        needed := true;
      }
    }

    method CheckDelta(caId: nat, t: Reading)
      requires Valid() && t.Within(clock, t.done) && PublishingDeltas(cas, caId)
      modifies this
      ensures Valid() && State() == TickDelta(old(State()), caId, old(cas)[caId].deltaInterval, t) && timely == old(timely)
      ensures cas == old(cas) && certs == old(certs) && clock == t.done
      ensures past == Noted(old(past), caId, DeltaEvent(t, old(cas)[caId].deltaInterval))
    {
      ghost var before, configured := past, cas[caId].deltaInterval;
      var interval := if cas[caId].deltaInterval == 0 then 4 else cas[caId].deltaInterval;
      var needed := NeedsDelta(caId, interval, t);
      TickDeltaIdle(State(), caId, configured, t);
      TickDeltaRecorded(State(), caId, configured, t, past);
      if needed {
        var _ := GenerateDeltaCrl(caId, interval * 2, t.done);
      } else {
        clock := t.done;
      }
      past := Noted(before, caId, DeltaEvent(t, configured));
    }

    /** The three readings from the i-th on. */
    static function ReadingsAt(readings: nat -> Time, i: nat): Reading { Reading(readings(i), readings(i + 1), readings(i + 2)) }

    /** The first loop of a tick: the base checks, in whatever order the query returns the authorities, each at its own
        readings of the clock. */
    method CheckBases(readings: nat -> Time) returns (at: map<nat, Reading>, i: nat)
      requires Valid() && Forward(readings) && clock <= readings(0)
      modifies this
      ensures Valid() && timely == old(timely) && clock <= readings(i) && cas == old(cas) && certs == old(certs)
      ensures forall ca: nat :: ca in at <==> Publishing(cas, ca)
      ensures forall ca :: ca in at ==> at[ca].Within(readings(0), readings(i))
      ensures BasesNoted(old(past), past, at)
    {
      ghost var before := past;
      i, at := 0, map[];
      var todo := set k | k in cas && cas[k].hasKey && cas[k].cdpEnabled;
      while todo != {}
        invariant Valid() && timely == old(timely) && clock <= readings(i) && cas == old(cas) && certs == old(certs)
        invariant forall k: nat :: Publishing(cas, k) <==> k in todo || k in at
        invariant forall k :: k in at ==> k !in todo && at[k].Within(readings(0), readings(i))
        invariant BasesNoted(before, past, at)
        decreases todo
      {
        var ca :| ca in todo;
        var t := ReadingsAt(readings, i);
        BasesMore(before, past, at, ca, t);
        CheckBase(ca, t);
        at, todo, i := at[ca := t], todo - {ca}, i + 3;
      }
    }

    /** The second loop: the delta checks, from the i-th reading of the clock on. */
    method CheckDeltas(readings: nat -> Time, start: nat) returns (at: map<nat, Reading>, i: nat)
      requires Valid() && Forward(readings) && clock <= readings(start)
      modifies this
      ensures Valid() && timely == old(timely) && start <= i && clock <= readings(i) && cas == old(cas) && certs == old(certs)
      ensures forall ca: nat :: ca in at <==> PublishingDeltas(cas, ca)
      ensures forall ca :: ca in at ==> at[ca].Within(readings(start), readings(i))
      ensures DeltasNoted(cas, old(past), past, at)
    {
      ghost var before := past;
      i, at := start, map[];
      var todo := set k | k in cas && cas[k].hasKey && cas[k].cdpEnabled && cas[k].deltaEnabled;
      while todo != {}
        invariant Valid() && timely == old(timely) && clock <= readings(i) && start <= i && cas == old(cas) && certs == old(certs)
        invariant forall k: nat :: PublishingDeltas(cas, k) <==> k in todo || k in at
        invariant forall k :: k in at ==> k !in todo && at[k].Within(readings(start), readings(i))
        invariant DeltasNoted(cas, before, past, at)
        decreases todo
      {
        var ca :| ca in todo;
        var t := ReadingsAt(readings, i);
        DeltasMore(cas, before, past, at, ca, t);
        CheckDelta(ca, t);
        at, todo, i := at[ca := t], todo - {ca}, i + 3;
      }
    }

    /** A tick over all authorities: every publishing authority gets a base check and, with deltas on, a delta check after
        all the base checks, each at its own readings of the clock. */
    method Execute(readings: nat -> Time) returns (baseAt: map<nat, Reading>, deltaAt: map<nat, Reading>, n: nat)
      requires Valid() && Forward(readings) && clock <= readings(0)
      modifies this
      ensures Valid() && timely == old(timely) && cas == old(cas) && certs == old(certs) && clock <= readings(n)
      ensures forall ca: nat :: ca in baseAt <==> ca in cas && cas[ca].hasKey && cas[ca].cdpEnabled
      ensures forall ca: nat :: ca in deltaAt <==> ca in cas && cas[ca].hasKey && cas[ca].cdpEnabled && cas[ca].deltaEnabled
      ensures forall ca :: ca in baseAt ==> baseAt[ca].Within(readings(0), readings(n))
      ensures forall ca, other :: ca in deltaAt && other in baseAt ==> deltaAt[ca].Within(baseAt[other].done, readings(n))
      ensures TickNoted(cas, old(past), past, baseAt, deltaAt)
    {
      ghost var before := past;
      var i;
      baseAt, i := CheckBases(readings);
      ghost var middle := past;
      deltaAt, n := CheckDeltas(readings, i);
      ComposeTick(cas, before, middle, past, baseAt, deltaAt);
    }

    /** Nothing has to be asked of the calls but their times: the latest full CRL is fresh wherever the checks in the history
        of the authority were close enough. */
    lemma {:induction false} StaysFresh(ca: nat, gap: Time, late: Time, lo: nat, hi: nat, now: Time)
      requires Valid() && F.Scheduled(PastOf(past, ca), gap, late, lo, hi) && F.Between(PastOf(past, ca), gap, now)
      requires 0 < gap && 0 <= late < HOUR && lo <= hi && F.CloseEnough(gap, late, lo, hi)
      ensures LatestBase(crls, ca).Some? && now <= LatestBase(crls, ca).value.nextUpdate
    {
      TableStaysFresh(State(), past, ca, gap, late, lo, hi, now);
    }
  }

  /** The clock does not go back between readings. */
  ghost predicate Forward(readings: nat -> Time) { forall i: nat, k: nat :: i <= k ==> readings(i) <= readings(k) }

  predicate Publishing(cas: map<nat, Ca>, ca: nat) { ca in cas && cas[ca].hasKey && cas[ca].cdpEnabled }

  predicate PublishingDeltas(cas: map<nat, Ca>, ca: nat) { Publishing(cas, ca) && cas[ca].deltaEnabled }

  ghost predicate BasesNoted(before: Past, past: Past, at: map<nat, Reading>) {
    forall ca: nat :: PastOf(past, ca) == if ca in at then PastOf(before, ca) + [BaseEvent(at[ca])] else PastOf(before, ca)
  }

  ghost predicate DeltasNoted(cas: map<nat, Ca>, before: Past, past: Past, at: map<nat, Reading>) {
    forall ca: nat :: PastOf(past, ca) ==
      if ca in at && ca in cas then PastOf(before, ca) + [DeltaEvent(at[ca], cas[ca].deltaInterval)] else PastOf(before, ca)
  }

  lemma {:induction false} BasesMore(before: Past, past: Past, at: map<nat, Reading>, ca: nat, t: Reading)
    requires BasesNoted(before, past, at) && ca !in at
    ensures BasesNoted(before, Noted(past, ca, BaseEvent(t)), at[ca := t])
  {
  }

  lemma {:induction false} DeltasMore(cas: map<nat, Ca>, before: Past, past: Past, at: map<nat, Reading>, ca: nat, t: Reading)
    requires DeltasNoted(cas, before, past, at) && ca !in at && ca in cas
    ensures DeltasNoted(cas, before, Noted(past, ca, DeltaEvent(t, cas[ca].deltaInterval)), at[ca := t])
  {
  }

  /** Each authority has seen its own part of the tick, and the others nothing. */
  ghost predicate TickNoted(cas: map<nat, Ca>, before: Past, past: Past, baseAt: map<nat, Reading>, deltaAt: map<nat, Reading>) {
    forall ca: nat :: PastOf(past, ca) ==
      if ca in baseAt && ca in cas
      then PastOf(before, ca) + TickEvents(baseAt[ca], if ca in deltaAt then Some(deltaAt[ca]) else None, cas[ca].deltaInterval)
      else PastOf(before, ca)
  }

  /** What `Execute` promises of its readings and of the history, seen from one publishing authority: where the tick lies
      between `from` and `to`, its checks stay close enough, and the next tick may end up to `gap` after `from`. */
  lemma {:induction false} ExecuteKeepsSchedule(cas: map<nat, Ca>, before: Past, past: Past, baseAt: map<nat, Reading>,
                                                deltaAt: map<nat, Reading>, ca: nat, b: F.Bounds, from: Time, to: Time)
    requires TickNoted(cas, before, past, baseAt, deltaAt) && ca in baseAt && ca in cas && baseAt[ca].Within(from, to)
    requires ca in deltaAt ==> deltaAt[ca].Within(baseAt[ca].done, to)
    requires F.Scheduled(PastOf(before, ca), b.gap, b.late, b.lo, b.hi)
    requires PastOf(before, ca) != [] ==> F.End(PastOf(before, ca)[|PastOf(before, ca)| - 1]) <= from
    requires F.LastCheck(PastOf(before, ca)).Some? ==> to <= F.LastCheck(PastOf(before, ca)).value + b.gap
    requires to <= from + b.late && b.lo <= F.IntervalHours(cas[ca].deltaInterval) <= b.hi
    ensures F.Scheduled(PastOf(past, ca), b.gap, b.late, b.lo, b.hi)
    ensures PastOf(past, ca) != [] && F.End(PastOf(past, ca)[|PastOf(past, ca)| - 1]) <= to
    ensures F.LastCheck(PastOf(past, ca)).Some? && from <= F.LastCheck(PastOf(past, ca)).value
  {
    var es, delta, interval := PastOf(before, ca), if ca in deltaAt then Some(deltaAt[ca]) else None, cas[ca].deltaInterval;
    TickKeepsSchedule(es, baseAt[ca], delta, interval, b, from, to);
    TickEnds(es, baseAt[ca], delta, interval);
  }

  lemma {:induction false} TickEnds(es: seq<F.Event>, base: Reading, delta: Option<Reading>, interval: nat)
    ensures var all := es + TickEvents(base, delta, interval);
            && F.LastCheck(all) == Some(base.at)
            && F.End(all[|all| - 1]) == if delta.Some? then delta.value.done else base.done
  {
    InitOfSnoc(es, BaseEvent(base));
    if delta.Some? {
      InitOfSnoc(es + [BaseEvent(base)], DeltaEvent(delta.value, interval));
      assert es + TickEvents(base, delta, interval) == es + [BaseEvent(base)] + [DeltaEvent(delta.value, interval)];
    }
  }

  lemma {:induction false} ComposeTick(cas: map<nat, Ca>, before: Past, middle: Past, past: Past,
                                       baseAt: map<nat, Reading>, deltaAt: map<nat, Reading>)
    requires BasesNoted(before, middle, baseAt) && DeltasNoted(cas, middle, past, deltaAt)
    requires forall ca :: ca in baseAt ==> ca in cas
    requires forall ca :: ca in deltaAt ==> ca in baseAt
    ensures TickNoted(cas, before, past, baseAt, deltaAt)
  {
    forall ca: nat | ca in baseAt
      ensures PastOf(past, ca) ==
              PastOf(before, ca) + TickEvents(baseAt[ca], if ca in deltaAt then Some(deltaAt[ca]) else None, cas[ca].deltaInterval)
    {
      ComposeOne(PastOf(before, ca), PastOf(middle, ca), PastOf(past, ca), baseAt[ca],
                 if ca in deltaAt then Some(deltaAt[ca]) else None, cas[ca].deltaInterval);
    }
  }

  lemma {:induction false} ComposeOne(before: seq<F.Event>, middle: seq<F.Event>, past: seq<F.Event>,
                                      base: Reading, delta: Option<Reading>, interval: nat)
    requires middle == before + [BaseEvent(base)]
    requires past == if delta.Some? then middle + [DeltaEvent(delta.value, interval)] else middle
    ensures past == before + TickEvents(base, delta, interval)
  {
  }
}

/** Runs that break each guard of `CrlRuns.DeltaCompletesBase` alone, and what no continuation of them repairs. */
module CrlWitnesses {
  import opened Common
  import opened Text
  import opened CrlStore
  import opened CrlNumbering
  import opened CrlCompleteness
  import opened CrlRuns

  /** Would a delta queried now, united with the latest full CRL, be the full CRL? */
  ghost predicate DeltaCompletes(q: Db, ca: nat)
    requires ca in q.cas
  {
    match LatestBase(q.crls, ca)
    case None => false
    case Some(b) =>
      Elements(b.entries) + Elements(EntriesOf(ChangedRows(q.certs, q.cas[ca].refid, b.thisUpdate), q.clock)) == FullEntries(q, ca)
  }

  /** The query at i is followed at once by the other four steps of its generator. */
  predicate Followed(es: seq<Timed>, i: nat)
    requires i < |es| && es[i].event.Query?
  {
    var g, t := es[i].event.job, es[i].time;
    && i + 4 < |es| && es[i + 1] == At(t, SelectRows(g)) && es[i + 2] == At(t, ReadNumber(g))
    && es[i + 3] == At(t, StampTime(g)) && es[i + 4] == At(t, Commit(g))
  }

  predicate Atomic(es: seq<Timed>) {
    forall i :: 0 <= i < |es| && es[i].event.Query? ==> Followed(es, i)
  }

  /** No revocation shares its instant with another step. */
  predicate AloneInTime(es: seq<Timed>) {
    forall i, k :: 0 <= i < |es| && 0 <= k < |es| && i != k && es[i].event.Revoke? ==> es[k].time != es[i].time
  }

  // One authority and one certificate.
  function DemoDb(clock: Time, cert: Cert, crls: seq<Crl>, jobs: map<nat, Job>): Db {
    Db(clock, map[1 := Ca("A", true, true, true, 4)], [cert], crls, jobs)
  }

  const LIVE: Cert := Cert(7, "A", "5", false, None, None)

  function Dead(at: Time, reason: string): Cert { Cert(7, "A", "5", true, Some(at), Some(reason)) }

  function DemoJob(rows: Option<seq<Cert>>, number: Option<nat>, stamp: Option<Time>): map<nat, Job> {
    map[0 := Job(1, None, 7 * DAY, rows, number, stamp)]
  }

  function DemoCrl(at: Time, entries: seq<Entry>): Crl {
    Crl(1, 1, at, at + 7 * DAY, entries, |entries|, None, at)
  }

  function Demo(): Db { DemoDb(0, LIVE, [], map[]) }

  lemma {:induction false} OneMore(start: Db, es: seq<Timed>, t: Timed, q: Db)
    requires Run(start, es) == q && Ordered(start.clock, es)
    requires (if es == [] then start.clock else es[|es| - 1].time) <= t.time
    ensures Run(start, es + [t]) == Step(q, t) && Ordered(start.clock, es + [t])
    ensures TimelyRun(start, es) && Timely(q, t) ==> TimelyRun(start, es + [t])
    ensures PermanentRun(start, es) && Permanent(q, t) ==> PermanentRun(start, es + [t])
  {
    RunSnoc(start, es, t);
    assert (es + [t])[..|es|] == es;
  }

  lemma {:induction false} DemoEntry(c: Cert, now: Time)
    requires c == Dead(now, "superseded") || c == Dead(now, "certificateHold")
    ensures EntryOf(c, now) == Some(Entry(5, now, c.reason))
  {
    assert DropColons("5") == "5";
  }

  lemma DemoQuery(clock: Time, cert: Cert, at: Time)
    ensures Step(DemoDb(clock, cert, [], map[]), At(at, Query(0, 1, Full(7)))) == DemoDb(at, cert, [], DemoJob(None, None, None))
  {
  }

  lemma DemoSelect(clock: Time, cert: Cert, at: Time)
    ensures Step(DemoDb(clock, cert, [], DemoJob(None, None, None)), At(at, SelectRows(0)))
         == DemoDb(at, cert, [], DemoJob(Some(RevokedRows([cert], "A")), None, None))
  {
  }

  lemma DemoReadNumber(clock: Time, cert: Cert, rows: seq<Cert>, at: Time)
    ensures Step(DemoDb(clock, cert, [], DemoJob(Some(rows), None, None)), At(at, ReadNumber(0)))
         == DemoDb(at, cert, [], DemoJob(Some(rows), Some(1), None))
  {
    assert RowsOf([], 1) == [];
  }

  lemma DemoStamp(clock: Time, cert: Cert, rows: seq<Cert>, at: Time)
    ensures Step(DemoDb(clock, cert, [], DemoJob(Some(rows), Some(1), None)), At(at, StampTime(0)))
         == DemoDb(at, cert, [], DemoJob(Some(rows), Some(1), Some(at)))
  {
  }

  lemma {:induction false} DemoCommit(clock: Time, cert: Cert, rows: seq<Cert>, at: Time)
    requires |EntriesOf(rows, at)| == |rows|
    ensures Step(DemoDb(clock, cert, [], DemoJob(Some(rows), Some(1), Some(at))), At(at, Commit(0)))
         == DemoDb(at, cert, [DemoCrl(at, EntriesOf(rows, at))], map[])
  {
    var jobs := DemoJob(Some(rows), Some(1), Some(at));
    assert jobs - {0} == map[];
    assert CrlFrom(jobs[0], at) == DemoCrl(at, EntriesOf(rows, at));
    assert Insert([], DemoCrl(at, EntriesOf(rows, at))) == [DemoCrl(at, EntriesOf(rows, at))];
  }

  lemma DemoRevoke(clock: Time, crls: seq<Crl>, jobs: map<nat, Job>, at: Time, reason: string)
    ensures Step(DemoDb(clock, LIVE, crls, jobs), At(at, Revoke(7, reason))) == DemoDb(at, Dead(at, reason), crls, jobs)
  {
  }

  lemma DemoRows(cert: Cert)
    requires cert.caref == "A"
    ensures RevokedRows([cert], "A") == if cert.revoked then [cert] else []
  {
    assert [cert][..0] == [];
  }

  lemma {:induction false} DemoLatest(r: Crl)
    requires r.caId == 1 && !r.IsDelta()
    ensures LatestBase([r], 1) == Some(r)
  {
    assert [r][..0] == [] && RowsOf([r], 1) == [r] && OfKind([r], false) == [r];
  }

  lemma {:induction false} DemoMisses(at: Time, when: Time)
    requires when <= at
    ensures !DeltaCompletes(DemoDb(at, Dead(when, "superseded"), [DemoCrl(at, [])], map[]), 1)
  {
    var c, b := Dead(when, "superseded"), DemoCrl(at, []);
    var q := DemoDb(at, c, [b], map[]);
    DemoLatest(b);
    DemoEntry(c, when);
    DemoRows(c);
    CompleteIff(q, 1, b, at);
    assert EntryOf(c, at) == EntryOf(c, when);
    assert c in RevokedRows(q.certs, "A") && Early(q, b, c);
  }

  function LastTime(es: seq<Timed>): Time { if es == [] then 0 else es[|es| - 1].time }

  /** A run so far, the state it reached, and which guards it kept. */
  ghost predicate Reached(es: seq<Timed>, q: Db, timely: bool, permanent: bool) {
    && Ordered(0, es) && Run(Demo(), es) == q
    && (timely ==> TimelyRun(Demo(), es)) && (permanent ==> PermanentRun(Demo(), es))
  }

  lemma {:induction false} Extend(es: seq<Timed>, q: Db, timely: bool, permanent: bool, t: Timed, next: Db)
    requires Reached(es, q, timely, permanent) && LastTime(es) <= t.time && Step(q, t) == next
    requires timely ==> Timely(q, t)
    requires permanent ==> Permanent(q, t)
    ensures Reached(es + [t], next, timely, permanent)
  {
    OneMore(Demo(), es, t, q);
  }

  lemma {:induction false} DemoBegin(es: seq<Timed>, clock: Time, cert: Cert, timely: bool, permanent: bool, at: Time)
    requires Reached(es, DemoDb(clock, cert, [], map[]), timely, permanent) && LastTime(es) <= at
    ensures Reached(es + [At(at, Query(0, 1, Full(7))), At(at, SelectRows(0))],
                    DemoDb(at, cert, [], DemoJob(Some(RevokedRows([cert], "A")), None, None)), timely, permanent)
  {
    var t0, t1 := At(at, Query(0, 1, Full(7))), At(at, SelectRows(0));
    var q1, q2 := DemoDb(at, cert, [], DemoJob(None, None, None)),
                  DemoDb(at, cert, [], DemoJob(Some(RevokedRows([cert], "A")), None, None));
    DemoQuery(clock, cert, at);
    DemoSelect(at, cert, at);
    Extend(es, DemoDb(clock, cert, [], map[]), timely, permanent, t0, q1);
    Extend(es + [t0], q1, timely, permanent, t1, q2);
    assert es + [t0] + [t1] == es + [t0, t1];
  }

  lemma {:induction false} DemoFinish(es: seq<Timed>, clock: Time, cert: Cert, rows: seq<Cert>, timely: bool, permanent: bool, at: Time)
    requires Reached(es, DemoDb(clock, cert, [], DemoJob(Some(rows), None, None)), timely, permanent) && LastTime(es) <= at
    requires |EntriesOf(rows, at)| == |rows|
    ensures Reached(es + [At(at, ReadNumber(0)), At(at, StampTime(0)), At(at, Commit(0))],
                    DemoDb(at, cert, [DemoCrl(at, EntriesOf(rows, at))], map[]), timely, permanent)
  {
    var q0, t0 := DemoDb(clock, cert, [], DemoJob(Some(rows), None, None)), At(at, ReadNumber(0));
    var q1, t1 := DemoDb(at, cert, [], DemoJob(Some(rows), Some(1), None)), At(at, StampTime(0));
    var q2, t2 := DemoDb(at, cert, [], DemoJob(Some(rows), Some(1), Some(at))), At(at, Commit(0));
    DemoReadNumber(clock, cert, rows, at);
    DemoStamp(at, cert, rows, at);
    DemoCommit(at, cert, rows, at);
    Extend(es, q0, timely, permanent, t0, q1);
    Extend(es + [t0], q1, timely, permanent, t1, q2);
    Extend(es + [t0] + [t1], q2, timely, permanent, t2, DemoDb(at, cert, [DemoCrl(at, EntriesOf(rows, at))], map[]));
    assert es + [t0] + [t1] + [t2] == es + [t0, t1, t2];
  }

  lemma {:induction false} BasePublished() returns (es: seq<Timed>)
    ensures Reached(es, DemoDb(1, LIVE, [DemoCrl(1, [])], map[]), true, true)
    ensures es == [At(1, Query(0, 1, Full(7))), At(1, SelectRows(0)), At(1, ReadNumber(0)), At(1, StampTime(0)), At(1, Commit(0))]
  {
    DemoRows(LIVE);
    DemoBegin([], 0, LIVE, true, true, 1);
    var first := [] + [At(1, Query(0, 1, Full(7))), At(1, SelectRows(0))];
    DemoFinish(first, 1, LIVE, [], true, true, 1);
    es := first + [At(1, ReadNumber(0)), At(1, StampTime(0)), At(1, Commit(0))];
    assert first == [At(1, Query(0, 1, Full(7))), At(1, SelectRows(0))];
  }

  /** `c` is revoked after es, and in no continuation is it on `b` or on a delta on `b`. */
  ghost predicate NeverListed(es: seq<Timed>, b: Crl, c: Cert) {
    && b in Run(Demo(), es).crls && !b.IsDelta() && c in RevokedRows(Run(Demo(), es).certs, "A") && EntryOf(c, b.thisUpdate).Some?
    && EntryOf(c, b.thisUpdate).value !in b.entries
    && forall ys, d :: Ordered(0, es + ys) && d in Run(Demo(), es + ys).crls && d.caId == b.caId && d.baseNumber == Some(b.number) ==>
         EntryOf(c, b.thisUpdate).value !in d.entries
  }

  lemma {:induction false} DemoNeverListed(es: seq<Timed>, at: Time, when: Time)
    requires Ordered(0, es) && when <= at
    requires Run(Demo(), es) == DemoDb(at, Dead(when, "superseded"), [DemoCrl(at, [])], map[])
    ensures NeverListed(es, DemoCrl(at, []), Dead(when, "superseded"))
    ensures 1 in Run(Demo(), es).cas && !DeltaCompletes(Run(Demo(), es), 1)
  {
    var c, b := Dead(when, "superseded"), DemoCrl(at, []);
    DemoMisses(at, when);
    DemoRows(c);
    DemoEntry(c, when);
    EntryIsDated(c, when, b.thisUpdate);
    forall ys, d | Ordered(0, es + ys) && d in Run(Demo(), es + ys).crls && d.caId == b.caId && d.baseNumber == Some(b.number)
      ensures EntryOf(c, b.thisUpdate).value !in d.entries
    {
      MissedForGood(Demo(), es, ys, b, d, c);
    }
  }

  /** The clock must advance: with generations atomic and no revocation taken back, a revocation in the same
      microsecond as the stamp is on no delta on that full CRL, now or later. */
  lemma {:induction false} SameInstantIsMissed() returns (es: seq<Timed>, b: Crl, c: Cert)
    ensures Ordered(Demo().clock, es) && PermanentRun(Demo(), es) && Atomic(es)
    ensures NeverListed(es, b, c)
    ensures 1 in Run(Demo(), es).cas && !DeltaCompletes(Run(Demo(), es), 1)
  {
    var first := BasePublished();
    var revoke := At(1, Revoke(7, "superseded"));
    b, c := DemoCrl(1, []), Dead(1, "superseded");
    DemoRevoke(1, [b], map[], 1, "superseded");
    Extend(first, DemoDb(1, LIVE, [b], map[]), false, true, revoke, DemoDb(1, c, [b], map[]));
    es := first + [revoke];
    DemoNeverListed(es, 1, 1);
    AtomicRun(es);
  }

  lemma {:induction false} AtomicRun(es: seq<Timed>)
    requires |es| == 6 && es[0] == At(1, Query(0, 1, Full(7))) && es[1] == At(1, SelectRows(0)) && es[2] == At(1, ReadNumber(0))
    requires es[3] == At(1, StampTime(0)) && es[4] == At(1, Commit(0)) && es[5].event.Revoke?
    ensures Atomic(es)
  {
    forall i | 0 <= i < |es| && es[i].event.Query? ensures Followed(es, i) {
      assert i == 0;
    }
  }

  lemma {:induction false} RaceBegun() returns (es: seq<Timed>)
    ensures Reached(es, DemoDb(2, Dead(2, "superseded"), [], DemoJob(Some([]), None, None)), false, true)
    ensures es == [] + [At(1, Query(0, 1, Full(7))), At(1, SelectRows(0))] + [At(2, Revoke(7, "superseded"))]
  {
    var revoke, job := At(2, Revoke(7, "superseded")), DemoJob(Some([]), None, None);
    DemoRows(LIVE);
    DemoBegin([], 0, LIVE, false, true, 1);
    var first := [] + [At(1, Query(0, 1, Full(7))), At(1, SelectRows(0))];
    DemoRevoke(1, [], job, 2, "superseded");
    Extend(first, DemoDb(1, LIVE, [], job), false, true, revoke, DemoDb(2, Dead(2, "superseded"), [], job));
    es := first + [revoke];
  }

  /** Generation must be atomic: with no revocation sharing its instant and none taken back, a revocation between the
      row selection and the stamp is on no delta on that full CRL, now or later. */
  lemma {:induction false} RevocationDuringGenerationIsMissed() returns (es: seq<Timed>, b: Crl, c: Cert)
    ensures Ordered(Demo().clock, es) && PermanentRun(Demo(), es) && AloneInTime(es)
    ensures NeverListed(es, b, c)
    ensures 1 in Run(Demo(), es).cas && !DeltaCompletes(Run(Demo(), es), 1)
  {
    var first := RaceBegun();
    b, c := DemoCrl(3, []), Dead(2, "superseded");
    DemoFinish(first, 2, c, [], false, true, 3);
    es := first + [At(3, ReadNumber(0)), At(3, StampTime(0)), At(3, Commit(0))];
    RaceTimes(es);
    DemoNeverListed(es, 3, 2);
  }

  lemma {:induction false} RaceTimes(es: seq<Timed>)
    requires es == [] + [At(1, Query(0, 1, Full(7))), At(1, SelectRows(0))] + [At(2, Revoke(7, "superseded"))]
                   + [At(3, ReadNumber(0)), At(3, StampTime(0)), At(3, Commit(0))]
    ensures AloneInTime(es)
  {
  }

  lemma {:induction false} HoldSelected() returns (es: seq<Timed>)
    ensures Reached(es, DemoDb(2, Dead(1, "certificateHold"), [], DemoJob(Some([Dead(1, "certificateHold")]), None, None)), true, false)
    ensures LastTime(es) == 2
  {
    var revoke, held := At(1, Revoke(7, "certificateHold")), Dead(1, "certificateHold");
    DemoRows(held);
    DemoRevoke(0, [], map[], 1, "certificateHold");
    Extend([], Demo(), true, false, revoke, DemoDb(1, held, [], map[]));
    DemoBegin([] + [revoke], 1, held, true, false, 2);
    es := [] + [revoke] + [At(2, Query(0, 1, Full(7))), At(2, SelectRows(0))];
  }

  lemma {:induction false} HoldPublished() returns (es: seq<Timed>)
    ensures Reached(es, DemoDb(3, Dead(1, "certificateHold"), [DemoCrl(3, EntriesOf([Dead(1, "certificateHold")], 3))], map[]), true, false)
    ensures LastTime(es) == 3
  {
    var first := HoldSelected();
    var held := Dead(1, "certificateHold");
    DemoHeldEntries();
    DemoFinish(first, 2, held, [held], true, false, 3);
    es := first + [At(3, ReadNumber(0)), At(3, StampTime(0)), At(3, Commit(0))];
  }

  /** The state after the held certificate is taken back: nothing is revoked. */
  function CalmDb(certs: seq<Cert>, b: Crl): Db { DemoDb(4, LIVE, [b], map[]).(certs := certs) }

  lemma {:induction false} WithdrawnNow(es: seq<Timed>, certs: seq<Cert>, b: Crl, e: Entry)
    requires Run(Demo(), es) == CalmDb(certs, b) && RevokedRows(certs, "A") == []
    ensures 1 in Run(Demo(), es).cas && e !in FullEntries(Run(Demo(), es), 1)
  {
  }

  /** In every continuation `b` goes on listing `e`, and no full CRL would. */
  ghost predicate ListedForGood(es: seq<Timed>, b: Crl, e: Entry) {
    && e in b.entries && !b.IsDelta()
    && forall ys :: Ordered(0, es + ys) ==>
         b in Run(Demo(), es + ys).crls && 1 in Run(Demo(), es + ys).cas && e !in FullEntries(Run(Demo(), es + ys), 1)
  }

  lemma {:induction false} DemoListedForGood(es: seq<Timed>, certs: seq<Cert>, b: Crl, e: Entry)
    requires Ordered(0, es) && Run(Demo(), es) == CalmDb(certs, b) && RevokedRows(certs, "A") == []
    requires e in b.entries && !b.IsDelta() && e.revocationDate < 4
    ensures ListedForGood(es, b, e)
  {
    WithdrawnNow(es, certs, b, e);
    forall ys | Ordered(0, es + ys)
      ensures b in Run(Demo(), es + ys).crls && 1 in Run(Demo(), es + ys).cas && e !in FullEntries(Run(Demo(), es + ys), 1)
    {
      assert (es + ys)[..|es|] == es;
      RowsAreKept(Demo(), es + ys, |es|);
      WithdrawnForGood(Demo(), es, ys, 1, e);
    }
  }

  /** The three ways to take a revocation back. */
  predicate TakesBack(e: Event) { (e.Unhold? || e.Delete? || e.Renew?) && e.id == 7 }

  lemma {:induction false} DemoTakenBack(b: Crl, last: Event)
    requires TakesBack(last)
    ensures var q := Step(DemoDb(3, Dead(1, "certificateHold"), [b], map[]), At(4, last));
      q == CalmDb(q.certs, b) && RevokedRows(q.certs, "A") == []
  {
    var held := Dead(1, "certificateHold");
    assert IndexOf([held], 7) == 0;
    if last.Delete? {
      assert StepCerts([held], last, 4) == [];
    } else {
      var c := if last.Unhold? then LIVE else Cert(7, "A", last.serialNumber, false, None, None);
      assert StepCerts([held], last, 4) == [c];
      DemoRows(c);
    }
  }

  /** Revocations must stay: after the revocation of a certificate on the base is taken back in any of these ways, the base
      lists the certificate in every continuation, whatever its deltas say, while no full CRL would list that
      entry again. */
  lemma {:induction false} TakenBackStaysListed(last: Event) returns (es: seq<Timed>, b: Crl, e: Entry)
    requires TakesBack(last)
    ensures Ordered(Demo().clock, es) && TimelyRun(Demo(), es) && es != [] && es[|es| - 1].event == last
    ensures ListedForGood(es, b, e)
    ensures 1 in Run(Demo(), es).cas && !DeltaCompletes(Run(Demo(), es), 1)
  {
    var first := HoldPublished();
    b := DemoCrl(3, EntriesOf([Dead(1, "certificateHold")], 3));
    var q := Step(DemoDb(3, Dead(1, "certificateHold"), [b], map[]), At(4, last));
    DemoTakenBack(b, last);
    Extend(first, DemoDb(3, Dead(1, "certificateHold"), [b], map[]), true, false, At(4, last), q);
    es := first + [At(4, last)];
    DemoWithdrawn(b, q.certs);
    DemoHeldEntries();
    e := b.entries[0];
    DemoListedForGood(es, q.certs, b, e);
  }

  /** Lifting a hold. */
  lemma {:induction false} LiftedHoldStaysListed() returns (es: seq<Timed>, b: Crl, e: Entry)
    ensures Ordered(Demo().clock, es) && TimelyRun(Demo(), es) && es != [] && es[|es| - 1].event == Unhold(7)
    ensures ListedForGood(es, b, e)
    ensures 1 in Run(Demo(), es).cas && !DeltaCompletes(Run(Demo(), es), 1)
  {
    es, b, e := TakenBackStaysListed(Unhold(7));
  }

  lemma {:induction false} DemoHeldEntries()
    ensures EntriesOf([Dead(1, "certificateHold")], 3) == [Entry(5, 1, Some("certificateHold"))]
  {
    var held := Dead(1, "certificateHold");
    DemoEntry(held, 1);
    assert EntryOf(held, 3) == EntryOf(held, 1);
    assert [held][..0] == [];
  }

  lemma {:induction false} DemoWithdrawn(b: Crl, certs: seq<Cert>)
    requires b == DemoCrl(3, EntriesOf([Dead(1, "certificateHold")], 3)) && RevokedRows(certs, "A") == []
    requires CertsOk(CalmDb(certs, b))
    ensures !DeltaCompletes(CalmDb(certs, b), 1)
  {
    var q := CalmDb(certs, b);
    DemoHeldEntries();
    DemoLatest(b);
    CompleteIff(q, 1, b, 4);
    assert b.entries[0] in b.entries;
  }

  // ---- a revocation while a delta is made ----

  function DeltaJob(rows: Option<seq<Cert>>, number: Option<nat>, stamp: Option<Time>): map<nat, Job> {
    map[0 := Job(1, Some(DemoCrl(1, [])), 8 * HOUR, rows, number, stamp)]
  }

  function DeltaDb(clock: Time, cert: Cert, jobs: map<nat, Job>): Db { DemoDb(clock, cert, [DemoCrl(1, [])], jobs) }

  const DEMO_DELTA: Crl := Crl(1, 2, 4, 4 + 8 * HOUR, [], 0, Some(1), 4)

  lemma {:induction false} DeltaQuery(clock: Time, b: Crl, at: Time)
    requires b.caId == 1 && !b.IsDelta()
    ensures Step(DemoDb(clock, LIVE, [b], map[]), At(at, Query(0, 1, Delta(8))))
         == DemoDb(at, LIVE, [b], map[0 := Job(1, Some(b), 8 * HOUR, None, None, None)])
  {
    DemoLatest(b);
    var db := DemoDb(clock, LIVE, [b], map[]);
    assert OpenJob(db, 1, Delta(8)) == Ok(Job(1, Some(b), 8 * HOUR, None, None, None));
  }

  lemma {:induction false} DeltaSelect(b: Crl, at: Time)
    ensures Step(DemoDb(at, LIVE, [b], map[0 := Job(1, Some(b), 8 * HOUR, None, None, None)]), At(at, SelectRows(0)))
         == DemoDb(at, LIVE, [b], map[0 := Job(1, Some(b), 8 * HOUR, Some([]), None, None)])
  {
    assert [LIVE][..0] == [] && ChangedRows([LIVE], "A", b.thisUpdate) == [];
    assert SelectedRows([LIVE], "A", Some(b)) == [];
  }

  lemma {:induction false} SecondNumber()
    ensures NextNumber([DemoCrl(1, [])], 1) == 2
  {
    var b := DemoCrl(1, []);
    assert [b][..0] == [] && RowsOf([b], 1) == [b];
    assert Highest([b]) == Some(b);
  }

  lemma {:induction false} DeltaReadNumber(cert: Cert)
    ensures Step(DeltaDb(3, cert, DeltaJob(Some([]), None, None)), At(4, ReadNumber(0))) == DeltaDb(4, cert, DeltaJob(Some([]), Some(2), None))
  {
    SecondNumber();
  }

  lemma {:induction false} DeltaStamp(cert: Cert)
    ensures Step(DeltaDb(4, cert, DeltaJob(Some([]), Some(2), None)), At(4, StampTime(0)))
         == DeltaDb(4, cert, DeltaJob(Some([]), Some(2), Some(4)))
  {
  }

  lemma {:induction false} DeltaCommit(cert: Cert)
    ensures DEMO_DELTA in Step(DeltaDb(4, cert, DeltaJob(Some([]), Some(2), Some(4))), At(4, Commit(0))).crls
  {
    assert CrlFrom(DeltaJob(Some([]), Some(2), Some(4))[0], 4) == DEMO_DELTA;
  }

  lemma {:induction false} DeltaSelected() returns (es: seq<Timed>)
    ensures Reached(es, DeltaDb(2, LIVE, DeltaJob(Some([]), None, None)), true, true) && LastTime(es) == 2
  {
    var first := BasePublished();
    var t0, t1 := At(2, Query(0, 1, Delta(8))), At(2, SelectRows(0));
    DeltaQuery(1, DemoCrl(1, []), 2);
    DeltaSelect(DemoCrl(1, []), 2);
    Extend(first, DeltaDb(1, LIVE, map[]), true, true, t0, DeltaDb(2, LIVE, DeltaJob(None, None, None)));
    Extend(first + [t0], DeltaDb(2, LIVE, DeltaJob(None, None, None)), true, true, t1, DeltaDb(2, LIVE, DeltaJob(Some([]), None, None)));
    es := first + [t0] + [t1];
  }

  lemma {:induction false} DeltaStamped() returns (es: seq<Timed>)
    ensures Reached(es, DeltaDb(4, Dead(3, "superseded"), DeltaJob(Some([]), Some(2), Some(4))), true, true)
    ensures es != [] && Stamped(es, |es| - 1, 4)
  {
    var first := DeltaSelected();
    var c, jobs := Dead(3, "superseded"), DeltaJob(Some([]), None, None);
    var t0, t1, t2 := At(3, Revoke(7, "superseded")), At(4, ReadNumber(0)), At(4, StampTime(0));
    DemoRevoke(2, [DemoCrl(1, [])], jobs, 3, "superseded");
    DeltaReadNumber(c);
    DeltaStamp(c);
    Extend(first, DeltaDb(2, LIVE, jobs), true, true, t0, DeltaDb(3, c, jobs));
    Extend(first + [t0], DeltaDb(3, c, jobs), true, true, t1, DeltaDb(4, c, DeltaJob(Some([]), Some(2), None)));
    Extend(first + [t0] + [t1], DeltaDb(4, c, DeltaJob(Some([]), Some(2), None)), true, true, t2,
           DeltaDb(4, c, DeltaJob(Some([]), Some(2), Some(4))));
    es := first + [t0] + [t1] + [t2];
  }

  lemma {:induction false} SeenAtStamp(first: seq<Timed>, q: Db, b: Crl, d: Crl, t: Timed, es: seq<Timed>)
    requires Reached(first, q, true, true) && first != [] && Stamped(first, |first| - 1, d.thisUpdate)
    requires b in q.crls && 1 in q.cas && Elements(b.entries) + Elements(d.entries) < FullEntries(q, 1)
    requires es == first + [t]
    ensures Stamped(es, |first| - 1, d.thisUpdate) && b in Run(Demo(), es[..|first|]).crls
    ensures 1 in Run(Demo(), es[..|first|]).cas
            && Elements(b.entries) + Elements(d.entries) < FullEntries(Run(Demo(), es[..|first|]), 1)
  {
    assert es[..|first|] == first && es[|first| - 1] == first[|first| - 1];
  }

  /** Both guards do not make a delta complete at the thisUpdate it states: a revocation between its row selection and
      its stamp is in force then, and is on neither the delta nor its base. */
  lemma {:induction false} RevocationDuringDeltaIsMissed() returns (es: seq<Timed>, n: nat)
    ensures Ordered(Demo().clock, es) && TimelyRun(Demo(), es) && PermanentRun(Demo(), es)
    ensures DEMO_DELTA in Run(Demo(), es).crls && DEMO_DELTA.baseNumber == Some(DemoCrl(1, []).number)
    ensures Stamped(es, n, DEMO_DELTA.thisUpdate) && DemoCrl(1, []) in Run(Demo(), es[..n + 1]).crls
    ensures 1 in Run(Demo(), es[..n + 1]).cas
            && Elements(DemoCrl(1, []).entries) + Elements(DEMO_DELTA.entries) < FullEntries(Run(Demo(), es[..n + 1]), 1)
  {
    var first := DeltaStamped();
    var c, commit := Dead(3, "superseded"), At(4, Commit(0));
    var q := DeltaDb(4, c, DeltaJob(Some([]), Some(2), Some(4)));
    LateEntry(q, c);
    DeltaCommit(c);
    Extend(first, q, true, true, commit, Step(q, commit));
    es, n := first + [commit], |first| - 1;
    SeenAtStamp(first, q, DemoCrl(1, []), DEMO_DELTA, commit, es);
  }

  lemma {:induction false} LateEntry(q: Db, c: Cert)
    requires c == Dead(3, "superseded") && q == DeltaDb(4, c, DeltaJob(Some([]), Some(2), Some(4)))
    ensures Elements(DemoCrl(1, []).entries) + Elements(DEMO_DELTA.entries) < FullEntries(q, 1)
  {
    DemoRows(c);
    DemoEntry(c, 3);
    EntryIsDated(c, 3, q.clock);
    EntriesMembers(RevokedRows(q.certs, "A"), q.clock);
    assert Entry(5, 3, c.reason) in FullEntries(q, 1);
  }
}

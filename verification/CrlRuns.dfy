/** Base and delta CRLs over whole runs of interleaved generators and certificate changes. */
module CrlRuns {
  import opened Common
  import opened Text
  import opened CrlStore
  import opened CrlNumbering
  import opened CrlCompleteness

  ghost predicate TimelyRun(start: Db, es: seq<Timed>) {
    es == [] || (TimelyRun(start, es[..|es| - 1]) && Timely(Run(start, es[..|es| - 1]), es[|es| - 1]))
  }

  ghost predicate PermanentRun(start: Db, es: seq<Timed>) {
    es == [] || (PermanentRun(start, es[..|es| - 1]) && Permanent(Run(start, es[..|es| - 1]), es[|es| - 1]))
  }

  lemma {:induction false} RunKeeps(start: Db, es: seq<Timed>)
    requires Fresh(start) && Ordered(start.clock, es)
    ensures CertsOk(Run(start, es)) && KnownCas(Run(start, es))
    ensures TimelyRun(start, es) ==> SeenOk(Run(start, es))
    ensures PermanentRun(start, es) ==> KeptOk(Run(start, es))
  {
    if es != [] {
      var init, t := es[..|es| - 1], es[|es| - 1];
      RunKeeps(start, init);
      RunClock(start, es);
      StepRows(Run(start, init), t);
      StepKnown(Run(start, init), t);
      if TimelyRun(start, es) { SeenStep(Run(start, init), t); }
      if PermanentRun(start, es) { KeptStep(Run(start, init), t); }
    }
  }

  /** Stored CRL rows are never changed or removed. */
  lemma {:induction false} RowsAreKept(start: Db, es: seq<Timed>, m: nat)
    requires m <= |es|
    ensures forall r :: r in Run(start, es[..m]).crls ==> r in Run(start, es).crls
  {
    if m < |es| {
      RowsAreKept(start, es[..|es| - 1], m);
      assert es[..|es| - 1][..m] == es[..m];
    } else {
      assert es[..m] == es;
    }
  }

  lemma {:induction false} OrderedPrefix(start: Time, es: seq<Timed>, m: nat)
    requires Ordered(start, es) && m <= |es|
    ensures Ordered(start, es[..m])
  {
    if m < |es| {
      OrderedPrefix(start, es[..|es| - 1], m);
      assert es[..|es| - 1][..m] == es[..m];
    } else {
      assert es[..m] == es;
    }
  }

  lemma {:induction false} ClockGrows(start: Db, es: seq<Timed>, m: nat)
    requires Ordered(start.clock, es) && m <= |es|
    ensures Run(start, es[..m]).clock <= Run(start, es).clock
  {
    if m < |es| {
      ClockGrows(start, es[..|es| - 1], m);
      assert es[..|es| - 1][..m] == es[..m];
      RunClock(start, es);
    } else {
      assert es[..m] == es;
    }
  }

  lemma {:induction false} AuthoritiesAreKept(start: Db, es: seq<Timed>)
    ensures Run(start, es).cas.Keys == start.cas.Keys
    ensures forall ca :: ca in start.cas ==> Run(start, es).cas[ca].refid == start.cas[ca].refid
  {
    if es != [] {
      AuthoritiesAreKept(start, es[..|es| - 1]);
    }
  }

  lemma {:induction false} GuardsPrefix(start: Db, es: seq<Timed>, m: nat)
    requires m <= |es|
    ensures TimelyRun(start, es) ==> TimelyRun(start, es[..m])
    ensures PermanentRun(start, es) ==> PermanentRun(start, es[..m])
  {
    if m < |es| {
      GuardsPrefix(start, es[..|es| - 1], m);
      assert es[..|es| - 1][..m] == es[..m];
    } else {
      assert es[..m] == es;
    }
  }

  // ---- where a delta's entries come from ----

  /** After the first k steps, `b` was the authority's latest full CRL. */
  ghost predicate BaseFound(start: Db, es: seq<Timed>, k: nat, ca: nat, b: Crl) {
    k <= |es| && LatestBase(Run(start, es[..k]).crls, ca) == Some(b)
  }

  /** After the first m steps, `rows` were the revocations after the stamp of `b`. */
  ghost predicate Selected(start: Db, es: seq<Timed>, m: nat, ca: nat, b: Crl, rows: seq<Cert>) {
    && m <= |es|
    && var q := Run(start, es[..m]); ca in q.cas && rows == ChangedRows(q.certs, q.cas[ca].refid, b.thisUpdate)
  }

  /** Step n is a reading of the clock. */
  predicate Stamped(es: seq<Timed>, n: nat, at: Time) { n < |es| && es[n].event.StampTime? && es[n].time == at }

  /** The moments of a generator's base query, row selection and stamp, as far as it has come. */
  ghost predicate Moments(start: Db, es: seq<Timed>, j: Job, k: nat, m: nat, n: nat)
    requires j.base.Some?
  {
    && k <= m <= n <= |es|
    && BaseFound(start, es, k, j.caId, j.base.value)
    && (j.rows.Some? ==> Selected(start, es, m, j.caId, j.base.value, j.rows.value))
    && (j.stamp.Some? ==> Stamped(es, n, j.stamp.value))
  }

  ghost predicate JobTraced(start: Db, es: seq<Timed>, j: Job) {
    && (j.number.Some? || j.stamp.Some? ==> j.rows.Some?)
    && (j.base.Some? ==> exists k, m, n :: Moments(start, es, j, k, m, n))
  }

  /** The delta `d` was made on `b`, the latest full CRL after k steps, from the revocations after m steps, and
      stamped by step n. */
  ghost predicate DeltaOrigin(start: Db, es: seq<Timed>, d: Crl, b: Crl, k: nat, m: nat, n: nat) {
    && k <= m <= n < |es|
    && BaseFound(start, es, k, d.caId, b) && d.baseNumber == Some(b.number)
    && Stamped(es, n, d.thisUpdate)
    && var q := Run(start, es[..m]);
      d.caId in q.cas && d.entries == EntriesOf(ChangedRows(q.certs, q.cas[d.caId].refid, b.thisUpdate), d.thisUpdate)
  }

  ghost predicate DeltaTraced(start: Db, es: seq<Timed>, d: Crl) {
    d.IsDelta() ==> exists b, k, m, n :: DeltaOrigin(start, es, d, b, k, m, n)
  }

  ghost predicate History(start: Db, es: seq<Timed>, db: Db) {
    && (forall g :: g in db.jobs ==> JobTraced(start, es, db.jobs[g]))
    && (forall r :: r in db.crls ==> DeltaTraced(start, es, r))
  }

  lemma {:induction false} MomentsLater(start: Db, es: seq<Timed>, j: Job, k: nat, m: nat, n: nat)
    requires es != [] && j.base.Some? && Moments(start, es[..|es| - 1], j, k, m, n)
    ensures Moments(start, es, j, k, m, n)
  {
    assert es[..|es| - 1][..k] == es[..k] && es[..|es| - 1][..m] == es[..m];
  }

  lemma {:induction false} OriginLater(start: Db, es: seq<Timed>, d: Crl, b: Crl, k: nat, m: nat, n: nat)
    requires es != [] && DeltaOrigin(start, es[..|es| - 1], d, b, k, m, n)
    ensures DeltaOrigin(start, es, d, b, k, m, n)
  {
    assert es[..|es| - 1][..k] == es[..k] && es[..|es| - 1][..m] == es[..m];
  }

  /** What a step does to a generator: nothing, or one of its own steps. */
  lemma JobStep(db: Db, t: Timed, g: nat)
    requires g in StepJobs(db, t.event, t.time)
    ensures var j := StepJobs(db, t.event, t.time)[g];
      if g in db.jobs
      then
        var was := db.jobs[g];
        || j == was
        || (was.rows.None? && was.caId in db.cas
            && j == was.(rows := Some(SelectedRows(db.certs, db.cas[was.caId].refid, was.base))))
        || (was.rows.Some? && j == was.(number := j.number))
        || (t.event.StampTime? && was.number.Some? && was.stamp.None? && j == was.(stamp := Some(t.time)))
      else t.event.Query? && OpenJob(db, t.event.target, t.event.kind) == Ok(j)
  {
  }

  lemma JobTraces(start: Db, es: seq<Timed>, db: Db, g: nat)
    requires es != [] && db == Run(start, es[..|es| - 1]) && History(start, es[..|es| - 1], db)
    requires g in Step(db, es[|es| - 1]).jobs
    ensures JobTraced(start, es, Step(db, es[|es| - 1]).jobs[g])
  {
    var t, here := es[|es| - 1], |es| - 1;
    var j := StepJobs(db, t.event, t.time)[g];
    JobStep(db, t, g);
    if j.base.Some? {
      if g in db.jobs {
        var was := db.jobs[g];
        assert JobTraced(start, es[..here], was);
        var k, m, n :| Moments(start, es[..here], was, k, m, n);
        MomentsLater(start, es, was, k, m, n);
        if was.rows.None? && j.rows.Some? {
          assert Moments(start, es, j, k, here, here);
        } else if was.stamp.None? && j.stamp.Some? {
          assert Moments(start, es, j, k, m, here);
        } else {
          assert Moments(start, es, j, k, m, n);
        }
      } else {
        assert Moments(start, es, j, here, here, here);
      }
    }
  }

  lemma DeltaTraces(start: Db, es: seq<Timed>, db: Db, d: Crl)
    requires es != [] && History(start, es[..|es| - 1], db) && d in StepCrls(db, es[|es| - 1].event, es[|es| - 1].time)
    ensures DeltaTraced(start, es, d)
  {
    var init, t := es[..|es| - 1], es[|es| - 1];
    if d.IsDelta() {
      if d in db.crls {
        assert DeltaTraced(start, init, d);
        var b, k, m, n :| DeltaOrigin(start, init, d, b, k, m, n);
        OriginLater(start, es, d, b, k, m, n);
      } else {
        var j := db.jobs[t.event.job];
        assert JobTraced(start, init, j);
        var k, m, n :| Moments(start, init, j, k, m, n);
        assert DeltaOrigin(start, init, d, j.base.value, k, m, n);
        OriginLater(start, es, d, j.base.value, k, m, n);
      }
    }
  }

  lemma {:induction false} EveryDeltaIsTraced(start: Db, es: seq<Timed>)
    requires Fresh(start)
    ensures History(start, es, Run(start, es))
  {
    if es != [] {
      var db := Run(start, es[..|es| - 1]);
      EveryDeltaIsTraced(start, es[..|es| - 1]);
      var next := Step(db, es[|es| - 1]);
      forall g | g in next.jobs ensures JobTraced(start, es, next.jobs[g]) {
        JobTraces(start, es, db, g);
      }
      forall d | d in next.crls ensures DeltaTraced(start, es, d) {
        DeltaTraces(start, es, db, d);
      }
    }
  }

  // ---- a delta and its base at the moment the rows were selected ----

  /** `b` is the stored full CRL that the delta `d` names; q is a state before d's thisUpdate that already had it. */
  ghost predicate NamesBase(end: Db, q: Db, b: Crl, d: Crl) {
    && d.caId in q.cas && b.thisUpdate <= q.clock <= d.thisUpdate
    && b in q.crls && b in end.crls && b.caId == d.caId && !b.IsDelta() && d.baseNumber == Some(b.number)
  }

  lemma StampIsPast(start: Db, es: seq<Timed>, r: Crl)
    requires Fresh(start) && Ordered(start.clock, es) && r in Run(start, es).crls
    ensures r.thisUpdate <= Run(start, es).clock
  {
    NumbersStayDense(start, es);
    var rows := RowsOf(Run(start, es).crls, r.caId);
    InRowsOf(Run(start, es).crls, r.caId, r);
    assert RowsOk(rows, Run(start, es).clock);
  }

  /** A base found after k steps is a stored full CRL from then on. */
  lemma {:induction false} FoundIsStored(start: Db, es: seq<Timed>, k: nat, ca: nat, b: Crl)
    requires Fresh(start) && Ordered(start.clock, es) && BaseFound(start, es, k, ca, b)
    ensures b in Run(start, es).crls && b.caId == ca && !b.IsDelta() && b.thisUpdate <= Run(start, es).clock
  {
    LatestBaseIsBase(Run(start, es[..k]).crls, ca);
    RowsAreKept(start, es, k);
    StampIsPast(start, es, b);
  }

  lemma {:induction false} ClockByStamp(start: Db, es: seq<Timed>, m: nat, n: nat, at: Time)
    requires Ordered(start.clock, es) && m <= n && Stamped(es, n, at)
    ensures Ordered(start.clock, es[..m]) && Ordered(start.clock, es[..n + 1]) && es[..n + 1][..m] == es[..m]
    ensures Run(start, es[..m]).clock <= at == Run(start, es[..n + 1]).clock
  {
    OrderedPrefix(start.clock, es, n + 1);
    OrderedPrefix(start.clock, es, m);
    assert es[..n + 1][..m] == es[..m];
    RunClock(start, es[..n + 1]);
    ClockGrows(start, es[..n + 1], m);
  }

  lemma {:induction false} OriginNamesBase(start: Db, es: seq<Timed>, d: Crl, b: Crl, k: nat, m: nat, n: nat)
    requires Fresh(start) && Ordered(start.clock, es) && DeltaOrigin(start, es, d, b, k, m, n)
    ensures NamesBase(Run(start, es), Run(start, es[..m]), b, d)
  {
    ClockByStamp(start, es, m, n, d.thisUpdate);
    assert es[..m][..k] == es[..k];
    FoundIsStored(start, es[..m], k, d.caId, b);
    FoundIsStored(start, es, k, d.caId, b);
  }

  /** In every interleaving, each stored delta has three moments: after k steps the base it names was the latest full
      CRL, after m steps its entries were the revocations later than that base's stamp, and step n read its
      thisUpdate. United with its base, it is the full CRL of the moment after m steps exactly when the
      base had missed nothing and nothing on it had been taken back. */
  lemma DeltaCompletesBaseIff(start: Db, es: seq<Timed>, d: Crl) returns (k: nat, m: nat, n: nat, b: Crl)
    requires Fresh(start) && Ordered(start.clock, es)
    requires d in Run(start, es).crls && d.IsDelta()
    ensures DeltaOrigin(start, es, d, b, k, m, n)
    ensures var q := Run(start, es[..m]);
      && NamesBase(Run(start, es), q, b, d)
      && (Elements(b.entries) + Elements(d.entries) == FullEntries(q, d.caId) <==>
          NothingMissed(q, q.cas[d.caId].refid, b) && NothingWithdrawn(q, q.cas[d.caId].refid, b))
  {
    EveryDeltaIsTraced(start, es);
    assert DeltaTraced(start, es, d);
    b, k, m, n :| DeltaOrigin(start, es, d, b, k, m, n);
    OriginNamesBase(start, es, d, b, k, m, n);
    OrderedPrefix(start.clock, es, m);
    RunKeeps(start, es[..m]);
    CompleteIff(Run(start, es[..m]), d.caId, b, d.thisUpdate);
  }

  /** RFC 5280 section 5.2.4. When no revocation falls between a full CRL's row selection and the clock tick after its
      stamp, and none is taken back, every stored delta united with the base it names is the full CRL of the
      moment its rows were selected. */
  lemma DeltaCompletesBase(start: Db, es: seq<Timed>, d: Crl) returns (k: nat, m: nat, n: nat, b: Crl)
    requires Fresh(start) && Ordered(start.clock, es) && TimelyRun(start, es) && PermanentRun(start, es)
    requires d in Run(start, es).crls && d.IsDelta()
    ensures DeltaOrigin(start, es, d, b, k, m, n) && NamesBase(Run(start, es), Run(start, es[..m]), b, d)
    ensures Elements(b.entries) + Elements(d.entries) == FullEntries(Run(start, es[..m]), d.caId)
  {
    k, m, n, b := DeltaCompletesBaseIff(start, es, d);
    OrderedPrefix(start.clock, es, m);
    GuardsPrefix(start, es, m);
    RunKeeps(start, es[..m]);
  }

  // ---- and at the moment of its thisUpdate ----

  /** An entry is dated by its certificate, whenever it is made. */
  lemma EntryIsDated(c: Cert, now: Time, later: Time)
    requires c.revokedAt.Some?
    ensures EntryOf(c, now) == EntryOf(c, later)
    ensures EntryOf(c, now).Some? ==> EntryOf(c, now).value.revocationDate == c.revokedAt.value
  {
  }

  ghost predicate RowsDated(rows: seq<Cert>, until: Time) {
    forall c :: c in rows ==> c.revokedAt.Some? && c.revokedAt.value <= until
  }

  ghost predicate EntriesDated(entries: seq<Entry>, until: Time) {
    forall e :: e in entries ==> e.revocationDate <= until
  }

  /** No CRL lists a revocation dated after its thisUpdate. */
  ghost predicate Dated(db: Db) {
    && (forall r :: r in db.crls ==> EntriesDated(r.entries, r.thisUpdate))
    && (forall g :: g in db.jobs ==> JobDated(db.jobs[g], db.clock))
  }

  ghost predicate JobDated(j: Job, now: Time) {
    if j.rows.None? then j.number.None? && j.stamp.None?
    else RowsDated(j.rows.value, if j.stamp.Some? then j.stamp.value else now)
  }

  lemma SelectionIsDated(certs: seq<Cert>, refid: string, base: Option<Crl>, db: Db)
    requires CertsOk(db) && certs == db.certs
    ensures RowsDated(SelectedRows(certs, refid, base), db.clock)
  {
    RevokedMembers(certs, refid);
    if base.Some? {
      ChangedMembers(certs, refid, base.value.thisUpdate);
    }
  }

  lemma RowsGiveDates(rows: seq<Cert>, at: Time)
    requires RowsDated(rows, at)
    ensures EntriesDated(EntriesOf(rows, at), at)
  {
    EntriesMembers(rows, at);
    forall e | e in EntriesOf(rows, at) ensures e.revocationDate <= at {
      var c :| c in rows && EntryOf(c, at) == Some(e);
      EntryIsDated(c, at, at);
    }
  }

  lemma DatedStep(db: Db, t: Timed)
    requires Dated(db) && CertsOk(db) && db.clock <= t.time
    ensures Dated(Step(db, t))
  {
    var next := Step(db, t);
    forall r | r in next.crls ensures EntriesDated(r.entries, r.thisUpdate) {
      if r !in db.crls {
        RowsGiveDates(db.jobs[t.event.job].rows.value, r.thisUpdate);
      }
    }
    forall g | g in next.jobs ensures JobDated(next.jobs[g], next.clock) {
      JobDatedStep(db, t, g);
    }
  }

  lemma JobDatedStep(db: Db, t: Timed, g: nat)
    requires Dated(db) && CertsOk(db) && db.clock <= t.time && g in StepJobs(db, t.event, t.time)
    ensures JobDated(StepJobs(db, t.event, t.time)[g], t.time)
  {
    JobStep(db, t, g);
    if g in db.jobs {
      assert JobDated(db.jobs[g], db.clock);
      if db.jobs[g].rows.None? && db.jobs[g].caId in db.cas {
        SelectionIsDated(db.certs, db.cas[db.jobs[g].caId].refid, db.jobs[g].base, db);
      }
    }
  }

  lemma {:induction false} EveryCrlIsDated(start: Db, es: seq<Timed>)
    requires Fresh(start) && Ordered(start.clock, es)
    ensures Dated(Run(start, es))
  {
    if es != [] {
      EveryCrlIsDated(start, es[..|es| - 1]);
      RunKeeps(start, es[..|es| - 1]);
      RunClock(start, es);
      DatedStep(Run(start, es[..|es| - 1]), es[|es| - 1]);
    }
  }

  /** A revocation that is not in the table after m steps is dated from then on. */
  lemma {:induction false} NewRevocationsAreLater(start: Db, es: seq<Timed>, m: nat, c: Cert)
    requires Fresh(start) && Ordered(start.clock, es) && m <= |es|
    requires c in Run(start, es).certs && c.revoked
    ensures c !in Run(start, es[..m]).certs ==> c.revokedAt.Some? && Run(start, es[..m]).clock <= c.revokedAt.value
  {
    if m == |es| {
      assert es[..m] == es;
    } else {
      var init := es[..|es| - 1];
      assert init[..m] == es[..m];
      RunKeeps(start, init);
      RunClock(start, es);
      StepRows(Run(start, init), es[|es| - 1]);
      ClockGrows(start, init, m);
      if c in Run(start, init).certs {
        NewRevocationsAreLater(start, init, m, c);
      }
    }
  }

  lemma {:induction false} PermanentRowsStay(start: Db, es: seq<Timed>, m: nat)
    requires Fresh(start) && Ordered(start.clock, es) && PermanentRun(start, es) && m <= |es|
    ensures forall c :: c in Run(start, es[..m]).certs && c.revoked ==> c in Run(start, es).certs
  {
    if m == |es| {
      assert es[..m] == es;
    } else {
      var init := es[..|es| - 1];
      assert init[..m] == es[..m];
      PermanentRowsStay(start, init, m);
      RunKeeps(start, init);
      RunClock(start, es);
      StepRows(Run(start, init), es[|es| - 1]);
    }
  }

  /** The full CRL of a moment lists exactly the entries of the rows revoked at that moment, none dated after it. */
  lemma FullMembers(db: Db, ca: nat)
    requires CertsOk(db) && ca in db.cas
    ensures forall c :: c in RevokedRows(db.certs, db.cas[ca].refid) && EntryOf(c, db.clock).Some? ==>
              EntryOf(c, db.clock).value in FullEntries(db, ca)
    ensures forall e :: e in FullEntries(db, ca) ==>
              e.revocationDate <= db.clock
              && exists c :: c in RevokedRows(db.certs, db.cas[ca].refid) && EntryOf(c, db.clock) == Some(e)
  {
    EntriesMembers(RevokedRows(db.certs, db.cas[ca].refid), db.clock);
    RevokedMembers(db.certs, db.cas[ca].refid);
  }

  lemma {:induction false} SameAuthority(start: Db, es: seq<Timed>, ys: seq<Timed>, ca: nat)
    requires ca in Run(start, es).cas
    ensures ca in Run(start, ys).cas && Run(start, ys).cas[ca].refid == Run(start, es).cas[ca].refid
  {
    AuthoritiesAreKept(start, es);
    AuthoritiesAreKept(start, ys);
  }

  /** The state in which a delta's rows were selected, and the one right after its stamp. */
  lemma {:induction false} AtTheStamp(start: Db, es: seq<Timed>, m: nat, n: nat, d: Crl)
    requires Fresh(start) && Ordered(start.clock, es) && m <= n && Stamped(es, n, d.thisUpdate)
    requires d.caId in Run(start, es[..m]).cas
    ensures Ordered(start.clock, es[..n + 1]) && es[..n + 1][..m] == es[..m]
    ensures var q, s := Run(start, es[..m]), Run(start, es[..n + 1]);
            CertsOk(q) && CertsOk(s) && s.clock == d.thisUpdate && q.clock <= s.clock
            && d.caId in s.cas && s.cas[d.caId].refid == q.cas[d.caId].refid
  {
    ClockByStamp(start, es, m, n, d.thisUpdate);
    RunKeeps(start, es[..n + 1]);
    RunKeeps(start, es[..m]);
    SameAuthority(start, es[..m], es[..n + 1], d.caId);
  }

  lemma LateOneIsMissing(start: Db, es: seq<Timed>, d: Crl, b: Crl, k: nat, m: nat, n: nat, c: Cert)
    requires Fresh(start) && Ordered(start.clock, es) && DeltaOrigin(start, es, d, b, k, m, n)
    requires c in Run(start, es[..n + 1]).certs && c.revoked && c.caref == Run(start, es[..m]).cas[d.caId].refid
    requires c.revokedAt.Some? && Run(start, es[..m]).clock < c.revokedAt.value && EntryOf(c, d.thisUpdate).Some?
    ensures d.caId in Run(start, es[..n + 1]).cas && Run(start, es[..n + 1]).clock == d.thisUpdate
    ensures var e := EntryOf(c, d.thisUpdate).value;
            e in FullEntries(Run(start, es[..n + 1]), d.caId) && e !in b.entries && e !in d.entries
  {
    var q, s := Run(start, es[..m]), Run(start, es[..n + 1]);
    var rows := ChangedRows(q.certs, q.cas[d.caId].refid, b.thisUpdate);
    AtTheStamp(start, es, m, n, d);
    OriginNamesBase(start, es, d, b, k, m, n);
    OrderedPrefix(start.clock, es, m);
    EveryCrlIsDated(start, es[..m]);
    assert EntriesDated(b.entries, b.thisUpdate);
    FullMembers(s, d.caId);
    RevokedMembers(s.certs, s.cas[d.caId].refid);
    EntryIsDated(c, s.clock, d.thisUpdate);
    EntriesMembers(rows, d.thisUpdate);
    ChangedMembers(q.certs, q.cas[d.caId].refid, b.thisUpdate);
  }

  /** Every revocation in force at s and dated after q is in the full CRL of s, and on neither list. */
  ghost predicate LateIsMissing(q: Db, s: Db, ca: nat, b: Crl, d: Crl)
    requires ca in s.cas
  {
    forall c :: c in RevokedRows(s.certs, s.cas[ca].refid) && c.revokedAt.Some? && q.clock < c.revokedAt.value && EntryOf(c, s.clock).Some? ==>
      EntryOf(c, s.clock).value in FullEntries(s, ca) && EntryOf(c, s.clock).value !in b.entries + d.entries
  }

  /** In every run, a revocation that comes after a delta's rows were selected is in force at its thisUpdate, and on
      neither the delta nor its base. */
  lemma LateRevocationIsMissing(start: Db, es: seq<Timed>, d: Crl) returns (k: nat, m: nat, n: nat, b: Crl)
    requires Fresh(start) && Ordered(start.clock, es)
    requires d in Run(start, es).crls && d.IsDelta()
    ensures DeltaOrigin(start, es, d, b, k, m, n)
    ensures d.caId in Run(start, es[..n + 1]).cas && Run(start, es[..n + 1]).clock == d.thisUpdate
    ensures LateIsMissing(Run(start, es[..m]), Run(start, es[..n + 1]), d.caId, b, d)
  {
    k, m, n, b := DeltaCompletesBaseIff(start, es, d);
    AtTheStamp(start, es, m, n, d);
    var q, s := Run(start, es[..m]), Run(start, es[..n + 1]);
    RevokedMembers(s.certs, s.cas[d.caId].refid);
    forall c | c in RevokedRows(s.certs, s.cas[d.caId].refid) && c.revokedAt.Some? && q.clock < c.revokedAt.value && EntryOf(c, s.clock).Some?
      ensures EntryOf(c, s.clock).value in FullEntries(s, d.caId) && EntryOf(c, s.clock).value !in b.entries + d.entries
    {
      LateOneIsMissing(start, es, d, b, k, m, n, c);
    }
  }

  /** Every certificate that is revoked at the stamp and that a CRL can carry was already revoked in q. */
  ghost predicate NothingSince(q: Db, s: Db, refid: string) {
    forall c :: c in RevokedRows(s.certs, refid) && EntryOf(c, s.clock).Some? ==> c in q.certs
  }

  /** No revocation in force at s shares the instant of q unless q has it. */
  ghost predicate NoTie(q: Db, s: Db, refid: string) {
    forall c :: c in RevokedRows(s.certs, refid) && c.revokedAt == Some(q.clock) ==> c in q.certs
  }

  /** Where the union was complete when the rows were selected, it is complete at the thisUpdate the delta states exactly
      when no certificate was revoked in between. */
  lemma CompleteAtStampIff(start: Db, es: seq<Timed>, d: Crl) returns (k: nat, m: nat, n: nat, b: Crl)
    requires Fresh(start) && Ordered(start.clock, es) && TimelyRun(start, es) && PermanentRun(start, es)
    requires d in Run(start, es).crls && d.IsDelta()
    ensures DeltaOrigin(start, es, d, b, k, m, n) && d.caId in Run(start, es[..n + 1]).cas
    ensures var q, s := Run(start, es[..m]), Run(start, es[..n + 1]);
            var refid := s.cas[d.caId].refid;
            NoTie(q, s, refid) ==>
              (Elements(b.entries) + Elements(d.entries) == FullEntries(s, d.caId) <==> NothingSince(q, s, refid))
  {
    k, m, n, b := DeltaCompletesBase(start, es, d);
    AtTheStamp(start, es, m, n, d);
    GuardsPrefix(start, es, n + 1);
    PermanentRowsStay(start, es[..n + 1], m);
    var q, s := Run(start, es[..m]), Run(start, es[..n + 1]);
    var refid := s.cas[d.caId].refid;
    if NoTie(q, s, refid) {
      if NothingSince(q, s, refid) {
        SameFull(q, s, d.caId);
      }
      if FullEntries(q, d.caId) == FullEntries(s, d.caId) {
        RunIsLater(start, es[..n + 1], m);
        SinceIsNothing(q, s, d.caId);
      }
    }
  }

  lemma SameFull(q: Db, s: Db, ca: nat)
    requires CertsOk(q) && CertsOk(s) && ca in q.cas && ca in s.cas && q.cas[ca].refid == s.cas[ca].refid
    requires NothingSince(q, s, s.cas[ca].refid) && forall c :: c in q.certs && c.revoked ==> c in s.certs
    ensures FullEntries(q, ca) == FullEntries(s, ca)
  {
    var refid := s.cas[ca].refid;
    FullMembers(q, ca);
    FullMembers(s, ca);
    RevokedMembers(q.certs, refid);
    RevokedMembers(s.certs, refid);
    forall e | e in FullEntries(q, ca) ensures e in FullEntries(s, ca) {
      var c :| c in RevokedRows(q.certs, refid) && EntryOf(c, q.clock) == Some(e);
      EntryIsDated(c, q.clock, s.clock);
    }
    forall e | e in FullEntries(s, ca) ensures e in FullEntries(q, ca) {
      var c :| c in RevokedRows(s.certs, refid) && EntryOf(c, s.clock) == Some(e);
      EntryIsDated(c, q.clock, s.clock);
    }
  }

  /** A revocation that s has, that is listed at q too and dated from q on if q has not got it, is one that q has. */
  lemma {:induction false} ListedIsOld(q: Db, s: Db, ca: nat, c: Cert)
    requires CertsOk(q) && ca in q.cas && c.revokedAt.Some? && EntryOf(c, s.clock).Some?
    requires EntryOf(c, s.clock).value in FullEntries(q, ca)
    requires c !in q.certs ==> q.clock < c.revokedAt.value
    ensures c in q.certs
  {
    FullMembers(q, ca);
    EntryIsDated(c, s.clock, s.clock);
  }

  /** What s has revoked and q has not got is dated from q on. */
  ghost predicate NewIsLater(q: Db, s: Db) {
    forall c :: c in s.certs && c.revoked && c !in q.certs ==> c.revokedAt.Some? && q.clock <= c.revokedAt.value
  }

  lemma {:induction false} RunIsLater(start: Db, es: seq<Timed>, m: nat)
    requires Fresh(start) && Ordered(start.clock, es) && m <= |es|
    ensures NewIsLater(Run(start, es[..m]), Run(start, es))
  {
    forall c | c in Run(start, es).certs && c.revoked && c !in Run(start, es[..m]).certs
      ensures c.revokedAt.Some? && Run(start, es[..m]).clock <= c.revokedAt.value
    {
      NewRevocationsAreLater(start, es, m, c);
    }
  }

  lemma {:induction false} SinceIsNothing(q: Db, s: Db, ca: nat)
    requires CertsOk(q) && CertsOk(s) && ca in q.cas && ca in s.cas && NewIsLater(q, s)
    requires FullEntries(q, ca) == FullEntries(s, ca) && NoTie(q, s, s.cas[ca].refid)
    ensures NothingSince(q, s, s.cas[ca].refid)
  {
    FullMembers(s, ca);
    RevokedMembers(s.certs, s.cas[ca].refid);
    forall c | c in RevokedRows(s.certs, s.cas[ca].refid) && EntryOf(c, s.clock).Some? ensures c in q.certs {
      ListedIsOld(q, s, ca, c);
    }
  }

  // ---- what no later delta repairs ----

  /** Two stored rows of one authority with one number are one row. */
  lemma NumberDetermines(start: Db, es: seq<Timed>, a: Crl, b: Crl)
    requires Fresh(start) && Ordered(start.clock, es)
    requires a in Run(start, es).crls && b in Run(start, es).crls && a.caId == b.caId && a.number == b.number
    ensures a == b
  {
    NumbersStayDense(start, es);
    var crls := Run(start, es).crls;
    InRowsOf(crls, a.caId, a);
    InRowsOf(crls, a.caId, b);
    assert RowsOk(RowsOf(crls, a.caId), Run(start, es).clock);
  }

  /** No delta on `b`, whenever made, lists a revocation dated at or before b's thisUpdate. */
  lemma NeverListedLater(start: Db, es: seq<Timed>, b: Crl, d: Crl, e: Entry)
    requires Fresh(start) && Ordered(start.clock, es)
    requires b in Run(start, es).crls && d in Run(start, es).crls && d.caId == b.caId && d.baseNumber == Some(b.number)
    requires e.revocationDate <= b.thisUpdate
    ensures e !in d.entries
  {
    var k, m, n, base := DeltaCompletesBaseIff(start, es, d);
    NumberDetermines(start, es, b, base);
    var q := Run(start, es[..m]);
    EntriesMembers(ChangedRows(q.certs, q.cas[d.caId].refid, b.thisUpdate), d.thisUpdate);
    ChangedMembers(q.certs, q.cas[d.caId].refid, b.thisUpdate);
  }

  /** Whatever a full CRL has missed stays missed: in every continuation, no delta on it lists the certificate, and as long
      as the certificate stays revoked the two united are not the full CRL. */
  lemma MissedForGood(start: Db, es: seq<Timed>, ys: seq<Timed>, b: Crl, d: Crl, c: Cert)
    requires Fresh(start) && Ordered(start.clock, es + ys)
    requires b in Run(start, es).crls && b.caId in start.cas
    requires c.revoked && c.revokedAt.Some? && c.revokedAt.value <= b.thisUpdate && c.caref == start.cas[b.caId].refid
    requires EntryOf(c, b.thisUpdate).Some? && EntryOf(c, b.thisUpdate).value !in b.entries
    requires d in Run(start, es + ys).crls && d.caId == b.caId && d.baseNumber == Some(b.number)
    ensures EntryOf(c, b.thisUpdate).value !in b.entries + d.entries
    ensures b in Run(start, es + ys).crls && b.caId in Run(start, es + ys).cas
    ensures c in Run(start, es + ys).certs ==>
              Elements(b.entries) + Elements(d.entries) != FullEntries(Run(start, es + ys), b.caId)
  {
    var all, e := es + ys, EntryOf(c, b.thisUpdate).value;
    assert all[..|es|] == es;
    RowsAreKept(start, all, |es|);
    EntryIsDated(c, b.thisUpdate, b.thisUpdate);
    NeverListedLater(start, all, b, d, e);
    AuthoritiesAreKept(start, all);
    if c in Run(start, all).certs {
      RevokedIsListed(start, all, b.caId, c, b.thisUpdate);
      assert e in FullEntries(Run(start, all), b.caId) && e !in Elements(b.entries) + Elements(d.entries);
    }
  }

  lemma {:induction false} RevokedIsListed(start: Db, es: seq<Timed>, ca: nat, c: Cert, at: Time)
    requires Fresh(start) && Ordered(start.clock, es) && ca in start.cas
    requires c in Run(start, es).certs && c.revoked && c.caref == start.cas[ca].refid && EntryOf(c, at).Some?
    ensures ca in Run(start, es).cas && EntryOf(c, at).value in FullEntries(Run(start, es), ca)
  {
    var s := Run(start, es);
    AuthoritiesAreKept(start, es);
    RunKeeps(start, es);
    EntryIsDated(c, at, s.clock);
    RevokedMembers(s.certs, s.cas[ca].refid);
    FullMembers(s, ca);
  }

  /** An entry that stands for no revoked certificate any more never stands for one again. */
  lemma WithdrawnForGood(start: Db, es: seq<Timed>, ys: seq<Timed>, ca: nat, e: Entry)
    requires Fresh(start) && Ordered(start.clock, es + ys) && ca in start.cas
    requires ca in Run(start, es).cas && e !in FullEntries(Run(start, es), ca) && e.revocationDate < Run(start, es).clock
    ensures ca in Run(start, es + ys).cas && e !in FullEntries(Run(start, es + ys), ca)
  {
    var all := es + ys;
    var q, s := Run(start, es), Run(start, all);
    assert all[..|es|] == es;
    OrderedPrefix(start.clock, all, |es|);
    AuthoritiesAreKept(start, es);
    AuthoritiesAreKept(start, all);
    RunKeeps(start, es);
    RunKeeps(start, all);
    FullMembers(q, ca);
    FullMembers(s, ca);
    RevokedMembers(q.certs, q.cas[ca].refid);
    RevokedMembers(s.certs, s.cas[ca].refid);
    forall c | c in RevokedRows(s.certs, s.cas[ca].refid) ensures EntryOf(c, s.clock) != Some(e) {
      EntryIsDated(c, s.clock, q.clock);
      NewRevocationsAreLater(start, all, |es|, c);
      assert c in q.certs ==> c in RevokedRows(q.certs, q.cas[ca].refid);
    }
  }

  // ---- from the issue to the list ----

  /** A certificate issued, later revoked, and not taken back is in every full CRL of its authority, with the date and the
      reason of the revocation, whatever else happens in between and after. */
  lemma {:induction false} IssuedThenRevokedIsListed(db: Db, issued: Timed, xs: seq<Timed>, at: Time, reason: string, ys: seq<Timed>, ca: nat)
    requires issued.event.Issue? && (forall c :: c in db.certs ==> c.id != issued.event.id)
    requires AllKeep(xs, Cert(issued.event.id, issued.event.caref, issued.event.serialNumber, false, None, None))
    requires AllKeep(ys, Cert(issued.event.id, issued.event.caref, issued.event.serialNumber, true, Some(at), Some(reason)))
    ensures var q := Run(Step(Run(Step(db, issued), xs), At(at, Revoke(issued.event.id, reason))), ys);
      ca in q.cas && q.cas[ca].refid == issued.event.caref && EntrySerial(issued.event.serialNumber).Some? ==>
        exists e :: e in FullEntries(q, ca) && e.serial == EntrySerial(issued.event.serialNumber).value && e.revocationDate == at
                    && e.reason == if reason == "" then None else if IsCrlReason(reason) then Some(reason) else Some("unspecified")
  {
    var e := issued.event;
    var c, d := Cert(e.id, e.caref, e.serialNumber, false, None, None), Cert(e.id, e.caref, e.serialNumber, true, Some(at), Some(reason));
    var middle := Run(Step(db, issued), xs);
    var q := Run(Step(middle, At(at, Revoke(e.id, reason))), ys);
    IssuedStands(db, issued.time, e.id, e.caref, e.serialNumber, xs);
    RevokedStands(middle, at, c, reason, ys);
    assert d in q.certs;
    if ca in q.cas && q.cas[ca].refid == e.caref && EntrySerial(e.serialNumber).Some? {
      LineOf(d, q.clock);
      FullEntriesAre(q, ca, EntryOf(d, q.clock).value);
    }
  }

  // ---- renewal in place ----

  /** Row i of the table is the only revoked one of its authority that a CRL would list as e. */
  ghost predicate OnlyHolder(certs: seq<Cert>, refid: string, i: nat, e: Entry, now: Time) {
    i < |certs| && forall k :: 0 <= k < |certs| && k != i && certs[k].revoked && certs[k].caref == refid ==> EntryOf(certs[k], now) != Some(e)
  }

  lemma {:induction false} RenewedIsGone(db: Db, t: Timed, ca: nat, e: Entry)
    requires t.event.Renew? && CertsOk(db) && db.clock <= t.time && ca in db.cas
    requires OnlyHolder(db.certs, db.cas[ca].refid, IndexOf(db.certs, t.event.id), e, db.clock)
    ensures ca in Step(db, t).cas && e !in FullEntries(Step(db, t), ca)
  {
    var next, i := Step(db, t), IndexOf(db.certs, t.event.id);
    StepRows(db, t);
    FullMembers(next, ca);
    RevokedMembers(next.certs, next.cas[ca].refid);
    forall c | c in RevokedRows(next.certs, next.cas[ca].refid) ensures EntryOf(c, next.clock) != Some(e) {
      var k :| 0 <= k < |next.certs| && next.certs[k] == c;
      assert k != i && c == db.certs[k];
      EntryIsDated(c, db.clock, next.clock);
    }
  }

  /** Renewing a revoked certificate in place drops its old serial from every full CRL of every continuation, though the old
      certificate may still be within its validity (RFC 5280 section 3.3), unless another row stands for the same
      entry. */
  lemma {:induction false} RenewalDropsTheSerial(start: Db, es: seq<Timed>, t: Timed, ys: seq<Timed>, ca: nat, e: Entry)
    requires Fresh(start) && Ordered(start.clock, es + [t] + ys) && ca in start.cas && t.event.Renew?
    requires e.revocationDate < t.time
    requires var q := Run(start, es); OnlyHolder(q.certs, start.cas[ca].refid, IndexOf(q.certs, t.event.id), e, q.clock)
    ensures ca in Run(start, es + [t] + ys).cas && e !in FullEntries(Run(start, es + [t] + ys), ca)
  {
    var first := es + [t];
    assert (first + ys)[..|first|] == first && first[..|es|] == es;
    OrderedPrefix(start.clock, first + ys, |first|);
    OrderedPrefix(start.clock, first, |es|);
    RunKeeps(start, es);
    AuthoritiesAreKept(start, es);
    RunSnoc(start, es, t);
    RunClock(start, first);
    RenewedIsGone(Run(start, es), t, ca, e);
    WithdrawnForGood(start, first, ys, ca, e);
  }
}

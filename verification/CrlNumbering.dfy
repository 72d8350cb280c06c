/** One number sequence for full and delta CRLs, kept by generators that interleave freely. */
module CrlNumbering {
  import opened Common
  import opened CrlStore

  /** Row k of an authority, in insertion order, is CRL number k + 1; time stamps and commit times follow
      the numbers; a delta's base is an earlier full CRL. */
  ghost predicate RowsOk(rows: seq<Crl>, clock: Time) {
    && (forall k :: 0 <= k < |rows| ==> rows[k].number == k + 1 && rows[k].thisUpdate <= rows[k].createdAt <= clock)
    && (forall i, k :: 0 <= i < k < |rows| ==> rows[i].thisUpdate <= rows[k].thisUpdate && rows[i].createdAt <= rows[k].createdAt)
    && (forall k :: 0 <= k < |rows| && rows[k].IsDelta() ==> HasBase(rows, k))
  }

  ghost predicate HasBase(rows: seq<Crl>, k: nat)
    requires k < |rows|
  {
    rows[k].IsDelta() && 1 <= rows[k].baseNumber.value <= k && !rows[rows[k].baseNumber.value - 1].IsDelta()
  }

  /** What is true of a generator between its steps, whatever other generators do meanwhile. */
  ghost predicate JobOk(rows: seq<Crl>, j: Job, clock: Time) {
    && (j.base.Some? ==> 1 <= j.base.value.number <= |rows|
                         && rows[j.base.value.number - 1] == j.base.value && !j.base.value.IsDelta())
    && (j.number.Some? ==> 1 <= j.number.value <= |rows| + 1 && (j.base.Some? ==> j.base.value.number < j.number.value))
    && (j.stamp.Some? ==> j.number.Some? && j.stamp.value <= clock
                          && forall k :: 0 <= k < |rows| && k < j.number.value - 1 ==> rows[k].thisUpdate <= j.stamp.value)
  }

  ghost predicate NumbersOk(db: Db) {
    && (forall ca: nat :: RowsOk(RowsOf(db.crls, ca), db.clock))
    && (forall g :: g in db.jobs ==> JobOk(RowsOf(db.crls, db.jobs[g].caId), db.jobs[g], db.clock))
  }

  lemma HighestIsLast(rows: seq<Crl>, clock: Time)
    requires RowsOk(rows, clock) && rows != []
    ensures Highest(rows) == Some(rows[|rows| - 1])
  {
    var init := rows[..|rows| - 1];
    if Highest(init).Some? {
      assert Highest(init).value in init;
    }
  }

  lemma NextNumberIsCount(db: Db, ca: nat)
    requires NumbersOk(db)
    ensures NextNumber(db.crls, ca) == |RowsOf(db.crls, ca)| + 1
  {
    var rows := RowsOf(db.crls, ca);
    if rows != [] {
      HighestIsLast(rows, db.clock);
    }
  }

  lemma RowsOfAppend(crls: seq<Crl>, row: Crl, ca: nat)
    ensures RowsOf(crls + [row], ca) == if row.caId == ca then RowsOf(crls, ca) + [row] else RowsOf(crls, ca)
  {
    assert (crls + [row])[..|crls|] == crls;
  }

  lemma RowsLater(rows: seq<Crl>, clock: Time, later: Time)
    requires RowsOk(rows, clock) && clock <= later
    ensures RowsOk(rows, later)
  {
    forall k | 0 <= k < |rows| && rows[k].IsDelta() ensures HasBase(rows, k) {}
  }

  lemma {:induction false} BaseStays(rows: seq<Crl>, row: Crl, k: nat)
    requires k < |rows| && HasBase(rows, k)
    ensures HasBase(rows + [row], k)
  {
    assert (rows + [row])[k] == rows[k] && (rows + [row])[rows[k].baseNumber.value - 1] == rows[rows[k].baseNumber.value - 1];
  }

  lemma {:induction false} BaseOfLast(rows: seq<Crl>, row: Crl, base: Crl)
    requires row.baseNumber == Some(base.number) && !base.IsDelta()
    requires 1 <= base.number <= |rows| && rows[base.number - 1] == base
    ensures HasBase(rows + [row], |rows|)
  {
    var next := rows + [row];
    assert next[|rows|] == row && next[base.number - 1] == rows[base.number - 1];
  }

  lemma {:induction false} AppendInOrder(rows: seq<Crl>, row: Crl, clock: Time)
    requires RowsOk(rows, clock)
    requires row.number == |rows| + 1 && clock <= row.createdAt && row.thisUpdate <= row.createdAt
    requires forall k :: 0 <= k < |rows| ==> rows[k].thisUpdate <= row.thisUpdate
    ensures var next := rows + [row];
            && (forall k :: 0 <= k < |next| ==> next[k].number == k + 1 && next[k].thisUpdate <= next[k].createdAt <= row.createdAt)
            && (forall i, k :: 0 <= i < k < |next| ==> next[i].thisUpdate <= next[k].thisUpdate && next[i].createdAt <= next[k].createdAt)
  {
  }

  lemma {:induction false} BasesKept(rows: seq<Crl>, row: Crl, clock: Time)
    requires RowsOk(rows, clock) && (row.IsDelta() ==> HasBase(rows + [row], |rows|))
    ensures forall k :: 0 <= k < |rows + [row]| && (rows + [row])[k].IsDelta() ==> HasBase(rows + [row], k)
  {
    var next := rows + [row];
    forall k | 0 <= k < |next| && next[k].IsDelta() ensures HasBase(next, k) {
      if k < |rows| {
        assert next[k] == rows[k];
        BaseStays(rows, row, k);
      }
    }
  }

  lemma AppendOk(rows: seq<Crl>, j: Job, clock: Time, at: Time)
    requires RowsOk(rows, clock) && JobOk(rows, j, clock) && clock <= at
    requires j.Ready() && j.number.value == |rows| + 1
    ensures RowsOk(rows + [CrlFrom(j, at)], at)
  {
    var row := CrlFrom(j, at);
    AppendInOrder(rows, row, clock);
    if j.base.Some? {
      BaseOfLast(rows, row, j.base.value);
    }
    BasesKept(rows, row, clock);
  }

  /** At commit a generator's number is either the next free one or already taken. */
  lemma InsertOutcome(crls: seq<Crl>, row: Crl, clock: Time)
    requires RowsOk(RowsOf(crls, row.caId), clock)
    requires 1 <= row.number <= |RowsOf(crls, row.caId)| + 1
    ensures Insert(crls, row) == if row.number == |RowsOf(crls, row.caId)| + 1 then crls + [row] else crls
  {
    var mine := RowsOf(crls, row.caId);
    if row.number <= |mine| {
      InRowsOf(crls, row.caId, mine[row.number - 1]);
    } else {
      forall r | r in crls && r.caId == row.caId ensures r.number != row.number {
        InRowsOf(crls, row.caId, r);
      }
    }
  }

  lemma JobLater(rows: seq<Crl>, j: Job, clock: Time, later: Time)
    requires JobOk(rows, j, clock) && clock <= later
    ensures JobOk(rows, j, later)
  {
  }

  lemma JobAppend(rows: seq<Crl>, row: Crl, j: Job, clock: Time)
    requires JobOk(rows, j, clock)
    ensures JobOk(rows + [row], j, clock)
  {
  }

  lemma CommitRowsOk(db: Db, g: nat, at: Time, ca: nat)
    requires NumbersOk(db) && db.clock <= at
    requires g in db.jobs && db.jobs[g].Ready()
    ensures RowsOk(RowsOf(Insert(db.crls, CrlFrom(db.jobs[g], at)), ca), at)
  {
    var j := db.jobs[g];
    var row := CrlFrom(j, at);
    var mine := RowsOf(db.crls, j.caId);
    assert JobOk(mine, j, db.clock);
    InsertOutcome(db.crls, row, db.clock);
    RowsOfAppend(db.crls, row, ca);
    if ca == j.caId && row.number == |mine| + 1 {
      AppendOk(mine, j, db.clock, at);
    } else {
      assert RowsOk(RowsOf(db.crls, ca), db.clock);
      RowsLater(RowsOf(db.crls, ca), db.clock, at);
    }
  }

  /** A commit either takes the next number or meets the unique index: no number is skipped or doubled. */
  lemma CommitOk(db: Db, g: nat, at: Time)
    requires NumbersOk(db) && db.clock <= at
    requires g in db.jobs && db.jobs[g].Ready()
    ensures NumbersOk(Step(db, At(at, Commit(g))))
  {
    var row := CrlFrom(db.jobs[g], at);
    var db' := Step(db, At(at, Commit(g)));
    var crls' := Insert(db.crls, row);
    assert db'.crls == crls' && db'.jobs == db.jobs - {g} && db'.clock == at;
    forall ca: nat ensures RowsOk(RowsOf(crls', ca), at) { CommitRowsOk(db, g, at, ca); }
    forall h | h in db.jobs ensures JobOk(RowsOf(crls', db.jobs[h].caId), db.jobs[h], at) {
      assert JobOk(RowsOf(db.crls, db.jobs[h].caId), db.jobs[h], db.clock);
      RowsOfAppend(db.crls, row, db.jobs[h].caId);
      JobLater(RowsOf(db.crls, db.jobs[h].caId), db.jobs[h], db.clock, at);
      JobAppend(RowsOf(db.crls, db.jobs[h].caId), row, db.jobs[h], at);
    }
  }

  lemma OpenJobOk(db: Db, ca: nat, kind: Kind)
    requires NumbersOk(db) && OpenJob(db, ca, kind).Ok?
    ensures JobOk(RowsOf(db.crls, ca), OpenJob(db, ca, kind).value, db.clock)
  {
    var j := OpenJob(db, ca, kind).value;
    var rows := RowsOf(db.crls, ca);
    if j.base.Some? {
      LatestBaseIsBase(db.crls, ca);
      var k :| 0 <= k < |rows| && rows[k] == j.base.value;
    }
  }

  lemma ReadNumberOk(db: Db, g: nat)
    requires NumbersOk(db) && g in db.jobs && db.jobs[g].number.None?
    ensures JobOk(RowsOf(db.crls, db.jobs[g].caId), db.jobs[g].(number := Some(NextNumber(db.crls, db.jobs[g].caId))), db.clock)
  {
    assert JobOk(RowsOf(db.crls, db.jobs[g].caId), db.jobs[g], db.clock);
    NextNumberIsCount(db, db.jobs[g].caId);
  }

  lemma StampOk(rows: seq<Crl>, j: Job, clock: Time, at: Time)
    requires RowsOk(rows, clock) && JobOk(rows, j, clock) && j.number.Some? && clock <= at
    ensures JobOk(rows, j.(stamp := Some(at)), at)
  {
  }

  lemma SelectOk(rows: seq<Crl>, j: Job, selected: seq<Cert>, clock: Time, at: Time)
    requires JobOk(rows, j, clock) && clock <= at
    ensures JobOk(rows, j.(rows := Some(selected)), at)
  {
  }

  /** A generator that was at work before the step. */
  lemma OldJobOk(db: Db, t: Timed, g: nat)
    requires NumbersOk(db) && db.clock <= t.time && !t.event.Commit?
    requires g in db.jobs && g in StepJobs(db, t.event, t.time)
    ensures var j := StepJobs(db, t.event, t.time)[g]; JobOk(RowsOf(db.crls, j.caId), j, t.time)
  {
    var was, j := db.jobs[g], StepJobs(db, t.event, t.time)[g];
    var rows := RowsOf(db.crls, was.caId);
    assert JobOk(rows, was, db.clock);
    if j == was {
      JobLater(rows, j, db.clock, t.time);
    } else if t.event.SelectRows? {
      SelectOk(rows, was, j.rows.value, db.clock, t.time);
    } else if t.event.ReadNumber? {
      ReadNumberOk(db, g);
      JobLater(rows, j, db.clock, t.time);
    } else {
      assert RowsOk(rows, db.clock);
      StampOk(rows, was, db.clock, t.time);
    }
  }

  lemma JobStepOk(db: Db, t: Timed, g: nat)
    requires NumbersOk(db) && db.clock <= t.time && !t.event.Commit?
    requires g in StepJobs(db, t.event, t.time)
    ensures var j := StepJobs(db, t.event, t.time)[g]; JobOk(RowsOf(db.crls, j.caId), j, t.time)
  {
    if g in db.jobs {
      OldJobOk(db, t, g);
    } else {
      OpenJobOk(db, t.event.target, t.event.kind);
      JobLater(RowsOf(db.crls, t.event.target), OpenJob(db, t.event.target, t.event.kind).value, db.clock, t.time);
    }
  }

  lemma StepOk(db: Db, t: Timed)
    requires NumbersOk(db) && db.clock <= t.time
    ensures NumbersOk(Step(db, t))
  {
    var e := t.event;
    if e.Commit? && e.job in db.jobs && db.jobs[e.job].Ready() {
      CommitOk(db, e.job, t.time);
    } else {
      forall ca: nat ensures RowsOk(RowsOf(db.crls, ca), t.time) {
        assert RowsOk(RowsOf(db.crls, ca), db.clock);
        RowsLater(RowsOf(db.crls, ca), db.clock, t.time);
      }
      var jobs' := StepJobs(db, e, t.time);
      forall g | g in jobs' ensures JobOk(RowsOf(db.crls, jobs'[g].caId), jobs'[g], t.time) {
        if e.Commit? { StepOkIdleCommit(db, t, g); } else { JobStepOk(db, t, g); }
      }
    }
  }

  lemma StepOkIdleCommit(db: Db, t: Timed, g: nat)
    requires NumbersOk(db) && db.clock <= t.time && g in db.jobs
    ensures JobOk(RowsOf(db.crls, db.jobs[g].caId), db.jobs[g], t.time)
  {
    assert JobOk(RowsOf(db.crls, db.jobs[g].caId), db.jobs[g], db.clock);
    JobLater(RowsOf(db.crls, db.jobs[g].caId), db.jobs[g], db.clock, t.time);
  }

  /** RFC 5280 section 5.2.3, for every interleaving of generators: an authority's stored CRL numbers are
      exactly 1..n over full and delta CRLs together, thisUpdate never decreases with the number, and every
      delta names a stored full CRL with a smaller number. */
  lemma {:induction false} NumbersStayDense(start: Db, es: seq<Timed>)
    requires Fresh(start) && Ordered(start.clock, es)
    ensures NumbersOk(Run(start, es))
  {
    if es == [] {
      forall ca: nat ensures RowsOk(RowsOf(start.crls, ca), start.clock) {}
    } else {
      NumbersStayDense(start, es[..|es| - 1]);
      RunClock(start, es);
      StepOk(Run(start, es[..|es| - 1]), es[|es| - 1]);
    }
  }
}

/** Does a base CRL united with a delta on it say what a full CRL would say (RFC 5280 section 5.2.4)?

    Two things can go wrong between a base and a later delta: a revocation the base did not see is stamped
    no later than the base (the delta's strict comparison then skips it), or a revocation on the base is
    taken back. This module proves that these are the only two, and which steps cause them. */
module CrlCompleteness {
  import opened Common
  import opened CrlStore
  import opened CrlNumbering

  ghost function Elements(es: seq<Entry>): set<Entry> { set e | e in es }

  /** The entries a full CRL made from this state would carry. */
  ghost function FullEntries(db: Db, ca: nat): set<Entry>
    requires ca in db.cas
  {
    Elements(EntriesOf(RevokedRows(db.certs, db.cas[ca].refid), db.clock))
  }

  /** They are the lines that describe a revoked certificate of the authority. */
  lemma {:induction false} FullEntriesAre(db: Db, ca: nat, e: Entry)
    requires ca in db.cas
    ensures e in FullEntries(db, ca) <==>
              exists c :: c in db.certs && c.caref == db.cas[ca].refid && c.revoked && Describes(e, c, db.clock)
  {
    var rows := RevokedRows(db.certs, db.cas[ca].refid);
    EntriesMembers(rows, db.clock);
    RevokedMembers(db.certs, db.cas[ca].refid);
    if e in FullEntries(db, ca) {
      var c :| c in rows && EntryOf(c, db.clock) == Some(e);
      EntryDescribes(c, db.clock, e);
    }
    if c :| c in db.certs && c.caref == db.cas[ca].refid && c.revoked && Describes(e, c, db.clock) {
      EntryDescribes(c, db.clock, e);
    }
  }

  ghost predicate CertsOk(db: Db) {
    forall c :: c in db.certs ==> (c.revoked <==> c.revokedAt.Some?) && (c.revoked ==> c.revokedAt.value <= db.clock)
  }

  /** Revoked no later than the base's stamp, with a serial number a CRL can carry. */
  predicate Early(db: Db, b: Crl, c: Cert) {
    c.revokedAt.Some? && c.revokedAt.value <= b.thisUpdate && EntryOf(c, db.clock).Some?
  }

  /** Every certificate now revoked at or before the base's thisUpdate is on the base. */
  ghost predicate NothingMissed(db: Db, refid: string, b: Crl) {
    forall c :: c in RevokedRows(db.certs, refid) && Early(db, b, c) ==> EntryOf(c, db.clock).value in b.entries
  }

  /** Every entry of the base still stands for a revoked certificate. */
  ghost predicate NothingWithdrawn(db: Db, refid: string, b: Crl) {
    forall e :: e in b.entries ==> exists c :: c in RevokedRows(db.certs, refid) && EntryOf(c, db.clock) == Some(e)
  }

  lemma NothingRevokedIsLost(db: Db, ca: nat, b: Crl, at: Time)
    requires CertsOk(db) && ca in db.cas
    ensures var delta := EntriesOf(ChangedRows(db.certs, db.cas[ca].refid, b.thisUpdate), at);
            FullEntries(db, ca) <= Elements(b.entries) + Elements(delta) <==> NothingMissed(db, db.cas[ca].refid, b)
  {
    var refid := db.cas[ca].refid;
    var changed := ChangedRows(db.certs, refid, b.thisUpdate);
    var delta := EntriesOf(changed, at);
    var full := RevokedRows(db.certs, refid);
    RevokedMembers(db.certs, refid);
    ChangedMembers(db.certs, refid, b.thisUpdate);
    EntriesMembers(full, db.clock);
    EntriesMembers(changed, at);
    if NothingMissed(db, refid, b) {
      forall e | e in FullEntries(db, ca) ensures e in b.entries || e in delta {
        var c :| c in full && EntryOf(c, db.clock) == Some(e);
        if c.revokedAt.value > b.thisUpdate {
          assert c in changed && EntryOf(c, at) == Some(e);
        }
      }
    }
    if FullEntries(db, ca) <= Elements(b.entries) + Elements(delta) {
      forall c | c in full && Early(db, b, c)
        ensures EntryOf(c, db.clock).value in b.entries
      {
        var e := EntryOf(c, db.clock).value;
        assert e in FullEntries(db, ca);
        forall d | d in changed ensures EntryOf(d, at) != Some(e) {
          assert d.revokedAt.value > c.revokedAt.value == e.revocationDate;
        }
      }
    }
  }

  lemma NothingElseIsListed(db: Db, ca: nat, b: Crl, at: Time)
    requires CertsOk(db) && ca in db.cas
    ensures var delta := EntriesOf(ChangedRows(db.certs, db.cas[ca].refid, b.thisUpdate), at);
            Elements(b.entries) + Elements(delta) <= FullEntries(db, ca) <==> NothingWithdrawn(db, db.cas[ca].refid, b)
  {
    var refid := db.cas[ca].refid;
    var changed := ChangedRows(db.certs, refid, b.thisUpdate);
    var delta := EntriesOf(changed, at);
    RevokedMembers(db.certs, refid);
    ChangedMembers(db.certs, refid, b.thisUpdate);
    EntriesMembers(RevokedRows(db.certs, refid), db.clock);
    EntriesMembers(changed, at);
    forall e | e in delta ensures e in FullEntries(db, ca) {
      var c :| c in changed && EntryOf(c, at) == Some(e);
      assert c in RevokedRows(db.certs, refid) && EntryOf(c, db.clock) == Some(e);
    }
    if Elements(b.entries) + Elements(delta) <= FullEntries(db, ca) {
      forall e | e in b.entries
        ensures exists c :: c in RevokedRows(db.certs, refid) && EntryOf(c, db.clock) == Some(e)
      {
        assert e in Elements(b.entries);
        assert e in FullEntries(db, ca);
      }
    }
  }

  /** In any state, a base and a delta on it agree with the full CRL of that moment exactly when the base
      missed nothing and nothing on it was taken back. */
  lemma CompleteIff(db: Db, ca: nat, b: Crl, at: Time)
    requires CertsOk(db) && ca in db.cas
    ensures var refid := db.cas[ca].refid;
            Elements(b.entries) + Elements(EntriesOf(ChangedRows(db.certs, refid, b.thisUpdate), at)) == FullEntries(db, ca)
            <==> NothingMissed(db, refid, b) && NothingWithdrawn(db, refid, b)
  {
    NothingRevokedIsLost(db, ca, b, at);
    NothingElseIsListed(db, ca, b, at);
  }

  // ---- which steps keep the two conditions ----

  /** A revocation is timely when no full CRL of its authority is being made from rows already selected and the
      clock is past the thisUpdate of every full CRL the authority has. */
  ghost predicate Timely(db: Db, t: Timed) {
    t.event.Revoke? ==>
      forall ca :: ca in db.cas && CaOfCert(db, t.event.id, ca) ==>
        && (forall g :: g in db.jobs && db.jobs[g].caId == ca ==> db.jobs[g].base.Some? || db.jobs[g].rows.None?)
        && (forall r :: r in db.crls && r.caId == ca && !r.IsDelta() ==> r.thisUpdate < t.time)
  }

  ghost predicate CaOfCert(db: Db, id: nat, ca: nat)
    requires ca in db.cas
  {
    IndexOf(db.certs, id) < |db.certs| && db.certs[IndexOf(db.certs, id)].caref == db.cas[ca].refid
  }

  /** The step takes no revocation back. */
  ghost predicate Permanent(db: Db, t: Timed) {
    (t.event.Unhold? || t.event.Delete? || t.event.Renew?) ==>
      IndexOf(db.certs, t.event.id) < |db.certs| ==> !db.certs[IndexOf(db.certs, t.event.id)].revoked
  }

  ghost predicate KnownCas(db: Db) {
    && (forall g :: g in db.jobs ==> db.jobs[g].caId in db.cas)
    && (forall r :: r in db.crls ==> r.caId in db.cas)
  }

  /** A full CRL being made whose rows are already selected. */
  predicate FullSelected(j: Job) { j.base.None? && j.rows.Some? }

  /** Nothing missed, for finished full CRLs and for those being made. */
  ghost predicate SeenOk(db: Db)
    requires KnownCas(db)
  {
    && (forall r :: r in db.crls && !r.IsDelta() ==> NothingMissed(db, db.cas[r.caId].refid, r))
    && (forall g :: g in db.jobs && FullSelected(db.jobs[g]) ==>
          forall c :: c in RevokedRows(db.certs, db.cas[db.jobs[g].caId].refid) ==> c in db.jobs[g].rows.value)
  }

  /** Nothing withdrawn, for finished full CRLs and for those being made. */
  ghost predicate KeptOk(db: Db)
    requires KnownCas(db)
  {
    && (forall r :: r in db.crls && !r.IsDelta() ==> NothingWithdrawn(db, db.cas[r.caId].refid, r))
    && (forall g :: g in db.jobs && FullSelected(db.jobs[g]) ==>
          forall c :: c in db.jobs[g].rows.value ==> c in RevokedRows(db.certs, db.cas[db.jobs[g].caId].refid))
  }

  /** Certificate rows after a step: which rows can be new, and which can be gone. */
  lemma StepRows(db: Db, t: Timed)
    requires CertsOk(db) && db.clock <= t.time
    ensures CertsOk(Step(db, t))
    ensures forall c :: c in Step(db, t).certs && c.revoked && c !in db.certs ==>
      t.event.Revoke? && c.revokedAt == Some(t.time) && IndexOf(db.certs, t.event.id) < |db.certs|
      && db.certs[IndexOf(db.certs, t.event.id)].caref == c.caref
    ensures Permanent(db, t) ==> forall c :: c in db.certs && c.revoked ==> c in Step(db, t).certs
  {
    var certs' := StepCerts(db.certs, t.event, t.time);
    if t.event.Revoke? || t.event.Unhold? || t.event.Delete? || t.event.Renew? {
      var i := IndexOf(db.certs, t.event.id);
      if t.event.Delete? && i < |db.certs| {
        assert db.certs == db.certs[..i] + [db.certs[i]] + db.certs[i + 1..];
      } else if i < |db.certs| && certs' != db.certs {
        assert certs' == db.certs[..i] + [certs'[i]] + db.certs[i + 1..];
        assert db.certs == db.certs[..i] + [db.certs[i]] + db.certs[i + 1..];
      }
    }
  }

  lemma StepKnown(db: Db, t: Timed)
    requires KnownCas(db)
    ensures KnownCas(Step(db, t))
    ensures Step(db, t).cas.Keys == db.cas.Keys
    ensures forall ca :: ca in db.cas ==> Step(db, t).cas[ca].refid == db.cas[ca].refid
  {
  }

  /** A full CRL leaves its generator with the rows it selected. */
  lemma CommitSeen(db: Db, j: Job, refid: string, at: Time)
    requires CertsOk(db) && j.Ready()
    ensures (forall c :: c in RevokedRows(db.certs, refid) ==> c in j.rows.value) ==> NothingMissed(db, refid, CrlFrom(j, at))
    ensures (forall c :: c in j.rows.value ==> c in RevokedRows(db.certs, refid)) ==> NothingWithdrawn(db, refid, CrlFrom(j, at))
  {
    var row := CrlFrom(j, at);
    RevokedMembers(db.certs, refid);
    EntriesMembers(j.rows.value, j.stamp.value);
    if forall c :: c in j.rows.value ==> c in RevokedRows(db.certs, refid) {
      forall e | e in row.entries
        ensures exists c :: c in RevokedRows(db.certs, refid) && EntryOf(c, db.clock) == Some(e)
      {
        var c :| c in j.rows.value && EntryOf(c, j.stamp.value) == Some(e);
        assert EntryOf(c, db.clock) == Some(e);
      }
    }
    if forall c :: c in RevokedRows(db.certs, refid) ==> c in j.rows.value {
      forall c | c in RevokedRows(db.certs, refid) && Early(db, row, c)
        ensures EntryOf(c, db.clock).value in row.entries
      {
        assert EntryOf(c, j.stamp.value) == EntryOf(c, db.clock);
      }
    }
  }

  /** A stored full CRL goes on missing nothing. */
  lemma StoredStaysSeen(db: Db, t: Timed, r: Crl)
    requires CertsOk(db) && KnownCas(db) && SeenOk(db) && Timely(db, t) && db.clock <= t.time
    requires r in db.crls && !r.IsDelta()
    ensures NothingMissed(Step(db, t), db.cas[r.caId].refid, r)
  {
    var db', refid := Step(db, t), db.cas[r.caId].refid;
    StepRows(db, t);
    RevokedMembers(db.certs, refid);
    RevokedMembers(db'.certs, refid);
    forall c | c in RevokedRows(db'.certs, refid) && Early(db', r, c)
      ensures EntryOf(c, db'.clock).value in r.entries
    {
      assert c in db.certs;
      assert c in RevokedRows(db.certs, refid) && Early(db, r, c);
      assert EntryOf(c, db'.clock) == EntryOf(c, db.clock);
    }
  }

  /** A generator of a full CRL that has its rows had them before the step, or has just selected them. */
  lemma {:induction false} WhenSelected(db: Db, t: Timed, g: nat)
    requires g in Step(db, t).jobs && FullSelected(Step(db, t).jobs[g]) && KnownCas(db)
    ensures var j := Step(db, t).jobs[g];
            && j.caId in db.cas
            && (if g in db.jobs && FullSelected(db.jobs[g])
                then j.rows == db.jobs[g].rows && j.caId == db.jobs[g].caId
                else Step(db, t).certs == db.certs && j.rows == Some(RevokedRows(db.certs, db.cas[j.caId].refid)))
  {
    StepKnown(db, t);
  }

  /** A full CRL in the making goes on holding every revoked row. */
  lemma JobStaysSeen(db: Db, t: Timed, g: nat)
    requires CertsOk(db) && KnownCas(db) && SeenOk(db) && Timely(db, t) && db.clock <= t.time
    requires g in Step(db, t).jobs && FullSelected(Step(db, t).jobs[g])
    ensures var j := Step(db, t).jobs[g];
            j.caId in db.cas && forall c :: c in RevokedRows(Step(db, t).certs, db.cas[j.caId].refid) ==> c in j.rows.value
  {
    WhenSelected(db, t, g);
    if g in db.jobs && FullSelected(db.jobs[g]) {
      NewlyRevokedAreSeen(db, t, g);
    }
  }

  lemma {:induction false} NewlyRevokedAreSeen(db: Db, t: Timed, g: nat)
    requires CertsOk(db) && KnownCas(db) && SeenOk(db) && Timely(db, t) && db.clock <= t.time
    requires g in db.jobs && FullSelected(db.jobs[g]) && db.jobs[g].caId in db.cas
    requires g in Step(db, t).jobs
    ensures forall c :: c in RevokedRows(Step(db, t).certs, db.cas[db.jobs[g].caId].refid) ==> c in db.jobs[g].rows.value
  {
    var certs, refid := Step(db, t).certs, db.cas[db.jobs[g].caId].refid;
    StepRows(db, t);
    RevokedMembers(db.certs, refid);
    RevokedMembers(certs, refid);
    forall c | c in RevokedRows(certs, refid) ensures c in db.jobs[g].rows.value {
      assert c in db.certs;
      assert c in RevokedRows(db.certs, refid);
    }
  }

  /** A full CRL in the making goes on holding only revoked rows. */
  lemma JobStaysKept(db: Db, t: Timed, g: nat)
    requires CertsOk(db) && KnownCas(db) && KeptOk(db) && Permanent(db, t) && db.clock <= t.time
    requires g in Step(db, t).jobs && FullSelected(Step(db, t).jobs[g])
    ensures var j := Step(db, t).jobs[g];
            j.caId in db.cas && forall c :: c in j.rows.value ==> c in RevokedRows(Step(db, t).certs, db.cas[j.caId].refid)
  {
    WhenSelected(db, t, g);
    if g in db.jobs && FullSelected(db.jobs[g]) {
      RevokedAreKept(db, t, g);
    }
  }

  lemma {:induction false} RevokedAreKept(db: Db, t: Timed, g: nat)
    requires CertsOk(db) && KnownCas(db) && KeptOk(db) && Permanent(db, t) && db.clock <= t.time
    requires g in db.jobs && FullSelected(db.jobs[g]) && db.jobs[g].caId in db.cas
    requires g in Step(db, t).jobs
    ensures forall c :: c in db.jobs[g].rows.value ==> c in RevokedRows(Step(db, t).certs, db.cas[db.jobs[g].caId].refid)
  {
    var certs, refid := Step(db, t).certs, db.cas[db.jobs[g].caId].refid;
    StepRows(db, t);
    RevokedMembers(db.certs, refid);
    RevokedMembers(certs, refid);
    forall c | c in db.jobs[g].rows.value ensures c in RevokedRows(certs, refid) {
      assert c in RevokedRows(db.certs, refid);
    }
  }

  lemma SeenStep(db: Db, t: Timed)
    requires CertsOk(db) && KnownCas(db) && SeenOk(db) && Timely(db, t) && db.clock <= t.time
    ensures KnownCas(Step(db, t)) && SeenOk(Step(db, t))
  {
    StepKnown(db, t);
    StepRows(db, t);
    var db' := Step(db, t);
    forall r | r in db'.crls && !r.IsDelta() ensures NothingMissed(db', db'.cas[r.caId].refid, r) {
      if r in db.crls {
        StoredStaysSeen(db, t, r);
      } else {
        var refid := db.cas[r.caId].refid;
        RevokedMembers(db.certs, refid);
        RevokedMembers(db'.certs, refid);
        CommitSeen(db', db.jobs[t.event.job], refid, t.time);
      }
    }
    forall g | g in db'.jobs && FullSelected(db'.jobs[g])
      ensures forall c :: c in RevokedRows(db'.certs, db'.cas[db'.jobs[g].caId].refid) ==> c in db'.jobs[g].rows.value
    {
      JobStaysSeen(db, t, g);
    }
  }

  lemma KeptStep(db: Db, t: Timed)
    requires CertsOk(db) && KnownCas(db) && KeptOk(db) && Permanent(db, t) && db.clock <= t.time
    ensures KnownCas(Step(db, t)) && KeptOk(Step(db, t))
  {
    StepKnown(db, t);
    StepRows(db, t);
    var db' := Step(db, t);
    forall r | r in db'.crls && !r.IsDelta() ensures NothingWithdrawn(db', db'.cas[r.caId].refid, r) {
      var refid := db.cas[r.caId].refid;
      RevokedMembers(db.certs, refid);
      RevokedMembers(db'.certs, refid);
      if r in db.crls {
        forall e | e in r.entries
          ensures exists c :: c in RevokedRows(db'.certs, refid) && EntryOf(c, db'.clock) == Some(e)
        {
          var c :| c in RevokedRows(db.certs, refid) && EntryOf(c, db.clock) == Some(e);
          assert c in RevokedRows(db'.certs, refid) && EntryOf(c, db'.clock) == Some(e);
        }
      } else {
        CommitSeen(db', db.jobs[t.event.job], refid, t.time);
      }
    }
    forall g | g in db'.jobs && FullSelected(db'.jobs[g])
      ensures forall c :: c in db'.jobs[g].rows.value ==> c in RevokedRows(db'.certs, db'.cas[db'.jobs[g].caId].refid)
    {
      JobStaysKept(db, t, g);
    }
  }
}

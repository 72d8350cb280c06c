/** Revocation rows, CRL rows and the generator steps that turn one into the other.

    A generator (a full or a delta CRL being made) looks up its authority and its base, selects the revoked rows,
    reads the last CRL number, stamps the time, and commits, in that order; other work may run between any
    two of these steps.
    `Step` is one such step and `Run` any interleaving of them. */
module CrlStore {
  import opened Common
  import opened Text

  datatype Ca = Ca(refid: string, hasKey: bool, cdpEnabled: bool, deltaEnabled: bool, deltaInterval: nat)

  datatype Cert = Cert(id: nat, caref: string, serialNumber: string,
                       revoked: bool, revokedAt: Option<Time>, reason: Option<string>)

  /** What one line of a signed CRL says. */
  datatype Entry = Entry(serial: nat, revocationDate: Time, reason: Option<string>)

  datatype Crl = Crl(caId: nat, number: nat, thisUpdate: Time, nextUpdate: Time, entries: seq<Entry>,
                     revokedCount: nat, baseNumber: Option<nat>, createdAt: Time)
  {
    predicate IsDelta() { baseNumber.Some? }
  }

  datatype CrlError = CaNotFound | NoPrivateKey | CdpDisabled | DeltaDisabled | BadValidity | NoBaseCrl

  datatype Kind = Full(days: int) | Delta(hours: int)

  /** A generator at work: the base it found (for a delta), then the rows it selected, the number it read and its
      time stamp, each once it has them. */
  datatype Job = Job(caId: nat, base: Option<Crl>, validity: Time, rows: Option<seq<Cert>>,
                     number: Option<nat>, stamp: Option<Time>)
  {
    predicate Ready() { rows.Some? && number.Some? && stamp.Some? }
  }

  datatype Db = Db(clock: Time, cas: map<nat, Ca>, certs: seq<Cert>, crls: seq<Crl>, jobs: map<nat, Job>)

  // ---- entries ----

  const REASONS: set<string> := {
    "unspecified", "keyCompromise", "CACompromise", "affiliationChanged", "superseded",
    "cessationOfOperation", "certificateHold", "removeFromCRL", "privilegeWithdrawn", "aACompromise" }

  function ReasonOf(reason: Option<string>): Option<string> {
    if reason.None? || reason.value == "" then None
    else Some(if reason.value in REASONS then reason.value else "unspecified")
  }

  /** The line a row gets; None when the row has no serial number or it does not parse. */
  function EntryOf(c: Cert, now: Time): Option<Entry> {
    if c.serialNumber == "" then None
    else
      match EntrySerial(c.serialNumber)
      case None => None
      case Some(n) => Some(Entry(n, if c.revokedAt.Some? then c.revokedAt.value else now, ReasonOf(c.reason)))
  }

  function EntriesOf(rows: seq<Cert>, now: Time): seq<Entry> {
    if rows == [] then []
    else
      var rest := EntriesOf(rows[..|rows| - 1], now);
      match EntryOf(rows[|rows| - 1], now)
      case None => rest
      case Some(e) => rest + [e]
  }

  lemma {:induction false} EntriesMembers(rows: seq<Cert>, now: Time)
    ensures forall e :: e in EntriesOf(rows, now) <==> exists c :: c in rows && EntryOf(c, now) == Some(e)
  {
    if rows != [] {
      EntriesMembers(rows[..|rows| - 1], now);
      assert rows == rows[..|rows| - 1] + [rows[|rows| - 1]];
    }
  }

  // ---- queries ----

  function RevokedRows(certs: seq<Cert>, refid: string): seq<Cert> {
    if certs == [] then []
    else
      var c, rest := certs[|certs| - 1], RevokedRows(certs[..|certs| - 1], refid);
      if c.caref == refid && c.revoked then rest + [c] else rest
  }

  lemma {:induction false} RevokedMembers(certs: seq<Cert>, refid: string)
    ensures forall c :: c in RevokedRows(certs, refid) <==> c in certs && c.caref == refid && c.revoked
  {
    if certs != [] {
      RevokedMembers(certs[..|certs| - 1], refid);
      assert certs == certs[..|certs| - 1] + [certs[|certs| - 1]];
    }
  }

  predicate RevokedSince(c: Cert, refid: string, since: Time) {
    c.caref == refid && c.revoked && c.revokedAt.Some? && c.revokedAt.value > since
  }

  function ChangedRows(certs: seq<Cert>, refid: string, since: Time): seq<Cert> {
    if certs == [] then []
    else
      var c, rest := certs[|certs| - 1], ChangedRows(certs[..|certs| - 1], refid, since);
      if RevokedSince(c, refid, since) then rest + [c] else rest
  }

  lemma {:induction false} ChangedMembers(certs: seq<Cert>, refid: string, since: Time)
    ensures forall c :: c in ChangedRows(certs, refid, since) <==> c in certs && RevokedSince(c, refid, since)
  {
    if certs != [] {
      ChangedMembers(certs[..|certs| - 1], refid, since);
      assert certs == certs[..|certs| - 1] + [certs[|certs| - 1]];
    }
  }

  // ---- what a CRL lists, read off the rows ----

  /** The reasons of RFC 5280 section 5.3.1 as the program spells them. */
  predicate IsCrlReason(text: string) {
    || text == "unspecified" || text == "keyCompromise" || text == "CACompromise" || text == "affiliationChanged"
    || text == "superseded" || text == "cessationOfOperation" || text == "certificateHold" || text == "removeFromCRL"
    || text == "privilegeWithdrawn" || text == "aACompromise"
  }

  /** The line that RFC 5280 section 5.3 asks for: the serial, the date, and the reason that was given. */
  predicate Describes(e: Entry, c: Cert, now: Time) {
    && EntrySerial(c.serialNumber) == Some(e.serial)
    && e.revocationDate == (if c.revokedAt.Some? then c.revokedAt.value else now)
    && (e.reason.None? <==> c.reason.None? || c.reason.value == "")
    && (c.reason.Some? && c.reason.value != "" ==>
          e.reason == if IsCrlReason(c.reason.value) then c.reason else Some("unspecified"))
  }

  predicate HasLine(entries: seq<Entry>, c: Cert, now: Time) { exists e :: e in entries && Describes(e, c, now) }

  /** Revoked, and after `since` where that is given. */
  predicate Wanted(c: Cert, refid: string, since: Option<Time>) {
    c.caref == refid && c.revoked && (since.Some? ==> c.revokedAt.Some? && c.revokedAt.value > since.value)
  }

  /** A line for every wanted certificate whose serial number can be read, and no other line. */
  ghost predicate Lists(entries: seq<Entry>, certs: seq<Cert>, refid: string, since: Option<Time>, now: Time) {
    && (forall c :: c in certs && Wanted(c, refid, since) && EntrySerial(c.serialNumber).Some? ==> HasLine(entries, c, now))
    && (forall e :: e in entries ==> exists c :: c in certs && Wanted(c, refid, since) && Describes(e, c, now))
  }

  function WantedRows(certs: seq<Cert>, refid: string, since: Option<Time>): set<nat> {
    set i | 0 <= i < |certs| && Wanted(certs[i], refid, since) :: i
  }

  lemma {:induction false} EntryDescribes(c: Cert, now: Time, e: Entry)
    ensures EntryOf(c, now) == Some(e) <==> Describes(e, c, now)
  {
    assert EntrySerial("") == None;
  }

  lemma {:induction false} SelectedMembers(certs: seq<Cert>, refid: string, base: Option<Crl>)
    ensures var since := if base.Some? then Some(base.value.thisUpdate) else None;
            forall c :: c in SelectedRows(certs, refid, base) <==> c in certs && Wanted(c, refid, since)
  {
    RevokedMembers(certs, refid);
    if base.Some? {
      ChangedMembers(certs, refid, base.value.thisUpdate);
    }
  }

  lemma {:induction false} WantedLast(certs: seq<Cert>, refid: string, since: Option<Time>)
    requires certs != []
    ensures var n := |certs| - 1;
      WantedRows(certs, refid, since) == WantedRows(certs[..n], refid, since) + if Wanted(certs[n], refid, since) then {n} else {}
  {
  }

  lemma {:induction false} SelectedCount(certs: seq<Cert>, refid: string, base: Option<Crl>)
    ensures |SelectedRows(certs, refid, base)| == |WantedRows(certs, refid, if base.Some? then Some(base.value.thisUpdate) else None)|
  {
    var since := if base.Some? then Some(base.value.thisUpdate) else None;
    if certs == [] {
      assert WantedRows(certs, refid, since) == {};
    } else {
      var n := |certs| - 1;
      SelectedCount(certs[..n], refid, base);
      WantedLast(certs, refid, since);
    }
  }

  /** What the generator selects and the builder makes of it is a line for each wanted certificate and nothing else. */
  lemma {:induction false} SelectionLists(certs: seq<Cert>, refid: string, base: Option<Crl>, now: Time)
    ensures Lists(EntriesOf(SelectedRows(certs, refid, base), now), certs, refid,
                  if base.Some? then Some(base.value.thisUpdate) else None, now)
  {
    var since := if base.Some? then Some(base.value.thisUpdate) else None;
    var rows := SelectedRows(certs, refid, base);
    var entries := EntriesOf(rows, now);
    SelectedMembers(certs, refid, base);
    EntriesMembers(rows, now);
    forall c | c in certs && Wanted(c, refid, since) && EntrySerial(c.serialNumber).Some? ensures HasLine(entries, c, now) {
      LineOf(c, now);
      var e := EntryOf(c, now).value;
      assert c in rows && e in entries && Describes(e, c, now);
    }
    forall e | e in entries ensures exists c :: c in certs && Wanted(c, refid, since) && Describes(e, c, now) {
      var c :| c in rows && EntryOf(c, now) == Some(e);
      EntryDescribes(c, now, e);
    }
  }

  lemma {:induction false} LineOf(c: Cert, now: Time)
    requires EntrySerial(c.serialNumber).Some?
    ensures EntryOf(c, now).Some? && Describes(EntryOf(c, now).value, c, now)
  {
    assert EntrySerial("") == None;
    EntryDescribes(c, now, EntryOf(c, now).value);
  }

  /** One authority's CRL rows, in insertion order. */
  function RowsOf(crls: seq<Crl>, caId: nat): seq<Crl> {
    if crls == [] then []
    else
      var r, rest := crls[|crls| - 1], RowsOf(crls[..|crls| - 1], caId);
      if r.caId == caId then rest + [r] else rest
  }

  lemma {:induction false} InRowsOf(crls: seq<Crl>, caId: nat, r: Crl)
    ensures r in RowsOf(crls, caId) <==> r in crls && r.caId == caId
  {
    if crls != [] {
      InRowsOf(crls[..|crls| - 1], caId, r);
      assert crls == crls[..|crls| - 1] + [crls[|crls| - 1]];
    }
  }

  /** The rows of one kind. */
  function OfKind(rows: seq<Crl>, delta: bool): seq<Crl> {
    if rows == [] then []
    else
      var r, rest := rows[|rows| - 1], OfKind(rows[..|rows| - 1], delta);
      if r.IsDelta() == delta then rest + [r] else rest
  }

  lemma {:induction false} InKind(rows: seq<Crl>, delta: bool, r: Crl)
    ensures r in OfKind(rows, delta) <==> r in rows && r.IsDelta() == delta
  {
    if rows != [] {
      InKind(rows[..|rows| - 1], delta, r);
      assert rows == rows[..|rows| - 1] + [rows[|rows| - 1]];
    }
  }

  /** order_by(crl_number desc).first() */
  function Highest(rows: seq<Crl>): (best: Option<Crl>)
    ensures best.None? <==> rows == []
    ensures best.Some? ==> best.value in rows && forall r :: r in rows ==> r.number <= best.value.number
  {
    if rows == [] then None
    else
      var r := rows[|rows| - 1];
      var best := Highest(rows[..|rows| - 1]);
      assert rows == rows[..|rows| - 1] + [r];
      if best.Some? && best.value.number >= r.number then best else Some(r)
  }

  function LatestBase(crls: seq<Crl>, caId: nat): Option<Crl> { Highest(OfKind(RowsOf(crls, caId), false)) }

  function LatestDelta(crls: seq<Crl>, caId: nat): Option<Crl> { Highest(OfKind(RowsOf(crls, caId), true)) }

  lemma LatestBaseIsBase(crls: seq<Crl>, caId: nat)
    ensures LatestBase(crls, caId).Some? ==>
      var b := LatestBase(crls, caId).value; b in crls && b.caId == caId && b in RowsOf(crls, caId) && !b.IsDelta()
  {
    if LatestBase(crls, caId).Some? {
      InKind(RowsOf(crls, caId), false, LatestBase(crls, caId).value);
      InRowsOf(crls, caId, LatestBase(crls, caId).value);
    }
  }

  lemma {:induction false} LatestBaseIsHighest(crls: seq<Crl>, caId: nat)
    ensures LatestBase(crls, caId).Some? <==> exists b :: b in crls && b.caId == caId && !b.IsDelta()
    ensures LatestBase(crls, caId).Some? ==>
              var r := LatestBase(crls, caId).value;
              r in crls && r.caId == caId && !r.IsDelta() && forall b :: b in crls && b.caId == caId && !b.IsDelta() ==> b.number <= r.number
  {
    LatestBaseIsBase(crls, caId);
    forall b | b in crls && b.caId == caId && !b.IsDelta() ensures b in OfKind(RowsOf(crls, caId), false) {
      InRowsOf(crls, caId, b);
      InKind(RowsOf(crls, caId), false, b);
    }
  }

  function NextNumber(crls: seq<Crl>, caId: nat): nat {
    match Highest(RowsOf(crls, caId))
    case None => 1
    case Some(last) => last.number + 1
  }

  // ---- generator steps ----

  function OpenJob(db: Db, caId: nat, kind: Kind): Result<Job, CrlError> {
    if caId !in db.cas then Err(CaNotFound)
    else
      var ca := db.cas[caId];
      if !ca.hasKey then Err(NoPrivateKey)
      else
        match kind
        case Full(days) => Ok(Job(caId, None, days * DAY, None, None, None))
        case Delta(hours) =>
          if !ca.cdpEnabled then Err(CdpDisabled)
          else if !ca.deltaEnabled then Err(DeltaDisabled)
          else if hours < 1 || hours > 720 then Err(BadValidity)
          else
            match LatestBase(db.crls, caId)
            case None => Err(NoBaseCrl)
            case Some(b) => Ok(Job(caId, Some(b), hours * HOUR, None, None, None))
  }

  /** The rows a generator selects: all revoked ones, or those revoked after the stamp of its base. */
  function SelectedRows(certs: seq<Cert>, refid: string, base: Option<Crl>): seq<Cert> {
    match base
    case None => RevokedRows(certs, refid)
    case Some(b) => ChangedRows(certs, refid, b.thisUpdate)
  }

  function CrlFrom(j: Job, createdAt: Time): Crl
    requires j.Ready()
  {
    Crl(j.caId, j.number.value, j.stamp.value, j.stamp.value + j.validity, EntriesOf(j.rows.value, j.stamp.value),
        |j.rows.value|, if j.base.Some? then Some(j.base.value.number) else None, createdAt)
  }

  /** Inserting under the unique index on (ca_id, crl_number); a collision stores nothing. */
  function Insert(crls: seq<Crl>, row: Crl): seq<Crl> {
    if exists r :: r in crls && r.caId == row.caId && r.number == row.number then crls else crls + [row]
  }

  // ---- certificate steps ----

  function IndexOf(certs: seq<Cert>, id: nat): (i: nat)
    ensures i <= |certs|
    ensures i < |certs| ==> certs[i].id == id
    ensures i == |certs| ==> forall c :: c in certs ==> c.id != id
  {
    if certs == [] then 0 else if certs[0].id == id then 0 else 1 + IndexOf(certs[1..], id)
  }

  const HOLD_REASONS: set<Option<string>> := { Some("certificate_hold"), Some("certificateHold") }

  datatype Event =
    | Issue(id: nat, caref: string, serialNumber: string)
    | Revoke(id: nat, reason: string)
    | Unhold(id: nat)
    | Renew(id: nat, serialNumber: string)
    | Delete(id: nat)
    | Configure(caId: nat, cdp: bool, delta: bool, interval: nat)
    | Query(job: nat, target: nat, kind: Kind)
    | SelectRows(job: nat)
    | ReadNumber(job: nat)
    | StampTime(job: nat)
    | Commit(job: nat)
    | Abort(job: nat)

  datatype Timed = At(time: Time, event: Event)

  function StepCerts(certs: seq<Cert>, e: Event, at: Time): seq<Cert> {
    match e
    case Issue(id, caref, serial) =>
      if IndexOf(certs, id) < |certs| then certs else certs + [Cert(id, caref, serial, false, None, None)]
    case Revoke(id, reason) =>
      var i := IndexOf(certs, id);
      if i == |certs| || certs[i].revoked then certs
      else certs[i := certs[i].(revoked := true, revokedAt := Some(at), reason := Some(reason))]
    case Unhold(id) =>
      var i := IndexOf(certs, id);
      if i == |certs| || !certs[i].revoked || certs[i].reason !in HOLD_REASONS then certs
      else certs[i := certs[i].(revoked := false, revokedAt := None, reason := None)]
    case Renew(id, serial) =>
      var i := IndexOf(certs, id);
      if i == |certs| then certs
      else certs[i := certs[i].(serialNumber := serial, revoked := false, revokedAt := None, reason := None)]
    case Delete(id) =>
      var i := IndexOf(certs, id);
      if i == |certs| then certs else certs[..i] + certs[i + 1..]
    case _ => certs
  }

  /** Only holds are lifted, under either spelling; renewal clears a revocation; neither touches another row. */
  lemma {:induction false} TakenBackRows(certs: seq<Cert>, id: nat, at: Time, serial: string)
    ensures var i := IndexOf(certs, id); i < |certs| ==>
      var c := certs[i];
      && StepCerts(certs, Unhold(id), at) ==
         (if c.revoked && (c.reason == Some("certificateHold") || c.reason == Some("certificate_hold"))
          then certs[i := Cert(id, c.caref, c.serialNumber, false, None, None)] else certs)
      && StepCerts(certs, Renew(id, serial), at) == certs[i := Cert(id, c.caref, serial, false, None, None)]
      && StepCerts(certs, Delete(id), at) == certs[..i] + certs[i + 1..]
    ensures IndexOf(certs, id) == |certs| ==>
      StepCerts(certs, Unhold(id), at) == certs && StepCerts(certs, Renew(id, serial), at) == certs && StepCerts(certs, Delete(id), at) == certs
  {
  }

  function StepCas(cas: map<nat, Ca>, e: Event): map<nat, Ca> {
    if e.Configure? && e.caId in cas
    then cas[e.caId := cas[e.caId].(cdpEnabled := e.cdp, deltaEnabled := e.delta, deltaInterval := e.interval)]
    else cas
  }

  function StepJobs(db: Db, e: Event, at: Time): map<nat, Job> {
    match e
    case Query(g, caId, kind) =>
      var found := OpenJob(db, caId, kind);
      if g in db.jobs || found.Err? then db.jobs else db.jobs[g := found.value]
    case SelectRows(g) =>
      if g in db.jobs && db.jobs[g].rows.None? && db.jobs[g].caId in db.cas
      then db.jobs[g := db.jobs[g].(rows := Some(SelectedRows(db.certs, db.cas[db.jobs[g].caId].refid, db.jobs[g].base)))]
      else db.jobs
    case ReadNumber(g) =>
      if g in db.jobs && db.jobs[g].rows.Some? && db.jobs[g].number.None?
      then db.jobs[g := db.jobs[g].(number := Some(NextNumber(db.crls, db.jobs[g].caId)))]
      else db.jobs
    case StampTime(g) =>
      if g in db.jobs && db.jobs[g].number.Some? && db.jobs[g].stamp.None?
      then db.jobs[g := db.jobs[g].(stamp := Some(at))]
      else db.jobs
    case Commit(g) => if g in db.jobs && db.jobs[g].Ready() then db.jobs - {g} else db.jobs
    case Abort(g) => db.jobs - {g}
    case _ => db.jobs
  }

  function StepCrls(db: Db, e: Event, at: Time): seq<Crl> {
    if e.Commit? && e.job in db.jobs && db.jobs[e.job].Ready()
    then Insert(db.crls, CrlFrom(db.jobs[e.job], at))
    else db.crls
  }

  function Step(db: Db, t: Timed): Db {
    Db(t.time, StepCas(db.cas, t.event), StepCerts(db.certs, t.event, t.time),
       StepCrls(db, t.event, t.time), StepJobs(db, t.event, t.time))
  }

  function Run(db: Db, es: seq<Timed>): Db {
    if es == [] then db else Step(Run(db, es[..|es| - 1]), es[|es| - 1])
  }

  lemma {:induction false} RunSnoc(db: Db, es: seq<Timed>, t: Timed)
    ensures Run(db, es + [t]) == Step(Run(db, es), t)
  {
    assert (es + [t])[..|es|] == es;
  }

  /** The clock never goes back. */
  predicate Ordered(start: Time, es: seq<Timed>) {
    es == [] || (Ordered(start, es[..|es| - 1])
                 && (if |es| == 1 then start else es[|es| - 2].time) <= es[|es| - 1].time)
  }

  lemma {:induction false} RunClock(db: Db, es: seq<Timed>)
    requires Ordered(db.clock, es)
    ensures Run(db, es).clock == if es == [] then db.clock else es[|es| - 1].time
    ensures es != [] ==> Run(db, es[..|es| - 1]).clock <= es[|es| - 1].time
  {
    if es != [] {
      RunClock(db, es[..|es| - 1]);
    }
  }

  /** Nothing revoked, no CRL made yet and no generator at work. */
  predicate Fresh(db: Db) {
    db.crls == [] && db.jobs == map[] && forall c :: c in db.certs ==> !c.revoked && c.revokedAt.None?
  }

  // ---- one row through a run ----

  /** Row i is c, and the first with its id. */
  predicate HoldsAt(certs: seq<Cert>, c: Cert, i: nat) {
    i < |certs| && certs[i] == c && forall k :: 0 <= k < i ==> certs[k].id != c.id
  }

  ghost predicate Holds(certs: seq<Cert>, c: Cert) { exists i: nat :: HoldsAt(certs, c, i) }

  /** The event leaves the row as it is. */
  predicate Keeps(e: Event, c: Cert) {
    match e
    case Revoke(id, _) => id != c.id || c.revoked
    case Unhold(id) => id != c.id || !c.revoked || (c.reason != Some("certificateHold") && c.reason != Some("certificate_hold"))
    case Renew(id, _) => id != c.id
    case Delete(id) => id != c.id
    case _ => true
  }

  predicate AllKeep(es: seq<Timed>, c: Cert) { forall i :: 0 <= i < |es| ==> Keeps(es[i].event, c) }

  lemma {:induction false} IndexOfHeld(certs: seq<Cert>, c: Cert, i: nat)
    requires HoldsAt(certs, c, i)
    ensures IndexOf(certs, c.id) == i
  {
    if i > 0 {
      assert certs[0].id != c.id;
      IndexOfHeld(certs[1..], c, i - 1);
    }
  }

  lemma {:induction false} RowStays(certs: seq<Cert>, e: Event, at: Time, c: Cert)
    requires Holds(certs, c) && Keeps(e, c)
    ensures Holds(StepCerts(certs, e, at), c)
  {
    var i: nat :| HoldsAt(certs, c, i);
    IndexOfHeld(certs, c, i);
    if e.Delete? {
      RowStaysAtDelete(certs, e, at, c, i);
    } else {
      RowStaysAtChange(certs, e, at, c, i);
    }
  }

  lemma {:induction false} RowStaysAtDelete(certs: seq<Cert>, e: Event, at: Time, c: Cert, i: nat)
    requires HoldsAt(certs, c, i) && IndexOf(certs, c.id) == i && e.Delete? && e.id != c.id
    ensures Holds(StepCerts(certs, e, at), c)
  {
    var k := if IndexOf(certs, e.id) < i then i - 1 else i;
    assert HoldsAt(StepCerts(certs, e, at), c, k);
  }

  lemma {:induction false} RowStaysAtChange(certs: seq<Cert>, e: Event, at: Time, c: Cert, i: nat)
    requires HoldsAt(certs, c, i) && IndexOf(certs, c.id) == i && Keeps(e, c) && !e.Delete?
    ensures Holds(StepCerts(certs, e, at), c)
  {
    assert HoldsAt(StepCerts(certs, e, at), c, i);
  }

  lemma {:induction false} RowStaysInRun(db: Db, es: seq<Timed>, c: Cert)
    requires Holds(db.certs, c) && AllKeep(es, c)
    ensures Holds(Run(db, es).certs, c)
  {
    if es != [] {
      RowStaysInRun(db, es[..|es| - 1], c);
      RowStays(Run(db, es[..|es| - 1]).certs, es[|es| - 1].event, es[|es| - 1].time, c);
    }
  }

  /** A certificate is in the table, unrevoked, from its issue until something happens to it. */
  lemma {:induction false} IssuedStands(db: Db, at: Time, id: nat, caref: string, serial: string, es: seq<Timed>)
    requires forall c :: c in db.certs ==> c.id != id
    requires AllKeep(es, Cert(id, caref, serial, false, None, None))
    ensures Holds(Run(Step(db, At(at, Issue(id, caref, serial))), es).certs, Cert(id, caref, serial, false, None, None))
  {
    var next, c := Step(db, At(at, Issue(id, caref, serial))), Cert(id, caref, serial, false, None, None);
    assert HoldsAt(next.certs, c, |db.certs|);
    RowStaysInRun(next, es, c);
  }

  /** From its revocation until it is taken back, a certificate has the date and the reason of the revocation. */
  lemma {:induction false} RevokedStands(db: Db, at: Time, c: Cert, reason: string, es: seq<Timed>)
    requires Holds(db.certs, c) && !c.revoked
    requires AllKeep(es, Cert(c.id, c.caref, c.serialNumber, true, Some(at), Some(reason)))
    ensures Holds(Run(Step(db, At(at, Revoke(c.id, reason))), es).certs, Cert(c.id, c.caref, c.serialNumber, true, Some(at), Some(reason)))
  {
    var next, d := Step(db, At(at, Revoke(c.id, reason))), Cert(c.id, c.caref, c.serialNumber, true, Some(at), Some(reason));
    var i: nat :| HoldsAt(db.certs, c, i);
    IndexOfHeld(db.certs, c, i);
    assert HoldsAt(next.certs, d, i);
    RowStaysInRun(next, es, d);
  }

  // ---- settings and interrupted generators ----

  /** After the settings are written, a delta of a fitting length is made exactly if they allow it, the authority holds a key
      and a full CRL is there. */
  lemma {:induction false} SettingsDecide(db: Db, at: Time, ca: nat, cdp: bool, delta: bool, interval: nat, hours: int)
    requires ca in db.cas && 1 <= hours <= 720
    ensures var q := Step(db, At(at, Configure(ca, cdp, delta, interval)));
            && (OpenJob(q, ca, Delta(hours)).Ok? <==> cdp && delta && db.cas[ca].hasKey && LatestBase(db.crls, ca).Some?)
            && q.cas == db.cas[ca := Ca(db.cas[ca].refid, db.cas[ca].hasKey, cdp, delta, interval)]
  {
  }

  /** The step is one of generator g, before its commit. */
  predicate OfJob(e: Event, g: nat) {
    (e.Query? || e.SelectRows? || e.ReadNumber? || e.StampTime?) && e.job == g
  }

  /** A generation that is given up, however far it has come, leaves nothing behind but the time. */
  lemma {:induction false} AbortLeavesNothing(db: Db, es: seq<Timed>, g: nat, at: Time)
    requires g !in db.jobs && forall i :: 0 <= i < |es| ==> OfJob(es[i].event, g)
    ensures Run(db, es + [At(at, Abort(g))]) == db.(clock := at)
  {
    OnlyJob(db, es, g);
    RunSnoc(db, es, At(at, Abort(g)));
  }

  lemma {:induction false} OnlyJob(db: Db, es: seq<Timed>, g: nat)
    requires g !in db.jobs && forall i :: 0 <= i < |es| ==> OfJob(es[i].event, g)
    ensures var q := Run(db, es); q.cas == db.cas && q.certs == db.certs && q.crls == db.crls && q.jobs - {g} == db.jobs
  {
    if es != [] {
      OnlyJob(db, es[..|es| - 1], g);
      assert OfJob(es[|es| - 1].event, g);
    }
  }

  // ---- serial numbers as issued and as listed ----

  lemma {:induction false} DecimalHasNoColons(s: string)
    requires AllDigits(s)
    ensures DropColons(s) == s
  {
    if s != [] {
      DecimalHasNoColons(s[..|s| - 1]);
    }
  }

  /** The serial of the line that a row gets: what its text reads as in base 16, cut to 159 bits. */
  lemma {:induction false} EntryOfText(c: Cert, text: string, h: nat, now: Time)
    requires c.serialNumber == text && text != "" && DropColons(text) == text && ReadHex(text) == Some(h)
    ensures EntryOf(c, now).Some? && EntryOf(c, now).value.serial == h % SERIAL_LIMIT
  {
  }

  lemma {:induction false} DecimalEntry(c: Cert, n: nat, now: Time)
    requires c.serialNumber == Decimal(n)
    ensures EntryOf(c, now).Some? && EntryOf(c, now).value.serial == Hexed(n) % SERIAL_LIMIT
  {
    DecimalReadsBack(n);
    DecimalHasNoColons(Decimal(n));
    ReadHexIsHexed(n);
    EntryOfText(c, Decimal(n), Hexed(n), now);
  }

  lemma {:induction false} HexedIsLarger(n: nat)
    ensures Hexed(n) >= n && (Hexed(n) == n <==> n < 10)
  {
    DecimalReadAsHex(n);
    ReadHexIsHexed(n);
  }

  lemma CutSmall(h: nat)
    ensures h % SERIAL_LIMIT < SERIAL_LIMIT
    ensures h < SERIAL_LIMIT ==> h % SERIAL_LIMIT == h
  {
  }

  lemma {:induction false} LowDigitsAgree(n: nat, j: nat)
    requires Hexed(n) % SERIAL_LIMIT == n && j <= 39
    ensures Pow(16, j) > 0 && Pow(10, j) > 0 && n % Pow(16, j) == Hexed(n % Pow(10, j))
  {
    CutKeepsLow(Hexed(n), j);
    LowDigits(n, j);
  }

  /** Issuance stores serial n in decimal and the CRL reads it in hexadecimal and cuts it to 159 bits. Where nothing is
      cut, an entry carries the serial of its certificate exactly for the one-digit serials. In general, however long
      n is, it can only do so where for every j up to 39 the last j decimal digits, read in base 16, are n modulo
      16 to the j. */
  lemma {:induction false} ListedUnderOwnSerialIff(c: Cert, n: nat, now: Time)
    requires c.serialNumber == Decimal(n)
    ensures EntryOf(c, now).Some? && EntryOf(c, now).value.serial == Hexed(n) % SERIAL_LIMIT
    ensures Hexed(n) < SERIAL_LIMIT ==> (EntryOf(c, now).value.serial == n <==> n < 10)
    ensures EntryOf(c, now).value.serial == n ==>
              n < SERIAL_LIMIT
              && forall j: nat :: j <= 39 ==> Pow(16, j) > 0 && Pow(10, j) > 0 && n % Pow(16, j) == Hexed(n % Pow(10, j))
  {
    DecimalEntry(c, n, now);
    HexedIsLarger(n);
    CutSmall(Hexed(n));
    if EntryOf(c, now).value.serial == n {
      forall j: nat | j <= 39 ensures Pow(16, j) > 0 && Pow(10, j) > 0 && n % Pow(16, j) == Hexed(n % Pow(10, j)) {
        LowDigitsAgree(n, j);
      }
    }
  }

  /** Renewal stores the new serial in hexadecimal, and a renewed certificate is listed under its own. */
  lemma {:induction false} RenewedIsListedAsItself(c: Cert, n: nat, now: Time)
    requires c.serialNumber == HexText(n) && n < SERIAL_LIMIT
    ensures EntryOf(c, now).Some? && EntryOf(c, now).value.serial == n
  {
    HexReadsBack(n);
    HexHasNoColons(n);
    EntryOfText(c, HexText(n), n, now);
    CutSmall(n);
  }

  /** So the last decimal digit gives it away: a serial listed as itself leaves the same remainder by 16 and by 10. */
  lemma {:induction false} ListedLastDigit(c: Cert, n: nat, now: Time)
    requires c.serialNumber == Decimal(n) && n % 16 != n % 10
    ensures EntryOf(c, now).Some? && EntryOf(c, now).value.serial != n
  {
    ListedUnderOwnSerialIff(c, n, now);
    assert Pow(16, 1) == 16 && Pow(10, 1) == 10;
  }
}

/** OCSP answers served from a cache beside the certificate table (RFC 6960 sections 2.4 and 4.2.2.1).

    Answering has two steps when nothing usable is cached: the status is looked up, and later the response is
    stamped and stored. Revoking has two as well: the row is committed, then a CRL is made, and only then the cached
    response is dropped. Other requests, revocations and clean-ups may run in between. */
module OcspCache {
  import opened Common
  import opened Rows

  /** `held` is whether the revocation is a hold, the only kind that can be lifted. */
  datatype Cert = Cert(id: nat, ca: nat, serial: nat, revoked: bool, revokedAt: Option<Time>, held: bool)

  /** A revocation without a date is sent with the time of the answer, and is `Revoked(None)` here. */
  datatype Status = Good | Revoked(at: Option<Time>) | Unknown

  datatype Response = Response(status: Status, thisUpdate: Time, nextUpdate: Time, nonce: Option<string>)

  datatype Key = Key(ca: nat, serial: nat)

  /** A lookup whose response is not stored yet. */
  datatype Pending = Pending(key: Key, status: Status, nonce: Option<string>, started: Time)

  datatype Db = Db(clock: Time, certs: seq<Cert>, responders: set<nat>, cache: map<Key, Response>, pending: map<nat, Pending>)

  const LIFE: Time := 24 * HOUR

  function FirstWith(certs: seq<Cert>, serial: nat): (i: nat)
    ensures i <= |certs|
    ensures i < |certs| ==> certs[i].serial == serial
    ensures forall k :: 0 <= k < i ==> certs[k].serial != serial
  {
    if certs == [] || certs[0].serial == serial then 0 else 1 + FirstWith(certs[1..], serial)
  }

  const CERT_ID: Cert -> nat := (c: Cert) => c.id

  function IndexOf(certs: seq<Cert>, id: nat): nat { Find(CERT_ID, certs, id) }

  /** What the certificate table says now. */
  function Lookup(certs: seq<Cert>, serial: nat): Status {
    var i := FirstWith(certs, serial);
    if i == |certs| then Unknown else if certs[i].revoked then Revoked(certs[i].revokedAt) else Good
  }

  predicate Usable(db: Db, key: Key, now: Time) { key in db.cache && !(db.cache[key].nextUpdate < now) }

  datatype Event =
    | Issue(id: nat, ca: nat, serial: nat)
    | Revoke(id: nat, hold: bool)
    | Invalidate(key: Key, works: bool)
    | Unhold(id: nat)
    | DropSerial(serial: nat)
    | Renew(id: nat, serial: nat)
    | Delete(id: nat)
    | Ask(request: nat, key: Key, nonce: Option<string>)
    | Finish(request: nat, storeWorks: bool)
    | Cleanup

  datatype Timed = At(time: Time, event: Event)

  predicate Lifts(c: Cert) { c.revoked && c.held }

  function StepCerts(certs: seq<Cert>, t: Timed): seq<Cert> {
    match t.event
    case Issue(id, ca, serial) => certs + [Cert(id, ca, serial, false, None, false)]
    case Revoke(id, hold) =>
      var i := IndexOf(certs, id);
      if i == |certs| || certs[i].revoked then certs
      else certs[i := certs[i].(revoked := true, revokedAt := Some(t.time), held := hold)]
    case Unhold(id) =>
      var i := IndexOf(certs, id);
      if i == |certs| || !Lifts(certs[i]) then certs
      else certs[i := certs[i].(revoked := false, revokedAt := None, held := false)]
    case Renew(id, serial) =>
      var i := IndexOf(certs, id);
      if i == |certs| then certs
      else certs[i := certs[i].(serial := serial, revoked := false, revokedAt := None, held := false)]
    case Delete(id) =>
      var i := IndexOf(certs, id);
      if i == |certs| then certs else certs[..i] + certs[i + 1..]
    case _ => certs
  }

  function Finished(p: Pending, now: Time): Response { Response(p.status, now, now + LIFE, p.nonce) }

  function StepCache(db: Db, t: Timed): map<Key, Response> {
    match t.event
    case Invalidate(key, works) => if works && key.ca in db.responders then db.cache - {key} else db.cache
    case DropSerial(serial) => map k | k in db.cache && k.serial != serial :: db.cache[k]
    case Finish(g, storeWorks) =>
      if g in db.pending && storeWorks then db.cache[db.pending[g].key := Finished(db.pending[g], t.time)] else db.cache
    case Cleanup => map k | k in db.cache && !(db.cache[k].nextUpdate < t.time) :: db.cache[k]
    case _ => db.cache
  }

  function StepPending(db: Db, t: Timed): map<nat, Pending> {
    match t.event
    case Ask(g, key, nonce) =>
      if g in db.pending || Usable(db, key, t.time) then db.pending
      else db.pending[g := Pending(key, Lookup(db.certs, key.serial), nonce, t.time)]
    case Finish(g, _) => db.pending - {g}
    case _ => db.pending
  }

  function Step(db: Db, t: Timed): Db {
    Db(t.time, StepCerts(db.certs, t), db.responders, StepCache(db, t), StepPending(db, t))
  }

  datatype Answer = Answer(key: Key, response: Response)

  /** The answer this step sends out, if it sends one. */
  function Served(db: Db, t: Timed): Option<Answer> {
    match t.event
    case Ask(_, key, _) => if Usable(db, key, t.time) then Some(Answer(key, db.cache[key])) else None
    case Finish(g, _) => if g in db.pending then Some(Answer(db.pending[g].key, Finished(db.pending[g], t.time))) else None
    case _ => None
  }

  function Run(db: Db, es: seq<Timed>): Db {
    if es == [] then db else Step(Run(db, es[..|es| - 1]), es[|es| - 1])
  }

  predicate Empty(db: Db) { db.cache == map[] && db.pending == map[] }

  /** The clock does not go back, and a response is stored within `latency` of its lookup. */
  predicate Prompt(db: Db, es: seq<Timed>, latency: Time) {
    es == [] ||
    var q, t := Run(db, es[..|es| - 1]), es[|es| - 1];
    && Prompt(db, es[..|es| - 1], latency)
    && q.clock <= t.time
    && (t.event.Finish? && t.event.request in q.pending ==> t.time <= q.pending[t.event.request].started + latency)
  }

  // ---- bounded staleness ----

  /** The certificate table just before a step, and the step's time. */
  datatype Moment = Moment(time: Time, certs: seq<Cert>)

  function Trail(db: Db, es: seq<Timed>): seq<Moment> {
    if es == [] then []
    else Trail(db, es[..|es| - 1]) + [Moment(es[|es| - 1].time, Run(db, es[..|es| - 1]).certs)]
  }

  lemma {:induction false} TrailAt(db: Db, es: seq<Timed>, m: nat)
    requires m < |es|
    ensures |Trail(db, es)| == |es| && Trail(db, es)[m] == Moment(es[m].time, Run(db, es[..m]).certs)
  {
    if |es| > 1 {
      TrailAt(db, es[..|es| - 1], if m < |es| - 1 then m else 0);
    }
    if m < |es| - 1 {
      assert es[..|es| - 1][..m] == es[..m];
    }
  }

  /** Some moment, not before `earliest`, at which a lookup gave this status. */
  ghost predicate Seen(trail: seq<Moment>, serial: nat, status: Status, earliest: Time) {
    exists m :: 0 <= m < |trail| && trail[m].time >= earliest && Lookup(trail[m].certs, serial) == status
  }

  lemma {:induction false} SeenLater(trail: seq<Moment>, x: Moment, serial: nat, status: Status, earliest: Time, bound: Time)
    requires Seen(trail, serial, status, earliest) && bound <= earliest
    ensures Seen(trail + [x], serial, status, bound)
  {
    var m :| 0 <= m < |trail| && trail[m].time >= earliest && Lookup(trail[m].certs, serial) == status;
    assert (trail + [x])[m] == trail[m];
  }

  ghost predicate CacheTraced(trail: seq<Moment>, cache: map<Key, Response>, latency: Time) {
    forall k :: k in cache ==>
      cache[k].nextUpdate == cache[k].thisUpdate + LIFE && Seen(trail, k.serial, cache[k].status, cache[k].thisUpdate - latency)
  }

  ghost predicate PendingTraced(trail: seq<Moment>, pending: map<nat, Pending>) {
    forall g :: g in pending ==> Seen(trail, pending[g].key.serial, pending[g].status, pending[g].started)
  }

  lemma {:induction false} CacheStepTraced(q: Db, t: Timed, trail: seq<Moment>, x: Moment, latency: Time)
    requires CacheTraced(trail, q.cache, latency) && PendingTraced(trail, q.pending)
    requires t.event.Finish? && t.event.request in q.pending ==> t.time <= q.pending[t.event.request].started + latency
    ensures CacheTraced(trail + [x], StepCache(q, t), latency)
  {
    var cache' := StepCache(q, t);
    forall k | k in cache'
      ensures cache'[k].nextUpdate == cache'[k].thisUpdate + LIFE
      ensures Seen(trail + [x], k.serial, cache'[k].status, cache'[k].thisUpdate - latency)
    {
      var r := cache'[k];
      if k in q.cache && r == q.cache[k] {
        SeenLater(trail, x, k.serial, r.status, r.thisUpdate - latency, r.thisUpdate - latency);
      } else {
        SeenLater(trail, x, k.serial, r.status, q.pending[t.event.request].started, r.thisUpdate - latency);
      }
    }
  }

  lemma {:induction false} PendingStepTraced(q: Db, t: Timed, trail: seq<Moment>)
    requires PendingTraced(trail, q.pending)
    ensures PendingTraced(trail + [Moment(t.time, q.certs)], StepPending(q, t))
  {
    var x, pending' := Moment(t.time, q.certs), StepPending(q, t);
    forall g | g in pending' ensures Seen(trail + [x], pending'[g].key.serial, pending'[g].status, pending'[g].started) {
      var p := pending'[g];
      if g in q.pending {
        SeenLater(trail, x, p.key.serial, p.status, p.started, p.started);
      } else {
        assert (trail + [x])[|trail|] == x;
      }
    }
  }

  lemma {:induction false} RunTraced(db: Db, es: seq<Timed>, latency: Time)
    requires Empty(db) && Prompt(db, es, latency)
    ensures CacheTraced(Trail(db, es), Run(db, es).cache, latency) && PendingTraced(Trail(db, es), Run(db, es).pending)
  {
    if es != [] {
      var init, t := es[..|es| - 1], es[|es| - 1];
      RunTraced(db, init, latency);
      CacheStepTraced(Run(db, init), t, Trail(db, init), Moment(t.time, Run(db, init).certs), latency);
      PendingStepTraced(Run(db, init), t, Trail(db, init));
    }
  }

  /** The step's answer, traced to the lookup it came from. */
  lemma {:induction false} ServedTraced(q: Db, t: Timed, trail: seq<Moment>, latency: Time)
    requires CacheTraced(trail, q.cache, latency) && PendingTraced(trail, q.pending)
    requires Served(q, t).Some? && 0 <= latency
    requires t.event.Finish? && t.event.request in q.pending ==> t.time <= q.pending[t.event.request].started + latency
    ensures var a := Served(q, t).value; Seen(trail, a.key.serial, a.response.status, t.time - LIFE - latency)
  {
    var a := Served(q, t).value;
    var earliest := if t.event.Ask? then a.response.thisUpdate - latency else q.pending[t.event.request].started;
    assert Seen(trail, a.key.serial, a.response.status, earliest);
    var m :| 0 <= m < |trail| && trail[m].time >= earliest && Lookup(trail[m].certs, a.key.serial) == a.response.status;
  }

  /** Every answer sent out is what the certificate table said at some lookup of the run, at most 24 hours and
      the storing latency before. */
  lemma {:induction false} AnswersAreRecent(db: Db, es: seq<Timed>, t: Timed, latency: Time) returns (m: nat)
    requires Empty(db) && Prompt(db, es + [t], latency) && Served(Run(db, es), t).Some? && 0 <= latency
    ensures var a := Served(Run(db, es), t).value;
            m < |es| && Lookup(Run(db, es[..m]).certs, a.key.serial) == a.response.status
            && TableSays(Run(db, es[..m]).certs, a.key.serial, a.response.status)
            && t.time <= es[m].time + LIFE + latency
  {
    InitOfSnoc(es, t);
    RunTraced(db, es, latency);
    var trail, q := Trail(db, es), Run(db, es);
    ServedTraced(q, t, trail, latency);
    var a := Served(q, t).value;
    m :| 0 <= m < |trail| && trail[m].time >= t.time - LIFE - latency && Lookup(trail[m].certs, a.key.serial) == a.response.status;
    if es != [] {
      TrailAt(db, es, 0);
    }
    TrailAt(db, es, m);
    LookupSays(Run(db, es[..m]).certs, a.key.serial, a.response.status);
  }

  // ---- revoked certificates ----

  /** The event takes no revocation back: it deletes no row, renews none and lifts no hold. */
  predicate Lasting(e: Event) { !e.Delete? && !e.Unhold? && !e.Renew? }

  /** A revoked certificate stays revoked in the table until a row is deleted or renewed, or a hold lifted. */
  lemma {:induction false} StaysRevoked(certs: seq<Cert>, t: Timed, serial: nat)
    requires Lookup(certs, serial).Revoked? && Lasting(t.event)
    ensures Lookup(StepCerts(certs, t), serial).Revoked?
  {
    var i, certs' := FirstWith(certs, serial), StepCerts(certs, t);
    assert certs'[i].serial == serial;
    FirstIs(certs', serial, i);
  }

  lemma {:induction false} FirstIs(certs: seq<Cert>, serial: nat, i: nat)
    requires i < |certs| && certs[i].serial == serial && forall k :: 0 <= k < i ==> certs[k].serial != serial
    ensures FirstWith(certs, serial) == i
  {
  }

  lemma {:induction false} StaysRevokedInRun(db: Db, es: seq<Timed>, r: nat, serial: nat)
    requires r <= |es| && Lookup(Run(db, es[..r]).certs, serial).Revoked?
    requires forall i :: r <= i < |es| ==> Lasting(es[i].event)
    ensures Lookup(Run(db, es).certs, serial).Revoked?
  {
    if r == |es| {
      assert es[..r] == es;
    } else {
      assert es[..|es| - 1][..r] == es[..r];
      StaysRevokedInRun(db, es[..|es| - 1], r, serial);
      StaysRevoked(Run(db, es[..|es| - 1]).certs, es[|es| - 1], serial);
    }
  }

  lemma {:induction false} TimesGrow(db: Db, es: seq<Timed>, latency: Time, i: nat, j: nat)
    requires Prompt(db, es, latency) && i <= j < |es|
    ensures es[i].time <= es[j].time
  {
    if j == |es| - 1 {
      if i < j {
        TimesGrow(db, es[..j], latency, i, j - 1);
      }
    } else {
      TimesGrow(db, es[..|es| - 1], latency, i, j);
    }
  }

  /** While a certificate stays revoked (from step r on), no answer calls it good more than 24 hours and the storing
      latency after step r, whatever happens to the cache. */
  lemma {:induction false} GoodEndsWithinADay(db: Db, es: seq<Timed>, t: Timed, latency: Time, r: nat)
    requires Empty(db) && Prompt(db, es + [t], latency) && 0 <= latency && r < |es|
    requires Served(Run(db, es), t).Some? && Served(Run(db, es), t).value.response.status == Good
    requires forall m :: r < m < |es| ==> Lookup(Run(db, es[..m]).certs, Served(Run(db, es), t).value.key.serial).Revoked?
    ensures t.time <= es[r].time + LIFE + latency
  {
    var m := AnswersAreRecent(db, es, t, latency);
    assert m <= r;
    InitOfSnoc(es, t);
    TimesGrow(db, es, latency, m, r);
  }

  /** It does stay revoked as long as nothing deletes or renews a row or lifts a hold. */
  lemma {:induction false} GoodEndsUnlessTakenBack(db: Db, es: seq<Timed>, t: Timed, latency: Time, r: nat)
    requires Empty(db) && Prompt(db, es + [t], latency) && 0 <= latency
    requires r < |es| && (forall i :: r < i < |es| ==> Lasting(es[i].event))
    requires Served(Run(db, es), t).Some? && Served(Run(db, es), t).value.response.status == Good
    requires Lookup(Run(db, es[..r + 1]).certs, Served(Run(db, es), t).value.key.serial).Revoked?
    ensures t.time <= es[r].time + LIFE + latency
  {
    var serial := Served(Run(db, es), t).value.key.serial;
    forall m | r < m < |es| ensures Lookup(Run(db, es[..m]).certs, serial).Revoked? {
      assert es[..m][..r + 1] == es[..r + 1];
      StaysRevokedInRun(db, es[..m], r + 1, serial);
    }
    GoodEndsWithinADay(db, es, t, latency, r);
  }

  // ---- working invalidation ----

  /** Nothing that could still be sent for this key says good. */
  ghost predicate NeverGood(db: Db, key: Key) {
    && Lookup(db.certs, key.serial).Revoked?
    && (key in db.cache ==> db.cache[key].status != Good)
    && forall g :: g in db.pending && db.pending[g].key == key ==> db.pending[g].status != Good
  }

  lemma {:induction false} NeverGoodStep(db: Db, t: Timed, key: Key)
    requires NeverGood(db, key) && Lasting(t.event)
    ensures NeverGood(Step(db, t), key)
    ensures Served(db, t).Some? && Served(db, t).value.key == key ==> Served(db, t).value.response.status != Good
  {
    StaysRevoked(db.certs, t, key.serial);
  }

  /** Dropping the cached response of a revoked certificate, with no good answer for it in the making. */
  lemma {:induction false} InvalidationClears(db: Db, key: Key, now: Time)
    requires Lookup(db.certs, key.serial).Revoked? && key.ca in db.responders
    requires forall g :: g in db.pending && db.pending[g].key == key ==> db.pending[g].status != Good
    ensures NeverGood(Step(db, At(now, Invalidate(key, true))), key)
  {
  }

  /** After that no continuation ever calls the certificate good. */
  lemma {:induction false} NoGoodAfterInvalidation(db: Db, key: Key, now: Time, es: seq<Timed>, t: Timed)
    requires Lookup(db.certs, key.serial).Revoked? && key.ca in db.responders
    requires forall g :: g in db.pending && db.pending[g].key == key ==> db.pending[g].status != Good
    requires forall i :: 0 <= i < |es| ==> Lasting(es[i].event)
    ensures var q := Run(Step(db, At(now, Invalidate(key, true))), es);
            Served(q, t).Some? && Served(q, t).value.key == key ==> Served(q, t).value.response.status != Good
  {
    InvalidationClears(db, key, now);
    NeverGoodRun(Step(db, At(now, Invalidate(key, true))), es, key);
  }

  /** The first row with a serial, once revoked, is what the table says from then on. */
  lemma {:induction false} RevokedFromThenOn(db: Db, id: nat, hold: bool, now: Time, es: seq<Timed>)
    requires IndexOf(db.certs, id) < |db.certs| && !db.certs[IndexOf(db.certs, id)].revoked
    requires FirstWith(db.certs, db.certs[IndexOf(db.certs, id)].serial) == IndexOf(db.certs, id)
    requires forall i :: 0 <= i < |es| ==> Lasting(es[i].event)
    ensures Lookup(Run(Step(db, At(now, Revoke(id, hold))), es).certs, db.certs[IndexOf(db.certs, id)].serial).Revoked?
  {
    var i := IndexOf(db.certs, id);
    var first := Step(db, At(now, Revoke(id, hold)));
    FirstIs(first.certs, db.certs[i].serial, i);
    assert es[..0] == [] && Run(first, es[..0]) == first;
    StaysRevokedInRun(first, es, 0, db.certs[i].serial);
  }

  /** Between the commit of a revocation and the invalidation, a cached good answer is still sent, whatever else happens to
      other certificates. */
  lemma {:induction false} WindowStillSaysGood(db: Db, id: nat, hold: bool, now: Time, later: Time, request: nat, key: Key, nonce: Option<string>)
    requires Usable(db, key, later) && db.cache[key].status == Good
    ensures var q := Step(db, At(now, Revoke(id, hold)));
            Served(q, At(later, Ask(request, key, nonce))) == Some(Answer(key, db.cache[key]))
  {
  }

  lemma {:induction false} NeverGoodRun(db: Db, es: seq<Timed>, key: Key)
    requires NeverGood(db, key) && forall i :: 0 <= i < |es| ==> Lasting(es[i].event)
    ensures NeverGood(Run(db, es), key)
  {
    if es != [] {
      NeverGoodRun(db, es[..|es| - 1], key);
      NeverGoodStep(Run(db, es[..|es| - 1]), es[|es| - 1], key);
    }
  }

  /** The answer in the making matters: stored after the invalidation, it is good for another day. */
  lemma {:induction false} InFlightAnswerSurvives(db: Db, g: nat, key: Key, now: Time)
    requires g in db.pending && db.pending[g].key == key && db.pending[g].status == Good
    ensures var q := Step(Step(db, At(now, Invalidate(key, true))), At(now, Finish(g, true)));
            Usable(q, key, now + LIFE) && q.cache[key].status == Good
  {
  }

  /** Renewing a revoked certificate in place makes the responder forget its old serial. */
  lemma {:induction false} RenewedSerialIsUnknown(certs: seq<Cert>, t: Timed, serial: nat)
    requires t.event.Renew? && t.event.serial != serial
    requires forall k :: 0 <= k < |certs| && k != IndexOf(certs, t.event.id) ==> certs[k].serial != serial
    ensures Lookup(StepCerts(certs, t), serial) == Unknown
  {
    forall k | 0 <= k < |StepCerts(certs, t)| ensures StepCerts(certs, t)[k].serial != serial {}
  }

  /** Some continuation that takes nothing back sends the answer "good" for the key. */
  ghost predicate SendsGood(q: Db, key: Key) {
    exists es, t :: GoodSent(q, key, es, t)
  }

  ghost predicate GoodSent(q: Db, key: Key, es: seq<Timed>, t: Timed) {
    && (forall i :: 0 <= i < |es| ==> Lasting(es[i].event))
    && Served(Run(q, es), t).Some? && Served(Run(q, es), t).value.key == key && Served(Run(q, es), t).value.response.status == Good
  }

  /** After a working invalidation, "good" can still be sent for a revoked certificate if and only if an answer saying so was
      in the making at that moment. */
  lemma {:induction false} GoodIsSentLaterIff(db: Db, key: Key, now: Time)
    requires Lookup(db.certs, key.serial).Revoked? && key.ca in db.responders
    ensures SendsGood(Step(db, At(now, Invalidate(key, true))), key) <==>
            exists g :: g in db.pending && db.pending[g].key == key && db.pending[g].status == Good
  {
    var q := Step(db, At(now, Invalidate(key, true)));
    if g :| g in db.pending && db.pending[g].key == key && db.pending[g].status == Good {
      assert Run(q, []) == q;
      assert GoodSent(q, key, [], At(now, Finish(g, true)));
    } else {
      forall es: seq<Timed>, t: Timed ensures !GoodSent(q, key, es, t) {
        if forall i :: 0 <= i < |es| ==> Lasting(es[i].event) {
          NoGoodAfterInvalidation(db, key, now, es, t);
        }
      }
    }
  }

  // ---- what a fresh answer says ----

  /** Row i is the first with the serial. */
  predicate First(certs: seq<Cert>, serial: nat, i: nat) {
    i < |certs| && certs[i].serial == serial && forall k :: 0 <= k < i ==> certs[k].serial != serial
  }

  /** The status that RFC 6960 section 2.2 asks for, read off the rows. */
  ghost predicate TableSays(certs: seq<Cert>, serial: nat, status: Status) {
    match status
    case Unknown => forall k :: 0 <= k < |certs| ==> certs[k].serial != serial
    case Good => exists i: nat :: First(certs, serial, i) && !certs[i].revoked
    case Revoked(at) => exists i: nat :: First(certs, serial, i) && certs[i].revoked && certs[i].revokedAt == at
  }

  lemma {:induction false} LookupSays(certs: seq<Cert>, serial: nat, status: Status)
    ensures TableSays(certs, serial, status) <==> Lookup(certs, serial) == status
  {
    var i := FirstWith(certs, serial);
    if i < |certs| {
      assert First(certs, serial, i);
      forall j: nat | First(certs, serial, j) ensures j == i {
        FirstIs(certs, serial, j);
      }
    }
  }

  /** Whatever request meets no usable cached response is answered with this status, for 24 hours from its sending. */
  ghost predicate FreshlySays(q: Db, key: Key, status: Status) {
    forall g, nonce, asked, sent, works :: Unanswered(q, g, key, asked) ==>
      FreshAnswer(q, g, key, nonce, asked, sent, works) == Some(Answer(key, Response(status, sent, sent + 24 * HOUR, nonce)))
  }

  predicate Unanswered(q: Db, g: nat, key: Key, asked: Time) {
    g !in q.pending && (key in q.cache ==> q.cache[key].nextUpdate < asked)
  }

  function FreshAnswer(q: Db, g: nat, key: Key, nonce: Option<string>, asked: Time, sent: Time, works: bool): Option<Answer> {
    Served(Step(q, At(asked, Ask(g, key, nonce))), At(sent, Finish(g, works)))
  }

  lemma {:induction false} FreshIsTable(q: Db, key: Key, status: Status)
    requires TableSays(q.certs, key.serial, status)
    ensures FreshlySays(q, key, status)
  {
    LookupSays(q.certs, key.serial, status);
  }

  /** Row `c` is in the table, first with its serial and first with its id. */
  ghost predicate Holds(certs: seq<Cert>, c: Cert) {
    exists i: nat :: HoldsAt(certs, c, i)
  }

  predicate HoldsAt(certs: seq<Cert>, c: Cert, i: nat) {
    i < |certs| && certs[i] == c && forall k :: 0 <= k < i ==> certs[k].serial != c.serial && certs[k].id != c.id
  }

  /** The event leaves the row as it is, and gives its serial to no other. */
  predicate Keeps(e: Event, c: Cert) {
    match e
    case Revoke(id, _) => id != c.id || c.revoked
    case Unhold(id) => id != c.id || !c.revoked || !c.held
    case Renew(id, serial) => id != c.id && serial != c.serial
    case Delete(id) => id != c.id
    case _ => true
  }

  predicate AllKeep(es: seq<Timed>, c: Cert) { forall i :: 0 <= i < |es| ==> Keeps(es[i].event, c) }

  lemma {:induction false} IndexOfHeld(certs: seq<Cert>, c: Cert, i: nat)
    requires HoldsAt(certs, c, i)
    ensures IndexOf(certs, c.id) == i
  {
    FindPresent(CERT_ID, certs, i);
    assert CERT_ID(certs[i]) == c.id;
  }

  lemma {:induction false} RowStays(certs: seq<Cert>, t: Timed, c: Cert)
    requires Holds(certs, c) && Keeps(t.event, c)
    ensures Holds(StepCerts(certs, t), c)
  {
    var i: nat :| HoldsAt(certs, c, i);
    IndexOfHeld(certs, c, i);
    var at := if t.event.Delete? && IndexOf(certs, t.event.id) < i then i - 1 else i;
    assert HoldsAt(StepCerts(certs, t), c, at);
  }

  lemma {:induction false} RowStaysInRun(db: Db, es: seq<Timed>, c: Cert)
    requires Holds(db.certs, c) && AllKeep(es, c)
    ensures Holds(Run(db, es).certs, c)
  {
    if es != [] {
      RowStaysInRun(db, es[..|es| - 1], c);
      RowStays(Run(db, es[..|es| - 1]).certs, es[|es| - 1], c);
    }
  }

  lemma {:induction false} HeldSays(certs: seq<Cert>, c: Cert)
    requires Holds(certs, c)
    ensures TableSays(certs, c.serial, if c.revoked then Revoked(c.revokedAt) else Good)
  {
    var i: nat :| HoldsAt(certs, c, i);
    assert First(certs, c.serial, i);
  }

  /** What every continuation that leaves the row alone answers for its serial. */
  lemma {:induction false} RowDecides(db: Db, c: Cert, es: seq<Timed>, key: Key)
    requires Holds(db.certs, c) && AllKeep(es, c) && key.serial == c.serial
    ensures FreshlySays(Run(db, es), key, if c.revoked then Revoked(c.revokedAt) else Good)
  {
    RowStaysInRun(db, es, c);
    HeldSays(Run(db, es).certs, c);
    FreshIsTable(Run(db, es), key, if c.revoked then Revoked(c.revokedAt) else Good);
  }

  /** A certificate under a new serial and a new id is good until it is revoked, renewed or deleted. */
  lemma {:induction false} IssuedIsGood(db: Db, id: nat, ca: nat, serial: nat, now: Time, es: seq<Timed>, key: Key)
    requires forall k :: 0 <= k < |db.certs| ==> db.certs[k].id != id && db.certs[k].serial != serial
    requires AllKeep(es, Cert(id, ca, serial, false, None, false)) && key.serial == serial
    ensures FreshlySays(Run(Step(db, At(now, Issue(id, ca, serial))), es), key, Good)
  {
    var c, first := Cert(id, ca, serial, false, None, false), Step(db, At(now, Issue(id, ca, serial)));
    assert HoldsAt(first.certs, c, |db.certs|);
    RowDecides(first, c, es, key);
  }

  /** A revoked one is answered as revoked at that time, until a hold is lifted or the row renewed or deleted. */
  lemma {:induction false} RevokedSaysWhen(db: Db, c: Cert, hold: bool, now: Time, es: seq<Timed>, key: Key)
    requires Holds(db.certs, c) && !c.revoked && key.serial == c.serial
    requires AllKeep(es, c.(revoked := true, revokedAt := Some(now), held := hold))
    ensures FreshlySays(Run(Step(db, At(now, Revoke(c.id, hold))), es), key, Revoked(Some(now)))
  {
    var i: nat :| HoldsAt(db.certs, c, i);
    IndexOfHeld(db.certs, c, i);
    var d, first := c.(revoked := true, revokedAt := Some(now), held := hold), Step(db, At(now, Revoke(c.id, hold)));
    assert HoldsAt(first.certs, d, i);
    RowDecides(first, d, es, key);
  }

  /** A lifted hold leaves the certificate good again; any other revocation is not lifted. */
  lemma {:induction false} LiftedIsGood(db: Db, c: Cert, now: Time, es: seq<Timed>, key: Key)
    requires Holds(db.certs, c) && c.revoked && key.serial == c.serial
    requires AllKeep(es, if c.held then c.(revoked := false, revokedAt := None, held := false) else c)
    ensures FreshlySays(Run(Step(db, At(now, Unhold(c.id))), es), key, if c.held then Good else Revoked(c.revokedAt))
  {
    var i: nat :| HoldsAt(db.certs, c, i);
    IndexOfHeld(db.certs, c, i);
    var d := if c.held then c.(revoked := false, revokedAt := None, held := false) else c;
    var first := Step(db, At(now, Unhold(c.id)));
    assert HoldsAt(first.certs, d, i);
    RowDecides(first, d, es, key);
  }

  /** A renewed one is good under its new serial, if that is new. */
  lemma {:induction false} RenewedIsGood(db: Db, c: Cert, serial: nat, now: Time, es: seq<Timed>, key: Key)
    requires Holds(db.certs, c) && (forall k :: 0 <= k < |db.certs| ==> db.certs[k].serial != serial) && key.serial == serial
    requires AllKeep(es, Cert(c.id, c.ca, serial, false, None, false))
    ensures FreshlySays(Run(Step(db, At(now, Renew(c.id, serial))), es), key, Good)
  {
    var i: nat :| HoldsAt(db.certs, c, i);
    IndexOfHeld(db.certs, c, i);
    var d, first := Cert(c.id, c.ca, serial, false, None, false), Step(db, At(now, Renew(c.id, serial)));
    assert HoldsAt(first.certs, d, i);
    RowDecides(first, d, es, key);
  }

  /** The event gives no row this serial. */
  predicate Withholds(e: Event, serial: nat) { (e.Issue? || e.Renew?) ==> e.serial != serial }

  lemma {:induction false} StaysAbsent(db: Db, es: seq<Timed>, serial: nat)
    requires TableSays(db.certs, serial, Unknown) && forall i :: 0 <= i < |es| ==> Withholds(es[i].event, serial)
    ensures TableSays(Run(db, es).certs, serial, Unknown)
  {
    if es != [] {
      StaysAbsent(db, es[..|es| - 1], serial);
      var certs, t := Run(db, es[..|es| - 1]).certs, es[|es| - 1];
      assert Withholds(t.event, serial);
      forall k | 0 <= k < |StepCerts(certs, t)| ensures StepCerts(certs, t)[k].serial != serial {}
    }
  }

  /** A serial that no row has is unknown as long as no row gets it. */
  lemma {:induction false} AbsentIsUnknown(db: Db, serial: nat, es: seq<Timed>, key: Key)
    requires (forall k :: 0 <= k < |db.certs| ==> db.certs[k].serial != serial) && key.serial == serial
    requires forall i :: 0 <= i < |es| ==> Withholds(es[i].event, serial)
    ensures FreshlySays(Run(db, es), key, Unknown)
  {
    StaysAbsent(db, es, serial);
    FreshIsTable(Run(db, es), key, Unknown);
  }

  /** A deleted one is unknown, if no other row has its serial. */
  lemma {:induction false} DeletedIsUnknown(db: Db, c: Cert, now: Time, es: seq<Timed>, key: Key)
    requires Holds(db.certs, c) && key.serial == c.serial
    requires forall k :: 0 <= k < |db.certs| && db.certs[k].id != c.id ==> db.certs[k].serial != c.serial
    requires forall k, n :: 0 <= k < n < |db.certs| ==> db.certs[k].id != db.certs[n].id
    requires forall i :: 0 <= i < |es| ==> Withholds(es[i].event, c.serial)
    ensures FreshlySays(Run(Step(db, At(now, Delete(c.id))), es), key, Unknown)
  {
    var i: nat :| HoldsAt(db.certs, c, i);
    IndexOfHeld(db.certs, c, i);
    var first := Step(db, At(now, Delete(c.id)));
    forall k | 0 <= k < |first.certs| ensures first.certs[k].serial != c.serial {
      assert first.certs[k] == db.certs[if k < i then k else k + 1];
      assert db.certs[i].id == c.id && db.certs[if k < i then k else k + 1].id != c.id;
    }
    AbsentIsUnknown(first, c.serial, es, key);
  }

  // ---- what the cache gives back ----

  /** The event neither drops the cached response of the key nor stores another. */
  predicate Spares(db: Db, e: Event, key: Key) {
    match e
    case Invalidate(k, works) => k != key || !works || k.ca !in db.responders
    case DropSerial(serial) => serial != key.serial
    case Finish(g, works) => !works || g !in db.pending || db.pending[g].key != key
    case _ => true
  }

  ghost predicate SparedBy(db: Db, es: seq<Timed>, key: Key) {
    forall i :: 0 <= i < |es| ==> Spares(Run(db, es[..i]), es[i].event, key)
  }

  lemma {:induction false} CachedStays(db: Db, es: seq<Timed>, key: Key, r: Response)
    requires key in db.cache && db.cache[key] == r && SparedBy(db, es, key)
    requires forall i :: 0 <= i < |es| ==> es[i].time <= r.nextUpdate
    ensures key in Run(db, es).cache && Run(db, es).cache[key] == r
  {
    if es != [] {
      var init := es[..|es| - 1];
      forall i | 0 <= i < |init| ensures Spares(Run(db, init[..i]), init[i].event, key) {
        assert init[..i] == es[..i] && Spares(Run(db, es[..i]), es[i].event, key);
      }
      CachedStays(db, init, key, r);
      assert es[..|es| - 1] == init && Spares(Run(db, init), es[|es| - 1].event, key);
    }
  }

  /** A response that was stored is what every later request within its 24 hours gets, until it is dropped or replaced. */
  lemma {:induction false} StoredIsServed(db: Db, g: nat, sent: Time, es: seq<Timed>, request: nat, nonce: Option<string>, asked: Time)
    requires g in db.pending && asked <= sent + 24 * HOUR
    requires SparedBy(Step(db, At(sent, Finish(g, true))), es, db.pending[g].key)
    requires forall i :: 0 <= i < |es| ==> es[i].time <= sent + 24 * HOUR
    ensures var first := At(sent, Finish(g, true));
      && Served(db, first).Some?
      && Served(Run(Step(db, first), es), At(asked, Ask(request, db.pending[g].key, nonce))) == Served(db, first)
  {
    var p := db.pending[g];
    CachedStays(Step(db, At(sent, Finish(g, true))), es, p.key, Finished(p, sent));
  }

  // ---- clean-up ----

  /** Two databases that differ only in cache rows already expired. */
  ghost predicate SameLive(a: Db, b: Db) {
    && a.clock == b.clock && a.certs == b.certs && a.responders == b.responders && a.pending == b.pending
    && forall k :: (Usable(a, k, a.clock) <==> Usable(b, k, b.clock)) && (Usable(a, k, a.clock) ==> a.cache[k] == b.cache[k])
  }

  lemma {:induction false} UsableLater(a: Db, b: Db, k: Key, now: Time)
    requires SameLive(a, b) && a.clock <= now
    ensures Usable(a, k, now) <==> Usable(b, k, now)
    ensures Usable(a, k, now) ==> a.cache[k] == b.cache[k]
  {
    assert Usable(a, k, now) ==> Usable(a, k, a.clock);
    assert Usable(b, k, now) ==> Usable(b, k, b.clock);
  }

  lemma {:induction false} SameLiveServed(a: Db, b: Db, t: Timed)
    requires SameLive(a, b) && a.clock <= t.time
    ensures Served(a, t) == Served(b, t) && StepPending(a, t) == StepPending(b, t)
  {
    if t.event.Ask? {
      UsableLater(a, b, t.event.key, t.time);
    }
  }

  lemma {:induction false} SameLiveKey(a: Db, b: Db, t: Timed, k: Key)
    requires SameLive(a, b) && a.clock <= t.time
    ensures Usable(Step(a, t), k, t.time) <==> Usable(Step(b, t), k, t.time)
    ensures Usable(Step(a, t), k, t.time) ==> Step(a, t).cache[k] == Step(b, t).cache[k]
  {
    UsableLater(a, b, k, t.time);
  }

  lemma {:induction false} SameLiveStep(a: Db, b: Db, t: Timed)
    requires SameLive(a, b) && a.clock <= t.time
    ensures Served(a, t) == Served(b, t) && SameLive(Step(a, t), Step(b, t))
  {
    SameLiveServed(a, b, t);
    var x, y := Step(a, t), Step(b, t);
    forall k ensures (Usable(x, k, x.clock) <==> Usable(y, k, y.clock)) && (Usable(x, k, x.clock) ==> x.cache[k] == y.cache[k]) {
      SameLiveKey(a, b, t, k);
    }
  }

  /** The answers a continuation sends out, in order. */
  function Answers(db: Db, es: seq<Timed>): seq<Option<Answer>>
    decreases |es|
  {
    if es == [] then [] else [Served(db, es[0])] + Answers(Step(db, es[0]), es[1..])
  }

  predicate Forward(clock: Time, es: seq<Timed>)
    decreases |es|
  {
    es == [] || (clock <= es[0].time && Forward(es[0].time, es[1..]))
  }

  lemma {:induction false} SameLiveAnswers(a: Db, b: Db, es: seq<Timed>)
    requires SameLive(a, b) && Forward(a.clock, es)
    ensures Answers(a, es) == Answers(b, es)
    decreases |es|
  {
    if es != [] {
      SameLiveStep(a, b, es[0]);
      SameLiveAnswers(Step(a, es[0]), Step(b, es[0]), es[1..]);
    }
  }

  /** Cleaning up keeps exactly the responses whose nextUpdate is not past. */
  lemma {:induction false} CleanupKeepsTheLive(db: Db, now: Time, key: Key)
    ensures var q := Step(db, At(now, Cleanup));
      && (key in q.cache <==> key in db.cache && now <= db.cache[key].nextUpdate)
      && (key in q.cache ==> q.cache[key] == db.cache[key])
      && q.certs == db.certs && q.pending == db.pending
  {
  }

  /** Removing expired rows changes no later answer. */
  lemma {:induction false} CleanupIsInvisible(db: Db, now: Time, es: seq<Timed>)
    requires db.clock <= now && Forward(now, es)
    ensures Answers(Step(db, At(now, Cleanup)), es) == Answers(db.(clock := now), es)
  {
    SameLiveAnswers(Step(db, At(now, Cleanup)), db.(clock := now), es);
  }
}

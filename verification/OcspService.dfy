/** The OCSP responder as the program runs it: a certificate table, a response cache, one request at a time. */
module OcspService {
  import opened Common
  import opened OcspCache

  /** A request answered at one instant. */
  function Asked(db: Db, key: Key, nonce: Option<string>, now: Time, storeWorks: bool): Db {
    Step(Step(db, At(now, Ask(0, key, nonce))), At(now, Finish(0, storeWorks)))
  }

  /** The answer to a request answered at one instant: from the cache, or from the table. */
  function AnswerTo(db: Db, key: Key, nonce: Option<string>, now: Time): Response {
    if Usable(db, key, now) then db.cache[key] else Response(Lookup(db.certs, key.serial), now, now + LIFE, nonce)
  }

  lemma {:induction false} AskedIsServed(db: Db, key: Key, nonce: Option<string>, now: Time, storeWorks: bool)
    requires db.pending == map[]
    ensures var ask := At(now, Ask(0, key, nonce));
            Some(Answer(key, AnswerTo(db, key, nonce, now))) ==
            if Usable(db, key, now) then Served(db, ask) else Served(Step(db, ask), At(now, Finish(0, storeWorks)))
    ensures Asked(db, key, nonce, now, storeWorks) ==
            db.(clock := now, cache := if Usable(db, key, now) || !storeWorks then db.cache
                                       else db.cache[key := AnswerTo(db, key, nonce, now)])
  {
    var q := Step(db, At(now, Ask(0, key, nonce)));
    assert q.pending - {0} == map[];
  }

  class OcspService {
    var clock: Time
    var certs: seq<Cert>
    var responders: set<nat>
    var cache: map<Key, Response>

    function State(): Db
      reads this
    {
      Db(clock, certs, responders, cache, map[])
    }

    constructor (responders: set<nat>, now: Time)
      ensures Empty(State()) && certs == [] && this.responders == responders && clock == now
    {
      clock, certs, cache := now, [], map[];
      this.responders := responders;
    }

    /** Status of a serial number, from the first matching row. */
    method DetermineStatus(serial: nat, now: Time) returns (status: Status)
      ensures status == Lookup(certs, serial) && TableSays(certs, serial, status)
    {
      var i := 0;
      while i < |certs| && certs[i].serial != serial
        invariant i <= |certs| && forall k :: 0 <= k < i ==> certs[k].serial != serial
      {
        i := i + 1;
      }
      if i < |certs| {
        FirstIs(certs, serial, i);
        assert First(certs, serial, i);
      }
      if i == |certs| {
        status := Unknown;
      } else if certs[i].revoked {
        status := Revoked(certs[i].revokedAt);
      } else {
        status := Good;
      }
    }

    method GetCachedResponse(key: Key, now: Time) returns (r: Option<Response>)
      ensures r == if Usable(State(), key, now) then Some(cache[key]) else None
    {
      if key !in cache { return None; }
      if cache[key].nextUpdate < now { return None; }
      return Some(cache[key]);
    }

    method GenerateResponse(key: Key, nonce: Option<string>, now: Time, storeWorks: bool) returns (r: Response)
      modifies `cache
      ensures r == Response(Lookup(certs, key.serial), now, now + LIFE, nonce) && TableSays(certs, key.serial, r.status)
      ensures cache == if storeWorks then old(cache)[key := r] else old(cache)
    {
      var status := DetermineStatus(key.serial, now);
      r := Response(status, now, now + LIFE, nonce);
      if storeWorks {
        cache := cache[key := r];
      }
    }

    /** A request to a responder that is switched on gets the cached response, or a fresh one. */
    method ProcessRequest(key: Key, nonce: Option<string>, now: Time, storeWorks: bool) returns (r: Option<Response>)
      modifies `cache, `clock
      ensures key.ca !in responders ==> r == None && cache == old(cache) && clock == old(clock)
      ensures key.ca in responders ==>
        r == Some(AnswerTo(old(State()), key, nonce, now)) && State() == Asked(old(State()), key, nonce, now, storeWorks)
      ensures key.ca in responders ==>
        if key in old(cache) && now <= old(cache)[key].nextUpdate then r == Some(old(cache)[key]) && cache == old(cache)
        else && r.Some? && TableSays(certs, key.serial, r.value.status)
             && r.value.thisUpdate == now && r.value.nextUpdate == now + 24 * HOUR && r.value.nonce == nonce
             && cache == if storeWorks then old(cache)[key := r.value] else old(cache)
    {
      if key.ca !in responders { return None; }
      AskedIsServed(State(), key, nonce, now, storeWorks);
      r := GetCachedResponse(key, now);
      if r.None? {
        var made := GenerateResponse(key, nonce, now, storeWorks);
        r := Some(made);
      }
      clock := now;
    }

    method CleanupExpiredResponses(now: Time) returns (removed: nat)
      modifies `cache, `clock
      ensures State() == Step(old(State()), At(now, Cleanup))
      ensures forall k :: k in cache <==> k in old(cache) && now <= old(cache)[k].nextUpdate
      ensures forall k :: k in cache ==> cache[k] == old(cache)[k]
      ensures removed == |set k | k in old(cache) && old(cache)[k].nextUpdate < now|
    {
      var kept := map k | k in cache && !(cache[k].nextUpdate < now) :: cache[k];
      ghost var expired := set k | k in cache && cache[k].nextUpdate < now;
      assert kept.Keys !! expired && kept.Keys + expired == cache.Keys;
      removed := |cache.Keys| - |kept.Keys|;
      cache := kept;
      clock := now;
    }

    /** Revocation at `now`, then at `later` removal of the cached response; a failed removal does not undo the
        revocation. */
    method RevokeCertificate(id: nat, hold: bool, now: Time, later: Time, invalidationWorks: bool) returns (ok: bool)
      modifies this
      ensures ok <==> IndexOf(old(certs), id) < |old(certs)| && !old(certs)[IndexOf(old(certs), id)].revoked
      ensures var revoked := Step(old(State()), At(now, Revoke(id, hold)));
              if ok && old(certs)[IndexOf(old(certs), id)].ca in responders
              then var c := old(certs)[IndexOf(old(certs), id)];
                   State() == Step(revoked, At(later, Invalidate(Key(c.ca, c.serial), invalidationWorks)))
              else State() == revoked
      ensures forall k :: 0 <= k < |certs| && (!ok || k != IndexOf(old(certs), id)) ==> certs[k] == old(certs)[k]
      ensures |certs| == |old(certs)|
      ensures ok ==> certs[IndexOf(old(certs), id)] == old(certs)[IndexOf(old(certs), id)].(revoked := true, revokedAt := Some(now), held := hold)
      ensures cache == if ok && invalidationWorks && old(certs)[IndexOf(old(certs), id)].ca in responders
                       then old(cache) - {Key(old(certs)[IndexOf(old(certs), id)].ca, old(certs)[IndexOf(old(certs), id)].serial)}
                       else old(cache)
    {
      clock := now;
      var i := IndexOf(certs, id);
      if i == |certs| || certs[i].revoked { return false; }
      certs := certs[i := certs[i].(revoked := true, revokedAt := Some(now), held := hold)];
      if certs[i].ca in responders {
        clock := later;
        if invalidationWorks {
          cache := cache - {Key(certs[i].ca, certs[i].serial)};
        }
      }
      return true;
    }

    /** Lifting a hold; where what follows the commit is reached, every cached response for the serial number is dropped. */
    method Unhold(id: nat, now: Time, later: Time, reached: bool) returns (ok: bool)
      modifies this
      ensures ok <==> IndexOf(old(certs), id) < |old(certs)| && Lifts(old(certs)[IndexOf(old(certs), id)])
      ensures var lifted := Step(old(State()), At(now, OcspCache.Unhold(id)));
              State() == if ok && reached then Step(lifted, At(later, DropSerial(old(certs)[IndexOf(old(certs), id)].serial))) else lifted
      ensures ok ==> certs == old(certs)[IndexOf(old(certs), id) :=
                       old(certs)[IndexOf(old(certs), id)].(revoked := false, revokedAt := None, held := false)]
      ensures !ok ==> certs == old(certs) && cache == old(cache)
      ensures ok ==> forall k :: k in cache <==> k in old(cache) && (reached ==> k.serial != old(certs)[IndexOf(old(certs), id)].serial)
      ensures forall k :: k in cache ==> cache[k] == old(cache)[k]
    {
      clock := now;
      var i := IndexOf(certs, id);
      if i == |certs| || !certs[i].revoked || !certs[i].held { return false; }
      certs := certs[i := certs[i].(revoked := false, revokedAt := None, held := false)];
      if reached {
        clock := later;
        cache := map k | k in cache && k.serial != certs[i].serial :: cache[k];
      }
      return true;
    }

    /** Renewal in place: a new serial number, no revocation, and the cached responses left alone. */
    method Renew(id: nat, serial: nat, now: Time) returns (ok: bool)
      modifies this
      ensures ok <==> IndexOf(old(certs), id) < |old(certs)|
      ensures State() == Step(old(State()), At(now, OcspCache.Renew(id, serial)))
      ensures ok ==> certs[IndexOf(old(certs), id)].serial == serial && !certs[IndexOf(old(certs), id)].revoked && cache == old(cache)
    {
      clock := now;
      var i := IndexOf(certs, id);
      if i == |certs| { return false; }
      certs := certs[i := certs[i].(serial := serial, revoked := false, revokedAt := None, held := false)];
      return true;
    }
  }
}

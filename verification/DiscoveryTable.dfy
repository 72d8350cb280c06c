/** Saving scan results into the table keyed by target, port and SNI name. */
module DiscoveryTable {
  import opened Common
  import opened Rows

  datatype Key = Key(target: string, port: nat, sni: string)

  /** What a probe learnt about the served certificate. */
  datatype Info = Info(fingerprint: string, details: string)

  datatype Outcome =
    | Served(info: Info, dns: string)
    | Failed(message: string, kind: string)

  datatype Probe = Probe(key: Key, outcome: Outcome)

  datatype Status = Managed | Unmanaged | Errored

  datatype Row = Row(
    key: Key, profile: Option<nat>, info: Option<Info>, status: Status, managedAs: Option<nat>,
    firstSeen: Time, lastSeen: Time, lastChanged: Option<Time>, previous: Option<string>,
    dns: string, error: Option<string>)

  /** What is fixed while one scan saves: its profile, its clock reading and the fingerprint index. */
  datatype Scan = Scan(profile: Option<nat>, now: Time, index: map<string, nat>)

  /** The unique columns: target, port and SNI name together. */
  const KEY: Row -> Key := (r: Row) => r.key

  /** Connection-level failures are not TLS endpoints and are not saved. */
  predicate Skipped(p: Probe) {
    p.outcome.Failed? && p.outcome.kind in {"refused", "network", "timeout", "dns"}
  }

  function StoredFingerprint(row: Option<Row>): string {
    if row.Some? && row.value.info.Some? then row.value.info.value.fingerprint else ""
  }

  /** A stored, non-empty fingerprint is being replaced by a different one. */
  predicate Changes(row: Option<Row>, p: Probe) {
    && p.outcome.Served?
    && StoredFingerprint(row) != ""
    && StoredFingerprint(row) != p.outcome.info.fingerprint
  }

  function StatusOf(scan: Scan, fingerprint: string): Status {
    if fingerprint in scan.index then Managed else Unmanaged
  }

  function IdOf(scan: Scan, fingerprint: string): Option<nat> {
    if fingerprint in scan.index then Some(scan.index[fingerprint]) else None
  }

  /** The row for a probe's key after saving the probe. */
  function Saved(scan: Scan, row: Option<Row>, p: Probe): Row {
    match (p.outcome, row)
    case (Served(info, dns), None) =>
      Row(p.key, scan.profile, Some(info), StatusOf(scan, info.fingerprint), IdOf(scan, info.fingerprint),
          scan.now, scan.now, None, None, dns, None)
    case (Served(info, dns), Some(r)) =>
      r.(profile := if scan.profile.Some? then scan.profile else r.profile,
         info := Some(info),
         status := StatusOf(scan, info.fingerprint),
         managedAs := IdOf(scan, info.fingerprint),
         lastSeen := scan.now,
         lastChanged := if Changes(row, p) then Some(scan.now) else r.lastChanged,
         previous := if Changes(row, p) then Some(StoredFingerprint(row)) else r.previous,
         dns := if dns != "" then dns else r.dns,
         error := None)
    case (Failed(message, _), None) =>
      Row(p.key, scan.profile, None, Errored, None, scan.now, scan.now, None, None, "", Some(message))
    case (Failed(message, _), Some(r)) =>
      r.(status := Errored, lastSeen := scan.now, error := Some(message))
  }

  function Put(rows: seq<Row>, row: Row): seq<Row> {
    var i := Find(KEY, rows, row.key);
    if i < |rows| then rows[i := row] else rows + [row]
  }

  function SaveOne(scan: Scan, rows: seq<Row>, p: Probe): seq<Row> {
    if Skipped(p) then rows else Put(rows, Saved(scan, Lookup(KEY, rows, p.key), p))
  }

  function SaveAll(scan: Scan, rows: seq<Row>, ps: seq<Probe>): seq<Row> {
    if ps == [] then rows else SaveOne(scan, SaveAll(scan, rows, ps[..|ps| - 1]), ps[|ps| - 1])
  }

  /** The counter the loop keeps. */
  function ChangeCount(scan: Scan, rows: seq<Row>, ps: seq<Probe>): nat {
    if ps == [] then 0
    else
      var init, p := ps[..|ps| - 1], ps[|ps| - 1];
      ChangeCount(scan, rows, init) + if Changes(Lookup(KEY, SaveAll(scan, rows, init), p.key), p) then 1 else 0
  }

  // ---- one row a key ----

  ghost predicate Unique(rows: seq<Row>) {
    forall i :: 0 <= i < |rows| ==> Find(KEY, rows, rows[i].key) == i
  }

  lemma {:induction false} LookupPut(rows: seq<Row>, row: Row, key: Key)
    ensures Lookup(KEY, Put(rows, row), key) == if key == row.key then Some(row) else Lookup(KEY, rows, key)
  {
    var i := Find(KEY, rows, row.key);
    if i < |rows| {
      FindUpdated(KEY, rows, i, row, key);
    } else {
      FindAppended(KEY, rows, row, key);
    }
  }

  lemma {:induction false} UniquePut(rows: seq<Row>, row: Row)
    requires Unique(rows)
    ensures Unique(Put(rows, row))
  {
    var i, next := Find(KEY, rows, row.key), Put(rows, row);
    forall k | 0 <= k < |next| ensures Find(KEY, next, next[k].key) == k {
      if i < |rows| {
        FindUpdated(KEY, rows, i, row, rows[k].key);
      } else {
        FindAppended(KEY, rows, row, next[k].key);
      }
    }
  }

  lemma {:induction false} SavedKey(scan: Scan, rows: seq<Row>, p: Probe)
    ensures Saved(scan, Lookup(KEY, rows, p.key), p).key == p.key
  {
  }

  /** Saving keeps the keys distinct, whatever the results and however often a key comes back. */
  lemma {:induction false} KeysStayUnique(scan: Scan, rows: seq<Row>, ps: seq<Probe>)
    requires Unique(rows)
    ensures Unique(SaveAll(scan, rows, ps))
  {
    if ps != [] {
      var before, p := SaveAll(scan, rows, ps[..|ps| - 1]), ps[|ps| - 1];
      KeysStayUnique(scan, rows, ps[..|ps| - 1]);
      UniquePut(before, Saved(scan, Lookup(KEY, before, p.key), p));
    }
  }

  // ---- each key on its own ----

  /** The results that are saved under a key, in the order they arrived. */
  function SavedFor(ps: seq<Probe>, key: Key): seq<Probe> {
    if ps == [] then []
    else
      var rest, p := SavedFor(ps[..|ps| - 1], key), ps[|ps| - 1];
      if p.key == key && !Skipped(p) then rest + [p] else rest
  }

  /** Connection errors of these four kinds are passed over, and nothing else is. */
  lemma {:induction false} OnlyConnectionErrorsAreSkipped(ps: seq<Probe>, p: Probe, key: Key)
    ensures SavedFor(ps + [p], key) ==
            if p.key != key then SavedFor(ps, key)
            else
              match p.outcome
              case Served(_, _) => SavedFor(ps, key) + [p]
              case Failed(_, kind) =>
                if kind == "refused" || kind == "network" || kind == "timeout" || kind == "dns" then SavedFor(ps, key)
                else SavedFor(ps, key) + [p]
  {
    InitOfSnoc(ps, p);
  }

  /** One row taken through the results for its key. */
  function RowAfter(scan: Scan, row: Option<Row>, ps: seq<Probe>): Option<Row> {
    if ps == [] then row else Some(Saved(scan, RowAfter(scan, row, ps[..|ps| - 1]), ps[|ps| - 1]))
  }

  /** The loop over the mixed results does to each key what saving that key's own results would do. */
  lemma {:induction false} KeysAreIndependent(scan: Scan, rows: seq<Row>, ps: seq<Probe>, key: Key)
    ensures Lookup(KEY, SaveAll(scan, rows, ps), key) == RowAfter(scan, Lookup(KEY, rows, key), SavedFor(ps, key))
  {
    if ps != [] {
      var init, p := ps[..|ps| - 1], ps[|ps| - 1];
      var before := SaveAll(scan, rows, init);
      KeysAreIndependent(scan, rows, init, key);
      if !Skipped(p) {
        SavedKey(scan, before, p);
        LookupPut(before, Saved(scan, Lookup(KEY, before, p.key), p), key);
        if p.key == key {
          InitOfSnoc(SavedFor(init, key), p);
        }
      }
    }
  }

  /** Probes finish in any order: as long as each key's results arrive in the same order, every key ends alike. */
  lemma {:induction false} ArrivalOrderIsIrrelevant(scan: Scan, rows: seq<Row>, ps: seq<Probe>, qs: seq<Probe>)
    requires forall key :: SavedFor(ps, key) == SavedFor(qs, key)
    ensures forall key :: Lookup(KEY, SaveAll(scan, rows, ps), key) == Lookup(KEY, SaveAll(scan, rows, qs), key)
  {
    forall key ensures Lookup(KEY, SaveAll(scan, rows, ps), key) == Lookup(KEY, SaveAll(scan, rows, qs), key) {
      KeysAreIndependent(scan, rows, ps, key);
      KeysAreIndependent(scan, rows, qs, key);
    }
  }

  lemma {:induction false} SavedForKeys(ps: seq<Probe>, key: Key)
    ensures forall i :: 0 <= i < |SavedFor(ps, key)| ==> SavedFor(ps, key)[i].key == key && SavedFor(ps, key)[i] in ps
  {
    if ps != [] {
      SavedForKeys(ps[..|ps| - 1], key);
    }
  }

  // ---- what the row holds ----

  /** The certificate last served for a key: by the results, else as stored before. */
  function LastServed(row: Option<Row>, ps: seq<Probe>): Option<Info> {
    if ps == [] then (if row.Some? then row.value.info else None)
    else if ps[|ps| - 1].outcome.Served? then Some(ps[|ps| - 1].outcome.info)
    else LastServed(row, ps[..|ps| - 1])
  }

  lemma {:induction false} RowHoldsLastServed(scan: Scan, row: Option<Row>, ps: seq<Probe>)
    ensures match RowAfter(scan, row, ps) case None => ps == [] && row.None? case Some(r) => r.info == LastServed(row, ps)
  {
    if ps != [] {
      RowHoldsLastServed(scan, row, ps[..|ps| - 1]);
    }
  }

  /** After the save loop, a key with saved results has a row holding the last of them: a served certificate with no
      error and its inventory match, or the error on top of the certificate last served; a key without saved results
      is untouched. */
  lemma {:induction false} RowHoldsLastOutcome(scan: Scan, rows: seq<Row>, ps: seq<Probe>, key: Key)
    ensures var mine, after := SavedFor(ps, key), Lookup(KEY, SaveAll(scan, rows, ps), key);
            if mine == [] then after == Lookup(KEY, rows, key)
            else
              && after.Some? && after.value.key == key && after.value.lastSeen == scan.now
              && after.value.info == LastServed(Lookup(KEY, rows, key), mine)
              && match mine[|mine| - 1].outcome
                 case Served(info, _) =>
                   && after.value.info == Some(info) && after.value.error == None
                   && after.value.status == (if info.fingerprint in scan.index then Managed else Unmanaged)
                   && after.value.managedAs == if info.fingerprint in scan.index then Some(scan.index[info.fingerprint]) else None
                 case Failed(message, _) => after.value.error == Some(message) && after.value.status == Errored
  {
    var mine := SavedFor(ps, key);
    KeysAreIndependent(scan, rows, ps, key);
    RowHoldsLastServed(scan, Lookup(KEY, rows, key), mine);
    SavedForKeys(ps, key);
    RowKeyKept(scan, Lookup(KEY, rows, key), mine, key);
  }

  lemma {:induction false} RowKeyKept(scan: Scan, row: Option<Row>, ps: seq<Probe>, key: Key)
    requires row.Some? ==> row.value.key == key
    requires forall i :: 0 <= i < |ps| ==> ps[i].key == key
    ensures RowAfter(scan, row, ps).Some? ==> RowAfter(scan, row, ps).value.key == key
  {
    if ps != [] {
      RowKeyKept(scan, row, ps[..|ps| - 1], key);
    }
  }

  /** Result i of a key's own results replaces a known certificate by a different one. */
  predicate Replaces(row: Option<Row>, ps: seq<Probe>, i: nat)
    requires i < |ps|
  {
    var last := LastServed(row, ps[..i]);
    ps[i].outcome.Served? && last.Some? && last.value.fingerprint != "" && last.value.fingerprint != ps[i].outcome.info.fingerprint
  }

  /** The last such result. */
  function LastReplacing(row: Option<Row>, ps: seq<Probe>): Option<nat> {
    if ps == [] then None
    else if Replaces(row, ps, |ps| - 1) then Some(|ps| - 1)
    else LastReplacing(row, ps[..|ps| - 1])
  }

  lemma {:induction false} LastReplacingIs(row: Option<Row>, ps: seq<Probe>)
    ensures match LastReplacing(row, ps)
            case None => forall i :: 0 <= i < |ps| ==> !Replaces(row, ps, i)
            case Some(i) => i < |ps| && Replaces(row, ps, i) && forall k :: i < k < |ps| ==> !Replaces(row, ps, k)
  {
    if ps != [] {
      var init := ps[..|ps| - 1];
      LastReplacingIs(row, init);
      forall i | 0 <= i < |init| ensures Replaces(row, init, i) <==> Replaces(row, ps, i) {
        assert init[..i] == ps[..i];
      }
    }
  }

  /** The last host name that was looked up with success, else the stored one. */
  function LastDns(row: Option<Row>, ps: seq<Probe>): string {
    if ps == [] then (if row.Some? then row.value.dns else "")
    else if ps[|ps| - 1].outcome.Served? && ps[|ps| - 1].outcome.dns != "" then ps[|ps| - 1].outcome.dns
    else LastDns(row, ps[..|ps| - 1])
  }

  predicate AnyServed(ps: seq<Probe>) { exists p :: p in ps && p.outcome.Served? }

  lemma {:induction false} AnyServedSnoc(ps: seq<Probe>)
    requires ps != []
    ensures AnyServed(ps) <==> AnyServed(ps[..|ps| - 1]) || ps[|ps| - 1].outcome.Served?
  {
    assert ps == ps[..|ps| - 1] + [ps[|ps| - 1]];
  }

  /** The other columns of a row after its results. */
  predicate OtherColumns(scan: Scan, row: Option<Row>, ps: seq<Probe>, r: Row) {
    && r.firstSeen == (if row.Some? then row.value.firstSeen else scan.now) && r.lastSeen == scan.now
    && r.profile == (if row.None? || (scan.profile.Some? && AnyServed(ps)) then scan.profile else row.value.profile)
    && r.dns == LastDns(row, ps)
    && match LastReplacing(row, ps)
       case Some(i) =>
         r.lastChanged == Some(scan.now) && i < |ps| && LastServed(row, ps[..i]).Some?
         && r.previous == Some(LastServed(row, ps[..i]).value.fingerprint)
       case None =>
         r.lastChanged == (if row.Some? then row.value.lastChanged else None)
         && r.previous == if row.Some? then row.value.previous else None
  }

  lemma {:induction false} RowColumns(scan: Scan, row: Option<Row>, ps: seq<Probe>)
    requires ps != []
    ensures RowAfter(scan, row, ps).Some? && OtherColumns(scan, row, ps, RowAfter(scan, row, ps).value)
  {
    var n := |ps| - 1;
    var init, p := ps[..n], ps[n];
    AnyServedSnoc(ps);
    RowHoldsLastServed(scan, row, init);
    LastReplacingIs(row, init);
    if init != [] {
      RowColumns(scan, row, init);
      if LastReplacing(row, init).Some? {
        assert init[..LastReplacing(row, init).value] == ps[..LastReplacing(row, init).value];
      }
    }
  }

  /** After the save loop: when a key was first and last seen, its profile, its host name, and when its certificate last
      changed and from which, as the stored row and the key's own results determine them. */
  lemma {:induction false} RowHoldsItsHistory(scan: Scan, rows: seq<Row>, ps: seq<Probe>, key: Key)
    requires SavedFor(ps, key) != []
    ensures var after := Lookup(KEY, SaveAll(scan, rows, ps), key);
            after.Some? && OtherColumns(scan, Lookup(KEY, rows, key), SavedFor(ps, key), after.value)
  {
    KeysAreIndependent(scan, rows, ps, key);
    RowColumns(scan, Lookup(KEY, rows, key), SavedFor(ps, key));
  }

  // ---- the change counter ----

  /** Position i of the results is a change: the key's last known certificate, from the results before it or from
      the stored row, is known and differs. Stated without the table. */
  predicate IsChange(rows: seq<Row>, ps: seq<Probe>, i: nat)
    requires i < |ps|
  {
    var p := ps[i];
    var last := LastServed(Lookup(KEY, rows, p.key), SavedFor(ps[..i], p.key));
    && p.outcome.Served?
    && last.Some? && last.value.fingerprint != ""
    && last.value.fingerprint != p.outcome.info.fingerprint
  }

  ghost function ChangePositions(rows: seq<Row>, ps: seq<Probe>): set<nat> {
    set i: nat | i < |ps| && IsChange(rows, ps, i)
  }

  lemma {:induction false} LastPosition(scan: Scan, rows: seq<Row>, init: seq<Probe>, p: Probe)
    ensures IsChange(rows, init + [p], |init|) <==> Changes(Lookup(KEY, SaveAll(scan, rows, init), p.key), p)
  {
    InitOfSnoc(init, p);
    KeysAreIndependent(scan, rows, init, p.key);
    RowHoldsLastServed(scan, Lookup(KEY, rows, p.key), SavedFor(init, p.key));
  }

  lemma {:induction false} EarlierPosition(rows: seq<Row>, init: seq<Probe>, p: Probe, i: nat)
    requires i < |init|
    ensures IsChange(rows, init + [p], i) <==> IsChange(rows, init, i)
  {
    assert (init + [p])[..i] == init[..i];
  }

  lemma {:induction false} OnePositionMore(rows: seq<Row>, init: seq<Probe>, p: Probe)
    ensures |ChangePositions(rows, init + [p])| ==
            |ChangePositions(rows, init)| + if IsChange(rows, init + [p], |init|) then 1 else 0
  {
    var before, after := ChangePositions(rows, init), ChangePositions(rows, init + [p]);
    forall i: nat | i < |init| ensures i in after <==> i in before {
      EarlierPosition(rows, init, p, i);
    }
    if IsChange(rows, init + [p], |init|) {
      assert after == before + {|init|};
    } else {
      assert after == before;
    }
  }

  /** changed_certs is the number of positions at which a known certificate was replaced by a different one. */
  lemma {:induction false} ChangesAreCounted(scan: Scan, rows: seq<Row>, ps: seq<Probe>)
    ensures ChangeCount(scan, rows, ps) == |ChangePositions(rows, ps)|
  {
    if ps == [] {
      assert ChangePositions(rows, ps) == {};
    } else {
      var init, p := ps[..|ps| - 1], ps[|ps| - 1];
      assert ps == init + [p];
      ChangesAreCounted(scan, rows, init);
      LastPosition(scan, rows, init, p);
      OnePositionMore(rows, init, p);
    }
  }

  // ---- the loop ----

  class DiscoveryStore {
    var rows: seq<Row>

    constructor ()
      ensures rows == [] && Unique(rows)
    {
      rows := [];
    }

    /** _save_error */
    method SaveError(scan: Scan, p: Probe)
      requires p.outcome.Failed? && !Skipped(p)
      modifies this
      ensures rows == SaveOne(scan, old(rows), p)
    {
      var at := Find(KEY, rows, p.key);
      if at < |rows| {
        rows := rows[at := rows[at].(lastSeen := scan.now, error := Some(p.outcome.message), status := Errored)];
      } else {
        rows := rows + [Row(p.key, scan.profile, None, Errored, None, scan.now, scan.now, None, None, "", Some(p.outcome.message))];
      }
    }

    /** The body of the loop for a result with a certificate. */
    method SaveServed(scan: Scan, p: Probe) returns (changed: bool)
      requires p.outcome.Served?
      modifies this
      ensures rows == SaveOne(scan, old(rows), p)
      ensures changed == Changes(Lookup(KEY, old(rows), p.key), p)
    {
      changed := false;
      var info := p.outcome.info;
      var status, id := StatusOf(scan, info.fingerprint), IdOf(scan, info.fingerprint);
      var at := Find(KEY, rows, p.key);
      if at < |rows| {
        var row := rows[at];
        if row.info.Some? && row.info.value.fingerprint != "" && row.info.value.fingerprint != info.fingerprint {
          changed := true;
          row := row.(previous := Some(row.info.value.fingerprint), lastChanged := Some(scan.now));
        }
        row := row.(info := Some(info), status := status, managedAs := id, lastSeen := scan.now, error := None);
        if scan.profile.Some? { row := row.(profile := scan.profile); }
        if p.outcome.dns != "" { row := row.(dns := p.outcome.dns); }
        rows := rows[at := row];
      } else {
        rows := rows + [Row(p.key, scan.profile, Some(info), status, id, scan.now, scan.now, None, None, p.outcome.dns, None)];
      }
    }

    /** The save loop of _do_scan. */
    method SaveResults(scan: Scan, results: seq<Probe>) returns (changedCerts: nat)
      requires Unique(rows)
      modifies this
      ensures rows == SaveAll(scan, old(rows), results) && Unique(rows)
      ensures changedCerts == |ChangePositions(old(rows), results)|
    {
      changedCerts := 0;
      ghost var start := rows;
      for i := 0 to |results|
        invariant rows == SaveAll(scan, start, results[..i])
        invariant changedCerts == ChangeCount(scan, start, results[..i])
      {
        var r := results[i];
        InitOfSnoc(results[..i], r);
        assert results[..i + 1] == results[..i] + [r];
        if r.outcome.Failed? {
          if r.outcome.kind !in {"refused", "network", "timeout", "dns"} { SaveError(scan, r); }
        } else {
          var changed := SaveServed(scan, r);
          if changed { changedCerts := changedCerts + 1; }
        }
      }
      assert results[..|results|] == results;
      KeysStayUnique(scan, start, results);
      ChangesAreCounted(scan, start, results);
    }
  }
}

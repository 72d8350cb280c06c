/** The audit log as a table that the service appends to, verifies and prunes. */
module AuditService {
  import opened Common
  import opened AuditChain

  // ---- deleting in batches ----

  const BATCH: nat := 1000

  function CountOld(rows: seq<Entry>, cutoff: Time): (n: nat)
    ensures n <= |rows|
  {
    if rows == [] then 0 else (if rows[0].timestamp < cutoff then 1 else 0) + CountOld(rows[1..], cutoff)
  }

  /** DELETE of the first `limit` rows older than the cutoff. */
  function DropSome(rows: seq<Entry>, cutoff: Time, limit: nat): seq<Entry> {
    if rows == [] || limit == 0 then rows
    else if rows[0].timestamp < cutoff then DropSome(rows[1..], cutoff, limit - 1)
    else [rows[0]] + DropSome(rows[1..], cutoff, limit)
  }

  lemma {:induction false} KeptCons(e: Entry, rows: seq<Entry>, cutoff: Time)
    ensures Kept([e] + rows, cutoff) == (if e.timestamp < cutoff then [] else [e]) + Kept(rows, cutoff)
  {
    var all := [e] + rows;
    if rows == [] {
      assert all == [e] && [e][..0] == [];
    } else {
      KeptCons(e, rows[..|rows| - 1], cutoff);
      AppendLast([e], rows);
      InitOfSnoc([e] + rows[..|rows| - 1], rows[|rows| - 1]);
    }
  }

  lemma SplitFirst(rows: seq<Entry>)
    requires rows != []
    ensures rows == [rows[0]] + rows[1..]
  {
  }

  /** One batch removes min(limit, old rows) rows, and none that should stay. */
  lemma {:induction false} BatchIsPart(rows: seq<Entry>, cutoff: Time, limit: nat)
    ensures Kept(DropSome(rows, cutoff, limit), cutoff) == Kept(rows, cutoff)
    ensures |DropSome(rows, cutoff, limit)| == |rows| - Min(limit, CountOld(rows, cutoff))
    ensures CountOld(DropSome(rows, cutoff, limit), cutoff) == CountOld(rows, cutoff) - Min(limit, CountOld(rows, cutoff))
  {
    if rows != [] && limit > 0 {
      SplitFirst(rows);
      KeptCons(rows[0], rows[1..], cutoff);
      if rows[0].timestamp < cutoff {
        BatchIsPart(rows[1..], cutoff, limit - 1);
      } else {
        BatchIsPart(rows[1..], cutoff, limit);
        var rest := DropSome(rows[1..], cutoff, limit);
        KeptCons(rows[0], rest, cutoff);
        assert ([rows[0]] + rest)[1..] == rest;
      }
    }
  }

  lemma {:induction false} NoneOldIsKept(rows: seq<Entry>, cutoff: Time)
    requires CountOld(rows, cutoff) == 0
    ensures Kept(rows, cutoff) == rows
  {
    if rows != [] {
      SplitFirst(rows);
      NoneOldIsKept(rows[1..], cutoff);
      KeptCons(rows[0], rows[1..], cutoff);
    }
  }

  lemma {:induction false} TrailSnoc(c: Codec, trail: seq<Event>, e: Event)
    requires Ordered(trail) && (trail != [] ==> trail[|trail| - 1].at <= e.at)
    ensures Ordered(trail + [e]) && Run(c, trail + [e]) == Step(c, Run(c, trail), e)
  {
    InitOfSnoc(trail, e);
    forall i, j | 0 <= i < j < |trail + [e]| ensures (trail + [e])[i].at <= (trail + [e])[j].at {
      if j == |trail| && i < |trail| - 1 {
        assert trail[i].at <= trail[|trail| - 1].at;
      }
    }
  }

  class AuditLog {
    const codec: Codec
    var rows: seq<Entry>
    var totalDeleted: nat
    /** Everything that ever happened to the table. */
    ghost var trail: seq<Event>

    ghost predicate Valid()
      reads this
    {
      Ordered(trail) && rows == Run(codec, trail)
    }

    ghost predicate Due(now: Time)
      reads this
    {
      trail != [] ==> trail[|trail| - 1].at <= now
    }

    constructor (codec: Codec)
      ensures Valid() && this.codec == codec && trail == []
    {
      this.codec := codec;
      rows, totalDeleted, trail := [], 0, [];
    }

    /** Append, then chain to the row before. */
    method LogAction(f: Fields, now: Time) returns (e: Entry)
      requires Valid() && Due(now)
      modifies `rows, `trail
      ensures Valid() && trail == old(trail) + [Log(now, f)]
      ensures rows == old(rows) + [e] && e == Chained(codec, old(rows), f, now)
      ensures FieldsOf(e) == f && e.timestamp == now && e.id == (if old(rows) == [] then 1 else old(rows)[|old(rows)| - 1].id + 1)
      ensures e.prevHash == (if old(rows) == [] || old(rows)[|old(rows)| - 1].entryHash == "" then ZEROS else old(rows)[|old(rows)| - 1].entryHash)
      ensures e.entryHash == codec.hash(Line(codec, e, e.prevHash))
    {
      TrailSnoc(codec, trail, Log(now, f));
      e := Unhashed(rows, f, now);
      var prevHash := ZEROS;
      if rows != [] {
        var prev := rows[|rows| - 1];
        if prev.entryHash != "" {
          prevHash := prev.entryHash;
        }
      }
      e := e.(prevHash := prevHash, entryHash := ComputeHash(codec, e, prevHash));
      rows := rows + [e];
      trail := trail + [Log(now, f)];
    }

    /** Code that adds a row on its own leaves both hashes empty. */
    method InsertDirect(f: Fields, now: Time)
      requires Valid() && Due(now)
      modifies `rows, `trail
      ensures Valid() && trail == old(trail) + [Direct(now, f)]
      ensures rows == old(rows) + [Unhashed(old(rows), f, now)]
      ensures var e := rows[|old(rows)|];
              && FieldsOf(e) == f && e.timestamp == now && e.prevHash == "" && e.entryHash == ""
              && e.id == if old(rows) == [] then 1 else old(rows)[|old(rows)| - 1].id + 1
    {
      TrailSnoc(codec, trail, Direct(now, f));
      rows := rows + [Unhashed(rows, f, now)];
      trail := trail + [Direct(now, f)];
    }

    method CleanupOldLogs(days: nat, now: Time) returns (deleted: nat)
      requires Valid() && Due(now)
      modifies `rows, `trail
      ensures Valid() && trail == old(trail) + [Retain(now, days)]
      ensures rows == Kept(old(rows), now - days * DAY) && deleted == |old(rows)| - |rows|
    {
      TrailSnoc(codec, trail, Retain(now, days));
      var kept := DeleteOlder(rows, now - days * DAY);
      deleted := |rows| - |kept|;
      rows, trail := kept, trail + [Retain(now, days)];
    }

    /** DELETE WHERE timestamp < cutoff */
    static method DeleteOlder(rows: seq<Entry>, cutoff: Time) returns (kept: seq<Entry>)
      ensures kept == Kept(rows, cutoff) && |kept| <= |rows|
    {
      kept := Kept(rows, cutoff);
      KeptLength(rows, cutoff);
    }

    static lemma {:induction false} KeptLength(rows: seq<Entry>, cutoff: Time)
      ensures |Kept(rows, cutoff)| <= |rows|
    {
      if rows != [] {
        KeptLength(rows[..|rows| - 1], cutoff);
      }
    }

    /** Deleting a thousand rows at a time, until a batch comes up short. */
    method DeleteBatches(cutoff: Time) returns (deleted: nat)
      modifies `rows
      ensures rows == Kept(old(rows), cutoff)
      ensures deleted == CountOld(old(rows), cutoff) == |old(rows)| - |rows|
    {
      deleted := 0;
      var more := true;
      while more
        invariant Kept(rows, cutoff) == Kept(old(rows), cutoff)
        invariant |rows| + deleted == |old(rows)| && CountOld(rows, cutoff) + deleted == CountOld(old(rows), cutoff)
        invariant !more ==> CountOld(rows, cutoff) == 0
        decreases more, |rows|
      {
        BatchIsPart(rows, cutoff, BATCH);
        var left := DropSome(rows, cutoff, BATCH);
        var batch := |rows| - |left|;
        rows := left;
        deleted := deleted + batch;
        more := batch >= BATCH;
      }
      NoneOldIsKept(rows, cutoff);
    }

    /** The retention job's batches add up to one deletion of every old row. */
    method CleanupInBatches(days: nat, now: Time) returns (deleted: nat)
      requires Valid() && Due(now)
      modifies this
      ensures Valid() && trail == old(trail) + [Retain(now, days)]
      ensures rows == Kept(old(rows), now - days * DAY)
      ensures deleted == CountOld(old(rows), now - days * DAY) == |old(rows)| - |rows|
      ensures totalDeleted == old(totalDeleted) + deleted
    {
      var cutoff := now - days * DAY;
      TrailSnoc(codec, trail, Retain(now, days));
      assert Run(codec, trail + [Retain(now, days)]) == Kept(rows, cutoff);
      deleted := CountOld(rows, cutoff);
      if deleted == 0 {
        NoneOldIsKept(rows, cutoff);
      } else {
        deleted := DeleteBatches(cutoff);
        totalDeleted := totalDeleted + deleted;
      }
      trail := trail + [Retain(now, days)];
    }

    /** Errors of any block of any log this class can hold: none, or one broken back-link at the block's start. */
    method VerifyIntegrity(startId: nat, endId: nat) returns (valid: bool, checked: nat, errors: seq<Error>)
      requires Valid()
      ensures errors == Errors(codec, Select(rows, startId, endId))
      ensures valid <==> errors == []
      ensures checked == |Select(rows, startId, endId)|
      ensures forall e :: e in Select(rows, startId, endId) <==>
                e in rows && (startId == 0 || startId <= e.id) && (endId == 0 || e.id <= endId)
      ensures trail != [] ==>
        var picked := Select(rows, startId, endId);
        valid <==> picked == [] || !picked[0].Hashed() || picked[0].prevHash == ZEROS
    {
      SelectedAre(rows, startId, endId);
      if trail != [] {
        RunReportsAtMostItsStart(codec, trail, startId, endId);
      }
      var logs := Select(rows, startId, endId);
      errors := Scan(codec, logs);
      valid, checked := |errors| == 0, |logs|;
    }

    static method CheckRow(codec: Codec, log: Entry, prevHash: string) returns (found: seq<Error>)
      requires log.Hashed()
      ensures found == Check(codec, log, prevHash)
      ensures PrevMismatch(log.id, prevHash, log.prevHash) in found <==> log.prevHash != "" && log.prevHash != prevHash
      ensures var computed := codec.hash(Line(codec, log, log.prevHash));
              EntryMismatch(log.id, computed, log.entryHash) in found <==> computed != log.entryHash
    {
      found := [];
      if log.prevHash != "" && log.prevHash != prevHash {
        found := found + [PrevMismatch(log.id, prevHash, log.prevHash)];
      }
      var computed := ComputeHash(codec, log, log.prevHash);
      if computed != log.entryHash {
        found := found + [EntryMismatch(log.id, computed, log.entryHash)];
      }
    }

    static method Scan(codec: Codec, logs: seq<Entry>) returns (errors: seq<Error>)
      ensures errors == Errors(codec, logs)
    {
      errors := [];
      var prevHash := ZEROS;
      for i := 0 to |logs|
        invariant errors == Errors(codec, logs[..i]) && prevHash == Carried(logs[..i])
      {
        var log := logs[i];
        SliceOfPrefix(logs, i + 1, 0, i);
        ErrorsSnoc(codec, logs[..i], log);
        SplitLast(logs[..i + 1]);
        if !log.Hashed() {
          prevHash := ZEROS;
        } else {
          var found := CheckRow(codec, log, prevHash);
          errors := errors + found;
          prevHash := log.entryHash;
        }
      }
      assert logs[..|logs|] == logs;
    }
  }
}

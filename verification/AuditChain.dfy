/** The tamper-evident audit log: appending, verifying, rows inserted without a hash, and retention. */
module AuditChain {
  import opened Common
  import opened Text

  /** An empty hash stands for a column that was never filled. */
  datatype Entry = Entry(id: nat, timestamp: Time, username: Option<string>, action: string,
                         resourceType: Option<string>, resourceId: Option<string>, details: Option<string>,
                         success: bool, prevHash: string, entryHash: string)
  {
    predicate Hashed() { entryHash != "" }
    predicate Filled() { prevHash != "" && entryHash != "" }
  }

  /** SHA-256 in hexadecimal, and str() of a datetime. */
  datatype Codec = Codec(hash: string -> string, showTime: Time -> string)

  /** "0" * 64 */
  const ZEROS: string := "0000000000000000000000000000000000000000000000000000000000000000"

  function Show(s: Option<string>): string { if s.Some? then s.value else "None" }

  function Join(parts: seq<string>): string {
    if parts == [] then ""
    else if |parts| == 1 then parts[0]
    else Join(parts[..|parts| - 1]) + ['|'] + parts[|parts| - 1]
  }

  /** The text after the id: every hashed column, and nothing else. */
  function Columns(c: Codec, e: Entry): string { Join(Parts(c, e)) }

  function Parts(c: Codec, e: Entry): (parts: seq<string>)
    ensures |parts| == 7
  {
    [c.showTime(e.timestamp), Show(e.username), e.action, Show(e.resourceType), Show(e.resourceId),
     Show(e.details), Outcome(e)]
  }

  function Outcome(e: Entry): string { if e.success then "True" else "False" }

  /** The line that is hashed. */
  function Line(c: Codec, e: Entry, prev: string): string { Decimal(e.id) + ['|'] + (Columns(c, e) + ['|'] + prev) }

  function ComputeHash(c: Codec, e: Entry, prev: string): string { c.hash(Line(c, e, prev)) }

  /** The hash of the row's own line has 64 digits and is not the start value. */
  predicate HashOk(c: Codec, e: Entry) {
    |ComputeHash(c, e, e.prevHash)| == 64 && ComputeHash(c, e, e.prevHash) != ZEROS
  }

  /** The lines of two rows do not collide. */
  predicate NoCollision(c: Codec, e: Entry, f: Entry) {
    ComputeHash(c, e, e.prevHash) == ComputeHash(c, f, f.prevHash) ==> Line(c, e, e.prevHash) == Line(c, f, f.prevHash)
  }

  /** Among the lines of these rows there is no collision, and their hashes are well-formed. */
  ghost predicate Strong(c: Codec, rows: seq<Entry>) {
    && (forall i :: 0 <= i < |rows| ==> HashOk(c, rows[i]))
    && (forall i, k :: 0 <= i < k < |rows| ==> NoCollision(c, rows[i], rows[k]))
  }

  /** The same between two lists of rows. */
  ghost predicate Apart(c: Codec, a: seq<Entry>, b: seq<Entry>) {
    && (forall i :: 0 <= i < |a| ==> HashOk(c, a[i])) && (forall i :: 0 <= i < |b| ==> HashOk(c, b[i]))
    && (forall i, k :: 0 <= i < |a| && 0 <= k < |b| ==> NoCollision(c, a[i], b[k]))
  }

  // ---- verification ----

  datatype Error =
    | PrevMismatch(id: nat, expected: string, actual: string)
    | EntryMismatch(id: nat, expected: string, actual: string)

  /** The hash the next row should point back to. */
  function Carried(rows: seq<Entry>): string {
    if rows == [] || !rows[|rows| - 1].Hashed() then ZEROS else rows[|rows| - 1].entryHash
  }

  function Check(c: Codec, e: Entry, expected: string): seq<Error> {
    if !e.Hashed() then []
    else (if e.prevHash != "" && e.prevHash != expected then [PrevMismatch(e.id, expected, e.prevHash)] else [])
         + (if ComputeHash(c, e, e.prevHash) != e.entryHash
            then [EntryMismatch(e.id, ComputeHash(c, e, e.prevHash), e.entryHash)] else [])
  }

  function Errors(c: Codec, rows: seq<Entry>): seq<Error> {
    if rows == [] then []
    else Errors(c, rows[..|rows| - 1]) + Check(c, rows[|rows| - 1], Carried(rows[..|rows| - 1]))
  }

  /** Rows between two ids; a missing or zero bound does not restrict. */
  function Select(rows: seq<Entry>, startId: nat, endId: nat): seq<Entry> {
    if rows == [] then []
    else
      var e, rest := rows[|rows| - 1], Select(rows[..|rows| - 1], startId, endId);
      if (startId == 0 || e.id >= startId) && (endId == 0 || e.id <= endId) then rest + [e] else rest
  }

  // ---- appending and deleting ----

  datatype Fields = Fields(username: Option<string>, action: string, resourceType: Option<string>,
                           resourceId: Option<string>, details: Option<string>, success: bool)

  function NextId(rows: seq<Entry>): nat { if rows == [] then 1 else rows[|rows| - 1].id + 1 }

  /** The columns that a caller supplies. */
  function FieldsOf(e: Entry): Fields {
    Fields(e.username, e.action, e.resourceType, e.resourceId, e.details, e.success)
  }

  function Unhashed(rows: seq<Entry>, f: Fields, at: Time): Entry {
    Entry(NextId(rows), at, f.username, f.action, f.resourceType, f.resourceId, f.details, f.success, "", "")
  }

  function Chained(c: Codec, rows: seq<Entry>, f: Fields, at: Time): Entry {
    var e := Unhashed(rows, f, at);
    e.(prevHash := Carried(rows), entryHash := ComputeHash(c, e, Carried(rows)))
  }

  /** Rows not older than the cutoff. */
  function Kept(rows: seq<Entry>, cutoff: Time): seq<Entry> {
    if rows == [] then []
    else
      var e, rest := rows[|rows| - 1], Kept(rows[..|rows| - 1], cutoff);
      if e.timestamp < cutoff then rest else rest + [e]
  }

  lemma {:induction false} KeptAre(rows: seq<Entry>, cutoff: Time)
    ensures forall e :: e in Kept(rows, cutoff) <==> e in rows && e.timestamp >= cutoff
  {
    if rows != [] {
      KeptAre(rows[..|rows| - 1], cutoff);
      assert rows == rows[..|rows| - 1] + [rows[|rows| - 1]];
    }
  }

  lemma {:induction false} SelectedAre(rows: seq<Entry>, startId: nat, endId: nat)
    ensures forall e :: e in Select(rows, startId, endId) <==>
              e in rows && (startId == 0 || startId <= e.id) && (endId == 0 || e.id <= endId)
  {
    if rows != [] {
      SelectedAre(rows[..|rows| - 1], startId, endId);
      assert rows == rows[..|rows| - 1] + [rows[|rows| - 1]];
    }
  }

  datatype Event = Log(at: Time, fields: Fields) | Direct(at: Time, fields: Fields) | Retain(at: Time, days: nat)

  function Step(c: Codec, rows: seq<Entry>, e: Event): seq<Entry> {
    match e
    case Log(at, f) => rows + [Chained(c, rows, f, at)]
    case Direct(at, f) => rows + [Unhashed(rows, f, at)]
    case Retain(at, days) => Kept(rows, at - days * DAY)
  }

  function Run(c: Codec, es: seq<Event>): seq<Entry> {
    if es == [] then [] else Step(c, Run(c, es[..|es| - 1]), es[|es| - 1])
  }

  predicate Ordered(es: seq<Event>) { forall i, j :: 0 <= i < j < |es| ==> es[i].at <= es[j].at }

  // ---- what every run keeps ----

  ghost predicate InOrder(rows: seq<Entry>, now: Time) {
    && (forall i, j :: 0 <= i < j < |rows| ==> rows[i].id < rows[j].id && rows[i].timestamp <= rows[j].timestamp)
    && (forall i :: 0 <= i < |rows| ==> rows[i].timestamp <= now)
  }

  /** Every hashed row carries its own correct hash and points back to the row before it; only the first row may
      point at something that is gone. */
  ghost predicate Linked(c: Codec, rows: seq<Entry>) {
    forall i :: 0 <= i < |rows| && rows[i].Hashed() ==> LinkedAt(c, rows, i)
  }

  ghost predicate LinkedAt(c: Codec, rows: seq<Entry>, i: nat)
    requires i < |rows|
  {
    && rows[i].prevHash != "" && ComputeHash(c, rows[i], rows[i].prevHash) == rows[i].entryHash
    && (i > 0 ==> rows[i].prevHash == if rows[i - 1].Hashed() then rows[i - 1].entryHash else ZEROS)
  }

  /** Deleting by age removes a prefix. */
  lemma {:induction false} KeptIsSuffix(rows: seq<Entry>, cutoff: Time, now: Time) returns (k: nat)
    requires InOrder(rows, now)
    ensures k <= |rows| && Kept(rows, cutoff) == rows[k..]
  {
    if rows == [] {
      k := 0;
    } else {
      var init, e := rows[..|rows| - 1], rows[|rows| - 1];
      if e.timestamp < cutoff {
        AllOld(init, cutoff);
        k := |rows|;
      } else {
        k := KeptIsSuffix(init, cutoff, now);
        SliceSnoc(rows, k);
      }
    }
  }

  lemma {:induction false} AllOld(rows: seq<Entry>, cutoff: Time)
    requires forall i :: 0 <= i < |rows| ==> rows[i].timestamp < cutoff
    ensures Kept(rows, cutoff) == []
  {
    if rows != [] {
      AllOld(rows[..|rows| - 1], cutoff);
    }
  }

  lemma {:induction false} LinkedSlice(c: Codec, rows: seq<Entry>, k: nat, m: nat)
    requires Linked(c, rows) && k <= m <= |rows|
    ensures Linked(c, rows[k..m])
  {
    var part := rows[k..m];
    forall i | 0 <= i < |part| && part[i].Hashed() ensures LinkedAt(c, part, i) {
      assert LinkedAt(c, rows, k + i);
    }
  }

  lemma {:induction false} LinkedAppend(c: Codec, rows: seq<Entry>, e: Entry)
    requires Linked(c, rows)
    requires e.Hashed() ==> e.prevHash == Carried(rows) && e.prevHash != "" && ComputeHash(c, e, e.prevHash) == e.entryHash
    ensures Linked(c, rows + [e])
  {
    var rows' := rows + [e];
    forall i | 0 <= i < |rows'| && rows'[i].Hashed() ensures LinkedAt(c, rows', i) {
      if i < |rows| {
        assert LinkedAt(c, rows, i);
      }
    }
  }

  lemma {:induction false} OrderAppend(rows: seq<Entry>, before: Time, e: Entry)
    requires InOrder(rows, before) && before <= e.timestamp && e.id == NextId(rows)
    ensures InOrder(rows + [e], e.timestamp)
  {
  }

  lemma {:induction false} StepLinked(c: Codec, rows: seq<Entry>, e: Event, before: Time)
    requires Linked(c, rows) && InOrder(rows, before) && before <= e.at
    ensures Linked(c, Step(c, rows, e)) && InOrder(Step(c, rows, e), e.at)
  {
    match e
    case Log(at, f) =>
      LinkedAppend(c, rows, Chained(c, rows, f, at));
      OrderAppend(rows, before, Chained(c, rows, f, at));
    case Direct(at, f) =>
      LinkedAppend(c, rows, Unhashed(rows, f, at));
      OrderAppend(rows, before, Unhashed(rows, f, at));
    case Retain(at, days) =>
      var k := KeptIsSuffix(rows, at - days * DAY, before);
      LinkedSlice(c, rows, k, |rows|);
      assert rows[k..|rows|] == rows[k..];
  }

  lemma {:induction false} RunLinked(c: Codec, es: seq<Event>)
    requires Ordered(es)
    ensures Linked(c, Run(c, es))
    ensures es == [] ==> Run(c, es) == []
    ensures es != [] ==> InOrder(Run(c, es), es[|es| - 1].at)
  {
    if es != [] {
      var init, e := es[..|es| - 1], es[|es| - 1];
      RunLinked(c, init);
      StepLinked(c, Run(c, init), e, if init == [] then e.at else init[|init| - 1].at);
    }
  }

  /** Without retention, a hashed first row points at the start value. */
  lemma {:induction false} RunStartsAtZeros(c: Codec, es: seq<Event>)
    requires forall i :: 0 <= i < |es| ==> !es[i].Retain?
    ensures Run(c, es) != [] && Run(c, es)[0].Hashed() ==> Run(c, es)[0].prevHash == ZEROS
  {
    if es != [] {
      RunStartsAtZeros(c, es[..|es| - 1]);
    }
  }

  /** A linked block reports nothing, except that its first row may point before the block. */
  lemma {:induction false} LinkedReportsOnlyItsStart(c: Codec, rows: seq<Entry>)
    requires Linked(c, rows)
    ensures Errors(c, rows) ==
            if rows != [] && rows[0].Hashed() && rows[0].prevHash != ZEROS
            then [PrevMismatch(rows[0].id, ZEROS, rows[0].prevHash)] else []
  {
    if rows != [] {
      var init, last := rows[..|rows| - 1], rows[|rows| - 1];
      assert init == rows[0..|rows| - 1];
      LinkedSlice(c, rows, 0, |rows| - 1);
      LinkedReportsOnlyItsStart(c, init);
      if last.Hashed() {
        assert LinkedAt(c, rows, |rows| - 1);
      }
    }
  }

  lemma {:induction false} LastIsHighest(rows: seq<Entry>, now: Time)
    requires InOrder(rows, now) && rows != []
    ensures forall i :: 0 <= i < |rows| ==> rows[i].id <= rows[|rows| - 1].id
  {
  }

  /** Rows before k lie below the range, rows from m on above it. */
  ghost predicate Outside(rows: seq<Entry>, startId: nat, endId: nat, k: nat, m: nat) {
    && (forall i :: 0 <= i < k && i < |rows| ==> startId != 0 && rows[i].id < startId)
    && (forall i :: m <= i < |rows| ==> endId != 0 && rows[i].id > endId)
  }

  lemma {:induction false} SelectIsSlice(rows: seq<Entry>, now: Time, startId: nat, endId: nat) returns (k: nat, m: nat)
    requires InOrder(rows, now)
    ensures k <= m <= |rows| && Select(rows, startId, endId) == rows[k..m]
    ensures Outside(rows, startId, endId, k, m)
  {
    if rows == [] {
      k, m := 0, 0;
      assert rows[0..0] == [];
    } else {
      LastIsHighest(rows, now);
      if startId != 0 && rows[|rows| - 1].id < startId {
        NoneSelected(rows, startId, endId);
        k, m := |rows|, |rows|;
        assert rows[k..m] == [];
      } else {
        k, m := SelectIsSlice(rows[..|rows| - 1], now, startId, endId);
        k, m := SelectLast(rows, startId, endId, k, m);
      }
    }
  }

  /** The last row is taken, or left out above the range. */
  lemma {:induction false} SelectLast(rows: seq<Entry>, startId: nat, endId: nat, k: nat, m: nat) returns (k': nat, m': nat)
    requires rows != [] && k <= m < |rows| && Select(rows[..|rows| - 1], startId, endId) == rows[..|rows| - 1][k..m]
    requires Outside(rows[..|rows| - 1], startId, endId, k, m) && (startId == 0 || startId <= rows[|rows| - 1].id)
    requires forall i :: 0 <= i < |rows| ==> rows[i].id <= rows[|rows| - 1].id
    ensures k' <= m' <= |rows| && Select(rows, startId, endId) == rows[k'..m']
    ensures Outside(rows, startId, endId, k', m')
  {
    var n := |rows| - 1;
    SliceOfPrefix(rows, n, k, m);
    assert m < n ==> rows[..n][m] == rows[m];
    assert rows[m].id <= rows[n].id;
    if endId == 0 || rows[n].id <= endId {
      SliceSnoc(rows, k);
      k', m' := k, |rows|;
    } else {
      k', m' := k, m;
    }
  }

  lemma {:induction false} NoneSelected(rows: seq<Entry>, startId: nat, endId: nat)
    requires startId != 0 && forall i :: 0 <= i < |rows| ==> rows[i].id < startId
    ensures Select(rows, startId, endId) == []
  {
    if rows != [] {
      NoneSelected(rows[..|rows| - 1], startId, endId);
    }
  }

  /** Any run of logged actions, direct inserts and retention, verified from any start to any end: at most one
      error, a broken back-link of the first selected row, and never a wrong entry hash. */
  lemma {:induction false} RunReportsAtMostItsStart(c: Codec, es: seq<Event>, startId: nat, endId: nat)
    requires Ordered(es) && es != []
    ensures var picked := Select(Run(c, es), startId, endId);
            Errors(c, picked) ==
            if picked != [] && picked[0].Hashed() && picked[0].prevHash != ZEROS
            then [PrevMismatch(picked[0].id, ZEROS, picked[0].prevHash)] else []
  {
    RunLinked(c, es);
    var rows := Run(c, es);
    var k, m := SelectIsSlice(rows, es[|es| - 1].at, startId, endId);
    LinkedSlice(c, rows, k, m);
    LinkedReportsOnlyItsStart(c, rows[k..m]);
  }

  /** Without retention the whole log verifies. */
  lemma {:induction false} RunVerifies(c: Codec, es: seq<Event>)
    requires Ordered(es) && forall i :: 0 <= i < |es| ==> !es[i].Retain?
    ensures Errors(c, Run(c, es)) == []
  {
    RunLinked(c, es);
    RunStartsAtZeros(c, es);
    LinkedReportsOnlyItsStart(c, Run(c, es));
  }

  // ---- tamper evidence ----

  /** What a filled row that passes satisfies. */
  predicate Sound(c: Codec, e: Entry, expected: string) {
    e.prevHash == expected && ComputeHash(c, e, expected) == e.entryHash
  }

  lemma {:induction false} NoErrorsInit(c: Codec, rows: seq<Entry>)
    requires rows != [] && Errors(c, rows) == []
    ensures Errors(c, rows[..|rows| - 1]) == [] && Check(c, rows[|rows| - 1], Carried(rows[..|rows| - 1])) == []
    ensures rows[|rows| - 1].Filled() ==> Sound(c, rows[|rows| - 1], Carried(rows[..|rows| - 1]))
  {
  }

  lemma {:induction false} LineDetermines(c: Codec, a: Entry, p: string, b: Entry, q: string)
    requires Line(c, a, p) == Line(c, b, q) && |p| == |q|
    ensures a.id == b.id && p == q && Columns(c, a) == Columns(c, b)
  {
    var x, y := Columns(c, a) + ['|'] + p, Columns(c, b) + ['|'] + q;
    DecimalReadsBack(a.id);
    DecimalReadsBack(b.id);
    assert Line(c, a, p) == Decimal(a.id) + ['|'] + x && Line(c, b, q) == Decimal(b.id) + ['|'] + y;
    DigitPrefixUnique(Decimal(a.id), Decimal(b.id), '|', x, y);
    DecimalInjective(a.id, b.id);
    assert p == x[|x| - |p|..] && q == y[|y| - |q|..];
    assert Columns(c, a) == x[..|x| - |p| - 1] && Columns(c, b) == y[..|y| - |q| - 1];
  }

  lemma {:induction false} CarriedLength(c: Codec, rows: seq<Entry>)
    requires (forall i :: 0 <= i < |rows| ==> |ComputeHash(c, rows[i], rows[i].prevHash)| == 64) && Errors(c, rows) == []
    ensures |Carried(rows)| == 64
  {
    if rows != [] {
      NoErrorsInit(c, rows);
    }
  }

  lemma {:induction false} StrongParts(c: Codec, a: seq<Entry>, b: seq<Entry>)
    requires Strong(c, a + b)
    ensures Apart(c, a, b)
  {
    var rows := a + b;
    forall i | 0 <= i < |a| ensures HashOk(c, a[i]) { assert HashOk(c, rows[i]); }
    forall k | 0 <= k < |b| ensures HashOk(c, b[k]) { assert HashOk(c, rows[|a| + k]); }
    forall i, k | 0 <= i < |a| && 0 <= k < |b| ensures NoCollision(c, a[i], b[k]) {
      assert NoCollision(c, rows[i], rows[|a| + k]);
    }
  }

  lemma {:induction false} StrongPrefix(c: Codec, a: seq<Entry>, b: seq<Entry>)
    requires Strong(c, a + b)
    ensures Strong(c, a)
  {
    var rows := a + b;
    forall i | 0 <= i < |a| ensures HashOk(c, a[i]) { assert HashOk(c, rows[i]); }
    forall i, k | 0 <= i < k < |a| ensures NoCollision(c, a[i], a[k]) { assert NoCollision(c, rows[i], rows[k]); }
  }

  /** The only place where collisions matter: two lines of the logs compared. */
  lemma {:induction false} SameHashSameRow(c: Codec, a: Entry, b: Entry)
    requires NoCollision(c, a, b) && |a.prevHash| == |b.prevHash|
    requires Sound(c, a, a.prevHash) && Sound(c, b, b.prevHash) && a.entryHash == b.entryHash
    ensures a.id == b.id && a.prevHash == b.prevHash && Columns(c, a) == Columns(c, b)
  {
    LineDetermines(c, a, a.prevHash, b, b.prevHash);
  }

  ghost predicate SameRow(c: Codec, a: Entry, b: Entry) {
    a.id == b.id && Columns(c, a) == Columns(c, b) && a.prevHash == b.prevHash && a.entryHash == b.entryHash
  }

  ghost predicate AllFilled(rows: seq<Entry>) { forall i :: 0 <= i < |rows| ==> rows[i].Filled() }

  /** Two logs that can be compared backwards from their last rows. */
  ghost predicate Comparable(c: Codec, a: seq<Entry>, b: seq<Entry>) {
    && |a| == |b| && AllFilled(a) && AllFilled(b) && Errors(c, a) == [] && Errors(c, b) == []
    && (a != [] ==> a[|a| - 1].entryHash == b[|b| - 1].entryHash)
  }

  lemma {:induction false} LastRowsAgree(c: Codec, a: seq<Entry>, b: seq<Entry>)
    requires Apart(c, a, b) && Comparable(c, a, b) && a != []
    ensures SameRow(c, a[|a| - 1], b[|b| - 1]) && Carried(a[..|a| - 1]) == Carried(b[..|b| - 1])
    ensures Errors(c, a[..|a| - 1]) == [] && Errors(c, b[..|b| - 1]) == []
  {
    var n := |a| - 1;
    NoErrorsInit(c, a);
    NoErrorsInit(c, b);
    LengthOfInit(c, a);
    LengthOfInit(c, b);
    assert NoCollision(c, a[n], b[n]);
    SameHashSameRow(c, a[n], b[n]);
  }

  lemma {:induction false} LengthOfInit(c: Codec, rows: seq<Entry>)
    requires rows != [] && Errors(c, rows) == [] && forall i :: 0 <= i < |rows| ==> HashOk(c, rows[i])
    ensures |Carried(rows[..|rows| - 1])| == 64
  {
    var init := rows[..|rows| - 1];
    NoErrorsInit(c, rows);
    forall i | 0 <= i < |init| ensures |ComputeHash(c, init[i], init[i].prevHash)| == 64 { assert HashOk(c, rows[i]); }
    CarriedLength(c, init);
  }

  lemma {:induction false} ApartInit(c: Codec, a: seq<Entry>, b: seq<Entry>)
    requires Apart(c, a, b) && a != [] && b != []
    ensures Apart(c, a[..|a| - 1], b[..|b| - 1])
  {
    var x, y := a[..|a| - 1], b[..|b| - 1];
    forall i | 0 <= i < |x| ensures HashOk(c, x[i]) { assert HashOk(c, a[i]); }
    forall i | 0 <= i < |y| ensures HashOk(c, y[i]) { assert HashOk(c, b[i]); }
    forall i, k | 0 <= i < |x| && 0 <= k < |y| ensures NoCollision(c, x[i], y[k]) { assert NoCollision(c, a[i], b[k]); }
  }

  lemma FilledInit(rows: seq<Entry>)
    requires AllFilled(rows) && rows != []
    ensures AllFilled(rows[..|rows| - 1])
  {
  }

  lemma CarriedIsLast(rows: seq<Entry>)
    requires AllFilled(rows) && rows != []
    ensures Carried(rows) == rows[|rows| - 1].entryHash
  {
  }

  lemma {:induction false} ComparableInit(c: Codec, a: seq<Entry>, b: seq<Entry>)
    requires Apart(c, a, b) && Comparable(c, a, b) && a != []
    ensures Comparable(c, a[..|a| - 1], b[..|b| - 1])
  {
    LastRowsAgree(c, a, b);
    var x, y := a[..|a| - 1], b[..|b| - 1];
    FilledInit(a);
    FilledInit(b);
    if x != [] {
      CarriedIsLast(x);
      CarriedIsLast(y);
    }
  }

  lemma {:induction false} ApartLogsAgree(c: Codec, a: seq<Entry>, b: seq<Entry>)
    requires Apart(c, a, b) && Comparable(c, a, b)
    ensures forall i :: 0 <= i < |a| ==> SameRow(c, a[i], b[i])
  {
    if a != [] {
      var x, y := a[..|a| - 1], b[..|b| - 1];
      LastRowsAgree(c, a, b);
      ComparableInit(c, a, b);
      ApartInit(c, a, b);
      ApartLogsAgree(c, x, y);
      AgreeSnoc(c, x, a[|a| - 1], y, b[|b| - 1]);
      SplitLast(a);
      SplitLast(b);
    }
  }

  /** When no two lines of theirs collide, two logs of equal length that verify, have every hash filled in and end in
      the same hash agree row by row on id, on the joined text of the hashed columns and on both hashes. */
  lemma {:induction false} SameEndSameLog(c: Codec, a: seq<Entry>, b: seq<Entry>)
    requires Strong(c, a + b) && Comparable(c, a, b)
    ensures forall i :: 0 <= i < |a| ==> SameRow(c, a[i], b[i])
  {
    StrongParts(c, a, b);
    ApartLogsAgree(c, a, b);
  }

  lemma {:induction false} AgreeSnoc(c: Codec, x: seq<Entry>, e: Entry, y: seq<Entry>, f: Entry)
    requires |x| == |y| && SameRow(c, e, f) && forall i :: 0 <= i < |x| ==> SameRow(c, x[i], y[i])
    ensures forall i :: 0 <= i < |x| + 1 ==> SameRow(c, (x + [e])[i], (y + [f])[i])
  {
    forall i | 0 <= i < |x| + 1 ensures SameRow(c, (x + [e])[i], (y + [f])[i]) {
      if i < |x| {
        assert SameRow(c, x[i], y[i]);
      }
    }
  }

  lemma {:induction false} ErrorsSnoc(c: Codec, rows: seq<Entry>, e: Entry)
    ensures Errors(c, rows + [e]) == Errors(c, rows) + Check(c, e, Carried(rows))
  {
    assert (rows + [e])[..|rows|] == rows;
  }

  /** Rows keep their verdicts when what stands before them changes, but for the hash it carries on. */
  lemma {:induction false} SameLastSameVerdicts(c: Codec, x: seq<Entry>, y: seq<Entry>, post: seq<Entry>)
    requires Carried(x) == Carried(y) && Errors(c, x + post) == []
    ensures Errors(c, y + post) == Errors(c, y)
  {
    if post == [] {
      NothingAdded(y, post);
    } else {
      var init, e := post[..|post| - 1], post[|post| - 1];
      AppendLast(x, post);
      AppendLast(y, post);
      NoErrorsSnoc(c, x + init, e);
      SameCarried(x, y, init);
      SameLastSameVerdicts(c, x, y, init);
      ErrorsSnoc(c, y + init, e);
    }
  }

  /** Changing the columns or the id of a row of a verified log, and not its hashes, is reported as one wrong entry hash,
      unless the two lines collide. */
  lemma {:induction false} AlterationIsReported(c: Codec, rows: seq<Entry>, k: nat, f: Entry)
    requires k < |rows| && Errors(c, rows) == [] && rows[k].Filled()
    requires f.prevHash == rows[k].prevHash && f.entryHash == rows[k].entryHash
    requires Line(c, f, f.prevHash) != Line(c, rows[k], rows[k].prevHash) && NoCollision(c, f, rows[k])
    ensures Errors(c, rows[k := f]) == [EntryMismatch(f.id, ComputeHash(c, f, f.prevHash), f.entryHash)]
  {
    AroundRow(rows, k, f);
    OneRowAltered(c, rows[..k], rows[k], f, rows[k + 1..]);
  }

  lemma {:induction false} AroundRow(rows: seq<Entry>, k: nat, f: Entry)
    requires k < |rows|
    ensures rows == rows[..k] + [rows[k]] + rows[k + 1..] && rows[k := f] == rows[..k] + [f] + rows[k + 1..]
  {
  }

  lemma {:induction false} OneRowAltered(c: Codec, pre: seq<Entry>, r: Entry, f: Entry, post: seq<Entry>)
    requires Errors(c, pre + [r] + post) == [] && r.Filled() && f.prevHash == r.prevHash && f.entryHash == r.entryHash
    requires Line(c, f, f.prevHash) != Line(c, r, r.prevHash) && NoCollision(c, f, r)
    ensures Errors(c, pre + [f] + post) == [EntryMismatch(f.id, ComputeHash(c, f, f.prevHash), f.entryHash)]
  {
    ErrorsPrefix(c, pre + [r], post);
    NoErrorsSnoc(c, pre, r);
    CarriedLast(pre, r, f);
    SameLastSameVerdicts(c, pre + [r], pre + [f], post);
    OnlyEntryHash(c, r, f, Carried(pre));
    VerdictAfterNone(c, pre, f);
  }

  lemma {:induction false} VerdictAfterNone(c: Codec, pre: seq<Entry>, f: Entry)
    requires Errors(c, pre) == []
    ensures Errors(c, pre + [f]) == Check(c, f, Carried(pre))
  {
    ErrorsSnoc(c, pre, f);
  }

  lemma {:induction false} CarriedLast(pre: seq<Entry>, r: Entry, f: Entry)
    requires r.entryHash == f.entryHash
    ensures Carried(pre + [r]) == Carried(pre + [f])
  {
  }

  lemma {:induction false} OnlyEntryHash(c: Codec, r: Entry, f: Entry, expected: string)
    requires r.Filled() && Check(c, r, expected) == [] && f.prevHash == r.prevHash && f.entryHash == r.entryHash
    requires Line(c, f, f.prevHash) != Line(c, r, r.prevHash) && NoCollision(c, f, r)
    ensures Check(c, f, expected) == [EntryMismatch(f.id, ComputeHash(c, f, f.prevHash), f.entryHash)]
  {
  }

  /** Rows after the first keep their verdicts whatever stands before them. */
  lemma {:induction false} VerdictsOfTail(c: Codec, before: seq<Entry>, other: seq<Entry>, post: seq<Entry>)
    requires post != [] && Errors(c, before + post) == []
    ensures Errors(c, other + post) == Errors(c, other) + Check(c, post[0], Carried(other))
  {
    SplitHead(before, post);
    SplitHead(other, post);
    SameLastSameVerdicts(c, before + [post[0]], other + [post[0]], post[1..]);
    ErrorsSnoc(c, other, post[0]);
  }

  lemma {:induction false} SplitHead(rows: seq<Entry>, post: seq<Entry>)
    requires post != []
    ensures rows + post == rows + [post[0]] + post[1..]
  {
  }

  lemma {:induction false} NoErrorsSnoc(c: Codec, rows: seq<Entry>, e: Entry)
    requires Errors(c, rows + [e]) == []
    ensures Errors(c, rows) == [] && Check(c, e, Carried(rows)) == []
  {
    ErrorsSnoc(c, rows, e);
  }

  lemma {:induction false} NothingAdded(rows: seq<Entry>, none: seq<Entry>)
    requires none == []
    ensures rows + none == rows
  {
  }

  lemma {:induction false} SameCarried(before: seq<Entry>, other: seq<Entry>, rows: seq<Entry>)
    requires Carried(before) == Carried(other)
    ensures Carried(before + rows) == Carried(other + rows)
  {
    if rows == [] {
      NothingAdded(before, rows);
      NothingAdded(other, rows);
    } else {
      assert (before + rows)[|before + rows| - 1] == rows[|rows| - 1] == (other + rows)[|other + rows| - 1];
    }
  }

  lemma {:induction false} ErrorsPrefix(c: Codec, pre: seq<Entry>, post: seq<Entry>)
    requires Errors(c, pre + post) == []
    ensures Errors(c, pre) == []
  {
    if post == [] {
      assert pre + post == pre;
    } else {
      NoErrorsInit(c, pre + post);
      assert (pre + post)[..|pre + post| - 1] == pre + post[..|post| - 1];
      ErrorsPrefix(c, pre, post[..|post| - 1]);
    }
  }

  /** Rows with different ids never carry the same hash. */
  lemma {:induction false} CarriedDiffers(c: Codec, pre: seq<Entry>, mid: seq<Entry>)
    requires Strong(c, pre + mid) && Errors(c, pre + mid) == [] && mid != []
    requires AllFilled(pre + mid) && forall i :: 0 <= i < |pre| ==> pre[i].id < mid[|mid| - 1].id
    ensures Carried(pre) != Carried(pre + mid)
  {
    var rows := pre + mid;
    var x := rows[|rows| - 1];
    NoErrorsInit(c, rows);
    LengthOfInit(c, rows);
    assert HashOk(c, x) && x == mid[|mid| - 1];
    if pre != [] {
      var y := rows[|pre| - 1];
      assert y == pre[|pre| - 1];
      ErrorsPrefix(c, pre, mid);
      NoErrorsInit(c, pre);
      StrongPrefix(c, pre, mid);
      LengthOfInit(c, pre);
      assert NoCollision(c, y, x);
      if x.entryHash == y.entryHash {
        SameHashSameRow(c, y, x);
      }
    }
  }

  lemma {:induction false} BlockIsReported(c: Codec, pre: seq<Entry>, mid: seq<Entry>, post: seq<Entry>)
    requires Strong(c, pre + mid + post) && Errors(c, pre + mid + post) == [] && mid != [] && post != []
    requires AllFilled(pre + mid) && AllFilled(post)
    requires forall i :: 0 <= i < |pre| ==> pre[i].id < mid[|mid| - 1].id
    ensures Errors(c, pre + post) == [PrevMismatch(post[0].id, Carried(pre), post[0].prevHash)]
  {
    StrongPrefix(c, pre + mid, post);
    ErrorsPrefix(c, pre + mid, post);
    ErrorsPrefix(c, pre, mid);
    CarriedDiffers(c, pre, mid);
    VerdictsOfTail(c, pre + mid, pre + mid, post);
    CheckMoved(c, post[0], Carried(pre + mid), Carried(pre));
    VerdictsOfTail(c, pre + mid, pre, post);
    assert [] + [PrevMismatch(post[0].id, Carried(pre), post[0].prevHash)] == [PrevMismatch(post[0].id, Carried(pre), post[0].prevHash)];
  }

  /** Cutting a non-empty block, rows k to m, out of a verified log, so that rows remain after it, is reported: exactly
      one broken back-link, at the first row after the cut. */
  lemma {:induction false} RemovalIsReported(c: Codec, rows: seq<Entry>, k: nat, m: nat)
    requires Strong(c, rows) && Errors(c, rows) == [] && AllFilled(rows) && k < m < |rows|
    requires forall i :: 0 <= i < k ==> rows[i].id < rows[m - 1].id
    ensures Errors(c, rows[..k] + rows[m..]) == [PrevMismatch(rows[m].id, Carried(rows[..k]), rows[m].prevHash)]
  {
    var pre, mid, post := ThreeParts(rows, k, m);
    BlockIsReported(c, pre, mid, post);
  }

  lemma {:induction false} ThreeParts(rows: seq<Entry>, k: nat, m: nat) returns (pre: seq<Entry>, mid: seq<Entry>, post: seq<Entry>)
    requires k < m < |rows| && AllFilled(rows) && forall i :: 0 <= i < k ==> rows[i].id < rows[m - 1].id
    ensures pre == rows[..k] && post == rows[m..] && pre + mid + post == rows && mid != [] && post != [] && post[0] == rows[m]
    ensures AllFilled(pre + mid) && AllFilled(post)
    ensures forall i :: 0 <= i < |pre| ==> pre[i].id < mid[|mid| - 1].id
  {
    pre, mid, post := rows[..k], rows[k..m], rows[m..];
    assert pre + mid == rows[..m];
  }

  lemma {:induction false} CheckMoved(c: Codec, e: Entry, x: string, y: string)
    requires e.Filled() && Check(c, e, x) == [] && x != y
    ensures Check(c, e, y) == [PrevMismatch(e.id, y, e.prevHash)]
  {
  }

  /** Cutting off the end of a verified log is never reported. */
  lemma {:induction false} TruncationIsSilent(c: Codec, pre: seq<Entry>, post: seq<Entry>)
    requires Errors(c, pre + post) == []
    ensures Errors(c, pre) == []
  {
    ErrorsPrefix(c, pre, post);
  }

  // ---- what the joined columns determine ----

  predicate NoBar(s: string) { '|' !in s }

  lemma {:induction false} FirstBar(d: string, x: string, e: string, y: string)
    requires NoBar(d) && NoBar(e) && d + ['|'] + x == e + ['|'] + y
    ensures d == e && x == y
  {
    var l, r := d + ['|'] + x, e + ['|'] + y;
    assert l[|d|] == '|' && r[|e|] == '|';
    assert forall i :: 0 <= i < |d| ==> l[i] == d[i] && d[i] in d;
    assert forall i :: 0 <= i < |e| ==> r[i] == e[i] && e[i] in e;
    assert |d| == |e|;
    assert d == l[..|d|] && e == r[..|e|] && x == l[|d| + 1..] && y == r[|e| + 1..];
  }

  lemma {:induction false} JoinSnoc(parts: seq<string>, last: string)
    requires parts != []
    ensures Join(parts + [last]) == Join(parts) + ['|'] + last
  {
    InitOfSnoc(parts, last);
  }

  lemma {:induction false} BarsAssociate(x: string, y: string, z: string)
    ensures x + ['|'] + y + ['|'] + z == x + ['|'] + (y + ['|'] + z)
  {
  }

  /** The five columns before the details, the details and the outcome. */
  function Head(c: Codec, e: Entry): seq<string> {
    [c.showTime(e.timestamp), Show(e.username), e.action, Show(e.resourceType), Show(e.resourceId)]
  }

  lemma {:induction false} ColumnsSplit(c: Codec, e: Entry)
    ensures Columns(c, e) == Join(Head(c, e)) + ['|'] + (Show(e.details) + ['|'] + Outcome(e))
  {
    var h := Head(c, e);
    JoinSnoc(h, Show(e.details));
    JoinSnoc(h + [Show(e.details)], Outcome(e));
    assert h + [Show(e.details)] + [Outcome(e)] ==
           [c.showTime(e.timestamp), Show(e.username), e.action, Show(e.resourceType), Show(e.resourceId), Show(e.details), Outcome(e)];
    BarsAssociate(Join(h), Show(e.details), Outcome(e));
  }

  /** Columns without a bar can be read off the front of a joined text, one after the other. */
  lemma {:induction false} HeadDetermined(p: seq<string>, x: string, q: seq<string>, y: string)
    requires |p| == |q| && p != [] && (forall i :: 0 <= i < |p| ==> NoBar(p[i]) && NoBar(q[i]))
    requires Join(p) + ['|'] + x == Join(q) + ['|'] + y
    ensures p == q && x == y
  {
    var n := |p| - 1;
    if n == 0 {
      FirstBar(p[0], x, q[0], y);
      assert p == [p[0]] && q == [q[0]];
    } else {
      SplitLast(p);
      SplitLast(q);
      JoinSnoc(p[..n], p[n]);
      JoinSnoc(q[..n], q[n]);
      BarsAssociate(Join(p[..n]), p[n], x);
      BarsAssociate(Join(q[..n]), q[n], y);
      HeadDetermined(p[..n], p[n] + ['|'] + x, q[..n], q[n] + ['|'] + y);
      FirstBar(p[n], x, q[n], y);
    }
  }

  /** No bar in the columns before the details, and no column holding the very word that stands for a missing one. */
  predicate Plain(c: Codec, e: Entry) {
    && (forall i :: 0 <= i < 5 ==> NoBar(Head(c, e)[i]))
    && e.username != Some("None") && e.resourceType != Some("None") && e.resourceId != Some("None") && e.details != Some("None")
  }

  lemma {:induction false} ShowDetermined(a: Option<string>, b: Option<string>)
    requires Show(a) == Show(b) && a != Some("None") && b != Some("None")
    ensures a == b
  {
  }

  /** For such rows the hashed text determines every hashed column; the details may hold anything. */
  lemma {:induction false} FieldsDetermined(c: Codec, a: Entry, b: Entry)
    requires Columns(c, a) == Columns(c, b) && Plain(c, a) && Plain(c, b)
    requires c.showTime(a.timestamp) == c.showTime(b.timestamp) ==> a.timestamp == b.timestamp
    ensures b == a.(id := b.id, prevHash := b.prevHash, entryHash := b.entryHash)
  {
    ColumnsSplit(c, a);
    ColumnsSplit(c, b);
    HeadDetermined(Head(c, a), Show(a.details) + ['|'] + Outcome(a), Head(c, b), Show(b.details) + ['|'] + Outcome(b));
    assert Head(c, a)[0] == Head(c, b)[0] && Head(c, a)[1] == Head(c, b)[1] && Head(c, a)[2] == Head(c, b)[2];
    assert Head(c, a)[3] == Head(c, b)[3] && Head(c, a)[4] == Head(c, b)[4];
    LastColumn(Show(a.details), a.success, Show(b.details), b.success);
    ShowDetermined(a.username, b.username);
    ShowDetermined(a.resourceType, b.resourceType);
    ShowDetermined(a.resourceId, b.resourceId);
    ShowDetermined(a.details, b.details);
  }

  lemma {:induction false} LastColumn(x: string, s: bool, y: string, t: bool)
    requires var l, r := if s then "True" else "False", if t then "True" else "False"; x + ['|'] + l == y + ['|'] + r
    ensures s == t && x == y
  {
    var l := x + ['|'] + if s then "True" else "False";
    var r := y + ['|'] + if t then "True" else "False";
    assert l[|l| - 4] == if s then 'T' else 'a';
    assert r[|r| - 4] == if t then 'T' else 'a';
    assert x == l[..|x|] && y == r[..|y|];
  }

  // ---- exactly which rows the text determines ----

  /** How many bars a text holds. */
  function Bars(s: string): nat {
    if s == [] then 0 else Bars(s[..|s| - 1]) + if s[|s| - 1] == '|' then 1 else 0
  }

  lemma {:induction false} BarsAdd(a: string, b: string)
    ensures Bars(a + b) == Bars(a) + Bars(b)
  {
    if b == [] {
      assert a + b == a;
    } else {
      assert (a + b)[..|a + b| - 1] == a + b[..|b| - 1];
      BarsAdd(a, b[..|b| - 1]);
    }
  }

  lemma {:induction false} NoBars(s: string)
    ensures Bars(s) == 0 <==> NoBar(s)
  {
    if s != [] {
      NoBars(s[..|s| - 1]);
      SplitLast(s);
    }
  }

  function BarsOfAll(parts: seq<string>): nat {
    if parts == [] then 0 else BarsOfAll(parts[..|parts| - 1]) + Bars(parts[|parts| - 1])
  }

  predicate BarFree(parts: seq<string>) { forall i :: 0 <= i < |parts| ==> NoBar(parts[i]) }

  lemma {:induction false} BarFreeIff(parts: seq<string>)
    ensures BarsOfAll(parts) == 0 <==> BarFree(parts)
  {
    if parts != [] {
      BarFreeIff(parts[..|parts| - 1]);
      NoBars(parts[|parts| - 1]);
    }
  }

  /** A joined text holds the bars of its parts and one between any two of them. */
  lemma {:induction false} BarsOfJoin(parts: seq<string>)
    requires parts != []
    ensures Bars(Join(parts)) == BarsOfAll(parts) + |parts| - 1
  {
    var init, last := parts[..|parts| - 1], parts[|parts| - 1];
    if init == [] {
      assert BarsOfAll(init) == 0;
    } else {
      BarsOfJoin(init);
      BarsAdd(Join(init) + ['|'], last);
      BarsAdd(Join(init), ['|']);
      assert ['|'][..0] == [] && Bars(['|']) == 1;
    }
  }

  /** As many parts, the same text and no bar in the one list: then none in the other, and the lists are one. */
  lemma {:induction false} PartsDetermined(p: seq<string>, q: seq<string>)
    requires |p| == |q| && |p| >= 2 && Join(p) == Join(q) && BarFree(p)
    ensures p == q
  {
    BarsOfJoin(p);
    BarsOfJoin(q);
    BarFreeIff(p);
    BarFreeIff(q);
    var n := |p| - 1;
    SplitLast(p);
    SplitLast(q);
    JoinSnoc(p[..n], p[n]);
    JoinSnoc(q[..n], q[n]);
    HeadDetermined(p[..n], p[n], q[..n], q[n]);
  }

  lemma {:induction false} JoinPair(pre: seq<string>, x: string, y: string)
    requires pre != []
    ensures Join(pre + [x, y]) == Join(pre) + ['|'] + (x + ['|'] + y)
  {
    JoinSnoc(pre, x);
    JoinSnoc(pre + [x], y);
    assert pre + [x] + [y] == pre + [x, y];
    BarsAssociate(Join(pre), x, y);
  }

  /** What is joined in the middle may be cut anywhere. */
  lemma {:induction false} JoinMiddle(pre: seq<string>, a: string, b: string, x: string, y: string, post: seq<string>)
    requires pre != [] && a + ['|'] + b == x + ['|'] + y
    ensures Join(pre + [a, b] + post) == Join(pre + [x, y] + post)
  {
    if post == [] {
      JoinPair(pre, a, b);
      JoinPair(pre, x, y);
      assert pre + [a, b] + post == pre + [a, b] && pre + [x, y] + post == pre + [x, y];
    } else {
      var init, last := post[..|post| - 1], post[|post| - 1];
      JoinMiddle(pre, a, b, x, y, init);
      SplitLast(post);
      JoinSnoc(pre + [a, b] + init, last);
      JoinSnoc(pre + [x, y] + init, last);
      assert pre + [a, b] + post == pre + [a, b] + init + [last] && pre + [x, y] + post == pre + [x, y] + init + [last];
    }
  }

  lemma {:induction false} CutAtBar(s: string) returns (x: string, y: string)
    requires !NoBar(s)
    ensures s == x + ['|'] + y
  {
    var i :| 0 <= i < |s| && s[i] == '|';
    x, y := s[..i], s[i + 1..];
  }

  /** Moving the bar of part j, and what stands after it, to the next part, or what stands before it to the one before. */
  lemma {:induction false} ShiftBar(parts: seq<string>, j: nat) returns (k: nat, x: string, y: string)
    requires |parts| == 7 && 1 <= j <= 5 && !NoBar(parts[j])
    ensures k == (if j == 5 then 4 else j) && parts[k := x][k + 1 := y] != parts
    ensures Join(parts[k := x][k + 1 := y]) == Join(parts)
  {
    var u, v := CutAtBar(parts[j]);
    k := if j == 5 then 4 else j;
    if j == 5 {
      x, y := parts[4] + ['|'] + u, v;
      BarsAssociate(parts[4], u, v);
    } else {
      x, y := u, v + ['|'] + parts[j + 1];
      BarsAssociate(u, v, parts[j + 1]);
    }
    var other := parts[k := x][k + 1 := y];
    assert |other[k]| != |parts[k]|;
    JoinMiddle(parts[..k], parts[k], parts[k + 1], x, y, parts[k + 2..]);
    assert parts == parts[..k] + [parts[k], parts[k + 1]] + parts[k + 2..];
    assert other == parts[..k] + [x, y] + parts[k + 2..];
  }

  /** The row that prints as these parts, up to the outcome and the time, which are those of e. */
  function WithParts(e: Entry, parts: seq<string>): Entry
    requires |parts| == 7
  {
    e.(username := Some(parts[1]), action := parts[2], resourceType := Some(parts[3]), resourceId := Some(parts[4]),
       details := Some(parts[5]))
  }

  /** A row with a bar in some column has a twin of another reading with the same text. */
  lemma {:induction false} BarHasTwin(c: Codec, e: Entry) returns (b: Entry)
    requires NoBar(c.showTime(e.timestamp)) && !BarFree(Parts(c, e))
    ensures Columns(c, b) == Columns(c, e) && Parts(c, b) != Parts(c, e)
  {
    var parts := Parts(c, e);
    assert NoBar(parts[0]) && NoBar(parts[6]);
    var j :| 0 <= j < 7 && !NoBar(parts[j]);
    assert 1 <= j <= 5;
    var k, x, y := ShiftBar(parts, j);
    var other := parts[k := x][k + 1 := y];
    b := WithParts(e, other);
    assert Parts(c, b) == other;
  }

  predicate SameShown(a: Option<string>, b: Option<string>) {
    a == b || (a == None && b == Some("None")) || (a == Some("None") && b == None)
  }

  /** The same hashed columns, up to a missing text against the word None and to times that print alike. */
  predicate Alike(c: Codec, a: Entry, b: Entry) {
    && c.showTime(a.timestamp) == c.showTime(b.timestamp) && a.action == b.action && a.success == b.success
    && SameShown(a.username, b.username) && SameShown(a.resourceType, b.resourceType)
    && SameShown(a.resourceId, b.resourceId) && SameShown(a.details, b.details)
  }

  lemma {:induction false} AlikeIffParts(c: Codec, a: Entry, b: Entry)
    ensures Alike(c, a, b) <==> Parts(c, a) == Parts(c, b)
  {
    var p, q := Parts(c, a), Parts(c, b);
    if p == q {
      assert p[0] == q[0] && p[1] == q[1] && p[2] == q[2] && p[3] == q[3] && p[4] == q[4] && p[5] == q[5] && p[6] == q[6];
      assert Outcome(a)[0] == Outcome(b)[0];
    }
  }

  /** The text of a row determines its columns, against any other row whatever, if and only if no column of it holds a
      bar. */
  lemma {:induction false} FieldsDeterminedIff(c: Codec, a: Entry)
    requires NoBar(c.showTime(a.timestamp))
    ensures (forall b :: Columns(c, b) == Columns(c, a) ==> Alike(c, a, b)) <==> BarFree(Parts(c, a))
  {
    if BarFree(Parts(c, a)) {
      forall b | Columns(c, b) == Columns(c, a) ensures Alike(c, a, b) {
        PartsDetermined(Parts(c, a), Parts(c, b));
        AlikeIffParts(c, a, b);
      }
    } else {
      var b := BarHasTwin(c, a);
      AlikeIffParts(c, a, b);
      assert Columns(c, b) == Columns(c, a) && !Alike(c, a, b);
    }
  }

  /** Two rows that differ in two columns and are hashed as one and the same line. */
  lemma {:induction false} OneLineTwoRows(c: Codec, e: Entry, prev: string) returns (a: Entry, b: Entry)
    ensures a.action != b.action && a.resourceType != b.resourceType && a.id == b.id == e.id
    ensures Line(c, a, prev) == Line(c, b, prev)
  {
    a := e.(action := "x", resourceType := Some("y|z"));
    b := e.(action := "x|y", resourceType := Some("z"));
    var t, u, r := c.showTime(e.timestamp), Show(e.username), Show(e.resourceId);
    HeadText(t, u, "x", "y|z", r);
    HeadText(t, u, "x|y", "z", r);
    assert "x" + ['|'] + "y|z" == "x|y" + ['|'] + "z";
    ColumnsSplit(c, a);
    ColumnsSplit(c, b);
  }

  lemma {:induction false} HeadText(t: string, u: string, a: string, r: string, i: string)
    ensures Join([t, u, a, r, i]) == Join([t, u]) + ['|'] + (a + ['|'] + r) + ['|'] + i
  {
    JoinSnoc([t, u], a);
    JoinSnoc([t, u, a], r);
    JoinSnoc([t, u, a, r], i);
    assert [t, u] + [a] == [t, u, a] && [t, u, a] + [r] == [t, u, a, r] && [t, u, a, r] + [i] == [t, u, a, r, i];
    BarsAssociate(Join([t, u]), a, r);
  }

  // ---- the hypotheses can be met ----

  function Digits(ch: char): (s: string)
    ensures |s| == 64 && forall i :: 0 <= i < 64 ==> s[i] == ch
  {
    seq(64, _ => ch)
  }

  /** A hash good enough for logs with one-digit ids: 64 times the first character. */
  function ToyCodec(): Codec {
    Codec(line => Digits(if line == "" then '?' else line[0]), t => "t")
  }

  lemma {:induction false} ToyHash(e: Entry, prev: string)
    requires 1 <= e.id < 10
    ensures Line(ToyCodec(), e, prev) != "" && Line(ToyCodec(), e, prev)[0] == DigitChar(e.id)
    ensures ComputeHash(ToyCodec(), e, prev) == Digits(DigitChar(e.id))
  {
    assert Decimal(e.id) == [DigitChar(e.id)];
  }

  ghost predicate OneDigitIds(rows: seq<Entry>) {
    |rows| < 10 && forall i :: 0 <= i < |rows| ==> rows[i].id == i + 1
  }

  lemma {:induction false} RepeatsDiffer(m: nat, n: nat)
    requires m < 10 && n < 10 && Digits(DigitChar(m)) == Digits(DigitChar(n))
    ensures m == n
  {
    assert Digits(DigitChar(m))[0] == DigitChar(m) && Digits(DigitChar(n))[0] == DigitChar(n);
  }

  lemma {:induction false} NotZeros(n: nat)
    requires 1 <= n < 10
    ensures Digits(DigitChar(n)) != ZEROS
  {
    assert Digits(DigitChar(n))[63] == DigitChar(n) && ZEROS[63] == '0';
  }

  lemma {:induction false} ToyHashOk(e: Entry)
    requires 1 <= e.id < 10
    ensures HashOk(ToyCodec(), e)
  {
    ToyHash(e, e.prevHash);
    NotZeros(e.id);
  }

  function Folded(n: nat, i: nat): nat
    requires i < n + n
  {
    if i < n then i else i - n
  }

  lemma {:induction false} FoldedAt(rows: seq<Entry>, i: nat)
    requires i < |rows| + |rows|
    ensures Folded(|rows|, i) < |rows| && (rows + rows)[i] == rows[Folded(|rows|, i)]
  {
  }

  /** Two copies of a log share every line, and its own lines differ in the id. */
  lemma {:induction false} ToyIsStrong(rows: seq<Entry>)
    requires OneDigitIds(rows)
    ensures Strong(ToyCodec(), rows) && Strong(ToyCodec(), rows + rows)
  {
    var c, twice, n := ToyCodec(), rows + rows, |rows|;
    forall i | 0 <= i < |twice| ensures HashOk(c, twice[i]) {
      FoldedAt(rows, i);
      ToyHashOk(rows[Folded(n, i)]);
    }
    forall i, k | 0 <= i < k < |twice| ensures NoCollision(c, twice[i], twice[k]) {
      FoldedAt(rows, i);
      FoldedAt(rows, k);
      ToyApart(rows, Folded(n, i), Folded(n, k));
    }
    StrongPrefix(c, rows, rows);
  }

  lemma {:induction false} ToyApart(rows: seq<Entry>, x: nat, y: nat)
    requires OneDigitIds(rows) && x < |rows| && y < |rows|
    ensures NoCollision(ToyCodec(), rows[x], rows[y])
  {
    ToyHash(rows[x], rows[x].prevHash);
    ToyHash(rows[y], rows[y].prevHash);
    if ComputeHash(ToyCodec(), rows[x], rows[x].prevHash) == ComputeHash(ToyCodec(), rows[y], rows[y].prevHash) {
      RepeatsDiffer(x + 1, y + 1);
    }
  }

  const NOTE := Fields(Some("admin"), "login", None, None, None, true)

  /** The line does not hold the row's own hashes. */
  lemma {:induction false} SameLines(c: Codec, e: Entry, f: Entry, prev: string)
    requires e == f.(prevHash := e.prevHash, entryHash := e.entryHash)
    ensures ComputeHash(c, e, prev) == ComputeHash(c, f, prev)
  {
  }

  /** Logging on top of a log that verifies and is fully hashed leaves it so. */
  lemma {:induction false} LoggedVerifies(c: Codec, rows: seq<Entry>, f: Fields, at: Time)
    requires (forall x :: |c.hash(x)| == 64) && Errors(c, rows) == []
    ensures Chained(c, rows, f, at).Filled() && Chained(c, rows, f, at).id == NextId(rows)
    ensures Errors(c, rows + [Chained(c, rows, f, at)]) == []
  {
    var e := Chained(c, rows, f, at);
    CarriedLength(c, rows);
    SameLines(c, e, Unhashed(rows, f, at), Carried(rows));
    ErrorsSnoc(c, rows, e);
  }

  lemma {:induction false} IdsSnoc(rows: seq<Entry>, e: Entry)
    requires (forall i :: 0 <= i < |rows| ==> rows[i].id == i + 1) && AllFilled(rows) && e.id == |rows| + 1 && e.Filled()
    ensures (forall i :: 0 <= i < |rows + [e]| ==> (rows + [e])[i].id == i + 1) && AllFilled(rows + [e])
  {
  }

  /** A log of n actions. */
  lemma {:induction false} LogMany(c: Codec, n: nat) returns (rows: seq<Entry>)
    requires forall x :: |c.hash(x)| == 64
    ensures |rows| == n && (forall i :: 0 <= i < |rows| ==> rows[i].id == i + 1) && AllFilled(rows)
    ensures Errors(c, rows) == []
  {
    if n == 0 {
      rows := [];
    } else {
      var init := LogMany(c, n - 1);
      var e := Chained(c, init, NOTE, 0);
      LoggedVerifies(c, init, NOTE, 0);
      IdsSnoc(init, e);
      rows := init + [e];
    }
  }

  lemma SelfComparable(c: Codec, rows: seq<Entry>)
    requires AllFilled(rows) && Errors(c, rows) == []
    ensures Comparable(c, rows, rows)
  {
  }

  /** Three logged actions meet every hypothesis of SameEndSameLog and of RemovalIsReported. */
  lemma {:induction false} TamperEvidenceApplies() returns (c: Codec, rows: seq<Entry>, k: nat, m: nat)
    ensures 0 < k < m < |rows| && AllFilled(rows) && Errors(c, rows) == []
    ensures Strong(c, rows) && Strong(c, rows + rows) && Comparable(c, rows, rows)
    ensures forall i :: 0 <= i < k ==> rows[i].id < rows[m - 1].id
  {
    c, k, m := ToyCodec(), 1, 2;
    rows := LogMany(c, 3);
    ToyIsStrong(rows);
    SelfComparable(c, rows);
  }
}

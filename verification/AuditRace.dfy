/** Loggers that overlap. One logger inserts its row, reads the row before it, and commits; on a database that lets
    transactions run side by side, other loggers may take any of their steps in between. A row not yet committed is
    invisible to the others, so two loggers may link to the same row and the chain forks. This module says exactly
    when. */
module AuditRace {
  import opened Common
  import opened AuditChain

  /** A row of an open transaction; it has its id since the flush, and its hashes once it is linked. */
  datatype Draft = Draft(entry: Entry, linked: bool)

  /** `table` holds the committed rows by id. */
  datatype Db = Db(nextId: nat, table: seq<Entry>, drafts: map<nat, Draft>)

  datatype Event =
    | Flush(logger: nat, fields: Fields, at: Time)
    | Link(logger: nat)
    | Commit(logger: nat)
    | Rollback(logger: nat)

  /** filter(id < own id) */
  function Below(table: seq<Entry>, id: nat): seq<Entry> {
    if table == [] then []
    else
      var e, rest := table[|table| - 1], Below(table[..|table| - 1], id);
      if e.id < id then rest + [e] else rest
  }

  function Above(table: seq<Entry>, id: nat): seq<Entry> {
    if table == [] then []
    else
      var e, rest := table[|table| - 1], Above(table[..|table| - 1], id);
      if e.id > id then rest + [e] else rest
  }

  function Placed(table: seq<Entry>, e: Entry): seq<Entry> { Below(table, e.id) + [e] + Above(table, e.id) }

  function Fresh(id: nat, f: Fields, at: Time): Entry {
    Entry(id, at, f.username, f.action, f.resourceType, f.resourceId, f.details, f.success, "", "")
  }

  /** The row linked to the last visible row before it. */
  function Linked(c: Codec, table: seq<Entry>, e: Entry): Entry {
    var prev := Carried(Below(table, e.id));
    e.(prevHash := prev, entryHash := ComputeHash(c, e, prev))
  }

  function Step(c: Codec, db: Db, e: Event): Db {
    match e
    case Flush(g, f, at) =>
      if g in db.drafts then db
      else Db(db.nextId + 1, db.table, db.drafts[g := Draft(Fresh(db.nextId, f, at), false)])
    case Link(g) =>
      if g in db.drafts && !db.drafts[g].linked
      then db.(drafts := db.drafts[g := Draft(Linked(c, db.table, db.drafts[g].entry), true)])
      else db
    case Commit(g) =>
      if g in db.drafts && db.drafts[g].linked
      then Db(db.nextId, Placed(db.table, db.drafts[g].entry), db.drafts - {g})
      else db
    case Rollback(g) => db.(drafts := db.drafts - {g})
  }

  function Run(c: Codec, es: seq<Event>): Db {
    if es == [] then Db(1, [], map[]) else Step(c, Run(c, es[..|es| - 1]), es[|es| - 1])
  }

  // ---- the table ----

  ghost predicate ById(table: seq<Entry>) { forall i, j :: 0 <= i < j < |table| ==> table[i].id < table[j].id }

  lemma {:induction false} BelowMembers(table: seq<Entry>, id: nat)
    requires ById(table)
    ensures ById(Below(table, id)) && forall e :: e in Below(table, id) <==> e in table && e.id < id
  {
    if table != [] {
      BelowMembers(table[..|table| - 1], id);
      SplitLast(table);
    }
  }

  lemma {:induction false} AboveMembers(table: seq<Entry>, id: nat)
    requires ById(table)
    ensures ById(Above(table, id)) && forall e :: e in Above(table, id) <==> e in table && e.id > id
  {
    if table != [] {
      AboveMembers(table[..|table| - 1], id);
      SplitLast(table);
    }
  }

  lemma {:induction false} PlacedMembers(table: seq<Entry>, e: Entry)
    requires ById(table) && forall x :: x in table ==> x.id != e.id
    ensures ById(Placed(table, e)) && forall x :: x in Placed(table, e) <==> x in table || x == e
  {
    BelowMembers(table, e.id);
    AboveMembers(table, e.id);
    var low, high := Below(table, e.id), Above(table, e.id);
    forall i, j | 0 <= i < j < |Placed(table, e)| ensures Placed(table, e)[i].id < Placed(table, e)[j].id {
      assert i < |low| ==> low[i] in low;
      assert j > |low| ==> high[j - |low| - 1] in high;
      assert i > |low| ==> high[i - |low| - 1] in high;
      assert j < |low| ==> low[j] in low;
    }
  }

  /** Ids are handed out once, in order. */
  ghost predicate Numbered(db: Db) {
    && ById(db.table) && (forall e :: e in db.table ==> e.id < db.nextId)
    && (forall g :: g in db.drafts ==> db.drafts[g].entry.id < db.nextId && forall e :: e in db.table ==> e.id != db.drafts[g].entry.id)
    && (forall g, h :: g in db.drafts && h in db.drafts && g != h ==> db.drafts[g].entry.id != db.drafts[h].entry.id)
  }

  lemma {:induction false} NumberedStep(c: Codec, db: Db, e: Event)
    requires Numbered(db)
    ensures Numbered(Step(c, db, e)) && forall x :: x in db.table ==> x in Step(c, db, e).table
    ensures forall x :: x in Step(c, db, e).table && x !in db.table ==>
              e.Commit? && e.logger in db.drafts && db.drafts[e.logger].linked && x == db.drafts[e.logger].entry
  {
    if e.Commit? && e.logger in db.drafts && db.drafts[e.logger].linked {
      PlacedMembers(db.table, db.drafts[e.logger].entry);
    }
  }

  lemma {:induction false} RunNumbered(c: Codec, es: seq<Event>)
    ensures Numbered(Run(c, es))
  {
    if es != [] {
      RunNumbered(c, es[..|es| - 1]);
      NumberedStep(c, Run(c, es[..|es| - 1]), es[|es| - 1]);
    }
  }

  lemma {:induction false} TableGrows(c: Codec, es: seq<Event>, k: nat)
    requires k <= |es|
    ensures forall e :: e in Run(c, es[..k]).table ==> e in Run(c, es).table
  {
    if k == |es| {
      assert es[..k] == es;
    } else {
      TableGrows(c, es[..|es| - 1], k);
      assert es[..|es| - 1][..k] == es[..k];
      RunNumbered(c, es[..|es| - 1]);
      NumberedStep(c, Run(c, es[..|es| - 1]), es[|es| - 1]);
    }
  }

  // ---- where a row was linked ----

  /** Step k linked this row, to what was visible after the k steps before it. */
  ghost predicate LinkedAt(c: Codec, es: seq<Event>, k: nat, e: Entry) {
    && k < |es| && es[k].Link?
    && var q := Run(c, es[..k]);
       && es[k].logger in q.drafts && !q.drafts[es[k].logger].linked
       && q.drafts[es[k].logger].entry.id == e.id && e == Linked(c, q.table, q.drafts[es[k].logger].entry)
  }

  ghost predicate WasLinked(c: Codec, es: seq<Event>, e: Entry) { exists k: nat :: LinkedAt(c, es, k, e) }

  lemma {:induction false} LinkedLater(c: Codec, es: seq<Event>, e: Entry)
    requires es != [] && WasLinked(c, es[..|es| - 1], e)
    ensures WasLinked(c, es, e)
  {
    var k: nat :| LinkedAt(c, es[..|es| - 1], k, e);
    assert es[..|es| - 1][..k] == es[..k];
    assert LinkedAt(c, es, k, e);
  }

  ghost predicate AllLinked(c: Codec, es: seq<Event>, db: Db) {
    && (forall e :: e in db.table ==> WasLinked(c, es, e))
    && (forall g :: g in db.drafts && db.drafts[g].linked ==> WasLinked(c, es, db.drafts[g].entry))
  }

  lemma {:induction false} DraftLinked(c: Codec, es: seq<Event>, q: Db, g: nat)
    requires es != [] && q == Run(c, es[..|es| - 1]) && AllLinked(c, es[..|es| - 1], q)
    requires g in Step(c, q, es[|es| - 1]).drafts && Step(c, q, es[|es| - 1]).drafts[g].linked
    ensures WasLinked(c, es, Step(c, q, es[|es| - 1]).drafts[g].entry)
  {
    if g in q.drafts && q.drafts[g].linked {
      LinkedLater(c, es, q.drafts[g].entry);
    } else {
      assert es[..|es| - 1] == es[..|es| - 1][..];
      assert LinkedAt(c, es, |es| - 1, Step(c, q, es[|es| - 1]).drafts[g].entry);
    }
  }

  lemma {:induction false} EveryRowWasLinked(c: Codec, es: seq<Event>)
    ensures AllLinked(c, es, Run(c, es))
  {
    if es != [] {
      var q, next := Run(c, es[..|es| - 1]), Run(c, es);
      EveryRowWasLinked(c, es[..|es| - 1]);
      RunNumbered(c, es[..|es| - 1]);
      NumberedStep(c, q, es[|es| - 1]);
      forall x | x in next.table ensures WasLinked(c, es, x) {
        assert WasLinked(c, es[..|es| - 1], x);
        LinkedLater(c, es, x);
      }
      forall g | g in next.drafts && next.drafts[g].linked ensures WasLinked(c, es, next.drafts[g].entry) {
        DraftLinked(c, es, q, g);
      }
    }
  }

  // ---- when the chain forks ----

  /** When row i was linked, the row before it was already committed. */
  ghost predicate SawPredecessor(c: Codec, es: seq<Event>, i: nat)
    requires 0 < i < |Run(c, es).table|
  {
    exists k: nat :: LinkedAt(c, es, k, Run(c, es).table[i]) && Run(c, es).table[i - 1] in Run(c, es[..k]).table
  }

  lemma {:induction false} LowIsEarlier(seen: seq<Entry>, table: seq<Entry>, i: nat, x: Entry)
    requires ById(seen) && ById(table) && (forall e :: e in seen ==> e in table) && i < |table| && x in Below(seen, table[i].id)
    ensures x in seen && exists j :: 0 <= j < i && x == table[j]
  {
    BelowMembers(seen, table[i].id);
    var j :| 0 <= j < |table| && table[j] == x;
    assert j < i;
  }

  lemma {:induction false} PreviousIsLast(seen: seq<Entry>, table: seq<Entry>, i: nat)
    requires ById(seen) && ById(table) && (forall e :: e in seen ==> e in table) && 0 < i < |table| && table[i - 1] in seen
    ensures var low := Below(seen, table[i].id); low != [] && low[|low| - 1] == table[i - 1]
  {
    BelowMembers(seen, table[i].id);
    var low := Below(seen, table[i].id);
    var n :| 0 <= n < |low| && low[n] == table[i - 1];
    var x := low[|low| - 1];
    assert low[n].id <= x.id && x in low;
    LowIsEarlier(seen, table, i, x);
  }

  /** What the rows visible below an id end in: the one just before it in the final table, or an earlier one. */
  lemma {:induction false} LastBelow(seen: seq<Entry>, table: seq<Entry>, i: nat)
    requires ById(seen) && ById(table) && (forall e :: e in seen ==> e in table) && i < |table|
    ensures var low := Below(seen, table[i].id);
      && (low == [] || exists j :: 0 <= j < i && low[|low| - 1] == table[j])
      && (i > 0 ==> (table[i - 1] in seen <==> low != [] && low[|low| - 1] == table[i - 1]))
  {
    var low := Below(seen, table[i].id);
    if low != [] {
      LowIsEarlier(seen, table, i, low[|low| - 1]);
    }
    if i > 0 && table[i - 1] in seen {
      PreviousIsLast(seen, table, i);
    }
  }

  /** A linked row carries the hash of its own line. */
  lemma {:induction false} LinkedIsSound(c: Codec, table: seq<Entry>, e: Entry)
    ensures var r := Linked(c, table, e);
      r.prevHash == Carried(Below(table, e.id)) && r.entryHash == ComputeHash(c, r, r.prevHash)
  {
    SameLines(c, Linked(c, table, e), e, Carried(Below(table, e.id)));
  }

  /** What row e points back to, after the steps that led to its linking. */
  ghost predicate PointsTo(c: Codec, seen: seq<Entry>, e: Entry) {
    e.prevHash == Carried(Below(seen, e.id)) && e.entryHash == ComputeHash(c, e, e.prevHash)
  }

  lemma {:induction false} LinkedPointsTo(c: Codec, es: seq<Event>, k: nat, e: Entry)
    requires LinkedAt(c, es, k, e)
    ensures PointsTo(c, Run(c, es[..k]).table, e)
    ensures ById(Run(c, es[..k]).table) && forall x :: x in Run(c, es[..k]).table ==> x in Run(c, es).table
  {
    LinkedIsSound(c, Run(c, es[..k]).table, Run(c, es[..k]).drafts[es[k].logger].entry);
    RunNumbered(c, es[..k]);
    TableGrows(c, es, k);
  }

  /** Every pointer has 64 digits. */
  lemma {:induction false} PointerLength(c: Codec, seen: seq<Entry>, table: seq<Entry>, e: Entry)
    requires ById(seen) && (forall x :: x in seen ==> x in table) && PointsTo(c, seen, e)
    requires forall x :: x in table ==> |x.entryHash| == 64
    ensures |e.prevHash| == 64
  {
    BelowMembers(seen, e.id);
    var low := Below(seen, e.id);
    if low != [] {
      assert low[|low| - 1] in table;
    }
  }

  /** What a table of linked rows needs for its verdicts: every row is sound and every pointer full. */
  ghost predicate WellMade(c: Codec, table: seq<Entry>) {
    forall e :: e in table ==> |e.prevHash| == 64 && |e.entryHash| == 64 && e.entryHash == ComputeHash(c, e, e.prevHash)
  }

  lemma {:induction false} RunIsWellMade(c: Codec, es: seq<Event>)
    requires Strong(c, Run(c, es).table)
    ensures WellMade(c, Run(c, es).table)
  {
    var table := Run(c, es).table;
    EveryRowWasLinked(c, es);
    forall e | e in table ensures |e.entryHash| == 64 && e.entryHash == ComputeHash(c, e, e.prevHash) {
      assert WasLinked(c, es, e);
      var k: nat :| LinkedAt(c, es, k, e);
      LinkedPointsTo(c, es, k, e);
      assert HashOk(c, e);
    }
    forall e | e in table ensures |e.prevHash| == 64 {
      assert WasLinked(c, es, e);
      var k: nat :| LinkedAt(c, es, k, e);
      LinkedPointsTo(c, es, k, e);
      PointerLength(c, Run(c, es[..k]).table, table, e);
    }
  }

  /** Different rows of a well-made table without collisions carry different hashes, none the start value. */
  lemma {:induction false} HashesDiffer(c: Codec, table: seq<Entry>, i: nat, j: nat)
    requires Strong(c, table) && WellMade(c, table) && ById(table) && j < i < |table|
    ensures table[i].entryHash != table[j].entryHash
  {
    assert table[i] in table && table[j] in table;
    assert NoCollision(c, table[j], table[i]);
    if table[i].entryHash == table[j].entryHash {
      SameHashSameRow(c, table[j], table[i]);
    }
  }

  /** The pointer of row i names an earlier row of the table, or none. */
  lemma {:induction false} TargetOf(c: Codec, seen: seq<Entry>, table: seq<Entry>, i: nat) returns (j: int)
    requires ById(seen) && ById(table) && (forall e :: e in seen ==> e in table) && i < |table|
    requires WellMade(c, table) && PointsTo(c, seen, table[i])
    ensures -1 <= j < i && table[i].prevHash == if j == -1 then ZEROS else table[j].entryHash
    ensures i > 0 ==> (table[i - 1] in seen <==> j == i - 1)
  {
    LastBelow(seen, table, i);
    var low := Below(seen, table[i].id);
    if low == [] {
      j := -1;
    } else if i > 0 && table[i - 1] in seen {
      j := i - 1;
      assert table[j] in table;
    } else {
      var k: nat :| k < i && low[|low| - 1] == table[k];
      j := k;
      assert table[j] in table;
    }
  }

  /** The pointer of row i is the hash of the row before it exactly when that row was visible. */
  lemma {:induction false} PointerIff(c: Codec, seen: seq<Entry>, table: seq<Entry>, i: nat)
    requires ById(seen) && ById(table) && (forall e :: e in seen ==> e in table) && i < |table|
    requires Strong(c, table) && WellMade(c, table) && PointsTo(c, seen, table[i])
    ensures i == 0 ==> table[i].prevHash == ZEROS
    ensures i > 0 ==> (table[i].prevHash == table[i - 1].entryHash <==> table[i - 1] in seen)
  {
    var j := TargetOf(c, seen, table, i);
    if i > 0 {
      OnlyPrevious(c, table, i, j);
    }
  }

  lemma {:induction false} OnlyPrevious(c: Codec, table: seq<Entry>, i: nat, j: int)
    requires Strong(c, table) && WellMade(c, table) && ById(table) && 0 < i < |table| && -1 <= j < i
    ensures (if j == -1 then ZEROS else table[j].entryHash) == table[i - 1].entryHash <==> j == i - 1
  {
    if 0 <= j < i - 1 {
      HashesDiffer(c, table, i - 1, j);
    } else if j == -1 {
      NotStart(c, table, i - 1);
    }
  }

  lemma {:induction false} NotStart(c: Codec, table: seq<Entry>, i: nat)
    requires Strong(c, table) && WellMade(c, table) && i < |table|
    ensures table[i].entryHash != ZEROS
  {
    assert table[i] in table && HashOk(c, table[i]);
  }

  /** The verdict of the verification loop on row i. */
  lemma {:induction false} VerdictOnRow(c: Codec, es: seq<Event>, i: nat)
    requires Strong(c, Run(c, es).table) && i < |Run(c, es).table|
    ensures var table := Run(c, es).table;
      Check(c, table[i], Carried(table[..i])) ==
      if i == 0 || SawPredecessor(c, es, i) then []
      else [PrevMismatch(table[i].id, table[i - 1].entryHash, table[i].prevHash)]
  {
    var table := Run(c, es).table;
    RunNumbered(c, es);
    RunIsWellMade(c, es);
    EveryRowWasLinked(c, es);
    assert table[i] in table && WasLinked(c, es, table[i]);
    var k: nat :| LinkedAt(c, es, k, table[i]) && (i > 0 && SawPredecessor(c, es, i) ==> table[i - 1] in Run(c, es[..k]).table);
    LinkedPointsTo(c, es, k, table[i]);
    PointerIff(c, Run(c, es[..k]).table, table, i);
    CheckMade(c, table, i);
  }

  lemma {:induction false} CheckMade(c: Codec, table: seq<Entry>, i: nat)
    requires WellMade(c, table) && i < |table| && (i == 0 ==> table[i].prevHash == ZEROS)
    ensures Check(c, table[i], Carried(table[..i])) ==
            if i == 0 || table[i].prevHash == table[i - 1].entryHash then []
            else [PrevMismatch(table[i].id, table[i - 1].entryHash, table[i].prevHash)]
  {
    assert table[i] in table;
    if i > 0 {
      assert table[i - 1] in table && table[..i][i - 1] == table[i - 1];
    }
  }

  /** Row i passes against the row before it. */
  predicate Passes(c: Codec, table: seq<Entry>, i: nat)
    requires i < |table|
  {
    Check(c, table[i], Carried(table[..i])) == []
  }

  lemma {:induction false} PassesInit(c: Codec, table: seq<Entry>, i: nat)
    requires i < |table| - 1
    ensures Passes(c, table[..|table| - 1], i) <==> Passes(c, table, i)
  {
    assert table[..|table| - 1][..i] == table[..i];
  }

  predicate AllPass(c: Codec, table: seq<Entry>) { forall i :: 0 <= i < |table| ==> Passes(c, table, i) }

  lemma {:induction false} ErrorsLast(c: Codec, table: seq<Entry>)
    requires table != []
    ensures Errors(c, table) == [] <==> Errors(c, table[..|table| - 1]) == [] && Passes(c, table, |table| - 1)
  {
    SplitLast(table);
    ErrorsSnoc(c, table[..|table| - 1], table[|table| - 1]);
    NoneTogether(Errors(c, table[..|table| - 1]), Check(c, table[|table| - 1], Carried(table[..|table| - 1])));
  }

  lemma NoneTogether(x: seq<Error>, y: seq<Error>)
    ensures x + y == [] <==> x == [] && y == []
    ensures x == [] ==> x + y == y
  {
    assert |x + y| == |x| + |y|;
  }

  lemma {:induction false} PassesWithoutErrors(c: Codec, table: seq<Entry>, i: nat)
    requires Errors(c, table) == [] && i < |table|
    ensures Passes(c, table, i)
  {
    ErrorsLast(c, table);
    if i < |table| - 1 {
      PassesWithoutErrors(c, table[..|table| - 1], i);
      PassesInit(c, table, i);
    }
  }

  lemma {:induction false} NoErrorsWherePassing(c: Codec, table: seq<Entry>)
    requires AllPass(c, table)
    ensures Errors(c, table) == []
  {
    if table != [] {
      var init := table[..|table| - 1];
      forall i | 0 <= i < |init| ensures Passes(c, init, i) { PassesInit(c, table, i); }
      NoErrorsWherePassing(c, init);
      ErrorsLast(c, table);
    }
  }

  lemma {:induction false} NoErrorsIff(c: Codec, table: seq<Entry>)
    ensures Errors(c, table) == [] <==> AllPass(c, table)
  {
    if Errors(c, table) == [] {
      forall i | 0 <= i < |table| ensures Passes(c, table, i) { PassesWithoutErrors(c, table, i); }
    }
    if AllPass(c, table) {
      NoErrorsWherePassing(c, table);
    }
  }

  /** Whatever overlaps, the log verifies if and only if each row was linked after the row before it was committed; every
      row that was not is reported, and nothing else is. */
  lemma {:induction false} VerifiesIffInStep(c: Codec, es: seq<Event>)
    requires Strong(c, Run(c, es).table)
    ensures Errors(c, Run(c, es).table) == [] <==> forall i :: 0 < i < |Run(c, es).table| ==> SawPredecessor(c, es, i)
  {
    var table := Run(c, es).table;
    NoErrorsIff(c, table);
    forall i | 0 <= i < |table| ensures Passes(c, table, i) <==> i == 0 || SawPredecessor(c, es, i) {
      VerdictOnRow(c, es, i);
    }
  }

  // ---- one logger at a time ----

  /** No logger inserts its row while another transaction is open. */
  ghost predicate Serial(c: Codec, es: seq<Event>) {
    es == [] || (Serial(c, es[..|es| - 1]) && (es[|es| - 1].Flush? ==> Run(c, es[..|es| - 1]).drafts == map[]))
  }

  lemma {:induction false} SerialPrefix(c: Codec, es: seq<Event>, k: nat)
    requires Serial(c, es) && k <= |es|
    ensures Serial(c, es[..k])
  {
    if k == |es| {
      assert es[..k] == es;
    } else {
      SerialPrefix(c, es[..|es| - 1], k);
      assert es[..|es| - 1][..k] == es[..k];
    }
  }

  lemma {:induction false} OneDraft(c: Codec, es: seq<Event>)
    requires Serial(c, es)
    ensures forall g, h :: g in Run(c, es).drafts && h in Run(c, es).drafts ==> g == h
  {
    if es != [] {
      OneDraft(c, es[..|es| - 1]);
    }
  }

  /** Where an id that is not in the table at a moment can come from. */
  ghost predicate Coming(q: Db, id: nat) { id >= q.nextId || exists g :: g in q.drafts && q.drafts[g].entry.id == id }

  ghost predicate AllCome(q: Db, db: Db) {
    && q.nextId <= db.nextId
    && (forall e :: e in db.table && e !in q.table ==> Coming(q, e.id))
    && (forall g :: g in db.drafts ==> Coming(q, db.drafts[g].entry.id))
  }

  lemma {:induction false} ComeStep(c: Codec, q: Db, db: Db, e: Event)
    requires AllCome(q, db) && Numbered(db)
    ensures AllCome(q, Step(c, db, e))
  {
    NumberedStep(c, db, e);
    var next := Step(c, db, e);
    forall g | g in next.drafts ensures Coming(q, next.drafts[g].entry.id) {
      assert g in db.drafts ==> Coming(q, db.drafts[g].entry.id);
    }
  }

  lemma {:induction false} RowsCome(c: Codec, es: seq<Event>, k: nat)
    requires k <= |es|
    ensures AllCome(Run(c, es[..k]), Run(c, es))
  {
    if k == |es| {
      assert es[..k] == es;
    } else {
      RowsCome(c, es[..|es| - 1], k);
      assert es[..|es| - 1][..k] == es[..k];
      RunNumbered(c, es[..|es| - 1]);
      ComeStep(c, Run(c, es[..k]), Run(c, es[..|es| - 1]), es[|es| - 1]);
    }
  }

  lemma {:induction false} SerialSees(c: Codec, es: seq<Event>, i: nat)
    requires Serial(c, es) && 0 < i < |Run(c, es).table|
    ensures SawPredecessor(c, es, i)
  {
    var table := Run(c, es).table;
    RunNumbered(c, es);
    EveryRowWasLinked(c, es);
    assert table[i] in table && table[i - 1] in table && WasLinked(c, es, table[i]);
    var k: nat :| LinkedAt(c, es, k, table[i]);
    var q := Run(c, es[..k]);
    SerialPrefix(c, es, k);
    OneDraft(c, es[..k]);
    RunNumbered(c, es[..k]);
    RowsCome(c, es, k);
    assert table[i - 1].id < table[i].id < q.nextId;
    assert table[i - 1] in q.table;
  }

  /** Transactions that do not overlap, as where the database lets one writer in at a time, never fork the chain. */
  lemma {:induction false} SerialVerifies(c: Codec, es: seq<Event>)
    requires Serial(c, es) && Strong(c, Run(c, es).table)
    ensures Errors(c, Run(c, es).table) == []
  {
    forall i | 0 < i < |Run(c, es).table| ensures SawPredecessor(c, es, i) {
      SerialSees(c, es, i);
    }
    VerifiesIffInStep(c, es);
  }

  // ---- one transaction ----

  lemma {:induction false} WholeTable(table: seq<Entry>, id: nat)
    requires forall i :: 0 <= i < |table| ==> table[i].id < id
    ensures Below(table, id) == table && Above(table, id) == []
  {
    if table != [] {
      WholeTable(table[..|table| - 1], id);
      assert table == table[..|table| - 1] + [table[|table| - 1]];
    }
  }

  /** What an undisturbed transaction has in hand before it ends: the row that log_action appends, under the next free id. */
  lemma {:induction false} FlushedAndLinked(c: Codec, es: seq<Event>, g: nat, f: Fields, at: Time)
    requires g !in Run(c, es).drafts
    ensures var db, row := Run(c, es), Chained(c, Run(c, es).table, f, at);
            var e := row.(id := db.nextId, entryHash := ComputeHash(c, row.(id := db.nextId), row.prevHash));
      Run(c, es + [Flush(g, f, at), Link(g)]) == Db(db.nextId + 1, db.table, db.drafts[g := Draft(e, true)])
  {
    var db := Run(c, es);
    RunNumbered(c, es);
    WholeTable(db.table, db.nextId);
    RunSnoc(c, es, Flush(g, f, at));
    RunSnoc(c, es + [Flush(g, f, at)], Link(g));
    assert es + [Flush(g, f, at)] + [Link(g)] == es + [Flush(g, f, at), Link(g)];
  }

  /** Committed, it appends that row; rolled back, it costs an id and nothing else. */
  lemma {:induction false} OneTransaction(c: Codec, es: seq<Event>, g: nat, f: Fields, at: Time)
    requires g !in Run(c, es).drafts
    ensures var db, row := Run(c, es), Chained(c, Run(c, es).table, f, at);
            var e := row.(id := db.nextId, entryHash := ComputeHash(c, row.(id := db.nextId), row.prevHash));
      && Run(c, es + [Flush(g, f, at), Link(g), Commit(g)]) == Db(db.nextId + 1, db.table + [e], db.drafts)
      && Run(c, es + [Flush(g, f, at), Link(g), Rollback(g)]) == db.(nextId := db.nextId + 1)
  {
    var db, begun := Run(c, es), es + [Flush(g, f, at), Link(g)];
    FlushedAndLinked(c, es, g, f, at);
    assert Run(c, begun).drafts - {g} == db.drafts;
    RunNumbered(c, es);
    WholeTable(db.table, db.nextId);
    RunSnoc(c, begun, Commit(g));
    RunSnoc(c, begun, Rollback(g));
    assert begun + [Commit(g)] == es + [Flush(g, f, at), Link(g), Commit(g)];
    assert begun + [Rollback(g)] == es + [Flush(g, f, at), Link(g), Rollback(g)];
  }

  lemma {:induction false} RunSnoc(c: Codec, es: seq<Event>, e: Event)
    ensures Run(c, es + [e]) == Step(c, Run(c, es), e)
  {
    assert (es + [e])[..|es|] == es;
  }

  // ---- two at a time ----

  function Two(): seq<Event> { [Flush(1, NOTE, 0), Flush(2, NOTE, 0), Link(1), Link(2), Commit(1), Commit(2)] }

  lemma {:induction false} TwoLinked(c: Codec, es: seq<Event>)
    requires es == Two()
    ensures Run(c, es[..4]) == Db(3, [], map[1 := Draft(Linked(c, [], Fresh(1, NOTE, 0)), true),
                                             2 := Draft(Linked(c, [], Fresh(2, NOTE, 0)), true)])
  {
    TwoFlushed(c, es);
    assert es[..4][..3] == es[..3] && es[..3][..2] == es[..2];
  }

  lemma {:induction false} TwoCommitted(c: Codec, es: seq<Event>, a: Entry, b: Entry)
    requires es == Two() && Run(c, es[..4]) == Db(3, [], map[1 := Draft(a, true), 2 := Draft(b, true)]) && a.id < b.id
    ensures Run(c, es).table == [a, b]
  {
    PlaceFirst(a);
    PlaceSecond(a, b);
    assert es[..5][..4] == es[..4] && es[..|es| - 1] == es[..5];
    assert Run(c, es[..5]) == Db(3, [a], map[2 := Draft(b, true)]);
  }

  /** Two loggers that overlap by one step link to the same start, and the second row is reported. */
  lemma {:induction false} OverlapForks(c: Codec)
    requires forall x :: c.hash(x) != "" && c.hash(x) != ZEROS
    ensures var table := Run(c, Two()).table;
      |table| == 2 && Errors(c, table) == [PrevMismatch(2, table[0].entryHash, ZEROS)]
  {
    var x, y := Fresh(1, NOTE, 0), Fresh(2, NOTE, 0);
    TwoLinked(c, Two());
    TwoCommitted(c, Two(), Linked(c, [], x), Linked(c, [], y));
    LinkedIsSound(c, [], x);
    LinkedIsSound(c, [], y);
    TwoVerdicts(c, Linked(c, [], x), Linked(c, [], y));
  }

  lemma {:induction false} TwoFlushed(c: Codec, es: seq<Event>)
    requires |es| >= 2 && es[0] == Flush(1, NOTE, 0) && es[1] == Flush(2, NOTE, 0)
    ensures Run(c, es[..2]) == Db(3, [], map[1 := Draft(Fresh(1, NOTE, 0), false), 2 := Draft(Fresh(2, NOTE, 0), false)])
  {
    assert es[..2][..1] == es[..1] && es[..1][..0] == [];
    assert Run(c, es[..1]) == Db(2, [], map[1 := Draft(Fresh(1, NOTE, 0), false)]);
  }

  lemma PlaceFirst(a: Entry)
    ensures Placed([], a) == [a]
  {
  }

  lemma {:induction false} PlaceSecond(a: Entry, b: Entry)
    requires a.id < b.id
    ensures Placed([a], b) == [a, b]
  {
    assert [a][..0] == [] && Below([], b.id) == [] && Above([], b.id) == [];
    assert Below([a], b.id) == [] + [a] && Above([a], b.id) == [];
    assert [a] + [b] + [] == [a, b];
  }

  lemma {:induction false} OnlyBackLink(c: Codec, e: Entry, expected: string)
    requires e.Filled() && e.prevHash != expected && e.entryHash == ComputeHash(c, e, e.prevHash)
    ensures Check(c, e, expected) == [PrevMismatch(e.id, expected, e.prevHash)]
  {
  }

  lemma {:induction false} TwoVerdicts(c: Codec, a: Entry, b: Entry)
    requires a.prevHash == ZEROS && b.prevHash == ZEROS && a.entryHash != "" && b.entryHash != "" && a.entryHash != ZEROS
    requires a.entryHash == ComputeHash(c, a, ZEROS) && b.entryHash == ComputeHash(c, b, ZEROS)
    ensures Errors(c, [a, b]) == [PrevMismatch(b.id, a.entryHash, ZEROS)]
  {
    FirstVerdict(c, a);
    OnlyBackLink(c, b, a.entryHash);
    SecondVerdict(c, [a], b);
    assert [a] + [b] == [a, b];
  }

  lemma {:induction false} FirstVerdict(c: Codec, a: Entry)
    requires a.prevHash == ZEROS && a.entryHash == ComputeHash(c, a, ZEROS)
    ensures Errors(c, [a]) == []
  {
    ErrorsSnoc(c, [], a);
    assert [] + [a] == [a];
  }

  lemma {:induction false} SecondVerdict(c: Codec, rows: seq<Entry>, b: Entry)
    requires Errors(c, rows) == []
    ensures Errors(c, rows + [b]) == Check(c, b, Carried(rows))
  {
    ErrorsSnoc(c, rows, b);
  }
}

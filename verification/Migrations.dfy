/** The migration runner: pending files in order, stopped by the first failure, and the table of what was applied. */
module Migrations {
  import opened Common

  /** How one migration file behaves when it is run. */
  datatype Outcome =
    | Upgrades
    | AlreadyThere      // an "already exists" or "duplicate" error
    | IntegrityError    // sqlite3.IntegrityError from inside the migration
    | HasNoUpgrade
    | Raises
    | DoesNotLoad       // importing the file raises, outside the try block

  datatype Verdict = Succeeded | Failed | Raised

  /** `attempted` are the migrations whose own code was started, in order. */
  datatype Run = Run(recorded: set<string>, verdict: Verdict, attempted: seq<string>)

  /** The runner goes on to the next file. */
  predicate GoesOn(o: Outcome) { o.Upgrades? || o.AlreadyThere? || o.IntegrityError? }

  /** The file's name enters the table. */
  predicate Records(o: Outcome) { o.Upgrades? || o.AlreadyThere? }

  predicate IsMigration(file: string) { file != "" && file[0] != '_' }

  /** get_pending_migrations, on the sorted file names. */
  function Pending(files: seq<string>, recorded: set<string>): seq<string> {
    if files == [] then []
    else
      var rest, last := Pending(files[..|files| - 1], recorded), files[|files| - 1];
      if IsMigration(last) && last !in recorded then rest + [last] else rest
  }

  /** The loop of run_all_migrations over what is left. */
  function RunFrom(recorded: set<string>, pending: seq<string>, outcome: string -> Outcome): Run
    decreases |pending|
  {
    if pending == [] then Run(recorded, Succeeded, [])
    else
      match outcome(pending[0])
      case DoesNotLoad => Run(recorded, Raised, [])
      case HasNoUpgrade => Run(recorded, Failed, [pending[0]])
      case Raises => Run(recorded, Failed, [pending[0]])
      case IntegrityError =>
        var rest := RunFrom(recorded, pending[1..], outcome);
        rest.(attempted := [pending[0]] + rest.attempted)
      case _ =>
        var rest := RunFrom(recorded + {pending[0]}, pending[1..], outcome);
        rest.(attempted := [pending[0]] + rest.attempted)
  }

  /** A dry run only loads the files. */
  function DryRun(recorded: set<string>, pending: seq<string>, outcome: string -> Outcome): Run {
    if pending == [] then Run(recorded, Succeeded, [])
    else if outcome(pending[0]).DoesNotLoad? then Run(recorded, Raised, [])
    else DryRun(recorded, pending[1..], outcome)
  }

  /** run_all_migrations on an existing database. */
  function RunAll(files: seq<string>, recorded: set<string>, dry: bool, outcome: string -> Outcome): Run {
    var pending := Pending(files, recorded);
    if dry then DryRun(recorded, pending, outcome) else RunFrom(recorded, pending, outcome)
  }

  // ---- one run, in closed form ----

  /** Position of the file that stops the run; the length when none does. */
  function Stop(pending: seq<string>, outcome: string -> Outcome): (n: nat)
    ensures n <= |pending|
  {
    if pending == [] || !GoesOn(outcome(pending[0])) then 0 else 1 + Stop(pending[1..], outcome)
  }

  lemma {:induction false} BeforeStop(pending: seq<string>, outcome: string -> Outcome, i: nat)
    requires i < Stop(pending, outcome)
    ensures GoesOn(outcome(pending[i]))
  {
    if i > 0 {
      BeforeStop(pending[1..], outcome, i - 1);
    }
  }

  /** The names a run adds: those before the stop whose outcome is recorded. */
  ghost function Added(pending: seq<string>, outcome: string -> Outcome): set<string> {
    set i | 0 <= i < Stop(pending, outcome) && Records(outcome(pending[i])) :: pending[i]
  }

  lemma {:induction false} AddedStep(pending: seq<string>, outcome: string -> Outcome)
    requires pending != [] && GoesOn(outcome(pending[0]))
    ensures Added(pending, outcome) ==
            Added(pending[1..], outcome) + if Records(outcome(pending[0])) then {pending[0]} else {}
  {
    var rest := pending[1..];
    forall n ensures n in Added(pending, outcome) <==>
                     n in Added(rest, outcome) || (n == pending[0] && Records(outcome(pending[0]))) {
      if n in Added(pending, outcome) {
        var i :| 0 <= i < Stop(pending, outcome) && Records(outcome(pending[i])) && pending[i] == n;
        if i > 0 {
          assert rest[i - 1] == n;
        }
      }
      if n in Added(rest, outcome) {
        var i :| 0 <= i < Stop(rest, outcome) && Records(outcome(rest[i])) && rest[i] == n;
        assert pending[i + 1] == n;
      }
    }
  }

  /** A run records exactly the recordable files before the first one that stops it, attempts nothing beyond that one,
      and succeeds exactly when nothing stops it. */
  lemma {:induction false} RunInClosedForm(recorded: set<string>, pending: seq<string>, outcome: string -> Outcome)
    ensures var run, stop := RunFrom(recorded, pending, outcome), Stop(pending, outcome);
            && run.recorded == recorded + Added(pending, outcome)
            && (run.verdict.Succeeded? <==> stop == |pending|)
            && (run.verdict.Raised? <==> stop < |pending| && outcome(pending[stop]).DoesNotLoad?)
            && run.attempted == pending[..if run.verdict.Failed? then stop + 1 else stop]
  {
    RunRecords(recorded, pending, outcome);
    RunEnds(recorded, pending, outcome);
  }

  lemma {:induction false} RunRecords(recorded: set<string>, pending: seq<string>, outcome: string -> Outcome)
    ensures RunFrom(recorded, pending, outcome).recorded == recorded + Added(pending, outcome)
    decreases |pending|
  {
    if pending != [] && GoesOn(outcome(pending[0])) {
      RunRecords(if Records(outcome(pending[0])) then recorded + {pending[0]} else recorded, pending[1..], outcome);
      AddedStep(pending, outcome);
    }
  }

  lemma {:induction false} RunEnds(recorded: set<string>, pending: seq<string>, outcome: string -> Outcome)
    ensures var run, stop := RunFrom(recorded, pending, outcome), Stop(pending, outcome);
            && (run.verdict.Succeeded? <==> stop == |pending|)
            && (run.verdict.Raised? <==> stop < |pending| && outcome(pending[stop]).DoesNotLoad?)
            && run.attempted == pending[..if run.verdict.Failed? then stop + 1 else stop]
    decreases |pending|
  {
    if pending != [] && GoesOn(outcome(pending[0])) {
      RunEnds(if Records(outcome(pending[0])) then recorded + {pending[0]} else recorded, pending[1..], outcome);
    }
  }

  /** The same, outcome by outcome. */
  lemma {:induction false} RunByOutcome(recorded: set<string>, pending: seq<string>, outcome: string -> Outcome)
    ensures var run, stop := RunFrom(recorded, pending, outcome), Stop(pending, outcome);
            && (forall i :: 0 <= i < stop ==> outcome(pending[i]) in {Upgrades, AlreadyThere, IntegrityError})
            && (stop < |pending| ==> outcome(pending[stop]) in {HasNoUpgrade, Raises, DoesNotLoad})
            && (forall n :: n in run.recorded <==>
                  n in recorded || exists i :: 0 <= i < stop && pending[i] == n && outcome(n) in {Upgrades, AlreadyThere})
            && run.verdict == (if stop == |pending| then Succeeded else if outcome(pending[stop]) == DoesNotLoad then Verdict.Raised else Failed)
  {
    var stop := Stop(pending, outcome);
    RunInClosedForm(recorded, pending, outcome);
    AtStop(pending, outcome);
    forall i | 0 <= i < stop ensures outcome(pending[i]) in {Upgrades, AlreadyThere, IntegrityError} {
      BeforeStop(pending, outcome, i);
    }
    forall n | n in Added(pending, outcome)
      ensures exists i :: 0 <= i < stop && pending[i] == n && outcome(n) in {Upgrades, AlreadyThere}
    {
      var i :| 0 <= i < stop && Records(outcome(pending[i])) && pending[i] == n;
    }
  }

  lemma {:induction false} AtStop(pending: seq<string>, outcome: string -> Outcome)
    ensures Stop(pending, outcome) < |pending| ==> !GoesOn(outcome(pending[Stop(pending, outcome)]))
  {
    if pending != [] && GoesOn(outcome(pending[0])) {
      AtStop(pending[1..], outcome);
    }
  }

  // ---- order ----

  ghost predicate Distinct(s: seq<string>) {
    forall i, j :: 0 <= i < j < |s| ==> s[i] != s[j]
  }

  /** The recorded migrations form a prefix of the migration files: nothing recorded comes after a gap. */
  ghost predicate IsPrefix(files: seq<string>, recorded: set<string>) {
    forall i, j :: 0 <= i < j < |files| && IsMigration(files[i]) && files[j] in recorded && IsMigration(files[j]) ==>
      files[i] in recorded
  }

  /** No migration that raised an integrity error is followed, before the run stops, by one that gets recorded. */
  ghost predicate GapFree(pending: seq<string>, outcome: string -> Outcome) {
    forall i, j :: 0 <= i < j < Stop(pending, outcome) && outcome(pending[i]).IntegrityError? ==>
      !Records(outcome(pending[j]))
  }

  /** Where an unrecorded migration file stands among the pending ones. */
  lemma {:induction false} PendingAt(files: seq<string>, recorded: set<string>, a: nat)
    requires a < |files| && IsMigration(files[a]) && files[a] !in recorded
    ensures |Pending(files[..a], recorded)| < |Pending(files, recorded)|
    ensures Pending(files, recorded)[|Pending(files[..a], recorded)|] == files[a]
  {
    var init := files[..|files| - 1];
    if a < |init| {
      assert init[..a] == files[..a];
      PendingAt(init, recorded, a);
    }
  }

  lemma {:induction false} PendingInOrder(files: seq<string>, recorded: set<string>, a: nat, b: nat)
    requires a < b < |files| && IsMigration(files[a]) && files[a] !in recorded
    ensures |Pending(files[..a], recorded)| < |Pending(files[..b], recorded)|
  {
    assert files[..b][..a] == files[..a];
    PendingAt(files[..b], recorded, a);
  }

  /** The file a pending name comes from. */
  function Origin(files: seq<string>, recorded: set<string>, k: nat): (a: nat)
    requires k < |Pending(files, recorded)|
    ensures a < |files| && files[a] == Pending(files, recorded)[k]
    ensures IsMigration(files[a]) && files[a] !in recorded
  {
    if k < |Pending(files[..|files| - 1], recorded)| then Origin(files[..|files| - 1], recorded, k) else |files| - 1
  }

  lemma {:induction false} OriginInOrder(files: seq<string>, recorded: set<string>, i: nat, j: nat)
    requires i < j < |Pending(files, recorded)|
    ensures Origin(files, recorded, i) < Origin(files, recorded, j)
  {
    var init := files[..|files| - 1];
    if j < |Pending(init, recorded)| {
      OriginInOrder(init, recorded, i, j);
    } else {
      assert Origin(files, recorded, i) == Origin(init, recorded, i) < |init|;
    }
  }

  lemma {:induction false} PendingDistinct(files: seq<string>, recorded: set<string>)
    requires Distinct(files)
    ensures Distinct(Pending(files, recorded))
  {
    var pending := Pending(files, recorded);
    forall i, j | 0 <= i < j < |pending| ensures pending[i] != pending[j] {
      OriginInOrder(files, recorded, i, j);
    }
  }

  lemma {:induction false} GapFreeKeepsPrefix(files: seq<string>, recorded: set<string>, outcome: string -> Outcome)
    requires Distinct(files) && IsPrefix(files, recorded) && GapFree(Pending(files, recorded), outcome)
    ensures IsPrefix(files, recorded + Added(Pending(files, recorded), outcome))
  {
    var pending := Pending(files, recorded);
    var after := recorded + Added(pending, outcome);
    PendingDistinct(files, recorded);
    forall a, b | 0 <= a < b < |files| && IsMigration(files[a]) && files[b] in after && IsMigration(files[b])
      ensures files[a] in after
    {
      if files[a] !in recorded {
        assert files[b] in Added(pending, outcome);
        PendingAt(files, recorded, a);
        PendingAt(files, recorded, b);
        PendingInOrder(files, recorded, a, b);
        var i, j := |Pending(files[..a], recorded)|, |Pending(files[..b], recorded)|;
        EarlierIsAdded(pending, outcome, i, files[b], j);
      }
    }
  }

  /** Everything before a recorded migration was passed by the run, so without integrity errors it was recorded. */
  lemma {:induction false} EarlierIsAdded(pending: seq<string>, outcome: string -> Outcome, i: nat, name: string, j: nat)
    requires i < j < |pending| && pending[j] == name && name in Added(pending, outcome) && GapFree(pending, outcome)
    requires Distinct(pending)
    ensures pending[i] in Added(pending, outcome)
  {
    var k :| 0 <= k < Stop(pending, outcome) && Records(outcome(pending[k])) && pending[k] == name;
    BeforeStop(pending, outcome, i);
    assert !outcome(pending[i]).IntegrityError?;
  }

  /** A gap in the outcomes is a gap in the table. */
  lemma {:induction false} GapBreaksPrefix(files: seq<string>, recorded: set<string>, outcome: string -> Outcome)
    requires Distinct(files) && !GapFree(Pending(files, recorded), outcome)
    ensures !IsPrefix(files, recorded + Added(Pending(files, recorded), outcome))
  {
    var pending := Pending(files, recorded);
    var after := recorded + Added(pending, outcome);
    var i: nat, j: nat :| i < j < Stop(pending, outcome) && outcome(pending[i]).IntegrityError? && Records(outcome(pending[j]));
    PendingDistinct(files, recorded);
    OriginInOrder(files, recorded, i, j);
    assert pending[j] in Added(pending, outcome);
    assert pending[i] !in after;
    assert files[Origin(files, recorded, i)] !in after && files[Origin(files, recorded, j)] in after;
  }

  /** A run leaves the recorded migrations a prefix of the files exactly when no integrity error inside a migration is
      followed by a recorded one. */
  lemma {:induction false} PrefixKeptIffGapFree(files: seq<string>, recorded: set<string>, outcome: string -> Outcome)
    requires Distinct(files) && IsPrefix(files, recorded)
    ensures IsPrefix(files, RunAll(files, recorded, false, outcome).recorded) <==> GapFree(Pending(files, recorded), outcome)
  {
    RunInClosedForm(recorded, Pending(files, recorded), outcome);
    if GapFree(Pending(files, recorded), outcome) {
      GapFreeKeepsPrefix(files, recorded, outcome);
    } else {
      GapBreaksPrefix(files, recorded, outcome);
    }
  }

  /** Two files, the first raising an integrity error: the run reports success, and records only the second. */
  lemma {:induction false} IntegrityErrorLeavesGap()
    ensures var files := ["001_a", "002_b"];
            var run := RunAll(files, {}, false, name => if name == "001_a" then IntegrityError else Upgrades);
            run.verdict.Succeeded? && run.recorded == {"002_b"} && !IsPrefix(files, run.recorded)
  {
    var files := ["001_a", "002_b"];
    var outcome := name => if name == "001_a" then IntegrityError else Upgrades;
    assert files[..1] == ["001_a"] && files[..1][..0] == [];
    assert Pending(files[..1], {}) == ["001_a"];
    assert Pending(files, {}) == ["001_a", "002_b"];
    assert files[1..] == ["002_b"] && files[1..][1..] == [];
    assert outcome(files[0]) == IntegrityError && outcome(files[1]) == Upgrades;
    assert RunFrom({}, files[1..], outcome).recorded == {"002_b"};
    assert "001_a" != "002_b";
  }

  // ---- repeated runs ----

  lemma {:induction false} PendingMembers(files: seq<string>, recorded: set<string>)
    ensures forall n :: n in Pending(files, recorded) <==> n in files && n != "" && n[0] != '_' && n !in recorded
  {
    if files != [] {
      PendingMembers(files[..|files| - 1], recorded);
      SplitLast(files);
    }
  }

  lemma {:induction false} NothingPending(files: seq<string>, recorded: set<string>)
    requires forall n :: n in files && IsMigration(n) ==> n in recorded
    ensures Pending(files, recorded) == []
  {
    PendingMembers(files, recorded);
    assert Pending(files, recorded) == [] || Pending(files, recorded)[0] in Pending(files, recorded);
  }

  /** No code of a recorded migration is started again, dry or not. */
  lemma {:induction false} RecordedIsNotRerun(files: seq<string>, recorded: set<string>, dry: bool, outcome: string -> Outcome)
    ensures var run := RunAll(files, recorded, dry, outcome);
            recorded <= run.recorded && forall n :: n in run.attempted ==> n !in recorded
  {
    var pending := Pending(files, recorded);
    PendingMembers(files, recorded);
    if dry {
      DryRunChangesNothing(recorded, pending, outcome);
    } else {
      RunInClosedForm(recorded, pending, outcome);
    }
  }

  lemma {:induction false} DryRunChangesNothing(recorded: set<string>, pending: seq<string>, outcome: string -> Outcome)
    ensures DryRun(recorded, pending, outcome).recorded == recorded && DryRun(recorded, pending, outcome).attempted == []
    ensures DryRun(recorded, pending, outcome).verdict.Succeeded? <==>
            forall i :: 0 <= i < |pending| ==> !outcome(pending[i]).DoesNotLoad?
    decreases |pending|
  {
    if pending != [] && !outcome(pending[0]).DoesNotLoad? {
      DryRunChangesNothing(recorded, pending[1..], outcome);
      assert forall i :: 0 < i < |pending| ==> pending[i] == pending[1..][i - 1];
    }
  }

  /** After a successful run, what is still pending is exactly what raised an integrity error. */
  lemma {:induction false} LeftAfterSuccess(files: seq<string>, recorded: set<string>, outcome: string -> Outcome)
    requires RunAll(files, recorded, false, outcome).verdict.Succeeded?
    ensures forall n :: n in Pending(files, RunAll(files, recorded, false, outcome).recorded) <==>
                        n in Pending(files, recorded) && outcome(n).IntegrityError?
  {
    var pending := Pending(files, recorded);
    var after := RunAll(files, recorded, false, outcome).recorded;
    RunInClosedForm(recorded, pending, outcome);
    PendingMembers(files, recorded);
    PendingMembers(files, after);
    forall n | n in pending ensures n in after <==> !outcome(n).IntegrityError? {
      var i :| 0 <= i < |pending| && pending[i] == n;
      BeforeStop(pending, outcome, i);
    }
  }

  /** A run after a successful one that met no integrity error changes nothing and starts nothing, whatever the files
      would do by then. */
  lemma {:induction false} SuccessIsFinal(files: seq<string>, recorded: set<string>, outcome: string -> Outcome, again: string -> Outcome)
    requires RunAll(files, recorded, false, outcome).verdict.Succeeded?
    requires forall n :: n in Pending(files, recorded) ==> !outcome(n).IntegrityError?
    ensures var first := RunAll(files, recorded, false, outcome);
            RunAll(files, first.recorded, false, again) == Run(first.recorded, Succeeded, [])
  {
    var first := RunAll(files, recorded, false, outcome);
    LeftAfterSuccess(files, recorded, outcome);
    PendingMembers(files, first.recorded);
    NothingPending(files, first.recorded);
  }

  // ---- many runs ----

  datatype Invocation = Invocation(dry: bool, outcome: string -> Outcome)

  /** The table after a history of invocations, starting empty. */
  function After(files: seq<string>, log: seq<Invocation>): set<string> {
    if log == [] then {}
    else RunAll(files, After(files, log[..|log| - 1]), log[|log| - 1].dry, log[|log| - 1].outcome).recorded
  }

  function Attempted(files: seq<string>, log: seq<Invocation>, k: nat): seq<string>
    requires k < |log|
  {
    RunAll(files, After(files, log[..k]), log[k].dry, log[k].outcome).attempted
  }

  lemma {:induction false} TableGrows(files: seq<string>, log: seq<Invocation>, k: nat)
    requires k <= |log|
    ensures After(files, log[..k]) <= After(files, log)
  {
    if k == |log| {
      assert log[..k] == log;
    } else {
      var last := |log| - 1;
      assert log[..last][..k] == log[..k];
      TableGrows(files, log[..last], k);
      RecordedIsNotRerun(files, After(files, log[..last]), log[last].dry, log[last].outcome);
    }
  }

  /** Over any number of invocations, a migration that was once recorded is never started again. */
  lemma {:induction false} NeverStartedOnceRecorded(files: seq<string>, log: seq<Invocation>, k: nat, m: nat, name: string)
    requires k <= m < |log| && name in After(files, log[..k])
    ensures name !in Attempted(files, log, m)
  {
    assert log[..m][..k] == log[..k];
    TableGrows(files, log[..m], k);
    RecordedIsNotRerun(files, After(files, log[..m]), log[m].dry, log[m].outcome);
  }

  /** Over any number of invocations without such an error, the table stays a prefix of the files. */
  lemma {:induction false} RunsKeepPrefix(files: seq<string>, log: seq<Invocation>)
    requires Distinct(files)
    requires forall k, n :: 0 <= k < |log| && n in files ==> !log[k].outcome(n).IntegrityError?
    ensures IsPrefix(files, After(files, log))
  {
    if log != [] {
      var init, last := log[..|log| - 1], log[|log| - 1];
      RunsKeepPrefix(files, init);
      var pending := Pending(files, After(files, init));
      if last.dry {
        DryRunChangesNothing(After(files, init), pending, last.outcome);
      } else {
        PendingMembers(files, After(files, init));
        forall i | 0 <= i < |pending| ensures !last.outcome(pending[i]).IntegrityError? {
          assert pending[i] in pending;
        }
        PrefixKeptIffGapFree(files, After(files, init), last.outcome);
      }
    }
  }

  // ---- the runner ----

  class MigrationRunner {
    var recorded: set<string>

    constructor (table: set<string>)
      ensures recorded == table
    {
      recorded := table;
    }

    /** run_migration: None when loading the file raises. */
    method RunMigration(name: string, dry: bool, outcome: Outcome) returns (ok: Option<bool>)
      modifies this
      ensures ok == if outcome.DoesNotLoad? then None else Some(dry || GoesOn(outcome))
      ensures recorded == if !dry && Records(outcome) then old(recorded) + {name} else old(recorded)
      ensures !dry ==> match outcome
              case Upgrades => ok == Some(true) && recorded == old(recorded) + {name}
              case AlreadyThere => ok == Some(true) && recorded == old(recorded) + {name}
              case IntegrityError => ok == Some(true) && recorded == old(recorded)
              case HasNoUpgrade => ok == Some(false) && recorded == old(recorded)
              case Raises => ok == Some(false) && recorded == old(recorded)
              case DoesNotLoad => ok == None && recorded == old(recorded)
    {
      if outcome.DoesNotLoad? { return None; }
      if dry { return Some(true); }
      match outcome {
        case Upgrades =>
          recorded := recorded + {name};
          ok := Some(true);
        case AlreadyThere =>
          recorded := recorded + {name};
          ok := Some(true);
        case IntegrityError =>
          ok := Some(true);
        case _ =>
          ok := Some(false);
      }
    }

    /** run_all_migrations: False when there is no database; otherwise the loop with its success flag. */
    method RunAllMigrations(databaseExists: bool, files: seq<string>, dry: bool, outcome: string -> Outcome)
      returns (verdict: Verdict)
      modifies this
      ensures !databaseExists ==> verdict == Failed && recorded == old(recorded)
      ensures databaseExists ==>
                var run := RunAll(files, old(recorded), dry, outcome);
                verdict == run.verdict && recorded == run.recorded
    {
      if !databaseExists { return Failed; }
      var pending := Pending(files, recorded);
      ghost var start := recorded;
      var success := true;
      var i := 0;
      while i < |pending|
        invariant 0 <= i <= |pending|
        invariant success
        invariant dry ==> DryRun(recorded, pending[i..], outcome) == DryRun(start, pending, outcome)
        invariant !dry ==> Same(RunFrom(recorded, pending[i..], outcome), RunFrom(start, pending, outcome))
      {
        assert pending[i..][0] == pending[i] && pending[i..][1..] == pending[i + 1..];
        var ok := RunMigration(pending[i], dry, outcome(pending[i]));
        if ok.None? { return Raised; }
        if !ok.value {
          success := false;
          break;
        }
        i := i + 1;
      }
      verdict := if success then Succeeded else Failed;
    }
  }

  /** Equal table and verdict; the list of started migrations is not something the runner keeps. */
  predicate Same(a: Run, b: Run) {
    a.recorded == b.recorded && a.verdict == b.verdict
  }
}

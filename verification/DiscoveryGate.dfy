/** The three permits shared by callers of start_scan and the scan threads.

    Two pieces of code can give a permit back: the caller's `except` clause, and the thread's `finally` clause. Caller
    and thread each have their own program counter, and every step of either may come between any steps of the others:
    a thread can run, end and give its permit back while its caller is still inside start_scan. */
module DiscoveryGate {
  import opened Common

  const MAX_CONCURRENT_SCANS: nat := 3

  /** The caller, from the acquired permit on. */
  datatype Caller =
    | Preparing   // in the try block, no thread yet
    | Launched    // in the try block, thread.start() has returned
    | Handling    // in the except clause, before release()
    | Returned
    | Raised      // after release()

  /** The thread. */
  datatype Thread =
    | Unborn
    | Working     // in the try block
    | Recovering  // in the except clause, which swallows what it raises itself
    | Finishing   // in the finally clause, before release()
    | Ended       // after release()

  datatype Scan = Scan(caller: Caller, thread: Thread)

  /** `scans` has one entry per acquired permit, in order. */
  datatype Gate = Gate(permits: nat, scans: seq<Scan>)

  datatype Event =
    | Acquire
    | PreparationRaises(scan: nat)   // building jobs, the run record, or thread.start() itself
    | ThreadStarts(scan: nat)
    | CallerReturns(scan: nat)
    | CallerReleases(scan: nat)
    | BodyEnds(scan: nat)
    | BodyRaises(scan: nat)
    | RecoveryEnds(scan: nat)
    | ThreadReleases(scan: nat)

  function MoveCaller(g: Gate, scan: nat, from: Caller, to: Caller): Gate {
    if scan < |g.scans| && g.scans[scan].caller == from then g.(scans := g.scans[scan := g.scans[scan].(caller := to)]) else g
  }

  function MoveThread(g: Gate, scan: nat, from: Thread, to: Thread): Gate {
    if scan < |g.scans| && g.scans[scan].thread == from then g.(scans := g.scans[scan := g.scans[scan].(thread := to)]) else g
  }

  /** release(), for whoever stands before it. Each statement looks at its own program counter only. */
  predicate CallerAtRelease(g: Gate, scan: nat) { scan < |g.scans| && g.scans[scan].caller.Handling? }

  predicate ThreadAtRelease(g: Gate, scan: nat) { scan < |g.scans| && g.scans[scan].thread.Finishing? }

  /** One step of one party; a step of a party that stands elsewhere does not happen. */
  function Step(g: Gate, e: Event): Gate {
    match e
    case Acquire => if g.permits == 0 then g else Gate(g.permits - 1, g.scans + [Scan(Preparing, Unborn)])
    case PreparationRaises(scan) => MoveCaller(g, scan, Preparing, Handling)
    case ThreadStarts(scan) =>
      if scan < |g.scans| && g.scans[scan].caller.Preparing? then g.(scans := g.scans[scan := Scan(Launched, Working)]) else g
    case CallerReturns(scan) => MoveCaller(g, scan, Launched, Returned)
    case CallerReleases(scan) =>
      if CallerAtRelease(g, scan) then MoveCaller(g, scan, Handling, Raised).(permits := g.permits + 1) else g
    case BodyEnds(scan) => MoveThread(g, scan, Working, Finishing)
    case BodyRaises(scan) => MoveThread(g, scan, Working, Recovering)
    case RecoveryEnds(scan) => MoveThread(g, scan, Recovering, Finishing)
    case ThreadReleases(scan) =>
      if ThreadAtRelease(g, scan) then MoveThread(g, scan, Finishing, Ended).(permits := g.permits + 1) else g
  }

  function Run(es: seq<Event>): Gate {
    if es == [] then Gate(MAX_CONCURRENT_SCANS, []) else Step(Run(es[..|es| - 1]), es[|es| - 1])
  }

  // ---- caller and thread ----

  /** A thread exists exactly when the caller got past thread.start(); past it the caller has no way to its except
      clause. */
  predicate InStep(s: Scan) { s.thread.Unborn? <==> (s.caller.Preparing? || s.caller.Handling? || s.caller.Raised?) }

  lemma {:induction false} EveryScanInStep(es: seq<Event>, scan: nat)
    requires scan < |Run(es).scans|
    ensures InStep(Run(es).scans[scan])
  {
    var g := Run(es[..|es| - 1]);
    if scan < |g.scans| {
      EveryScanInStep(es[..|es| - 1], scan);
    }
  }

  predicate CallerReleased(es: seq<Event>, i: nat, scan: nat)
    requires i < |es|
  {
    es[i] == CallerReleases(scan) && CallerAtRelease(Run(es[..i]), scan)
  }

  predicate ThreadReleased(es: seq<Event>, i: nat, scan: nat)
    requires i < |es|
  {
    es[i] == ThreadReleases(scan) && ThreadAtRelease(Run(es[..i]), scan)
  }

  /** How often either statement has run for a scan. */
  function CallerCount(es: seq<Event>, scan: nat): nat {
    if es == [] then 0 else CallerCount(es[..|es| - 1], scan) + if CallerReleased(es, |es| - 1, scan) then 1 else 0
  }

  function ThreadCount(es: seq<Event>, scan: nat): nat {
    if es == [] then 0 else ThreadCount(es[..|es| - 1], scan) + if ThreadReleased(es, |es| - 1, scan) then 1 else 0
  }

  /** Each statement runs at most once for a scan, and has run exactly when its party is past it. */
  lemma {:induction false} CallerCountFollows(es: seq<Event>, scan: nat)
    ensures CallerCount(es, scan) == if scan < |Run(es).scans| && Run(es).scans[scan].caller.Raised? then 1 else 0
  {
    if es != [] {
      CallerCountFollows(es[..|es| - 1], scan);
    }
  }

  lemma {:induction false} ThreadCountFollows(es: seq<Event>, scan: nat)
    ensures ThreadCount(es, scan) == if scan < |Run(es).scans| && Run(es).scans[scan].thread.Ended? then 1 else 0
  {
    if es != [] {
      var init := es[..|es| - 1];
      ThreadCountFollows(init, scan);
      if scan < |Run(init).scans| {
        EveryScanInStep(init, scan);
      }
    }
  }

  predicate Over(s: Scan) { s.caller.Raised? || s.thread.Ended? }

  /** No interleaving runs both release statements for one permit: together they run at most once, and have run exactly
      when the scan is over. */
  lemma {:induction false} ReleasedExactlyOnce(es: seq<Event>, scan: nat)
    ensures CallerCount(es, scan) == 0 || ThreadCount(es, scan) == 0
    ensures CallerCount(es, scan) + ThreadCount(es, scan) ==
            if scan < |Run(es).scans| && Over(Run(es).scans[scan]) then 1 else 0
  {
    CallerCountFollows(es, scan);
    ThreadCountFollows(es, scan);
    if scan < |Run(es).scans| {
      EveryScanInStep(es, scan);
    }
  }

  /** A thread may give its permit back before its caller has returned. */
  lemma {:induction false} ThreadMayEndFirst() returns (es: seq<Event>)
    ensures Run(es) == Gate(MAX_CONCURRENT_SCANS, [Scan(Launched, Ended)])
  {
    es := [Acquire, ThreadStarts(0), BodyRaises(0), RecoveryEnds(0), ThreadReleases(0)];
    assert es[..4] == [Acquire, ThreadStarts(0), BodyRaises(0), RecoveryEnds(0)];
    assert es[..4][..3] == [Acquire, ThreadStarts(0), BodyRaises(0)];
    assert es[..4][..3][..2] == [Acquire, ThreadStarts(0)];
    assert es[..4][..3][..2][..1] == [Acquire];
    assert [Acquire][..0] == [];
    assert Run([Acquire]) == Gate(2, [Scan(Preparing, Unborn)]);
    assert Run([Acquire, ThreadStarts(0)]) == Gate(2, [Scan(Launched, Working)]);
    assert Run(es[..4][..3]) == Gate(2, [Scan(Launched, Recovering)]);
    assert Run(es[..4]) == Gate(2, [Scan(Launched, Finishing)]);
  }

  // ---- permits ----

  /** How many of the scans hold a permit. */
  function Holding(scans: seq<Scan>): nat {
    if scans == [] then 0
    else Holding(scans[..|scans| - 1]) + if Over(scans[|scans| - 1]) then 0 else 1
  }

  lemma {:induction false} HoldingUpdate(scans: seq<Scan>, i: nat, s: Scan)
    requires i < |scans|
    ensures Holding(scans[i := s]) + (if Over(scans[i]) then 0 else 1) == Holding(scans) + if Over(s) then 0 else 1
  {
    var last := |scans| - 1;
    if i == last {
      assert scans[i := s][..last] == scans[..last];
    } else {
      assert scans[i := s][..last] == scans[..last][i := s];
      HoldingUpdate(scans[..last], i, s);
    }
  }

  lemma {:induction false} HoldingSome(scans: seq<Scan>, i: nat)
    requires i < |scans| && !Over(scans[i])
    ensures Holding(scans) > 0
  {
    if i < |scans| - 1 {
      HoldingSome(scans[..|scans| - 1], i);
    }
  }

  lemma {:induction false} NoneHolding(scans: seq<Scan>)
    requires forall i :: 0 <= i < |scans| ==> Over(scans[i])
    ensures Holding(scans) == 0
  {
    if scans != [] {
      NoneHolding(scans[..|scans| - 1]);
    }
  }

  /** Whichever way callers and threads interleave, free permits and scans holding one add up to three. */
  lemma {:induction false} PermitsAreConserved(es: seq<Event>)
    ensures Run(es).permits + Holding(Run(es).scans) == MAX_CONCURRENT_SCANS
  {
    if es != [] {
      var e, g := es[|es| - 1], Run(es[..|es| - 1]);
      PermitsAreConserved(es[..|es| - 1]);
      if e.Acquire? {
        InitOfSnoc(g.scans, Scan(Preparing, Unborn));
      } else if e.scan < |g.scans| {
        EveryScanInStep(es[..|es| - 1], e.scan);
        StepMovesOne(g, e);
        HoldingUpdate(g.scans, e.scan, Step(g, e).scans[e.scan]);
      }
    }
  }

  /** A step of an existing scan changes no other, and frees a permit exactly when it ends that scan. */
  lemma {:induction false} StepMovesOne(g: Gate, e: Event)
    requires !e.Acquire? && e.scan < |g.scans| && InStep(g.scans[e.scan])
    ensures |Step(g, e).scans| == |g.scans| && Step(g, e).scans == g.scans[e.scan := Step(g, e).scans[e.scan]]
    ensures Step(g, e).permits == g.permits + if Over(Step(g, e).scans[e.scan]) && !Over(g.scans[e.scan]) then 1 else 0
    ensures Over(g.scans[e.scan]) ==> Over(Step(g, e).scans[e.scan])
  {
    assert g.scans[e.scan := g.scans[e.scan]] == g.scans;
  }

  /** A call is refused exactly when three admitted scans are in flight. */
  lemma {:induction false} RefusedIffThreeInFlight(es: seq<Event>)
    ensures Run(es + [Acquire]).scans == Run(es).scans <==> Holding(Run(es).scans) == MAX_CONCURRENT_SCANS
  {
    PermitsAreConserved(es);
    InitOfSnoc(es, Acquire);
  }

  /** Once every admitted scan is over, and only then, all three permits are free. */
  lemma {:induction false} AllOverAllFree(es: seq<Event>)
    ensures (forall i :: 0 <= i < |Run(es).scans| ==> Over(Run(es).scans[i])) <==> Run(es).permits == MAX_CONCURRENT_SCANS
  {
    PermitsAreConserved(es);
    if i: nat :| i < |Run(es).scans| && !Over(Run(es).scans[i]) {
      HoldingSome(Run(es).scans, i);
    } else {
      NoneHolding(Run(es).scans);
    }
  }

  function Steps(g: Gate, es: seq<Event>): Gate {
    if es == [] then g else Step(Steps(g, es[..|es| - 1]), es[|es| - 1])
  }

  lemma {:induction false} StepsSnoc(g: Gate, es: seq<Event>, e: Event)
    ensures Steps(g, es + [e]) == Step(Steps(g, es), e)
  {
    InitOfSnoc(es, e);
  }

  // ---- the code of either party, run without interruption ----

  class ScanGate {
    var permits: nat
    var scans: seq<Scan>

    function State(): Gate
      reads this
    {
      Gate(permits, scans)
    }

    constructor ()
      ensures State() == Run([])
    {
      permits, scans := MAX_CONCURRENT_SCANS, [];
    }

    /** acquire(blocking=False) */
    method TryAcquire() returns (scan: Option<nat>)
      modifies this
      ensures State() == Step(old(State()), Acquire)
      ensures scan == if old(permits) == 0 then None else Some(|old(scans)|)
    {
      if permits == 0 { return None; }
      permits := permits - 1;
      scans := scans + [Scan(Preparing, Unborn)];
      scan := Some(|scans| - 1);
    }

    method Release()
      modifies `permits
      ensures permits == old(permits) + 1
    {
      permits := permits + 1;
    }

    /** _prepare_and_launch_scan: either it raises before there is a thread, or the thread is running. */
    method PrepareAndLaunch(scan: nat, raises: bool)
      requires scan < |scans| && scans[scan] == Scan(Preparing, Unborn)
      modifies `scans
      ensures State() == Step(old(State()), if raises then PreparationRaises(scan) else ThreadStarts(scan))
    {
      if raises {
        scans := scans[scan := Scan(Handling, Unborn)];
      } else {
        scans := scans[scan := Scan(Launched, Working)];
      }
    }

    /** start_scan: refused, or the try block, with the except clause where it raised. */
    method StartScan(raises: bool) returns (scan: Option<nat>)
      modifies this
      ensures var was, n := old(State()), |old(scans)|;
              if was.permits == 0 then scan == None && State() == was
              else if raises then
                scan == None && State() == Steps(was, [Acquire, PreparationRaises(n), CallerReleases(n)]) && permits == was.permits
              else scan == Some(n) && State() == Steps(was, [Acquire, ThreadStarts(n), CallerReturns(n)])
    {
      ghost var was, n := State(), |scans|;
      var acquired := TryAcquire();
      if acquired.None? { return None; }
      ThreeSteps(was, Acquire, PreparationRaises(n), CallerReleases(n));
      ThreeSteps(was, Acquire, ThreadStarts(n), CallerReturns(n));
      PrepareAndLaunch(acquired.value, raises);
      if scans[acquired.value].caller.Handling? {
        Release();
        scans := scans[acquired.value := scans[acquired.value].(caller := Raised)];
        return None;
      }
      scans := scans[acquired.value := scans[acquired.value].(caller := Returned)];
      scan := acquired;
    }

    /** The try and except clauses of _execute_scan: `failureRecorded` is whether marking the run as failed works too;
        either way the except clause ends normally. */
    method DoScan(scan: nat, bodyRaises: bool, failureRecorded: bool) returns (runMarkedFailed: bool)
      requires scan < |scans| && scans[scan].thread.Working?
      modifies `scans
      ensures State() == if bodyRaises then Step(Step(old(State()), BodyRaises(scan)), RecoveryEnds(scan)) else Step(old(State()), BodyEnds(scan))
      ensures runMarkedFailed == (bodyRaises && failureRecorded)
    {
      runMarkedFailed := false;
      if bodyRaises {
        scans := scans[scan := scans[scan].(thread := Recovering)];
        if failureRecorded { runMarkedFailed := true; }
        scans := scans[scan := scans[scan].(thread := Finishing)];
      } else {
        scans := scans[scan := scans[scan].(thread := Finishing)];
      }
    }

    /** _execute_scan: whatever the body and the recovery do, the finally clause runs once. */
    method ExecuteScan(scan: nat, bodyRaises: bool, failureRecorded: bool) returns (runMarkedFailed: bool)
      requires scan < |scans| && scans[scan].thread.Working?
      modifies this
      ensures State() == Steps(old(State()), if bodyRaises then [BodyRaises(scan), RecoveryEnds(scan), ThreadReleases(scan)]
                                             else [BodyEnds(scan), ThreadReleases(scan)])
      ensures permits == old(permits) + 1 && |scans| == |old(scans)| && scans[scan] == old(scans)[scan].(thread := Ended)
      ensures runMarkedFailed == (bodyRaises && failureRecorded)
    {
      ThreeSteps(State(), BodyRaises(scan), RecoveryEnds(scan), ThreadReleases(scan));
      TwoSteps(State(), BodyEnds(scan), ThreadReleases(scan));
      runMarkedFailed := DoScan(scan, bodyRaises, failureRecorded);
      Release();
      scans := scans[scan := scans[scan].(thread := Ended)];
    }
  }

  lemma {:induction false} TwoSteps(g: Gate, a: Event, b: Event)
    ensures Steps(g, [a, b]) == Step(Step(g, a), b)
  {
    StepsSnoc(g, [], a);
    StepsSnoc(g, [a], b);
    assert [] + [a] == [a] && [a] + [b] == [a, b];
  }

  lemma {:induction false} ThreeSteps(g: Gate, a: Event, b: Event, c: Event)
    ensures Steps(g, [a, b, c]) == Step(Step(Step(g, a), b), c)
  {
    TwoSteps(g, a, b);
    StepsSnoc(g, [a, b], c);
    assert [a, b] + [c] == [a, b, c];
  }
}

/** What became of the latest scan, told by the steps that were taken, and what scanComplete may say about it. */
module WifiVerdict {
  import opened Bytes
  import opened WifiScan

  /**
   * About the scan published last: how the driver said it ended, whether a cancel was stored before
   * its results were asked for, what the SDK answered to that, whether the driver had refused to
   * start it, whether a STA_STOP found it in flight, and whether its rows were deleted.
   */
  datatype Verdict = Verdict(
    ended: Option<bool>,
    cancelled: bool,
    answered: Option<bool>,
    refused: bool,
    stopped: bool,
    deleted: bool)

  const NOTHING_TOLD := Verdict(None, false, None, false, false, false)

  /** The step cuts a running scan short and the driver reports it. */
  predicate CutsShort(s: State, ok: bool, reports: bool) {
    (s.owner.StopCounted? || s.owner.CancelStored?) && ok && reports && s.radio.RowsOf?
  }

  /** What step `a`, taken in `s`, adds. */
  function Told(v: Verdict, s: State, a: Action): Verdict {
    match a
    case Begin(_) => v
    case Continue(ok, reports) =>
      if s.owner.StartScanningSet? then NOTHING_TOLD
      else if s.owner.StartPublished? && !ok then v.(refused := true)
      else if s.owner.CancelFlight? && v.answered.None? then v.(cancelled := true)
      else if CutsShort(s, ok, reports) then v.(ended := Some(false))
      else if s.owner.Deleting? then v.(deleted := true)
      else v
    case Ends(good) => v.(ended := Some(good))
    case Deliver => v
    case Handle(ok) =>
      if s.handler.DoneCounting? then v.(answered := Some(ok))
      else if s.handler.StopSeen? && s.inFlight then v.(stopped := true)
      else v
  }

  function Story(actions: seq<Action>): Verdict
    requires Lawful(actions)
    decreases |actions|
  {
    if actions == [] then NOTHING_TOLD
    else Told(Story(actions[..|actions| - 1]), Run(actions[..|actions| - 1]), actions[|actions| - 1])
  }

  /** The driver ended the scan well, the SDK handed its results over, and nobody cancelled it in between. */
  predicate Succeeded(v: Verdict) {
    v.ended == Some(true) && v.answered == Some(true) && !v.cancelled
  }

  /** The error that belongs to the verdict. */
  function ErrorOf(v: Verdict): Code {
    if Succeeded(v) then Fine else if v.stopped then NotStarted else Failed
  }

  // ---- The invariant -------------------------------------------------------------------------

  predicate Restarting(o: Owner) {
    o.StartErrorReset? || o.StartCancelReset? || o.StartDoneCleared? || o.StartScanningSet?
  }

  predicate Refusing(o: Owner) {
    o.StartRefused? || o.StartErrorKept? || o.StartScanningCleared?
  }

  /** The driver's scanning bit is up from just before publication until just before retirement. */
  predicate BitMatches(s: State) {
    s.scanningBit <==>
      || s.owner.StartScanningSet?
      || (s.inFlight && !s.owner.StartScanningCleared?
            && !s.handler.DoneScanningCleared? && !s.handler.DoneMarked? && !s.handler.StopBitsCleared?)
  }

  /** Nothing but a cancel has been told of the scan beyond `ended`. */
  predicate Open(v: Verdict, ended: Option<bool>) {
    v == NOTHING_TOLD.(ended := ended, cancelled := v.cancelled)
  }

  /** While a scan is in flight. */
  predicate FlightTold(s: State, v: Verdict) {
    && (s.radio.RowsOf? ==> Open(v, None))
    && (s.owner.StartPublished? ==> v == NOTHING_TOLD)
    && (Refusing(s.owner) ==> v == NOTHING_TOLD.(refused := true))
    && (forall i :: 0 <= i < |s.queue| && s.queue[i].ScanDone? ==> Open(v, Some(s.queue[i].good)))
    && (s.inFlight && v.answered.None? ==> s.cancelled == v.cancelled)
    && (s.owner.StartCancelReset? || s.owner.StartDoneCleared? || s.owner.StartScanningSet? ==> !s.cancelled)
    && (s.owner.StartDoneCleared? || s.owner.StartScanningSet? ==> !s.doneBit)
    && (s.owner.StartErrorKept? || s.owner.StartScanningCleared? ==> s.error == Failed)
    && (s.inFlight ==> s.current > 0 && !v.deleted)
    && (s.inFlight ==> (s.doneBit <==> s.handler.DoneMarked?))
    && (s.inFlight && !HandlerTouches(s.handler) && !Refusing(s.owner) ==> Open(v, v.ended))
  }

  predicate Answered(v: Verdict) {
    v.answered.Some? && !v.refused && !v.stopped
  }

  predicate RowsMatch(s: State, v: Verdict) {
    s.rows == if Succeeded(v) then RowsOf(s.current) else NoRows
  }

  /** While the event task retires a scan. */
  predicate RetiringTold(s: State, v: Verdict) {
    match s.handler
    case DoneTaken(_, good) => Open(v, Some(good))
    case DoneCounting(_, good) => Open(v, Some(good))
    case DoneJudged(_, code) => Answered(v) && code == ErrorOf(v)
    case DoneRowsStored(_, code) => Answered(v) && code == ErrorOf(v) && RowsMatch(s, v)
    case DoneErrorStored(_) => Answered(v) && s.error == ErrorOf(v) && RowsMatch(s, v)
    case DoneScanningCleared(_) => Answered(v) && s.error == ErrorOf(v) && RowsMatch(s, v)
    case DoneMarked(_) => Answered(v) && s.error == ErrorOf(v) && RowsMatch(s, v)
    case StopFlightSeen => v.stopped && v.answered.None? && !v.refused
    case StopErrorStored => v.stopped && v.answered.None? && !v.refused && s.error == NotStarted
    case StopBitsCleared => v.stopped && v.answered.None? && !v.refused && s.error == NotStarted
    case _ => true
  }

  /** What the shared fields say of a finished scan. */
  predicate Settled(s: State, v: Verdict) {
    if s.current == 0 then v.answered.None? && s.error == Fine && !s.doneBit
    else
      && (v.answered.Some? || v.stopped || v.refused) && (v.stopped || v.refused ==> v.answered.None?) && !(v.stopped && v.refused)
      && s.error == ErrorOf(v)
      && (s.doneBit <==> v.answered.Some? && !v.deleted)
      && (v.answered.Some? ==> s.rows == if Succeeded(v) && !v.deleted then RowsOf(s.current) else NoRows)
  }

  predicate Faithful(s: State, v: Verdict) {
    BitMatches(s) && FlightTold(s, v) && RetiringTold(s, v) && (!s.inFlight && !Restarting(s.owner) ==> Settled(s, v))
  }

  // ---- Every step keeps it -------------------------------------------------------------------

  lemma BeginFaithful(s: State, v: Verdict, op: Operation)
    requires Sound(s) && Faithful(s, v) && s.owner.OwnerIdle?
    ensures Faithful(BeginOperation(s, op), v)
  {
    hide Stops, Dones, StopsLast;
  }

  lemma StartFaithful(s: State, v: Verdict, ok: bool, reports: bool)
    requires Sound(s) && Faithful(s, v) && (Restarting(s.owner) || s.owner.StartFree?)
    ensures Faithful(OwnerStep(s, ok, reports), Told(v, s, Continue(ok, reports)))
  {
    hide Stops, Dones, StopsLast, ErrorOf;
    Idle(s);
  }

  lemma PublishFaithful(s: State, v: Verdict, ok: bool, reports: bool)
    requires Sound(s) && Faithful(s, v) && Publishing(s.owner)
    ensures Faithful(OwnerStep(s, ok, reports), Told(v, s, Continue(ok, reports)))
  {
    hide Stops, Dones, StopsLast;
    Idle(s);
  }

  lemma UseFaithful(s: State, v: Verdict, ok: bool, reports: bool)
    requires Sound(s) && Faithful(s, v) && (s.owner.Deleting? || s.owner.CompleteFree? || s.owner.CompleteFine?)
    ensures Faithful(OwnerStep(s, ok, reports), Told(v, s, Continue(ok, reports)))
  {
    hide Stops, Dones, StopsLast;
    Idle(s);
  }

  lemma CancelFaithful(s: State, v: Verdict, ok: bool, reports: bool)
    requires Sound(s) && Faithful(s, v) && s.owner.CancelFlight?
    ensures Faithful(OwnerStep(s, ok, reports), Told(v, s, Continue(ok, reports)))
  {
    hide Stops, Dones, StopsLast, Counted, Credited, Barred, Exclusive, Retirable, Reported;
  }

  /** The state differs only in the owner's place, and not between places of one scan. */
  lemma OwnerMoves(s: State, v: Verdict, o: Owner, stops: int)
    requires Faithful(s, v) && !Restarting(s.owner) && !Publishing(s.owner) && !Restarting(o) && !Publishing(o)
    ensures Faithful(s.(owner := o, pendingStops := stops), v)
  {
    hide Open, ErrorOf, Succeeded;
  }

  /** Steps that store nothing a verdict speaks of. */
  lemma BusyTestFaithful(s: State, v: Verdict, ok: bool, reports: bool)
    requires Faithful(s, v) && FlightClear(s.owner)
    ensures Faithful(OwnerStep(s, ok, reports), Told(v, s, Continue(ok, reports)))
  {
    hide Faithful;
    var n := OwnerStep(s, ok, reports).owner;
    assert n.StartFree? || n.Deleting? || n.CompleteFree? || n.OwnerIdle?;
    OwnerMoves(s, v, n, s.pendingStops);
  }

  lemma RefusedStopFaithful(s: State, v: Verdict, ok: bool, reports: bool)
    requires Faithful(s, v) && s.owner.StopRefused?
    ensures Faithful(OwnerStep(s, ok, reports), Told(v, s, Continue(ok, reports)))
  {
    hide Faithful;
    OwnerMoves(s, v, OwnerIdle, s.pendingStops - 1);
  }

  lemma DriverCallFaithful(s: State, v: Verdict, ok: bool, reports: bool)
    requires Sound(s) && Faithful(s, v) && (s.owner.StopCounted? || s.owner.CancelStored?)
    ensures Faithful(OwnerStep(s, ok, reports), Told(v, s, Continue(ok, reports)))
  {
    hide Stops, Dones, StopsLast;
  }

  lemma EndsFaithful(s: State, v: Verdict, good: bool)
    requires Sound(s) && Faithful(s, v) && s.radio.RowsOf?
    ensures Faithful(DriverEnds(s, good), Told(v, s, Ends(good)))
  {
    hide Stops, Dones, StopsLast;
  }

  lemma DeliverFaithful(s: State, v: Verdict)
    requires Sound(s) && Faithful(s, v) && s.handler.HandlerIdle? && s.queue != []
    ensures Faithful(TakeEvent(s), v)
  {
    hide Stops, StopsLast;
    assert forall i :: 0 <= i < |s.queue| - 1 ==> s.queue[1..][i] == s.queue[i + 1];
  }

  lemma FinishFaithful(s: State, v: Verdict, ok: bool)
    requires Sound(s) && Faithful(s, v) && Finishing(s.handler)
    ensures Faithful(HandlerStep(s, ok), Told(v, s, Handle(ok)))
  {
    hide Stops, StopsLast;
    CountsMean(s.queue);
  }

  lemma StoppedFaithful(s: State, v: Verdict, ok: bool)
    requires Sound(s) && Faithful(s, v) && Stopping(s.handler)
    ensures Faithful(HandlerStep(s, ok), Told(v, s, Handle(ok)))
  {
    hide Stops, StopsLast;
    CountsMean(s.queue);
  }

  lemma OwnerFaithful(s: State, v: Verdict, ok: bool, reports: bool)
    requires Sound(s) && Faithful(s, v) && !s.owner.OwnerIdle?
    ensures Faithful(OwnerStep(s, ok, reports), Told(v, s, Continue(ok, reports)))
  {
    hide Sound, Faithful, OwnerStep, Told;
    if s.owner.StopCounted? || s.owner.CancelStored? {
      DriverCallFaithful(s, v, ok, reports);
    } else if s.owner.Deleting? || s.owner.CompleteFree? || s.owner.CompleteFine? {
      UseFaithful(s, v, ok, reports);
    } else if Restarting(s.owner) || s.owner.StartFree? {
      StartFaithful(s, v, ok, reports);
    } else if Publishing(s.owner) {
      PublishFaithful(s, v, ok, reports);
    } else if s.owner.CancelFlight? {
      CancelFaithful(s, v, ok, reports);
    } else if s.owner.StopRefused? {
      RefusedStopFaithful(s, v, ok, reports);
    } else {
      BusyTestFaithful(s, v, ok, reports);
    }
  }

  lemma StepFaithful(s: State, v: Verdict, a: Action)
    requires Sound(s) && Faithful(s, v) && Enabled(s, a)
    ensures Faithful(Next(s, a), Told(v, s, a))
  {
    hide Sound, Faithful, BeginOperation, OwnerStep, TakeEvent, HandlerStep, DriverEnds;
    match a
    case Begin(op) => BeginFaithful(s, v, op);
    case Continue(ok, reports) => OwnerFaithful(s, v, ok, reports);
    case Ends(good) => EndsFaithful(s, v, good);
    case Deliver => DeliverFaithful(s, v);
    case Handle(ok) => if Finishing(s.handler) { FinishFaithful(s, v, ok); } else { StoppedFaithful(s, v, ok); }
  }

  lemma BootIsFaithful()
    ensures Faithful(BOOTED, NOTHING_TOLD)
  {
  }

  lemma {:induction false} RunIsFaithful(actions: seq<Action>)
    requires Lawful(actions)
    ensures Sound(Run(actions)) && Faithful(Run(actions), Story(actions))
    decreases |actions|
  {
    hide Sound, Faithful, Next, Told;
    RunIsSound(actions);
    if actions == [] {
      BootIsFaithful();
    } else {
      RunIsFaithful(actions[..|actions| - 1]);
      StepFaithful(Run(actions[..|actions| - 1]), Story(actions[..|actions| - 1]), actions[|actions| - 1]);
    }
  }

  // ---- What scanComplete says ----------------------------------------------------------------

  /** scanComplete hands rows out only of a latest scan that succeeded, and then hands out its rows. */
  lemma CompletedScanSucceeded(actions: seq<Action>)
    requires Lawful(actions)
    ensures var s, v := Run(actions), Story(actions);
            s.owner.CompleteFine? && s.doneBit ==>
              && v.ended == Some(true) && v.answered == Some(true) && !v.cancelled
              && s.rows == RowsOf(s.current)
  {
    hide Run, Story, Counted, Credited, Barred, Retirable;
    RunIsFaithful(actions);
  }

  /**
   * Past its busy test scanComplete finds the verdict on the latest scan, if there was one: done, with
   * its rows, exactly when it succeeded and was not deleted; a failed report is marked by its error
   * and has no rows; a scan the barrier retired has the barrier's error; and no scan seems to run.
   */
  lemma CompleteFindsVerdict(actions: seq<Action>)
    requires Lawful(actions) && Run(actions).owner.CompleteFree?
    ensures var s, v := Run(actions), Story(actions);
            && !s.scanningBit
            && (s.error == Fine && s.doneBit <==> s.current > 0 && Succeeded(v) && !v.deleted)
            && (s.current > 0 && v.answered.Some? && !Succeeded(v) ==> s.error == Failed && s.rows == NoRows)
            && (s.current > 0 && v.refused ==> s.error == Failed)
            && (s.current > 0 && v.stopped ==> s.error == NotStarted)
            && (s.current > 0 ==> v.answered.Some? || v.refused || v.stopped)
  {
    hide Run, Story, Counted, Credited, Barred, Retirable;
    RunIsFaithful(actions);
  }

  /** As soon as a bad or cancelled report is dealt with, its error stands and there are no rows, until the owner starts again. */
  lemma FailureIsKept(actions: seq<Action>)
    requires Lawful(actions) && Story(actions).answered.Some? && !Succeeded(Story(actions))
    ensures var s := Run(actions);
            !s.handler.DoneJudged? && !s.handler.DoneRowsStored? && !Restarting(s.owner) ==> s.error == Failed && s.rows == NoRows
  {
    hide Run, Story, Counted, Credited, Barred, Retirable;
    RunIsFaithful(actions);
  }

  /** The scanning bit is up whenever the driver runs a scan, and down whenever nothing is busy and no start is under way. */
  lemma ScanningBitMeans(actions: seq<Action>)
    requires Lawful(actions)
    ensures var s := Run(actions);
            && (s.radio.RowsOf? ==> s.scanningBit)
            && (!Busy(s) && !s.owner.StartScanningSet? ==> !s.scanningBit)
  {
    hide Run, Story, Stops, Dones;
    RunIsFaithful(actions);
  }

  // ---- The busy test and a whole scan --------------------------------------------------------

  /** While a scan is in flight or a stop is outstanding, starting, deleting and completing change nothing; nor does a cancel with nothing in flight. */
  lemma BusyRefuses(s: State, op: Operation, ok: bool, reports: bool)
    requires s.owner.OwnerIdle?
    ensures s.inFlight && (op.Start? || op.Delete? || op.Complete?) ==> Next(s, Begin(op)) == s
    ensures !s.inFlight && s.pendingStops != 0 && (op.Start? || op.Delete? || op.Complete?) ==>
              !Next(s, Begin(op)).owner.OwnerIdle? && Next(Next(s, Begin(op)), Continue(ok, reports)) == s
    ensures !s.inFlight && op.Cancel? ==> Next(s, Begin(op)) == s
  {
  }

  /** Rows are handed out exactly when no error stands; deleting takes rows and mark away. */
  lemma UseMeans(s: State, ok: bool, reports: bool)
    ensures s.owner.CompleteFree? ==> Next(s, Continue(ok, reports)) == s.(owner := if s.error == Fine then CompleteFine else OwnerIdle)
    ensures s.owner.Deleting? ==> Next(s, Continue(ok, reports)) == s.(rows := NoRows, doneBit := false, owner := OwnerIdle)
  {
  }

  /** From `s` these actions can be taken in turn and lead to `n`. */
  predicate Leads(s: State, actions: seq<Action>, n: State)
    decreases |actions|
  {
    if actions == [] then n == s else Enabled(s, actions[0]) && Leads(Next(s, actions[0]), actions[1..], n)
  }

  lemma {:induction false} LeadsOn(s: State, first: seq<Action>, mid: State, second: seq<Action>, n: State)
    requires Leads(s, first, mid) && Leads(mid, second, n)
    ensures Leads(s, first + second, n)
    decreases |first|
  {
    hide Enabled, Next;
    if first == [] {
      assert first + second == second;
    } else {
      assert (first + second)[1..] == first[1..] + second;
      LeadsOn(Next(s, first[0]), first[1..], mid, second, n);
    }
  }

  lemma LeadsOne(s: State, a: Action)
    requires Enabled(s, a)
    ensures Leads(s, [a], Next(s, a))
  {
    hide Enabled, Next;
    assert [a][1..] == [];
  }

  /** Nothing is under way. */
  predicate Quiet(s: State) {
    s.owner.OwnerIdle? && s.handler.HandlerIdle? && !Busy(s) && s.queue == [] && s.radio.NoRows?
  }

  const STEP := Continue(true, false)

  const START_STEPS := [Begin(Start), STEP, STEP, STEP, STEP, STEP, STEP, STEP]

  function ReportSteps(good: bool): seq<Action> {
    [Ends(good), Deliver, Handle(true), Handle(true), Handle(true), Handle(true), Handle(true), Handle(true), Handle(true)]
  }

  const COMPLETE_STEPS := [Begin(Complete), STEP, STEP]

  /** A start `i` steps on. */
  function Starting(s: State, i: nat): State
    requires i <= 8
  {
    var e := s.(error := Fine);
    var c := e.(cancelled := false);
    var d := c.(doneBit := false);
    var b := d.(scanningBit := true);
    var f := b.(inFlight := true, current := s.current + 1);
    if i == 0 then s
    else if i == 1 then s.(owner := StartFlightClear)
    else if i == 2 then s.(owner := StartFree)
    else if i == 3 then e.(owner := StartErrorReset)
    else if i == 4 then c.(owner := StartCancelReset)
    else if i == 5 then d.(owner := StartDoneCleared)
    else if i == 6 then b.(owner := StartScanningSet)
    else if i == 7 then f.(owner := StartPublished)
    else f.(radio := RowsOf(s.current + 1))
  }

  lemma StartingStep(s: State, i: nat)
    requires Quiet(s) && i < 8
    ensures Enabled(Starting(s, i), START_STEPS[i]) && Next(Starting(s, i), START_STEPS[i]) == Starting(s, i + 1)
  {
  }

  lemma LeadsNowhere(s: State)
    ensures Leads(s, [], s)
  {
  }

  lemma StartLeads(s: State) returns (n: State)
    requires Quiet(s)
    ensures Leads(s, START_STEPS, n) && n == Starting(s, 8)
  {
    hide Leads, Enabled, Next, Starting, Quiet;
    n := Starting(s, 0);
    LeadsNowhere(s);
    StartsHere(s);
    var done: seq<Action> := [];
    for i := 0 to 8
      invariant Leads(s, done, n) && done == START_STEPS[..i] && n == Starting(s, i)
    {
      StartingStep(s, i);
      LeadsOne(n, START_STEPS[i]);
      LeadsOn(s, done, n, [START_STEPS[i]], Next(n, START_STEPS[i]));
      n, done := Next(n, START_STEPS[i]), done + [START_STEPS[i]];
    }
    assert START_STEPS[..8] == START_STEPS;
  }

  lemma StartsHere(s: State)
    ensures Starting(s, 0) == s && forall good :: Reporting(s, good, 0) == s
  {
  }

  /** A report `i` steps on. */
  function Reporting(s: State, good: bool, i: nat): State
    requires i <= 9
  {
    var scan, code := s.current, if good then Fine else Failed;
    var d := s.(radio := NoRows);
    var r := d.(rows := if good then RowsOf(scan) else NoRows);
    var e := r.(error := code);
    var b := e.(scanningBit := false);
    var m := b.(doneBit := true);
    if i == 0 then s
    else if i == 1 then d.(queue := [ScanDone(scan, good)])
    else if i == 2 then d.(handler := DoneTaken(scan, good))
    else if i == 3 then d.(handler := DoneCounting(scan, good))
    else if i == 4 then d.(handler := DoneJudged(scan, code))
    else if i == 5 then r.(handler := DoneRowsStored(scan, code))
    else if i == 6 then e.(handler := DoneErrorStored(scan))
    else if i == 7 then b.(handler := DoneScanningCleared(scan))
    else if i == 8 then m.(handler := DoneMarked(scan))
    else m.(inFlight := false)
  }

  /** A scan that runs and that nobody cancelled. */
  predicate Scanning(s: State) {
    s.owner.OwnerIdle? && s.handler.HandlerIdle? && s.inFlight && !s.cancelled && s.queue == [] && s.radio == RowsOf(s.current)
  }

  lemma ReportTaken(s: State, good: bool, i: nat)
    requires Scanning(s) && i < 4
    ensures Enabled(Reporting(s, good, i), ReportSteps(good)[i])
    ensures Next(Reporting(s, good, i), ReportSteps(good)[i]) == Reporting(s, good, i + 1)
  {
  }

  lemma ReportStored(s: State, good: bool, i: nat)
    requires Scanning(s) && 4 <= i < 7
    ensures Enabled(Reporting(s, good, i), ReportSteps(good)[i])
    ensures Next(Reporting(s, good, i), ReportSteps(good)[i]) == Reporting(s, good, i + 1)
  {
  }

  lemma ReportRetired(s: State, good: bool, i: nat)
    requires Scanning(s) && 7 <= i < 9
    ensures Enabled(Reporting(s, good, i), ReportSteps(good)[i])
    ensures Next(Reporting(s, good, i), ReportSteps(good)[i]) == Reporting(s, good, i + 1)
  {
  }

  lemma ReportLeads(s: State, good: bool) returns (n: State)
    requires Scanning(s)
    ensures Leads(s, ReportSteps(good), n) && n == Reporting(s, good, 9)
  {
    hide Leads, Enabled, Next, Reporting, Scanning;
    n := Reporting(s, good, 0);
    LeadsNowhere(s);
    StartsHere(s);
    var done: seq<Action> := [];
    var steps := ReportSteps(good);
    for i := 0 to 9
      invariant Leads(s, done, n) && done == steps[..i] && n == Reporting(s, good, i)
    {
      if i < 4 {
        ReportTaken(s, good, i);
      } else if i < 7 {
        ReportStored(s, good, i);
      } else {
        ReportRetired(s, good, i);
      }
      LeadsOne(n, steps[i]);
      LeadsOn(s, done, n, [steps[i]], Next(n, steps[i]));
      n, done := Next(n, steps[i]), done + [steps[i]];
    }
    assert steps[..9] == steps;
  }

  lemma CompleteLeads(s: State) returns (n: State)
    requires s.owner.OwnerIdle? && !Busy(s)
    ensures Leads(s, COMPLETE_STEPS, n)
    ensures n == s.(owner := if s.error == Fine then CompleteFine else OwnerIdle)
  {
    var a := s.(owner := CompleteFlightClear);
    var b := s.(owner := CompleteFree);
    n := Next(b, STEP);
    LeadsOne(s, Begin(Complete));
    LeadsOne(a, STEP);
    LeadsOne(b, STEP);
    LeadsOn(s, [Begin(Complete)], a, [STEP], b);
    LeadsOn(s, [Begin(Complete)] + [STEP], b, [STEP], n);
    assert [Begin(Complete)] + [STEP] + [STEP] == COMPLETE_STEPS;
  }

  /** From any quiet state a scan that ends well is handed out with its rows, and one that ends badly is not. */
  lemma WholeScan(s: State, good: bool) returns (n: State)
    requires Quiet(s)
    ensures Leads(s, START_STEPS + ReportSteps(good) + COMPLETE_STEPS, n)
    ensures if good then n.owner == CompleteFine && n.doneBit && n.rows == RowsOf(s.current + 1)
            else n.owner == OwnerIdle && n.error == Failed && n.rows == NoRows
  {
    hide Leads;
    var started := StartLeads(s);
    var reported := ReportLeads(started, good);
    n := CompleteLeads(reported);
    LeadsOn(s, START_STEPS, started, ReportSteps(good), reported);
    LeadsOn(s, START_STEPS + ReportSteps(good), reported, COMPLETE_STEPS, n);
  }
}

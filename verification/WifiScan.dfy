/**
 * WiFi scan ownership: the owner task starts, cancels, reads and deletes scans and stops the radio;
 * the event task retires scans from a first-in, first-out queue. Every atomic load or store, every
 * status-bit update and every driver call is one step, and the two tasks interleave freely.
 */
module WifiScan {

  /** `ESP_OK`, what a failed start or SDK call returned, and the error of the recovery barrier. */
  datatype Code = Fine | Failed | NotStarted

  datatype Event = ScanDone(scan: nat, good: bool) | StaStop

  /** Which scan the stored rows came from. */
  datatype Rows = NoRows | RowsOf(scan: nat)

  datatype Owner =
    | OwnerIdle
    // scanNetworks: the two loads of the busy test, then the stores, then the driver call
    | StartFlightClear | StartFree | StartErrorReset | StartCancelReset | StartDoneCleared | StartScanningSet | StartPublished
    // ... and the way back when the driver refuses
    | StartRefused | StartErrorKept | StartScanningCleared
    // scanDelete
    | DeleteFlightClear | Deleting
    // scanComplete
    | CompleteFlightClear | CompleteFree | CompleteFine
    // mode changes and stops that take the station down
    | StopCounted | StopRefused
    // cancel
    | CancelFlight | CancelStored

  datatype Handler =
    | HandlerIdle
    // SCAN_DONE: taken from the queue, then past the in-flight test up to the last store
    | DoneTaken(scan: nat, good: bool) | DoneCounting(scan: nat, good: bool) | DoneJudged(scan: nat, code: Code)
    | DoneRowsStored(scan: nat, code: Code) | DoneErrorStored(scan: nat) | DoneScanningCleared(scan: nat) | DoneMarked(scan: nat)
    // STA_STOP: taken, counter seen, flight seen, stores, then the decrement
    | StopTaken | StopSeen | StopFlightSeen | StopErrorStored | StopBitsCleared | StopRetired

  datatype State = State(
    inFlight: bool,
    cancelled: bool,
    error: Code,
    pendingStops: int,
    scanningBit: bool,
    doneBit: bool,
    rows: Rows,
    owner: Owner,
    handler: Handler,
    queue: seq<Event>,
    radio: Rows,         // the scan the driver is running
    current: nat)        // how many scans were published

  const BOOTED := State(false, false, Fine, 0, false, false, NoRows, OwnerIdle, HandlerIdle, [], NoRows, 0)

  predicate Busy(s: State) {
    s.inFlight || s.pendingStops != 0
  }

  datatype Operation = Start | Delete | Complete | Stop | Cancel

  /**
   * `Begin` is the first step of an operation and `Continue` the owner's next one, with the driver's
   * answer and whether the driver reports a scan it cut short; `Ends` is the driver finishing a
   * scan; `Deliver` hands the handler the oldest event and `Handle` is the handler's next step, with
   * the SDK's answer when it asks for results.
   */
  datatype Action = Begin(op: Operation) | Continue(ok: bool, reports: bool) | Ends(good: bool) | Deliver | Handle(ok: bool)

  // ---- The owner task ------------------------------------------------------------------------

  function BeginOperation(s: State, op: Operation): State {
    match op
    case Start => if s.inFlight then s else s.(owner := StartFlightClear)
    case Delete => if s.inFlight then s else s.(owner := DeleteFlightClear)
    case Complete => if s.inFlight then s else s.(owner := CompleteFlightClear)
    case Stop => s.(pendingStops := s.pendingStops + 1, owner := StopCounted)
    case Cancel => if s.inFlight then s.(owner := CancelFlight) else s
  }

  /** What the driver queues for a scan it cuts short, if it reports one at all. */
  function CutShort(s: State, reports: bool): seq<Event> {
    if reports && s.radio.RowsOf? then [ScanDone(s.radio.scan, false)] else []
  }

  function OwnerStep(s: State, ok: bool, reports: bool): State {
    match s.owner
    case OwnerIdle => s
    case StartFlightClear => s.(owner := if s.pendingStops == 0 then StartFree else OwnerIdle)
    case StartFree => if ok then s.(error := Fine, owner := StartErrorReset) else s.(owner := OwnerIdle)
    case StartErrorReset => s.(cancelled := false, owner := StartCancelReset)
    case StartCancelReset => s.(doneBit := false, owner := StartDoneCleared)
    case StartDoneCleared => s.(scanningBit := true, owner := StartScanningSet)
    case StartScanningSet => s.(inFlight := true, current := s.current + 1, owner := StartPublished)
    case StartPublished => if ok then s.(radio := RowsOf(s.current), owner := OwnerIdle) else s.(owner := StartRefused)
    case StartRefused => s.(error := Failed, owner := StartErrorKept)
    case StartErrorKept => s.(scanningBit := false, owner := StartScanningCleared)
    case StartScanningCleared => s.(inFlight := false, owner := OwnerIdle)
    case DeleteFlightClear => s.(owner := if s.pendingStops == 0 then Deleting else OwnerIdle)
    case Deleting => s.(doneBit := false, rows := NoRows, owner := OwnerIdle)
    case CompleteFlightClear => s.(owner := if s.pendingStops == 0 then CompleteFree else OwnerIdle)
    case CompleteFree => s.(owner := if s.error.Fine? then CompleteFine else OwnerIdle)
    case CompleteFine => s.(owner := OwnerIdle)
    case StopCounted =>
      if ok then s.(queue := s.queue + CutShort(s, reports) + [StaStop], radio := NoRows, owner := OwnerIdle)
      else s.(owner := StopRefused)
    case StopRefused => s.(pendingStops := s.pendingStops - 1, owner := OwnerIdle)
    case CancelFlight => s.(cancelled := true, owner := CancelStored)
    case CancelStored =>
      if ok && reports then s.(queue := s.queue + CutShort(s, true), radio := NoRows, owner := OwnerIdle)
      else s.(owner := OwnerIdle)
  }

  // ---- The event task ------------------------------------------------------------------------

  function TakeEvent(s: State): State
    requires s.queue != []
  {
    var rest := s.(queue := s.queue[1..]);
    match s.queue[0]
    case ScanDone(scan, good) => rest.(handler := DoneTaken(scan, good))
    case StaStop => rest.(handler := StopTaken)
  }

  function HandlerStep(s: State, ok: bool): State {
    match s.handler
    case HandlerIdle => s
    case DoneTaken(scan, good) => s.(handler := if s.inFlight then DoneCounting(scan, good) else HandlerIdle)
    case DoneCounting(scan, good) => s.(handler := DoneJudged(scan, if s.cancelled || !good || !ok then Failed else Fine))
    case DoneJudged(scan, code) => s.(rows := if code.Fine? then RowsOf(scan) else NoRows, handler := DoneRowsStored(scan, code))
    case DoneRowsStored(scan, code) => s.(error := code, handler := DoneErrorStored(scan))
    case DoneErrorStored(scan) => s.(scanningBit := false, handler := DoneScanningCleared(scan))
    case DoneScanningCleared(scan) => s.(doneBit := true, handler := DoneMarked(scan))
    case DoneMarked(_) => s.(inFlight := false, handler := HandlerIdle)
    case StopTaken => s.(handler := if s.pendingStops == 0 then HandlerIdle else StopSeen)
    case StopSeen => s.(handler := if s.inFlight then StopFlightSeen else StopRetired)
    case StopFlightSeen => s.(error := NotStarted, handler := StopErrorStored)
    case StopErrorStored => s.(scanningBit := false, doneBit := false, handler := StopBitsCleared)
    case StopBitsCleared => s.(inFlight := false, handler := StopRetired)
    case StopRetired => s.(pendingStops := s.pendingStops - 1, handler := HandlerIdle)
  }

  function DriverEnds(s: State, good: bool): State
    requires s.radio.RowsOf?
  {
    s.(queue := s.queue + [ScanDone(s.radio.scan, good)], radio := NoRows)
  }

  predicate Enabled(s: State, a: Action) {
    match a
    case Begin(_) => s.owner.OwnerIdle?
    case Continue(_, _) => !s.owner.OwnerIdle?
    case Ends(_) => s.radio.RowsOf?
    case Deliver => s.handler.HandlerIdle? && s.queue != []
    case Handle(_) => !s.handler.HandlerIdle?
  }

  function Next(s: State, a: Action): State
    requires Enabled(s, a)
  {
    match a
    case Begin(op) => BeginOperation(s, op)
    case Continue(ok, reports) => OwnerStep(s, ok, reports)
    case Ends(good) => DriverEnds(s, good)
    case Deliver => TakeEvent(s)
    case Handle(ok) => HandlerStep(s, ok)
  }

  // ---- The invariant -------------------------------------------------------------------------

  function Stops(queue: seq<Event>): nat {
    if queue == [] then 0 else (if queue[0].StaStop? then 1 else 0) + Stops(queue[1..])
  }

  predicate Stopping(h: Handler) {
    h.StopTaken? || h.StopSeen? || h.StopFlightSeen? || h.StopErrorStored? || h.StopBitsCleared? || h.StopRetired?
  }

  /** Stops that were counted and whose STA_STOP is not yet completely handled. */
  function Outstanding(s: State): nat {
    Stops(s.queue) + (if s.owner.StopCounted? || s.owner.StopRefused? then 1 else 0) + (if Stopping(s.handler) then 1 else 0)
  }

  function Dones(queue: seq<Event>): nat {
    if queue == [] then 0 else (if queue[0].ScanDone? then 1 else 0) + Dones(queue[1..])
  }

  predicate Finishing(h: Handler) {
    h.DoneTaken? || h.DoneCounting? || h.DoneJudged? || h.DoneRowsStored? || h.DoneErrorStored? || h.DoneScanningCleared? || h.DoneMarked?
  }

  /** Places where a scan still runs or is still being reported. */
  function Reports(s: State): nat {
    Dones(s.queue) + (if s.radio.RowsOf? then 1 else 0) + (if Finishing(s.handler) then 1 else 0)
  }

  /** No SCAN_DONE comes after a STA_STOP in the queue. */
  predicate StopsLast(queue: seq<Event>) {
    forall i, j :: 0 <= i < j < |queue| && queue[i].StaStop? ==> queue[j].StaStop?
  }

  predicate Counted(s: State) {
    s.pendingStops == Outstanding(s)
  }

  /** At most one report exists, of the scan in flight. */
  predicate Credited(s: State) {
    && Reports(s) <= 1
    && (Reports(s) == 1 ==> s.inFlight)
    && (s.radio.RowsOf? ==> s.radio.scan == s.current)
    && (Finishing(s.handler) ==> s.handler.scan == s.current)
    && (forall i :: 0 <= i < |s.queue| && s.queue[i].ScanDone? ==> s.queue[i].scan == s.current)
  }

  /** Once a STA_STOP is queued or in hand, the driver runs no scan and no report comes after it. */
  predicate Barred(s: State) {
    && StopsLast(s.queue)
    && (Stops(s.queue) > 0 || Stopping(s.handler) ==> s.radio.NoRows?)
    && (Stopping(s.handler) ==> Dones(s.queue) == 0)
  }

  /** The owner has read the flag clear. */
  predicate FlightClear(o: Owner) {
    o.StartFlightClear? || o.DeleteFlightClear? || o.CompleteFlightClear?
  }

  /** The owner is past the busy test, up to giving the storage away or being finished with it. */
  predicate OwnerTouches(o: Owner) {
    || o.StartFree? || o.StartErrorReset? || o.StartCancelReset? || o.StartDoneCleared? || o.StartScanningSet?
    || o.Deleting? || o.CompleteFree? || o.CompleteFine?
  }

  /** The handler is past the in-flight test and before the store that gives the storage away. */
  predicate HandlerTouches(h: Handler) {
    || (Finishing(h) && !h.DoneTaken?)
    || h.StopFlightSeen? || h.StopErrorStored? || h.StopBitsCleared?
  }

  /** The flag is up but the driver runs nothing yet, or refused. */
  predicate Publishing(o: Owner) {
    o.StartPublished? || o.StartRefused? || o.StartErrorKept? || o.StartScanningCleared?
  }

  predicate Exclusive(s: State) {
    && (FlightClear(s.owner) ==> !s.inFlight)
    && (OwnerTouches(s.owner) ==> !s.inFlight && s.pendingStops == 0)
    && (Publishing(s.owner) ==> s.inFlight && s.pendingStops == 0 && Reports(s) == 0)
    && (HandlerTouches(s.handler) ==> s.inFlight)
  }

  /** Whatever is in flight will be retired: it is running, reported, or behind a barrier. */
  predicate Retirable(s: State) {
    s.inFlight && !Publishing(s.owner) ==>
      Reports(s) == 1 || Stops(s.queue) > 0 || (Stopping(s.handler) && !s.handler.StopRetired?)
  }

  /** The owner has cleared the error but not yet the mark of the scan before. */
  predicate Resetting(o: Owner) {
    o.StartErrorReset? || o.StartCancelReset?
  }

  /** A result marked done and free of error is the latest scan's. */
  predicate Reported(s: State) {
    && (s.doneBit && s.error.Fine? && !Resetting(s.owner) && !HandlerTouches(s.handler) ==> s.rows == RowsOf(s.current))
    && (s.owner.StartDoneCleared? || s.owner.StartScanningSet? || Publishing(s.owner) ==> !s.doneBit)
    && (s.handler.DoneRowsStored? ==> s.handler.code.Fine? ==> s.rows == RowsOf(s.current))
    && (s.handler.DoneErrorStored? || s.handler.DoneScanningCleared? || s.handler.DoneMarked? ==>
          s.error.Fine? ==> s.rows == RowsOf(s.current))
    && (s.owner.CompleteFine? ==> s.error.Fine?)
    && (s.handler.StopBitsCleared? ==> !s.doneBit)
    && (s.inFlight && !HandlerTouches(s.handler) ==> !s.doneBit)
  }

  predicate Sound(s: State) {
    Counted(s) && Credited(s) && Barred(s) && Exclusive(s) && Retirable(s) && Reported(s)
  }

  // ---- Counting events -----------------------------------------------------------------------

  lemma {:induction false} CountsAppend(queue: seq<Event>, e: Event)
    ensures Stops(queue + [e]) == Stops(queue) + (if e.StaStop? then 1 else 0)
    ensures Dones(queue + [e]) == Dones(queue) + (if e.ScanDone? then 1 else 0)
  {
    if queue == [] {
      assert [] + [e] == [e] && [e][1..] == [];
    } else {
      assert (queue + [e])[1..] == queue[1..] + [e];
      CountsAppend(queue[1..], e);
    }
  }

  lemma {:induction false} CountsMean(queue: seq<Event>)
    ensures Stops(queue) == 0 <==> forall i :: 0 <= i < |queue| ==> queue[i].ScanDone?
    ensures Dones(queue) == 0 <==> forall i :: 0 <= i < |queue| ==> queue[i].StaStop?
    ensures Stops(queue) + Dones(queue) == |queue|
  {
    if queue != [] {
      CountsMean(queue[1..]);
      assert forall i :: 1 <= i < |queue| ==> queue[i] == queue[1..][i - 1];
      assert forall i :: 0 <= i < |queue| - 1 ==> queue[1..][i] == queue[i + 1];
    }
  }

  lemma Idle(s: State)
    requires Counted(s) && Credited(s) && s.pendingStops == 0 && Reports(s) == 0
    ensures s.queue == [] && s.handler.HandlerIdle? && s.radio.NoRows?
  {
    CountsMean(s.queue);
  }

  // ---- Every step keeps it -------------------------------------------------------------------

  lemma BeginKeeps(s: State, op: Operation)
    requires Sound(s) && s.owner.OwnerIdle?
    ensures Sound(BeginOperation(s, op))
  {
    hide Stops, Dones, StopsLast;
  }

  /** The owner's stores before it publishes a scan. */
  lemma StartKeeps(s: State, ok: bool, reports: bool)
    requires Sound(s) && OwnerTouches(s.owner) && !s.owner.Deleting? && !s.owner.CompleteFree? && !s.owner.CompleteFine?
    ensures Sound(OwnerStep(s, ok, reports))
  {
    hide Stops, Dones, StopsLast;
    Idle(s);
  }

  /** Starting the published scan, or taking it back. */
  lemma PublishKeeps(s: State, ok: bool, reports: bool)
    requires Sound(s) && Publishing(s.owner)
    ensures Sound(OwnerStep(s, ok, reports))
  {
    hide Stops, Dones, StopsLast;
    Idle(s);
  }

  /** Deleting rows, and reading a completed scan. */
  lemma UseKeeps(s: State, ok: bool, reports: bool)
    requires Sound(s) && (s.owner.Deleting? || s.owner.CompleteFree? || s.owner.CompleteFine?)
    ensures Sound(OwnerStep(s, ok, reports))
  {
    hide Stops, Dones, StopsLast;
    Idle(s);
  }

  /** The second load of the busy test. */
  lemma BusyTestKeeps(s: State, ok: bool, reports: bool)
    requires Sound(s) && FlightClear(s.owner)
    ensures Sound(OwnerStep(s, ok, reports))
  {
    hide Stops, Dones, StopsLast;
  }

  /** The stores of a refused stop and of a cancel. */
  lemma StoreKeeps(s: State, ok: bool, reports: bool)
    requires Sound(s) && (s.owner.StopRefused? || s.owner.CancelFlight?)
    ensures Sound(OwnerStep(s, ok, reports))
  {
    hide Stops, Dones, StopsLast;
  }

  lemma OwnerKeeps(s: State, ok: bool, reports: bool)
    requires Sound(s) && !s.owner.OwnerIdle?
    ensures Sound(OwnerStep(s, ok, reports))
  {
    hide Sound, OwnerStep;
    if s.owner.StopCounted? || s.owner.CancelStored? {
      DriverCallKeeps(s, ok, reports);
    } else if s.owner.Deleting? || s.owner.CompleteFree? || s.owner.CompleteFine? {
      UseKeeps(s, ok, reports);
    } else if OwnerTouches(s.owner) {
      StartKeeps(s, ok, reports);
    } else if Publishing(s.owner) {
      PublishKeeps(s, ok, reports);
    } else if FlightClear(s.owner) {
      BusyTestKeeps(s, ok, reports);
    } else {
      StoreKeeps(s, ok, reports);
    }
  }

  lemma QueueGrows(queue: seq<Event>, e: Event)
    requires StopsLast(queue) && (e.ScanDone? ==> Stops(queue) == 0)
    ensures StopsLast(queue + [e])
  {
    CountsMean(queue);
  }

  lemma ReportsKeeps(s: State, good: bool)
    requires Sound(s) && s.radio.RowsOf?
    ensures Sound(DriverEnds(s, good))
  {
    hide Stops, Dones, StopsLast;
    CountsAppend(s.queue, ScanDone(s.radio.scan, good));
    QueueGrows(s.queue, ScanDone(s.radio.scan, good));
  }

  lemma StopKeeps(s: State)
    requires Sound(s) && s.owner.StopCounted? && s.radio.NoRows?
    ensures Sound(s.(queue := s.queue + [StaStop], owner := OwnerIdle))
  {
    hide Stops, Dones, StopsLast;
    CountsAppend(s.queue, StaStop);
    QueueGrows(s.queue, StaStop);
  }

  /** A scan the driver drops silently leaves the barrier to retire it. */
  lemma SilentStopKeeps(s: State)
    requires Sound(s) && s.owner.StopCounted? && s.radio.RowsOf?
    ensures Sound(s.(queue := s.queue + [StaStop], radio := NoRows, owner := OwnerIdle))
  {
    hide Stops, Dones, StopsLast;
    CountsAppend(s.queue, StaStop);
    QueueGrows(s.queue, StaStop);
  }

  lemma DriverCallKeeps(s: State, ok: bool, reports: bool)
    requires Sound(s) && (s.owner.StopCounted? || s.owner.CancelStored?)
    ensures Sound(OwnerStep(s, ok, reports))
  {
    hide Stops, Dones, StopsLast;
    if !ok {
    } else if s.owner.CancelStored? {
      CancelKeeps(s, reports);
    } else if s.radio.NoRows? {
      assert s.queue + [] == s.queue;
      StopKeeps(s);
    } else if reports {
      ReportsKeeps(s, false);
      StopKeeps(DriverEnds(s, false));
    } else {
      assert s.queue + [] == s.queue;
      SilentStopKeeps(s);
    }
  }

  lemma CancelKeeps(s: State, reports: bool)
    requires Sound(s) && s.owner.CancelStored?
    ensures Sound(OwnerStep(s, true, reports))
  {
    hide Stops, Dones, StopsLast;
    if reports && s.radio.RowsOf? {
      ReportsKeeps(s, false);
    } else {
      assert s.queue + [] == s.queue;
    }
  }

  lemma DeliverKeeps(s: State)
    requires Sound(s) && s.handler.HandlerIdle? && s.queue != []
    ensures Sound(TakeEvent(s))
  {
    CountsMean(s.queue[1..]);
    assert forall i :: 0 <= i < |s.queue| - 1 ==> s.queue[1..][i] == s.queue[i + 1];
  }

  lemma FinishKeeps(s: State, ok: bool)
    requires Sound(s) && Finishing(s.handler)
    ensures Sound(HandlerStep(s, ok))
  {
    hide Stops, Dones, StopsLast;
  }

  lemma StoppedKeeps(s: State, ok: bool)
    requires Sound(s) && Stopping(s.handler)
    ensures Sound(HandlerStep(s, ok))
  {
    hide Stops, Dones, StopsLast;
  }

  lemma StepKeeps(s: State, a: Action)
    requires Sound(s) && Enabled(s, a)
    ensures Sound(Next(s, a))
  {
    hide Sound, BeginOperation, OwnerStep, TakeEvent, HandlerStep, DriverEnds;
    match a
    case Begin(op) => BeginKeeps(s, op);
    case Continue(ok, reports) => OwnerKeeps(s, ok, reports);
    case Ends(good) => ReportsKeeps(s, good);
    case Deliver => DeliverKeeps(s);
    case Handle(ok) => if Finishing(s.handler) { FinishKeeps(s, ok); } else { StoppedKeeps(s, ok); }
  }

  // ---- Every interleaving --------------------------------------------------------------------

  predicate Lawful(actions: seq<Action>)
    decreases |actions|, 0
  {
    actions == [] ||
    (Lawful(actions[..|actions| - 1]) && Enabled(Run(actions[..|actions| - 1]), actions[|actions| - 1]))
  }

  function Run(actions: seq<Action>): State
    requires Lawful(actions)
    decreases |actions|, 1
  {
    if actions == [] then BOOTED else Next(Run(actions[..|actions| - 1]), actions[|actions| - 1])
  }

  lemma {:induction false} RunIsSound(actions: seq<Action>)
    requires Lawful(actions)
    ensures Sound(Run(actions))
    decreases |actions|
  {
    hide Sound, Next;
    if actions == [] {
      BootIsSound();
    } else {
      RunIsSound(actions[..|actions| - 1]);
      StepKeeps(Run(actions[..|actions| - 1]), actions[|actions| - 1]);
    }
  }

  lemma BootIsSound()
    ensures Sound(BOOTED)
  {
  }

  /** The stop counter is the number of outstanding stops, so neither subtraction ever goes below zero. */
  lemma CounterIsExact(actions: seq<Action>)
    requires Lawful(actions)
    ensures var s := Run(actions);
            && s.pendingStops == Outstanding(s)
            && (s.handler.StopRetired? || s.owner.StopRefused? ==> s.pendingStops >= 1)
  {
    hide Run;
    RunIsSound(actions);
  }

  /** The two tasks never touch the result storage at once; each does so only while it owns it. */
  lemma StorageIsExclusive(actions: seq<Action>)
    requires Lawful(actions)
    ensures var s := Run(actions);
            && !(OwnerTouches(s.owner) && HandlerTouches(s.handler))
            && (HandlerTouches(s.handler) ==> s.inFlight)
            && (OwnerTouches(s.owner) ==> !Busy(s))
  {
    hide Run;
    RunIsSound(actions);
  }

  /** A SCAN_DONE, queued or in hand, is always the one of the scan in flight: none is left for a later scan. */
  lemma DoneIsCreditedToItsScan(actions: seq<Action>)
    requires Lawful(actions)
    ensures var s := Run(actions);
            && (Finishing(s.handler) ==> s.inFlight && s.handler.scan == s.current && Dones(s.queue) == 0)
            && (forall i :: 0 <= i < |s.queue| && s.queue[i].ScanDone? ==>
                  s.inFlight && s.queue[i].scan == s.current && (forall j :: 0 <= j < i ==> s.queue[j].ScanDone?))
            && Dones(s.queue) <= 1
  {
    hide Run, Dones, Stops;
    RunIsSound(actions);
    var s := Run(actions);
    CountsMean(s.queue);
  }

  /** With the owner between operations, busy means exactly that something of a scan or a stop is outstanding. */
  lemma BusyMeansOutstanding(actions: seq<Action>)
    requires Lawful(actions) && Run(actions).owner.OwnerIdle?
    ensures var s := Run(actions); Busy(s) <==> s.queue != [] || !s.handler.HandlerIdle? || s.radio.RowsOf?
  {
    hide Run, Dones, Stops;
    RunIsSound(actions);
    CountsMean(Run(actions).queue);
    if !Busy(Run(actions)) {
      Idle(Run(actions));
    }
  }

  /** What scanComplete hands out is the latest scan's. */
  lemma CompletedRowsAreLatest(actions: seq<Action>)
    requires Lawful(actions)
    ensures var s := Run(actions); s.owner.CompleteFine? && s.doneBit ==> s.rows == RowsOf(s.current)
  {
    hide Run, Dones, Stops;
    RunIsSound(actions);
    assert Run(actions).owner.CompleteFine? ==> OwnerTouches(Run(actions).owner);
  }

  // ---- The event task alone ------------------------------------------------------------------

  /** How many steps the handler needs at most to come back to the queue. */
  function Remaining(h: Handler): nat {
    match h
    case HandlerIdle => 0
    case DoneTaken(_, _) => 8
    case DoneCounting(_, _) => 7
    case DoneJudged(_, _) => 6
    case DoneRowsStored(_, _) => 5
    case DoneErrorStored(_) => 4
    case DoneScanningCleared(_) => 3
    case DoneMarked(_) => 2
    case StopTaken => 8
    case StopSeen => 7
    case StopFlightSeen => 6
    case StopErrorStored => 5
    case StopBitsCleared => 4
    case StopRetired => 3
  }

  /** The event task's own next step: finish what is in hand, else take the oldest event, else wait. */
  function EventTask(s: State): State {
    if !s.handler.HandlerIdle? then HandlerStep(s, true) else if s.queue != [] then TakeEvent(s) else s
  }

  /** `n` steps of the event task with nobody else running. */
  function Alone(s: State, n: nat): State
    decreases n
  {
    if n == 0 then s else Alone(EventTask(s), n - 1)
  }

  /** A bound on the steps that empty the queue. */
  function Work(s: State): nat {
    9 * |s.queue| + Remaining(s.handler)
  }

  /** `n` is a state the handler's step can lead to from `s`. */
  predicate Advances(s: State, n: State) {
    n.queue == s.queue && Remaining(n.handler) < Remaining(s.handler) && n.owner == s.owner && n.radio == s.radio
  }

  lemma FinishAdvances(s: State)
    requires Finishing(s.handler)
    ensures Advances(s, HandlerStep(s, true))
  {
  }

  lemma StopAdvances(s: State)
    requires Stopping(s.handler)
    ensures Advances(s, HandlerStep(s, true))
  {
  }

  lemma EventTaskAdvances(s: State)
    requires Sound(s) && s.owner.OwnerIdle? && s.radio.NoRows?
    ensures var n := EventTask(s);
            && Sound(n) && n.owner.OwnerIdle? && n.radio.NoRows?
            && (Work(s) > 0 ==> Work(n) < Work(s)) && (Work(s) == 0 ==> n == s)
  {
    hide Sound, HandlerStep, Next;
    if !s.handler.HandlerIdle? {
      if Finishing(s.handler) { FinishAdvances(s); } else { StopAdvances(s); }
      HandlerIsEnabled(s);
    } else if s.queue != [] {
      DeliverKeeps(s);
    }
  }

  lemma HandlerIsEnabled(s: State)
    requires Sound(s) && !s.handler.HandlerIdle?
    ensures Sound(HandlerStep(s, true))
  {
    hide Sound, HandlerStep;
    StepKeeps(s, Handle(true));
  }

  lemma {:induction false} AloneEmpties(s: State, n: nat)
    requires Sound(s) && s.owner.OwnerIdle? && s.radio.NoRows? && n >= Work(s)
    ensures var d := Alone(s, n);
            Sound(d) && d.owner.OwnerIdle? && d.radio.NoRows? && Work(d) == 0
    decreases n
  {
    hide Sound, EventTask;
    if n > 0 {
      EventTaskAdvances(s);
      AloneEmpties(EventTask(s), n - 1);
    }
  }

  lemma WorkDone(s: State)
    requires Work(s) == 0
    ensures s.queue == [] && s.handler.HandlerIdle?
  {
  }

  /**
   * The barrier: once the radio runs no scan, whether it reported the one it cut short or not, the
   * event task alone brings the owner out of busy, within nine steps an event.
   */
  lemma BarrierReleases(actions: seq<Action>, n: nat)
    requires Lawful(actions) && Run(actions).owner.OwnerIdle? && Run(actions).radio.NoRows?
    requires n >= Work(Run(actions))
    ensures !Busy(Alone(Run(actions), n))
  {
    hide Run, Alone, Work;
    RunIsSound(actions);
    AloneEmpties(Run(actions), n);
    WorkDone(Alone(Run(actions), n));
  }
}

/** The robot's control state machine of state_machine.cpp.

    Callbacks are oracles: the answer to the k-th callback call of a run is `answers(k)`, and a
    callback does not re-enter the machine.  The specification below is flat: an event causes one
    hop and, when the state entered has a registered action, a second hop with its outcome.  The
    class at the end is the source's mutual recursion of handlers and `transitionToState`, proved
    to compute it. */
module StateMachine {

  import opened Common

  datatype SystemState =
    | Initializing | Idle | Planning | Navigating | DataCollecting | Uploading | Error | ShuttingDown

  datatype StateEvent =
    | InitComplete | PlanRequest | PlanComplete | NavigationStart | WaypointReached | Triggered
    | DataCollected | UploadRequest | UploadComplete | ErrorOccurred | RecoveryRequest | ShutdownRequest

  datatype Callback = Plan | NavigateStep | ShouldCollect | Collect | Upload | OnShutdown

  /** One line of the audit trail. */
  datatype Record = Record(source: SystemState, event: StateEvent, target: SystemState)

  datatype Machine = Machine(
    current: SystemState, degraded: bool, records: seq<Record>, calls: seq<Callback>)

  // ---------------------------------------------------------------- the flat specification

  function Hop(m: Machine, target: SystemState, e: StateEvent): Machine {
    m.(current := target, records := m.records + [Record(m.current, e, target)])
  }

  function Called(m: Machine, c: Callback): Machine { m.(calls := m.calls + [c]) }

  /** The action run on entering a state. */
  function ActionOf(s: SystemState): Option<Callback> {
    match s
    case Planning => Some(Plan)
    case DataCollecting => Some(Collect)
    case Uploading => Some(Upload)
    case ShuttingDown => Some(OnShutdown)
    case _ => None
  }

  /** States whose action answers with an event of its own. */
  predicate Working(s: SystemState) { s.Planning? || s.DataCollecting? || s.Uploading? }

  /** The event an action that succeeded sends. */
  function Done(s: SystemState): StateEvent
    requires Working(s)
  {
    match s
    case Planning => PlanComplete
    case DataCollecting => DataCollected
    case Uploading => UploadComplete
  }

  /** Where a working state goes when its action has answered. */
  function Outcome(s: SystemState, ok: bool, degraded: bool): SystemState
    requires Working(s)
  {
    if ok then (if s.Uploading? then Idle else Navigating)
    else if s.Uploading? && degraded then Idle else Error
  }

  function Enter(registered: set<Callback>, answers: nat -> bool, m: Machine, target: SystemState, e: StateEvent)
    : Machine
  {
    var h, action := Hop(m, target, e), ActionOf(target);
    if action.None? || action.value !in registered then h
    else if !Working(target) then Called(h, action.value)
    else
      var ok := answers(|h.calls|);
      Hop(Called(h, action.value), Outcome(target, ok, m.degraded), if ok then Done(target) else ErrorOccurred)
  }

  /** The state an event leads to, callbacks apart. */
  function Next(s: SystemState, e: StateEvent, degraded: bool): Option<SystemState> {
    match s
    case Initializing => if e.InitComplete? then Some(Idle) else None
    case Idle =>
      if e.PlanRequest? then Some(Planning)
      else if e.UploadRequest? then Some(Uploading)
      else if e.ShutdownRequest? then Some(ShuttingDown)
      else None
    case Navigating =>
      if e.Triggered? then Some(DataCollecting) else if e.ErrorOccurred? then Some(Error) else None
    case Error =>
      if e.RecoveryRequest? then Some(Idle) else if e.ShutdownRequest? then Some(ShuttingDown) else None
    case ShuttingDown => None
    case _ =>
      if e == Done(s) then Some(Outcome(s, true, degraded))
      else if e.ErrorOccurred? then Some(Outcome(s, false, degraded))
      else None
  }

  function Waypoint(registered: set<Callback>, answers: nat -> bool, m: Machine): Machine {
    var asked := if ShouldCollect in registered then Called(m, ShouldCollect) else m;
    if ShouldCollect in registered && answers(|m.calls|) then
      Enter(registered, answers, asked, DataCollecting, Triggered)
    else if NavigateStep !in registered then asked
    else
      var stepped := Called(asked, NavigateStep);
      if answers(|asked.calls|) then stepped else Enter(registered, answers, stepped, Uploading, UploadRequest)
  }

  /** What `handleEvent` does. */
  function Step(registered: set<Callback>, answers: nat -> bool, m: Machine, e: StateEvent): Machine {
    if m.current.Navigating? && e.WaypointReached? then Waypoint(registered, answers, m)
    else
      var next := Next(m.current, e, m.degraded);
      if next.None? then m
      else
        var recovers := m.current.Error? && e.RecoveryRequest?;
        Enter(registered, answers, m.(degraded := m.degraded || recovers), next.value, e)
  }

  /** The constructor followed by `initialize`. */
  function Start(): Machine { Machine(Idle, false, [Record(Initializing, InitComplete, Idle)], []) }

  function Run(registered: set<Callback>, answers: nat -> bool, events: seq<StateEvent>): Machine
    decreases |events|
  {
    if events == [] then Start()
    else Step(registered, answers, Run(registered, answers, events[..|events| - 1]), events[|events| - 1])
  }

  // ---------------------------------------------------------------- what the design allows

  /** The transitions of the design, written down independently of the handlers. */
  predicate Allowed(r: Record) {
    r in {
      Record(Initializing, InitComplete, Idle),
      Record(Idle, PlanRequest, Planning),
      Record(Idle, UploadRequest, Uploading),
      Record(Idle, ShutdownRequest, ShuttingDown),
      Record(Planning, PlanComplete, Navigating),
      Record(Planning, ErrorOccurred, Error),
      Record(Navigating, Triggered, DataCollecting),
      Record(Navigating, UploadRequest, Uploading),
      Record(Navigating, ErrorOccurred, Error),
      Record(DataCollecting, DataCollected, Navigating),
      Record(DataCollecting, ErrorOccurred, Error),
      Record(Uploading, UploadComplete, Idle),
      Record(Uploading, ErrorOccurred, Idle),
      Record(Uploading, ErrorOccurred, Error),
      Record(Error, RecoveryRequest, Idle),
      Record(Error, ShutdownRequest, ShuttingDown)
    }
  }

  /** The records lead from one state to another without a gap. */
  predicate Path(source: SystemState, records: seq<Record>, target: SystemState) {
    if records == [] then source == target
    else
      var last := records[|records| - 1];
      last.target == target && Path(source, records[..|records| - 1], last.source)
  }

  predicate Recovered(records: seq<Record>) {
    exists i :: 0 <= i < |records| && records[i].event.RecoveryRequest?
  }

  /** Record `j` respects degrade mode: a failed upload goes back to IDLE exactly when a recovery
      came before it, and to ERROR otherwise. */
  predicate Degrades(records: seq<Record>, j: nat)
    requires j < |records|
  {
    records[j].source.Uploading? && records[j].event.ErrorOccurred? ==>
      (records[j].target.Idle? <==> Recovered(records[..j]))
  }

  function Entries(records: seq<Record>, s: SystemState): nat {
    if records == [] then 0
    else Entries(records[..|records| - 1], s) + One(records[|records| - 1].target == s)
  }

  function Calls(calls: seq<Callback>, c: Callback): nat {
    if calls == [] then 0 else Calls(calls[..|calls| - 1], c) + One(calls[|calls| - 1] == c)
  }

  lemma PathExtends(source: SystemState, records: seq<Record>, r: Record)
    requires Path(source, records, r.source)
    ensures Path(source, records + [r], r.target)
  {
    assert (records + [r])[..|records|] == records;
  }

  lemma RecoveredExtends(records: seq<Record>, r: Record)
    ensures Recovered(records + [r]) == (Recovered(records) || r.event.RecoveryRequest?)
  {
    var longer := records + [r];
    if Recovered(records) {
      var i :| 0 <= i < |records| && records[i].event.RecoveryRequest?;
      assert longer[i] == records[i];
    }
    if r.event.RecoveryRequest? { assert longer[|records|] == r; }
    if Recovered(longer) && !r.event.RecoveryRequest? {
      var i :| 0 <= i < |longer| && longer[i].event.RecoveryRequest?;
      assert records[i] == longer[i];
    }
  }

  lemma EntriesExtend(records: seq<Record>, r: Record, s: SystemState)
    ensures Entries(records + [r], s) == Entries(records, s) + One(r.target == s)
  {
    assert (records + [r])[..|records|] == records;
  }

  lemma CallsExtend(calls: seq<Callback>, added: Callback, c: Callback)
    ensures Calls(calls + [added], c) == Calls(calls, c) + One(added == c)
  {
    assert (calls + [added])[..|calls|] == calls;
  }

  /** The history half of the invariant, for a machine that may stand in a working state. */
  ghost predicate Trail(m: Machine) {
    && Path(Initializing, m.records, m.current)
    && (forall j :: 0 <= j < |m.records| ==> Allowed(m.records[j]) && Degrades(m.records, j))
    && m.degraded == Recovered(m.records)
  }

  /** One allowed hop keeps the trail; a recovery is what switches degrade mode on. */
  lemma HopKeepsTrail(m: Machine, target: SystemState, e: StateEvent, degraded: bool)
    requires Trail(m) && Allowed(Record(m.current, e, target))
    requires degraded == (m.degraded || e.RecoveryRequest?)
    requires m.current.Uploading? && e.ErrorOccurred? ==> target.Idle? == m.degraded
    ensures Trail(Hop(m, target, e).(degraded := degraded))
  {
    hide Allowed, Recovered, Path;
    var r, t := Record(m.current, e, target), Hop(m, target, e).(degraded := degraded);
    PathExtends(Initializing, m.records, r);
    RecoveredExtends(m.records, r);
    forall j | 0 <= j < |t.records| ensures Allowed(t.records[j]) && Degrades(t.records, j) {
      if j < |m.records| {
        assert t.records[j] == m.records[j] && t.records[..j] == m.records[..j];
        assert Allowed(m.records[j]) && Degrades(m.records, j);
      } else {
        assert t.records[..j] == m.records;
      }
    }
  }

  /** Entering a state by an allowed hop keeps the trail through the action's own hop. */
  lemma EnterKeepsTrail(registered: set<Callback>, answers: nat -> bool, m: Machine, target: SystemState, e: StateEvent,
                        degraded: bool)
    requires Trail(m) && Allowed(Record(m.current, e, target))
    requires degraded == (m.degraded || e.RecoveryRequest?)
    requires m.current.Uploading? && e.ErrorOccurred? ==> target.Idle? == m.degraded
    ensures Trail(Enter(registered, answers, m.(degraded := degraded), target, e))
  {
    hide Trail;
    var h := Hop(m, target, e).(degraded := degraded);
    HopKeepsTrail(m, target, e, degraded);
    var action := ActionOf(target);
    if action.Some? && action.value in registered {
      CallKeepsTrail(h, action.value);
      if Working(target) {
        var ok := answers(|h.calls|);
        var reply := if ok then Done(target) else ErrorOccurred;
        HopKeepsTrail(Called(h, action.value), Outcome(target, ok, degraded), reply, degraded);
      }
    }
  }

  lemma CallKeepsTrail(m: Machine, c: Callback)
    requires Trail(m)
    ensures Trail(Called(m, c))
  {
  }

  lemma NextIsAllowed(s: SystemState, e: StateEvent, degraded: bool)
    requires Next(s, e, degraded).Some?
    ensures Allowed(Record(s, e, Next(s, e, degraded).value))
    ensures s.Uploading? && e.ErrorOccurred? ==> Next(s, e, degraded).value.Idle? == degraded
    ensures e.RecoveryRequest? ==> s.Error?
  {
  }

  /** An event keeps the trail, from whatever state the machine is in. */
  lemma StepKeepsTrail(registered: set<Callback>, answers: nat -> bool, m: Machine, e: StateEvent)
    requires Trail(m)
    ensures Trail(Step(registered, answers, m, e))
  {
    hide Trail, Next, Enter;
    if m.current.Navigating? && e.WaypointReached? {
      CallKeepsTrail(m, ShouldCollect);
      var asked := if ShouldCollect in registered then Called(m, ShouldCollect) else m;
      CallKeepsTrail(asked, NavigateStep);
      EnterKeepsTrail(registered, answers, asked, DataCollecting, Triggered, m.degraded);
      EnterKeepsTrail(registered, answers, Called(asked, NavigateStep), Uploading, UploadRequest, m.degraded);
    } else if Next(m.current, e, m.degraded).Some? {
      NextIsAllowed(m.current, e, m.degraded);
      var target := Next(m.current, e, m.degraded).value;
      EnterKeepsTrail(registered, answers, m, target, e, m.degraded || e.RecoveryRequest?);
    }
  }

  lemma StartHasTrail()
    ensures Trail(Start())
  {
    PathExtends(Initializing, [], Record(Initializing, InitComplete, Idle));
    assert [] + [Record(Initializing, InitComplete, Idle)] == Start().records;
  }

  // ---------------------------------------------------------------- the results

  /** Every run is an unbroken walk from INITIALIZING to the current state along allowed
      transitions. */
  lemma {:induction false} RunIsAllowedPath(registered: set<Callback>, answers: nat -> bool, events: seq<StateEvent>)
    ensures Trail(Run(registered, answers, events))
    decreases |events|
  {
    hide Trail, Step, Start;
    if events == [] {
      StartHasTrail();
    } else {
      var before := events[..|events| - 1];
      RunIsAllowedPath(registered, answers, before);
      StepKeepsTrail(registered, answers, Run(registered, answers, before), events[|events| - 1]);
    }
  }

  /** After a recovery a failed upload never leads to ERROR; before one it always does. */
  lemma FailedUpload(registered: set<Callback>, answers: nat -> bool, events: seq<StateEvent>, j: nat)
    requires j < |Run(registered, answers, events).records|
    requires var r := Run(registered, answers, events).records[j]; r.source.Uploading? && !r.event.UploadComplete?
    ensures var records := Run(registered, answers, events).records;
            && (records[j].target.Error? <==> !Recovered(records[..j]))
            && (records[j].target.Idle? <==> Recovered(records[..j]))
  {
    hide Recovered, Path;
    RunIsAllowedPath(registered, answers, events);
    var records := Run(registered, answers, events).records;
    assert Allowed(records[j]) && Degrades(records, j);
  }

  /** One event appends at most two records. */
  lemma AtMostTwoTransitions(registered: set<Callback>, answers: nat -> bool, m: Machine, e: StateEvent)
    ensures var t := Step(registered, answers, m, e);
            && m.records <= t.records && |t.records| <= |m.records| + 2
            && (t.current != m.current ==> |t.records| > |m.records|)
  {
    hide Enter, Next;
    EnterRecords(registered, answers, m, DataCollecting, Triggered);
    EnterRecords(registered, answers, m, Uploading, UploadRequest);
    if Next(m.current, e, m.degraded).Some? {
      EnterRecords(registered, answers, m, Next(m.current, e, m.degraded).value, e);
    }
  }

  lemma EnterRecords(registered: set<Callback>, answers: nat -> bool, m: Machine, target: SystemState, e: StateEvent)
    ensures forall t: Machine :: t.records == m.records ==>
              var u := Enter(registered, answers, t, target, e).records;
              t.records <= u && |t.records| < |u| <= |t.records| + 2
  {
    hide Outcome, Done;
  }

  /** No transition of the design is dropped: an event moves the machine exactly when the design has
      a transition for it, save that a navigating machine asks for its own upload.  A waypoint moves
      it exactly when a registered callback calls for collecting or reports the end of the path. */
  lemma MovesIff(registered: set<Callback>, answers: nat -> bool, m: Machine, e: StateEvent)
    ensures var t := Step(registered, answers, m, e);
            !e.WaypointReached? ==>
              (|t.records| > |m.records| <==>
                 !(m.current.Navigating? && e.UploadRequest?) && exists target :: Allowed(Record(m.current, e, target)))
    ensures var t := Step(registered, answers, m, WaypointReached);
            |t.records| > |m.records| <==>
              m.current.Navigating?
              && var collects := ShouldCollect in registered && answers(|m.calls|);
                 collects || (NavigateStep in registered && !answers(|m.calls| + One(ShouldCollect in registered)))
  {
    hide Enter;
    var next := Next(m.current, e, m.degraded);
    EnterRecords(registered, answers, m, DataCollecting, Triggered);
    EnterRecords(registered, answers, m, Uploading, UploadRequest);
    if next.Some? {
      EnterRecords(registered, answers, m, next.value, e);
      NextIsAllowed(m.current, e, m.degraded);
    }
    NextIsDesign(m.current, e, m.degraded);
    assert Next(m.current, WaypointReached, m.degraded).None?;
  }

  lemma NextIsDesign(s: SystemState, e: StateEvent, degraded: bool)
    ensures Next(s, e, degraded).None? && !(s.Navigating? && e.UploadRequest?) ==>
              forall target :: !Allowed(Record(s, e, target))
    ensures s.Navigating? && e.UploadRequest? ==> Next(s, e, degraded).None?
  {
  }

  /** With its action registered, a working state is left before the event returns. */
  lemma {:induction false} NeverRestsWorking(registered: set<Callback>, answers: nat -> bool, events: seq<StateEvent>)
    requires {Plan, Collect, Upload} <= registered
    ensures !Working(Run(registered, answers, events).current)
    ensures !Run(registered, answers, events).current.Initializing?
    decreases |events|
  {
    hide Step;
    if events != [] {
      var before, e := events[..|events| - 1], events[|events| - 1];
      NeverRestsWorking(registered, answers, before);
      var m := Run(registered, answers, before);
      StepLeavesWorking(registered, answers, m, e);
    }
  }

  lemma StepLeavesWorking(registered: set<Callback>, answers: nat -> bool, m: Machine, e: StateEvent)
    requires {Plan, Collect, Upload} <= registered && !Working(m.current) && !m.current.Initializing?
    ensures !Working(Step(registered, answers, m, e).current) && !Step(registered, answers, m, e).current.Initializing?
  {
    hide Enter;
    forall t: Machine, target: SystemState, event: StateEvent | !target.Initializing?
      ensures var u := Enter(registered, answers, t, target, event).current; !Working(u) && !u.Initializing?
    {
      EnterLeavesWorking(registered, answers, t, target, event);
    }
  }

  lemma EnterLeavesWorking(
    registered: set<Callback>, answers: nat -> bool, m: Machine, target: SystemState, e: StateEvent)
    requires {Plan, Collect, Upload} <= registered && !target.Initializing?
    ensures var t := Enter(registered, answers, m, target, e).current; !Working(t) && !t.Initializing?
  {
    hide Hop;
    assert Plan in registered && Collect in registered && Upload in registered;
    HopCurrent(m, target, e);
    if Working(target) {
      var h := Hop(m, target, e);
      var ok := answers(|h.calls|);
      var reply := if ok then Done(target) else ErrorOccurred;
      HopCurrent(Called(h, ActionOf(target).value), Outcome(target, ok, m.degraded), reply);
    }
  }

  lemma HopCurrent(m: Machine, target: SystemState, e: StateEvent)
    ensures Hop(m, target, e).current == target && Hop(m, target, e).calls == m.calls
  {
  }

  /** Where a machine that enters a working state with `k` callbacks made comes to rest: there, when its
      action is not registered, and otherwise where the answer sends it. */
  function Rests(registered: set<Callback>, answers: nat -> bool, k: nat, s: SystemState, degraded: bool): SystemState {
    match s
    case Planning => if Plan !in registered then Planning else if answers(k) then Navigating else Error
    case DataCollecting => if Collect !in registered then DataCollecting else if answers(k) then Navigating else Error
    case Uploading => if Upload !in registered then Uploading else if answers(k) || degraded then Idle else Error
    case _ => s
  }

  /** The answers decide: a request to plan, collect or upload leaves the machine where the action sends
      it.  At a waypoint it collects when asked to, else uploads at the end of the path, else goes on;
      a callback that is not registered is not asked. */
  lemma AnswersDecide(registered: set<Callback>, answers: nat -> bool, m: Machine)
    ensures var k, d := |m.calls|, m.degraded;
            && (m.current.Idle? ==>
                  && Step(registered, answers, m, PlanRequest).current == Rests(registered, answers, k, Planning, d)
                  && Step(registered, answers, m, UploadRequest).current == Rests(registered, answers, k, Uploading, d))
            && (m.current.Navigating? ==>
                  Step(registered, answers, m, Triggered).current == Rests(registered, answers, k, DataCollecting, d))
    ensures m.current.Navigating? ==>
              var t, k, d := Step(registered, answers, m, WaypointReached), |m.calls|, m.degraded;
              var asked := k + One(ShouldCollect in registered);
              if ShouldCollect in registered && answers(k) then
                t.current == Rests(registered, answers, asked, DataCollecting, d)
              else if NavigateStep in registered && !answers(asked) then
                t.current == Rests(registered, answers, asked + 1, Uploading, d)
              else t.current.Navigating? && t.records == m.records
  {
    hide Enter;
    forall t: Machine, s, e | Working(s) ensures
      Enter(registered, answers, t, s, e).current == Rests(registered, answers, |t.calls|, s, t.degraded)
    {
      EnterRests(registered, answers, t, s, e);
    }
  }

  function IfIn(registered: set<Callback>, c: Callback): seq<Callback> { if c in registered then [c] else [] }

  /** Which callbacks a waypoint calls: first whether to collect; then the collecting, if so, and else
      the step; and the upload at the end of the path. */
  lemma WaypointCalls(registered: set<Callback>, answers: nat -> bool, m: Machine)
    requires m.current.Navigating?
    ensures var t, k := Step(registered, answers, m, WaypointReached), |m.calls|;
            var collects := ShouldCollect in registered && answers(k);
            var ends := NavigateStep in registered && !answers(k + One(ShouldCollect in registered));
            t.calls == m.calls + IfIn(registered, ShouldCollect)
                       + (if collects then IfIn(registered, Collect)
                          else IfIn(registered, NavigateStep) + if ends then IfIn(registered, Upload) else [])
  {
    hide Enter;
    var asked := if ShouldCollect in registered then Called(m, ShouldCollect) else m;
    EnterCalls(registered, answers, asked, DataCollecting, Triggered);
    EnterCalls(registered, answers, Called(asked, NavigateStep), Uploading, UploadRequest);
  }

  lemma EnterCalls(registered: set<Callback>, answers: nat -> bool, m: Machine, s: SystemState, e: StateEvent)
    requires Working(s)
    ensures Enter(registered, answers, m, s, e).calls == m.calls + IfIn(registered, ActionOf(s).value)
  {
    hide Outcome, Done;
  }

  lemma EnterRests(registered: set<Callback>, answers: nat -> bool, m: Machine, s: SystemState, e: StateEvent)
    requires Working(s)
    ensures Enter(registered, answers, m, s, e).current == Rests(registered, answers, |m.calls|, s, m.degraded)
  {
  }

  lemma ShutDownStays(registered: set<Callback>, answers: nat -> bool, m: Machine)
    requires m.current.ShuttingDown?
    ensures forall e :: Step(registered, answers, m, e) == m
  {
  }

  /** SHUTTING_DOWN ignores everything: no event changes anything any more. */
  lemma {:induction false} ShutdownIsFinal(
    registered: set<Callback>, answers: nat -> bool, events: seq<StateEvent>, more: seq<StateEvent>)
    requires Run(registered, answers, events).current.ShuttingDown?
    ensures Run(registered, answers, events + more) == Run(registered, answers, events)
    decreases |more|
  {
    hide Step;
    ShutDownStays(registered, answers, Run(registered, answers, events));
    if more == [] {
      assert events + more == events;
    } else {
      var before := more[..|more| - 1];
      assert (events + more)[..|events + more| - 1] == events + before;
      ShutdownIsFinal(registered, answers, events, before);
    }
  }

  /** A shutdown request is obeyed from IDLE and ERROR only; anywhere else it is dropped and changes
      nothing. */
  lemma ShutdownObeyedIff(registered: set<Callback>, answers: nat -> bool, m: Machine)
    requires !m.current.ShuttingDown?
    ensures var t := Step(registered, answers, m, ShutdownRequest);
            && (t.current.ShuttingDown? <==> m.current.Idle? || m.current.Error?)
            && (!t.current.ShuttingDown? ==> t == m)
  {
  }

  /** Every entry into a state with a registered action runs that action, once. */
  lemma {:induction false} EachEntryRunsItsAction(
    registered: set<Callback>, answers: nat -> bool, events: seq<StateEvent>, s: SystemState)
    requires ActionOf(s).Some?
    ensures var m, c := Run(registered, answers, events), ActionOf(s).value;
            Calls(m.calls, c) == if c in registered then Entries(m.records, s) else 0
    decreases |events|
  {
    hide Step;
    if events == [] {
      assert Start().records == [] + [Record(Initializing, InitComplete, Idle)];
      EntriesExtend([], Record(Initializing, InitComplete, Idle), s);
    } else {
      var before, e := events[..|events| - 1], events[|events| - 1];
      EachEntryRunsItsAction(registered, answers, before, s);
      StepBalances(registered, answers, Run(registered, answers, before), e, s);
    }
  }

  /** The calls of a state's action owed by the entries into it: zero when they balance. */
  predicate Balanced(registered: set<Callback>, m: Machine, s: SystemState)
    requires ActionOf(s).Some?
  {
    Calls(m.calls, ActionOf(s).value) == if ActionOf(s).value in registered then Entries(m.records, s) else 0
  }

  /** A hop into a state without the action of `s`, or a callback other than it. */
  lemma OthersBalance(
    registered: set<Callback>, m: Machine, target: SystemState, e: StateEvent, c: Callback, s: SystemState)
    requires ActionOf(s).Some? && Balanced(registered, m, s)
    ensures target != s ==> Balanced(registered, Hop(m, target, e), s)
    ensures c != ActionOf(s).value ==> Balanced(registered, Called(m, c), s)
  {
    hide Entries, Calls;
    EntriesExtend(m.records, Record(m.current, e, target), s);
    CallsExtend(m.calls, c, ActionOf(s).value);
  }

  /** A hop into `s` itself, with its action when that is registered. */
  lemma OwnBalances(registered: set<Callback>, m: Machine, e: StateEvent, s: SystemState)
    requires ActionOf(s).Some? && Balanced(registered, m, s)
    ensures var h, c := Hop(m, s, e), ActionOf(s).value;
            Balanced(registered, if c in registered then Called(h, c) else h, s)
  {
    hide Entries, Calls;
    EntriesExtend(m.records, Record(m.current, e, s), s);
    CallsExtend(m.calls, ActionOf(s).value, ActionOf(s).value);
  }

  lemma EnterBalances(
    registered: set<Callback>, answers: nat -> bool, m: Machine, target: SystemState, e: StateEvent, s: SystemState)
    requires ActionOf(s).Some? && Balanced(registered, m, s)
    ensures Balanced(registered, Enter(registered, answers, m, target, e), s)
  {
    hide Balanced;
    var h, action := Hop(m, target, e), ActionOf(target);
    var called := if action.Some? && action.value in registered then Called(h, action.value) else h;
    if target == s {
      OwnBalances(registered, m, e, s);
    } else {
      OthersBalance(registered, m, target, e, ShouldCollect, s);
      OthersBalance(registered, h, target, e, if action.Some? then action.value else ShouldCollect, s);
    }
    if Working(target) {
      var ok := answers(|h.calls|);
      var back, reply := Outcome(target, ok, m.degraded), if ok then Done(target) else ErrorOccurred;
      OthersBalance(registered, called, back, reply, ShouldCollect, s);
    }
  }

  lemma StepBalances(registered: set<Callback>, answers: nat -> bool, m: Machine, e: StateEvent, s: SystemState)
    requires ActionOf(s).Some? && Balanced(registered, m, s)
    ensures Balanced(registered, Step(registered, answers, m, e), s)
  {
    hide Enter, Next, Balanced;
    if m.current.Navigating? && e.WaypointReached? {
      OthersBalance(registered, m, Idle, e, ShouldCollect, s);
      var asked := if ShouldCollect in registered then Called(m, ShouldCollect) else m;
      OthersBalance(registered, asked, Idle, e, NavigateStep, s);
      EnterBalances(registered, answers, asked, DataCollecting, Triggered, s);
      EnterBalances(registered, answers, Called(asked, NavigateStep), Uploading, UploadRequest, s);
    } else {
      var next := Next(m.current, e, m.degraded);
      if next.Some? {
        var switched := m.(degraded := m.degraded || (m.current.Error? && e.RecoveryRequest?));
        SwitchBalances(registered, m, switched.degraded, s);
        EnterBalances(registered, answers, switched, next.value, e, s);
      }
    }
  }

  lemma SwitchBalances(registered: set<Callback>, m: Machine, degraded: bool, s: SystemState)
    requires ActionOf(s).Some? && Balanced(registered, m, s)
    ensures Balanced(registered, m.(degraded := degraded), s)
  {
  }

  /** `on_shutdown` runs at most once, and has run exactly when the machine is shutting down and the
      callback is registered. */
  lemma {:induction false} OnShutdownRunsOnce(registered: set<Callback>, answers: nat -> bool, events: seq<StateEvent>)
    ensures var m := Run(registered, answers, events);
            && Entries(m.records, ShuttingDown) == One(m.current.ShuttingDown?)
            && Calls(m.calls, OnShutdown) == One(m.current.ShuttingDown? && OnShutdown in registered)
    decreases |events|
  {
    EachEntryRunsItsAction(registered, answers, events, ShuttingDown);
    if events == [] {
      assert Start().records == [] + [Record(Initializing, InitComplete, Idle)];
      EntriesExtend([], Record(Initializing, InitComplete, Idle), ShuttingDown);
    } else {
      hide Step;
      OnShutdownRunsOnce(registered, answers, events[..|events| - 1]);
      ShutdownEntries(registered, answers, Run(registered, answers, events[..|events| - 1]), events[|events| - 1]);
    }
  }

  lemma ShutdownEntries(registered: set<Callback>, answers: nat -> bool, m: Machine, e: StateEvent)
    requires Entries(m.records, ShuttingDown) == One(m.current.ShuttingDown?)
    ensures var t := Step(registered, answers, m, e); Entries(t.records, ShuttingDown) == One(t.current.ShuttingDown?)
  {
    hide Enter, Next, Entries;
    if m.current.Navigating? && e.WaypointReached? {
      var asked := if ShouldCollect in registered then Called(m, ShouldCollect) else m;
      EnterShutsDown(registered, answers, asked, DataCollecting, Triggered);
      EnterShutsDown(registered, answers, Called(asked, NavigateStep), Uploading, UploadRequest);
    } else {
      var next := Next(m.current, e, m.degraded);
      if next.Some? {
        NextLeavesOpen(m.current, e, m.degraded);
        var switched := m.(degraded := m.degraded || (m.current.Error? && e.RecoveryRequest?));
        EnterShutsDown(registered, answers, switched, next.value, e);
      }
    }
  }

  lemma NextLeavesOpen(s: SystemState, e: StateEvent, degraded: bool)
    ensures Next(s, e, degraded).Some? ==> !s.ShuttingDown?
  {
  }

  lemma EnterShutsDown(registered: set<Callback>, answers: nat -> bool, m: Machine, target: SystemState, e: StateEvent)
    requires Entries(m.records, ShuttingDown) == 0
    ensures var t := Enter(registered, answers, m, target, e);
            Entries(t.records, ShuttingDown) == One(t.current.ShuttingDown?)
  {
    hide Entries;
    EntriesExtend(m.records, Record(m.current, e, target), ShuttingDown);
    if Working(target) {
      var h := Hop(m, target, e);
      var ok := answers(|h.calls|);
      var r := Record(target, if ok then Done(target) else ErrorOccurred, Outcome(target, ok, m.degraded));
      EntriesExtend(h.records, r, ShuttingDown);
    }
  }

  /** The record of a navigating machine that goes on to upload. */
  const TO_UPLOAD := Record(Navigating, UploadRequest, Uploading)

  /** Answers to the callbacks: a plan if one is asked for first, and no to everything after. */
  function OnlyPlans(registered: set<Callback>): nat -> bool { k => k == 0 && Plan in registered }

  /** A mission to its first waypoint. */
  function ToWaypoint(registered: set<Callback>): seq<StateEvent> {
    if Plan in registered then [PlanRequest, WaypointReached] else [PlanRequest, PlanComplete, WaypointReached]
  }

  /** From NAVIGATING some event and some answers lead to the upload exactly when `navigate_step` is
      registered. */
  lemma UploadIsNextIff(registered: set<Callback>, m: Machine)
    requires m.current.Navigating?
    ensures (exists answers: nat -> bool, e ::
               var t := Step(registered, answers, m, e);
               |t.records| > |m.records| && t.records[|m.records|] == TO_UPLOAD)
       <==> NavigateStep in registered
  {
    hide Allowed;
    if NavigateStep in registered {
      var answers: nat -> bool := _ => false;
      var t := Step(registered, answers, m, WaypointReached);
      UploadsNext(registered, answers, m);
      assert |t.records| > |m.records| && t.records[|m.records|] == TO_UPLOAD;
    } else {
      forall answers: nat -> bool, e
        ensures var t := Step(registered, answers, m, e);
                !(|t.records| > |m.records| && t.records[|m.records|] == TO_UPLOAD)
      {
        StepRecordsUpload(registered, answers, m, e);
      }
    }
  }

  lemma UploadsNext(registered: set<Callback>, answers: nat -> bool, m: Machine)
    requires m.current.Navigating? && NavigateStep in registered && forall k :: !answers(k)
    ensures var t := Step(registered, answers, m, WaypointReached);
            |t.records| > |m.records| && t.records[|m.records|] == TO_UPLOAD
  {
    hide Outcome, Done;
  }

  /** Only a registered `navigate_step` gets a machine to record the upload. */
  lemma StepRecordsUpload(registered: set<Callback>, answers: nat -> bool, m: Machine, e: StateEvent)
    requires NavigateStep !in registered
    ensures var t := Step(registered, answers, m, e);
            m.records <= t.records && forall i :: |m.records| <= i < |t.records| ==> t.records[i] != TO_UPLOAD
  {
    hide Enter, Next;
    EnterRecordsUpload(registered, answers, m, DataCollecting, Triggered);
    if Next(m.current, e, m.degraded).Some? {
      NextIsNoUpload(m.current, e, m.degraded);
      EnterRecordsUpload(registered, answers, m, Next(m.current, e, m.degraded).value, e);
    }
  }

  lemma NextIsNoUpload(s: SystemState, e: StateEvent, degraded: bool)
    requires Next(s, e, degraded).Some?
    ensures Record(s, e, Next(s, e, degraded).value) != TO_UPLOAD
  {
  }

  lemma EnterRecordsUpload(
    registered: set<Callback>, answers: nat -> bool, m: Machine, target: SystemState, e: StateEvent)
    requires Record(m.current, e, target) != TO_UPLOAD
    ensures forall t: Machine :: t.records == m.records && t.current == m.current ==>
              var u := Enter(registered, answers, t, target, e).records;
              t.records <= u && forall i :: |t.records| <= i < |u| ==> u[i] != TO_UPLOAD
  {
    hide Outcome;
  }

  lemma {:induction false} RunRecordsUpload(registered: set<Callback>, answers: nat -> bool, events: seq<StateEvent>)
    requires NavigateStep !in registered
    ensures TO_UPLOAD !in Run(registered, answers, events).records
    decreases |events|
  {
    hide Step;
    if events != [] {
      var before := events[..|events| - 1];
      RunRecordsUpload(registered, answers, before);
      StepRecordsUpload(registered, answers, Run(registered, answers, before), events[|events| - 1]);
    }
  }

  lemma WitnessUploads(registered: set<Callback>)
    requires NavigateStep in registered
    ensures TO_UPLOAD in Run(registered, OnlyPlans(registered), ToWaypoint(registered)).records
  {
    hide Step, Start;
    var answers, none := OnlyPlans(registered), [];
    var planned := Run(registered, answers, [PlanRequest]);
    assert [PlanRequest][..0] == none && Run(registered, answers, none) == Start();
    PlansFromStart(registered);
    if Plan in registered {
      assert [PlanRequest, WaypointReached][..1] == [PlanRequest];
      UploadsAt(registered, answers, planned);
    } else {
      var done := Run(registered, answers, [PlanRequest, PlanComplete]);
      assert [PlanRequest, PlanComplete][..1] == [PlanRequest];
      assert [PlanRequest, PlanComplete, WaypointReached][..2] == [PlanRequest, PlanComplete];
      UploadsAt(registered, answers, done);
    }
  }

  /** The start of the mission, up to NAVIGATING. */
  lemma PlansFromStart(registered: set<Callback>)
    ensures var answers := OnlyPlans(registered);
            var m := Step(registered, answers, Start(), PlanRequest);
            && (Plan in registered ==> m.current.Navigating? && |m.calls| == 1)
            && (Plan !in registered ==>
                  var n := Step(registered, answers, m, PlanComplete); n.current.Navigating? && n.calls == [])
  {
  }

  /** A waypoint at which every further answer is no. */
  lemma UploadsAt(registered: set<Callback>, answers: nat -> bool, m: Machine)
    requires m.current.Navigating? && NavigateStep in registered && forall k: nat :: k >= |m.calls| ==> !answers(k)
    ensures TO_UPLOAD in Step(registered, answers, m, WaypointReached).records
  {
    hide Outcome, Done;
    var t := Step(registered, answers, m, WaypointReached);
    assert t.records[|m.records|] == TO_UPLOAD;
  }

  /** A mission can go on from navigating to its upload exactly when `navigate_step` is registered. */
  lemma UploadReachableIff(registered: set<Callback>)
    ensures (exists answers: nat -> bool, events :: TO_UPLOAD in Run(registered, answers, events).records)
       <==> NavigateStep in registered
  {
    hide Run;
    if NavigateStep in registered {
      WitnessUploads(registered);
    } else {
      forall answers: nat -> bool, events ensures TO_UPLOAD !in Run(registered, answers, events).records {
        RunRecordsUpload(registered, answers, events);
      }
    }
  }

  /** So without it, as the application registers its callbacks, navigating and collecting lead only to
      each other or to ERROR, in every run. */
  lemma NavigationOnlyEndsInError(registered: set<Callback>, answers: nat -> bool, events: seq<StateEvent>, j: nat)
    requires NavigateStep !in registered && j < |Run(registered, answers, events).records|
    ensures var r := Run(registered, answers, events).records[j];
            r.source.Navigating? || r.source.DataCollecting? ==>
              r.target.Navigating? || r.target.DataCollecting? || r.target.Error?
  {
    hide Run, Path, Recovered;
    RunIsAllowedPath(registered, answers, events);
    RunRecordsUpload(registered, answers, events);
    var records := Run(registered, answers, events).records;
    assert Allowed(records[j]) && records[j] in records;
  }

  /** The event with which a working state's action answers is a single hop. */
  lemma AnswerStep(registered: set<Callback>, answers: nat -> bool, m: Machine, ok: bool)
    requires Working(m.current)
    ensures var e := if ok then Done(m.current) else ErrorOccurred;
            Step(registered, answers, m, e) == Hop(m, Outcome(m.current, ok, m.degraded), e)
  {
  }

  lemma DoneOf(s: SystemState)
    requires Working(s)
    ensures s.Planning? ==> Done(s) == PlanComplete
    ensures s.DataCollecting? ==> Done(s) == DataCollected
    ensures s.Uploading? ==> Done(s) == UploadComplete
  {
  }

  /** `Enter` by cases of the action. */
  lemma EnterCases(registered: set<Callback>, answers: nat -> bool, m: Machine, target: SystemState, e: StateEvent)
    ensures var h, action, t := Hop(m, target, e), ActionOf(target), Enter(registered, answers, m, target, e);
            && (action.None? || action.value !in registered ==> t == h)
            && (action.Some? && action.value in registered && !Working(target) ==> t == Called(h, action.value))
            && (action.Some? && action.value in registered && Working(target) ==>
                  var ok := answers(|m.calls|);
                  var reply := if ok then Done(target) else ErrorOccurred;
                  t == Hop(Called(h, action.value), Outcome(target, ok, m.degraded), reply))
    ensures Hop(m, target, e).degraded == m.degraded && Hop(m, target, e).calls == m.calls
    ensures Hop(m, target, e).current == target
  {
    hide Outcome, Done;
  }

  lemma CalledFrame(m: Machine, c: Callback)
    ensures Called(m, c).current == m.current && Called(m, c).degraded == m.degraded
  {
  }

  // ---------------------------------------------------------------- the class

  class StateMachine {
    const registered: set<Callback>
    const answers: nat -> bool
    var currentState: SystemState
    var degradeMode: bool
    var records: seq<Record>
    ghost var calls: seq<Callback>
    var asked: nat

    ghost function View(): Machine
      reads this
    {
      Machine(currentState, degradeMode, records, calls)
    }

    ghost predicate Valid()
      reads this
    {
      asked == |calls|
    }

    /** The constructor, and `initialize`. */
    constructor (registered: set<Callback>, answers: nat -> bool)
      ensures Valid() && View() == Start()
      ensures this.registered == registered && this.answers == answers
    {
      this.registered, this.answers := registered, answers;
      currentState, degradeMode, records, calls, asked := Initializing, false, [], [], 0;
      new;
      TransitionToState(Idle, InitComplete);
    }

    /** A call of a registered callback. */
    method Call(c: Callback) returns (ok: bool)
      requires Valid()
      modifies this`calls, this`asked
      ensures Valid() && View() == Called(old(View()), c) && ok == answers(|old(calls)|)
    {
      ok := answers(asked);
      calls, asked := calls + [c], asked + 1;
    }

    method HandleEvent(e: StateEvent)
      requires Valid()
      modifies this
      ensures Valid() && View() == Step(registered, answers, old(View()), e)
      decreases if Working(currentState) then 1 else 4
    {
      match currentState {
        case Initializing =>
          if e == InitComplete {
            TransitionToState(Idle, e);
          }
        case Idle => HandleIdle(e);
        case Planning => HandlePlanning(e);
        case Navigating => HandleNavigating(e);
        case DataCollecting => HandleDataCollection(e);
        case Uploading => HandleUploading(e);
        case Error => HandleError(e);
        case ShuttingDown =>
      }
    }

    method HandleIdle(e: StateEvent)
      requires Valid() && currentState.Idle?
      modifies this
      ensures Valid() && View() == Step(registered, answers, old(View()), e)
      decreases 3
    {
      hide Enter;
      match e {
        case PlanRequest => TransitionToState(Planning, e);
        case UploadRequest => TransitionToState(Uploading, e);
        case ShutdownRequest => TransitionToState(ShuttingDown, e);
        case _ =>
      }
    }

    method HandlePlanning(e: StateEvent)
      requires Valid() && currentState.Planning?
      modifies this
      ensures Valid() && View() == Step(registered, answers, old(View()), e)
      decreases 0, 1
    {
      hide Enter;
      match e {
        case PlanComplete => TransitionToState(Navigating, e);
        case ErrorOccurred => TransitionToState(Error, e);
        case _ =>
      }
    }

    method HandleNavigating(e: StateEvent)
      requires Valid() && currentState.Navigating?
      modifies this
      ensures Valid() && View() == Step(registered, answers, old(View()), e)
      decreases 3
    {
      hide Enter;
      match e {
        case WaypointReached =>
          var collect := false;
          if ShouldCollect in registered {
            collect := Call(ShouldCollect);
          }
          if collect {
            TransitionToState(DataCollecting, Triggered);
          } else if NavigateStep in registered {
            var more := Call(NavigateStep);
            if !more {
              TransitionToState(Uploading, UploadRequest);
            }
          }
        case Triggered => TransitionToState(DataCollecting, e);
        case ErrorOccurred => TransitionToState(Error, e);
        case _ =>
      }
    }

    method HandleDataCollection(e: StateEvent)
      requires Valid() && currentState.DataCollecting?
      modifies this
      ensures Valid() && View() == Step(registered, answers, old(View()), e)
      decreases 0, 1
    {
      hide Enter;
      match e {
        case DataCollected => TransitionToState(Navigating, e);
        case ErrorOccurred => TransitionToState(Error, e);
        case _ =>
      }
    }

    method HandleUploading(e: StateEvent)
      requires Valid() && currentState.Uploading?
      modifies this
      ensures Valid() && View() == Step(registered, answers, old(View()), e)
      decreases 0, 1
    {
      hide Enter;
      match e {
        case UploadComplete => TransitionToState(Idle, e);
        case ErrorOccurred =>
          if degradeMode {
            TransitionToState(Idle, e);
          } else {
            TransitionToState(Error, e);
          }
        case _ =>
      }
    }

    method HandleError(e: StateEvent)
      requires Valid() && currentState.Error?
      modifies this
      ensures Valid() && View() == Step(registered, answers, old(View()), e)
      decreases 3
    {
      hide Enter;
      match e {
        case RecoveryRequest =>
          degradeMode := true;
          TransitionToState(Idle, e);
        case ShutdownRequest => TransitionToState(ShuttingDown, e);
        case _ =>
      }
    }

    /** Assigns the state, records the hop and runs the new state's action, whose answer is
        dispatched as an event in turn. */
    method TransitionToState(target: SystemState, e: StateEvent)
      requires Valid()
      modifies this
      ensures Valid() && View() == Enter(registered, answers, old(View()), target, e)
      decreases if Working(target) then 2 else 0, 0
    {
      hide Step, Outcome, Called, Enter, Done;
      EnterCases(registered, answers, View(), target, e);
      records := records + [Record(currentState, e, target)];
      currentState := target;
      assert View() == Hop(old(View()), target, e);
      hide Hop;
      match target {
        case Planning =>
          if Plan in registered {
            CalledFrame(View(), Plan);
            var success := Call(Plan);
            AnswerStep(registered, answers, View(), success);
            DoneOf(target);
            HandleEvent(if success then PlanComplete else ErrorOccurred);
          }
        case DataCollecting =>
          if Collect in registered {
            CalledFrame(View(), Collect);
            var success := Call(Collect);
            AnswerStep(registered, answers, View(), success);
            DoneOf(target);
            HandleEvent(if success then DataCollected else ErrorOccurred);
          }
        case Uploading =>
          if Upload in registered {
            CalledFrame(View(), Upload);
            var success := Call(Upload);
            AnswerStep(registered, answers, View(), success);
            DoneOf(target);
            HandleEvent(if success then UploadComplete else ErrorOccurred);
          }
        case ShuttingDown =>
          if OnShutdown in registered {
            var _ := Call(OnShutdown);
          }
        case _ =>
      }
    }
  }
}
